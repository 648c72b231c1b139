/**
  `clean_markdown`: the chain of regular-expression substitutions that turns
  inline Markdown into the converter's paragraph markup. Every pattern is a
  literal delimiter around a lazy group `(.+?)`, so each substitution is
  written as a left-to-right scan that, at every position, either finds the
  shortest match starting there or copies one character, as `re.sub` does.
 */
module Inline {
  import opened Text

  datatype Option<T> = None | Some(value: T)

  /** The characters of the emoji class stripped first. The building emoji is
      written with a trailing variation selector, so U+FE0F is in the class too. */
  predicate IsListedEmoji(c: char) {
    c in {'\U{2705}', '\U{274C}', '\U{1F4F1}', '\U{1F3AF}', '\U{1F3D7}', '\U{FE0F}',
          '\U{1F527}', '\U{1F4CA}', '\U{1F9EA}', '\U{1F4E1}', '\U{1F510}', '\U{1F4C8}',
          '\U{1F393}', '\U{1F52E}', '\U{1F4DD}', '\U{1F4DE}', '\U{1F680}', '\U{1F30D}'}
  }

  predicate NoEmoji(s: string) {
    forall k :: 0 <= k < |s| ==> !IsListedEmoji(s[k])
  }

  /** Text that none of the substitutions can touch: no listed emoji and
      none of the characters every pattern starts with. */
  predicate Plain(s: string) {
    NoEmoji(s) && '*' !in s && '_' !in s && '`' !in s && '[' !in s
  }

  /** A piece of emoji-free text is emoji-free. */
  lemma NoEmojiSlice(s: string, i: nat, j: nat)
    requires i <= j <= |s|
    ensures NoEmoji(s) ==> NoEmoji(s[i..j])
  {
    if NoEmoji(s) {
      forall k | 0 <= k < j - i ensures !IsListedEmoji(s[i..j][k]) {
        assert s[i..j][k] == s[i + k];
      }
    }
  }

  /** Two pieces of emoji-free text joined are emoji-free. */
  lemma NoEmojiConcat(a: string, b: string)
    ensures NoEmoji(a) && NoEmoji(b) ==> NoEmoji(a + b)
  {
    if NoEmoji(a) && NoEmoji(b) {
      forall k | 0 <= k < |a + b| ensures !IsListedEmoji((a + b)[k]) {
        if k >= |a| {
          assert (a + b)[k] == b[k - |a|];
        }
      }
    }
  }

  /** `re.sub(r'[✅❌…]', '', text)`: drops the listed emoji and keeps every
      other character, in order. */
  function StripEmoji(s: string): (r: string)
    ensures NoEmoji(r)
    ensures forall c :: c in r ==> c in s
    ensures NoEmoji(s) ==> r == s
    decreases |s|
  {
    if |s| == 0 then ""
    else if IsListedEmoji(s[0]) then StripEmoji(s[1..])
    else [s[0]] + StripEmoji(s[1..])
  }

  /** The emoji strip works character by character: on two pieces of text
      it strips each piece and joins the results. */
  lemma {:induction false} StripEmojiAppend(a: string, b: string)
    ensures StripEmoji(a + b) == StripEmoji(a) + StripEmoji(b)
    decreases |a|
  {
    if |a| > 0 {
      assert (a + b)[0] == a[0] && (a + b)[1..] == a[1..] + b;
      StripEmojiAppend(a[1..], b);
    } else {
      assert a + b == b;
    }
  }

  /** A single character is dropped exactly when it is a listed emoji. */
  lemma StripEmojiChar(c: char)
    ensures StripEmoji([c]) == if IsListedEmoji(c) then [] else [c]
  {
    assert [c][1..] == [];
  }

  /** `s[from..j]` can be the lazy group `(.+?)` of a pattern that continues
      with the literal `d`: the group holds at least one character and no
      newline (`.` does not match one), and `d` follows it. */
  predicate ClosesAt(s: string, from: nat, j: nat, d: string) {
    from < j && j + |d| <= |s|
    && (forall k :: from <= k < j ==> s[k] != '\n')
    && s[j..j + |d|] == d
  }

  /** The end of the shortest lazy group starting at `from` and closed by `d`,
      searching candidate ends from `j` upwards. */
  function LazyClose(s: string, from: nat, j: nat, d: string): (r: Option<nat>)
    requires from < j
    requires forall k :: from <= k < j - 1 && k < |s| ==> s[k] != '\n'
    requires forall j' :: from < j' < j ==> !ClosesAt(s, from, j', d)
    ensures r.Some? ==> ClosesAt(s, from, r.value, d)
    ensures r.Some? ==> forall j' :: from < j' < r.value ==> !ClosesAt(s, from, j', d)
    ensures r.None? ==> forall j' :: !ClosesAt(s, from, j', d)
    decreases |s| - j
  {
    if j + |d| > |s| || s[j - 1] == '\n' then None
    else if s[j..j + |d|] == d then Some(j)
    else LazyClose(s, from, j + 1, d)
  }

  /** `re.sub(d + r'(.+?)' + d, pre + r'\1' + post, s)` for a literal
      delimiter `d`. */
  function SubWrap(s: string, d: string, pre: string, post: string): (r: string)
    requires d != []
    ensures d[0] !in s ==> r == s
    ensures NoEmoji(s) && NoEmoji(pre) && NoEmoji(post) ==> NoEmoji(r)
    decreases |s|
  {
    if |s| == 0 then ""
    else if StartsWith(s, d) then
      match LazyClose(s, |d|, |d| + 1, d)
      case Some(j) =>
        var group, rest := s[|d|..j], SubWrap(s[j + |d|..], d, pre, post);
        NoEmojiSlice(s, |d|, j);
        NoEmojiSlice(s, j + |d|, |s|);
        NoEmojiConcat(pre, group);
        NoEmojiConcat(pre + group, post);
        NoEmojiConcat(pre + group + post, rest);
        pre + group + post + rest
      case None =>
        var rest := SubWrap(s[1..], d, pre, post);
        NoEmojiSlice(s, 0, 1);
        NoEmojiSlice(s, 1, |s|);
        NoEmojiConcat([s[0]], rest);
        [s[0]] + rest
    else
      var rest := SubWrap(s[1..], d, pre, post);
      NoEmojiSlice(s, 0, 1);
      NoEmojiSlice(s, 1, |s|);
      NoEmojiConcat([s[0]], rest);
      assert d[0] !in s ==> d[0] !in s[1..];
      [s[0]] + rest
  }

  /** A link `[text](url)` whose text group ends at `j` and whose url group
      ends at `m`: both groups lazy, non-empty and newline-free. */
  predicate LinkAt(s: string, j: nat, m: nat) {
    ClosesAt(s, 1, j, "](") && ClosesAt(s, j + 2, m, ")")
  }

  /** No url group starting at `from` closes before `m`. */
  predicate ShortestUrl(s: string, from: nat, m: nat) {
    forall m' :: from < m' < m ==> !ClosesAt(s, from, m', ")")
  }

  /** The match of `\[(.+?)\]\(.+?\)` at the start of `s` (which holds `[`),
      trying text groups that end at `j` or later: the shortest text group
      for which some url group closes, backtracking into longer text groups
      when none does; returns the text group's end and the url group's end
      (the closing parenthesis sits there). */
  function LinkFrom(s: string, j: nat): (r: Option<(nat, nat)>)
    requires 1 < j
    ensures r.Some? ==> j <= r.value.0 && LinkAt(s, r.value.0, r.value.1)
    ensures r.Some? ==> forall j', m :: j <= j' < r.value.0 ==> !LinkAt(s, j', m)
    ensures r.Some? ==> ShortestUrl(s, r.value.0 + 2, r.value.1)
    ensures r.None? ==> forall j', m :: j <= j' ==> !LinkAt(s, j', m)
    decreases |s| - j
  {
    if j + 2 > |s| then None
    else if s[j - 1] == '\n' then
      NewlineEndsLinks(s, j);
      None
    else if ClosesAt(s, 1, j, "](") then
      match LazyClose(s, j + 2, j + 3, ")")
      case Some(m) => Some((j, m))
      case None => LinkFrom(s, j + 1)
    else LinkFrom(s, j + 1)
  }

  /** A text group cannot run across a newline. */
  lemma NewlineEndsLinks(s: string, j: nat)
    requires 1 < j <= |s| && s[j - 1] == '\n'
    ensures forall j', m :: j <= j' ==> !LinkAt(s, j', m)
  {
  }

  /** `re.sub(r'\[(.+?)\]\(.+?\)', r'\1', s)`: keeps the link text, drops the
      brackets and the url. */
  function SubLink(s: string): (r: string)
    ensures '[' !in s ==> r == s
    ensures |r| <= |s|
    ensures NoEmoji(s) ==> NoEmoji(r)
    decreases |s|
  {
    if |s| == 0 then ""
    else if s[0] == '[' then
      match LinkFrom(s, 2)
      case Some((j, m)) =>
        var text, rest := s[1..j], SubLink(s[m + 1..]);
        NoEmojiSlice(s, 1, j);
        NoEmojiSlice(s, m + 1, |s|);
        NoEmojiConcat(text, rest);
        text + rest
      case None =>
        var rest := SubLink(s[1..]);
        NoEmojiSlice(s, 0, 1);
        NoEmojiSlice(s, 1, |s|);
        NoEmojiConcat([s[0]], rest);
        [s[0]] + rest
    else
      var rest := SubLink(s[1..]);
      NoEmojiSlice(s, 0, 1);
      NoEmojiSlice(s, 1, |s|);
      NoEmojiConcat([s[0]], rest);
      assert '[' !in s ==> '[' !in s[1..];
      [s[0]] + rest
  }

  const Bold := "<b>"
  const BoldEnd := "</b>"
  const Italic := "<i>"
  const ItalicEnd := "</i>"
  const Mono := "<font face=\"Courier\">"
  const MonoEnd := "</font>"

  /** `clean_markdown`: emoji strip, then `**` and `__` to bold, `*` and `_`
      to italic, backticks to a Courier span, and links to their text, each
      step rewriting the previous step's output. No listed emoji survives,
      and plain text comes back unchanged. */
  function Clean(text: string): (r: string)
    ensures NoEmoji(r)
    ensures Plain(text) ==> r == text
  {
    var t0 := StripEmoji(text);
    var t1 := SubWrap(t0, "**", Bold, BoldEnd);
    var t2 := SubWrap(t1, "__", Bold, BoldEnd);
    var t3 := SubWrap(t2, "*", Italic, ItalicEnd);
    var t4 := SubWrap(t3, "_", Italic, ItalicEnd);
    var t5 := SubWrap(t4, "`", Mono, MonoEnd);
    var t6 := SubLink(t5);
    TagsHaveNoEmoji();
    t6
  }

  lemma TagsHaveNoEmoji()
    ensures NoEmoji(Bold) && NoEmoji(BoldEnd) && NoEmoji(Italic)
    ensures NoEmoji(ItalicEnd) && NoEmoji(Mono) && NoEmoji(MonoEnd)
  {
  }

  /** A delimited word with no delimiter or newline inside is one match. */
  lemma {:induction false} SubWrapWhole(w: string, d: string, pre: string, post: string)
    requires d != [] && w != [] && d[0] !in w && '\n' !in w
    ensures SubWrap(d + w + d, d, pre, post) == pre + w + post
  {
    var s := d + w + d;
    var e := |d| + |w|;
    WrappedCloses(w, d);
    assert StartsWith(s, d) && s[|d|..e] == w && s[e + |d|..] == [];
  }

  /** The lazy group opened after a leading `d` of `d + w + d` closes at the
      trailing `d` when `w` holds neither `d`'s first character nor a
      newline. */
  lemma WrappedCloses(w: string, d: string)
    requires d != [] && w != [] && d[0] !in w && '\n' !in w
    ensures LazyClose(d + w + d, |d|, |d| + 1, d) == Some(|d| + |w|)
  {
    WrappedClosesAtEnd(w, d);
    WrappedNoEarlierClose(w, d);
    LazyCloseFinds(d + w + d, |d|, |d| + 1, |d| + |w|, d);
  }

  lemma WrappedClosesAtEnd(w: string, d: string)
    requires '\n' !in w && w != []
    ensures ClosesAt(d + w + d, |d|, |d| + |w|, d)
  {
    var s := d + w + d;
    var e := |d| + |w|;
    assert s[e..e + |d|] == d;
    forall k | |d| <= k < e ensures s[k] != '\n' {
      assert s[k] == w[k - |d|];
    }
  }

  lemma WrappedNoEarlierClose(w: string, d: string)
    requires d != [] && d[0] !in w
    ensures forall j' :: |d| < j' < |d| + |w| ==> !ClosesAt(d + w + d, |d|, j', d)
  {
    var s := d + w + d;
    forall j' | |d| < j' < |d| + |w| ensures !ClosesAt(s, |d|, j', d) {
      assert s[j'] == w[j' - |d|];
    }
  }

  /** Searching from `j`, the lazy group closes at the first end `e` it can. */
  lemma {:induction false} LazyCloseFinds(s: string, from: nat, j: nat, e: nat, d: string)
    requires from < j <= e && ClosesAt(s, from, e, d)
    requires forall j' :: from < j' < e ==> !ClosesAt(s, from, j', d)
    ensures LazyClose(s, from, j, d) == Some(e)
    decreases e - j
  {
    assert s[j - 1] != '\n';
    if j < e {
      assert !ClosesAt(s, from, j, d);
      LazyCloseFinds(s, from, j + 1, e, d);
    }
  }

  /** Emoji-free text on which only the `**` step acts, leaving plain text,
      is cleaned to that step's output. */
  lemma CleanIsBoldStep(text: string, u: string)
    requires NoEmoji(text) && u == SubWrap(text, "**", Bold, BoldEnd) && Plain(u)
    ensures Clean(text) == u
  {
  }

  /** A word wrapped in `**` comes out wrapped in a bold span. */
  lemma CleanBold(w: string)
    requires w != [] && Plain(w) && '\n' !in w
    ensures Clean("**" + w + "**") == Bold + w + BoldEnd
  {
    WrappedHasNoEmoji(w);
    SubWrapWhole(w, "**", Bold, BoldEnd);
    BoldSpanIsPlain(w);
    CleanIsBoldStep("**" + w + "**", Bold + w + BoldEnd);
  }

  lemma WrappedHasNoEmoji(w: string)
    requires NoEmoji(w)
    ensures NoEmoji("**" + w + "**")
  {
    NoEmojiConcat("**", w);
    NoEmojiConcat("**" + w, "**");
  }

  lemma BoldSpanIsPlain(w: string)
    requires Plain(w)
    ensures Plain(Bold + w + BoldEnd)
  {
    TagsHaveNoEmoji();
    NoEmojiConcat(Bold, w);
    NoEmojiConcat(Bold + w, BoldEnd);
  }

  /** The link step on a whole `[text](url)` keeps the text alone. */
  lemma SubLinkWhole(text: string, url: string)
    requires text != [] && '\n' !in text && ']' !in text
    requires url != [] && '\n' !in url && ')' !in url
    ensures SubLink("[" + text + "](" + url + ")") == text
  {
    SubLinkFront(text, url, []);
    assert "[" + text + "](" + url + ")" + [] == "[" + text + "](" + url + ")";
  }

  /** A link `[text](url)` at the front is replaced by its text, and the
      link step goes on after the closing parenthesis. */
  lemma {:induction false} SubLinkFront(text: string, url: string, rest: string)
    requires text != [] && '\n' !in text && ']' !in text
    requires url != [] && '\n' !in url && ')' !in url
    ensures SubLink("[" + text + "](" + url + ")" + rest) == text + SubLink(rest)
  {
    var s := "[" + text + "](" + url + ")" + rest;
    var j := 1 + |text|;
    var a := j + 2;
    var m := a + |url|;
    assert s[1..j] == text && s[j..a] == "](" && s[a..m] == url && s[m] == ')';
    assert LinkAt(s, j, m) by {
      forall k | 1 <= k < j ensures s[k] != '\n' { assert s[k] == text[k - 1]; }
      forall k | a <= k < m ensures s[k] != '\n' { assert s[k] == url[k - a]; }
    }
    forall j', m' | 1 < j' < j ensures !LinkAt(s, j', m') {
      assert s[j'] == text[j' - 1];
    }
    forall m' | a < m' < m ensures !ClosesAt(s, a, m', ")") {
      assert s[m'] == url[m' - a];
    }
    assert LinkFrom(s, 2) == Some((j, m));
    assert s[m + 1..] == rest;
  }

  /** Plain text the link step alone acts on is cleaned to that step's output. */
  lemma CleanIsLinkStep(text: string)
    requires NoEmoji(text) && '*' !in text && '_' !in text && '`' !in text
    ensures Clean(text) == SubLink(text)
  {
  }

  /** A link `[text](url)` comes out as its text alone. */
  lemma CleanLink(text: string, url: string)
    requires text != [] && Plain(text) && '\n' !in text && ']' !in text
    requires url != [] && Plain(url) && '\n' !in url && ')' !in url
    ensures Clean("[" + text + "](" + url + ")") == text
  {
    var s := "[" + text + "](" + url + ")";
    var j := 1 + |text|;
    forall k | 0 <= k < |s|
      ensures !IsListedEmoji(s[k]) && s[k] != '*' && s[k] != '_' && s[k] != '`'
    {
      if 1 <= k < j { assert s[k] == text[k - 1]; }
      else if j + 2 <= k < |s| - 1 { assert s[k] == url[k - j - 2]; }
    }
    SubLinkWhole(text, url);
    CleanIsLinkStep(s);
  }

  /** A link nested in a link's text: the shortest text group that has a
      closing url is the inner link's opening, so `[[t](u)](v)` is cleaned to
      the link `[t](v)`. */
  lemma CleanNestedLink(t: string, u: string, v: string)
    requires t != [] && Plain(t) && '\n' !in t && ']' !in t
    requires u != [] && Plain(u) && '\n' !in u && ')' !in u
    requires v != [] && Plain(v) && '\n' !in v && ')' !in v
    ensures Clean("[[" + t + "](" + u + ")](" + v + ")") == "[" + t + "](" + v + ")"
  {
    NestedLinkIsLinkOnly(t, u, v);
    CleanIsLinkStep("[[" + t + "](" + u + ")](" + v + ")");
    NestedLinkStep(t, u, v);
  }

  /** The link step on `[[t](u)](v)` keeps `[t` and leaves `](v)` alone. */
  lemma NestedLinkStep(t: string, u: string, v: string)
    requires t != [] && Plain(t) && '\n' !in t && ']' !in t
    requires u != [] && '\n' !in u && ')' !in u
    requires Plain(v)
    ensures SubLink("[[" + t + "](" + u + ")](" + v + ")") == "[" + t + "](" + v + ")"
  {
    var text, rest := "[" + t, "](" + v + ")";
    NestedLinkShape(t, u, v);
    SubLinkFront(text, u, rest);
    assert '[' !in rest;
  }

  lemma NestedLinkShape(t: string, u: string, v: string)
    ensures "[[" + t + "](" + u + ")](" + v + ")" == "[" + ("[" + t) + "](" + u + ")" + ("](" + v + ")")
    ensures ("[" + t) + ("](" + v + ")") == "[" + t + "](" + v + ")"
  {
  }

  /** `[[t](u)](v)` holds none of the characters the other steps act on. */
  lemma NestedLinkIsLinkOnly(t: string, u: string, v: string)
    requires Plain(t) && Plain(u) && Plain(v)
    ensures var s := "[[" + t + "](" + u + ")](" + v + ")";
      NoEmoji(s) && '*' !in s && '_' !in s && '`' !in s
  {
    var s := "[[" + t + "](" + u + ")](" + v + ")";
    var j := 2 + |t|;
    var a := j + 2 + |u| + 3;
    forall k | 0 <= k < |s|
      ensures !IsListedEmoji(s[k]) && s[k] != '*' && s[k] != '_' && s[k] != '`'
    {
      if 2 <= k < j { assert s[k] == t[k - 2]; }
      else if j + 2 <= k < j + 2 + |u| { assert s[k] == u[k - j - 2]; }
      else if a <= k < |s| - 1 { assert s[k] == v[k - a]; }
    }
  }

  /** Cleaning is not idempotent: `[[t](u)](v)` is cleaned to `[t](v)`,
      which a second cleaning reduces to `t`. */
  lemma CleanNotIdempotent(t: string, u: string, v: string)
    requires t != [] && Plain(t) && '\n' !in t && ']' !in t
    requires u != [] && Plain(u) && '\n' !in u && ')' !in u
    requires v != [] && Plain(v) && '\n' !in v && ')' !in v
    ensures var once := Clean("[[" + t + "](" + u + ")](" + v + ")");
      once == "[" + t + "](" + v + ")" && Clean(once) == t && Clean(once) != once
  {
    CleanNestedLink(t, u, v);
    CleanLink(t, v);
  }
}
