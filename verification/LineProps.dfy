/**
  What a single line outside any code block or table turns into: which
  prefixes make a heading, a rule or a list item, how a list item's
  indentation and mark are drawn, and which lines only give a gap.
 */
module LineProps {
  import opened Text
  import opened Inline
  import opened Document
  import opened Parser

  /** A run of digits in front of text that does not start with a digit
      is the whole run `DigitRun` measures. */
  lemma {:induction false} DigitRunOf(ds: string, u: string)
    requires forall k :: 0 <= k < |ds| ==> IsDigit(ds[k])
    requires u == [] || !IsDigit(u[0])
    ensures DigitRun(ds + u) == |ds|
    decreases |ds|
  {
    if |ds| > 0 {
      assert (ds + u)[1..] == ds[1..] + u;
      DigitRunOf(ds[1..], u);
    } else {
      assert ds + u == u;
    }
  }

  /** A line whose first character is not whitespace is stripped to text
      starting with that character. */
  lemma StripStartsAsLine(line: string)
    requires line != [] && !IsSpace(line[0])
    ensures Strip(line) != [] && Strip(line)[0] == line[0]
  {
    assert LStrip(line) == line;
  }

  /** A line that does not start with `#` or `-` has none of the prefixes
      of a heading or a rule. */
  lemma NoBlockPrefix(line: string)
    requires line != [] ==> line[0] != '#' && line[0] != '-'
    ensures !StartsWith(line, "# ") && !StartsWith(line, "## ") && !StartsWith(line, "### ")
    ensures !StartsWith(line, "---")
  {
    if line != [] {
      assert line[0] != '#' && line[0] != '-';
    }
  }

  /** Headings need the space after the hashes: a line that starts with
      four or more `#` is a paragraph that keeps its hashes. */
  lemma DeepHeadingIsParagraph(line: string)
    requires StartsWith(line, "####")
    ensures Classify(line) == Para(Strip(line))
  {
    FourHashes(line);
    StripStartsAsLine(line);
    assert !IsBulleted(Strip(line)) && DigitRun(Strip(line)) == 0;
  }

  lemma FourHashes(line: string)
    requires StartsWith(line, "####")
    ensures !StartsWith(line, "# ") && !StartsWith(line, "## ") && !StartsWith(line, "### ")
    ensures !StartsWith(line, "---") && line[0] == '#'
  {
    assert line[0] == '#' && line[1] == '#' && line[2] == '#' && line[3] == '#';
  }

  /** Headings are recognised on the raw line: a heading mark after leading
      whitespace gives a paragraph that keeps the mark. */
  lemma IndentedHeadingIsParagraph(line: string)
    requires line != [] && IsSpace(line[0]) && StrippedStartsWith(line, '#')
    ensures Classify(line) == Para(Strip(line))
  {
    NoBlockPrefix(line);
    StrippedFirst(line, '#');
    NotListItem(Strip(line));
    TrimmedParagraph(line);
  }

  /** The trimmed text of a line whose trimmed form starts with `c` starts
      with `c`. */
  lemma StrippedFirst(line: string, c: char)
    requires !IsSpace(c) && StrippedStartsWith(line, c)
    ensures Strip(line) != [] && Strip(line)[0] == c
  {
    StrippedStartsWithIsStrip(line, c);
    var s := Strip(line);
    assert s[..1] == [c];
  }

  /** Text starting with `#` is no list item. */
  lemma NotListItem(s: string)
    requires s != [] && s[0] == '#'
    ensures !IsListItem(s)
  {
    assert DigitRun(s) == 0;
  }

  /** A line with none of the prefixes of a heading or a rule whose trimmed
      form is no list item and not empty is a paragraph of that trimmed
      form. */
  lemma TrimmedParagraph(line: string)
    requires !StartsWith(line, "# ") && !StartsWith(line, "## ") && !StartsWith(line, "### ")
    requires !StartsWith(line, "---")
    requires Strip(line) != [] && !IsListItem(Strip(line))
    ensures Classify(line) == Para(Strip(line))
  {
  }

  /** The same for a trimmed form that is a bullet item. */
  lemma TrimmedBullet(line: string)
    requires !StartsWith(line, "# ") && !StartsWith(line, "## ") && !StartsWith(line, "### ")
    requires !StartsWith(line, "---")
    requires IsBulleted(Strip(line))
    ensures Classify(line) == Item(Indent(line), Bullet, Strip(line)[2..])
  {
  }

  /** The same for a trimmed form that is a numbered item. */
  lemma TrimmedNumbered(line: string)
    requires !StartsWith(line, "# ") && !StartsWith(line, "## ") && !StartsWith(line, "### ")
    requires !StartsWith(line, "---")
    requires !IsBulleted(Strip(line)) && IsNumbered(Strip(line))
    ensures Classify(line) == Item(Indent(line), NumberMark, DropNumber(Strip(line)))
  {
  }

  /** A `# ` line after the first is an h1 heading of its trimmed, cleaned
      remainder, then a 0.2 cm gap. */
  lemma HeadingOneBlocks(line: string, i: nat)
    requires StartsWith(line, "# ") && i > 0
    ensures LineBlocks(line, i) == [H1(Clean(Strip(line[2..]))), Spacer(2)]
  {
    HeadingOne(line);
    BlocksOfClass(line, i, Heading(1, Strip(line[2..])));
  }

  lemma HeadingOne(line: string)
    requires StartsWith(line, "# ")
    ensures Classify(line) == Heading(1, Strip(line[2..]))
  {
  }

  /** A `## ` line is an h2 heading of its trimmed, cleaned remainder, then a
      0.1 cm gap. */
  lemma HeadingTwoBlocks(line: string, i: nat)
    requires StartsWith(line, "## ")
    ensures LineBlocks(line, i) == [H2(Clean(Strip(line[3..]))), Spacer(1)]
  {
    HeadingTwo(line);
    BlocksOfClass(line, i, Heading(2, Strip(line[3..])));
  }

  lemma HeadingTwo(line: string)
    requires StartsWith(line, "## ")
    ensures Classify(line) == Heading(2, Strip(line[3..]))
  {
    NotFewerHashes(line, 2);
  }

  /** A `### ` line is an h3 heading of its trimmed, cleaned remainder, with
      no gap after it. */
  lemma HeadingThreeBlocks(line: string, i: nat)
    requires StartsWith(line, "### ")
    ensures LineBlocks(line, i) == [H3(Clean(Strip(line[4..])))]
  {
    var t := Strip(line[4..]);
    HeadingThree(line);
    BlocksOfClass(line, i, Heading(3, t));
    RenderHeadingThree(t, i);
  }

  lemma RenderHeadingThree(t: string, i: nat)
    ensures Render(Heading(3, t), i) == [H3(Clean(t))]
  {
  }

  /** A line's flowables are those of its class. */
  lemma BlocksOfClass(line: string, i: nat, k: Line)
    requires Classify(line) == k
    ensures k.Heading? ==> 1 <= k.level <= 3
    ensures LineBlocks(line, i) == Render(k, i)
  {
  }

  lemma HeadingThree(line: string)
    requires StartsWith(line, "### ")
    ensures Classify(line) == Heading(3, Strip(line[4..]))
  {
    NotFewerHashes(line, 3);
  }

  /** A line starting with `n` hashes and a space has no heading prefix with
      fewer hashes. */
  lemma NotFewerHashes(line: string, n: nat)
    requires n == 2 || n == 3
    requires n + 1 <= |line| && forall k :: 0 <= k < n ==> line[k] == '#'
    ensures !StartsWith(line, "# ")
    ensures n == 3 ==> !StartsWith(line, "## ")
  {
    assert line[1] == '#';
    if n == 3 {
      assert line[2] == '#';
    }
  }

  /** A paragraph line is one body paragraph of its trimmed, cleaned text. */
  lemma ParagraphBlocks(line: string, i: nat)
    requires Classify(line).Para?
    ensures LineBlocks(line, i) == [Body(Clean(Strip(line)))]
  {
  }

  /** A line starting `---` is a horizontal rule, even when it goes on with
      other text. */
  lemma DashesAreRule(line: string)
    requires StartsWith(line, "---")
    ensures Classify(line) == Rule
  {
    DashesAreNoHeading(line);
  }

  lemma DashesAreNoHeading(line: string)
    requires StartsWith(line, "---")
    ensures !StartsWith(line, "# ") && !StartsWith(line, "## ") && !StartsWith(line, "### ")
  {
    assert line[0] == '-';
  }

  /** A rule is drawn as a 0.3 cm gap, a body paragraph of 80 underscores,
      and another 0.3 cm gap. */
  lemma RuleBlocks(i: nat)
    ensures var r := Render(Rule, i);
      |r| == 3 && r[0] == Spacer(3) && r[2] == Spacer(3) && r[1].Body?
      && |r[1].t| == 80 && forall k :: 0 <= k < 80 ==> r[1].t[k] == '_'
  {
    RepeatChar('_', 80);
  }

  /** A line gives nothing but a 0.2 cm gap exactly when it is all
      whitespace. */
  lemma GapOnlyForBlank(line: string, i: nat)
    ensures LineBlocks(line, i) == [Spacer(2)] <==> AllSpace(line)
  {
  }

  /** Leading whitespace, then text `u` that starts with no whitespace and
      ends with `v`, which is not all whitespace: the line is trimmed to `u`
      with the trailing whitespace of `v` dropped, and its indentation is the
      length of the leading whitespace. */
  lemma TrimmedParts(b: string, p: string, v: string)
    requires AllSpace(b) && p != [] && !IsSpace(p[0]) && !AllSpace(v)
    ensures Strip(b + p + v) == p + RStrip(v)
    ensures Indent(b + p + v) == |b|
  {
    var u := p + v;
    assert b + p + v == b + u && u[0] == p[0];
    LStripLeading(b, u);
    RStripFront(p, v);
  }

  /** A line that starts with whitespace or with the first character of a
      list item has none of the prefixes of a heading or a rule. */
  lemma ItemLineNoBlockPrefix(b: string, p: string, v: string)
    requires AllSpace(b) && |p| >= 2 && p[0] != '#' && (p[0] == '-' ==> p[1] == ' ')
    ensures var line := b + p + v;
      !StartsWith(line, "# ") && !StartsWith(line, "## ") && !StartsWith(line, "### ")
      && !StartsWith(line, "---")
  {
    var line := b + p + v;
    if b != [] {
      assert IsSpace(line[0]);
      NoBlockPrefix(line);
    } else {
      assert line[0] == p[0] && line[1] == p[1];
    }
  }

  /** A bullet item: leading whitespace `b`, the mark `-` or `*`, a space and
      the item text. Its indentation is the length of `b`, its mark the
      bullet, and its text loses its trailing whitespace. */
  lemma BulletItem(b: string, m: char, rest: string)
    requires AllSpace(b) && (m == '-' || m == '*') && !AllSpace(rest)
    ensures Classify(b + [m, ' '] + rest) == Item(|b|, Bullet, RStrip(rest))
  {
    var line := b + [m, ' '] + rest;
    TrimmedParts(b, [m, ' '], rest);
    ItemLineNoBlockPrefix(b, [m, ' '], rest);
    var s := Strip(line);
    assert s[..2] == [m, ' '] && s[2..] == RStrip(rest);
    TrimmedBullet(line);
  }

  /** A bullet item is drawn as one body paragraph: two `&nbsp;` for each
      character of indentation, the bullet, a space and the cleaned text. */
  lemma BulletItemBlocks(b: string, m: char, rest: string, i: nat)
    requires AllSpace(b) && (m == '-' || m == '*') && !AllSpace(rest)
    ensures LineBlocks(b + [m, ' '] + rest, i)
      == [Body(Repeat(NbSp, |b| * 2) + [Bullet] + " " + Clean(RStrip(rest)))]
  {
    BulletItem(b, m, rest);
  }

  /** A list item whose text is a bold word: `- **w**` after `b` gives the
      bullet followed by the word in a bold span. */
  lemma BoldBulletItem(b: string, w: string, i: nat)
    requires AllSpace(b) && w != [] && Plain(w) && '\n' !in w
    ensures LineBlocks(b + ['-', ' '] + ("**" + w + "**"), i)
      == [Body(Repeat(NbSp, |b| * 2) + [Bullet] + " " + (Bold + w + BoldEnd))]
  {
    BoldWordText(w);
    BulletItemBlocksWith(b, '-', "**" + w + "**", i, Bold + w + BoldEnd);
  }

  /** `**w**` is not all whitespace, keeps its end through `rstrip`, and is
      cleaned to `w` in a bold span. */
  lemma BoldWordText(w: string)
    requires w != [] && Plain(w) && '\n' !in w
    ensures !AllSpace("**" + w + "**")
    ensures Clean(RStrip("**" + w + "**")) == Bold + w + BoldEnd
  {
    var rest := "**" + w + "**";
    assert rest[|rest| - 1] == '*';
    NoTrailingSpace(rest);
    CleanBold(w);
  }

  /** A bullet item whose trimmed text is cleaned to `c`. */
  lemma BulletItemBlocksWith(b: string, m: char, rest: string, i: nat, c: string)
    requires AllSpace(b) && (m == '-' || m == '*') && !AllSpace(rest)
    requires Clean(RStrip(rest)) == c
    ensures LineBlocks(b + [m, ' '] + rest, i) == [Body(Repeat(NbSp, |b| * 2) + [Bullet] + " " + c)]
  {
    BulletItemBlocks(b, m, rest, i);
  }

  /** Text ending in a character other than whitespace is not all
      whitespace and keeps its end through `rstrip`. */
  lemma NoTrailingSpace(t: string)
    requires t != [] && !IsSpace(t[|t| - 1])
    ensures !AllSpace(t) && RStrip(t) == t
  {
  }

  /** A numbered item is drawn the same way with the open-circle mark, its
      number dropped. */
  lemma NumberedItemBlocks(b: string, ds: string, rest: string, i: nat)
    requires AllSpace(b) && ds != [] && forall k :: 0 <= k < |ds| ==> IsDigit(ds[k])
    requires rest != [] && !IsSpace(rest[0])
    ensures LineBlocks(b + ds + ". " + rest, i)
      == [Body(Repeat(NbSp, |b| * 2) + [NumberMark] + " " + Clean(RStrip(rest)))]
  {
    NumberedItem(b, ds, rest);
  }

  /** A numbered item: leading whitespace `b`, a run of digits, a dot, a
      space and item text starting with no whitespace. The number gives way
      to the open-circle mark. */
  lemma NumberedItem(b: string, ds: string, rest: string)
    requires AllSpace(b) && ds != [] && forall k :: 0 <= k < |ds| ==> IsDigit(ds[k])
    requires rest != [] && !IsSpace(rest[0])
    ensures Classify(b + ds + ". " + rest) == Item(|b|, NumberMark, RStrip(rest))
  {
    var line := b + ds + ". " + rest;
    var p := ds + ". ";
    assert line == b + p + rest && p[0] == ds[0];
    assert !AllSpace(rest) by { assert !IsSpace(rest[0]); }
    TrimmedParts(b, p, rest);
    ItemLineNoBlockPrefix(b, p, rest);
    var s := Strip(line);
    var t := RStrip(rest);
    assert t != [] && t[0] == rest[0];
    NumberDropped(ds, t);
    assert s == ds + ". " + t;
    TrimmedNumbered(line);
  }

  /** Digits, then a dot: a numbered item, and no bullet item. */
  lemma NumberedShape(ds: string, u: string)
    requires ds != [] && forall k :: 0 <= k < |ds| ==> IsDigit(ds[k])
    requires u != [] && u[0] == '.'
    ensures DigitRun(ds + u) == |ds| && IsNumbered(ds + u) && !IsBulleted(ds + u)
  {
    DigitRunOf(ds, u);
    assert (ds + u)[|ds|] == '.' && (ds + u)[0] == ds[0];
  }

  /** `re.sub(r'^\d+\.\s+', '', ...)` on digits, a dot, a space and text
      starting with no whitespace leaves the text, and the whole is a
      numbered item and no bullet item. */
  lemma NumberDropped(ds: string, t: string)
    requires ds != [] && forall k :: 0 <= k < |ds| ==> IsDigit(ds[k])
    requires t != [] && !IsSpace(t[0])
    ensures var s := ds + ". " + t;
      DropNumber(s) == t && IsNumbered(s) && !IsBulleted(s)
  {
    var u := ". " + t;
    assert ds + ". " + t == ds + u;
    NumberedShape(ds, u);
    DropNumberAt(ds + u, |ds|, t);
  }

  /** Dropping the number of text whose digits end at `n`, followed by a dot,
      a space and `t`, leaves `t` when `t` starts with no whitespace. */
  lemma DropNumberAt(s: string, n: nat, t: string)
    requires DigitRun(s) == n > 0 && n + 2 <= |s| && s[n] == '.' && s[n + 1] == ' '
    requires s[n + 2..] == t && (t == [] || !IsSpace(t[0]))
    ensures DropNumber(s) == t
  {
    DroppedAfterDot(s, n);
    SpaceThen(s, n + 1, t);
  }

  /** With whitespace after the dot, the number, the dot and what `lstrip`
      removes are dropped. */
  lemma DroppedAfterDot(s: string, n: nat)
    requires DigitRun(s) == n > 0 && n + 2 <= |s| && s[n] == '.' && IsSpace(s[n + 1])
    ensures DropNumber(s) == LStrip(s[n + 1..])
  {
  }

  /** `lstrip` of a suffix that is one space and then `t`, where `t` starts
      with no whitespace, is `t`. */
  lemma SpaceThen(s: string, m: nat, t: string)
    requires m + 1 <= |s| && s[m] == ' ' && s[m + 1..] == t
    requires t == [] || !IsSpace(t[0])
    ensures LStrip(s[m..]) == t
  {
    assert s[m..] == " " + t;
    LStripLeading(" ", t);
  }

  /** The same without whitespace after the dot: the text keeps its number. */
  lemma NumberKept(ds: string, t: string)
    requires ds != [] && forall k :: 0 <= k < |ds| ==> IsDigit(ds[k])
    requires t != [] && !IsSpace(t[0])
    ensures var s := ds + "." + t;
      DropNumber(s) == s && IsNumbered(s) && !IsBulleted(s)
  {
    var u := "." + t;
    assert ds + "." + t == ds + u;
    NumberedShape(ds, u);
    assert (ds + u)[|ds| + 1] == t[0];
  }

  /** A number followed by a dot but no whitespace still makes a numbered
      item, but its number stays in the text. */
  lemma NumberedItemWithoutSpace(b: string, ds: string, rest: string)
    requires AllSpace(b) && ds != [] && forall k :: 0 <= k < |ds| ==> IsDigit(ds[k])
    requires rest != [] && !IsSpace(rest[0])
    ensures Classify(b + ds + "." + rest) == Item(|b|, NumberMark, ds + "." + RStrip(rest))
  {
    var line := b + ds + "." + rest;
    var p := ds + ".";
    assert line == b + p + rest && p[0] == ds[0];
    assert !AllSpace(rest) by { assert !IsSpace(rest[0]); }
    TrimmedParts(b, p, rest);
    ItemLineNoBlockPrefix(b, p, rest);
    var s := Strip(line);
    var t := RStrip(rest);
    assert t != [] && t[0] == rest[0];
    NumberKept(ds, t);
    assert s == ds + "." + t;
    TrimmedNumbered(line);
  }
}
