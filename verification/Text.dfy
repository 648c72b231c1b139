/**
  The few Python `str` operations the converter relies on, with Python's
  meaning: whitespace as `str.isspace()` sees it, `strip`/`lstrip`/`rstrip`
  with no argument, `split` on one character, `join`, and `startswith`.
 */
module Text {

  /** `str.isspace()` for one character; `\s` in a `str` regular expression
      matches exactly the same set. */
  predicate IsSpace(c: char) {
    var n := c as int;
    (9 <= n <= 13) || (28 <= n <= 32) || n == 0x85 || n == 0xA0 || n == 0x1680
    || (0x2000 <= n <= 0x200A) || n == 0x2028 || n == 0x2029 || n == 0x202F
    || n == 0x205F || n == 0x3000
  }

  predicate AllSpace(s: string) {
    forall k :: 0 <= k < |s| ==> IsSpace(s[k])
  }

  /** `s.startswith(p)` */
  predicate StartsWith(s: string, p: string) {
    |p| <= |s| && s[..|p|] == p
  }

  /** `s.lstrip()`: the suffix of `s` left once the leading whitespace is gone. */
  function LStrip(s: string): (r: string)
    ensures |r| <= |s| && r == s[|s| - |r|..]
    ensures forall k :: 0 <= k < |s| - |r| ==> IsSpace(s[k])
    ensures r == [] || !IsSpace(r[0])
    decreases |s|
  {
    if |s| > 0 && IsSpace(s[0]) then LStrip(s[1..]) else s
  }

  /** `s.rstrip()`: the prefix of `s` left once the trailing whitespace is gone. */
  function RStrip(s: string): (r: string)
    ensures |r| <= |s| && r == s[..|r|]
    ensures forall k :: |r| <= k < |s| ==> IsSpace(s[k])
    ensures r == [] || !IsSpace(r[|r| - 1])
    decreases |s|
  {
    if |s| > 0 && IsSpace(s[|s| - 1]) then RStrip(s[..|s| - 1]) else s
  }

  /** Text that neither starts nor ends with whitespace. */
  predicate Trimmed(s: string) {
    s == [] || (!IsSpace(s[0]) && !IsSpace(s[|s| - 1]))
  }

  /** `s.strip()`: an infix of `s` that neither starts nor ends with
      whitespace, and is empty exactly when `s` is all whitespace
      (`StripIsInfix` says which infix). */
  function Strip(s: string): (r: string)
    ensures |r| <= |s|
    ensures Trimmed(r)
    ensures r == [] <==> AllSpace(s)
  {
    var l := LStrip(s);
    var r := RStrip(l);
    assert r == [] ==> l == [] by {
      if l != [] {
        assert !IsSpace(l[0]);
      }
    }
    r
  }

  /** What `strip` keeps is what is left of `s` once its `Indent(s)` leading
      whitespace characters and its trailing whitespace are gone. */
  lemma StripIsInfix(s: string)
    ensures Indent(s) + |Strip(s)| <= |s|
    ensures Strip(s) == s[Indent(s)..Indent(s) + |Strip(s)|]
    ensures forall k :: Indent(s) + |Strip(s)| <= k < |s| ==> IsSpace(s[k])
  {
    var l := LStrip(s);
    assert Strip(s) == RStrip(l);
    assert l == s[Indent(s)..];
    PrefixOfSuffix(s, Indent(s), RStrip(l));
  }

  /** A prefix `r` of `s[i..]` followed there by whitespace only is the infix
      of `s` at `i`, followed by whitespace only. */
  lemma PrefixOfSuffix(s: string, i: nat, r: string)
    requires i <= |s| && |r| <= |s| - i && r == s[i..][..|r|]
    requires forall k :: |r| <= k < |s| - i ==> IsSpace(s[i..][k])
    ensures r == s[i..i + |r|]
    ensures forall k :: i + |r| <= k < |s| ==> IsSpace(s[k])
  {
    forall k | i + |r| <= k < |s| ensures IsSpace(s[k]) {
      assert s[k] == s[i..][k - i];
    }
  }

  /** `strip` only removes characters: whatever it keeps comes from `s`. */
  lemma StripKeepsOnly(s: string)
    ensures forall c :: c in Strip(s) ==> c in s
  {
    var l := LStrip(s);
    assert forall c :: c in RStrip(l) ==> c in l;
    assert forall c :: c in l ==> c in s;
  }

  /** The number of leading whitespace characters: `len(s) - len(s.lstrip())`. */
  function Indent(s: string): (r: nat)
    ensures r <= |s|
    ensures forall k :: 0 <= k < r ==> IsSpace(s[k])
    ensures r < |s| ==> !IsSpace(s[r])
  {
    var l := LStrip(s);
    assert |l| > 0 ==> s[|s| - |l|] == l[0];
    |s| - |l|
  }

  /** How often `c` occurs in `s` (`s.count(c)`). */
  function Count(s: string, c: char): nat
    decreases |s|
  {
    if |s| == 0 then 0 else (if s[0] == c then 1 else 0) + Count(s[1..], c)
  }

  /** `s.split(c)`: one more piece than there are separators, none holding `c`. */
  function Split(s: string, c: char): (r: seq<string>)
    ensures |r| == Count(s, c) + 1
    ensures forall k :: 0 <= k < |r| ==> c !in r[k]
    decreases |s|
  {
    if |s| == 0 then [""]
    else
      var rest := Split(s[1..], c);
      if s[0] == c then [""] + rest else [[s[0]] + rest[0]] + rest[1..]
  }

  /** `sep.join(parts)` */
  function Join(parts: seq<string>, sep: string): string
    decreases |parts|
  {
    if |parts| == 0 then ""
    else if |parts| == 1 then parts[0]
    else parts[0] + sep + Join(parts[1..], sep)
  }

  /** Joining the pieces of a split with the separator gives back the text,
      so a block of lines joined with a newline is the source text verbatim. */
  lemma {:induction false} JoinSplit(s: string, c: char)
    ensures Join(Split(s, c), [c]) == s
    decreases |s|
  {
    if |s| > 0 {
      var rest := Split(s[1..], c);
      JoinSplit(s[1..], c);
      if s[0] == c {
        assert ([""] + rest)[1..] == rest;
        assert Join([""] + rest, [c]) == "" + [c] + Join(rest, [c]);
        assert [c] + s[1..] == s;
      } else {
        var parts := [[s[0]] + rest[0]] + rest[1..];
        if |rest| == 1 {
          assert Join(parts, [c]) == [s[0]] + rest[0];
          assert [s[0]] + s[1..] == s;
        } else {
          assert parts[1..] == rest[1..];
          assert Join(parts, [c]) == [s[0]] + rest[0] + [c] + Join(rest[1..], [c]);
          assert Join(rest, [c]) == rest[0] + [c] + Join(rest[1..], [c]);
          assert [s[0]] + s[1..] == s;
        }
      }
    }
  }

  /** `s * n`: `n` copies of `s` one after the other, so character `k` is
      character `k % |s|` of `s`. */
  function Repeat(s: string, n: nat): (r: string)
    ensures |r| == |s| * n
    ensures s != [] ==> forall k :: 0 <= k < |r| ==> r[k] == s[k % |s|]
    decreases n
  {
    if n == 0 then "" else
    var rest := Repeat(s, n - 1);
    var r := s + rest;
    assert s != [] ==> forall k :: 0 <= k < |r| ==> r[k] == s[k % |s|] by {
      if s != [] {
        forall k | 0 <= k < |r| ensures r[k] == s[k % |s|] {
          if k < |s| {
            ModUnique(k, 0, k, |s|);
          } else {
            ModShift(k, |s|);
            assert r[k] == rest[k - |s|];
          }
        }
      }
    }
    r
  }

  /** Dropping one period does not change the remainder. */
  lemma ModShift(k: int, m: int)
    requires 0 < m <= k
    ensures (k - m) % m == k % m
  {
    var q, r := k / m, k % m;
    assert k == q * m + r && 0 <= r < m;
    assert k - m == (q - 1) * m + r;
    ModUnique(k - m, q - 1, r, m);
  }

  /** The remainder is the only `r` in `[0, m)` with `x == q * m + r`. */
  lemma ModUnique(x: int, q: int, r: int, m: int)
    requires 0 < m && 0 <= r < m && x == q * m + r
    ensures x % m == r
  {
    var q', r' := x / m, x % m;
    assert x == q' * m + r';
    MulStep(q', q, m);
    MulStep(q, q', m);
  }

  lemma MulStep(a: int, b: int, m: int)
    requires 0 < m
    ensures a < b ==> a * m + m <= b * m
  {
    if a < b {
      var d := b - a - 1;
      assert d >= 0 && d * m >= 0;
      assert b * m == a * m + m + d * m;
    }
  }

  /** A string that starts with a non-space character keeps each of its
      prefixes that ends in a non-space character through `strip`. */
  lemma StripKeepsPrefix(s: string, p: string)
    requires StartsWith(s, p) && p != []
    requires !IsSpace(p[0]) && !IsSpace(p[|p| - 1])
    ensures StartsWith(Strip(s), p)
  {
    assert LStrip(s) == s;
    var r := RStrip(s);
    assert !IsSpace(s[|p| - 1]);
    assert r[..|p|] == s[..|p|];
  }

  /** `s.strip().startswith(c)` for a character `c` that is not whitespace,
      read off the first character of `s` that is not whitespace. */
  predicate StrippedStartsWith(s: string, c: char)
    decreases |s|
  {
    |s| > 0 && (if IsSpace(s[0]) then StrippedStartsWith(s[1..], c) else s[0] == c)
  }

  lemma {:induction false} StrippedStartsWithIsStrip(s: string, c: char)
    requires !IsSpace(c)
    ensures StrippedStartsWith(s, c) <==> StartsWith(Strip(s), [c])
    decreases |s|
  {
    if |s| > 0 && IsSpace(s[0]) {
      StrippedStartsWithIsStrip(s[1..], c);
      assert LStrip(s) == LStrip(s[1..]);
    } else if |s| > 0 {
      assert LStrip(s) == s;
      var r := RStrip(s);
      assert r != [] && r[0] == s[0];
    }
  }

  /** `s.strip() == ""`: nothing but whitespace. */
  predicate Blank(s: string)
    decreases |s|
  {
    |s| == 0 || (IsSpace(s[0]) && Blank(s[1..]))
  }

  lemma {:induction false} BlankIsStrip(s: string)
    ensures Blank(s) <==> Strip(s) == ""
    decreases |s|
  {
    if |s| > 0 {
      BlankIsStrip(s[1..]);
      assert AllSpace(s) <==> IsSpace(s[0]) && AllSpace(s[1..]) by {
        if IsSpace(s[0]) && AllSpace(s[1..]) {
          forall k | 0 <= k < |s| ensures IsSpace(s[k]) {
            if k > 0 {
              assert s[k] == s[1..][k - 1];
            }
          }
        }
      }
    }
  }

  /** A string whose stripped form starts with a character is not blank. */
  lemma {:induction false} StrippedStartsWithNotBlank(s: string, c: char)
    requires StrippedStartsWith(s, c)
    ensures !Blank(s)
    decreases |s|
  {
    if IsSpace(s[0]) {
      StrippedStartsWithNotBlank(s[1..], c);
    }
  }

  /** Leading whitespace in front of text that starts with no whitespace is
      exactly what `lstrip` removes. */
  lemma {:induction false} LStripLeading(b: string, t: string)
    requires AllSpace(b) && (t == [] || !IsSpace(t[0]))
    ensures LStrip(b + t) == t
    decreases |b|
  {
    if |b| > 0 {
      assert (b + t)[1..] == b[1..] + t;
      assert IsSpace(b[0]) && (b + t)[0] == b[0];
      LStripLeading(b[1..], t);
    } else {
      assert b + t == t;
    }
  }

  /** `rstrip` only looks at the end: text that is not all whitespace keeps
      whatever stands in front of it. */
  lemma {:induction false} RStripFront(p: string, t: string)
    requires !AllSpace(t)
    ensures RStrip(p + t) == p + RStrip(t)
    decreases |t|
  {
    var s := p + t;
    assert s[|s| - 1] == t[|t| - 1];
    if IsSpace(t[|t| - 1]) {
      var t' := t[..|t| - 1];
      assert !AllSpace(t') by {
        var k :| 0 <= k < |t| && !IsSpace(t[k]);
        assert t'[k] == t[k];
      }
      assert s[..|s| - 1] == p + t';
      RStripFront(p, t');
    }
  }

  /** `c * n` for one character: `n` copies of `c`. */
  lemma {:induction false} RepeatChar(c: char, n: nat)
    ensures forall k :: 0 <= k < n ==> Repeat([c], n)[k] == c
    decreases n
  {
    if n > 0 {
      RepeatChar(c, n - 1);
      forall k | 0 < k < n ensures Repeat([c], n)[k] == c {
        assert Repeat([c], n)[k] == Repeat([c], n - 1)[k - 1];
      }
    }
  }
}
