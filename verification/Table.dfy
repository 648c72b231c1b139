/**
  `create_table_from_markdown`: the buffered table lines become the rows of
  one table. Separator rows are dropped wherever they stand, every other
  line is cut at its `|` characters into trimmed cells, and lines that give
  no cell are skipped.
 */
module Table {
  import opened Text
  import opened Document

  /** A line whose trimmed form starts with `|---` or `| ---`. */
  predicate IsSeparatorRow(line: string) {
    StartsWith(Strip(line), "|---") || StartsWith(Strip(line), "| ---")
  }

  /** `fields[1:-1]`: everything but the first and the last field. */
  function Inner(fields: seq<string>): seq<string> {
    if |fields| < 2 then [] else fields[1..|fields| - 1]
  }

  /** `[f.strip() for f in fields]` */
  function StripAll(fields: seq<string>): (r: seq<string>)
    ensures |r| == |fields|
    ensures forall k :: 0 <= k < |r| ==> r[k] == Strip(fields[k])
    decreases |fields|
  {
    if |fields| == 0 then [] else [Strip(fields[0])] + StripAll(fields[1..])
  }

  /** `[cell.strip() for cell in line.split('|')[1:-1]]`: one trimmed cell
      between each pair of consecutive `|`, so one fewer cell than there are
      `|` characters (none for a line with at most one). */
  function Cells(line: string): (r: seq<string>)
    ensures |r| == if Count(line, '|') < 2 then 0 else Count(line, '|') - 1
    ensures forall k :: 0 <= k < |r| ==> Trimmed(r[k])
    ensures forall k :: 0 <= k < |r| ==> r[k] == Strip(Split(line, '|')[k + 1])
  {
    var fields := Split(line, '|');
    var inner := Inner(fields);
    StripAll(inner)
  }

  /** No cell holds a `|`. */
  lemma CellsHaveNoBar(line: string)
    ensures forall k :: 0 <= k < |Cells(line)| ==> '|' !in Cells(line)[k]
  {
    var fields := Split(line, '|');
    var inner := Inner(fields);
    forall k | 0 <= k < |inner| ensures '|' !in Cells(line)[k] {
      assert inner[k] == fields[k + 1];
      StripKeepsOnly(inner[k]);
    }
  }

  /** The row one buffered line adds to `data`: none for a separator row or
      a line without cells, its cells otherwise. */
  function RowOf(line: string): (r: seq<seq<string>>)
    ensures |r| <= 1
    ensures r != [] ==> r[0] != []
  {
    if IsSeparatorRow(line) then [] else
    var cells := Cells(line);
    if cells == [] then [] else [cells]
  }

  /** `f` applied to each element in turn, the results concatenated. */
  function FlatMap<T, U>(f: T -> seq<U>, xs: seq<T>): seq<U>
    decreases |xs|
  {
    if |xs| == 0 then [] else f(xs[0]) + FlatMap(f, xs[1..])
  }

  lemma {:induction false} FlatMapAppend<T, U>(f: T -> seq<U>, a: seq<T>, b: seq<T>)
    ensures FlatMap(f, a + b) == FlatMap(f, a) + FlatMap(f, b)
    decreases |a|
  {
    if |a| == 0 {
      assert a + b == b;
    } else {
      assert (a + b)[0] == a[0];
      assert (a + b)[1..] == a[1..] + b;
      FlatMapAppend(f, a[1..], b);
      assert FlatMap(f, a + b) == f(a[0]) + (FlatMap(f, a[1..]) + FlatMap(f, b));
    }
  }

  lemma FlatMapFront<T, U>(f: T -> seq<U>, x: T, post: seq<T>)
    ensures FlatMap(f, [x] + post) == f(x) + FlatMap(f, post)
  {
    assert ([x] + post)[0] == x;
    assert ([x] + post)[1..] == post;
  }

  /** Each element of the result comes from the result of `f` on some element. */
  lemma {:induction false} FlatMapOrigin<T, U>(f: T -> seq<U>, xs: seq<T>, k: nat)
    requires k < |FlatMap(f, xs)|
    ensures exists i, j :: 0 <= i < |xs| && 0 <= j < |f(xs[i])| && FlatMap(f, xs)[k] == f(xs[i])[j]
    decreases |xs|
  {
    var head := f(xs[0]);
    if k < |head| {
      assert FlatMap(f, xs)[k] == f(xs[0])[k];
    } else {
      FlatMapOrigin(f, xs[1..], k - |head|);
      var i, j :| 0 <= i < |xs[1..]| && 0 <= j < |f(xs[1..][i])| && FlatMap(f, xs[1..])[k - |head|] == f(xs[1..][i])[j];
      assert xs[1..][i] == xs[i + 1];
    }
  }

  /** The `data` rows built from the buffered lines, in order. */
  function TableRows(lines: seq<string>): (rows: seq<seq<string>>)
  {
    FlatMap(RowOf, lines)
  }

  /** What `create_table_from_markdown` contributes to the story: one table
      when some line gives a row, nothing otherwise. */
  function CreateTable(lines: seq<string>): (r: seq<Block>)
    ensures |r| <= 1
    ensures r == [] <==> TableRows(lines) == []
    ensures r != [] ==> r[0].Tbl? && r[0].rows == TableRows(lines)
  {
    if lines == [] then []
    else
      var data := TableRows(lines);
      if data == [] then [] else [Tbl(data)]
  }

  /** Rows are built line by line: the rows of two runs of lines are the rows
      of the first followed by the rows of the second. */
  lemma TableRowsAppend(a: seq<string>, b: seq<string>)
    ensures TableRows(a + b) == TableRows(a) + TableRows(b)
  {
    FlatMapAppend(RowOf, a, b);
  }

  /** A line in front of a buffer adds its own row, if any, in front. */
  lemma TableRowsFront(l: string, post: seq<string>)
    ensures TableRows([l] + post) == RowOf(l) + TableRows(post)
  {
    FlatMapFront(RowOf, l, post);
  }

  /** A single line gives its cells as a row exactly when it is not a
      separator row and holds at least two `|`. */
  lemma TableRowsSingle(l: string)
    ensures TableRows([l]) == if IsSeparatorRow(l) || Count(l, '|') < 2 then [] else [Cells(l)]
  {
    TableRowsFront(l, []);
    assert [l] + [] == [l];
  }

  /** Removing a separator row from the buffer leaves the table unchanged,
      wherever the row stands. */
  lemma SeparatorRowIgnored(pre: seq<string>, l: string, post: seq<string>)
    requires IsSeparatorRow(l)
    ensures TableRows(pre + [l] + post) == TableRows(pre + post)
  {
    var rest := [l] + post;
    assert pre + [l] + post == pre + rest;
    assert RowOf(l) == [];
    TableRowsFront(l, post);
    assert TableRows(rest) == TableRows(post);
    TableRowsAppend(pre, rest);
    TableRowsAppend(pre, post);
  }

  /** Every row of the table is the cells of some buffered line that is
      not a separator row. */
  lemma RowsFromNonSeparatorLines(lines: seq<string>, k: nat)
    requires k < |TableRows(lines)|
    ensures exists i :: 0 <= i < |lines| && !IsSeparatorRow(lines[i]) && TableRows(lines)[k] == Cells(lines[i])
  {
    FlatMapOrigin(RowOf, lines, k);
    var i, j :| 0 <= i < |lines| && 0 <= j < |RowOf(lines[i])| && TableRows(lines)[k] == RowOf(lines[i])[j];
    RowOfGiven(lines[i]);
    assert j == 0 && TableRows(lines)[k] == Cells(lines[i]);
  }

  /** A line that gives a row is no separator row, and the row is its cells. */
  lemma RowOfGiven(line: string)
    requires RowOf(line) != []
    ensures !IsSeparatorRow(line) && RowOf(line) == [Cells(line)]
  {
  }

  /** A field without `|` is a whole piece of the split. */
  lemma {:induction false} SplitFirst(x: string, s: string, c: char)
    requires c !in x
    ensures Split(x + [c] + s, c) == [x] + Split(s, c)
    decreases |x|
  {
    if |x| == 0 {
      assert ([c] + s)[1..] == s;
    } else {
      SplitFirst(x[1..], s, c);
      assert (x + [c] + s)[1..] == x[1..] + [c] + s;
      assert [x[0]] + x[1..] == x;
    }
  }

  /** `|x|y|` splits at its three bars into four fields. */
  lemma SplitTwoCells(x: string, y: string)
    requires '|' !in x && '|' !in y
    ensures Split("|" + x + "|" + y + "|", '|') == ["", x, y, ""]
  {
    SplitThreeSeparators(x, y, '|');
  }

  lemma SplitThreeSeparators(x: string, y: string, c: char)
    requires c !in x && c !in y
    ensures Split([c] + x + [c] + y + [c], c) == ["", x, y, ""]
  {
    var r1 := y + [c];
    var r2 := x + [c] + r1;
    var r3 := [c] + r2;
    assert Split([], c) == [""];
    SplitFirst(y, [], c);
    assert y + [c] + [] == r1;
    assert Split(r1, c) == [y, ""];
    SplitFirst(x, r1, c);
    assert Split(r2, c) == [x, y, ""];
    SplitFirst([], r2, c);
    assert [] + [c] + r2 == r3;
    assert Split(r3, c) == ["", x, y, ""];
    assert r3 == [c] + x + [c] + y + [c];
  }

  /** A line that splits into the fields `""`, `x`, `y`, `""` has the two
      cells `x` and `y`, trimmed. */
  lemma TwoCells(line: string, x: string, y: string)
    requires Split(line, '|') == ["", x, y, ""]
    ensures Cells(line) == [Strip(x), Strip(y)]
  {
    InnerOfFour(x, y);
    StripAllTwo(x, y);
  }

  lemma InnerOfFour(x: string, y: string)
    ensures Inner(["", x, y, ""]) == [x, y]
  {
    assert ["", x, y, ""][1..3] == [x, y];
  }

  lemma StripAllTwo(x: string, y: string)
    ensures StripAll([x, y]) == [Strip(x), Strip(y)]
  {
    var r := StripAll([x, y]);
    assert |r| == 2 && r[0] == Strip(x) && r[1] == Strip(y);
  }

  /** One space either side of a non-space character is stripped. */
  lemma StripPadded(x: char)
    requires !IsSpace(x)
    ensures Strip(" " + [x] + " ") == [x]
  {
    assert (" " + [x] + " ")[1..] == [x] + " ";
    assert LStrip(" " + [x] + " ") == [x] + " ";
    assert ([x] + " ")[..1] == [x];
  }

  /** A line that starts `| ` followed by a character other than whitespace
      and `-` is no separator row. */
  lemma NotSeparatorRow(line: string)
    requires |line| >= 3 && line[0] == '|' && line[1] == ' '
    requires !IsSpace(line[2]) && line[2] != '-'
    ensures !IsSeparatorRow(line)
  {
    StripKeepsPrefix(line, line[..3]);
    var t := Strip(line);
    assert t[1] == ' ' && t[2] == line[2];
  }

  /** A line that starts `|---` is a separator row. */
  lemma DashesAreSeparatorRow(line: string)
    requires StartsWith(line, "|---")
    ensures IsSeparatorRow(line)
  {
    StripKeepsPrefix(line, "|---");
  }

  /** A line that is no separator row and gives cells adds them as one row. */
  lemma RowOfCells(line: string)
    requires !IsSeparatorRow(line) && Cells(line) != []
    ensures RowOf(line) == [Cells(line)]
  {
  }

  /** The cells of `| x | y |` for two one-character words. */
  lemma TwoWordCells(x: char, y: char)
    requires !IsSpace(x) && !IsSpace(y) && x != '|' && y != '|'
    ensures Cells("| " + [x] + " | " + [y] + " |") == [[x], [y]]
  {
    var cx, cy := " " + [x] + " ", " " + [y] + " ";
    var line := "| " + [x] + " | " + [y] + " |";
    assert line == "|" + cx + "|" + cy + "|";
    SplitTwoCells(cx, cy);
    TwoCells(line, cx, cy);
    StripPadded(x);
    StripPadded(y);
  }

  /** A row `| x | y |` of two one-character words is the row `x`, `y`. */
  lemma TwoWordRow(x: char, y: char)
    requires !IsSpace(x) && !IsSpace(y) && x != '|' && y != '|' && x != '-'
    ensures RowOf("| " + [x] + " | " + [y] + " |") == [[[x], [y]]]
  {
    TwoWordCells(x, y);
    TwoWordNotSeparator(x, y);
    RowOfCells("| " + [x] + " | " + [y] + " |");
  }

  lemma TwoWordNotSeparator(x: char, y: char)
    requires !IsSpace(x) && x != '-'
    ensures !IsSeparatorRow("| " + [x] + " | " + [y] + " |")
  {
    var line := "| " + [x] + " | " + [y] + " |";
    assert line[0] == '|' && line[1] == ' ' && line[2] == x;
    NotSeparatorRow(line);
  }

  lemma FlatMapThree<T, U>(f: T -> seq<U>, x: T, y: T, z: T)
    ensures FlatMap(f, [x, y, z]) == f(x) + f(y) + f(z)
  {
    FlatMapFront(f, z, []);
    FlatMapFront(f, y, [z]);
    FlatMapFront(f, x, [y, z]);
    assert [z] + [] == [z] && [y] + [z] == [y, z] && [x] + [y, z] == [x, y, z];
  }

  /** The rows of three buffered lines are their rows in order. */
  lemma TableRowsThree(x: string, y: string, z: string)
    ensures TableRows([x, y, z]) == RowOf(x) + RowOf(y) + RowOf(z)
  {
    FlatMapThree(RowOf, x, y, z);
  }

  /** A one-character cell word: neither whitespace, nor `|`, nor `-`. */
  predicate WordChar(ch: char) {
    !IsSpace(ch) && ch != '|' && ch != '-'
  }

  /** A header row `| a | b |`, a separator row and a data row `| c | d |`
      give the table with header `a`, `b` and the one data row `c`, `d`. */
  lemma HeaderSeparatorData(a: char, b: char, sep: string, c: char, d: char)
    requires WordChar(a) && WordChar(b) && WordChar(c) && WordChar(d)
    requires StartsWith(sep, "|---")
    ensures TableRows(["| " + [a] + " | " + [b] + " |", sep, "| " + [c] + " | " + [d] + " |"])
         == [[[a], [b]], [[c], [d]]]
  {
    TwoWordRow(a, b);
    TwoWordRow(c, d);
    DashesAreSeparatorRow(sep);
    RowsAroundSeparator("| " + [a] + " | " + [b] + " |", sep, "| " + [c] + " | " + [d] + " |", [[a], [b]], [[c], [d]]);
  }

  /** Two rows with a separator row between them give those two rows. */
  lemma RowsAroundSeparator(x: string, sep: string, z: string, rx: seq<string>, rz: seq<string>)
    requires RowOf(x) == [rx] && IsSeparatorRow(sep) && RowOf(z) == [rz]
    ensures TableRows([x, sep, z]) == [rx, rz]
  {
    TableRowsThree(x, sep, z);
    SeparatorRowOf(sep);
    assert [rx] + [] + [rz] == [rx, rz];
  }

  /** A separator row adds no row. */
  lemma SeparatorRowOf(line: string)
    requires IsSeparatorRow(line)
    ensures RowOf(line) == []
  {
  }
}
