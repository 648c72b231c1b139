/**
  What the line loop guarantees: the accumulators it keeps, how a fenced
  code block and a run of table lines reach the story, what happens to a
  block or a table the document leaves open, and where a title can appear.
 */
module ParserProps {
  import opened Text
  import opened Inline
  import opened Table
  import opened Document
  import opened Parser

  /** The loop's bookkeeping: the code buffer is empty outside a code block,
      and the table buffer is non-empty exactly while a table is open. */
  predicate Consistent(s: State) {
    (!s.inCode ==> s.code == [])
    && (s.inTable <==> s.table != [])
  }

  /** A table line is never the end of a table, and never a fence. */
  lemma TableLineFacts(line: string)
    requires IsTableLine(line)
    ensures !EndsTable(line) && !IsFence(line)
  {
    StrippedStartsWithNotBlank(line, '|');
  }

  /** One iteration keeps the bookkeeping. */
  lemma StepConsistent(lines: seq<string>, i: nat, s: State, render: Renderer)
    requires i < |lines| && Consistent(s)
    ensures Consistent(Step(lines, i, s, render))
  {
  }

  lemma {:induction false} RunConsistent(lines: seq<string>, n: nat, render: Renderer)
    requires n <= |lines|
    ensures Consistent(Run(lines, n, render))
  {
    if n > 0 {
      RunConsistent(lines, n - 1, render);
      StepConsistent(lines, n - 1, Run(lines, n - 1, render), render);
    }
  }

  /** Blocks are only ever appended: the story after `m` lines is a prefix
      of the story after `n >= m` lines. */
  lemma {:induction false} StoryOnlyGrows(lines: seq<string>, m: nat, n: nat, render: Renderer)
    requires m <= n <= |lines|
    ensures |Run(lines, m, render).story| <= |Run(lines, n, render).story|
    ensures Run(lines, n, render).story[..|Run(lines, m, render).story|] == Run(lines, m, render).story
    decreases n
  {
    if m < n {
      StoryOnlyGrows(lines, m, n - 1, render);
      var a, b, c := Run(lines, m, render).story, Run(lines, n - 1, render).story, Run(lines, n, render).story;
      assert c[..|b|] == b;
      assert c[..|a|] == b[..|a|];
    }
  }

  /** Inside a code block opened by the fence on line `a`, every line up to
      the next fence is buffered verbatim and nothing else changes. */
  lemma {:induction false} CodeLinesBuffered(lines: seq<string>, a: nat, k: nat, render: Renderer)
    requires a < k <= |lines| && IsFence(lines[a]) && !Run(lines, a, render).inCode
    requires forall j :: a < j < k ==> !IsFence(lines[j])
    ensures Run(lines, k, render) == Run(lines, a, render).(inCode := true, code := lines[a + 1..k])
    decreases k
  {
    RunConsistent(lines, a, render);
    if k > a + 1 {
      CodeLinesBuffered(lines, a, k - 1, render);
      assert lines[a + 1..k] == lines[a + 1..k - 1] + [lines[k - 1]];
    }
  }

  /** A fenced code block reaches the story as one preformatted block holding
      the lines between the fences joined by newlines, then a 0.3 cm gap;
      a table left open across the block stays open. */
  lemma CodeBlockVerbatim(lines: seq<string>, a: nat, b: nat, render: Renderer)
    requires a < b < |lines| && IsFence(lines[a]) && IsFence(lines[b]) && !Run(lines, a, render).inCode
    requires forall j :: a < j < b ==> !IsFence(lines[j])
    ensures Run(lines, b + 1, render)
         == Run(lines, a, render).(story := Run(lines, a, render).story + [Code(Join(lines[a + 1..b], "\n")), Spacer(3)])
  {
    RunConsistent(lines, a, render);
    CodeLinesBuffered(lines, a, b, render);
  }

  /** A fence that is never closed swallows the rest of the document: no
      block after it reaches the story. */
  lemma UnterminatedFenceSwallowsRest(lines: seq<string>, a: nat, render: Renderer)
    requires a < |lines| && IsFence(lines[a]) && !Run(lines, a, render).inCode
    requires forall j :: a < j < |lines| ==> !IsFence(lines[j])
    ensures Run(lines, |lines|, render).story == Run(lines, a, render).story
    ensures Run(lines, |lines|, render).inCode
  {
    CodeLinesBuffered(lines, a, |lines|, render);
  }

  /** A table line whose successor continues the table is buffered. */
  lemma StepBuffersTableLine(lines: seq<string>, i: nat, s: State, render: Renderer)
    requires i < |lines| && !s.inCode && IsTableLine(lines[i])
    requires i + 1 < |lines| ==> IsTableLine(lines[i + 1])
    ensures Step(lines, i, s, render) == s.(inTable := true, table := (if s.inTable then s.table else []) + [lines[i]])
  {
    TableLineFacts(lines[i]);
    if i + 1 < |lines| {
      TableLineFacts(lines[i + 1]);
    }
  }

  /** A table line whose successor ends the table flushes the buffer. */
  lemma StepFlushesTable(lines: seq<string>, i: nat, s: State, render: Renderer)
    requires i + 1 < |lines| && !s.inCode && IsTableLine(lines[i]) && EndsTable(lines[i + 1])
    ensures Step(lines, i, s, render)
         == s.(inTable := false, table := [], story := s.story + FlushTable(render, (if s.inTable then s.table else []) + [lines[i]]))
  {
    TableLineFacts(lines[i]);
  }

  /** While consecutive table lines follow one another, they are buffered
      and the story does not change. */
  lemma {:induction false} TableLinesBuffered(lines: seq<string>, a: nat, k: nat, render: Renderer)
    requires a < k <= |lines|
    requires !Run(lines, a, render).inCode && !Run(lines, a, render).inTable
    requires forall j :: a <= j < k ==> IsTableLine(lines[j])
    requires k < |lines| ==> IsTableLine(lines[k])
    ensures Run(lines, k, render) == Run(lines, a, render).(inTable := true, table := lines[a..k])
    decreases k
  {
    var s := Run(lines, k - 1, render);
    if k - 1 > a {
      TableLinesBuffered(lines, a, k - 1, render);
      assert lines[a..k] == s.table + [lines[k - 1]];
    } else {
      RunConsistent(lines, a, render);
      assert lines[a..k] == [lines[a]];
    }
    StepBuffersTableLine(lines, k - 1, s, render);
  }

  /** A run of table lines that the next line ends reaches the story as the
      table built from the run, then a 0.3 cm gap; the next line is then
      handled on its own. */
  lemma TableRunFlushed(lines: seq<string>, a: nat, b: nat, render: Renderer)
    requires a < b < |lines|
    requires !Run(lines, a, render).inCode && !Run(lines, a, render).inTable
    requires forall j :: a <= j < b ==> IsTableLine(lines[j])
    requires EndsTable(lines[b])
    ensures Run(lines, b, render) == Run(lines, a, render).(story := Run(lines, a, render).story + FlushTable(render, lines[a..b]))
  {
    var s := Run(lines, b - 1, render);
    TableBufferBefore(lines, a, b, render);
    StepFlushesTable(lines, b - 1, s, render);
    assert Run(lines, b, render) == Step(lines, b - 1, s, render);
  }

  /** A run of table lines that the look-ahead keeps open is flushed when
      the next line is no table line: the table built from the run, a
      0.3 cm gap, then what that line gives on its own. */
  lemma TableFlushedByLaterLine(lines: seq<string>, a: nat, b: nat, render: Renderer)
    requires a < b < |lines|
    requires !Run(lines, a, render).inCode && !Run(lines, a, render).inTable
    requires forall j :: a <= j < b ==> IsTableLine(lines[j])
    requires !EndsTable(lines[b]) && !IsTableLine(lines[b]) && !IsFence(lines[b])
    ensures Run(lines, b + 1, render).story
      == Run(lines, a, render).story + FlushTable(render, lines[a..b]) + render.lineBlocks(lines[b], b)
  {
    TableBufferBefore(lines, a, b, render);
    var s := Run(lines, b - 1, render);
    assert Run(lines, b, render) == Step(lines, b - 1, s, render);
    assert Run(lines, b, render) == s.(inTable := true, table := lines[a..b]);
  }

  /** Just before the last line of a run of table lines, the state is the
      one the run started from, with the earlier lines of the run buffered. */
  lemma TableBufferBefore(lines: seq<string>, a: nat, b: nat, render: Renderer)
    requires a < b < |lines|
    requires !Run(lines, a, render).inCode && !Run(lines, a, render).inTable
    requires forall j :: a <= j < b ==> IsTableLine(lines[j])
    ensures var r, s := Run(lines, a, render), Run(lines, b - 1, render);
      s.story == r.story && s.code == r.code && !s.inCode && r.table == []
      && (if s.inTable then s.table else []) + [lines[b - 1]] == lines[a..b]
  {
    RunConsistent(lines, a, render);
    if b - 1 > a {
      TableLinesBuffered(lines, a, b - 1, render);
      assert lines[a..b] == lines[a..b - 1] + [lines[b - 1]];
    } else {
      assert lines[a..b] == [lines[a]];
    }
  }

  /** A table on the last lines of the document is never emitted: its lines
      are still buffered when the loop ends and the story holds no trace of
      them. */
  lemma TableAtEndLost(lines: seq<string>, a: nat, render: Renderer)
    requires a < |lines|
    requires !Run(lines, a, render).inCode && !Run(lines, a, render).inTable
    requires forall j :: a <= j < |lines| ==> IsTableLine(lines[j])
    ensures Run(lines, |lines|, render).story == Run(lines, a, render).story
    ensures Run(lines, |lines|, render).inTable && Run(lines, |lines|, render).table == lines[a..]
  {
    TableLinesBuffered(lines, a, |lines|, render);
  }

  /** A fence line holding a `|` right after a table line opens a code block
      while the table is still open: both accumulators are active at once. */
  lemma FenceInsideTable(lines: seq<string>, a: nat, render: Renderer)
    requires a + 1 < |lines|
    requires !Run(lines, a, render).inCode && !Run(lines, a, render).inTable
    requires IsTableLine(lines[a]) && IsFence(lines[a + 1]) && '|' in lines[a + 1]
    ensures Run(lines, a + 2, render).inCode && Run(lines, a + 2, render).inTable
  {
    TableLineFacts(lines[a]);
    assert lines[a + 1][0] == '`';
    assert !EndsTable(lines[a + 1]);
    var s := Run(lines, a, render);
    var t := Step(lines, a, s, render);
    assert Run(lines, a + 1, render) == t && t.inTable && !t.inCode;
    assert Run(lines, a + 2, render) == Step(lines, a + 1, t, render);
  }

  /** No fence line holds a `|`. */
  predicate BarFreeFences(lines: seq<string>) {
    forall j :: 0 <= j < |lines| && IsFence(lines[j]) ==> '|' !in lines[j]
  }

  /** An open table is always waiting on a line that continues it. */
  predicate TablePending(lines: seq<string>, n: nat, s: State) {
    s.inTable ==> !s.inCode && (n < |lines| ==> !EndsTable(lines[n]))
  }

  lemma {:induction false} RunTablePending(lines: seq<string>, n: nat, render: Renderer)
    requires n <= |lines| && BarFreeFences(lines)
    ensures TablePending(lines, n, Run(lines, n, render))
  {
    if n > 0 {
      RunTablePending(lines, n - 1, render);
    }
  }

  /** When no fence line holds a `|`, a code block and a table are never
      open at the same time. */
  lemma AccumulatorsExclusive(lines: seq<string>, n: nat, render: Renderer)
    requires n <= |lines| && BarFreeFences(lines)
    ensures !(Run(lines, n, render).inCode && Run(lines, n, render).inTable)
  {
    RunTablePending(lines, n, render);
  }

  /** A renderer that gives a title only as the first block of line 0. */
  ghost predicate TitleOnlyAtTop(render: Renderer) {
    (forall line, i, k :: 0 <= k < |render.lineBlocks(line, i)| && render.lineBlocks(line, i)[k].Title? ==> i == 0 && k == 0)
    && (forall buffer, k :: 0 <= k < |render.tableBlocks(buffer)| ==> !render.tableBlocks(buffer)[k].Title?)
  }

  lemma FlowablesTitleOnlyAtTop()
    ensures TitleOnlyAtTop(Flowables)
  {
  }

  /** Only the first block of the story can be the title. */
  lemma {:induction false} TitleOnlyFirst(lines: seq<string>, n: nat, render: Renderer)
    requires n <= |lines| && TitleOnlyAtTop(render)
    ensures forall k :: 0 <= k < |Run(lines, n, render).story| && Run(lines, n, render).story[k].Title? ==> k == 0
  {
    if n > 0 {
      TitleOnlyFirst(lines, n - 1, render);
      var s := Run(lines, n - 1, render);
      var t := Run(lines, n, render);
      StepExtendsStory(lines, n - 1, s, render);
      forall k | 0 <= k < |t.story| && t.story[k].Title? ensures k == 0 {
        if k >= |s.story| {
          var line := lines[n - 1];
          var blocks := render.lineBlocks(line, n - 1);
          var pre := if s.inTable then s.story + FlushTable(render, s.table) else s.story;
          if !IsFence(line) && !s.inCode && !IsTableLine(line) {
            assert t.story == pre + blocks;
            if k >= |pre| {
              assert t.story[k] == blocks[k - |pre|];
              assert n - 1 == 0 && k - |pre| == 0;
              assert s == Start;
            }
          }
        }
      }
    }
  }

  /** A first line `# text` becomes the title, then a 0.2 cm gap. */
  lemma FirstLineTitle(lines: seq<string>)
    requires |lines| > 0 && StartsWith(lines[0], "# ")
    ensures Run(lines, 1, Flowables).story == [Title(Clean(Strip(lines[0][2..]))), Spacer(2)]
  {
    assert lines[0][0] == '#' && !IsFence(lines[0]) && !IsTableLine(lines[0]);
  }

  /** A line opening with `|` is a table line. */
  lemma BarLineIsTableLine(line: string)
    requires line != [] && line[0] == '|'
    ensures IsTableLine(line)
  {
  }

  /** Three table lines and a line that ends the table: the table, its gap,
      and then what the last line gives on its own. */
  lemma TableThenLine(lines: seq<string>, render: Renderer)
    requires |lines| == 4 && IsTableLine(lines[0]) && IsTableLine(lines[1]) && IsTableLine(lines[2])
    requires EndsTable(lines[3]) && !IsFence(lines[3])
    ensures Run(lines, 4, render).story == FlushTable(render, lines[..3]) + render.lineBlocks(lines[3], 3)
  {
    TableRunFlushed(lines, 0, 3, render);
    var s := Run(lines, 3, render);
    assert lines[0..3] == lines[..3];
    assert !IsTableLine(lines[3]) by {
      if IsTableLine(lines[3]) {
        TableLineFacts(lines[3]);
      }
    }
    assert Run(lines, 4, render) == Step(lines, 3, s, render);
  }

  /** Three table lines, then an empty line that the renderer draws as a
      0.2 cm gap: the table built from the three lines, its 0.3 cm gap, and
      the empty line's gap. */
  lemma TableThenEmptyLine(x: string, y: string, z: string, render: Renderer)
    requires IsTableLine(x) && IsTableLine(y) && IsTableLine(z)
    requires render.lineBlocks("", 3) == [Spacer(2)]
    ensures Run([x, y, z, ""], 4, render).story == render.tableBlocks([x, y, z]) + [Spacer(3), Spacer(2)]
  {
    var lines := [x, y, z, ""];
    TableThenLine(lines, render);
    assert lines[..3] == [x, y, z];
  }

  /** A document of a header row, a separator row, a data row and an empty
      line becomes a table with the header and the data row, a 0.3 cm gap,
      and the empty line's 0.2 cm gap. */
  lemma SmallTableDocument(a: char, b: char, sep: string, c: char, d: char)
    requires WordChar(a) && WordChar(b) && WordChar(c) && WordChar(d)
    requires StartsWith(sep, "|---")
    ensures var lines := ["| " + [a] + " | " + [b] + " |", sep, "| " + [c] + " | " + [d] + " |", ""];
      Run(lines, 4, Flowables).story == [Tbl([[[a], [b]], [[c], [d]]]), Spacer(3), Spacer(2)]
  {
    var header, data := "| " + [a] + " | " + [b] + " |", "| " + [c] + " | " + [d] + " |";
    BarLineIsTableLine(header);
    BarLineIsTableLine(sep);
    BarLineIsTableLine(data);
    HeaderSeparatorData(a, b, sep, c, d);
    assert CreateTable([header, sep, data]) == [Tbl([[[a], [b]], [[c], [d]]])];
    EmptyLineGap(3);
    TableThenEmptyLine(header, sep, data, Flowables);
  }

  /** An empty line gives a 0.2 cm gap. */
  lemma EmptyLineGap(i: nat)
    ensures LineBlocks("", i) == [Spacer(2)]
  {
    assert Classify("") == Gap;
  }
}
