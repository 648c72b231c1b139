/**
  The line loop of `parse_markdown_to_pdf`: the document is split at `\n`
  and each line, in order, either toggles or feeds a fenced code block,
  feeds the pending table, or becomes a heading, a rule, a list item, a
  paragraph or a gap. The loop keeps two accumulators, one for code lines
  and one for table lines, and flushes each into the story when it ends.

  `Step` states what one iteration does to the loop's variables and `Run`
  folds it over the first `n` lines; the method `Parse` is the loop itself,
  proved to compute `Run` over all lines.
 */
module Parser {
  import opened Text
  import opened Inline
  import opened Table
  import opened Document

  /** A fence line, opening or closing a code block. */
  predicate IsFence(line: string) {
    StartsWith(line, "```")
  }

  /** A line the loop treats as a table row: it holds a `|` and starts with
      one once trimmed (`StrippedStartsWithIsStrip` relates the test to
      `strip`). */
  predicate IsTableLine(line: string) {
    '|' in line && StrippedStartsWith(line, '|')
  }

  /** The look-ahead test run after buffering a table line: the table ends
      before `next` unless `next` holds a `|` and is not blank
      (`BlankIsStrip` relates the test to `strip`). */
  predicate EndsTable(next: string) {
    !('|' in next && !Blank(next))
  }

  /** A trimmed line that starts `- ` or `* `. */
  predicate IsBulleted(s: string) {
    StartsWith(s, "- ") || StartsWith(s, "* ")
  }

  predicate IsDigit(c: char) {
    '0' <= c <= '9'
  }

  /** The length of the run of digits `s` starts with. */
  function DigitRun(s: string): (n: nat)
    ensures n <= |s|
    ensures forall k :: 0 <= k < n ==> IsDigit(s[k])
    ensures n < |s| ==> !IsDigit(s[n])
    decreases |s|
  {
    if |s| > 0 && IsDigit(s[0]) then 1 + DigitRun(s[1..]) else 0
  }

  /** `re.match(r'^\d+\.', s)`: one or more digits, then a dot. */
  predicate IsNumbered(s: string) {
    var n := DigitRun(s);
    0 < n < |s| && s[n] == '.'
  }

  /** `re.sub(r'^\d+\.\s+', '', s)`: the digits, the dot and all the
      whitespace after it are dropped when at least one whitespace character
      follows the dot; otherwise `s` is left alone. */
  function DropNumber(s: string): (r: string)
    ensures r == s || (IsNumbered(s) && r == LStrip(s[DigitRun(s) + 1..]))
    ensures r == [] || !IsSpace(r[0]) || r == s
    ensures r != s <==> var n := DigitRun(s); 0 < n && n + 1 < |s| && s[n] == '.' && IsSpace(s[n + 1])
  {
    var n := DigitRun(s);
    if 0 < n && n + 1 < |s| && s[n] == '.' && IsSpace(s[n + 1]) then LStrip(s[n + 1..]) else s
  }

  /** A line rendered as a list item (judged on the trimmed line). */
  predicate IsListItem(s: string) {
    IsBulleted(s) || IsNumbered(s)
  }

  const Bullet: char := '\U{2022}'       // for `- ` and `* ` items
  const NumberMark: char := '\U{25CB}'   // for numbered items
  const NbSp: string := "&nbsp;"

  /** What a line outside any code block or table is, read off its prefixes
      before any inline markup is cleaned: a heading of level 1 to 3 and its
      text, a rule, a list item (its indentation, its mark and its text), a
      paragraph, or a gap. */
  datatype Line =
    | Heading(level: nat, text: string)
    | Rule
    | Item(indent: nat, mark: char, text: string)
    | Para(text: string)
    | Gap

  /** The `if`/`elif` chain of the loop: headings and rules are recognised on
      the raw line, list items and paragraphs on the trimmed line. */
  function Classify(line: string): (k: Line)
    ensures k.Heading? ==> 1 <= k.level <= 3
    ensures k.Gap? <==> AllSpace(line)
    ensures k.Para? ==> k.text == Strip(line) && k.text != [] && !IsListItem(k.text)
    ensures k.Item? ==> k.indent == Indent(line) && IsListItem(Strip(line))
  {
    if StartsWith(line, "# ") then
      assert line[0] == '#';
      Heading(1, Strip(line[2..]))
    else if StartsWith(line, "## ") then
      assert line[0] == '#';
      Heading(2, Strip(line[3..]))
    else if StartsWith(line, "### ") then
      assert line[0] == '#';
      Heading(3, Strip(line[4..]))
    else if StartsWith(line, "---") then
      assert line[0] == '-';
      Rule
    else
      var s := Strip(line);
      if IsBulleted(s) then Item(Indent(line), Bullet, s[2..])
      else if IsNumbered(s) then Item(Indent(line), NumberMark, DropNumber(s))
      else if s != "" then Para(s)
      else
        assert line != [] ==> IsSpace(line[0]);
        Gap
  }

  /** The flowables for a classified line; `i` is its index, since only the
      first line can give the title. A list item is drawn as two `&nbsp;`
      per character of indentation, its mark, a space and its cleaned text. */
  function Render(k: Line, i: nat): (r: seq<Block>)
    requires k.Heading? ==> 1 <= k.level <= 3
    ensures 1 <= |r| <= 3
    ensures forall j :: 0 <= j < |r| ==> r[j].Title? ==> i == 0 && j == 0
    ensures forall j :: 0 <= j < |r| ==> !r[j].Code? && !r[j].Tbl?
  {
    match k
    case Heading(level, text) =>
      if level == 1 then [if i == 0 then Title(Clean(text)) else H1(Clean(text)), Spacer(2)]
      else if level == 2 then [H2(Clean(text)), Spacer(1)]
      else [H3(Clean(text))]
    case Rule => [Spacer(3), Body(Repeat("_", 80)), Spacer(3)]
    case Item(indent, mark, text) => [Body(Repeat(NbSp, indent * 2) + [mark] + " " + Clean(text))]
    case Para(text) => [Body(Clean(text))]
    case Gap => [Spacer(2)]
  }

  /** What a line outside any code block or table adds to the story. */
  function LineBlocks(line: string, i: nat): (r: seq<Block>)
    ensures 1 <= |r| <= 3
    ensures forall k :: 0 <= k < |r| ==> r[k].Title? ==> i == 0 && k == 0
    ensures forall k :: 0 <= k < |r| ==> !r[k].Code? && !r[k].Tbl?
  {
    Render(Classify(line), i)
  }

  /** The loop's variables: `in_code_block`, `code_buffer`, `in_table`,
      `table_buffer` and `story`. */
  datatype State = State(inCode: bool, code: seq<string>, inTable: bool, table: seq<string>, story: seq<Block>)

  const Start: State := State(false, [], false, [], [])

  /** The two builders of flowables the loop calls: one for a line outside
      any code block or table, one for a flushed table buffer. The converter
      uses `Flowables`; what `Step` and `Run` do with code blocks and table
      buffers holds whichever builders are used. */
  datatype Renderer = Renderer(lineBlocks: (string, nat) -> seq<Block>, tableBlocks: seq<string> -> seq<Block>)

  const Flowables := Renderer(LineBlocks, CreateTable)

  /** A flushed table buffer, followed by a 0.3 cm gap. */
  function FlushTable(render: Renderer, buffer: seq<string>): seq<Block>
  {
    render.tableBlocks(buffer) + [Spacer(3)]
  }

  /** One iteration of the loop, on line `i` of `lines`. */
  function Step(lines: seq<string>, i: nat, s: State, render: Renderer): State
    requires i < |lines|
  {
    var line := lines[i];
    if IsFence(line) then
      if s.inCode then
        s.(inCode := false, code := [], story := s.story + [Code(Join(s.code, "\n")), Spacer(3)])
      else
        s.(inCode := true)
    else if s.inCode then
      s.(code := s.code + [line])
    else if IsTableLine(line) then
      var buffer := (if s.inTable then s.table else []) + [line];
      if i + 1 < |lines| && EndsTable(lines[i + 1]) then
        s.(inTable := false, table := [], story := s.story + FlushTable(render, buffer))
      else
        s.(inTable := true, table := buffer)
    else if s.inTable then
      s.(inTable := false, table := [], story := s.story + FlushTable(render, s.table) + render.lineBlocks(line, i))
    else
      s.(story := s.story + render.lineBlocks(line, i))
  }

  /** The loop's variables after the first `n` iterations. */
  function Run(lines: seq<string>, n: nat, render: Renderer): State
    requires n <= |lines|
    decreases n, 0
  {
    if n == 0 then Start else After(lines, n - 1, render)
  }

  /** The loop's variables right after the iteration on line `i`. */
  function After(lines: seq<string>, i: nat, render: Renderer): State
    requires i < |lines|
    decreases i, 1
  {
    Step(lines, i, Run(lines, i, render), render)
  }

  /** An iteration only ever appends to the story. */
  lemma StepExtendsStory(lines: seq<string>, i: nat, s: State, render: Renderer)
    requires i < |lines|
    ensures |s.story| <= |Step(lines, i, s, render).story|
    ensures Step(lines, i, s, render).story[..|s.story|] == s.story
  {
  }

  /** `trace[k]` is the loop's state after `k` iterations, for each `k`
      the trace reaches. */
  predicate IsTrace(lines: seq<string>, trace: seq<State>, render: Renderer)
  {
    |trace| <= |lines| + 1 && |trace| > 0 && trace[0] == Start &&
    forall k :: 0 <= k < |trace| - 1 ==> trace[k + 1] == Step(lines, k, trace[k], render)
  }

  /** A trace extended by one more iteration is a trace. */
  lemma TraceExtends(lines: seq<string>, trace: seq<State>, render: Renderer)
    requires IsTrace(lines, trace, render) && |trace| <= |lines|
    ensures IsTrace(lines, trace + [Step(lines, |trace| - 1, trace[|trace| - 1], render)], render)
  {
    var t := trace + [Step(lines, |trace| - 1, trace[|trace| - 1], render)];
    forall k | 0 <= k < |t| - 1 ensures t[k + 1] == Step(lines, k, t[k], render) {
      assert t[k] == trace[k];
    }
  }

  /** Any trace of the loop agrees with `Run`. */
  lemma {:induction false} TraceIsRun(lines: seq<string>, trace: seq<State>, n: nat, render: Renderer)
    requires IsTrace(lines, trace, render) && n < |trace|
    ensures trace[n] == Run(lines, n, render)
  {
    if n > 0 {
      TraceIsRun(lines, trace, n - 1, render);
    }
  }

  /** The story `parse_markdown_to_pdf` hands to the PDF builder. */
  method Parse(content: string) returns (story: seq<Block>)
    ensures story == Run(Split(content, '\n'), |Split(content, '\n')|, Flowables).story
  {
    story := BuildStory(Split(content, '\n'), Flowables);
  }

  /** The loop over the lines, with the builders of flowables it calls. */
  method BuildStory(lines: seq<string>, render: Renderer) returns (story: seq<Block>)
    ensures story == Run(lines, |lines|, render).story
  {
    story := [];
    var i := 0;
    var inCode := false;
    var code: seq<string> := [];
    var inTable := false;
    var table: seq<string> := [];
    ghost var trace := [Start];
    while i < |lines|
      invariant 0 <= i <= |lines|
      invariant |trace| == i + 1 && IsTrace(lines, trace, render)
      invariant trace[i] == State(inCode, code, inTable, table, story)
      decreases |lines| - i
    {
      var line := lines[i];
      ghost var s := trace[i];
      ghost var next := Step(lines, i, s, render);
      TraceExtends(lines, trace, render);
      trace := trace + [next];
      if IsFence(line) {
        if inCode {
          story := story + [Code(Join(code, "\n")), Spacer(3)];
          code := [];
          inCode := false;
        } else {
          inCode := true;
        }
        i := i + 1;
        continue;
      }
      if inCode {
        code := code + [line];
        i := i + 1;
        continue;
      }
      if IsTableLine(line) {
        if !inTable {
          inTable := true;
          table := [];
        }
        table := table + [line];
        i := i + 1;
        if i < |lines| && EndsTable(lines[i]) {
          story := story + FlushTable(render, table);
          inTable := false;
          table := [];
        }
        continue;
      }
      if inTable {
        story := story + FlushTable(render, table);
        inTable := false;
        table := [];
      }
      story := story + render.lineBlocks(line, i);
      i := i + 1;
    }
    TraceIsRun(lines, trace, i, render);
  }
}
