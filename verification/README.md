# Markdown-to-PDF converter: the line loop, `clean_markdown` and table rows

This project models the part of `convert_to_pdf_reportlab.py` that decides
what goes into the PDF. That part is made of three pieces:

- **The line loop of `parse_markdown_to_pdf`.** It splits the document at `\n`
  and walks the lines with two accumulators, one for fenced code and one for
  table lines, building the list of flowables (the "story").
- **`clean_markdown`.** It drops a fixed set of emoji and rewrites bold,
  italic, inline code and links into ReportLab paragraph markup.
- **The row parsing of `create_table_from_markdown`.** It turns buffered
  table lines into rows of trimmed cells and skips separator rows.

The modules:

- `Text`: the Python string operations the converter relies on, with
  Python's meaning. These are `str.isspace`, `strip`/`lstrip`/`rstrip`,
  `split`, `join`, `startswith` and `*`.
- `Document`: the flowables, reduced to the paragraph style, the spacer
  height in millimetres, the code box and the table rows.
- `Inline`: `clean_markdown` as a pipeline of substitutions. Each pattern
  `x(.+?)x` is a recursive function that follows Python's leftmost, lazy,
  non-overlapping matching. The link pattern backtracks into longer text
  groups when no URL group closes.
- `Table`: the cells of a line, the rows of a buffer, and the table
  flowable.
- `Parser`:
  - `Classify` is the `if`/`elif` chain and `Render` gives a line's
    flowables.
  - `Step`/`Run` state what one iteration and the first `n` iterations do to
    the loop variables.
  - `BuildStory` is the loop itself, proved to compute `Run`. `Parse`
    applies it to the document.
- `ParserProps`, `LineProps`: properties of the loop and of single lines.

The loop calls two builders of flowables: one for a line outside any code
block or table, and one for a flushed table buffer. `Renderer` holds them as
parameters of `Step`, `Run` and `BuildStory`. The converter's own builders
are `Flowables`, that is `LineBlocks` and `CreateTable`. The facts about
code blocks and table buffering hold whichever builders are used.

Six behaviours of the code may surprise a reader of it. The model keeps
each of them as the code has it, and a lemma states each one:

- **A table at the end of the input is never emitted.** The look-ahead flush
  needs a next line, and nothing flushes after the loop (`TableAtEndLost`).
- **Separator rows are dropped wherever they appear in a table**, not only
  as the second row (`SeparatorRowIgnored`). A row like `|:--|` is kept as
  data (`Cells` and `RowOfCells`).
- **Both accumulators can be open at once.** This happens when a fence line
  holding a `|` follows a table line (`FenceInsideTable`). Without such a
  fence they never are (`AccumulatorsExclusive`).
- **A horizontal rule is three flowables:** a 0.3 cm gap, a body paragraph
  of 80 underscores, and another 0.3 cm gap (`RuleBlocks`).
- **Headings end with different gaps.** A `# ` heading is followed by a
  0.2 cm gap (`HeadingOneBlocks`, `FirstLineTitle`) and a `## ` heading by a
  0.1 cm gap (`HeadingTwoBlocks`). A `### ` heading has no gap
  (`HeadingThreeBlocks`).
- **`clean_markdown` is not idempotent.** A link whose text is itself a
  link, `[[t](u)](v)`, is cleaned to `[t](v)`, and cleaning that again gives
  `t` (`CleanNotIdempotent`).

## Model

| member | source | states |
|---|---|---|
| Text.IsSpace | convert_to_pdf_reportlab.py:122 | `str.isspace()` for one character, the set `strip` removes and `\s` matches |
| Text.StartsWith | convert_to_pdf_reportlab.py:102 | `s.startswith(p)` |
| Text.LStrip | convert_to_pdf_reportlab.py:173 | `lstrip` keeps a suffix, drops only whitespace, and the result starts with no whitespace |
| Text.RStrip | convert_to_pdf_reportlab.py:146 | `rstrip` keeps a prefix, drops only whitespace, and the result ends with no whitespace |
| Text.Strip | convert_to_pdf_reportlab.py:178 | `strip` gives text that neither starts nor ends with whitespace, no longer than the input, and empty exactly when the input is all whitespace |
| Text.StripIsInfix | convert_to_pdf_reportlab.py:178 | what `strip` keeps is the part of the line after its leading whitespace and before a tail that is whitespace only |
| Text.PrefixOfSuffix | convert_to_pdf_reportlab.py:178 | a prefix of `s[i..]` followed only by whitespace is the infix of `s` starting at `i`, followed only by whitespace |
| Text.StripKeepsOnly | convert_to_pdf_reportlab.py:225 | every character `strip` keeps comes from its input |
| Text.Indent | convert_to_pdf_reportlab.py:173 | `len(line) - len(line.lstrip())` counts exactly the leading whitespace |
| Text.Join | convert_to_pdf_reportlab.py:105 | `sep.join(parts)`: the pieces in order, with `sep` between each two consecutive ones (`JoinSplit` is its inverse) |
| Text.Count | convert_to_pdf_reportlab.py:225 | how often a character occurs in a text, as `str.count` counts it |
| Text.Split | convert_to_pdf_reportlab.py:91 | `split('\n')` gives one more piece than there are separators, and no piece holds the separator |
| Text.JoinSplit | convert_to_pdf_reportlab.py:91-105 | joining the split pieces with the separator gives back the text |
| Text.Repeat | convert_to_pdf_reportlab.py:166 | `s * n` has length `len(s) * n`, and its character `k` is character `k % len(s)` of `s` |
| Text.ModShift | convert_to_pdf_reportlab.py:166 | going back one whole copy of `s` lands on the same character of `s` |
| Text.ModUnique | convert_to_pdf_reportlab.py:166 | the position inside one copy of `s` is the unique remainder |
| Text.RepeatChar | convert_to_pdf_reportlab.py:166 | `c * n` is `n` copies of `c` |
| Text.StripKeepsPrefix | convert_to_pdf_reportlab.py:222 | a line starting with a prefix that begins and ends with no whitespace keeps that prefix when trimmed |
| Text.StrippedStartsWithIsStrip | convert_to_pdf_reportlab.py:122 | the first-non-space-character test is `strip().startswith(c)`, in both directions |
| Text.BlankIsStrip | convert_to_pdf_reportlab.py:129 | the recursive blank test is `strip() == ""`, in both directions |
| Text.StrippedStartsWithNotBlank | convert_to_pdf_reportlab.py:122-129 | a line whose trimmed form starts with a character is not blank |
| Text.LStripLeading | convert_to_pdf_reportlab.py:171-173 | `lstrip` removes exactly the leading whitespace in front of text starting with no whitespace |
| Text.RStripFront | convert_to_pdf_reportlab.py:178 | `rstrip` of text that is not all whitespace keeps whatever stands in front of it |
| Inline.IsListedEmoji | convert_to_pdf_reportlab.py:196 | the character class of the emoji pattern, with U+FE0F from the building emoji |
| Inline.StripEmoji | convert_to_pdf_reportlab.py:196 | the result holds no listed emoji and only characters of the input, and emoji-free text is unchanged |
| Inline.StripEmojiAppend | convert_to_pdf_reportlab.py:196 | the emoji strip works piece by piece: stripping `a + b` is stripping `a`, then `b` |
| Inline.StripEmojiChar | convert_to_pdf_reportlab.py:196 | one character is removed exactly when it is a listed emoji and kept otherwise |
| Inline.LazyClose | convert_to_pdf_reportlab.py:199-207 | the lazy group `(.+?)` ends at the first end where the closing delimiter follows; none means no end closes |
| Inline.SubWrap | convert_to_pdf_reportlab.py:199-207 | a delimiter substitution leaves text without the delimiter unchanged and adds no emoji when the tags hold none |
| Inline.LinkFrom | convert_to_pdf_reportlab.py:210 | the link match has the shortest text group for which a URL group closes, and the shortest such URL group; none means no link starts there |
| Inline.NewlineEndsLinks | convert_to_pdf_reportlab.py:210 | a link's text group cannot run across a newline |
| Inline.SubLink | convert_to_pdf_reportlab.py:210 | the link step leaves text without `[` unchanged, never lengthens the text and adds no emoji |
| Inline.Clean | convert_to_pdf_reportlab.py:193-212 | `clean_markdown` output holds no listed emoji, and text with no markup character comes back unchanged |
| Inline.SubWrapWhole | convert_to_pdf_reportlab.py:199 | `d w d` with no delimiter character or newline in `w` is one match, rewritten to `pre w post` |
| Inline.WrappedCloses | convert_to_pdf_reportlab.py:199 | the lazy group of `d w d` closes at the trailing delimiter |
| Inline.LazyCloseFinds | convert_to_pdf_reportlab.py:199-207 | the lazy search finds the first end that closes |
| Inline.CleanIsBoldStep | convert_to_pdf_reportlab.py:199-210 | when only the `**` step applies, `clean_markdown` is that step |
| Inline.CleanBold | convert_to_pdf_reportlab.py:199 | `**w**` comes out as `<b>w</b>` |
| Inline.SubLinkWhole | convert_to_pdf_reportlab.py:210 | the link step on `[text](url)` keeps the text alone |
| Inline.CleanIsLinkStep | convert_to_pdf_reportlab.py:203-210 | on emoji-free text without `*`, `_` or a backtick, `clean_markdown` is the link step |
| Inline.CleanLink | convert_to_pdf_reportlab.py:210 | `[text](url)` comes out as `text` |
| Inline.SubLinkFront | convert_to_pdf_reportlab.py:210 | a whole link `[text](url)` in front of more text is replaced by its text, and the rest is substituted on its own |
| Inline.NestedLinkShape | convert_to_pdf_reportlab.py:210 | `[[t](u)](v)` read as `[` + `t` followed by a link `(u)` and the rest `](v)` |
| Inline.NestedLinkIsLinkOnly | convert_to_pdf_reportlab.py:196-210 | with plain `t`, `u`, `v`, the text `[[t](u)](v)` holds no emoji, `*`, `_` or backtick, so only the link step applies |
| Inline.NestedLinkStep | convert_to_pdf_reportlab.py:210 | the link step turns `[[t](u)](v)` into `[t](v)`: the first match is the inner link, with text group `[t` |
| Inline.CleanNestedLink | convert_to_pdf_reportlab.py:193-212 | `clean_markdown` turns `[[t](u)](v)` into `[t](v)` |
| Inline.CleanNotIdempotent | convert_to_pdf_reportlab.py:193-212 | cleaning `[[t](u)](v)` once gives `[t](v)`, and cleaning that again gives `t`, so cleaning twice differs from cleaning once |
| Table.IsSeparatorRow | convert_to_pdf_reportlab.py:222 | a line whose trimmed form starts with a bar and three dashes, or a bar, a space and three dashes |
| Table.StripAll | convert_to_pdf_reportlab.py:225 | each cell is the trimmed field at the same position |
| Table.Cells | convert_to_pdf_reportlab.py:225 | cell `k` is the trimmed field `k + 1` of the split at the bars, so one fewer cell than bars, and none when there are fewer than two bars |
| Table.CellsHaveNoBar | convert_to_pdf_reportlab.py:225 | no cell holds a bar |
| Table.RowOf | convert_to_pdf_reportlab.py:221-227 | a buffered line adds at most one row, and never an empty row |
| Table.TableRows | convert_to_pdf_reportlab.py:221-227 | the `data` list: the rows of the buffered lines, in order |
| Table.CreateTable | convert_to_pdf_reportlab.py:214-233 | one table flowable holding the rows when some line gives a row; nothing for an empty buffer or no rows |
| Table.TableRowsAppend | convert_to_pdf_reportlab.py:221-227 | the rows of two runs of lines are the rows of the first, then those of the second |
| Table.TableRowsFront | convert_to_pdf_reportlab.py:221-227 | a line in front of a buffer adds its own row in front |
| Table.TableRowsSingle | convert_to_pdf_reportlab.py:222-227 | a single line gives its cells as a row exactly when it is no separator row and has at least two bars |
| Table.SeparatorRowIgnored | convert_to_pdf_reportlab.py:222-223 | removing a separator row, wherever it stands, leaves the rows unchanged |
| Table.RowsFromNonSeparatorLines | convert_to_pdf_reportlab.py:221-227 | every row is the cells of some buffered line that is no separator row |
| Table.RowOfGiven | convert_to_pdf_reportlab.py:222-227 | a line that gives a row is no separator row, and its row is its cells |
| Table.SplitFirst | convert_to_pdf_reportlab.py:225 | a field without the separator is a whole piece of the split |
| Table.SplitTwoCells | convert_to_pdf_reportlab.py:225 | bar, `x`, bar, `y`, bar splits into four fields, empty at both ends |
| Table.TwoCells | convert_to_pdf_reportlab.py:225 | fields `"", x, y, ""` give the cells `x` and `y`, trimmed |
| Table.StripPadded | convert_to_pdf_reportlab.py:225 | one space on either side of a word is trimmed |
| Table.NotSeparatorRow | convert_to_pdf_reportlab.py:222 | a bar and a space followed by a character that is neither whitespace nor `-` is no separator row |
| Table.DashesAreSeparatorRow | convert_to_pdf_reportlab.py:222 | a line starting with a bar and three dashes is a separator row |
| Table.RowOfCells | convert_to_pdf_reportlab.py:222-227 | a line that is no separator row and has cells adds them as one row |
| Table.TwoWordCells | convert_to_pdf_reportlab.py:225 | the cells of a row holding the one-character words `x` and `y`, each padded by single spaces, are `x` and `y` |
| Table.TwoWordRow | convert_to_pdf_reportlab.py:221-227 | that row adds the one row `x`, `y` |
| Table.TwoWordNotSeparator | convert_to_pdf_reportlab.py:222 | a row starting with a bar, a space and a one-character word is no separator row |
| Table.TableRowsThree | convert_to_pdf_reportlab.py:221-227 | three lines give their rows in order |
| Table.HeaderSeparatorData | convert_to_pdf_reportlab.py:221-230 | a header row, a separator row and a data row give the header and the data row |
| Table.RowsAroundSeparator | convert_to_pdf_reportlab.py:221-227 | two lines that each give a row, with a separator row between them, give those two rows |
| Table.SeparatorRowOf | convert_to_pdf_reportlab.py:222-223 | a separator row adds no row |
| Parser.IsFence | convert_to_pdf_reportlab.py:102 | a line starting with three backticks |
| Parser.IsTableLine | convert_to_pdf_reportlab.py:122 | a line holding a bar whose trimmed form starts with one |
| Parser.EndsTable | convert_to_pdf_reportlab.py:129 | the next line ends the table unless it holds a bar and is not blank |
| Parser.IsBulleted | convert_to_pdf_reportlab.py:170-172 | a trimmed line that starts with a dash or a star followed by a space |
| Parser.IsNumbered | convert_to_pdf_reportlab.py:170 | `re.match(r'^\d+\.', s)`: one or more digits, then a dot |
| Parser.DigitRun | convert_to_pdf_reportlab.py:170 | the length of the leading run of digits, with a non-digit, or the end, right after it |
| Parser.DropNumber | convert_to_pdf_reportlab.py:171 | `re.sub(r'^\d+\.\s+', '', s)` changes the text exactly when digits, a dot and whitespace start it, and then drops them and all the whitespace after the dot |
| Parser.Classify | convert_to_pdf_reportlab.py:145-184 | headings have levels 1 to 3, a gap comes exactly from an all-whitespace line, a paragraph is the trimmed line and no list item, and an item carries the line's indentation |
| Parser.Render | convert_to_pdf_reportlab.py:145-184 | a line gives one to three flowables, only the first flowable of line 0 can be the title, and none is code or a table |
| Parser.LineBlocks | convert_to_pdf_reportlab.py:145-186 | the same for a raw line |
| Parser.FlushTable | convert_to_pdf_reportlab.py:131-132 | a flushed table buffer is the table built from it, then a 0.3 cm gap |
| Parser.Step | convert_to_pdf_reportlab.py:98-186 | one iteration: a fence toggles code mode and flushes the code block, a line in a code block is buffered, a table line is buffered and flushed by the look-ahead, another line flushes an open table and adds its own flowables |
| Parser.Run | convert_to_pdf_reportlab.py:90-186 | the loop variables after the first `n` iterations, from the initial empty state |
| Parser.StepExtendsStory | convert_to_pdf_reportlab.py:98-186 | one iteration only appends to the story |
| Parser.TraceExtends | convert_to_pdf_reportlab.py:98-186 | a trace of the loop's states extended by one iteration is still a trace |
| Parser.TraceIsRun | convert_to_pdf_reportlab.py:98-186 | every trace of the loop agrees with `Run` |
| Parser.BuildStory | convert_to_pdf_reportlab.py:90-186 | the loop computes the story `Run` gives after all lines |
| Parser.Parse | convert_to_pdf_reportlab.py:90-186 | the story of a document is `Run` over its `\n`-separated lines with the converter's builders |
| ParserProps.TableLineFacts | convert_to_pdf_reportlab.py:102-129 | a table line never ends a table and is never a fence |
| ParserProps.StepConsistent | convert_to_pdf_reportlab.py:98-186 | an iteration keeps the code buffer empty outside code, and keeps the table buffer non-empty exactly while a table is open |
| ParserProps.RunConsistent | convert_to_pdf_reportlab.py:90-186 | the same bookkeeping holds after any number of lines |
| ParserProps.StoryOnlyGrows | convert_to_pdf_reportlab.py:90-186 | the story after `m` lines is a prefix of the story after `n >= m` lines |
| ParserProps.CodeLinesBuffered | convert_to_pdf_reportlab.py:102-119 | after an opening fence, each line up to the next fence is buffered verbatim and nothing else changes |
| ParserProps.CodeBlockVerbatim | convert_to_pdf_reportlab.py:102-119 | a fenced block reaches the story as one code box holding the lines between the fences joined by `\n`, then a 0.3 cm gap |
| ParserProps.UnterminatedFenceSwallowsRest | convert_to_pdf_reportlab.py:102-119 | after a fence that never closes, nothing more reaches the story |
| ParserProps.StepBuffersTableLine | convert_to_pdf_reportlab.py:122-135 | a table line followed by one that continues the table is buffered |
| ParserProps.StepFlushesTable | convert_to_pdf_reportlab.py:122-135 | a table line followed by one that ends the table flushes the buffer with a 0.3 cm gap |
| ParserProps.TableLinesBuffered | convert_to_pdf_reportlab.py:122-135 | consecutive table lines are buffered and the story does not change |
| ParserProps.TableRunFlushed | convert_to_pdf_reportlab.py:122-135 | a run of table lines ended by the next line adds the table built from the run and a 0.3 cm gap |
| ParserProps.TableFlushedByLaterLine | convert_to_pdf_reportlab.py:122-142 | a run of table lines still open when a line that is neither a table line nor a fence comes adds the table, a 0.3 cm gap, then that line's own flowables |
| ParserProps.TableBufferBefore | convert_to_pdf_reportlab.py:122-135 | before the last line of a run of table lines, the earlier lines of the run are buffered |
| ParserProps.TableAtEndLost | convert_to_pdf_reportlab.py:122-135 | a table on the last lines stays buffered and never reaches the story |
| ParserProps.FenceInsideTable | convert_to_pdf_reportlab.py:102-135 | a fence holding a bar right after a table line leaves both accumulators open |
| ParserProps.RunTablePending | convert_to_pdf_reportlab.py:122-142 | when no fence holds a bar, an open table always waits on a line that continues it |
| ParserProps.AccumulatorsExclusive | convert_to_pdf_reportlab.py:102-142 | when no fence holds a bar, a code block and a table are never open together |
| ParserProps.FlowablesTitleOnlyAtTop | convert_to_pdf_reportlab.py:145-152 | the converter's builders give a title only as the first flowable of line 0 |
| ParserProps.TitleOnlyFirst | convert_to_pdf_reportlab.py:145-152 | only the first flowable of the story can be the title |
| ParserProps.FirstLineTitle | convert_to_pdf_reportlab.py:145-152 | a first line `# text` gives the cleaned title and a 0.2 cm gap |
| ParserProps.BarLineIsTableLine | convert_to_pdf_reportlab.py:122 | a line opening with a bar is a table line |
| ParserProps.TableThenLine | convert_to_pdf_reportlab.py:121-142 | three table lines, then a line that ends the table, give the table, its gap, and then that line's own flowables |
| ParserProps.TableThenEmptyLine | convert_to_pdf_reportlab.py:121-142 | three table lines and an empty line give the table, its gap, and the empty line's gap |
| ParserProps.SmallTableDocument | convert_to_pdf_reportlab.py:121-142 | a header row, a separator row, a data row and an empty line give a two-row table, a 0.3 cm gap and a 0.2 cm gap |
| ParserProps.EmptyLineGap | convert_to_pdf_reportlab.py:183-184 | an empty line gives a 0.2 cm gap |
| LineProps.DigitRunOf | convert_to_pdf_reportlab.py:170 | a run of digits in front of a non-digit is the whole run the number test measures |
| LineProps.DeepHeadingIsParagraph | convert_to_pdf_reportlab.py:145-180 | a line starting `####` is a paragraph that keeps its hashes |
| LineProps.IndentedHeadingIsParagraph | convert_to_pdf_reportlab.py:145-180 | a heading mark after leading whitespace gives a paragraph that keeps the mark |
| LineProps.HeadingOneBlocks | convert_to_pdf_reportlab.py:145-152 | a `# ` line after the first gives an h1 heading of its trimmed, cleaned rest, then a 0.2 cm gap |
| LineProps.HeadingOne | convert_to_pdf_reportlab.py:145-146 | a `# ` line is a level-1 heading of its trimmed rest |
| LineProps.HeadingTwoBlocks | convert_to_pdf_reportlab.py:154-157 | a `## ` line gives an h2 heading of its trimmed, cleaned rest, then a 0.1 cm gap |
| LineProps.HeadingTwo | convert_to_pdf_reportlab.py:154-155 | a `## ` line is a level-2 heading of its trimmed rest |
| LineProps.HeadingThreeBlocks | convert_to_pdf_reportlab.py:159-161 | a `### ` line gives an h3 heading of its trimmed, cleaned rest, and no gap |
| LineProps.HeadingThree | convert_to_pdf_reportlab.py:159-160 | a `### ` line is a level-3 heading of its trimmed rest |
| LineProps.RenderHeadingThree | convert_to_pdf_reportlab.py:159-161 | a level-3 heading is drawn as one h3 paragraph |
| LineProps.BlocksOfClass | convert_to_pdf_reportlab.py:145-184 | a line is drawn as its class is |
| LineProps.NotFewerHashes | convert_to_pdf_reportlab.py:145-159 | a line starting `## ` or `### ` fails the tests for headings with fewer hashes |
| LineProps.ParagraphBlocks | convert_to_pdf_reportlab.py:178-180 | a paragraph line gives one body paragraph of its trimmed, cleaned text |
| LineProps.DashesAreRule | convert_to_pdf_reportlab.py:164 | a line starting `---` is a rule, even when text follows |
| LineProps.RuleBlocks | convert_to_pdf_reportlab.py:164-167 | a rule is a 0.3 cm gap, a paragraph of exactly 80 underscores and a 0.3 cm gap |
| LineProps.GapOnlyForBlank | convert_to_pdf_reportlab.py:178-184 | a line gives only a 0.2 cm gap exactly when it is all whitespace |
| LineProps.TrimmedParts | convert_to_pdf_reportlab.py:171-173 | leading whitespace is dropped and counted as the indentation, and trailing whitespace is dropped |
| LineProps.BulletItem | convert_to_pdf_reportlab.py:170-174 | an indented `- ` or `* ` line is a bullet item with that indentation and the rest as text |
| LineProps.BulletItemBlocks | convert_to_pdf_reportlab.py:170-175 | a bullet item is one body paragraph: two `&nbsp;` per indentation character, the bullet, a space and the cleaned text |
| LineProps.BulletItemBlocksWith | convert_to_pdf_reportlab.py:170-175 | the same, for item text known to clean to a given text |
| LineProps.BoldWordText | convert_to_pdf_reportlab.py:171 | `**w**` is not blank, loses nothing to `rstrip`, and is cleaned to `w` in a bold span |
| LineProps.BoldBulletItem | convert_to_pdf_reportlab.py:170-175 | `- **w**` gives the bullet followed by `w` in a bold span |
| LineProps.NoTrailingSpace | convert_to_pdf_reportlab.py:170-171 | text ending in a non-space character is not blank and is kept whole by `rstrip` |
| LineProps.NumberedItemBlocks | convert_to_pdf_reportlab.py:170-175 | a numbered item is one body paragraph with the open-circle mark and the cleaned text without its number |
| LineProps.NumberedItem | convert_to_pdf_reportlab.py:170-174 | an indented `12. text` line is an open-circle item whose text drops the number |
| LineProps.NumberedShape | convert_to_pdf_reportlab.py:170 | digits followed by a dot are a numbered item and no bullet item |
| LineProps.NumberDropped | convert_to_pdf_reportlab.py:171 | the number, the dot and the space are dropped from `12. text` |
| LineProps.DropNumberAt | convert_to_pdf_reportlab.py:171 | after digits, a dot and one space, the number substitution leaves the text that follows |
| LineProps.DroppedAfterDot | convert_to_pdf_reportlab.py:171 | with whitespace after the dot, the number substitution leaves `lstrip` of what follows the dot |
| LineProps.SpaceThen | convert_to_pdf_reportlab.py:171 | `lstrip` of one space followed by text starting with no whitespace is that text |
| LineProps.NumberKept | convert_to_pdf_reportlab.py:171 | with no whitespace after the dot the number stays in the text |
| LineProps.NumberedItemWithoutSpace | convert_to_pdf_reportlab.py:170-174 | `12.text` is still an open-circle item, but its text keeps `12.` |

## Left out

- ReportLab is not part of this model. That covers the paragraph styles and
  their fonts, colours and spacing, the parsing of paragraph markup
  (`&nbsp;`, `<b>`), page layout, column widths, the table style and the
  building of the PDF. A flowable is reduced to its style and its text, a
  spacer to its height.
- Reading the Markdown file, writing the PDF and the two progress `print`s
  are not modelled. `Parse` takes the file's content as a parameter.
- `\d` is modelled as the ASCII digits `0`-`9`. Python's `re` also matches
  the other Unicode decimal digits.
- Inline.SubWrap: does not state that every character of the result comes
  from the input or the tags. Its contract keeps to the unchanged case and
  emoji-freedom.
- Inline.SubLink: does not state that every character of the result comes
  from the input. Its contract keeps to the unchanged case, the length bound
  and emoji-freedom.
- Inline.Clean: does not state how italic and inline-code spans are
  rewritten in general. The lemmas cover plain text, a whole bold span, a
  whole link and a link nested in the text of another.
- Each pattern's lazy group is modelled as matching any character except
  `\n`, as Python's `.` does without `DOTALL`. Lines never hold `\n`, so this
  only matters for direct uses of `Clean`.
