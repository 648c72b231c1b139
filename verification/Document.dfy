/**
  The flowables the converter hands to the PDF builder, reduced to what
  distinguishes them: the paragraph style chosen (title, h1, h2, h3, body),
  a vertical spacer and its height, a preformatted code box, and a table
  whose first row is drawn as the header.
 */
module Document {

  datatype Block =
    | Title(t: string)        // paragraph in the title style
    | H1(t: string)           // paragraph in the h1 style
    | H2(t: string)           // paragraph in the h2 style
    | H3(t: string)           // paragraph in the h3 style
    | Body(t: string)         // paragraph in the body style
    | Spacer(mm: nat)         // vertical gap of `mm` millimetres (0.1 cm = 1)
    | Code(t: string)         // preformatted text in the code style
    | Tbl(rows: seq<seq<string>>)  // table, rows[0] is the header row
}
