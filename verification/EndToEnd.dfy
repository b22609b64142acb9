/** The statement formatter and the parser, one after the other, on text. */
module EndToEnd {
  import opened Wrappers
  import opened Ast
  import opened Formatter
  import opened Parser
  import opened StatementGrammar
  import opened StatementPrinting
  import opened StatementRoundTrip
  import opened StatementText
  import opened Lexing

  /** Writes a statement and parses what was written: the statement comes back exactly when it fits. */
  method FormatAndParse(s: Statement) returns (r: Outcome<Option<Statement>>)
    requires StatementWritable(s)
    ensures r == Value(Some(s)) <==> StatementFits(s)
  {
    hide StatementWritable, StatementFits, RenderStatement, ParseInput, Lexemes;
    var formatter := new StatementFormatter();
    var text := formatter.Format(s);
    r := ParseText(text);
    StatementTextParses(s, "");
  }
}
