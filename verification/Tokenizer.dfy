/** The tokenizer as the parser calls it (ScanTokens of internal/lexer/lexer.go): the scan, and the pass that joins lines. */
module Tokenizer {
  import opened Prelude
  import opened Layout
  import opened MergeLines
  import opened LineScan
  import opened LayoutText
  import L = Lexer

  /** The source's tokens, or none when the scan has errors. */
  method Tokenize(source: string) returns (r: Option<seq<Token>>)
    ensures r == TokensOf(source) && (r.Some? ==> Nested(r.value))
  {
    hide ScanProgram, Merge;
    var lexer := new L.Lexer(source);
    lexer.ScanTokens();
    if lexer.errors > 0 {
      return None;
    }
    MergeConserves(lexer.tokens);
    var tokens := MergeLineContinuations(lexer.tokens);
    r := Some(tokens);
  }
}
