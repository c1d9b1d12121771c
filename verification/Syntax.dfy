/** Tokens and trees of the operator fragment of Kukicha expressions. */
module Syntax {
  /** A `Prim` is an identifier or a literal; a `Word` is an operator by its lexeme. */
  datatype Tok =
    | Prim(text: string)
    | Word(lexeme: string)
    | PipeTok
    | LParen
    | RParen
    | Comma
    | Eof
    | Ignorable(text: string)  // comments, semicolons and directives

  datatype Expr =
    | Leaf(text: string)
    | Call(fn: Expr, args: seq<Expr>)
    | Unary(op: string, operand: Expr)  // not, !, -, & (reference of), dereference
    | Binary(op: string, left: Expr, right: Expr)
    | Pipe(left: Expr, right: Expr)

  /** The parser's level for a one-word infix operator, -1 for other words. */
  function WordLevel(op: string): int
  {
    if op == "or" || op == "||" then 0
    else if op == "and" || op == "&&" then 2
    else if op == "|" then 3
    else if op == "&" then 4
    else if op == "==" || op == "!=" || op == "<" || op == ">" || op == "<=" || op == ">=" || op == "equals" || op == "isnt" || op == "in" then 5
    else if op == "+" || op == "-" then 6
    else if op == "*" || op == "/" || op == "%" then 7
    else -1
  }

  /** The level of any infix operator; the two-word ones are comparisons. */
  function OpLevel(op: string): int
  {
    if op == "not equals" || op == "not in" then 5 else WordLevel(op)
  }

  /** The tokens of an infix operator. */
  function OpTokens(op: string): (ts: seq<Tok>)
    ensures |ts| > 0
  {
    if op == "not equals" then [Word("not"), Word("equals")]
    else if op == "not in" then [Word("not"), Word("in")]
    else [Word(op)]
  }

  predicate PrefixWord(w: string)
  {
    w == "not" || w == "!" || w == "-" || w == "&" || w == "reference of" || w == "dereference"
  }

  /** Both spellings of address-of give one tree. */
  function PrefixOp(w: string): string
  {
    if w == "reference of" then "&" else w
  }
}
