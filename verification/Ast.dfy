/** KISS VM tokens and syntax tree nodes. */
module Ast {
  datatype TokenType =
    | NUMBER_LITERAL | HEX_LITERAL | STRING_LITERAL | BOOLEAN_LITERAL
    | IDENTIFIER | KEYWORD
    | PLUS | MINUS | MULTIPLY | DIVIDE | MODULO
    | EQ | NEQ | LT | GT | LTE | GTE
    | AND | OR | NOT | XOR | NAND | NOR
    | LSHIFT | RSHIFT | AMP | PIPE | CARET | TILDE
    | LPAREN | RPAREN | COMMA | COLON | ASSIGN
    | END_OF_SCRIPT | UNKNOWN

  // Line and column serve error messages only.
  datatype Token = Token(kind: TokenType, value: string)

  // One constructor per node kind. IF and WHILE keep the flat child lists the parser builds.
  datatype Node =
    | Program(stmts: seq<Node>)
    | Let(name: string, value: Node)
    | If(children: seq<Node>)
    | While(children: seq<Node>)
    | Return(value: Node)
    | Assert(value: Node)
    | Exec(value: Node)
    | Mast(value: Node)
    | ExprStmt(value: Node)
    | BoolLit(tok: Token, bval: bool)
    | NumLit(tok: Token)
    | HexLit(tok: Token)
    | StrLit(tok: Token)
    | Var(tok: Token, name: string)
    | Binary(tok: Token, left: Node, right: Node)
    | Unary(tok: Token, operand: Node)
    | Call(tok: Token, name: string, args: seq<Node>)

  const EOF := Token(END_OF_SCRIPT, "<EOF>")
}
