/** The closed token vocabulary shared by the lexer and the parser (src/token.rs). */
module Tokens {
  import opened Wrappers

  /** Reserved words. The lexer only ever produces `New` and `Return`. */
  datatype Keyword =
    | Null
    | New
    | And
    | Or
    | True
    | False
    | Function
    | FunctionAt
    | Return

  /** Punctuation and operator symbols. `Not` and `NotEqual` are declared but never scanned. */
  datatype Symbol =
    | Equal
    | EqualEqual
    | LBrace
    | RBrace
    | Colon
    | Semicolon
    | LParen
    | RParen
    | LBracket
    | RBracket
    | Dot
    | Comma
    | Minus
    | MinusEqual
    | ThinArrow
    | Asterisk
    | AsteriskEqual
    | ForwardSlash
    | ForwardSlashEqual
    | Plus
    | PlusEqual
    | LT
    | GT
    | LTEqual
    | GTEqual
    | Not
    | NotEqual
    | Caret

  /** The kind of a token together with its text, where it has one. */
  datatype LexerToken =
    | Identifier(name: string)
    | Keyword(keyword: Keyword)
    | Number(digits: string)
    | Hex(digits: string)
    | Octal(digits: string)
    | Base36(digits: string)
    | Typename(text: string)
    | Symbol(symbol: Symbol)
    | EOF

  /** The identifier text of an `Identifier` token, and nothing for every other kind. */
  function AsIdentifier(t: LexerToken): (r: Option<string>)
    ensures r.Some? <==> t.Identifier?
    ensures t.Identifier? ==> r.value == t.name
  {
    match t
    case Identifier(s) => Some(s)
    case _ => None
  }
}
