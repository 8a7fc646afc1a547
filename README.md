# cattail front end in Dafny

This project models the front end of the `cattail` scripting language: its lexer and its
Pratt (precedence-climbing) expression parser, together with the token and syntax-tree types
the two share. It follows the Rust code as written, including where that code departs from
the intended grammar; the one exception is a call that does not compile, listed below. Each
departure is listed below, with the lemma that proves it where there is one.

- `wrappers.dfy` (`Wrappers`): `Option` and `Result`, standing for Rust's.
- `token.dfy` (`Tokens`): the closed `Keyword`, `Symbol` and `LexerToken` enums and
  `as_identifier`.
- `lexer_spec.dfy` (`LexerSpec`): `Span`, the lexer errors and a reference definition of the
  lexer as pure functions over the whole input and a cursor. It holds the counter update
  (`Advance`, `At`), the ASCII character classes, comment skipping (`SkipLine`, `SkipBlock`,
  `SkipTrivia`), one token (`ScanToken`, `Scan`) and everything the iterator yields (`Stream`).
- `lexer.dfy` (`Lexing`): the `Lexer` class. Its fields are the input, the cursor `pos`, `ln`,
  `col` and `error`. `Valid()` says that `ln`/`col` are exactly the counters reached by reading
  `input[..pos]`. Each method is proved to agree with the `LexerSpec` function that specifies it.
- `lexer_props.dfy` (`LexerProperties`): what the lexer guarantees, proved on the reference
  functions.
- `ast.dfy` (`Ast`): the `Type`, `Stat` and `Expr` datatypes and their constructor functions.
- `parser_spec.dfy` (`ParserSpec`): `ParserError`, the prefix and infix dispatch tables as
  `match`es over the token kind, and `pratt_expression` as three mutually recursive functions.
  `Pratt` is the prefix step, `InfixLoop` is the `while` loop and `InfixParse` is the closure
  built by `binary_prslt`.
- `parser.dfy` (`Parsing`): the `Parser` class, a token vector with a forward-only cursor.
  `PrattExpression` is proved to compute exactly `Pratt`. Its loop invariant is that the
  remaining `InfixLoop` equals the whole result.
- `parser_props.dfy` (`ParserProperties`): precedence, associativity and the quirks of the
  parser as written.

Some properties hold by construction of the types rather than by a lemma:
- `NewObject.extensions` and `FunctionLiteral.parameters` are `map`s, so keys are unique in a node.
- `Type.Matrix` dimensions are `nat`.
- `Type.Function` parameters are a `seq`, so their order is kept.
- `Stat.Return` holds an `Option<Expr>`, so a bare `return` can be represented.
- `Keyword`, `Symbol` and `LexerToken` are closed datatypes with the source's 9, 28 and 9 variants.

Names that differ from the source:
- `LexerErrorType::EOF` is `EndOfInput`, so that it does not clash with `LexerToken.EOF`.
- `Expr::Integer`, `Expr::Float` and `Expr::Function` are `IntegerLiteral`, `FloatLiteral` and
  `FunctionLiteral`, so that they do not clash with the `Type` variants.
- The payload structs (`Identifier`, `Binary`, `Assignment`, `Return`, ...) are the named
  fields of the constructors.
- `hex_number`, `octal_number` and `base36_number` differ only in the radix. They are one
  method, `RadixNumber(radix)`, whose loop, shared with `identifier` and `typename`, is `ConsumeRun`.
- The six `=`-probing branches of `next_token` share the method `Compound`.
- `Iterator::next` is `IteratorNext`.

Where the code and the intended grammar disagree, the model follows the code:
- Both infix operators are declared with `left=false` (src/parser.rs:59-60). Their right-hand
  side is therefore parsed at `prec - 1`, and `a + b + c` nests to the right (`PlusNestsRight`,
  and `RightNesting` for chains of any length).
- Only `+` (power 10) and `*` (power 20) have infix entries. `-`, `/` and the comparisons end an
  expression (`MinusIsNoOperator`).
- The infix loop consumes an operator before comparing its power with the threshold. On a
  break, that operator is lost: `a * b + c ;` parses as `a * b` and stops at `c`
  (`OperatorDroppedOnBreak`).
- The loop's `peek()?` fails when the tokens run out. An expression that reaches the end of the
  vector is an error (`NoTerminatorFails`, `PrattStopsInside`, `EndingWithoutOperator`).
- Radix literals are emitted as `Typename`, never `Hex`/`Octal`/`Base36` (`RadixDigits`). Their
  digits may be empty.
- A block comment opened by `#{` is closed by `#}`. Inside it, every `#` consumes the following
  character, whatever that character is, so `#{##}x` never closes (`HashSwallowsNextCharacter`;
  nesting in `SkipBlockNesting`, `NestedBlockComment`).
- `create_span` runs after the first character was read. A span's start column is therefore
  the column after that character. `&` in column 1 is reported at column 2
  (`AmpersandIsUnknown`), and a radix literal's span starts after its `0x`.
- The iterator checks for end of input before skipping blanks. Trailing blanks or a trailing
  comment make it yield the internal end-of-input error as its last item
  (`TrailingBlankYieldsEndOfInput`).
- There is no statement grammar: `Parser::file` is unimplemented, so there is nothing to prove
  about statements. Numbers have no prefix parselet, so a number is reported as
  `NoParseletFound("prefix", …)` and `x = 1 + 2;` cannot be parsed (`NoPrefixParselet`).
- `binary_prslt` parses its right operand at a threshold no higher than its own power, and the
  loop breaks only when the threshold is above an operator's power. An equal-power operator is
  therefore absorbed by the right operand even when `left` is true (`EqualPowerNestsRight`).

Where the code cannot be followed:
- `binary_prslt` calls `p.expression(n)`, but `expression` takes no argument
  (src/parser.rs:31 and 65), so the code as written does not compile. The model calls
  `pratt_expression(n)`, the evident intent (`CallInfix`, `InfixParse`).

## Model

| member | source | states |
|---|---|---|
| `Tokens.AsIdentifier` | src/token.rs:55-60 | the text of an `Identifier` token, and `None` for every other kind |
| `LexerSpec.Advance` | src/lexer.rs:86-95 | a newline moves to the next line at column 1; any other character moves one column right on the same line |
| `LexerSpec.DigitValue` | src/lexer.rs:300-301 | a character has a digit value below 36 exactly when it is an ASCII letter or digit; which characters each radix accepts is stated by `RadixDigitClasses` |
| `LexerSpec.RunEnd` | src/lexer.rs:236-242 | the scan loops stop at the end of the maximal run of class characters: all before it belong to the class, the one at it does not |
| `LexerSpec.SkipLine` | src/lexer.rs:220-224 | a line comment ends just after its first newline, or at the end of input; no newline comes before that |
| `LexerSpec.SkipBlock` | src/lexer.rs:206-218 | with levels open, a block comment ends at the end of input or just after a `#}`; with none open it ends at once; the cursor never moves back |
| `LexerSpec.SkipTrivia` | src/lexer.rs:199-230 | skipping stops at the end of input or at a character that is neither blank nor `#` |
| `LexerSpec.KeywordOrIdentifier` | src/lexer.rs:245-249 | an identifier's text is `Keyword(New)` exactly when it is `new`, `Keyword(Return)` exactly when it is `return`, and otherwise an `Identifier` with that text |
| `LexerSpec.NumberEnd` | src/lexer.rs:315-322 | a number's tail holds only digits and `.`, at most one `.`, and none once a dot was seen; it stops only at a character that is not a digit and is not the first `.` |
| `LexerSpec.ScanToken` | src/lexer.rs:106-192 | the token dispatch reads only forward, within the input |
| `LexerSpec.Scan` | src/lexer.rs:104-193 | `next_token` never moves the cursor back, and reads at least one character whenever it yields a token |
| `Lexing.Lexer.constructor` | src/lexer.rs:69-76 | a new lexer is at line 1, column 1, without error, and will yield exactly `Stream(s, 0)` |
| `Lexing.Lexer.Next` | src/lexer.rs:86-95 | returns the character at the cursor and advances by one, moving `ln`/`col` as `Advance` says; at the end it returns `None` and changes nothing |
| `Lexing.Lexer.Expect` | src/lexer.rs:79-84 | like `Next`, with the end of input reported as the end-of-input error at the current counters |
| `Lexing.Lexer.Peek` | src/lexer.rs:97-99 | the character at the cursor, or `None` at the end, without moving |
| `Lexing.Lexer.AtEnd` | src/lexer.rs:101 | true exactly when the whole input has been read |
| `Lexing.Lexer.CreateSpan` | src/lexer.rs:195-197 | a zero-width span at the counters of the text read so far |
| `Lexing.Lexer.EatWhitespaceAndComments` | src/lexer.rs:199-230 | terminates, leaving the cursor where `SkipTrivia` says, with the counters matching |
| `Lexing.Lexer.EatBlockComment` | src/lexer.rs:206-218 | the nested `level` loop terminates where `SkipBlock` with one open level says |
| `Lexing.Lexer.EatLineComment` | src/lexer.rs:220-224 | the line-comment loop stops where `SkipLine` says |
| `Lexing.Lexer.ConsumeRun` | src/lexer.rs:236-242 | reads exactly the maximal run of class characters and returns that text |
| `Lexing.Lexer.Identifier` | src/lexer.rs:232-251 | yields what `IdentifierScan` defines and leaves the cursor after the identifier |
| `Lexing.Lexer.Typename` | src/lexer.rs:253-267 | yields what `TypenameScan` defines and leaves the cursor after the typename |
| `Lexing.Lexer.RadixNumber` | src/lexer.rs:269-310 | yields what `RadixScan` defines for radix 16, 8 or 36 |
| `Lexing.Lexer.Number` | src/lexer.rs:311-330 | yields what `NumberScan` defines: `Malformed number` at the counters after the digits when the text ends with `.`, otherwise the `Number` token with its span |
| `Lexing.Lexer.NumberDigits` | src/lexer.rs:315-322 | the `see_dot` loop reads exactly up to `NumberEnd`, and the text is the first digit followed by everything it read |
| `Lexing.Lexer.MinusSymbol` | src/lexer.rs:161-170 | yields what `MinusProbe` defines: `-=`, `->` or `-`, reading at most one more character |
| `Lexing.Lexer.Compound` | src/lexer.rs:107-160 | one character of lookahead for `=`, as `Probe` defines |
| `Lexing.Lexer.NextToken` | src/lexer.rs:104-193 | yields exactly `Scan(input, pos)` and moves the cursor to its end, keeping the counters consistent |
| `Lexing.Lexer.IteratorNext` | src/lexer.rs:333-343 | `None` and no change once an error was yielded or the input is exhausted; otherwise `Some(next_token)`, remembering whether it failed; the items yielded are exactly `Stream` |
| `LexerProperties.AtWithinLine` | src/lexer.rs:86-95 | reading characters other than newlines keeps the line and advances the column by their number |
| `LexerProperties.ScanTokenWithinLine` | src/lexer.rs:106-192 | no token contains a newline after its first character |
| `LexerProperties.ScanTokenSpan` | src/lexer.rs:108-113 | for a radix literal (`0` followed by `x`, `o` or `b`) the span starts at the counters after the prefix letter; for every other token it starts after the first character; either way it ends at the counters after the last character |
| `LexerProperties.ScanSpan` | src/lexer.rs:195-197 | every token's span is on the line of its first character and starts after it, with start ≤ end |
| `LexerProperties.ScanTokenOnLine` | src/lexer.rs:195-197 | the span of a token whose first character is not a newline lies on that character's line, starts in a later column and ends no earlier than it starts |
| `LexerProperties.ScanProducible` | src/lexer.rs:104-193 | a token is never `Hex`/`Octal`/`Base36`/`EOF`, `Not`/`NotEqual`, or a keyword other than `New`/`Return` |
| `LexerProperties.CompoundLookahead` | src/lexer.rs:107-160 | `=`, `+`, `*`, `/`, `>` and `<` gain `Equal` exactly when the next character is `=`, which is then the one extra character read |
| `LexerProperties.MinusLookahead` | src/lexer.rs:161-170 | `-` followed by `=` is `MinusEqual`, by `>` is `ThinArrow`, otherwise `Minus`, reading at most one more character |
| `LexerProperties.SymbolLookaheadAtMostOne` | src/lexer.rs:107-181 | no symbol reads more than one character beyond its first |
| `LexerProperties.IdentifierWhole` | src/lexer.rs:232-251 | an identifier is the maximal run of identifier characters, and it is a keyword exactly when its whole text is `new` or `return` |
| `LexerProperties.TypenameWhole` | src/lexer.rs:253-267 | a typename is its first letter and the maximal run of ASCII alphanumerics after it |
| `LexerProperties.RadixDigits` | src/lexer.rs:184-189 | after `0x`/`0o`/`0b` the scanner takes the maximal, possibly empty, run of radix 16/8/36 digits and emits it as a `Typename` |
| `LexerProperties.NumberText` | src/lexer.rs:316-322 | the text the `see_dot` loop collects is digits with at most one `.`, and a `.` it stops at is a second one |
| `LexerProperties.NumberShape` | src/lexer.rs:311-330 | a decimal number has digits and at most one `.`, and stops only before a character that is neither a digit nor a first `.`; it is the `Malformed number` error exactly when its text ends with `.`, and otherwise a `Number` with that text |
| `LexerProperties.UnknownCharacter` | src/lexer.rs:191 | a character no rule accepts is an `Unknown token: c` error at the counters after it |
| `LexerProperties.RadixDigitClasses` | src/lexer.rs:269-310 | `is_digit(16)` accepts exactly `0`-`9`, `a`-`f` and `A`-`F`; `is_digit(8)` exactly `0`-`7`; `is_digit(36)` exactly the ASCII letters and digits |
| `LexerProperties.ScanEndOfInput` | src/lexer.rs:31-33 | a scan's error satisfies `is_eof` exactly when only blanks and comments are left; every other error is a real fault |
| `LexerProperties.SkipBlanks` | src/lexer.rs:200-203 | blanks alone are skipped exactly up to the first character that is neither a blank nor `#` |
| `LexerProperties.SkipBlockNesting` | src/lexer.rs:208-218 | with `a + b` levels open, the scan ends where a scan with the inner `a` levels ends, continued with the outer `b`: an inner `#{`…`#}` closes only its own level |
| `LexerProperties.UnterminatedBlockComment` | src/lexer.rs:206-218 | a block comment with no `#` left swallows the rest of the input |
| `LexerProperties.NestedBlockComment` | src/lexer.rs:206-218 | `#{#{#}#}x` is skipped up to `x`: an inner `#}` closes only the inner level |
| `LexerProperties.OpenBlockComment` | src/lexer.rs:206-218 | `#{#{#}x` leaves a level open and runs to the end of input |
| `LexerProperties.HashSwallowsNextCharacter` | src/lexer.rs:210-214 | in `#{##}x` the second `#` is swallowed by the first, so the `}` closes nothing and the comment runs to the end of input |
| `LexerProperties.LineComment` | src/lexer.rs:220-224 | a line comment ends after its newline, and blanks after it are skipped too |
| `LexerProperties.StreamWellFormed` | src/lexer.rs:333-343 | the iterator yields an error only as its last item, and every token has a producible kind and a span with start ≤ end |
| `LexerProperties.NewIsKeyword` | src/lexer.rs:245-249 | `new` lexes as `Keyword(New)` |
| `LexerProperties.NewtonIsIdentifier` | src/lexer.rs:232-251 | `newton` lexes as the single identifier `newton` |
| `LexerProperties.TrailingDotIsError` | src/lexer.rs:325-326 | `3.` at the end of the input is `Malformed number: 3.`, not a number |
| `LexerProperties.AmpersandIsUnknown` | src/lexer.rs:191 | `&` is `Unknown token: &` at line 1, column 2 |
| `LexerProperties.HexDigitsAreTypename` | src/lexer.rs:269-282 | `0x1fz` yields `Typename("1f")` and stops before `z` |
| `LexerProperties.TrailingBlankYieldsEndOfInput` | src/lexer.rs:336-341 | `a ` yields the identifier and then the end-of-input error |
| `Ast.NewIdentifierExpr` | src/ast.rs:88-92 | an `Identifier` expression carrying the given text and span unchanged |
| `Ast.NewBinaryExpr` | src/ast.rs:103-109 | a `Binary` node keeping `lhs`, `rhs` and the operator in their places; `Binary::op` gives the operator back |
| `Ast.NewAssignmentStat` | src/ast.rs:45-49 | an `Assignment` statement whose target and value are the two arguments, in order |
| `ParserSpec.GetPrefixParselet` | src/parser.rs:49-55 | identifiers select the variable-reference parselet, `new` selects the new-object parselet, and no other token has one |
| `ParserSpec.GetInfixParselet` | src/parser.rs:57-63 | `+` binds at 10 and `*` at 20, both not left-associative; every other token has no infix entry |
| `ParserSpec.BinaryPrslt` | src/parser.rs:29-34 | the parselet carries the given `left` and power, is paired with that power, and parses its right operand at a threshold no higher than it, so an equal-power operator after it nests to the right whatever `left` says |
| `ParserSpec.VariableReferencePrslt` | src/parser.rs:25-27 | a variable reference with the identifier token's text and span unchanged |
| `ParserSpec.Pratt` | src/parser.rs:69-86 | `pratt_expression` never moves the cursor back and consumes at least one token whenever one is left, so the recursion terminates |
| `ParserSpec.InfixLoop` | src/parser.rs:74-81 | the infix loop never moves the cursor back or past the end |
| `ParserSpec.InfixParse` | src/parser.rs:29-33 | the binary parselet consumes at least one token whenever one is left |
| `Parsing.Parser.constructor` | src/parser.rs:38-43 | a new parser starts at index 0 of the given tokens |
| `Parsing.Parser.Next` | src/parser.rs:88-95 | returns `tokens[index]` and advances by exactly one, or `NoMoreTokens` with the index unchanged |
| `Parsing.Parser.Peek` | src/parser.rs:97-103 | returns `tokens[index]` without moving, or `NoMoreTokens` at the end |
| `Parsing.Parser.Expression` | src/parser.rs:65-67 | parses at threshold 0, exactly as `Pratt` defines |
| `Parsing.Parser.PrattExpression` | src/parser.rs:69-86 | returns exactly `Pratt(tokens, index, prec)` and leaves the index where it ends |
| `Parsing.Parser.CallInfix` | src/parser.rs:29-33 | the binary parselet returns exactly `InfixParse`: the right-hand side at `prec - 1`, then the binary node |
| `ParserProperties.PrattTree` | src/parser.rs:69-86 | every successful parse is a tree of identifier leaves and binary nodes whose operators have infix entries |
| `ParserProperties.InfixLoopTree` | src/parser.rs:74-81 | the infix loop only ever combines such trees |
| `ParserProperties.InfixParseTree` | src/parser.rs:29-33 | the binary parselet builds such a tree from such a left operand |
| `ParserProperties.PrattStopsInside` | src/parser.rs:74-78 | a successful parse stops at a token still in the vector, or just after an operator it consumed and dropped |
| `ParserProperties.InfixLoopStopsInside` | src/parser.rs:74-78 | the same for the infix loop |
| `ParserProperties.EndingWithoutOperator` | src/parser.rs:74 | when the last token is no operator, a successful parse stops before the end: running to the end fails |
| `ParserProperties.RightNesting` | src/parser.rs:29-33 | identifiers joined by one operator and followed by a non-operator parse to the right-nested tree, stopping at that token |
| `ParserProperties.TimesBindsTighter` | src/parser.rs:59-60 | `a + b * c ;` parses to `Binary(a, +, Binary(b, *, c))` and stops before `;` |
| `ParserProperties.PlusNestsRight` | src/parser.rs:59 | `a + b + c ;` parses to `Binary(a, +, Binary(b, +, c))` |
| `ParserProperties.EqualPowerNestsRight` | src/parser.rs:29-33 | a `+` parselet built with either value of `left`, applied to `a` in `a + b + c ;`, gives `Binary(a, +, Binary(b, +, c))`: `left=true` does not make operators left-associative |
| `ParserProperties.OperatorDroppedOnBreak` | src/parser.rs:75-77 | in `a * b + c ;` the `+` is consumed when the loop breaks and is lost; the result is `a * b`, stopping at `c` |
| `ParserProperties.NoTerminatorFails` | src/parser.rs:74 | `a + b` with nothing after it fails with `NoMoreTokens` |
| `ParserProperties.MinusIsNoOperator` | src/parser.rs:57-63 | `a - b ;` parses to just `a`, stopping at `-` |
| `ParserProperties.NoPrefixParselet` | src/parser.rs:84 | a token with no prefix parselet is consumed and reported as `NoParseletFound("prefix", token)` |
| `ParserProperties.NothingLeft` | src/parser.rs:70 | with no token left, the result is `NoMoreTokens` and the index does not move |
| `ParserProperties.VariableReferenceFirst` | src/parser.rs:71-73 | a leading identifier becomes a variable reference with its text and span, and the infix loop continues after it |

## Left out

- src/main.rs is left out. It is the driver: it reads a file, prints, collects the iterator
  and filters out errors.
- src/generate_ast.rb is left out. It is a code generator that reads YAML and writes a file.
- `LexerToken::as_number` and the `f64` value of `Expr::Float` are left out, because they need
  floating-point parsing. `FloatLiteral` keeps only its token.
- `new_object_prslt` panics with `unimplemented!`. It is modelled as the extra error
  `ParserError.Unimplemented("NEWOBJ")`.
- `Parser::file` and `Expr::is_identifier`/`as_identifier`/`is_binary`/`as_binary` are left
  out. They are `unimplemented!()` stubs with no behaviour to state.
- The counters `ln` and `col` are `usize` in the source. They are unbounded here, so
  overflow is not modelled.
- The character classes are ASCII only, as in the source. Unicode categories are not modelled.
- `Peekable<Chars>` is modelled as the whole input plus an index. Laziness is not modelled.
- The boxed closures of the dispatch tables are modelled as the closed datatypes
  `PrefixParselet` and `InfixParselet`.
- No lemma states that inserting whitespace or a comment between two tokens changes only spans.
  Such a lemma relates two inputs whose cursors and counters differ at every later position,
  and would need a correspondence between the two position sequences. The per-token results it
  would rest on are proved: `SkipBlanks`, `SkipBlockNesting` and the span lemmas.
