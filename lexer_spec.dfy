/**
 * The reference definition of the cattail lexer (src/lexer.rs) as pure functions over the
 * whole input text and a cursor position. The imperative `Lexing.Lexer` class is proved to
 * agree with these functions step by step.
 */
module LexerSpec {
  import opened Wrappers
  import opened Tokens

  /** A 1-based source location on one line: the line, a start column and an end column. */
  datatype Span = Span(ln: nat, col: nat, ecol: nat)

  datatype LexerErrorType = Unspecified(message: string) | EndOfInput

  /** A lexical error and the counters at the point where it was raised. */
  datatype LexerError = LexerError(ln: nat, col: nat, letype: LexerErrorType)

  /** `LexerError::is_eof`: the internal end-of-input signal, as opposed to a real fault. */
  predicate IsEof(e: LexerError) {
    e.letype == EndOfInput
  }

  type Token = (LexerToken, Span)

  type LexerResult<A> = Result<A, LexerError>

  // ---------------------------------------------------------------------------------------
  // Line and column counters
  // ---------------------------------------------------------------------------------------

  datatype Pos = Pos(ln: nat, col: nat)

  /** How reading one character moves the counters: a newline starts the next line at column 1. */
  function Advance(p: Pos, c: char): (q: Pos)
    ensures c == '\n' ==> q == Pos(p.ln + 1, 1)
    ensures c != '\n' ==> q == Pos(p.ln, p.col + 1)
  {
    if c == '\n' then Pos(p.ln + 1, 1) else Pos(p.ln, p.col + 1)
  }

  /** The counters after the first `k` characters of `input` have been read, starting at 1:1. */
  function At(input: string, k: nat): Pos
    requires k <= |input|
  {
    if k == 0 then Pos(1, 1) else Advance(At(input, k - 1), input[k - 1])
  }

  /** The span whose line and start column are the counters at `a` and whose end column is at `b`. */
  function SpanFrom(input: string, a: nat, b: nat): Span
    requires a <= b <= |input|
  {
    Span(At(input, a).ln, At(input, a).col, At(input, b).col)
  }

  // ---------------------------------------------------------------------------------------
  // ASCII character classes
  // ---------------------------------------------------------------------------------------

  predicate IsWhitespace(c: char) {
    c == ' ' || c == '\n' || c == '\r' || c == '\t'
  }

  predicate IsLower(c: char) { 'a' <= c <= 'z' }

  predicate IsUpper(c: char) { 'A' <= c <= 'Z' }

  predicate IsDigit(c: char) { '0' <= c <= '9' }

  predicate IsAlphanumeric(c: char) { IsLower(c) || IsUpper(c) || IsDigit(c) }

  /** The four punctuation characters allowed in identifiers. */
  predicate IsIdentSymbol(c: char) { c == '?' || c == '_' || c == '!' || c == '@' }

  predicate IsIdentStart(c: char) { IsLower(c) || IsIdentSymbol(c) }

  predicate IsIdentChar(c: char) { IsAlphanumeric(c) || IsIdentSymbol(c) }

  /** The value of `c` as a digit in any radix up to 36, letters in either case standing for 10 to 35. */
  function DigitValue(c: char): (v: Option<nat>)
    ensures v.Some? ==> v.value < 36
    ensures v.Some? <==> IsAlphanumeric(c)
  {
    if IsDigit(c) then Some(c as nat - '0' as nat)
    else if IsLower(c) then Some(c as nat - 'a' as nat + 10)
    else if IsUpper(c) then Some(c as nat - 'A' as nat + 10)
    else None
  }

  /** Rust's `char::is_digit(radix)`. */
  predicate IsDigitIn(c: char, radix: nat) {
    DigitValue(c).Some? && DigitValue(c).value < radix
  }

  /** The character classes whose maximal runs the scanners consume. */
  datatype CharClass = IdentChar | TypenameChar | RadixDigit(radix: nat)

  predicate InClass(c: char, cls: CharClass) {
    match cls
    case IdentChar => IsIdentChar(c)
    case TypenameChar => IsAlphanumeric(c)
    case RadixDigit(radix) => IsDigitIn(c, radix)
  }

  /** The end of the maximal run of `cls` characters that starts at `k`. */
  function RunEnd(input: string, k: nat, cls: CharClass): (e: nat)
    requires k <= |input|
    ensures k <= e <= |input|
    ensures forall j :: k <= j < e ==> InClass(input[j], cls)
    ensures e < |input| ==> !InClass(input[e], cls)
    decreases |input| - k
  {
    if k < |input| && InClass(input[k], cls) then RunEnd(input, k + 1, cls) else k
  }

  // ---------------------------------------------------------------------------------------
  // Whitespace and comments
  // ---------------------------------------------------------------------------------------

  /** Where a line comment whose text starts at `k` ends: just after the next newline, or at the end. */
  function SkipLine(input: string, k: nat): (e: nat)
    requires k <= |input|
    ensures k <= e <= |input|
    ensures e == |input| || (k < e && input[e - 1] == '\n')
    ensures forall j :: k <= j < e - 1 ==> input[j] != '\n'
    decreases |input| - k
  {
    if k == |input| then k
    else if input[k] == '\n' then k + 1
    else SkipLine(input, k + 1)
  }

  /**
   * Where a block comment ends when `level` comments are open at `k`. A `#` always swallows the
   * character after it; `#{` opens one more level and `#}` closes one.
   */
  function SkipBlock(input: string, k: nat, level: nat): (e: nat)
    requires k <= |input|
    ensures k <= e <= |input|
    ensures level == 0 ==> e == k
    ensures level > 0 ==> e == |input| || (k + 2 <= e && input[e - 2] == '#' && input[e - 1] == '}')
    decreases |input| - k
  {
    if level == 0 || k == |input| then k
    else if input[k] == '#' then
      if k + 1 == |input| then SkipBlock(input, k + 1, level)
      else if input[k + 1] == '{' then SkipBlock(input, k + 2, level + 1)
      else if input[k + 1] == '}' then SkipBlock(input, k + 2, level - 1)
      else SkipBlock(input, k + 2, level)
    else SkipBlock(input, k + 1, level)
  }

  /** Where `eat_whitespace_and_comments` stops: at the end or at a character that starts a token. */
  function SkipTrivia(input: string, k: nat): (e: nat)
    requires k <= |input|
    ensures k <= e <= |input|
    ensures e < |input| ==> !IsWhitespace(input[e]) && input[e] != '#'
    decreases |input| - k
  {
    if k == |input| then k
    else if IsWhitespace(input[k]) then SkipTrivia(input, k + 1)
    else if input[k] == '#' then
      if k + 1 < |input| && input[k + 1] == '{' then SkipTrivia(input, SkipBlock(input, k + 1, 1))
      else SkipTrivia(input, SkipLine(input, k + 1))
    else k
  }

  // ---------------------------------------------------------------------------------------
  // Tokens
  // ---------------------------------------------------------------------------------------

  /** A scanning outcome and the cursor position after it. */
  datatype Scanned = Scanned(result: LexerResult<Token>, next: nat)

  /** The single-character symbols. */
  function SingleSymbol(c: char): Option<Symbol> {
    match c
    case '{' => Some(LBrace)
    case '}' => Some(RBrace)
    case ':' => Some(Colon)
    case ';' => Some(Semicolon)
    case '(' => Some(LParen)
    case ')' => Some(RParen)
    case '.' => Some(Dot)
    case ',' => Some(Comma)
    case '[' => Some(LBracket)
    case ']' => Some(RBracket)
    case '^' => Some(Caret)
    case _ => None
  }

  /** The symbols that become a different symbol when followed by `=`: (alone, with `=`). */
  function CompoundSymbol(c: char): Option<(Symbol, Symbol)> {
    match c
    case '=' => Some((Equal, EqualEqual))
    case '+' => Some((Plus, PlusEqual))
    case '*' => Some((Asterisk, AsteriskEqual))
    case '/' => Some((ForwardSlash, ForwardSlashEqual))
    case '>' => Some((GT, GTEqual))
    case '<' => Some((LT, LTEqual))
    case _ => None
  }

  /** The radix selected by the letter after a leading `0`. */
  function RadixOf(c: char): Option<nat> {
    match c
    case 'x' => Some(16)
    case 'o' => Some(8)
    case 'b' => Some(36)
    case _ => None
  }

  /** The token for an identifier's full text: only the exact words `new` and `return` are reserved. */
  function KeywordOrIdentifier(text: string): (t: LexerToken)
    ensures t == Keyword(New) <==> text == "new"
    ensures t == Keyword(Return) <==> text == "return"
    ensures t.Identifier? <==> text != "new" && text != "return"
    ensures t.Identifier? ==> t.name == text
  {
    if text == "new" then Keyword(New)
    else if text == "return" then Keyword(Return)
    else Identifier(text)
  }

  /** A symbol with one character of lookahead for `=`, the first character already read at `p1`. */
  function Probe(input: string, p1: nat, alone: Symbol, withEqual: Symbol): Scanned
    requires p1 <= |input|
  {
    if p1 < |input| && input[p1] == '=' then
      Scanned(Ok((Symbol(withEqual), SpanFrom(input, p1, p1 + 1))), p1 + 1)
    else
      Scanned(Ok((Symbol(alone), SpanFrom(input, p1, p1))), p1)
  }

  /** `-`, `-=` or `->`. */
  function MinusProbe(input: string, p1: nat): Scanned
    requires p1 <= |input|
  {
    if p1 < |input| && input[p1] == '=' then
      Scanned(Ok((Symbol(MinusEqual), SpanFrom(input, p1, p1 + 1))), p1 + 1)
    else if p1 < |input| && input[p1] == '>' then
      Scanned(Ok((Symbol(ThinArrow), SpanFrom(input, p1, p1 + 1))), p1 + 1)
    else
      Scanned(Ok((Symbol(Minus), SpanFrom(input, p1, p1))), p1)
  }

  function IdentifierScan(input: string, p1: nat, c: char): Scanned
    requires p1 <= |input|
  {
    var e := RunEnd(input, p1, IdentChar);
    Scanned(Ok((KeywordOrIdentifier([c] + input[p1..e]), SpanFrom(input, p1, e))), e)
  }

  function TypenameScan(input: string, p1: nat, c: char): Scanned
    requires p1 <= |input|
  {
    var e := RunEnd(input, p1, TypenameChar);
    Scanned(Ok((Typename([c] + input[p1..e]), SpanFrom(input, p1, e))), e)
  }

  /** The digits after `0x`, `0o` or `0b`; the code emits them as a `Typename`. */
  function RadixScan(input: string, k: nat, radix: nat): Scanned
    requires k <= |input|
  {
    var e := RunEnd(input, k, RadixDigit(radix));
    Scanned(Ok((Typename(input[k..e]), SpanFrom(input, k, e))), e)
  }

  /** No two positions of `s` hold a `.`. */
  predicate AtMostOneDot(s: string) {
    forall i, j :: 0 <= i < |s| && 0 <= j < |s| && s[i] == '.' && s[j] == '.' ==> i == j
  }

  /** Where a decimal number's digits end; `seenDot` records whether its one `.` was already taken. */
  function NumberEnd(input: string, k: nat, seenDot: bool): (e: nat)
    requires k <= |input|
    ensures k <= e <= |input|
    ensures forall j :: k <= j < e ==> IsDigit(input[j]) || input[j] == '.'
    ensures seenDot ==> forall j :: k <= j < e ==> input[j] != '.'
    ensures AtMostOneDot(input[k..e])
    ensures e < |input| ==> !IsDigit(input[e])
    ensures e < |input| && input[e] == '.' ==> seenDot || exists j :: k <= j < e && input[j] == '.'
    decreases |input| - k
  {
    if k < |input| && input[k] == '.' && !seenDot then NumberEnd(input, k + 1, true)
    else if k < |input| && IsDigit(input[k]) then NumberEnd(input, k + 1, seenDot)
    else k
  }

  /** One step of the `see_dot` loop: a digit, or the first `.`, is taken and the scan goes on after it. */
  lemma NumberEndStep(input: string, k: nat, seenDot: bool)
    requires k < |input| && ((input[k] == '.' && !seenDot) || IsDigit(input[k]))
    ensures NumberEnd(input, k, seenDot) == NumberEnd(input, k + 1, seenDot || input[k] == '.')
  {
  }

  function NumberScan(input: string, p1: nat, c: char): Scanned
    requires p1 <= |input|
  {
    var e := NumberEnd(input, p1, false);
    var text := [c] + input[p1..e];
    if text[|text| - 1] == '.' then
      Scanned(Err(LexerError(At(input, e).ln, At(input, e).col, Unspecified("Malformed number: " + text))), e)
    else
      Scanned(Ok((Number(text), SpanFrom(input, p1, e))), e)
  }

  /** The dispatch of `next_token` once its first character `c` has been read, the cursor at `p1`. */
  function ScanToken(input: string, p1: nat, c: char): (s: Scanned)
    requires p1 <= |input|
    ensures p1 <= s.next <= |input|
  {
    if CompoundSymbol(c).Some? then Probe(input, p1, CompoundSymbol(c).value.0, CompoundSymbol(c).value.1)
    else if c == '-' then MinusProbe(input, p1)
    else if SingleSymbol(c).Some? then Scanned(Ok((Symbol(SingleSymbol(c).value), SpanFrom(input, p1, p1))), p1)
    else if IsIdentStart(c) then IdentifierScan(input, p1, c)
    else if IsUpper(c) then TypenameScan(input, p1, c)
    else if c == '0' && p1 < |input| && RadixOf(input[p1]).Some? then RadixScan(input, p1 + 1, RadixOf(input[p1]).value)
    else if IsDigit(c) then NumberScan(input, p1, c)
    else Scanned(Err(LexerError(At(input, p1).ln, At(input, p1).col, Unspecified("Unknown token: " + [c]))), p1)
  }

  /** `next_token` from cursor `pos`: skip trivia, then scan one token or report an error. */
  function Scan(input: string, pos: nat): (s: Scanned)
    requires pos <= |input|
    ensures pos <= s.next <= |input|
    ensures s.result.Ok? ==> pos < s.next
  {
    var p0 := SkipTrivia(input, pos);
    if p0 == |input| then
      Scanned(Err(LexerError(At(input, p0).ln, At(input, p0).col, EndOfInput)), p0)
    else
      ScanToken(input, p0 + 1, input[p0])
  }

  /**
   * Everything the lexer's iterator yields from cursor `pos` on: one item per call until the
   * input is exhausted or an error has been yielded.
   */
  function Stream(input: string, pos: nat): seq<LexerResult<Token>>
    requires pos <= |input|
    decreases |input| - pos
  {
    if pos == |input| then []
    else
      var s := Scan(input, pos);
      if s.result.Err? then [s.result] else [s.result] + Stream(input, s.next)
  }
}
