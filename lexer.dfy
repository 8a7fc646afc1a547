/**
 * The cattail lexer (src/lexer.rs) as a character cursor over the input text with line and
 * column counters. Every method is proved to do what the reference functions of `LexerSpec`
 * say, so the counters always describe exactly the text read so far.
 */
module Lexing {
  import opened Wrappers
  import opened Tokens
  import opened LexerSpec

  class Lexer {
    /** The whole input; `pos` plays the role of the `Peekable<Chars>` cursor. */
    const input: string
    var pos: nat
    var ln: nat
    var col: nat
    /** Set once the iterator has yielded an error. */
    var error: bool

    /** The counters are those reached by reading `input[..pos]` from line 1, column 1. */
    ghost predicate Valid()
      reads this
    {
      pos <= |input| && Pos(ln, col) == At(input, pos)
    }

    /** What the iterator will still yield, in order. */
    ghost function Remaining(): seq<LexerResult<Token>>
      reads this
      requires Valid()
    {
      if error then [] else Stream(input, pos)
    }

    constructor (s: string)
      ensures Valid()
      ensures input == s && pos == 0 && ln == 1 && col == 1 && !error
      ensures Remaining() == Stream(s, 0)
    {
      input := s;
      pos := 0;
      ln := 1;
      col := 1;
      error := false;
    }

    /** Reads one character, moving the counters; at the end of input nothing changes. */
    method Next() returns (c: Option<char>)
      requires Valid()
      modifies this`pos, this`ln, this`col
      ensures Valid()
      ensures old(pos) < |input| ==> c == Some(input[old(pos)]) && pos == old(pos) + 1
      ensures c == Some('\n') ==> ln == old(ln) + 1 && col == 1
      ensures c.Some? && c.value != '\n' ==> ln == old(ln) && col == old(col) + 1
      ensures old(pos) == |input| ==> c == None && pos == old(pos) && ln == old(ln) && col == old(col)
    {
      if pos < |input| {
        c := Some(input[pos]);
        if input[pos] == '\n' {
          ln, col := ln + 1, 1;
        } else {
          col := col + 1;
        }
        pos := pos + 1;
      } else {
        c := None;
      }
    }

    /** `Next`, with running out of input reported as the end-of-input error. */
    method Expect() returns (r: LexerResult<char>)
      requires Valid()
      modifies this`pos, this`ln, this`col
      ensures Valid()
      ensures old(pos) < |input| ==> r == Ok(input[old(pos)]) && pos == old(pos) + 1
      ensures old(pos) == |input| ==> r == Err(LexerError(ln, col, EndOfInput)) && pos == old(pos)
      ensures old(pos) == |input| ==> ln == old(ln) && col == old(col)
    {
      var c := Next();
      if c.Some? {
        r := Ok(c.value);
      } else {
        r := Err(LexerError(ln, col, EndOfInput));
      }
    }

    method Peek() returns (c: Option<char>)
      requires Valid()
      ensures pos < |input| ==> c == Some(input[pos])
      ensures pos == |input| ==> c == None
    {
      c := if pos < |input| then Some(input[pos]) else None;
    }

    method AtEnd() returns (b: bool)
      requires Valid()
      ensures b <==> pos == |input|
    {
      var c := Peek();
      b := c.None?;
    }

    /** A zero-width span at the current counters. */
    function CreateSpan(): (s: Span)
      reads this
      requires Valid()
      ensures s == SpanFrom(input, pos, pos)
    {
      Span(ln, col, col)
    }

    /** Skips blanks, line comments and nested block comments; always terminates. */
    method EatWhitespaceAndComments()
      requires Valid()
      modifies this`pos, this`ln, this`col
      ensures Valid()
      ensures pos == SkipTrivia(input, old(pos))
    {
      while true
        invariant Valid()
        invariant SkipTrivia(input, pos) == SkipTrivia(input, old(pos))
        decreases |input| - pos
      {
        var c := Peek();
        if c.None? {
          break;
        }
        if IsWhitespace(c.value) {
          var _ := Next();
        } else if c.value == '#' {
          var _ := Next();
          var d := Peek();
          if d == Some('{') {
            EatBlockComment();
          } else {
            EatLineComment();
          }
        } else {
          break;
        }
      }
    }

    /** The body of a block comment, the `#` before its `{` already read: one level is open. */
    method EatBlockComment()
      requires Valid()
      modifies this`pos, this`ln, this`col
      ensures Valid()
      ensures pos == SkipBlock(input, old(pos), 1)
    {
      var level: nat := 1;
      while level > 0
        invariant Valid()
        invariant SkipBlock(input, pos, level) == SkipBlock(input, old(pos), 1)
        decreases |input| - pos
      {
        var x := Next();
        if x == Some('#') {
          var y := Next();
          if y == Some('{') {
            level := level + 1;
          } else if y == Some('}') {
            level := level - 1;
          }
        } else if x.None? {
          break;
        }
      }
    }

    /** The rest of a line comment, up to and including the newline. */
    method EatLineComment()
      requires Valid()
      modifies this`pos, this`ln, this`col
      ensures Valid()
      ensures pos == SkipLine(input, old(pos))
    {
      while true
        invariant Valid()
        invariant SkipLine(input, pos) == SkipLine(input, old(pos))
        decreases |input| - pos
      {
        var x := Next();
        if x.None? || x == Some('\n') {
          break;
        }
      }
    }

    /** Reads the maximal run of `cls` characters at the cursor. */
    method ConsumeRun(cls: CharClass) returns (text: string)
      requires Valid()
      modifies this`pos, this`ln, this`col
      ensures Valid()
      ensures pos == RunEnd(input, old(pos), cls)
      ensures text == input[old(pos)..pos]
    {
      ghost var end := RunEnd(input, pos, cls);
      text := [];
      while true
        invariant Valid()
        invariant old(pos) <= pos
        invariant RunEnd(input, pos, cls) == end
        invariant text == input[old(pos)..pos]
        decreases |input| - pos
      {
        var c := Peek();
        if c.None? || !InClass(c.value, cls) {
          break;
        }
        var x := Expect();
        text := text + [x.value];
      }
    }

    method Identifier(c: char) returns (r: LexerResult<Token>)
      requires Valid()
      modifies this`pos, this`ln, this`col
      ensures Valid()
      ensures r == IdentifierScan(input, old(pos), c).result && pos == IdentifierScan(input, old(pos), c).next
    {
      var span := CreateSpan();
      var rest := ConsumeRun(IdentChar);
      span := span.(ecol := col);
      r := Ok((KeywordOrIdentifier([c] + rest), span));
    }

    method Typename(c: char) returns (r: LexerResult<Token>)
      requires Valid()
      modifies this`pos, this`ln, this`col
      ensures Valid()
      ensures r == TypenameScan(input, old(pos), c).result && pos == TypenameScan(input, old(pos), c).next
    {
      var span := CreateSpan();
      var rest := ConsumeRun(TypenameChar);
      span := span.(ecol := col);
      r := Ok((Tokens.Typename([c] + rest), span));
    }

    /** `hex_number`, `octal_number` and `base36_number`, which differ only in the radix. */
    method RadixNumber(radix: nat) returns (r: LexerResult<Token>)
      requires Valid()
      modifies this`pos, this`ln, this`col
      ensures Valid()
      ensures r == RadixScan(input, old(pos), radix).result && pos == RadixScan(input, old(pos), radix).next
    {
      var span := CreateSpan();
      var digits := ConsumeRun(RadixDigit(radix));
      span := span.(ecol := col);
      r := Ok((Tokens.Typename(digits), span));
    }

    /** A decimal number with at most one `.`; a trailing `.` is an error. */
    method Number(c: char) returns (r: LexerResult<Token>)
      requires Valid()
      modifies this`pos, this`ln, this`col
      ensures Valid()
      ensures r == NumberScan(input, old(pos), c).result && pos == NumberScan(input, old(pos), c).next
    {
      var span := CreateSpan();
      var number := NumberDigits(c);
      span := span.(ecol := col);
      if number[|number| - 1] == '.' {
        r := Err(LexerError(ln, col, Unspecified("Malformed number: " + number)));
      } else {
        r := Ok((Tokens.Number(number), span));
      }
    }

    /** The `see_dot` loop of `number`: digits and the first `.`, after the first digit `c`. */
    method NumberDigits(c: char) returns (number: string)
      requires Valid()
      modifies this`pos, this`ln, this`col
      ensures Valid()
      ensures pos == NumberEnd(input, old(pos), false)
      ensures number == [c] + input[old(pos)..pos]
    {
      ghost var end := NumberEnd(input, pos, false);
      var digits := [];
      var seeDot := false;
      while true
        invariant Valid()
        invariant old(pos) <= pos
        invariant NumberEnd(input, pos, seeDot) == end
        invariant digits == input[old(pos)..pos]
        decreases |input| - pos
      {
        var d := Peek();
        if d.None? || !((d.value == '.' && !seeDot) || IsDigit(d.value)) {
          break;
        }
        NumberEndStep(input, pos, seeDot);
        if d.value == '.' {
          seeDot := true;
        }
        ghost var p := pos;
        var x := Expect();
        assert input[old(pos)..pos] == input[old(pos)..p] + [x.value];
        digits := digits + [x.value];
      }
      number := [c] + digits;
    }

    /** A symbol with one character of lookahead for a following `=`. */
    method Compound(alone: Symbol, withEqual: Symbol) returns (r: LexerResult<Token>)
      requires Valid()
      modifies this`pos, this`ln, this`col
      ensures Valid()
      ensures r == Probe(input, old(pos), alone, withEqual).result && pos == Probe(input, old(pos), alone, withEqual).next
    {
      var span := CreateSpan();
      var d := Peek();
      var tok;
      if d == Some('=') {
        var _ := Next();
        tok := Symbol(withEqual);
      } else {
        tok := Symbol(alone);
      }
      span := span.(ecol := col);
      r := Ok((tok, span));
    }

    /** Skips trivia and scans the next token. */
    /** `-`, `-=` or `->`, with one character of lookahead. */
    method MinusSymbol() returns (r: LexerResult<Token>)
      requires Valid()
      modifies this`pos, this`ln, this`col
      ensures Valid()
      ensures r == MinusProbe(input, old(pos)).result && pos == MinusProbe(input, old(pos)).next
    {
      var span := CreateSpan();
      var d := Peek();
      var tok;
      if d == Some('=') {
        var _ := Next();
        tok := Symbol(MinusEqual);
      } else if d == Some('>') {
        var _ := Next();
        tok := Symbol(ThinArrow);
      } else {
        tok := Symbol(Minus);
      }
      span := span.(ecol := col);
      r := Ok((tok, span));
    }

    method NextToken() returns (r: LexerResult<Token>)
      requires Valid()
      modifies this`pos, this`ln, this`col
      ensures Valid()
      ensures r == Scan(input, old(pos)).result && pos == Scan(input, old(pos)).next
    {
      EatWhitespaceAndComments();
      var first := Expect();
      if first.Err? {
        return Err(first.error);
      }
      var c := first.value;
      if CompoundSymbol(c).Some? {
        r := Compound(CompoundSymbol(c).value.0, CompoundSymbol(c).value.1);
      } else if c == '-' {
        r := MinusSymbol();
      } else if SingleSymbol(c).Some? {
        r := Ok((Symbol(SingleSymbol(c).value), CreateSpan()));
      } else if IsIdentStart(c) {
        r := Identifier(c);
      } else if IsUpper(c) {
        r := Typename(c);
      } else if c == '0' {
        var d := Peek();
        if d.Some? && RadixOf(d.value).Some? {
          var _ := Next();
          r := RadixNumber(RadixOf(d.value).value);
        } else {
          r := Number('0');
        }
      } else if IsDigit(c) {
        r := Number(c);
      } else {
        r := Err(LexerError(ln, col, Unspecified("Unknown token: " + [c])));
      }
    }

    /**
     * `Iterator::next`: nothing once an error was yielded or the input is exhausted;
     * otherwise the next token or error, remembering whether it was an error.
     */
    method IteratorNext() returns (r: Option<LexerResult<Token>>)
      requires Valid()
      modifies this
      ensures Valid()
      ensures old(error) || old(pos) == |input| ==> r == None && unchanged(this)
      ensures !old(error) && old(pos) < |input| ==>
        r == Some(Scan(input, old(pos)).result) && pos == Scan(input, old(pos)).next && error == r.value.Err?
      ensures old(Remaining()) == if r.None? then [] else [r.value] + Remaining()
    {
      var atEnd := AtEnd();
      if atEnd || error {
        r := None;
      } else {
        var tok := NextToken();
        error := tok.Err?;
        r := Some(tok);
      }
    }
  }
}
