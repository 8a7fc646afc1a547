/** What the cattail lexer guarantees, proved about the reference functions of `LexerSpec`. */
module LexerProperties {
  import opened Wrappers
  import opened Tokens
  import opened LexerSpec

  /** The token kinds some branch of the scanner can produce. */
  predicate Producible(t: LexerToken) {
    match t
    case Identifier(_) => true
    case Keyword(k) => k == New || k == Return
    case Number(_) => true
    case Typename(_) => true
    case Symbol(s) => s != Not && s != NotEqual
    case _ => false
  }

  // ---------------------------------------------------------------------------------------
  // Counters
  // ---------------------------------------------------------------------------------------

  /** Reading characters that are not newlines keeps the line and moves the column by their number. */
  lemma {:induction false} AtWithinLine(input: string, a: nat, b: nat)
    requires a <= b <= |input|
    requires forall j :: a <= j < b ==> input[j] != '\n'
    ensures At(input, b) == Pos(At(input, a).ln, At(input, a).col + (b - a))
    decreases b - a
  {
    if a < b {
      AtWithinLine(input, a, b - 1);
    }
  }

  // ---------------------------------------------------------------------------------------
  // One token
  // ---------------------------------------------------------------------------------------

  /** No token after its first character contains a newline. */
  lemma ScanTokenWithinLine(input: string, p1: nat, c: char)
    requires p1 <= |input|
    ensures forall j :: p1 <= j < ScanToken(input, p1, c).next ==> input[j] != '\n'
  {
  }

  /**
   * A token's span starts at the counters after its first character (after the `0x`, `0o` or
   * `0b` prefix for a radix literal) and ends at the counters after its last one.
   */
  lemma ScanTokenSpan(input: string, p1: nat, c: char)
    requires p1 <= |input|
    requires ScanToken(input, p1, c).result.Ok?
    ensures var s := ScanToken(input, p1, c);
            c == '0' && p1 < |input| && RadixOf(input[p1]).Some? ==>
              p1 < s.next && s.result.value.1 == SpanFrom(input, p1 + 1, s.next)
    ensures var s := ScanToken(input, p1, c);
            !(c == '0' && p1 < |input| && RadixOf(input[p1]).Some?) ==>
              s.result.value.1 == SpanFrom(input, p1, s.next)
  {
  }

  /**
   * A scanned token's span lies on the line of its first character, starts in a later column
   * than that character and ends no earlier than it starts.
   */
  lemma ScanSpan(input: string, pos: nat)
    requires pos <= |input|
    requires Scan(input, pos).result.Ok?
    ensures var span := Scan(input, pos).result.value.1;
            && span.ln == At(input, SkipTrivia(input, pos)).ln
            && At(input, SkipTrivia(input, pos)).col < span.col <= span.ecol
  {
    var p0 := SkipTrivia(input, pos);
    assert Scan(input, pos) == ScanToken(input, p0 + 1, input[p0]);
    ScanTokenOnLine(input, p0);
  }

  /** The span of the token whose first character is at `p0`, which is not a newline, lies on its line. */
  lemma ScanTokenOnLine(input: string, p0: nat)
    requires p0 < |input| && input[p0] != '\n'
    requires ScanToken(input, p0 + 1, input[p0]).result.Ok?
    ensures var span := ScanToken(input, p0 + 1, input[p0]).result.value.1;
            && span.ln == At(input, p0).ln
            && At(input, p0).col < span.col <= span.ecol
  {
    var c := input[p0];
    var radix := c == '0' && p0 + 1 < |input| && RadixOf(input[p0 + 1]).Some?;
    ScanTokenWithinLine(input, p0 + 1, c);
    ScanTokenSpan(input, p0 + 1, c);
    ScannedOnLine(input, p0, ScanToken(input, p0 + 1, c), radix);
  }

  /** `ScanTokenOnLine` for any outcome that satisfies what `ScanTokenWithinLine` and `ScanTokenSpan` state. */
  lemma ScannedOnLine(input: string, p0: nat, s: Scanned, radix: bool)
    requires p0 < |input| && input[p0] != '\n'
    requires p0 + 1 <= s.next <= |input| && s.result.Ok?
    requires forall j :: p0 + 1 <= j < s.next ==> input[j] != '\n'
    requires radix ==> p0 + 1 < s.next && s.result.value.1 == SpanFrom(input, p0 + 2, s.next)
    requires !radix ==> s.result.value.1 == SpanFrom(input, p0 + 1, s.next)
    ensures s.result.value.1.ln == At(input, p0).ln
    ensures At(input, p0).col < s.result.value.1.col <= s.result.value.1.ecol
  {
    if radix {
      SpanOnLine(input, p0, p0 + 2, s.next);
    } else {
      SpanOnLine(input, p0, p0 + 1, s.next);
    }
  }

  /**
   * A span opened one or two characters after `p0` and closed at `e`, with no newline from `p0`
   * up to `e`, lies on the line of `p0` and starts in a later column.
   */
  lemma SpanOnLine(input: string, p0: nat, a: nat, e: nat)
    requires p0 < a <= e <= |input| && a <= p0 + 2
    requires forall j :: p0 <= j < e ==> input[j] != '\n'
    ensures SpanFrom(input, a, e).ln == At(input, p0).ln
    ensures At(input, p0).col < SpanFrom(input, a, e).col <= SpanFrom(input, a, e).ecol
  {
    AtWithinLine(input, p0, a);
    AtWithinLine(input, p0, e);
  }

  /** Only `New` and `Return` among the keywords, no `Not`/`NotEqual`, and no `Hex`/`Octal`/`Base36`/`EOF`. */
  lemma ScanProducible(input: string, pos: nat)
    requires pos <= |input|
    requires Scan(input, pos).result.Ok?
    ensures Producible(Scan(input, pos).result.value.0)
  {
  }

  /** `=`, `+`, `*`, `/`, `>` and `<` gain `Equal` exactly when the next character is `=`. */
  lemma CompoundLookahead(input: string, p1: nat, c: char)
    requires p1 <= |input|
    requires CompoundSymbol(c).Some?
    ensures var (alone, withEqual) := CompoundSymbol(c).value;
            var s := ScanToken(input, p1, c);
            var eq := p1 < |input| && input[p1] == '=';
            && s.result.Ok?
            && (s.result.value.0 == Symbol(withEqual) <==> eq)
            && (s.result.value.0 == Symbol(alone) <==> !eq)
            && s.next == (if eq then p1 + 1 else p1)
  {
  }

  /** `-` followed by `=` is `MinusEqual`, followed by `>` is `ThinArrow`, otherwise `Minus`. */
  lemma MinusLookahead(input: string, p1: nat)
    requires p1 <= |input|
    ensures var s := ScanToken(input, p1, '-');
            && s.result.Ok?
            && (s.result.value.0 == Symbol(MinusEqual) <==> p1 < |input| && input[p1] == '=')
            && (s.result.value.0 == Symbol(ThinArrow) <==> p1 < |input| && input[p1] == '>')
            && (s.result.value.0 == Symbol(Minus) <==> p1 == |input| || (input[p1] != '=' && input[p1] != '>'))
            && s.next == if s.result.value.0 == Symbol(Minus) then p1 else p1 + 1
  {
  }

  /** Symbols never read more than one character beyond their first. */
  lemma SymbolLookaheadAtMostOne(input: string, p1: nat, c: char)
    requires p1 <= |input|
    requires ScanToken(input, p1, c).result.Ok? && ScanToken(input, p1, c).result.value.0.Symbol?
    ensures ScanToken(input, p1, c).next <= p1 + 1
  {
  }

  /**
   * An identifier is the maximal run of identifier characters after its first one, and it is a
   * keyword exactly when that whole text is `new` or `return`.
   */
  lemma IdentifierWhole(input: string, p1: nat, c: char)
    requires p1 <= |input|
    requires IsIdentStart(c)
    ensures var s := ScanToken(input, p1, c);
            var text := [c] + input[p1..s.next];
            && s.result.Ok?
            && (forall j :: p1 <= j < s.next ==> IsIdentChar(input[j]))
            && (s.next < |input| ==> !IsIdentChar(input[s.next]))
            && (s.result.value.0 == Keyword(New) <==> text == "new")
            && (s.result.value.0 == Keyword(Return) <==> text == "return")
            && (s.result.value.0 == Identifier(text) <==> text != "new" && text != "return")
  {
    assert !IsUpper(c) && CompoundSymbol(c).None? && SingleSymbol(c).None?;
  }

  /** A typename is its uppercase first letter and the alphanumerics that follow it. */
  lemma TypenameWhole(input: string, p1: nat, c: char)
    requires p1 <= |input|
    requires IsUpper(c)
    ensures var s := ScanToken(input, p1, c);
            && s.result == Ok((Typename([c] + input[p1..s.next]), SpanFrom(input, p1, s.next)))
            && (forall j :: p1 <= j < s.next ==> IsAlphanumeric(input[j]))
            && (s.next < |input| ==> !IsAlphanumeric(input[s.next]))
  {
  }

  /**
   * After `0x`, `0o` or `0b` the scanner takes the maximal (possibly empty) run of digits in
   * radix 16, 8 or 36 and emits it as a `Typename`.
   */
  lemma RadixDigits(input: string, p1: nat)
    requires p1 < |input| && RadixOf(input[p1]).Some?
    ensures var radix := RadixOf(input[p1]).value;
            var s := ScanToken(input, p1, '0');
            && s.result.Ok?
            && s.result.value.0 == Typename(input[p1 + 1..s.next])
            && (forall j :: p1 + 1 <= j < s.next ==> IsDigitIn(input[j], radix))
            && (s.next < |input| ==> !IsDigitIn(input[s.next], radix))
  {
  }

  /** The text of a decimal number: digits with at most one `.`, read up to where the loop stops. */
  lemma NumberText(input: string, p1: nat, c: char)
    requires p1 <= |input|
    requires IsDigit(c)
    ensures var e := NumberEnd(input, p1, false);
            var text := [c] + input[p1..e];
            && (forall j :: 0 <= j < |text| ==> IsDigit(text[j]) || text[j] == '.')
            && (forall i, j :: 0 <= i < |text| && 0 <= j < |text| && text[i] == '.' && text[j] == '.' ==> i == j)
            && (e < |input| && input[e] == '.' ==> exists j :: 0 <= j < |text| && text[j] == '.')
  {
    var e := NumberEnd(input, p1, false);
    var text := [c] + input[p1..e];
    forall i, j | 0 <= i < |text| && 0 <= j < |text| && text[i] == '.' && text[j] == '.'
      ensures i == j
    {
      assert i > 0 && j > 0;
      assert input[p1 + i - 1] == '.' && input[p1 + j - 1] == '.';
    }
    if e < |input| && input[e] == '.' {
      var j :| p1 <= j < e && input[j] == '.';
      assert text[j - p1 + 1] == '.';
    }
  }

  /**
   * A decimal number holds digits and at most one `.` and stops only at a character that is
   * neither a digit nor a second `.`; it is an error exactly when its text ends with `.`, and
   * otherwise it is that text.
   */
  lemma NumberShape(input: string, p1: nat, c: char)
    requires p1 <= |input|
    requires IsDigit(c)
    requires c == '0' ==> p1 == |input| || RadixOf(input[p1]).None?
    ensures var s := ScanToken(input, p1, c);
            var text := [c] + input[p1..s.next];
            && (forall j :: 0 <= j < |text| ==> IsDigit(text[j]) || text[j] == '.')
            && (forall i, j :: 0 <= i < |text| && 0 <= j < |text| && text[i] == '.' && text[j] == '.' ==> i == j)
            && (s.next < |input| ==> !IsDigit(input[s.next]))
            && (s.next < |input| && input[s.next] == '.' ==> exists j :: 0 <= j < |text| && text[j] == '.')
            && (s.result.Err? <==> text[|text| - 1] == '.')
            && (s.result.Err? ==> s.result.error == LexerError(At(input, s.next).ln, At(input, s.next).col, Unspecified("Malformed number: " + text)))
            && (s.result.Ok? ==> s.result.value.0 == Number(text))
  {
    assert !IsIdentStart(c) && !IsUpper(c) && CompoundSymbol(c).None? && SingleSymbol(c).None?;
    assert ScanToken(input, p1, c) == NumberScan(input, p1, c);
    NumberText(input, p1, c);
  }

  /**
   * Which characters `is_digit` accepts in the three radixes the scanner uses: hexadecimal
   * digits for 16, `0` to `7` for 8, and every ASCII letter or digit for 36.
   */
  lemma RadixDigitClasses(c: char)
    ensures IsDigitIn(c, 16) <==> IsDigit(c) || 'a' <= c <= 'f' || 'A' <= c <= 'F'
    ensures IsDigitIn(c, 8) <==> '0' <= c <= '7'
    ensures IsDigitIn(c, 36) <==> IsAlphanumeric(c)
  {
  }

  /**
   * `next_token` reports the end-of-input signal exactly when only blanks and comments are left;
   * every other error is a real fault.
   */
  lemma ScanEndOfInput(input: string, pos: nat)
    requires pos <= |input|
    ensures var s := Scan(input, pos);
            s.result.Err? && IsEof(s.result.error) <==> SkipTrivia(input, pos) == |input|
  {
  }

  /** A character no rule accepts is reported, with the counters just after it. */
  lemma UnknownCharacter(input: string, p1: nat, c: char)
    requires p1 <= |input|
    requires CompoundSymbol(c).None? && c != '-' && SingleSymbol(c).None?
    requires !IsIdentStart(c) && !IsUpper(c) && !IsDigit(c)
    ensures ScanToken(input, p1, c).result
         == Err(LexerError(At(input, p1).ln, At(input, p1).col, Unspecified("Unknown token: " + [c])))
    ensures ScanToken(input, p1, c).next == p1
  {
  }

  // ---------------------------------------------------------------------------------------
  // Comments
  // ---------------------------------------------------------------------------------------

  /** Blanks alone are skipped up to the first character that is neither a blank nor `#`. */
  lemma {:induction false} SkipBlanks(input: string, k: nat, m: nat)
    requires k <= m <= |input|
    requires forall j :: k <= j < m ==> IsWhitespace(input[j])
    requires m == |input| || (!IsWhitespace(input[m]) && input[m] != '#')
    ensures SkipTrivia(input, k) == m
    decreases m - k
  {
    if k < m {
      SkipBlanks(input, k + 1, m);
    }
  }

  /**
   * The nesting rule of block comments: with `a + b` levels open, the scan first closes the
   * inner `a` levels, exactly where a scan with only those open would end, and then goes on
   * with the outer `b`.
   */
  lemma {:induction false} SkipBlockNesting(input: string, k: nat, a: nat, b: nat)
    requires k <= |input|
    ensures SkipBlock(input, k, a + b) == SkipBlock(input, SkipBlock(input, k, a), b)
    decreases |input| - k
  {
    if a == 0 || k == |input| {
    } else if input[k] == '#' {
      if k + 1 == |input| {
        SkipBlockNesting(input, k + 1, a, b);
      } else if input[k + 1] == '{' {
        SkipBlockNesting(input, k + 2, a + 1, b);
      } else if input[k + 1] == '}' {
        SkipBlockNesting(input, k + 2, a - 1, b);
      } else {
        SkipBlockNesting(input, k + 2, a, b);
      }
    } else {
      SkipBlockNesting(input, k + 1, a, b);
    }
  }

  /** An unterminated block comment swallows the rest of the input. */
  lemma {:induction false} UnterminatedBlockComment(input: string, k: nat, level: nat)
    requires k <= |input| && level > 0
    requires forall j :: k <= j < |input| ==> input[j] != '#'
    ensures SkipBlock(input, k, level) == |input|
    decreases |input| - k
  {
    if k < |input| {
      UnterminatedBlockComment(input, k + 1, level);
    }
  }

  /** Nested block comments close only when every level opened inside them is closed. */
  lemma NestedBlockComment()
    ensures SkipTrivia("#{#{#}#}x", 0) == 8
  {
    var c := "#{#{#}#}x";
    assert SkipBlock(c, 8, 0) == 8;
    assert SkipBlock(c, 6, 1) == 8;
    assert SkipBlock(c, 4, 2) == 8;
    assert SkipBlock(c, 2, 1) == 8;
    assert SkipBlock(c, 1, 1) == 8;
    assert SkipTrivia(c, 8) == 8;
  }

  /** A block comment left open runs to the end of the input. */
  lemma OpenBlockComment()
    ensures SkipTrivia("#{#{#}x", 0) == 7
  {
    var c := "#{#{#}x";
    assert SkipBlock(c, 7, 1) == 7;
    assert SkipBlock(c, 6, 1) == 7;
    assert SkipBlock(c, 4, 2) == 7;
    assert SkipBlock(c, 2, 1) == 7;
    assert SkipBlock(c, 1, 1) == 7;
  }

  /**
   * Inside a block comment a `#` swallows the character after it, even another `#`: in
   * `#{##}x` the second `#` is eaten by the first, so the `}` closes nothing and the comment
   * runs to the end of the input.
   */
  lemma HashSwallowsNextCharacter()
    ensures SkipTrivia("#{##}x", 0) == 6
  {
    var c := "#{##}x";
    assert SkipBlock(c, 6, 1) == 6;
    assert SkipBlock(c, 5, 1) == 6;
    assert SkipBlock(c, 4, 1) == 6;
    assert SkipBlock(c, 2, 1) == 6;
    assert SkipBlock(c, 1, 1) == 6;
  }

  /** A line comment ends after its newline. */
  lemma LineComment()
    ensures SkipTrivia("#c\n x", 0) == 4
  {
    var c := "#c\n x";
    assert SkipLine(c, 1) == 3;
    assert SkipTrivia(c, 4) == 4;
    assert SkipTrivia(c, 3) == 4;
  }

  // ---------------------------------------------------------------------------------------
  // The iterator
  // ---------------------------------------------------------------------------------------

  /** An error only as the last item; each token of a producible kind, its span start at most its end. */
  predicate WellFormedItems(items: seq<LexerResult<Token>>) {
    forall k :: 0 <= k < |items| ==>
      && (items[k].Err? ==> k == |items| - 1)
      && (items[k].Ok? ==> Producible(items[k].value.0) && items[k].value.1.col <= items[k].value.1.ecol)
  }

  /** Everything the iterator yields from any cursor position is well formed. */
  lemma {:induction false} StreamWellFormed(input: string, pos: nat)
    requires pos <= |input|
    ensures WellFormedItems(Stream(input, pos))
    decreases |input| - pos
  {
    if pos < |input| {
      var s := Scan(input, pos);
      if s.result.Ok? {
        ScanProducible(input, pos);
        ScanSpan(input, pos);
        StreamWellFormed(input, s.next);
        var rest := Stream(input, s.next);
        var items := Stream(input, pos);
        assert items == [s.result] + rest;
        forall k | 0 < k < |items|
          ensures items[k] == rest[k - 1]
        {
        }
      }
    }
  }

  /** The exact text `new` is the keyword. */
  lemma NewIsKeyword()
    ensures Scan("new", 0).result == Ok((Keyword(New), Span(1, 2, 4)))
  {
    var w := "new";
    assert RunEnd(w, 3, IdentChar) == 3;
    assert RunEnd(w, 2, IdentChar) == 3;
    assert RunEnd(w, 1, IdentChar) == 3;
    assert [w[0]] + w[1..3] == "new";
    assert SkipTrivia(w, 0) == 0;
    assert ScanToken(w, 1, 'n') == IdentifierScan(w, 1, 'n');
  }

  /** `newton` is one identifier, not the keyword `new` followed by `ton`. */
  lemma NewtonIsIdentifier()
    ensures Scan("newton", 0).result == Ok((Identifier("newton"), Span(1, 2, 7)))
  {
    var w := "newton";
    assert RunEnd(w, 6, IdentChar) == 6;
    assert RunEnd(w, 5, IdentChar) == 6;
    assert RunEnd(w, 4, IdentChar) == 6;
    assert RunEnd(w, 3, IdentChar) == 6;
    assert RunEnd(w, 2, IdentChar) == 6;
    assert RunEnd(w, 1, IdentChar) == 6;
    assert At(w, 6) == Pos(1, 7);
    assert [w[0]] + w[1..6] == "newton";
    assert SkipTrivia(w, 0) == 0;
    assert KeywordOrIdentifier("newton") == Identifier("newton");
    assert ScanToken(w, 1, 'n') == IdentifierScan(w, 1, 'n');
  }

  /** `3.` at the end of the input is a malformed number, reported after the dot. */
  lemma TrailingDotIsError()
    ensures Scan("3.", 0).result == Err(LexerError(1, 3, Unspecified("Malformed number: 3.")))
  {
    var d := "3.";
    assert NumberEnd(d, 2, true) == 2;
    assert NumberEnd(d, 1, false) == 2;
    assert [d[0]] + d[1..2] == "3.";
    assert SkipTrivia(d, 0) == 0;
    assert At(d, 2) == Pos(1, 3);
    assert ScanToken(d, 1, '3') == NumberScan(d, 1, '3');
    assert "Malformed number: " + "3." == "Malformed number: 3.";
    assert NumberScan(d, 1, '3').result == Err(LexerError(1, 3, Unspecified("Malformed number: 3.")));
  }

  /** `&` is reported as an unknown token with the column after it. */
  lemma AmpersandIsUnknown()
    ensures Scan("&", 0).result == Err(LexerError(1, 2, Unspecified("Unknown token: &")))
  {
    var u := "&";
    assert SkipTrivia(u, 0) == 0;
    assert At(u, 1) == Pos(1, 2);
    assert "Unknown token: " + [u[0]] == "Unknown token: &";
  }

  /** `0x1fz` scans the hexadecimal digits `1f` as a `Typename` and stops before `z`. */
  lemma HexDigitsAreTypename()
    ensures Scan("0x1fz", 0) == Scanned(Ok((Typename("1f"), Span(1, 3, 5))), 4)
  {
    var h := "0x1fz";
    assert RunEnd(h, 4, RadixDigit(16)) == 4;
    assert RunEnd(h, 3, RadixDigit(16)) == 4;
    assert RunEnd(h, 2, RadixDigit(16)) == 4;
    assert h[2..4] == "1f";
  }

  /** Trailing blanks make the iterator yield the internal end-of-input error as its last item. */
  lemma TrailingBlankYieldsEndOfInput()
    ensures Stream("a ", 0) == [Ok((Identifier("a"), Span(1, 2, 2))), Err(LexerError(1, 3, EndOfInput))]
  {
    var t := "a ";
    assert RunEnd(t, 1, IdentChar) == 1;
    assert SkipTrivia(t, 0) == 0;
    assert [t[0]] + t[1..1] == "a";
    assert KeywordOrIdentifier("a") == Identifier("a");
    assert ScanToken(t, 1, 'a') == IdentifierScan(t, 1, 'a');
    assert Scan(t, 0) == Scanned(Ok((Identifier("a"), Span(1, 2, 2))), 1);
    assert SkipTrivia(t, 2) == 2;
    assert SkipTrivia(t, 1) == 2;
    assert Scan(t, 1) == Scanned(Err(LexerError(1, 3, EndOfInput)), 2);
  }
}
