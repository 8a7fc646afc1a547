/** What cattail's Pratt parser does, as written, proved about the functions of `ParserSpec`. */
module ParserProperties {
  import opened Wrappers
  import opened Tokens
  import L = LexerSpec
  import opened Ast
  import opened ParserSpec

  // ---------------------------------------------------------------------------------------
  // The shape of every successful parse
  // ---------------------------------------------------------------------------------------

  /** Identifier leaves joined by binary nodes whose operator has an infix parselet. */
  predicate OperatorTree(e: Expr) {
    match e
    case Identifier(_) => true
    case Binary(lhs, rhs, op) => GetInfixParselet(op).Some? && OperatorTree(lhs) && OperatorTree(rhs)
    case _ => false
  }

  lemma {:induction false} PrattTree(ts: seq<L.Token>, i: nat, prec: nat)
    requires i <= |ts|
    ensures Pratt(ts, i, prec).result.Ok? ==> OperatorTree(Pratt(ts, i, prec).result.value)
    decreases |ts| - i, 1
  {
    if i < |ts| && GetPrefixParselet(ts[i]) == Some(VariableReference) {
      InfixLoopTree(ts, i + 1, prec, VariableReferencePrslt(ts[i]));
    }
  }

  lemma {:induction false} InfixLoopTree(ts: seq<L.Token>, i: nat, prec: nat, left: Expr)
    requires i <= |ts|
    requires OperatorTree(left)
    ensures InfixLoop(ts, i, prec, left).result.Ok? ==> OperatorTree(InfixLoop(ts, i, prec, left).result.value)
    decreases |ts| - i, 0
  {
    if i < |ts| && GetInfixParselet(ts[i]).Some? {
      var (infix, bp) := GetInfixParselet(ts[i]).value;
      if prec <= bp {
        var rhs := InfixParse(ts, i + 1, infix, ts[i], left);
        InfixParseTree(ts, i + 1, infix, ts[i], left);
        if rhs.result.Ok? {
          InfixLoopTree(ts, rhs.next, prec, rhs.result.value);
        }
      }
    }
  }

  lemma {:induction false} InfixParseTree(ts: seq<L.Token>, i: nat, infix: InfixParselet, token: L.Token, lhs: Expr)
    requires i <= |ts|
    requires infix.left || infix.prec >= 1
    requires OperatorTree(lhs) && GetInfixParselet(token).Some?
    ensures InfixParse(ts, i, infix, token, lhs).result.Ok? ==> OperatorTree(InfixParse(ts, i, infix, token, lhs).result.value)
    decreases |ts| - i, 2
  {
    PrattTree(ts, i, RhsThreshold(infix));
  }

  // ---------------------------------------------------------------------------------------
  // Running off the end of the token vector
  // ---------------------------------------------------------------------------------------

  /**
   * A parse succeeds only when it stops at a token still in the vector, or just after an
   * operator it consumed and dropped: an expression that reaches the end fails.
   */
  predicate StopsInside(ts: seq<L.Token>, next: nat) {
    next < |ts| || (0 < next <= |ts| && GetInfixParselet(ts[next - 1]).Some?)
  }

  lemma {:induction false} PrattStopsInside(ts: seq<L.Token>, i: nat, prec: nat)
    requires i <= |ts|
    ensures Pratt(ts, i, prec).result.Ok? ==> StopsInside(ts, Pratt(ts, i, prec).next)
    decreases |ts| - i, 1
  {
    if i < |ts| && GetPrefixParselet(ts[i]) == Some(VariableReference) {
      InfixLoopStopsInside(ts, i + 1, prec, VariableReferencePrslt(ts[i]));
    }
  }

  lemma {:induction false} InfixLoopStopsInside(ts: seq<L.Token>, i: nat, prec: nat, left: Expr)
    requires i <= |ts|
    ensures InfixLoop(ts, i, prec, left).result.Ok? ==> StopsInside(ts, InfixLoop(ts, i, prec, left).next)
    decreases |ts| - i, 0
  {
    if i < |ts| && GetInfixParselet(ts[i]).Some? {
      var (infix, bp) := GetInfixParselet(ts[i]).value;
      if prec <= bp {
        var rhs := InfixParse(ts, i + 1, infix, ts[i], left);
        if rhs.result.Ok? {
          InfixLoopStopsInside(ts, rhs.next, prec, rhs.result.value);
        }
      }
    }
  }

  /** When the last token is no operator, a successful parse always stops before the end. */
  lemma EndingWithoutOperator(ts: seq<L.Token>, i: nat, prec: nat)
    requires i <= |ts|
    requires |ts| > 0 ==> GetInfixParselet(ts[|ts| - 1]).None?
    ensures Pratt(ts, i, prec).result.Ok? ==> Pratt(ts, i, prec).next < |ts|
  {
    PrattStopsInside(ts, i, prec);
  }

  // ---------------------------------------------------------------------------------------
  // Associativity: operators declared with left=false nest to the right
  // ---------------------------------------------------------------------------------------

  /** `ids[0] op ids[1] op ... op ids[n-1]`. */
  function Chain(ids: seq<L.Token>, op: L.Token): (ts: seq<L.Token>)
    requires |ids| >= 1
    ensures |ts| == 2 * |ids| - 1
  {
    if |ids| == 1 then [ids[0]] else [ids[0], op] + Chain(ids[1..], op)
  }

  /** `ids[0] op (ids[1] op (... op ids[n-1]))`. */
  function RightFold(ids: seq<L.Token>, op: L.Token): Expr
    requires |ids| >= 1
    requires forall j :: 0 <= j < |ids| ==> ids[j].0.Identifier?
  {
    var first := Expr.Identifier((ids[0].0.name, ids[0].1));
    if |ids| == 1 then first else Binary(first, RightFold(ids[1..], op), op)
  }

  /**
   * A chain of identifiers joined by one operator, followed by a token that is no operator,
   * parses to the right-nested tree and stops at that token.
   */
  lemma {:induction false} RightNesting(ts: seq<L.Token>, k: nat, ids: seq<L.Token>, op: L.Token, prec: nat)
    requires |ids| >= 1
    requires forall j :: 0 <= j < |ids| ==> ids[j].0.Identifier?
    requires GetInfixParselet(op).Some? && prec <= GetInfixParselet(op).value.1
    requires k + 2 * |ids| - 1 < |ts|
    requires ts[k..k + 2 * |ids| - 1] == Chain(ids, op)
    requires GetInfixParselet(ts[k + 2 * |ids| - 1]).None?
    ensures Pratt(ts, k, prec) == Parsed(Ok(RightFold(ids, op)), k + 2 * |ids| - 1)
    decreases |ids|
  {
    var n := |ids|;
    assert ts[k] == Chain(ids, op)[0] == ids[0];
    var first := Expr.Identifier((ids[0].0.name, ids[0].1));
    if n == 1 {
      assert InfixLoop(ts, k + 1, prec, first) == Parsed(Ok(first), k + 1);
    } else {
      assert ts[k + 1] == Chain(ids, op)[1] == op;
      var (infix, bp) := GetInfixParselet(op).value;
      assert RhsThreshold(infix) == bp - 1;
      assert ts[k + 2..k + 2 * n - 1] == Chain(ids, op)[2..] == Chain(ids[1..], op);
      assert ts[(k + 2)..(k + 2) + 2 * |ids[1..]| - 1] == Chain(ids[1..], op);
      RightNesting(ts, k + 2, ids[1..], op, bp - 1);
      var whole := Binary(first, RightFold(ids[1..], op), op);
      assert InfixParse(ts, k + 2, infix, op, first) == Parsed(Ok(whole), k + 2 * n - 1);
      assert InfixLoop(ts, k + 2 * n - 1, prec, whole) == Parsed(Ok(whole), k + 2 * n - 1);
      assert InfixLoop(ts, k + 1, prec, first) == Parsed(Ok(whole), k + 2 * n - 1);
    }
  }

  // ---------------------------------------------------------------------------------------
  // Concrete token vectors (any identifiers, any spans)
  // ---------------------------------------------------------------------------------------

  function Id(e: L.Token): Expr
    requires e.0.Identifier?
  {
    Expr.Identifier((e.0.name, e.1))
  }

  /** `a + b * c ;` parses to `a + (b * c)` and stops before `;`. */
  lemma TimesBindsTighter(a: L.Token, plus: L.Token, b: L.Token, times: L.Token, c: L.Token, semi: L.Token)
    requires a.0.Identifier? && b.0.Identifier? && c.0.Identifier?
    requires plus.0 == Symbol(Plus) && times.0 == Symbol(Asterisk) && semi.0 == Symbol(Semicolon)
    ensures Pratt([a, plus, b, times, c, semi], 0, 0)
         == Parsed(Ok(Binary(Id(a), Binary(Id(b), Id(c), times), plus)), 5)
  {
    var ts := [a, plus, b, times, c, semi];
    assert InfixLoop(ts, 5, 19, Id(c)) == Parsed(Ok(Id(c)), 5);
    assert Pratt(ts, 4, 19) == Parsed(Ok(Id(c)), 5);
    var bc := Binary(Id(b), Id(c), times);
    assert InfixLoop(ts, 5, 9, bc) == Parsed(Ok(bc), 5);
    assert InfixLoop(ts, 3, 9, Id(b)) == Parsed(Ok(bc), 5);
    assert Pratt(ts, 2, 9) == Parsed(Ok(bc), 5);
    var abc := Binary(Id(a), bc, plus);
    assert InfixLoop(ts, 5, 0, abc) == Parsed(Ok(abc), 5);
    assert InfixLoop(ts, 1, 0, Id(a)) == Parsed(Ok(abc), 5);
  }

  /** `a + b + c ;` nests to the right, `a + (b + c)`. */
  lemma PlusNestsRight(a: L.Token, p1: L.Token, b: L.Token, p2: L.Token, c: L.Token, semi: L.Token)
    requires a.0.Identifier? && b.0.Identifier? && c.0.Identifier?
    requires p1.0 == Symbol(Plus) && p2 == p1 && semi.0 == Symbol(Semicolon)
    ensures Pratt([a, p1, b, p2, c, semi], 0, 0) == Parsed(Ok(Binary(Id(a), Binary(Id(b), Id(c), p1), p1)), 5)
  {
    var ts := [a, p1, b, p2, c, semi];
    var ids := [a, b, c];
    assert ids[1..] == [b, c] && [b, c][1..] == [c];
    assert Chain([c], p1) == [c];
    assert Chain([b, c], p1) == [b, p1, c];
    assert Chain(ids, p1) == [a, p1, b, p1, c];
    assert ts[0..5] == Chain(ids, p1);
    RightNesting(ts, 0, ids, p1, 0);
    assert RightFold([c], p1) == Id(c);
    assert RightFold([b, c], p1) == Binary(Id(b), Id(c), p1);
  }

  /**
   * `binary_prslt` nests an operator of equal power to the right whichever `left` it is given:
   * the loop breaks only when the threshold exceeds the power, and neither threshold does. Here
   * the `+` after `a` is parsed by a parselet built with `left` and the second `+` by the table's.
   */
  lemma EqualPowerNestsRight(left: bool, a: L.Token, p1: L.Token, b: L.Token, p2: L.Token, c: L.Token, semi: L.Token)
    requires a.0.Identifier? && b.0.Identifier? && c.0.Identifier?
    requires p1.0 == Symbol(Plus) && p2.0 == Symbol(Plus) && semi.0 == Symbol(Semicolon)
    ensures InfixParse([a, p1, b, p2, c, semi], 2, BinaryPrslt(left, 10).0, p1, Id(a))
         == Parsed(Ok(Binary(Id(a), Binary(Id(b), Id(c), p2), p1)), 5)
  {
    var ts := [a, p1, b, p2, c, semi];
    var bc := Binary(Id(b), Id(c), p2);
    assert InfixLoop(ts, 5, 9, Id(c)) == Parsed(Ok(Id(c)), 5);
    assert Pratt(ts, 4, 9) == Parsed(Ok(Id(c)), 5);
    assert InfixParse(ts, 4, BinaryParselet(false, 10), p2, Id(b)) == Parsed(Ok(bc), 5);
    var t := RhsThreshold(BinaryPrslt(left, 10).0);
    assert InfixLoop(ts, 5, t, bc) == Parsed(Ok(bc), 5);
    assert InfixLoop(ts, 3, t, Id(b)) == Parsed(Ok(bc), 5);
    assert Pratt(ts, 2, t) == Parsed(Ok(bc), 5);
  }

  /**
   * `a * b + c ;`: the loop inside the right-hand side of `*` consumes `+`, finds its binding
   * power below the threshold and breaks; the `+` is lost and parsing ends before `c`.
   */
  lemma OperatorDroppedOnBreak(a: L.Token, times: L.Token, b: L.Token, plus: L.Token, c: L.Token, semi: L.Token)
    requires a.0.Identifier? && b.0.Identifier? && c.0.Identifier?
    requires times.0 == Symbol(Asterisk) && plus.0 == Symbol(Plus) && semi.0 == Symbol(Semicolon)
    ensures Pratt([a, times, b, plus, c, semi], 0, 0) == Parsed(Ok(Binary(Id(a), Id(b), times)), 4)
  {
    var ts := [a, times, b, plus, c, semi];
    assert InfixLoop(ts, 3, 19, Id(b)) == Parsed(Ok(Id(b)), 4);
    assert Pratt(ts, 2, 19) == Parsed(Ok(Id(b)), 4);
    var ab := Binary(Id(a), Id(b), times);
    assert InfixLoop(ts, 4, 0, ab) == Parsed(Ok(ab), 4);
    assert InfixLoop(ts, 1, 0, Id(a)) == Parsed(Ok(ab), 4);
  }

  /** `a + b` with nothing after it fails: the loop peeks past the last token. */
  lemma NoTerminatorFails(a: L.Token, plus: L.Token, b: L.Token)
    requires a.0.Identifier? && b.0.Identifier? && plus.0 == Symbol(Plus)
    ensures Pratt([a, plus, b], 0, 0) == Parsed(Err(NoMoreTokens), 3)
  {
    var ts := [a, plus, b];
    assert InfixLoop(ts, 3, 9, Id(b)) == Parsed(Err(NoMoreTokens), 3);
    assert Pratt(ts, 2, 9) == Parsed(Err(NoMoreTokens), 3);
    assert InfixParse(ts, 2, BinaryParselet(false, 10), plus, Id(a)) == Parsed(Err(NoMoreTokens), 3);
    assert InfixLoop(ts, 1, 0, Id(a)) == Parsed(Err(NoMoreTokens), 3);
  }

  /** `-` has no infix parselet: `a - b ;` is just `a`, stopping at `-`. */
  lemma MinusIsNoOperator(a: L.Token, minus: L.Token, b: L.Token, semi: L.Token)
    requires a.0.Identifier? && b.0.Identifier? && minus.0 == Symbol(Minus)
    ensures Pratt([a, minus, b, semi], 0, 0) == Parsed(Ok(Id(a)), 1)
  {
  }

  /** A token with no prefix parselet is consumed and reported. */
  lemma NoPrefixParselet(ts: seq<L.Token>, i: nat, prec: nat)
    requires i < |ts|
    requires !ts[i].0.Identifier? && ts[i].0 != Keyword(New)
    ensures Pratt(ts, i, prec) == Parsed(Err(NoParseletFound("prefix", ts[i])), i + 1)
  {
  }

  /** An empty remainder reports that no token is left and does not move the cursor. */
  lemma NothingLeft(ts: seq<L.Token>, prec: nat)
    ensures Pratt(ts, |ts|, prec) == Parsed(Err(NoMoreTokens), |ts|)
  {
  }

  /** A leading identifier becomes a variable reference with its text and span unchanged. */
  lemma VariableReferenceFirst(ts: seq<L.Token>, i: nat, prec: nat)
    requires i < |ts| && ts[i].0.Identifier?
    ensures Pratt(ts, i, prec) == InfixLoop(ts, i + 1, prec, Expr.Identifier((ts[i].0.name, ts[i].1)))
  {
  }
}
