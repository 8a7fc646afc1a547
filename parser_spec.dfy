/**
 * The reference definition of cattail's Pratt expression parser (src/parser.rs): the dispatch
 * tables as matches over the closed token kinds, and `pratt_expression` with its infix loop as
 * mutually recursive functions over the token vector and a cursor index.
 */
module ParserSpec {
  import opened Wrappers
  import opened Tokens
  import L = LexerSpec
  import opened Ast

  datatype ParserError =
    | Unspecified(message: string, span: L.Span)
    | NoMoreTokens
    | NoParseletFound(kind: string, token: L.Token)
    /** Reaching code the source leaves `unimplemented!()`, which panics there. */
    | Unimplemented(what: string)

  type ParserResult<T> = Result<T, ParserError>

  /** A parsing outcome and the cursor index after it. */
  datatype Parsed = Parsed(result: ParserResult<Expr>, next: nat)

  /** The prefix parselets: what starts an expression. */
  datatype PrefixParselet = NewObjectParselet | VariableReference

  /** An infix parselet built by `binary_prslt(left, prec)`. */
  datatype InfixParselet = BinaryParselet(left: bool, prec: nat)

  /** `get_prefix_parselet`: identifiers and `new` start expressions, nothing else does. */
  function GetPrefixParselet(tok: L.Token): (p: Option<PrefixParselet>)
    ensures p == Some(VariableReference) <==> tok.0.Identifier?
    ensures p == Some(NewObjectParselet) <==> tok.0 == Keyword(New)
    ensures p.None? <==> !tok.0.Identifier? && tok.0 != Keyword(New)
  {
    match tok.0
    case Keyword(New) => Some(NewObjectParselet)
    case Identifier(_) => Some(VariableReference)
    case _ => None
  }

  /**
   * `binary_prslt(left, prec)`: a binary-operator parselet paired with its binding power. Its
   * right operand is parsed at a threshold no higher than that power, so an operator of the same
   * power after it is absorbed by the right operand whichever `left` is given.
   */
  function BinaryPrslt(left: bool, prec: nat): (r: (InfixParselet, nat))
    ensures r.1 == prec && r.0.prec == prec && r.0.left == left
    ensures left || prec >= 1 ==> RhsThreshold(r.0) <= r.1
  {
    (BinaryParselet(left, prec), prec)
  }

  /** `get_infix_parselet`: `+` binds at 10 and `*` at 20, both declared with `left=false`. */
  function GetInfixParselet(tok: L.Token): (r: Option<(InfixParselet, nat)>)
    ensures tok.0 == Symbol(Plus) ==> r == Some((BinaryParselet(false, 10), 10))
    ensures tok.0 == Symbol(Asterisk) ==> r == Some((BinaryParselet(false, 20), 20))
    ensures r.None? <==> tok.0 != Symbol(Plus) && tok.0 != Symbol(Asterisk)
    ensures r.Some? ==> r.value.0.prec == r.value.1 >= 1
  {
    match tok.0
    case Symbol(Plus) => Some(BinaryPrslt(false, 10))
    case Symbol(Asterisk) => Some(BinaryPrslt(false, 20))
    case _ => None
  }

  /** `variable_reference_prslt`: the identifier's text and span, unchanged. */
  function VariableReferencePrslt(t: L.Token): (e: Expr)
    requires t.0.Identifier?
    ensures e.Identifier? && e.ident == (t.0.name, t.1)
  {
    NewIdentifierExpr((AsIdentifier(t.0).value, t.1))
  }

  /** Running a prefix parselet on the token that selected it. */
  function ApplyPrefix(p: PrefixParselet, t: L.Token): ParserResult<Expr>
    requires p == VariableReference ==> t.0.Identifier?
  {
    match p
    case NewObjectParselet => Err(Unimplemented("NEWOBJ"))
    case VariableReference => Ok(VariableReferencePrslt(t))
  }

  /** The threshold at which a binary parselet parses its right-hand side. */
  function RhsThreshold(p: InfixParselet): nat
    requires p.left || p.prec >= 1
  {
    if p.left then p.prec else p.prec - 1
  }

  /**
   * `pratt_expression(prec)` from cursor `i`: read a token, run its prefix parselet, then the
   * infix loop. It never moves the cursor back and reads at least one token when one is left.
   */
  function Pratt(ts: seq<L.Token>, i: nat, prec: nat): (p: Parsed)
    requires i <= |ts|
    ensures i <= p.next <= |ts|
    ensures i < |ts| ==> i < p.next
    decreases |ts| - i, 1
  {
    if i == |ts| then Parsed(Err(NoMoreTokens), i)
    else
      var token := ts[i];
      match GetPrefixParselet(token)
      case None => Parsed(Err(NoParseletFound("prefix", token)), i + 1)
      case Some(prefix) =>
        var left := ApplyPrefix(prefix, token);
        if left.Err? then Parsed(Err(left.error), i + 1)
        else InfixLoop(ts, i + 1, prec, left.value)
  }

  /**
   * The `while` loop of `pratt_expression` with `left` accumulated so far: the peeked token must
   * exist, and an operator is consumed before its binding power is compared with `prec`.
   */
  function InfixLoop(ts: seq<L.Token>, i: nat, prec: nat, left: Expr): (p: Parsed)
    requires i <= |ts|
    ensures i <= p.next <= |ts|
    decreases |ts| - i, 0
  {
    if i == |ts| then Parsed(Err(NoMoreTokens), i)
    else
      match GetInfixParselet(ts[i])
      case None => Parsed(Ok(left), i)
      case Some((infix, bp)) =>
        var token := ts[i];
        if prec > bp then Parsed(Ok(left), i + 1)
        else
          var rhs := InfixParse(ts, i + 1, infix, token, left);
          if rhs.result.Err? then rhs
          else InfixLoop(ts, rhs.next, prec, rhs.result.value)
  }

  /** The closure built by `binary_prslt`: parse the right-hand side, then build the binary node. */
  function InfixParse(ts: seq<L.Token>, i: nat, infix: InfixParselet, token: L.Token, lhs: Expr): (p: Parsed)
    requires i <= |ts|
    requires infix.left || infix.prec >= 1
    ensures i <= p.next <= |ts|
    ensures i < |ts| ==> i < p.next
    decreases |ts| - i, 2
  {
    var rhs := Pratt(ts, i, RhsThreshold(infix));
    if rhs.result.Err? then rhs
    else Parsed(Ok(NewBinaryExpr(lhs, rhs.result.value, token)), rhs.next)
  }
}
