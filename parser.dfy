/**
 * The cattail parser (src/parser.rs): a token vector with a cursor that only moves forward.
 * `PrattExpression` is proved to compute exactly what `ParserSpec.Pratt` defines.
 */
module Parsing {
  import opened Wrappers
  import L = LexerSpec
  import opened Ast
  import opened ParserSpec

  class Parser {
    const tokens: seq<L.Token>
    var index: nat

    ghost predicate Valid()
      reads this
    {
      index <= |tokens|
    }

    constructor (tokens: seq<L.Token>)
      ensures Valid()
      ensures this.tokens == tokens && index == 0
    {
      this.tokens := tokens;
      index := 0;
    }

    /** Takes the token at the cursor and advances past it, or reports that none is left. */
    method Next() returns (r: ParserResult<L.Token>)
      requires Valid()
      modifies this`index
      ensures Valid()
      ensures old(index) < |tokens| ==> r == Ok(tokens[old(index)]) && index == old(index) + 1
      ensures old(index) == |tokens| ==> r == Err(NoMoreTokens) && index == old(index)
    {
      if index < |tokens| {
        index := index + 1;
        r := Ok(tokens[index - 1]);
      } else {
        r := Err(NoMoreTokens);
      }
    }

    /** The token at the cursor, without moving it. */
    method Peek() returns (r: ParserResult<L.Token>)
      requires Valid()
      ensures index < |tokens| ==> r == Ok(tokens[index])
      ensures index == |tokens| ==> r == Err(NoMoreTokens)
    {
      if index < |tokens| {
        r := Ok(tokens[index]);
      } else {
        r := Err(NoMoreTokens);
      }
    }

    /** `expression`: an expression at the lowest threshold. */
    method Expression() returns (r: ParserResult<Expr>)
      requires Valid()
      modifies this`index
      ensures Valid()
      ensures r == Pratt(tokens, old(index), 0).result && index == Pratt(tokens, old(index), 0).next
    {
      r := PrattExpression(0);
    }

    /** Precedence climbing: a prefix parselet, then operators binding at least at `prec`. */
    method PrattExpression(prec: nat) returns (r: ParserResult<Expr>)
      requires Valid()
      modifies this`index
      ensures Valid()
      ensures r == Pratt(tokens, old(index), prec).result && index == Pratt(tokens, old(index), prec).next
      decreases |tokens| - index, 1
    {
      var token := Next();
      if token.Err? {
        return Err(token.error);
      }
      var prefix := GetPrefixParselet(token.value);
      if prefix.None? {
        return Err(NoParseletFound("prefix", token.value));
      }
      var first := ApplyPrefix(prefix.value, token.value);
      if first.Err? {
        return first;
      }
      var left := first.value;
      while true
        invariant Valid()
        invariant old(index) < index
        invariant InfixLoop(tokens, index, prec, left) == Pratt(tokens, old(index), prec)
        decreases |tokens| - index
      {
        var peeked := Peek();
        if peeked.Err? {
          return Err(peeked.error);
        }
        var infix := GetInfixParselet(peeked.value);
        if infix.None? {
          break;
        }
        var op := Next();
        if prec > infix.value.1 {
          break;
        }
        var combined := CallInfix(infix.value.0, op.value, left);
        if combined.Err? {
          return combined;
        }
        left := combined.value;
      }
      r := Ok(left);
    }

    /** Runs a binary parselet: the right-hand side at its threshold, then the binary node. */
    method CallInfix(infix: InfixParselet, t: L.Token, lhs: Expr) returns (r: ParserResult<Expr>)
      requires Valid()
      requires infix.left || infix.prec >= 1
      modifies this`index
      ensures Valid()
      ensures r == InfixParse(tokens, old(index), infix, t, lhs).result
      ensures index == InfixParse(tokens, old(index), infix, t, lhs).next
      decreases |tokens| - index, 2
    {
      var rhs := PrattExpression(RhsThreshold(infix));
      if rhs.Err? {
        return rhs;
      }
      r := Ok(NewBinaryExpr(lhs, rhs.value, t));
    }
  }
}
