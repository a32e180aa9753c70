/**
 * `ASTGenerator`: the parser object.  It owns the token list, the cursor
 * `cur` that every `Parse*` routine advances, and the list `astNodes` that
 * `Run` appends to.  Each method is proved to return, and to leave `cur`
 * where, the corresponding function of `Parsing` says.
 */
module Generation {
  import opened Wrappers
  import opened Tokens
  import opened Precedence
  import opened Syntax
  import opened Utils
  import opened Parsing

  class ASTGenerator {
    const tokens: seq<Token>
    var cur: nat
    var astNodes: seq<Node>
    /** The values that successive calls of `rand()` return. */
    const rand: nat -> nat
    /** How many calls of `rand()` the anonymous names have used so far. */
    var draws: nat

    ghost predicate Valid()
      reads this
    {
      cur <= |tokens|
    }

    constructor (ts: seq<Token>, rand: nat -> nat)
      ensures Valid() && tokens == ts && cur == 0 && astNodes == []
      ensures this.rand == rand && draws == 0
    {
      tokens := ts;
      cur := 0;
      astNodes := [];
      this.rand := rand;
      draws := 0;
    }

    /** `CurrentToken()`: the token under the cursor, or null once the tokens are exhausted. */
    function CurrentToken(): (t: Option<Token>)
      reads this
      ensures t.Some? <==> cur < |tokens|
      ensures t.Some? ==> t.value == tokens[cur]
    {
      TokenAt(tokens, cur)
    }

    /** `NextToken()`: the token after the cursor, or null. */
    function NextToken(): (t: Option<Token>)
      reads this
      ensures t.Some? <==> cur + 1 < |tokens|
      ensures t.Some? ==> t.value == tokens[cur + 1]
    {
      TokenAt(tokens, cur + 1)
    }

    /** `GetASTNodes()`. */
    function GetASTNodes(): seq<Node>
      reads this
    {
      astNodes
    }

    /**
     * `Run()`: parse top-level constructs until the tokens are used up.
     * It returns how the run ended; on `Stalled` the C++ would keep appending
     * anonymous functions with the same body under new names.
     */
    method Run() returns (end: RunEnd)
      requires Valid()
      modifies this`cur, this`astNodes, this`draws
      ensures Valid()
      ensures var r := Program(tokens, old(cur), rand, old(draws));
              astNodes == old(astNodes) + r.nodes && end == r.end
      ensures end == Finished ==> cur == |tokens|
    {
      ghost var done: seq<Node> := [];
      ghost var total := Program(tokens, cur, rand, draws);
      while cur < |tokens|
        invariant Valid()
        invariant astNodes == old(astNodes) + done
        invariant var r := Program(tokens, cur, rand, draws); total == RunResult(done + r.nodes, r.end)
        decreases |tokens| - cur
      {
        if Equal(CurrentToken().value, FromChar(';')) {
          // ignore a top-level ;
          cur := cur + 1;
          continue;
        }
        var before := cur;
        ghost var d0 := draws;
        ProgramStep(tokens, cur, rand, draws);
        var item := Dispatch();
        if item.OutOfTokens? {
          assert done + [] == done;
          return Crashed;
        }
        var node := item.value;
        astNodes := astNodes + [node];
        if cur == before {
          done := done + [node];
          return Stalled;
        }
        ghost var rest := Program(tokens, cur, rand, draws);
        assert total == RunResult(done + ([node] + rest.nodes), rest.end);
        assert done + ([node] + rest.nodes) == (done + [node]) + rest.nodes;
        done := done + [node];
      }
      return Finished;
    }

    /** The `switch` in the body of `Run()`: parse one top-level construct and say which node `Run()` appends. */
    method Dispatch() returns (r: Outcome<Node>)
      requires Valid() && cur < |tokens|
      modifies this`cur, this`draws
      ensures Valid()
      ensures var it := TopItem(tokens, old(cur), rand, old(draws));
              match r
              case OutOfTokens => it.OutOfTokens?
              case Ok(node) => it == Ok(Item(node, cur, draws))
    {
      match CurrentToken().value.GetType() {
        case Def =>
          var d :- ParseDefinition();
          return Ok(if d.Some? then FunctionNode(d.value) else NullNode);
        case Extern =>
          var e :- ParseExtern();
          return Ok(if e.Some? then PrototypeNode(e.value) else NullNode);
        case _ =>
          var f :- ParseToplevel();
          return Ok(FunctionNode(f));
      }
    }

    /** `ParsePrimary()`. */
    method ParsePrimary() returns (r: Outcome<Option<Expr>>)
      requires Valid()
      modifies this`cur
      ensures Valid()
      ensures Primary(tokens, old(cur)) == Located(r, cur)
      decreases |tokens| - cur, 1
    {
      var token := CurrentToken();
      if token.None? {
        return Ok(None);
      }
      var t := token.value;
      if t.IsNumber() {
        cur := cur + 1;
        return Ok(Some(Num(t.GetContent())));
      } else if t.IsUnknown() && t.GetChar() == '(' {
        cur := cur + 1;  // consume (
        var e :- ParseExpr();
        var closing := CurrentToken();
        if closing.None? {
          return OutOfTokens;
        }
        if NotEqual(closing.value, FromChar(')')) {
          return Ok(None);
        }
        cur := cur + 1;  // consume )
        return Ok(e);
      } else if t.IsIdent() {
        var next := NextToken();
        if next.Some? && Equal(next.value, FromChar('(')) {
          cur := cur + 1;  // consume the function name
          cur := cur + 1;  // consume (
          var args :- ParseArguments();
          var closing := CurrentToken();
          if closing.None? {
            return OutOfTokens;
          }
          if NotEqual(closing.value, FromChar(')')) {
            return Ok(None);
          }
          cur := cur + 1;  // consume )
          return Ok(Some(Call(t.GetContent(), args)));
        } else {
          cur := cur + 1;
          return Ok(Some(Var(t.GetContent())));
        }
      }
      return Ok(None);
    }

    /** `ParseArguments()`. */
    method ParseArguments() returns (r: Outcome<seq<Option<Expr>>>)
      requires Valid()
      modifies this`cur
      ensures Valid()
      ensures Arguments(tokens, old(cur)) == Located(r, cur)
      decreases |tokens| - cur, 4
    {
      var first := CurrentToken();
      if first.None? {
        return OutOfTokens;
      }
      var args: seq<Option<Expr>> := [];
      if Equal(first.value, FromChar(')')) {
        return Ok(args);
      }
      ghost var whole := ArgumentList(tokens, cur);
      assert whole == Prepend(args, whole) by { PrependNothing(whole); }
      while true
        invariant Valid() && old(cur) <= cur
        invariant whole == Prepend(args, ArgumentList(tokens, cur))
        decreases |tokens| - cur
      {
        ghost var c1 := cur;
        ghost var before := args;
        var e :- ParseExpr();
        args := args + [e];
        var token := CurrentToken();
        if token.None? {
          return OutOfTokens;
        }
        if Equal(token.value, FromChar(')')) {
          return Ok(args);
        }
        if Equal(token.value, FromChar(',')) {
          cur := cur + 1;  // consume ,
          PrependTwice(before, [e], ArgumentList(tokens, cur));
        } else {
          return Ok(args);
        }
      }
    }

    /** `ParseExpr()`. */
    method ParseExpr() returns (r: Outcome<Option<Expr>>)
      requires Valid()
      modifies this`cur
      ensures Valid()
      ensures Parsing.Expr(tokens, old(cur)) == Located(r, cur)
      decreases |tokens| - cur, 2
    {
      var lhs :- ParsePrimary();
      r := ParseBinRhs(0, lhs);
    }

    /** `ParseBinRhs(precedence, lhs)`. */
    method ParseBinRhs(precedence: int, lhs: Option<Expr>) returns (r: Outcome<Option<Expr>>)
      requires Valid()
      modifies this`cur
      ensures Valid()
      ensures BinRhs(tokens, old(cur), precedence, lhs) == Located(r, cur)
      decreases |tokens| - cur, 1
    {
      var prev := CurrentToken();
      if prev.None? || !prev.value.IsUnknown() {
        return Ok(lhs);
      }
      if Support(prev.value.GetChar()) {
        var prevPrec := Get(prev.value.GetChar());
        if prevPrec < precedence {
          return Ok(lhs);
        }
        ghost var c0 := cur;
        cur := cur + 1;  // consume the operator
        var rhs :- ParsePrimary();
        var next := CurrentToken();
        if next.Some? && next.value.IsUnknown() && Support(next.value.GetChar()) {
          var curPrec := Get(next.value.GetChar());
          if prevPrec < curPrec {
            rhs :- ParseBinRhs(prevPrec + 1, rhs);
          }
        }
        var combined := Some(Binary(prev.value.GetChar(), lhs, rhs));
        r := ParseBinRhs(precedence, combined);
      } else {
        return Ok(lhs);
      }
    }

    /** The parameter loop of `ParsePrototype`: identifiers up to the first non-identifier or a `)` after one. */
    method ParseParameterNames() returns (r: Outcome<seq<string>>)
      requires Valid()
      modifies this`cur
      ensures Valid()
      ensures Params(tokens, old(cur)) == Located(r, cur)
    {
      var argNames: seq<string> := [];
      ghost var whole := Params(tokens, cur);
      assert whole == Prepend(argNames, whole) by { PrependNothing(whole); }
      while true
        invariant Valid()
        invariant whole == Prepend(argNames, Params(tokens, cur))
        decreases |tokens| - cur
      {
        ParamsStop(tokens, cur);
        var t := CurrentToken();
        if t.None? {
          return OutOfTokens;
        }
        if !t.value.IsIdent() {
          assert argNames + [] == argNames;
          break;
        }
        ghost var before := argNames;
        argNames := argNames + [t.value.GetContent()];
        cur := cur + 1;  // consume the argument name
        var u := CurrentToken();
        if u.None? {
          return OutOfTokens;
        }
        if Equal(u.value, FromChar(')')) {
          cur := cur + 1;  // consume )
          break;
        }
        ParamsMore(tokens, cur - 1);
        PrependTwice(before, [t.value.GetContent()], Params(tokens, cur));
      }
      return Ok(argNames);
    }

    /** `ParsePrototype()`. */
    method ParsePrototype() returns (r: Outcome<Option<Prototype>>)
      requires Valid()
      modifies this`cur
      ensures Valid()
      ensures ProtoAt(tokens, old(cur)) == Located(r, cur)
    {
      var funcToken := CurrentToken();
      if funcToken.None? {
        return OutOfTokens;
      }
      if !funcToken.value.IsIdent() {
        return Ok(None);
      }
      cur := cur + 1;  // consume the function name
      var open := CurrentToken();
      if open.None? {
        return OutOfTokens;
      }
      if NotEqual(open.value, FromChar('(')) {
        return Ok(None);
      }
      cur := cur + 1;  // consume (
      var argNames: seq<string> := [];
      var first := CurrentToken();
      if first.None? {
        return OutOfTokens;
      }
      if NotEqual(first.value, FromChar(')')) {
        var names :- ParseParameterNames();
        argNames := names;
      } else {
        cur := cur + 1;  // consume )
      }
      return Ok(Some(Prototype(funcToken.value.GetContent(), argNames)));
    }

    /** `ParseDefinition()`. */
    method ParseDefinition() returns (r: Outcome<Option<FunctionDef>>)
      requires Valid()
      modifies this`cur
      ensures Valid()
      ensures Definition(tokens, old(cur)) == Located(r, cur)
    {
      var token := CurrentToken();
      if token.None? {
        return OutOfTokens;
      }
      if !token.value.IsDef() {
        return Ok(None);
      }
      cur := cur + 1;  // consume def
      var proto :- ParsePrototype();
      var body :- ParseExpr();
      return Ok(Some(FunctionDef(proto, body)));
    }

    /** `ParseExtern()`. */
    method ParseExtern() returns (r: Outcome<Option<Prototype>>)
      requires Valid()
      modifies this`cur
      ensures Valid()
      ensures Parsing.Extern(tokens, old(cur)) == Located(r, cur)
    {
      var token := CurrentToken();
      if token.None? {
        return OutOfTokens;
      }
      if !token.value.IsExtern() {
        return Ok(None);
      }
      cur := cur + 1;  // consume extern
      r := ParsePrototype();
    }

    /** `ParseToplevel()`: wrap the expression in an anonymous nullary function. */
    method ParseToplevel() returns (r: Outcome<FunctionDef>)
      requires Valid()
      modifies this`cur, this`draws
      ensures Valid() && draws == old(draws) + 10
      ensures Toplevel(tokens, old(cur), RandomString(10, rand, old(draws))) == Located(r, cur)
    {
      var suffix := GenerateRandom(10, rand, draws);
      var proto := Prototype(AnonPrefix + suffix, []);
      draws := draws + 10;
      var body :- ParseExpr();
      return Ok(FunctionDef(Some(proto), body));
    }
  }
}
