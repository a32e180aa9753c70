/**
 * What the parser promises about the trees it builds: only operators of the
 * precedence table appear in them, operators group by precedence, and `Run`
 * appends one node per top-level construct.
 */
module ParserProperties {
  import opened Wrappers
  import opened Tokens
  import opened Precedence
  import opened Syntax
  import opened Utils
  import opened Parsing
  import Lexing

  /*
   * Every binary node the parser builds carries an operator of the
   * precedence table, because `ParseBinRhs` only consumes a token that
   * `Support` accepts.
   */

  lemma {:induction false} PrimaryOps(ts: seq<Token>, c: nat)
    requires c <= |ts|
    ensures Primary(ts, c).Ok? ==> OptOpsSupported(Primary(ts, c).value.node)
    decreases |ts| - c, 1
  {
    if c < |ts| {
      var t := ts[c];
      if t.IsNumber() {
      } else if t.IsUnknown() && t.GetChar() == '(' {
        ExprOps(ts, c + 1);
      } else if t.IsIdent() && c + 1 < |ts| && Equal(ts[c + 1], FromChar('(')) {
        ArgumentsOps(ts, c + 2);
        var a := Arguments(ts, c + 2);
        if a.Ok? {
          CallOps(t.GetContent(), a.value.node);
        }
      }
    }
  }

  /** A call node is well formed when all its arguments are. */
  lemma CallOps(callee: string, args: seq<Option<Expr>>)
    requires forall i | 0 <= i < |args| :: OptOpsSupported(args[i])
    ensures OpsSupported(Call(callee, args))
  {
  }

  lemma {:induction false} ExprOps(ts: seq<Token>, c: nat)
    requires c <= |ts|
    ensures Parsing.Expr(ts, c).Ok? ==> OptOpsSupported(Parsing.Expr(ts, c).value.node)
    decreases |ts| - c, 2
  {
    PrimaryOps(ts, c);
    var p := Primary(ts, c);
    if p.Ok? {
      BinRhsOps(ts, p.value.next, 0, p.value.node);
    }
  }

  lemma {:induction false} BinRhsOps(ts: seq<Token>, c: nat, prec: int, lhs: Option<Expr>)
    requires c <= |ts| && OptOpsSupported(lhs)
    ensures BinRhs(ts, c, prec, lhs).Ok? ==> OptOpsSupported(BinRhs(ts, c, prec, lhs).value.node)
    decreases |ts| - c, 1
  {
    if OperatorAt(ts, c, prec) {
      var op := ts[c].GetChar();
      var opPrec := Get(op);
      PrimaryOps(ts, c + 1);
      var rhs := Primary(ts, c + 1);
      if rhs.Ok? {
        var rhs' := if TighterAt(ts, rhs.value.next, opPrec)
                    then BinRhs(ts, rhs.value.next, opPrec + 1, rhs.value.node)
                    else rhs;
        if TighterAt(ts, rhs.value.next, opPrec) {
          BinRhsOps(ts, rhs.value.next, opPrec + 1, rhs.value.node);
        }
        if rhs'.Ok? {
          BinRhsOps(ts, rhs'.value.next, prec, Some(Binary(op, lhs, rhs'.value.node)));
        }
      }
    }
  }

  lemma {:induction false} ArgumentsOps(ts: seq<Token>, c: nat)
    requires c <= |ts|
    ensures var r := Arguments(ts, c);
            r.Ok? ==> forall i | 0 <= i < |r.value.node| :: OptOpsSupported(r.value.node[i])
    decreases |ts| - c, 4
  {
    if c < |ts| && !Equal(ts[c], FromChar(')')) {
      ArgumentListOps(ts, c);
    }
  }

  lemma {:induction false} ArgumentListOps(ts: seq<Token>, c: nat)
    requires c <= |ts|
    ensures var r := ArgumentList(ts, c);
            r.Ok? ==> forall i | 0 <= i < |r.value.node| :: OptOpsSupported(r.value.node[i])
    decreases |ts| - c, 3
  {
    ExprOps(ts, c);
    var r := ArgumentList(ts, c);
    ArgumentListContents(ts, c);
    if r.Ok? {
      var e := Parsing.Expr(ts, c).value;
      if Equal(ts[e.next], FromChar(',')) {
        ArgumentListOps(ts, e.next + 1);
        var rest := ArgumentList(ts, e.next + 1).value.node;
        forall i | 1 <= i < |r.value.node|
          ensures OptOpsSupported(r.value.node[i])
        {
          assert r.value.node[i] == rest[i - 1];
        }
      } else {
        assert r.value.node == [e.node];
      }
    }
  }

  /**
   * What `ParsePrimary` builds from the token under the cursor: a number or a
   * variable from one token, the inner expression itself for a parenthesised
   * one, a call through its closing `)`, and null without consuming anything
   * for a token that starts no primary.  A parenthesis or a call whose `)` is
   * missing gives null after consuming everything up to the offending token;
   * `( )` gives null after consuming both.
   */
  lemma PrimaryCases(ts: seq<Token>, c: nat)
    requires c < |ts|
    ensures ts[c].IsNumber() ==> Primary(ts, c) == Ok(Parsed(Some(Num(ts[c].GetContent())), c + 1))
    ensures ts[c].IsIdent() && !(c + 1 < |ts| && IsChar(ts[c + 1], '(')) ==>
              Primary(ts, c) == Ok(Parsed(Some(Var(ts[c].GetContent())), c + 1))
    ensures IsChar(ts[c], '(') && Primary(ts, c).Ok? && Primary(ts, c).value.node.Some? ==>
              var e := Parsing.Expr(ts, c + 1);
              e.Ok? && e.value.next < |ts| && IsChar(ts[e.value.next], ')') &&
              Primary(ts, c).value == Parsed(e.value.node, e.value.next + 1)
    ensures ts[c].IsIdent() && c + 1 < |ts| && IsChar(ts[c + 1], '(') && Primary(ts, c).Ok? && Primary(ts, c).value.node.Some? ==>
              var a := Arguments(ts, c + 2);
              a.Ok? && IsChar(ts[a.value.next], ')') &&
              Primary(ts, c).value == Parsed(Some(Call(ts[c].GetContent(), a.value.node)), a.value.next + 1)
    ensures IsChar(ts[c], '(') ==>
              var e := Parsing.Expr(ts, c + 1);
              e.Ok? && e.value.next < |ts| && IsChar(ts[e.value.next], ')') ==>
                Primary(ts, c) == Ok(Parsed(e.value.node, e.value.next + 1))
    ensures ts[c].IsIdent() && c + 1 < |ts| && IsChar(ts[c + 1], '(') ==>
              var a := Arguments(ts, c + 2);
              a.Ok? && IsChar(ts[a.value.next], ')') ==>
                Primary(ts, c) == Ok(Parsed(Some(Call(ts[c].GetContent(), a.value.node)), a.value.next + 1))
    ensures !ts[c].IsNumber() && !ts[c].IsIdent() && !IsChar(ts[c], '(') ==> Primary(ts, c) == Ok(Parsed(None, c))
    ensures IsChar(ts[c], '(') ==>
              var e := Parsing.Expr(ts, c + 1);
              (e.Ok? && e.value.next < |ts| && !IsChar(ts[e.value.next], ')') ==> Primary(ts, c) == Ok(Parsed(None, e.value.next))) &&
              (e.OutOfTokens? || e.value.next == |ts| ==> Primary(ts, c).OutOfTokens?)
    ensures c + 1 < |ts| && IsChar(ts[c], '(') && IsChar(ts[c + 1], ')') ==> Primary(ts, c) == Ok(Parsed(None, c + 2))
    ensures ts[c].IsIdent() && c + 1 < |ts| && IsChar(ts[c + 1], '(') ==>
              var a := Arguments(ts, c + 2);
              (a.Ok? && !IsChar(ts[a.value.next], ')') ==> Primary(ts, c) == Ok(Parsed(None, a.value.next))) &&
              (a.OutOfTokens? ==> Primary(ts, c).OutOfTokens?)
  {
  }

  /**
   * Operator precedence: in `x o1 y o2 z` the second operator binds first
   * exactly when its precedence is strictly higher; operators of equal
   * precedence group to the left.
   */
  lemma ThreeOperands(x: string, y: string, z: string, o1: char, o2: char)
    requires Support(o1) && Support(o2)
    ensures var ts := [FromText(Number, x), FromChar(o1), FromText(Number, y), FromChar(o2), FromText(Number, z)];
            var grouped :=
              if Get(o1) < Get(o2)
              then Binary(o1, Some(Num(x)), Some(Binary(o2, Some(Num(y)), Some(Num(z)))))
              else Binary(o2, Some(Binary(o1, Some(Num(x)), Some(Num(y)))), Some(Num(z)));
            Parsing.Expr(ts, 0) == Ok(Parsed(Some(grouped), 5))
  {
    var ts := [FromText(Number, x), FromChar(o1), FromText(Number, y), FromChar(o2), FromText(Number, z)];
    var p1, p2 := Get(o1), Get(o2);
    assert Primary(ts, 0) == Ok(Parsed(Some(Num(x)), 1));
    assert Primary(ts, 2) == Ok(Parsed(Some(Num(y)), 3));
    assert Primary(ts, 4) == Ok(Parsed(Some(Num(z)), 5));
    assert !TighterAt(ts, 5, p2) && !TighterAt(ts, 5, p1);
    if p1 < p2 {
      var inner := Binary(o2, Some(Num(y)), Some(Num(z)));
      assert BinRhs(ts, 5, p1 + 1, Some(inner)) == Ok(Parsed(Some(inner), 5));
      assert BinRhs(ts, 3, p1 + 1, Some(Num(y))) == Ok(Parsed(Some(inner), 5));
      var outer := Binary(o1, Some(Num(x)), Some(inner));
      assert BinRhs(ts, 5, 0, Some(outer)) == Ok(Parsed(Some(outer), 5));
      assert BinRhs(ts, 1, 0, Some(Num(x))) == Ok(Parsed(Some(outer), 5));
    } else {
      var left := Binary(o1, Some(Num(x)), Some(Num(y)));
      var outer := Binary(o2, Some(left), Some(Num(z)));
      assert BinRhs(ts, 5, 0, Some(outer)) == Ok(Parsed(Some(outer), 5));
      assert BinRhs(ts, 3, 0, Some(left)) == Ok(Parsed(Some(outer), 5));
      assert BinRhs(ts, 1, 0, Some(Num(x))) == Ok(Parsed(Some(outer), 5));
    }
  }

  /** The tokens of `1 + 2 * 3` group as `1 + (2 * 3)`, and those of `4 - 2 - 1` as `(4 - 2) - 1`. */
  lemma PrecedenceExamples()
    ensures Parsing.Expr([FromText(Number, "1"), FromChar('+'), FromText(Number, "2"), FromChar('*'), FromText(Number, "3")], 0)
            == Ok(Parsed(Some(Binary('+', Some(Num("1")), Some(Binary('*', Some(Num("2")), Some(Num("3")))))), 5))
    ensures Parsing.Expr([FromText(Number, "4"), FromChar('-'), FromText(Number, "2"), FromChar('-'), FromText(Number, "1")], 0)
            == Ok(Parsed(Some(Binary('-', Some(Binary('-', Some(Num("4")), Some(Num("2")))), Some(Num("1")))), 5))
  {
    ThreeOperands("1", "2", "3", '+', '*');
    ThreeOperands("4", "2", "1", '-', '-');
  }

  /**
   * A top-level expression becomes a function with no parameters whose name
   * is `__anon_expr_` followed by ten alphanumeric characters, one `rand()`
   * call each, and whose body is the expression parsed at the cursor, after
   * which the cursor is left.
   */
  lemma AnonymousFunction(ts: seq<Token>, c: nat, rand: nat -> nat, draws: nat)
    requires c < |ts| && !ts[c].IsDef() && !ts[c].IsExtern()
    ensures var r := TopItem(ts, c, rand, draws);
            r.Ok? ==>
              r.value.draws == draws + 10 &&
              r.value.node.FunctionNode? && r.value.node.fn.proto.Some? &&
              var proto := r.value.node.fn.proto.value;
              proto.params == [] &&
              |proto.name| == |AnonPrefix| + 10 && proto.name[..|AnonPrefix|] == AnonPrefix &&
              forall i | |AnonPrefix| <= i < |proto.name| :: IsAlphanumeric(proto.name[i])
    ensures var r, e := TopItem(ts, c, rand, draws), Parsing.Expr(ts, c);
            (r.Ok? <==> e.Ok?) &&
            (r.Ok? ==> r.value.node.FunctionNode? && r.value.node.fn.body == e.value.node && r.value.next == e.value.next)
  {
    var suffix := RandomString(10, rand, draws);
    var name := AnonPrefix + suffix;
    var t := Toplevel(ts, c, suffix);
    assert TopItem(ts, c, rand, draws) == if t.Ok? then Ok(Item(FunctionNode(t.value.node), t.value.next, draws + 10)) else OutOfTokens;
    assert name[..|AnonPrefix|] == AnonPrefix;
    assert forall i | |AnonPrefix| <= i < |name| :: name[i] == suffix[i - |AnonPrefix|];
  }

  /**
   * `def` and `extern` draw no random name: a definition always becomes a
   * function node holding what `ParseDefinition` built, and an external
   * declaration becomes its prototype, or the null node when there is none;
   * either way the cursor is left where that parser stopped.
   */
  lemma KeywordItems(ts: seq<Token>, c: nat, rand: nat -> nat, draws: nat)
    requires c < |ts|
    ensures var r, d := TopItem(ts, c, rand, draws), Definition(ts, c);
            ts[c].IsDef() ==>
              (r.Ok? <==> d.Ok?) &&
              (r.Ok? ==> d.value.node.Some? && r.value == Item(FunctionNode(d.value.node.value), d.value.next, draws))
    ensures var r, x := TopItem(ts, c, rand, draws), Parsing.Extern(ts, c);
            ts[c].IsExtern() ==>
              (r.Ok? <==> x.Ok?) &&
              (r.Ok? ==> r.value == Item(if x.value.node.Some? then PrototypeNode(x.value.node.value) else NullNode, x.value.next, draws))
  {
  }

  /** An expression that consumes no token is null: neither a primary nor an operator was read. */
  lemma ExprNothingIsNull(ts: seq<Token>, c: nat)
    requires c <= |ts|
    ensures var e := Parsing.Expr(ts, c);
            e.Ok? && e.value.next == c ==> e.value.node.None?
  {
    var p := Primary(ts, c);
    if p.Ok? {
      var b := BinRhs(ts, p.value.next, 0, p.value.node);
      assert Parsing.Expr(ts, c) == b;
      if b.Ok? && b.value.next == c {
        assert !OperatorAt(ts, p.value.next, 0);
      }
    }
  }

  /**
   * Only a top-level expression can stall `Run`: a `def` or an `extern`
   * always consumes its keyword.  The run stalls at a token other than
   * `def`, `extern` and `;` where the expression parsed consumes nothing, and
   * the last node appended is an anonymous function with a null body.
   */
  lemma {:induction false} OnlyExpressionsStall(ts: seq<Token>, c: nat, rand: nat -> nat, draws: nat)
    requires c <= |ts|
    ensures var r := Program(ts, c, rand, draws);
            r.end == Stalled ==>
              |r.nodes| > 0 && r.nodes[|r.nodes| - 1].FunctionNode? && r.nodes[|r.nodes| - 1].fn.body.None? &&
              exists k | c <= k < |ts| ::
                !ts[k].IsDef() && !ts[k].IsExtern() && !IsChar(ts[k], ';') && Parsing.Expr(ts, k) == Ok(Parsed(None, k))
    decreases |ts| - c
  {
    if c == |ts| {
    } else if IsChar(ts[c], ';') {
      OnlyExpressionsStall(ts, c + 1, rand, draws);
    } else {
      ProgramStep(ts, c, rand, draws);
      var t := TopItem(ts, c, rand, draws);
      if t.Ok? && t.value.next == c {
        StallHere(ts, c, rand, draws);
      } else if t.Ok? {
        OnlyExpressionsStall(ts, t.value.next, rand, t.value.draws);
        var rest := Program(ts, t.value.next, rand, t.value.draws);
        if rest.end == Stalled {
          StallLater(t.value.node, rest.nodes);
        }
      }
    }
  }

  /** The round of `Run` that stalls: a top-level expression that consumes nothing, appended with a null body. */
  lemma StallHere(ts: seq<Token>, c: nat, rand: nat -> nat, draws: nat)
    requires c < |ts| && !IsChar(ts[c], ';')
    requires TopItem(ts, c, rand, draws).Ok? && TopItem(ts, c, rand, draws).value.next == c
    ensures !ts[c].IsDef() && !ts[c].IsExtern() && Parsing.Expr(ts, c) == Ok(Parsed(None, c))
    ensures var n := TopItem(ts, c, rand, draws).value.node; n.FunctionNode? && n.fn.body.None?
  {
    AnonymousFunction(ts, c, rand, draws);
    ExprNothingIsNull(ts, c);
  }

  /** Putting a node in front keeps the last node. */
  lemma StallLater(n: Node, rest: seq<Node>)
    requires |rest| > 0
    ensures ([n] + rest)[|rest|] == rest[|rest| - 1]
  {
  }

  /** When `Run` finishes it has appended at most one node per token. */
  lemma {:induction false} FinishedBound(ts: seq<Token>, c: nat, rand: nat -> nat, draws: nat)
    requires c <= |ts|
    ensures var r := Program(ts, c, rand, draws);
            r.end == Finished ==> |r.nodes| <= |ts| - c
    decreases |ts| - c
  {
    if c < |ts| {
      if Equal(ts[c], FromChar(';')) {
        FinishedBound(ts, c + 1, rand, draws);
      } else {
        var it := TopItem(ts, c, rand, draws);
        if it.Ok? && it.value.next > c {
          FinishedBound(ts, it.value.next, rand, it.value.draws);
        }
      }
    }
  }

  /** A run of top-level `;` appends nothing. */
  lemma {:induction false} SemicolonsOnly(ts: seq<Token>, c: nat, rand: nat -> nat, draws: nat)
    requires c <= |ts|
    requires forall i | c <= i < |ts| :: IsChar(ts[i], ';')
    ensures Program(ts, c, rand, draws) == RunResult([], Finished)
    decreases |ts| - c
  {
    if c < |ts| {
      SemicolonsOnly(ts, c + 1, rand, draws);
    }
  }

  /** The tokens `extern` `sin` `(` `x` `)` declare the prototype `sin(x)`. */
  lemma ExternExample(rand: nat -> nat)
    ensures Program([FromText(Extern, "extern"), FromText(Ident, "sin"), FromChar('('), FromText(Ident, "x"), FromChar(')')], 0, rand, 0)
            == RunResult([PrototypeNode(Prototype("sin", ["x"]))], Finished)
  {
    var ts := [FromText(Extern, "extern"), FromText(Ident, "sin"), FromChar('('), FromText(Ident, "x"), FromChar(')')];
    assert Params(ts, 3) == Ok(Parsed(["x"], 5));
    assert ProtoAt(ts, 1) == Ok(Parsed(Some(Prototype("sin", ["x"])), 5));
    assert TopItem(ts, 0, rand, 0) == Ok(Item(PrototypeNode(Prototype("sin", ["x"])), 5, 0));
  }

  /** The tokens `def` `bar` `(` `a` `)` `a` `+` `100` define `bar` with body `a + 100`. */
  lemma DefinitionExample(rand: nat -> nat)
    ensures var ts := [FromText(Def, "def"), FromText(Ident, "bar"), FromChar('('), FromText(Ident, "a"), FromChar(')'),
                       FromText(Ident, "a"), FromChar('+'), FromText(Number, "100")];
            Program(ts, 0, rand, 0)
            == RunResult([FunctionNode(FunctionDef(Some(Prototype("bar", ["a"])), Some(Binary('+', Some(Var("a")), Some(Num("100"))))))], Finished)
  {
    var ts := [FromText(Def, "def"), FromText(Ident, "bar"), FromChar('('), FromText(Ident, "a"), FromChar(')'),
               FromText(Ident, "a"), FromChar('+'), FromText(Number, "100")];
    var body := Binary('+', Some(Var("a")), Some(Num("100")));
    assert Params(ts, 3) == Ok(Parsed(["a"], 5));
    assert ProtoAt(ts, 1) == Ok(Parsed(Some(Prototype("bar", ["a"])), 5));
    assert Primary(ts, 5) == Ok(Parsed(Some(Var("a")), 6));
    assert Primary(ts, 7) == Ok(Parsed(Some(Num("100")), 8));
    assert BinRhs(ts, 8, 0, Some(body)) == Ok(Parsed(Some(body), 8));
    assert BinRhs(ts, 6, 0, Some(Var("a"))) == Ok(Parsed(Some(body), 8));
    assert Parsing.Expr(ts, 5) == Ok(Parsed(Some(body), 8));
    assert TopItem(ts, 0, rand, 0) == Ok(Item(FunctionNode(FunctionDef(Some(Prototype("bar", ["a"])), Some(body))), 8, 0));
  }

  /**
   * The tokens `foo` `(` `1` `,` `2` `)` form a call whose arguments are the
   * expressions between the commas, in order.
   */
  lemma TwoArgumentCall()
    ensures var ts := [FromText(Ident, "foo"), FromChar('('), FromText(Number, "1"), FromChar(','), FromText(Number, "2"), FromChar(')')];
            Parsing.Expr(ts, 0) == Ok(Parsed(Some(Call("foo", [Some(Num("1")), Some(Num("2"))])), 6))
  {
    var ts := [FromText(Ident, "foo"), FromChar('('), FromText(Number, "1"), FromChar(','), FromText(Number, "2"), FromChar(')')];
    assert Parsing.Expr(ts, 2) == Ok(Parsed(Some(Num("1")), 3)) by {
      assert Primary(ts, 2) == Ok(Parsed(Some(Num("1")), 3));
      assert !OperatorAt(ts, 3, 0);
    }
    assert Parsing.Expr(ts, 4) == Ok(Parsed(Some(Num("2")), 5)) by {
      assert Primary(ts, 4) == Ok(Parsed(Some(Num("2")), 5));
      assert !OperatorAt(ts, 5, 0);
    }
    assert ArgumentList(ts, 4) == Ok(Parsed([Some(Num("2"))], 5));
    assert [Some(Num("1"))] + [Some(Num("2"))] == [Some(Num("1")), Some(Num("2"))];
    assert ArgumentList(ts, 2) == Ok(Parsed([Some(Num("1")), Some(Num("2"))], 5));
    assert Primary(ts, 0) == Ok(Parsed(Some(Call("foo", [Some(Num("1")), Some(Num("2"))])), 6));
  }

  /**
   * The tokens `foo` `(` `1` `,`: after the comma the argument loop parses an
   * expression at the end of the tokens and dereferences the missing token
   * that follows it.
   */
  lemma TrailingCommaCrashes(rand: nat -> nat)
    ensures Program([FromText(Ident, "foo"), FromChar('('), FromText(Number, "1"), FromChar(',')], 0, rand, 0)
            == RunResult([], Crashed)
  {
    var ts := [FromText(Ident, "foo"), FromChar('('), FromText(Number, "1"), FromChar(',')];
    assert Parsing.Expr(ts, 2) == Ok(Parsed(Some(Num("1")), 3)) by {
      assert Primary(ts, 2) == Ok(Parsed(Some(Num("1")), 3));
      assert !OperatorAt(ts, 3, 0);
    }
    assert Parsing.Expr(ts, 4) == Ok(Parsed(None, 4));
    assert ArgumentList(ts, 2) == OutOfTokens;
    assert Primary(ts, 0) == OutOfTokens;
  }

  /** The tokens `def` `1`: with no prototype the definition node is still built, with a null prototype. */
  lemma DefinitionWithoutPrototype(rand: nat -> nat)
    ensures Program([FromText(Def, "def"), FromText(Number, "1")], 0, rand, 0)
            == RunResult([FunctionNode(FunctionDef(None, Some(Num("1"))))], Finished)
  {
    var ts := [FromText(Def, "def"), FromText(Number, "1")];
    assert ProtoAt(ts, 1) == Ok(Parsed(None, 1));
    assert Parsing.Expr(ts, 1) == Ok(Parsed(Some(Num("1")), 2));
  }

  /** `def` as the last token: `ParsePrototype` dereferences the missing token. */
  lemma DefinitionAtEnd(rand: nat -> nat)
    ensures Program([FromText(Def, "def")], 0, rand, 0) == RunResult([], Crashed)
  {
  }

  /**
   * A lone `)` is a top-level expression that consumes nothing: the C++
   * never stops appending anonymous functions with this null body, each
   * under a newly drawn name.
   */
  lemma StrayParenthesisStalls(rand: nat -> nat)
    ensures Program([FromChar(')')], 0, rand, 0)
            == RunResult([FunctionNode(FunctionDef(Some(Prototype(AnonPrefix + RandomString(10, rand, 0), [])), None))], Stalled)
  {
    var ts := [FromChar(')')];
    assert Primary(ts, 0) == Ok(Parsed(None, 0));
  }

  /**
   * Parameters are not comma-separated: in the tokens `extern` `f` `(` `x` `,`
   * `y` `)` the prototype stops at the comma, which is then parsed as a
   * top-level expression that consumes nothing.
   */
  lemma CommaInPrototypeStalls(rand: nat -> nat)
    ensures var ts := [FromText(Extern, "extern"), FromText(Ident, "f"), FromChar('('), FromText(Ident, "x"), FromChar(','),
                       FromText(Ident, "y"), FromChar(')')];
            Program(ts, 0, rand, 0)
            == RunResult([PrototypeNode(Prototype("f", ["x"])),
                          FunctionNode(FunctionDef(Some(Prototype(AnonPrefix + RandomString(10, rand, 0), [])), None))], Stalled)
  {
    var ts := [FromText(Extern, "extern"), FromText(Ident, "f"), FromChar('('), FromText(Ident, "x"), FromChar(','),
               FromText(Ident, "y"), FromChar(')')];
    assert Params(ts, 4) == Ok(Parsed([], 4));
    assert [ts[3].GetContent()] + [] == ["x"];
    assert Params(ts, 3) == Ok(Parsed(["x"], 4));
    assert ProtoAt(ts, 1) == Ok(Parsed(Some(Prototype("f", ["x"])), 4));
    assert TopItem(ts, 0, rand, 0) == Ok(Item(PrototypeNode(Prototype("f", ["x"])), 4, 0));
    assert Primary(ts, 4) == Ok(Parsed(None, 4));
    assert Program(ts, 4, rand, 0)
           == RunResult([FunctionNode(FunctionDef(Some(Prototype(AnonPrefix + RandomString(10, rand, 0), [])), None))], Stalled);
  }

  /** A one-digit number followed by a space, from the lexer state just after the digit. */
  lemma SingleDigit(s: string, p: nat)
    requires 0 < p < |s| && s[p] == ' ' && Lexing.IsDigit(s[p - 1])
    ensures Lexing.Lex(s, p, s[p - 1]) == [FromText(Number, [s[p - 1]])] + Lexing.Lex(s, p + 1, ' ')
  {
    Lexing.SpanEndUnique(s, p, Lexing.ValidInNumber, p);
    Lexing.NumberToken(s, p, s[p - 1]);
    assert [s[p - 1]] + s[p..p] == [s[p - 1]];
  }

  /** An operator between two spaces, from the lexer state at the first space. */
  lemma SpacedOperator(s: string, p: nat, op: char)
    requires 0 < p && p + 2 < |s| && s[p - 1] == ' ' && s[p] == op && s[p + 1] == ' ' && !Lexing.IsSpace(op) && !Lexing.IsAlnum(op) && op != '#'
    ensures Lexing.Lex(s, p, ' ') == [FromChar(op)] + Lexing.Lex(s, p + 3, s[p + 2])
  {
    Lexing.SpaceSkipped(s, p, ' ');
    Lexing.UnknownEmitted(s, p + 1, op);
    Lexing.SpaceSkipped(s, p + 2, ' ');
  }

  /** A one-digit number followed by a spaced operator, from the lexer state after the digit. */
  lemma {:induction false} DigitThenOperator(s: string, p: nat, op: char)
    requires 0 < p && p + 3 < |s| && Lexing.IsDigit(s[p - 1]) && s[p] == ' ' && s[p + 1] == op && s[p + 2] == ' '
    requires !Lexing.IsSpace(op) && !Lexing.IsAlnum(op) && op != '#'
    ensures Lexing.Lex(s, p, s[p - 1]) == [FromText(Number, [s[p - 1]]), FromChar(op)] + Lexing.Lex(s, p + 4, s[p + 3])
  {
    var number, rest := FromText(Number, [s[p - 1]]), Lexing.Lex(s, p + 4, s[p + 3]);
    var middle := Lexing.Lex(s, p + 1, ' ');
    assert Lexing.Lex(s, p, s[p - 1]) == [number] + middle by { SingleDigit(s, p); }
    assert middle == [FromChar(op)] + rest by { SpacedOperator(s, p + 1, op); }
    assert [number] + ([FromChar(op)] + rest) == [number, FromChar(op)] + rest;
  }

  /** The tail `2 * 3` of `"1 + 2 * 3\n"`, from the lexer state after `+`. */
  lemma SpacedTail(s: string)
    requires s == "1 + 2 * 3\n"
    ensures Lexing.Lex(s, 5, '2') == [FromText(Number, "2"), FromChar('*'), FromText(Number, "3")]
  {
    assert s[4] == '2' && [s[4]] == "2" && s[5] == ' ' && s[6] == '*' && s[7] == ' ' && s[8] == '3';
    DigitThenOperator(s, 5, '*');
    Lexing.SpanEndUnique(s, 9, Lexing.ValidInNumber, 9);
    Lexing.NumberToken(s, 9, '3');
    assert [s[8]] + s[9..9] == "3";
  }

  /** Lexing `"1 + 2 * 3\n"`: spaces separate the numbers from the operators, and the final newline lets the `3` be read. */
  lemma SpacedTokens(s: string)
    requires s == "1 + 2 * 3\n"
    ensures Lexing.Tokenize(s)
            == [FromText(Number, "1"), FromChar('+'), FromText(Number, "2"), FromChar('*'), FromText(Number, "3")]
  {
    assert s[0] == '1' && [s[0]] == "1" && s[1] == ' ' && s[2] == '+' && s[3] == ' ' && s[4] == '2';
    assert Lexing.Tokenize(s) == Lexing.Lex(s, 1, '1');
    DigitThenOperator(s, 1, '+');
    SpacedTail(s);
    var head, tail := [FromText(Number, "1"), FromChar('+')], [FromText(Number, "2"), FromChar('*'), FromText(Number, "3")];
    assert head + tail == [FromText(Number, "1"), FromChar('+'), FromText(Number, "2"), FromChar('*'), FromText(Number, "3")];
  }

  /** Lexing and parsing `"1 + 2 * 3\n"`: the product is the right operand of the sum. */
  lemma SpacedExpression(s: string)
    requires s == "1 + 2 * 3\n"
    ensures Parsing.Expr(Lexing.Tokenize(s), 0)
            == Ok(Parsed(Some(Binary('+', Some(Num("1")), Some(Binary('*', Some(Num("2")), Some(Num("3")))))), 5))
  {
    SpacedTokens(s);
    PrecedenceExamples();
  }

  /** The number `1+2` that starts `"1+2*3\n"`. */
  lemma UnspacedHead(s: string)
    requires s == "1+2*3\n"
    ensures Lexing.Lex(s, 1, '1') == [FromText(Number, "1+2")] + Lexing.Lex(s, 4, '*')
  {
    Lexing.SpanEndUnique(s, 1, Lexing.ValidInNumber, 3);
    Lexing.NumberToken(s, 1, '1');
    assert [s[0]] + s[1..3] == "1+2";
  }

  /** The tail `*3` of `"1+2*3\n"`. */
  lemma UnspacedTail(s: string)
    requires s == "1+2*3\n"
    ensures Lexing.Lex(s, 4, '*') == [FromChar('*'), FromText(Number, "3")]
  {
    Lexing.UnknownEmitted(s, 4, '*');
    Lexing.SpanEndUnique(s, 5, Lexing.ValidInNumber, 5);
    Lexing.NumberToken(s, 5, '3');
    assert [s[4]] + s[5..5] == "3";
  }

  /**
   * Without spaces, `+` and `-` are absorbed into the number before them:
   * `"1+2*3\n"` lexes as the number `1+2`, then `*`, then `3`.
   */
  lemma UnspacedTokens(s: string)
    requires s == "1+2*3\n"
    ensures Lexing.Tokenize(s) == [FromText(Number, "1+2"), FromChar('*'), FromText(Number, "3")]
  {
    UnspacedHead(s);
    UnspacedTail(s);
  }

  /** So `"1+2*3\n"` parses as the product of the number token `1+2` and `3`. */
  lemma UnspacedExpression(s: string)
    requires s == "1+2*3\n"
    ensures Parsing.Expr(Lexing.Tokenize(s), 0)
            == Ok(Parsed(Some(Binary('*', Some(Num("1+2")), Some(Num("3")))), 3))
  {
    UnspacedTokens(s);
    var ts := [FromText(Number, "1+2"), FromChar('*'), FromText(Number, "3")];
    var product := Binary('*', Some(Num("1+2")), Some(Num("3")));
    assert Primary(ts, 0) == Ok(Parsed(Some(Num("1+2")), 1));
    assert Primary(ts, 2) == Ok(Parsed(Some(Num("3")), 3));
    assert BinRhs(ts, 3, 0, Some(product)) == Ok(Parsed(Some(product), 3));
    assert BinRhs(ts, 1, 0, Some(Num("1+2"))) == Ok(Parsed(Some(product), 3));
  }
}
