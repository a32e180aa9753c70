/**
 * The parsing half of `ASTGenerator`, as functions of the token list and the
 * cursor `cur`.  Each routine returns the node it builds with the cursor it
 * leaves behind, or `OutOfTokens` where the C++ dereferences an exhausted
 * `CurrentToken()`.  The class `Generation.ASTGenerator` is proved to do
 * exactly what these functions say.
 */
module Parsing {
  import opened Wrappers
  import opened Tokens
  import opened Precedence
  import opened Syntax
  import opened Utils

  /** A routine's result together with the cursor it returns with. */
  datatype Parsed<T> = Parsed(node: T, next: nat)

  /** Pair a method's result with the cursor it left behind. */
  function Located<T>(r: Outcome<T>, cur: nat): Outcome<Parsed<T>> {
    match r
    case Ok(v) => Ok(Parsed(v, cur))
    case OutOfTokens => OutOfTokens
  }

  /** Put the elements already collected in front of those still to come. */
  function Prepend<T>(front: seq<T>, r: Outcome<Parsed<seq<T>>>): Outcome<Parsed<seq<T>>> {
    match r
    case Ok(p) => Ok(Parsed(front + p.node, p.next))
    case OutOfTokens => OutOfTokens
  }

  lemma PrependNothing<T>(r: Outcome<Parsed<seq<T>>>)
    ensures Prepend([], r) == r
  {
    if r.Ok? {
      assert [] + r.value.node == r.value.node;
    }
  }

  lemma PrependTwice<T>(a: seq<T>, b: seq<T>, r: Outcome<Parsed<seq<T>>>)
    ensures Prepend(a, Prepend(b, r)) == Prepend(a + b, r)
  {
    if r.Ok? {
      assert a + (b + r.value.node) == (a + b) + r.value.node;
    }
  }

  /** `CurrentToken()` at `cur == i`, and `NextToken()` at `cur == i - 1`: null past the end. */
  function TokenAt(ts: seq<Token>, i: nat): (t: Option<Token>)
    ensures t.Some? <==> i < |ts|
    ensures t.Some? ==> t.value == ts[i]
  {
    if i < |ts| then Some(ts[i]) else None
  }

  /** The test that opens `ParseBinRhs`: an `Unknown` token with a supported operator of at least `prec`. */
  predicate OperatorAt(ts: seq<Token>, i: nat, prec: int) {
    i < |ts| && ts[i].IsUnknown() && Support(ts[i].GetChar()) && Get(ts[i].GetChar()) >= prec
  }

  /** The lookahead of `ParseBinRhs`: the token at `i` is an operator binding tighter than `prec`. */
  predicate TighterAt(ts: seq<Token>, i: nat, prec: int) {
    i < |ts| && ts[i].IsUnknown() && Support(ts[i].GetChar()) && prec < Get(ts[i].GetChar())
  }

  /** `ParsePrimary`. */
  function Primary(ts: seq<Token>, c: nat): (r: Outcome<Parsed<Option<Expr>>>)
    requires c <= |ts|
    ensures r.Ok? ==> c <= r.value.next <= |ts|
    ensures r.Ok? && r.value.node.Some? ==> r.value.next > c
    ensures r.Ok? && r.value.next == c ==> r.value.node.None?
    decreases |ts| - c, 1
  {
    if c == |ts| then Ok(Parsed(None, c))
    else
      var t := ts[c];
      if t.IsNumber() then Ok(Parsed(Some(Num(t.GetContent())), c + 1))
      else if t.IsUnknown() && t.GetChar() == '(' then
        var e :- Expr(ts, c + 1);
        if e.next == |ts| then OutOfTokens
        else if NotEqual(ts[e.next], FromChar(')')) then Ok(Parsed(None, e.next))
        else Ok(Parsed(e.node, e.next + 1))
      else if t.IsIdent() then
        if c + 1 < |ts| && Equal(ts[c + 1], FromChar('(')) then
          var a :- Arguments(ts, c + 2);
          if a.next == |ts| then OutOfTokens
          else if NotEqual(ts[a.next], FromChar(')')) then Ok(Parsed(None, a.next))
          else Ok(Parsed(Some(Call(t.GetContent(), a.node)), a.next + 1))
        else Ok(Parsed(Some(Var(t.GetContent())), c + 1))
      else Ok(Parsed(None, c))
  }

  /** `ParseExpr`: a primary, then the binary operators that follow it from precedence 0. */
  function Expr(ts: seq<Token>, c: nat): (r: Outcome<Parsed<Option<Expr>>>)
    requires c <= |ts|
    ensures r.Ok? ==> c <= r.value.next <= |ts|
    decreases |ts| - c, 2
  {
    var p :- Primary(ts, c);
    BinRhs(ts, p.next, 0, p.node)
  }

  /** `ParseBinRhs`: precedence climbing from `lhs` with minimum precedence `prec`. */
  function BinRhs(ts: seq<Token>, c: nat, prec: int, lhs: Option<Expr>): (r: Outcome<Parsed<Option<Expr>>>)
    requires c <= |ts|
    ensures r.Ok? ==> c <= r.value.next <= |ts|
    ensures r.Ok? ==> (r.value.next > c <==> OperatorAt(ts, c, prec))
    ensures !OperatorAt(ts, c, prec) ==> r == Ok(Parsed(lhs, c))
    ensures r.Ok? ==> !OperatorAt(ts, r.value.next, prec)
    ensures r.Ok? && OperatorAt(ts, c, prec) ==> r.value.node.Some? && r.value.node.value.Binary?
    decreases |ts| - c, 1
  {
    if !OperatorAt(ts, c, prec) then Ok(Parsed(lhs, c))
    else
      var op := ts[c].GetChar();
      var opPrec := Get(op);
      var rhs :- Primary(ts, c + 1);
      var rhs' :- if TighterAt(ts, rhs.next, opPrec)
                  then BinRhs(ts, rhs.next, opPrec + 1, rhs.node)
                  else Ok(rhs);
      BinRhs(ts, rhs'.next, prec, Some(Binary(op, lhs, rhs'.node)))
  }

  /** `ParseArguments`: empty at `)`, otherwise a comma-separated list. */
  function Arguments(ts: seq<Token>, c: nat): (r: Outcome<Parsed<seq<Option<Expr>>>>)
    requires c <= |ts|
    ensures r.Ok? ==> c <= r.value.next < |ts| && NotEqual(ts[r.value.next], FromChar(','))
    ensures r.Ok? ==> (r.value.node == [] <==> Equal(ts[c], FromChar(')')))
    ensures c == |ts| ==> r.OutOfTokens?
    ensures c < |ts| && Equal(ts[c], FromChar(')')) ==> r == Ok(Parsed([], c))
    ensures c < |ts| && NotEqual(ts[c], FromChar(')')) ==> r == ArgumentList(ts, c)
    decreases |ts| - c, 4
  {
    if c == |ts| then OutOfTokens
    else if Equal(ts[c], FromChar(')')) then Ok(Parsed([], c))
    else ArgumentList(ts, c)
  }

  /**
   * The `while (true)` loop of `ParseArguments` from cursor `c`: each round
   * parses one expression; a `,` after it starts the next round, and any
   * other token, `)` included, ends the loop without being consumed.
   */
  function ArgumentList(ts: seq<Token>, c: nat): (r: Outcome<Parsed<seq<Option<Expr>>>>)
    requires c <= |ts|
    ensures r.Ok? ==> c <= r.value.next < |ts| && NotEqual(ts[r.value.next], FromChar(','))
    ensures r.Ok? ==> |r.value.node| >= 1
    decreases |ts| - c, 3
  {
    var e :- Expr(ts, c);
    if e.next == |ts| then OutOfTokens
    else if Equal(ts[e.next], FromChar(')')) then Ok(Parsed([e.node], e.next))
    else if Equal(ts[e.next], FromChar(',')) then
      var rest :- ArgumentList(ts, e.next + 1);
      Ok(Parsed([e.node] + rest.node, rest.next))
    else Ok(Parsed([e.node], e.next))
  }

  /**
   * What the argument loop collects: the expression parsed at the cursor,
   * then, after a `,`, the arguments of the next round; any other token
   * after the expression ends the list with that one argument.  It fails
   * where that expression fails or where no token follows it.
   */
  lemma ArgumentListContents(ts: seq<Token>, c: nat)
    requires c <= |ts|
    ensures var e := Expr(ts, c);
            e.Ok? && e.value.next < |ts| ==>
              ArgumentList(ts, c) == if Equal(ts[e.value.next], FromChar(','))
                                     then Prepend([e.value.node], ArgumentList(ts, e.value.next + 1))
                                     else Ok(Parsed([e.value.node], e.value.next))
    ensures var e := Expr(ts, c);
            e.Ok? && e.value.next == |ts| ==> ArgumentList(ts, c).OutOfTokens?
    ensures var r, e := ArgumentList(ts, c), Expr(ts, c);
            (e.OutOfTokens? ==> r.OutOfTokens?) &&
            (r.Ok? ==>
               e.Ok? && e.value.next < |ts| && r.value.node[0] == e.value.node &&
               (NotEqual(ts[e.value.next], FromChar(',')) ==> r.value == Parsed([e.value.node], e.value.next)) &&
               (Equal(ts[e.value.next], FromChar(',')) ==>
                  var rest := ArgumentList(ts, e.value.next + 1);
                  rest.Ok? && r.value.node[1..] == rest.value.node && r.value.next == rest.value.next))
  {
    var r, e := ArgumentList(ts, c), Expr(ts, c);
    if r.Ok? && Equal(ts[e.value.next], FromChar(',')) {
      var rest := ArgumentList(ts, e.value.next + 1);
      assert r == Ok(Parsed([e.value.node] + rest.value.node, rest.value.next));
    }
  }

  /**
   * The parameter loop of `ParsePrototype` from cursor `c`: a run of
   * identifiers with no separators; a `)` right after one ends the run and is consumed.
   */
  function Params(ts: seq<Token>, c: nat): (r: Outcome<Parsed<seq<string>>>)
    requires c <= |ts|
    ensures r.Ok? ==> c + |r.value.node| <= r.value.next <= c + |r.value.node| + 1 <= |ts|
    ensures r.Ok? ==> forall i | c <= i < c + |r.value.node| :: ts[i].IsIdent() && ts[i].GetContent() == r.value.node[i - c]
    ensures r.Ok? && r.value.next == c + |r.value.node| ==> r.value.next < |ts| && !ts[r.value.next].IsIdent()
    ensures r.Ok? && r.value.next == c + |r.value.node| + 1 ==> |r.value.node| > 0 && Equal(ts[r.value.next - 1], FromChar(')'))
    ensures r.Ok? && |r.value.node| > 0 && r.value.next == c + |r.value.node| ==> NotEqual(ts[r.value.next], FromChar(')'))
    decreases |ts| - c
  {
    if c == |ts| then OutOfTokens
    else if !ts[c].IsIdent() then Ok(Parsed([], c))
    else if c + 1 == |ts| then OutOfTokens
    else if Equal(ts[c + 1], FromChar(')')) then Ok(Parsed([ts[c].GetContent()], c + 2))
    else
      match Params(ts, c + 1)
      case OutOfTokens => OutOfTokens
      case Ok(rest) =>
        var names := [ts[c].GetContent()] + rest.node;
        assert forall i | 1 <= i < |names| :: names[i] == rest.node[i - 1];
        Ok(Parsed(names, rest.next))
  }

  /** The rounds of the parameter loop that end it. */
  lemma ParamsStop(ts: seq<Token>, c: nat)
    requires c <= |ts|
    ensures c == |ts| ==> Params(ts, c) == OutOfTokens
    ensures c < |ts| && !ts[c].IsIdent() ==> Params(ts, c) == Ok(Parsed([], c))
    ensures c + 1 == |ts| && ts[c].IsIdent() ==> Params(ts, c) == OutOfTokens
    ensures c + 1 < |ts| && ts[c].IsIdent() && Equal(ts[c + 1], FromChar(')')) ==>
              Params(ts, c) == Ok(Parsed([ts[c].GetContent()], c + 2))
  {
  }

  /** One round of the parameter loop that neither stops nor meets `)`. */
  lemma ParamsMore(ts: seq<Token>, c: nat)
    requires c + 1 < |ts| && ts[c].IsIdent() && !Equal(ts[c + 1], FromChar(')'))
    ensures Params(ts, c) == Prepend([ts[c].GetContent()], Params(ts, c + 1))
  {
  }

  /** `ParsePrototype`: `id '(' id* ')'`. */
  function ProtoAt(ts: seq<Token>, c: nat): (r: Outcome<Parsed<Option<Prototype>>>)
    requires c <= |ts|
    ensures r.Ok? ==> c <= r.value.next <= |ts|
    ensures r.Ok? ==> c < |ts|
    ensures r.Ok? && r.value.node.Some? ==> c < |ts| && ts[c].IsIdent() && r.value.node.value.name == ts[c].GetContent()
    ensures r.Ok? && r.value.node.Some? ==> c + 2 <= r.value.next && IsChar(ts[c + 1], '(')
    ensures r.Ok? && r.value.node.None? ==> r.value.next == if ts[c].IsIdent() then c + 1 else c
    ensures c + 1 < |ts| && ts[c].IsIdent() && Equal(ts[c + 1], FromChar('(')) && r.Ok? ==> r.value.node.Some?
    ensures c + 2 < |ts| && ts[c].IsIdent() && Equal(ts[c + 1], FromChar('(')) && Equal(ts[c + 2], FromChar(')')) ==>
              r == Ok(Parsed(Some(Prototype(ts[c].GetContent(), [])), c + 3))
    ensures c + 2 < |ts| && ts[c].IsIdent() && Equal(ts[c + 1], FromChar('(')) && NotEqual(ts[c + 2], FromChar(')')) ==>
              var ps := Params(ts, c + 2);
              r == if ps.Ok? then Ok(Parsed(Some(Prototype(ts[c].GetContent(), ps.value.node)), ps.value.next)) else OutOfTokens
    decreases |ts| - c
  {
    if c == |ts| then OutOfTokens
    else if !ts[c].IsIdent() then Ok(Parsed(None, c))
    else if c + 1 == |ts| then OutOfTokens
    else if NotEqual(ts[c + 1], FromChar('(')) then Ok(Parsed(None, c + 1))
    else if c + 2 == |ts| then OutOfTokens
    else if Equal(ts[c + 2], FromChar(')')) then Ok(Parsed(Some(Prototype(ts[c].GetContent(), [])), c + 3))
    else
      var ps :- Params(ts, c + 2);
      Ok(Parsed(Some(Prototype(ts[c].GetContent(), ps.node)), ps.next))
  }

  /** `ParseDefinition`: `def` prototype expression; the function node is built even if a part is null. */
  function Definition(ts: seq<Token>, c: nat): (r: Outcome<Parsed<Option<FunctionDef>>>)
    requires c <= |ts|
    ensures r.Ok? ==> c <= r.value.next <= |ts|
    ensures r.Ok? ==> c < |ts| && (r.value.node.Some? <==> ts[c].IsDef())
    ensures r.Ok? && r.value.node.Some? ==> r.value.next > c
  {
    if c == |ts| then OutOfTokens
    else if !ts[c].IsDef() then Ok(Parsed(None, c))
    else
      var proto :- ProtoAt(ts, c + 1);
      var body :- Expr(ts, proto.next);
      Ok(Parsed(Some(FunctionDef(proto.node, body.node)), body.next))
  }

  /**
   * What a definition is: the prototype parsed after `def` and the
   * expression parsed after that prototype, kept even when either is null;
   * it ends where the expression ends and fails where either part fails.
   */
  lemma DefinitionParts(ts: seq<Token>, c: nat)
    requires c < |ts| && ts[c].IsDef()
    ensures var d, p := Definition(ts, c), ProtoAt(ts, c + 1);
            (d.Ok? <==> p.Ok? && Expr(ts, p.value.next).Ok?) &&
            (d.Ok? ==>
               var body := Expr(ts, p.value.next).value;
               d.value == Parsed(Some(FunctionDef(p.value.node, body.node)), body.next))
  {
  }

  /** `ParseExtern`: consume `extern`, then a prototype. */
  function Extern(ts: seq<Token>, c: nat): (r: Outcome<Parsed<Option<Prototype>>>)
    requires c <= |ts|
    ensures r.Ok? ==> c <= r.value.next <= |ts|
    ensures r.Ok? && c < |ts| && ts[c].IsExtern() ==> r.value.next > c
    ensures c < |ts| && !ts[c].IsExtern() ==> r == Ok(Parsed(None, c))
    ensures c < |ts| && ts[c].IsExtern() ==> r == ProtoAt(ts, c + 1)
  {
    if c == |ts| then OutOfTokens
    else if !ts[c].IsExtern() then Ok(Parsed(None, c))
    else ProtoAt(ts, c + 1)
  }

  /** The prefix of every anonymous function's name. */
  const AnonPrefix: string := "__anon_expr_"

  /** `ParseToplevel`: the expression becomes the body of a nullary function named `AnonPrefix + suffix`. */
  function Toplevel(ts: seq<Token>, c: nat, suffix: string): (r: Outcome<Parsed<FunctionDef>>)
    requires c <= |ts|
    ensures r.Ok? ==> c <= r.value.next <= |ts|
  {
    var body :- Expr(ts, c);
    Ok(Parsed(FunctionDef(Some(Prototype(AnonPrefix + suffix, [])), body.node), body.next))
  }

  /** One top-level construct handled by `Run`: the node appended, the cursor after it, the `rand()` calls used. */
  datatype Item = Item(node: Node, next: nat, draws: nat)

  /** The `switch` of `Run` on the current token's type. */
  function TopItem(ts: seq<Token>, c: nat, rand: nat -> nat, draws: nat): (r: Outcome<Item>)
    requires c < |ts|
    ensures r.Ok? ==> c <= r.value.next <= |ts|
    ensures r.Ok? && (ts[c].IsDef() || ts[c].IsExtern()) ==> r.value.next > c
  {
    match ts[c].GetType()
    case Def =>
      var d :- Definition(ts, c);
      Ok(Item(if d.node.Some? then FunctionNode(d.node.value) else NullNode, d.next, draws))
    case Extern =>
      var e :- Extern(ts, c);
      Ok(Item(if e.node.Some? then PrototypeNode(e.node.value) else NullNode, e.next, draws))
    case _ =>
      var f :- Toplevel(ts, c, RandomString(10, rand, draws));
      Ok(Item(FunctionNode(f.node), f.next, draws + 10))
  }

  /**
   * How `Run` ends: the tokens are used up, a construct consumed nothing (the
   * C++ then keeps appending anonymous functions with the same body under
   * new names), or undefined behaviour.
   */
  datatype RunEnd = Finished | Stalled | Crashed

  datatype RunResult = RunResult(nodes: seq<Node>, end: RunEnd)

  /** One round of `Run` at a token other than `;`. */
  lemma ProgramStep(ts: seq<Token>, c: nat, rand: nat -> nat, draws: nat)
    requires c < |ts| && !Equal(ts[c], FromChar(';'))
    ensures match TopItem(ts, c, rand, draws)
            case OutOfTokens => Program(ts, c, rand, draws) == RunResult([], Crashed)
            case Ok(it) =>
              if it.next == c then Program(ts, c, rand, draws) == RunResult([it.node], Stalled)
              else var rest := Program(ts, it.next, rand, it.draws);
                   Program(ts, c, rand, draws) == RunResult([it.node] + rest.nodes, rest.end)
  {
  }

  /**
   * `Run` from cursor `c`: top-level `;` are skipped; every other construct
   * appends exactly one node.  Only a top-level expression can consume no
   * token; the C++ then parses it again and again, appending each time a new
   * anonymous function with the same body and a newly drawn name.  The model
   * records the first such node and ends with `Stalled`.
   */
  function Program(ts: seq<Token>, c: nat, rand: nat -> nat, draws: nat): (r: RunResult)
    requires c <= |ts|
    decreases |ts| - c
  {
    if c == |ts| then RunResult([], Finished)
    else if Equal(ts[c], FromChar(';')) then Program(ts, c + 1, rand, draws)
    else
      match TopItem(ts, c, rand, draws)
      case OutOfTokens => RunResult([], Crashed)
      case Ok(it) =>
        if it.next == c then RunResult([it.node], Stalled)
        else
          var rest := Program(ts, it.next, rand, it.draws);
          RunResult([it.node] + rest.nodes, rest.end)
  }
}
