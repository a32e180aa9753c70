/**
 * The AST node data: number, variable, binary and call expressions,
 * prototypes and function definitions.  A child that the C++ may store as a
 * null `shared_ptr` is an `Option`.
 */
module Syntax {
  import opened Wrappers
  import Precedence

  /** `NumberExprAST` keeps the token's raw text; its `double` value (`stod` of the text) is opaque here. */
  datatype Expr =
    | Num(text: string)
    | Var(name: string)
    | Binary(op: char, left: Option<Expr>, right: Option<Expr>)
    | Call(callee: string, args: seq<Option<Expr>>)

  /** `PrototypeAST`: a name and parameter names (duplicates are not rejected). */
  datatype Prototype = Prototype(name: string, params: seq<string>)

  /** `FunctionAST`: either part may be null. */
  datatype FunctionDef = FunctionDef(proto: Option<Prototype>, body: Option<Expr>)

  /** An entry of `astNodes`: a null pointer, a function or a prototype. */
  datatype Node = NullNode | FunctionNode(fn: FunctionDef) | PrototypeNode(proto: Prototype)

  /** Every binary node in the tree has an operator of the precedence table. */
  predicate OpsSupported(e: Expr)
    decreases e, 1
  {
    match e
    case Num(_) => true
    case Var(_) => true
    case Binary(op, l, r) => Precedence.Support(op) && OptOpsSupported(l) && OptOpsSupported(r)
    case Call(_, args) => forall i | 0 <= i < |args| :: OptOpsSupported(args[i])
  }

  predicate OptOpsSupported(o: Option<Expr>)
    decreases o, 0
  {
    o.Some? ==> OpsSupported(o.value)
  }
}
