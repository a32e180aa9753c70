/**
 * The binary operator table `BinaryOperatorPrecedence`: a constant map from
 * an operator character to its precedence; a higher value binds tighter.
 */
module Precedence {

  /** The `static const` lookup table.  Being a constant, no operation can add or change an entry. */
  const Table: map<char, int> := map['<' := 100, '+' := 200, '-' := 200, '*' := 400]

  /** `Support(op)`: the operator has an entry in the table. */
  predicate Support(op: char) {
    op in Table
  }

  /** `Get(op)`: the table entry, or the sentinel -1 for an unsupported operator. */
  function Get(op: char): (p: int)
    ensures Support(op) ==> p == Table[op]
    ensures p == -1 <==> !Support(op)
    ensures p > 0 <==> Support(op)
  {
    if op in Table then Table[op] else -1
  }

  /** Exactly the four characters `<`, `+`, `-`, `*` are supported. */
  lemma SupportedOperators(op: char)
    ensures Support(op) <==> op == '<' || op == '+' || op == '-' || op == '*'
  {
  }

  /** `*` binds tighter than `+` and `-`, which bind tighter than `<`; `+` and `-` tie. */
  lemma PrecedenceOrder()
    ensures Get('<') < Get('+') == Get('-') < Get('*')
    ensures Get('<') == 100 && Get('+') == 200 && Get('*') == 400
  {
  }
}
