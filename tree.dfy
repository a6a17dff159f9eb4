/**
 * The syntax trees both parsers build: a number node `{type: 'number',
 * value}` or an operator node `{type: 'operator', value, left, right}`.
 */
module Tree {
  import opened Numbers

  datatype Node = Leaf(value: Num) | Op(op: string, left: Node, right: Node)

  /** Every operator in the tree is one of `ops`. */
  predicate OpsIn(t: Node, ops: set<string>)
  {
    match t
    case Leaf(_) => true
    case Op(op, l, r) => op in ops && OpsIn(l, ops) && OpsIn(r, ops)
  }

  /** Whether some operator node of the tree carries `op`. */
  predicate HasOp(t: Node, op: string)
  {
    match t
    case Leaf(_) => false
    case Op(o, l, r) => o == op || HasOp(l, op) || HasOp(r, op)
  }
}
