/** The code the transformations work on: instructions in blocks. */
module Code {
  import opened Arithmetic
  import Ir

  /** `Other` stands for parameters, calls, casts and terminators. */
  datatype Op = Const(value: int) | Bin(oper: Oper) | Phi(entries: seq<Ir.PhiEntry>) | ZeroCheck | Other

  /** The value an instruction produces has the name of the instruction. */
  datatype Node = Node(op: Op, ty: Ty, inputs: seq<nat>)

  /** `nodes` holds all instructions by name, `blocks` which of them each block lists, in order. */
  datatype Program = Program(nodes: seq<Node>, blocks: seq<seq<nat>>)

  /** The number of inputs the constructors give. */
  predicate ArityOk(n: Node) {
    (n.op.Bin? ==> |n.inputs| == 2) && (n.op.ZeroCheck? ==> |n.inputs| == 1)
  }

  ghost predicate WellFormed(nodes: seq<Node>) {
    forall i :: 0 <= i < |nodes| ==> ArityOk(nodes[i])
  }

  /** A zero check of its input, or a bounds check of its first against its second one. */
  predicate IsCheck(n: Node) {
    (n.op.ZeroCheck? && |n.inputs| == 1) || (n.op == Bin(BoundsCheck) && |n.inputs| == 2)
  }

  /** The input whose users a check is compared with. */
  function Checked(n: Node): nat
    requires IsCheck(n)
  {
    n.inputs[0]
  }

  predicate SameCheck(a: Node, b: Node) {
    IsCheck(a) && IsCheck(b) && a.op == b.op && a.inputs == b.inputs
  }

  /** A binary operation the constant folder can evaluate. */
  predicate IsPure(n: Node) {
    n.op.Bin? && Foldable(n.op.oper) && |n.inputs| == 2
  }

  /** Running the instruction gives its value anew. */
  predicate Writes(nodes: seq<Node>, v: nat) {
    v < |nodes| && !IsCheck(nodes[v])
  }

  /** The inputs whose values may change when they run again. */
  function Kills(nodes: seq<Node>, a: nat): set<nat>
    requires a < |nodes|
  {
    set v | v in nodes[a].inputs && Writes(nodes, v)
  }

  /** The operands of a binary operation have its type, constants are in the range of theirs. */
  ghost predicate WellTyped(nodes: seq<Node>) {
    forall u :: 0 <= u < |nodes| ==> Typed(nodes, nodes[u])
  }

  predicate Typed(nodes: seq<Node>, n: Node) {
    && (n.op.Const? ==> InRange(n.ty, n.op.value))
    && (IsPure(n) ==> n.inputs[0] < |nodes| && n.inputs[1] < |nodes|
                      && nodes[n.inputs[0]].ty == nodes[n.inputs[1]].ty == n.ty)
  }

  predicate IsConst(nodes: seq<Node>, v: nat) {
    v < |nodes| && nodes[v].op.Const?
  }
}
