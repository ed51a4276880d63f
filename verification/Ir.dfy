/** The program the analyses read: basic blocks of SSA instructions. */
module Ir {
  // A block is named by its position in the linear block order, which lists every block once and starts
  // with the entry; a value is named by the instruction that defines it.

  import opened Graphs

  datatype InstType = If | Const | Jump | BinOp | UnaryOp | Ret | Cast | Phi | Call | Param

  /** A phi takes `val` when control comes from the block `bb`. */
  datatype PhiEntry = PhiEntry(val: nat, bb: nat)

  datatype Inst = Inst(id: nat, kind: InstType, inputs: seq<nat>, entries: seq<PhiEntry>) {

    predicate ProducesValue() {
      !(kind.Jump? || kind.Ret? || kind.If?)
    }

    /** The operands an instruction reads when it executes; a phi reads none of its own there. */
    function Operands(): seq<nat> {
      match kind
      case BinOp | UnaryOp | Cast | Ret | If | Call => inputs
      case Param | Const | Jump | Phi => []
    }

    /** The number of operands each kind has. */
    predicate ArityOk() {
      match kind
      case BinOp => |inputs| == 2
      case UnaryOp | Cast | Ret | If => |inputs| == 1
      case Param | Const | Jump => |inputs| == 0
      case Call | Phi => true
    }
  }

  /** The loop a block belongs to; `last` is the block its linear order ends with. */
  datatype LoopInfo = LoopInfo(header: nat, reducible: bool, last: nat)

  datatype Block = Block(insts: seq<Inst>, succs: seq<nat>, loop: LoopInfo)

  type Code = seq<Block>

  /** Block `b` heads a reducible loop. */
  predicate IsHeader(code: Code, b: nat)
    requires b < |code|
  {
    code[b].loop.header == b && code[b].loop.reducible
  }

  /** What every graph given to the analysis satisfies: edges lead to blocks, and the run of a reducible
      loop starts at its header. */
  ghost predicate ValidCode(code: Code) {
    && (forall b, n :: 0 <= b < |code| && 0 <= n < |code[b].succs| ==> code[b].succs[n] < |code|)
    && (forall b :: 0 <= b < |code| && IsHeader(code, b) ==> b <= code[b].loop.last < |code|)
    && (forall b, k :: 0 <= b < |code| && 0 <= k < |code[b].insts| ==> code[b].insts[k].ArityOk())
  }

  /** The control-flow graph; the entry is block 0. */
  function Cfg(code: Code): (g: Graph)
    ensures |g| == |code| && forall b :: 0 <= b < |code| ==> g[b] == code[b].succs
  {
    seq(|code|, b requires 0 <= b < |code| => code[b].succs)
  }
}
