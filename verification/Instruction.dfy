/** The in-flight instruction record that every stage of the core passes along. */
module Instruction {
  type Address = nat

  datatype BranchKind = NotBranch | DirectJump | Indirect | Conditional | DirectCall | IndirectCall | Return | Other

  /** What the trace says of a branch: its kind, its outcome and, if taken, its target (else 0);
      and what fetch has predicted. */
  datatype Branch = Branch(kind: BranchKind, taken: bool, target: Address, predicted: bool, mispredicted: bool)

  /** One instruction. `dst` and `src` hold architectural register numbers until the
      instruction is scheduled and physical ones afterwards, exactly as the core overwrites
      them in place. `archDst` and `archSrc` are history: they keep the architectural names
      that were overwritten and no stage reads them. */
  datatype Instr = Instr(
    id: nat,
    ready: nat,
    branch: Branch,
    fetchCompleted: bool,
    decoded: bool,
    scheduled: bool,
    executed: bool,
    completed: bool,
    completedMemOps: nat,
    dst: seq<int>,
    src: seq<int>,
    dstMem: seq<Address>,
    srcMem: seq<Address>,
    archDst: seq<int>,
    archSrc: seq<int>)
  {
    function NumMemOps(): nat {
      |dstMem| + |srcMem|
    }
  }

  /** Instruction identifiers strictly increase along the sequence. */
  ghost predicate InProgramOrder(s: seq<Instr>) {
    forall i, j :: 0 <= i < j < |s| ==> s[i].id < s[j].id
  }
}
