/** The register allocator: two register alias tables, a queue of free physical registers and
    the physical register file. */
module RegisterAllocation {
  const ARCH_REGISTERS: nat := 256

  /** What the file records about one physical register. */
  datatype PhysReg = PhysReg(arch: int, producer: nat, valid: bool, busy: bool)

  const FREED := PhysReg(255, 0, false, false)

  /** The allocator's state as a value. An alias-table entry of -1 means "not mapped". */
  datatype Alloc = Alloc(frontend: seq<int>, backend: seq<int>, free: seq<int>, file: seq<PhysReg>)

  predicate IsArch(r: int) {
    0 <= r < ARCH_REGISTERS
  }

  ghost predicate WellFormed(a: Alloc) {
    && |a.frontend| == |a.backend| == ARCH_REGISTERS
    && (forall r :: 0 <= r < ARCH_REGISTERS ==> -1 <= a.frontend[r] < |a.file|)
    && (forall r :: 0 <= r < ARCH_REGISTERS ==> -1 <= a.backend[r] < |a.file|)
    && (forall i :: 0 <= i < |a.free| ==> 0 <= a.free[i] < |a.file|)
  }

  /** Nothing is mapped and every physical register is free, in index order. */
  function InitialAlloc(n: nat): Alloc {
    Alloc(seq(ARCH_REGISTERS, _ => -1), seq(ARCH_REGISTERS, _ => -1), seq(n, i => i), seq(n, _ => PhysReg(0, 0, false, false)))
  }

  /** A destination takes the oldest free register. */
  function RenameDst(a: Alloc, r: int, id: nat): Alloc
    requires WellFormed(a) && IsArch(r) && a.free != []
  {
    var p := a.free[0];
    a.(frontend := a.frontend[r := p], free := a.free[1..], file := a.file[p := PhysReg(r, id, false, true)])
  }

  /** A source that was never mapped gets a register whose value counts as already committed. */
  function RenameSrc(a: Alloc, r: int): Alloc
    requires WellFormed(a) && IsArch(r)
    requires a.frontend[r] < 0 ==> a.free != []
  {
    if a.frontend[r] >= 0 then a
    else
      var p := a.free[0];
      Alloc(a.frontend[r := p], a.backend[r := p], a.free[1..], a.file[p := PhysReg(r, 0, true, true)])
  }

  function CompleteDst(a: Alloc, p: int): Alloc
    requires 0 <= p < |a.file|
  {
    a.(file := a.file[p := a.file[p].(valid := true)])
  }

  /** Retirement makes `p` the committed copy of its architectural register and frees the copy
      it replaces. */
  function RetireDst(a: Alloc, p: int): Alloc
    requires WellFormed(a) && 0 <= p < |a.file| && IsArch(a.file[p].arch)
  {
    var r := a.file[p].arch;
    var prev := a.backend[r];
    var b := a.(backend := a.backend[r := p]);
    if prev < 0 then b else b.(free := b.free + [prev], file := b.file[prev := FREED])
  }

  class RegisterAllocator {
    const frontendRAT: array<int>
    const backendRAT: array<int>
    var freeRegisters: seq<int>
    var physicalRegisterFile: seq<PhysReg>

    ghost function View(): Alloc
      reads this, frontendRAT, backendRAT
    {
      Alloc(frontendRAT[..], backendRAT[..], freeRegisters, physicalRegisterFile)
    }

    ghost predicate Valid()
      reads this, frontendRAT, backendRAT
    {
      frontendRAT != backendRAT && WellFormed(View())
    }

    constructor (n: nat)
      ensures Valid() && fresh(frontendRAT) && fresh(backendRAT)
      ensures View() == InitialAlloc(n) && |physicalRegisterFile| == n
    {
      var all: seq<int> := seq(n, i => i);
      freeRegisters := all;
      physicalRegisterFile := seq(n, _ => PhysReg(0, 0, false, false));
      frontendRAT := new int[ARCH_REGISTERS](_ => -1);
      backendRAT := new int[ARCH_REGISTERS](_ => -1);
      new;
      assert frontendRAT[..] == seq(ARCH_REGISTERS, _ => -1);
      assert backendRAT[..] == seq(ARCH_REGISTERS, _ => -1);
      assert physicalRegisterFile == InitialAlloc(n).file && freeRegisters == InitialAlloc(n).free;
    }

    method RenameDestRegister(r: int, id: nat) returns (p: int)
      requires Valid() && IsArch(r) && freeRegisters != []
      modifies this`freeRegisters, this`physicalRegisterFile, frontendRAT
      ensures Valid() && p == old(View()).free[0]
      ensures View() == RenameDst(old(View()), r, id)
    {
      p := freeRegisters[0];
      freeRegisters := freeRegisters[1..];
      frontendRAT[r] := p;
      physicalRegisterFile := physicalRegisterFile[p := PhysReg(r, id, false, true)];
      assert frontendRAT[..] == old(frontendRAT[..])[r := p];
    }

    method RenameSrcRegister(r: int) returns (p: int)
      requires Valid() && IsArch(r)
      requires frontendRAT[r] < 0 ==> freeRegisters != []
      modifies this`freeRegisters, this`physicalRegisterFile, frontendRAT, backendRAT
      ensures Valid() && p == View().frontend[r] >= 0
      ensures View() == RenameSrc(old(View()), r)
    {
      p := frontendRAT[r];
      if p < 0 {
        p := freeRegisters[0];
        freeRegisters := freeRegisters[1..];
        frontendRAT[r] := p;
        backendRAT[r] := p;
        physicalRegisterFile := physicalRegisterFile[p := PhysReg(r, 0, true, true)];
        assert frontendRAT[..] == old(frontendRAT[..])[r := p];
        assert backendRAT[..] == old(backendRAT[..])[r := p];
      }
    }

    method CompleteDestRegister(p: int)
      requires Valid() && 0 <= p < |physicalRegisterFile|
      modifies this`physicalRegisterFile
      ensures Valid() && View() == CompleteDst(old(View()), p)
    {
      physicalRegisterFile := physicalRegisterFile[p := physicalRegisterFile[p].(valid := true)];
    }

    method RetireDestRegister(p: int)
      requires Valid() && 0 <= p < |physicalRegisterFile| && IsArch(physicalRegisterFile[p].arch)
      modifies this`freeRegisters, this`physicalRegisterFile, backendRAT
      ensures Valid() && View() == RetireDst(old(View()), p)
    {
      var r := physicalRegisterFile[p].arch;
      var oldPhys := backendRAT[r];
      backendRAT[r] := p;
      assert backendRAT[..] == old(backendRAT[..])[r := p];
      if oldPhys != -1 {
        FreeRegister(oldPhys);
      }
    }

    method FreeRegister(p: int)
      requires Valid() && 0 <= p < |physicalRegisterFile|
      modifies this`freeRegisters, this`physicalRegisterFile
      ensures Valid()
      ensures View() == old(View()).(free := old(freeRegisters) + [p],
                                     file := old(physicalRegisterFile)[p := FREED])
    {
      physicalRegisterFile := physicalRegisterFile[p := FREED];
      freeRegisters := freeRegisters + [p];
    }

    predicate IsValid(p: int)
      requires 0 <= p < |physicalRegisterFile|
      reads this`physicalRegisterFile
    {
      physicalRegisterFile[p].valid
    }

    predicate IsAllocated(r: int)
      requires 0 <= r < frontendRAT.Length
      reads frontendRAT
    {
      frontendRAT[r] != -1
    }
  }
}
