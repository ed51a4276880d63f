/** The pool of machine registers: a bit set and the number of bits set in it. */
module RegisterPools {
  import opened Wrappers
  import opened LinearScan

  function CountSet(bits: seq<bool>): (n: nat)
    ensures n <= |bits|
  {
    if bits == [] then 0 else (if bits[0] then 1 else 0) + CountSet(bits[1..])
  }

  lemma {:induction false} CountOfUpdate(bits: seq<bool>, i: nat, b: bool)
    requires i < |bits| && bits[i] != b
    ensures CountSet(bits[i := b]) == CountSet(bits) + (if b then 1 else -1)
  {
    if i > 0 {
      CountOfUpdate(bits[1..], i - 1, b);
      assert bits[i := b][1..] == bits[1..][i - 1 := b];
    } else {
      assert bits[i := b][1..] == bits[1..];
    }
  }

  lemma {:induction false} CountIsFull(bits: seq<bool>)
    ensures CountSet(bits) == |bits| <==> forall i :: 0 <= i < |bits| ==> bits[i]
  {
    if bits != [] {
      CountIsFull(bits[1..]);
      assert forall i :: 1 <= i < |bits| ==> bits[i] == bits[1..][i - 1];
    }
  }

  class RegisterPool {
    var useCount: nat
    const regs: array<bool>

    ghost predicate Valid()
      reads this, regs
    {
      useCount == CountSet(regs[..])
    }

    /** The registers handed out. */
    ghost function Used(): (used: set<nat>)
      reads regs
      ensures forall i :: i in used <==> 0 <= i < regs.Length && regs[i]
    {
      set i | 0 <= i < regs.Length && regs[i]
    }

    constructor (numRegs: nat)
      ensures Valid() && Used() == {} && regs.Length == numRegs && fresh(regs)
    {
      regs := new bool[numRegs](_ => false);
      useCount := 0;
      new;
      NoneSet(regs[..]);
      assert Used() == {};
    }

    lemma {:induction false} NoneSet(bits: seq<bool>)
      requires forall i :: 0 <= i < |bits| ==> !bits[i]
      ensures CountSet(bits) == 0
    {
      if bits != [] {
        NoneSet(bits[1..]);
      }
    }

    /** Takes the lowest free register, or nothing when all are taken. */
    method AllocateReg() returns (reg: Option<nat>)
      requires Valid()
      modifies this`useCount, regs
      ensures Valid()
      ensures var first := LowestFree(old(Used()), 0, regs.Length);
              if reg.None? then first == regs.Length && Used() == old(Used())
              else reg.value == first < regs.Length && Used() == old(Used()) + {first}
    {
      ghost var used := Used();
      LowestFreeIsFree(used, 0, regs.Length);
      CountIsFull(regs[..]);
      if useCount == regs.Length {
        return None;
      }
      for i := 0 to regs.Length
        invariant forall j :: 0 <= j < i ==> regs[j]
        invariant Valid() && regs[..] == old(regs[..])
      {
        if !regs[i] {
          CountOfUpdate(regs[..], i, true);
          regs[i] := true;
          useCount := useCount + 1;
          assert regs[..] == old(regs[..])[i := true];
          return Some(i);
        }
      }
      // With a count below the size, a free register was found.
      assert false;
    }

    method DeallocateReg(idx: nat)
      requires Valid() && idx in Used()
      modifies this`useCount, regs
      ensures Valid() && Used() == old(Used()) - {idx}
    {
      CountOfUpdate(regs[..], idx, false);
      regs[idx] := false;
      useCount := useCount - 1;
      assert regs[..] == old(regs[..])[idx := false];
    }
  }
}
