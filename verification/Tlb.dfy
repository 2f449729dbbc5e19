/**
 The software-filled TLB and its agreement with the page table.
 */
module Tlb {
  import opened Coremap
  import opened PageTable
  import opened VmFault

  /** The two words of a TLB entry. */
  datatype Slot = Slot(hi: nat, lo: nat)

  predicate IsValid(lo: nat) {
    lo / VALID % 2 == 1
  }

  function InvalidHi(i: nat): nat {
    (0x80000 + i) * PAGE
  }

  function LoFor(paddr: nat): nat {
    paddr + DIRTY + VALID
  }

  /** The page-aligned address and the two flags do not disturb one another. */
  lemma LoIsValid(paddr: nat)
    requires paddr % PAGE == 0
    ensures IsValid(LoFor(paddr)) && LoFor(paddr) / PAGE * PAGE == paddr
  {
    hide IsValid, LoFor;
    LoParts(paddr / PAGE);
    assert paddr == PAGE * (paddr / PAGE);
  }

  lemma LoParts(q: nat)
    ensures IsValid(LoFor(PAGE * q)) && LoFor(PAGE * q) / PAGE == q
  {
    hide LoFor;
    assert LoFor(PAGE * q) == 0x1000 * q + 0x600 by { LoIs(q); }
    Flags(q);
    Pages(q);
    Odd(4 * q + 1);
  }

  lemma LoIs(q: nat)
    ensures LoFor(PAGE * q) == 0x1000 * q + 0x600
  {
  }

  lemma Flags(q: nat)
    ensures (0x1000 * q + 0x600) / 0x200 == 2 * (4 * q + 1) + 1
  {
  }

  lemma Odd(q: nat)
    ensures (2 * q + 1) % 2 == 1
  {
  }

  lemma Pages(q: nat)
    ensures (0x1000 * q + 0x600) / 0x1000 == q
  {
  }

  /** The first slot without a translation, or 64. */
  function FirstInvalid(slots: seq<Slot>): (i: nat)
    ensures i <= |slots| && (i < |slots| ==> !IsValid(slots[i].lo))
    ensures forall k :: 0 <= k < i ==> IsValid(slots[k].lo)
  {
    if slots == [] || !IsValid(slots[0].lo) then 0 else 1 + FirstInvalid(slots[1..])
  }

  lemma FirstInvalidIs(slots: seq<Slot>, i: nat)
    requires i <= |slots| && (i < |slots| ==> !IsValid(slots[i].lo)) && forall k :: 0 <= k < i ==> IsValid(slots[k].lo)
    ensures FirstInvalid(slots) == i
  {
    var j := FirstInvalid(slots);
    assert !(j < i) && !(i < j);
  }

  function Flushed(): (s: seq<Slot>)
    ensures |s| == NUM_TLB
  {
    seq(NUM_TLB, i requires 0 <= i < NUM_TLB => Slot(InvalidHi(i), 0))
  }

  /** A translation in the first unused slot, or in slot `r` if all are used. */
  function Refilled(slots: seq<Slot>, r: nat, e: Slot): (t: seq<Slot>)
    requires r < |slots|
    ensures |t| == |slots|
  {
    var i := FirstInvalid(slots);
    slots[if i < |slots| then i else r := e]
  }

  // ---------------------------------------------------------------------------------------
  // Agreement

  /** Slot `i` is unused, with the tag kept for unused slots, or translates a user page as the page table does. */
  predicate SlotOk(e: Slot, i: nat, sp: Space)
    requires Shaped(sp)
  {
    if IsValid(e.lo) then
      e.hi % PAGE == 0 && e.hi < KERNEL && Lookup(sp, e.hi / PAGE).valid && e.lo == LoFor(Lookup(sp, e.hi / PAGE).addr)
    else e == Slot(InvalidHi(i), 0)
  }

  predicate Distinct(slots: seq<Slot>) {
    forall i, j :: 0 <= i < j < |slots| ==> slots[i].hi != slots[j].hi
  }

  predicate TlbOk(slots: seq<Slot>, sp: Space) {
    && Shaped(sp) && |slots| == NUM_TLB && Distinct(slots)
    && forall i :: 0 <= i < NUM_TLB ==> SlotOk(slots[i], i, sp)
  }

  lemma FlushedOk(sp: Space)
    requires Shaped(sp)
    ensures TlbOk(Flushed(), sp)
  {
    hide Lookup, Shaped;
  }

  /** A refill after a miss keeps all tags distinct and all translations right. */
  lemma RefilledOk(slots: seq<Slot>, sp: Space, r: nat, vpn: nat)
    requires TlbOk(slots, sp) && r < NUM_TLB && vpn < KERNEL / PAGE && Lookup(sp, vpn).valid
    requires Lookup(sp, vpn).addr % PAGE == 0
    requires forall i :: 0 <= i < NUM_TLB ==> slots[i].hi != vpn * PAGE
    ensures TlbOk(Refilled(slots, r, Slot(vpn * PAGE, LoFor(Lookup(sp, vpn).addr))), sp)
  {
    hide Lookup, Shaped, FirstInvalid, IsValid, LoFor;
    LoIsValid(Lookup(sp, vpn).addr);
    assert vpn * PAGE / PAGE == vpn && vpn * PAGE % PAGE == 0;
  }

  /** Mapping another page does not disturb the translations. */
  lemma GrownOk(slots: seq<Slot>, sp: Space, sp': Space)
    requires TlbOk(slots, sp) && Shaped(sp')
    requires forall vpn :: 0 <= vpn < PAGES && Lookup(sp, vpn).valid ==> Lookup(sp', vpn) == Lookup(sp, vpn)
    ensures TlbOk(slots, sp')
  {
    hide Lookup, Shaped, IsValid, LoFor;
    forall i | 0 <= i < NUM_TLB ensures SlotOk(slots[i], i, sp') {
      assert SlotOk(slots[i], i, sp);
    }
  }

  // ---------------------------------------------------------------------------------------
  // Runs on one address space

  datatype Op =
    | Activate
    | Miss(vpn: nat, r: nat)
    | Table(vpn: nat, at: nat)
    | Map(vpn: nat, addr: nat, f: nat)

  datatype State = State(slots: seq<Slot>, sp: Space)

  /** The processor raises a miss only for a user page no slot is tagged with. */
  predicate Allowed(s: State, op: Op) {
    match op
    case Activate => true
    case Miss(vpn, r) =>
      && r < NUM_TLB && r < |s.slots| && vpn < KERNEL / PAGE && Shaped(s.sp) && Lookup(s.sp, vpn).valid
      && Lookup(s.sp, vpn).addr % PAGE == 0
      && forall i :: 0 <= i < |s.slots| ==> s.slots[i].hi != vpn * PAGE
    case Table(vpn, at) => Shaped(s.sp) && vpn < PAGES && !HasTable(s.sp, vpn)
    case Map(vpn, addr, f) => Shaped(s.sp) && vpn < PAGES && !Lookup(s.sp, vpn).valid && HasTable(s.sp, vpn)
  }

  function Do(s: State, op: Op): State
    requires Allowed(s, op)
  {
    match op
    case Activate => s.(slots := Flushed())
    case Miss(vpn, r) => s.(slots := Refilled(s.slots, r, Slot(vpn * PAGE, LoFor(Lookup(s.sp, vpn).addr))))
    case Table(vpn, at) => s.(sp := SetTable(s.sp, vpn, at))
    case Map(vpn, addr, f) => s.(sp := SetPte(s.sp, vpn, PageEntry(true, addr, Frame(f))))
  }

  ghost predicate IsRun(s: State, ops: seq<Op>)
    decreases |ops|
  {
    ops == [] || (Allowed(s, ops[0]) && IsRun(Do(s, ops[0]), ops[1..]))
  }

  ghost function After(s: State, ops: seq<Op>): State
    requires IsRun(s, ops)
    decreases |ops|
  {
    if ops == [] then s else After(Do(s, ops[0]), ops[1..])
  }

  lemma DoOk(s: State, op: Op)
    requires TlbOk(s.slots, s.sp) && Allowed(s, op)
    ensures TlbOk(Do(s, op).slots, Do(s, op).sp)
  {
    hide Lookup, Shaped, Refilled, SetPte, SetTable, Distinct, SlotOk, HasTable;
    match op {
      case Activate => FlushedOk(s.sp);
      case Miss(vpn, r) => RefilledOk(s.slots, s.sp, r, vpn);
      case Table(vpn, at) =>
        forall w | 0 <= w < PAGES && Lookup(s.sp, w).valid
          ensures Lookup(SetTable(s.sp, vpn, at), w) == Lookup(s.sp, w)
        {
          LookupBlank(s.sp, vpn, at, w);
        }
        GrownOk(s.slots, s.sp, SetTable(s.sp, vpn, at));
      case Map(vpn, addr, f) =>
        var e := PageEntry(true, addr, Frame(f));
        forall w | 0 <= w < PAGES && Lookup(s.sp, w).valid ensures Lookup(SetPte(s.sp, vpn, e), w) == Lookup(s.sp, w) {
          LookupSet(s.sp, vpn, e, w);
        }
        GrownOk(s.slots, s.sp, SetPte(s.sp, vpn, e));
    }
  }

  /** Over every run, the 64 tags stay distinct and every translation is the page table's. */
  lemma {:induction false} RunOk(s: State, ops: seq<Op>)
    requires TlbOk(s.slots, s.sp) && IsRun(s, ops)
    ensures TlbOk(After(s, ops).slots, After(s, ops).sp)
    decreases |ops|
  {
    hide TlbOk, Allowed, Do;
    if ops != [] {
      DoOk(s, ops[0]);
      RunOk(Do(s, ops[0]), ops[1..]);
    }
  }

  // ---------------------------------------------------------------------------------------
  // The fault handler

  datatype Err = OK | EFAULT

  class Processor {
    var tlb: array<Slot>

    constructor ()
      ensures fresh(tlb) && tlb[..] == Flushed()
    {
      tlb := new Slot[NUM_TLB](i => Slot(InvalidHi(i), 0));
    }

    /** as_activate */
    method Flush()
      requires tlb.Length == NUM_TLB
      modifies tlb
      ensures tlb[..] == Flushed()
    {
      for i := 0 to NUM_TLB
        invariant tlb[..i] == Flushed()[..i]
      {
        tlb[i] := Slot(InvalidHi(i), 0);
      }
    }

    /** One of the two loops of vm_fault that look for an unused slot. */
    method TryFill(hi: nat, paddr: nat) returns (ok: bool)
      requires tlb.Length == NUM_TLB
      modifies tlb
      ensures ok <==> FirstInvalid(old(tlb[..])) < NUM_TLB
      ensures tlb[..] == if ok then old(tlb[..])[FirstInvalid(old(tlb[..])) := Slot(hi, LoFor(paddr))] else old(tlb[..])
    {
      hide IsValid, FirstInvalid;
      for i := 0 to NUM_TLB
        invariant tlb[..] == old(tlb[..]) && forall k :: 0 <= k < i ==> IsValid(tlb[k].lo)
      {
        if !IsValid(tlb[i].lo) {
          FirstInvalidIs(tlb[..], i);
          tlb[i] := Slot(hi, LoFor(paddr));
          return true;
        }
      }
      FirstInvalidIs(tlb[..], NUM_TLB);
      ok := false;
    }

    /** The second half of vm_fault: the last return, for want of a slot, is never reached. */
    method Refill(hi: nat, paddr: nat, number: nat) returns (err: Err)
      requires tlb.Length == NUM_TLB && number < NUM_TLB
      modifies tlb
      ensures err == OK && tlb[..] == Refilled(old(tlb[..]), number, Slot(hi, LoFor(paddr)))
    {
      hide IsValid, FirstInvalid, InvalidHi, LoFor;
      var ok := TryFill(hi, paddr);
      if ok {
        return OK;
      }
      tlb[number] := Slot(InvalidHi(number), 0);
      OnlyInvalid(old(tlb[..]), number);
      assert tlb[..] == old(tlb[..])[number := Slot(InvalidHi(number), 0)];
      ok := TryFill(hi, paddr);
      if ok {
        return OK;
      }
      err := EFAULT;
    }

    /**
     vm_fault for the current address space `a`.  `grow` says whether the address is one that
     the stack or the heap may grow to.
     */
    method Fault(vm: Vm, a: nat, faultaddress: nat, grow: bool, number: nat) returns (err: Err)
      requires Sound(vm.S()) && vm.frames.base > 0 && a in vm.spaces && faultaddress < KERNEL && number < NUM_TLB
      requires vm.frames.base % PAGE == 0 && vm.frames.base + vm.frames.cs.Length * PAGE <= FIELD
      requires TlbOk(tlb[..], vm.spaces[a])
      requires forall i :: 0 <= i < tlb.Length ==> tlb[i].hi != faultaddress / PAGE * PAGE
      modifies tlb, vm`spaces, vm`runs, vm.frames.cs
      ensures Sound(vm.S()) && a in vm.spaces && TlbOk(tlb[..], vm.spaces[a])
      ensures Lookup(old(vm.spaces)[a], faultaddress / PAGE).valid ==> err == OK && vm.S() == old(vm.S())
      ensures !Lookup(old(vm.spaces)[a], faultaddress / PAGE).valid ==>
                && vm.S() == (if grow then GrowTo(old(vm.S()), a, faultaddress / PAGE) else old(vm.S()))
                && (err == OK <==> grow && CanGrow(old(vm.S()), a, faultaddress / PAGE))
      ensures err == OK <==> Lookup(vm.spaces[a], faultaddress / PAGE).valid
      ensures err == OK ==> tlb[..] == Refilled(old(tlb[..]), number,
                Slot(faultaddress / PAGE * PAGE, LoFor(Lookup(vm.spaces[a], faultaddress / PAGE).addr)))
      ensures err == EFAULT ==> tlb[..] == old(tlb[..])
    {
      hide Sound, Lookup, Shaped, SlotOk, Distinct, IsValid, Refilled, GrowTo;
      var page := faultaddress / PAGE;
      ghost var s0 := vm.S();
      SpaceShaped(s0, a);
      var e := Lookup(vm.spaces[a], page);
      var paddr := e.addr;
      if !e.valid {
        if !grow {
          return EFAULT;
        }
        var ok;
        ok, paddr := vm.IncPage(a, faultaddress);
        GrowKeeps(s0, a, page);
        SpaceShaped(vm.S(), a);
        GrownOk(tlb[..], s0.spaces[a], vm.spaces[a]);
        if !ok {
          return EFAULT;
        }
      }
      Translation(vm.S(), a, page);
      AddressKept(vm.S(), a, page);
      RefilledOk(tlb[..], vm.spaces[a], number, page);
      err := Refill(page * PAGE, paddr, number);
    }
  }

  lemma OnlyInvalid(slots: seq<Slot>, r: nat)
    requires FirstInvalid(slots) == |slots| && r < |slots|
    ensures FirstInvalid(slots[r := Slot(InvalidHi(r), 0)]) == r
  {
    FirstInvalidIs(slots[r := Slot(InvalidHi(r), 0)], r);
  }

  lemma SpaceShaped(s: PageTable.State, a: nat)
    requires Sound(s) && a in s.spaces
    ensures Well(s) && Shaped(s.spaces[a])
  {
  }

  lemma GrowKeeps(s: PageTable.State, a: nat, vpn: nat)
    requires Sound(s) && Well(s) && a in s.spaces && vpn < PAGES && !At(s, a, vpn).valid
    ensures a in GrowTo(s, a, vpn).spaces && Well(GrowTo(s, a, vpn))
    ensures forall w :: 0 <= w < PAGES && Lookup(s.spaces[a], w).valid ==>
              Lookup(GrowTo(s, a, vpn).spaces[a], w) == Lookup(s.spaces[a], w)
  {
    hide Shaped, Lookup, Sound, GrowTo;
    GrowSound(s, a, vpn);
    forall w | 0 <= w < PAGES && Lookup(s.spaces[a], w).valid
      ensures Lookup(GrowTo(s, a, vpn).spaces[a], w) == Lookup(s.spaces[a], w)
    {
      assert At(GrowTo(s, a, vpn), a, w) == At(s, a, w);
    }
  }

  /** A valid entry, in a memory of at most a megabyte, holds the whole aligned address. */
  lemma Translation(s: PageTable.State, a: nat, vpn: nat)
    requires Sound(s) && Well(s) && a in s.spaces && vpn < PAGES && (At(s, a, vpn).valid || At(s, a, vpn).frame.Frame?)
    requires s.base % PAGE == 0 && s.base + |s.cs| * PAGE <= FIELD
    ensures At(s, a, vpn).valid && At(s, a, vpn).frame.Frame?
    ensures At(s, a, vpn).addr == s.base + At(s, a, vpn).frame.i * PAGE
    ensures At(s, a, vpn).addr % PAGE == 0
  {
    hide Lookup, Shaped;
    assert Mapped(s, a, vpn);
    var i := At(s, a, vpn).frame.i;
    assert i * PAGE + PAGE <= |s.cs| * PAGE;
  }
}
