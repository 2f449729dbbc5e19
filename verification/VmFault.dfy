/**
 Page faults: growing an address space by a page, tearing it down, and refilling the TLB.
 */
module VmFault {
  import opened Coremap
  import opened PageTable

  const NUM_TLB := 64
  const KERNEL := 0x8000_0000 // user addresses lie below
  const VALID := 0x200
  const DIRTY := 0x400

  // ---------------------------------------------------------------------------------------
  // The address spaces in memory

  class Vm {
    const frames: Frames
    var spaces: map<nat, Space>
    ghost var runs: map<nat, nat>

    ghost function S(): State
      reads this, frames, frames.cs
    {
      State(frames.cs[..], frames.base, spaces, runs)
    }

    constructor (npages: nat, base: nat)
      ensures S() == State(seq(npages, _ => FREE), base, map[], map[]) && fresh(frames) && fresh(frames.cs)
    {
      frames := new Frames(npages, base);
      spaces, runs := map[], map[];
      new;
      assert frames.cs[..] == seq(npages, _ => FREE);
    }

    /** alloc_kpages: the kernel's address of a run of frames, 0 if the first free run is too short. */
    method AllocKpages(npages: nat) returns (addr: nat)
      requires Sound(S()) && frames.base > 0
      modifies this`runs, frames.cs
      ensures S() == KAlloc(old(S()), npages)
      ensures addr ==
                if FirstRunHolds(old(S()).cs, npages) then KERNEL + frames.base + FirstFree(old(S()).cs) * PAGE else 0
    {
      hide Sound, Taken, FirstFree;
      ghost var s := S();
      var pa := frames.GetPpages(npages);
      if pa == 0 {
        return 0;
      }
      addr := pa + KERNEL;
      if npages >= 1 {
        runs := runs[FirstFree(s.cs) := npages];
      } else {
        TakeNone(s, FirstFree(s.cs));
      }
    }

    /** free_kpages of a run in kernel hands. */
    method FreeKpages(addr: nat)
      requires Sound(S()) && KERNEL + frames.base <= addr && (addr - KERNEL - frames.base) / PAGE in runs
      modifies this`runs, frames.cs
      ensures (addr - KERNEL - frames.base) / PAGE < |old(S()).cs|
      ensures S() == KFree(old(S()), (addr - KERNEL - frames.base) / PAGE)
    {
      hide Sound, GivenBack;
      ghost var f := (addr - KERNEL - frames.base) / PAGE;
      RunBound(S(), f);
      frames.FreeKpages(addr - KERNEL);
      runs := runs - {f};
    }

    /** as_create: a block for the address space, which maps nothing yet. */
    method Create() returns (ok: bool, a: nat)
      requires Sound(S()) && frames.base > 0
      modifies this`spaces, this`runs, frames.cs
      ensures Sound(S()) && S() == Created(old(S()))
      ensures ok <==> FirstRunHolds(old(S()).cs, SPACE_FRAMES)
      ensures ok ==> a == FirstFree(old(S()).cs) && a in spaces
    {
      hide Sound, FirstFree, KAlloc;
      ghost var s := S();
      CreatedSound(s);
      var addr := AllocKpages(SPACE_FRAMES);
      if addr == 0 {
        NoRun(s, SPACE_FRAMES);
        return false, 0;
      }
      NewRunIs(s, SPACE_FRAMES);
      a := (addr - KERNEL - frames.base) / PAGE;
      spaces := spaces[a := Space(seq(LEVEL1, _ => NoTable))];
      ok := true;
    }

    /**
     incStack and incHeap: a frame, a second-level table if there is none yet, and the entry.
     If there are no two frames for the table the first frame stays taken, though no page has it.
     */
    method IncPage(a: nat, vaddr: nat) returns (ok: bool, paddr: nat)
      requires Sound(S()) && frames.base > 0 && a in spaces && vaddr < KERNEL && Well(S())
      requires !At(S(), a, vaddr / PAGE).valid
      modifies this`spaces, this`runs, frames.cs
      ensures Sound(S()) && S() == GrowTo(old(S()), a, vaddr / PAGE)
      ensures ok <==> CanGrow(old(S()), a, vaddr / PAGE)
      ensures !ok ==> spaces == old(spaces)
      ensures ok ==> Well(S()) && a in spaces && At(S(), a, vaddr / PAGE).frame == Frame(FirstFree(old(S()).cs))
      ensures ok ==> paddr == frames.base + FirstFree(old(S()).cs) * PAGE
    {
      hide Sound, Lookup, Shaped, MapAt, FirstFree, Tabled, Loose, KAlloc;
      ghost var s0 := S();
      var vpn := vaddr / PAGE;
      GrowSound(s0, a, vpn);
      var got, i := frames.AllocatePage();
      if !got {
        return false, 0;
      }
      ghost var s1 := Lost(s0, i);
      assert S() == s1;
      LevelOf(s0, a, vaddr);
      var l1, l2 := vaddr / (PAGE * LEVEL2), vaddr / PAGE % LEVEL2;
      if spaces[a].lvone[l1].NoTable? {
        LostSound(s0, i);
        LostSame(s0, i);
        ok := AddTable(a, vaddr, l1);
        if !ok {
          return false, 0;
        }
        TabledSound(s1, a, vpn, i);
        TabledBase(s1, a, vpn);
      } else {
        LostMap(s0, a, vpn, i);
      }
      paddr := frames.base + i * PAGE;
      SetEntry(a, vaddr, l1, l2, i, paddr);
      ok := true;
    }

    /** The part of incStack and incHeap that makes a second-level table. */
    method AddTable(a: nat, vaddr: nat, l1: nat) returns (ok: bool)
      requires Sound(S()) && frames.base > 0 && Well(S()) && a in spaces && vaddr < KERNEL
      requires l1 == vaddr / PAGE / LEVEL2 && l1 < |spaces[a].lvone| && !HasTable(spaces[a], vaddr / PAGE)
      modifies this`spaces, this`runs, frames.cs
      ensures ok <==> FirstRunHolds(old(S()).cs, TABLE_FRAMES)
      ensures S() == if ok then Tabled(old(S()), a, vaddr / PAGE) else old(S())
    {
      hide Sound, FirstFree, KAlloc, Shaped;
      ghost var s := S();
      var addr := AllocKpages(TABLE_FRAMES);
      if addr == 0 {
        NoRun(s, TABLE_FRAMES);
        return false;
      }
      NewRunIs(s, TABLE_FRAMES);
      var t := NewTable((addr - KERNEL - frames.base) / PAGE);
      spaces := spaces[a := Space(spaces[a].lvone[l1 := t])];
      ok := true;
    }

    /** The part of incStack and incHeap that fills in the entry and the coremap. */
    method SetEntry(a: nat, vaddr: nat, l1: nat, l2: nat, i: nat, paddr: nat)
      requires Well(S()) && a in spaces && vaddr < KERNEL && i < frames.cs.Length && paddr == frames.base + i * PAGE
      requires l1 == vaddr / PAGE / LEVEL2 && l2 == vaddr / PAGE % LEVEL2 && HasTable(spaces[a], vaddr / PAGE)
      modifies this`spaces, frames.cs
      ensures S() == MapAt(old(S()), a, vaddr / PAGE, i)
    {
      ghost var s := S();
      var t := spaces[a].lvone[l1];
      var lvone := spaces[a].lvone[l1 := Table(t.at, t.ptes[l2 := PageEntry(true, paddr % FIELD, Frame(i))])];
      frames.cs[i] := Entry(true, 1, Pte(a, vaddr / PAGE));
      spaces := spaces[a := Space(lvone)];
      assert frames.cs[..] == s.cs[i := Entry(true, 1, Pte(a, vaddr / PAGE))];
    }

    /** The second-level table with every entry invalid. */
    method NewTable(at: nat) returns (t: Level2)
      ensures t == Blank(at)
    {
      var ptes := new PageEntry[LEVEL2];
      for i := 0 to LEVEL2
        invariant forall j :: 0 <= j < i ==> ptes[j] == EMPTY
      {
        ptes[i] := EMPTY;
      }
      t := Table(at, ptes[..]);
    }

    /** as_destroy: the frames of its pages and its own block are free again; its tables stay taken. */
    method Destroy(a: nat)
      requires Sound(S()) && a in spaces
      modifies this`spaces, this`runs, frames.cs
      ensures a < |old(S()).cs| && Sound(S()) && S() == Destroyed(old(S()), a)
    {
      hide Sound, Lookup, Well, Shaped, Owns;
      ghost var s0 := S();
      DestroyedSound(s0, a);
      EmptiedSound(s0, a);
      SpaceBound(s0, a);
      ShapedAt(s0, a);
      var lvone := spaces[a].lvone;
      for i := 0 to LEVEL1
        invariant frames.cs.Length == |s0.cs| && spaces == old(spaces) && runs == old(runs)
        invariant forall f :: 0 <= f < |s0.cs| ==> frames.cs[f] == Cleared(s0.cs[f], a, LEVEL2 * i)
      {
        if lvone[i].Table? {
          DestroyTable(a, i, lvone[i].ptes, s0);
        } else {
          forall f | 0 <= f < |s0.cs|
            ensures Cleared(s0.cs[f], a, LEVEL2 * i) == Cleared(s0.cs[f], a, LEVEL2 * (i + 1))
          {
            NoneHere(s0, a, i, f);
          }
        }
      }
      spaces := spaces - {a};
      forall f | 0 <= f < |s0.cs| ensures frames.cs[f] == Emptied(s0, a).cs[f] {
        AllCleared(s0, a, f);
      }
      assert frames.cs[..] == Emptied(s0, a).cs;
      FreeKpages(KERNEL + frames.base + a * PAGE);
    }

    method DestroyTable(a: nat, i: nat, ptes: seq<PageEntry>, ghost s0: State)
      requires Sound(s0) && Well(s0) && a in s0.spaces && i < LEVEL1 && |s0.spaces[a].lvone| == LEVEL1
      requires s0.spaces[a].lvone[i].Table? && s0.spaces[a].lvone[i].ptes == ptes && |ptes| == LEVEL2
      requires frames.cs.Length == |s0.cs|
      requires forall f :: 0 <= f < |s0.cs| ==> frames.cs[f] == Cleared(s0.cs[f], a, LEVEL2 * i)
      modifies frames.cs
      ensures forall f :: 0 <= f < |s0.cs| ==> frames.cs[f] == Cleared(s0.cs[f], a, LEVEL2 * (i + 1))
    {
      hide Sound, Lookup, Well, Shaped, Cleared;
      for j := 0 to LEVEL2
        invariant forall f :: 0 <= f < |s0.cs| ==> frames.cs[f] == Cleared(s0.cs[f], a, LEVEL2 * i + j)
      {
        PteAt(s0, a, i, j);
        forall f | 0 <= f < |s0.cs|
          ensures Cleared(s0.cs[f], a, LEVEL2 * i + j + 1) ==
                    if ptes[j].frame == Frame(f) then FREE else Cleared(s0.cs[f], a, LEVEL2 * i + j)
        {
          ClearOne(s0, a, LEVEL2 * i + j, f);
        }
        FrameBound(s0, a, LEVEL2 * i + j);
        if ptes[j].frame.Frame? {
          frames.cs[ptes[j].frame.i] := FREE;
        }
      }
    }
  }

  /** An entry once the pages below `upto` of an address space have been let go. */
  function Cleared(e: Entry, a: nat, upto: nat): Entry {
    if e.owner.Pte? && e.owner.asid == a && e.owner.vpn < upto then FREE else e
  }

  lemma RunBound(s: State, f: nat)
    requires Sound(s) && f in s.runs
    ensures f < |s.cs| && s.cs[f].continuous == s.runs[f] && f + s.cs[f].continuous <= |s.cs|
  {
    hide Mapped, Back, Housed;
    assert RunOk(s, f);
  }

  lemma NoRun(s: State, n: nat)
    ensures !FirstRunHolds(s.cs, n) ==> KAlloc(s, n) == s
  {
  }

  /** A request for no pages marks nothing. */
  lemma TakeNone(s: State, i: nat)
    requires Sound(s) && i < |s.cs| && !s.cs[i].inuse
    ensures Taken(s.cs, i, 0) == s.cs
  {
    hide Mapped, Housed;
    assert Back(s, i);
    var t := Taken(s.cs, i, 0);
    forall k | 0 <= k < |s.cs| ensures t[k] == s.cs[k] {
    }
  }

  lemma LostMap(s: State, a: nat, vpn: nat, f: nat)
    requires Well(s) && a in s.spaces && vpn < PAGES && f < |s.cs| && HasTable(s.spaces[a], vpn)
    ensures Well(Lost(s, f)) && MapAt(Lost(s, f), a, vpn, f) == MapAt(s, a, vpn, f)
  {
    hide SetPte, Shaped;
    assert Lost(s, f).cs[f := Entry(true, 1, Pte(a, vpn))] == s.cs[f := Entry(true, 1, Pte(a, vpn))];
  }

  lemma LevelOf(s: State, a: nat, vaddr: nat)
    requires Well(s) && a in s.spaces && vaddr < KERNEL
    ensures vaddr / PAGE < PAGES && vaddr / (PAGE * LEVEL2) == vaddr / PAGE / LEVEL2 < LEVEL1
    ensures |s.spaces[a].lvone| == LEVEL1
  {
  }

  lemma ShapedAt(s: State, a: nat)
    requires Sound(s) && a in s.spaces
    ensures Well(s) && |s.spaces[a].lvone| == LEVEL1
    ensures forall i :: 0 <= i < LEVEL1 && s.spaces[a].lvone[i].Table? ==> |s.spaces[a].lvone[i].ptes| == LEVEL2
  {
    hide Mapped, Back, Housed;
  }

  /** Entry `j` of table `i` is the entry of one page. */
  lemma PteAt(s: State, a: nat, i: nat, j: nat)
    requires Well(s) && a in s.spaces && i < LEVEL1 && j < LEVEL2 && |s.spaces[a].lvone| == LEVEL1
    requires s.spaces[a].lvone[i].Table?
    requires |s.spaces[a].lvone[i].ptes| == LEVEL2
    ensures LEVEL2 * i + j < PAGES && At(s, a, LEVEL2 * i + j) == s.spaces[a].lvone[i].ptes[j]
  {
    assert (LEVEL2 * i + j) / LEVEL2 == i && (LEVEL2 * i + j) % LEVEL2 == j;
  }

  /** Letting one more page go frees its frame, if it has one, and no other. */
  lemma ClearOne(s: State, a: nat, vpn: nat, f: nat)
    requires Sound(s) && Well(s) && a in s.spaces && vpn < PAGES && f < |s.cs|
    ensures Cleared(s.cs[f], a, vpn + 1) == if At(s, a, vpn).frame == Frame(f) then FREE else Cleared(s.cs[f], a, vpn)
  {
    hide Lookup, Shaped, Well;
    assert Mapped(s, a, vpn) && Back(s, f);
  }

  lemma FrameBound(s: State, a: nat, vpn: nat)
    requires Sound(s) && Well(s) && a in s.spaces && vpn < PAGES
    ensures At(s, a, vpn).frame.Frame? ==> At(s, a, vpn).frame.i < |s.cs|
  {
    hide Lookup, Shaped, Well;
    assert Mapped(s, a, vpn);
  }

  lemma NoneHere(s: State, a: nat, i: nat, f: nat)
    requires Sound(s) && Well(s) && a in s.spaces && |s.spaces[a].lvone| == LEVEL1 && i < LEVEL1
    requires s.spaces[a].lvone[i].NoTable? && f < |s.cs|
    ensures Cleared(s.cs[f], a, LEVEL2 * i) == Cleared(s.cs[f], a, LEVEL2 * (i + 1))
  {
    assert Back(s, f);
  }

  lemma AllCleared(s: State, a: nat, f: nat)
    requires Sound(s) && f < |s.cs|
    ensures Cleared(s.cs[f], a, LEVEL2 * LEVEL1) == Emptied(s, a).cs[f]
  {
    hide Lookup, Shaped;
    assert Back(s, f);
  }
}
