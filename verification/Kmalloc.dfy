/**
 Kernel memory at work: kmalloc and kfree on top of the coremap, next to the pages and page
 tables of user programs.
 */
module Kmalloc {
  import opened KHeapSpec
  import opened KernelHeap
  import opened KmallocSpec
  import P = PageTable
  import C = Coremap
  import V = VmFault
  import Bitmap

  const LARGEST := 2048

  /** The lowest page reference not in use, -1 if there is none. */
  function FreeRef(inuse: seq<bool>): (r: int)
    ensures r >= 0 ==> r < |inuse| && !inuse[r]
  {
    var f := Bitmap.FirstClear(inuse);
    if f == |inuse| then -1 else f
  }

  /** Pages in 32-bit arithmetic. */
  function PagesFor(sz: nat): nat {
    (sz + PAGE - 1) % WORD / PAGE
  }

  lemma PagesEnough(sz: nat)
    requires LARGEST <= sz < WORD
    ensures PagesFor(sz) >= 1 <==> sz <= WORD - PAGE
    ensures sz <= WORD - PAGE ==> sz <= PagesFor(sz) * PAGE <= Most(sz)
  {
  }

  /** kmalloc of an address space or of a second-level table is a request for whole pages. */
  lemma TablesAreLarge()
    ensures P.SPACE_BYTES >= LARGEST && PagesFor(P.SPACE_BYTES) == P.SPACE_FRAMES
    ensures P.TABLE_BYTES >= LARGEST && PagesFor(P.TABLE_BYTES) == P.TABLE_FRAMES
  {
  }

  class Kernel {
    const heap: Allocator
    const vm: V.Vm

    ghost function M(): Mem
      reads heap, vm, vm.frames, vm.frames.cs
    {
      Mem(heap.h, vm.S())
    }

    ghost function K(): KState
      reads heap, vm, vm.frames, vm.frames.cs
    {
      KState(M(), heap.mem)
    }

    ghost predicate Valid()
      reads heap, heap.refs, heap.bases, heap.inuse, vm, vm.frames, vm.frames.cs
    {
      heap.Valid() && Joint(M()) && RamOk(vm.S(), heap.mem)
    }

    constructor (npages: nat, base: nat, ram: Ram)
      requires base > 0 && base % PAGE == 0 && RamOk(P.State(seq(npages, _ => C.FREE), base, map[], map[]), ram)
      ensures Valid() && heap.h.pages == map[] && vm.S() == P.State(seq(npages, _ => C.FREE), base, map[], map[])
      ensures heap.mem == ram
      ensures fresh(heap) && fresh(heap.refs) && fresh(heap.inuse) && fresh(heap.bases) && fresh(vm)
      ensures fresh(vm.frames.cs)
    {
      heap := new Allocator(ram);
      vm := new V.Vm(npages, base);
      new;
      P.BootSound(npages, base);
      EmptyGood();
    }

    /** subpage_kmalloc */
    method SubpageKmalloc(sz: nat) returns (ptr: nat)
      requires Valid() && sz <= LARGEST
      modifies heap, heap.refs, heap.bases, heap.inuse, vm`runs, vm.frames.cs
      ensures Valid() && BlockType(sz) < |old(heap.h).sizes|
      ensures M() == SmallAlloc(old(M()), BlockType(sz), FreeRef(old(heap.inuse[..])))
      ensures ptr == GotAt(old(M()), BlockType(sz), FreeRef(old(heap.inuse[..])))
      ensures WordsKept(old(M()), old(heap.mem), M(), heap.mem)
    {
      hide GoodBut, ListsRep, PagesRep, Size, PerPage, FirstRoom, BlockType, P.Sound, Joint, SmallAlloc, GotAt, Pop,
           WordsKept, RamOk;
      ghost var m, ref := M(), FreeRef(heap.inuse[..]);
      JointParts(m);
      var blktype := BlockType(sz);
      var pr := heap.FindRoom(blktype);
      if pr != -1 {
        RoomCase(m, blktype, ref);
        ptr := heap.TakeFirst(pr);
        SameRam(m, heap.mem, M());
        return;
      }
      ptr := FreshPage(blktype);
    }

    /** The second half of subpage_kmalloc: no page of the right size has a free block. */
    method FreshPage(blktype: nat) returns (ptr: nat)
      requires Valid() && blktype < NSIZES && blktype < |heap.h.sizes| && NeedsPage(M(), blktype)
      modifies heap, heap.refs, heap.bases, heap.inuse, vm`runs, vm.frames.cs
      ensures Valid()
      ensures M() == SmallAlloc(old(M()), blktype, FreeRef(old(heap.inuse[..])))
      ensures ptr == GotAt(old(M()), blktype, FreeRef(old(heap.inuse[..])))
      ensures WordsKept(old(M()), old(heap.mem), M(), heap.mem)
    {
      hide GoodBut, ListsRep, PagesRep, FirstRoom, P.Sound, Joint, SmallAlloc, GotAt, P.KAlloc, FrameAddr, WordsKept,
           RamOk, C.FirstFree, P.Pinned;
      ghost var m, ref := M(), FreeRef(heap.inuse[..]);
      JointParts(m);
      SameRam(m, heap.mem, m);
      var pr := heap.AllocPageref();
      if pr == -1 {
        NoneCase(m, blktype, ref);
        return 0;
      }
      var page := vm.AllocKpages(1);
      FrameIs(m.s, C.FirstFree(m.s.cs));
      if page == 0 {
        NoneCase(m, blktype, ref);
        UndoRef(pr, old(heap.inuse[..]));
        return 0;
      }
      ptr := OnNewPage(pr, page, blktype, m);
    }

    /** freepageref right after allocpageref. */
    method UndoRef(pr: nat, ghost was: seq<bool>)
      requires pr < |was| && !was[pr] && heap.inuse[..] == was[pr := true]
      modifies heap.inuse
      ensures heap.inuse[..] == was
    {
      heap.FreePageref(pr);
      assert heap.inuse[..] == was;
    }

    /** From the new page on. */
    method OnNewPage(pr: nat, page: nat, blktype: nat, ghost m: Mem) returns (ptr: nat)
      requires heap.Shape(-1) && Joint(m) && blktype < NSIZES && |m.h.sizes| == NSIZES && NeedsPage(m, blktype)
      requires C.FirstRunHolds(m.s.cs, 1) && page == FrameAddr(m.s, C.FirstFree(m.s.cs)) && RamOk(m.s, heap.mem)
      requires heap.h == m.h && vm.S() == P.KAlloc(m.s, 1) && pr < NPAGEREFS && pr !in m.h.pages
      requires heap.inuse.Length == NPAGEREFS
      requires forall r :: 0 <= r < NPAGEREFS ==> (heap.inuse[r] <==> r in m.h.pages || r == pr)
      modifies heap, heap.refs, heap.bases
      ensures Valid() && M() == SmallAlloc(m, blktype, pr) && ptr == GotAt(m, blktype, pr)
      ensures WordsKept(m, old(heap.mem), M(), heap.mem)
    {
      hide GoodBut, ListsRep, PagesRep, Size, PerPage, FirstRoom, P.Sound, Joint, SmallAlloc, GotAt, Pop, AddPage,
           SupplyOk,
           P.KAlloc, FrameAddr, WordsKept, RamOk;
      ghost var ram := heap.mem;
      JointParts(m);
      FreshCase(m, blktype, pr);
      FreshFrame(m, ram);
      ptr := heap.TakeFromNew(pr, page, blktype);
      NewPageWords(m, ram, M(), heap.mem);
    }

    /**
     subpage_kfree: the block is wiped and goes to the front of its page's free list, and the
     page goes back when that was its last; a pointer on none of the pages is left to the caller.
     */
    method SubpageKfree(ptr: nat) returns (found: bool)
      requires Valid()
      requires forall r :: OnThis(heap.h, r, ptr) ==> exists j :: BlockAt(heap.h, r, j, ptr)
      modifies heap, heap.refs, heap.bases, heap.inuse, vm`runs, vm.frames.cs
      ensures Valid() && (found <==> exists r :: OnThis(old(heap.h), r, ptr))
      ensures !found ==> K() == old(K())
      ensures found ==> exists r, j :: BlockAt(old(heap.h), r, j, ptr) && Freed(old(K()), K(), r, j)
    {
      hide GoodBut, ListsRep, PagesRep, PageRep, P.Sound, Joint, Freed, Live, RamOk;
      var pr := heap.FindPage(ptr);
      if pr == -1 {
        return false;
      }
      ghost var j :| BlockAt(heap.h, pr, j, ptr);
      PutOnPage(pr, ptr, j);
      found := true;
    }

    /** The rest of subpage_kfree, for a block of page `pr`. */
    method PutOnPage(pr: nat, ptr: nat, ghost j: nat)
      requires Valid() && BlockAt(heap.h, pr, j, ptr)
      modifies heap, heap.refs, heap.bases, heap.inuse, vm`runs, vm.frames.cs
      ensures Valid() && Freed(old(K()), K(), pr, j)
    {
      hide GoodBut, ListsRep, PagesRep, PageRep, Size, PerPage, DropPage, P.Sound, Joint, SmallFree, FrameAt, FrameAddr,
           Live,
           Wiped, Push, RamOk;
      ghost var m, ram := M(), heap.mem;
      SmallFreeEffect(m, pr, j);
      FreeSteps(m, pr, j);
      heap.PutBack(pr, ptr, j);
      FreedRam(m, ram, pr, j, heap.mem);
      PageAt(heap.h, heap.refs[..], heap.mem, pr);
      RefIs(heap.refs[pr], heap.mem[heap.h.pages[pr].addr], heap.h.pages[pr]);
      var blktype := TypeOf(heap.refs[pr].pab);
      if heap.refs[pr].nfree == PerPage(blktype) {
        ReturnPage(pr, blktype, m, j);
      } else {
        NotFull(heap.h, pr);
      }
    }

    /** remove_lists, free_kpages and freepageref for a page that has become wholly free. */
    method ReturnPage(pr: nat, blktype: nat, ghost m: Mem, ghost j: nat)
      requires heap.Shape(pr) && heap.Marks() && Joint(m) && Held(m, Small(pr, j)) && CanFree(m, pr, j)
      requires RamOk(m.s, heap.mem)
      requires heap.h == Push(m.h, pr, j) && vm.S() == m.s && blktype == heap.h.pages[pr].bt
      requires |heap.h.pages[pr].free| == PerPage(blktype)
      modifies heap, heap.refs, heap.bases, heap.inuse, vm`runs, vm.frames.cs
      ensures Valid() && M() == SmallFree(m, pr, j) && pr !in heap.h.pages && heap.mem == old(heap.mem)
    {
      hide GoodBut, ListsRep, PagesRep, PageRep, Size, PerPage, DropPage, P.Sound, Joint, SmallFree, FrameAt, FrameAddr,
           Live, RamOk;
      JointParts(m);
      SmallFreeEffect(m, pr, j);
      FreeSteps(m, pr, j);
      FrameIs(m.s, FrameAt(m.s, m.h.pages[pr].addr));
      PageAt(heap.h, heap.refs[..], heap.mem, pr);
      RefIs(heap.refs[pr], heap.mem[heap.h.pages[pr].addr], heap.h.pages[pr]);
      var prpage := PageAddr(heap.refs[pr].pab);
      heap.RemoveLists(pr, blktype);
      vm.FreeKpages(prpage);
      heap.FreePageref(pr);
      RamStill(m.s, vm.S(), heap.mem, heap.mem);
    }

    /**
     kmalloc.  Sizes within a page of the top of 32-bit arithmetic wrap around to a request for
     no pages: the address of the first free frame comes back, and nothing is allocated.
     */
    method Kmalloc(sz: nat) returns (ptr: nat)
      requires Valid() && sz < WORD
      modifies heap, heap.refs, heap.bases, heap.inuse, vm`runs, vm.frames.cs
      ensures Valid() && |old(heap.h).sizes| == NSIZES
      ensures ptr == 0 <==> if sz >= LARGEST then !C.FirstRunHolds(old(vm.S()).cs, PagesFor(sz))
                            else !CanMalloc(old(heap.h), BlockType(sz),
                              PageOffer(old(M()), FreeRef(old(heap.inuse[..]))))
      ensures ptr == 0 || sz > WORD - PAGE ==> M() == old(M())
      ensures ptr != 0 && sz <= WORD - PAGE ==> exists b :: Handed(old(M()), M(), b, ptr, sz)
      ensures WordsKept(old(M()), old(heap.mem), M(), heap.mem)
    {
      hide GoodBut, ListsRep, PagesRep, PageRep, P.Sound, Joint, Handed, WordsKept, BlockType, GotAt, CanMalloc,
           PageOffer,
           P.KAlloc, RamOk, FrameAddr, P.Pinned;
      ghost var m := M();
      JointParts(m);
      if sz >= LARGEST {
        var npages := (sz + PAGE - 1) % WORD / PAGE;
        PagesEnough(sz);
        ptr := vm.AllocKpages(npages);
        FrameIs(m.s, C.FirstFree(m.s.cs));
        BigCase(m, npages, sz);
        RamStill(m.s, vm.S(), heap.mem, heap.mem);
        SameRam(m, heap.mem, M());
        return;
      }
      ClassIsClose(sz);
      SmallCase(m, BlockType(sz), FreeRef(heap.inuse[..]), sz);
      ptr := SubpageKmalloc(sz);
    }

    /**
     kfree: exactly the block that starts at the address is given back; 0 is ignored.  Address
     spaces and page tables are for their owners to free.
     */
    method Kfree(ptr: nat)
      requires Valid() && (ptr == 0 || exists b :: ClientAt(M(), b, ptr))
      modifies heap, heap.refs, heap.bases, heap.inuse, vm`runs, vm.frames.cs
      ensures Valid()
      ensures ptr == 0 ==> K() == old(K())
      ensures forall b :: ptr != 0 && ClientAt(old(M()), b, ptr) ==> Dropped(old(M()), M(), b)
      ensures WordsKept(old(M()), old(heap.mem), M(), heap.mem)
    {
      hide GoodBut, ListsRep, PagesRep, PageRep, P.Sound, Joint, Dropped, WordsKept, Held, Start, Len, P.KFree,
           ClientAt, Freed,
           OnThis, BlockAt, FrameAt, FrameAddr, RamOk, Client;
      ghost var m := M();
      JointParts(m);
      if ptr == 0 {
        SameRam(m, heap.mem, m);
        return;
      }
      ghost var b :| ClientAt(m, b, ptr);
      OneBlock(m, b, ptr);
      var found := SubpageKfree(ptr);
      if !found {
        assert forall r :: !OnThis(m.h, r, ptr);
        OnNoPage(m, b, ptr);
        assert ptr % PAGE == 0;
        FrameIs(m.s, b.f);
        vm.FreeKpages(ptr);
        BigFree(m, b.f);
        RamStill(m.s, vm.S(), heap.mem, heap.mem);
        SameRam(m, heap.mem, M());
      } else {
        ghost var r, j :| BlockAt(m.h, r, j, ptr) && Freed(old(K()), K(), r, j);
        FreedIs(old(K()), K(), r, j, b, ptr);
      }
    }

    /** A word of a block is written by whoever holds it. */
    method Write(at: nat, value: nat, ghost b: Block)
      requires Valid() && Client(M(), b) && InBlock(M(), b, at)
      modifies heap`mem
      ensures Valid() && Written(old(K()), b, at, value, K())
    {
      hide GoodBut, ListsRep, PagesRep, PageRep, P.Sound, Joint, Held, Start, Len, RamOk, FrameAt, FrameAddr;
      ghost var ram := heap.mem;
      var page, w := at - at % PAGE, at % PAGE / 4;
      WriteOk(M(), ram, b, at);
      heap.Store(page, w, value);
      RamStill(vm.S(), vm.S(), ram, heap.mem);
      StoredWord(ram, at, value);
    }

    /** as_create */
    method Create() returns (ok: bool, a: nat)
      requires Valid()
      modifies vm`spaces, vm`runs, vm.frames.cs
      ensures Valid() && vm.S() == P.Created(old(vm.S())) && WordsKept(old(M()), old(heap.mem), M(), heap.mem)
      ensures ok <==> C.FirstRunHolds(old(vm.S()).cs, P.SPACE_FRAMES)
      ensures ok ==> a == C.FirstFree(old(vm.S()).cs)
    {
      hide GoodBut, ListsRep, PagesRep, P.Sound, Joint, WordsKept, RamOk, P.Created, C.FirstFree, P.Pinned;
      ghost var m := M();
      JointParts(m);
      CreateEffect(m);
      P.CreatedRuns(m.s);
      ok, a := vm.Create();
      RamStill(m.s, vm.S(), heap.mem, heap.mem);
      SameRam(m, heap.mem, M());
    }

    /** incStack and incHeap; the new page is cleared. */
    method Touch(a: nat, vaddr: nat) returns (ok: bool)
      requires Valid() && a in vm.spaces && vaddr < V.KERNEL && P.Well(vm.S()) && !P.At(vm.S(), a, vaddr / PAGE).valid
      modifies vm`spaces, vm`runs, vm.frames.cs, heap`mem
      ensures Valid() && vm.S() == P.GrowTo(old(vm.S()), a, vaddr / PAGE)
      ensures WordsKept(old(M()), old(heap.mem), M(), heap.mem)
      ensures ok <==> P.CanGrow(old(vm.S()), a, vaddr / PAGE)
      ensures ok ==> forall at: nat :: FrameOf(vm.S(), C.FirstFree(old(vm.S()).cs), at) ==> Word(heap.mem, at) == 0
    {
      hide GoodBut, ListsRep, PagesRep, P.Sound, Joint, WordsKept, RamOk, P.GrowTo, C.FirstFree, P.Lookup, P.Shaped,
           P.CanGrow,
           P.NeedsTable, P.TableFor, P.Pinned, FrameAddr;
      ghost var m, ram := M(), heap.mem;
      JointParts(m);
      GrowEffect(m, a, vaddr / PAGE);
      P.GrowRuns(m.s, a, vaddr / PAGE);
      var paddr;
      ok, paddr := vm.IncPage(a, vaddr);
      RamStill(m.s, vm.S(), ram, ram);
      SameRam(m, ram, M());
      if ok {
        PageApart(m, a, vaddr / PAGE);
        FrameIs(m.s, C.FirstFree(m.s.cs));
        heap.Clear(paddr + KSEG0);
        Cleared(m, ram, M(), heap.mem, C.FirstFree(m.s.cs));
      }
    }

    /** as_destroy */
    method Destroy(a: nat)
      requires Valid() && a in vm.spaces
      modifies vm`spaces, vm`runs, vm.frames.cs
      ensures a < |old(vm.S()).cs| && vm.S() == P.Destroyed(old(vm.S()), a)
      ensures Valid() && WordsKept(old(M()), old(heap.mem), M(), heap.mem)
    {
      hide GoodBut, ListsRep, PagesRep, P.Sound, Joint, WordsKept, RamOk, P.Destroyed, P.Pinned;
      ghost var m := M();
      JointParts(m);
      DestroyEffect(m, a);
      P.DestroyedRuns(m.s, a);
      vm.Destroy(a);
      RamStill(m.s, vm.S(), heap.mem, heap.mem);
      SameRam(m, heap.mem, M());
    }
  }

  // ---------------------------------------------------------------------------------------
  // Words

  lemma SameRam(m: Mem, ram: Ram, n: Mem)
    ensures WordsKept(m, ram, n, ram)
  {
    hide Held, Start, Len, Word, Client;
  }

  lemma RamStill(s: P.State, t: P.State, ram: Ram, ram': Ram)
    requires RamOk(s, ram) && t.base == s.base && |t.cs| == |s.cs| && ram'.Keys >= ram.Keys
    requires forall a :: a in ram ==> |ram'[a]| == |ram[a]|
    ensures RamOk(t, ram')
  {
    hide FrameAddr;
    forall f | 0 <= f < |t.cs| ensures FrameAddr(t, f) in ram' && |ram'[FrameAddr(t, f)]| == PAGE / 4 {
      SameAddr(s, t, f);
    }
  }

  lemma SameAddr(s: P.State, t: P.State, f: nat)
    requires t.base == s.base
    ensures FrameAddr(t, f) == FrameAddr(s, f)
  {
  }

  lemma FrameIs(s: P.State, f: nat)
    ensures FrameAddr(s, f) == V.KERNEL + s.base + f * C.PAGE && FrameAddr(s, f) != 0
    ensures FrameAddr(s, f + 1) == FrameAddr(s, f) + PAGE
    ensures (FrameAddr(s, f) - V.KERNEL - s.base) / C.PAGE == f && s.base % PAGE == 0 ==> FrameAddr(s, f) % PAGE == 0
  {
  }

  /** An address in a frame. */
  predicate FrameOf(s: P.State, f: nat, at: nat) {
    at % 4 == 0 && FrameAddr(s, f) <= at < FrameAddr(s, f) + PAGE
  }

  /** Replacing a page of words touches no word of another. */
  lemma OnePageOutside(ram: Ram, page: nat, words: seq<nat>)
    requires page % PAGE == 0
    ensures Outside(ram, ram[page := words], page, page + PAGE)
  {
    forall at: nat | at % 4 == 0 && !(page <= at < page + PAGE) ensures Word(ram[page := words], at) == Word(ram, at) {
      PageOfAddr(at, page);
    }
  }

  lemma PageOfAddr(at: nat, page: nat)
    requires page % PAGE == 0
    ensures at - at % PAGE == page <==> page <= at < page + PAGE
    ensures (at - at % PAGE) % PAGE == 0
  {
  }

  lemma FreshFrame(m: Mem, ram: Ram)
    requires Joint(m) && C.FirstRunHolds(m.s.cs, 1) && RamOk(m.s, ram)
    ensures var f := C.FirstFree(m.s.cs);
            && FrameAddr(m.s, f) in ram && |ram[FrameAddr(m.s, f)]| == WORDS && FrameAddr(m.s, f) % PAGE == 0
            && forall i :: i in m.s.runs ==> !(i <= f < i + m.s.runs[i])
  {
    hide FrameAddr, Joint, P.Sound;
    JointParts(m);
    P.FreeIsLoose(m.s, C.FirstFree(m.s.cs));
    AddrAligned(m.s, C.FirstFree(m.s.cs));
  }

  lemma NewPageWords(m: Mem, ram: Ram, n: Mem, ram': Ram)
    requires Joint(m) && C.FirstRunHolds(m.s.cs, 1) && RamOk(m.s, ram)
    requires var page := FrameAddr(m.s, C.FirstFree(m.s.cs));
             page in ram' && ram' == ram[page := ram'[page]] && |ram'[page]| == WORDS
    requires n.s == P.KAlloc(m.s, 1)
    ensures WordsKept(m, ram, n, ram') && RamOk(n.s, ram')
  {
    hide FrameAddr, Joint, P.Sound, Held, Start, Len, Client, WordsKept, Outside;
    var f := C.FirstFree(m.s.cs);
    FreshFrame(m, ram);
    FrameIs(m.s, f);
    OnePageOutside(ram, FrameAddr(m.s, f), ram'[FrameAddr(m.s, f)]);
    FrameKept(m, ram, n, ram', f);
    RamStill(m.s, n.s, ram, ram');
  }

  /** Words of a frame in no run are in no block. */
  lemma FrameKept(m: Mem, ram: Ram, n: Mem, ram': Ram, f: nat)
    requires Joint(m) && Outside(ram, ram', FrameAddr(m.s, f), FrameAddr(m.s, f) + PAGE)
    requires forall i :: i in m.s.runs ==> !(i <= f < i + m.s.runs[i])
    ensures WordsKept(m, ram, n, ram')
  {
    hide FrameAddr, Joint, Held, Start, Len, WordsKept, Outside;
    FrameIs(m.s, f);
    forall b | Client(m, b) && Held(n, b)
      ensures Start(m, b) + Len(m, b) <= FrameAddr(m.s, f) || FrameAddr(m.s, f) + PAGE <= Start(m, b)
    {
      FrameIsApart(m, b, f);
    }
    KeptOutside(m, ram, n, ram', FrameAddr(m.s, f), FrameAddr(m.s, f) + PAGE);
  }

  lemma PageApart(m: Mem, a: nat, vpn: nat)
    requires Joint(m) && a in m.s.spaces && vpn < P.PAGES && P.Well(m.s) && P.CanGrow(m.s, a, vpn)
    ensures var f := C.FirstFree(m.s.cs);
            && f < |m.s.cs| && (forall i :: i in m.s.runs ==> !(i <= f < i + m.s.runs[i]))
            && forall r :: r in m.h.pages ==> m.h.pages[r].addr != FrameAddr(m.s, f)
  {
    hide Joint, P.Sound, FrameAddr, FrameAt;
    JointParts(m);
    var f := C.FirstFree(m.s.cs);
    P.FreeIsLoose(m.s, f);
    forall r | r in m.h.pages ensures m.h.pages[r].addr != FrameAddr(m.s, f) {
      NotThatPage(m, r, f);
    }
  }

  lemma NotThatPage(m: Mem, r: nat, f: nat)
    requires Joint(m) && r in m.h.pages && forall i :: i in m.s.runs ==> !(i <= f < i + m.s.runs[i])
    ensures m.h.pages[r].addr != FrameAddr(m.s, f)
  {
    hide GoodBut, P.Sound, P.Pinned, FrameAddr, FrameAt;
    assert Backed(m, r);
    FrameAtAddr(m.s, f);
  }

  lemma Cleared(m: Mem, ram: Ram, n: Mem, ram': Ram, f: nat)
    requires Joint(m) && RamOk(m.s, ram) && f < |m.s.cs| && n.s.base == m.s.base && |n.s.cs| == |m.s.cs|
    requires forall i :: i in m.s.runs ==> !(i <= f < i + m.s.runs[i])
    requires ram' == ram[FrameAddr(m.s, f) := seq(WORDS, _ => 0)]
    ensures WordsKept(m, ram, n, ram') && RamOk(n.s, ram')
    ensures forall at: nat :: FrameOf(n.s, f, at) ==> Word(ram', at) == 0
  {
    hide FrameAddr, Joint, P.Sound, Held, Start, Len, Client, WordsKept, Outside;
    JointParts(m);
    FrameIs(m.s, f);
    AddrAligned(m.s, f);
    OnePageOutside(ram, FrameAddr(m.s, f), seq(WORDS, _ => 0));
    FrameKept(m, ram, n, ram', f);
    RamStill(m.s, n.s, ram, ram');
    SameAddr(m.s, n.s, f);
    forall at: nat | FrameOf(n.s, f, at) ensures Word(ram', at) == 0 {
      PageOfAddr(at, FrameAddr(m.s, f));
    }
  }

  /** The word at an address of a block is in memory, and no link of the allocator. */
  lemma WriteOk(m: Mem, ram: Ram, b: Block, at: nat)
    requires Joint(m) && RamOk(m.s, ram) && Held(m, b) && InBlock(m, b, at)
    ensures var page, w := at - at % PAGE, at % PAGE / 4;
            && page in ram && w < |ram[page]|
            && forall r :: r in m.h.pages && m.h.pages[r].addr == page ==> exists j :: LiveWord(m.h, r, j, w)
  {
    hide Joint, P.Sound, FrameAddr, Held, Start, Len, FrameAt, P.Pinned;
    JointParts(m);
    var g := InFrame(m, b, at);
    PageOfAddr(at, FrameAddr(m.s, g));
    forall r | r in m.h.pages && m.h.pages[r].addr == at - at % PAGE
      ensures exists j :: LiveWord(m.h, r, j, at % PAGE / 4)
    {
      OnHeapPage(m, b, at, g, r);
    }
  }

  /** The frame an address of a block is in. */
  lemma InFrame(m: Mem, b: Block, at: nat) returns (g: nat)
    requires Joint(m) && Held(m, b) && InBlock(m, b, at)
    ensures g < |m.s.cs| && HomeOf(m, b) in m.s.runs && HomeOf(m, b) <= g < HomeOf(m, b) + m.s.runs[HomeOf(m, b)]
    ensures FrameAddr(m.s, g) <= at < FrameAddr(m.s, g) + PAGE && FrameAddr(m.s, g) % PAGE == 0
  {
    hide GoodBut, P.Sound, P.Pinned, Held, Start, Len, HomeOf;
    Home(m, b);
    JointParts(m);
    var f: nat := HomeOf(m, b);
    g := f + (at - FrameAddr(m.s, f)) / PAGE;
    WithinRun(m.s, f, m.s.runs[f], at);
    AddrAligned(m.s, g);
    RunBound(m.s, f);
  }

  lemma WithinRun(s: P.State, f: nat, n: nat, at: nat)
    requires FrameAddr(s, f) <= at < FrameAddr(s, f) + n * PAGE
    ensures var g := f + (at - FrameAddr(s, f)) / PAGE; f <= g < f + n && FrameAddr(s, g) <= at < FrameAddr(s, g) + PAGE
  {
  }

  lemma OnHeapPage(m: Mem, b: Block, at: nat, g: nat, r: nat)
    requires Joint(m) && Held(m, b) && InBlock(m, b, at) && r in m.h.pages
    requires m.h.pages[r].addr == at - at % PAGE == FrameAddr(m.s, g)
    requires HomeOf(m, b) in m.s.runs && HomeOf(m, b) <= g < HomeOf(m, b) + m.s.runs[HomeOf(m, b)]
    ensures b.Small? && LiveWord(m.h, r, b.j, at % PAGE / 4)
  {
    hide GoodBut, P.Sound, P.Pinned, FrameAddr, FrameAt, Size, PerPage;
    assert Backed(m, r);
    FrameAtAddr(m.s, g);
    var f: nat := HomeOf(m, b);
    if f != g {
      RunsDiffer(m.s, f, g);
    }
    OneHome(m, b, r);
    WordInBlock(m.h, r, b.j, at);
  }

  lemma OneHome(m: Mem, b: Block, r: nat)
    requires Joint(m) && Held(m, b) && r in m.h.pages && HomeOf(m, b) == FrameAt(m.s, m.h.pages[r].addr)
    ensures b.Small? && b.r == r
  {
    hide GoodBut, P.Sound, P.Pinned, FrameAddr, FrameAt, Size, PerPage;
    if b.Small? && b.r != r {
      OtherFrames(m, b.r, r);
    }
  }

  lemma WordInBlock(h: Heap, r: nat, j: nat, at: nat)
    requires Live(h, r, j) && h.pages[r].addr == at - at % PAGE
    requires at % 4 == 0 && Address(h, r, j) <= at < Address(h, r, j) + Size(h.pages[r].bt)
    ensures LiveWord(h, r, j, at % PAGE / 4)
  {
    hide PerPage, Size;
    BlockWord(h.pages[r].bt, j);
    WordApart(h.pages[r].bt, j, j);
  }

  lemma StoredWord(ram: Ram, at: nat, value: nat)
    requires at % 4 == 0 && at - at % PAGE in ram && at % PAGE / 4 < |ram[at - at % PAGE]|
    ensures var ram' := ram[at - at % PAGE := Stored(ram[at - at % PAGE], at % PAGE / 4, value)];
            Word(ram', at) == value && Outside(ram, ram', at, at + 4)
  {
    var ram' := ram[at - at % PAGE := Stored(ram[at - at % PAGE], at % PAGE / 4, value)];
    forall x: nat | x % 4 == 0 && !(at <= x < at + 4) ensures Word(ram', x) == Word(ram, x) {
      if x - x % PAGE == at - at % PAGE {
        OtherWord(at, x);
      }
    }
  }

  lemma OtherWord(at: nat, x: nat)
    requires at % 4 == 0 && x % 4 == 0 && x != at && x - x % PAGE == at - at % PAGE
    ensures x % PAGE / 4 != at % PAGE / 4
  {
    var p, q := at % PAGE, x % PAGE;
    assert p != q;
    PageWord(at);
    PageWord(x);
  }

  lemma PageWord(at: nat)
    requires at % 4 == 0
    ensures at % PAGE == 4 * (at % PAGE / 4)
  {
    assert at == PAGE * (at / PAGE) + at % PAGE;
  }

  /** The words of a page once a block of it is freed. */
  predicate MemFreed(ram: Ram, ram': Ram, p: Pg, j: nat) {
    && p.addr in ram && p.addr in ram' && p.bt < NSIZES && ram' == ram[p.addr := ram'[p.addr]]
    && Wiped(ram[p.addr], ram'[p.addr], p.bt, j)
  }

  lemma FreedRam(m: Mem, ram: Ram, r: nat, j: nat, ram': Ram)
    requires RamOk(m.s, ram) && r in m.h.pages && MemFreed(ram, ram', m.h.pages[r], j)
    ensures RamOk(m.s, ram')
  {
    hide Size;
    RamStill(m.s, m.s, ram, ram');
  }

  lemma FreedOutside(ram: Ram, ram': Ram, p: Pg, j: nat)
    requires MemFreed(ram, ram', p, j) && p.addr % PAGE == 0 && j < PerPage(p.bt)
    ensures Outside(ram, ram', p.addr + j * Size(p.bt), p.addr + j * Size(p.bt) + Size(p.bt))
  {
    hide PerPage, Size;
    BlockWord(p.bt, j);
    WordApart(p.bt, j, j);
    forall at: nat | at % 4 == 0 && !(p.addr + j * Size(p.bt) <= at < p.addr + j * Size(p.bt) + Size(p.bt))
      ensures Word(ram', at) == Word(ram, at)
    {
      PageOfAddr(at, p.addr);
      if at - at % PAGE == p.addr {
        NotInBlock(p.addr, j * Size(p.bt), Size(p.bt), at);
      }
    }
  }

  lemma NotInBlock(page: nat, off: nat, size: nat, at: nat)
    requires at % 4 == 0 && page % PAGE == 0 && page == at - at % PAGE && off % 4 == 0 && size % 4 == 0
    requires !(page + off <= at < page + off + size)
    ensures !(off / 4 <= at % PAGE / 4 < off / 4 + size / 4)
  {
  }

  /** Block `b` is the answer to a request for `sz` bytes. */
  /** The most a request for `sz` bytes is given: less than twice as much, or less than a page more if it is large. */
  function Most(sz: nat): nat {
    if sz >= LARGEST then sz + PAGE - 1 else if sz <= 16 then 16 else 2 * sz - 1
  }

  lemma ClassIsClose(sz: nat)
    requires sz < LARGEST
    ensures sz <= Size(BlockType(sz)) <= Most(sz)
  {
  }

  ghost predicate Handed(m: Mem, m': Mem, b: Block, ptr: nat, sz: nat) {
    Added(m, m', b) && Client(m', b) && Start(m', b) == ptr && sz <= Len(m', b) <= Most(sz)
  }

  ghost predicate HeldAt(m: Mem, b: Block, ptr: nat) {
    Held(m, b) && Start(m, b) == ptr
  }

  ghost predicate ClientAt(m: Mem, b: Block, ptr: nat) {
    Client(m, b) && Start(m, b) == ptr
  }

  lemma BigCase(m: Mem, n: nat, sz: nat)
    requires Joint(m) && (n >= 1 ==> sz <= n * PAGE <= Most(sz))
    ensures Joint(m.(s := P.KAlloc(m.s, n)))
    ensures n == 0 || !C.FirstRunHolds(m.s.cs, n) ==> P.KAlloc(m.s, n) == m.s
    ensures n >= 1 && C.FirstRunHolds(m.s.cs, n) ==>
              exists b :: Handed(m, m.(s := P.KAlloc(m.s, n)), b, FrameAddr(m.s, C.FirstFree(m.s.cs)), sz)
    ensures FrameAddr(m.s, C.FirstFree(m.s.cs)) != 0
  {
    hide Joint, Added, C.FirstFree, C.Taken, Held, Start, Len;
    if n >= 1 && C.FirstRunHolds(m.s.cs, n) {
      BigAlloc(m, n);
      var f := C.FirstFree(m.s.cs);
      assert Handed(m, m.(s := P.KAlloc(m.s, n)), Big(f), FrameAddr(m.s, f), sz);
    }
  }

  lemma SmallCase(m: Mem, bt: nat, r: int, sz: nat)
    requires Joint(m) && bt < NSIZES && |m.h.sizes| == NSIZES && (r >= 0 ==> r !in m.h.pages)
    requires sz <= Size(bt) <= Most(sz)
    ensures GotAt(m, bt, r) == 0 <==> !CanMalloc(m.h, bt, PageOffer(m, r))
    ensures GotAt(m, bt, r) == 0 ==> SmallAlloc(m, bt, r) == m
    ensures GotAt(m, bt, r) != 0 ==> exists b :: Handed(m, SmallAlloc(m, bt, r), b, GotAt(m, bt, r), sz)
  {
    hide GoodBut, P.Sound, Joint, Size, PerPage, PageFor, BlockFor, Ready, CanMalloc, PageOffer, SmallAlloc, Held,
         Start, Len, SupplyOk;
    OfferOk(m, r);
    JointParts(m);
    SmallAllocEffect(m, bt, r);
    var sup := PageOffer(m, r);
    if CanMalloc(m.h, bt, sup) {
      GotIs(m, bt, r);
      var b := Small(PageFor(m.h, bt, sup), BlockFor(m.h, bt, sup));
      SmallIsClient(SmallAlloc(m, bt, r), b);
      assert Handed(m, SmallAlloc(m, bt, r), b, GotAt(m, bt, r), sz);
    }
  }

  lemma SmallIsClient(m: Mem, b: Block)
    requires Joint(m) && Held(m, b) && b.Small?
    ensures Client(m, b)
  {
  }

  /** The address handed out is where the new block starts. */
  lemma GotIs(m: Mem, bt: nat, r: int)
    requires Joint(m) && bt < NSIZES && |m.h.sizes| == NSIZES && (r >= 0 ==> r !in m.h.pages)
    requires CanMalloc(m.h, bt, PageOffer(m, r))
    requires Held(SmallAlloc(m, bt, r), Small(PageFor(m.h, bt, PageOffer(m, r)), BlockFor(m.h, bt, PageOffer(m, r))))
    ensures GotAt(m, bt, r) != 0
    ensures Start(SmallAlloc(m, bt, r), Small(PageFor(m.h, bt, PageOffer(m, r)), BlockFor(m.h, bt, PageOffer(m, r)))) ==
              GotAt(m, bt, r)
  {
    hide Joint, GoodBut, Size, PerPage, FirstRoom, AddPage, SupplyOk, FrameAddr, Pop, SmallAlloc, GotAt, Live, Address,
         P.KAlloc;
    JointParts(m);
    if NeedsPage(m, bt) {
      FreshCase(m, bt, r);
      AboveKernel(m.s, C.FirstFree(m.s.cs));
      PopAddress(AddPage(m.h, r, FrameAddr(m.s, C.FirstFree(m.s.cs)), bt), r);
    } else {
      RoomCase(m, bt, r);
      PageOf(m.h, -1, m.h.sizes[bt][FirstRoom(m.h, m.h.sizes[bt])]);
      PopAddress(m.h, m.h.sizes[bt][FirstRoom(m.h, m.h.sizes[bt])]);
    }
  }

  lemma PopAddress(h: Heap, p: nat)
    requires p in h.pages && h.pages[p].free != [] && Live(Pop(h, p), p, h.pages[p].free[0])
    ensures h.pages[p].bt < NSIZES
    ensures Address(Pop(h, p), p, h.pages[p].free[0]) == h.pages[p].addr + h.pages[p].free[0] * Size(h.pages[p].bt)
  {
    hide PerPage, Size;
  }

  lemma LenPositive(m: Mem, b: Block)
    requires Joint(m) && Held(m, b)
    ensures Len(m, b) > 0
  {
    hide GoodBut, PerPage, P.Mapped, P.Back, P.Well, P.Housed, P.Pinned;
    assert b.Big? ==> P.RunOk(m.s, b.f);
  }

  /** A pointer is the start of one block only, and on no page but that block's. */
  lemma OneBlock(m: Mem, b: Block, ptr: nat)
    requires Joint(m) && ClientAt(m, b, ptr)
    ensures forall c :: HeldAt(m, c, ptr) ==> c == b
    ensures forall c :: ClientAt(m, c, ptr) ==> c == b
    ensures forall r :: OnThis(m.h, r, ptr) ==> b.Small? && r == b.r && BlockAt(m.h, r, b.j, ptr)
  {
    hide Joint, Held, Start, Len;
    forall c | HeldAt(m, c, ptr) ensures c == b {
      LenPositive(m, b);
      LenPositive(m, c);
      if c != b {
        BlocksApart(m, b, c);
      }
    }
    forall c | ClientAt(m, c, ptr) ensures c == b {
      assert HeldAt(m, c, ptr);
    }
    forall r | OnThis(m.h, r, ptr) ensures b.Small? && r == b.r && BlockAt(m.h, r, b.j, ptr) {
      OnePage(m, b, ptr, r);
    }
  }

  lemma OnePage(m: Mem, b: Block, ptr: nat, r: nat)
    requires Joint(m) && HeldAt(m, b, ptr) && OnThis(m.h, r, ptr)
    ensures b.Small? && r == b.r && BlockAt(m.h, r, b.j, ptr)
  {
    hide GoodBut, P.Sound, Size, PerPage;
    Home(m, b);
    LenPositive(m, b);
    assert Backed(m, r);
    var f, g := HomeOf(m, b), FrameAt(m.s, m.h.pages[r].addr);
    var n := m.s.runs[f];
    if f != g {
      RunsDiffer(m.s, f, g);
      FramesBeside(m.s, f, n, g, ptr);
    }
    if b.Small? && b.r != r {
      OtherFrames(m, b.r, r);
    }
  }

  lemma FramesBeside(s: P.State, f: nat, n: nat, g: nat, ptr: nat)
    requires f + n <= g || g + 1 <= f
    requires FrameAddr(s, f) <= ptr < FrameAddr(s, f) + n * PAGE
    ensures !(FrameAddr(s, g) <= ptr < FrameAddr(s, g) + PAGE)
  {
  }

  /** A block on no page is a large one. */
  lemma OnNoPage(m: Mem, b: Block, ptr: nat)
    requires Joint(m) && ClientAt(m, b, ptr) && forall r :: !OnThis(m.h, r, ptr)
    ensures b.Big? && Client(m, b) && ptr % PAGE == 0 && FrameAt(m.s, ptr) == b.f && ptr == FrameAddr(m.s, b.f)
    ensures b.f in m.s.runs
  {
    hide GoodBut, P.Sound, Live, Address, FrameAt, FrameAddr, OnThis;
    if b.Small? {
      OnItsPage(m.h, b.r, b.j);
    } else {
      FrameAtAddr(m.s, b.f);
      AddrAligned(m.s, b.f);
    }
  }

  lemma OnItsPage(h: Heap, r: nat, j: nat)
    requires Live(h, r, j)
    ensures OnThis(h, r, Address(h, r, j))
  {
    hide Size, PerPage;
    WithinPage(h.pages[r].bt, j);
    SizePositive(h.pages[r].bt);
    Below(j, Size(h.pages[r].bt));
  }

  lemma Below(j: nat, size: nat)
    ensures j * size >= 0
  {
  }

  lemma SizePositive(bt: nat)
    requires bt < NSIZES
    ensures Size(bt) > 0
  {
  }

  predicate BlockAt(h: Heap, r: nat, j: nat, ptr: nat) {
    Live(h, r, j) && ptr == Address(h, r, j)
  }

  predicate CanFree(m: Mem, r: nat, j: nat) {
    Live(m.h, r, j) && m.h.pages[r].bt < |m.h.sizes| && FrameAt(m.s, m.h.pages[r].addr) < |m.s.cs|
  }

  ghost predicate Freed(x: KState, y: KState, r: nat, j: nat) {
    CanFree(x.m, r, j) && y.m == SmallFree(x.m, r, j) && MemFreed(x.ram, y.ram, x.m.h.pages[r], j)
  }

  lemma FreedIs(x: KState, y: KState, r: nat, j: nat, b: Block, ptr: nat)
    requires Joint(x.m) && BlockAt(x.m.h, r, j, ptr) && Freed(x, y, r, j)
    requires forall c :: HeldAt(x.m, c, ptr) ==> c == b
    ensures Dropped(x.m, y.m, b) && WordsKept(x.m, x.ram, y.m, y.ram)
  {
    hide Joint, SmallFree, FrameAt, FrameAddr, Size, PerPage, Outside, WordsKept, MemFreed;
    assert HeldAt(x.m, Small(r, j), ptr);
    SmallFreeEffect(x.m, r, j);
    AlignedPage(x.m, r);
    FreedOutside(x.ram, y.ram, x.m.h.pages[r], j);
    DroppedKeeps(x.m, x.ram, y.m, y.ram, b);
  }

  lemma AlignedPage(m: Mem, r: nat)
    requires Joint(m) && r in m.h.pages
    ensures m.h.pages[r].addr % PAGE == 0
  {
    hide P.Sound, P.Pinned, FrameAt, FrameAddr, PerPage, Size, Lists, PagesApart;
    assert PgOk(m.h.pages[r]);
  }

  lemma DroppedKeeps(m: Mem, ram: Ram, n: Mem, ram': Ram, b: Block)
    requires Joint(m) && Dropped(m, n, b) && Outside(ram, ram', Start(m, b), Start(m, b) + Len(m, b))
    ensures WordsKept(m, ram, n, ram')
  {
    hide Joint, Held, Start, Len, Outside, WordsKept;
    forall c | Client(m, c) && Held(n, c)
      ensures Start(m, c) + Len(m, c) <= Start(m, b) || Start(m, b) + Len(m, b) <= Start(m, c)
    {
      BlocksApart(m, b, c);
    }
    KeptOutside(m, ram, n, ram', Start(m, b), Start(m, b) + Len(m, b));
  }

  lemma NotFull(h: Heap, r: nat)
    requires GoodBut(h, r) && r in h.pages && h.pages[r].bt < NSIZES && |h.pages[r].free| != PerPage(h.pages[r].bt)
    ensures Good(h)
  {
    hide PerPage, Size;
    PageOf(h, r, r);
    Bounded(h.pages[r].free, PerPage(h.pages[r].bt));
  }

  /** How freeing a block comes about. */
  lemma FreeSteps(m: Mem, r: nat, j: nat)
    requires Joint(m) && CanFree(m, r, j)
    ensures var h1 := Push(m.h, r, j);
            && r in h1.pages && h1.pages.Keys == m.h.pages.Keys && h1.pages[r].bt == m.h.pages[r].bt < NSIZES
            && h1.pages[r].addr == m.h.pages[r].addr
            && SmallFree(m, r, j) == (if |h1.pages[r].free| == PerPage(m.h.pages[r].bt)
                                      then Mem(DropPage(h1, r), P.KFree(m.s, FrameAt(m.s, m.h.pages[r].addr)))
                                        else Mem(h1, m.s))
            && FrameAt(m.s, m.h.pages[r].addr) in m.s.runs
            && m.h.pages[r].addr == FrameAddr(m.s, FrameAt(m.s, m.h.pages[r].addr))
            && r !in DropPage(h1, r).pages
  {
    hide GoodBut, P.Sound, FrameAt, FrameAddr, PerPage, Size;
    assert Backed(m, r);
  }

  /** Where the block is that an allocation hands out, 0 for none. */
  function GotAt(m: Mem, bt: nat, r: int): nat
    requires bt < NSIZES && bt < |m.h.sizes|
  {
    var sup := PageOffer(m, r);
    if CanMalloc(m.h, bt, sup) && PageFor(m.h, bt, sup) in Ready(m.h, bt, sup).pages &&
      Ready(m.h, bt, sup).pages[PageFor(m.h, bt, sup)].free != [] then
      Ready(m.h, bt, sup).pages[PageFor(m.h, bt, sup)].addr + BlockFor(m.h, bt, sup) * Size(bt)
    else 0
  }

  /** A page has room. */
  lemma RoomCase(m: Mem, bt: nat, r: int)
    requires Joint(m) && bt < NSIZES && |m.h.sizes| == NSIZES && !NeedsPage(m, bt) && (r >= 0 ==> r !in m.h.pages)
    ensures var p := m.h.sizes[bt][FirstRoom(m.h, m.h.sizes[bt])];
            && p in m.h.pages && m.h.pages[p].free != [] && m.h.pages[p].bt == bt && GoodBut(m.h, p)
            && SmallAlloc(m, bt, r) == Mem(Pop(m.h, p), m.s) && Joint(Mem(Pop(m.h, p), m.s))
            && GotAt(m, bt, r) == m.h.pages[p].addr + m.h.pages[p].free[0] * Size(bt)
  {
    hide GoodBut, P.Sound, Size, PerPage, FirstRoom, Joint, SupplyOk, FrameAddr, Live, Added, Pop;
    JointParts(m);
    OfferOk(m, r);
    SmallAllocEffect(m, bt, r);
    ReadyGood(m.h, bt, PageOffer(m, r));
    Weaken(m.h, PageFor(m.h, bt, PageOffer(m, r)));
  }

  /** A new page is to be had. */
  lemma FreshCase(m: Mem, bt: nat, r: int)
    requires Joint(m) && bt < NSIZES && |m.h.sizes| == NSIZES && NeedsPage(m, bt) && r >= 0 && r !in m.h.pages
    requires C.FirstRunHolds(m.s.cs, 1)
    ensures var page := FrameAddr(m.s, C.FirstFree(m.s.cs));
            var h1 := AddPage(m.h, r, page, bt);
            && SupplyOk(m.h, NewPage(r, page)) && (forall q :: q in m.h.pages ==> m.h.pages[q].addr != page)
            && r in h1.pages && h1.pages[r].free != [] && h1.pages[r].bt == bt && h1.pages[r].addr == page
            && SmallAlloc(m, bt, r) == Mem(Pop(h1, r), P.KAlloc(m.s, 1)) && Joint(Mem(Pop(h1, r), P.KAlloc(m.s, 1)))
            && GotAt(m, bt, r) == page + h1.pages[r].free[0] * Size(bt)
  {
    hide GoodBut, P.Sound, Size, PerPage, FirstRoom, Joint, FrameAddr, Live, Added, Pop, P.KAlloc;
    JointParts(m);
    OfferOk(m, r);
    SmallAllocEffect(m, bt, r);
    ReadyGood(m.h, bt, PageOffer(m, r));
  }

  lemma NoneCase(m: Mem, bt: nat, r: int)
    requires bt < NSIZES && bt < |m.h.sizes| && NeedsPage(m, bt) && (r < 0 || !C.FirstRunHolds(m.s.cs, 1))
    ensures SmallAlloc(m, bt, r) == m && GotAt(m, bt, r) == 0
    ensures P.KAlloc(m.s, 1) == m.s || r < 0
  {
    hide FirstRoom, FrameAddr;
  }
}
