/**
 All of kernel memory: small blocks on pages of their own, large blocks as runs of frames, and
 user pages, side by side in the same physical memory.
 */
module KmallocSpec {
  import opened KHeapSpec
  import P = PageTable
  import C = Coremap

  const KSEG0 := 0x8000_0000
  const WORD := 0x1_0000_0000

  datatype Mem = Mem(h: Heap, s: P.State)

  /** The kernel's address of a frame. */
  function FrameAddr(s: P.State, f: nat): nat {
    KSEG0 + s.base + f * PAGE
  }

  function FrameAt(s: P.State, addr: nat): nat {
    if addr < KSEG0 + s.base then 0 else (addr - KSEG0 - s.base) / PAGE
  }

  lemma FrameAtAddr(s: P.State, f: nat)
    ensures FrameAt(s, FrameAddr(s, f)) == f
  {
  }

  lemma AddrAligned(s: P.State, f: nat)
    requires s.base % PAGE == 0
    ensures FrameAddr(s, f) % PAGE == 0
  {
  }

  /** A page of small blocks is one frame in kernel hands that is nothing else. */
  predicate Backed(m: Mem, r: nat)
    requires r in m.h.pages && P.Well(m.s)
  {
    var f := FrameAt(m.s, m.h.pages[r].addr);
    m.h.pages[r].addr == FrameAddr(m.s, f) && f in m.s.runs && m.s.runs[f] == 1 && !P.Pinned(m.s, f)
  }

  ghost predicate Joint(m: Mem) {
    && Good(m.h) && P.Sound(m.s) && P.Well(m.s) && m.s.base > 0 && m.s.base % PAGE == 0
    && forall r :: r in m.h.pages ==> Backed(m, r)
  }

  // ---------------------------------------------------------------------------------------
  // Blocks

  datatype Block = Small(r: nat, j: nat) | Big(f: nat)

  predicate HeapFrame(m: Mem, f: nat) {
    exists r :: r in m.h.pages && FrameAt(m.s, m.h.pages[r].addr) == f
  }

  /** A block that was handed out and not given back. */
  predicate Held(m: Mem, b: Block) {
    match b
    case Small(r, j) => Live(m.h, r, j)
    case Big(f) => f in m.s.runs && !HeapFrame(m, f)
  }

  function Start(m: Mem, b: Block): nat
    requires Held(m, b)
  {
    match b
    case Small(r, j) => Address(m.h, r, j)
    case Big(f) => FrameAddr(m.s, f)
  }

  function Len(m: Mem, b: Block): nat
    requires Held(m, b)
  {
    match b
    case Small(r, j) => BlockSize(m.h, r, j)
    case Big(f) => m.s.runs[f] * PAGE
  }

  /** Frames `f` up to `f + n` hold the whole of a block. */
  predicate Inside(m: Mem, b: Block, f: nat, n: nat)
    requires Held(m, b)
  {
    FrameAddr(m.s, f) <= Start(m, b) && Start(m, b) + Len(m, b) <= FrameAddr(m.s, f) + n * PAGE
  }

  function HomeOf(m: Mem, b: Block): nat
    requires Held(m, b)
  {
    match b
    case Small(r, _) => FrameAt(m.s, m.h.pages[r].addr)
    case Big(f) => f
  }

  lemma Home(m: Mem, b: Block)
    requires Joint(m) && Held(m, b)
    ensures HomeOf(m, b) in m.s.runs && Inside(m, b, HomeOf(m, b), m.s.runs[HomeOf(m, b)])
  {
    hide GoodBut, P.Sound, P.Pinned, Size, PerPage;
    match b {
      case Small(r, j) =>
        assert Backed(m, r);
        WithinPage(m.h.pages[r].bt, j);
      case Big(f) =>
    }
  }

  lemma RunsDiffer(s: P.State, f: nat, g: nat)
    requires P.Sound(s) && f in s.runs && g in s.runs && f != g
    ensures f + s.runs[f] <= g || g + s.runs[g] <= f
  {
    hide P.RunOk, P.Back, P.Mapped, P.Well, P.Housed;
  }

  lemma FramesApart(s: P.State, f: nat, n: nat, g: nat)
    requires f + n <= g
    ensures FrameAddr(s, f) + n * PAGE <= FrameAddr(s, g)
  {
  }

  /** No two blocks in use overlap, be they small or large. */
  lemma BlocksApart(m: Mem, b: Block, c: Block)
    requires Joint(m) && Held(m, b) && Held(m, c) && b != c
    ensures Start(m, b) + Len(m, b) <= Start(m, c) || Start(m, c) + Len(m, c) <= Start(m, b)
  {
    hide GoodBut, P.Sound, Size, PerPage, FrameAddr;
    Home(m, b);
    Home(m, c);
    var f, g := HomeOf(m, b), HomeOf(m, c);
    if f != g {
      RunsDiffer(m.s, f, g);
      if f + m.s.runs[f] <= g {
        FramesApart(m.s, f, m.s.runs[f], g);
      } else {
        FramesApart(m.s, g, m.s.runs[g], f);
      }
    } else {
      SameHome(m, b, c);
      LiveApart(m.h, b.r, b.j, c.r, c.j);
    }
  }

  /** Only small blocks share a frame. */
  lemma SameHome(m: Mem, b: Block, c: Block)
    requires Held(m, b) && Held(m, c) && b != c && HomeOf(m, b) == HomeOf(m, c)
    ensures b.Small? && c.Small?
  {
    hide GoodBut, P.Sound, FrameAt, PerPage, Size;
  }

  /** Nor does a block in use overlap a user page. */
  lemma BlockAndPage(m: Mem, b: Block, a: nat, vpn: nat)
    requires Joint(m) && Held(m, b) && a in m.s.spaces && vpn < P.PAGES && P.Well(m.s) && P.At(m.s, a, vpn).frame.Frame?
    ensures var g := P.At(m.s, a, vpn).frame.i;
            Start(m, b) + Len(m, b) <= FrameAddr(m.s, g) || FrameAddr(m.s, g) + PAGE <= Start(m, b)
  {
    hide GoodBut, P.Sound, Size, PerPage, FrameAddr;
    Home(m, b);
    var f, g := HomeOf(m, b), P.At(m.s, a, vpn).frame.i;
    P.UserOrKernel(m.s, a, vpn, f);
    if f + m.s.runs[f] <= g {
      FramesApart(m.s, f, m.s.runs[f], g);
    } else {
      FramesApart(m.s, g, 1, f);
    }
  }

  // ---------------------------------------------------------------------------------------
  // What operations do to the blocks

  /** A block whose holder may use it as it likes: no address space and no page table. */
  predicate Client(m: Mem, b: Block) {
    Held(m, b) && P.Well(m.s) && (b.Big? ==> !P.Pinned(m.s, b.f))
  }

  predicate Kept(m: Mem, n: Mem, c: Block) {
    && Held(m, c) && Held(n, c) && Start(n, c) == Start(m, c) && Len(n, c) == Len(m, c)
    && (Client(m, c) ==> Client(n, c))
  }

  /** Block `b` is new, and all others are as they were. */
  ghost predicate Added(m: Mem, n: Mem, b: Block) {
    !Held(m, b) && Held(n, b) && forall c :: (Held(n, c) <==> Held(m, c) || c == b) && (Held(m, c) ==> Kept(m, n, c))
  }

  ghost predicate Dropped(m: Mem, n: Mem, b: Block) {
    Held(m, b) && forall c :: (Held(n, c) <==> Held(m, c) && c != b) && (Held(n, c) ==> Kept(m, n, c))
  }

  ghost predicate Steady(m: Mem, n: Mem) {
    forall c :: (Held(n, c) <==> Held(m, c)) && (Held(m, c) ==> Kept(m, n, c))
  }

  lemma JointParts(m: Mem)
    requires Joint(m)
    ensures Good(m.h) && P.Sound(m.s) && P.Well(m.s) && m.s.base > 0 && m.s.base % PAGE == 0 && |m.h.sizes| == NSIZES
  {
    hide GoodBut, P.Sound;
    HasSizes(m.h, -1);
  }

  /** A free frame is in no run. */
  lemma FreeIsNoRun(s: P.State, f: nat)
    requires P.Sound(s) && f < |s.cs| && !s.cs[f].inuse
    ensures f !in s.runs
  {
    hide P.Mapped, P.Back, P.Housed;
    assert f in s.runs ==> P.RunOk(s, f);
  }

  // Large blocks

  lemma BigAlloc(m: Mem, n: nat)
    requires Joint(m) && n >= 1 && C.FirstRunHolds(m.s.cs, n)
    ensures var m', f := m.(s := P.KAlloc(m.s, n)), C.FirstFree(m.s.cs);
            && Joint(m') && Added(m, m', Big(f)) && Client(m', Big(f))
            && Start(m', Big(f)) == FrameAddr(m.s, f) && Len(m', Big(f)) == n * PAGE
  {
    hide GoodBut, P.Sound, P.Pinned, FrameAt, FrameAddr, C.Taken;
    var m', f := m.(s := P.KAlloc(m.s, n)), C.FirstFree(m.s.cs);
    P.KAllocSound(m.s, n);
    P.KAllocHoused(m.s, n);
    KAllocPins(m.s, n);
    FreeIsNoRun(m.s, f);
    SameFrames(m, m');
    forall r | r in m'.h.pages ensures Backed(m', r) {
      assert Backed(m, r);
    }
    NotHeapFrame(m, f);
  }

  lemma KAllocPins(s: P.State, n: nat)
    requires P.Well(s)
    ensures P.Well(P.KAlloc(s, n)) && forall x :: P.Pinned(P.KAlloc(s, n), x) <==> P.Pinned(s, x)
  {
    hide P.Shaped, P.Pinned;
    P.SameTables(s, P.KAlloc(s, n));
    P.PinsOf(s, P.KAlloc(s, n), -1);
  }

  lemma KFreePins(s: P.State, f: nat)
    requires P.Well(s) && f < |s.cs|
    ensures P.Well(P.KFree(s, f)) && forall x :: P.Pinned(P.KFree(s, f), x) <==> P.Pinned(s, x)
  {
    hide P.Shaped, P.Pinned, C.GivenBack;
    P.SameTables(s, P.KFree(s, f));
    P.PinsOf(s, P.KFree(s, f), -1);
  }

  lemma SameFrames(m: Mem, n: Mem)
    requires n.s.base == m.s.base
    ensures forall a :: FrameAt(n.s, a) == FrameAt(m.s, a)
    ensures forall f :: FrameAddr(n.s, f) == FrameAddr(m.s, f)
    ensures n.h == m.h ==> forall f :: HeapFrame(n, f) <==> HeapFrame(m, f)
  {
    forall a ensures FrameAt(n.s, a) == FrameAt(m.s, a) {
    }
  }

  lemma NotHeapFrame(m: Mem, f: nat)
    requires Joint(m) && f !in m.s.runs
    ensures !HeapFrame(m, f)
  {
    hide GoodBut, P.Sound, FrameAt, FrameAddr;
    forall r | r in m.h.pages ensures FrameAt(m.s, m.h.pages[r].addr) != f {
      assert Backed(m, r);
    }
  }

  lemma BigFree(m: Mem, f: nat)
    requires Joint(m) && Client(m, Big(f))
    ensures f < |m.s.cs| && f + m.s.cs[f].continuous <= |m.s.cs|
    ensures var m' := m.(s := P.KFree(m.s, f)); Joint(m') && Dropped(m, m', Big(f))
  {
    hide GoodBut, P.Sound, P.Pinned, FrameAt, FrameAddr, C.GivenBack;
    RunBound(m.s, f);
    KFreePins(m.s, f);
    var m' := m.(s := P.KFree(m.s, f));
    P.KFreeSound(m.s, f);
    SameFrames(m, m');
    forall r | r in m'.h.pages ensures Backed(m', r) {
      assert Backed(m, r);
    }
  }

  lemma RunBound(s: P.State, f: nat)
    requires P.Sound(s) && f in s.runs
    ensures f < |s.cs| && s.cs[f].continuous == s.runs[f] && f + s.cs[f].continuous <= |s.cs|
  {
    hide P.Mapped, P.Back, P.Housed;
    assert P.RunOk(s, f);
  }

  // Small blocks

  /** What the requests for a page reference and a page come to; `r` is the reference, -1 for none. */
  function PageOffer(m: Mem, r: int): Supply {
    if r >= 0 && C.FirstRunHolds(m.s.cs, 1) then NewPage(r, FrameAddr(m.s, C.FirstFree(m.s.cs))) else NoPage
  }

  predicate NeedsPage(m: Mem, bt: nat)
    requires bt < |m.h.sizes|
  {
    FirstRoom(m.h, m.h.sizes[bt]) == |m.h.sizes[bt]|
  }

  function SmallAlloc(m: Mem, bt: nat, r: int): Mem
    requires bt < NSIZES && bt < |m.h.sizes|
  {
    Mem(Malloc(m.h, bt, PageOffer(m, r)), if NeedsPage(m, bt) && r >= 0 then P.KAlloc(m.s, 1) else m.s)
  }

  lemma OfferOk(m: Mem, r: int)
    requires Joint(m) && (r >= 0 ==> r !in m.h.pages)
    ensures SupplyOk(m.h, PageOffer(m, r))
  {
    hide GoodBut, P.Sound, FrameAt, FrameAddr;
    if PageOffer(m, r).NewPage? {
      var f := C.FirstFree(m.s.cs);
      FreeIsNoRun(m.s, f);
      AddrAligned(m.s, f);
      AboveKernel(m.s, f);
      forall q | q in m.h.pages ensures m.h.pages[q].addr != FrameAddr(m.s, f) {
        assert Backed(m, q);
        FrameAtAddr(m.s, f);
      }
    }
  }

  lemma AboveKernel(s: P.State, f: nat)
    ensures FrameAddr(s, f) > 0
  {
  }

  lemma SmallAllocEffect(m: Mem, bt: nat, r: int)
    requires Joint(m) && bt < NSIZES && (r >= 0 ==> r !in m.h.pages)
    ensures |m.h.sizes| == NSIZES
    ensures var sup := PageOffer(m, r);
            if CanMalloc(m.h, bt, sup) then
              var b := Small(PageFor(m.h, bt, sup), BlockFor(m.h, bt, sup));
              && Joint(SmallAlloc(m, bt, r)) && Added(m, SmallAlloc(m, bt, r), b)
              && Len(SmallAlloc(m, bt, r), b) == Size(bt)
            else SmallAlloc(m, bt, r) == m
  {
    hide GoodBut, P.Sound, FrameAt, FrameAddr, Malloc, BlockFor, PageFor, CanMalloc, Size, PerPage, C.Taken;
    JointParts(m);
    OfferOk(m, r);
    var sup := PageOffer(m, r);
    var m' := SmallAlloc(m, bt, r);
    MallocGood(m.h, bt, sup);
    if CanMalloc(m.h, bt, sup) {
      SmallAllocJoint(m, bt, r);
      var b := Small(PageFor(m.h, bt, sup), BlockFor(m.h, bt, sup));
      forall c ensures (Held(m', c) <==> Held(m, c) || c == b) && (Held(m, c) ==> Kept(m, m', c)) {
        SmallAllocBlock(m, bt, r, c);
      }
      SmallAllocBlock(m, bt, r, b);
    } else {
      NoBlock(m, bt, r);
    }
  }

  lemma NoBlock(m: Mem, bt: nat, r: int)
    requires bt < NSIZES && bt < |m.h.sizes| && !CanMalloc(m.h, bt, PageOffer(m, r))
    ensures SmallAlloc(m, bt, r) == m
  {
    hide FirstRoom, FrameAddr;
  }

  /** What an allocation does to the pages: they stay, and a page needed is added. */
  lemma PagesAfter(m: Mem, bt: nat, r: int, q: nat)
    requires bt < NSIZES && bt < |m.h.sizes| && CanMalloc(m.h, bt, PageOffer(m, r))
    requires PageFor(m.h, bt, PageOffer(m, r)) in Ready(m.h, bt, PageOffer(m, r)).pages
    requires Ready(m.h, bt, PageOffer(m, r)).pages[PageFor(m.h, bt, PageOffer(m, r))].free != []
    requires r >= 0 ==> r !in m.h.pages
    ensures var h' := Malloc(m.h, bt, PageOffer(m, r));
            && (q in h'.pages <==> q in m.h.pages || (NeedsPage(m, bt) && q == r))
            && (q in m.h.pages ==> h'.pages[q].addr == m.h.pages[q].addr && h'.pages[q].bt == m.h.pages[q].bt)
            && (NeedsPage(m, bt) ==>
                  && r >= 0 && C.FirstRunHolds(m.s.cs, 1)
                  && h'.pages[r].addr == FrameAddr(m.s, C.FirstFree(m.s.cs)))
  {
    hide FirstRoom, FrameAddr, PerPage, Down;
  }

  lemma SmallAllocJoint(m: Mem, bt: nat, r: int)
    requires Joint(m) && bt < NSIZES && |m.h.sizes| == NSIZES && (r >= 0 ==> r !in m.h.pages)
    requires CanMalloc(m.h, bt, PageOffer(m, r)) && SupplyOk(m.h, PageOffer(m, r))
    ensures Joint(SmallAlloc(m, bt, r))
  {
    hide GoodBut, P.Sound, P.Pinned, FrameAt, FrameAddr, Malloc, PageFor, Ready, CanMalloc, C.Taken, Live, SupplyOk;
    P.KAllocHoused(m.s, 1);
    KAllocPins(m.s, 1);
    var sup := PageOffer(m, r);
    var m' := SmallAlloc(m, bt, r);
    MallocGood(m.h, bt, sup);
    ReadyGood(m.h, bt, sup);
    P.KAllocSound(m.s, 1);
    SameFrames(m, m');
    forall q | q in m'.h.pages ensures Backed(m', q) {
      PagesAfter(m, bt, r, q);
      if q in m.h.pages {
        assert Backed(m, q);
      } else {
        FrameAtAddr(m.s, C.FirstFree(m.s.cs));
      }
    }
  }

  lemma SmallAllocBlock(m: Mem, bt: nat, r: int, c: Block)
    requires Joint(m) && bt < NSIZES && |m.h.sizes| == NSIZES && (r >= 0 ==> r !in m.h.pages)
    requires CanMalloc(m.h, bt, PageOffer(m, r)) && SupplyOk(m.h, PageOffer(m, r))
    ensures var b := Small(PageFor(m.h, bt, PageOffer(m, r)), BlockFor(m.h, bt, PageOffer(m, r)));
            var m' := SmallAlloc(m, bt, r);
            && (Held(m', c) <==> Held(m, c) || c == b) && (Held(m, c) ==> Kept(m, m', c))
            && (c == b ==> !Held(m, c) && Len(m', c) == Size(bt))
  {
    hide GoodBut, P.Sound, FrameAt, FrameAddr, Malloc, BlockFor, PageFor, CanMalloc, Size, PerPage, C.Taken, SupplyOk,
         Live, Ready;
    var m' := SmallAlloc(m, bt, r);
    match c {
      case Small(q, k) =>
        MallocLive(m.h, bt, PageOffer(m, r), q, k);
        if Live(m.h, q, k) {
          LiveMeans(m.h, q, k);
          ReadyGood(m.h, bt, PageOffer(m, r));
          PagesAfter(m, bt, r, q);
        }
      case Big(f) => BigAfter(m, bt, r, f);
    }
  }

  lemma BigAfter(m: Mem, bt: nat, r: int, f: nat)
    requires Joint(m) && bt < NSIZES && |m.h.sizes| == NSIZES && (r >= 0 ==> r !in m.h.pages)
    requires CanMalloc(m.h, bt, PageOffer(m, r)) && SupplyOk(m.h, PageOffer(m, r))
    ensures var m' := SmallAlloc(m, bt, r);
            (Held(m', Big(f)) <==> Held(m, Big(f))) && (Held(m, Big(f)) ==> Kept(m, m', Big(f)))
  {
    hide GoodBut, P.Sound, P.Pinned, FrameAt, FrameAddr, Malloc, PageFor, CanMalloc, C.Taken, SupplyOk, Live, Ready;
    KAllocPins(m.s, 1);
    var m', i := SmallAlloc(m, bt, r), C.FirstFree(m.s.cs);
    ReadyGood(m.h, bt, PageOffer(m, r));
    SameFrames(m, m');
    forall q ensures q in m'.h.pages <==> q in m.h.pages || (NeedsPage(m, bt) && q == r)
             ensures q in m.h.pages ==> m'.h.pages[q].addr == m.h.pages[q].addr
    {
      PagesAfter(m, bt, r, q);
    }
    FrameAtAddr(m.s, i);
    if NeedsPage(m, bt) {
      PagesAfter(m, bt, r, 0);
      FreeIsNoRun(m.s, i);
      assert HeapFrame(m', i);
    }
    forall g | g != i || !NeedsPage(m, bt) ensures HeapFrame(m', g) <==> HeapFrame(m, g) {
      if HeapFrame(m, g) {
        var q :| q in m.h.pages && FrameAt(m.s, m.h.pages[q].addr) == g;
        assert q in m'.h.pages;
      }
    }
  }

  function SmallFree(m: Mem, r: nat, j: nat): Mem
    requires Live(m.h, r, j) && m.h.pages[r].bt < |m.h.sizes| && FrameAt(m.s, m.h.pages[r].addr) < |m.s.cs|
  {
    var h' := Free(m.h, r, j);
    Mem(h', if r in h'.pages then m.s else P.KFree(m.s, FrameAt(m.s, m.h.pages[r].addr)))
  }

  /** What freeing does to the pages: at most page `r` goes. */
  lemma PagesLeft(h: Heap, r: nat, j: nat, q: nat)
    requires Live(h, r, j) && h.pages[r].bt < |h.sizes|
    ensures q in Free(h, r, j).pages ==> q in h.pages && Free(h, r, j).pages[q].addr == h.pages[q].addr
    ensures q in Free(h, r, j).pages ==> Free(h, r, j).pages[q].bt == h.pages[q].bt
    ensures q in h.pages && q != r ==> q in Free(h, r, j).pages
  {
    hide PerPage, Size;
  }

  lemma SmallFreeEffect(m: Mem, r: nat, j: nat)
    requires Joint(m) && Held(m, Small(r, j))
    ensures m.h.pages[r].bt < |m.h.sizes| && FrameAt(m.s, m.h.pages[r].addr) < |m.s.cs|
    ensures Joint(SmallFree(m, r, j)) && Dropped(m, SmallFree(m, r, j), Small(r, j))
  {
    hide GoodBut, P.Sound, FrameAt, FrameAddr, Free, Live, C.GivenBack;
    LiveMeans(m.h, r, j);
    JointParts(m);
    FreeGood(m.h, r, j);
    var f := FrameAt(m.s, m.h.pages[r].addr);
    assert Backed(m, r);
    RunBound(m.s, f);
    P.KFreeSound(m.s, f);
    KFreePins(m.s, f);
    var m' := SmallFree(m, r, j);
    SameFrames(m, m');
    forall q | q in m'.h.pages ensures Backed(m', q) {
      PagesLeft(m.h, r, j, q);
      assert Backed(m, q);
      if q != r {
        OtherFrames(m, q, r);
      }
    }
    forall c ensures (Held(m', c) <==> Held(m, c) && c != Small(r, j)) && (Held(m', c) ==> Kept(m, m', c)) {
      SmallFreeBlock(m, r, j, c);
    }
  }

  lemma OtherFrames(m: Mem, q: nat, r: nat)
    requires Joint(m) && q in m.h.pages && r in m.h.pages && q != r
    ensures FrameAt(m.s, m.h.pages[q].addr) != FrameAt(m.s, m.h.pages[r].addr)
  {
    hide P.Sound, FrameAt, FrameAddr, Lists, PgOk;
    assert Backed(m, q) && Backed(m, r);
    assert m.h.pages[q].addr != m.h.pages[r].addr;
  }

  lemma SmallFreeBlock(m: Mem, r: nat, j: nat, c: Block)
    requires Joint(m) && Held(m, Small(r, j)) && m.h.pages[r].bt < |m.h.sizes|
    requires FrameAt(m.s, m.h.pages[r].addr) < |m.s.cs|
    ensures var m' := SmallFree(m, r, j);
            (Held(m', c) <==> Held(m, c) && c != Small(r, j)) && (Held(m', c) ==> Kept(m, m', c))
  {
    hide GoodBut, P.Sound, FrameAt, FrameAddr, Free, Live, C.GivenBack;
    JointParts(m);
    var m' := SmallFree(m, r, j);
    match c {
      case Small(q, k) =>
        FreeLive(m.h, r, j, q, k);
        PagesLeft(m.h, r, j, q);
        if Live(m'.h, q, k) {
          LiveMeans(m'.h, q, k);
        }
      case Big(f) => BigLeft(m, r, j, f);
    }
  }

  lemma BigLeft(m: Mem, r: nat, j: nat, f: nat)
    requires Joint(m) && Held(m, Small(r, j)) && m.h.pages[r].bt < |m.h.sizes|
    requires FrameAt(m.s, m.h.pages[r].addr) < |m.s.cs|
    ensures var m' := SmallFree(m, r, j);
            (Held(m', Big(f)) <==> Held(m, Big(f))) && (Held(m, Big(f)) ==> Kept(m, m', Big(f)))
  {
    hide GoodBut, P.Sound, P.Pinned, FrameAt, FrameAddr, Free, C.GivenBack, PerPage, Size;
    var m' := SmallFree(m, r, j);
    KFreePins(m.s, FrameAt(m.s, m.h.pages[r].addr));
    SameFrames(m, m');
    forall q ensures q in m'.h.pages ==> q in m.h.pages && m'.h.pages[q].addr == m.h.pages[q].addr
             ensures q in m.h.pages && q != r ==> q in m'.h.pages
    {
      PagesLeft(m.h, r, j, q);
    }
    if HeapFrame(m, f) && f != FrameAt(m.s, m.h.pages[r].addr) {
      var q :| q in m.h.pages && FrameAt(m.s, m.h.pages[q].addr) == f;
      assert q in m'.h.pages;
      assert HeapFrame(m', f);
    }
  }

  // User pages

  lemma BackedStill(m: Mem, n: Mem)
    requires Joint(m) && n.h == m.h && P.Sound(n.s) && P.Well(n.s) && n.s.base == m.s.base
    requires forall f :: f in m.s.runs && !P.Pinned(m.s, f) ==>
               f in n.s.runs && n.s.runs[f] == m.s.runs[f] && !P.Pinned(n.s, f)
    ensures Joint(n)
  {
    hide GoodBut, P.Sound, P.Pinned, FrameAt, FrameAddr, P.Well;
    SameFrames(m, n);
    forall r | r in n.h.pages ensures Backed(n, r) {
      assert Backed(m, r);
    }
  }

  lemma NotPinned(m: Mem, f: nat)
    requires Joint(m) && P.Pinned(m.s, f)
    ensures !HeapFrame(m, f)
  {
    hide GoodBut, P.Sound, P.Pinned, FrameAt, FrameAddr;
    forall r | r in m.h.pages ensures FrameAt(m.s, m.h.pages[r].addr) != f {
      assert Backed(m, r);
    }
  }

  /** Mapping a page touches no block; if it needs a second-level table, that is one block more. */
  lemma GrowEffect(m: Mem, a: nat, vpn: nat)
    requires Joint(m) && a in m.s.spaces && vpn < P.PAGES && P.Well(m.s) && !P.At(m.s, a, vpn).valid
    ensures var n := m.(s := P.GrowTo(m.s, a, vpn));
            && Joint(n)
            && if P.NeedsTable(m.s, a, vpn) then
                 var t := Big(P.TableFor(m.s));
                 Added(m, n, t) && !Client(n, t) && Len(n, t) == P.TABLE_FRAMES * PAGE
               else Steady(m, n)
  {
    hide GoodBut, P.Sound, P.Pinned, FrameAt, FrameAddr, P.Lookup, P.Shaped, P.GrowTo, P.NeedsTable, P.TableFor, Live;
    var n := m.(s := P.GrowTo(m.s, a, vpn));
    JointParts(m);
    P.GrowSound(m.s, a, vpn);
    P.GrowRuns(m.s, a, vpn);
    SameFrames(m, n);
    if P.NeedsTable(m.s, a, vpn) {
      NotHeapFrame(m, P.TableFor(m.s));
    }
    BackedStill(m, n);
  }

  /** A new address space is one block more. */
  lemma CreateEffect(m: Mem)
    requires Joint(m)
    ensures var n := m.(s := P.Created(m.s));
            && Joint(n)
            && if C.FirstRunHolds(m.s.cs, P.SPACE_FRAMES) then
                 Added(m, n, Big(C.FirstFree(m.s.cs))) && !Client(n, Big(C.FirstFree(m.s.cs)))
               else n == m
  {
    hide GoodBut, P.Sound, P.Pinned, FrameAt, FrameAddr, P.Shaped, P.Created, Live, C.FirstFree;
    var n := m.(s := P.Created(m.s));
    JointParts(m);
    P.CreatedSound(m.s);
    P.CreatedRuns(m.s);
    SameFrames(m, n);
    if C.FirstRunHolds(m.s.cs, P.SPACE_FRAMES) {
      NotHeapFrame(m, C.FirstFree(m.s.cs));
    }
    BackedStill(m, n);
  }

  /** An address space that goes gives its own block back; its tables stay, though nobody uses them. */
  lemma DestroyEffect(m: Mem, a: nat)
    requires Joint(m) && a in m.s.spaces
    ensures a < |m.s.cs|
    ensures var n := m.(s := P.Destroyed(m.s, a)); Joint(n) && Dropped(m, n, Big(a))
  {
    hide GoodBut, P.Sound, P.Pinned, FrameAt, FrameAddr, P.Shaped, P.Destroyed, Live;
    JointParts(m);
    P.DestroyedSound(m.s, a);
    P.DestroyedRuns(m.s, a);
    var n := m.(s := P.Destroyed(m.s, a));
    SameFrames(m, n);
    SpaceIsPinned(m.s, a);
    NotPinned(m, a);
    P.SpaceBound(m.s, a);
    BackedStill(m, n);
  }

  lemma SpaceIsPinned(s: P.State, a: nat)
    requires P.Well(s) && a in s.spaces
    ensures P.Pinned(s, a)
  {
  }

  // ---------------------------------------------------------------------------------------
  // What is in memory

  type Ram = map<nat, seq<nat>> // the 32-bit words of each page, by the kernel's address of it

  /** The word at an address. */
  function Word(ram: Ram, at: nat): nat {
    var page, i := at - at % PAGE, at % PAGE / 4;
    if page in ram && i < |ram[page]| then ram[page][i] else 0
  }

  predicate RamOk(s: P.State, ram: Ram) {
    forall f :: 0 <= f < |s.cs| ==> FrameAddr(s, f) in ram && |ram[FrameAddr(s, f)]| == PAGE / 4
  }

  /** Words from `lo` up to `hi` may differ, no others. */
  ghost predicate Outside(ram: Ram, ram': Ram, lo: nat, hi: nat) {
    forall at: nat :: at % 4 == 0 && !(lo <= at < hi) ==> Word(ram', at) == Word(ram, at)
  }

  predicate InBlock(m: Mem, b: Block, at: nat)
    requires Held(m, b)
  {
    at % 4 == 0 && Start(m, b) <= at < Start(m, b) + Len(m, b)
  }

  /** Whoever still holds a block finds in it what was there. */
  ghost predicate WordsKept(m: Mem, ram: Ram, n: Mem, ram': Ram) {
    forall b, at: nat :: Client(m, b) && Held(n, b) && InBlock(m, b, at) ==> Word(ram', at) == Word(ram, at)
  }

  lemma KeptOutside(m: Mem, ram: Ram, n: Mem, ram': Ram, lo: nat, hi: nat)
    requires Outside(ram, ram', lo, hi)
    requires forall b :: Client(m, b) && Held(n, b) ==> Start(m, b) + Len(m, b) <= lo || hi <= Start(m, b)
    ensures WordsKept(m, ram, n, ram')
  {
    hide Held, Start, Len, Word, Client;
  }

  /** A frame in no run is in no block. */
  lemma FrameIsApart(m: Mem, b: Block, g: nat)
    requires Joint(m) && Held(m, b) && forall i :: i in m.s.runs ==> !(i <= g < i + m.s.runs[i])
    ensures Start(m, b) + Len(m, b) <= FrameAddr(m.s, g) || FrameAddr(m.s, g + 1) <= Start(m, b)
  {
    hide GoodBut, P.Sound, Size, PerPage, FrameAddr, P.Pinned, Held, Start, Len, HomeOf;
    Home(m, b);
    var f: nat := HomeOf(m, b);
    var n: nat := m.s.runs[f];
    if f + n <= g {
      FramesApart(m.s, f, n, g);
    } else {
      FramesApart(m.s, g + 1, 0, f);
    }
  }

  // ---------------------------------------------------------------------------------------
  // Runs

  datatype Act = Got(b: Block) | Gave(b: Block) | Wrote(b: Block, at: nat, value: nat) | Other

  datatype KState = KState(m: Mem, ram: Ram)

  ghost predicate Sound(k: KState) {
    Joint(k.m) && RamOk(k.m.s, k.ram)
  }

  /** A write to a word of a block by its holder. */
  ghost predicate Written(x: KState, b: Block, at: nat, value: nat, y: KState) {
    && y.m == x.m && Client(x.m, b) && InBlock(x.m, b, at) && Word(y.ram, at) == value
    && Outside(x.ram, y.ram, at, at + 4)
  }

  ghost predicate KStep(x: KState, a: Act, y: KState) {
    && Sound(x) && Sound(y)
    && match a
       case Got(b) => Added(x.m, y.m, b) && WordsKept(x.m, x.ram, y.m, y.ram)
       case Gave(b) => Dropped(x.m, y.m, b) && WordsKept(x.m, x.ram, y.m, y.ram)
       case Wrote(b, at, value) => Written(x, b, at, value, y)
       case Other => Steady(x.m, y.m) && WordsKept(x.m, x.ram, y.m, y.ram)
  }

  ghost predicate KRun(ks: seq<KState>, acts: seq<Act>) {
    |ks| == |acts| + 1 && Sound(ks[0]) && forall k :: 0 <= k < |acts| ==> KStep(ks[k], acts[k], ks[k + 1])
  }

  /** What was last written at an address, `value` if nothing was. */
  function LastWritten(acts: seq<Act>, at: nat, value: nat): nat {
    if acts == [] then value
    else
      var a := acts[|acts| - 1];
      if a.Wrote? && a.at == at then a.value else LastWritten(acts[..|acts| - 1], at, value)
  }

  lemma StepKeeps(x: KState, a: Act, y: KState, b: Block, at: nat)
    requires KStep(x, a, y) && Client(x.m, b) && a != Gave(b) && InBlock(x.m, b, at)
    ensures Sound(y) && Kept(x.m, y.m, b)
    ensures Word(y.ram, at) == if a.Wrote? && a.at == at then a.value else Word(x.ram, at)
  {
    hide Sound, Held, Start, Len, Word;
    if a.Wrote? && a.at != at {
      assert at % 4 == 0 && a.at % 4 == 0;
      Words(at, a.at);
    }
  }

  lemma Words(a: nat, b: nat)
    requires a % 4 == 0 && b % 4 == 0 && a != b
    ensures !(b <= a < b + 4)
  {
  }

  lemma KRunLess(ks: seq<KState>, acts: seq<Act>)
    requires KRun(ks, acts) && acts != []
    ensures KRun(ks[..|acts|], acts[..|acts| - 1]) && KStep(ks[|acts| - 1], acts[|acts| - 1], ks[|acts|])
  {
    hide KStep, Sound;
    forall k | 0 <= k < |acts| - 1 ensures KStep(ks[..|acts|][k], acts[..|acts| - 1][k], ks[..|acts|][k + 1]) {
      assert KStep(ks[k], acts[k], ks[k + 1]);
    }
  }

  lemma KRunMore(ks: seq<KState>, acts: seq<Act>, a: Act, y: KState)
    requires KRun(ks, acts) && KStep(ks[|acts|], a, y)
    ensures KRun(ks + [y], acts + [a])
  {
    hide KStep, Sound;
  }

  /**
   A block stays where it is, as long as it is, apart from every other, and holds what was last
   written to it, until it is given back, whatever else is done with memory.
   */
  lemma {:induction false} BlockStays(ks: seq<KState>, acts: seq<Act>, b: Block, at: nat)
    requires KRun(ks, acts) && Client(ks[0].m, b) && Gave(b) !in acts && InBlock(ks[0].m, b, at)
    ensures Sound(ks[|acts|]) && Kept(ks[0].m, ks[|acts|].m, b) && Client(ks[|acts|].m, b)
    ensures Word(ks[|acts|].ram, at) == LastWritten(acts, at, Word(ks[0].ram, at))
    decreases |acts|
  {
    hide KStep, Sound, Held, Start, Len, Word;
    if acts != [] {
      var k := |acts| - 1;
      KRunLess(ks, acts);
      BlockStays(ks[..|acts|], acts[..k], b, at);
      assert acts[k] in acts;
      StepKeeps(ks[k], acts[k], ks[k + 1], b, at);
    }
  }

  /** So no two blocks in use overlap, and none overlaps a user page, in any state of a run. */
  lemma RunApart(ks: seq<KState>, acts: seq<Act>, k: nat, b: Block, c: Block)
    requires KRun(ks, acts) && k < |ks| && Held(ks[k].m, b) && Held(ks[k].m, c) && b != c
    ensures Start(ks[k].m, b) + Len(ks[k].m, b) <= Start(ks[k].m, c) ||
              Start(ks[k].m, c) + Len(ks[k].m, c) <= Start(ks[k].m, b)
  {
    hide Joint, Held, Start, Len, Added, Dropped, Steady, Written, WordsKept;
    assert k > 0 ==> KStep(ks[k - 1], acts[k - 1], ks[k]);
    BlocksApart(ks[k].m, b, c);
  }
}
