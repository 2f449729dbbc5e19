/**
 Whole runs of kernel memory: any sequence of kmalloc, kfree and writes by code that keeps to
 its own blocks, between address spaces that are made, grow page by page, and go.
 */
module KernelRuns {
  import opened KHeapSpec
  import opened KmallocSpec
  import opened Kmalloc
  import P = PageTable
  import C = Coremap
  import V = VmFault

  datatype Call =
    | Alloc(sz: nat)
    | Free(ptr: nat)
    | Write(ptr: nat, i: nat, value: nat)
    | NewSpace
    | Touch(a: nat, vaddr: nat)
    | DropSpace(a: nat)

  /** What the callers hold: the blocks they were given, by address, with the size they asked for. */
  type Ledger = map<nat, nat>

  ghost predicate Entry(m: Mem, b: Block, ptr: nat, sz: nat) {
    ClientAt(m, b, ptr) && Len(m, b) >= sz
  }

  ghost predicate Honest(m: Mem, held: Ledger) {
    forall p :: p in held ==> p != 0 && exists b :: Entry(m, b, p, held[p])
  }

  // ---------------------------------------------------------------------------------------
  // What each call does

  predicate CanTouch(s: P.State, a: nat, vaddr: nat) {
    P.Well(s) && a in s.spaces && vaddr < V.KERNEL && !P.At(s, a, vaddr / PAGE).valid
  }

  /** `r` is the answer, `act` the change it made to the blocks; a call about nothing that is held does nothing. */
  ghost predicate Did(x: KState, c: Call, held: Ledger, r: nat, act: Act, y: KState) {
    && KStep(x, act, y)
    && match c
       case Alloc(sz) =>
         if r != 0 && sz <= WORD - PAGE then act.Got? && Handed(x.m, y.m, act.b, r, sz) else act == Other && y.m == x.m
       case Free(ptr) =>
         if ptr in held then act.Gave? && ClientAt(x.m, act.b, ptr) else act == Other && y == x
       case Write(ptr, i, value) =>
         if ptr in held && 4 * i + 4 <= held[ptr] then act.Wrote? && act.at == ptr + 4 * i && act.value == value
         else act == Other && y == x
       case NewSpace =>
         && y.m == x.m.(s := P.Created(x.m.s))
         && act == if C.FirstRunHolds(x.m.s.cs, P.SPACE_FRAMES) then Got(Big(C.FirstFree(x.m.s.cs))) else Other
       case Touch(a, vaddr) =>
         if CanTouch(x.m.s, a, vaddr) then
           && y.m == x.m.(s := P.GrowTo(x.m.s, a, vaddr / PAGE))
           && act == if P.NeedsTable(x.m.s, a, vaddr / PAGE) then Got(Big(P.TableFor(x.m.s))) else Other
         else act == Other && y == x
       case DropSpace(a) =>
         if a in x.m.s.spaces then a < |x.m.s.cs| && y.m == x.m.(s := P.Destroyed(x.m.s, a)) && act == Gave(Big(a))
         else act == Other && y == x
  }

  // ---------------------------------------------------------------------------------------
  // The ledger

  lemma SteadyRefl(m: Mem)
    ensures Steady(m, m)
  {
    hide Start, Len, Held;
  }

  lemma Idle(x: KState)
    requires Sound(x)
    ensures KStep(x, Other, x)
  {
    hide Sound, Steady, WordsKept;
    SteadyRefl(x.m);
    SameRam(x.m, x.ram, x.m);
  }

  lemma EntryStays(m: Mem, n: Mem, b: Block, p: nat, sz: nat)
    requires Entry(m, b, p, sz) && Kept(m, n, b)
    ensures Entry(n, b, p, sz)
  {
    hide Held, Start, Len;
  }

  /** Entries whose blocks are still held stay good. */
  lemma EntriesStay(m: Mem, n: Mem, held: Ledger)
    requires Honest(m, held)
    requires forall b, p :: p in held && Entry(m, b, p, held[p]) ==> Kept(m, n, b)
    ensures Honest(n, held)
  {
    hide Held, Start, Len, Client;
    forall p | p in held ensures p != 0 && exists b :: Entry(n, b, p, held[p]) {
      var b :| Entry(m, b, p, held[p]);
      EntryStays(m, n, b, p, held[p]);
    }
  }

  lemma StepStays(x: KState, act: Act, y: KState, held: Ledger)
    requires KStep(x, act, y) && Honest(x.m, held)
    requires act.Gave? ==> forall p :: p in held ==> !Entry(x.m, act.b, p, held[p])
    ensures Honest(y.m, held)
  {
    hide Sound, Held, Start, Len, WordsKept;
    forall b, p | p in held && Entry(x.m, b, p, held[p]) ensures Kept(x.m, y.m, b) {
      assert Client(x.m, b);
    }
    EntriesStay(x.m, y.m, held);
  }

  /** A block in use starts at a multiple of four. */
  lemma StartAligned(m: Mem, b: Block)
    requires Joint(m) && Held(m, b)
    ensures Start(m, b) % 4 == 0
  {
    hide GoodBut, P.Sound, P.Pinned, PerPage, Size, FrameAt, FrameAddr;
    JointParts(m);
    match b {
      case Small(r, j) =>
        AlignedPage(m, r);
        KernelHeapBlock(m.h.pages[r].bt, j);
        AddFours(m.h.pages[r].addr, j * Size(m.h.pages[r].bt));
      case Big(f) =>
        AddrAligned(m.s, f);
        AddFours(FrameAddr(m.s, f), 0);
    }
  }

  lemma AddFours(page: nat, off: nat)
    requires page % PAGE == 0 && off % 4 == 0
    ensures (page + off) % 4 == 0
  {
    assert page == 4 * (1024 * (page / PAGE));
  }

  lemma KernelHeapBlock(bt: nat, j: nat)
    requires bt < NSIZES
    ensures j * Size(bt) % 4 == 0
  {
    assert Size(bt) % 4 == 0;
    Fours(j, Size(bt) / 4);
  }

  lemma Fours(j: nat, q: nat)
    ensures j * (4 * q) % 4 == 0
  {
    assert j * (4 * q) == 4 * (j * q);
  }

  // ---------------------------------------------------------------------------------------
  // The calls

  method DoAlloc(k: Kernel, sz: nat, held: Ledger) returns (r: nat, held': Ledger, ghost act: Act)
    requires k.Valid() && Honest(k.M(), held)
    modifies k.heap, k.heap.refs, k.heap.bases, k.heap.inuse, k.vm`spaces, k.vm`runs, k.vm.frames.cs
    ensures k.Valid() && Honest(k.M(), held') && Did(old(k.K()), Alloc(sz), held, r, act, k.K())
  {
    hide GoodBut, P.Sound, Joint, RamOk, Added, Steady, WordsKept, Honest, Client, Held, Start, Len, CanMalloc,
         PageOffer, FrameAddr;
    ghost var x := k.K();
    held', act := held, Other;
    Idle(x);
    if sz >= WORD {
      return 0, held, Other;
    }
    r := k.Kmalloc(sz);
    if r != 0 && sz <= WORD - PAGE {
      ghost var b :| Handed(x.m, k.M(), b, r, sz);
      act := Got(b);
      NewEntry(x, k.K(), b, r, sz, held);
      held' := held[r := sz];
    } else {
      SteadyRefl(x.m);
    }
  }

  lemma NewEntry(x: KState, y: KState, b: Block, ptr: nat, sz: nat, held: Ledger)
    requires KStep(x, Got(b), y) && Handed(x.m, y.m, b, ptr, sz) && Honest(x.m, held) && ptr != 0
    ensures Honest(y.m, held[ptr := sz])
  {
    hide KStep, Held, Start, Len, Client, Added;
    StepStays(x, Got(b), y, held);
    assert Entry(y.m, b, ptr, sz);
  }

  method DoFree(k: Kernel, ptr: nat, held: Ledger) returns (held': Ledger, ghost act: Act)
    requires k.Valid() && Honest(k.M(), held)
    modifies k.heap, k.heap.refs, k.heap.bases, k.heap.inuse, k.vm`spaces, k.vm`runs, k.vm.frames.cs
    ensures k.Valid() && Honest(k.M(), held') && Did(old(k.K()), Free(ptr), held, 0, act, k.K())
  {
    hide GoodBut, P.Sound, Joint, RamOk, Dropped, Steady, WordsKept, Client, Held, Start, Len;
    ghost var x := k.K();
    Idle(x);
    if ptr !in held {
      return held, Other;
    }
    ghost var b :| Entry(x.m, b, ptr, held[ptr]);
    k.Kfree(ptr);
    act := Gave(b);
    held' := held - {ptr};
    assert KStep(x, act, k.K());
    OldEntries(x, b, ptr, k.K(), held);
  }

  lemma OldEntries(x: KState, b: Block, ptr: nat, y: KState, held: Ledger)
    requires KStep(x, Gave(b), y) && ClientAt(x.m, b, ptr) && Honest(x.m, held)
    ensures Honest(y.m, held - {ptr})
  {
    hide KStep, Held, Start, Len, Client;
    assert Honest(x.m, held - {ptr}) by {
      forall p | p in held - {ptr} ensures p != 0 && exists c :: Entry(x.m, c, p, (held - {ptr})[p]) {
        var c :| Entry(x.m, c, p, held[p]);
        assert Entry(x.m, c, p, (held - {ptr})[p]);
      }
    }
    StepStays(x, Gave(b), y, held - {ptr});
  }

  method DoWrite(k: Kernel, ptr: nat, i: nat, value: nat, held: Ledger) returns (ghost act: Act)
    requires k.Valid() && Honest(k.M(), held)
    modifies k.heap, k.heap.refs, k.heap.bases, k.heap.inuse, k.vm`spaces, k.vm`runs, k.vm.frames.cs
    ensures k.Valid() && Honest(k.M(), held) && Did(old(k.K()), Write(ptr, i, value), held, 0, act, k.K())
  {
    hide GoodBut, P.Sound, Joint, RamOk, Steady, WordsKept, Client, Held, Start, Len, Outside;
    ghost var x := k.K();
    Idle(x);
    if ptr in held && 4 * i + 4 <= held[ptr] {
      ghost var b :| Entry(x.m, b, ptr, held[ptr]);
      HeldClient(x.m, b);
      StartAligned(x.m, b);
      k.Write(ptr + 4 * i, value, b);
      act := Wrote(b, ptr + 4 * i, value);
    } else {
      act := Other;
    }
  }

  lemma HeldClient(m: Mem, b: Block)
    requires Client(m, b)
    ensures Held(m, b)
  {
  }

  method DoNewSpace(k: Kernel, held: Ledger) returns (a: nat, ghost act: Act)
    requires k.Valid() && Honest(k.M(), held)
    modifies k.heap, k.heap.refs, k.heap.bases, k.heap.inuse, k.vm`spaces, k.vm`runs, k.vm.frames.cs
    ensures k.Valid() && Honest(k.M(), held) && Did(old(k.K()), NewSpace, held, a, act, k.K())
  {
    hide GoodBut, P.Sound, Joint, RamOk, Added, Steady, WordsKept, Honest, Client, Held, Start, Len, P.Created,
         C.FirstFree;
    ghost var x := k.K();
    SteadyRefl(x.m);
    CreateEffect(x.m);
    var ok;
    ok, a := k.Create();
    act := if ok then Got(Big(C.FirstFree(x.m.s.cs))) else Other;
    assert KStep(x, act, k.K());
    StepStays(x, act, k.K(), held);
  }

  method DoTouch(k: Kernel, a: nat, vaddr: nat, held: Ledger) returns (ghost act: Act)
    requires k.Valid() && Honest(k.M(), held)
    modifies k.heap, k.heap.refs, k.heap.bases, k.heap.inuse, k.vm`spaces, k.vm`runs, k.vm.frames.cs
    ensures k.Valid() && Honest(k.M(), held) && Did(old(k.K()), Touch(a, vaddr), held, 0, act, k.K())
  {
    hide GoodBut, P.Sound, Joint, RamOk, Added, Steady, WordsKept, Honest, Client, Held, Start, Len, P.GrowTo,
         P.NeedsTable,
         P.TableFor, P.CanGrow, P.Lookup, P.Shaped, C.FirstFree;
    ghost var x := k.K();
    JointParts(x.m);
    Idle(x);
    act := Other;
    if a in k.vm.spaces && vaddr < V.KERNEL && !P.Lookup(k.vm.spaces[a], vaddr / PAGE).valid {
      GrowEffect(x.m, a, vaddr / PAGE);
      var ok := k.Touch(a, vaddr);
      act := if P.NeedsTable(x.m.s, a, vaddr / PAGE) then Got(Big(P.TableFor(x.m.s))) else Other;
      assert KStep(x, act, k.K());
      StepStays(x, act, k.K(), held);
    }
  }

  method DoDropSpace(k: Kernel, a: nat, held: Ledger) returns (ghost act: Act)
    requires k.Valid() && Honest(k.M(), held)
    modifies k.heap, k.heap.refs, k.heap.bases, k.heap.inuse, k.vm`spaces, k.vm`runs, k.vm.frames.cs
    ensures k.Valid() && Honest(k.M(), held) && Did(old(k.K()), DropSpace(a), held, 0, act, k.K())
  {
    hide GoodBut, P.Sound, Joint, RamOk, Dropped, Steady, WordsKept, Honest, Held, Start, Len, P.Destroyed, P.Pinned;
    ghost var x := k.K();
    JointParts(x.m);
    Idle(x);
    act := Other;
    if a in k.vm.spaces {
      DestroyEffect(x.m, a);
      SpaceIsPinned(x.m.s, a);
      k.Destroy(a);
      act := Gave(Big(a));
      assert KStep(x, act, k.K());
      StepStays(x, act, k.K(), held);
    }
  }

  /** One call by code that frees and writes only blocks it holds. */
  method Step(k: Kernel, c: Call, held: Ledger) returns (r: nat, held': Ledger, ghost act: Act)
    requires k.Valid() && Honest(k.M(), held)
    modifies k.heap, k.heap.refs, k.heap.bases, k.heap.inuse, k.vm`spaces, k.vm`runs, k.vm.frames.cs
    ensures k.Valid() && Honest(k.M(), held') && Did(old(k.K()), c, held, r, act, k.K())
  {
    hide Honest, Did, Joint, RamOk, GoodBut;
    match c
    case Alloc(sz) => r, held', act := DoAlloc(k, sz, held);
    case Free(ptr) =>
      r := 0;
      held', act := DoFree(k, ptr, held);
    case Write(ptr, i, value) =>
      r, held' := 0, held;
      act := DoWrite(k, ptr, i, value, held);
    case NewSpace =>
      held' := held;
      r, act := DoNewSpace(k, held);
    case Touch(a, vaddr) =>
      r, held' := 0, held;
      act := DoTouch(k, a, vaddr, held);
    case DropSpace(a) =>
      r, held' := 0, held;
      act := DoDropSpace(k, a, held);
  }

  /** Each state follows from the one before by its call. */
  ghost predicate Ran(ks: seq<KState>, calls: seq<Call>, helds: seq<Ledger>, rs: seq<nat>, acts: seq<Act>) {
    && |ks| == |calls| + 1 && |helds| == |calls| + 1 && |rs| == |calls| && |acts| == |calls|
    && forall i :: 0 <= i < |calls| ==> Did(ks[i], calls[i], helds[i], rs[i], acts[i], ks[i + 1])
  }

  lemma RanMore(ks: seq<KState>, calls: seq<Call>, helds: seq<Ledger>, rs: seq<nat>, acts: seq<Act>,
                c: Call, r: nat, act: Act, y: KState, held: Ledger)
    requires Ran(ks, calls, helds, rs, acts) && KRun(ks, acts) && Did(ks[|calls|], c, helds[|calls|], r, act, y)
    ensures Ran(ks + [y], calls + [c], helds + [held], rs + [r], acts + [act]) && KRun(ks + [y], acts + [act])
  {
    hide KStep, Did;
    DidStep(ks[|calls|], c, helds[|calls|], r, act, y);
    KRunMore(ks, acts, act, y);
  }

  lemma DidStep(x: KState, c: Call, held: Ledger, r: nat, act: Act, y: KState)
    requires Did(x, c, held, r, act, y)
    ensures KStep(x, act, y)
  {
    hide KStep;
  }

  /** Any sequence of calls is a run, each call doing what it says to the blocks and to nothing else. */
  method Run(k: Kernel, calls: seq<Call>)
    returns (rs: seq<nat>, ghost ks: seq<KState>, ghost helds: seq<Ledger>, ghost acts: seq<Act>)
    requires k.Valid()
    modifies k.heap, k.heap.refs, k.heap.bases, k.heap.inuse, k.vm`spaces, k.vm`runs, k.vm.frames.cs
    ensures k.Valid() && ks != [] && ks[0] == old(k.K()) && ks[|ks| - 1] == k.K()
    ensures Ran(ks, calls, helds, rs, acts) && KRun(ks, acts)
  {
    hide Did, KStep, Joint, RamOk, GoodBut;
    var held: Ledger := map[];
    rs, ks, helds, acts := [], [k.K()], [held], [];
    for i := 0 to |calls|
      invariant k.Valid() && Honest(k.M(), held) && |ks| == i + 1 && |helds| == i + 1
      invariant ks[0] == old(k.K()) && ks[i] == k.K() && helds[i] == held
      invariant Ran(ks, calls[..i], helds, rs, acts) && KRun(ks, acts)
    {
      var r, held';
      ghost var act;
      r, held', act := Step(k, calls[i], held);
      RanMore(ks, calls[..i], helds, rs, acts, calls[i], r, act, k.K(), held');
      assert calls[..i + 1] == calls[..i] + [calls[i]];
      rs, ks, helds, acts := rs + [r], ks + [k.K()], helds + [held'], acts + [act];
      held := held';
    }
    assert calls[..|calls|] == calls;
  }

  /** From the first allocation after boot on. */
  method Life(npages: nat, base: nat, ram: Ram, calls: seq<Call>)
    returns (k: Kernel, rs: seq<nat>, ghost ks: seq<KState>, ghost helds: seq<Ledger>, ghost acts: seq<Act>)
    requires base > 0 && base % PAGE == 0 && RamOk(P.State(seq(npages, _ => C.FREE), base, map[], map[]), ram)
    ensures k.Valid() && |ks| > 0 && ks[|ks| - 1] == k.K() && (forall b :: !Held(ks[0].m, b))
    ensures Ran(ks, calls, helds, rs, acts) && KRun(ks, acts)
  {
    hide KRun, Ran, Joint, RamOk;
    k := new Kernel(npages, base, ram);
    NothingHeld(k.M());
    rs, ks, helds, acts := Run(k, calls);
  }

  lemma NothingHeld(m: Mem)
    requires m.h.pages == map[] && m.s.runs == map[]
    ensures forall b :: !Held(m, b)
  {
  }

  /** kmalloc(2^32 - 1) on a machine with one free frame: an address comes back, and nothing is there. */
  method HugeRequest() returns (k: Kernel, ptr: nat)
    ensures k.Valid() && ptr != 0 && forall b :: !Held(k.M(), b)
  {
    hide Joint, RamOk, Handed, Held;
    var words := seq(PAGE / 4, _ => 0);
    ghost var s := P.State(seq(1, _ => C.FREE), PAGE, map[], map[]);
    OneFrame(s, words);
    k := new Kernel(1, PAGE, map[KSEG0 + PAGE := words]);
    NothingHeld(k.M());
    ptr := k.Kmalloc(WORD - 1);
  }

  lemma OneFrame(s: P.State, words: seq<nat>)
    requires s == P.State(seq(1, _ => C.FREE), PAGE, map[], map[]) && |words| == PAGE / 4
    ensures RamOk(s, map[KSEG0 + PAGE := words]) && PagesFor(WORD - 1) == 0 && C.FirstRunHolds(s.cs, 0)
  {
    assert FrameAddr(s, 0) == KSEG0 + PAGE;
  }
}
