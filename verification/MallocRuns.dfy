/**
 Whole runs of malloc and free: any sequence of calls by a program that frees and writes only
 blocks it holds.
 */
module MallocRuns {
  import opened UserHeap
  import opened Malloc

  /** Pointers are cells above the bottom of the heap; 0 is the null pointer. */
  datatype Call = Alloc(size: nat, grant: bool, dirt: seq<Cell>) | Free(p: nat) | Put(p: nat, i: nat, value: Cell)

  /** What the program holds: the pointers it was given, with the cells of data it asked for. */
  type Ledger = map<nat, nat>

  ghost predicate Entry(s: State, b: Blk, p: nat, n: nat) {
    b in Live(s.bs) && b.start + 1 == p && b.len - 1 >= n
  }

  ghost predicate Honest(s: State, held: Ledger) {
    forall p :: p in held ==> exists b :: Entry(s, b, p, held[p])
  }

  /** `r` is the answer, `act` the change it made; a call about nothing that is held does nothing. */
  ghost predicate Did(x: Memory, c: Call, held: Ledger, r: nat, act: Act, y: Memory) {
    && MemStep(x, act, y)
    && match c
       case Alloc(size, grant, _) =>
         && size < WORDS && act.Heaped? && act.op.MallocOp? && act.op.n == Round(size) / 8 && (act.op.grant ==> grant)
         && if r == 0 then NoRoom(x.s, act.op.n, act.op.grant)
              else exists b :: Added(x.s, y.s, b, act.op.n) && b.start + 1 == r
       case Free(p) => if p in held then act.Heaped? && act.op.FreeOp? && act.op.b.start + 1 == p else act == Idle
       case Put(p, i, value) => if p in held && i < held[p] then act == Stored(p + i, value) else act == Idle
  }

  ghost function M(h: Heap): Memory
    reads h
  {
    Memory(h.mem, State(h.blocks, |h.mem|))
  }

  // ---------------------------------------------------------------------------------------
  // The ledger

  /** Entries survive every step that does not free their block. */
  lemma StepStays(x: Memory, act: Act, y: Memory, held: Ledger)
    requires MemStep(x, act, y) && Honest(x.s, held)
    requires act.Heaped? && act.op.FreeOp? ==> act.op.b.start + 1 !in held
    ensures Honest(y.s, held)
  {
    hide Sound, Live, Do, KeepsUser, UserCell;
    forall p | p in held ensures exists b :: Entry(y.s, b, p, held[p]) {
      var b :| Entry(x.s, b, p, held[p]);
      if act.Heaped? {
        DoSound(x.s, act.op);
      }
      assert Entry(y.s, b, p, held[p]);
    }
  }

  /** A held pointer is to the data of the block whose header is just below it. */
  lemma HeldAt(mem: seq<Cell>, bs: seq<Blk>, b: Blk, p: nat, n: nat)
    requires Laid(mem, bs) && Entry(State(bs, |mem|), b, p, n)
    ensures b in bs && b.inuse && p + n <= |mem|
    ensures IndexOf(bs, b) == At0(bs, p - 1) < |bs| && bs[At0(bs, p - 1)] == b
    ensures forall c: nat :: p <= c < p + n ==> UserCell(bs, c)
  {
    hide Laid, Tile;
    InUse(bs, b);
    LaidTiles(mem, bs);
    var k := IndexOf(bs, b);
    At0Is(bs, |mem|, k);
    HeadAt(mem, bs, k);
    forall c: nat | p <= c < p + n ensures UserCell(bs, c) {
      assert bs[k].inuse && InData(bs[k], c);
    }
  }

  // ---------------------------------------------------------------------------------------
  // The calls

  /** sbrk gives no more than the address space holds. */
  predicate Granted(top: nat, c: Call)
    requires c.Alloc? && c.size < WORDS
  {
    c.grant && top + Round(c.size) / 8 + 1 < FIELD && |c.dirt| == Round(c.size) / 8 + 1
  }

  method DoAlloc(h: Heap, c: Call, held: Ledger) returns (r: nat, held': Ledger, ghost act: Act)
    requires h.Valid() && Honest(M(h).s, held) && c.Alloc? && c.size < WORDS
    modifies h
    ensures h.Valid() && Honest(M(h).s, held') && Did(old(M(h)), c, held, r, act, M(h))
  {
    hide Laid, Tile, Coalesced, KeepsUser, Honest, Live, SpecMalloc, Round;
    LaidTiles(h.mem, h.blocks);
    ghost var x := M(h);
    var n, grant := Round(c.size) / 8, Granted(|h.mem|, c);
    var got := h.Malloc(c.size, grant, c.dirt);
    act := Heaped(MallocOp(n, grant));
    DoSound(x.s, act.op);
    assert MemStep(x, act, M(h));
    StepStays(x, act, M(h), held);
    if got.Block? {
      ghost var b := h.blocks[FirstFit(x.s.bs, n)];
      assert Added(x.s, M(h).s, b, n) && b.start + 1 == got.cell;
      NewEntry(x.s, M(h).s, b, n, held);
      r, held' := got.cell, held[got.cell := n];
    } else {
      r, held' := 0, held;
    }
  }

  lemma NewEntry(s: State, t: State, b: Blk, n: nat, held: Ledger)
    requires Added(s, t, b, n) && Honest(t, held)
    ensures Honest(t, held[b.start + 1 := n])
  {
    hide Live;
    assert b in Live(t.bs);
    var more := held[b.start + 1 := n];
    forall p | p in more ensures exists c :: Entry(t, c, p, more[p]) {
      if p == b.start + 1 {
        assert Entry(t, b, p, more[p]);
      } else {
        var c :| Entry(t, c, p, held[p]);
        assert Entry(t, c, p, more[p]);
      }
    }
  }

  /** `ended` if free takes the pointer to be out of range: then the program ends and nothing has changed. */
  method DoFree(h: Heap, p: nat, held: Ledger) returns (ended: bool, held': Ledger, ghost act: Act)
    requires h.Valid() && Honest(M(h).s, held)
    modifies h
    ensures h.Valid() && Honest(M(h).s, held') && (ended <==> p in held && p == |old(h.mem)|)
    ensures if ended then M(h) == old(M(h)) else Did(old(M(h)), Free(p), held, 0, act, M(h))
  {
    hide Laid, Tile, Coalesced, KeepsUser, Live, Release;
    LaidTiles(h.mem, h.blocks);
    ghost var x := M(h);
    ended, held', act := false, held, Idle;
    if p in held {
      ghost var b :| Entry(x.s, b, p, held[p]);
      HeldAt(x.mem, x.s.bs, b, p, held[p]);
      var verdict := h.Free(At(p));
      if verdict.OutOfRange? {
        return true, held, Idle;
      }
      act, held' := Heaped(FreeOp(b)), held - {p};
      Fewer(x.s, held, p);
      assert MemStep(x, act, M(h));
      StepStays(x, act, M(h), held');
    }
  }

  lemma Fewer(s: State, held: Ledger, p: nat)
    requires Honest(s, held)
    ensures Honest(s, held - {p})
  {
    hide Entry;
    forall q | q in held - {p} ensures exists b :: Entry(s, b, q, (held - {p})[q]) {
      var b :| Entry(s, b, q, held[q]);
      assert Entry(s, b, q, (held - {p})[q]);
    }
  }

  method DoPut(h: Heap, p: nat, i: nat, value: Cell, held: Ledger) returns (ghost act: Act)
    requires h.Valid() && Honest(M(h).s, held)
    modifies h
    ensures h.Valid() && Honest(M(h).s, held) && Did(old(M(h)), Put(p, i, value), held, 0, act, M(h))
  {
    hide Laid, Coalesced, UserCell;
    act := Idle;
    if p in held && i < held[p] {
      ghost var b :| Entry(M(h).s, b, p, held[p]);
      HeldAt(h.mem, h.blocks, b, p, held[p]);
      h.Store(p + i, value);
      act := Stored(p + i, value);
    }
  }

  /** One call; it ends the program exactly if it frees a block of no bytes at the very top. */
  method Step(h: Heap, c: Call, held: Ledger) returns (ended: bool, r: nat, held': Ledger, ghost act: Act)
    requires h.Valid() && Honest(M(h).s, held) && (c.Alloc? ==> c.size < WORDS)
    modifies h
    ensures h.Valid() && Honest(M(h).s, held')
    ensures ended <==> c.Free? && c.p in held && c.p == |old(h.mem)|
    ensures if ended then M(h) == old(M(h)) else Did(old(M(h)), c, held, r, act, M(h))
  {
    hide Honest, Did, Laid, Coalesced;
    ended, r := false, 0;
    match c
    case Alloc(_, _, _) => r, held', act := DoAlloc(h, c, held);
    case Free(p) => ended, held', act := DoFree(h, p, held);
    case Put(p, i, value) =>
      held' := held;
      act := DoPut(h, p, i, value, held);
  }

  // ---------------------------------------------------------------------------------------
  // Runs

  /** Each memory follows from the one before by its call, and the program holds what the ledger says. */
  ghost predicate Ran(ms: seq<Memory>, calls: seq<Call>, helds: seq<Ledger>, rs: seq<nat>, acts: seq<Act>) {
    && |ms| == |calls| + 1 && |helds| == |calls| + 1 && |rs| == |calls| && |acts| == |calls|
    && (forall i :: 0 <= i <= |calls| ==> Honest(ms[i].s, helds[i]))
    && forall i :: 0 <= i < |calls| ==> Did(ms[i], calls[i], helds[i], rs[i], acts[i], ms[i + 1])
  }

  lemma RanMore(ms: seq<Memory>, calls: seq<Call>, helds: seq<Ledger>, rs: seq<nat>, acts: seq<Act>,
                c: Call, r: nat, act: Act, y: Memory, held: Ledger)
    requires Ran(ms, calls, helds, rs, acts) && Did(ms[|calls|], c, helds[|calls|], r, act, y) && Honest(y.s, held)
    ensures Ran(ms + [y], calls + [c], helds + [held], rs + [r], acts + [act])
  {
    hide Did, Honest;
  }

  lemma RanIsRun(ms: seq<Memory>, calls: seq<Call>, helds: seq<Ledger>, rs: seq<nat>, acts: seq<Act>)
    requires Ran(ms, calls, helds, rs, acts)
    ensures MemRun(ms, acts)
  {
    hide MemStep, Honest;
    forall i | 0 <= i < |acts| ensures MemStep(ms[i], acts[i], ms[i + 1]) {
      assert Did(ms[i], calls[i], helds[i], rs[i], acts[i], ms[i + 1]);
    }
  }

  /**
   Any sequence of calls is a run, up to its end or to a call that frees a block of no bytes at
   the very top of the heap.
   */
  method Run(h: Heap, calls: seq<Call>)
    returns (done: nat, rs: seq<nat>, ghost ms: seq<Memory>, ghost helds: seq<Ledger>, ghost acts: seq<Act>)
    requires h.Valid() && forall i :: 0 <= i < |calls| && calls[i].Alloc? ==> calls[i].size < WORDS
    modifies h
    ensures h.Valid() && done <= |calls| && Ran(ms, calls[..done], helds, rs, acts) && MemRun(ms, acts)
    ensures ms[0] == old(M(h)) && ms[done] == M(h)
    ensures done < |calls| ==> calls[done].Free? && calls[done].p in helds[done] && calls[done].p == |h.mem|
  {
    hide Did, MemStep, Laid, Coalesced;
    var held: Ledger := map[];
    rs, ms, helds, acts := [], [M(h)], [held], [];
    done := 0;
    RanIsRun(ms, calls[..0], helds, rs, acts);
    while done < |calls|
      invariant h.Valid() && done <= |calls| && |ms| == done + 1 && |helds| == done + 1
      invariant ms[0] == old(M(h)) && ms[done] == M(h) && helds[done] == held
      invariant Ran(ms, calls[..done], helds, rs, acts) && MemRun(ms, acts)
    {
      var ended, r, held';
      ghost var act;
      ended, r, held', act := Step(h, calls[done], held);
      if ended {
        return;
      }
      RanMore(ms, calls[..done], helds, rs, acts, calls[done], r, act, M(h), held');
      assert calls[..done + 1] == calls[..done] + [calls[done]];
      rs, ms, helds, acts := rs + [r], ms + [M(h)], helds + [held'], acts + [act];
      held, done := held', done + 1;
      RanIsRun(ms, calls[..done], helds, rs, acts);
    }
  }

  /** malloc(2^32 - 1) on an empty heap: a pointer comes back, to a block with no data at all. */
  method HugeRequest(dirt: Cell) returns (h: Heap, r: Got)
    ensures h.Valid() && r == Block(1) && |h.mem| == 1
  {
    h := new Heap(0);
    assert Round(WORDS - 1) == 0;
    r := h.Malloc(WORDS - 1, true, [dirt]);
  }

  /** malloc(0) then free on an empty heap: the pointer is taken to be out of range. */
  method FreeOfNothing(dirt: Cell) returns (verdict: Verdict)
    ensures verdict == OutOfRange
  {
    var h := new Heap(0);
    var r := h.Malloc(0, true, [dirt]);
    verdict := h.Free(At(1));
  }
}
