/**
 malloc and free on the cells of the heap, and what every run of them guarantees.
 */
module Malloc {
  import opened UserHeap

  const WORDS := 0x1_0000_0000 // range of a 32-bit size_t

  /** A request in bytes rounded up to whole cells, in 32-bit arithmetic. */
  function Round(size: nat): nat
    requires size < WORDS
  {
    (size + 7) % WORDS / 8 * 8
  }

  /**
   The rounding and the addition of a header hold what was asked for exactly for requests up to
   2^32 - 16; above that one of the two wraps around.
   */
  lemma RoundHolds(size: nat)
    requires size < WORDS
    ensures size <= Round(size) && Round(size) + 8 < WORDS <==> size <= WORDS - 16
    ensures size <= WORDS - 16 ==> Round(size) % 8 == 0 && Round(size) < size + 8
  {
  }

  datatype Pointer = Null | At(cell: int)

  datatype Got = Block(cell: nat) | NoMemory | Abort

  datatype Verdict = Nothing | Freed | OutOfRange | CorruptHeader | AlreadyFree | HeapCorrupt

  /** The blocks after a request for `n` cells; the break moves only if no free block fits. */
  function SpecMalloc(bs: seq<Blk>, top: nat, n: nat, grant: bool): seq<Blk> {
    var k := FirstFit(bs, n);
    if k < |bs| then Take(bs, k, n) else if grant then Extend(bs, top, n) else bs
  }

  /** The block that starts at a cell, if one does. */
  function At0(bs: seq<Blk>, c: int): (k: nat)
    ensures k <= |bs| && (k < |bs| ==> bs[k].start == c)
    ensures k == |bs| ==> forall j :: 0 <= j < |bs| ==> bs[j].start != c
  {
    if bs == [] || bs[0].start == c then 0 else 1 + At0(bs[1..], c)
  }

  lemma At0Is(bs: seq<Blk>, top: nat, k: nat)
    requires Tile(bs, top) && k < |bs|
    ensures At0(bs, bs[k].start) == k
  {
    var j := At0(bs, bs[k].start);
    if j < k { Apart(bs, top, j, k); }
    if k < j && j < |bs| { Apart(bs, top, k, j); }
  }

  class Heap {
    var base: nat
    var mem: seq<Cell>
    ghost var blocks: seq<Blk>

    ghost predicate Valid()
      reads this
    {
      Laid(mem, blocks) && Coalesced(blocks) && base % 8 == 0
    }

    /** __malloc_init: the break `x`, moved up to a cell boundary, is an empty heap. */
    constructor (x: nat)
      ensures Valid() && mem == [] && blocks == [] && x <= base < x + 8
    {
      base := if x % 8 != 0 then x + (8 - x % 8) else x;
      mem, blocks := [], [];
    }

    /** __malloc_split: cut a free block after `n` cells of data if what is left can hold a block. */
    method Cut(mh: nat, n: nat, ghost k: nat)
      requires Laid(mem, blocks) && k < |blocks| && blocks[k].start == mh && Fits(blocks[k], n)
      modifies this`mem, this`blocks
      ensures Laid(mem, blocks) && blocks == Split(old(blocks), k, n) && KeepsUser(old(mem), mem, old(blocks))
    {
      hide Laid, KeepsUser, Split;
      HeadAt(mem, blocks, k);
      NextAt(mem, blocks, k);
      SplitIs(blocks, k, n);
      if mem[mh].next - 1 - n < 2 {
        KeepsRefl(mem, blocks);
        return;
      }
      LaidTiles(mem, blocks);
      SplitLaid(mem, blocks, k, n);
      var mhnext, oldsize := mh + mem[mh].next, mem[mh].next - 1;
      mem := mem[mh := mem[mh].(next := Field(n + 1))];
      var mhnew := mh + mem[mh].next;
      assert mhnew != mhnext;
      mem := mem[mhnew := Cell(Field(n + 1), 0, MAGIC, Field(oldsize - n), false, MAGIC)];
      if mhnext != |mem| {
        mem := mem[mhnext := mem[mhnext].(prev := mem[mhnew].next)];
      }
      assert mem == SplitMem(old(mem), blocks, k, n);
      blocks := Split(blocks, k, n);
    }

    /**
     malloc.  `grant` says whether the break can be moved, `dirt` what the new memory holds.
     The consistency checks on the way never fail.
     */
    method Malloc(size: nat, grant: bool, dirt: seq<Cell>) returns (r: Got)
      requires Valid() && size < WORDS
      requires grant ==> |mem| + Round(size) / 8 + 1 < FIELD && |dirt| == Round(size) / 8 + 1
      modifies this`mem, this`blocks
      ensures Valid() && blocks == SpecMalloc(old(blocks), |old(mem)|, Round(size) / 8, grant)
      ensures KeepsUser(old(mem), mem, old(blocks))
      ensures !r.Abort? && (r.NoMemory? <==> FirstFit(old(blocks), Round(size) / 8) == |old(blocks)| && !grant)
      ensures var k := FirstFit(old(blocks), Round(size) / 8);
              r.Block? ==> k < |blocks| && r.cell == blocks[k].start + 1
      ensures var k := FirstFit(old(blocks), Round(size) / 8);
              |mem| == |old(mem)| + if k == |old(blocks)| && grant then Round(size) / 8 + 1 else 0
    {
      hide Laid, KeepsUser, Take, Coalesced, Split, Round, Tile;
      RoundHolds(size);
      var n := Round(size) / 8;
      var i, rightprevblock := 0, 0;
      ghost var k: nat := 0;
      Bottom(mem, blocks);
      while i < |mem|
        invariant k <= |blocks| && i == (if k < |blocks| then blocks[k].start else |mem|)
        invariant rightprevblock == if k == 0 then 0 else blocks[k - 1].len
        invariant forall j :: 0 <= j < k ==> !Fits(blocks[j], n)
        invariant Valid() && mem == old(mem) && blocks == old(blocks)
        decreases |mem| - i
      {
        var mh := i;
        HeadAt(mem, blocks, k);
        NextAt(mem, blocks, k);
        if !MOk(mem[mh]) {
          return Abort;
        }
        if mem[mh].prev != rightprevblock {
          return Abort;
        }
        rightprevblock := mem[mh].next;
        if mem[mh].inuse || mem[mh].next - 1 < n {
          i := i + mem[mh].next;
          k := k + 1;
        } else {
          FirstFitIs(blocks, n, k);
          Grab(mh, n, k);
          return Block(mh + 1);
        }
      }
      if k < |blocks| {
        HeadAt(mem, blocks, k);
      }
      FirstFitIs(blocks, n, |blocks|);
      if !grant {
        KeepsRefl(mem, blocks);
        return NoMemory;
      }
      var header := Cell(rightprevblock, 0, MAGIC, Field(n + 1), true, MAGIC);
      ExtendLaid(mem, blocks, n, dirt[0 := header]);
      ExtendCoalesced(blocks, |mem|, n);
      r := Block(|mem| + 1);
      blocks := Extend(blocks, |mem|, n);
      mem := mem + dirt[0 := header];
    }

    /** The block found: cut it to size and mark it in use. */
    method Grab(mh: nat, n: nat, ghost k: nat)
      requires Valid() && k < |blocks| && blocks[k].start == mh && Fits(blocks[k], n)
      modifies this`mem, this`blocks
      ensures Valid() && blocks == Take(old(blocks), k, n) && KeepsUser(old(mem), mem, old(blocks))
      ensures |mem| == |old(mem)|
      ensures k < |blocks| && blocks[k].start == mh
    {
      hide Laid, KeepsUser, Take, Coalesced, Split, Tile;
      TakeCoalesced(blocks, k, n);
      SplitThenMark(blocks, k, n);
      LaidTiles(mem, blocks);
      Cut(mh, n, k);
      LaidTiles(mem, blocks);
      ghost var m1, bs1 := mem, blocks;
      HeadAt(m1, bs1, k);
      mem := mem[mh := mem[mh].(inuse := true)];
      MarkedMem(m1, bs1, k);
      RemarkedLaid(m1, bs1, k, true, mem);
      blocks := bs1[k := bs1[k].(inuse := true)];
      SplitKeeps(old(mem), m1, mem, old(blocks), k, n);
      SameTop(old(blocks), |old(mem)|, bs1, |m1|, k, n);
    }

    /** The program writes to its own data: no header, and nobody else's data, can change. */
    method Store(c: nat, value: Cell)
      requires Valid() && UserCell(blocks, c) && c < |mem|
      modifies this`mem
      ensures Valid() && mem == old(mem)[c := value]
    {
      hide Laid;
      StoreLaid(mem, blocks, c, value);
      mem := mem[c := value];
    }

    /** __malloc_deadbeef over whole cells. */
    method Wipe(at: nat, n: nat)
      requires at + n <= |mem|
      modifies this`mem
      ensures |mem| == |old(mem)|
      ensures forall c :: 0 <= c < |mem| ==> mem[c] == if at <= c < at + n then DEAD else old(mem)[c]
    {
      for i := 0 to n
        invariant |mem| == |old(mem)|
        invariant forall c :: 0 <= c < |mem| ==> mem[c] == if at <= c < at + i then DEAD else old(mem)[c]
      {
        mem := mem[at + i := DEAD];
      }
    }

    /** __malloc_trymerge: two adjacent blocks become one if both are free; their headers always agree. */
    method Join(mh: nat, mhnext: nat, ghost k: nat) returns (ok: bool)
      requires Laid(mem, blocks) && k + 1 < |blocks| && blocks[k].start == mh && blocks[k + 1].start == mhnext
      modifies this`mem, this`blocks
      ensures ok && Laid(mem, blocks) && blocks == TryMerge(old(blocks), k) && KeepsUser(old(mem), mem, old(blocks))
      ensures |mem| == |old(mem)|
    {
      hide Laid, KeepsUser, TryMerge, Tile;
      PairAt(mem, blocks, k);
      if mem[mh].next != mem[mhnext].prev {
        return false;
      }
      MergeIs(blocks, k);
      if mem[mh].inuse || mem[mhnext].inuse {
        KeepsRefl(mem, blocks);
        return true;
      }
      MergeLaid(mem, blocks, k);
      var mhnextnext := mhnext + mem[mhnext].next;
      mem := mem[mh := mem[mh].(next := Field(1 + (mem[mh].next - 1) + 1 + (mem[mhnext].next - 1)))];
      if mhnextnext != |mem| {
        mem := mem[mhnextnext := mem[mhnextnext].(prev := mem[mh].next)];
      }
      Wipe(mhnext, 1);
      assert mem == MergeMem(old(mem), blocks, k);
      blocks := TryMerge(blocks, k);
      ok := true;
    }

    /** A pointer that is not into live data that happens to look like a header. */
    ghost predicate NotForged(x: Pointer)
      reads this
    {
      x.At? && 0 < x.cell < |mem| ==> At0(blocks, x.cell - 1) < |blocks| || !MOk(mem[x.cell - 1])
    }

    /**
     free.  A live block is released and merged with free neighbours; anything else is told
     apart and changes nothing.
     */
    method Free(x: Pointer) returns (r: Verdict)
      requires Valid() && NotForged(x) && (x.At? ==> x.cell != 0)
      modifies this`mem, this`blocks
      ensures Valid() && |mem| == |old(mem)|
      ensures r == Nothing <==> x == Null
      ensures r == OutOfRange <==> x.At? && (x.cell < 0 || x.cell >= |mem|)
      ensures x.At? && 0 < x.cell < |mem| ==>
                var k := At0(old(blocks), x.cell - 1);
                r == if k == |old(blocks)| then CorruptHeader else if old(blocks)[k].inuse then Freed else AlreadyFree
      ensures r == Freed ==>
                blocks == Release(old(blocks), At0(old(blocks), x.cell - 1)) && KeepsUser(old(mem), mem, blocks)
      ensures r != Freed ==> mem == old(mem) && blocks == old(blocks)
    {
      hide Laid, KeepsUser, Release, Tile, Coalesced;
      if x.Null? {
        return Nothing;
      }
      if x.cell < 0 || x.cell >= |mem| {
        return OutOfRange;
      }
      var mh := x.cell - 1;
      ghost var k := At0(blocks, mh);
      if k < |blocks| {
        HeadAt(mem, blocks, k);
      }
      if !MOk(mem[mh]) {
        return CorruptHeader;
      }
      if !mem[mh].inuse {
        return AlreadyFree;
      }
      var ok := Drop(mh, k);
      r := Freed;
    }

    /** The rest of free, for the header of a block in use. */
    method Drop(mh: nat, ghost k: nat) returns (ok: bool)
      requires Valid() && k < |blocks| && blocks[k].start == mh && blocks[k].inuse
      modifies this`mem, this`blocks
      ensures ok && Valid() && |mem| == |old(mem)| && blocks == Release(old(blocks), k)
      ensures KeepsUser(old(mem), mem, blocks)
    {
      hide Laid, KeepsUser, Tile, Coalesced, TryMerge, Remarked;
      ghost var bs0 := blocks;
      ReleaseCoalesced(bs0, k);
      HeadAt(mem, bs0, k);
      ghost var m0 := mem;
      mem := mem[mh := mem[mh].(inuse := false)];
      Wipe(mh + 1, mem[mh].next - 1);
      WipedMem(m0, bs0, k, mem);
      RemarkedLaid(m0, bs0, k, false, mem);
      blocks := bs0[k := bs0[k].(inuse := false)];
      ghost var bs1, m1 := blocks, mem;
      HeadAt(mem, blocks, k);
      NextAt(mem, blocks, k);
      var mhnext := mh + mem[mh].next;
      ok := true;
      if mhnext != |mem| {
        ok := Join(mh, mhnext, k);
      } else {
        KeepsRefl(mem, blocks);
      }
      ghost var bs2, m2 := blocks, mem;
      UpKeeps(m0, m1, m2, bs1, k);
      HeadAt(mem, blocks, k);
      if mh != 0 {
        PrevAt(mem, blocks, k);
        var mhprev := mh - mem[mh].prev;
        var ok' := Join(mhprev, mh, k - 1);
        DownKeeps(m0, m2, mem, bs2, k - 1);
        ok := ok && ok';
      } else {
        AtBottom(mem, blocks, k);
      }
    }
  }

  lemma MergeIs(bs: seq<Blk>, k: nat)
    requires k + 1 < |bs|
    ensures !BothFree(bs, k) ==> TryMerge(bs, k) == bs
  {
  }

  lemma WipedMem(mem: seq<Cell>, bs: seq<Blk>, k: nat, mem': seq<Cell>)
    requires k < |bs| && End(bs[k]) <= |mem| == |mem'| && bs[k].len >= 1
    requires forall c :: 0 <= c < |mem| ==>
               mem'[c] == if bs[k].start + 1 <= c < bs[k].start + 1 + (bs[k].len - 1) then DEAD
                          else mem[bs[k].start := mem[bs[k].start].(inuse := false)][c]
    ensures Remarked(mem, bs[k], false, mem')
  {
  }

  /** Merging moves no user data out of the live blocks. */
  lemma MergeUserCell(bs: seq<Blk>, k: nat, c: nat)
    requires k + 1 < |bs|
    ensures UserCell(TryMerge(bs, k), c) <==> UserCell(bs, c)
  {
    hide InData;
    var r := TryMerge(bs, k);
    if BothFree(bs, k) {
      if UserCell(r, c) {
        var j :| 0 <= j < |r| && r[j].inuse && InData(r[j], c);
        MergeBlock(bs, k, j);
      }
      if UserCell(bs, c) {
        var j :| 0 <= j < |bs| && bs[j].inuse && InData(bs[j], c);
        MergeBlock(bs, k, if j < k then j else j - 1);
      }
    }
  }

  lemma DownKeeps(mem: seq<Cell>, mem1: seq<Cell>, mem2: seq<Cell>, bs: seq<Blk>, k: nat)
    requires k + 1 < |bs| && KeepsUser(mem, mem1, bs) && KeepsUser(mem1, mem2, bs)
    ensures KeepsUser(mem, mem2, TryMerge(bs, k))
  {
    hide UserCell, TryMerge;
    forall c: nat | UserCell(TryMerge(bs, k), c) ensures c < |mem| && c < |mem2| && mem2[c] == mem[c] {
      MergeUserCell(bs, k, c);
    }
  }

  lemma UpKeeps(mem: seq<Cell>, mem1: seq<Cell>, mem2: seq<Cell>, bs: seq<Blk>, k: nat)
    requires k < |bs| && KeepsUser(mem, mem1, bs) && KeepsUser(mem1, mem2, bs)
    ensures KeepsUser(mem, mem2, MergeUp(bs, k)) && k < |MergeUp(bs, k)| && MergeUp(bs, k)[k].start == bs[k].start
  {
    hide UserCell;
    if k + 1 < |bs| {
      DownKeeps(mem, mem1, mem2, bs, k);
    }
  }

  /** The header leads down to the block below. */
  lemma PrevAt(mem: seq<Cell>, bs: seq<Blk>, k: nat)
    requires Laid(mem, bs) && k < |bs| && bs[k].start != 0
    ensures k > 0 && mem[bs[k].start].prev == bs[k - 1].len <= bs[k].start
    ensures bs[k - 1].start == bs[k].start - bs[k - 1].len
  {
    Bottom(mem, bs);
    HeadAt(mem, bs, k);
    NextAt(mem, bs, k - 1);
  }

  lemma AtBottom(mem: seq<Cell>, bs: seq<Blk>, k: nat)
    requires Laid(mem, bs) && k < |bs| && bs[k].start == 0
    ensures k == 0
  {
    if k > 0 {
      PairAt(mem, bs, k - 1);
    }
  }

  lemma Bottom(mem: seq<Cell>, bs: seq<Blk>)
    requires Laid(mem, bs)
    ensures if bs == [] then mem == [] else bs[0].start == 0
  {
    hide HeadOk, Joined;
  }

  /** Data of a block in use lies outside every other block, and is no header. */
  lemma Elsewhere(mem: seq<Cell>, bs: seq<Blk>, j: nat, c: nat, k: nat)
    requires Laid(mem, bs) && j < |bs| && k < |bs| && InData(bs[j], c)
    ensures c != bs[k].start && (k != j ==> !InData(bs[k], c))
  {
    hide Laid, Tile, Joined;
    LaidTiles(mem, bs);
    if k < j { Apart(bs, |mem|, k, j); } else if j < k { Apart(bs, |mem|, j, k); }
    HeadAt(mem, bs, k);
  }

  lemma StoreHead(mem: seq<Cell>, bs: seq<Blk>, c: nat, value: Cell, j: nat, k: nat)
    requires Laid(mem, bs) && j < |bs| && k < |bs| && InData(bs[j], c) && c < |mem|
    ensures End(bs[k]) <= |mem| && bs[k].start < |mem| && HeadOk(mem[c := value], bs, k)
  {
    hide Laid, Tile, Joined, InData;
    Elsewhere(mem, bs, j, c, k);
    HeadAt(mem, bs, k);
  }

  lemma StoreData(mem: seq<Cell>, bs: seq<Blk>, c: nat, value: Cell, j: nat, k: nat, d: nat)
    requires Laid(mem, bs) && j < |bs| && k < |bs| && bs[j].inuse && !bs[k].inuse && c < |mem|
    requires InData(bs[j], c) && InData(bs[k], d)
    ensures d < |mem| && mem[c := value][d] == DEAD
  {
    hide Laid, Tile, Joined;
    Elsewhere(mem, bs, j, c, k);
    DataAt(mem, bs, k, d);
  }

  lemma StoreLaid(mem: seq<Cell>, bs: seq<Blk>, c: nat, value: Cell)
    requires Laid(mem, bs) && UserCell(bs, c) && c < |mem|
    ensures Laid(mem[c := value], bs)
  {
    hide Laid, Tile, Joined, InData, HeadOk;
    var j :| 0 <= j < |bs| && bs[j].inuse && InData(bs[j], c);
    var mem' := mem[c := value];
    LaidTiles(mem, bs);
    forall k | 0 <= k < |bs| ensures End(bs[k]) <= |mem'| && bs[k].start < |mem'| && HeadOk(mem', bs, k) {
      StoreHead(mem, bs, c, value, j, k);
    }
    forall k, d: nat | 0 <= k < |bs| && !bs[k].inuse && InData(bs[k], d) ensures d < |mem'| && mem'[d] == DEAD {
      StoreData(mem, bs, c, value, j, k, d);
    }
    LaidIf(mem', bs);
  }

  lemma SplitIs(bs: seq<Blk>, k: nat, n: nat)
    requires k < |bs| && bs[k].len - 1 >= n
    ensures bs[k].len - 1 - n < 2 ==> Split(bs, k, n) == bs
  {
  }

  lemma KeepsRefl(mem: seq<Cell>, bs: seq<Blk>)
    requires Laid(mem, bs)
    ensures KeepsUser(mem, mem, bs)
  {
    hide Tile, HeadOk;
  }

  lemma ExtendCoalesced(bs: seq<Blk>, top: nat, n: nat)
    requires Coalesced(bs)
    ensures Coalesced(Extend(bs, top, n))
  {
    var r := Extend(bs, top, n);
    forall j | 0 <= j < |r| - 1 ensures NotBothFree(r, j) {
      if j < |bs| - 1 { assert NotBothFree(bs, j); }
    }
  }

  lemma MarkedMem(mem: seq<Cell>, bs: seq<Blk>, k: nat)
    requires Laid(mem, bs) && k < |bs| && bs[k].start < |mem|
    ensures Remarked(mem, bs[k], true, mem[bs[k].start := mem[bs[k].start].(inuse := true)])
  {
    hide Laid, Tile;
  }

  /** Cells of user data before a split are cells of user data after it. */
  lemma SplitKeeps(mem: seq<Cell>, mem1: seq<Cell>, mem2: seq<Cell>, bs: seq<Blk>, k: nat, n: nat)
    requires k < |bs| && !bs[k].inuse && bs[k].len - 1 >= n
    requires KeepsUser(mem, mem1, bs) && KeepsUser(mem1, mem2, Split(bs, k, n))
    ensures KeepsUser(mem, mem2, bs)
  {
    hide InData, KeepsUser;
    var r := Split(bs, k, n);
    forall c: nat | UserCell(bs, c) ensures UserCell(r, c) {
      var j :| 0 <= j < |bs| && bs[j].inuse && InData(bs[j], c);
      if bs[k].len - 1 - n >= 2 {
        SplitBlock(bs, k, n, if j < k then j else j + 1);
      }
      assert r[if j < k || |r| == |bs| then j else j + 1] == bs[j];
    }
    KeepsTrans(mem, mem1, mem2, bs, r);
  }

  lemma SameTop(bs: seq<Blk>, top: nat, bs1: seq<Blk>, top1: nat, k: nat, n: nat)
    requires Tile(bs, top) && Tile(bs1, top1) && k < |bs| && bs[k].len - 1 >= n && bs1 == Split(bs, k, n)
    ensures top1 == top
  {
    SplitTiles(bs, top, k, n);
  }

  // ---------------------------------------------------------------------------------------
  // Freeing twice

  /** What was a block's header lies, once freed, at the start of a free block or inside one. */
  lemma FreedIsFree(bs: seq<Blk>, top: nat, k: nat) returns (j: nat)
    requires Tile(bs, top) && k < |bs|
    ensures j < |Release(bs, k)| && !Release(bs, k)[j].inuse
    ensures Release(bs, k)[j].start <= bs[k].start < End(Release(bs, k)[j])
  {
    var freed := bs[k := bs[k].(inuse := false)];
    var up := MergeUp(freed, k);
    var r := Release(bs, k);
    assert up[k].start == bs[k].start && !up[k].inuse && up[k].len >= 1;
    if k > 0 && !up[k - 1].inuse {
      assert Joined(bs, k - 1);
      assert r[k - 1] == Blk(up[k - 1].start, up[k - 1].len + up[k].len, false);
      j := k - 1;
    } else {
      assert r[k] == up[k];
      j := k;
    }
  }

  /** Inside a free block no pointer passes the checks of free. */
  lemma FreeIsGuarded(mem: seq<Cell>, bs: seq<Blk>, j: nat, c: nat)
    requires Laid(mem, bs) && j < |bs| && !bs[j].inuse && bs[j].start <= c < End(bs[j])
    ensures c < |mem| && if At0(bs, c) < |bs| then !bs[At0(bs, c)].inuse else !MOk(mem[c])
  {
    hide Laid, Tile, Joined;
    HeadAt(mem, bs, j);
    var k := At0(bs, c);
    if c == bs[j].start {
      At0Is(bs, |mem|, j);
    } else {
      DataAt(mem, bs, j, c);
      DeadIsNotHeader();
      if k < |bs| {
        HeadAt(mem, bs, k);
      }
    }
  }

  /** Freeing the same pointer again is caught, whatever merging the first free did. */
  method FreeTwice(h: Heap, x: Pointer) returns (r: Verdict)
    requires h.Valid() && x.At? && 0 < x.cell < |h.mem|
    requires At0(h.blocks, x.cell - 1) < |h.blocks| && h.blocks[At0(h.blocks, x.cell - 1)].inuse
    modifies h
    ensures r == AlreadyFree || r == CorruptHeader
  {
    hide Laid, Release, KeepsUser, Tile, Coalesced;
    LaidTiles(h.mem, h.blocks);
    ghost var bs, k := h.blocks, At0(h.blocks, x.cell - 1);
    ghost var j := FreedIsFree(bs, |h.mem|, k);
    var first := h.Free(x);
    FreeIsGuarded(h.mem, h.blocks, j, x.cell - 1);
    r := h.Free(x);
  }

  /** The block of a request for no bytes, when it is the topmost, is the one live block free refuses. */
  lemma TopmostEmpty(bs: seq<Blk>, top: nat, k: nat)
    requires Tile(bs, top) && k < |bs|
    ensures bs[k].start + 1 < top <==> !(k == |bs| - 1 && bs[k].len == 1)
  {
    BelowTop(bs, top, k);
    if k < |bs| - 1 {
      Apart(bs, top, k, |bs| - 1);
      BelowTop(bs, top, |bs| - 1);
    }
  }

  // ---------------------------------------------------------------------------------------
  // Runs

  datatype Op = MallocOp(n: nat, grant: bool) | FreeOp(b: Blk)

  datatype State = State(bs: seq<Blk>, top: nat)

  /** The program frees only blocks it holds, and none that free takes to be out of range, which ends the program. */
  predicate Allowed(s: State, op: Op) {
    op.FreeOp? ==> op.b in Live(s.bs) && op.b.start + 1 < s.top
  }

  function Do(s: State, op: Op): State
    requires Allowed(s, op)
  {
    match op
    case MallocOp(n, grant) =>
      State(SpecMalloc(s.bs, s.top, n, grant), s.top + if FirstFit(s.bs, n) == |s.bs| && grant then n + 1 else 0)
    case FreeOp(b) => State(Release(s.bs, IndexOf(s.bs, b)), s.top)
  }

  function IndexOf(bs: seq<Blk>, b: Blk): (k: nat)
    requires b in bs
    ensures k < |bs| && bs[k] == b
  {
    if bs[0] == b then 0 else 1 + IndexOf(bs[1..], b)
  }

  predicate Sound(s: State) {
    Tile(s.bs, s.top) && Coalesced(s.bs)
  }

  predicate NoRoom(s: State, n: nat, grant: bool) {
    FirstFit(s.bs, n) == |s.bs| && !grant
  }

  /** One more live block, that was not live and holds `n` cells of data, or one more that could not be split off. */
  predicate Added(s: State, t: State, b: Blk, n: nat) {
    b !in Live(s.bs) && n <= b.len - 1 <= n + 1 && Live(t.bs) == Live(s.bs) + {b}
  }

  lemma DoSound(s: State, op: Op)
    requires Sound(s) && Allowed(s, op)
    ensures Sound(Do(s, op))
    ensures match op
            case MallocOp(n, grant) =>
              if NoRoom(s, n, grant) then Do(s, op) == s
              else FirstFit(s.bs, n) < |Do(s, op).bs| && Added(s, Do(s, op), Do(s, op).bs[FirstFit(s.bs, n)], n)
            case FreeOp(b) => Live(Do(s, op).bs) == Live(s.bs) - {b}
  {
    hide Tile, Coalesced, Take, Release, Live;
    match op {
      case MallocOp(n, grant) =>
        var k := FirstFit(s.bs, n);
        if k < |s.bs| {
          TakeTiles(s.bs, s.top, k, n);
          TakeCoalesced(s.bs, k, n);
          LiveTake(s.bs, s.top, k, n);
          TakeShape(s.bs, k, n);
          assert Added(s, Do(s, op), Take(s.bs, k, n)[k], n);
        } else if grant {
          ExtendTiles(s.bs, s.top, n);
          ExtendCoalesced(s.bs, s.top, n);
          LiveExtend(s.bs, s.top, n);
          assert Added(s, Do(s, op), Blk(s.top, n + 1, true), n);
        }
      case FreeOp(b) =>
        InUse(s.bs, b);
        var k := IndexOf(s.bs, b);
        ReleaseTiles(s.bs, s.top, k);
        ReleaseCoalesced(s.bs, k);
        LiveRelease(s.bs, s.top, k);
    }
  }

  lemma InUse(bs: seq<Blk>, b: Blk)
    requires b in Live(bs)
    ensures b.inuse && b in bs
  {
  }

  ghost predicate AllAllowed(s: State, ops: seq<Op>)
    decreases |ops|
  {
    ops == [] || (Allowed(s, ops[0]) && AllAllowed(Do(s, ops[0]), ops[1..]))
  }

  ghost function Run(s: State, ops: seq<Op>): State
    requires AllAllowed(s, ops)
    decreases |ops|
  {
    if ops == [] then s else Run(Do(s, ops[0]), ops[1..])
  }

  /**
   However the program allocates and frees, blocks tile the heap, no two free neighbours
   remain, and a block once handed out stays live and apart from all others until it is freed.
   */
  lemma {:induction false} RunSound(s: State, ops: seq<Op>, b: Blk)
    requires Sound(s) && AllAllowed(s, ops)
    ensures Sound(Run(s, ops))
    ensures b in Live(s.bs) && FreeOp(b) !in ops ==> b in Live(Run(s, ops).bs)
    decreases |ops|
  {
    hide Do, Sound, Live, Allowed;
    if ops != [] {
      DoSound(s, ops[0]);
      RunSound(Do(s, ops[0]), ops[1..], b);
    }
  }

  // ---------------------------------------------------------------------------------------
  // What runs do to memory

  datatype Act = Heaped(op: Op) | Stored(c: nat, value: Cell) | Idle

  datatype Memory = Memory(mem: seq<Cell>, s: State)

  /** The change that a call of Malloc, Free or Store makes; an idle step makes none. */
  ghost predicate MemStep(m: Memory, a: Act, n: Memory) {
    match a
    case Heaped(op) =>
      && Sound(m.s) && Allowed(m.s, op) && n.s == Do(m.s, op)
      && KeepsUser(m.mem, n.mem, if op.FreeOp? then n.s.bs else m.s.bs)
    case Stored(c, value) => UserCell(m.s.bs, c) && c < |m.mem| && n == m.(mem := m.mem[c := value])
    case Idle => n == m
  }

  ghost predicate MemRun(ms: seq<Memory>, acts: seq<Act>) {
    |ms| == |acts| + 1 && forall k :: 0 <= k < |acts| ==> MemStep(ms[k], acts[k], ms[k + 1])
  }

  /** What the program last stored in a cell, `value` if it has not. */
  function LastStored(acts: seq<Act>, c: nat, value: Cell): Cell {
    if acts == [] then value
    else
      var a := acts[|acts| - 1];
      if a.Stored? && a.c == c then a.value else LastStored(acts[..|acts| - 1], c, value)
  }

  lemma MemStepKeeps(m: Memory, a: Act, n: Memory, b: Blk, c: nat)
    requires MemStep(m, a, n) && b in Live(m.s.bs) && InData(b, c) && a != Heaped(FreeOp(b)) && c < |m.mem|
    ensures b in Live(n.s.bs) && c < |n.mem|
    ensures n.mem[c] == if a.Stored? && a.c == c then a.value else m.mem[c]
  {
    hide Sound, Do, InData;
    InUse(m.s.bs, b);
    assert UserCell(m.s.bs, c);
    if a.Heaped? {
      DoSound(m.s, a.op);
      InUse(n.s.bs, b);
      assert UserCell(n.s.bs, c);
    }
  }

  /** A block that is not freed keeps, through every run, what the program stored in it. */
  lemma {:induction false} BytesKept(ms: seq<Memory>, acts: seq<Act>, b: Blk, c: nat)
    requires MemRun(ms, acts) && b in Live(ms[0].s.bs) && InData(b, c) && Heaped(FreeOp(b)) !in acts && c < |ms[0].mem|
    ensures b in Live(ms[|acts|].s.bs) && c < |ms[|acts|].mem|
    ensures ms[|acts|].mem[c] == LastStored(acts, c, ms[0].mem[c])
    decreases |acts|
  {
    hide MemStep, Live, InData;
    if acts != [] {
      var k := |acts| - 1;
      MemRunLess(ms, acts);
      BytesKept(ms[..|acts|], acts[..k], b, c);
      assert acts[k] in acts;
      MemStepKeeps(ms[k], acts[k], ms[k + 1], b, c);
    }
  }

  lemma MemRunLess(ms: seq<Memory>, acts: seq<Act>)
    requires MemRun(ms, acts) && acts != []
    ensures MemRun(ms[..|acts|], acts[..|acts| - 1]) && MemStep(ms[|acts| - 1], acts[|acts| - 1], ms[|acts|])
  {
    hide MemStep;
    forall k | 0 <= k < |acts| - 1 ensures MemStep(ms[..|acts|][k], acts[..|acts| - 1][k], ms[..|acts|][k + 1]) {
      assert MemStep(ms[k], acts[k], ms[k + 1]);
    }
  }

  lemma NoneLive(bs: seq<Blk>)
    requires Live(bs) == {}
    ensures forall k :: 0 <= k < |bs| ==> !bs[k].inuse
  {
    forall k | 0 <= k < |bs| ensures !bs[k].inuse {
      var b := bs[k];
      assert b in bs && b !in Live(bs);
    }
  }

  /** Once everything is freed, the heap is a single free block again. */
  lemma RunAllFreed(ops: seq<Op>)
    requires AllAllowed(State([], 0), ops) && Live(Run(State([], 0), ops).bs) == {}
    ensures var s := Run(State([], 0), ops); s.bs == if s.top == 0 then [] else [Blk(0, s.top, false)]
  {
    hide Run, AllAllowed;
    RunSound(State([], 0), ops, Blk(0, 1, false));
    var s := Run(State([], 0), ops);
    NoneLive(s.bs);
    AllFreeIsOne(s.bs, s.top);
  }
}
