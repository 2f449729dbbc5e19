/**
 The user-level malloc and free: a first-fit heap of blocks, each with a header that says how
 long it and the block below are.

 Memory is the run of 8-byte cells from the heap's base to its top.  `Blk` and the functions on
 sequences of them say what the operations do; the class works on the cells.
 */
module UserHeap {

  // ---------------------------------------------------------------------------------------
  // Cells and headers

  const FIELD := 0x2000_0000 // range of a 29-bit field
  const MAGIC := 2

  /** Eight bytes, seen as the bit-fields of a header: 29, 1 and 2 bits, twice. */
  datatype Cell = Cell(prev: nat, pad: nat, magic1: nat, next: nat, inuse: bool, magic2: nat)

  function OfWords(w0: nat, w1: nat): Cell {
    Cell(w0 / 8, w0 / 4 % 2, w0 % 4, w1 / 8, w1 / 4 % 2 == 1, w1 % 4)
  }

  const DEAD := OfWords(0xdeadbeef, 0xdeadbeef)

  predicate MOk(c: Cell) {
    c.magic1 == MAGIC && c.magic2 == MAGIC
  }

  function Header(prev: nat, next: nat, inuse: bool): Cell {
    Cell(prev, 0, MAGIC, next, inuse, MAGIC)
  }

  /** Wiped memory does not look like a header. */
  lemma DeadIsNotHeader()
    ensures !MOk(DEAD)
  {
  }

  /** A value stored in a 29-bit field. */
  function Field(n: nat): nat {
    n % FIELD
  }

  // ---------------------------------------------------------------------------------------
  // Blocks

  /** A block of `len` cells, its header included. */
  datatype Blk = Blk(start: nat, len: nat, inuse: bool)

  function End(b: Blk): nat {
    b.start + b.len
  }

  /** Block `k` ends where the next one starts. */
  predicate Joined(bs: seq<Blk>, k: nat)
    requires k + 1 < |bs|
  {
    End(bs[k]) == bs[k + 1].start
  }

  /** The blocks follow one another from cell 0 to the top. */
  predicate Tile(bs: seq<Blk>, top: nat) {
    && (forall k :: 0 <= k < |bs| ==> bs[k].len >= 1)
    && (forall k :: 0 <= k < |bs| - 1 ==> Joined(bs, k))
    && (if bs == [] then top == 0 else bs[0].start == 0 && End(bs[|bs| - 1]) == top)
  }

  predicate NotBothFree(bs: seq<Blk>, k: nat)
    requires k + 1 < |bs|
  {
    bs[k].inuse || bs[k + 1].inuse
  }

  /** No two neighbours are both free. */
  predicate Coalesced(bs: seq<Blk>) {
    forall k :: 0 <= k < |bs| - 1 ==> NotBothFree(bs, k)
  }

  predicate Fits(b: Blk, n: nat) {
    !b.inuse && b.len - 1 >= n
  }

  /** The lowest free block with room for `n` cells of data. */
  function FirstFit(bs: seq<Blk>, n: nat): (k: nat)
    ensures k <= |bs| && (k < |bs| ==> Fits(bs[k], n))
    ensures forall j :: 0 <= j < k ==> !Fits(bs[j], n)
  {
    if bs == [] || Fits(bs[0], n) then 0 else 1 + FirstFit(bs[1..], n)
  }

  lemma FirstFitIs(bs: seq<Blk>, n: nat, k: nat)
    requires k <= |bs| && (k < |bs| ==> Fits(bs[k], n)) && forall j :: 0 <= j < k ==> !Fits(bs[j], n)
    ensures FirstFit(bs, n) == k
  {
    var j := FirstFit(bs, n);
    assert !(j < k) && !(k < j);
  }

  /** Block `k` in use with `n` cells of data, and what is left of it a free block if it is worth one. */
  function Take(bs: seq<Blk>, k: nat, n: nat): (r: seq<Blk>)
    requires k < |bs| && bs[k].len - 1 >= n
  {
    var b := bs[k];
    if b.len - 1 - n < 2 then bs[k := b.(inuse := true)]
    else bs[..k] + [Blk(b.start, n + 1, true), Blk(b.start + n + 1, b.len - n - 1, false)] + bs[k + 1..]
  }

  function Extend(bs: seq<Blk>, top: nat, n: nat): seq<Blk> {
    bs + [Blk(top, n + 1, true)]
  }

  /** Blocks `k` and `k + 1` as one, if both are free. */
  function TryMerge(bs: seq<Blk>, k: nat): (r: seq<Blk>)
    requires k + 1 < |bs|
  {
    if bs[k].inuse || bs[k + 1].inuse then bs
    else bs[..k] + [Blk(bs[k].start, bs[k].len + bs[k + 1].len, false)] + bs[k + 2..]
  }

  function MergeUp(bs: seq<Blk>, k: nat): (r: seq<Blk>)
    requires k < |bs|
  {
    if k + 1 < |bs| then TryMerge(bs, k) else bs
  }

  function Release(bs: seq<Blk>, k: nat): (r: seq<Blk>)
    requires k < |bs|
  {
    var up := MergeUp(bs[k := bs[k].(inuse := false)], k);
    if k > 0 then TryMerge(up, k - 1) else up
  }

  lemma TakeTiles(bs: seq<Blk>, top: nat, k: nat, n: nat)
    requires Tile(bs, top) && k < |bs| && bs[k].len - 1 >= n
    ensures Tile(Take(bs, k, n), top)
  {
    var r := Take(bs, k, n);
    if bs[k].len - 1 - n >= 2 {
      forall j | 0 <= j < |r| - 1 ensures Joined(r, j) {
        if j < k { assert Joined(bs, j); }
        if j > k { assert j > k + 1 ==> Joined(bs, j - 1); }
        if j == k + 1 { assert Joined(bs, k); }
      }
    } else {
      forall j | 0 <= j < |r| - 1 ensures Joined(r, j) { assert Joined(bs, j); }
    }
  }

  lemma TakeCoalesced(bs: seq<Blk>, k: nat, n: nat)
    requires Coalesced(bs) && k < |bs| && Fits(bs[k], n)
    ensures Coalesced(Take(bs, k, n))
  {
    var r := Take(bs, k, n);
    var d := |r| - |bs|;
    forall j | 0 <= j < |r| - 1 ensures NotBothFree(r, j) {
      if j < k { assert NotBothFree(bs, j); }
      if j > k { assert NotBothFree(bs, j - d); }
    }
  }

  lemma MergeTiles(bs: seq<Blk>, top: nat, k: nat)
    requires Tile(bs, top) && k + 1 < |bs|
    ensures Tile(TryMerge(bs, k), top)
  {
    var r := TryMerge(bs, k);
    if |r| < |bs| {
      assert Joined(bs, k);
      forall j | 0 <= j < |r| - 1 ensures Joined(r, j) {
        assert Joined(bs, if j < k then j else j + 1);
      }
    }
  }

  lemma MarkedTiles(bs: seq<Blk>, top: nat, k: nat, inuse: bool)
    requires Tile(bs, top) && k < |bs|
    ensures Tile(bs[k := bs[k].(inuse := inuse)], top)
  {
    var r := bs[k := bs[k].(inuse := inuse)];
    forall j | 0 <= j < |r| - 1 ensures Joined(r, j) { assert Joined(bs, j); }
  }

  lemma ReleaseTiles(bs: seq<Blk>, top: nat, k: nat)
    requires Tile(bs, top) && k < |bs|
    ensures Tile(Release(bs, k), top)
  {
    var freed := bs[k := bs[k].(inuse := false)];
    MarkedTiles(bs, top, k, false);
    if k + 1 < |bs| { MergeTiles(freed, top, k); }
    if k > 0 { MergeTiles(MergeUp(freed, k), top, k - 1); }
  }

  /** No two neighbours are both free, the pair at `k` set apart. */
  predicate CoalescedBut(bs: seq<Blk>, k: int) {
    forall j :: 0 <= j < |bs| - 1 && j != k ==> NotBothFree(bs, j)
  }

  lemma FreedCoalesced(bs: seq<Blk>, k: nat)
    requires Coalesced(bs) && k < |bs| && bs[k].inuse
    ensures CoalescedBut(MergeUp(bs[k := bs[k].(inuse := false)], k), k - 1)
  {
    var freed := bs[k := bs[k].(inuse := false)];
    var up := MergeUp(freed, k);
    var d := |bs| - |up|;
    assert forall j :: k < j < |up| ==> up[j] == bs[j + d];
    forall j | 0 <= j < |up| - 1 && j != k - 1 ensures NotBothFree(up, j) {
      assert NotBothFree(bs, if j < k then j else j + d);
    }
  }

  lemma MergeCoalesced(bs: seq<Blk>, k: nat)
    requires CoalescedBut(bs, k) && k + 1 < |bs|
    ensures Coalesced(TryMerge(bs, k))
  {
    var r := TryMerge(bs, k);
    forall j | 0 <= j < |r| - 1 ensures NotBothFree(r, j) {
      if |r| < |bs| {
        if j == k - 1 {
          assert NotBothFree(bs, j);
        } else {
          assert NotBothFree(bs, if j < k then j else j + 1);
        }
      } else if j != k {
        assert NotBothFree(bs, j);
      }
    }
  }

  /** Freeing a block merges it with both neighbours, so no two free blocks touch. */
  lemma ReleaseCoalesced(bs: seq<Blk>, k: nat)
    requires Coalesced(bs) && k < |bs| && bs[k].inuse
    ensures Coalesced(Release(bs, k))
  {
    FreedCoalesced(bs, k);
    if k > 0 {
      MergeCoalesced(MergeUp(bs[k := bs[k].(inuse := false)], k), k - 1);
    }
  }

  /** When nothing is in use, the heap is one free block. */
  lemma AllFreeIsOne(bs: seq<Blk>, top: nat)
    requires Tile(bs, top) && Coalesced(bs) && forall k :: 0 <= k < |bs| ==> !bs[k].inuse
    ensures bs == if top == 0 then [] else [Blk(0, top, false)]
  {
    assert |bs| > 1 ==> NotBothFree(bs, 0);
  }

  /** Different blocks do not overlap. */
  lemma {:induction false} Apart(bs: seq<Blk>, top: nat, i: nat, j: nat)
    requires Tile(bs, top) && i < j < |bs|
    ensures End(bs[i]) <= bs[j].start
    decreases j - i
  {
    assert Joined(bs, j - 1);
    if i + 1 < j { Apart(bs, top, i, j - 1); }
  }

  lemma BelowTop(bs: seq<Blk>, top: nat, k: nat)
    requires Tile(bs, top) && k < |bs|
    ensures End(bs[k]) <= top
  {
    if k < |bs| - 1 { Apart(bs, top, k, |bs| - 1); }
  }

  // ---------------------------------------------------------------------------------------
  // Blocks in memory

  function PrevLen(bs: seq<Blk>, k: nat): nat
    requires k < |bs|
  {
    if k == 0 then 0 else bs[k - 1].len
  }

  predicate InData(b: Blk, c: nat) {
    b.start < c < End(b)
  }

  /** Cell `c` is data that belongs to the user. */
  predicate UserCell(bs: seq<Blk>, c: nat) {
    exists j :: 0 <= j < |bs| && bs[j].inuse && InData(bs[j], c)
  }

  predicate HeadOk(mem: seq<Cell>, bs: seq<Blk>, k: nat)
    requires k < |bs| && bs[k].start < |mem|
  {
    mem[bs[k].start] == Header(PrevLen(bs, k), bs[k].len, bs[k].inuse)
  }

  /** Every header says the length of its block and of the one below; free memory is wiped. */
  ghost predicate Laid(mem: seq<Cell>, bs: seq<Blk>) {
    && Tile(bs, |mem|) && |mem| < FIELD
    && (forall k :: 0 <= k < |bs| ==> End(bs[k]) <= |mem|)
    && (forall k :: 0 <= k < |bs| ==> HeadOk(mem, bs, k))
    && (forall k, c: nat :: 0 <= k < |bs| && !bs[k].inuse && InData(bs[k], c) ==> mem[c] == DEAD)
  }

  /** Every cell of user data in the blocks `bs` is the same in both memories. */
  ghost predicate KeepsUser(mem: seq<Cell>, mem': seq<Cell>, bs: seq<Blk>) {
    forall c: nat :: UserCell(bs, c) ==> c < |mem| && c < |mem'| && mem'[c] == mem[c]
  }

  lemma KeepsTrans(mem: seq<Cell>, mem1: seq<Cell>, mem2: seq<Cell>, bs: seq<Blk>, bs1: seq<Blk>)
    requires KeepsUser(mem, mem1, bs) && KeepsUser(mem1, mem2, bs1)
    requires forall c: nat :: UserCell(bs, c) ==> UserCell(bs1, c)
    ensures KeepsUser(mem, mem2, bs)
  {
  }

  /** A free block as two free blocks, `n` cells of data in the first. */
  function Split(bs: seq<Blk>, k: nat, n: nat): seq<Blk>
    requires k < |bs| && bs[k].len - 1 >= n
  {
    var b := bs[k];
    if b.len - 1 - n < 2 then bs
    else bs[..k] + [Blk(b.start, n + 1, b.inuse), Blk(b.start + n + 1, b.len - n - 1, false)] + bs[k + 1..]
  }

  lemma SplitThenMark(bs: seq<Blk>, k: nat, n: nat)
    requires k < |bs| && bs[k].len - 1 >= n
    ensures k < |Split(bs, k, n)| && Split(bs, k, n)[k].start == bs[k].start
    ensures Split(bs, k, n)[k := Split(bs, k, n)[k].(inuse := true)] == Take(bs, k, n)
  {
  }

  lemma SplitTiles(bs: seq<Blk>, top: nat, k: nat, n: nat)
    requires Tile(bs, top) && k < |bs| && bs[k].len - 1 >= n
    ensures Tile(Split(bs, k, n), top)
  {
    var r := Split(bs, k, n);
    if |r| > |bs| {
      forall j | 0 <= j < |r| - 1 ensures Joined(r, j) {
        if j < k { assert Joined(bs, j); }
        if j > k { assert Joined(bs, j - 1); }
      }
    }
  }

  /** The memory after a split: three headers change. */
  function SplitMem(mem: seq<Cell>, bs: seq<Blk>, k: nat, n: nat): seq<Cell>
    requires k < |bs| && bs[k].len - 1 >= n + 2 && End(bs[k]) <= |mem|
  {
    var b := bs[k];
    var m := mem[b.start := mem[b.start].(next := n + 1)][b.start + n + 1 := Header(n + 1, b.len - n - 1, false)];
    if End(b) < |mem| then m[End(b) := mem[End(b)].(prev := b.len - n - 1)] else m
  }

  /** What a laid-out heap says of one block. */
  lemma HeadAt(mem: seq<Cell>, bs: seq<Blk>, k: nat)
    requires Laid(mem, bs) && k < |bs|
    ensures bs[k].len >= 1 && End(bs[k]) <= |mem| && Tile(bs, |mem|)
    ensures mem[bs[k].start] == Header(PrevLen(bs, k), bs[k].len, bs[k].inuse)
  {
    assert HeadOk(mem, bs, k);
  }

  lemma DataAt(mem: seq<Cell>, bs: seq<Blk>, k: nat, c: nat)
    requires Laid(mem, bs) && k < |bs| && InData(bs[k], c)
    ensures c < |mem| && (!bs[k].inuse ==> mem[c] == DEAD)
  {
  }

  /** The next block starts where this one ends. */
  lemma NextAt(mem: seq<Cell>, bs: seq<Blk>, k: nat)
    requires Laid(mem, bs) && k < |bs|
    ensures if k + 1 < |bs| then bs[k + 1].start == End(bs[k]) < |mem| else End(bs[k]) == |mem|
  {
    if k + 1 < |bs| {
      assert Joined(bs, k);
      HeadAt(mem, bs, k + 1);
    }
  }

  /** To be laid out, block by block. */
  lemma LaidIf(mem: seq<Cell>, bs: seq<Blk>)
    requires Tile(bs, |mem|) && |mem| < FIELD
    requires forall k :: 0 <= k < |bs| ==> End(bs[k]) <= |mem| && HeadOk(mem, bs, k)
    requires forall k, c: nat :: 0 <= k < |bs| && !bs[k].inuse && InData(bs[k], c) ==> mem[c] == DEAD
    ensures Laid(mem, bs)
  {
    hide Tile, HeadOk;
  }

  /** Setting the in-use bit of a block, or clearing it and wiping the data. */
  ghost predicate Remarked(mem: seq<Cell>, b: Blk, inuse: bool, mem': seq<Cell>) {
    && |mem'| == |mem|
    && forall c: nat :: c < |mem| ==>
         mem'[c] == if c == b.start then mem[c].(inuse := inuse) else if !inuse && InData(b, c) then DEAD else mem[c]
  }

  lemma RemarkedLaid(mem: seq<Cell>, bs: seq<Blk>, k: nat, inuse: bool, mem': seq<Cell>)
    requires Laid(mem, bs) && k < |bs| && Remarked(mem, bs[k], inuse, mem')
    ensures Laid(mem', bs[k := bs[k].(inuse := inuse)])
    ensures KeepsUser(mem, mem', if inuse then bs else bs[k := bs[k].(inuse := inuse)])
  {
    hide Laid, Tile, HeadOk, InData, Remarked;
    var bs' := bs[k := bs[k].(inuse := inuse)];
    HeadAt(mem, bs, k);
    MarkedTiles(bs, |mem|, k, inuse);
    assert |mem'| == |mem| < FIELD by { RemarkedSize(mem, bs, k, inuse, mem'); }
    forall j | 0 <= j < |bs'| ensures End(bs'[j]) <= |mem'| && HeadOk(mem', bs', j) {
      RemarkedHead(mem, bs, k, inuse, mem', j);
    }
    forall j, c: nat | 0 <= j < |bs'| && InData(bs'[j], c)
      ensures c < |mem'| && (!bs'[j].inuse ==> mem'[c] == DEAD)
    {
      SameData(bs'[j], bs[j], c);
      RemarkedData(mem, bs, k, inuse, mem', j, c);
    }
    LaidIf(mem', bs');
    var live := if inuse then bs else bs';
    forall c: nat | UserCell(live, c) ensures c < |mem| && c < |mem'| && mem'[c] == mem[c] {
      var j :| 0 <= j < |live| && live[j].inuse && InData(live[j], c);
      SameData(live[j], bs[j], c);
      RemarkedData(mem, bs, k, inuse, mem', j, c);
    }
  }

  lemma SameData(a: Blk, b: Blk, c: nat)
    requires a.start == b.start && a.len == b.len && InData(a, c)
    ensures InData(b, c)
  {
  }

  lemma RemarkedSize(mem: seq<Cell>, bs: seq<Blk>, k: nat, inuse: bool, mem': seq<Cell>)
    requires Laid(mem, bs) && k < |bs| && Remarked(mem, bs[k], inuse, mem')
    ensures |mem'| == |mem| < FIELD
  {
    hide Tile, HeadOk, InData;
  }

  lemma RemarkedHead(mem: seq<Cell>, bs: seq<Blk>, k: nat, inuse: bool, mem': seq<Cell>, j: nat)
    requires Laid(mem, bs) && k < |bs| && Remarked(mem, bs[k], inuse, mem') && j < |bs|
    ensures End(bs[j]) <= |mem'| && HeadOk(mem', bs[k := bs[k].(inuse := inuse)], j)
  {
    hide Laid, Tile;
    HeadAt(mem, bs, j);
    HeadAt(mem, bs, k);
    if j < k { Apart(bs, |mem|, j, k); }
    if k < j { Apart(bs, |mem|, k, j); }
  }

  lemma RemarkedData(mem: seq<Cell>, bs: seq<Blk>, k: nat, inuse: bool, mem': seq<Cell>, j: nat, c: nat)
    requires Laid(mem, bs) && k < |bs| && Remarked(mem, bs[k], inuse, mem') && j < |bs| && InData(bs[j], c)
    ensures c < |mem'| == |mem|
    ensures mem'[c] == if j == k && !inuse then DEAD else mem[c]
    ensures j != k && !bs[j].inuse ==> mem'[c] == DEAD
  {
    hide Laid, Tile;
    HeadAt(mem, bs, k);
    DataAt(mem, bs, j, c);
    if j < k { Apart(bs, |mem|, j, k); }
    if k < j { Apart(bs, |mem|, k, j); }
  }

  lemma SplitLaid(mem: seq<Cell>, bs: seq<Blk>, k: nat, n: nat)
    requires Laid(mem, bs) && k < |bs| && !bs[k].inuse && bs[k].len - 1 >= n + 2
    ensures End(bs[k]) <= |mem|
    ensures Laid(SplitMem(mem, bs, k, n), Split(bs, k, n)) && KeepsUser(mem, SplitMem(mem, bs, k, n), bs)
  {
    hide Laid, Tile, Split, SplitMem, HeadOk, InData;
    HeadAt(mem, bs, k);
    var bs', mem' := Split(bs, k, n), SplitMem(mem, bs, k, n);
    SplitTiles(bs, |mem|, k, n);
    SplitSize(mem, bs, k, n);
    forall j | 0 <= j < |bs'| ensures End(bs'[j]) <= |mem'| && HeadOk(mem', bs', j) {
      SplitHead(mem, bs, k, n, j);
    }
    forall j, c: nat | 0 <= j < |bs'| && !bs'[j].inuse && InData(bs'[j], c) ensures c < |mem'| && mem'[c] == DEAD {
      SplitData(mem, bs, k, n, j, c);
    }
    LaidIf(mem', bs');
    forall c: nat | UserCell(bs, c) ensures c < |mem| && mem'[c] == mem[c] {
      var j :| 0 <= j < |bs| && bs[j].inuse && InData(bs[j], c);
      SplitUser(mem, bs, k, n, j, c);
    }
  }

  lemma SplitSize(mem: seq<Cell>, bs: seq<Blk>, k: nat, n: nat)
    requires Laid(mem, bs) && k < |bs| && bs[k].len - 1 >= n + 2 && End(bs[k]) <= |mem|
    ensures |SplitMem(mem, bs, k, n)| == |mem| < FIELD
  {
    hide Tile, HeadOk;
  }

  /** A split writes three cells. */
  lemma SplitCell(mem: seq<Cell>, bs: seq<Blk>, k: nat, n: nat, c: nat)
    requires k < |bs| && bs[k].len - 1 >= n + 2 && End(bs[k]) <= |mem| && c < |mem|
    ensures |SplitMem(mem, bs, k, n)| == |mem|
    ensures SplitMem(mem, bs, k, n)[c] ==
              if c == bs[k].start then mem[c].(next := n + 1)
              else if c == bs[k].start + n + 1 then Header(n + 1, bs[k].len - n - 1, false)
              else if c == End(bs[k]) then mem[c].(prev := bs[k].len - n - 1)
              else mem[c]
  {
  }

  lemma SplitBlock(bs: seq<Blk>, k: nat, n: nat, j: nat)
    requires k < |bs| && bs[k].len - 1 >= n + 2 && j <= |bs|
    ensures |Split(bs, k, n)| == |bs| + 1
    ensures Split(bs, k, n)[j] ==
              if j < k then bs[j]
              else if j == k then Blk(bs[k].start, n + 1, bs[k].inuse)
              else if j == k + 1 then Blk(bs[k].start + n + 1, bs[k].len - n - 1, false)
              else bs[j - 1]
  {
  }

  lemma SplitHead(mem: seq<Cell>, bs: seq<Blk>, k: nat, n: nat, j: nat)
    requires Laid(mem, bs) && k < |bs| && !bs[k].inuse && bs[k].len - 1 >= n + 2 && j < |Split(bs, k, n)|
    ensures End(bs[k]) <= |mem| && End(Split(bs, k, n)[j]) <= |SplitMem(mem, bs, k, n)|
    ensures HeadOk(SplitMem(mem, bs, k, n), Split(bs, k, n), j)
  {
    hide Laid, Tile, SplitMem, Split;
    HeadAt(mem, bs, k);
    NextAt(mem, bs, k);
    SplitBlock(bs, k, n, 0);
    SplitBlock(bs, k, n, j);
    if j > 0 { SplitBlock(bs, k, n, j - 1); }
    if j < k {
      HeadAt(mem, bs, j);
      Apart(bs, |mem|, j, k);
      SplitCell(mem, bs, k, n, bs[j].start);
    } else if j <= k + 1 {
      SplitCell(mem, bs, k, n, if j == k then bs[k].start else bs[k].start + n + 1);
    } else {
      HeadAt(mem, bs, j - 1);
      SplitCell(mem, bs, k, n, bs[j - 1].start);
      if j > k + 2 {
        HeadAt(mem, bs, k + 1);
        Apart(bs, |mem|, k + 1, j - 1);
      }
    }
  }

  lemma SplitData(mem: seq<Cell>, bs: seq<Blk>, k: nat, n: nat, j: nat, c: nat)
    requires Laid(mem, bs) && k < |bs| && !bs[k].inuse && bs[k].len - 1 >= n + 2 && End(bs[k]) <= |mem|
    requires j < |Split(bs, k, n)| && !Split(bs, k, n)[j].inuse && InData(Split(bs, k, n)[j], c)
    ensures c < |SplitMem(mem, bs, k, n)| && SplitMem(mem, bs, k, n)[c] == DEAD
  {
    hide Laid, Tile, SplitMem, Split;
    HeadAt(mem, bs, k);
    NextAt(mem, bs, k);
    SplitBlock(bs, k, n, 0);
    SplitBlock(bs, k, n, j);
    if c < |mem| { SplitCell(mem, bs, k, n, c); }
    if j < k {
      DataAt(mem, bs, j, c);
      Apart(bs, |mem|, j, k);
    } else if j <= k + 1 {
      DataAt(mem, bs, k, c);
    } else {
      DataAt(mem, bs, j - 1, c);
      Apart(bs, |mem|, k, j - 1);
    }
  }

  lemma SplitUser(mem: seq<Cell>, bs: seq<Blk>, k: nat, n: nat, j: nat, c: nat)
    requires Laid(mem, bs) && k < |bs| && !bs[k].inuse && bs[k].len - 1 >= n + 2 && End(bs[k]) <= |mem|
    requires j < |bs| && bs[j].inuse && InData(bs[j], c)
    ensures c < |mem| && SplitMem(mem, bs, k, n)[c] == mem[c]
  {
    hide Laid, Tile, SplitMem;
    HeadAt(mem, bs, k);
    NextAt(mem, bs, k);
    DataAt(mem, bs, j, c);
    SplitCell(mem, bs, k, n, c);
    if j < k {
      Apart(bs, |mem|, j, k);
    } else {
      Apart(bs, |mem|, k, j);
    }
  }

  /** The memory after two free blocks become one: the upper header is wiped. */
  function MergeMem(mem: seq<Cell>, bs: seq<Blk>, k: nat): seq<Cell>
    requires k + 1 < |bs| && bs[k].start < |mem| && bs[k + 1].start < |mem|
  {
    var sum := bs[k].len + bs[k + 1].len;
    var m := mem[bs[k].start := mem[bs[k].start].(next := sum)];
    var m' := if End(bs[k + 1]) < |mem| then m[End(bs[k + 1]) := m[End(bs[k + 1])].(prev := sum)] else m;
    m'[bs[k + 1].start := DEAD]
  }

  predicate BothFree(bs: seq<Blk>, k: nat) {
    k + 1 < |bs| && !bs[k].inuse && !bs[k + 1].inuse
  }

  lemma MergeCell(mem: seq<Cell>, bs: seq<Blk>, k: nat, c: nat)
    requires k + 1 < |bs| && bs[k].start < |mem| && bs[k + 1].start < |mem| && c < |mem|
    requires bs[k].start < bs[k + 1].start < End(bs[k + 1])
    ensures |MergeMem(mem, bs, k)| == |mem|
    ensures MergeMem(mem, bs, k)[c] ==
              if c == bs[k].start then mem[c].(next := bs[k].len + bs[k + 1].len)
              else if c == bs[k + 1].start then DEAD
              else if c == End(bs[k + 1]) then mem[c].(prev := bs[k].len + bs[k + 1].len)
              else mem[c]
  {
  }

  lemma MergeBlock(bs: seq<Blk>, k: nat, j: nat)
    requires BothFree(bs, k) && j < |bs| - 1
    ensures |TryMerge(bs, k)| == |bs| - 1
    ensures TryMerge(bs, k)[j] ==
              if j < k then bs[j] else if j == k then Blk(bs[k].start, bs[k].len + bs[k + 1].len, false) else bs[j + 1]
  {
  }

  /** Two neighbours: where they lie and what their headers say. */
  lemma PairAt(mem: seq<Cell>, bs: seq<Blk>, k: nat)
    requires Laid(mem, bs) && k + 1 < |bs|
    ensures Tile(bs, |mem|) && bs[k].start < bs[k + 1].start == End(bs[k]) < End(bs[k + 1]) <= |mem| < FIELD
    ensures if k + 2 < |bs| then bs[k + 2].start == End(bs[k + 1]) < |mem| else End(bs[k + 1]) == |mem|
    ensures mem[bs[k].start] == Header(PrevLen(bs, k), bs[k].len, bs[k].inuse)
    ensures mem[bs[k + 1].start] == Header(bs[k].len, bs[k + 1].len, bs[k + 1].inuse)
  {
    HeadAt(mem, bs, k);
    HeadAt(mem, bs, k + 1);
    NextAt(mem, bs, k);
    NextAt(mem, bs, k + 1);
    hide Tile, HeadOk, InData;
  }

  lemma MergeLaid(mem: seq<Cell>, bs: seq<Blk>, k: nat)
    requires Laid(mem, bs) && BothFree(bs, k)
    ensures bs[k].start < |mem| && bs[k + 1].start < |mem|
    ensures Laid(MergeMem(mem, bs, k), TryMerge(bs, k)) && KeepsUser(mem, MergeMem(mem, bs, k), bs)
  {
    hide Laid, Tile, TryMerge, MergeMem, HeadOk, InData;
    PairAt(mem, bs, k);
    var bs', mem' := TryMerge(bs, k), MergeMem(mem, bs, k);
    MergeTiles(bs, |mem|, k);
    MergeCell(mem, bs, k, 0);
    MergeBlock(bs, k, 0);
    forall j | 0 <= j < |bs'| ensures End(bs'[j]) <= |mem'| && HeadOk(mem', bs', j) {
      MergeHead(mem, bs, k, j);
    }
    forall j, c: nat | 0 <= j < |bs'| && !bs'[j].inuse && InData(bs'[j], c) ensures c < |mem'| && mem'[c] == DEAD {
      MergeData(mem, bs, k, j, c);
    }
    LaidIf(mem', bs');
    forall c: nat | UserCell(bs, c) ensures c < |mem| && mem'[c] == mem[c] {
      var j :| 0 <= j < |bs| && bs[j].inuse && InData(bs[j], c);
      MergeUser(mem, bs, k, j, c);
    }
  }

  lemma MergeHead(mem: seq<Cell>, bs: seq<Blk>, k: nat, j: nat)
    requires Laid(mem, bs) && BothFree(bs, k) && j < |TryMerge(bs, k)|
    ensures bs[k].start < |mem| && bs[k + 1].start < |mem| && End(TryMerge(bs, k)[j]) <= |MergeMem(mem, bs, k)|
    ensures HeadOk(MergeMem(mem, bs, k), TryMerge(bs, k), j)
  {
    hide Laid, Tile, MergeMem, TryMerge, InData;
    PairAt(mem, bs, k);
    MergeBlock(bs, k, 0);
    MergeBlock(bs, k, j);
    if j > 0 { MergeBlock(bs, k, j - 1); }
    if j < k {
      HeadAt(mem, bs, j);
      Apart(bs, |mem|, j, k);
      MergeCell(mem, bs, k, bs[j].start);
    } else if j == k {
      MergeCell(mem, bs, k, bs[k].start);
    } else {
      HeadAt(mem, bs, j + 1);
      MergeCell(mem, bs, k, bs[j + 1].start);
      if j > k + 1 {
        HeadAt(mem, bs, k + 2);
        Apart(bs, |mem|, k + 2, j + 1);
      }
    }
  }

  lemma MergeData(mem: seq<Cell>, bs: seq<Blk>, k: nat, j: nat, c: nat)
    requires Laid(mem, bs) && BothFree(bs, k) && bs[k].start < |mem| && bs[k + 1].start < |mem|
    requires j < |TryMerge(bs, k)| && !TryMerge(bs, k)[j].inuse && InData(TryMerge(bs, k)[j], c)
    ensures c < |MergeMem(mem, bs, k)| && MergeMem(mem, bs, k)[c] == DEAD
  {
    hide Laid, Tile, MergeMem, TryMerge;
    PairAt(mem, bs, k);
    MergeBlock(bs, k, 0);
    MergeBlock(bs, k, j);
    MergeCell(mem, bs, k, 0);
    if c < |mem| { MergeCell(mem, bs, k, c); }
    if j < k {
      DataAt(mem, bs, j, c);
      Apart(bs, |mem|, j, k);
    } else if j == k {
      if InData(bs[k], c) { DataAt(mem, bs, k, c); }
      if InData(bs[k + 1], c) { DataAt(mem, bs, k + 1, c); }
    } else {
      DataAt(mem, bs, j + 1, c);
      Apart(bs, |mem|, k + 1, j + 1);
    }
  }

  lemma MergeUser(mem: seq<Cell>, bs: seq<Blk>, k: nat, j: nat, c: nat)
    requires Laid(mem, bs) && BothFree(bs, k) && bs[k].start < |mem| && bs[k + 1].start < |mem|
    requires j < |bs| && bs[j].inuse && InData(bs[j], c)
    ensures c < |mem| == |MergeMem(mem, bs, k)| && MergeMem(mem, bs, k)[c] == mem[c]
  {
    hide Laid, Tile, MergeMem;
    PairAt(mem, bs, k);
    DataAt(mem, bs, j, c);
    MergeCell(mem, bs, k, c);
    if j < k {
      Apart(bs, |mem|, j, k);
    } else {
      Apart(bs, |mem|, k + 1, j);
    }
  }

  lemma ExtendTiles(bs: seq<Blk>, top: nat, n: nat)
    requires Tile(bs, top)
    ensures Tile(Extend(bs, top, n), top + n + 1)
  {
    var r := Extend(bs, top, n);
    forall j | 0 <= j < |r| - 1 ensures Joined(r, j) {
      if j < |bs| - 1 { assert Joined(bs, j); }
    }
  }

  function LastLen(bs: seq<Blk>): nat {
    if bs == [] then 0 else bs[|bs| - 1].len
  }

  /** A new block in use at the top. */
  lemma ExtendLaid(mem: seq<Cell>, bs: seq<Blk>, n: nat, more: seq<Cell>)
    requires Laid(mem, bs) && |more| == n + 1 && |mem| + n + 1 < FIELD && more[0] == Header(LastLen(bs), n + 1, true)
    ensures Laid(mem + more, Extend(bs, |mem|, n)) && KeepsUser(mem, mem + more, bs)
  {
    hide Laid, Tile, HeadOk, InData;
    var bs', mem' := Extend(bs, |mem|, n), mem + more;
    LaidTiles(mem, bs);
    ExtendTiles(bs, |mem|, n);
    forall j | 0 <= j < |bs'| ensures End(bs'[j]) <= |mem'| && HeadOk(mem', bs', j) {
      ExtendHead(mem, bs, n, more, j);
    }
    forall j, c: nat | 0 <= j < |bs| && InData(bs[j], c) ensures c < |mem| && (!bs[j].inuse ==> mem'[c] == DEAD) {
      DataAt(mem, bs, j, c);
    }
    LaidIf(mem', bs');
  }

  lemma LaidTiles(mem: seq<Cell>, bs: seq<Blk>)
    requires Laid(mem, bs)
    ensures Tile(bs, |mem|) && |mem| < FIELD
  {
    hide Tile, HeadOk, InData;
  }

  lemma ExtendHead(mem: seq<Cell>, bs: seq<Blk>, n: nat, more: seq<Cell>, j: nat)
    requires Laid(mem, bs) && |more| == n + 1 && more[0] == Header(LastLen(bs), n + 1, true) && j <= |bs|
    ensures End(Extend(bs, |mem|, n)[j]) <= |mem + more| && HeadOk(mem + more, Extend(bs, |mem|, n), j)
  {
    hide Laid, Tile, InData;
    if j < |bs| { HeadAt(mem, bs, j); }
  }

  // ---------------------------------------------------------------------------------------
  // Live blocks

  function Live(bs: seq<Blk>): set<Blk> {
    set b | b in bs && b.inuse
  }

  lemma TakeShape(bs: seq<Blk>, k: nat, n: nat)
    requires k < |bs| && Fits(bs[k], n)
    ensures var r := Take(bs, k, n);
            && |bs| <= |r| <= |bs| + 1 && r[k].inuse && r[k].start == bs[k].start && n <= r[k].len - 1 <= n + 1
            && (forall j :: 0 <= j < k ==> r[j] == bs[j])
            && (forall j :: k < j < |bs| ==> r[j + (|r| - |bs|)] == bs[j])
            && (|r| > |bs| ==> !r[k + 1].inuse)
  {
    var r := Take(bs, k, n);
    if bs[k].len - 1 - n >= 2 {
      forall j | k < j < |bs| ensures r[j + 1] == bs[j] {
      }
    }
  }

  /** Allocation adds one live block that was not live before, as large as asked for or one cell larger. */
  lemma LiveTake(bs: seq<Blk>, top: nat, k: nat, n: nat)
    requires Tile(bs, top) && k < |bs| && Fits(bs[k], n)
    ensures var b := Take(bs, k, n)[k];
            b.inuse && b.start == bs[k].start && n <= b.len - 1 <= n + 1 && b !in Live(bs) &&
              Live(Take(bs, k, n)) == Live(bs) + {b}
  {
    hide Tile, Live, Take;
    TakeShape(bs, k, n);
    var b := Take(bs, k, n)[k];
    NotLive(bs, top, k, b);
    LiveSame(bs, Take(bs, k, n), k, b);
  }

  lemma NotLive(bs: seq<Blk>, top: nat, k: nat, b: Blk)
    requires Tile(bs, top) && k < |bs| && !bs[k].inuse && b.start == bs[k].start
    ensures b !in Live(bs)
  {
    if b in bs && b.inuse {
      var j :| 0 <= j < |bs| && bs[j] == b;
      if j < k { Apart(bs, top, j, k); }
      if k < j { Apart(bs, top, k, j); }
    }
  }

  lemma LiveSame(bs: seq<Blk>, r: seq<Blk>, k: nat, b: Blk)
    requires k < |bs| && k < |r| && r[k] == b && b.inuse && !bs[k].inuse && |bs| <= |r| <= |bs| + 1
    requires forall j :: 0 <= j < k ==> r[j] == bs[j]
    requires forall j :: k < j < |bs| ==> r[j + (|r| - |bs|)] == bs[j]
    requires |r| > |bs| ==> !r[k + 1].inuse
    ensures Live(r) == Live(bs) + {b}
  {
    forall x | x in Live(r) ensures x in Live(bs) + {b} {
      var j :| 0 <= j < |r| && r[j] == x;
      if j > k { assert r[j] == bs[j - (|r| - |bs|)]; }
    }
    forall x | x in Live(bs) + {b} ensures x in Live(r) {
      if x != b {
        var j :| 0 <= j < |bs| && bs[j] == x;
        assert r[if j < k then j else j + (|r| - |bs|)] == x;
      }
    }
  }

  lemma LiveExtend(bs: seq<Blk>, top: nat, n: nat)
    requires Tile(bs, top)
    ensures var b := Blk(top, n + 1, true); b !in Live(bs) && Live(Extend(bs, top, n)) == Live(bs) + {b}
  {
    var b := Blk(top, n + 1, true);
    if b in bs {
      var j :| 0 <= j < |bs| && bs[j] == b;
      BelowTop(bs, top, j);
    }
  }

  lemma LiveMerge(bs: seq<Blk>, k: nat)
    requires k + 1 < |bs|
    ensures Live(TryMerge(bs, k)) == Live(bs)
  {
    var r := TryMerge(bs, k);
    if BothFree(bs, k) {
      forall x | x in Live(r) ensures x in Live(bs) {
        var j :| 0 <= j < |r| && r[j] == x;
        MergeBlock(bs, k, j);
      }
      forall x | x in Live(bs) ensures x in Live(r) {
        var j :| 0 <= j < |bs| && bs[j] == x;
        MergeBlock(bs, k, if j < k then j else j - 1);
      }
    }
  }

  /** Freeing takes exactly that block out of the live ones. */
  lemma LiveRelease(bs: seq<Blk>, top: nat, k: nat)
    requires Tile(bs, top) && k < |bs| && bs[k].inuse
    ensures Live(Release(bs, k)) == Live(bs) - {bs[k]}
  {
    hide Joined, TryMerge;
    var freed := bs[k := bs[k].(inuse := false)];
    forall x | x in Live(bs) - {bs[k]} ensures x in Live(freed) {
      var j :| 0 <= j < |bs| && bs[j] == x;
      assert freed[j] == x;
    }
    forall x | x in Live(freed) ensures x in Live(bs) - {bs[k]} {
      var j :| 0 <= j < |freed| && freed[j] == x;
      if j < k { Apart(bs, top, j, k); }
      if k < j { Apart(bs, top, k, j); }
    }
    if k + 1 < |bs| { LiveMerge(freed, k); }
    if k > 0 { ReleaseSize(bs, k); LiveMerge(MergeUp(freed, k), k - 1); }
  }

  lemma ReleaseSize(bs: seq<Blk>, k: nat)
    requires k < |bs|
    ensures k < |MergeUp(bs[k := bs[k].(inuse := false)], k)|
  {
  }

  /** Live blocks do not overlap. */
  lemma LiveApart(bs: seq<Blk>, top: nat, a: Blk, b: Blk)
    requires Tile(bs, top) && a in Live(bs) && b in Live(bs) && a != b
    ensures End(a) <= b.start || End(b) <= a.start
  {
    var i :| 0 <= i < |bs| && bs[i] == a;
    var j :| 0 <= j < |bs| && bs[j] == b;
    if i < j { Apart(bs, top, i, j); } else { Apart(bs, top, j, i); }
  }
}
