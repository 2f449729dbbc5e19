/**
 The kernel heap seen as pages of equal blocks: what kmalloc and kfree do to them, and which
 blocks are live.
 */
module KHeapSpec {

  const PAGE := 4096
  const NSIZES := 8

  /** The block sizes, 16 to 2048. */
  function Size(bt: nat): (s: nat)
    requires bt < NSIZES
    ensures 16 <= s <= 2048
  {
    [16, 32, 64, 128, 256, 512, 1024, 2048][bt]
  }

  /** Blocks on a page. */
  function PerPage(bt: nat): (n: nat)
    requires bt < NSIZES
    ensures n * Size(bt) == PAGE && 2 <= n <= 256
  {
    PAGE / Size(bt)
  }

  /** The smallest block type that holds `sz` bytes. */
  function BlockType(sz: nat): (bt: nat)
    requires sz <= 2048
    ensures bt < NSIZES && sz <= Size(bt) && (bt > 0 ==> sz > Size(bt - 1))
  {
    if sz <= 16 then 0 else if sz <= 32 then 1 else if sz <= 64 then 2 else if sz <= 128 then 3
    else if sz <= 256 then 4 else if sz <= 512 then 5 else if sz <= 1024 then 6 else 7
  }

  /** A page of blocks: its address, its block type and its free blocks in the order of the free list. */
  datatype Pg = Pg(addr: nat, bt: nat, free: seq<nat>)

  /** The pages by page reference, the list of all of them, and the list of each size. */
  datatype Heap = Heap(pages: map<nat, Pg>, all: seq<nat>, sizes: seq<seq<nat>>)

  predicate NoDup(s: seq<nat>) {
    forall i, j :: 0 <= i < j < |s| ==> s[i] != s[j]
  }

  predicate PgOk(p: Pg) {
    && p.bt < NSIZES && p.addr % PAGE == 0 && p.addr > 0
    && NoDup(p.free) && forall j :: j in p.free ==> j < PerPage(p.bt)
  }

  /** Page `r` is on the list of its size and on no other. */
  predicate OnLists(h: Heap, r: nat) {
    && (r in h.pages <==> r in h.all)
    && forall bt :: 0 <= bt < NSIZES && bt < |h.sizes| ==> (r in h.sizes[bt] <==> r in h.pages && h.pages[r].bt == bt)
  }

  ghost predicate Lists(h: Heap) {
    && |h.sizes| == NSIZES && NoDup(h.all) && (forall bt :: 0 <= bt < NSIZES ==> NoDup(h.sizes[bt]))
    && forall r: nat :: OnLists(h, r)
  }

  predicate PagesApart(h: Heap) {
    forall r, q :: r in h.pages && q in h.pages && r != q ==> h.pages[r].addr != h.pages[q].addr
  }

  /** The invariant; only page `but` may be wholly free. */
  ghost predicate GoodBut(h: Heap, but: int) {
    && Lists(h) && PagesApart(h)
    && forall r :: r in h.pages ==> PgOk(h.pages[r]) && (r != but ==> |h.pages[r].free| < PerPage(h.pages[r].bt))
  }

  ghost predicate Good(h: Heap) {
    GoodBut(h, -1)
  }

  // ---------------------------------------------------------------------------------------
  // Live blocks

  /** Block `j` of page `r` is handed out. */
  predicate Live(h: Heap, r: nat, j: nat) {
    r in h.pages && h.pages[r].bt < NSIZES && j < PerPage(h.pages[r].bt) && j !in h.pages[r].free
  }

  function Address(h: Heap, r: nat, j: nat): nat
    requires Live(h, r, j)
  {
    h.pages[r].addr + j * Size(h.pages[r].bt)
  }

  function BlockSize(h: Heap, r: nat, j: nat): nat
    requires Live(h, r, j)
  {
    Size(h.pages[r].bt)
  }

  /** A block lies within its page. */
  lemma WithinPage(bt: nat, j: nat)
    requires bt < NSIZES && j < PerPage(bt)
    ensures j * Size(bt) + Size(bt) <= PAGE
  {
    assert (j + 1) * Size(bt) <= PerPage(bt) * Size(bt);
  }

  /** Live blocks do not overlap. */
  lemma LiveApart(h: Heap, r: nat, j: nat, q: nat, k: nat)
    requires GoodBut(h, -1) && Live(h, r, j) && Live(h, q, k) && (r != q || j != k)
    ensures Address(h, r, j) + BlockSize(h, r, j) <= Address(h, q, k) ||
              Address(h, q, k) + BlockSize(h, q, k) <= Address(h, r, j)
  {
    hide Lists, Size, PerPage, NoDup;
    var p, o := h.pages[r], h.pages[q];
    assert PgOk(p) && PgOk(o) && (r != q ==> p.addr != o.addr);
    if r == q {
      SamePage(p.addr, Size(p.bt), j, k);
    } else {
      OtherPage(p.addr, p.bt, j, o.addr, o.bt, k);
    }
  }

  lemma SamePage(a: nat, size: nat, j: nat, k: nat)
    requires j != k
    ensures a + j * size + size <= a + k * size || a + k * size + size <= a + j * size
  {
    if j < k { assert (j + 1) * size <= k * size; } else { assert (k + 1) * size <= j * size; }
  }

  lemma OtherPage(a: nat, bt: nat, j: nat, b: nat, ct: nat, k: nat)
    requires a % PAGE == 0 && b % PAGE == 0 && a != b && bt < NSIZES && ct < NSIZES && j < PerPage(bt)
    requires k < PerPage(ct)
    ensures a + j * Size(bt) + Size(bt) <= b + k * Size(ct) || b + k * Size(ct) + Size(ct) <= a + j * Size(bt)
  {
    hide Size, PerPage;
    WithinPage(bt, j);
    WithinPage(ct, k);
    PageGap(a, b);
    Above(a, j * Size(bt), Size(bt), b, k * Size(ct), Size(ct));
  }

  lemma PageGap(a: nat, b: nat)
    requires a % PAGE == 0 && b % PAGE == 0 && a != b
    ensures a + PAGE <= b || b + PAGE <= a
  {
  }

  lemma Above(a: nat, x: nat, s: nat, b: nat, y: nat, t: nat)
    requires (a + PAGE <= b || b + PAGE <= a) && x + s <= PAGE && y + t <= PAGE
    ensures a + x + s <= b + y || b + y + t <= a + x
  {
  }

  // ---------------------------------------------------------------------------------------
  // The changes

  function SetFree(h: Heap, r: nat, free: seq<nat>): Heap
    requires r in h.pages
  {
    h.(pages := h.pages[r := h.pages[r].(free := free)])
  }

  /** Take the first block of a page's free list. */
  function Pop(h: Heap, r: nat): Heap
    requires r in h.pages && h.pages[r].free != []
  {
    SetFree(h, r, h.pages[r].free[1..])
  }

  function Push(h: Heap, r: nat, j: nat): Heap
    requires r in h.pages
  {
    SetFree(h, r, [j] + h.pages[r].free)
  }

  /** All blocks of a new page, the last first. */
  function Down(n: nat): (s: seq<nat>)
    ensures |s| == n && forall k :: 0 <= k < n ==> s[k] == n - 1 - k
  {
    if n == 0 then [] else [n - 1] + Down(n - 1)
  }

  function AddPage(h: Heap, r: nat, addr: nat, bt: nat): Heap
    requires bt < NSIZES && bt < |h.sizes|
  {
    Heap(h.pages[r := Pg(addr, bt, Down(PerPage(bt)))], [r] + h.all, h.sizes[bt := [r] + h.sizes[bt]])
  }

  function Minus(s: seq<nat>, x: nat): seq<nat> {
    if s == [] then [] else if s[0] == x then s[1..] else [s[0]] + Minus(s[1..], x)
  }

  function DropPage(h: Heap, r: nat): Heap
    requires r in h.pages && h.pages[r].bt < |h.sizes|
  {
    var bt := h.pages[r].bt;
    Heap(h.pages - {r}, Minus(h.all, r), h.sizes[bt := Minus(h.sizes[bt], r)])
  }

  lemma {:induction false} MinusIs(s: seq<nat>, x: nat)
    requires NoDup(s)
    ensures NoDup(Minus(s, x)) && forall y :: y in Minus(s, x) <==> y in s && y != x
  {
    if s != [] {
      assert forall k :: 1 <= k < |s| ==> s[k] in s[1..];
      assert s[0] !in s[1..];
      MinusIs(s[1..], x);
      if s[0] != x {
        ConsNoDup(s[0], Minus(s[1..], x));
      }
    }
  }

  lemma ConsNoDup(x: nat, s: seq<nat>)
    requires NoDup(s) && x !in s
    ensures NoDup([x] + s) && forall y :: y in [x] + s <==> y == x || y in s
  {
  }

  // ---------------------------------------------------------------------------------------
  // The changes keep the invariant

  lemma SetFreeGood(h: Heap, r: nat, free: seq<nat>, but: int)
    requires GoodBut(h, but) && r in h.pages && NoDup(free) && (forall j :: j in free ==> j < PerPage(h.pages[r].bt))
    requires r != but ==> |free| < PerPage(h.pages[r].bt)
    ensures GoodBut(SetFree(h, r, free), but)
  {
    hide PerPage, Size, NoDup;
    var h' := SetFree(h, r, free);
    forall q: nat ensures OnLists(h', q) {
      assert OnLists(h, q);
    }
  }

  lemma DownNoDup(n: nat)
    ensures NoDup(Down(n)) && forall j :: j in Down(n) <==> 0 <= j < n
  {
    var s := Down(n);
    forall j | 0 <= j < n ensures j in s {
      assert s[n - 1 - j] == j;
    }
  }

  lemma AddPageGood(h: Heap, r: nat, addr: nat, bt: nat)
    requires Good(h) && r !in h.pages && bt < NSIZES && addr % PAGE == 0 && addr > 0
    requires forall q :: q in h.pages ==> h.pages[q].addr != addr
    ensures GoodBut(AddPage(h, r, addr, bt), r)
  {
    hide PerPage, Size, NoDup, Down;
    var h' := AddPage(h, r, addr, bt);
    assert OnLists(h, r);
    ConsNoDup(r, h.all);
    ConsNoDup(r, h.sizes[bt]);
    DownNoDup(PerPage(bt));
    forall q: nat ensures OnLists(h', q) {
      assert OnLists(h, q);
    }
  }

  lemma DropPageGood(h: Heap, r: nat)
    requires GoodBut(h, r) && r in h.pages
    ensures Good(DropPage(h, r))
  {
    hide PerPage, Size, NoDup, Minus;
    var h' := DropPage(h, r);
    var bt := h.pages[r].bt;
    assert PgOk(h.pages[r]);
    MinusIs(h.all, r);
    MinusIs(h.sizes[bt], r);
    forall q: nat ensures OnLists(h', q) {
      assert OnLists(h, q);
    }
  }

  // ---------------------------------------------------------------------------------------
  // kmalloc

  /** The first page of a list with a free block, or the length of the list. */
  function FirstRoom(h: Heap, l: seq<nat>): (i: nat)
    ensures i <= |l| && (i < |l| ==> l[i] in h.pages && h.pages[l[i]].free != [])
    ensures forall k :: 0 <= k < i ==> l[k] !in h.pages || h.pages[l[k]].free == []
  {
    if l == [] || (l[0] in h.pages && h.pages[l[0]].free != []) then 0 else 1 + FirstRoom(h, l[1..])
  }

  lemma FirstRoomIs(h: Heap, l: seq<nat>, i: nat)
    requires i <= |l| && (i < |l| ==> l[i] in h.pages && h.pages[l[i]].free != [])
    requires forall k :: 0 <= k < i ==> l[k] !in h.pages || h.pages[l[k]].free == []
    ensures FirstRoom(h, l) == i
  {
    var j := FirstRoom(h, l);
    assert !(j < i) && !(i < j);
  }

  /** What the request for a page reference and a page yields, should one be needed. */
  datatype Supply = NoPage | NewPage(r: nat, addr: nat)

  predicate SupplyOk(h: Heap, sup: Supply) {
    sup.NewPage? ==> sup.r !in h.pages && sup.addr % PAGE == 0 && sup.addr > 0 && forall q :: q in h.pages ==>
      h.pages[q].addr != sup.addr
  }

  /** There is a page with room, or a new one to be had. */
  predicate CanMalloc(h: Heap, bt: nat, sup: Supply)
    requires bt < |h.sizes|
  {
    FirstRoom(h, h.sizes[bt]) < |h.sizes[bt]| || sup.NewPage?
  }

  /** The page a block is taken from. */
  function PageFor(h: Heap, bt: nat, sup: Supply): nat
    requires bt < |h.sizes| && CanMalloc(h, bt, sup)
  {
    var i := FirstRoom(h, h.sizes[bt]);
    if i < |h.sizes[bt]| then h.sizes[bt][i] else sup.r
  }

  /** The heap with room in that page. */
  function Ready(h: Heap, bt: nat, sup: Supply): Heap
    requires bt < NSIZES && bt < |h.sizes| && CanMalloc(h, bt, sup)
  {
    if FirstRoom(h, h.sizes[bt]) < |h.sizes[bt]| then h else AddPage(h, sup.r, sup.addr, bt)
  }

  lemma ReadyGood(h: Heap, bt: nat, sup: Supply)
    requires Good(h) && bt < NSIZES && SupplyOk(h, sup) && CanMalloc(h, bt, sup)
    ensures var r, h1 := PageFor(h, bt, sup), Ready(h, bt, sup);
            && GoodBut(h1, r) && r in h1.pages && h1.pages[r].free != [] && h1.pages[r].bt == bt
            && (forall q, k :: Live(h1, q, k) <==> Live(h, q, k))
            && (forall q, k :: Live(h, q, k) ==> h1.pages[q] == h.pages[q])
  {
    hide PerPage, Size, NoDup, Down, FirstRoom;
    var r, i := PageFor(h, bt, sup), FirstRoom(h, h.sizes[bt]);
    if i < |h.sizes[bt]| {
      assert OnLists(h, r);
    } else {
      AddPageGood(h, sup.r, sup.addr, bt);
      DownNoDup(PerPage(bt));
    }
  }

  function Malloc(h: Heap, bt: nat, sup: Supply): Heap
    requires bt < NSIZES && bt < |h.sizes|
  {
    if CanMalloc(h, bt, sup) then
      Pop(Ready(h, bt, sup), PageFor(h, bt, sup))
    else h
  }

  /** The block handed out. */
  function BlockFor(h: Heap, bt: nat, sup: Supply): nat
    requires bt < NSIZES && bt < |h.sizes| && CanMalloc(h, bt, sup)
  {
    Ready(h, bt, sup).pages[PageFor(h, bt, sup)].free[0]
  }

  lemma TailNoDup(s: seq<nat>)
    requires NoDup(s) && s != []
    ensures NoDup(s[1..]) && s[0] !in s[1..] && forall j :: j in s[1..] ==> j in s
  {
  }

  lemma PopGood(h: Heap, r: nat)
    requires GoodBut(h, r) && r in h.pages && h.pages[r].free != []
    ensures Good(Pop(h, r)) && h.pages[r].bt < NSIZES && h.pages[r].free[0] < PerPage(h.pages[r].bt)
    ensures h.pages[r].free[0] !in h.pages[r].free[1..]
  {
    hide PerPage, Size, Lists, NoDup, PagesApart;
    var free := h.pages[r].free;
    assert PgOk(h.pages[r]) && free[0] in free;
    TailNoDup(free);
    Bounded(free, PerPage(h.pages[r].bt));
    SetFreeGood(h, r, free[1..], r);
    Fewer(Pop(h, r), r);
  }

  lemma HasSizes(h: Heap, but: int)
    requires GoodBut(h, but)
    ensures |h.sizes| == NSIZES
  {
    hide NoDup, OnLists;
  }

  lemma Fewer(h: Heap, r: nat)
    requires GoodBut(h, r) && r in h.pages && h.pages[r].bt < NSIZES && |h.pages[r].free| < PerPage(h.pages[r].bt)
    ensures Good(h)
  {
    hide PerPage, Size, Lists, NoDup;
  }

  /** A new block was not live, is now, and nothing else changed; it has room for the request. */
  lemma MallocLive(h: Heap, bt: nat, sup: Supply, q: nat, k: nat)
    requires Good(h) && bt < NSIZES && SupplyOk(h, sup) && CanMalloc(h, bt, sup)
    ensures var r, j := PageFor(h, bt, sup), BlockFor(h, bt, sup);
            && !Live(h, r, j) && Live(Malloc(h, bt, sup), r, j) && BlockSize(Malloc(h, bt, sup), r, j) == Size(bt)
            && (Live(Malloc(h, bt, sup), q, k) <==> Live(h, q, k) || (q == r && k == j))
            && (Live(h, q, k) ==>
                  Live(Malloc(h, bt, sup), q, k) && Address(Malloc(h, bt, sup), q, k) == Address(h, q, k))
  {
    hide PerPage, Size, Lists, NoDup, GoodBut, PageFor, Ready;
    HasSizes(h, -1);
    ReadyGood(h, bt, sup);
    PopGood(Ready(h, bt, sup), PageFor(h, bt, sup));
  }

  lemma MallocGood(h: Heap, bt: nat, sup: Supply)
    requires Good(h) && bt < NSIZES && SupplyOk(h, sup)
    ensures Good(Malloc(h, bt, sup))
  {
    hide PerPage, Size, Lists, NoDup, GoodBut, PageFor, Ready;
    HasSizes(h, -1);
    if CanMalloc(h, bt, sup) {
      ReadyGood(h, bt, sup);
      PopGood(Ready(h, bt, sup), PageFor(h, bt, sup));
    }
  }

  // ---------------------------------------------------------------------------------------
  // Counting

  function Upto(n: nat): (r: set<nat>)
    ensures forall j :: j in r <==> 0 <= j < n
  {
    if n == 0 then {} else Upto(n - 1) + {n - 1}
  }

  lemma UptoSize(n: nat)
    ensures |Upto(n)| == n
  {
    if n > 0 {
      UptoSize(n - 1);
    }
  }

  function Elements(s: seq<nat>): set<nat> {
    set x | x in s
  }

  lemma {:induction false} ElementsSize(s: seq<nat>)
    requires NoDup(s)
    ensures |Elements(s)| == |s|
  {
    if s != [] {
      ElementsSize(s[1..]);
      assert s[0] !in s[1..];
      assert Elements(s) == {s[0]} + Elements(s[1..]);
    }
  }

  lemma Subset(a: set<nat>, b: set<nat>)
    requires a <= b
    ensures |a| <= |b| && (|a| == |b| ==> a == b)
  {
    assert b == a + (b - a);
    assert |b| == |a| + |b - a|;
  }

  /** Distinct numbers below `n` are at most `n`, and if they are `n` they are all of them. */
  lemma Bounded(s: seq<nat>, n: nat)
    requires NoDup(s) && forall j :: j in s ==> j < n
    ensures |s| <= n && (|s| == n <==> forall j :: 0 <= j < n ==> j in s)
  {
    ElementsSize(s);
    UptoSize(n);
    Subset(Elements(s), Upto(n));
    if forall j :: 0 <= j < n ==> j in s {
      assert Elements(s) == Upto(n);
    } else {
      var j :| 0 <= j < n && j !in s;
      assert j in Upto(n) && j !in Elements(s);
    }
  }

  // ---------------------------------------------------------------------------------------
  // kfree

  function Free(h: Heap, r: nat, j: nat): Heap
    requires Live(h, r, j) && h.pages[r].bt < |h.sizes|
  {
    var h1 := Push(h, r, j);
    if |h1.pages[r].free| == PerPage(h.pages[r].bt) then DropPage(h1, r) else h1
  }

  lemma PushGood(h: Heap, r: nat, j: nat)
    requires Good(h) && Live(h, r, j)
    ensures GoodBut(Push(h, r, j), r)
  {
    hide PerPage, Size, Lists, NoDup, PagesApart;
    assert PgOk(h.pages[r]);
    ConsNoDup(j, h.pages[r].free);
    Weaken(h, r);
    SetFreeGood(h, r, [j] + h.pages[r].free, r);
  }

  lemma Weaken(h: Heap, but: int)
    requires Good(h)
    ensures GoodBut(h, but)
  {
    hide PerPage, Size, Lists, NoDup, PagesApart, PgOk;
  }

  lemma FreeGood(h: Heap, r: nat, j: nat)
    requires Good(h) && Live(h, r, j)
    ensures h.pages[r].bt < |h.sizes| && Good(Free(h, r, j))
  {
    hide PerPage, Size, Lists, NoDup, PagesApart, DropPage, GoodBut;
    HasSizes(h, -1);
    PushGood(h, r, j);
    var h1 := Push(h, r, j);
    PageOf(h1, r, r);
    if |h1.pages[r].free| == PerPage(h.pages[r].bt) {
      DropPageGood(h1, r);
    } else {
      Bounded(h1.pages[r].free, PerPage(h.pages[r].bt));
      Fewer(h1, r);
    }
  }

  lemma PageOf(h: Heap, but: int, r: nat)
    requires GoodBut(h, but) && r in h.pages
    ensures PgOk(h.pages[r]) && NoDup(h.pages[r].free) && (r != but ==> |h.pages[r].free| < PerPage(h.pages[r].bt))
  {
    hide PerPage, Size, Lists, NoDup, PagesApart;
  }

  /** Freeing makes exactly that block not live. */
  lemma FreeLive(h: Heap, r: nat, j: nat, q: nat, k: nat)
    requires Good(h) && Live(h, r, j)
    ensures h.pages[r].bt < |h.sizes|
    ensures Live(Free(h, r, j), q, k) <==> Live(h, q, k) && !(q == r && k == j)
    ensures Live(Free(h, r, j), q, k) ==> Address(Free(h, r, j), q, k) == Address(h, q, k)
  {
    hide PerPage, Size, Lists, NoDup, PagesApart, GoodBut, Minus;
    HasSizes(h, -1);
    if q == r {
      AllFreed(h, r, j);
      OnSamePage(h, r, j, k);
    }
  }

  lemma OnSamePage(h: Heap, r: nat, j: nat, k: nat)
    requires Live(h, r, j)
    ensures Live(Push(h, r, j), r, k) <==> Live(h, r, k) && k != j
  {
    hide PerPage, Size;
    assert k in [j] + h.pages[r].free <==> k == j || k in h.pages[r].free;
  }

  /** The page is wholly free exactly when no other of its blocks was live. */
  lemma AllFreed(h: Heap, r: nat, j: nat)
    requires Good(h) && Live(h, r, j)
    ensures |Push(h, r, j).pages[r].free| == PerPage(h.pages[r].bt) <==> forall k :: Live(h, r, k) ==> k == j
  {
    hide PerPage, Size, Lists, NoDup, PagesApart, GoodBut;
    PushGood(h, r, j);
    var h1 := Push(h, r, j);
    PageOf(h1, r, r);
    var n := PerPage(h.pages[r].bt);
    Bounded(h1.pages[r].free, n);
    if |h1.pages[r].free| == n {
      forall k | Live(h, r, k) ensures k == j {
        assert k in h1.pages[r].free;
      }
    } else {
      var k :| 0 <= k < n && k !in h1.pages[r].free;
      assert Live(h, r, k) && k != j;
    }
  }

  /** A page goes back exactly when its last live block is freed. */
  lemma PageReturned(h: Heap, r: nat, j: nat)
    requires Good(h) && Live(h, r, j)
    ensures h.pages[r].bt < |h.sizes|
    ensures r !in Free(h, r, j).pages <==> forall k :: Live(h, r, k) ==> k == j
  {
    hide PerPage, Size, Lists, NoDup, PagesApart, GoodBut, Minus, Live;
    HasSizes(h, -1);
    assert h.pages[r].bt < NSIZES by { LiveMeans(h, r, j); }
    AllFreed(h, r, j);
  }

  lemma LiveMeans(h: Heap, r: nat, j: nat)
    requires Live(h, r, j)
    ensures r in h.pages && h.pages[r].bt < NSIZES
  {
  }

  // ---------------------------------------------------------------------------------------
  // Runs

  datatype Op = MallocOp(bt: nat, sup: Supply) | FreeOp(r: nat, j: nat)

  predicate Allowed(h: Heap, op: Op) {
    match op
    case MallocOp(bt, sup) => bt < NSIZES && bt < |h.sizes| && SupplyOk(h, sup)
    case FreeOp(r, j) => Live(h, r, j) && h.pages[r].bt < |h.sizes|
  }

  function Do(h: Heap, op: Op): Heap
    requires Allowed(h, op)
  {
    match op
    case MallocOp(bt, sup) => Malloc(h, bt, sup)
    case FreeOp(r, j) => Free(h, r, j)
  }

  lemma DoGood(h: Heap, op: Op, r: nat, j: nat)
    requires Good(h) && Allowed(h, op)
    ensures Good(Do(h, op))
    ensures Live(h, r, j) && op != FreeOp(r, j) ==>
              Live(Do(h, op), r, j) && Address(Do(h, op), r, j) == Address(h, r, j)
  {
    hide GoodBut, PerPage, Size, CanMalloc, PageFor, Ready, FirstRoom, DropPage;
    match op {
      case MallocOp(bt, sup) =>
        MallocGood(h, bt, sup);
        HasSizes(h, -1);
        if CanMalloc(h, bt, sup) { MallocLive(h, bt, sup, r, j); }
      case FreeOp(q, k) =>
        FreeGood(h, q, k);
        FreeLive(h, q, k, r, j);
    }
  }

  ghost predicate IsRun(h: Heap, ops: seq<Op>)
    decreases |ops|
  {
    ops == [] || (Allowed(h, ops[0]) && IsRun(Do(h, ops[0]), ops[1..]))
  }

  ghost function After(h: Heap, ops: seq<Op>): Heap
    requires IsRun(h, ops)
    decreases |ops|
  {
    if ops == [] then h else After(Do(h, ops[0]), ops[1..])
  }

  /** A block once handed out stays where it is, apart from every other live block, until it is freed. */
  lemma {:induction false} RunKeeps(h: Heap, ops: seq<Op>, r: nat, j: nat)
    requires Good(h) && IsRun(h, ops)
    ensures Good(After(h, ops))
    ensures Live(h, r, j) && FreeOp(r, j) !in ops ==>
              Live(After(h, ops), r, j) && Address(After(h, ops), r, j) == Address(h, r, j)
    decreases |ops|
  {
    hide Good, Allowed, Do, Live, Address;
    if ops != [] {
      DoGood(h, ops[0], r, j);
      RunKeeps(Do(h, ops[0]), ops[1..], r, j);
    }
  }

  lemma EmptyGood()
    ensures Good(Heap(map[], [], seq(NSIZES, _ => [])))
  {
  }
}
