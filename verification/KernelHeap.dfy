/**
 The kernel heap in memory: page references on linked lists, and a free list threaded through
 the blocks of each page.
 */
module KernelHeap {
  import opened KHeapSpec
  import Bitmap

  const NPAGEREFS := 256
  const INVALID_OFFSET := 0xffff
  const WORDS := 1024 // 32-bit words of a page
  const DEADBEEF := 0xdead_beef

  /** struct pageref; list links are indices, -1 for none. */
  datatype Pageref = Pageref(nextSame: int, nextAll: int, pab: nat, off: nat, nfree: nat)

  /** A page address and a block type in one word. */
  function MkPab(addr: nat, bt: nat): nat {
    addr + bt
  }

  function PageAddr(pab: nat): nat {
    pab / PAGE * PAGE
  }

  function TypeOf(pab: nat): nat {
    pab % PAGE
  }

  lemma PabParts(addr: nat, bt: nat)
    requires addr % PAGE == 0 && bt < NSIZES
    ensures PageAddr(MkPab(addr, bt)) == addr && TypeOf(MkPab(addr, bt)) == bt
  {
  }

  // ---------------------------------------------------------------------------------------
  // Representation

  /** The index of a block's first word in its page. */
  function WordOf(bt: nat, j: nat): nat
    requires bt < NSIZES
  {
    j * (Size(bt) / 4)
  }

  lemma WordApart(bt: nat, j: nat, k: nat)
    requires bt < NSIZES && j < PerPage(bt) && k < PerPage(bt)
    ensures WordOf(bt, j) + Size(bt) / 4 <= WORDS && Size(bt) / 4 >= 4 && Size(bt) % 4 == 0
    ensures j != k ==> WordOf(bt, j) + Size(bt) / 4 <= WordOf(bt, k) || WordOf(bt, k) + Size(bt) / 4 <= WordOf(bt, j)
  {
    var w := Size(bt) / 4;
    assert PerPage(bt) * w == WORDS;
    Rows(PerPage(bt), w, j, k);
  }

  lemma Rows(n: nat, w: nat, j: nat, k: nat)
    requires j < n && k < n
    ensures j * w + w <= n * w
    ensures j != k ==> j * w + w <= k * w || k * w + w <= j * w
  {
    assert (j + 1) * w <= n * w;
    if j < k { assert (j + 1) * w <= k * w; }
    if k < j { assert (k + 1) * w <= j * w; }
  }

  function Head(l: seq<nat>): int {
    if l == [] then -1 else l[0]
  }

  function Follower(l: seq<nat>, k: nat): int {
    if k + 1 < |l| then l[k + 1] else -1
  }

  /** A linked list through a field holds `l`. */
  predicate ChainAll(refs: seq<Pageref>, head: int, l: seq<nat>) {
    head == Head(l) && forall k :: 0 <= k < |l| ==> l[k] < |refs| && refs[l[k]].nextAll == Follower(l, k)
  }

  predicate ChainSame(refs: seq<Pageref>, head: int, l: seq<nat>) {
    head == Head(l) && forall k :: 0 <= k < |l| ==> l[k] < |refs| && refs[l[k]].nextSame == Follower(l, k)
  }

  /** The link stored in free block number `k` of a free list. */
  function LinkOf(g: Pg, k: nat): nat
    requires g.bt < NSIZES
  {
    if k + 1 < |g.free| then g.addr + g.free[k + 1] * Size(g.bt) else 0
  }

  function OffOf(g: Pg): nat
    requires g.bt < NSIZES
  {
    if g.free == [] then INVALID_OFFSET else g.free[0] * Size(g.bt)
  }

  /** A page reference and the words of its page hold `g`. */
  predicate PageRep(p: Pageref, words: seq<nat>, g: Pg) {
    && PgOk(g) && |words| == WORDS && p.pab == MkPab(g.addr, g.bt) && p.nfree == |g.free| && p.off == OffOf(g)
    && forall k :: 0 <= k < |g.free| ==>
         WordOf(g.bt, g.free[k]) < WORDS && words[WordOf(g.bt, g.free[k])] == LinkOf(g, k)
  }

  predicate PagesRep(refs: seq<Pageref>, mem: map<nat, seq<nat>>, h: Heap) {
    forall r :: r in h.pages ==>
      r < |refs| && h.pages[r].addr in mem && PageRep(refs[r], mem[h.pages[r].addr], h.pages[r])
  }

  predicate ListsRep(refs: seq<Pageref>, bases: seq<int>, allbase: int, h: Heap) {
    && |bases| == NSIZES && |h.sizes| == NSIZES && ChainAll(refs, allbase, h.all)
    && forall bt :: 0 <= bt < NSIZES ==> ChainSame(refs, bases[bt], h.sizes[bt])
  }

  // ---------------------------------------------------------------------------------------
  // Pure steps

  /** Taking the first free block of a page. */
  lemma PopRep(p: Pageref, words: seq<nat>, g: Pg)
    requires PageRep(p, words, g) && g.free != []
    ensures p.off < PAGE && p.off % 4 == 0 && p.off / 4 < WORDS && words[p.off / 4] == LinkOf(g, 0) && p.nfree > 0
    ensures var link := words[p.off / 4];
            && (link == 0 <==> |g.free| == 1) && (link != 0 ==> link >= g.addr && link - g.addr < PAGE)
            && PageRep(p.(nfree := p.nfree - 1, off := if link == 0 then INVALID_OFFSET else link - g.addr), words,
                 g.(free := g.free[1..]))
  {
    hide PerPage, Size;
    var g' := g.(free := g.free[1..]);
    assert g.free[0] in g.free;
    TailNoDup(g.free);
    BlockWord(g.bt, g.free[0]);
    if |g.free| > 1 {
      assert g.free[1] in g.free;
      BlockWord(g.bt, g.free[1]);
    }
    forall k | 0 <= k < |g'.free|
      ensures WordOf(g.bt, g'.free[k]) < WORDS && words[WordOf(g.bt, g'.free[k])] == LinkOf(g', k)
    {
      assert g'.free[k] == g.free[k + 1];
    }
  }

  /** A block's offset and the index of its first word. */
  lemma BlockWord(bt: nat, j: nat)
    requires bt < NSIZES && j < PerPage(bt)
    ensures j * Size(bt) < PAGE && j * Size(bt) % 4 == 0 && j * Size(bt) / 4 == WordOf(bt, j) < WORDS
    ensures j * Size(bt) < INVALID_OFFSET
  {
    WithinPage(bt, j);
    WordApart(bt, j, j);
    var w := Size(bt) / 4;
    assert Size(bt) == 4 * w;
    assert j * (4 * w) == 4 * (j * w);
  }

  /** Putting block `j` back at the head of the free list; its memory is wiped first. */
  lemma PushRep(p: Pageref, words: seq<nat>, g: Pg, j: nat, words': seq<nat>)
    requires PageRep(p, words, g) && j < PerPage(g.bt) && j !in g.free && |words'| == WORDS
    requires WordOf(g.bt, j) < WORDS && words'[WordOf(g.bt, j)] == if g.free == [] then 0 else g.addr + p.off
    requires forall w :: 0 <= w < WORDS && !(WordOf(g.bt, j) <= w < WordOf(g.bt, j) + Size(g.bt) / 4) ==>
               words'[w] == words[w]
    ensures PageRep(p.(nfree := p.nfree + 1, off := j * Size(g.bt)), words', g.(free := [j] + g.free))
  {
    hide PerPage, Size, NoDup, WordOf;
    var g' := g.(free := [j] + g.free);
    ConsNoDup(j, g.free);
    FirstLink(p, words, g, j);
    forall k | 0 <= k < |g'.free|
      ensures WordOf(g.bt, g'.free[k]) < WORDS && words'[WordOf(g.bt, g'.free[k])] == LinkOf(g', k)
    {
      if k > 0 {
        PushLink(p, words, g, j, words', k - 1);
      }
    }
  }

  /** The new head of the free list links to the old one. */
  lemma FirstLink(p: Pageref, words: seq<nat>, g: Pg, j: nat)
    requires PageRep(p, words, g) && j < PerPage(g.bt)
    ensures var g' := g.(free := [j] + g.free);
              LinkOf(g', 0) == (if g.free == [] then 0 else g.addr + p.off) && OffOf(g') == j * Size(g.bt)
  {
    hide PerPage, Size, NoDup, WordOf;
  }

  /** The links of the blocks that were on the free list stay. */
  lemma PushLink(p: Pageref, words: seq<nat>, g: Pg, j: nat, words': seq<nat>, i: nat)
    requires PageRep(p, words, g) && j < PerPage(g.bt) && j !in g.free && |words'| == WORDS && i < |g.free|
    requires forall w :: 0 <= w < WORDS && !(WordOf(g.bt, j) <= w < WordOf(g.bt, j) + Size(g.bt) / 4) ==>
               words'[w] == words[w]
    ensures WordOf(g.bt, g.free[i]) < WORDS && words'[WordOf(g.bt, g.free[i])] == LinkOf(g, i)
    ensures var g' := g.(free := [j] + g.free); g'.free[i + 1] == g.free[i] && LinkOf(g', i + 1) == LinkOf(g, i)
  {
    hide PerPage, Size, NoDup;
    assert g.free[i] in g.free;
    WordApart(g.bt, g.free[i], j);
  }

  function Stored(words: seq<nat>, at: nat, value: nat): seq<nat>
    requires at < |words|
  {
    words[at := value]
  }

  /** A word of a live block is no link. */
  lemma StoreRep(p: Pageref, words: seq<nat>, g: Pg, j: nat, at: nat, value: nat)
    requires PageRep(p, words, g) && j < PerPage(g.bt) && j !in g.free
    requires WordOf(g.bt, j) <= at < WordOf(g.bt, j) + Size(g.bt) / 4
    ensures at < |words| && PageRep(p, Stored(words, at, value), g)
  {
    hide PerPage, Size, NoDup;
    WordApart(g.bt, j, j);
    forall k | 0 <= k < |g.free| ensures WordOf(g.bt, g.free[k]) != at {
      assert g.free[k] in g.free;
      WordApart(g.bt, g.free[k], j);
    }
  }

  /** The links of a new page, each block to the one below. */
  predicate Linked(words: seq<nat>, addr: nat, bt: nat, n: nat)
    requires bt < NSIZES
  {
    |words| == WORDS && forall i :: 0 <= i < n ==>
      WordOf(bt, i) < WORDS && words[WordOf(bt, i)] == if i == 0 then 0 else addr + (i - 1) * Size(bt)
  }

  lemma InitRep(p: Pageref, words: seq<nat>, addr: nat, bt: nat)
    requires bt < NSIZES && addr % PAGE == 0 && addr > 0 && Linked(words, addr, bt, PerPage(bt))
    requires p.pab == MkPab(addr, bt) && p.nfree == PerPage(bt) && p.off == (PerPage(bt) - 1) * Size(bt)
    ensures PageRep(p, words, Pg(addr, bt, Down(PerPage(bt))))
  {
    hide PerPage, Size, NoDup, Down;
    var g := Pg(addr, bt, Down(PerPage(bt)));
    DownNoDup(PerPage(bt));
    forall k | 0 <= k < |g.free| ensures WordOf(bt, g.free[k]) < WORDS && words[WordOf(bt, g.free[k])] == LinkOf(g, k) {
      assert g.free[k] == PerPage(bt) - 1 - k;
    }
  }

  lemma LinkMore(words: seq<nat>, addr: nat, bt: nat, i: nat)
    requires bt < NSIZES && i < PerPage(bt) && Linked(words, addr, bt, i)
    ensures WordOf(bt, i) < WORDS
    ensures Linked(words[WordOf(bt, i) := if i == 0 then 0 else addr + (i - 1) * Size(bt)], addr, bt, i + 1)
  {
    hide PerPage, Size;
    WordApart(bt, i, i);
    forall k | 0 <= k < i ensures WordOf(bt, k) != WordOf(bt, i) {
      WordApart(bt, k, i);
    }
  }

  // ---------------------------------------------------------------------------------------
  // Lists

  /** Changing what the lists do not use keeps them. */
  predicate SameLinks(refs: seq<Pageref>, refs': seq<Pageref>) {
    |refs'| == |refs| && forall r :: 0 <= r < |refs| ==>
      refs'[r].nextAll == refs[r].nextAll && refs'[r].nextSame == refs[r].nextSame
  }

  lemma SameLists(refs: seq<Pageref>, refs': seq<Pageref>, bases: seq<int>, allbase: int, h: Heap, h': Heap)
    requires ListsRep(refs, bases, allbase, h) && SameLinks(refs, refs') && h'.all == h.all && h'.sizes == h.sizes
    ensures ListsRep(refs', bases, allbase, h')
  {
    hide Follower, Head;
    forall bt | 0 <= bt < NSIZES ensures ChainSame(refs', bases[bt], h.sizes[bt]) {
      assert ChainSame(refs, bases[bt], h.sizes[bt]);
    }
  }

  /** A new page reference goes to the front of both its lists. */
  lemma PushLists(refs: seq<Pageref>, bases: seq<int>, allbase: int, h: Heap, r: nat, addr: nat, bt: nat, p: Pageref)
    requires ListsRep(refs, bases, allbase, h) && bt < NSIZES && r < |refs| && r !in h.all
    requires (forall b :: 0 <= b < NSIZES ==> r !in h.sizes[b])
    requires p.nextSame == bases[bt] && p.nextAll == allbase
    ensures ListsRep(refs[r := p], bases[bt := r], r, AddPage(h, r, addr, bt))
  {
    hide PerPage, Size, Down;
    var refs', h' := refs[r := p], AddPage(h, r, addr, bt);
    forall b | 0 <= b < NSIZES ensures ChainSame(refs', bases[bt := r][b], h'.sizes[b]) {
      assert ChainSame(refs, bases[b], h.sizes[b]);
      if b == bt {
        PushSame(refs, bases[bt], h.sizes[bt], r, p);
      } else {
        OtherSame(refs, bases[b], h.sizes[b], r, p);
      }
    }
    PushAll(refs, allbase, h.all, r, p);
  }

  lemma PushSame(refs: seq<Pageref>, head: int, l: seq<nat>, r: nat, p: Pageref)
    requires ChainSame(refs, head, l) && r < |refs| && r !in l && p.nextSame == head
    ensures ChainSame(refs[r := p], r, [r] + l)
  {
    var l' := [r] + l;
    forall k | 0 <= k < |l'| ensures l'[k] < |refs| && refs[r := p][l'[k]].nextSame == Follower(l', k) {
      if k > 0 { assert l'[k] == l[k - 1]; }
    }
  }

  lemma PushAll(refs: seq<Pageref>, head: int, l: seq<nat>, r: nat, p: Pageref)
    requires ChainAll(refs, head, l) && r < |refs| && r !in l && p.nextAll == head
    ensures ChainAll(refs[r := p], r, [r] + l)
  {
    var l' := [r] + l;
    forall k | 0 <= k < |l'| ensures l'[k] < |refs| && refs[r := p][l'[k]].nextAll == Follower(l', k) {
      if k > 0 { assert l'[k] == l[k - 1]; }
    }
  }

  lemma OtherSame(refs: seq<Pageref>, head: int, l: seq<nat>, r: nat, p: Pageref)
    requires ChainSame(refs, head, l) && r < |refs| && r !in l
    ensures ChainSame(refs[r := p], head, l)
  {
  }

  lemma {:induction false} MinusAt(l: seq<nat>, i: nat)
    requires NoDup(l) && i < |l|
    ensures Minus(l, l[i]) == l[..i] + l[i + 1..]
  {
    if i > 0 {
      assert l[0] != l[i];
      MinusAt(l[1..], i - 1);
      assert l[1..][..i - 1] == l[1..i] && l[1..][i..] == l[i + 1..];
    }
  }

  /** Who follows whom once element `i` is out. */
  lemma AfterMinus(l: seq<nat>, i: nat, k: nat)
    requires i < |l| && k < |l| - 1
    ensures var m := l[..i] + l[i + 1..];
            m[k] == l[if k < i then k else k + 1] &&
              Follower(m, k) == Follower(l, if k + 1 < i then k else if k + 1 == i then i else k + 1)
  {
  }

  lemma HeadMinus(l: seq<nat>, i: nat)
    requires i < |l|
    ensures Head(l[..i] + l[i + 1..]) == if i == 0 then Follower(l, 0) else l[0]
  {
  }

  /** Unlinking the element at position `i` from the list of all pages. */
  lemma UnlinkAll(refs: seq<Pageref>, head: int, l: seq<nat>, i: nat, refs': seq<Pageref>)
    requires ChainAll(refs, head, l) && NoDup(l) && i < |l| && |refs'| == |refs|
    requires i > 0 ==> refs' == refs[l[i - 1] := refs[l[i - 1]].(nextAll := refs[l[i]].nextAll)]
    requires i == 0 ==> refs' == refs
    ensures ChainAll(refs', if i == 0 then refs[l[0]].nextAll else head, Minus(l, l[i]))
  {
    hide NoDup, Minus, Follower;
    MinusAt(l, i);
    HeadMinus(l, i);
    var m := l[..i] + l[i + 1..];
    forall k | 0 <= k < |m| ensures m[k] < |refs| && refs'[m[k]].nextAll == Follower(m, k) {
      AfterMinus(l, i, k);
      var n := if k < i then k else k + 1;
      if i > 0 && n != i - 1 {
        Differ(l, n, i - 1);
      }
    }
  }

  lemma UnlinkSame(refs: seq<Pageref>, head: int, l: seq<nat>, i: nat, refs': seq<Pageref>)
    requires ChainSame(refs, head, l) && NoDup(l) && i < |l| && |refs'| == |refs|
    requires i > 0 ==> refs' == refs[l[i - 1] := refs[l[i - 1]].(nextSame := refs[l[i]].nextSame)]
    requires i == 0 ==> refs' == refs
    ensures ChainSame(refs', if i == 0 then refs[l[0]].nextSame else head, Minus(l, l[i]))
  {
    hide NoDup, Minus, Follower;
    MinusAt(l, i);
    HeadMinus(l, i);
    var m := l[..i] + l[i + 1..];
    forall k | 0 <= k < |m| ensures m[k] < |refs| && refs'[m[k]].nextSame == Follower(m, k) {
      AfterMinus(l, i, k);
      var n := if k < i then k else k + 1;
      if i > 0 && n != i - 1 {
        Differ(l, n, i - 1);
      }
    }
  }

  lemma Differ(l: seq<nat>, i: nat, j: nat)
    requires NoDup(l) && i < |l| && j < |l| && i != j
    ensures l[i] != l[j]
  {
  }

  // ---------------------------------------------------------------------------------------
  // The allocator

  class Allocator {
    const refs: array<Pageref>
    const inuse: array<bool>
    const bases: array<int>
    var allbase: int
    var mem: map<nat, seq<nat>> // the words of every page, by its address
    ghost var h: Heap

    /** All of the representation but for the marks of page references in use. */
    ghost predicate Shape(but: int)
      reads this, refs, bases
    {
      && refs.Length == NPAGEREFS && bases.Length == NSIZES && GoodBut(h, but)
      && ListsRep(refs[..], bases[..], allbase, h) && PagesRep(refs[..], mem, h)
    }

    ghost predicate Marks()
      reads this, inuse
    {
      inuse.Length == NPAGEREFS && forall r :: 0 <= r < NPAGEREFS ==> (inuse[r] <==> r in h.pages)
    }

    ghost predicate Valid()
      reads this, refs, bases, inuse
    {
      Shape(-1) && Marks()
    }

    constructor (mem: map<nat, seq<nat>>)
      ensures Valid() && h == Heap(map[], [], seq(NSIZES, _ => [])) && this.mem == mem
      ensures fresh(refs) && fresh(inuse) && fresh(bases)
    {
      refs := new Pageref[NPAGEREFS](_ => Pageref(-1, -1, 0, 0, 0));
      inuse := new bool[NPAGEREFS](_ => false);
      bases := new int[NSIZES](_ => -1);
      allbase := -1;
      this.mem := mem;
      h := Heap(map[], [], seq(NSIZES, _ => []));
      new;
      EmptyGood();
    }

    /** allocpageref: the lowest page reference not in use. */
    method AllocPageref() returns (r: int)
      requires inuse.Length == NPAGEREFS
      modifies inuse
      ensures var f := Bitmap.FirstClear(old(inuse[..]));
              if f == NPAGEREFS then r == -1 && inuse[..] == old(inuse[..])
              else r == f && inuse[..] == old(inuse[..])[f := true]
    {
      for i := 0 to NPAGEREFS
        invariant inuse[..] == old(inuse[..]) && forall k :: 0 <= k < i ==> inuse[k]
      {
        if !inuse[i] {
          Bitmap.FirstClearIs(inuse[..], i);
          inuse[i] := true;
          return i;
        }
      }
      Bitmap.FirstClearIs(inuse[..], NPAGEREFS);
      r := -1;
    }

    /** freepageref */
    method FreePageref(r: nat)
      requires r < inuse.Length && inuse[r]
      modifies inuse
      ensures inuse[..] == old(inuse[..])[r := false]
    {
      inuse[r] := false;
    }

    /** The search of subpage_kmalloc for a page of the right size with a free block. */
    method FindRoom(bt: nat) returns (pr: int)
      requires Shape(-1) && bt < NSIZES
      ensures var i := FirstRoom(h, h.sizes[bt]); pr == if i < |h.sizes[bt]| then h.sizes[bt][i] else -1
    {
      hide GoodBut, PgOk, FirstRoom;
      ghost var l := h.sizes[bt];
      ghost var k := 0;
      assert ChainSame(refs[..], bases[bt], l);
      pr := bases[bt];
      while pr != -1
        invariant 0 <= k <= |l| && pr == if k < |l| then l[k] else -1
        invariant forall i :: 0 <= i < k ==> l[i] !in h.pages || h.pages[l[i]].free == []
        decreases |l| - k
      {
        OnPage(h, refs[..], mem, bt, k);
        assert TypeOf(refs[pr].pab) == bt;
        if refs[pr].nfree > 0 {
          FirstRoomIs(h, l, k);
          return;
        }
        pr := refs[pr].nextSame;
        k := k + 1;
      }
      FirstRoomIs(h, l, |l|);
    }

    /** From the label doalloc on: take the first block of the page's free list. */
    method TakeFirst(pr: nat) returns (ptr: nat)
      requires Shape(pr) && pr in h.pages && h.pages[pr].free != []
      modifies refs, this`h
      ensures Shape(-1) && h == Pop(old(h), pr) && h.pages.Keys == old(h).pages.Keys
      ensures ptr == old(h).pages[pr].addr + old(h).pages[pr].free[0] * Size(old(h).pages[pr].bt)
    {
      hide GoodBut, ListsRep, PagesRep, Size, PerPage;
      ghost var g, h0, refs0 := h.pages[pr], h, refs[..];
      PageAt(h, refs[..], mem, pr);
      PopRep(refs[pr], mem[g.addr], g);
      PabParts(g.addr, g.bt);
      ApartOf(h, pr);
      PopGood(h, pr);
      var p := refs[pr];
      assert p.off < PAGE;
      var prpage := PageAddr(p.pab);
      var fla := prpage + p.off;
      ptr := fla;
      var fl := mem[prpage][(fla - prpage) / 4];
      if fl != 0 {
        refs[pr] := p.(nfree := p.nfree - 1, off := fl - prpage);
      } else {
        refs[pr] := p.(nfree := p.nfree - 1, off := INVALID_OFFSET);
      }
      h := Pop(h, pr);
      assert refs[..] == refs0[pr := refs[pr]];
      SameLists(refs0, refs[..], bases[..], allbase, h0, h);
      OnePage(h0, h, refs0, refs[..], mem, mem, pr);
    }

    /** The free list of a new page: each block linked to the one below it, the last the head. */
    method LinkPage(prpage: nat, bt: nat, dirt: seq<nat>) returns (words: seq<nat>)
      requires bt < NSIZES && |dirt| == WORDS
      ensures |words| == WORDS && Linked(words, prpage, bt, PerPage(bt))
    {
      hide Size, PerPage, Linked;
      words := dirt;
      LinkNone(words, prpage, bt);
      LinkMore(words, prpage, bt, 0);
      words := words[WordOf(bt, 0) := 0];
      for i := 1 to PerPage(bt)
        invariant |words| == WORDS && Linked(words, prpage, bt, i)
      {
        LinkMore(words, prpage, bt, i);
        words := words[WordOf(bt, i) := prpage + (i - 1) * Size(bt)];
      }
    }

    /** A new page of blocks, on the front of both lists. */
    method MakePage(pr: nat, prpage: nat, bt: nat)
      requires Shape(-1) && bt < NSIZES && pr < NPAGEREFS && SupplyOk(h, NewPage(pr, prpage))
      requires prpage in mem && |mem[prpage]| == WORDS
      modifies this, refs, bases
      ensures Shape(pr) && h == AddPage(old(h), pr, prpage, bt) && h.pages.Keys == old(h).pages.Keys + {pr}
      ensures prpage in mem && |mem[prpage]| == WORDS && mem == old(mem)[prpage := mem[prpage]]
    {
      hide GoodBut, ListsRep, PageRep, Size, PerPage, Linked;
      ghost var h0, refs0 := h, refs[..];
      AddPageGood(h, pr, prpage, bt);
      var words := LinkPage(prpage, bt, mem[prpage]);
      var n := PerPage(bt);
      FitsOffset(bt);
      var p := Pageref(bases[bt], allbase, MkPab(prpage, bt), (n - 1) * Size(bt), n);
      InitRep(p, words, prpage, bt);
      FreshRef(h, pr);
      PushLists(refs[..], bases[..], allbase, h, pr, prpage, bt, p);
      mem := mem[prpage := words];
      refs[pr] := p;
      assert refs[..] == refs0[pr := p];
      ghost var bases0 := bases[..];
      bases[bt] := pr;
      assert bases[..] == bases0[bt := pr];
      allbase := pr;
      h := AddPage(h, pr, prpage, bt);
    }

    /** A new page, and its first free block taken at once. */
    method TakeFromNew(pr: nat, prpage: nat, bt: nat) returns (ptr: nat)
      requires Shape(-1) && bt < NSIZES && pr < NPAGEREFS && SupplyOk(h, NewPage(pr, prpage))
      requires prpage in mem && |mem[prpage]| == WORDS
      requires pr in AddPage(h, pr, prpage, bt).pages && AddPage(h, pr, prpage, bt).pages[pr].free != []
      modifies this, refs, bases
      ensures Shape(-1) && h == Pop(AddPage(old(h), pr, prpage, bt), pr) && h.pages.Keys == old(h).pages.Keys + {pr}
      ensures var g := AddPage(old(h), pr, prpage, bt).pages[pr];
                g.bt < NSIZES && ptr == g.addr + g.free[0] * Size(g.bt)
      ensures prpage in mem && |mem[prpage]| == WORDS && mem == old(mem)[prpage := mem[prpage]]
    {
      hide GoodBut, ListsRep, PagesRep, Size, PerPage, AddPage, Pop, SupplyOk;
      MakePage(pr, prpage, bt);
      PageAt(h, refs[..], mem, pr);
      ptr := TakeFirst(pr);
    }

    /** The search of subpage_kfree for the page a pointer lies on. */
    method FindPage(ptr: nat) returns (pr: int)
      requires Shape(-1)
      ensures pr == -1 ==> forall r :: r in h.pages ==> !OnThis(h, r, ptr)
      ensures pr != -1 ==> pr >= 0 && OnThis(h, pr, ptr)
    {
      hide GoodBut, PageRep;
      ghost var l := h.all;
      ghost var k := 0;
      pr := allbase;
      while pr != -1
        invariant 0 <= k <= |l| && pr == if k < |l| then l[k] else -1
        invariant forall i :: 0 <= i < k ==> !OnThis(h, l[i], ptr)
        decreases |l| - k
      {
        OnAll(h, refs[..], mem, k);
        var prpage := PageAddr(refs[pr].pab);
        assert TypeOf(refs[pr].pab) < NSIZES;
        if ptr >= prpage && ptr < prpage + PAGE {
          return;
        }
        pr := refs[pr].nextAll;
        k := k + 1;
      }
      forall r | r in h.pages ensures !OnThis(h, r, ptr) {
        InAll(h, r);
      }
    }

    /** Word `w` of a page is nobody's link: it lies in a live block, or the page is none of ours. */
    ghost predicate MayStore(page: nat, w: nat)
      reads this
    {
      page in mem && w < |mem[page]|
      && forall r :: r in h.pages && h.pages[r].addr == page ==> exists j :: LiveWord(h, r, j, w)
    }

    /** Whoever holds a block may write any of its words: no free list, and no other block, can change. */
    method Store(page: nat, w: nat, value: nat)
      requires Shape(-1) && MayStore(page, w)
      modifies this`mem
      ensures Shape(-1) && mem == old(mem)[page := Stored(old(mem)[page], w, value)]
    {
      hide GoodBut, ListsRep, PageRep, PagesRep, Size, PerPage, LiveWord;
      ghost var mem0 := mem;
      mem := mem[page := Stored(mem[page], w, value)];
      StoredPages(h, refs[..], mem0, page, w, value);
    }

    /** A page that is none of ours is cleared. */
    method Clear(page: nat)
      requires Shape(-1) && forall r :: r in h.pages ==> h.pages[r].addr != page
      modifies this`mem
      ensures Shape(-1) && mem == old(mem)[page := seq(WORDS, _ => 0)]
    {
      hide GoodBut, ListsRep, PageRep, Size, PerPage;
      mem := mem[page := seq(WORDS, _ => 0)];
    }

    /** fill_deadbeef over a block. */
    method Fill(words: seq<nat>, at: nat, n: nat) returns (r: seq<nat>)
      requires at + n <= |words|
      ensures |r| == |words| && forall w :: 0 <= w < |words| ==> r[w] == if at <= w < at + n then DEADBEEF else words[w]
    {
      r := words;
      for i := 0 to n
        invariant |r| == |words|
        invariant forall w :: 0 <= w < |words| ==> r[w] == if at <= w < at + i then DEADBEEF else words[w]
      {
        r := r[at + i := DEADBEEF];
      }
    }

    /** The block is wiped and linked in front of the free list. */
    method PutBack(pr: nat, ptr: nat, ghost j: nat)
      requires Shape(-1) && Live(h, pr, j) && ptr == Address(h, pr, j)
      modifies this`mem, this`h, refs
      ensures Shape(pr) && h == Push(old(h), pr, j)
      ensures var p := old(h).pages[pr];
              && p.addr in old(mem) && p.addr in mem && mem == old(mem)[p.addr := mem[p.addr]]
              && Wiped(old(mem)[p.addr], mem[p.addr], p.bt, j)
    {
      hide GoodBut, ListsRep, PagesRep, Size, PerPage;
      ghost var g, h0, refs0, mem0 := h.pages[pr], h, refs[..], mem;
      PageAt(h, refs[..], mem, pr);
      PabParts(g.addr, g.bt);
      ApartOf(h, -1);
      PushGood(h, pr, j);
      BlockWord(g.bt, j);
      WordApart(g.bt, j, j);
      var p := refs[pr];
      var prpage: nat, blktype: nat := PageAddr(p.pab), TypeOf(p.pab);
      var offset: nat := ptr - prpage;
      var words := Fill(mem[prpage], offset / 4, Size(blktype) / 4);
      words := words[offset / 4 := if p.off == INVALID_OFFSET then 0 else prpage + p.off];
      Heads(p, mem[prpage], g);
      PushRep(p, mem[prpage], g, j, words);
      mem := mem[prpage := words];
      refs[pr] := p.(off := offset, nfree := p.nfree + 1);
      h := Push(h, pr, j);
      assert refs[..] == refs0[pr := refs[pr]];
      SameLists(refs0, refs[..], bases[..], allbase, h0, h);
      OnePage(h0, h, refs0, refs[..], mem0, mem, pr);
    }

    /** remove_lists */
    method RemoveLists(pr: nat, blktype: nat)
      requires Shape(pr) && pr in h.pages && h.pages[pr].bt == blktype
      modifies this, refs, bases
      ensures Shape(-1) && h == DropPage(old(h), pr) && mem == old(mem) && h.pages.Keys == old(h).pages.Keys - {pr}
    {
      hide GoodBut, PageRep, PagesRep, ListsRep, Minus, NoDup;
      ghost var h0, refs0 := h, refs[..];
      OnItsLists(h, pr);
      UnlinkFromSize(pr, blktype);
      ghost var refs1 := refs[..];
      UnlinkFromAll(pr, h.(sizes := h.sizes[blktype := Minus(h.sizes[blktype], pr)]));
      DropPageGood(h0, pr);
      h := DropPage(h0, pr);
      SameListsOf(refs[..], bases[..], allbase, h0, h, pr, blktype);
      DroppedPages(h0, refs0, refs1, refs[..], mem, pr);
    }

    /** The first loop of remove_lists. */
    method UnlinkFromSize(pr: nat, bt: nat)
      requires refs.Length == NPAGEREFS && bases.Length == NSIZES && bt < NSIZES && |h.sizes| == NSIZES
      requires ListsRep(refs[..], bases[..], allbase, h) && NoDup(h.sizes[bt]) && pr in h.sizes[bt]
      requires forall b, r :: 0 <= b < NSIZES && b != bt && r in h.sizes[b] ==> r !in h.sizes[bt]
      modifies refs, bases
      ensures ListsRep(refs[..], bases[..], allbase, h.(sizes := h.sizes[bt := Minus(h.sizes[bt], pr)]))
      ensures SameBut(old(refs[..]), refs[..])
    {
      hide NoDup, Minus, Follower, ChainAll;
      ghost var l, refs0, bases0, k := h.sizes[bt], refs[..], bases[..], 0;
      assert ChainSame(refs0, bases0[bt], l);
      var guy, prev := bases[bt], -1;
      ghost var at :| 0 <= at < |l| && l[at] == pr;
      while guy != -1 && guy != pr
        invariant 0 <= k <= at && guy == l[k] && prev == if k == 0 then -1 else l[k - 1]
        invariant refs[..] == refs0 && bases[..] == bases0
        decreases at - k
      {
        NextIn(refs0, bases0[bt], l, k, at);
        prev := guy;
        guy := refs[guy].nextSame;
        k := k + 1;
      }
      UnlinkedSize(refs0, bases0, allbase, h, bt, k);
      if prev == -1 {
        bases[bt] := refs[pr].nextSame;
        assert bases[..] == bases0[bt := refs0[pr].nextSame];
      } else {
        refs[prev] := refs[prev].(nextSame := refs[pr].nextSame);
        assert refs[..] == refs0[prev := refs0[prev].(nextSame := refs0[pr].nextSame)];
      }
    }

    /** The second loop of remove_lists. */
    method UnlinkFromAll(pr: nat, ghost h1: Heap)
      requires refs.Length == NPAGEREFS && ListsRep(refs[..], bases[..], allbase, h1) && NoDup(h1.all) && pr in h1.all
      modifies this`allbase, refs
      ensures ListsRep(refs[..], bases[..], allbase, h1.(all := Minus(h1.all, pr)))
      ensures SameBut(old(refs[..]), refs[..])
    {
      hide NoDup, Minus, Follower, ChainSame;
      ghost var l, refs0, k := h1.all, refs[..], 0;
      var guy, prev := allbase, -1;
      ghost var at :| 0 <= at < |l| && l[at] == pr;
      while guy != -1 && guy != pr
        invariant 0 <= k <= at && guy == l[k] && prev == if k == 0 then -1 else l[k - 1]
        invariant refs[..] == refs0 && allbase == old(allbase)
        decreases at - k
      {
        NextInAll(refs0, allbase, l, k, at);
        prev := guy;
        guy := refs[guy].nextAll;
        k := k + 1;
      }
      UnlinkedAll(refs0, bases[..], allbase, h1, k);
      if prev == -1 {
        allbase := refs[pr].nextAll;
      } else {
        refs[prev] := refs[prev].(nextAll := refs[pr].nextAll);
        assert refs[..] == refs0[prev := refs0[prev].(nextAll := refs0[pr].nextAll)];
      }
    }
  }

  lemma NextIn(refs: seq<Pageref>, head: int, l: seq<nat>, k: nat, at: nat)
    requires ChainSame(refs, head, l) && k <= at < |l|
    ensures l[k] < |refs| && (l[k] != l[at] ==> k < at && refs[l[k]].nextSame == l[k + 1])
  {
  }

  lemma NextInAll(refs: seq<Pageref>, head: int, l: seq<nat>, k: nat, at: nat)
    requires ChainAll(refs, head, l) && k <= at < |l|
    ensures l[k] < |refs| && (l[k] != l[at] ==> k < at && refs[l[k]].nextAll == l[k + 1])
  {
  }

  /** The lists once element `k` of a size list is unlinked. */
  lemma UnlinkedSize(refs: seq<Pageref>, bases: seq<int>, allbase: int, h: Heap, bt: nat, k: nat)
    requires ListsRep(refs, bases, allbase, h) && bt < NSIZES && NoDup(h.sizes[bt]) && k < |h.sizes[bt]|
    requires forall b, r :: 0 <= b < NSIZES && b != bt && r in h.sizes[b] ==> r !in h.sizes[bt]
    ensures var l := h.sizes[bt];
            var h' := h.(sizes := h.sizes[bt := Minus(l, l[k])]);
            && l[k] < |refs| && (k > 0 ==> l[k - 1] < |refs|)
            && if k == 0 then ListsRep(refs, bases[bt := refs[l[0]].nextSame], allbase, h')
               else ListsRep(refs[l[k - 1] := refs[l[k - 1]].(nextSame := refs[l[k]].nextSame)], bases, allbase, h')
  {
    hide NoDup, Minus, Follower;
    var l := h.sizes[bt];
    assert ChainSame(refs, bases[bt], l);
    assert l[k] < |refs| && (k > 0 ==> l[k - 1] < |refs|);
    var refs' := if k == 0 then refs else refs[l[k - 1] := refs[l[k - 1]].(nextSame := refs[l[k]].nextSame)];
    UnlinkSame(refs, bases[bt], l, k, refs');
    AllKept(refs, allbase, h.all, refs');
    forall b | 0 <= b < NSIZES && b != bt ensures ChainSame(refs', bases[b], h.sizes[b]) {
      assert ChainSame(refs, bases[b], h.sizes[b]);
      if k > 0 {
        assert l[k - 1] in l;
        OtherSame(refs, bases[b], h.sizes[b], l[k - 1], refs'[l[k - 1]]);
      }
    }
  }

  lemma AllKept(refs: seq<Pageref>, head: int, l: seq<nat>, refs': seq<Pageref>)
    requires ChainAll(refs, head, l) && |refs'| == |refs|
    requires forall r :: 0 <= r < |refs| ==> refs'[r].nextAll == refs[r].nextAll
    ensures ChainAll(refs', head, l)
  {
    hide Follower;
  }

  lemma UnlinkedAll(refs: seq<Pageref>, bases: seq<int>, allbase: int, h: Heap, k: nat)
    requires ListsRep(refs, bases, allbase, h) && NoDup(h.all) && k < |h.all|
    ensures var l := h.all;
            var h' := h.(all := Minus(l, l[k]));
            && l[k] < |refs| && (k > 0 ==> l[k - 1] < |refs|)
            && if k == 0 then ListsRep(refs, bases, refs[l[0]].nextAll, h')
               else ListsRep(refs[l[k - 1] := refs[l[k - 1]].(nextAll := refs[l[k]].nextAll)], bases, allbase, h')
  {
    hide NoDup, Minus, Follower;
    var l := h.all;
    var refs' := if k == 0 then refs else refs[l[k - 1] := refs[l[k - 1]].(nextAll := refs[l[k]].nextAll)];
    UnlinkAll(refs, allbase, l, k, refs');
    forall b | 0 <= b < NSIZES ensures ChainSame(refs', bases[b], h.sizes[b]) {
      assert ChainSame(refs, bases[b], h.sizes[b]);
    }
  }

  lemma OnItsLists(h: Heap, r: nat)
    requires GoodBut(h, r) && r in h.pages
    ensures |h.sizes| == NSIZES && h.pages[r].bt < NSIZES && r in h.all && NoDup(h.all)
    ensures r in h.sizes[h.pages[r].bt] && NoDup(h.sizes[h.pages[r].bt])
    ensures forall b, q :: 0 <= b < NSIZES && b != h.pages[r].bt && q in h.sizes[b] ==> q !in h.sizes[h.pages[r].bt]
  {
    hide NoDup, PerPage, Size;
    assert OnLists(h, r) && PgOk(h.pages[r]);
    forall b, q | 0 <= b < NSIZES && b != h.pages[r].bt && q in h.sizes[b] ensures q !in h.sizes[h.pages[r].bt] {
      assert OnLists(h, q);
    }
  }

  lemma SameListsOf(refs: seq<Pageref>, bases: seq<int>, allbase: int, h: Heap, h': Heap, r: nat, bt: nat)
    requires r in h.pages && h.pages[r].bt == bt < |h.sizes| && h' == DropPage(h, r)
    requires ListsRep(refs, bases, allbase, Heap(h.pages, Minus(h.all, r), h.sizes[bt := Minus(h.sizes[bt], r)]))
    ensures ListsRep(refs, bases, allbase, h')
  {
    hide Minus, ChainAll, ChainSame;
  }

  lemma DroppedPages(h: Heap, refs: seq<Pageref>, refs1: seq<Pageref>, refs2: seq<Pageref>, mem: map<nat, seq<nat>>,
                     r: nat)
    requires PagesRep(refs, mem, h) && SameBut(refs, refs1) && SameBut(refs1, refs2) && r in h.pages
    requires h.pages[r].bt < |h.sizes|
    ensures PagesRep(refs2, mem, DropPage(h, r))
  {
    hide Minus, PgOk, Size, WordOf, LinkOf, OffOf;
  }

  /** The offset is the mark for an empty list exactly when the list is empty. */
  lemma Heads(p: Pageref, words: seq<nat>, g: Pg)
    requires PageRep(p, words, g)
    ensures p.off == INVALID_OFFSET <==> g.free == []
  {
    hide Size, PerPage, NoDup;
    if g.free != [] {
      assert g.free[0] in g.free;
      BlockWord(g.bt, g.free[0]);
    }
  }

  lemma RefIs(p: Pageref, words: seq<nat>, g: Pg)
    requires PageRep(p, words, g)
    ensures p.nfree == |g.free| && TypeOf(p.pab) == g.bt < NSIZES && PageAddr(p.pab) == g.addr
  {
    hide Size, PerPage, NoDup;
    PabParts(g.addr, g.bt);
  }

  /** Word `w` of page `r` belongs to live block `j`. */
  predicate LiveWord(h: Heap, r: nat, j: nat, w: nat) {
    Live(h, r, j) && WordOf(h.pages[r].bt, j) <= w < WordOf(h.pages[r].bt, j) + Size(h.pages[r].bt) / 4
  }

  lemma StoredPages(h: Heap, refs: seq<Pageref>, mem: map<nat, seq<nat>>, page: nat, w: nat, value: nat)
    requires PagesRep(refs, mem, h) && page in mem && w < |mem[page]|
    requires forall r :: r in h.pages && h.pages[r].addr == page ==> exists j :: LiveWord(h, r, j, w)
    ensures PagesRep(refs, mem[page := Stored(mem[page], w, value)], h)
  {
    hide PageRep, Stored, Size, PerPage;
    forall r | r in h.pages && h.pages[r].addr == page
      ensures r < |refs| && PageRep(refs[r], Stored(mem[page], w, value), h.pages[r])
    {
      var j :| LiveWord(h, r, j, w);
      StoreRep(refs[r], mem[page], h.pages[r], j, w, value);
    }
  }

  /** Links aside, the references are as they were. */
  predicate SameBut(refs: seq<Pageref>, refs': seq<Pageref>) {
    |refs'| == |refs| && forall r :: 0 <= r < |refs| ==>
      refs'[r].pab == refs[r].pab && refs'[r].off == refs[r].off && refs'[r].nfree == refs[r].nfree
  }

  lemma OnAll(h: Heap, refs: seq<Pageref>, mem: map<nat, seq<nat>>, k: nat)
    requires GoodBut(h, -1) && PagesRep(refs, mem, h) && k < |h.all|
    ensures var r := h.all[k];
            r in h.pages && r < |refs| && PageAddr(refs[r].pab) == h.pages[r].addr && TypeOf(refs[r].pab) < NSIZES
  {
    hide PerPage, Size, NoDup;
    var r := h.all[k];
    assert OnLists(h, r);
    assert PageRep(refs[r], mem[h.pages[r].addr], h.pages[r]);
    PabParts(h.pages[r].addr, h.pages[r].bt);
  }

  lemma InAll(h: Heap, r: nat)
    requires GoodBut(h, -1) && r in h.pages
    ensures r in h.all
  {
    hide PerPage, Size, NoDup, PgOk;
    assert OnLists(h, r);
  }

  /** The page a pointer lies on. */
  predicate OnThis(h: Heap, r: nat, ptr: nat) {
    r in h.pages && h.pages[r].addr <= ptr < h.pages[r].addr + PAGE
  }

  /** Block `j` of a page is wiped, but for its first word; the rest of the page is as it was. */
  predicate Wiped(words: seq<nat>, words': seq<nat>, bt: nat, j: nat)
    requires bt < NSIZES
  {
    |words'| == |words| && forall w :: 0 <= w < |words| && w != WordOf(bt, j) ==>
      words'[w] == if WordOf(bt, j) < w < WordOf(bt, j) + Size(bt) / 4 then DEADBEEF else words[w]
  }

  lemma ApartOf(h: Heap, but: int)
    requires GoodBut(h, but)
    ensures PagesApart(h)
  {
    hide PerPage, Size, NoDup, PgOk;
  }

  lemma LinkNone(words: seq<nat>, addr: nat, bt: nat)
    requires |words| == WORDS && bt < NSIZES
    ensures Linked(words, addr, bt, 0)
  {
  }

  lemma FitsOffset(bt: nat)
    requires bt < NSIZES
    ensures (PerPage(bt) - 1) * Size(bt) < PAGE
  {
    BlockWord(bt, PerPage(bt) - 1);
  }

  lemma FreshRef(h: Heap, r: nat)
    requires GoodBut(h, -1) && r !in h.pages
    ensures |h.sizes| == NSIZES && r !in h.all && forall b :: 0 <= b < NSIZES ==> r !in h.sizes[b]
  {
    hide PerPage, Size, NoDup, PgOk;
    assert OnLists(h, r);
  }

  /** A page of a size list, as its reference has it. */
  lemma OnPage(h: Heap, refs: seq<Pageref>, mem: map<nat, seq<nat>>, bt: nat, k: nat)
    requires GoodBut(h, -1) && PagesRep(refs, mem, h) && bt < NSIZES && |h.sizes| == NSIZES && k < |h.sizes[bt]|
    ensures var r := h.sizes[bt][k];
            r in h.pages && r < |refs| && TypeOf(refs[r].pab) == bt && refs[r].nfree == |h.pages[r].free|
  {
    hide PerPage, Size, NoDup;
    var r := h.sizes[bt][k];
    assert OnLists(h, r);
    assert PageRep(refs[r], mem[h.pages[r].addr], h.pages[r]);
    PabParts(h.pages[r].addr, bt);
  }

  lemma PageAt(h: Heap, refs: seq<Pageref>, mem: map<nat, seq<nat>>, r: nat)
    requires PagesRep(refs, mem, h) && r in h.pages
    ensures r < |refs| && h.pages[r].addr in mem && PageRep(refs[r], mem[h.pages[r].addr], h.pages[r])
    ensures PgOk(h.pages[r])
  {
  }

  /** Only page `r` changed, in its reference, its words and its free list. */
  lemma OnePage(h: Heap, h': Heap, refs: seq<Pageref>, refs': seq<Pageref>, mem: map<nat, seq<nat>>,
                mem': map<nat, seq<nat>>, r: nat)
    requires PagesRep(refs, mem, h) && PagesApart(h) && r in h.pages && h'.pages.Keys == h.pages.Keys
    requires r < |refs| && |refs'| == |refs| && forall q :: 0 <= q < |refs| && q != r ==> refs'[q] == refs[q]
    requires forall q :: q in h.pages && q != r ==> h'.pages[q] == h.pages[q]
    requires h'.pages[r].addr == h.pages[r].addr && mem'.Keys == mem.Keys
    requires forall a :: a in mem && a != h.pages[r].addr ==> mem'[a] == mem[a]
    requires h.pages[r].addr in mem && PageRep(refs'[r], mem'[h.pages[r].addr], h'.pages[r])
    ensures PagesRep(refs', mem', h')
  {
    hide PageRep;
  }
}
