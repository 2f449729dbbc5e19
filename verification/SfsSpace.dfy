/**
 Room on the volume: how many blocks are free, and how many it takes to map a range of a file.
 */
module SfsSpace {
  import opened SfsLayout
  import opened SfsVolume

  function FreeSet(bits: seq<bool>): set<nat> {
    set b: nat | b < |bits| && !bits[b]
  }

  /** The number of free blocks. */
  function Room(v: Vol): nat {
    |FreeSet(v.used)|
  }

  lemma RoomTaken(bits: seq<bool>, b: nat)
    requires b < |bits| && !bits[b]
    ensures |FreeSet(bits[b := true])| + 1 == |FreeSet(bits)|
  {
    assert FreeSet(bits[b := true]) == FreeSet(bits) - {b};
  }

  lemma NoRoom(bits: seq<bool>)
    ensures FreeSet(bits) == {} <==> forall k :: 0 <= k < |bits| ==> bits[k]
  {
    forall k: nat | k < |bits| && !bits[k] ensures k in FreeSet(bits) {
    }
  }

  /** The blocks of a file from `lo` up to `hi` that could be mapped and are not. */
  ghost function Holes(v: Vol, ino: nat, lo: nat, hi: nat): set<nat>
    requires Sized(v) && ino in v.inodes
  {
    set f: nat | lo <= f < hi && f < MAXBLOCKS && PtrOf(v, ino, f) == 0
  }

  /** The blocks it takes to map that range: one for each hole, and one if the indirect block is wanting too. */
  ghost function Need(v: Vol, ino: nat, lo: nat, hi: nat): nat
    requires Sized(v) && ino in v.inodes
  {
    |Holes(v, ino, lo, hi)|
    + if v.inodes[ino].indirect == 0 && lo < hi && hi > NDIRECT && lo < MAXBLOCKS then 1 else 0
  }

  /** From `v` to `w`, the blocks of the range have been mapped, out of the free ones and at no further cost. */
  ghost predicate Had(v: Vol, w: Vol, ino: nat, lo: nat, hi: nat) {
    && Sized(v) && Sized(w) && ino in v.inodes && ino in w.inodes && lo <= hi && (lo < hi ==> hi <= MAXBLOCKS)
    && (forall f: nat :: hi <= f < MAXBLOCKS ==> PtrOf(w, ino, f) == PtrOf(v, ino, f))
    && (v.inodes[ino].indirect != 0 || lo == hi || hi <= NDIRECT ==> w.inodes[ino].indirect == v.inodes[ino].indirect)
    && (lo < hi && hi > NDIRECT ==> w.inodes[ino].indirect != 0)
    && Room(w) + Need(v, ino, lo, hi) == Room(v)
  }

  lemma HadNothing(v: Vol, ino: nat, lo: nat)
    requires Sized(v) && ino in v.inodes
    ensures Had(v, v, ino, lo, lo)
  {
    hide Sized, PtrOf, Room;
    assert Holes(v, ino, lo, lo) == {};
  }

  lemma HolesSplit(v: Vol, ino: nat, lo: nat, mid: nat, hi: nat)
    requires Sized(v) && ino in v.inodes && lo <= mid <= hi
    ensures |Holes(v, ino, lo, hi)| == |Holes(v, ino, lo, mid)| + |Holes(v, ino, mid, hi)|
  {
    hide Sized, PtrOf;
    var a, b := Holes(v, ino, lo, mid), Holes(v, ino, mid, hi);
    assert Holes(v, ino, lo, hi) == a + b && a !! b;
  }

  /** What the whole range takes is what its first part takes and then the rest. */
  lemma NeedSplit(v: Vol, w: Vol, ino: nat, lo: nat, mid: nat, hi: nat)
    requires Had(v, w, ino, lo, mid) && mid <= hi
    ensures Need(v, ino, lo, hi) == Need(v, ino, lo, mid) + Need(w, ino, mid, hi)
  {
    hide Sized, PtrOf, Room;
    HolesSplit(v, ino, lo, mid, hi);
    assert Holes(v, ino, mid, hi) == Holes(w, ino, mid, hi);
  }

  lemma HadMore(v: Vol, w: Vol, x: Vol, ino: nat, lo: nat, mid: nat, hi: nat)
    requires Had(v, w, ino, lo, mid) && Had(w, x, ino, mid, hi)
    ensures Had(v, x, ino, lo, hi)
  {
    hide Sized, PtrOf, Room, Need;
    NeedSplit(v, w, ino, lo, mid, hi);
  }

  lemma NeedGrows(v: Vol, ino: nat, lo: nat, mid: nat, hi: nat)
    requires Sized(v) && ino in v.inodes && lo <= mid <= hi
    ensures Need(v, ino, lo, mid) <= Need(v, ino, lo, hi)
    ensures lo < mid && mid >= MAXBLOCKS ==> Need(v, ino, lo, mid) == Need(v, ino, lo, hi)
  {
    hide Sized, PtrOf;
    HolesSplit(v, ino, lo, mid, hi);
    if mid >= MAXBLOCKS {
      assert Holes(v, ino, mid, hi) == {};
    }
  }

  /** One block: nothing if it is mapped, else one, and one more behind a wanting indirect block. */
  lemma NeedOne(v: Vol, ino: nat, fb: nat)
    requires Sized(v) && ino in v.inodes && fb < MAXBLOCKS
    ensures Need(v, ino, fb, fb + 1) ==
              if PtrOf(v, ino, fb) != 0 then 0 else if fb >= NDIRECT && v.inodes[ino].indirect == 0 then 2 else 1
  {
    hide Sized;
    assert Holes(v, ino, fb, fb + 1) == if PtrOf(v, ino, fb) == 0 then {fb} else {};
  }

  /** The same pointers and the same free blocks: the same need and room. */
  lemma SameNeed(v: Vol, w: Vol, ino: nat, lo: nat, hi: nat)
    requires Sized(v) && Sized(w) && ino in v.inodes && ino in w.inodes
    requires w.inodes[ino].indirect == v.inodes[ino].indirect
    requires forall f: nat :: f < MAXBLOCKS ==> PtrOf(w, ino, f) == PtrOf(v, ino, f)
    ensures Need(w, ino, lo, hi) == Need(v, ino, lo, hi)
  {
    hide Sized, PtrOf;
    assert Holes(w, ino, lo, hi) == Holes(v, ino, lo, hi);
  }

  /** Later changes that touch neither pointers nor the map. */
  lemma HadStill(v: Vol, w: Vol, x: Vol, ino: nat, lo: nat, hi: nat)
    requires Had(v, w, ino, lo, hi) && Sized(x) && ino in x.inodes && x.used == w.used
    requires x.inodes[ino].indirect == w.inodes[ino].indirect
    requires forall f: nat :: f < MAXBLOCKS ==> PtrOf(x, ino, f) == PtrOf(w, ino, f)
    ensures Had(v, x, ino, lo, hi)
  {
    hide Sized, PtrOf, Need;
  }

  // ---------------------------------------------------------------------------------------
  // The steps of mapping one block

  lemma MappedAlready(v: Vol, ino: nat, fb: nat)
    requires Sized(v) && ino in v.inodes && fb < MAXBLOCKS && PtrOf(v, ino, fb) != 0
    ensures Had(v, v, ino, fb, fb + 1)
  {
    hide Sized, Room, Need;
    NeedOne(v, ino, fb);
  }

  lemma DirectHad(v: Vol, ino: nat, fb: nat, b: nat)
    requires FreeBlock(v, b) && ino in v.inodes && fb < NDIRECT && v.inodes[ino].direct[fb] == 0
    ensures Had(v, AddDirect(v, ino, fb, b), ino, fb, fb + 1)
  {
    hide Need, MapOk, Backward;
    NeedOne(v, ino, fb);
    RoomTaken(v.used, b);
    AddDirectPtr(v, ino, fb, b);
  }

  lemma ViaIndirectHad(v: Vol, ino: nat, fb: nat, b: nat)
    requires FreeBlock(v, b) && ino in v.inodes && NDIRECT <= fb < MAXBLOCKS
    requires v.inodes[ino].indirect != 0 && PtrOf(v, ino, fb) == 0
    ensures Had(v, AddViaIndirect(v, ino, fb, b), ino, fb, fb + 1)
  {
    hide Need, MapOk, Forward, Backward, PtrOf;
    NeedOne(v, ino, fb);
    RoomTaken(v.used, b);
    AddViaIndirectPtr(v, ino, fb, b);
  }

  /** The indirect block first, then the block behind it. */
  lemma IndirectThen(v: Vol, w: Vol, x: Vol, ino: nat, fb: nat)
    requires Sized(v) && ino in v.inodes && NDIRECT <= fb < MAXBLOCKS && v.inodes[ino].indirect == 0
    requires Had(w, x, ino, fb, fb + 1) && w.inodes[ino].indirect != 0 && Room(w) + 1 == Room(v)
    requires forall f: nat :: f < MAXBLOCKS ==> PtrOf(w, ino, f) == PtrOf(v, ino, f)
    ensures Had(v, x, ino, fb, fb + 1)
  {
    hide Need, Sized, Room;
    NeedOne(v, ino, fb);
    NeedOne(w, ino, fb);
  }

  /** A new inode takes one block, and leaves the needs of every other file alone. */
  lemma InodeTakesOne(v: Vol, b: nat, i: Inode, ino: nat, lo: nat, hi: nat)
    requires FreeBlock(v, b) && NoBlocks(i) && ino in v.inodes && ino != b && Sized(AddInode(v, b, i))
    ensures Room(AddInode(v, b, i)) + 1 == Room(v)
    ensures Need(AddInode(v, b, i), ino, lo, hi) == Need(v, ino, lo, hi)
  {
    hide Need, Backward;
    var w := AddInode(v, b, i);
    RoomTaken(v.used, b);
    assert v.owner[b] == Free;
    forall f: nat | f < MAXBLOCKS ensures PtrOf(w, ino, f) == PtrOf(v, ino, f) {
    }
    SameNeed(v, w, ino, lo, hi);
  }
}
