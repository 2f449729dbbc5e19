/**
 The blocks of an SFS volume and who owns them.

 `Vol` is the whole persistent state, with every inode at its current value and, for each
 block, its one owner.  The functions below are the changes that block allocation, the
 block map, I/O and truncation make; the lemmas say that each keeps every block owned
 exactly as its inodes say, and what it does to the bytes of every file.
 */
module SfsVolume {
  import opened SfsLayout

  datatype Owner =
    | Free
    | Reserved
    | InodeAt(ino: nat)
    | IndirectOf(ino: nat)
    | DataOf(ino: nat, fb: nat)

  datatype Vol = Vol(disk: seq<Block>, used: seq<bool>, inodes: map<nat, Inode>, owner: seq<Owner>)

  function BitBlocks(n: nat): nat {
    (n + BLOCKBITS - 1) / BLOCKBITS
  }

  /** The superblock and the free map; the root directory's inode is an inode like others. */
  predicate ReservedBlock(b: nat, n: nat) {
    b == 0 || MAP_LOCATION <= b < MAP_LOCATION + BitBlocks(n)
  }

  predicate DiskOk(disk: seq<Block>) {
    |disk| <= WORD && forall b :: 0 <= b < |disk| ==> |disk[b]| == BLOCKSIZE
  }

  predicate Shape(disk: seq<Block>, i: Inode) {
    |i.direct| == NDIRECT && i.indirect < |disk|
  }

  /** The disk block that holds block `fb` of a file, 0 if there is none. */
  function Ptr(disk: seq<Block>, i: Inode, fb: nat): nat
    requires DiskOk(disk) && Shape(disk, i) && fb < MAXBLOCKS
  {
    if fb < NDIRECT then i.direct[fb]
    else if i.indirect == 0 then 0
    else Word(disk[i.indirect], fb - NDIRECT)
  }

  ghost predicate Sized(v: Vol) {
    && DiskOk(v.disk) && |v.owner| == |v.disk| && |v.used| == BLOCKBITS * BitBlocks(|v.disk|)
    && MAP_LOCATION + BitBlocks(|v.disk|) <= |v.disk|
    && forall ino :: ino in v.inodes ==> ino < |v.disk| && Shape(v.disk, v.inodes[ino])
  }

  ghost function PtrOf(v: Vol, ino: nat, fb: nat): nat
    requires Sized(v) && ino in v.inodes && fb < MAXBLOCKS
  {
    Ptr(v.disk, v.inodes[ino], fb)
  }

  /** The free map marks exactly the owned blocks, and everything past the end of the disk. */
  ghost predicate MapOk(v: Vol)
    requires Sized(v)
  {
    && (forall b :: 0 <= b < |v.disk| ==> (v.used[b] <==> v.owner[b] != Free))
    && (forall b :: |v.disk| <= b < |v.used| ==> v.used[b])
    && (forall b :: 0 <= b < |v.disk| ==> (v.owner[b] == Reserved <==> ReservedBlock(b, |v.disk|)))
  }

  /** Every pointer of every inode leads to a block owned for that very purpose. */
  ghost predicate Forward(v: Vol)
    requires Sized(v)
  {
    && (forall ino :: ino in v.inodes ==> v.owner[ino] == InodeAt(ino))
    && (forall ino :: ino in v.inodes && v.inodes[ino].indirect != 0 ==>
          v.owner[v.inodes[ino].indirect] == IndirectOf(ino))
    && (forall ino, fb :: ino in v.inodes && 0 <= fb < MAXBLOCKS && PtrOf(v, ino, fb) != 0 ==>
          PtrOf(v, ino, fb) < |v.disk| && v.owner[PtrOf(v, ino, fb)] == DataOf(ino, fb))
  }

  /** Every owned block is reached from the inode that owns it. */
  ghost predicate Backward(v: Vol)
    requires Sized(v)
  {
    forall b :: 0 <= b < |v.disk| ==>
      match v.owner[b]
      case InodeAt(i) => i == b && b in v.inodes
      case IndirectOf(i) => i in v.inodes && v.inodes[i].indirect == b
      case DataOf(i, fb) => i in v.inodes && fb < MAXBLOCKS && PtrOf(v, i, fb) == b
      case _ => true
  }

  ghost predicate Ok(v: Vol) {
    Sized(v) && MapOk(v) && Forward(v) && Backward(v)
  }

  // ---------------------------------------------------------------------------------------
  // What a file contains

  /** The byte of a file at a position; unmapped blocks and anything past the last mappable block read as 0. */
  ghost function FileByte(v: Vol, ino: nat, pos: nat): Byte
    requires Sized(v) && ino in v.inodes
  {
    if pos / BLOCKSIZE >= MAXBLOCKS then 0 else
    var p := PtrOf(v, ino, pos / BLOCKSIZE);
    if p == 0 || p >= |v.disk| then 0 else v.disk[p][pos % BLOCKSIZE]
  }

  /** The same inodes, with the same bytes at every position of every file. */
  ghost predicate SameBytes(v: Vol, w: Vol) {
    && Sized(v) && Sized(w) && v.inodes.Keys == w.inodes.Keys
    && forall ino, pos: nat :: ino in v.inodes ==> FileByte(w, ino, pos) == FileByte(v, ino, pos)
  }

  /** The attributes of an inode other than its block pointers are untouched. */
  predicate SameMeta(i: Inode, j: Inode) {
    i.size == j.size && i.kind == j.kind && i.links == j.links
  }

  // ---------------------------------------------------------------------------------------
  // Allocation

  /** Take a free block, clear it and give it an owner. */
  function Claim(v: Vol, b: nat, o: Owner): Vol
    requires b < |v.disk| && b < |v.used| && b < |v.owner|
  {
    v.(disk := v.disk[b := Zeros(BLOCKSIZE)], used := v.used[b := true], owner := v.owner[b := o])
  }

  ghost predicate FreeBlock(v: Vol, b: nat) {
    Ok(v) && b < |v.disk| && !v.used[b]
  }

  function AddDirect(v: Vol, ino: nat, fb: nat, b: nat): Vol
    requires b < |v.disk| && b < |v.used| && b < |v.owner| && ino in v.inodes && fb < |v.inodes[ino].direct|
  {
    Claim(v, b, DataOf(ino, fb)).(inodes := v.inodes[ino := v.inodes[ino].(direct := v.inodes[ino].direct[fb := b])])
  }

  function AddIndirect(v: Vol, ino: nat, b: nat): Vol
    requires b < |v.disk| && b < |v.used| && b < |v.owner| && ino in v.inodes
  {
    Claim(v, b, IndirectOf(ino)).(inodes := v.inodes[ino := v.inodes[ino].(indirect := b)])
  }

  function AddViaIndirect(v: Vol, ino: nat, fb: nat, b: nat): Vol
    requires b < |v.disk| && b < |v.used| && b < |v.owner| && b < WORD && ino in v.inodes
    requires DiskOk(v.disk) && Shape(v.disk, v.inodes[ino]) && NDIRECT <= fb < MAXBLOCKS
  {
    var c := Claim(v, b, DataOf(ino, fb));
    var q := v.inodes[ino].indirect;
    c.(disk := c.disk[q := PutWord(c.disk[q], fb - NDIRECT, b)])
  }

  /** If one unowned block becomes the target of one null pointer, ownership stays exact. */
  lemma Repointed(v: Vol, w: Vol, ino: nat, fb: nat, b: nat)
    requires FreeBlock(v, b) && Sized(w) && ino in v.inodes && fb < MAXBLOCKS && PtrOf(v, ino, fb) == 0
    requires |w.disk| == |v.disk| && w.inodes.Keys == v.inodes.Keys
    requires w.used == v.used[b := true] && w.owner == v.owner[b := DataOf(ino, fb)]
    requires forall i :: i in v.inodes ==> w.inodes[i].indirect == v.inodes[i].indirect
    requires forall i, f :: i in v.inodes && 0 <= f < MAXBLOCKS ==>
               PtrOf(w, i, f) == if i == ino && f == fb then b else PtrOf(v, i, f)
    ensures Ok(w)
  {
    hide PtrOf, Forward, Backward;
    assert v.owner[b] == Free;
    assert v.owner[0] == Reserved && b != 0;
    assert MapOk(w);
    RepointedForward(v, w, ino, fb, b);
    RepointedBackward(v, w, ino, fb, b);
  }

  lemma RepointedForward(v: Vol, w: Vol, ino: nat, fb: nat, b: nat)
    requires Ok(v) && b < |v.disk| && v.owner[b] == Free && Sized(w) && ino in v.inodes && fb < MAXBLOCKS
    requires |w.disk| == |v.disk| && w.inodes.Keys == v.inodes.Keys && w.owner == v.owner[b := DataOf(ino, fb)]
    requires forall i :: i in v.inodes ==> w.inodes[i].indirect == v.inodes[i].indirect
    requires forall i, f :: i in v.inodes && 0 <= f < MAXBLOCKS ==>
               PtrOf(w, i, f) == if i == ino && f == fb then b else PtrOf(v, i, f)
    ensures Forward(w)
  {
    hide PtrOf, MapOk, Backward;
  }

  lemma RepointedBackward(v: Vol, w: Vol, ino: nat, fb: nat, b: nat)
    requires |v.owner| > 0 && v.owner[0] == Reserved
    requires Ok(v) && b < |v.disk| && v.owner[b] == Free && Sized(w) && ino in v.inodes && fb < MAXBLOCKS
    requires PtrOf(v, ino, fb) == 0
    requires |w.disk| == |v.disk| && w.inodes.Keys == v.inodes.Keys && w.owner == v.owner[b := DataOf(ino, fb)]
    requires b != 0
    requires forall i :: i in v.inodes ==> w.inodes[i].indirect == v.inodes[i].indirect
    requires forall i, f :: i in v.inodes && 0 <= f < MAXBLOCKS ==>
               PtrOf(w, i, f) == if i == ino && f == fb then b else PtrOf(v, i, f)
    ensures Backward(w)
  {
    hide PtrOf, MapOk, Forward;
  }

  lemma AddDirectPtr(v: Vol, ino: nat, fb: nat, b: nat)
    requires FreeBlock(v, b) && ino in v.inodes && fb < NDIRECT && v.inodes[ino].direct[fb] == 0
    ensures Sized(AddDirect(v, ino, fb, b))
    ensures forall i, f :: i in v.inodes && 0 <= f < MAXBLOCKS ==>
              PtrOf(AddDirect(v, ino, fb, b), i, f) == if i == ino && f == fb then b else PtrOf(v, i, f)
  {
    var w := AddDirect(v, ino, fb, b);
    forall i | i in v.inodes && v.inodes[i].indirect != 0
      ensures w.disk[v.inodes[i].indirect] == v.disk[v.inodes[i].indirect]
    {
      assert v.owner[v.inodes[i].indirect] == IndirectOf(i);
    }
  }

  lemma AddDirectOk(v: Vol, ino: nat, fb: nat, b: nat)
    requires FreeBlock(v, b) && ino in v.inodes && fb < NDIRECT && v.inodes[ino].direct[fb] == 0
    ensures Ok(AddDirect(v, ino, fb, b)) && SameBytes(v, AddDirect(v, ino, fb, b))
  {
    var w := AddDirect(v, ino, fb, b);
    AddDirectPtr(v, ino, fb, b);
    Repointed(v, w, ino, fb, b);
    NewBlockSameBytes(v, w, ino, fb, b);
  }

  /** Mapping a cleared block where there was none changes no byte of any file. */
  lemma NewBlockSameBytes(v: Vol, w: Vol, ino: nat, fb: nat, b: nat)
    requires FreeBlock(v, b) && Sized(w) && ino in v.inodes && fb < MAXBLOCKS && PtrOf(v, ino, fb) == 0
    requires |w.disk| == |v.disk| && w.inodes.Keys == v.inodes.Keys && w.disk[b] == Zeros(BLOCKSIZE)
    requires forall i, f :: i in v.inodes && 0 <= f < MAXBLOCKS ==>
               PtrOf(w, i, f) == if i == ino && f == fb then b else PtrOf(v, i, f)
    requires forall p :: 0 <= p < |v.disk| && v.owner[p].DataOf? ==> w.disk[p] == v.disk[p]
    ensures SameBytes(v, w)
  {
    hide MapOk, Backward, PtrOf;
    forall i, pos: nat | i in v.inodes
      ensures FileByte(w, i, pos) == FileByte(v, i, pos)
    {
      if pos / BLOCKSIZE < MAXBLOCKS {
        var p := PtrOf(v, i, pos / BLOCKSIZE);
        if p != 0 {
          assert v.owner[p] == DataOf(i, pos / BLOCKSIZE);
        }
      }
    }
  }

  lemma AddIndirectPtr(v: Vol, ino: nat, b: nat)
    requires FreeBlock(v, b) && ino in v.inodes && v.inodes[ino].indirect == 0
    ensures Sized(AddIndirect(v, ino, b))
    ensures forall i, f :: i in v.inodes && 0 <= f < MAXBLOCKS ==> PtrOf(AddIndirect(v, ino, b), i, f) == PtrOf(v, i, f)
  {
    var w := AddIndirect(v, ino, b);
    assert v.owner[b] == Free;
    forall i, f | i in v.inodes && 0 <= f < MAXBLOCKS
      ensures PtrOf(w, i, f) == PtrOf(v, i, f)
    {
      if i == ino && f >= NDIRECT {
        WordOfZeros(BLOCKSIZE, f - NDIRECT);
      } else if v.inodes[i].indirect != 0 {
        assert v.owner[v.inodes[i].indirect] == IndirectOf(i);
      }
    }
  }

  lemma AddIndirectOk(v: Vol, ino: nat, b: nat)
    requires FreeBlock(v, b) && ino in v.inodes && v.inodes[ino].indirect == 0
    ensures Ok(AddIndirect(v, ino, b)) && SameBytes(v, AddIndirect(v, ino, b))
    ensures forall i, f :: i in v.inodes && 0 <= f < MAXBLOCKS ==> PtrOf(AddIndirect(v, ino, b), i, f) == PtrOf(v, i, f)
  {
    hide Forward, Backward, PtrOf, SameBytes;
    var w := AddIndirect(v, ino, b);
    assert v.owner[b] == Free;
    assert b != 0 by { assert v.owner[0] == Reserved; }
    AddIndirectPtr(v, ino, b);
    IndirectRepointed(v, w, ino, b);
    DataSameBytes(v, w);
  }

  lemma IndirectRepointed(v: Vol, w: Vol, ino: nat, b: nat)
    requires FreeBlock(v, b) && b != 0 && Sized(w) && ino in v.inodes && v.inodes[ino].indirect == 0
    requires |w.disk| == |v.disk| && w.inodes.Keys == v.inodes.Keys
    requires w.used == v.used[b := true] && w.owner == v.owner[b := IndirectOf(ino)]
    requires forall i :: i in v.inodes ==> w.inodes[i].indirect == if i == ino then b else v.inodes[i].indirect
    requires forall i, f :: i in v.inodes && 0 <= f < MAXBLOCKS ==> PtrOf(w, i, f) == PtrOf(v, i, f)
    ensures Ok(w)
  {
    hide PtrOf, Forward, Backward;
    assert v.owner[b] == Free && v.owner[0] == Reserved;
    assert MapOk(w);
    IndirectForward(v, w, ino, b);
    IndirectBackward(v, w, ino, b);
  }

  lemma IndirectForward(v: Vol, w: Vol, ino: nat, b: nat)
    requires Ok(v) && b < |v.disk| && v.owner[b] == Free && b != 0 && Sized(w) && ino in v.inodes
    requires v.inodes[ino].indirect == 0
    requires |w.disk| == |v.disk| && w.inodes.Keys == v.inodes.Keys && w.owner == v.owner[b := IndirectOf(ino)]
    requires forall i :: i in v.inodes ==> w.inodes[i].indirect == if i == ino then b else v.inodes[i].indirect
    requires forall i, f :: i in v.inodes && 0 <= f < MAXBLOCKS ==> PtrOf(w, i, f) == PtrOf(v, i, f)
    ensures Forward(w)
  {
    hide PtrOf, MapOk, Backward;
  }

  lemma IndirectBackward(v: Vol, w: Vol, ino: nat, b: nat)
    requires |v.owner| > 0 && v.owner[0] == Reserved
    requires Ok(v) && b < |v.disk| && v.owner[b] == Free && b != 0 && Sized(w) && ino in v.inodes
    requires v.inodes[ino].indirect == 0
    requires |w.disk| == |v.disk| && w.inodes.Keys == v.inodes.Keys && w.owner == v.owner[b := IndirectOf(ino)]
    requires forall i :: i in v.inodes ==> w.inodes[i].indirect == if i == ino then b else v.inodes[i].indirect
    requires forall i, f :: i in v.inodes && 0 <= f < MAXBLOCKS ==> PtrOf(w, i, f) == PtrOf(v, i, f)
    ensures Backward(w)
  {
    hide PtrOf, MapOk, Forward;
  }

  /** If no pointer moves and no data block changes, neither does any file. */
  lemma DataSameBytes(v: Vol, w: Vol)
    requires Ok(v) && Sized(w) && |w.disk| == |v.disk| && w.inodes.Keys == v.inodes.Keys
    requires forall i, f :: i in v.inodes && 0 <= f < MAXBLOCKS ==> PtrOf(w, i, f) == PtrOf(v, i, f)
    requires forall p :: 0 <= p < |v.disk| && v.owner[p].DataOf? ==> w.disk[p] == v.disk[p]
    ensures SameBytes(v, w)
  {
    hide MapOk, Backward, PtrOf;
    forall i, pos: nat | i in v.inodes
      ensures FileByte(w, i, pos) == FileByte(v, i, pos)
    {
      if pos / BLOCKSIZE < MAXBLOCKS {
        var p := PtrOf(v, i, pos / BLOCKSIZE);
        if p != 0 {
          assert v.owner[p] == DataOf(i, pos / BLOCKSIZE);
        }
      }
    }
  }

  lemma AddViaIndirectPtr(v: Vol, ino: nat, fb: nat, b: nat)
    requires FreeBlock(v, b) && ino in v.inodes && NDIRECT <= fb < MAXBLOCKS
    requires v.inodes[ino].indirect != 0 && PtrOf(v, ino, fb) == 0
    ensures Sized(AddViaIndirect(v, ino, fb, b))
    ensures forall i, f :: i in v.inodes && 0 <= f < MAXBLOCKS ==>
              PtrOf(AddViaIndirect(v, ino, fb, b), i, f) == if i == ino && f == fb then b else PtrOf(v, i, f)
  {
    hide Backward;
    var w := AddViaIndirect(v, ino, fb, b);
    var q := v.inodes[ino].indirect;
    assert v.owner[q] == IndirectOf(ino) && v.owner[b] == Free;
    forall i, f | i in v.inodes && 0 <= f < MAXBLOCKS
      ensures PtrOf(w, i, f) == if i == ino && f == fb then b else PtrOf(v, i, f)
    {
      var qi := v.inodes[i].indirect;
      if f >= NDIRECT && qi != 0 {
        assert v.owner[qi] == IndirectOf(i);
        if i == ino {
          PutWordGet(v.disk[q], fb - NDIRECT, b, f - NDIRECT);
        }
      }
    }
  }

  lemma AddViaIndirectOk(v: Vol, ino: nat, fb: nat, b: nat)
    requires FreeBlock(v, b) && ino in v.inodes && NDIRECT <= fb < MAXBLOCKS
    requires v.inodes[ino].indirect != 0 && PtrOf(v, ino, fb) == 0
    ensures Ok(AddViaIndirect(v, ino, fb, b)) && SameBytes(v, AddViaIndirect(v, ino, fb, b))
  {
    var w := AddViaIndirect(v, ino, fb, b);
    AddViaIndirectPtr(v, ino, fb, b);
    Repointed(v, w, ino, fb, b);
    assert v.owner[v.inodes[ino].indirect] == IndirectOf(ino);
    NewBlockSameBytes(v, w, ino, fb, b);
  }

  // ---------------------------------------------------------------------------------------
  // Writing data

  function PutBlock(v: Vol, p: nat, content: Block): Vol
    requires p < |v.disk|
  {
    v.(disk := v.disk[p := content])
  }

  /** Writing a file's data block changes that block of that file and nothing else. */
  lemma PutBlockOk(v: Vol, ino: nat, fb: nat, content: Block)
    requires Ok(v) && ino in v.inodes && fb < MAXBLOCKS && PtrOf(v, ino, fb) != 0 && |content| == BLOCKSIZE
    ensures PtrOf(v, ino, fb) < |v.disk|
    ensures Ok(PutBlock(v, PtrOf(v, ino, fb), content))
    ensures forall i, pos: nat :: i in v.inodes ==>
              FileByte(PutBlock(v, PtrOf(v, ino, fb), content), i, pos)
              == if i == ino && pos / BLOCKSIZE == fb then content[pos % BLOCKSIZE] else FileByte(v, i, pos)
  {
    var p := PtrOf(v, ino, fb);
    var w := PutBlock(v, p, content);
    assert v.owner[p] == DataOf(ino, fb);
    OtherBlockSamePtr(v, p, content);
    forall i, pos: nat | i in v.inodes
      ensures FileByte(w, i, pos) ==
                if i == ino && pos / BLOCKSIZE == fb then content[pos % BLOCKSIZE] else FileByte(v, i, pos)
    {
      if pos / BLOCKSIZE < MAXBLOCKS {
        var q := PtrOf(v, i, pos / BLOCKSIZE);
        if q != 0 {
          assert v.owner[q] == DataOf(i, pos / BLOCKSIZE);
        }
      }
    }
  }

  /** Overwriting a block that is not an indirect block moves no pointer. */
  lemma OtherBlockSamePtr(v: Vol, p: nat, content: Block)
    requires Ok(v) && p < |v.disk| && !v.owner[p].IndirectOf? && |content| == BLOCKSIZE
    ensures Ok(PutBlock(v, p, content))
    ensures forall i, f :: i in v.inodes && 0 <= f < MAXBLOCKS ==>
              PtrOf(PutBlock(v, p, content), i, f) == PtrOf(v, i, f)
  {
    var w := PutBlock(v, p, content);
    forall i | i in v.inodes && v.inodes[i].indirect != 0
      ensures w.disk[v.inodes[i].indirect] == v.disk[v.inodes[i].indirect]
    {
      assert v.owner[v.inodes[i].indirect] == IndirectOf(i);
    }
    assert Sized(w);
    forall i, f | i in v.inodes && 0 <= f < MAXBLOCKS
      ensures PtrOf(w, i, f) == PtrOf(v, i, f)
    {
    }
    assert Forward(w);
    assert Backward(w);
  }

  /** A block that holds neither data nor pointers can be overwritten without touching any file. */
  lemma PutPlainBlock(v: Vol, p: nat, content: Block)
    requires Ok(v) && p < |v.disk| && !v.owner[p].IndirectOf? && !v.owner[p].DataOf? && |content| == BLOCKSIZE
    ensures Ok(PutBlock(v, p, content)) && SameBytes(v, PutBlock(v, p, content))
    ensures forall i, f :: i in v.inodes && 0 <= f < MAXBLOCKS ==>
              PtrOf(PutBlock(v, p, content), i, f) == PtrOf(v, i, f)
  {
    OtherBlockSamePtr(v, p, content);
    DataSameBytes(v, PutBlock(v, p, content));
  }

  // ---------------------------------------------------------------------------------------
  // Attributes

  function SetMeta(v: Vol, ino: nat, i: Inode): Vol {
    v.(inodes := v.inodes[ino := i])
  }

  lemma SetMetaOk(v: Vol, ino: nat, i: Inode)
    requires Ok(v) && ino in v.inodes && i.direct == v.inodes[ino].direct && i.indirect == v.inodes[ino].indirect
    ensures Ok(SetMeta(v, ino, i)) && SameBytes(v, SetMeta(v, ino, i))
    ensures forall j, f :: j in v.inodes && 0 <= f < MAXBLOCKS ==> PtrOf(SetMeta(v, ino, i), j, f) == PtrOf(v, j, f)
  {
    var w := SetMeta(v, ino, i);
    assert Sized(w);
    forall j, f | j in v.inodes && 0 <= f < MAXBLOCKS
      ensures PtrOf(w, j, f) == PtrOf(v, j, f)
    {
    }
    SamePointers(v, w);
    DataSameBytes(v, w);
  }

  /** Ownership does not depend on attributes. */
  lemma SamePointers(v: Vol, w: Vol)
    requires Ok(v) && Sized(w) && |w.disk| == |v.disk| && w.inodes.Keys == v.inodes.Keys && w.used == v.used
    requires w.owner == v.owner
    requires forall i :: i in v.inodes ==> w.inodes[i].indirect == v.inodes[i].indirect
    requires forall i, f :: i in v.inodes && 0 <= f < MAXBLOCKS ==> PtrOf(w, i, f) == PtrOf(v, i, f)
    ensures Ok(w)
  {
    hide PtrOf;
    assert MapOk(w);
    assert Forward(w);
    assert Backward(w);
  }

  // ---------------------------------------------------------------------------------------
  // Freeing

  /** Give a block back; its contents stay until it is claimed again. */
  function Release(v: Vol, b: nat): Vol
    requires b < |v.used| && b < |v.owner|
  {
    v.(used := v.used[b := false], owner := v.owner[b := Free])
  }

  function DropDirect(v: Vol, ino: nat, fb: nat): Vol
    requires ino in v.inodes && fb < |v.inodes[ino].direct|
    requires v.inodes[ino].direct[fb] < |v.used| && v.inodes[ino].direct[fb] < |v.owner|
  {
    var i := v.inodes[ino];
    Release(v, i.direct[fb]).(inodes := v.inodes[ino := i.(direct := i.direct[fb := 0])])
  }

  function DropViaIndirect(v: Vol, ino: nat, fb: nat): Vol
    requires DiskOk(v.disk) && ino in v.inodes && Shape(v.disk, v.inodes[ino]) && NDIRECT <= fb < MAXBLOCKS
    requires v.inodes[ino].indirect != 0
    requires Ptr(v.disk, v.inodes[ino], fb) < |v.used| && Ptr(v.disk, v.inodes[ino], fb) < |v.owner|
  {
    var q := v.inodes[ino].indirect;
    Release(v, Ptr(v.disk, v.inodes[ino], fb)).(disk := v.disk[q := PutWord(v.disk[q], fb - NDIRECT, 0)])
  }

  function DropIndirect(v: Vol, ino: nat): Vol
    requires ino in v.inodes && v.inodes[ino].indirect < |v.used| && v.inodes[ino].indirect < |v.owner|
  {
    Release(v, v.inodes[ino].indirect).(inodes := v.inodes[ino := v.inodes[ino].(indirect := 0)])
  }

  /** If one pointer becomes null and its target is released, ownership stays exact. */
  lemma Unpointed(v: Vol, w: Vol, ino: nat, fb: nat)
    requires Ok(v) && Sized(w) && ino in v.inodes && fb < MAXBLOCKS && 0 < PtrOf(v, ino, fb) < |v.disk|
    requires |w.disk| == |v.disk| && w.inodes.Keys == v.inodes.Keys
    requires w.used == v.used[PtrOf(v, ino, fb) := false] && w.owner == v.owner[PtrOf(v, ino, fb) := Free]
    requires forall i :: i in v.inodes ==> w.inodes[i].indirect == v.inodes[i].indirect
    requires forall i, f :: i in v.inodes && 0 <= f < MAXBLOCKS ==>
               PtrOf(w, i, f) == if i == ino && f == fb then 0 else PtrOf(v, i, f)
    ensures Ok(w)
  {
    hide PtrOf;
    assert v.owner[PtrOf(v, ino, fb)] == DataOf(ino, fb);
    assert MapOk(w);
    assert Forward(w);
    assert Backward(w);
  }

  /** Dropping a block of one file makes that block read as zeros and touches nothing else. */
  ghost predicate BlockGone(v: Vol, w: Vol, ino: nat, fb: nat) {
    && Sized(v) && Sized(w) && v.inodes.Keys == w.inodes.Keys && ino in v.inodes
    && forall i, pos: nat :: i in v.inodes ==>
         FileByte(w, i, pos) == if i == ino && pos / BLOCKSIZE == fb then 0 else FileByte(v, i, pos)
  }

  lemma UnpointedBytes(v: Vol, w: Vol, ino: nat, fb: nat)
    requires Ok(v) && Sized(w) && ino in v.inodes && fb < MAXBLOCKS
    requires |w.disk| == |v.disk| && w.inodes.Keys == v.inodes.Keys
    requires forall i, f :: i in v.inodes && 0 <= f < MAXBLOCKS ==>
               PtrOf(w, i, f) == if i == ino && f == fb then 0 else PtrOf(v, i, f)
    requires forall p :: 0 <= p < |v.disk| && v.owner[p].DataOf? ==> w.disk[p] == v.disk[p]
    ensures BlockGone(v, w, ino, fb)
  {
    forall i, pos: nat | i in v.inodes
      ensures FileByte(w, i, pos) == if i == ino && pos / BLOCKSIZE == fb then 0 else FileByte(v, i, pos)
    {
      if pos / BLOCKSIZE < MAXBLOCKS {
        var p := PtrOf(v, i, pos / BLOCKSIZE);
        if p != 0 {
          assert v.owner[p] == DataOf(i, pos / BLOCKSIZE);
        }
      }
    }
  }

  lemma DropDirectOk(v: Vol, ino: nat, fb: nat)
    requires Ok(v) && ino in v.inodes && fb < NDIRECT && v.inodes[ino].direct[fb] != 0
    ensures v.inodes[ino].direct[fb] < |v.disk| <= |v.used| && v.used[v.inodes[ino].direct[fb]]
    ensures !ReservedBlock(v.inodes[ino].direct[fb], |v.disk|)
    ensures Ok(DropDirect(v, ino, fb)) && BlockGone(v, DropDirect(v, ino, fb), ino, fb)
    ensures forall i, f :: i in v.inodes && 0 <= f < MAXBLOCKS ==>
              PtrOf(DropDirect(v, ino, fb), i, f) == if i == ino && f == fb then 0 else PtrOf(v, i, f)
  {
    assert PtrOf(v, ino, fb) == v.inodes[ino].direct[fb];
    var w := DropDirect(v, ino, fb);
    assert Sized(w);
    forall i, f | i in v.inodes && 0 <= f < MAXBLOCKS
      ensures PtrOf(w, i, f) == if i == ino && f == fb then 0 else PtrOf(v, i, f)
    {
    }
    Unpointed(v, w, ino, fb);
    UnpointedBytes(v, w, ino, fb);
  }

  lemma DropViaIndirectPtr(v: Vol, ino: nat, fb: nat)
    requires Ok(v) && ino in v.inodes && NDIRECT <= fb < MAXBLOCKS && v.inodes[ino].indirect != 0
    requires PtrOf(v, ino, fb) != 0
    ensures PtrOf(v, ino, fb) < |v.disk| <= |v.used| && v.owner[PtrOf(v, ino, fb)] == DataOf(ino, fb)
    ensures v.owner[v.inodes[ino].indirect] == IndirectOf(ino)
    ensures Sized(DropViaIndirect(v, ino, fb))
    ensures forall i, f :: i in v.inodes && 0 <= f < MAXBLOCKS ==>
              PtrOf(DropViaIndirect(v, ino, fb), i, f) == if i == ino && f == fb then 0 else PtrOf(v, i, f)
  {
    hide Backward, MapOk;
    var w := DropViaIndirect(v, ino, fb);
    var q := v.inodes[ino].indirect;
    assert v.owner[q] == IndirectOf(ino);
    assert Sized(w);
    forall i, f | i in v.inodes && 0 <= f < MAXBLOCKS
      ensures PtrOf(w, i, f) == if i == ino && f == fb then 0 else PtrOf(v, i, f)
    {
      var qi := v.inodes[i].indirect;
      if f >= NDIRECT && qi != 0 {
        assert v.owner[qi] == IndirectOf(i);
        if i == ino {
          PutWordGet(v.disk[q], fb - NDIRECT, 0, f - NDIRECT);
        }
      }
    }
  }

  lemma DropViaIndirectOk(v: Vol, ino: nat, fb: nat)
    requires Ok(v) && ino in v.inodes && NDIRECT <= fb < MAXBLOCKS && v.inodes[ino].indirect != 0
    requires PtrOf(v, ino, fb) != 0
    ensures PtrOf(v, ino, fb) < |v.disk| <= |v.used| && v.used[PtrOf(v, ino, fb)]
    ensures !ReservedBlock(PtrOf(v, ino, fb), |v.disk|)
    ensures Ok(DropViaIndirect(v, ino, fb)) && BlockGone(v, DropViaIndirect(v, ino, fb), ino, fb)
    ensures forall i, f :: i in v.inodes && 0 <= f < MAXBLOCKS ==>
              PtrOf(DropViaIndirect(v, ino, fb), i, f) == if i == ino && f == fb then 0 else PtrOf(v, i, f)
  {
    hide Forward, Backward, PutWord, BlockGone;
    DropViaIndirectPtr(v, ino, fb);
    var w := DropViaIndirect(v, ino, fb);
    assert PtrOf(v, ino, fb) == Ptr(v.disk, v.inodes[ino], fb);
    hide PtrOf, Ptr;
    Unpointed(v, w, ino, fb);
    UnpointedBytes(v, w, ino, fb);
  }

  lemma DropIndirectPtr(v: Vol, ino: nat)
    requires Ok(v) && ino in v.inodes && v.inodes[ino].indirect != 0
    requires forall f :: NDIRECT <= f < MAXBLOCKS ==> PtrOf(v, ino, f) == 0
    ensures v.inodes[ino].indirect < |v.disk| <= |v.used| && v.owner[v.inodes[ino].indirect] == IndirectOf(ino)
    ensures Sized(DropIndirect(v, ino))
    ensures forall i, f :: i in v.inodes && 0 <= f < MAXBLOCKS ==> PtrOf(DropIndirect(v, ino), i, f) == PtrOf(v, i, f)
  {
    hide Backward, MapOk;
  }

  /** An indirect block may be released once it holds no pointer. */
  lemma DropIndirectOk(v: Vol, ino: nat)
    requires Ok(v) && ino in v.inodes && v.inodes[ino].indirect != 0
    requires forall f :: NDIRECT <= f < MAXBLOCKS ==> PtrOf(v, ino, f) == 0
    ensures v.inodes[ino].indirect < |v.disk| <= |v.used| && v.used[v.inodes[ino].indirect]
    ensures !ReservedBlock(v.inodes[ino].indirect, |v.disk|)
    ensures Ok(DropIndirect(v, ino)) && SameBytes(v, DropIndirect(v, ino))
    ensures forall i, f :: i in v.inodes && 0 <= f < MAXBLOCKS ==> PtrOf(DropIndirect(v, ino), i, f) == PtrOf(v, i, f)
  {
    hide PtrOf, SameBytes;
    DropIndirectPtr(v, ino);
    var w := DropIndirect(v, ino);
    IndirectUnpointed(v, w, ino);
    DataSameBytes(v, w);
  }

  /** What releasing an indirect block leaves. */
  ghost predicate WithoutIndirect(v: Vol, w: Vol, ino: nat) {
    && Ok(v) && ino in v.inodes && Sized(w) && v.inodes[ino].indirect != 0 && |w.disk| == |v.disk|
    && v.inodes[ino].indirect < |v.disk| <= |v.used| && v.owner[v.inodes[ino].indirect] == IndirectOf(ino)
    && w.used == v.used[v.inodes[ino].indirect := false] && w.owner == v.owner[v.inodes[ino].indirect := Free]
    && w.inodes == v.inodes[ino := v.inodes[ino].(indirect := 0)]
    && forall i, f :: i in v.inodes && 0 <= f < MAXBLOCKS ==> PtrOf(w, i, f) == PtrOf(v, i, f)
  }

  lemma IndirectUnpointed(v: Vol, w: Vol, ino: nat)
    requires WithoutIndirect(v, w, ino)
    ensures Ok(w)
  {
    hide PtrOf, Forward, Backward;
    assert MapOk(w);
    UnpointedForward(v, w, ino);
    UnpointedBackward(v, w, ino);
  }

  lemma UnpointedForward(v: Vol, w: Vol, ino: nat)
    requires WithoutIndirect(v, w, ino)
    ensures Forward(w)
  {
    hide PtrOf, MapOk, Backward;
  }

  lemma UnpointedBackward(v: Vol, w: Vol, ino: nat)
    requires WithoutIndirect(v, w, ino)
    ensures Backward(w)
  {
    hide PtrOf, MapOk, Forward;
  }

  // ---------------------------------------------------------------------------------------
  // Inodes come and go

  function AddInode(v: Vol, b: nat, i: Inode): Vol
    requires b < |v.disk| && b < |v.used| && b < |v.owner|
  {
    Claim(v, b, InodeAt(b)).(inodes := v.inodes[b := i])
  }

  function DropInode(v: Vol, ino: nat): Vol
    requires ino < |v.used| && ino < |v.owner|
  {
    Release(v, ino).(inodes := v.inodes - {ino})
  }

  predicate NoBlocks(i: Inode) {
    |i.direct| == NDIRECT && (forall k :: 0 <= k < NDIRECT ==> i.direct[k] == 0) && i.indirect == 0
  }

  lemma AddInodePtr(v: Vol, b: nat, i: Inode)
    requires FreeBlock(v, b) && NoBlocks(i)
    ensures b !in v.inodes && v.owner[b] == Free && Sized(AddInode(v, b, i))
    ensures forall j, f :: j in AddInode(v, b, i).inodes && 0 <= f < MAXBLOCKS ==>
              PtrOf(AddInode(v, b, i), j, f) == if j == b then 0 else PtrOf(v, j, f)
  {
    hide Backward;
    var w := AddInode(v, b, i);
    assert v.owner[b] == Free;
    assert Sized(w) by { assert b < |v.disk|; }
    forall j, f | j in w.inodes && 0 <= f < MAXBLOCKS
      ensures PtrOf(w, j, f) == if j == b then 0 else PtrOf(v, j, f)
    {
      if j != b && v.inodes[j].indirect != 0 {
        assert v.owner[v.inodes[j].indirect] == IndirectOf(j);
      }
    }
  }

  lemma AddInodeOwners(v: Vol, b: nat, i: Inode)
    requires FreeBlock(v, b) && NoBlocks(i) && b !in v.inodes && v.owner[b] == Free && Sized(AddInode(v, b, i))
    requires forall j, f :: j in AddInode(v, b, i).inodes && 0 <= f < MAXBLOCKS ==>
               PtrOf(AddInode(v, b, i), j, f) == if j == b then 0 else PtrOf(v, j, f)
    ensures Ok(AddInode(v, b, i))
  {
    hide PtrOf, Forward, Backward;
    assert MapOk(AddInode(v, b, i));
    AddInodeForward(v, b, i);
    AddInodeBackward(v, b, i);
  }

  lemma AddInodeForward(v: Vol, b: nat, i: Inode)
    requires FreeBlock(v, b) && NoBlocks(i) && b !in v.inodes && v.owner[b] == Free && Sized(AddInode(v, b, i))
    requires forall j, f :: j in AddInode(v, b, i).inodes && 0 <= f < MAXBLOCKS ==>
               PtrOf(AddInode(v, b, i), j, f) == if j == b then 0 else PtrOf(v, j, f)
    ensures Forward(AddInode(v, b, i))
  {
    hide PtrOf, MapOk, Backward;
  }

  lemma AddInodeBackward(v: Vol, b: nat, i: Inode)
    requires FreeBlock(v, b) && NoBlocks(i) && b !in v.inodes && v.owner[b] == Free && Sized(AddInode(v, b, i))
    requires forall j, f :: j in AddInode(v, b, i).inodes && 0 <= f < MAXBLOCKS ==>
               PtrOf(AddInode(v, b, i), j, f) == if j == b then 0 else PtrOf(v, j, f)
    ensures Backward(AddInode(v, b, i))
  {
    hide PtrOf, MapOk, Forward;
  }

  /** A new inode without blocks owns just its own block, and every other file is untouched. */
  lemma AddInodeOk(v: Vol, b: nat, i: Inode)
    requires FreeBlock(v, b) && NoBlocks(i)
    ensures b !in v.inodes && Ok(AddInode(v, b, i))
    ensures forall j, pos: nat :: j in v.inodes ==> FileByte(AddInode(v, b, i), j, pos) == FileByte(v, j, pos)
    ensures forall pos: nat :: FileByte(AddInode(v, b, i), b, pos) == 0
  {
    hide PtrOf, Backward, MapOk;
    AddInodePtr(v, b, i);
    AddInodeOwners(v, b, i);
    var w := AddInode(v, b, i);
    forall j, pos: nat | j in v.inodes
      ensures FileByte(w, j, pos) == FileByte(v, j, pos)
    {
      if pos / BLOCKSIZE < MAXBLOCKS {
        var p := PtrOf(v, j, pos / BLOCKSIZE);
        if p != 0 {
          assert v.owner[p] == DataOf(j, pos / BLOCKSIZE);
        }
      }
    }
  }

  lemma DropInodePtr(v: Vol, ino: nat)
    requires Ok(v) && ino in v.inodes && NoBlocks(v.inodes[ino])
    ensures ino < |v.disk| <= |v.used| && v.owner[ino] == InodeAt(ino) && Sized(DropInode(v, ino))
    ensures forall f :: 0 <= f < MAXBLOCKS ==> PtrOf(v, ino, f) == 0
    ensures forall j, f :: j in DropInode(v, ino).inodes && 0 <= f < MAXBLOCKS ==>
              PtrOf(DropInode(v, ino), j, f) == PtrOf(v, j, f)
  {
    hide Backward, MapOk;
  }

  lemma DropInodeOwners(v: Vol, ino: nat)
    requires Ok(v) && ino in v.inodes && NoBlocks(v.inodes[ino])
    requires ino < |v.disk| <= |v.used| && v.owner[ino] == InodeAt(ino) && Sized(DropInode(v, ino))
    requires forall f :: 0 <= f < MAXBLOCKS ==> PtrOf(v, ino, f) == 0
    requires forall j, f :: j in DropInode(v, ino).inodes && 0 <= f < MAXBLOCKS ==>
               PtrOf(DropInode(v, ino), j, f) == PtrOf(v, j, f)
    ensures Ok(DropInode(v, ino))
  {
    hide PtrOf, Forward, Backward;
    assert MapOk(DropInode(v, ino)) && v.owner[0] == Reserved;
    DropInodeForward(v, ino);
    DropInodeBackward(v, ino);
  }

  lemma DropInodeForward(v: Vol, ino: nat)
    requires Ok(v) && ino in v.inodes && NoBlocks(v.inodes[ino])
    requires ino < |v.disk| <= |v.used| && v.owner[ino] == InodeAt(ino) && Sized(DropInode(v, ino))
    requires forall j, f :: j in DropInode(v, ino).inodes && 0 <= f < MAXBLOCKS ==>
               PtrOf(DropInode(v, ino), j, f) == PtrOf(v, j, f)
    ensures Forward(DropInode(v, ino))
  {
    hide PtrOf, MapOk, Backward;
  }

  lemma DropInodeBackward(v: Vol, ino: nat)
    requires |v.owner| > 0 && v.owner[0] == Reserved
    requires Ok(v) && ino in v.inodes && NoBlocks(v.inodes[ino])
    requires ino < |v.disk| <= |v.used| && v.owner[ino] == InodeAt(ino) && Sized(DropInode(v, ino))
    requires forall f :: 0 <= f < MAXBLOCKS ==> PtrOf(v, ino, f) == 0
    requires forall j, f :: j in DropInode(v, ino).inodes && 0 <= f < MAXBLOCKS ==>
               PtrOf(DropInode(v, ino), j, f) == PtrOf(v, j, f)
    ensures Backward(DropInode(v, ino))
  {
    hide PtrOf, MapOk, Forward;
  }

  /** An inode without blocks can be discarded: its block becomes free, other files are untouched. */
  lemma DropInodeOk(v: Vol, ino: nat)
    requires Ok(v) && ino in v.inodes && NoBlocks(v.inodes[ino])
    ensures ino < |v.disk| <= |v.used| && v.used[ino] && !ReservedBlock(ino, |v.disk|)
    ensures Ok(DropInode(v, ino))
    ensures forall j, pos: nat :: j in v.inodes && j != ino ==>
              FileByte(DropInode(v, ino), j, pos) == FileByte(v, j, pos)
  {
    hide PtrOf, Forward, Backward;
    DropInodePtr(v, ino);
    DropInodeOwners(v, ino);
  }

  // ---------------------------------------------------------------------------------------
  // Conservation, said without the owner table

  ghost predicate Owns(v: Vol, ino: nat, b: nat)
    requires Sized(v)
  {
    && ino in v.inodes && b != 0
    && (b == v.inodes[ino].indirect || exists fb :: 0 <= fb < MAXBLOCKS && PtrOf(v, ino, fb) == b)
  }

  /** A block on the disk is marked exactly when it is reserved, an inode, or a block of some inode. */
  lemma MarkedIffOwned(v: Vol, b: nat)
    requires Ok(v) && b < |v.disk|
    ensures v.used[b] <==> ReservedBlock(b, |v.disk|) || b in v.inodes || exists ino :: Owns(v, ino, b)
  {
    if v.used[b] {
      match v.owner[b] {
        case DataOf(i, fb) => assert b != 0; assert PtrOf(v, i, fb) == b; assert Owns(v, i, b);
        case IndirectOf(i) => assert b != 0; assert Owns(v, i, b);
        case _ =>
      }
    } else if ino :| Owns(v, ino, b) {
      OwnsMeans(v, ino, b);
    }
  }

  lemma OwnsMeans(v: Vol, ino: nat, b: nat)
    requires Ok(v) && Owns(v, ino, b)
    ensures b < |v.disk| && (v.owner[b] == IndirectOf(ino) || (v.owner[b].DataOf? && v.owner[b].ino == ino))
  {
    if b != v.inodes[ino].indirect {
      var fb :| 0 <= fb < MAXBLOCKS && PtrOf(v, ino, fb) == b;
    }
  }

  /** No block has two owners, is pointed to twice, or is an inode or reserved as well. */
  lemma OneOwner(v: Vol, i: nat, j: nat, b: nat)
    requires Ok(v) && Owns(v, i, b) && Owns(v, j, b)
    ensures i == j && b !in v.inodes && !ReservedBlock(b, |v.disk|)
    ensures forall f, g :: 0 <= f < MAXBLOCKS && 0 <= g < MAXBLOCKS && PtrOf(v, i, f) == b && PtrOf(v, i, g) == b ==>
              f == g
  {
    OwnsMeans(v, i, b);
    OwnsMeans(v, j, b);
    forall f, g | 0 <= f < MAXBLOCKS && 0 <= g < MAXBLOCKS && PtrOf(v, i, f) == b && PtrOf(v, i, g) == b
      ensures f == g
    {
      assert v.owner[b] == DataOf(i, f) && v.owner[b] == DataOf(i, g);
    }
  }
}
