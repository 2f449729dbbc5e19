/**
 mksfs: the image it writes is a mountable, empty file system.
 */
module Mksfs {
  import opened SfsLayout
  import opened SfsVolume
  import opened SfsSpace
  import opened SfsFile
  import opened SfsContents
  import opened SfsDir
  import opened SfsOps
  import opened SfsNames
  import opened SfsMount
  import Bitmap

  const MAXBITBLOCKS := 32
  const VOLNAME_SIZE := 32

  // ---------------------------------------------------------------------------------------
  // The bits that are marked

  /** The blocks in use in an empty file system, and everything past the end of the disk. */
  predicate Taken(n: nat, b: nat) {
    b == 0 || b == ROOT || MAP_LOCATION <= b < MAP_LOCATION + BitBlocks(n) || b >= n
  }

  function Range(lo: nat, hi: nat): (s: seq<nat>)
    requires lo <= hi
    ensures |s| == hi - lo && forall k :: 0 <= k < |s| ==> s[k] == lo + k
    decreases hi
  {
    if lo == hi then [] else Range(lo, hi - 1) + [hi - 1]
  }

  /** The bits in the order they are marked. */
  function MarkOrder(n: nat): seq<nat> {
    RoundedUp(n);
    [0, ROOT] + Range(MAP_LOCATION, MAP_LOCATION + BitBlocks(n)) + Range(n, BLOCKBITS * BitBlocks(n))
  }

  lemma RoundedUp(n: nat)
    ensures n <= BLOCKBITS * BitBlocks(n) < n + BLOCKBITS
  {
  }

  predicate Distinct(s: seq<nat>) {
    forall i, j :: 0 <= i < j < |s| ==> s[i] != s[j]
  }

  lemma EnoughRoom(n: nat)
    ensures n >= 3 <==> n > 0 && MAP_LOCATION + BitBlocks(n) <= n
  {
  }

  /** Marking asserts that each bit is still clear: that holds unless the device has one or two blocks. */
  lemma MarkedOnce(n: nat)
    ensures Distinct(MarkOrder(n)) <==> n == 0 || n >= 3
  {
    EnoughRoom(n);
    RoundedUp(n);
    var s := MarkOrder(n);
    if n == 1 || n == 2 {
      assert BitBlocks(n) == 1;
      assert s[2] == MAP_LOCATION && s[3] == n;
      assert s[3 + (2 - n)] == MAP_LOCATION;
    } else {
      forall i, j | 0 <= i < j < |s| ensures s[i] != s[j] {
      }
    }
  }

  /** doallocbit, with the outcome of its assertion. */
  method DoAllocBit(bitbuf: array<bv8>, bit: nat) returns (ok: bool)
    requires bit < 8 * bitbuf.Length
    modifies bitbuf
    ensures ok <==> !Bitmap.Bits(old(bitbuf[..]))[bit]
    ensures Bitmap.Bits(bitbuf[..]) == Bitmap.Bits(old(bitbuf[..]))[bit := true]
  {
    hide Bitmap.Bits, Bitmap.BitSet, Bitmap.Mask;
    var byte := bit / 8;
    var mask := Bitmap.Mask(bit % 8);
    ghost var was := bitbuf[..];
    Bitmap.BitIs(was, bit);
    if bitbuf[byte] & mask != 0 {
      assert Bitmap.Bits(was)[bit := true] == Bitmap.Bits(was);
      return false;
    }
    Bitmap.MarkBits(was, byte, bit % 8);
    bitbuf[byte] := bitbuf[byte] | mask;
    assert bitbuf[..] == was[byte := was[byte] | mask];
    ok := true;
  }

  ghost predicate Marked(bits: seq<bool>, low: nat, from: nat, upto: nat) {
    forall i :: 0 <= i < |bits| ==> (bits[i] <==> i < low || from <= i < upto)
  }

  lemma MarkNext(bits: seq<bool>, low: nat, from: nat, upto: nat)
    requires Marked(bits, low, from, upto) && upto < |bits| && low <= from <= upto
    ensures !bits[upto] && Marked(bits[upto := true], low, from, upto + 1)
  {
  }

  lemma MarkLow(bits: seq<bool>, low: nat)
    requires Marked(bits, low, 0, 0) && low < |bits|
    ensures !bits[low] && Marked(bits[low := true], low + 1, 0, 0)
  {
  }

  lemma Cleared(buf: seq<bv8>)
    requires forall k :: 0 <= k < |buf| ==> buf[k] == 0
    ensures Marked(Bitmap.Bits(buf), 0, 0, 0)
  {
    hide Bitmap.Mask;
    forall i | 0 <= i < 8 * |buf| ensures !Bitmap.Bits(buf)[i] {
      NoBits();
    }
  }

  /**
   The first half of writebitmap: superblock, root, the map itself, and what the disk does not have.
   An assertion fails exactly on a device of one or two blocks.
   */
  method FillBits(fsblocks: nat) returns (ok: bool, bitbuf: array<bv8>)
    requires BitBlocks(fsblocks) <= MAXBITBLOCKS
    ensures ok <==> fsblocks == 0 || fsblocks >= 3
    ensures fresh(bitbuf) && bitbuf.Length == MAXBITBLOCKS * BLOCKSIZE
    ensures ok ==> forall i :: 0 <= i < BLOCKBITS * BitBlocks(fsblocks) ==>
              (Bitmap.Bits(bitbuf[..])[i] <==> Taken(fsblocks, i))
  {
    hide Bitmap.Bits, Marked;
    bitbuf := new bv8[MAXBITBLOCKS * BLOCKSIZE](_ => 0);
    Cleared(bitbuf[..]);
    EnoughRoom(fsblocks);
    RoundedUp(fsblocks);
    var nbits, nblocks := BLOCKBITS * BitBlocks(fsblocks), BitBlocks(fsblocks);
    assert nbits <= 8 * bitbuf.Length;
    MarkLow(Bitmap.Bits(bitbuf[..]), 0);
    ok := DoAllocBit(bitbuf, 0);
    MarkLow(Bitmap.Bits(bitbuf[..]), ROOT);
    ok := DoAllocBit(bitbuf, ROOT);
    for i := 0 to nblocks
      invariant ok && fresh(bitbuf) && Marked(Bitmap.Bits(bitbuf[..]), MAP_LOCATION + i, 0, 0)
    {
      MarkLow(Bitmap.Bits(bitbuf[..]), MAP_LOCATION + i);
      ok := DoAllocBit(bitbuf, MAP_LOCATION + i);
    }
    NoneAbove(Bitmap.Bits(bitbuf[..]), MAP_LOCATION + nblocks, fsblocks);
    for i := fsblocks to nbits
      invariant ok && fresh(bitbuf) && (i == fsblocks || MAP_LOCATION + nblocks <= fsblocks)
      invariant Marked(Bitmap.Bits(bitbuf[..]), MAP_LOCATION + nblocks, fsblocks, i)
    {
      if fsblocks < MAP_LOCATION + nblocks {
        LowMarked(Bitmap.Bits(bitbuf[..]), MAP_LOCATION + nblocks, i);
      } else {
        MarkNext(Bitmap.Bits(bitbuf[..]), MAP_LOCATION + nblocks, fsblocks, i);
      }
      ok := DoAllocBit(bitbuf, i);
      if !ok {
        return;
      }
    }
    if fsblocks >= 3 {
      MarkedIsTaken(Bitmap.Bits(bitbuf[..]), fsblocks);
    }
  }

  lemma LowMarked(bits: seq<bool>, low: nat, i: nat)
    requires Marked(bits, low, i, i) && i < low && i < |bits|
    ensures bits[i]
  {
  }

  lemma NoneAbove(bits: seq<bool>, low: nat, from: nat)
    requires Marked(bits, low, 0, 0)
    ensures Marked(bits, low, from, from)
  {
  }

  lemma MarkedIsTaken(bits: seq<bool>, n: nat)
    requires n >= 3 && |bits| >= BLOCKBITS * BitBlocks(n)
    requires Marked(bits, MAP_LOCATION + BitBlocks(n), n, BLOCKBITS * BitBlocks(n))
    ensures forall i :: 0 <= i < BLOCKBITS * BitBlocks(n) ==> (bits[i] <==> Taken(n, i))
  {
    EnoughRoom(n);
    RoundedUp(n);
  }

  function Bytes(s: seq<bv8>): (b: seq<Byte>)
    ensures |b| == |s| && forall k :: 0 <= k < |s| ==> b[k] as bv8 == s[k]
  {
    if s == [] then [] else Bytes(s[..|s| - 1]) + [s[|s| - 1] as Byte]
  }

  /** A block's worth of the buffer, as bytes. */
  function BufBlock(buf: seq<bv8>, j: nat): (b: Block)
    requires BLOCKSIZE * j + BLOCKSIZE <= |buf|
    ensures |b| == BLOCKSIZE
  {
    Bytes(buf[BLOCKSIZE * j..BLOCKSIZE * j + BLOCKSIZE])
  }

  lemma BufMap(disk: seq<Block>, buf: seq<bv8>, blocks: nat)
    requires DiskOk(disk) && MAP_LOCATION + blocks <= |disk| && BLOCKSIZE * blocks <= |buf|
    requires forall j :: 0 <= j < blocks ==> disk[MAP_LOCATION + j] == BufBlock(buf, j)
    ensures MapOnDisk(disk, Bitmap.Bits(buf)[..BLOCKBITS * blocks], blocks)
  {
    hide Bitmap.Bits, BufBlock, MapBit;
    var bits := Bitmap.Bits(buf)[..BLOCKBITS * blocks];
    forall i: nat | i < |bits| ensures MAP_LOCATION + i / BLOCKBITS < |disk| && (MapBit(disk, i) <==> bits[i]) {
      BufMapBit(disk, buf, blocks, i);
    }
  }

  lemma BufMapBit(disk: seq<Block>, buf: seq<bv8>, blocks: nat, i: nat)
    requires DiskOk(disk) && MAP_LOCATION + blocks <= |disk| && BLOCKSIZE * blocks <= |buf| && i < BLOCKBITS * blocks
    requires forall j :: 0 <= j < blocks ==> disk[MAP_LOCATION + j] == BufBlock(buf, j)
    ensures MAP_LOCATION + i / BLOCKBITS < |disk| && i < 8 * |buf| && (MapBit(disk, i) <==> Bitmap.Bits(buf)[i])
  {
    hide Bitmap.BitSet, Bitmap.Bits, BufBlock;
    assert disk[MAP_LOCATION + i / BLOCKBITS] == BufBlock(buf, i / BLOCKBITS);
    BufBit(buf, i);
  }

  lemma BufBit(buf: seq<bv8>, i: nat)
    requires BLOCKSIZE * (i / BLOCKBITS) + BLOCKSIZE <= |buf|
    ensures i / 8 < |buf| && i % BLOCKBITS / 8 < BLOCKSIZE
    ensures Bitmap.BitSet(BufBlock(buf, i / BLOCKBITS)[i % BLOCKBITS / 8] as bv8, i % 8) <==> Bitmap.Bits(buf)[i]
  {
    hide Bitmap.BitSet, Bitmap.Bits, BufBlock;
    SameByte(i);
    BufByte(buf, i / BLOCKBITS, i % BLOCKBITS / 8);
    Bitmap.BitIs(buf, i);
  }

  lemma BufByte(buf: seq<bv8>, j: nat, k: nat)
    requires BLOCKSIZE * j + BLOCKSIZE <= |buf| && k < BLOCKSIZE
    ensures BufBlock(buf, j)[k] as bv8 == buf[BLOCKSIZE * j + k]
  {
    assert buf[BLOCKSIZE * j..BLOCKSIZE * j + BLOCKSIZE][k] == buf[BLOCKSIZE * j + k];
  }

  lemma SameByte(i: nat)
    ensures i / 8 == BLOCKSIZE * (i / BLOCKBITS) + i % BLOCKBITS / 8
  {
  }

  datatype Outcome = NameTooLong | NoSuchBlock | TooLarge | MarkedTwice | Made

  /** writebitmap: the map on the disk marks exactly what is in use, or the device is too large or too small. */
  method WriteBitmap(disk: seq<Block>) returns (r: Outcome, d: seq<Block>, ghost bits: seq<bool>)
    requires DiskOk(disk)
    ensures r == if BitBlocks(|disk|) > MAXBITBLOCKS then TooLarge else if 1 <= |disk| <= 2 then MarkedTwice else Made
    ensures |d| == |disk| && DiskOk(d) && forall b :: 0 <= b < |d| && b < MAP_LOCATION ==> d[b] == disk[b]
    ensures r == Made && |disk| > 0 ==> MAP_LOCATION + BitBlocks(|disk|) <= |d| && MapOnDisk(d, bits, BitBlocks(|disk|))
    ensures r == Made ==> forall i :: 0 <= i < |bits| ==> (bits[i] <==> Taken(|disk|, i))
  {
    hide MapOnDisk, Bitmap.Bits, BufBlock;
    d, bits := disk, [];
    var nblocks := BitBlocks(|disk|);
    if nblocks > MAXBITBLOCKS {
      return TooLarge, d, bits;
    }
    EnoughRoom(|disk|);
    var ok, bitbuf := FillBits(|disk|);
    if !ok {
      return MarkedTwice, d, bits;
    }
    for i := 0 to nblocks
      invariant |d| == |disk| && DiskOk(d) && forall b :: 0 <= b < |d| && b < MAP_LOCATION ==> d[b] == disk[b]
      invariant forall j :: 0 <= j < i ==> d[MAP_LOCATION + j] == BufBlock(bitbuf[..], j)
    {
      d := d[MAP_LOCATION + i := BufBlock(bitbuf[..], i)];
    }
    if nblocks > 0 {
      BufMap(d, bitbuf[..], nblocks);
    }
    r, bits := Made, Bitmap.Bits(bitbuf[..])[..BLOCKBITS * nblocks];
  }

  // ---------------------------------------------------------------------------------------
  // The image

  function RootInode(): Inode {
    Inode(0, TYPE_DIR, 1, seq(NDIRECT, _ => 0), 0)
  }

  /** Who owns the blocks of an empty file system of `n` blocks. */
  function EmptyOwner(n: nat): (o: seq<Owner>)
    ensures |o| == n
  {
    seq(n, b requires 0 <= b < n =>
      if b == ROOT then InodeAt(ROOT) else if ReservedBlock(b, n) then Reserved else Free)
  }

  ghost function EmptyVol(disk: seq<Block>, bits: seq<bool>): Vol {
    Vol(disk, bits, map[ROOT := RootInode()], EmptyOwner(|disk|))
  }

  /**
   A disk with the root inode and the map of mksfs is a file system with no names and no blocks in use but its own.
   */
  lemma EmptyIsOk(disk: seq<Block>, bits: seq<bool>)
    requires DiskOk(disk) && |disk| >= 3 && |bits| == BLOCKBITS * BitBlocks(|disk|)
    requires forall i :: 0 <= i < |bits| ==> (bits[i] <==> Taken(|disk|, i))
    ensures Ok(EmptyVol(disk, bits))
  {
    EnoughRoom(|disk|);
    RoundedUp(|disk|);
    var v := EmptyVol(disk, bits);
    assert Sized(v);
    assert MapOk(v);
    forall fb | 0 <= fb < MAXBLOCKS ensures PtrOf(v, ROOT, fb) == 0 {
    }
  }

  /** A consistent file system with nothing in memory and no name in its directory. */
  ghost predicate EmptyFs(v: Vol) {
    FsOk(v, map[]) && Table(v) == []
  }

  lemma EmptyIsMountable(disk: seq<Block>, bits: seq<bool>)
    requires DiskOk(disk) && |disk| >= 3 && |bits| == BLOCKBITS * BitBlocks(|disk|)
    requires forall i :: 0 <= i < |bits| ==> (bits[i] <==> Taken(|disk|, i))
    requires InodeFits(RootInode()) && disk[ROOT] == EncodeInode(RootInode())
    ensures EmptyFs(EmptyVol(disk, bits))
  {
    hide MapOk, Forward, Backward, EncodeInode;
    EmptyIsOk(disk, bits);
    var v := EmptyVol(disk, bits);
    assert Content(v, ROOT) == [];
    EmptyIsClean(v);
  }

  lemma EmptyIsClean(v: Vol)
    requires Ok(v) && v.inodes == map[ROOT := RootInode()]
    ensures AllClean(v)
  {
    hide MapOk, Forward, Backward;
    forall pos: nat ensures FileByte(v, ROOT, pos) == 0 {
    }
  }

  /** writesuper's block: magic number, size, volume name, zeros. */
  function SuperBlock(n: nat, volname: CString): (b: Block)
    requires n < WORD && |volname| < VOLNAME_SIZE
    ensures |b| == BLOCKSIZE
  {
    WordBytes(MAGIC) + WordBytes(n) + volname + Zeros(BLOCKSIZE - 8 - |volname|)
  }

  lemma SuperReadBack(n: nat, volname: CString)
    requires n < WORD && |volname| < VOLNAME_SIZE
    ensures Word(SuperBlock(n, volname), 0) == MAGIC && Word(SuperBlock(n, volname), 1) == n
    ensures SuperBlock(n, volname)[8..8 + |volname|] == volname && SuperBlock(n, volname)[8 + |volname|] == 0
  {
    var b := SuperBlock(n, volname);
    WordRoundTrip(MAGIC);
    WordRoundTrip(n);
    assert b[..4] == WordBytes(MAGIC) && b[4..8] == WordBytes(n);
    SameWord(b, 0);
    SameWord(b, 1);
  }

  /** The superblock byte by byte: magic number, size, the volume name padded with NULs, zeros. */
  lemma SuperBytes(n: nat, volname: CString)
    requires n < WORD && |volname| < VOLNAME_SIZE
    ensures var b := SuperBlock(n, volname);
            && |b| == 512 && b[0..4] == [0xab, 0xad, 0xf0, 0x01] && Big32(b, 4, n) && b[8..8 + |volname|] == volname
            && forall j :: 8 + |volname| <= j < 512 ==> b[j] == 0
  {
    hide Big32;
    var b := SuperBlock(n, volname);
    assert b[4..8] == WordBytes(n);
    Placed(b, 4, n);
    assert WordBytes(MAGIC) == [0xab, 0xad, 0xf0, 0x01];
  }

  lemma SameWord(b: seq<Byte>, i: nat)
    requires 4 * i + 4 <= |b|
    ensures Word(b, i) == Word(b[4 * i..4 * i + 4], 0)
  {
  }

  /**
   mksfs: exactly if the name is short enough and the device has at least three blocks and not too
   many, an image is made, and it mounts as a consistent, empty file system.
   */
  method MakeFs(disk: seq<Block>, volname: CString) returns (r: Outcome, d: seq<Block>)
    requires DiskOk(disk) && |disk| < WORD
    ensures r == if |volname| >= VOLNAME_SIZE then NameTooLong else if |disk| < 2 then NoSuchBlock
                 else if |disk| == 2 then MarkedTwice else if BitBlocks(|disk|) > MAXBITBLOCKS then TooLarge else Made
    ensures r == Made ==> |d| == |disk| && DiskOk(d) && SuperOk(d) && d[0] == SuperBlock(|disk|, volname)
    ensures r == Made ==> forall bits :: MapOnDisk(d, bits, BitBlocks(|d|)) ==> EmptyFs(EmptyVol(d, bits))
  {
    hide MapOnDisk, EncodeInode, Word, SuperBlock, EmptyFs, EmptyVol;
    d := disk;
    if |volname| >= VOLNAME_SIZE {
      return NameTooLong, d;
    }
    SuperReadBack(|disk|, volname);
    if |d| == 0 {
      return NoSuchBlock, d;
    }
    d := d[0 := SuperBlock(|disk|, volname)];
    if |d| <= ROOT {
      return NoSuchBlock, d;
    }
    d := d[ROOT := EncodeInode(RootInode())];
    ghost var bits;
    r, d, bits := WriteBitmap(d);
    if r != Made {
      return;
    }
    forall other | MapOnDisk(d, other, BitBlocks(|d|))
      ensures EmptyFs(EmptyVol(d, other))
    {
      MapDetermined(d, bits, other, BitBlocks(|d|));
      MapLength(d, bits, BitBlocks(|d|));
      EmptyIsMountable(d, bits);
    }
  }

  lemma MapLength(disk: seq<Block>, bits: seq<bool>, blocks: nat)
    requires MapOnDisk(disk, bits, blocks)
    ensures |bits| == BLOCKBITS * blocks
  {
  }

  /** What mksfs makes, a mount accepts. */
  method MakeAndMount(disk: seq<Block>, volname: CString) returns (err: Err, fs: Sfs?)
    requires DiskOk(disk) && 3 <= |disk| < WORD && |volname| < VOLNAME_SIZE && BitBlocks(|disk|) <= MAXBITBLOCKS
    ensures err == OK && fs != null && fresh(fs) && fs.vnodes == map[]
    ensures EmptyFs(fs.V()) && fs.inodes == map[ROOT := RootInode()]
  {
    hide MapOnDisk, Word, EmptyFs;
    var r, d := MakeFs(disk, volname);
    EnoughRoom(|d|);
    err, fs := Mount(d, map[ROOT := RootInode()], EmptyOwner(|d|));
    assert fs.V() == EmptyVol(d, fs.freemap);
  }

  function Interval(lo: nat, hi: nat): (r: set<nat>)
    requires lo <= hi
    ensures |r| == hi - lo && forall b: nat :: b in r <==> lo <= b < hi
    decreases hi
  {
    if lo == hi then {} else Interval(lo, hi - 1) + {hi - 1}
  }

  /** All blocks of a new volume are free but the superblock, the root inode and the map. */
  lemma FreshRoom(disk: seq<Block>, bits: seq<bool>)
    requires |disk| >= 3 && |bits| == BLOCKBITS * BitBlocks(|disk|)
    requires forall i :: 0 <= i < |bits| ==> (bits[i] <==> Taken(|disk|, i))
    ensures Room(EmptyVol(disk, bits)) == |disk| - MAP_LOCATION - BitBlocks(|disk|)
  {
    var n, low := |disk|, MAP_LOCATION + BitBlocks(|disk|);
    EnoughRoom(n);
    RoundedUp(n);
    assert FreeSet(bits) == Interval(low, n);
  }

  /** On a volume without files, a file can be created exactly if its name fits and two blocks are free. */
  lemma FreshCreate(v: Vol, name: CString)
    requires EmptyFs(v) && Sized(v) && v.inodes == map[ROOT := RootInode()]
    ensures CreateErr(v, name) == if Room(v) == 0 then ENOSPC else if |name| > 59 then ENAMETOOLONG
                                  else if Room(v) == 1 then ENOSPC else OK
  {
    hide Sized, Need, Room, Table, FsOkBut, Content;
    FsOkValid(v, map[], 0, 0);
    assert SlotFor(Table(v)) == 0 && !NoSlot(Table(v)) && !Present(Table(v), name);
    EntryNeedIs(v);
    NoPointers(v);
  }

  lemma NoPointers(v: Vol)
    requires Sized(v) && v.inodes == map[ROOT := RootInode()]
    ensures PtrOf(v, ROOT, 0) == 0
  {
  }
}
