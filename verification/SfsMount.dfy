/**
 Syncing and mounting an SFS: the free map as bits on the disk, and the round trip from a
 file system in memory through the disk and back.
 */
module SfsMount {
  import opened SfsLayout
  import opened SfsVolume
  import opened SfsFile
  import opened SfsDir
  import opened SfsOps
  import Bitmap

  const MAGIC := 0xabad_f001

  // ---------------------------------------------------------------------------------------
  // The free map on the disk

  /** Bit `i` of the map: eight to a byte, lowest first, from block 2 on. */
  predicate MapBit(disk: seq<Block>, i: nat)
    requires DiskOk(disk) && MAP_LOCATION + i / BLOCKBITS < |disk|
  {
    Bitmap.BitSet(disk[MAP_LOCATION + i / BLOCKBITS][i % BLOCKBITS / 8] as bv8, i % 8)
  }

  ghost predicate MapOnDisk(disk: seq<Block>, bits: seq<bool>, blocks: nat) {
    && DiskOk(disk) && MAP_LOCATION + blocks <= |disk| && |bits| == BLOCKBITS * blocks
    && forall i :: 0 <= i < |bits| ==> (MapBit(disk, i) <==> bits[i])
  }

  /** Eight bits as a byte. */
  function Pack(s: seq<bool>, n: nat): (w: bv8)
    requires n <= |s| && n <= 8
    ensures forall j :: 0 <= j < 8 ==> (Bitmap.BitSet(w, j) <==> j < n && s[j])
  {
    if n == 0 then NoBits(); 0
    else if s[n - 1] then PackMore(Pack(s, n - 1), s, n); Pack(s, n - 1) | Bitmap.Mask(n - 1)
    else Pack(s, n - 1)
  }

  lemma NoBits()
    ensures forall j :: 0 <= j < 8 ==> !Bitmap.BitSet(0, j)
  {
    forall j | 0 <= j < 8 ensures !Bitmap.BitSet(0, j) {
      Bitmap.MaskValue(j);
    }
  }

  lemma PackMore(w: bv8, s: seq<bool>, n: nat)
    requires 0 < n <= |s| && n <= 8 && s[n - 1]
    requires forall j :: 0 <= j < 8 ==> (Bitmap.BitSet(w, j) <==> j < n - 1 && s[j])
    ensures forall j :: 0 <= j < 8 ==> (Bitmap.BitSet(w | Bitmap.Mask(n - 1), j) <==> j < n && s[j])
  {
    forall j | 0 <= j < 8 ensures Bitmap.BitSet(w | Bitmap.Mask(n - 1), j) <==> j < n && s[j] {
      Bitmap.OrSets(w, n - 1, j);
    }
  }

  function PackByte(bits: seq<bool>, at: nat): Byte
    requires at + 8 <= |bits|
  {
    Pack(bits[at..at + 8], 8) as Byte
  }

  function MapBlock(bits: seq<bool>, j: nat): (b: Block)
    requires BLOCKBITS * j + BLOCKBITS <= |bits|
    ensures |b| == BLOCKSIZE
  {
    seq(BLOCKSIZE, k requires 0 <= k < BLOCKSIZE => PackByte(bits, BLOCKBITS * j + 8 * k))
  }

  lemma BitPosition(i: nat)
    ensures i == BLOCKBITS * (i / BLOCKBITS) + 8 * (i % BLOCKBITS / 8) + i % 8 && i % BLOCKBITS / 8 < BLOCKSIZE
  {
  }

  lemma PackedBit(bits: seq<bool>, i: nat)
    requires i < |bits| && |bits| % BLOCKBITS == 0
    ensures BLOCKBITS * (i / BLOCKBITS) + BLOCKBITS <= |bits|
    ensures Bitmap.BitSet(MapBlock(bits, i / BLOCKBITS)[i % BLOCKBITS / 8] as bv8, i % 8) <==> bits[i]
  {
    BitPosition(i);
    var at := BLOCKBITS * (i / BLOCKBITS) + 8 * (i % BLOCKBITS / 8);
    var w := Pack(bits[at..at + 8], 8);
    assert MapBlock(bits, i / BLOCKBITS)[i % BLOCKBITS / 8] == w as Byte;
    assert (w as Byte) as bv8 == w;
    assert bits[at..at + 8][i % 8] == bits[i];
  }

  /** A disk that holds the packed blocks of the map holds the map. */
  lemma PackedMap(disk: seq<Block>, bits: seq<bool>, blocks: nat)
    requires DiskOk(disk) && MAP_LOCATION + blocks <= |disk| && |bits| == BLOCKBITS * blocks
    requires forall j :: 0 <= j < blocks ==> disk[MAP_LOCATION + j] == MapBlock(bits, j)
    ensures MapOnDisk(disk, bits, blocks)
  {
    hide Bitmap.BitSet, MapBlock;
    forall i | 0 <= i < |bits| ensures MapBit(disk, i) <==> bits[i] {
      PackedBit(bits, i);
      assert disk[MAP_LOCATION + i / BLOCKBITS] == MapBlock(bits, i / BLOCKBITS);
    }
  }

  /** Writing a block of the map touches no inode, no file and no name. */
  lemma MapWriteOk(v: Vol, vn: map<nat, Vnode>, j: nat, b: Block)
    requires FsOk(v, vn) && Sized(v) && j < BitBlocks(|v.disk|) && |b| == BLOCKSIZE
    ensures FsOk(PutBlock(v, MAP_LOCATION + j, b), vn) && SameBytes(v, PutBlock(v, MAP_LOCATION + j, b))
    ensures ROOT in v.inodes && Table(PutBlock(v, MAP_LOCATION + j, b)) == Table(v)
  {
    hide MapOk, Forward, Backward, CoreOk, FileByte, Tree, Table, SameBytes;
    TreeSized(v);
    MapIsReserved(v, j);
    var w := PutBlock(v, MAP_LOCATION + j, b);
    PutPlainBlock(v, MAP_LOCATION + j, b);
    SameTree(v, w);
    MapWriteCore(v, vn, j, b);
  }

  lemma MapIsReserved(v: Vol, j: nat)
    requires Ok(v) && j < BitBlocks(|v.disk|)
    ensures v.owner[MAP_LOCATION + j] == Reserved && MAP_LOCATION + j !in v.inodes
  {
    hide Backward;
  }

  lemma MapWriteCore(v: Vol, vn: map<nat, Vnode>, j: nat, b: Block)
    requires Sized(v) && CoreOk(v, vn) && j < BitBlocks(|v.disk|) && MAP_LOCATION + j !in v.inodes
    requires Sized(PutBlock(v, MAP_LOCATION + j, b))
    ensures CoreOk(PutBlock(v, MAP_LOCATION + j, b), vn)
  {
    hide EncodeInode, InodeFits;
  }

  lemma SameBytesTrans(v: Vol, w: Vol, x: Vol)
    requires SameBytes(v, w) && SameBytes(w, x)
    ensures SameBytes(v, x)
  {
    hide Sized, FileByte;
  }

  /** sfs_mapio, writing. */
  method WriteMap(fs: Sfs)
    requires Mountable(fs)
    modifies fs`disk
    ensures Mountable(fs) && |fs.disk| == |old(fs.disk)| && SameBytes(old(fs.V()), fs.V())
    ensures MapOnDisk(fs.disk, fs.freemap, BitBlocks(|fs.disk|))
    ensures ROOT in fs.inodes && Table(fs.V()) == Table(old(fs.V()))
    ensures forall b :: 0 <= b < |fs.disk| && !(MAP_LOCATION <= b < MAP_LOCATION + BitBlocks(|fs.disk|)) ==>
              fs.disk[b] == old(fs.disk)[b]
  {
    hide FsOkBut, MapOk, Forward, Backward, CoreOk, Tree, Table, SameBytes, MapBlock;
    FsOkValid(fs.V(), fs.vnodes, 0, 0);
    SameBytesRefl(fs.V());
    var mapsize := BitBlocks(|fs.disk|);
    for j := 0 to mapsize
      invariant Mountable(fs) && Sized(fs.V()) && |fs.disk| == |old(fs.disk)| && SameBytes(old(fs.V()), fs.V())
      invariant Table(fs.V()) == Table(old(fs.V()))
      invariant forall k :: 0 <= k < j ==> fs.disk[MAP_LOCATION + k] == MapBlock(fs.freemap, k)
      invariant forall b :: 0 <= b < |fs.disk| && !(MAP_LOCATION <= b < MAP_LOCATION + mapsize) ==>
                  fs.disk[b] == old(fs.disk)[b]
    {
      ghost var v1 := fs.V();
      MapWriteOk(v1, fs.vnodes, j, MapBlock(fs.freemap, j));
      fs.disk := fs.disk[MAP_LOCATION + j := MapBlock(fs.freemap, j)];
      assert fs.V() == PutBlock(v1, MAP_LOCATION + j, MapBlock(fs.freemap, j));
      SameBytesTrans(old(fs.V()), v1, fs.V());
      FsOkValid(fs.V(), fs.vnodes, 0, 0);
    }
    PackedMap(fs.disk, fs.freemap, mapsize);
  }

  /** sfs_sync: every loaded inode and the map are on the disk; names, files and references stay. */
  method Sync(fs: Sfs)
    requires Mountable(fs)
    modifies fs`disk, fs`vnodes
    ensures Mountable(fs) && |fs.disk| == |old(fs.disk)| && SameBytes(old(fs.V()), fs.V())
    ensures fs.vnodes.Keys == old(fs.vnodes).Keys
    ensures forall i :: i in fs.vnodes ==> fs.vnodes[i] == old(fs.vnodes)[i].(dirty := false)
    ensures MapOnDisk(fs.disk, fs.freemap, BitBlocks(|fs.disk|))
    ensures ROOT in fs.inodes && Table(fs.V()) == Table(old(fs.V()))
    ensures |fs.disk| > 0 && fs.disk[0] == old(fs.disk)[0]
  {
    hide FsOkBut, MapOk, Forward, Backward, CoreOk, Tree, Table, SameBytes, MapOnDisk, InodeFits;
    FsOkValid(fs.V(), fs.vnodes, 0, 0);
    SameBytesRefl(fs.V());
    var todo := fs.vnodes.Keys;
    while todo != {}
      invariant Mountable(fs) && Sized(fs.V()) && |fs.disk| == |old(fs.disk)| && SameBytes(old(fs.V()), fs.V())
      invariant fs.vnodes.Keys == old(fs.vnodes).Keys && todo <= fs.vnodes.Keys && Table(fs.V()) == Table(old(fs.V()))
      invariant forall i :: i in fs.vnodes ==>
                  fs.vnodes[i] == if i in todo then old(fs.vnodes)[i] else old(fs.vnodes)[i].(dirty := false)
      invariant fs.disk[0] == old(fs.disk)[0]
    {
      var ino :| ino in todo;
      ghost var v1 := fs.V();
      FsOkValid(fs.V(), fs.vnodes, 0, 0);
      CoreGet(fs.V(), fs.vnodes, ino);
      SyncInode(fs, ino);
      SameBytesTrans(old(fs.V()), v1, fs.V());
      FsOkValid(fs.V(), fs.vnodes, 0, 0);
      todo := todo - {ino};
    }
    ghost var v2 := fs.V();
    WriteMap(fs);
    FsOkValid(fs.V(), fs.vnodes, 0, 0);
    SameBytesTrans(old(fs.V()), v2, fs.V());
  }

  // ---------------------------------------------------------------------------------------
  // Mounting

  predicate SuperOk(disk: seq<Block>)
    requires DiskOk(disk) && |disk| > 0
  {
    Word(disk[0], 0) == MAGIC && Word(disk[0], 1) == |disk|
  }

  function Unpack(b: Block): (bits: seq<bool>)
    requires |b| == BLOCKSIZE
    ensures |bits| == BLOCKBITS
  {
    seq(BLOCKBITS, r requires 0 <= r < BLOCKBITS => Bitmap.BitSet(b[r / 8] as bv8, r % 8))
  }

  lemma MapExtended(disk: seq<Block>, bits: seq<bool>, j: nat)
    requires DiskOk(disk) && MAP_LOCATION + j < |disk| && |bits| == BLOCKBITS * j
    requires forall i :: 0 <= i < |bits| ==> (MapBit(disk, i) <==> bits[i])
    ensures forall i :: 0 <= i < |bits| + BLOCKBITS ==>
              (MapBit(disk, i) <==> (bits + Unpack(disk[MAP_LOCATION + j]))[i])
  {
    hide Bitmap.BitSet, MapBit;
    var r := bits + Unpack(disk[MAP_LOCATION + j]);
    forall i | 0 <= i < |bits| + BLOCKBITS ensures MapBit(disk, i) <==> r[i] {
      if i >= |bits| {
        MapBitAt(disk, j, i - |bits|);
      }
    }
  }

  lemma MapBitAt(disk: seq<Block>, j: nat, r: nat)
    requires DiskOk(disk) && MAP_LOCATION + j < |disk| && r < BLOCKBITS
    ensures (BLOCKBITS * j + r) / BLOCKBITS == j
    ensures MapBit(disk, BLOCKBITS * j + r) <==> Unpack(disk[MAP_LOCATION + j])[r]
  {
    hide Bitmap.BitSet;
    WithinBlock(j, r);
  }

  lemma WithinBlock(j: nat, r: nat)
    requires r < BLOCKBITS
    ensures (BLOCKBITS * j + r) / BLOCKBITS == j && (BLOCKBITS * j + r) % BLOCKBITS == r
    ensures (BLOCKBITS * j + r) % 8 == r % 8
  {
    WithinByte(BLOCKSIZE * j + r / 8, r % 8);
  }

  lemma WithinByte(q: nat, r: nat)
    requires r < 8
    ensures (8 * q + r) % 8 == r
  {
  }

  /** sfs_mapio, reading. */
  method ReadMap(disk: seq<Block>, mapsize: nat) returns (bits: seq<bool>)
    requires DiskOk(disk) && MAP_LOCATION + mapsize <= |disk|
    ensures MapOnDisk(disk, bits, mapsize)
  {
    bits := [];
    for j := 0 to mapsize
      invariant |bits| == BLOCKBITS * j
      invariant forall i :: 0 <= i < |bits| ==> (MapBit(disk, i) <==> bits[i])
    {
      var b := disk[MAP_LOCATION + j];
      MapExtended(disk, bits, j);
      bits := bits + Unpack(b);
    }
  }

  /** A superblock with the right magic number, whose map lies on the device. */
  predicate Accepted(disk: seq<Block>)
    requires DiskOk(disk)
  {
    && |disk| > 0 && Word(disk[0], 0) == MAGIC
    && (BitBlocks(Word(disk[0], 1)) > 0 ==> MAP_LOCATION + BitBlocks(Word(disk[0], 1)) <= |disk|)
  }

  /**
   sfs_domount: load the superblock and the map; nothing else is in memory yet.  A wrong magic number
   and reads past the end of the device are refused.
   */
  method Mount(disk: seq<Block>, ghost inodes: map<nat, Inode>, ghost owner: seq<Owner>) returns (err: Err, fs: Sfs?)
    requires DiskOk(disk)
    ensures err == if Accepted(disk) then OK else EINVAL
    ensures err == OK ==>
              fs != null && fresh(fs) && fs.vnodes == map[] && fs.V() == Vol(disk, fs.freemap, inodes, owner)
    ensures err == OK && BitBlocks(Word(disk[0], 1)) > 0 ==> MapOnDisk(disk, fs.freemap, BitBlocks(Word(disk[0], 1)))
    ensures err == OK && BitBlocks(Word(disk[0], 1)) == 0 ==> fs.freemap == []
  {
    if |disk| == 0 || Word(disk[0], 0) != MAGIC {
      return EINVAL, null;
    }
    var mapsize := BitBlocks(Word(disk[0], 1));
    var bits: seq<bool> := [];
    if mapsize > 0 {
      if MAP_LOCATION + mapsize > |disk| {
        return EINVAL, null;
      }
      bits := ReadMap(disk, mapsize);
    }
    fs := new Sfs(disk, bits, inodes, owner);
    err := OK;
  }

  /** The disk determines the map. */
  lemma MapDetermined(disk: seq<Block>, bits: seq<bool>, other: seq<bool>, blocks: nat)
    requires MapOnDisk(disk, bits, blocks) && MapOnDisk(disk, other, blocks)
    ensures bits == other
  {
  }

  /**
   Unmounting a file system with nothing in use and mounting the disk again gives the same
   file system: the same blocks in use, inodes and names, and the same bytes in every file.
   */
  method Remount(fs: Sfs) returns (err: Err, again: Sfs?)
    requires Mountable(fs) && fs.vnodes == map[] && DiskOk(fs.disk) && |fs.disk| > 0 && SuperOk(fs.disk)
    modifies fs
    ensures err == OK && again != null && Mountable(again) && again.vnodes == map[]
    ensures again.freemap == old(fs.freemap) && again.inodes == old(fs.inodes) && again.owner == old(fs.owner)
    ensures SameBytes(old(fs.V()), again.V())
    ensures ROOT in again.inodes && Table(again.V()) == Table(old(fs.V()))
  {
    hide FsOkBut, MapOk, Forward, Backward, CoreOk, Tree, Table, SameBytes, MapOnDisk;
    Sync(fs);
    assert BitBlocks(|fs.disk|) > 0;
    FsOkValid(fs.V(), fs.vnodes, 0, 0);
    err, again := Mount(fs.disk, fs.inodes, fs.owner);
    assert Word(fs.disk[0], 0) == MAGIC && Word(fs.disk[0], 1) == |fs.disk|;
    MapDetermined(fs.disk, again.freemap, fs.freemap, BitBlocks(|fs.disk|));
    assert again.V() == fs.V() && again.vnodes == fs.vnodes;
  }
}
