/**
 The on-disk format of SFS: blocks of bytes, the 32-bit words stored in them, inodes and
 directory entries, with the round trips between a structure and its bytes.
 */
module SfsLayout {

  const BLOCKSIZE := 512       // bytes in a block
  const NDIRECT := 15          // direct blocks in an inode
  const DBPERIDB := 128        // block numbers in an indirect block
  const MAXBLOCKS := 143       // blocks a file can map: direct ones and one indirect block's
  const ROOT := 1              // the root directory's inode number
  const MAP_LOCATION := 2      // first block of the free map
  const BLOCKBITS := 4096      // bits in a block
  const NAMELEN := 60          // bytes of a name field, with its NUL
  const DIRSIZE := 64          // bytes of a directory entry
  const TYPE_INVAL := 0
  const TYPE_FILE := 1
  const TYPE_DIR := 2
  const WORD := 0x1_0000_0000

  type Byte = b: int | 0 <= b < 256

  type Block = seq<Byte>

  function Zeros(n: nat): (b: seq<Byte>)
    ensures |b| == n && forall k :: 0 <= k < n ==> b[k] == 0
  {
    seq(n, _ => 0)
  }

  // ---------------------------------------------------------------------------------------
  // Words

  /** Word `i` of a block; the target is big-endian. */
  function Word(b: seq<Byte>, i: nat): nat
    requires 4 * i + 4 <= |b|
  {
    (b[4 * i] as int) * 0x100_0000 + (b[4 * i + 1] as int) * 0x1_0000 + (b[4 * i + 2] as int) * 0x100 + b[4 * i + 3]
  }

  function WordBytes(w: nat): (b: seq<Byte>)
    requires w < WORD
    ensures |b| == 4
  {
    var a := w / 0x100;
    var b := a / 0x100;
    [b / 0x100, b % 0x100, a % 0x100, w % 0x100]
  }

  function PutWord(b: seq<Byte>, i: nat, w: nat): (r: seq<Byte>)
    requires 4 * i + 4 <= |b| && w < WORD
    ensures |r| == |b|
  {
    b[..4 * i] + WordBytes(w) + b[4 * i + 4..]
  }

  lemma WordRoundTrip(w: nat)
    requires w < WORD
    ensures Word(WordBytes(w), 0) == w
  {
    var a := w / 0x100;
    var b := a / 0x100;
    assert w == a * 0x100 + w % 0x100 && a == b * 0x100 + a % 0x100 && b == b / 0x100 * 0x100 + b % 0x100;
  }

  /** Storing a word is read back, and no other word of the block changes. */
  lemma PutWordGet(b: seq<Byte>, i: nat, w: nat, j: nat)
    requires 4 * i + 4 <= |b| && w < WORD && 4 * j + 4 <= |b|
    ensures Word(PutWord(b, i, w), j) == if j == i then w else Word(b, j)
  {
    var r := PutWord(b, i, w);
    if j == i {
      WordRoundTrip(w);
      assert r[4 * i] == WordBytes(w)[0] && r[4 * i + 1] == WordBytes(w)[1];
      assert r[4 * i + 2] == WordBytes(w)[2] && r[4 * i + 3] == WordBytes(w)[3];
    } else {
      assert r[4 * j] == b[4 * j] && r[4 * j + 1] == b[4 * j + 1];
      assert r[4 * j + 2] == b[4 * j + 2] && r[4 * j + 3] == b[4 * j + 3];
    }
  }

  lemma WordBound(b: seq<Byte>, i: nat)
    requires 4 * i + 4 <= |b|
    ensures Word(b, i) < WORD
  {
  }

  lemma WordOfZeros(n: nat, i: nat)
    requires 4 * i + 4 <= n
    ensures Word(Zeros(n), i) == 0
  {
  }

  // ---------------------------------------------------------------------------------------
  // Inodes

  datatype Inode = Inode(size: nat, kind: nat, links: nat, direct: seq<nat>, indirect: nat)

  /** The field widths of the on-disk structure. */
  predicate InodeFits(i: Inode) {
    && i.size < WORD && i.kind < 0x1_0000 && i.links < 0x1_0000
    && |i.direct| == NDIRECT && (forall k :: 0 <= k < NDIRECT ==> i.direct[k] < WORD)
    && i.indirect < WORD
  }

  function EncodeInode(i: Inode): (b: Block)
    requires InodeFits(i)
    ensures |b| == BLOCKSIZE
  {
    WordBytes(i.size) + WordBytes(i.kind * 0x1_0000 + i.links)
    + EncodeWords(i.direct) + WordBytes(i.indirect) + Zeros(BLOCKSIZE - 72)
  }

  function EncodeWords(ws: seq<nat>): (b: seq<Byte>)
    requires forall k :: 0 <= k < |ws| ==> ws[k] < WORD
    ensures |b| == 4 * |ws|
  {
    if ws == [] then [] else WordBytes(ws[0]) + EncodeWords(ws[1..])
  }

  function DecodeInode(b: Block): Inode
    requires |b| == BLOCKSIZE
  {
    Inode(Word(b, 0), Word(b, 1) / 0x1_0000, Word(b, 1) % 0x1_0000, DecodeWords(b, 2, NDIRECT), Word(b, 17))
  }

  function DecodeWords(b: seq<Byte>, i: nat, n: nat): (ws: seq<nat>)
    requires 4 * (i + n) <= |b|
    ensures |ws| == n && forall k :: 0 <= k < n ==> ws[k] == Word(b, i + k)
  {
    if n == 0 then [] else DecodeWords(b, i, n - 1) + [Word(b, i + n - 1)]
  }

  /** Words keep their value wherever their four bytes are placed. */
  lemma WordAt(b: seq<Byte>, i: nat, w: nat)
    requires 4 * i + 4 <= |b| && w < WORD && b[4 * i..4 * i + 4] == WordBytes(w)
    ensures Word(b, i) == w
  {
    WordRoundTrip(w);
    var s := b[4 * i..4 * i + 4];
    assert s[0] == b[4 * i] && s[1] == b[4 * i + 1] && s[2] == b[4 * i + 2] && s[3] == b[4 * i + 3];
  }

  lemma {:induction false} EncodedWordAt(ws: seq<nat>, k: nat)
    requires forall k :: 0 <= k < |ws| ==> ws[k] < WORD
    requires k < |ws|
    ensures EncodeWords(ws)[4 * k..4 * k + 4] == WordBytes(ws[k])
  {
    if k > 0 {
      EncodedWordAt(ws[1..], k - 1);
      assert EncodeWords(ws)[4 * k..4 * k + 4] == EncodeWords(ws[1..])[4 * (k - 1)..4 * (k - 1) + 4];
    }
  }

  /** An inode written to its block and loaded again is the same inode. */
  lemma InodeRoundTrip(i: Inode)
    requires InodeFits(i)
    ensures DecodeInode(EncodeInode(i)) == i
  {
    var b := EncodeInode(i);
    assert b[0..4] == WordBytes(i.size);
    WordAt(b, 0, i.size);
    assert b[4..8] == WordBytes(i.kind * 0x1_0000 + i.links);
    WordAt(b, 1, i.kind * 0x1_0000 + i.links);
    assert b[68..72] == WordBytes(i.indirect);
    WordAt(b, 17, i.indirect);
    forall k | 0 <= k < NDIRECT
      ensures Word(b, 2 + k) == i.direct[k]
    {
      EncodedWordAt(i.direct, k);
      assert b[4 * (2 + k)..4 * (2 + k) + 4] == EncodeWords(i.direct)[4 * k..4 * k + 4];
      WordAt(b, 2 + k, i.direct[k]);
    }
    assert DecodeWords(b, 2, NDIRECT) == i.direct;
  }

  /** A cleared block loads as an empty inode of no type: what a new object starts from. */
  lemma ZeroInode()
    ensures DecodeInode(Zeros(BLOCKSIZE)) == Inode(0, TYPE_INVAL, 0, seq(NDIRECT, _ => 0), 0)
  {
    var b := Zeros(BLOCKSIZE);
    WordOfZeros(BLOCKSIZE, 0);
    WordOfZeros(BLOCKSIZE, 1);
    WordOfZeros(BLOCKSIZE, 17);
    forall k | 0 <= k < NDIRECT ensures DecodeWords(b, 2, NDIRECT)[k] == 0 {
      WordOfZeros(BLOCKSIZE, 2 + k);
    }
    assert DecodeWords(b, 2, NDIRECT) == seq(NDIRECT, _ => 0);
  }

  // ---------------------------------------------------------------------------------------
  // Directory entries

  /** A C string: bytes without a NUL. */
  type CString = s: seq<Byte> | 0 !in s witness []

  /** The bytes before the first NUL, or all of them. */
  function CStr(b: seq<Byte>): (s: CString)
    ensures |s| <= |b| && s == b[..|s|] && (|s| < |b| ==> b[|s|] == 0)
  {
    if b == [] || b[0] == 0 then [] else [b[0]] + CStr(b[1..])
  }

  lemma {:induction false} CStrPadded(name: CString, n: nat)
    requires n > 0
    ensures CStr(name + Zeros(n)) == name
  {
    var b := name + Zeros(n);
    if name == [] {
      assert b[0] == 0;
    } else {
      assert b[0] == name[0] && name[0] in name;
      assert b[1..] == name[1..] + Zeros(n);
      forall x | x in name[1..] ensures x != 0 { assert x in name; }
      CStrPadded(name[1..], n);
    }
  }

  /** Inode number 0 marks an empty slot. */
  datatype Entry = Entry(ino: nat, name: CString)

  const EMPTY := Entry(0, [])

  predicate EntryFits(e: Entry) {
    e.ino < WORD && |e.name| < NAMELEN
  }

  function EncodeEntry(e: Entry): (b: seq<Byte>)
    requires EntryFits(e)
    ensures |b| == DIRSIZE
  {
    WordBytes(e.ino) + e.name + Zeros(NAMELEN - |e.name|)
  }

  /** What readdir hands back: the name is cut at its last byte, which is forced to NUL. */
  function DecodeEntry(b: seq<Byte>): (e: Entry)
    requires |b| == DIRSIZE
    ensures EntryFits(e)
  {
    WordBound(b, 0);
    Entry(Word(b, 0), CStr(b[4..DIRSIZE - 1]))
  }

  lemma EntryRoundTrip(e: Entry)
    requires EntryFits(e)
    ensures DecodeEntry(EncodeEntry(e)) == e
  {
    var b := EncodeEntry(e);
    assert b[0..4] == WordBytes(e.ino);
    WordAt(b, 0, e.ino);
    var n := NAMELEN - 1 - |e.name|;
    if n == 0 {
      assert b[4..DIRSIZE - 1] == e.name;
      CStrWhole(e.name);
    } else {
      assert b[4..DIRSIZE - 1] == e.name + Zeros(n);
      CStrPadded(e.name, n);
    }
  }

  lemma {:induction false} CStrWhole(name: CString)
    ensures CStr(name) == name
  {
    if name != [] {
      assert name[0] in name;
      forall x | x in name[1..] ensures x != 0 { assert x in name; }
      CStrWhole(name[1..]);
    }
  }

  // ---------------------------------------------------------------------------------------
  // Byte by byte

  /** The 32-bit number `w` in four bytes from `at` on, the most significant first. */
  predicate Big32(b: seq<Byte>, at: nat, w: nat) {
    && at + 4 <= |b| && b[at] == w / 0x100_0000 && b[at + 1] == w / 0x1_0000 % 0x100
    && b[at + 2] == w / 0x100 % 0x100 && b[at + 3] == w % 0x100
  }

  /** The 16-bit number `h` in two bytes. */
  predicate Big16(b: seq<Byte>, at: nat, h: nat) {
    at + 2 <= |b| && b[at] == h / 0x100 && b[at + 1] == h % 0x100
  }

  lemma WordIsBig(w: nat)
    requires w < WORD
    ensures Big32(WordBytes(w), 0, w)
  {
    var a := w / 0x100;
    assert a / 0x100 == w / 0x1_0000 && a / 0x100 / 0x100 == w / 0x100_0000;
  }

  lemma Placed(b: seq<Byte>, at: nat, w: nat)
    requires at + 4 <= |b| && w < WORD && b[at..at + 4] == WordBytes(w)
    ensures Big32(b, at, w)
  {
    hide WordBytes;
    WordIsBig(w);
    var s := b[at..at + 4];
    assert s[0] == b[at] && s[1] == b[at + 1] && s[2] == b[at + 2] && s[3] == b[at + 3];
  }

  lemma Halves(b: seq<Byte>, at: nat, hi: nat, lo: nat)
    requires hi < 0x1_0000 && lo < 0x1_0000 && Big32(b, at, hi * 0x1_0000 + lo)
    ensures Big16(b, at, hi) && Big16(b, at + 2, lo)
  {
    var w := hi * 0x1_0000 + lo;
    assert w / 0x1_0000 == hi && w / 0x100_0000 == hi / 0x100;
    assert w / 0x100 == hi * 0x100 + lo / 0x100;
  }

  /** The on-disk inode: size, type, link count, fifteen direct blocks, the indirect block, and nothing else. */
  lemma InodeBytes(i: Inode)
    requires InodeFits(i)
    ensures var b := EncodeInode(i);
            && |b| == 512 && Big32(b, 0, i.size) && Big16(b, 4, i.kind) && Big16(b, 6, i.links)
            && (forall k :: 0 <= k < 15 ==> Big32(b, 8 + 4 * k, i.direct[k])) && Big32(b, 68, i.indirect)
            && forall j :: 72 <= j < 512 ==> b[j] == 0
  {
    hide WordBytes, Big32, Big16;
    var b := EncodeInode(i);
    assert b[0..4] == WordBytes(i.size);
    Placed(b, 0, i.size);
    assert b[4..8] == WordBytes(i.kind * 0x1_0000 + i.links);
    Placed(b, 4, i.kind * 0x1_0000 + i.links);
    Halves(b, 4, i.kind, i.links);
    assert b[68..72] == WordBytes(i.indirect);
    Placed(b, 68, i.indirect);
    forall k | 0 <= k < 15 ensures Big32(b, 8 + 4 * k, i.direct[k]) {
      EncodedWordAt(i.direct, k);
      assert b[8 + 4 * k..8 + 4 * k + 4] == EncodeWords(i.direct)[4 * k..4 * k + 4];
      Placed(b, 8 + 4 * k, i.direct[k]);
    }
  }

  /** The on-disk directory entry: the inode number, and the name padded with NULs to sixty bytes. */
  lemma EntryBytes(e: Entry)
    requires EntryFits(e)
    ensures var b := EncodeEntry(e);
            && |b| == 64 && Big32(b, 0, e.ino) && b[4..4 + |e.name|] == e.name
            && forall j :: 4 + |e.name| <= j < 64 ==> b[j] == 0
  {
    hide WordBytes;
    var b := EncodeEntry(e);
    assert b[0..4] == WordBytes(e.ino);
    Placed(b, 0, e.ino);
  }
}
