/**
 A file is a byte sequence: what reads, writes and truncations of the block-mapped file do
 to the sequence of its bytes, over whole runs.
 */
module SfsContents {
  import opened SfsLayout
  import opened SfsVolume
  import opened UioModel
  import opened SfsFile
  import opened SfsTruncate

  /** The bytes of a file, as many as its size says. */
  ghost function Content(v: Vol, ino: nat): (s: seq<Byte>)
    requires Sized(v) && ino in v.inodes
    ensures |s| == v.inodes[ino].size
  {
    FileBytes(v, ino, 0, v.inodes[ino].size)
  }

  /** Nothing but zeros is stored past the end, so that a file grown later has zeros in the gap. */
  ghost predicate Clean(v: Vol, ino: nat)
    requires Sized(v) && ino in v.inodes
  {
    forall pos: nat :: pos >= v.inodes[ino].size ==> FileByte(v, ino, pos) == 0
  }

  /** `data` written over `s` at `off`; a gap before it is filled with zeros. */
  function Splice(s: seq<Byte>, off: nat, data: seq<Byte>): (r: seq<Byte>)
    ensures |r| == Max(|s|, off + |data|)
    ensures forall k :: 0 <= k < |r| ==>
              r[k] == if off <= k < off + |data| then data[k - off] else if k < |s| then s[k] else 0
  {
    (if off <= |s| then s[..off] else s + Zeros(off - |s|)) + data
    + (if off + |data| <= |s| then s[off + |data|..] else [])
  }

  /** A read hands back a slice of the sequence. */
  lemma ReadContent(v: Vol, ino: nat, off: nat, m: nat)
    requires Sized(v) && ino in v.inodes && off + m <= v.inodes[ino].size
    ensures FileBytes(v, ino, off, m) == Content(v, ino)[off..off + m]
  {
    hide Sized, FileByte;
  }

  /** A write splices its data into the sequence, whether or not it was cut short. */
  lemma WriteContent(v: Vol, vn: map<nat, Vnode>, w: Vol, vnw: map<nat, Vnode>, ino: nat, off: nat, data: seq<Byte>)
    requires Wrote(v, vn, w, vnw, ino, off, data) && Sized(v) && Sized(w) && ino in v.inodes && ino in w.inodes
    requires Clean(v, ino)
    ensures Content(w, ino) == Splice(Content(v, ino), off, data) && Clean(w, ino)
  {
    hide Ok, CoreOk, FileByte, Sized, OnlyFile;
    var s, t := Content(v, ino), Content(w, ino);
    forall k | 0 <= k < |t| ensures t[k] == Splice(s, off, data)[k] {
      assert t[k] == FileByte(w, ino, k);
      if k < |s| { assert s[k] == FileByte(v, ino, k); }
    }
  }

  /** Emptying a file leaves the empty sequence. */
  lemma EmptyContent(v: Vol, vn: map<nat, Vnode>, w: Vol, vnw: map<nat, Vnode>, ino: nat)
    requires Truncated(v, vn, w, vnw, ino, 0) && Sized(w) && ino in w.inodes
    ensures Content(w, ino) == [] && Clean(w, ino)
  {
    hide Ok, CoreOk, FileByte, Sized, OnlyFile;
    forall pos: nat ensures FileByte(w, ino, pos) == 0 {
      assert Gone(BlockLen(0), pos / BLOCKSIZE);
    }
  }

  /** Files other than the one operated on keep their bytes. */
  lemma OtherContent(v: Vol, w: Vol, ino: nat, other: nat)
    requires OnlyFile(v, w, ino) && other in v.inodes && other in w.inodes && other != ino && Sized(v) && Sized(w)
    ensures Content(w, other) == Content(v, other) && (Clean(v, other) ==> Clean(w, other))
  {
    hide Ok, FileByte, Sized;
  }

  // ---------------------------------------------------------------------------------------
  // Truncation to a length other than 0

  /** A truncation keeps the bytes before the new length. */
  lemma TruncateKeeps(v: Vol, vn: map<nat, Vnode>, w: Vol, vnw: map<nat, Vnode>, ino: nat, len: nat, pos: nat)
    requires Truncated(v, vn, w, vnw, ino, len) && Sized(v) && Sized(w) && ino in v.inodes && ino in w.inodes
    requires pos < len
    ensures FileByte(w, ino, pos) == FileByte(v, ino, pos)
  {
    hide Ok, CoreOk, FileByte, Sized, OnlyFile;
    assert pos / BLOCKSIZE < BlockLen(len);
  }

  /**
   The tail of the last kept block is not cleared, and one block too many is kept behind the
   indirect block: a truncation leaves zeros past the end exactly when the bytes of the kept
   blocks past the new length were zeros already.
   */
  lemma TruncateClean(v: Vol, vn: map<nat, Vnode>, w: Vol, vnw: map<nat, Vnode>, ino: nat, len: nat)
    requires Truncated(v, vn, w, vnw, ino, len) && Sized(v) && Sized(w) && ino in v.inodes && ino in w.inodes
    ensures Clean(w, ino) <==>
              forall pos: nat :: len <= pos && !Gone(BlockLen(len), pos / BLOCKSIZE) ==> FileByte(v, ino, pos) == 0
  {
    hide Ok, CoreOk, FileByte, Sized, OnlyFile, Gone;
    if Clean(w, ino) {
      forall pos: nat | len <= pos && !Gone(BlockLen(len), pos / BLOCKSIZE) ensures FileByte(v, ino, pos) == 0 {
        assert FileByte(w, ino, pos) == 0;
      }
    }
  }

  // A volume of four blocks: superblock, the inode of one file, the free map, and the file's one block.

  function SmallInode(): (i: Inode)
    ensures InodeFits(i)
  {
    Inode(2, TYPE_FILE, 1, [3] + seq(NDIRECT - 1, _ => 0), 0)
  }

  function SmallVol(): Vol {
    Vol([Zeros(BLOCKSIZE), EncodeInode(SmallInode()), Zeros(BLOCKSIZE), [7, 7] + Zeros(BLOCKSIZE - 2)],
        seq(BLOCKBITS, _ => true), map[1 := SmallInode()], [Reserved, InodeAt(1), Reserved, DataOf(1, 0)])
  }

  lemma SmallSized()
    ensures Sized(SmallVol()) && 1 in SmallVol().inodes
    ensures forall f: nat :: f < MAXBLOCKS ==> PtrOf(SmallVol(), 1, f) == if f == 0 then 3 else 0
  {
    hide EncodeInode, Zeros;
    assert BitBlocks(4) == 1;
  }

  lemma SmallBytes(pos: nat)
    requires Sized(SmallVol()) && 1 in SmallVol().inodes
    ensures FileByte(SmallVol(), 1, pos) == if pos < 2 then 7 else 0
  {
    hide EncodeInode;
    SmallSized();
    if pos >= 2 && pos / BLOCKSIZE == 0 {
      assert pos % BLOCKSIZE == pos;
      assert SmallVol().disk[3][pos] == Zeros(BLOCKSIZE - 2)[pos - 2];
    }
  }

  lemma SmallOk()
    ensures Ok(SmallVol()) && CoreOk(SmallVol(), map[1 := Vnode(SmallInode(), false, 1)])
  {
    hide EncodeInode, Zeros, PtrOf;
    SmallSized();
    assert BitBlocks(4) == 1;
  }

  /** Two bytes cut to one: the byte cut off stays in the block, past the end of the file. */
  lemma TailStays() returns (v: Vol, vn: map<nat, Vnode>, w: Vol, vnw: map<nat, Vnode>)
    ensures Truncated(v, vn, w, vnw, 1, 1) && Sized(v) && Sized(w) && 1 in v.inodes && 1 in w.inodes
    ensures Clean(v, 1) && !Clean(w, 1)
  {
    hide Ok, CoreOk, FileByte, Sized, PtrOf, EncodeInode, Zeros;
    v, vn := SmallVol(), map[1 := Vnode(SmallInode(), false, 1)];
    var i := SmallInode().(size := 1);
    w, vnw := SetMeta(v, 1, i), vn[1 := vn[1].(i := i, dirty := true)];
    SmallSized();
    SmallOk();
    forall pos: nat ensures FileByte(v, 1, pos) == if pos < 2 then 7 else 0 {
      SmallBytes(pos);
    }
    SmallTrim(v, vn);
    TrimThenSize(v, vn, v, vn, 1, 1);
    OkSized(w);
    TruncateClean(v, vn, w, vnw, 1, 1);
    assert !Gone(BlockLen(1), 1 / BLOCKSIZE);
  }

  lemma SizeWritten(v: Vol, vn: map<nat, Vnode>, w: Vol, vnw: map<nat, Vnode>, ino: nat, off: nat, data: seq<Byte>)
    requires Wrote(v, vn, w, vnw, ino, off, data) && ino in v.inodes
    ensures ino in vnw && vnw[ino].i.size == Max(v.inodes[ino].size, off + |data|)
  {
    hide Sized, FileByte, Ok;
    WroteOk(v, vn, w, vnw, ino, off, data);
    CoreGetOk(w, vnw, ino);
    CoreGet(w, vnw, ino);
  }

  /** Nothing written at offset 5 of a file of two bytes: it is five bytes long afterwards. */
  method EmptyWriteGrows() returns (sfs: Sfs)
    ensures 1 in sfs.vnodes && sfs.vnodes[1].i.size == 5
  {
    hide Ok, CoreOk, Wrote, Zeros, EncodeInode;
    var v := SmallVol();
    SmallOk();
    sfs := new Sfs(v.disk, v.used, v.inodes, v.owner);
    sfs.vnodes := map[1 := Vnode(SmallInode(), false, 1)];
    ghost var vn := sfs.vnodes;
    assert sfs.V() == v;
    var uio := new Uio([], 5, Write);
    var err;
    ghost var m;
    err, m := sfs.Write(1, uio);
    SizeWritten(v, vn, sfs.V(), sfs.vnodes, 1, 5, []);
  }

  /** Every block a cut to one byte takes away is one the file does not have. */
  lemma SmallTrim(v: Vol, vn: map<nat, Vnode>)
    requires v == SmallVol() && vn == map[1 := Vnode(SmallInode(), false, 1)] && Ok(v) && CoreOk(v, vn)
    ensures TrimStep(v, vn, v, vn, 1, set f | 0 <= f < MAXBLOCKS && Gone(BlockLen(1), f))
  {
    hide Ok, CoreOk, FileByte, PtrOf, EncodeInode, Zeros;
    SmallSized();
    forall pos: nat ensures FileByte(v, 1, pos) == if pos < 2 then 7 else 0 {
      SmallBytes(pos);
    }
    assert BlockLen(1) == 1;
  }

  lemma OkSized(v: Vol)
    requires Ok(v)
    ensures Sized(v)
  {
  }

  /** Lengths of whole blocks below the indirect block are always safe. */
  lemma TruncateWholeBlocks(v: Vol, vn: map<nat, Vnode>, w: Vol, vnw: map<nat, Vnode>, ino: nat, len: nat)
    requires Truncated(v, vn, w, vnw, ino, len) && Sized(v) && Sized(w) && ino in v.inodes && ino in w.inodes
    requires len % BLOCKSIZE == 0 && len / BLOCKSIZE < NDIRECT
    ensures Clean(w, ino)
  {
    hide Ok, CoreOk, FileByte, Sized, OnlyFile;
    forall pos: nat | len <= pos ensures FileByte(w, ino, pos) == 0 {
      WholeBlocksGone(len, pos);
    }
  }

  lemma WholeBlocksGone(len: nat, pos: nat)
    requires len % BLOCKSIZE == 0 && len / BLOCKSIZE < NDIRECT && len <= pos
    ensures Gone(BlockLen(len), pos / BLOCKSIZE)
  {
    assert BlockLen(len) == len / BLOCKSIZE <= pos / BLOCKSIZE;
  }

  // ---------------------------------------------------------------------------------------
  // Runs

  datatype FileOp = WriteOp(ino: nat, off: nat, data: seq<Byte>) | EmptyOp(ino: nat)

  /** A volume together with its table of loaded inodes. */
  datatype Mounted = Mounted(v: Vol, vn: map<nat, Vnode>)

  /** The change of state that a write of exactly `data`, or emptying a file, has made. */
  ghost predicate FileStep(s: Mounted, op: FileOp, t: Mounted) {
    match op
    case WriteOp(ino, off, data) => Wrote(s.v, s.vn, t.v, t.vn, ino, off, data)
    case EmptyOp(ino) => Truncated(s.v, s.vn, t.v, t.vn, ino, 0)
  }

  ghost predicate AllClean(v: Vol) {
    Ok(v) && forall ino :: ino in v.inodes ==> Clean(v, ino)
  }

  /** The abstract file system: each inode a byte sequence. */
  ghost function Abs(v: Vol): map<nat, seq<Byte>>
    requires Sized(v)
  {
    map ino | ino in v.inodes :: Content(v, ino)
  }

  function AbsStep(a: map<nat, seq<Byte>>, op: FileOp): map<nat, seq<Byte>>
    requires op.ino in a
  {
    match op
    case WriteOp(ino, off, data) => a[ino := Splice(a[ino], off, data)]
    case EmptyOp(ino) => a[ino := []]
  }

  lemma StepRefines(s: Mounted, op: FileOp, t: Mounted)
    requires AllClean(s.v) && FileStep(s, op, t)
    ensures AllClean(t.v) && op.ino in Abs(s.v) && Abs(t.v) == AbsStep(Abs(s.v), op)
  {
    hide Ok, CoreOk, FileByte, Sized, OnlyFile, Wrote, Truncated, Content, Clean;
    var ino := op.ino;
    StepOnly(s, op, t);
    StepSized(s.v, t.v, ino);
    match op {
      case WriteOp(_, off, data) => WriteContent(s.v, s.vn, t.v, t.vn, ino, off, data);
      case EmptyOp(_) => EmptyContent(s.v, s.vn, t.v, t.vn, ino);
    }
    forall other | other in s.v.inodes && other != ino
      ensures Content(t.v, other) == Content(s.v, other) && Clean(t.v, other)
    {
      OtherContent(s.v, t.v, ino, other);
    }
  }

  lemma StepOnly(s: Mounted, op: FileOp, t: Mounted)
    requires FileStep(s, op, t)
    ensures OnlyFile(s.v, t.v, op.ino)
  {
    hide Ok, CoreOk, FileByte, Sized, OnlyFile;
  }

  lemma StepSized(v: Vol, w: Vol, ino: nat)
    requires OnlyFile(v, w, ino)
    ensures Ok(v) && Ok(w) && Sized(v) && Sized(w) && ino in v.inodes && ino in w.inodes
    ensures v.inodes.Keys == w.inodes.Keys
  {
  }

  ghost predicate FileRun(states: seq<Mounted>, ops: seq<FileOp>) {
    && |states| == |ops| + 1
    && forall k :: 0 <= k < |ops| ==> FileStep(states[k], ops[k], states[k + 1])
  }

  /** `b` is what the abstract operations, done one after the other, make of `a`. */
  ghost predicate AbsRun(a: map<nat, seq<Byte>>, ops: seq<FileOp>, b: map<nat, seq<Byte>>)
    decreases |ops|
  {
    if ops == [] then b == a
    else ops[0].ino in a && AbsRun(AbsStep(a, ops[0]), ops[1..], b)
  }

  /**
   Refinement over every run: however files are written and emptied, and wherever writes are
   cut short, each inode stays one byte sequence and ends up as the abstract operations say.
   */
  lemma {:induction false} RunRefines(states: seq<Mounted>, ops: seq<FileOp>)
    requires FileRun(states, ops) && AllClean(states[0].v)
    ensures AllClean(states[|ops|].v) && AbsRun(Abs(states[0].v), ops, Abs(states[|ops|].v))
    decreases |ops|
  {
    hide Ok, AllClean, FileStep, Abs, AbsStep, Sized;
    if ops != [] {
      StepRefines(states[0], ops[0], states[1]);
      forall k | 0 <= k < |ops[1..]| ensures FileStep(states[1..][k], ops[1..][k], states[1..][k + 1]) {
        assert FileStep(states[k + 1], ops[k + 1], states[k + 2]);
      }
      RunRefines(states[1..], ops[1..]);
    }
  }
}
