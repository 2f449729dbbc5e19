/**
 SFS files: block allocation, the block map, reading, writing and truncation, on a mounted
 volume with its table of loaded inodes.
 */
module SfsFile {
  import opened SfsLayout
  import opened SfsVolume
  import opened SfsSpace
  import opened UioModel
  import Bitmap

  datatype Err = OK | EINVAL | ENOSPC | ENOENT | EEXIST | ENAMETOOLONG

  /** An inode in memory: its current value, whether it must be written back, its references. */
  datatype Vnode = Vnode(i: Inode, dirty: bool, refcount: nat)

  /** The largest offset the kernel's signed 32-bit off_t can express. */
  const MAXOFF := 0x7fff_ffff

  /**
   The table of loaded inodes agrees with the volume: a loaded inode is the current one, and
   an inode that is not loaded, or not dirty, is on the disk as it is.
   */
  ghost predicate CoreOk(v: Vol, vn: map<nat, Vnode>)
    requires Sized(v)
  {
    && (forall ino :: ino in vn ==> ino in v.inodes && vn[ino].i == v.inodes[ino] && vn[ino].refcount >= 1)
    && (forall ino :: ino in v.inodes ==> InodeFits(v.inodes[ino]))
    && (forall ino :: ino in v.inodes && !(ino in vn && vn[ino].dirty) ==>
          v.disk[ino] == EncodeInode(v.inodes[ino]))
  }

  // ---------------------------------------------------------------------------------------
  // What the file operations do, as relations between volumes

  /** Everything about the volume but inode `ino` is as it was, and ownership is exact. */
  ghost predicate OnlyFile(v: Vol, w: Vol, ino: nat) {
    && Ok(v) && Ok(w) && |w.disk| == |v.disk| && w.inodes.Keys == v.inodes.Keys && ino in v.inodes
    && (forall i :: i in v.inodes && i != ino ==> w.inodes[i] == v.inodes[i])
    && (forall i, pos: nat :: i in v.inodes && i != ino ==> FileByte(w, i, pos) == FileByte(v, i, pos))
    && w.inodes[ino].kind == v.inodes[ino].kind && w.inodes[ino].links == v.inodes[ino].links
  }

  /** The bytes `data` are in file `ino` from `off` on, and all its other bytes are as before. */
  ghost predicate Stored(v: Vol, w: Vol, ino: nat, off: nat, data: seq<Byte>) {
    && OnlyFile(v, w, ino)
    && forall pos: nat ::
         FileByte(w, ino, pos) == if off <= pos < off + |data| then data[pos - off] else FileByte(v, ino, pos)
  }

  lemma OnlyFileTrans(v: Vol, w: Vol, x: Vol, ino: nat)
    requires OnlyFile(v, w, ino) && OnlyFile(w, x, ino)
    ensures OnlyFile(v, x, ino)
  {
    hide Ok, FileByte, Sized;
  }

  lemma StoredAppend(v: Vol, w: Vol, x: Vol, ino: nat, off: nat, a: seq<Byte>, b: seq<Byte>)
    requires Stored(v, w, ino, off, a) && Stored(w, x, ino, off + |a|, b)
    ensures Stored(v, x, ino, off, a + b)
  {
    OnlyFileTrans(v, w, x, ino);
    forall pos: nat
      ensures FileByte(x, ino, pos) == if off <= pos < off + |a + b| then (a + b)[pos - off] else FileByte(v, ino, pos)
    {
      assert FileByte(w, ino, pos) == if off <= pos < off + |a| then a[pos - off] else FileByte(v, ino, pos);
    }
  }

  lemma StoredNothing(v: Vol, w: Vol, ino: nat, off: nat)
    requires OnlyFile(v, w, ino) && SameBytes(v, w)
    ensures Stored(v, w, ino, off, [])
  {
  }

  /** The disk changed only in blocks that are no inode; one loaded inode changed and is dirty. */
  lemma CoreKept(v: Vol, vn: map<nat, Vnode>, w: Vol, ino: nat, i: Inode)
    requires Ok(v) && CoreOk(v, vn) && ino in vn && Sized(w) && |w.disk| == |v.disk|
    requires w.inodes == v.inodes[ino := i] && InodeFits(i)
    requires forall b :: 0 <= b < |v.disk| && v.owner[b].InodeAt? ==> w.disk[b] == v.disk[b]
    ensures CoreOk(w, vn[ino := vn[ino].(i := i, dirty := true)])
  {
    hide Ok, Sized, EncodeInode, InodeFits;
    CoreGetOk(v, vn, ino);
    forall j | j in v.inodes ensures j < |v.disk| && w.disk[j] == v.disk[j] {
      InodeOwned(v, j);
    }
  }

  lemma CoreGetOk(v: Vol, vn: map<nat, Vnode>, ino: nat)
    requires Ok(v) && CoreOk(v, vn) && ino in vn
    ensures Sized(v) && ino in v.inodes
  {
    hide MapOk, Forward, Backward;
  }

  lemma InodeOwned(v: Vol, j: nat)
    requires Ok(v) && j in v.inodes
    ensures j < |v.disk| && j < |v.owner| && v.owner[j] == InodeAt(j)
  {
    hide MapOk, Backward;
  }

  lemma PtrBound(v: Vol, ino: nat, fb: nat)
    requires Ok(v) && ino in v.inodes && fb < MAXBLOCKS
    ensures PtrOf(v, ino, fb) < |v.disk|
    ensures PtrOf(v, ino, fb) != 0 ==> v.used[PtrOf(v, ino, fb)]
  {
  }

  /**
   A change of state that block mapping may make: more blocks mapped for `ino`, and not a byte
   of any file different.  Only the loaded copy of that inode changes.
   */
  ghost predicate MapStep(v: Vol, vn: map<nat, Vnode>, w: Vol, vnw: map<nat, Vnode>, ino: nat) {
    && OnlyFile(v, w, ino) && SameBytes(v, w) && w.inodes[ino].size == v.inodes[ino].size
    && CoreOk(v, vn) && CoreOk(w, vnw) && CoreStep(vn, vnw, ino)
  }

  /** The table of loaded inodes changed at most in the value of one inode. */
  ghost predicate CoreStep(vn: map<nat, Vnode>, vnw: map<nat, Vnode>, ino: nat) {
    && vnw.Keys == vn.Keys && ino in vn && vnw[ino].refcount == vn[ino].refcount
    && forall i :: i in vn && i != ino ==> vnw[i] == vn[i]
  }

  lemma MapStepRefl(v: Vol, vn: map<nat, Vnode>, ino: nat)
    requires Ok(v) && CoreOk(v, vn) && ino in vn
    ensures MapStep(v, vn, v, vn, ino)
  {
  }

  lemma MapStepOk(v: Vol, vn: map<nat, Vnode>, w: Vol, vnw: map<nat, Vnode>, ino: nat)
    requires MapStep(v, vn, w, vnw, ino)
    ensures Ok(w) && CoreOk(w, vnw) && ino in vnw && vnw.Keys == vn.Keys && w.inodes.Keys == v.inodes.Keys
    ensures |w.disk| == |v.disk|
  {
  }

  lemma MapStepTrans(v: Vol, vn: map<nat, Vnode>, w: Vol, vnw: map<nat, Vnode>, x: Vol, vnx: map<nat, Vnode>, ino: nat)
    requires MapStep(v, vn, w, vnw, ino) && MapStep(w, vnw, x, vnx, ino)
    ensures MapStep(v, vn, x, vnx, ino)
  {
    hide Ok, CoreOk;
    forall i, pos: nat | i in v.inodes ensures FileByte(x, i, pos) == FileByte(v, i, pos) {
      assert FileByte(w, i, pos) == FileByte(v, i, pos);
    }
  }

  lemma CoreGet(v: Vol, vn: map<nat, Vnode>, ino: nat)
    requires Sized(v) && CoreOk(v, vn) && ino in vn
    ensures ino in v.inodes && vn[ino].i == v.inodes[ino] && vn[ino].refcount >= 1 && InodeFits(vn[ino].i)
  {
  }

  lemma OnlyInode(v: Vol, w: Vol, ino: nat, i: Inode)
    requires Ok(v) && Ok(w) && SameBytes(v, w) && |w.disk| == |v.disk| && ino in v.inodes
    requires w.inodes == v.inodes[ino := i] && SameMeta(v.inodes[ino], i)
    ensures OnlyFile(v, w, ino)
  {
    hide Ok, FileByte, Sized;
  }

  /** Allocation that only grows one inode's block list, with the loaded copy updated, is a MapStep. */
  lemma GrowIsMapStep(v: Vol, vn: map<nat, Vnode>, w: Vol, ino: nat, i: Inode)
    requires Ok(v) && CoreOk(v, vn) && ino in vn && Ok(w) && SameBytes(v, w) && |w.disk| == |v.disk|
    requires w.inodes == v.inodes[ino := i] && InodeFits(i) && SameMeta(v.inodes[ino], i)
    requires forall b :: 0 <= b < |v.disk| && v.owner[b].InodeAt? ==> w.disk[b] == v.disk[b]
    ensures MapStep(v, vn, w, vn[ino := vn[ino].(i := i, dirty := true)], ino)
  {
    hide MapOk, Forward, Backward, CoreOk, SameBytes, OnlyFile;
    CoreGet(v, vn, ino);
    CoreKept(v, vn, w, ino, i);
    OnlyInode(v, w, ino, i);
  }

  lemma AddDirectStep(v: Vol, vn: map<nat, Vnode>, ino: nat, fb: nat, b: nat)
    requires FreeBlock(v, b) && CoreOk(v, vn) && ino in vn && fb < NDIRECT && v.inodes[ino].direct[fb] == 0
    ensures var i := v.inodes[ino].(direct := v.inodes[ino].direct[fb := b]);
            MapStep(v, vn, AddDirect(v, ino, fb, b), vn[ino := vn[ino].(i := i, dirty := true)], ino)
    ensures b != 0
  {
    hide MapOk, Forward, Backward, CoreOk, SameBytes, MapStep;
    CoreGet(v, vn, ino);
    FreeIsNot(v, b);
    AddDirectOk(v, ino, fb, b);
    GrowIsMapStep(v, vn, AddDirect(v, ino, fb, b), ino, v.inodes[ino].(direct := v.inodes[ino].direct[fb := b]));
  }

  lemma AddIndirectStep(v: Vol, vn: map<nat, Vnode>, ino: nat, b: nat)
    requires FreeBlock(v, b) && CoreOk(v, vn) && ino in vn && v.inodes[ino].indirect == 0
    ensures MapStep(v, vn, AddIndirect(v, ino, b),
                    vn[ino := vn[ino].(i := v.inodes[ino].(indirect := b), dirty := true)], ino)
    ensures b != 0 && forall f :: 0 <= f < MAXBLOCKS ==> PtrOf(AddIndirect(v, ino, b), ino, f) == PtrOf(v, ino, f)
  {
    hide MapOk, Forward, Backward, CoreOk, SameBytes, MapStep;
    CoreGet(v, vn, ino);
    FreeIsNot(v, b);
    AddIndirectOk(v, ino, b);
    GrowIsMapStep(v, vn, AddIndirect(v, ino, b), ino, v.inodes[ino].(indirect := b));
  }

  lemma AddViaIndirectStep(v: Vol, vn: map<nat, Vnode>, ino: nat, fb: nat, b: nat)
    requires FreeBlock(v, b) && CoreOk(v, vn) && ino in vn && NDIRECT <= fb < MAXBLOCKS
    requires v.inodes[ino].indirect != 0 && PtrOf(v, ino, fb) == 0
    ensures MapStep(v, vn, AddViaIndirect(v, ino, fb, b), vn, ino)
    ensures b != 0 && PtrOf(AddViaIndirect(v, ino, fb, b), ino, fb) == b
  {
    hide MapOk, Forward, Backward, CoreOk, SameBytes, OnlyFile;
    CoreGet(v, vn, ino);
    var w := AddViaIndirect(v, ino, fb, b);
    FreeIsNot(v, b);
    IndirectIs(v, ino);
    AddViaIndirectOk(v, ino, fb, b);
    AddViaIndirectPtr(v, ino, fb, b);
    CoreUntouched(v, vn, w);
    assert w.inodes == v.inodes[ino := v.inodes[ino]];
    OnlyInode(v, w, ino, v.inodes[ino]);
  }

  lemma FreeIsNot(v: Vol, b: nat)
    requires FreeBlock(v, b)
    ensures b != 0 && v.owner[b] == Free
  {
    assert v.owner[0] == Reserved;
  }

  lemma IndirectIs(v: Vol, ino: nat)
    requires Ok(v) && ino in v.inodes && v.inodes[ino].indirect != 0
    ensures v.owner[v.inodes[ino].indirect] == IndirectOf(ino)
  {
  }

  lemma CoreUntouched(v: Vol, vn: map<nat, Vnode>, w: Vol)
    requires Ok(v) && CoreOk(v, vn) && Sized(w) && |w.disk| == |v.disk| && w.inodes == v.inodes
    requires forall b :: 0 <= b < |v.disk| && v.owner[b].InodeAt? ==> w.disk[b] == v.disk[b]
    ensures CoreOk(w, vn)
  {
    forall j | j in v.inodes ensures v.owner[j] == InodeAt(j) {
    }
  }

  /** The `n` bytes of a file from position `off` on. */
  ghost function FileBytes(v: Vol, ino: nat, off: nat, n: nat): (s: seq<Byte>)
    requires Sized(v) && ino in v.inodes
    ensures |s| == n && forall k :: 0 <= k < n ==> s[k] == FileByte(v, ino, off + k)
  {
    if n == 0 then [] else FileBytes(v, ino, off, n - 1) + [FileByte(v, ino, off + n - 1)]
  }

  lemma BlockSplit(fb: nat, r: nat)
    requires r < BLOCKSIZE
    ensures (fb * BLOCKSIZE + r) / BLOCKSIZE == fb && (fb * BLOCKSIZE + r) % BLOCKSIZE == r
  {
  }

  /** Part of a file that lies within one block is the same part of that disk block. */
  lemma BlockBytes(v: Vol, ino: nat, fb: nat, skip: nat, len: nat)
    requires Sized(v) && ino in v.inodes && fb < MAXBLOCKS && PtrOf(v, ino, fb) < |v.disk| && skip + len <= BLOCKSIZE
    ensures var buf := if PtrOf(v, ino, fb) == 0 then Zeros(BLOCKSIZE) else v.disk[PtrOf(v, ino, fb)];
            buf[skip..][..len] == FileBytes(v, ino, fb * BLOCKSIZE + skip, len)
  {
    var buf := if PtrOf(v, ino, fb) == 0 then Zeros(BLOCKSIZE) else v.disk[PtrOf(v, ino, fb)];
    var part := buf[skip..][..len];
    forall k | 0 <= k < len ensures part[k] == FileByte(v, ino, fb * BLOCKSIZE + skip + k) {
      BlockSplit(fb, skip + k);
      hide Sized, PtrOf;
    }
    hide FileByte;
  }

  lemma FileBytesAppend(v: Vol, ino: nat, off: nat, a: nat, b: nat)
    requires Sized(v) && ino in v.inodes
    ensures FileBytes(v, ino, off, a) + FileBytes(v, ino, off + a, b) == FileBytes(v, ino, off, a + b)
  {
    hide FileByte, Sized;
  }

  /** Two reads in a row fill memory like one longer read. */
  lemma ReadAppend(v: Vol, ino: nat, mem: seq<Byte>, base: nat, off: nat, a: nat, b: nat)
    requires Sized(v) && ino in v.inodes && base + a + b <= |mem|
    ensures Overlay(Overlay(mem, base, FileBytes(v, ino, off, a)), base + a, FileBytes(v, ino, off + a, b))
            == Overlay(mem, base, FileBytes(v, ino, off, a + b))
  {
    OverlayAppend(mem, base, FileBytes(v, ino, off, a), FileBytes(v, ino, off + a, b));
    FileBytesAppend(v, ino, off, a, b);
  }

  /** Two writes in a row out of the same memory are one longer write. */
  lemma WriteMore(v: Vol, vn: map<nat, Vnode>, w: Vol, vnw: map<nat, Vnode>, x: Vol, vnx: map<nat, Vnode>,
                  ino: nat, off: nat, mem: seq<Byte>, base: nat, a: nat, b: nat)
    requires base + a + b <= |mem|
    requires WriteStep(v, vn, w, vnw, ino, off, mem[base..base + a])
    requires WriteStep(w, vnw, x, vnx, ino, off + a, mem[base + a..base + a + b])
    ensures WriteStep(v, vn, x, vnx, ino, off, mem[base..base + (a + b)])
  {
    hide WriteStep;
    WriteStepAppend(v, vn, w, vnw, x, vnx, ino, off, mem[base..base + a], mem[base + a..base + a + b]);
    assert mem[base..base + a] + mem[base + a..base + a + b] == mem[base..base + (a + b)];
  }

  /** A write of `data` at `off`, before the size is adjusted. */
  ghost predicate WriteStep(v: Vol, vn: map<nat, Vnode>, w: Vol, vnw: map<nat, Vnode>, ino: nat, off: nat,
                            data: seq<Byte>) {
    && Stored(v, w, ino, off, data) && w.inodes[ino].size == v.inodes[ino].size
    && CoreOk(v, vn) && CoreOk(w, vnw) && CoreStep(vn, vnw, ino)
  }

  lemma MapStepWrites(v: Vol, vn: map<nat, Vnode>, w: Vol, vnw: map<nat, Vnode>, ino: nat, off: nat)
    requires MapStep(v, vn, w, vnw, ino)
    ensures WriteStep(v, vn, w, vnw, ino, off, [])
  {
    hide Ok, CoreOk, FileByte;
  }

  lemma WriteStepAppend(v: Vol, vn: map<nat, Vnode>, w: Vol, vnw: map<nat, Vnode>, x: Vol, vnx: map<nat, Vnode>,
                        ino: nat, off: nat, a: seq<Byte>, b: seq<Byte>)
    requires WriteStep(v, vn, w, vnw, ino, off, a) && WriteStep(w, vnw, x, vnx, ino, off + |a|, b)
    ensures WriteStep(v, vn, x, vnx, ino, off, a + b)
  {
    hide Ok, CoreOk, FileByte, OnlyFile, Stored;
    StoredAppend(v, w, x, ino, off, a, b);
  }

  lemma WriteStepOk(v: Vol, vn: map<nat, Vnode>, w: Vol, vnw: map<nat, Vnode>, ino: nat, off: nat, data: seq<Byte>)
    requires WriteStep(v, vn, w, vnw, ino, off, data)
    ensures Ok(w) && CoreOk(w, vnw) && ino in vnw && vnw.Keys == vn.Keys && w.inodes.Keys == v.inodes.Keys
    ensures |w.disk| == |v.disk|
  {
    hide Ok, CoreOk, FileByte;
  }

  /** Overwriting part of a mapped block stores exactly those bytes of the file. */
  lemma PutStored(v: Vol, ino: nat, fb: nat, skip: nat, data: seq<Byte>)
    requires Ok(v) && ino in v.inodes && fb < MAXBLOCKS && 0 < PtrOf(v, ino, fb) < |v.disk|
    requires skip + |data| <= BLOCKSIZE
    ensures Stored(v, PutBlock(v, PtrOf(v, ino, fb), Overlay(v.disk[PtrOf(v, ino, fb)], skip, data)), ino,
              fb * BLOCKSIZE + skip, data)
  {
    var p := PtrOf(v, ino, fb);
    var content := Overlay(v.disk[p], skip, data);
    var w := PutBlock(v, p, content);
    hide Ok, Sized, PtrOf, FileByte, Overlay, PutBlock, OnlyFile;
    OkSized(v);
    PutOnlyFile(v, ino, fb, content);
    var off := fb * BLOCKSIZE + skip;
    forall pos: nat
      ensures FileByte(w, ino, pos) == if off <= pos < off + |data| then data[pos - off] else FileByte(v, ino, pos)
    {
      PutStoredAt(v, ino, fb, skip, data, pos, FileByte(w, ino, pos));
    }
  }

  lemma OkSized(v: Vol)
    requires Ok(v)
    ensures Sized(v) && forall p :: 0 <= p < |v.disk| ==> |v.disk[p]| == BLOCKSIZE
  {
    hide MapOk, Forward, Backward;
  }

  lemma PutOnlyFile(v: Vol, ino: nat, fb: nat, content: Block)
    requires Ok(v) && ino in v.inodes && fb < MAXBLOCKS && 0 < PtrOf(v, ino, fb) < |v.disk| && |content| == BLOCKSIZE
    ensures var w := PutBlock(v, PtrOf(v, ino, fb), content);
            && OnlyFile(v, w, ino) && Sized(w) && ino in w.inodes
            && forall pos: nat :: FileByte(w, ino, pos) == if pos / BLOCKSIZE == fb then content[pos % BLOCKSIZE]
                 else FileByte(v, ino, pos)
  {
    hide MapOk, Forward, Backward, PtrOf, FileByte;
    PutBlockOk(v, ino, fb, content);
  }

  lemma PutStoredAt(v: Vol, ino: nat, fb: nat, skip: nat, data: seq<Byte>, pos: nat, b: Byte)
    requires Sized(v) && ino in v.inodes && fb < MAXBLOCKS && 0 < PtrOf(v, ino, fb) < |v.disk|
    requires skip + |data| <= BLOCKSIZE
    requires b == if pos / BLOCKSIZE == fb then Overlay(v.disk[PtrOf(v, ino, fb)], skip, data)[pos % BLOCKSIZE]
               else FileByte(v, ino, pos)
    ensures b ==
              if fb * BLOCKSIZE + skip <= pos < fb * BLOCKSIZE + skip + |data| then data[pos - (fb * BLOCKSIZE + skip)]
                 else FileByte(v, ino, pos)
  {
    hide PtrOf, FileByte, Overlay;
    OldByte(v, ino, fb, pos);
    OverlaidByte(v.disk[PtrOf(v, ino, fb)], skip, data, fb, pos);
  }

  lemma OverlayTail(buf: seq<Byte>, skip: nat, data: seq<Byte>)
    requires skip + |data| <= |buf|
    ensures buf[..skip] + Overlay(buf[skip..], 0, data) == Overlay(buf, skip, data)
  {
  }

  /** A position, its block and its place in the block. */
  lemma OverlaidByte(block: Block, skip: nat, data: seq<Byte>, fb: nat, pos: nat)
    requires |block| == BLOCKSIZE && skip + |data| <= BLOCKSIZE
    ensures pos / BLOCKSIZE == fb ==>
              Overlay(block, skip, data)[pos % BLOCKSIZE] ==
              if fb * BLOCKSIZE + skip <= pos < fb * BLOCKSIZE + skip + |data| then data[pos - fb * BLOCKSIZE - skip]
                else block[pos % BLOCKSIZE]
    ensures pos / BLOCKSIZE != fb ==> !(fb * BLOCKSIZE + skip <= pos < fb * BLOCKSIZE + skip + |data|)
  {
    assert pos == BLOCKSIZE * (pos / BLOCKSIZE) + pos % BLOCKSIZE;
  }

  lemma OldByte(v: Vol, ino: nat, fb: nat, pos: nat)
    requires Sized(v) && ino in v.inodes && fb < MAXBLOCKS && 0 < PtrOf(v, ino, fb) < |v.disk|
    ensures pos / BLOCKSIZE == fb ==> FileByte(v, ino, pos) == v.disk[PtrOf(v, ino, fb)][pos % BLOCKSIZE]
  {
    hide PtrOf, Sized;
  }

  lemma PutStep(v: Vol, vn: map<nat, Vnode>, ino: nat, fb: nat, skip: nat, data: seq<Byte>)
    requires Ok(v) && CoreOk(v, vn) && ino in vn && ino in v.inodes && fb < MAXBLOCKS
    requires 0 < PtrOf(v, ino, fb) < |v.disk| && skip + |data| <= BLOCKSIZE
    ensures WriteStep(v, vn, PutBlock(v, PtrOf(v, ino, fb), Overlay(v.disk[PtrOf(v, ino, fb)], skip, data)), vn,
                      ino, fb * BLOCKSIZE + skip, data)
  {
    var p := PtrOf(v, ino, fb);
    assert v.owner[p] == DataOf(ino, fb);
    hide MapOk, Forward, Backward, CoreOk, FileByte, OnlyFile;
    var w := PutBlock(v, p, Overlay(v.disk[p], skip, data));
    PutStored(v, ino, fb, skip, data);
    StoredSized(v, w, ino, fb * BLOCKSIZE + skip, data);
    CoreUntouched(v, vn, w);
  }

  lemma StoredSized(v: Vol, w: Vol, ino: nat, off: nat, data: seq<Byte>)
    requires Stored(v, w, ino, off, data)
    ensures Ok(w) && ino in w.inodes && ino in v.inodes
  {
    hide Ok;
  }

  lemma NothingTransferred(v: Vol, vn: map<nat, Vnode>, ino: nat, off: nat)
    requires Ok(v) && CoreOk(v, vn) && ino in vn && ino in v.inodes
    ensures WriteStep(v, vn, v, vn, ino, off, []) && FileBytes(v, ino, off, 0) == []
  {
    MapStepRefl(v, vn, ino);
    MapStepWrites(v, vn, v, vn, ino, off);
  }

  /** `m` bytes between the file from `off` on and the memory from `base` on, either way. */
  ghost predicate Moved(v: Vol, vn: map<nat, Vnode>, w: Vol, vnw: map<nat, Vnode>, ino: nat, rw: Rw,
                        mem: seq<Byte>, mem': seq<Byte>, base: nat, off: nat, m: nat) {
    && base + m <= |mem| && Sized(v) && ino in v.inodes
    && match rw
       case Read => w == v && vnw == vn && mem' == Overlay(mem, base, FileBytes(v, ino, off, m))
       case Write => mem' == mem && WriteStep(v, vn, w, vnw, ino, off, mem[base..base + m])
  }

  lemma MovedNothing(v: Vol, vn: map<nat, Vnode>, ino: nat, rw: Rw, mem: seq<Byte>, base: nat, off: nat)
    requires Ok(v) && CoreOk(v, vn) && ino in vn && ino in v.inodes && base <= |mem|
    ensures Moved(v, vn, v, vn, ino, rw, mem, mem, base, off, 0)
  {
    hide WriteStep, Sized, Ok, CoreOk, Overlay;
    OkSized(v);
    NothingTransferred(v, vn, ino, off);
    OverlayNothing(mem, base);
    assert mem[base..base + 0] == [];
  }

  /** One stretch after another. */
  lemma MovedMore(v: Vol, vn: map<nat, Vnode>, w: Vol, vnw: map<nat, Vnode>, x: Vol, vnx: map<nat, Vnode>, ino: nat,
                  rw: Rw, mem: seq<Byte>, mem1: seq<Byte>, mem2: seq<Byte>, base: nat, off: nat, a: nat, b: nat)
    requires Moved(v, vn, w, vnw, ino, rw, mem, mem1, base, off, a) && base + a + b <= |mem|
    requires Moved(w, vnw, x, vnx, ino, rw, mem1, mem2, base + a, off + a, b)
    ensures Moved(v, vn, x, vnx, ino, rw, mem, mem2, base, off, a + b)
  {
    hide WriteStep, Sized, Overlay, FileBytes;
    if rw.Read? {
      ReadAppend(v, ino, mem, base, off, a, b);
    } else {
      WriteMore(v, vn, w, vnw, x, vnx, ino, off, mem, base, a, b);
    }
  }

  /** The block that a request at `off` starts in is not mapped. */
  ghost predicate FirstUnmapped(v: Vol, ino: nat, off: nat) {
    Sized(v) && ino in v.inodes && off / BLOCKSIZE < MAXBLOCKS && PtrOf(v, ino, off / BLOCKSIZE) == 0
  }

  // ---------------------------------------------------------------------------------------
  // When a write succeeds

  /** What mapping blocks `lo` up to `hi` of a file comes to. */
  ghost function IoErr(v: Vol, ino: nat, lo: nat, hi: nat): Err
    requires Sized(v) && ino in v.inodes
  {
    if Room(v) < Need(v, ino, lo, hi) then ENOSPC else if lo < hi && hi > MAXBLOCKS then EINVAL else OK
  }

  /** The end of the blocks that a request for `n` bytes at `off` touches. */
  function EndBlock(off: nat, n: nat): (e: nat)
    ensures off + n <= e * BLOCKSIZE < off + n + BLOCKSIZE
  {
    (off + n + BLOCKSIZE - 1) / BLOCKSIZE
  }

  /** The blocks of the first part are had, so the rest decides. */
  lemma IoGoesOn(v: Vol, w: Vol, ino: nat, lo: nat, mid: nat, hi: nat)
    requires Had(v, w, ino, lo, mid) && mid <= hi
    ensures IoErr(v, ino, lo, hi) == IoErr(w, ino, mid, hi)
  {
    hide Sized, PtrOf, Room, Need;
    NeedSplit(v, w, ino, lo, mid, hi);
  }

  /** A request that fails in its first part fails the same way whatever follows. */
  lemma IoStops(v: Vol, ino: nat, lo: nat, mid: nat, hi: nat)
    requires Sized(v) && ino in v.inodes && lo <= mid <= hi && IoErr(v, ino, lo, mid) != OK
    ensures IoErr(v, ino, lo, hi) == IoErr(v, ino, lo, mid)
  {
    hide Sized, PtrOf, Room, Need;
    NeedGrows(v, ino, lo, mid, hi);
  }

  lemma IoNothing(v: Vol, ino: nat, lo: nat)
    requires Sized(v) && ino in v.inodes
    ensures IoErr(v, ino, lo, lo) == OK && Had(v, v, ino, lo, lo)
  {
    hide Sized, PtrOf, Room, Had;
    HadNothing(v, ino, lo);
    assert Holes(v, ino, lo, lo) == {};
  }

  lemma HadIsOk(v: Vol, w: Vol, ino: nat, lo: nat, hi: nat)
    requires Had(v, w, ino, lo, hi)
    ensures IoErr(v, ino, lo, hi) == OK
  {
    hide Sized, PtrOf, Room, Need;
  }

  /** The free blocks and the pointers of a file are the same. */
  ghost predicate SamePtrs(v: Vol, w: Vol, ino: nat) {
    && Sized(v) && Sized(w) && ino in v.inodes && ino in w.inodes && w.used == v.used
    && w.inodes[ino].indirect == v.inodes[ino].indirect
    && forall f: nat :: f < MAXBLOCKS ==> PtrOf(w, ino, f) == PtrOf(v, ino, f)
  }

  lemma PutPtrs(v: Vol, ino: nat, fb: nat, content: Block)
    requires Ok(v) && ino in v.inodes && fb < MAXBLOCKS && 0 < PtrOf(v, ino, fb) < |v.disk| && |content| == BLOCKSIZE
    ensures SamePtrs(v, PutBlock(v, PtrOf(v, ino, fb), content), ino)
  {
    hide MapOk, Backward;
    var p := PtrOf(v, ino, fb);
    assert v.owner[p] == DataOf(ino, fb);
    OtherBlockSamePtr(v, p, content);
  }

  lemma PtrsRefl(v: Vol, ino: nat)
    requires Sized(v) && ino in v.inodes
    ensures SamePtrs(v, v, ino)
  {
    hide Sized, PtrOf;
  }

  lemma IoOne(v: Vol, ino: nat, fb: nat)
    requires Sized(v) && ino in v.inodes
    ensures fb >= MAXBLOCKS ==> IoErr(v, ino, fb, fb + 1) == EINVAL
    ensures fb < MAXBLOCKS ==> IoErr(v, ino, fb, fb + 1) == if Room(v) < Need(v, ino, fb, fb + 1) then ENOSPC else OK
  {
    hide Sized, PtrOf, Room;
    if fb >= MAXBLOCKS {
      assert Holes(v, ino, fb, fb + 1) == {};
    }
  }

  /** How many bytes a read finds before the end of the file. */
  function ReadSpan(size: nat, off: nat, len: nat): (n: nat)
    ensures n <= len && (n > 0 ==> off + n <= size) && (n < len ==> off + n >= size)
  {
    if off >= size then 0 else Min(len, size - off)
  }

  function Max(a: nat, b: nat): nat {
    if a < b then b else a
  }

  /**
   A whole write: the bytes are stored and the file reaches at least to the end of the write.
   The size also moves up to `off` when not a single byte was stored.
   */
  ghost predicate Wrote(v: Vol, vn: map<nat, Vnode>, w: Vol, vnw: map<nat, Vnode>, ino: nat, off: nat,
                        data: seq<Byte>) {
    && Stored(v, w, ino, off, data) && w.inodes[ino].size == Max(v.inodes[ino].size, off + |data|)
    && CoreOk(v, vn) && CoreOk(w, vnw) && CoreStep(vn, vnw, ino)
  }

  lemma WroteOk(v: Vol, vn: map<nat, Vnode>, w: Vol, vnw: map<nat, Vnode>, ino: nat, off: nat, data: seq<Byte>)
    requires Wrote(v, vn, w, vnw, ino, off, data)
    ensures Ok(w) && CoreOk(w, vnw) && ino in vnw && vnw.Keys == vn.Keys && w.inodes.Keys == v.inodes.Keys
    ensures |w.disk| == |v.disk|
  {
    hide Ok, CoreOk, FileByte;
  }

  /** Adjusting the size after the transfer completes the write. */
  lemma ResizeWrote(v: Vol, vn: map<nat, Vnode>, w: Vol, vnw: map<nat, Vnode>, ino: nat, off: nat, data: seq<Byte>)
    requires WriteStep(v, vn, w, vnw, ino, off, data) && ino in w.inodes && ino in vnw && off + |data| <= MAXOFF
    ensures off + |data| <= w.inodes[ino].size ==> Wrote(v, vn, w, vnw, ino, off, data)
    ensures var i := w.inodes[ino].(size := off + |data|);
            off + |data| > w.inodes[ino].size ==>
              Wrote(v, vn, SetMeta(w, ino, i), vnw[ino := vnw[ino].(i := i, dirty := true)], ino, off, data)
  {
    hide MapOk, Forward, Backward, CoreOk, FileByte, Sized, OnlyFile, Stored;
    if off + |data| > w.inodes[ino].size {
      WriteStepOk(v, vn, w, vnw, ino, off, data);
      SizeStored(v, w, ino, off, data);
      SizeCore(w, vnw, ino, off + |data|);
    }
  }

  lemma SizeStored(v: Vol, w: Vol, ino: nat, off: nat, data: seq<Byte>)
    requires Stored(v, w, ino, off, data) && ino in w.inodes
    ensures Stored(v, SetMeta(w, ino, w.inodes[ino].(size := off + |data|)), ino, off, data)
  {
    hide MapOk, Forward, Backward, FileByte, Stored, SameBytes;
    StoredSized(v, w, ino, off, data);
    var x := SetMeta(w, ino, w.inodes[ino].(size := off + |data|));
    SetMetaOk(w, ino, x.inodes[ino]);
    SizeOnlyFile(w, x, ino);
    StoredNothing(w, x, ino, off + |data|);
    StoredAppend(v, w, x, ino, off, data, []);
    assert data + [] == data;
  }

  lemma SizeOnlyFile(w: Vol, x: Vol, ino: nat)
    requires Ok(w) && Ok(x) && ino in w.inodes && SameBytes(w, x) && |x.disk| == |w.disk|
    requires exists size :: x.inodes == w.inodes[ino := w.inodes[ino].(size := size)]
    ensures OnlyFile(w, x, ino)
  {
    hide Ok, FileByte, Sized;
  }

  lemma SizeCore(w: Vol, vnw: map<nat, Vnode>, ino: nat, size: nat)
    requires Ok(w) && CoreOk(w, vnw) && ino in vnw && ino in w.inodes && size <= MAXOFF
    ensures var i := w.inodes[ino].(size := size);
            Ok(SetMeta(w, ino, i)) && CoreOk(SetMeta(w, ino, i), vnw[ino := vnw[ino].(i := i, dirty := true)])
  {
    hide MapOk, Forward, Backward, CoreOk;
    CoreGet(w, vnw, ino);
    var i := w.inodes[ino].(size := size);
    SetMetaOk(w, ino, i);
    CoreKept(w, vnw, SetMeta(w, ino, i), ino, i);
  }

  class Sfs {
    var disk: seq<Block>
    var freemap: seq<bool>
    var vnodes: map<nat, Vnode>
    ghost var inodes: map<nat, Inode>
    ghost var owner: seq<Owner>

    /** A file system just mounted, with nothing in memory but its free map. */
    constructor (disk: seq<Block>, freemap: seq<bool>, ghost inodes: map<nat, Inode>, ghost owner: seq<Owner>)
      ensures V() == Vol(disk, freemap, inodes, owner) && vnodes == map[]
    {
      this.disk, this.freemap, this.vnodes := disk, freemap, map[];
      this.inodes, this.owner := inodes, owner;
    }

    ghost function V(): Vol
      reads this
    {
      Vol(disk, freemap, inodes, owner)
    }

    /** No block is free. */
    static predicate Full(bits: seq<bool>) {
      forall k :: 0 <= k < |bits| ==> bits[k]
    }

    ghost predicate Valid()
      reads this
    {
      Ok(V()) && CoreOk(V(), vnodes)
    }

    /**
     sfs_balloc: take the lowest free block and clear it.  The block found is on the disk,
     so the range check behind the allocation never panics.
     */
    method BAlloc() returns (err: Err, b: nat)
      requires Ok(V())
      modifies this`disk, this`freemap
      ensures err == OK || err == ENOSPC
      ensures err == OK ==> FreeBlock(old(V()), b) && b == Bitmap.FirstClear(old(freemap))
      ensures err == OK ==> disk == old(disk)[b := Zeros(BLOCKSIZE)] && freemap == old(freemap)[b := true]
      ensures err == ENOSPC ==> disk == old(disk) && freemap == old(freemap) && Full(freemap)
      ensures err == ENOSPC <==> FreeSet(old(freemap)) == {}
      ensures err == OK ==> |FreeSet(freemap)| + 1 == |FreeSet(old(freemap))|
    {
      NoRoom(freemap);
      b := Bitmap.FirstClear(freemap);
      if b == |freemap| {
        return ENOSPC, 0;
      }
      assert b < |disk|;
      RoomTaken(freemap, b);
      freemap := freemap[b := true];
      disk := disk[b := Zeros(BLOCKSIZE)];
      err := OK;
    }

    /** The in-memory copy of an inode changes and must be written back some time. */
    method SetInode(ino: nat, i: Inode)
      requires ino in vnodes
      modifies this`vnodes, this`inodes
      ensures vnodes == old(vnodes)[ino := old(vnodes)[ino].(i := i, dirty := true)]
      ensures inodes == old(inodes)[ino := i]
    {
      vnodes := vnodes[ino := vnodes[ino].(i := i, dirty := true)];
      inodes := inodes[ino := i];
    }

    /** What an attempt to map one block comes to, and what it leaves of the free ones if it succeeds. */
    static ghost predicate Mapped(v: Vol, w: Vol, ino: nat, fb: nat, err: Err) {
      Sized(v) && ino in v.inodes && err == IoErr(v, ino, fb, fb + 1) && (err == OK ==> Had(v, w, ino, fb, fb + 1))
    }

    /** The same for blocks `lo` up to `hi`, in order; it stops at block `at`, the first that cannot be had. */
    static ghost predicate Went(v: Vol, w: Vol, ino: nat, lo: nat, hi: nat, at: nat, err: Err) {
      && Sized(v) && ino in v.inodes
      && if err == OK then Had(v, w, ino, lo, hi)
         else lo <= at < hi && IoErr(v, ino, lo, at) == OK && IoErr(v, ino, lo, at + 1) == err
    }

    static lemma WentErr(v: Vol, w: Vol, ino: nat, lo: nat, hi: nat, at: nat, err: Err)
      requires Went(v, w, ino, lo, hi, at, err)
      ensures Sized(v) && ino in v.inodes && err == IoErr(v, ino, lo, hi)
    {
      hide Sized, Had, IoErr;
      if err == OK {
        HadIsOk(v, w, ino, lo, hi);
      } else {
        IoStops(v, ino, lo, at + 1, hi);
      }
    }

    static lemma MappedWent(v: Vol, w: Vol, ino: nat, fb: nat, err: Err)
      requires Mapped(v, w, ino, fb, err)
      ensures Went(v, w, ino, fb, fb + 1, fb, err)
    {
      hide Sized, Had, IoErr;
      IoNothing(v, ino, fb);
    }

    static lemma WentNowhere(v: Vol, ino: nat, lo: nat)
      requires Sized(v) && ino in v.inodes
      ensures Went(v, v, ino, lo, lo, lo, OK)
    {
      hide Sized, Had, IoErr;
      IoNothing(v, ino, lo);
    }

    /** One part of a request after another. */
    static lemma WentOn(v: Vol, w: Vol, x: Vol, ino: nat, lo: nat, mid: nat, hi: nat, at: nat, err: Err)
      requires Went(v, w, ino, lo, mid, mid, OK) && Went(w, x, ino, mid, hi, at, err) && mid <= hi
      ensures Went(v, x, ino, lo, hi, at, err)
    {
      hide Sized, IoErr;
      if err == OK {
        HadMore(v, w, x, ino, lo, mid, hi);
      } else {
        IoGoesOn(v, w, ino, lo, mid, at);
        IoGoesOn(v, w, ino, lo, mid, at + 1);
      }
    }

    /** Where a request stops is of no account if it does not. */
    static lemma WentAll(v: Vol, w: Vol, ino: nat, lo: nat, hi: nat, at: nat, to: nat)
      requires Went(v, w, ino, lo, hi, at, OK)
      ensures Went(v, w, ino, lo, hi, to, OK)
    {
      hide Sized, Had;
    }

    /** A request that stops stops for good. */
    static lemma WentWrong(v: Vol, w: Vol, ino: nat, lo: nat, mid: nat, hi: nat, at: nat, err: Err)
      requires Went(v, w, ino, lo, mid, at, err) && err != OK && mid <= hi
      ensures Went(v, w, ino, lo, hi, at, err)
    {
      hide Sized, Had, IoErr;
    }

    /** The leading partial block is one block, or none. */
    static lemma HeadEnd(off: nat)
      ensures EndBlock(off - off % BLOCKSIZE, off % BLOCKSIZE) ==
              off / BLOCKSIZE + if off % BLOCKSIZE != 0 then 1 else 0
    {
    }

    /** The bytes before the first block boundary. */
    static function HeadLen(off: nat, n: nat): nat {
      if off % BLOCKSIZE == 0 then 0 else Min(BLOCKSIZE - off % BLOCKSIZE, n)
    }

    /** The leading part and the rest make up the request. */
    static lemma HeadAndTail(off: nat, n: nat)
      ensures var t, end := HeadLen(off, n), EndBlock(off - off % BLOCKSIZE, off % BLOCKSIZE);
              && t <= n && end <= EndBlock(off, n) && (t == n ==> end == EndBlock(off, n))
              && (t < n ==> (off + t) / BLOCKSIZE == end && EndBlock(off + t, n - t) == EndBlock(off, n))
    {
      HeadEnd(off);
      var q, k := off / BLOCKSIZE, off % BLOCKSIZE;
      assert off == BLOCKSIZE * q + k;
    }

    /** The whole blocks of an aligned request, and one more for what is left. */
    static lemma TailEnd(off: nat, n: nat)
      requires off % BLOCKSIZE == 0
      ensures EndBlock(off, n) == off / BLOCKSIZE + n / BLOCKSIZE + if n % BLOCKSIZE != 0 then 1 else 0
      ensures off / BLOCKSIZE + n / BLOCKSIZE == (off + n) / BLOCKSIZE
    {
    }

    /** sfs_bmap for one of the blocks the inode points to itself. */
    method BMapDirect(ino: nat, fb: nat, doalloc: bool) returns (err: Err, b: nat)
      requires Valid() && ino in vnodes && fb < NDIRECT
      modifies this
      ensures Valid() && ino in vnodes && MapStep(old(V()), old(vnodes), V(), vnodes, ino)
      ensures !doalloc || err != OK ==> V() == old(V()) && vnodes == old(vnodes)
      ensures err == OK ==> b == PtrOf(V(), ino, fb) && (doalloc ==> b != 0)
      ensures err != OK ==> doalloc && err == ENOSPC && Full(freemap) && PtrOf(old(V()), ino, fb) == 0
      ensures doalloc ==> Mapped(old(V()), V(), ino, fb, err)
    {
      hide MapOk, Forward, Backward, CoreOk, OnlyFile, SameBytes, Had, Need;
      ghost var v0 := V();
      CoreGet(v0, vnodes, ino);
      MapStepRefl(v0, vnodes, ino);
      NeedOne(v0, ino, fb);
      err := OK;
      b := vnodes[ino].i.direct[fb];
      if b != 0 {
        MappedAlready(v0, ino, fb);
        HadIsOk(v0, v0, ino, fb, fb + 1);
      }
      if b == 0 && doalloc {
        err, b := BAlloc();
        if err == OK {
          AddDirectStep(v0, vnodes, ino, fb, b);
          DirectHad(v0, ino, fb, b);
          HadIsOk(v0, AddDirect(v0, ino, fb, b), ino, fb, fb + 1);
          var i := vnodes[ino].i;
          SetInode(ino, i.(direct := i.direct[fb := b]));
          owner := owner[b := DataOf(ino, fb)];
          assert V() == AddDirect(v0, ino, fb, b);
          MapStepOk(v0, old(vnodes), V(), vnodes, ino);
        }
      }
    }

    /** Get the indirect block of an inode, allocating one if there is none. */
    method GetIndirect(ino: nat) returns (err: Err, idblock: nat)
      requires Valid() && ino in vnodes
      modifies this
      ensures Valid() && ino in vnodes && MapStep(old(V()), old(vnodes), V(), vnodes, ino)
      ensures forall f :: 0 <= f < MAXBLOCKS ==> PtrOf(V(), ino, f) == PtrOf(old(V()), ino, f)
      ensures err == OK ==> idblock == inodes[ino].indirect != 0
      ensures old(vnodes)[ino].i.indirect != 0 ==> err == OK && V() == old(V()) && vnodes == old(vnodes)
      ensures err != OK ==> err == ENOSPC && Full(freemap) && V() == old(V()) && vnodes == old(vnodes)
      ensures old(vnodes)[ino].i.indirect == 0 ==> (err == ENOSPC <==> Room(old(V())) == 0)
      ensures old(vnodes)[ino].i.indirect == 0 && err == OK ==> Room(V()) + 1 == Room(old(V()))
    {
      hide MapOk, Forward, Backward, CoreOk, OnlyFile, SameBytes;
      ghost var v0 := V();
      CoreGet(v0, vnodes, ino);
      MapStepRefl(v0, vnodes, ino);
      err := OK;
      idblock := vnodes[ino].i.indirect;
      if idblock == 0 {
        err, idblock := BAlloc();
        if err == OK {
          AddIndirectStep(v0, vnodes, ino, idblock);
          SetInode(ino, vnodes[ino].i.(indirect := idblock));
          owner := owner[idblock := IndirectOf(ino)];
          assert V() == AddIndirect(v0, ino, idblock);
          MapStepOk(v0, old(vnodes), V(), vnodes, ino);
        }
      }
    }

    /** sfs_bmap for a block found through the indirect block. */
    method BMapIndirect(ino: nat, fb: nat, doalloc: bool) returns (err: Err, b: nat)
      requires Valid() && ino in vnodes && NDIRECT <= fb < MAXBLOCKS
      modifies this
      ensures Valid() && ino in vnodes && MapStep(old(V()), old(vnodes), V(), vnodes, ino)
      ensures !doalloc ==> V() == old(V()) && vnodes == old(vnodes)
      ensures err == OK ==> b == PtrOf(V(), ino, fb) && (doalloc ==> b != 0)
      ensures err != OK ==> doalloc && err == ENOSPC && Full(freemap) && PtrOf(old(V()), ino, fb) == 0
      ensures doalloc ==> Mapped(old(V()), V(), ino, fb, err)
    {
      hide MapOk, Forward, Backward, CoreOk, OnlyFile, SameBytes, Had, Need, Room, Mapped;
      CoreGet(V(), vnodes, ino);
      ghost var v0 := V();
      if vnodes[ino].i.indirect == 0 && !doalloc {
        MapStepRefl(V(), vnodes, ino);
        return OK, 0;
      }
      var idblock;
      err, idblock := GetIndirect(ino);
      if err != OK {
        NoIndirect(v0, v0, v0, ino, fb, err);
        return err, 0;
      }
      ghost var v1, vn1 := V(), vnodes;
      CoreGet(v1, vn1, ino);
      err, b := ThroughIndirect(ino, fb, idblock, doalloc);
      MapStepTrans(old(V()), old(vnodes), v1, vn1, V(), vnodes, ino);
      if v0.inodes[ino].indirect == 0 && doalloc {
        NoIndirect(v0, v1, V(), ino, fb, err);
      }
    }

    /** Mapping through an indirect block that has to be had first. */
    static lemma NoIndirect(v: Vol, w: Vol, x: Vol, ino: nat, fb: nat, err: Err)
      requires Sized(v) && ino in v.inodes && NDIRECT <= fb < MAXBLOCKS && v.inodes[ino].indirect == 0
      requires (w == v && err == ENOSPC && Room(v) == 0) ||
               (Mapped(w, x, ino, fb, err) && w.inodes[ino].indirect != 0 && Room(w) + 1 == Room(v)
                && forall f: nat :: f < MAXBLOCKS ==> PtrOf(w, ino, f) == PtrOf(v, ino, f))
      ensures Mapped(v, x, ino, fb, err)
    {
      hide Sized, Room, Need, Had;
      NeedOne(v, ino, fb);
      if err == OK {
        IndirectThen(v, w, x, ino, fb);
        HadIsOk(v, x, ino, fb, fb + 1);
      } else if Room(v) > 0 {
        NeedOne(w, ino, fb);
      }
    }

    /** The entry of the indirect block, filled in if it is empty and a block is wanted. */
    method ThroughIndirect(ino: nat, fb: nat, idblock: nat, doalloc: bool) returns (err: Err, b: nat)
      requires Valid() && ino in vnodes && ino in inodes && NDIRECT <= fb < MAXBLOCKS && idblock != 0
      requires inodes[ino].indirect == idblock
      modifies this`disk, this`freemap, this`owner
      ensures Valid() && MapStep(old(V()), old(vnodes), V(), vnodes, ino)
      ensures !doalloc ==> V() == old(V())
      ensures err == OK ==> b == PtrOf(V(), ino, fb) && (doalloc ==> b != 0)
      ensures err != OK ==> doalloc && err == ENOSPC && Full(freemap) && PtrOf(old(V()), ino, fb) == 0
      ensures doalloc ==> Mapped(old(V()), V(), ino, fb, err)
    {
      hide MapOk, Forward, Backward, CoreOk, OnlyFile, SameBytes, MapStep, PutWord, Had, Need;
      ghost var v1 := V();
      CoreGet(v1, vnodes, ino);
      MapStepRefl(v1, vnodes, ino);
      var idbuf := disk[idblock];
      var idoff := fb - NDIRECT;
      b := Word(idbuf, idoff);
      err := OK;
      NeedOne(v1, ino, fb);
      if b != 0 {
        MappedAlready(v1, ino, fb);
        HadIsOk(v1, v1, ino, fb, fb + 1);
      }
      if b == 0 && doalloc {
        err, b := BAlloc();
        if err == OK {
          AddViaIndirectStep(v1, vnodes, ino, fb, b);
          ViaIndirectHad(v1, ino, fb, b);
          HadIsOk(v1, AddViaIndirect(v1, ino, fb, b), ino, fb, fb + 1);
          assert v1.disk[idblock] == disk[idblock] by {
            FreeIsNot(v1, b);
            IndirectIs(v1, ino);
          }
          disk := disk[idblock := PutWord(idbuf, idoff, b)];
          owner := owner[b := DataOf(ino, fb)];
          assert V() == AddViaIndirect(v1, ino, fb, b);
          MapStepOk(v1, vnodes, V(), vnodes, ino);
        }
      }
    }

    /**
     sfs_bmap: the disk block behind block `fb` of a file, allocated if asked for.  The block
     handed back is marked in use, so the check behind it never panics.
     */
    method BMap(ino: nat, fb: nat, doalloc: bool) returns (err: Err, b: nat)
      requires Valid() && ino in vnodes
      modifies this
      ensures Valid() && ino in vnodes && MapStep(old(V()), old(vnodes), V(), vnodes, ino)
      ensures !doalloc ==> V() == old(V()) && vnodes == old(vnodes)
      ensures err == EINVAL <==> fb >= MAXBLOCKS
      ensures err == EINVAL ==> V() == old(V()) && vnodes == old(vnodes)
      ensures err == OK ==> b == PtrOf(V(), ino, fb) < |disk| && (doalloc ==> b != 0) && (b != 0 ==> freemap[b])
      ensures err != OK && err != EINVAL ==> doalloc && err == ENOSPC && Full(freemap) && PtrOf(old(V()), ino, fb) == 0
      ensures doalloc ==> Mapped(old(V()), V(), ino, fb, err)
    {
      hide Mapped, Had, Need;
      CoreGet(V(), vnodes, ino);
      if fb < NDIRECT {
        err, b := BMapDirect(ino, fb, doalloc);
      } else {
        var idnum := (fb - NDIRECT) / DBPERIDB;
        if idnum > 0 {
          MapStepRefl(V(), vnodes, ino);
          TooFar(V(), ino, fb);
          return EINVAL, 0;
        }
        err, b := BMapIndirect(ino, fb, doalloc);
      }
      if err == OK {
        PtrBound(V(), ino, fb);
      }
    }

    static lemma MappedStill(v: Vol, w: Vol, x: Vol, ino: nat, fb: nat)
      requires Mapped(v, w, ino, fb, OK) && SamePtrs(w, x, ino)
      ensures Mapped(v, x, ino, fb, OK)
    {
      hide Sized, PtrOf, Had, Need, Room;
      HadStill(v, w, x, ino, fb, fb + 1);
    }

    static lemma TooFar(v: Vol, ino: nat, fb: nat)
      requires Sized(v) && ino in v.inodes && fb >= MAXBLOCKS
      ensures Mapped(v, v, ino, fb, EINVAL)
    {
      hide Sized, Room, Need;
      IoOne(v, ino, fb);
    }

    /**
     sfs_partialio: transfer `len` bytes at `skip` within the block the offset is in.  All of
     them are transferred or none is.
     */
    method PartialIo(ino: nat, uio: Uio, skip: nat, len: nat) returns (err: Err)
      requires Valid() && ino in vnodes && ino in inodes && uio.Valid()
      requires skip + len <= BLOCKSIZE && skip == uio.offset % BLOCKSIZE && len <= uio.resid
      modifies this, uio
      ensures Valid() && ino in vnodes && ino in inodes && uio.Valid()
      ensures Transferred(ino, uio, if err == OK then len else 0)
      ensures err == EINVAL <==> old(uio.offset) / BLOCKSIZE >= MAXBLOCKS
      ensures err == ENOSPC ==> FirstUnmapped(old(V()), ino, old(uio.offset))
      ensures err == OK || err == EINVAL || (err == ENOSPC && uio.rw.Write? && Full(freemap))
      ensures uio.rw.Write? ==> Mapped(old(V()), V(), ino, old(uio.offset) / BLOCKSIZE, err)
    {
      hide MapOk, Forward, Backward, CoreOk, MapStep, WriteStep, Mapped, SamePtrs;
      var doalloc := uio.rw.Write?;
      var fb := uio.offset / BLOCKSIZE;
      var p;
      CoreGet(V(), vnodes, ino);
      err, p := BMap(ino, fb, doalloc);
      MapStepWrites(old(V()), old(vnodes), V(), vnodes, ino, uio.offset);
      CoreGet(V(), vnodes, ino);
      if err != OK {
        assert uio.mem[uio.base..uio.base + 0] == [];
        assert FileBytes(old(V()), ino, uio.offset, 0) == [];
        return;
      }
      ghost var v1, vn1 := V(), vnodes;
      PartialMove(ino, uio, fb, p, skip, len);
      if uio.rw.Write? {
        ghost var data := uio.mem[old(uio.base)..old(uio.base) + len];
        WriteStepAppend(old(V()), old(vnodes), v1, vn1, V(), vnodes, ino, old(uio.offset), [], data);
        assert [] + data == data;
        MappedStill(old(V()), v1, V(), ino, fb);
      }
    }

    /** The second half of sfs_partialio: through a buffer, between a mapped block and the uio. */
    method PartialMove(ino: nat, uio: Uio, fb: nat, p: nat, skip: nat, len: nat)
      requires Valid() && ino in vnodes && ino in inodes && uio.Valid()
      requires skip + len <= BLOCKSIZE && uio.offset == fb * BLOCKSIZE + skip && len <= uio.resid
      requires fb < MAXBLOCKS && p == PtrOf(V(), ino, fb) < |disk| && (uio.rw.Write? ==> p != 0)
      modifies this`disk, uio
      ensures Valid() && uio.Valid() && Transferred(ino, uio, len) && SamePtrs(old(V()), V(), ino)
    {
      hide MapOk, Forward, Backward, CoreOk, MapStep, WriteStep, PtrOf, FileBytes, Overlay, SamePtrs;
      ghost var v1 := V();
      PtrsRefl(v1, ino);
      var iobuf := if p == 0 then Zeros(BLOCKSIZE) else disk[p];
      var out := uio.Move(iobuf[skip..], len);
      if uio.rw.Write? {
        ghost var data := uio.mem[old(uio.base)..old(uio.base) + len];
        OverlayTail(iobuf, skip, data);
        PutStep(v1, vnodes, ino, fb, skip, data);
        PutPtrs(v1, ino, fb, Overlay(iobuf, skip, data));
        disk := disk[p := iobuf[..skip] + out];
        assert V() == PutBlock(v1, p, Overlay(iobuf, skip, data));
        WriteStepOk(v1, vnodes, V(), vnodes, ino, old(uio.offset), data);
      } else {
        BlockBytes(V(), ino, fb, skip, len);
      }
    }

    /** What `m` transferred bytes of a request mean, whichever way they went. */
    twostate predicate Transferred(ino: nat, uio: Uio, m: nat)
      requires Sized(old(V())) && ino in old(inodes) && old(uio.Valid()) && m <= old(uio.resid)
      reads this, uio
    {
      && uio.Advanced(m)
      && Moved(old(V()), old(vnodes), V(), vnodes, ino, uio.rw, old(uio.mem), uio.mem, old(uio.base), old(uio.offset),
           m)
    }

    /** sfs_blockio: transfer one whole block. */
    method BlockIo(ino: nat, uio: Uio) returns (err: Err)
      requires Valid() && ino in vnodes && ino in inodes && uio.Valid()
      requires uio.offset % BLOCKSIZE == 0 && BLOCKSIZE <= uio.resid
      modifies this, uio
      ensures Valid() && ino in vnodes && ino in inodes && uio.Valid()
      ensures Transferred(ino, uio, if err == OK then BLOCKSIZE else 0)
      ensures err == EINVAL <==> old(uio.offset) / BLOCKSIZE >= MAXBLOCKS
      ensures err == ENOSPC ==> FirstUnmapped(old(V()), ino, old(uio.offset))
      ensures err == OK || err == EINVAL || (err == ENOSPC && uio.rw.Write? && Full(freemap))
      ensures uio.rw.Write? ==> Mapped(old(V()), V(), ino, old(uio.offset) / BLOCKSIZE, err)
    {
      hide MapOk, Forward, Backward, CoreOk, MapStep, WriteStep, PtrOf, FileBytes, Mapped, SamePtrs;
      var doalloc := uio.rw.Write?;
      var fb := uio.offset / BLOCKSIZE;
      var p;
      err, p := BMap(ino, fb, doalloc);
      MapStepWrites(old(V()), old(vnodes), V(), vnodes, ino, uio.offset);
      CoreGet(V(), vnodes, ino);
      if err != OK {
        assert uio.mem[uio.base..uio.base + 0] == [];
        assert FileBytes(old(V()), ino, uio.offset, 0) == [];
        return;
      }
      ghost var v1, vn1 := V(), vnodes;
      WholeMove(ino, uio, fb, p);
      if uio.rw.Write? {
        ghost var data := uio.mem[old(uio.base)..old(uio.base) + BLOCKSIZE];
        WriteStepAppend(old(V()), old(vnodes), v1, vn1, V(), vnodes, ino, old(uio.offset), [], data);
        assert [] + data == data;
        MappedStill(old(V()), v1, V(), ino, fb);
      }
    }

    /** The uio's offset and residue are borrowed for the device and put back adjusted. */
    method DeviceIo(uio: Uio, p: nat) returns (out: Block)
      requires uio.Valid() && BLOCKSIZE <= uio.resid && p < |disk| && |disk[p]| == BLOCKSIZE
      modifies uio
      ensures uio.Valid() && uio.Advanced(BLOCKSIZE)
      ensures uio.rw.Read? ==> out == disk[p] && uio.mem == Overlay(old(uio.mem), old(uio.base), disk[p][..BLOCKSIZE])
      ensures uio.rw.Write? ==> uio.mem == old(uio.mem)
      ensures uio.rw.Write? ==> out == Overlay(disk[p], 0, old(uio.mem)[old(uio.base)..old(uio.base) + BLOCKSIZE])
    {
      hide Overlay;
      var saveoff := uio.offset;
      var diskoff := p * BLOCKSIZE;
      uio.offset := diskoff;
      var saveres := uio.resid;
      uio.resid := BLOCKSIZE;
      out := uio.Move(disk[p], BLOCKSIZE);
      uio.offset := uio.offset - diskoff + saveoff;
      uio.resid := uio.resid + saveres - BLOCKSIZE;
    }

    /** The second half of sfs_blockio: straight between the disk and the uio. */
    method WholeMove(ino: nat, uio: Uio, fb: nat, p: nat)
      requires Valid() && ino in vnodes && ino in inodes && uio.Valid()
      requires uio.offset == fb * BLOCKSIZE && BLOCKSIZE <= uio.resid
      requires fb < MAXBLOCKS && p == PtrOf(V(), ino, fb) < |disk| && (uio.rw.Write? ==> p != 0)
      modifies this`disk, uio
      ensures Valid() && uio.Valid() && Transferred(ino, uio, BLOCKSIZE) && SamePtrs(old(V()), V(), ino)
    {
      hide MapOk, Forward, Backward, CoreOk, MapStep, WriteStep, PtrOf, FileBytes, Overlay, SamePtrs;
      ghost var v1 := V();
      PtrsRefl(v1, ino);
      BlockBytes(V(), ino, fb, 0, BLOCKSIZE);
      if p == 0 {
        assert Zeros(BLOCKSIZE)[0..][..BLOCKSIZE] == Zeros(BLOCKSIZE);
        uio.MoveZeros(BLOCKSIZE);
        return;
      }
      assert disk[p][0..][..BLOCKSIZE] == disk[p][..BLOCKSIZE];
      var out := DeviceIo(uio, p);
      if uio.rw.Write? {
        ghost var data := uio.mem[old(uio.base)..old(uio.base) + BLOCKSIZE];
        PutStep(v1, vnodes, ino, fb, 0, data);
        PutPtrs(v1, ino, fb, Overlay(v1.disk[p], 0, data));
        disk := disk[p := out];
        assert V() == PutBlock(v1, p, Overlay(v1.disk[p], 0, data));
        WriteStepOk(v1, vnodes, V(), vnodes, ino, old(uio.offset), data);
      }
    }

    /** The leading partial block of a request, if it does not start on a block boundary. */
    method IoHead(ino: nat, uio: Uio) returns (err: Err, ghost t: nat)
      requires Valid() && ino in vnodes && ino in inodes && uio.Valid()
      modifies this, uio
      ensures Valid() && ino in vnodes && ino in inodes && uio.Valid() && t <= old(uio.resid)
      ensures Transferred(ino, uio, t)
      ensures err != OK ==> t == 0
      ensures err == EINVAL ==> old(uio.offset) >= MAXBLOCKS * BLOCKSIZE
      ensures t > 0 ==> old(uio.offset) + t <= MAXBLOCKS * BLOCKSIZE
      ensures err == OK || err == EINVAL || (err == ENOSPC && uio.rw.Write? && Full(freemap))
      ensures uio.resid > 0 && t > 0 ==> uio.offset % BLOCKSIZE == 0
      ensures err == OK && uio.resid > 0 ==>
                uio.offset % BLOCKSIZE == 0 && (t == 0 ==> V() == old(V()) && vnodes == old(vnodes))
      ensures err == ENOSPC && t == 0 ==> FirstUnmapped(old(V()), ino, old(uio.offset))
      ensures uio.rw.Write? ==>
                var off, lo := old(uio.offset), old(uio.offset) / BLOCKSIZE;
                Went(old(V()), V(), ino, lo, EndBlock(off - off % BLOCKSIZE, off % BLOCKSIZE), lo, err)
      ensures err == OK ==> t == HeadLen(old(uio.offset), old(uio.resid))
    {
      hide MapOk, Forward, Backward, CoreOk, PtrOf, Moved, Mapped, Went;
      var blkoff := uio.offset % BLOCKSIZE;
      if blkoff != 0 {
        var len := BLOCKSIZE - blkoff;
        if len > uio.resid {
          len := uio.resid;
        }
        err := PartialIo(ino, uio, blkoff, len);
        t := if err == OK then len else 0;
        if uio.rw.Write? {
          MappedWent(old(V()), V(), ino, old(uio.offset) / BLOCKSIZE, err);
          HeadEnd(old(uio.offset));
        }
      } else {
        err, t := OK, 0;
        WentNowhere(V(), ino, uio.offset / BLOCKSIZE);
        HeadEnd(uio.offset);
        MovedNothing(V(), vnodes, ino, uio.rw, uio.mem, uio.base, uio.offset);
      }
    }

    /** The whole blocks of a request that is block-aligned. */
    method IoBlocks(ino: nat, uio: Uio) returns (err: Err, ghost t: nat)
      requires Valid() && ino in vnodes && ino in inodes && uio.Valid() && uio.offset % BLOCKSIZE == 0
      modifies this, uio
      ensures Valid() && ino in vnodes && ino in inodes && uio.Valid() && t <= old(uio.resid)
      ensures Transferred(ino, uio, t)
      ensures uio.offset % BLOCKSIZE == 0 && (err == OK ==> uio.resid < BLOCKSIZE)
      ensures t == 0 && err == OK ==> V() == old(V()) && vnodes == old(vnodes)
      ensures err == ENOSPC && t == 0 ==> FirstUnmapped(old(V()), ino, old(uio.offset))
      ensures err != OK ==> t < old(uio.resid)
      ensures err == EINVAL ==> old(uio.offset) + t >= MAXBLOCKS * BLOCKSIZE
      ensures t > 0 ==> old(uio.offset) + t <= MAXBLOCKS * BLOCKSIZE
      ensures err == OK || err == EINVAL || (err == ENOSPC && uio.rw.Write? && Full(freemap))
      ensures uio.rw.Write? ==>
                var lo := old(uio.offset) / BLOCKSIZE;
                Went(old(V()), V(), ino, lo, lo + old(uio.resid) / BLOCKSIZE, uio.offset / BLOCKSIZE, err)
    {
      hide MapOk, Forward, Backward, CoreOk, PtrOf, Sized, Moved, Mapped, Went, FirstUnmapped, Full;
      t := 0;
      ghost var lo := uio.offset / BLOCKSIZE;
      WentNowhere(V(), ino, lo);
      MovedNothing(V(), vnodes, ino, uio.rw, uio.mem, uio.base, uio.offset);
      var nblocks := uio.resid / BLOCKSIZE;
      var i := 0;
      while i < nblocks
        invariant 0 <= i <= nblocks && t == i * BLOCKSIZE <= old(uio.resid) && (i > 0 ==> lo + i <= MAXBLOCKS)
        invariant i == 0 ==> V() == old(V()) && vnodes == old(vnodes)
        invariant Valid() && ino in vnodes && ino in inodes && uio.Valid() && Transferred(ino, uio, t)
        invariant uio.rw.Write? ==> Went(old(V()), V(), ino, lo, lo + i, lo + i, OK)
      {
        ghost var v1, vn1, mem1 := V(), vnodes, uio.mem;
        BlockSplit(lo + i, 0);
        err := BlockIo(ino, uio);
        ghost var n := if err == OK then BLOCKSIZE else 0;
        if uio.rw.Write? {
          MappedWent(v1, V(), ino, lo + i, err);
          WentOn(old(V()), v1, V(), ino, lo, lo + i, lo + i + 1, lo + i, err);
        }
        MovedMore(old(V()), old(vnodes), v1, vn1, V(), vnodes, ino, uio.rw, old(uio.mem), mem1, uio.mem, old(uio.base),
                  old(uio.offset), t, n);
        t := t + n;
        if err != OK {
          if uio.rw.Write? {
            WentWrong(old(V()), V(), ino, lo, lo + i + 1, lo + nblocks, lo + i, err);
          }
          return;
        }
        if uio.rw.Write? {
          WentAll(old(V()), V(), ino, lo, lo + i + 1, lo + i, lo + i + 1);
        }
        i := i + 1;
      }
      err := OK;
    }

    /** The whole blocks and the trailing partial block of a request that is block-aligned. */
    method IoTail(ino: nat, uio: Uio) returns (err: Err, ghost t: nat)
      requires Valid() && ino in vnodes && ino in inodes && uio.Valid() && uio.offset % BLOCKSIZE == 0
      modifies this, uio
      ensures Valid() && ino in vnodes && ino in inodes && uio.Valid() && t <= old(uio.resid)
      ensures Transferred(ino, uio, t)
      ensures uio.resid > 0 && t > 0 ==> uio.offset % BLOCKSIZE == 0
      ensures err == ENOSPC && t == 0 ==> FirstUnmapped(old(V()), ino, old(uio.offset))
      ensures err == OK ==> t == old(uio.resid)
      ensures err != OK ==> t < old(uio.resid)
      ensures err == EINVAL ==> old(uio.offset) + t >= MAXBLOCKS * BLOCKSIZE
      ensures t > 0 ==> old(uio.offset) + t <= MAXBLOCKS * BLOCKSIZE
      ensures err == OK || err == EINVAL || (err == ENOSPC && uio.rw.Write? && Full(freemap))
      ensures uio.rw.Write? ==>
                var lo, hi := old(uio.offset) / BLOCKSIZE, EndBlock(old(uio.offset), old(uio.resid));
                Went(old(V()), V(), ino, lo, hi, uio.offset / BLOCKSIZE, err)
    {
      hide MapOk, Forward, Backward, CoreOk, PtrOf, Sized, Moved, Mapped, Went, FirstUnmapped, Full, EndBlock;
      ghost var lo, mid := uio.offset / BLOCKSIZE, uio.offset / BLOCKSIZE + uio.resid / BLOCKSIZE;
      TailEnd(uio.offset, uio.resid);
      err, t := IoBlocks(ino, uio);
      if err != OK && uio.rw.Write? {
        WentWrong(old(V()), V(), ino, lo, mid, EndBlock(old(uio.offset), old(uio.resid)), uio.offset / BLOCKSIZE, err);
      }
      if err == OK && uio.resid > 0 {
        ghost var v1, vn1, mem1 := V(), vnodes, uio.mem;
        ghost var len := uio.resid;
        err := PartialIo(ino, uio, 0, uio.resid);
        ghost var n := if err == OK then len else 0;
        if uio.rw.Write? {
          MappedWent(v1, V(), ino, mid, err);
          WentOn(old(V()), v1, V(), ino, lo, mid, mid + 1, mid, err);
        }
        MovedMore(old(V()), old(vnodes), v1, vn1, V(), vnodes, ino, uio.rw, old(uio.mem), mem1, uio.mem, old(uio.base),
                  old(uio.offset), t, n);
        t := t + n;
      }
    }

    /** A request from its first byte to its last, or to the first block that cannot be had. */
    method IoAll(ino: nat, uio: Uio) returns (err: Err, ghost t: nat)
      requires Valid() && ino in vnodes && ino in inodes && uio.Valid()
      modifies this, uio
      ensures Valid() && ino in vnodes && ino in inodes && uio.Valid() && t <= old(uio.resid)
      ensures Transferred(ino, uio, t)
      ensures uio.resid > 0 && t > 0 ==> uio.offset % BLOCKSIZE == 0
      ensures err == ENOSPC && t == 0 ==> FirstUnmapped(old(V()), ino, old(uio.offset))
      ensures err == OK ==> t == old(uio.resid)
      ensures err != OK ==> t == 0 || t < old(uio.resid)
      ensures err == EINVAL ==> old(uio.offset) + t >= MAXBLOCKS * BLOCKSIZE
      ensures t > 0 ==> old(uio.offset) + t <= MAXBLOCKS * BLOCKSIZE
      ensures err == OK || err == EINVAL || (err == ENOSPC && uio.rw.Write? && Full(freemap))
      ensures uio.rw.Write? ==>
                var lo, hi := old(uio.offset) / BLOCKSIZE, EndBlock(old(uio.offset), old(uio.resid));
                Went(old(V()), V(), ino, lo, hi, uio.offset / BLOCKSIZE, err)
    {
      hide MapOk, Forward, Backward, CoreOk, PtrOf, Sized, Moved, Mapped, Went, FirstUnmapped, Full, EndBlock, HeadLen;
      ghost var off, lo, hi := uio.offset, uio.offset / BLOCKSIZE, EndBlock(uio.offset, uio.resid);
      ghost var mid := EndBlock(off - off % BLOCKSIZE, off % BLOCKSIZE);
      HeadAndTail(off, uio.resid);
      err, t := IoHead(ino, uio);
      if uio.rw.Write? {
        if err != OK {
          WentWrong(old(V()), V(), ino, lo, mid, hi, lo, err);
        } else {
          WentAll(old(V()), V(), ino, lo, mid, lo, mid);
          WentAll(old(V()), V(), ino, lo, mid, lo, uio.offset / BLOCKSIZE);
        }
      }
      if err == OK && uio.resid != 0 {
        ghost var v1, vn1, mem1 := V(), vnodes, uio.mem;
        ghost var n;
        err, n := IoTail(ino, uio);
        if uio.rw.Write? {
          WentOn(old(V()), v1, V(), ino, lo, mid, hi, uio.offset / BLOCKSIZE, err);
        }
        MovedMore(old(V()), old(vnodes), v1, vn1, V(), vnodes, ino, uio.rw, old(uio.mem), mem1, uio.mem, old(uio.base),
                  old(uio.offset), t, n);
        t := t + n;
      }
    }

    /**
     sfs_io, reading: up to the end of the file, or up to the last mappable block if the size
     lies beyond that.  Nothing on the volume changes.
     */
    method Read(ino: nat, uio: Uio) returns (err: Err, ghost m: nat)
      requires Valid() && ino in vnodes && ino in inodes && uio.Valid() && uio.rw.Read?
      modifies this, uio
      ensures Valid() && V() == old(V()) && vnodes == old(vnodes) && uio.Valid()
      ensures m <= ReadSpan(inodes[ino].size, old(uio.offset), old(uio.resid)) && uio.Advanced(m)
      ensures uio.mem == Overlay(old(uio.mem), old(uio.base), FileBytes(V(), ino, old(uio.offset), m))
      ensures err == OK ==> m == ReadSpan(inodes[ino].size, old(uio.offset), old(uio.resid))
      ensures err != OK ==> err == EINVAL && old(uio.offset) + m >= MAXBLOCKS * BLOCKSIZE
      ensures err != OK ==> m == 0 || m < ReadSpan(inodes[ino].size, old(uio.offset), old(uio.resid))
      ensures m > 0 ==> old(uio.offset) + m <= MAXBLOCKS * BLOCKSIZE
    {
      hide MapOk, Forward, Backward, CoreOk, MapStep, WriteStep, PtrOf, FileBytes, Sized, Overlay;
      CoreGet(V(), vnodes, ino);
      var size := vnodes[ino].i.size;
      var endpos := uio.offset + uio.resid;
      if uio.offset >= size {
        NothingTransferred(V(), vnodes, ino, uio.offset);
        OverlayNothing(uio.mem, uio.base);
        return OK, 0;
      }
      var extraresid := 0;
      if endpos > size {
        extraresid := endpos - size;
        assert uio.resid > extraresid;
        uio.resid := uio.resid - extraresid;
      }
      err, m := IoAll(ino, uio);
      uio.resid := uio.resid + extraresid;
    }

    /**
     sfs_io, writing: exactly the bytes counted by the drop in the residue are stored, also
     when the disk fills up or the file reaches its largest size.
     */
    method Write(ino: nat, uio: Uio) returns (err: Err, ghost m: nat)
      requires Valid() && ino in vnodes && ino in inodes && uio.Valid() && uio.rw.Write?
      requires uio.offset + uio.resid <= MAXOFF
      modifies this, uio
      ensures Valid() && ino in vnodes && ino in inodes && uio.Valid() && uio.mem == old(uio.mem)
      ensures m <= old(uio.resid) && uio.Advanced(m)
      ensures Wrote(old(V()), old(vnodes), V(), vnodes, ino, old(uio.offset), uio.mem[old(uio.base)..old(uio.base) + m])
      ensures m == 0 || m == old(uio.resid) || uio.offset % BLOCKSIZE == 0
      ensures err == ENOSPC && m == 0 ==> FirstUnmapped(old(V()), ino, old(uio.offset))
      ensures err == OK ==> m == old(uio.resid)
      ensures err != OK ==> m == 0 || m < old(uio.resid)
      ensures err == EINVAL ==> old(uio.offset) + m >= MAXBLOCKS * BLOCKSIZE
      ensures m > 0 ==> old(uio.offset) + m <= MAXBLOCKS * BLOCKSIZE
      ensures err == OK || err == EINVAL || (err == ENOSPC && Full(freemap))
      ensures err == IoErr(old(V()), ino, old(uio.offset) / BLOCKSIZE, EndBlock(old(uio.offset), old(uio.resid)))
      ensures var lo, at := old(uio.offset) / BLOCKSIZE, (old(uio.offset) + m) / BLOCKSIZE;
              err != OK ==> IoErr(old(V()), ino, lo, at) == OK && IoErr(old(V()), ino, lo, at + 1) == err
    {
      hide MapOk, Forward, Backward, CoreOk, MapStep, WriteStep, PtrOf, FileBytes, Sized, Wrote, IoErr, Had, EndBlock;
      err, m := IoAll(ino, uio);
      ghost var v1, vn1 := V(), vnodes;
      WentErr(old(V()), v1, ino, old(uio.offset) / BLOCKSIZE, EndBlock(old(uio.offset), old(uio.resid)),
              uio.offset / BLOCKSIZE, err);
      CoreGet(v1, vn1, ino);
      ghost var data := uio.mem[old(uio.base)..old(uio.base) + m];
      ResizeWrote(old(V()), old(vnodes), v1, vn1, ino, old(uio.offset), data);
      if uio.offset > vnodes[ino].i.size {
        SetInode(ino, vnodes[ino].i.(size := uio.offset));
        assert V() == SetMeta(v1, ino, v1.inodes[ino].(size := uio.offset));
      }
      WroteOk(old(V()), old(vnodes), V(), vnodes, ino, old(uio.offset), data);
    }
  }
}
