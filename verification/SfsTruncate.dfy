/**
 SFS truncation: which blocks of a file a truncation gives back, for every length.
 */
module SfsTruncate {
  import opened SfsLayout
  import opened SfsVolume
  import opened SfsFile

  /**
   The blocks discarded for a new length of `blocklen` blocks.  Direct blocks go from
   `blocklen` on, blocks behind the indirect block only after `blocklen`, and none of those
   when `blocklen` reaches the last one.
   */
  predicate Gone(blocklen: nat, fb: nat) {
    if fb < NDIRECT then blocklen <= fb else blocklen < MAXBLOCKS - 1 && blocklen < fb
  }

  /** File `ino` lost the blocks in `gone`; nothing else about any file changed. */
  ghost predicate TrimStep(v: Vol, vn: map<nat, Vnode>, w: Vol, vnw: map<nat, Vnode>, ino: nat, gone: set<nat>) {
    && OnlyFile(v, w, ino) && w.inodes[ino].size == v.inodes[ino].size
    && CoreOk(v, vn) && CoreOk(w, vnw) && CoreStep(vn, vnw, ino)
    && (forall f :: 0 <= f < MAXBLOCKS ==> PtrOf(w, ino, f) == if f in gone then 0 else PtrOf(v, ino, f))
    && (forall pos: nat :: FileByte(w, ino, pos) == if pos / BLOCKSIZE in gone then 0 else FileByte(v, ino, pos))
  }

  lemma TrimStepOk(v: Vol, vn: map<nat, Vnode>, w: Vol, vnw: map<nat, Vnode>, ino: nat, gone: set<nat>)
    requires TrimStep(v, vn, w, vnw, ino, gone)
    ensures Ok(v) && Ok(w) && CoreOk(w, vnw) && ino in vnw && ino in v.inodes && ino in w.inodes
    ensures |w.disk| == |v.disk| && vnw.Keys == vn.Keys && w.inodes.Keys == v.inodes.Keys
    ensures w.inodes[ino] == vnw[ino].i
    ensures forall f :: 0 <= f < MAXBLOCKS ==> PtrOf(w, ino, f) == if f in gone then 0 else PtrOf(v, ino, f)
  {
    hide Ok, FileByte;
  }

  lemma TrimNothing(v: Vol, vn: map<nat, Vnode>, ino: nat)
    requires Ok(v) && CoreOk(v, vn) && ino in vn
    ensures TrimStep(v, vn, v, vn, ino, {})
  {
    hide MapOk, Forward, Backward, FileByte;
  }

  /** Counting a block that was never mapped among the discarded ones changes nothing. */
  lemma TrimHole(v: Vol, vn: map<nat, Vnode>, w: Vol, vnw: map<nat, Vnode>, ino: nat, gone: set<nat>, fb: nat)
    requires TrimStep(v, vn, w, vnw, ino, gone) && ino in v.inodes && ino in w.inodes && fb < MAXBLOCKS
    requires Sized(v) && Sized(w) && PtrOf(w, ino, fb) == 0
    ensures TrimStep(v, vn, w, vnw, ino, gone + {fb})
  {
    hide Ok, CoreOk, PtrOf;
    forall pos: nat
      ensures FileByte(w, ino, pos) == if pos / BLOCKSIZE in gone + {fb} then 0 else FileByte(v, ino, pos)
    {
    }
  }

  lemma TrimHoles(v: Vol, vn: map<nat, Vnode>, ino: nat, gone: set<nat>)
    requires Ok(v) && CoreOk(v, vn) && ino in vn && ino in v.inodes
    requires forall f :: f in gone && f < MAXBLOCKS ==> PtrOf(v, ino, f) == 0
    ensures TrimStep(v, vn, v, vn, ino, gone)
  {
    hide MapOk, Forward, Backward, CoreOk, PtrOf, OnlyFile;
    TrimNothing(v, vn, ino);
    forall pos: nat ensures FileByte(v, ino, pos) == if pos / BLOCKSIZE in gone then 0 else FileByte(v, ino, pos) {
    }
  }

  lemma TrimTrans(v: Vol, vn: map<nat, Vnode>, w: Vol, vnw: map<nat, Vnode>, x: Vol, vnx: map<nat, Vnode>,
                  ino: nat, a: set<nat>, b: set<nat>)
    requires TrimStep(v, vn, w, vnw, ino, a) && TrimStep(w, vnw, x, vnx, ino, b)
    ensures TrimStep(v, vn, x, vnx, ino, a + b)
  {
    hide MapOk, Forward, Backward, CoreOk, PtrOf, FileByte, OnlyFile;
    TrimStepOk(v, vn, w, vnw, ino, a);
    TrimStepOk(w, vnw, x, vnx, ino, b);
    OnlyFileTrans(v, w, x, ino);
    forall pos: nat ensures FileByte(x, ino, pos) == if pos / BLOCKSIZE in a + b then 0 else FileByte(v, ino, pos) {
      assert FileByte(w, ino, pos) == if pos / BLOCKSIZE in a then 0 else FileByte(v, ino, pos);
    }
  }

  /** Dropping one more block. */
  lemma TrimMore(v: Vol, vn: map<nat, Vnode>, w: Vol, vnw: map<nat, Vnode>, x: Vol, vnx: map<nat, Vnode>,
                 ino: nat, gone: set<nat>, fb: nat)
    requires TrimStep(v, vn, w, vnw, ino, gone) && ino in w.inodes && fb < MAXBLOCKS && Ok(w) && Ok(x)
    requires OnlyFile(w, x, ino) && BlockGone(w, x, ino, fb) && x.inodes[ino].size == w.inodes[ino].size
    requires CoreOk(x, vnx) && CoreStep(vnw, vnx, ino)
    requires forall f :: 0 <= f < MAXBLOCKS ==> PtrOf(x, ino, f) == if f == fb then 0 else PtrOf(w, ino, f)
    ensures TrimStep(v, vn, x, vnx, ino, gone + {fb})
  {
    hide MapOk, Forward, Backward, CoreOk, PtrOf, FileByte, OnlyFile;
    TrimStepOk(v, vn, w, vnw, ino, gone);
    OnlyFileTrans(v, w, x, ino);
    forall pos: nat
      ensures FileByte(x, ino, pos) == if pos / BLOCKSIZE in gone + {fb} then 0 else FileByte(v, ino, pos)
    {
      assert FileByte(w, ino, pos) == if pos / BLOCKSIZE in gone then 0 else FileByte(v, ino, pos);
    }
  }

  /** A volume in which one block of `ino` is gone and its inode is `i` differs in that file only. */
  lemma GoneIsOnly(v: Vol, w: Vol, ino: nat, fb: nat, i: Inode)
    requires Ok(v) && Ok(w) && BlockGone(v, w, ino, fb) && |w.disk| == |v.disk| && ino in v.inodes
    requires w.inodes == v.inodes[ino := i] && SameMeta(v.inodes[ino], i)
    ensures OnlyFile(v, w, ino)
  {
    hide Ok, FileByte, Sized;
  }

  lemma DropDirectStep(v: Vol, vn: map<nat, Vnode>, w: Vol, vnw: map<nat, Vnode>, ino: nat, gone: set<nat>, fb: nat)
    requires TrimStep(v, vn, w, vnw, ino, gone) && ino in w.inodes && fb < NDIRECT && Ok(w)
    requires w.inodes[ino].direct[fb] != 0
    ensures w.inodes[ino].direct[fb] < |w.disk| <= |w.used| && w.used[w.inodes[ino].direct[fb]]
    ensures var i := w.inodes[ino].(direct := w.inodes[ino].direct[fb := 0]);
            ino in vnw && TrimStep(v, vn, DropDirect(w, ino, fb), vnw[ino := vnw[ino].(i := i, dirty := true)], ino,
              gone + {fb})
  {
    hide MapOk, Forward, Backward, CoreOk, PtrOf, FileByte, TrimStep, OnlyFile, BlockGone;
    TrimStepOk(v, vn, w, vnw, ino, gone);
    CoreGet(w, vnw, ino);
    DropDirectOk(w, ino, fb);
    var i := w.inodes[ino].(direct := w.inodes[ino].direct[fb := 0]);
    var x := DropDirect(w, ino, fb);
    CoreKept(w, vnw, x, ino, i);
    GoneIsOnly(w, x, ino, fb, i);
    TrimMore(v, vn, w, vnw, x, vnw[ino := vnw[ino].(i := i, dirty := true)], ino, gone, fb);
  }

  lemma DropViaStep(v: Vol, vn: map<nat, Vnode>, w: Vol, vnw: map<nat, Vnode>, ino: nat, gone: set<nat>, fb: nat)
    requires TrimStep(v, vn, w, vnw, ino, gone) && ino in w.inodes && NDIRECT <= fb < MAXBLOCKS && Ok(w)
    requires w.inodes[ino].indirect != 0 && PtrOf(w, ino, fb) != 0
    ensures PtrOf(w, ino, fb) < |w.disk| <= |w.used| && w.used[PtrOf(w, ino, fb)]
    ensures TrimStep(v, vn, DropViaIndirect(w, ino, fb), vnw, ino, gone + {fb})
  {
    hide MapOk, Forward, Backward, CoreOk, FileByte, TrimStep, OnlyFile, BlockGone;
    TrimStepOk(v, vn, w, vnw, ino, gone);
    IndirectIs(w, ino);
    DropViaIndirectOk(w, ino, fb);
    var x := DropViaIndirect(w, ino, fb);
    CoreUntouched(w, vnw, x);
    assert x.inodes == w.inodes[ino := w.inodes[ino]];
    GoneIsOnly(w, x, ino, fb, w.inodes[ino]);
    TrimMore(v, vn, w, vnw, x, vnw, ino, gone, fb);
  }

  ghost predicate Sound(fs: Sfs, ino: nat)
    reads fs
  {
    fs.Valid() && ino in fs.vnodes && ino in fs.inodes
  }

  /** sfs_bfree: the block was in use, so the bitmap's own check never fires. */
  method BFree(fs: Sfs, b: nat)
    requires b < |fs.freemap| && fs.freemap[b] && b < |fs.owner|
    modifies fs`freemap, fs`owner
    ensures fs.freemap == old(fs.freemap)[b := false] && fs.owner == old(fs.owner)[b := Free]
  {
    fs.freemap := fs.freemap[b := false];
    fs.owner := fs.owner[b := Free];
  }

  /** The direct blocks of a truncation. */
  method TruncateDirect(fs: Sfs, ino: nat, blocklen: nat)
    requires Sound(fs, ino)
    modifies fs
    ensures Sound(fs, ino)
    ensures TrimStep(old(fs.V()), old(fs.vnodes), fs.V(), fs.vnodes, ino, set f | 0 <= f < NDIRECT && Gone(blocklen, f))
  {
    hide MapOk, Forward, Backward, CoreOk, PtrOf, FileByte, TrimStep, OnlyFile;
    ghost var v0, vn0 := fs.V(), fs.vnodes;
    TrimNothing(v0, vn0, ino);
    ghost var gone: set<nat> := {};
    for i := 0 to NDIRECT
      invariant Sound(fs, ino)
      invariant gone == set f | 0 <= f < i && Gone(blocklen, f)
      invariant TrimStep(v0, vn0, fs.V(), fs.vnodes, ino, gone)
    {
      CoreGet(fs.V(), fs.vnodes, ino);
      var block := fs.vnodes[ino].i.direct[i];
      if i >= blocklen {
        if block != 0 {
          DropDirectStep(v0, vn0, fs.V(), fs.vnodes, ino, gone, i);
          ghost var w := fs.V();
          BFree(fs, block);
          var n := fs.vnodes[ino].i;
          fs.SetInode(ino, n.(direct := n.direct[i := 0]));
          assert fs.V() == DropDirect(w, ino, i);
        } else {
          DirectHole(fs.V(), ino, i);
          TrimHole(v0, vn0, fs.V(), fs.vnodes, ino, gone, i);
        }
        gone := gone + {i};
      }
      TrimStepOk(v0, vn0, fs.V(), fs.vnodes, ino, gone);
    }
  }

  lemma DirectHole(v: Vol, ino: nat, f: nat)
    requires Sized(v) && ino in v.inodes && f < NDIRECT
    ensures PtrOf(v, ino, f) == v.inodes[ino].direct[f]
  {
  }

  /** The volume as it is once the buffered indirect block is written back. */
  ghost function Buffered(v: Vol, q: nat, idbuf: Block): Vol
    requires q < |v.disk|
  {
    PutBlock(v, q, idbuf)
  }

  lemma IndirectPtr(v: Vol, ino: nat, f: nat)
    requires Sized(v) && ino in v.inodes && NDIRECT <= f < MAXBLOCKS && v.inodes[ino].indirect != 0
    ensures PtrOf(v, ino, f) == Word(v.disk[v.inodes[ino].indirect], f - NDIRECT)
  {
  }

  /** The scan of the indirect block: free what lies past the new end, buffering the changes. */
  method ScanIndirect(fs: Sfs, ino: nat, blocklen: nat, idblock: nat)
    returns (idbuf: Block, hasnonzero: bool, iddirty: bool)
    requires Sound(fs, ino) && blocklen < MAXBLOCKS - 1 && idblock == fs.vnodes[ino].i.indirect != 0
    modifies fs`freemap, fs`owner
    ensures idblock < |fs.disk| <= |fs.freemap| && |fs.owner| == |fs.disk| && |idbuf| == BLOCKSIZE
    ensures TrimStep(old(fs.V()), fs.vnodes, Buffered(fs.V(), idblock, idbuf), fs.vnodes, ino,
                     set f | NDIRECT <= f < MAXBLOCKS && Gone(blocklen, f))
    ensures !iddirty ==> idbuf == fs.disk[idblock]
    ensures !hasnonzero ==> forall k :: 0 <= k < DBPERIDB ==> Word(idbuf, k) == 0
    ensures blocklen == 0 ==> !hasnonzero
  {
    hide MapOk, Forward, Backward, CoreOk, PtrOf, FileByte, TrimStep, OnlyFile, Word, PutWord;
    CoreGet(fs.V(), fs.vnodes, ino);
    ghost var v0 := fs.V();
    idbuf := fs.disk[idblock];
    hasnonzero, iddirty := false, false;
    assert Buffered(v0, idblock, idbuf) == v0;
    TrimNothing(v0, fs.vnodes, ino);
    ghost var gone: set<nat> := {};
    for j := 0 to DBPERIDB
      invariant |fs.freemap| == |v0.used| && |fs.owner| == |v0.owner|
      invariant |idbuf| == BLOCKSIZE && (!iddirty ==> idbuf == fs.disk[idblock])
      invariant gone == set f | NDIRECT <= f < NDIRECT + j && Gone(blocklen, f)
      invariant TrimStep(v0, fs.vnodes, Buffered(fs.V(), idblock, idbuf), fs.vnodes, ino, gone)
      invariant !hasnonzero ==> forall k :: 0 <= k < j ==> Word(idbuf, k) == 0
      invariant blocklen == 0 ==> !hasnonzero
    {
      ghost var l := Buffered(fs.V(), idblock, idbuf);
      TrimStepOk(v0, fs.vnodes, l, fs.vnodes, ino, gone);
      IndirectPtr(l, ino, NDIRECT + j);
      ghost var was := idbuf;
      if blocklen < NDIRECT + j {
        if Word(idbuf, j) != 0 {
          DropViaStep(v0, fs.vnodes, l, fs.vnodes, ino, gone, NDIRECT + j);
          BFree(fs, Word(idbuf, j));
          idbuf := PutWord(idbuf, j, 0);
          iddirty := true;
          assert Buffered(fs.V(), idblock, idbuf) == DropViaIndirect(l, ino, NDIRECT + j);
        } else {
          TrimHole(v0, fs.vnodes, l, fs.vnodes, ino, gone, NDIRECT + j);
        }
        gone := gone + {NDIRECT + j};
      }
      BufferedWord(was, idbuf, j);
      if Word(idbuf, j) != 0 {
        hasnonzero := true;
      }
    }
  }

  lemma BufferedWord(was: Block, now: Block, j: nat)
    requires |was| == |now| == BLOCKSIZE && j < DBPERIDB && (now == was || now == PutWord(was, j, 0))
    ensures forall k :: 0 <= k < DBPERIDB && k != j ==> Word(now, k) == Word(was, k)
    ensures now == PutWord(was, j, 0) ==> Word(now, j) == 0
  {
    if now == PutWord(was, j, 0) {
      forall k | 0 <= k < DBPERIDB ensures Word(now, k) == if k == j then 0 else Word(was, k) {
        PutWordGet(was, j, 0, k);
      }
    }
  }

  /** What the indirect part of a truncation leaves: no indirect block when nothing is behind it. */
  ghost predicate IndirectTrimmed(v: Vol, vn: map<nat, Vnode>, w: Vol, vnw: map<nat, Vnode>, ino: nat, blocklen: nat) {
    && TrimStep(v, vn, w, vnw, ino, set f | NDIRECT <= f < MAXBLOCKS && Gone(blocklen, f))
    && w.inodes[ino].direct == v.inodes[ino].direct
    && (blocklen == 0 ==> w.inodes[ino].indirect == 0)
  }

  /** An emptied indirect block is released; whatever its disk block holds then matters to nobody. */
  lemma DropEmptyIndirect(l: Vol, vn: map<nat, Vnode>, ino: nat, content: Block)
    requires Ok(l) && CoreOk(l, vn) && ino in vn && ino in l.inodes && l.inodes[ino].indirect != 0
    requires |content| == BLOCKSIZE
    requires forall f :: NDIRECT <= f < MAXBLOCKS ==> PtrOf(l, ino, f) == 0
    ensures l.inodes[ino].indirect < |l.disk| <= |l.used| && l.used[l.inodes[ino].indirect]
    ensures var i := l.inodes[ino].(indirect := 0);
            TrimStep(l, vn, PutBlock(DropIndirect(l, ino), l.inodes[ino].indirect, content),
                     vn[ino := vn[ino].(i := i, dirty := true)], ino, {})
  {
    hide MapOk, Forward, Backward, CoreOk, PtrOf, FileByte, TrimStep, OnlyFile, SameBytes, MapStep;
    CoreGet(l, vn, ino);
    DropIndirectOk(l, ino);
    var q, m := l.inodes[ino].indirect, DropIndirect(l, ino);
    var i := l.inodes[ino].(indirect := 0);
    var vnm := vn[ino := vn[ino].(i := i, dirty := true)];
    GrowIsMapStep(l, vn, m, ino, i);
    var x := PutBlock(m, q, content);
    PutPlainBlock(m, q, content);
    MapStepOk(l, vn, m, vnm, ino);
    FreeBlockRewritten(m, vnm, x, ino, q);
    MapStepTrans(l, vn, m, vnm, x, vnm, ino);
    SamePtrs(l, m, x, ino);
    MapStepTrims(l, vn, x, vnm, ino);
  }

  /** Releasing an emptied indirect block; the copy on the disk is left as it was. */
  lemma ReleaseIndirect(v: Vol, vn: map<nat, Vnode>, w: Vol, ino: nat, idbuf: Block, blocklen: nat)
    requires ino in v.inodes && ino in vn && ino in w.inodes && w.inodes[ino].indirect != 0 && |idbuf| == BLOCKSIZE
    requires w.inodes == v.inodes && w.inodes[ino].indirect < |w.disk| <= |w.used| && |w.owner| == |w.disk|
    requires DiskOk(w.disk)
    requires TrimStep(v, vn, Buffered(w, w.inodes[ino].indirect, idbuf), vn, ino,
                      set f | NDIRECT <= f < MAXBLOCKS && Gone(blocklen, f))
    requires forall k :: 0 <= k < DBPERIDB ==> Word(idbuf, k) == 0
    ensures w.used[w.inodes[ino].indirect]
    ensures IndirectTrimmed(v, vn, DropIndirect(w, ino),
                            vn[ino := vn[ino].(i := w.inodes[ino].(indirect := 0), dirty := true)], ino, blocklen)
  {
    hide MapOk, Forward, Backward, CoreOk, PtrOf, FileByte, TrimStep, OnlyFile, Word;
    var q := w.inodes[ino].indirect;
    var l := Buffered(w, q, idbuf);
    var gone := set f | NDIRECT <= f < MAXBLOCKS && Gone(blocklen, f);
    TrimStepOk(v, vn, l, vn, ino, gone);
    forall f | NDIRECT <= f < MAXBLOCKS ensures PtrOf(l, ino, f) == 0 {
      IndirectPtr(l, ino, f);
    }
    DropEmptyIndirect(l, vn, ino, w.disk[q]);
    var x := DropIndirect(w, ino);
    assert x == PutBlock(DropIndirect(l, ino), q, w.disk[q]);
    TrimTrans(v, vn, l, vn, x, vn[ino := vn[ino].(i := x.inodes[ino], dirty := true)], ino, gone, {});
    assert gone + {} == gone;
  }

  lemma SamePtrs(l: Vol, m: Vol, x: Vol, ino: nat)
    requires Sized(l) && Sized(m) && Sized(x) && ino in l.inodes && l.inodes.Keys == m.inodes.Keys == x.inodes.Keys
    requires forall i, f :: i in l.inodes && 0 <= f < MAXBLOCKS ==> PtrOf(m, i, f) == PtrOf(l, i, f)
    requires forall i, f :: i in m.inodes && 0 <= f < MAXBLOCKS ==> PtrOf(x, i, f) == PtrOf(m, i, f)
    ensures forall f :: 0 <= f < MAXBLOCKS ==> PtrOf(x, ino, f) == PtrOf(l, ino, f)
  {
    hide Sized, PtrOf;
  }

  /** A free block's contents matter to nobody. */
  lemma FreeBlockRewritten(m: Vol, vnm: map<nat, Vnode>, x: Vol, ino: nat, q: nat)
    requires Ok(m) && CoreOk(m, vnm) && ino in vnm && q < |m.disk| && m.owner[q] == Free && |x.disk| == |m.disk|
    requires x == PutBlock(m, q, x.disk[q]) && Ok(x) && SameBytes(m, x)
    ensures MapStep(m, vnm, x, vnm, ino)
  {
    hide MapOk, Forward, Backward, CoreOk, SameBytes, OnlyFile;
    CoreGet(m, vnm, ino);
    CoreUntouched(m, vnm, x);
    assert x.inodes == m.inodes[ino := m.inodes[ino]];
    OnlyInode(m, x, ino, m.inodes[ino]);
  }

  lemma MapStepTrims(v: Vol, vn: map<nat, Vnode>, w: Vol, vnw: map<nat, Vnode>, ino: nat)
    requires MapStep(v, vn, w, vnw, ino) && ino in v.inodes && Sized(v) && Sized(w) && ino in w.inodes
    requires forall f :: 0 <= f < MAXBLOCKS ==> PtrOf(w, ino, f) == PtrOf(v, ino, f)
    ensures TrimStep(v, vn, w, vnw, ino, {})
  {
    hide Ok, CoreOk, PtrOf, FileByte;
  }

  /** The indirect block of a truncation. */
  method TruncateIndirect(fs: Sfs, ino: nat, blocklen: nat)
    requires Sound(fs, ino)
    modifies fs
    ensures Sound(fs, ino)
    ensures IndirectTrimmed(old(fs.V()), old(fs.vnodes), fs.V(), fs.vnodes, ino, blocklen)
  {
    hide MapOk, Forward, Backward, CoreOk, PtrOf, FileByte, TrimStep, OnlyFile, Word;
    CoreGet(fs.V(), fs.vnodes, ino);
    ghost var v0, vn0 := fs.V(), fs.vnodes;
    ghost var gone := set f | NDIRECT <= f < MAXBLOCKS && Gone(blocklen, f);
    var idblock := fs.vnodes[ino].i.indirect;
    if blocklen < MAXBLOCKS - 1 && idblock != 0 {
      var idbuf, hasnonzero, iddirty := ScanIndirect(fs, ino, blocklen, idblock);
      if !hasnonzero {
        ReleaseIndirect(v0, vn0, fs.V(), ino, idbuf, blocklen);
        ghost var w := fs.V();
        BFree(fs, idblock);
        fs.SetInode(ino, fs.vnodes[ino].i.(indirect := 0));
        assert fs.V() == DropIndirect(w, ino);
      } else if iddirty {
        ghost var w := fs.V();
        fs.disk := fs.disk[idblock := idbuf];
        assert fs.V() == Buffered(w, idblock, idbuf);
      } else {
        assert fs.V() == Buffered(fs.V(), idblock, idbuf);
      }
    } else {
      NothingBehind(v0, vn0, ino, blocklen);
    }
    TrimStepOk(v0, vn0, fs.V(), fs.vnodes, ino, gone);
  }

  lemma NothingBehind(v: Vol, vn: map<nat, Vnode>, ino: nat, blocklen: nat)
    requires Ok(v) && CoreOk(v, vn) && ino in vn && ino in v.inodes
    requires blocklen >= MAXBLOCKS - 1 || v.inodes[ino].indirect == 0
    ensures TrimStep(v, vn, v, vn, ino, set f | NDIRECT <= f < MAXBLOCKS && Gone(blocklen, f))
  {
    TrimHoles(v, vn, ino, set f | NDIRECT <= f < MAXBLOCKS && Gone(blocklen, f));
    hide Ok, CoreOk;
  }

  /** The length in blocks, rounded up. */
  function BlockLen(len: nat): nat {
    (len + BLOCKSIZE - 1) / BLOCKSIZE
  }

  /** A whole truncation: the size is `len`, and the blocks that are gone read as zeros. */
  ghost predicate Truncated(v: Vol, vn: map<nat, Vnode>, w: Vol, vnw: map<nat, Vnode>, ino: nat, len: nat) {
    && OnlyFile(v, w, ino) && w.inodes[ino].size == len
    && CoreOk(v, vn) && CoreOk(w, vnw) && CoreStep(vn, vnw, ino)
    && (forall f :: 0 <= f < MAXBLOCKS ==> PtrOf(w, ino, f) == if Gone(BlockLen(len), f) then 0 else PtrOf(v, ino, f))
    && (forall pos: nat :: FileByte(w, ino, pos) == if Gone(BlockLen(len), pos / BLOCKSIZE) then 0
         else FileByte(v, ino, pos))
    && (len == 0 ==> NoBlocks(w.inodes[ino]))
  }

  lemma TrimThenSize(v: Vol, vn: map<nat, Vnode>, w: Vol, vnw: map<nat, Vnode>, ino: nat, len: nat)
    requires TrimStep(v, vn, w, vnw, ino, set f | 0 <= f < MAXBLOCKS && Gone(BlockLen(len), f)) && len <= MAXOFF
    requires Ok(w) && CoreOk(w, vnw) && ino in vnw && ino in w.inodes
    requires len == 0 ==> w.inodes[ino].indirect == 0
    ensures var i := w.inodes[ino].(size := len);
            Truncated(v, vn, SetMeta(w, ino, i), vnw[ino := vnw[ino].(i := i, dirty := true)], ino, len)
  {
    hide MapOk, Forward, Backward, CoreOk, PtrOf, FileByte, OnlyFile;
    var gone := set f | 0 <= f < MAXBLOCKS && Gone(BlockLen(len), f);
    TrimStepOk(v, vn, w, vnw, ino, gone);
    var i := w.inodes[ino].(size := len);
    var x := SetMeta(w, ino, i);
    SetMetaOk(w, ino, i);
    SizeCore(w, vnw, ino, len);
    SizeOnly(v, w, ino, len);
    if len == 0 {
      forall k | 0 <= k < NDIRECT ensures w.inodes[ino].direct[k] == 0 {
        DirectHole(w, ino, k);
        assert k in gone;
      }
    }
    forall pos: nat
      ensures FileByte(x, ino, pos) == if Gone(BlockLen(len), pos / BLOCKSIZE) then 0 else FileByte(v, ino, pos)
    {
      assert FileByte(w, ino, pos) == if pos / BLOCKSIZE in gone then 0 else FileByte(v, ino, pos);
      if pos / BLOCKSIZE >= MAXBLOCKS {
        PastLast(v, ino, pos);
      }
    }
  }

  lemma PastLast(v: Vol, ino: nat, pos: nat)
    requires Sized(v) && ino in v.inodes && pos / BLOCKSIZE >= MAXBLOCKS
    ensures FileByte(v, ino, pos) == 0
  {
  }

  lemma SizeOnly(v: Vol, w: Vol, ino: nat, size: nat)
    requires OnlyFile(v, w, ino) && ino in w.inodes && Ok(w)
    ensures OnlyFile(v, SetMeta(w, ino, w.inodes[ino].(size := size)), ino)
  {
    var i := w.inodes[ino].(size := size);
    SetMetaOk(w, ino, i);
    hide Ok, FileByte, Sized;
  }

  /**
   sfs_truncate: give back the blocks past the new length and set the size.  Every block
   given back was marked in use, and none of them is reserved.
   */
  method Truncate(fs: Sfs, ino: nat, len: nat)
    requires Sound(fs, ino) && len <= MAXOFF
    modifies fs
    ensures Sound(fs, ino)
    ensures Truncated(old(fs.V()), old(fs.vnodes), fs.V(), fs.vnodes, ino, len)
  {
    hide MapOk, Forward, Backward, CoreOk, PtrOf, FileByte, TrimStep, OnlyFile, Truncated;
    ghost var v0, vn0 := fs.V(), fs.vnodes;
    var blocklen := BlockLen(len);
    TruncateDirect(fs, ino, blocklen);
    ghost var v1, vn1 := fs.V(), fs.vnodes;
    TruncateIndirect(fs, ino, blocklen);
    ghost var v2, vn2 := fs.V(), fs.vnodes;
    ghost var a := set f | 0 <= f < NDIRECT && Gone(blocklen, f);
    ghost var b := set f | NDIRECT <= f < MAXBLOCKS && Gone(blocklen, f);
    TrimTrans(v0, vn0, v1, vn1, v2, vn2, ino, a, b);
    assert a + b == set f | 0 <= f < MAXBLOCKS && Gone(blocklen, f);
    TrimThenSize(v0, vn0, v2, vn2, ino, len);
    CoreGet(v2, vn2, ino);
    fs.SetInode(ino, fs.vnodes[ino].i.(size := len));
    assert fs.V() == SetMeta(v2, ino, v2.inodes[ino].(size := len));
    TruncatedOk(v0, vn0, fs.V(), fs.vnodes, ino, len);
  }

  lemma TruncatedOk(v: Vol, vn: map<nat, Vnode>, w: Vol, vnw: map<nat, Vnode>, ino: nat, len: nat)
    requires Truncated(v, vn, w, vnw, ino, len)
    ensures Ok(w) && CoreOk(w, vnw) && ino in vnw && ino in w.inodes && vnw.Keys == vn.Keys
    ensures w.inodes.Keys == v.inodes.Keys
  {
    hide Ok, FileByte;
  }
}
