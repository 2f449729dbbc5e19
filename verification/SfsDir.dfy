/**
 The SFS directory: the root file as a table of entries, and what links, renames, removals
 and dropped references do to names, link counts and storage.
 */
module SfsDir {
  import opened SfsLayout
  import opened SfsVolume
  import opened UioModel
  import opened SfsFile
  import opened SfsContents

  // ---------------------------------------------------------------------------------------
  // The directory as a table of slots

  /** The entries of a directory file. */
  function Slots(s: seq<Byte>): (es: seq<Entry>)
    ensures |es| == |s| / DIRSIZE
  {
    seq(|s| / DIRSIZE, k requires 0 <= k < |s| / DIRSIZE => DecodeEntry(s[DIRSIZE * k..DIRSIZE * k + DIRSIZE]))
  }

  /** How many slots name an inode. */
  function Count(es: seq<Entry>, ino: nat): nat {
    if es == [] then 0 else (if es[|es| - 1].ino == ino then 1 else 0) + Count(es[..|es| - 1], ino)
  }

  lemma {:induction false} CountUpdate(es: seq<Entry>, k: nat, e: Entry, ino: nat)
    requires k < |es|
    ensures Count(es[k := e], ino) ==
            Count(es, ino) - (if es[k].ino == ino then 1 else 0) + (if e.ino == ino then 1 else 0)
  {
    var last := |es| - 1;
    if k == last {
      assert es[k := e][..last] == es[..last];
    } else {
      assert es[k := e][..last] == es[..last][k := e];
      CountUpdate(es[..last], k, e, ino);
    }
  }

  lemma CountAppend(es: seq<Entry>, e: Entry, ino: nat)
    ensures Count(es + [e], ino) == Count(es, ino) + (if e.ino == ino then 1 else 0)
  {
    assert (es + [e])[..|es|] == es;
  }

  lemma {:induction false} CountPositive(es: seq<Entry>, k: nat, ino: nat)
    requires k < |es| && es[k].ino == ino
    ensures Count(es, ino) > 0
  {
    var last := |es| - 1;
    if k < last {
      CountPositive(es[..last], k, ino);
    }
  }

  lemma {:induction false} CountAbsent(es: seq<Entry>, ino: nat)
    requires forall k :: 0 <= k < |es| ==> es[k].ino != ino
    ensures Count(es, ino) == 0
  {
    if es != [] {
      CountAbsent(es[..|es| - 1], ino);
    }
  }

  lemma {:induction false} CountBound(es: seq<Entry>, ino: nat)
    ensures Count(es, ino) <= |es|
  {
    if es != [] {
      CountBound(es[..|es| - 1], ino);
    }
  }

  /** The table after entry `e` is written to slot `k`, at most one past the end. */
  function Put(es: seq<Entry>, k: nat, e: Entry): (r: seq<Entry>)
    requires k <= |es|
    ensures |r| == Max(|es|, k + 1)
  {
    if k < |es| then es[k := e] else es + [e]
  }

  lemma CountPut(es: seq<Entry>, k: nat, e: Entry, ino: nat)
    requires k <= |es|
    ensures Count(Put(es, k, e), ino) ==
            Count(es, ino) - (if k < |es| && es[k].ino == ino then 1 else 0) + (if e.ino == ino then 1 else 0)
  {
    if k < |es| {
      CountUpdate(es, k, e, ino);
    } else {
      CountAppend(es, e, ino);
    }
  }

  /** Writing an encoded entry at its slot's position is putting that entry in the table. */
  lemma SpliceSlot(s: seq<Byte>, k: nat, e: Entry)
    requires |s| % DIRSIZE == 0 && k <= |s| / DIRSIZE && EntryFits(e)
    ensures Slots(Splice(s, DIRSIZE * k, EncodeEntry(e))) == Put(Slots(s), k, e)
    ensures |Splice(s, DIRSIZE * k, EncodeEntry(e))| % DIRSIZE == 0
  {
    var n := |s| / DIRSIZE;
    assert |s| == DIRSIZE * n;
    var t := Splice(s, DIRSIZE * k, EncodeEntry(e));
    assert |t| == DIRSIZE * Max(n, k + 1);
    forall j | 0 <= j < Max(n, k + 1)
      ensures DecodeEntry(t[DIRSIZE * j..DIRSIZE * j + DIRSIZE]) == Put(Slots(s), k, e)[j]
    {
      if j == k {
        assert t[DIRSIZE * k..DIRSIZE * k + DIRSIZE] == EncodeEntry(e);
        EntryRoundTrip(e);
      } else {
        OtherSlot(s, k, j, e);
      }
    }
  }

  lemma OtherSlot(s: seq<Byte>, k: nat, j: nat, e: Entry)
    requires DIRSIZE * j + DIRSIZE <= |s| && DIRSIZE * k <= |s| && j != k && EntryFits(e)
    ensures Splice(s, DIRSIZE * k, EncodeEntry(e))[DIRSIZE * j..DIRSIZE * j + DIRSIZE] ==
              s[DIRSIZE * j..DIRSIZE * j + DIRSIZE]
  {
    assert DIRSIZE * j + DIRSIZE <= DIRSIZE * k || DIRSIZE * k + DIRSIZE <= DIRSIZE * j;
  }

  // ---------------------------------------------------------------------------------------
  // The invariant of the file system

  ghost function Table(v: Vol): seq<Entry>
    requires Sized(v) && ROOT in v.inodes
  {
    Slots(Content(v, ROOT))
  }

  /** A name appears in at most one occupied slot. */
  predicate UniqueNames(es: seq<Entry>) {
    forall i, j :: 0 <= i < j < |es| && es[i].ino != 0 && es[j].ino != 0 ==> es[i].name != es[j].name
  }

  /** The directory is well formed and every name leads to an inode. */
  ghost predicate Tree(v: Vol) {
    && AllClean(v) && ROOT in v.inodes && v.inodes[ROOT].kind == TYPE_DIR
    && v.inodes[ROOT].size % DIRSIZE == 0 && v.inodes[ROOT].size <= MAXBLOCKS * BLOCKSIZE
    && (forall i :: i in v.inodes && i != ROOT ==> v.inodes[i].kind == TYPE_FILE)
    && UniqueNames(Table(v))
    && (forall k :: 0 <= k < |Table(v)| && Table(v)[k].ino != 0 ==> Table(v)[k].ino in v.inodes)
  }

  /**
   Link counts equal the number of slots naming the inode, one more for the root, which no
   slot needs to name; while an operation is under way, `ino` may be off by `d`.
   */
  ghost predicate Linked(v: Vol, ino: nat, d: int)
    requires Sized(v) && ROOT in v.inodes
  {
    forall i :: i in v.inodes ==>
      v.inodes[i].links + (if i == ino then d else 0) == Count(Table(v), i) + (if i == ROOT then 1 else 0)
  }

  /** An inode that nobody has loaded is linked from the directory. */
  ghost predicate Held(v: Vol, vn: map<nat, Vnode>) {
    forall i :: i in v.inodes && i !in vn ==> v.inodes[i].links > 0
  }

  ghost predicate FsOkBut(v: Vol, vn: map<nat, Vnode>, ino: nat, d: int) {
    Tree(v) && CoreOk(v, vn) && Linked(v, ino, d) && Held(v, vn)
  }

  ghost predicate FsOk(v: Vol, vn: map<nat, Vnode>) {
    FsOkBut(v, vn, 0, 0)
  }

  lemma TreeSized(v: Vol)
    requires Tree(v)
    ensures Ok(v) && Sized(v) && ROOT in v.inodes && v.inodes[ROOT].size == DIRSIZE * |Table(v)|
    ensures v.inodes[ROOT].size <= MAXBLOCKS * BLOCKSIZE && |Content(v, ROOT)| == v.inodes[ROOT].size
  {
    hide MapOk, Forward, Backward, FileByte, Clean, Content;
  }

  /** A slot read back is the entry of the table. */
  lemma SlotBytes(v: Vol, slot: nat)
    requires Sized(v) && ROOT in v.inodes && slot < |Table(v)|
    ensures DIRSIZE * slot + DIRSIZE <= v.inodes[ROOT].size
    ensures DecodeEntry(FileBytes(v, ROOT, DIRSIZE * slot, DIRSIZE)) == Table(v)[slot]
  {
    hide FileByte, FileBytes;
    assert DIRSIZE * slot + DIRSIZE <= v.inodes[ROOT].size;
    ReadContent(v, ROOT, DIRSIZE * slot, DIRSIZE);
  }

  /** sfs_readdir: the entry in a slot; it is never short. */
  method ReadDir(fs: Sfs, slot: nat) returns (e: Entry)
    requires fs.Valid() && Tree(fs.V()) && ROOT in fs.vnodes && ROOT in fs.inodes && slot < |Table(fs.V())|
    modifies fs
    ensures fs.V() == old(fs.V()) && fs.vnodes == old(fs.vnodes)
    ensures e == Table(fs.V())[slot]
  {
    hide Ok, CoreOk, FileByte, FileBytes, Sized, Tree, Table;
    TreeSized(fs.V());
    SlotBytes(fs.V(), slot);
    var actualpos := slot * DIRSIZE;
    var ku := new Uio(Zeros(DIRSIZE), actualpos, Rw.Read);
    ghost var err, m;
    err, m := fs.Read(ROOT, ku);
    assert err == OK && ku.resid == 0;
    assert ku.mem == FileBytes(fs.V(), ROOT, actualpos, DIRSIZE);
    e := DecodeEntry(ku.mem);
  }

  predicate Occupied(es: seq<Entry>, k: nat, name: CString) {
    k < |es| && es[k].ino != 0 && es[k].name == name
  }

  ghost predicate Present(es: seq<Entry>, name: CString) {
    exists k: nat :: Occupied(es, k, name)
  }

  /**
   sfs_dir_findname: look for a name, and report the last empty slot on the way.  A second
   match, which the scan asserts away, does not happen.
   */
  method FindName(fs: Sfs, name: CString) returns (found: bool, ino: nat, slot: nat, emptyslot: int)
    requires fs.Valid() && Tree(fs.V()) && ROOT in fs.vnodes && ROOT in fs.inodes
    modifies fs
    ensures fs.V() == old(fs.V()) && fs.vnodes == old(fs.vnodes)
    ensures found <==> Present(Table(fs.V()), name)
    ensures found ==> Occupied(Table(fs.V()), slot, name) && ino == Table(fs.V())[slot].ino
    ensures -1 <= emptyslot < |Table(fs.V())| && (emptyslot >= 0 ==> Table(fs.V())[emptyslot].ino == 0)
    ensures forall k :: emptyslot < k < |Table(fs.V())| ==> Table(fs.V())[k].ino != 0
  {
    hide Ok, CoreOk, FileByte, Sized, Table;
    TreeSized(fs.V());
    CoreGet(fs.V(), fs.vnodes, ROOT);
    ghost var es := Table(fs.V());
    found, ino, slot, emptyslot := false, 0, 0, -1;
    var nentries := fs.vnodes[ROOT].i.size / DIRSIZE;
    for i := 0 to nentries
      invariant fs.V() == old(fs.V()) && fs.vnodes == old(fs.vnodes)
      invariant found ==> slot < i && Occupied(es, slot, name) && ino == es[slot].ino
      invariant !found ==> forall k :: 0 <= k < i ==> !Occupied(es, k, name)
      invariant -1 <= emptyslot < i && (emptyslot >= 0 ==> es[emptyslot].ino == 0)
      invariant forall k :: emptyslot < k < i ==> es[k].ino != 0
    {
      var tsd := ReadDir(fs, i);
      if tsd.ino == 0 {
        emptyslot := i;
      } else if tsd.name == name {
        assert !found;
        found, slot, ino := true, i, tsd.ino;
      }
    }
  }

  // ---------------------------------------------------------------------------------------
  // Writing slots

  const SLOTS := 8        // entries in a block
  const MAXSLOTS := 1144  // entries in a directory of the largest size

  /** The inodes are as before, but for the blocks and the size of the directory itself. */
  ghost predicate OnlyRootBlocks(v: Vol, w: Vol) {
    && w.inodes.Keys == v.inodes.Keys && ROOT in v.inodes
    && (forall i :: i in v.inodes && i != ROOT ==> w.inodes[i] == v.inodes[i])
    && w.inodes[ROOT].kind == v.inodes[ROOT].kind && w.inodes[ROOT].links == v.inodes[ROOT].links
  }

  /** An entry may stand in slot `k` of the table without breaking it. */
  ghost predicate EntryOk(v: Vol, k: nat, e: Entry)
    requires Sized(v) && ROOT in v.inodes
  {
    && EntryFits(e)
    && (e.ino != 0 ==> e.ino in v.inodes && forall j: nat :: j != k ==> !Occupied(Table(v), j, e.name))
  }

  lemma WroteOnlyRoot(v: Vol, vn: map<nat, Vnode>, w: Vol, vnw: map<nat, Vnode>, off: nat, data: seq<Byte>)
    requires Wrote(v, vn, w, vnw, ROOT, off, data)
    ensures OnlyRootBlocks(v, w) && w.inodes[ROOT].size == Max(v.inodes[ROOT].size, off + |data|)
    ensures CoreOk(w, vnw) && vnw.Keys == vn.Keys && Sized(w) && Sized(v)
  {
    hide MapOk, Forward, Backward, CoreOk, FileByte;
  }

  /** The directory's bytes after a write. */
  lemma WroteTable(v: Vol, vn: map<nat, Vnode>, w: Vol, vnw: map<nat, Vnode>, off: nat, data: seq<Byte>)
    requires Tree(v) && Wrote(v, vn, w, vnw, ROOT, off, data)
    ensures AllClean(w) && Sized(v) && Sized(w) && ROOT in v.inodes && ROOT in w.inodes
    ensures Content(w, ROOT) == Splice(Content(v, ROOT), off, data)
  {
    hide Ok, FileByte, Clean, Content, Table, Wrote, Sized;
    TreeSized(v);
    WroteOnlyRoot(v, vn, w, vnw, off, data);
    StepRefines(Mounted(v, vn), WriteOp(ROOT, off, data), Mounted(w, vnw));
    assert Content(w, ROOT) == Abs(w)[ROOT] && Content(v, ROOT) == Abs(v)[ROOT];
  }

  lemma DirWritten(v: Vol, vn: map<nat, Vnode>, w: Vol, vnw: map<nat, Vnode>, k: nat, e: Entry)
    requires Tree(v) && Sized(v) && ROOT in v.inodes && k <= |Table(v)| && EntryOk(v, k, e)
    requires DIRSIZE * k + DIRSIZE <= MAXBLOCKS * BLOCKSIZE
    requires Wrote(v, vn, w, vnw, ROOT, DIRSIZE * k, EncodeEntry(e))
    ensures Tree(w) && Sized(w) && Table(w) == Put(Table(v), k, e) && OnlyRootBlocks(v, w)
  {
    hide Ok, FileByte, Clean, Content, Wrote, Sized, AllClean, Slots, EncodeEntry;
    TreeSized(v);
    WroteOnlyRoot(v, vn, w, vnw, DIRSIZE * k, EncodeEntry(e));
    WroteTable(v, vn, w, vnw, DIRSIZE * k, EncodeEntry(e));
    SpliceSlot(Content(v, ROOT), k, e);
    assert Table(w) == Put(Table(v), k, e);
    PutKeepsNames(Table(v), k, e);
    assert w.inodes[ROOT].size % DIRSIZE == 0;
  }

  lemma PutKeepsNames(es: seq<Entry>, k: nat, e: Entry)
    requires UniqueNames(es) && k <= |es|
    requires e.ino != 0 ==> forall j: nat :: j != k ==> !Occupied(es, j, e.name)
    ensures UniqueNames(Put(es, k, e))
  {
    var r := Put(es, k, e);
    forall i, j | 0 <= i < j < |r| && r[i].ino != 0 && r[j].ino != 0 ensures r[i].name != r[j].name {
      if j == k {
        assert !Occupied(es, i, e.name);
      } else if i == k {
        assert !Occupied(es, j, e.name);
      }
    }
  }

  /** A write that stored nothing leaves the table as it was. */
  lemma DirUntouched(v: Vol, vn: map<nat, Vnode>, w: Vol, vnw: map<nat, Vnode>, k: nat)
    requires Tree(v) && Sized(v) && ROOT in v.inodes && k <= |Table(v)|
    requires Wrote(v, vn, w, vnw, ROOT, DIRSIZE * k, [])
    ensures Tree(w) && Sized(w) && Table(w) == Table(v) && OnlyRootBlocks(v, w)
  {
    hide Ok, FileByte, Clean, Content, Wrote, Sized, AllClean, Slots, Splice, UniqueNames;
    TreeSized(v);
    WroteOnlyRoot(v, vn, w, vnw, DIRSIZE * k, []);
    WroteTable(v, vn, w, vnw, DIRSIZE * k, []);
    SpliceNothing(Content(v, ROOT), DIRSIZE * k);
  }

  lemma SpliceNothing(s: seq<Byte>, off: nat)
    requires off <= |s|
    ensures Splice(s, off, []) == s
  {
  }

  /**
   sfs_writedir: overwrite a slot, at most one past the end.  The entry is written whole or
   not at all, and overwriting an occupied slot cannot fail.
   */
  method WriteDir(fs: Sfs, slot: nat, e: Entry) returns (err: Err)
    requires fs.Valid() && Tree(fs.V()) && ROOT in fs.vnodes && ROOT in fs.inodes
    requires slot <= |Table(fs.V())| && EntryFits(e)
    modifies fs
    ensures fs.Valid() && ROOT in fs.vnodes && ROOT in fs.inodes
    ensures Wrote(old(fs.V()), old(fs.vnodes), fs.V(), fs.vnodes, ROOT, DIRSIZE * slot,
              if err == OK then EncodeEntry(e) else [])
    ensures err == OK ==> DIRSIZE * slot + DIRSIZE <= MAXBLOCKS * BLOCKSIZE
    ensures slot < |Table(old(fs.V()))| && Table(old(fs.V()))[slot].ino != 0 ==> err == OK
    ensures err == OK || err == EINVAL || err == ENOSPC
    ensures err == IoErr(old(fs.V()), ROOT, slot / SLOTS, slot / SLOTS + 1)
  {
    hide Ok, CoreOk, FileByte, FileBytes, Sized, Tree, Table, EncodeEntry, Wrote, IoErr;
    SlotBlock(slot);
    TreeSized(fs.V());
    var actualpos := slot * DIRSIZE;
    var ku := new Uio(EncodeEntry(e), actualpos, Rw.Write);
    ghost var m;
    err, m := fs.Write(ROOT, ku);
    EntryAligned(slot, m);
    assert m == 0 || m == DIRSIZE;
    if slot < |Table(old(fs.V()))| && Table(old(fs.V()))[slot].ino != 0 {
      OccupiedIsMapped(old(fs.V()), slot);
    }
    assert ku.mem[0..0] == [] && ku.mem[0..DIRSIZE] == ku.mem;
  }

  lemma SlotBlock(slot: nat)
    ensures slot * DIRSIZE / BLOCKSIZE == slot / SLOTS && EndBlock(slot * DIRSIZE, DIRSIZE) == slot / SLOTS + 1
  {
  }

  /** Entries do not straddle blocks. */
  lemma EntryAligned(slot: nat, m: nat)
    ensures m <= DIRSIZE && (slot * DIRSIZE + m) % BLOCKSIZE == 0 ==> m == 0 || m == DIRSIZE
  {
  }

  /** The block of an occupied slot is mapped: an unmapped block would read as an empty slot. */
  lemma OccupiedIsMapped(v: Vol, slot: nat)
    requires Tree(v) && Sized(v) && ROOT in v.inodes && slot < |Table(v)| && Table(v)[slot].ino != 0
    ensures !FirstUnmapped(v, ROOT, DIRSIZE * slot) && DIRSIZE * slot < MAXBLOCKS * BLOCKSIZE
  {
    hide Ok, Content, Clean, PtrOf, Sized;
    TreeSized(v);
    SlotBytes(v, slot);
    if FirstUnmapped(v, ROOT, DIRSIZE * slot) {
      var b := FileBytes(v, ROOT, DIRSIZE * slot, DIRSIZE);
      forall k | 0 <= k < 4 ensures b[k] == 0 {
        SameBlock(slot, k);
      }
      assert false;
    }
  }

  lemma SameBlock(slot: nat, k: nat)
    requires k < DIRSIZE
    ensures (DIRSIZE * slot + k) / BLOCKSIZE == DIRSIZE * slot / BLOCKSIZE
  {
  }
}
