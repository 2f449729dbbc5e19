/**
 SFS names: look up, create, link, remove and rename, each with what it does to every name,
 every link count, every file's contents and the storage of unlinked files.
 */
module SfsNames {
  import opened SfsLayout
  import opened SfsVolume
  import opened SfsSpace
  import opened SfsFile
  import opened SfsContents
  import opened SfsDir
  import opened SfsOps

  /** Every file but `ino` is there with the same attributes and bytes; the directory keeps its links. */
  ghost predicate Keeps(v: Vol, w: Vol, ino: nat) {
    && Sized(v) && Sized(w) && ROOT in v.inodes && ROOT in w.inodes
    && (ROOT != ino ==> w.inodes[ROOT].links == v.inodes[ROOT].links)
    && forall i :: i in v.inodes && i != ino && i != ROOT ==>
         i in w.inodes && w.inodes[i] == v.inodes[i] && Content(w, i) == Content(v, i)
  }

  /** The bytes of a file are as they were. */
  ghost predicate KeepsContent(v: Vol, w: Vol, ino: nat) {
    Sized(v) && Sized(w) && ino in v.inodes && ino in w.inodes && Content(w, ino) == Content(v, ino)
  }

  /** Name `name` leads to `ino`, all others lead where they did. */
  ghost predicate Names(v: Vol, w: Vol, name: CString, ino: nat) {
    && Sized(v) && Sized(w) && ROOT in v.inodes && ROOT in w.inodes
    && forall n :: InoOf(Table(w), n) == if n == name then ino else InoOf(Table(v), n)
  }

  ghost predicate SameNames(v: Vol, w: Vol) {
    && Sized(v) && Sized(w) && ROOT in v.inodes && ROOT in w.inodes
    && forall n :: InoOf(Table(w), n) == InoOf(Table(v), n)
  }

  lemma KeepsChain(v: Vol, w: Vol, x: Vol, ino: nat)
    requires Keeps(v, w, ino) && Keeps(w, x, ino)
    ensures Keeps(v, x, ino)
  {
    hide Sized, Content;
  }

  lemma OthersKeep(v: Vol, w: Vol, ino: nat)
    requires KeepsOthers(v, w, ino) && ROOT in v.inodes && ROOT in w.inodes
    ensures Keeps(v, w, ino)
  {
    hide Sized, Content;
  }

  // ---------------------------------------------------------------------------------------
  // One slot at a time

  /** A directory write moves nothing but the directory. */
  lemma WroteKeeps(v: Vol, vn: map<nat, Vnode>, w: Vol, vnw: map<nat, Vnode>, off: nat, data: seq<Byte>)
    requires Wrote(v, vn, w, vnw, ROOT, off, data)
    ensures Keeps(v, w, 0) && CoreStep(vn, vnw, ROOT) && OnlyRootBlocks(v, w) && CoreOk(w, vnw)
  {
    hide MapOk, Forward, Backward, CoreOk, FileByte, Content, Sized;
    StepSized(v, w, ROOT);
    WroteOnlyRoot(v, vn, w, vnw, off, data);
    forall i | i in v.inodes && i != ROOT ensures Content(w, i) == Content(v, i) {
      OtherContent(v, w, ROOT, i);
    }
  }

  /** What a directory write that fails leaves. */
  lemma NotWritten(v: Vol, vn: map<nat, Vnode>, w: Vol, vnw: map<nat, Vnode>, k: nat, ino: nat)
    requires FsOk(v, vn) && Sized(v) && ROOT in v.inodes && k <= |Table(v)|
    requires Wrote(v, vn, w, vnw, ROOT, DIRSIZE * k, [])
    ensures FsOkBut(w, vnw, ino, 0) && Sized(w) && Table(w) == Table(v)
  {
    hide Tree, CoreOk, Table, Sized, Wrote;
    DirUntouched(v, vn, w, vnw, k);
    WroteOnlyRoot(v, vn, w, vnw, DIRSIZE * k, []);
  }

  lemma Written(v: Vol, vn: map<nat, Vnode>, w: Vol, vnw: map<nat, Vnode>, k: nat, e: Entry, ino: nat)
    requires FsOk(v, vn) && Sized(v) && ROOT in v.inodes && k <= |Table(v)| && EntryOk(v, k, e)
    requires DIRSIZE * k + DIRSIZE <= MAXBLOCKS * BLOCKSIZE
    requires Wrote(v, vn, w, vnw, ROOT, DIRSIZE * k, EncodeEntry(e))
    requires k < |Table(v)| ==> Table(v)[k].ino == 0 || Table(v)[k].ino == ino
    requires (e.ino == 0 || e.ino == ino) && ino in v.inodes
    ensures FsOkBut(w, vnw, ino,
                    (if e.ino == ino then 1 else 0) - (if k < |Table(v)| && Table(v)[k].ino == ino then 1 else 0))
    ensures Sized(w) && Table(w) == Put(Table(v), k, e)
  {
    hide FsOkBut, Tree, CoreOk, Table, Sized, Wrote, EncodeEntry, OnlyRootBlocks;
    FsOkValid(v, vn, 0, 0);
    DirWritten(v, vn, w, vnw, k, e);
    WroteOnlyRoot(v, vn, w, vnw, DIRSIZE * k, EncodeEntry(e));
    Balanced(v, vn, 0, ino);
    SlotBalance(v, vn, w, vnw, k, e, ino, 0);
  }

  // ---------------------------------------------------------------------------------------
  // When a name can be entered

  /** The last empty slot, or the one past the end if there is none. */
  function SlotFor(es: seq<Entry>): (k: nat)
    ensures k <= |es| && (k < |es| ==> es[k].ino == 0) && forall j :: k < j < |es| ==> es[j].ino != 0
    ensures k == |es| ==> forall j :: 0 <= j < |es| ==> es[j].ino != 0
  {
    if es == [] then 0
    else
      var n := |es| - 1;
      if es[n].ino == 0 then n else if SlotFor(es[..n]) == n then n + 1 else SlotFor(es[..n])
  }

  lemma SlotForIs(es: seq<Entry>, emptyslot: int)
    requires -1 <= emptyslot < |es| && (emptyslot >= 0 ==> es[emptyslot].ino == 0)
    requires forall k :: emptyslot < k < |es| ==> es[k].ino != 0
    ensures SlotFor(es) == if emptyslot < 0 then |es| else emptyslot
  {
    var k := SlotFor(es);
    if k < |es| {
      assert es[k].ino == 0;
    }
  }

  /** The blocks that a new entry for the directory takes: 0, 1, or 2 with the indirect block. */
  ghost function EntryNeed(v: Vol): nat
    requires Sized(v) && ROOT in v.inodes
  {
    var fb := SlotFor(Table(v)) / SLOTS;
    Need(v, ROOT, fb, fb + 1)
  }

  /** Every slot is taken, and the directory is as large as a file can be. */
  predicate NoSlot(es: seq<Entry>) {
    |es| == MAXSLOTS && forall k :: 0 <= k < |es| ==> es[k].ino != 0
  }

  /** What entering a name comes to when `room` blocks are free. */
  ghost function EntryErr(v: Vol, name: CString, room: int): Err
    requires Sized(v) && ROOT in v.inodes
  {
    if Present(Table(v), name) then EEXIST
    else if |name| + 1 > NAMELEN then ENAMETOOLONG
    else if NoSlot(Table(v)) then EINVAL
    else if room < EntryNeed(v) then ENOSPC
    else OK
  }

  /** What creating a file under an absent name comes to: one block for its inode, then the entry. */
  ghost function CreateErr(v: Vol, name: CString): Err
    requires Sized(v) && ROOT in v.inodes
  {
    if Room(v) == 0 then ENOSPC else EntryErr(v, name, Room(v) - 1)
  }

  lemma SlotErr(v: Vol, name: CString)
    requires Tree(v) && Sized(v) && ROOT in v.inodes && !Present(Table(v), name) && |name| + 1 <= NAMELEN
    ensures var fb := SlotFor(Table(v)) / SLOTS; IoErr(v, ROOT, fb, fb + 1) == EntryErr(v, name, Room(v))
  {
    hide Sized, Table, Need, Room, Tree, Present;
    TreeSized(v);
    var k := SlotFor(Table(v));
    IoOne(v, ROOT, k / SLOTS);
  }

  /** The entry takes nothing in a mapped block, else one block, and one more for a wanting indirect block. */
  lemma EntryNeedIs(v: Vol)
    requires Tree(v) && Sized(v) && ROOT in v.inodes && !NoSlot(Table(v))
    ensures var fb := SlotFor(Table(v)) / SLOTS;
            && fb < MAXBLOCKS
            && EntryNeed(v) == if PtrOf(v, ROOT, fb) != 0 then 0
                               else if fb >= NDIRECT && v.inodes[ROOT].indirect == 0 then 2 else 1
  {
    hide Sized, Table, Need, Tree;
    TreeSized(v);
    NeedOne(v, ROOT, SlotFor(Table(v)) / SLOTS);
  }

  /**
   sfs_dir_link: enter a name for an inode in the last empty slot, or past the end.  The
   inode's link count is left to the caller.
   */
  method DirLink(fs: Sfs, name: CString, ino: nat) returns (err: Err, slot: nat)
    requires Mountable(fs) && ROOT in fs.vnodes && ino in fs.inodes
    modifies fs
    ensures FsOkBut(fs.V(), fs.vnodes, ino, if err == OK then 1 else 0)
    ensures Keeps(old(fs.V()), fs.V(), 0) && OnlyRootBlocks(old(fs.V()), fs.V())
    ensures CoreStep(old(fs.vnodes), fs.vnodes, ROOT)
    ensures err == EntryErr(old(fs.V()), name, Room(old(fs.V())))
    ensures err == EEXIST <==> Present(Table(old(fs.V())), name)
    ensures err == ENAMETOOLONG <==> !Present(Table(old(fs.V())), name) && |name| + 1 > NAMELEN
    ensures err == OK ==> slot == SlotFor(Table(old(fs.V())))
    ensures err == OK ==>
              slot <= |Table(old(fs.V()))| && (slot < |Table(old(fs.V()))| ==> Table(old(fs.V()))[slot].ino == 0)
    ensures Table(fs.V()) == if err == OK then Put(Table(old(fs.V())), slot, Entry(ino, name)) else Table(old(fs.V()))
    ensures err in {OK, EEXIST, ENAMETOOLONG, EINVAL, ENOSPC}
  {
    hide FsOkBut, Tree, CoreOk, Table, Sized, Wrote, EncodeEntry, Keeps, Present, Ok, CoreStep, OnlyRootBlocks, IoErr,
         Room, EntryNeed, NoSlot;
    ghost var v0, vn0 := fs.V(), fs.vnodes;
    FsOkValid(v0, vn0, 0, 0);
    TreeSized(v0);
    Balanced(v0, vn0, 0, ino);
    Unwritten(v0, vn0);
    var found, ino0, slot0, emptyslot := FindName(fs, name);
    if found {
      return EEXIST, 0;
    }
    if |name| + 1 > NAMELEN {
      return ENAMETOOLONG, 0;
    }
    CoreGet(v0, vn0, ROOT);
    slot := if emptyslot < 0 then fs.vnodes[ROOT].i.size / DIRSIZE else emptyslot;
    SlotForIs(Table(v0), emptyslot);
    SlotErr(v0, name);
    FreshEntry(v0, slot, ino, name);
    err := WriteDir(fs, slot, Entry(ino, name));
    if err == OK {
      WroteKeeps(v0, vn0, fs.V(), fs.vnodes, DIRSIZE * slot, EncodeEntry(Entry(ino, name)));
      Written(v0, vn0, fs.V(), fs.vnodes, slot, Entry(ino, name), ino);
    } else {
      WroteKeeps(v0, vn0, fs.V(), fs.vnodes, DIRSIZE * slot, []);
      NotWritten(v0, vn0, fs.V(), fs.vnodes, slot, ino);
    }
  }

  lemma FreshEntry(v: Vol, slot: nat, ino: nat, name: CString)
    requires Sized(v) && ROOT in v.inodes && !Present(Table(v), name) && ino in v.inodes && |name| < NAMELEN
    ensures EntryOk(v, slot, Entry(ino, name))
  {
    hide Table;
    forall j: nat ensures !Occupied(Table(v), j, name) {
    }
  }

  /** Doing nothing keeps everything. */
  lemma Unwritten(v: Vol, vn: map<nat, Vnode>)
    requires FsOk(v, vn) && ROOT in vn
    ensures Keeps(v, v, 0) && OnlyRootBlocks(v, v) && CoreStep(vn, vn, ROOT)
  {
    hide CoreOk, Content, Sized, Table;
    TreeSized(v);
  }

  /** sfs_dir_unlink of an occupied slot: the slot becomes empty, and this cannot fail. */
  method DirUnlink(fs: Sfs, slot: nat) returns (err: Err)
    requires Mountable(fs) && ROOT in fs.vnodes && slot < |Table(fs.V())| && Table(fs.V())[slot].ino != 0
    modifies fs
    ensures err == OK
    ensures FsOkBut(fs.V(), fs.vnodes, Table(old(fs.V()))[slot].ino, -1)
    ensures Keeps(old(fs.V()), fs.V(), 0) && OnlyRootBlocks(old(fs.V()), fs.V())
    ensures CoreStep(old(fs.vnodes), fs.vnodes, ROOT)
    ensures Table(fs.V()) == Put(Table(old(fs.V())), slot, Entry(0, []))
  {
    hide FsOkBut, CoreOk, Table, Sized, Wrote, EncodeEntry, Keeps, Ok, CoreStep, OnlyRootBlocks;
    ghost var v0, vn0 := fs.V(), fs.vnodes;
    FsOkValid(v0, vn0, 0, 0);
    TreeSized(v0);
    err := WriteDir(fs, slot, Entry(0, []));
    WroteKeeps(v0, vn0, fs.V(), fs.vnodes, DIRSIZE * slot, EncodeEntry(Entry(0, [])));
    Written(v0, vn0, fs.V(), fs.vnodes, slot, Entry(0, []), Table(v0)[slot].ino);
  }

  // ---------------------------------------------------------------------------------------
  // Link counts

  /** Only the link count of one inode differs. */
  ghost predicate Relinked(v: Vol, w: Vol, ino: nat, links: nat) {
    && Keeps(v, w, ino) && KeepsContent(v, w, ino)
    && w.inodes == v.inodes[ino := v.inodes[ino].(links := links)] && Table(w) == Table(v)
  }

  lemma RelinkOk(v: Vol, vn: map<nat, Vnode>, ino: nat, d: int, links: nat)
    requires FsOkBut(v, vn, ino, d) && ino in vn && ino in v.inodes && links < 0x1_0000
    ensures var i := v.inodes[ino].(links := links);
            FsOkBut(SetMeta(v, ino, i), vn[ino := vn[ino].(i := i, dirty := true)], ino,
              d + v.inodes[ino].links - links)
            && Relinked(v, SetMeta(v, ino, i), ino, links)
  {
    hide MapOk, Forward, Backward, FileByte, CoreOk, Tree, Table, SameBytes, FsOkBut;
    FsOkValid(v, vn, ino, d);
    TreeSized(v);
    LinksBalance(v, vn, ino, d, links);
    var i := v.inodes[ino].(links := links);
    var w := SetMeta(v, ino, i);
    SetMetaOk(v, ino, i);
    SameTree(v, w);
    SameContents(v, w);
  }

  lemma SameContents(v: Vol, w: Vol)
    requires SameBytes(v, w) && forall i :: i in v.inodes ==> i in w.inodes && w.inodes[i].size == v.inodes[i].size
    ensures Sized(v) && Sized(w) && forall i :: i in v.inodes ==> Content(w, i) == Content(v, i)
  {
    hide Sized, FileByte;
  }

  /** An inode's link count goes up or down by one, and the inode is dirty. */
  method Relink(fs: Sfs, ino: nat, delta: int)
    requires (delta == 1 || delta == -1) && FsOkBut(fs.V(), fs.vnodes, ino, delta)
    requires ino in fs.vnodes && ino in fs.inodes && fs.inodes[ino].links + delta >= 0
    modifies fs`vnodes, fs`inodes
    ensures Mountable(fs) && Relinked(old(fs.V()), fs.V(), ino, old(fs.inodes)[ino].links + delta)
    ensures ino in fs.vnodes && fs.vnodes.Keys == old(fs.vnodes).Keys
    ensures fs.vnodes[ino].refcount == old(fs.vnodes)[ino].refcount
    ensures forall i :: i in fs.vnodes && i != ino ==> fs.vnodes[i] == old(fs.vnodes)[i]
  {
    hide FsOkBut, CoreOk, Ok, Relinked, Table, Tree;
    FsOkValid(fs.V(), fs.vnodes, ino, delta);
    TreeSized(fs.V());
    CoreGet(fs.V(), fs.vnodes, ino);
    LinkBound(fs.V(), fs.vnodes, ino, delta, ino);
    RelinkOk(fs.V(), fs.vnodes, ino, delta, fs.inodes[ino].links + delta);
    ghost var v0 := fs.V();
    var i := fs.vnodes[ino].i;
    fs.SetInode(ino, i.(links := i.links + delta));
    assert fs.V() == SetMeta(v0, ino, v0.inodes[ino].(links := v0.inodes[ino].links + delta));
    Balanced(fs.V(), fs.vnodes, ino, 0);
  }

  // ---------------------------------------------------------------------------------------
  // References and names

  /** How many references to an inode are out; one that is not in memory has none. */
  function Refs(vn: map<nat, Vnode>, ino: nat): nat {
    if ino in vn then vn[ino].refcount else 0
  }

  /** The references to `ino` moved by `d`, all others stand. */
  ghost predicate RefsMove(vn: map<nat, Vnode>, vnw: map<nat, Vnode>, ino: nat, d: int) {
    forall i :: Refs(vnw, i) == Refs(vn, i) + if i == ino then d else 0
  }

  /** An entered name leads to its inode, an erased one nowhere; the rest lead where they did. */
  lemma PutNames(v: Vol, w: Vol, k: nat, e: Entry, name: CString)
    requires Tree(v) && Tree(w) && Sized(v) && Sized(w) && ROOT in v.inodes && ROOT in w.inodes
    requires k <= |Table(v)| && Table(w) == Put(Table(v), k, e)
    requires if e.ino != 0 then e.name == name && (k < |Table(v)| ==> Table(v)[k].ino == 0)
             else Occupied(Table(v), k, name)
    ensures Names(v, w, name, e.ino)
  {
    hide Sized, Table, AllClean;
    forall n ensures InoOf(Table(w), n) == if n == name then e.ino else InoOf(Table(v), n) {
      InoOfPut(Table(v), k, e, n);
    }
  }

  lemma FoundIs(v: Vol, vn: map<nat, Vnode>, k: nat, name: CString)
    requires FsOk(v, vn) && Sized(v) && ROOT in v.inodes && Occupied(Table(v), k, name)
    ensures InoOf(Table(v), name) == Table(v)[k].ino && Table(v)[k].ino in v.inodes && Table(v)[k].ino != 0
    ensures v.inodes[Table(v)[k].ino].links > 0
  {
    hide Sized, Table, AllClean, CoreOk;
    InoOfIs(Table(v), k, name);
    CountPositive(Table(v), k, Table(v)[k].ino);
  }

  /**
   sfs_lookonce: find a name and take a reference to its inode.  A name never leads to an
   inode without links, which the code would panic on.
   */
  method LookOnce(fs: Sfs, name: CString) returns (err: Err, ino: nat, slot: nat)
    requires Mountable(fs) && ROOT in fs.vnodes
    modifies fs
    ensures Mountable(fs) && fs.V() == old(fs.V()) && ROOT in fs.vnodes && ROOT in fs.inodes
    ensures err == if Present(Table(fs.V()), name) then OK else ENOENT
    ensures err == OK ==>
              Occupied(Table(fs.V()), slot, name) && ino == Table(fs.V())[slot].ino && ino == InoOf(Table(fs.V()), name)
    ensures err == OK ==> ino in fs.vnodes && ino in fs.inodes && ino != 0 && fs.vnodes[ino].i.links > 0
    ensures if err == OK then RefsMove(old(fs.vnodes), fs.vnodes, ino, 1) else fs.vnodes == old(fs.vnodes)
  {
    hide FsOkBut, CoreOk, Table, Sized, Ok, Tree;
    FsOkValid(fs.V(), fs.vnodes, 0, 0);
    TreeSized(fs.V());
    var found, i, s, emptyslot := FindName(fs, name);
    if !found {
      return ENOENT, 0, 0;
    }
    FoundIs(fs.V(), fs.vnodes, s, name);
    LoadVnode(fs, i);
    FsOkValid(fs.V(), fs.vnodes, 0, 0);
    CoreGet(fs.V(), fs.vnodes, i);
    err, ino, slot := OK, i, s;
  }

  lemma DecRefMoves(vn: map<nat, Vnode>, vnw: map<nat, Vnode>, ino: nat)
    requires ino in vn && vn[ino].refcount >= 1
    requires vnw.Keys == if vn[ino].refcount == 1 then vn.Keys - {ino} else vn.Keys
    requires vn[ino].refcount > 1 ==> vnw == vn[ino := vn[ino].(refcount := vn[ino].refcount - 1)]
    requires forall i :: i in vnw && i != ino ==> vnw[i] == vn[i]
    ensures RefsMove(vn, vnw, ino, -1)
  {
    forall i ensures Refs(vnw, i) == Refs(vn, i) + if i == ino then -1 else 0 {
      assert i in vnw <==> i in vnw.Keys;
    }
  }

  lemma CoreStepMoves(vn: map<nat, Vnode>, vnw: map<nat, Vnode>, ino: nat)
    requires CoreStep(vn, vnw, ROOT)
    ensures RefsMove(vn, vnw, ino, 0) && ROOT in vnw && vnw.Keys == vn.Keys
  {
    forall i ensures Refs(vnw, i) == Refs(vn, i) {
      assert i in vnw <==> i in vnw.Keys;
    }
  }

  // ---------------------------------------------------------------------------------------
  // The name operations

  /**
   sfs_dir_link and the increment of the link count that follows it in sfs_link, sfs_creat
   and sfs_rename: a further name for a file, and one link more; or an error and no change to
   names or links.
   */
  method EnterName(fs: Sfs, name: CString, ino: nat) returns (err: Err, slot: nat)
    requires Mountable(fs) && ROOT in fs.vnodes && ino in fs.vnodes && ino in fs.inodes
    modifies fs
    ensures Mountable(fs) && RefsMove(old(fs.vnodes), fs.vnodes, ino, 0)
    ensures ROOT in old(fs.inodes) && err == EntryErr(old(fs.V()), name, Room(old(fs.V())))
    ensures err == EEXIST <==> Present(Table(old(fs.V())), name)
    ensures err == ENAMETOOLONG <==> !Present(Table(old(fs.V())), name) && |name| + 1 > NAMELEN
    ensures err != OK ==>
              SameNames(old(fs.V()), fs.V()) && Keeps(old(fs.V()), fs.V(), 0) && fs.inodes.Keys == old(fs.inodes).Keys
    ensures err == OK ==> Entered(old(fs.V()), fs.V(), name, ino)
    ensures err == OK ==>
              slot <= |Table(old(fs.V()))| && (slot < |Table(old(fs.V()))| ==> Table(old(fs.V()))[slot].ino == 0)
    ensures ROOT in fs.inodes && (err == OK ==> Table(fs.V()) == Put(Table(old(fs.V())), slot, Entry(ino, name)))
    ensures err in {OK, EEXIST, ENAMETOOLONG, EINVAL, ENOSPC}
  {
    hide FsOkBut, CoreOk, Table, Sized, Ok, Tree, Keeps, KeepsContent, CoreStep, Content, Names, SameNames, Present,
         RefsMove, EntryErr, Room, OnlyRootBlocks, SlotFor, SameFile;
    ghost var v0, vn0 := fs.V(), fs.vnodes;
    FsOkValid(v0, vn0, 0, 0);
    TreeSized(v0);
    CoreGet(v0, vn0, ino);
    err, slot := DirLink(fs, name, ino);
    ghost var v1, vn1 := fs.V(), fs.vnodes;
    CoreStepMoves(vn0, vn1, ino);
    FsOkValid(v1, vn1, ino, if err == OK then 1 else 0);
    TreeSized(v1);
    SameLinks(v0, v1, ino);
    if err != OK {
      TableNames(v0, v1);
      Balanced(v1, vn1, ino, 0);
      return;
    }
    PutNames(v0, v1, slot, Entry(ino, name), name);
    Relink(fs, ino, 1);
    LinkEffect(v0, v1, fs.V(), name, ino, v1.inodes[ino].links + 1);
    LinkRefs(vn0, vn1, fs.vnodes, ino);
  }

  /** What a new name does: its inode has one link more, and nothing else changes. */
  ghost predicate Entered(v: Vol, w: Vol, name: CString, ino: nat) {
    && Names(v, w, name, ino) && Keeps(v, w, ino) && w.inodes.Keys == v.inodes.Keys && ino in v.inodes
    && w.inodes[ino].links == v.inodes[ino].links + 1 && (ino != ROOT ==> SameFile(v, w, ino))
  }

  /** All but the link count of a file is as it was. */
  ghost predicate SameFile(v: Vol, w: Vol, ino: nat) {
    KeepsContent(v, w, ino) && w.inodes[ino] == v.inodes[ino].(links := w.inodes[ino].links)
  }

  /** sfs_link. */
  method Link(fs: Sfs, name: CString, ino: nat) returns (err: Err)
    requires Mountable(fs) && ROOT in fs.vnodes && ino in fs.vnodes && ino in fs.inodes
    modifies fs
    ensures Mountable(fs) && RefsMove(old(fs.vnodes), fs.vnodes, ino, 0)
    ensures ROOT in old(fs.inodes) && err == EntryErr(old(fs.V()), name, Room(old(fs.V())))
    ensures err == EEXIST <==> Present(Table(old(fs.V())), name)
    ensures err == ENAMETOOLONG <==> !Present(Table(old(fs.V())), name) && |name| + 1 > NAMELEN
    ensures err != OK ==>
              SameNames(old(fs.V()), fs.V()) && Keeps(old(fs.V()), fs.V(), 0) && fs.inodes.Keys == old(fs.inodes).Keys
    ensures err == OK ==> Entered(old(fs.V()), fs.V(), name, ino)
  {
    ghost var slot;
    err, slot := EnterName(fs, name, ino);
  }

  lemma TableNames(v: Vol, w: Vol)
    requires Sized(v) && Sized(w) && ROOT in v.inodes && ROOT in w.inodes && Table(w) == Table(v)
    ensures SameNames(v, w)
  {
    hide Sized, Table;
  }

  /** A slot write followed by a change of link count. */
  lemma LinkEffect(v: Vol, w: Vol, x: Vol, name: CString, ino: nat, links: nat)
    requires Keeps(v, w, 0) && OnlyRootBlocks(v, w) && 0 !in v.inodes && ino in v.inodes && ino in w.inodes
    requires Relinked(w, x, ino, links)
    ensures forall i :: Names(v, w, name, i) ==> Names(v, x, name, i)
    ensures Keeps(v, x, ino) && x.inodes.Keys == v.inodes.Keys && x.inodes[ino].links == links
    ensures ino != ROOT ==> SameFile(v, x, ino)
  {
    hide Sized, Table, Content;
  }

  lemma LinkRefs(vn: map<nat, Vnode>, vn1: map<nat, Vnode>, vnw: map<nat, Vnode>, ino: nat)
    requires RefsMove(vn, vn1, ino, 0) && ino in vn1 && ino in vnw && vnw.Keys == vn1.Keys
    requires vnw[ino].refcount == vn1[ino].refcount
    requires forall i :: i in vnw && i != ino ==> vnw[i] == vn1[i]
    ensures RefsMove(vn, vnw, ino, 0)
  {
    forall i ensures Refs(vnw, i) == Refs(vn1, i) {
      assert i in vnw <==> i in vnw.Keys;
    }
  }

  /** sfs_dir_unlink and the decrement of the link count that follows it. */
  method EraseName(fs: Sfs, name: CString, ino: nat, slot: nat) returns (err: Err)
    requires Mountable(fs) && ROOT in fs.vnodes && ROOT in fs.inodes && Occupied(Table(fs.V()), slot, name)
    requires ino == Table(fs.V())[slot].ino && ino in fs.vnodes
    modifies fs
    ensures err == OK && Mountable(fs) && RefsMove(old(fs.vnodes), fs.vnodes, ino, 0) && ino in fs.vnodes
    ensures Erased(old(fs.V()), fs.V(), name, ino)
  {
    hide FsOkBut, CoreOk, Table, Sized, Ok, Tree, Keeps, KeepsContent, KeepsOthers, CoreStep, Content, Names, SameNames,
         Present, Refs, RefsMove, Relinked;
    ghost var v0, vn0 := fs.V(), fs.vnodes;
    FsOkValid(v0, vn0, 0, 0);
    TreeSized(v0);
    err := DirUnlink(fs, slot);
    ghost var v2, vn2 := fs.V(), fs.vnodes;
    CoreStepMoves(vn0, vn2, ino);
    FsOkValid(v2, vn2, ino, -1);
    TreeSized(v2);
    PutNames(v0, v2, slot, Entry(0, []), name);
    FoundIs(v0, vn0, slot, name);
    SameLinks(v0, v2, ino);
    CoreGet(v2, vn2, ino);
    assert fs.vnodes[ino].i.links > 0;
    Relink(fs, ino, -1);
    LinkEffect(v0, v2, fs.V(), name, ino, v2.inodes[ino].links - 1);
    LinkRefs(vn0, vn2, fs.vnodes, ino);
  }

  /** What taking a name away does, before any reference is dropped. */
  ghost predicate Erased(v: Vol, w: Vol, name: CString, ino: nat) {
    && Names(v, w, name, 0) && Keeps(v, w, ino) && w.inodes.Keys == v.inodes.Keys && ino in v.inodes
    && w.inodes[ino].links == v.inodes[ino].links - 1 && (ino != ROOT ==> SameFile(v, w, ino))
  }

  /**
   sfs_remove: the name is gone, and its inode has one link less; the inode and all its
   storage go exactly when that was the last link and nobody holds a reference.
   */
  method Remove(fs: Sfs, name: CString) returns (err: Err)
    requires Mountable(fs) && ROOT in fs.vnodes
    modifies fs
    ensures Mountable(fs) && ROOT in old(fs.inodes) && err == if Present(Table(old(fs.V())), name) then OK else ENOENT
    ensures err != OK ==> fs.V() == old(fs.V()) && fs.vnodes == old(fs.vnodes)
    ensures err == OK ==> Removed(old(fs.V()), old(fs.vnodes), fs.V(), fs.vnodes, name, InoOf(Table(old(fs.V())), name))
  {
    hide FsOkBut, CoreOk, Table, Sized, Ok, Tree, KeepsOthers, Present, Refs, RefsMove, Names, Keeps, KeepsContent;
    ghost var v0, vn0 := fs.V(), fs.vnodes;
    FsOkValid(v0, vn0, 0, 0);
    TreeSized(v0);
    var e, victim, slot := LookOnce(fs, name);
    if e != OK {
      return e;
    }
    ghost var vn1 := fs.vnodes;
    err := EraseName(fs, name, victim, slot);
    ghost var v3, vn3 := fs.V(), fs.vnodes;
    FsOkValid(v3, vn3, 0, 0);
    TreeSized(v3);
    CoreGet(v3, vn3, victim);
    DecRef(fs, victim);
    FsOkValid(fs.V(), fs.vnodes, 0, 0);
    TreeSized(fs.V());
    DecRefMoves(vn3, fs.vnodes, victim);
    RemoveEffect(v0, vn0, vn1, v3, vn3, fs.V(), fs.vnodes, name, victim);
  }

  lemma SameLinks(v: Vol, w: Vol, ino: nat)
    requires OnlyRootBlocks(v, w) && ino in v.inodes
    ensures ino in w.inodes && w.inodes[ino].links == v.inodes[ino].links && w.inodes.Keys == v.inodes.Keys
  {
  }

  /** What a removal does. */
  ghost predicate Removed(v: Vol, vn: map<nat, Vnode>, w: Vol, vnw: map<nat, Vnode>, name: CString, ino: nat) {
    && Names(v, w, name, 0) && Keeps(v, w, ino) && RefsMove(vn, vnw, ino, 0) && ino in v.inodes
    && if v.inodes[ino].links == 1 && Refs(vn, ino) == 0 then w.inodes.Keys == v.inodes.Keys - {ino}
       else
         && w.inodes.Keys == v.inodes.Keys && w.inodes[ino].links == v.inodes[ino].links - 1
         && (ino != ROOT ==> SameFile(v, w, ino))
  }

  lemma RemoveEffect(v: Vol, vn: map<nat, Vnode>, vn1: map<nat, Vnode>, x: Vol, vnx: map<nat, Vnode>, w: Vol,
                     vnw: map<nat, Vnode>,
                     name: CString, ino: nat)
    requires Erased(v, x, name, ino)
    requires RefsMove(vn, vn1, ino, 1) && RefsMove(vn1, vnx, ino, 0) && RefsMove(vnx, vnw, ino, -1) && ino in vnx
    requires KeepsOthers(x, w, ino) && ROOT in w.inodes && Table(w) == Table(x)
    requires w.inodes.Keys ==
               if vnx[ino].refcount == 1 && x.inodes[ino].links == 0 then x.inodes.Keys - {ino} else x.inodes.Keys
    requires !(vnx[ino].refcount == 1 && x.inodes[ino].links == 0) ==> w.inodes == x.inodes && KeepsOthers(x, w, 0)
    requires 0 !in v.inodes
    ensures Removed(v, vn, w, vnw, name, ino)
  {
    hide Sized, Table, Content;
    OthersKeep(x, w, ino);
    KeepsChain(v, x, w, ino);
    assert Refs(vnx, ino) == Refs(vn, ino) + 1;
  }

  /** What a successful rename does: one name moves, every inode and every file is as before. */
  ghost predicate Renamed(v: Vol, w: Vol, n1: CString, n2: CString) {
    && Sized(v) && Sized(w) && ROOT in v.inodes && ROOT in w.inodes
    && forall n :: InoOf(Table(w), n) ==
         if n == n2 then InoOf(Table(v), n1) else if n == n1 then 0 else InoOf(Table(v), n)
  }

  /**
   sfs_rename: link under the new name, unlink the old.  It moves the name or, with an
   error, changes no name; link counts, files and references come out as they went in.  The
   recovery from a failing unlink, with its panic, is never reached.  The assertion that the name
   leads to a file fails, and `died` is true, exactly if it leads to the root directory.
   */
  method Rename(fs: Sfs, n1: CString, n2: CString) returns (died: bool, err: Err)
    requires Mountable(fs) && ROOT in fs.vnodes && ROOT in fs.inodes
    modifies fs
    ensures died <==> Present(Table(old(fs.V())), n1) && InoOf(Table(old(fs.V())), n1) == ROOT
    ensures Mountable(fs) && RefsMove(old(fs.vnodes), fs.vnodes, if died then ROOT else 0, if died then 1 else 0)
    ensures err == ENOENT <==> !Present(Table(old(fs.V())), n1)
    ensures Present(Table(old(fs.V())), n1) && !died ==> err == EntryErr(old(fs.V()), n2, Room(old(fs.V())))
    ensures Present(Table(old(fs.V())), n1) && !died ==> (err == EEXIST <==> Present(Table(old(fs.V())), n2))
    ensures Present(Table(old(fs.V())), n1) && !died ==>
              (err == ENAMETOOLONG <==> !Present(Table(old(fs.V())), n2) && |n2| + 1 > NAMELEN)
    ensures Keeps(old(fs.V()), fs.V(), 0) && fs.inodes.Keys == old(fs.inodes).Keys
    ensures if err == OK && !died then Renamed(old(fs.V()), fs.V(), n1, n2) else SameNames(old(fs.V()), fs.V())
  {
    hide FsOkBut, CoreOk, Table, Sized, Ok, Tree, Keeps, KeepsContent, KeepsOthers, CoreStep, Content, Names, SameNames,
         Present, Refs, RefsMove, Relinked, OnlyRootBlocks, Renamed, EntryErr, Room;
    ghost var v0, vn0 := fs.V(), fs.vnodes;
    FsOkValid(v0, vn0, 0, 0);
    TreeSized(v0);
    Unwritten(v0, vn0);
    var e, g1, slot1 := LookOnce(fs, n1);
    died := false;
    TableNames(v0, v0);
    if e != OK {
      NoMove(vn0, 0);
      return false, e;
    }
    ghost var vn1 := fs.vnodes;
    FoundIs(v0, vn1, slot1, n1);
    FsOkValid(v0, vn1, 0, 0);
    KindOf(v0, vn1, g1);
    if fs.vnodes[g1].i.kind != TYPE_FILE {
      return true, OK;
    }
    ghost var slot2;
    err, slot2 := MoveName(fs, n1, n2, g1, slot1);
    ghost var v4, vn4 := fs.V(), fs.vnodes;
    FsOkValid(v4, vn4, 0, 0);
    TreeSized(v4);
    MovesChain(vn0, vn1, vn4, g1, 1, 0);
    InMemory(v4, vn4, vn0, g1);
    DecRef(fs, g1);
    FsOkValid(fs.V(), fs.vnodes, 0, 0);
    TreeSized(fs.V());
    DecRefMoves(vn4, fs.vnodes, g1);
    MovesChain(vn0, vn4, fs.vnodes, g1, 1, -1);
    ZeroMove(vn0, fs.vnodes, g1);
    OthersKeep(v4, fs.V(), 0);
    KeepsChain(v0, v4, fs.V(), 0);
    NamesThrough(v0, v4, fs.V(), n1, n2);
  }

  /** Only the root directory is not a file. */
  lemma KindOf(v: Vol, vn: map<nat, Vnode>, ino: nat)
    requires Sized(v) && Tree(v) && CoreOk(v, vn) && ino in vn
    ensures vn[ino].i.kind == TYPE_FILE <==> ino != ROOT
  {
    hide AllClean, Table, UniqueNames;
    CoreGet(v, vn, ino);
  }

  lemma NoMove(vn: map<nat, Vnode>, ino: nat)
    ensures RefsMove(vn, vn, ino, 0)
  {
  }

  lemma MovesChain(vn: map<nat, Vnode>, vn1: map<nat, Vnode>, vn2: map<nat, Vnode>, ino: nat, d: int, d1: int)
    requires RefsMove(vn, vn1, ino, d) && RefsMove(vn1, vn2, ino, d1)
    ensures RefsMove(vn, vn2, ino, d + d1)
  {
  }

  lemma ZeroMove(vn: map<nat, Vnode>, vnw: map<nat, Vnode>, ino: nat)
    requires RefsMove(vn, vnw, ino, 0)
    ensures RefsMove(vn, vnw, 0, 0)
  {
  }

  /** Whoever holds a reference finds the inode in memory. */
  lemma InMemory(v: Vol, vnw: map<nat, Vnode>, vn: map<nat, Vnode>, ino: nat)
    requires Sized(v) && CoreOk(v, vnw) && RefsMove(vn, vnw, ino, 1)
    ensures ino in vnw && ino in v.inodes && vnw[ino].refcount >= 1
  {
    assert Refs(vnw, ino) >= 1;
    hide Sized;
  }

  lemma NamesThrough(v: Vol, x: Vol, w: Vol, n1: CString, n2: CString)
    requires Sized(v) && Sized(w) && Sized(x) && ROOT in v.inodes && ROOT in w.inodes && ROOT in x.inodes
    requires Table(w) == Table(x)
    ensures Renamed(v, x, n1, n2) ==> Renamed(v, w, n1, n2)
    ensures SameNames(v, x) ==> SameNames(v, w)
  {
    hide Sized, Table;
  }

  /** The part of a rename between taking and dropping the reference to the file. */
  method MoveName(fs: Sfs, n1: CString, n2: CString, g1: nat, slot1: nat) returns (err: Err, slot2: nat)
    requires Mountable(fs) && ROOT in fs.vnodes && ROOT in fs.inodes && Occupied(Table(fs.V()), slot1, n1)
    requires g1 == Table(fs.V())[slot1].ino && g1 == InoOf(Table(fs.V()), n1) && g1 != ROOT && g1 in fs.vnodes
    requires g1 in fs.inodes
    modifies fs
    ensures Mountable(fs) && RefsMove(old(fs.vnodes), fs.vnodes, g1, 0)
    ensures err in {OK, EEXIST, ENAMETOOLONG, EINVAL, ENOSPC}
    ensures err == EntryErr(old(fs.V()), n2, Room(old(fs.V())))
    ensures err == EEXIST <==> Present(Table(old(fs.V())), n2)
    ensures err == ENAMETOOLONG <==> !Present(Table(old(fs.V())), n2) && |n2| + 1 > NAMELEN
    ensures Keeps(old(fs.V()), fs.V(), 0) && fs.inodes.Keys == old(fs.inodes).Keys && fs.inodes[g1].links > 0
    ensures if err == OK then Renamed(old(fs.V()), fs.V(), n1, n2) else SameNames(old(fs.V()), fs.V())
  {
    hide FsOkBut, CoreOk, Table, Sized, Ok, Tree, Keeps, Content, SameNames, Refs, RefsMove, Renamed, Entered, Erased,
         EntryErr, Room;
    ghost var v0, vn0 := fs.V(), fs.vnodes;
    FsOkValid(v0, vn0, 0, 0);
    TreeSized(v0);
    FoundIs(v0, vn0, slot1, n1);
    err, slot2 := EnterName(fs, n2, g1);
    ghost var v1, vn1 := fs.V(), fs.vnodes;
    if err != OK {
      KeptInode(v0, v1, g1);
      return;
    }
    FsOkValid(v1, vn1, 0, 0);
    TreeSized(v1);
    CoreGet(v0, vn0, g1);
    CoreGet(v0, vn0, ROOT);
    HeldStill(vn0, vn1, g1, g1);
    HeldStill(vn0, vn1, g1, ROOT);
    assert Occupied(Table(v1), slot1, n1);
    err := EraseName(fs, n1, g1, slot1);
    MovesChain(vn0, vn1, fs.vnodes, g1, 0, 0);
    RenameEffect(v0, v1, fs.V(), n1, n2, g1);
  }

  lemma KeptInode(v: Vol, w: Vol, ino: nat)
    requires Keeps(v, w, 0) && ino in v.inodes && ino != ROOT && ino != 0
    ensures ino in w.inodes && w.inodes[ino] == v.inodes[ino]
  {
    hide Sized, Content;
  }

  lemma HeldStill(vn: map<nat, Vnode>, vnw: map<nat, Vnode>, ino: nat, i: nat)
    requires RefsMove(vn, vnw, ino, 0) && i in vn && vn[i].refcount >= 1
    ensures i in vnw
  {
    assert Refs(vnw, i) == Refs(vn, i);
  }

  lemma RenameEffect(v: Vol, x: Vol, w: Vol, n1: CString, n2: CString, ino: nat)
    requires Entered(v, x, n2, ino) && Erased(x, w, n1, ino) && ino != ROOT && n1 != n2
    requires ino == InoOf(Table(v), n1) && v.inodes[ino].links > 0
    ensures Keeps(v, w, 0) && Renamed(v, w, n1, n2) && w.inodes.Keys == v.inodes.Keys && w.inodes[ino].links > 0
  {
    hide Sized, Content, Table;
  }

  /** What creating a new file does. */
  ghost predicate Created(v: Vol, vn: map<nat, Vnode>, w: Vol, vnw: map<nat, Vnode>, name: CString, ino: nat) {
    && Names(v, w, name, ino) && Keeps(v, w, 0) && ino !in v.inodes && w.inodes.Keys == v.inodes.Keys + {ino}
    && w.inodes[ino] == NewFile().(links := 1) && Content(w, ino) == [] && RefsMove(vn, vnw, ino, 1)
  }

  /** Nothing visible happened: every name, inode, file and reference is as before. */
  ghost predicate Undone(v: Vol, vn: map<nat, Vnode>, w: Vol, vnw: map<nat, Vnode>) {
    SameNames(v, w) && Keeps(v, w, 0) && w.inodes.Keys == v.inodes.Keys && RefsMove(vn, vnw, 0, 0)
  }

  /**
   sfs_creat: open the file of that name, or make a new empty one with that name and one
   link.  A creation that fails half way leaves no trace.
   */
  method Creat(fs: Sfs, name: CString, excl: bool) returns (err: Err, ino: nat)
    requires Mountable(fs) && ROOT in fs.vnodes
    modifies fs
    ensures Mountable(fs) && ROOT in old(fs.inodes)
    ensures Present(Table(old(fs.V())), name) ==> fs.V() == old(fs.V()) && err == if excl then EEXIST else OK
    ensures Present(Table(old(fs.V())), name) && !excl ==>
              ino == InoOf(Table(fs.V()), name) && RefsMove(old(fs.vnodes), fs.vnodes, ino, 1)
    ensures !Present(Table(old(fs.V())), name) && err == OK ==>
              Created(old(fs.V()), old(fs.vnodes), fs.V(), fs.vnodes, name, ino)
    ensures err != OK ==> Undone(old(fs.V()), old(fs.vnodes), fs.V(), fs.vnodes)
    ensures !Present(Table(old(fs.V())), name) ==> err == CreateErr(old(fs.V()), name)
    ensures !Present(Table(old(fs.V())), name) ==> err in {OK, ENAMETOOLONG, EINVAL, ENOSPC}
    ensures !Present(Table(old(fs.V())), name) && |name| + 1 > NAMELEN ==> err == ENAMETOOLONG || err == ENOSPC
  {
    hide FsOkBut, CoreOk, Table, Sized, Ok, Tree, Present, Refs, RefsMove, Created, Undone, EntryErr, Room;
    ghost var v0, vn0 := fs.V(), fs.vnodes;
    FsOkValid(v0, vn0, 0, 0);
    TreeSized(v0);
    NothingDone(v0, vn0);
    var found, i, slot, emptyslot := FindName(fs, name);
    if found && excl {
      return EEXIST, 0;
    }
    if found {
      FoundIs(v0, vn0, slot, name);
      LoadVnode(fs, i);
      LoadMoves(vn0, fs.vnodes, i);
      return OK, i;
    }
    err, ino := MakeObj(fs);
    if err != OK {
      return;
    }
    err := NameNew(fs, name, ino, v0, vn0);
  }

  lemma NothingDone(v: Vol, vn: map<nat, Vnode>)
    requires FsOk(v, vn) && ROOT in vn
    ensures Undone(v, vn, v, vn)
  {
    Unwritten(v, vn);
    hide CoreOk, Content, Table;
    TreeSized(v);
    TableNames(v, v);
  }

  lemma LoadMoves(vn: map<nat, Vnode>, vnw: map<nat, Vnode>, ino: nat)
    requires vnw.Keys == vn.Keys + {ino}
    requires vnw[ino].refcount == 1 + (if ino in vn then vn[ino].refcount else 0)
    requires forall i :: i in vn && i != ino ==> vnw[i] == vn[i]
    ensures RefsMove(vn, vnw, ino, 1)
  {
    forall i ensures Refs(vnw, i) == Refs(vn, i) + if i == ino then 1 else 0 {
      assert i in vnw <==> i in vnw.Keys;
    }
  }

  /** The second half of a creation: name the new inode, or let it go again. */
  method NameNew(fs: Sfs, name: CString, ino: nat, ghost v0: Vol, ghost vn0: map<nat, Vnode>) returns (err: Err)
    requires FsOk(v0, vn0) && FreeBlock(v0, ino) && ROOT in vn0 && ROOT in v0.inodes && Sized(v0)
    requires !Present(Table(v0), name)
    requires Mountable(fs) && fs.V() == AddInode(v0, ino, NewFile())
    requires fs.vnodes == vn0[ino := Vnode(NewFile(), true, 1)]
    modifies fs
    ensures Mountable(fs) && err in {OK, ENAMETOOLONG, EINVAL, ENOSPC}
    ensures Room(v0) > 0 && err == CreateErr(v0, name)
    ensures if err == OK then Created(v0, vn0, fs.V(), fs.vnodes, name, ino) else Undone(v0, vn0, fs.V(), fs.vnodes)
    ensures |name| + 1 > NAMELEN ==> err == ENAMETOOLONG
  {
    hide FsOkBut, CoreOk, Table, Sized, Ok, Tree, Present, Refs, RefsMove, Created, Undone, AddInode, Content, NewFile,
         KeepsFiles, EntryErr, Room;
    ghost var v1, vn1 := fs.V(), fs.vnodes;
    NewInodeOk(v0, vn0, ino);
    SameEntryErr(v0, vn0, ino, name);
    FsOkValid(v1, vn1, 0, 0);
    TreeSized(v1);
    CoreGet(v1, vn1, ino);
    ghost var slot;
    err, slot := EnterName(fs, name, ino);
    ghost var v2, vn2 := fs.V(), fs.vnodes;
    FsOkValid(v2, vn2, 0, 0);
    TreeSized(v2);
    HeldStill(vn1, vn2, ino, ino);
    NewIsKept(v0, vn0, v1, ino);
    NewRef(v0, vn0, vn2, ino);
    if err == OK {
      CreateEffect(v0, vn0, v1, v2, vn2, name, ino);
    } else {
      CoreGet(v2, vn2, ino);
      KeptInode(v1, v2, ino);
      DecRef(fs, ino);
      DecRefMoves(vn2, fs.vnodes, ino);
      MovesChain(vn0, vn2, fs.vnodes, ino, 1, -1);
      ZeroMove(vn0, fs.vnodes, ino);
      UndoEffect(v0, vn0, v1, v2, fs.V(), fs.vnodes, ino);
    }
  }

  /** With the block of a new inode gone, the entry meets the same directory. */
  lemma SameEntryErr(v: Vol, vn: map<nat, Vnode>, ino: nat, name: CString)
    requires FsOk(v, vn) && FreeBlock(v, ino) && ROOT in v.inodes && Sized(v)
    ensures var w := AddInode(v, ino, NewFile());
            && Sized(w) && ROOT in w.inodes && Room(v) == Room(w) + 1
            && EntryErr(w, name, Room(w)) == EntryErr(v, name, Room(v) - 1)
  {
    hide FsOkBut, CoreOk, Table, Tree, Present, AddInode, Content, KeepsFiles, Room, Need, MapOk, Forward, Backward;
    NewInodeOk(v, vn, ino);
    var w := AddInode(v, ino, NewFile());
    FsOkValid(w, vn[ino := Vnode(NewFile(), true, 1)], 0, 0);
    TreeSized(w);
    var fb := SlotFor(Table(v)) / SLOTS;
    NewFileEmpty();
    RootStaysPut(v, ino);
    InodeTakesOne(v, ino, NewFile(), ROOT, fb, fb + 1);
  }

  lemma NewFileEmpty()
    ensures NoBlocks(NewFile())
  {
  }

  lemma RootStaysPut(v: Vol, b: nat)
    requires FreeBlock(v, b) && ROOT in v.inodes
    ensures b != ROOT && ROOT in AddInode(v, b, NewFile()).inodes
  {
    InodeOwned(v, ROOT);
    FreeIsNot(v, b);
  }

  /** The volume with a new, yet nameless inode. */
  ghost predicate WithNew(v: Vol, w: Vol, ino: nat) {
    && Keeps(v, w, 0) && SameNames(v, w) && ino !in v.inodes && ino != ROOT && ino != 0
    && w.inodes == v.inodes[ino := NewFile()] && Content(w, ino) == []
  }

  lemma NewIsKept(v: Vol, vn: map<nat, Vnode>, w: Vol, ino: nat)
    requires FsOk(v, vn) && FreeBlock(v, ino) && w == AddInode(v, ino, NewFile())
    ensures WithNew(v, w, ino) && w.inodes[ino].links == 0
  {
    hide FsOkBut, CoreOk, Table, Sized, Ok, Tree, Content;
    FsOkValid(v, vn, 0, 0);
    TreeSized(v);
    NewInodeOk(v, vn, ino);
    FsOkValid(w, vn[ino := Vnode(NewFile(), true, 1)], 0, 0);
    TreeSized(w);
    TableNames(v, w);
  }

  lemma NewRef(v: Vol, vn: map<nat, Vnode>, vnw: map<nat, Vnode>, ino: nat)
    requires FsOk(v, vn) && ino !in v.inodes && RefsMove(vn[ino := Vnode(NewFile(), true, 1)], vnw, ino, 0)
    ensures RefsMove(vn, vnw, ino, 1) && ino in vnw && vnw[ino].refcount == 1
  {
    hide Tree, Table, EncodeInode, NewFile;
    assert ino !in vn;
    var vn1 := vn[ino := Vnode(NewFile(), true, 1)];
    assert Refs(vnw, ino) == Refs(vn1, ino);
    forall i ensures Refs(vnw, i) == Refs(vn, i) + if i == ino then 1 else 0 {
      assert Refs(vnw, i) == Refs(vn1, i);
    }
  }

  lemma CreateEffect(v: Vol, vn: map<nat, Vnode>, x: Vol, w: Vol, vnw: map<nat, Vnode>, name: CString, ino: nat)
    requires WithNew(v, x, ino) && Entered(x, w, name, ino) && RefsMove(vn, vnw, ino, 1)
    ensures Created(v, vn, w, vnw, name, ino)
  {
    hide Table, Sized, Content, Refs, InoOf;
    forall i | i in v.inodes && i != ROOT && i != 0
      ensures i in w.inodes && w.inodes[i] == v.inodes[i] && Content(w, i) == Content(v, i)
    {
      assert i in x.inodes && i != ino;
    }
  }

  lemma UndoEffect(v: Vol, vn: map<nat, Vnode>, x: Vol, y: Vol, w: Vol, vnw: map<nat, Vnode>, ino: nat)
    requires WithNew(v, x, ino) && SameNames(x, y) && Keeps(x, y, 0) && y.inodes.Keys == x.inodes.Keys
    requires KeepsOthers(y, w, ino) && ROOT in w.inodes && Table(w) == Table(y)
    requires w.inodes.Keys == y.inodes.Keys - {ino}
    requires RefsMove(vn, vnw, 0, 0)
    ensures Undone(v, vn, w, vnw)
  {
    hide Table, Sized, Content, Refs, InoOf;
    forall i | i in v.inodes && i != ROOT && i != 0
      ensures i in w.inodes && w.inodes[i] == v.inodes[i] && Content(w, i) == Content(v, i)
    {
      assert i in x.inodes && i in y.inodes && i != ino;
    }
  }

  // ---------------------------------------------------------------------------------------
  // Laws across operations

  /** Writing to a file other than the directory keeps names, links and every other file. */
  lemma FileWritten(v: Vol, vn: map<nat, Vnode>, w: Vol, vnw: map<nat, Vnode>, ino: nat, off: nat, data: seq<Byte>)
    requires FsOk(v, vn) && ino != ROOT && Wrote(v, vn, w, vnw, ino, off, data)
    ensures FsOk(w, vnw) && SameNames(v, w) && Keeps(v, w, ino) && RefsMove(vn, vnw, ino, 0)
    ensures ino in v.inodes && ino in w.inodes && w.inodes[ino].links == v.inodes[ino].links
    ensures Content(w, ino) == Splice(Content(v, ino), off, data)
  {
    hide Ok, CoreOk, FileByte, Sized, Stored, Content, Clean, Table, UniqueNames, Refs;
    TreeSized(v);
    assert OnlyFile(v, w, ino) by { StoredOnly(v, w, ino, off, data); }
    StepSized(v, w, ino);
    StepRefines(Mounted(v, vn), WriteOp(ino, off, data), Mounted(w, vnw));
    assert Content(w, ino) == Abs(w)[ino] && Content(v, ino) == Abs(v)[ino];
    forall i | i in v.inodes && i != ino ensures Content(w, i) == Content(v, i) {
      OtherContent(v, w, ino, i);
    }
    TableOf(v, w);
    TableNames(v, w);
    StepMoves(vn, vnw, ino);
  }

  lemma StoredOnly(v: Vol, w: Vol, ino: nat, off: nat, data: seq<Byte>)
    requires Stored(v, w, ino, off, data)
    ensures OnlyFile(v, w, ino)
  {
    hide OnlyFile, FileByte;
  }

  lemma StepMoves(vn: map<nat, Vnode>, vnw: map<nat, Vnode>, ino: nat)
    requires CoreStep(vn, vnw, ino)
    ensures RefsMove(vn, vnw, ino, 0)
  {
    forall i ensures Refs(vnw, i) == Refs(vn, i) {
      assert i in vnw <==> i in vnw.Keys;
    }
  }

  /** Renaming a file back restores every name. */
  lemma RenameBack(v: Vol, x: Vol, w: Vol, n1: CString, n2: CString)
    requires Renamed(v, x, n1, n2) && Renamed(x, w, n2, n1) && InoOf(Table(v), n2) == 0
    ensures SameNames(v, w)
  {
    hide Sized, Table;
  }

  /** A link taken away again leaves names and link counts as they were. */
  lemma LinkThenRemove(v: Vol, x: Vol, vnx: map<nat, Vnode>, w: Vol, vnw: map<nat, Vnode>, name: CString, ino: nat)
    requires Entered(v, x, name, ino) && Removed(x, vnx, w, vnw, name, ino) && InoOf(Table(v), name) == 0
    requires v.inodes[ino].links > 0 && ino != ROOT
    ensures SameNames(v, w) && Keeps(v, w, 0) && w.inodes.Keys == v.inodes.Keys && w.inodes[ino] == v.inodes[ino]
  {
    hide Sized, Table, Content;
  }

  /** A file created, let go of and removed leaves no inode behind, whatever was written to it. */
  lemma CreateThenRemove(v: Vol, vn: map<nat, Vnode>, x: Vol, vnx: map<nat, Vnode>, y: Vol, vny: map<nat, Vnode>,
                         w: Vol, vnw: map<nat, Vnode>, name: CString, ino: nat)
    requires Created(v, vn, x, vnx, name, ino) && Refs(vn, ino) == 0 && InoOf(Table(v), name) == 0
    requires SameNames(x, y) && Keeps(x, y, ino) && y.inodes.Keys == x.inodes.Keys
    requires y.inodes[ino].links == x.inodes[ino].links
    requires RefsMove(vnx, vny, ino, -1) && Removed(y, vny, w, vnw, name, ino) && ino != ROOT
    ensures Undone(v, vn, w, vnw)
  {
    hide Sized, Table, Content;
    assert Refs(vny, ino) == 0;
    forall i | i in v.inodes && i != ROOT && i != 0
      ensures i in w.inodes && w.inodes[i] == v.inodes[i] && Content(w, i) == Content(v, i)
    {
      assert i in x.inodes && i in y.inodes && i != ino;
    }
    forall i ensures Refs(vnw, i) == Refs(vn, i) {
      assert Refs(vnw, i) == Refs(vny, i);
    }
  }
}
