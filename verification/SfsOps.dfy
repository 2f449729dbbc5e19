/**
 SFS operations on names and references: create, link, remove, rename, look up, and the
 release of an inode when its last reference goes.
 */
module SfsOps {
  import opened SfsLayout
  import opened SfsVolume
  import opened SfsSpace
  import opened SfsFile
  import opened SfsTruncate
  import opened SfsContents
  import opened SfsDir

  // ---------------------------------------------------------------------------------------
  // Names

  /** The inode a name leads to, 0 if the name is free. */
  function InoOf(es: seq<Entry>, name: CString): nat {
    if es == [] then 0
    else if es[|es| - 1].ino != 0 && es[|es| - 1].name == name then es[|es| - 1].ino
    else InoOf(es[..|es| - 1], name)
  }

  lemma {:induction false} InoOfIs(es: seq<Entry>, k: nat, name: CString)
    requires UniqueNames(es) && Occupied(es, k, name)
    ensures InoOf(es, name) == es[k].ino
  {
    var last := |es| - 1;
    if k < last {
      assert Occupied(es[..last], k, name);
      InoOfIs(es[..last], k, name);
    }
  }

  lemma {:induction false} InoOfAbsent(es: seq<Entry>, name: CString)
    requires !Present(es, name)
    ensures InoOf(es, name) == 0
  {
    if es != [] {
      var last := |es| - 1;
      assert !Occupied(es, last, name);
      forall k: nat ensures !Occupied(es[..last], k, name) {
        assert !Occupied(es, k, name);
      }
      InoOfAbsent(es[..last], name);
    }
  }

  /** Writing one slot changes at most the name it held and the name it now holds. */
  lemma InoOfPut(es: seq<Entry>, k: nat, e: Entry, name: CString)
    requires UniqueNames(es) && k <= |es| && UniqueNames(Put(es, k, e))
    ensures InoOf(Put(es, k, e), name) ==
              if e.ino != 0 && e.name == name then e.ino
              else if Occupied(es, k, name) then 0
              else InoOf(es, name)
  {
    var r := Put(es, k, e);
    if e.ino != 0 && e.name == name {
      assert Occupied(r, k, name);
      InoOfIs(r, k, name);
    } else if Occupied(es, k, name) {
      forall j: nat ensures !Occupied(r, j, name) {
        assert j != k ==> !Occupied(es, j, name);
      }
      InoOfAbsent(r, name);
    } else if j: nat :| Occupied(es, j, name) {
      assert j != k && Occupied(r, j, name);
      InoOfIs(es, j, name);
      InoOfIs(r, j, name);
    } else {
      forall j: nat ensures !Occupied(r, j, name) {
        assert !Occupied(es, j, name);
      }
      InoOfAbsent(es, name);
      InoOfAbsent(r, name);
    }
  }

  // ---------------------------------------------------------------------------------------
  // Single changes and the invariant

  /** Writing a slot moves the link balance of `ino` by what the slot gains or loses. */
  lemma SlotBalance(v: Vol, vn: map<nat, Vnode>, w: Vol, vnw: map<nat, Vnode>, k: nat, e: Entry, ino: nat, d: int)
    requires FsOkBut(v, vn, ino, d) && Tree(w) && CoreOk(w, vnw) && vnw.Keys == vn.Keys && OnlyRootBlocks(v, w)
    requires Sized(v) && ROOT in v.inodes && k <= |Table(v)| && Sized(w) && Table(w) == Put(Table(v), k, e)
    requires k < |Table(v)| ==> Table(v)[k].ino == 0 || Table(v)[k].ino == ino
    requires e.ino == 0 || e.ino == ino
    requires ino != 0 && 0 !in v.inodes
    ensures FsOkBut(w, vnw, ino,
                    d - (if k < |Table(v)| && Table(v)[k].ino == ino then 1 else 0) + (if e.ino == ino then 1 else 0))
  {
    hide Tree, CoreOk, Table, Sized;
    forall i | i in w.inodes
      ensures Count(Table(w), i) == Count(Table(v), i)
              + if i != ino then 0
                else (if e.ino == ino then 1 else 0) - (if k < |Table(v)| && Table(v)[k].ino == ino then 1 else 0)
    {
      CountPut(Table(v), k, e, i);
    }
  }

  /** Block 0 is the superblock, never an inode. */
  lemma NoInodeZero(v: Vol)
    requires Ok(v)
    ensures 0 !in v.inodes
  {
    assert v.owner[0] == Reserved;
  }

  /** No link count gets near the width of its field: the directory has too few slots. */
  lemma LinkBound(v: Vol, vn: map<nat, Vnode>, ino: nat, d: int, i: nat)
    requires FsOkBut(v, vn, ino, d) && i in v.inodes && -1 <= d <= 1
    ensures v.inodes[i].links <= MAXBLOCKS * (BLOCKSIZE / DIRSIZE) + 2
  {
    hide CoreOk, Ok, Content, AllClean;
    TreeSized(v);
    CountBound(Table(v), i);
  }

  /** The bytes of the directory, and so its table, do not depend on inode attributes. */
  lemma SameTable(v: Vol, w: Vol)
    requires Ok(v) && Ok(w) && SameBytes(v, w) && ROOT in v.inodes && w.inodes[ROOT].size == v.inodes[ROOT].size
    ensures Table(w) == Table(v)
  {
    hide Ok, FileByte, Sized, Slots;
    assert Content(w, ROOT) == Content(v, ROOT);
  }

  lemma SameClean(v: Vol, w: Vol)
    requires AllClean(v) && Ok(w) && SameBytes(v, w)
    requires forall i :: i in v.inodes ==> w.inodes[i].size == v.inodes[i].size
    ensures AllClean(w)
  {
    hide Ok, FileByte, Sized;
  }

  /** Nothing but link counts, dirty marks and references differ, or disk blocks no file is in. */
  lemma SameTree(v: Vol, w: Vol)
    requires Tree(v) && Ok(w) && SameBytes(v, w)
    requires forall i :: i in v.inodes ==> w.inodes[i].size == v.inodes[i].size && w.inodes[i].kind == v.inodes[i].kind
    ensures Tree(w) && Sized(v) && Sized(w) && ROOT in v.inodes && ROOT in w.inodes && Table(w) == Table(v)
  {
    hide MapOk, Forward, Backward, FileByte, AllClean, Table, SameBytes;
    SameClean(v, w);
    SameKeys(v, w);
    TreeSized(v);
    SameTable(v, w);
  }

  lemma SameKeys(v: Vol, w: Vol)
    requires SameBytes(v, w)
    ensures v.inodes.Keys == w.inodes.Keys && Sized(v) && Sized(w)
  {
    hide FileByte;
  }

  /** Changing a link count shifts the balance the other way. */
  lemma LinksBalance(v: Vol, vn: map<nat, Vnode>, ino: nat, d: int, links: nat)
    requires FsOkBut(v, vn, ino, d) && ino in vn && ino in v.inodes && links < 0x1_0000
    ensures var i := v.inodes[ino].(links := links);
            FsOkBut(SetMeta(v, ino, i), vn[ino := vn[ino].(i := i, dirty := true)], ino,
              d + v.inodes[ino].links - links)
  {
    hide MapOk, Forward, Backward, FileByte, CoreOk, Tree, Table, SameBytes;
    TreeSized(v);
    var i := v.inodes[ino].(links := links);
    var w := SetMeta(v, ino, i);
    CoreGet(v, vn, ino);
    SetMetaOk(v, ino, i);
    CoreKept(v, vn, w, ino, i);
    SameTree(v, w);
  }

  lemma Balanced(v: Vol, vn: map<nat, Vnode>, ino: nat, other: nat)
    requires FsOkBut(v, vn, ino, 0)
    ensures FsOkBut(v, vn, other, 0)
  {
    hide Tree, CoreOk, Table;
  }

  /** Loading an inode that is not in memory reads back exactly the current inode. */
  lemma LoadOk(v: Vol, vn: map<nat, Vnode>, ino: nat)
    requires FsOk(v, vn) && ino in v.inodes && ino !in vn
    ensures Sized(v) && |v.disk[ino]| == BLOCKSIZE && DecodeInode(v.disk[ino]) == v.inodes[ino]
    ensures FsOk(v, vn[ino := Vnode(v.inodes[ino], false, 1)])
  {
    hide MapOk, Forward, Backward, EncodeInode, DecodeInode, Tree, Table;
    TreeSized(v);
    assert v.disk[ino] == EncodeInode(v.inodes[ino]);
    InodeRoundTrip(v.inodes[ino]);
  }

  /** References and dirty marks that stay set do not affect the invariant. */
  lemma RefcountOk(v: Vol, vn: map<nat, Vnode>, ino: nat, n: nat)
    requires FsOk(v, vn) && ino in vn && n >= 1
    ensures FsOk(v, vn[ino := vn[ino].(refcount := n)])
  {
    hide Tree, Table, CoreOk;
    TreeSized(v);
    RefcountCore(v, vn, ino, n);
  }

  lemma RefcountCore(v: Vol, vn: map<nat, Vnode>, ino: nat, n: nat)
    requires Sized(v) && CoreOk(v, vn) && ino in vn && n >= 1
    ensures CoreOk(v, vn[ino := vn[ino].(refcount := n)])
  {
    hide Sized, EncodeInode, InodeFits;
  }

  function NewFile(): Inode {
    Inode(0, TYPE_FILE, 0, seq(NDIRECT, _ => 0), 0)
  }

  /** A fresh inode with no links and one reference keeps the invariant and every file. */
  lemma NewInodeOk(v: Vol, vn: map<nat, Vnode>, b: nat)
    requires FsOk(v, vn) && FreeBlock(v, b)
    ensures b !in v.inodes && FsOk(AddInode(v, b, NewFile()), vn[b := Vnode(NewFile(), true, 1)])
    ensures KeepsFiles(v, AddInode(v, b, NewFile())) && Table(AddInode(v, b, NewFile())) == Table(v)
    ensures Content(AddInode(v, b, NewFile()), b) == []
  {
    hide MapOk, Forward, Backward, FileByte, CoreOk, Tree, Table;
    TreeSized(v);
    FreeIsNot(v, b);
    AddInodeOk(v, b, NewFile());
    var w := AddInode(v, b, NewFile());
    NewInodeCore(v, vn, b);
    NewInodeTree(v, b);
    CountAbsent(Table(v), b);
  }

  lemma NewInodeCore(v: Vol, vn: map<nat, Vnode>, b: nat)
    requires Ok(v) && CoreOk(v, vn) && FreeBlock(v, b) && b !in v.inodes && Sized(AddInode(v, b, NewFile()))
    ensures CoreOk(AddInode(v, b, NewFile()), vn[b := Vnode(NewFile(), true, 1)])
  {
    hide MapOk, Forward, Backward;
  }

  /** Every file keeps its bytes and its attributes other than links, the directory set apart. */
  ghost predicate KeepsFiles(v: Vol, w: Vol) {
    && Sized(v) && Sized(w)
    && forall i :: i in v.inodes && i != ROOT ==>
         i in w.inodes && Content(w, i) == Content(v, i) && w.inodes[i].kind == v.inodes[i].kind
  }

  lemma NewInodeBytes(v: Vol, w: Vol, b: nat)
    requires AllClean(v) && Ok(w) && b !in v.inodes && w.inodes == v.inodes[b := NewFile()]
    requires forall j, pos: nat :: j in v.inodes ==> FileByte(w, j, pos) == FileByte(v, j, pos)
    requires forall pos: nat :: FileByte(w, b, pos) == 0
    ensures AllClean(w) && KeepsFiles(v, w) && Content(w, b) == []
    ensures ROOT in v.inodes ==> Content(w, ROOT) == Content(v, ROOT)
  {
    hide MapOk, Forward, Backward, FileByte, Sized;
    forall i | i in v.inodes ensures Content(w, i) == Content(v, i) && Clean(w, i) {
      assert Clean(v, i);
    }
  }

  lemma NewInodeTree(v: Vol, b: nat)
    requires Tree(v) && FreeBlock(v, b) && b !in v.inodes && Ok(AddInode(v, b, NewFile()))
    requires forall j, pos: nat :: j in v.inodes ==> FileByte(AddInode(v, b, NewFile()), j, pos) == FileByte(v, j, pos)
    requires forall pos: nat :: FileByte(AddInode(v, b, NewFile()), b, pos) == 0
    ensures Tree(AddInode(v, b, NewFile())) && KeepsFiles(v, AddInode(v, b, NewFile()))
    ensures ROOT in v.inodes && Table(AddInode(v, b, NewFile())) == Table(v)
    ensures Content(AddInode(v, b, NewFile()), b) == []
    ensures forall k :: 0 <= k < |Table(v)| ==> Table(v)[k].ino != b
  {
    hide MapOk, Forward, Backward, FileByte, Slots, AllClean, KeepsFiles, Content, UniqueNames, Claim;
    var w := AddInode(v, b, NewFile());
    FreeIsNot(v, b);
    TreeSized(v);
    NewInodeBytes(v, w, b);
  }

  // ---------------------------------------------------------------------------------------
  // Dropping the last reference

  /** Every inode but `ino` is there as before, with its attributes and its bytes. */
  ghost predicate KeepsOthers(v: Vol, w: Vol, ino: nat) {
    && Sized(v) && Sized(w)
    && forall i :: i in v.inodes && i != ino ==>
         i in w.inodes && w.inodes[i] == v.inodes[i] && Content(w, i) == Content(v, i)
  }

  lemma EmptiedFile(v: Vol, vn: map<nat, Vnode>, w: Vol, vnw: map<nat, Vnode>, ino: nat)
    requires FsOk(v, vn) && ino != ROOT && Truncated(v, vn, w, vnw, ino, 0)
    ensures FsOk(w, vnw) && KeepsOthers(v, w, ino) && ino in w.inodes && NoBlocks(w.inodes[ino])
    ensures w.inodes[ino].links == v.inodes[ino].links && CoreStep(vn, vnw, ino)
    ensures ROOT in v.inodes && ROOT in w.inodes && Table(w) == Table(v)
  {
    hide Ok, CoreOk, FileByte, Sized, Truncated, OnlyFile, Content, Clean, Table, UniqueNames;
    TreeSized(v);
    TruncatedMeans(v, vn, w, vnw, ino);
    StepSized(v, w, ino);
    StepRefines(Mounted(v, vn), EmptyOp(ino), Mounted(w, vnw));
    forall i | i in v.inodes && i != ino ensures Content(w, i) == Content(v, i) {
      OtherContent(v, w, ino, i);
    }
    TableOf(v, w);
  }

  lemma TableOf(v: Vol, w: Vol)
    requires Sized(v) && Sized(w) && ROOT in v.inodes && ROOT in w.inodes && Content(w, ROOT) == Content(v, ROOT)
    ensures Table(w) == Table(v)
  {
    hide Sized;
  }

  lemma TruncatedMeans(v: Vol, vn: map<nat, Vnode>, w: Vol, vnw: map<nat, Vnode>, ino: nat)
    requires Truncated(v, vn, w, vnw, ino, 0)
    ensures OnlyFile(v, w, ino) && CoreOk(w, vnw) && CoreStep(vn, vnw, ino) && NoBlocks(w.inodes[ino])
    ensures forall i :: i in v.inodes && i != ino ==> i in w.inodes && w.inodes[i] == v.inodes[i]
    ensures w.inodes[ino].kind == v.inodes[ino].kind && w.inodes[ino].links == v.inodes[ino].links
    ensures w.inodes.Keys == v.inodes.Keys && ino in v.inodes
  {
    hide Ok, CoreOk, FileByte, Sized;
  }

  /** sfs_sync_inode writes the inode's own block, which holds no part of any file. */
  lemma SyncedOk(v: Vol, vn: map<nat, Vnode>, ino: nat)
    requires FsOk(v, vn) && ino in vn && ino in v.inodes && ino < |v.disk| && InodeFits(v.inodes[ino])
    ensures FsOk(PutBlock(v, ino, EncodeInode(v.inodes[ino])), vn[ino := vn[ino].(dirty := false)])
    ensures SameBytes(v, PutBlock(v, ino, EncodeInode(v.inodes[ino])))
    ensures Table(PutBlock(v, ino, EncodeInode(v.inodes[ino]))) == Table(v)
  {
    hide MapOk, Forward, Backward, CoreOk, FileByte, Tree, Table, SameBytes, EncodeInode;
    TreeSized(v);
    InodeIs(v, ino);
    var w := PutBlock(v, ino, EncodeInode(v.inodes[ino]));
    PutPlainBlock(v, ino, EncodeInode(v.inodes[ino]));
    SameTree(v, w);
    SyncedCore(v, vn, ino);
  }

  lemma InodeIs(v: Vol, ino: nat)
    requires Ok(v) && ino in v.inodes
    ensures v.owner[ino] == InodeAt(ino)
  {
  }

  lemma SyncedCore(v: Vol, vn: map<nat, Vnode>, ino: nat)
    requires Sized(v) && CoreOk(v, vn) && ino in vn && ino in v.inodes && InodeFits(v.inodes[ino])
    requires Sized(PutBlock(v, ino, EncodeInode(v.inodes[ino])))
    ensures CoreOk(PutBlock(v, ino, EncodeInode(v.inodes[ino])), vn[ino := vn[ino].(dirty := false)])
  {
    hide EncodeInode, InodeFits;
  }

  /** A clean, linked inode may leave memory. */
  lemma UnloadOk(v: Vol, vn: map<nat, Vnode>, ino: nat)
    requires FsOk(v, vn) && ino in vn && !vn[ino].dirty && ino in v.inodes && v.inodes[ino].links > 0
    ensures FsOk(v, vn - {ino})
  {
    hide Tree, Table, EncodeInode, InodeFits;
    TreeSized(v);
  }

  /** An unlinked inode without blocks is discarded: no slot names it. */
  lemma DiscardOk(v: Vol, vn: map<nat, Vnode>, ino: nat)
    requires FsOk(v, vn) && ino in vn && ino in v.inodes && v.inodes[ino].links == 0 && NoBlocks(v.inodes[ino])
    ensures ino < |v.used| && v.used[ino] && ino < |v.owner| && ino != ROOT
    ensures FsOk(DropInode(v, ino), vn - {ino}) && KeepsOthers(v, DropInode(v, ino), ino)
    ensures Table(DropInode(v, ino)) == Table(v)
  {
    hide MapOk, Forward, Backward, CoreOk, FileByte, Tree, Table;
    TreeSized(v);
    DropInodeOk(v, ino);
    var w := DropInode(v, ino);
    DiscardBytes(v, w, ino);
    DiscardCore(v, vn, ino);
    forall k | 0 <= k < |Table(v)| ensures Table(v)[k].ino != ino {
      if Table(v)[k].ino == ino { CountPositive(Table(v), k, ino); }
    }
    TableOf(v, w);
    DiscardTree(v, w, ino);
  }

  lemma DiscardBytes(v: Vol, w: Vol, ino: nat)
    requires Tree(v) && Ok(w) && ino in v.inodes && ino != ROOT && w.inodes == v.inodes - {ino}
    requires forall j, pos: nat :: j in v.inodes && j != ino ==> FileByte(w, j, pos) == FileByte(v, j, pos)
    ensures AllClean(w) && KeepsOthers(v, w, ino) && ROOT in v.inodes && Content(w, ROOT) == Content(v, ROOT)
  {
    hide MapOk, Forward, Backward, FileByte, Sized, Table;
    forall i | i in w.inodes ensures Content(w, i) == Content(v, i) && Clean(w, i) {
      assert Clean(v, i);
    }
  }

  lemma DiscardCore(v: Vol, vn: map<nat, Vnode>, ino: nat)
    requires Sized(v) && CoreOk(v, vn) && ino in vn && ino < |v.used| && ino < |v.owner| && Sized(DropInode(v, ino))
    ensures CoreOk(DropInode(v, ino), vn - {ino})
  {
    hide EncodeInode, InodeFits;
  }

  lemma DiscardTree(v: Vol, w: Vol, ino: nat)
    requires Tree(v) && AllClean(w) && w.inodes == v.inodes - {ino} && ino != ROOT && Sized(v) && Sized(w)
    requires ROOT in v.inodes
    requires Table(w) == Table(v) && forall k :: 0 <= k < |Table(v)| ==> Table(v)[k].ino != ino
    ensures Tree(w)
  {
    hide AllClean, Table, Sized;
  }

  // ---------------------------------------------------------------------------------------
  // The operations

  ghost predicate Mountable(fs: Sfs)
    reads fs
  {
    FsOk(fs.V(), fs.vnodes)
  }

  lemma FsOkValid(v: Vol, vn: map<nat, Vnode>, ino: nat, d: int)
    requires FsOkBut(v, vn, ino, d)
    ensures Ok(v) && CoreOk(v, vn) && Tree(v) && ROOT in v.inodes && 0 !in v.inodes
  {
    TreeSized(v);
    NoInodeZero(v);
    hide Ok, CoreOk, Tree;
  }

  /** sfs_loadvnode: find the inode in memory or read it from its block; either way one reference more. */
  method LoadVnode(fs: Sfs, ino: nat)
    requires Mountable(fs) && ino in fs.inodes
    modifies fs`vnodes
    ensures Mountable(fs) && ino in fs.vnodes
    ensures fs.vnodes.Keys == old(fs.vnodes).Keys + {ino}
    ensures fs.vnodes[ino].refcount == 1 + (if ino in old(fs.vnodes) then old(fs.vnodes)[ino].refcount else 0)
    ensures forall i :: i in old(fs.vnodes) && i != ino ==> fs.vnodes[i] == old(fs.vnodes)[i]
  {
    hide FsOk, DecodeInode;
    if ino in fs.vnodes {
      RefcountOk(fs.V(), fs.vnodes, ino, fs.vnodes[ino].refcount + 1);
      fs.vnodes := fs.vnodes[ino := fs.vnodes[ino].(refcount := fs.vnodes[ino].refcount + 1)];
    } else {
      LoadOk(fs.V(), fs.vnodes, ino);
      fs.vnodes := fs.vnodes[ino := Vnode(DecodeInode(fs.disk[ino]), false, 1)];
    }
  }

  /** sfs_makeobj: a block for a new inode, loaded as an unlinked file with one reference. */
  method MakeObj(fs: Sfs) returns (err: Err, ino: nat)
    requires Mountable(fs)
    modifies fs
    ensures Mountable(fs) && (err == OK || (err == ENOSPC && fs.V() == old(fs.V()) && fs.vnodes == old(fs.vnodes)))
    ensures err == ENOSPC <==> Room(old(fs.V())) == 0
    ensures err == OK ==> FreeBlock(old(fs.V()), ino) && ino !in old(fs.inodes) && ino < |fs.disk|
    ensures err == OK ==> fs.V() == AddInode(old(fs.V()), ino, NewFile())
    ensures err == OK ==> fs.vnodes == old(fs.vnodes)[ino := Vnode(NewFile(), true, 1)]
  {
    hide FsOkBut, MapOk, Forward, Backward, DecodeInode, Zeros, KeepsFiles, Table, Content;
    FsOkValid(fs.V(), fs.vnodes, 0, 0);
    ghost var v0 := fs.V();
    err, ino := fs.BAlloc();
    if err == OK {
      NewInodeOk(v0, fs.vnodes, ino);
      ZeroInode();
      var i := DecodeInode(fs.disk[ino]);
      assert i.kind == TYPE_INVAL;
      fs.vnodes := fs.vnodes[ino := Vnode(i.(kind := TYPE_FILE), true, 1)];
      fs.inodes := fs.inodes[ino := NewFile()];
      fs.owner := fs.owner[ino := InodeAt(ino)];
      assert i.(kind := TYPE_FILE) == NewFile();
      assert fs.V() == AddInode(v0, ino, NewFile());
    }
  }

  /** sfs_sync_inode. */
  method SyncInode(fs: Sfs, ino: nat)
    requires Mountable(fs) && ino in fs.vnodes && ino in fs.inodes
    modifies fs`disk, fs`vnodes
    ensures Mountable(fs) && ino in fs.vnodes
    ensures fs.vnodes == old(fs.vnodes)[ino := old(fs.vnodes)[ino].(dirty := false)]
    ensures SameBytes(old(fs.V()), fs.V()) && ROOT in fs.inodes && Table(fs.V()) == Table(old(fs.V()))
    ensures |fs.disk| == |old(fs.disk)| && forall b :: 0 <= b < |fs.disk| && b != ino ==> fs.disk[b] == old(fs.disk)[b]
  {
    hide FsOkBut, MapOk, Forward, Backward, CoreOk, EncodeInode, Table, SameBytes;
    FsOkValid(fs.V(), fs.vnodes, 0, 0);
    CoreGet(fs.V(), fs.vnodes, ino);
    if fs.vnodes[ino].dirty {
      SyncedOk(fs.V(), fs.vnodes, ino);
      ghost var v0 := fs.V();
      fs.disk := fs.disk[ino := EncodeInode(fs.vnodes[ino].i)];
      fs.vnodes := fs.vnodes[ino := fs.vnodes[ino].(dirty := false)];
      assert fs.V() == PutBlock(v0, ino, EncodeInode(v0.inodes[ino]));
    } else {
      assert fs.vnodes == fs.vnodes[ino := fs.vnodes[ino].(dirty := false)];
      SameBytesRefl(fs.V());
    }
  }

  lemma SameBytesRefl(v: Vol)
    requires Sized(v)
    ensures SameBytes(v, v)
  {
    hide Sized, FileByte;
  }

  lemma SameBytesKeeps(v: Vol, w: Vol, ino: nat)
    requires SameBytes(v, w) && w.inodes == v.inodes
    ensures KeepsOthers(v, w, ino)
  {
    hide Sized, FileByte;
  }

  lemma KeepsTrans(v: Vol, w: Vol, x: Vol, ino: nat)
    requires KeepsOthers(v, w, ino) && KeepsOthers(w, x, ino)
    ensures KeepsOthers(v, x, ino)
  {
    hide Sized, Content;
  }

  /**
   sfs_reclaim of the last reference: an unlinked file gives back all its blocks and its
   inode; a linked one is written back.  Either way it leaves memory.
   */
  method Reclaim(fs: Sfs, ino: nat)
    requires Mountable(fs) && ino in fs.vnodes && ino in fs.inodes && fs.vnodes[ino].refcount == 1
    modifies fs
    ensures Mountable(fs) && fs.vnodes.Keys == old(fs.vnodes).Keys - {ino} && KeepsOthers(old(fs.V()), fs.V(), ino)
    ensures forall i :: i in fs.vnodes ==> fs.vnodes[i] == old(fs.vnodes)[i]
    ensures fs.inodes.Keys ==
              if old(fs.inodes)[ino].links == 0 then old(fs.inodes).Keys - {ino} else old(fs.inodes).Keys
    ensures old(fs.inodes)[ino].links > 0 ==> fs.inodes == old(fs.inodes) && KeepsOthers(old(fs.V()), fs.V(), 0)
    ensures ROOT in fs.inodes && ROOT in old(fs.inodes) && Table(fs.V()) == Table(old(fs.V()))
  {
    hide FsOkBut, MapOk, Forward, Backward, CoreOk, Sized, EncodeInode, Table, SameBytes, KeepsOthers, Truncated,
         NoBlocks;
    ghost var v0 := fs.V();
    FsOkValid(v0, fs.vnodes, 0, 0);
    CoreGet(v0, fs.vnodes, ino);
    if fs.vnodes[ino].i.links == 0 {
      RootIsLinked(v0, fs.vnodes, ino);
      ReclaimUnlinked(fs, ino);
    } else {
      SyncInode(fs, ino);
      SameBytesKeeps(v0, fs.V(), ino);
      SameBytesKeeps(v0, fs.V(), 0);
      UnloadOk(fs.V(), fs.vnodes, ino);
      fs.vnodes := fs.vnodes - {ino};
    }
  }

  /** The root always has a link of its own, so it is never reclaimed as unlinked. */
  lemma RootIsLinked(v: Vol, vn: map<nat, Vnode>, ino: nat)
    requires FsOk(v, vn) && ino in v.inodes && v.inodes[ino].links == 0
    ensures ino != ROOT
  {
    hide Tree, CoreOk, Table;
  }

  method ReclaimUnlinked(fs: Sfs, ino: nat)
    requires Mountable(fs) && ino in fs.vnodes && ino in fs.inodes && ino != ROOT && fs.inodes[ino].links == 0
    modifies fs
    ensures Mountable(fs) && fs.vnodes.Keys == old(fs.vnodes).Keys - {ino} && KeepsOthers(old(fs.V()), fs.V(), ino)
    ensures forall i :: i in fs.vnodes ==> fs.vnodes[i] == old(fs.vnodes)[i]
    ensures fs.inodes.Keys == old(fs.inodes).Keys - {ino}
    ensures ROOT in fs.inodes && ROOT in old(fs.inodes) && Table(fs.V()) == Table(old(fs.V()))
  {
    hide FsOkBut, MapOk, Forward, Backward, CoreOk, Sized, EncodeInode, Table, SameBytes, KeepsOthers, Truncated,
         NoBlocks, FileByte, OnlyFile;
    ghost var v0 := fs.V();
    FsOkValid(v0, fs.vnodes, 0, 0);
    Truncate(fs, ino, 0);
    ghost var v1 := fs.V();
    EmptiedFile(v0, old(fs.vnodes), v1, fs.vnodes, ino);
    TruncatedMeans(v0, old(fs.vnodes), v1, fs.vnodes, ino);
    SyncInode(fs, ino);
    ghost var v2 := fs.V();
    SameBytesKeeps(v1, v2, ino);
    KeepsTrans(v0, v1, v2, ino);
    DiscardOk(v2, fs.vnodes, ino);
    BFree(fs, ino);
    fs.inodes := fs.inodes - {ino};
    fs.vnodes := fs.vnodes - {ino};
    assert fs.V() == DropInode(v2, ino);
    KeepsTrans(v0, v2, fs.V(), ino);
  }

  /** vnode_decref: storage goes exactly when the last reference to an unlinked inode is dropped. */
  method DecRef(fs: Sfs, ino: nat)
    requires Mountable(fs) && ino in fs.vnodes && ino in fs.inodes
    modifies fs
    ensures Mountable(fs) && KeepsOthers(old(fs.V()), fs.V(), ino)
    ensures fs.vnodes.Keys ==
              if old(fs.vnodes)[ino].refcount == 1 then old(fs.vnodes).Keys - {ino} else old(fs.vnodes).Keys
    ensures old(fs.vnodes)[ino].refcount > 1 ==>
              fs.vnodes == old(fs.vnodes)[ino := old(fs.vnodes)[ino].(refcount := old(fs.vnodes)[ino].refcount - 1)]
    ensures forall i :: i in fs.vnodes && i != ino ==> fs.vnodes[i] == old(fs.vnodes)[i]
    ensures fs.inodes.Keys ==
              if old(fs.vnodes)[ino].refcount == 1 && old(fs.inodes)[ino].links == 0 then old(fs.inodes).Keys - {ino}
                else old(fs.inodes).Keys
    ensures !(old(fs.vnodes)[ino].refcount == 1 && old(fs.inodes)[ino].links == 0) ==>
              fs.inodes == old(fs.inodes) && KeepsOthers(old(fs.V()), fs.V(), 0)
    ensures ROOT in fs.inodes && ROOT in old(fs.inodes) && Table(fs.V()) == Table(old(fs.V()))
  {
    hide FsOkBut, MapOk, Forward, Backward, CoreOk, Sized, Table, SameBytes, KeepsOthers;
    FsOkValid(fs.V(), fs.vnodes, 0, 0);
    CoreGet(fs.V(), fs.vnodes, ino);
    if fs.vnodes[ino].refcount > 1 {
      RefcountOk(fs.V(), fs.vnodes, ino, fs.vnodes[ino].refcount - 1);
      SameBytesRefl(fs.V());
      SameBytesKeeps(fs.V(), fs.V(), ino);
      SameBytesKeeps(fs.V(), fs.V(), 0);
      fs.vnodes := fs.vnodes[ino := fs.vnodes[ino].(refcount := fs.vnodes[ino].refcount - 1)];
    } else {
      Reclaim(fs, ino);
    }
  }
}
