/**
 Whole lives of a file system: from the image mksfs writes, through any sequence of
 operations, every invariant holds and every operation does what it says, also when it fails.
 */
module SfsSession {
  import opened SfsLayout
  import opened SfsVolume
  import opened SfsSpace
  import opened UioModel
  import opened SfsFile
  import opened SfsTruncate
  import opened SfsContents
  import opened SfsDir
  import opened SfsOps
  import opened SfsNames
  import opened SfsMount

  /** What programs can ask for; file handles are inode numbers of loaded files. */
  datatype Command =
    | CreateFile(name: CString, excl: bool)
    | OpenFile(name: CString)
    | CloseFile(ino: nat)
    | ReadFile(ino: nat, off: nat, len: nat)
    | WriteFile(ino: nat, off: nat, data: seq<Byte>)
    | EmptyFile(ino: nat)
    | AddName(name: CString, ino: nat)
    | RemoveName(name: CString)
    | MoveFile(from: CString, to: CString)
    | SyncAll

  /**
   What they get back: an error, a handle, how many bytes were transferred, the bytes read; or
   a refusal to act on something that is not an open handle or an offset that has no number.
   */
  datatype Res = Refused | Res(err: Err, ino: nat, count: nat, data: seq<Byte>)

  function Status(err: Err): Res {
    Res(err, 0, 0, [])
  }

  /** A handle a program may use: a loaded file that is not the directory. */
  predicate Handle(vn: map<nat, Vnode>, ino: nat) {
    ino != ROOT && ino in vn
  }

  /** A mounted, sound file system whose root directory nothing but itself links to. */
  ghost predicate Fine(s: Mounted) {
    FsOk(s.v, s.vn) && Sized(s.v) && ROOT in s.vn && ROOT in s.v.inodes && s.v.inodes[ROOT].links == 1
  }

  ghost function Now(fs: Sfs): Mounted
    reads fs
  {
    Mounted(fs.V(), fs.vnodes)
  }

  // ---------------------------------------------------------------------------------------
  // What each command does

  ghost predicate DidCreate(s: Mounted, name: CString, excl: bool, r: Res, t: Mounted)
    requires Fine(s)
  {
    r.Res? &&
    if Present(Table(s.v), name) then
      && t.v == s.v && r.err == (if excl then EEXIST else OK)
      && (excl ==> RefsMove(s.vn, t.vn, 0, 0))
      && (!excl ==> r.ino == InoOf(Table(s.v), name) && RefsMove(s.vn, t.vn, r.ino, 1))
    else
      && r.err == CreateErr(s.v, name)
      && if r.err == OK then Created(s.v, s.vn, t.v, t.vn, name, r.ino) else Undone(s.v, s.vn, t.v, t.vn)
  }

  ghost predicate DidOpen(s: Mounted, name: CString, r: Res, t: Mounted)
    requires Fine(s)
  {
    && r.Res? && t.v == s.v && r.err == (if Present(Table(s.v), name) then OK else ENOENT)
    && if r.err == OK then r.ino == InoOf(Table(s.v), name) && RefsMove(s.vn, t.vn, r.ino, 1) else t.vn == s.vn
  }

  /** The storage of a file goes with its last handle exactly when it has no name left. */
  ghost predicate DidClose(s: Mounted, ino: nat, r: Res, t: Mounted)
    requires Fine(s) && Fine(t)
  {
    if !Handle(s.vn, ino) then r == Refused && t == s
    else
      && r.Res? && r.err == OK && ino in s.v.inodes && Table(t.v) == Table(s.v) && KeepsOthers(s.v, t.v, ino)
      && RefsMove(s.vn, t.vn, ino, -1)
      && if Refs(s.vn, ino) == 1 && s.v.inodes[ino].links == 0 then t.v.inodes.Keys == s.v.inodes.Keys - {ino}
         else t.v.inodes == s.v.inodes && KeepsOthers(s.v, t.v, 0)
  }

  function Slice(s: seq<Byte>, off: nat, n: nat): seq<Byte> {
    if off + n <= |s| then s[off..off + n] else []
  }

  ghost predicate DidRead(s: Mounted, ino: nat, off: nat, len: nat, r: Res, t: Mounted)
    requires Fine(s)
  {
    && t == s
    && if !Handle(s.vn, ino) then r == Refused
       else
         && r.Res? && ino in s.v.inodes && r.count <= ReadSpan(s.v.inodes[ino].size, off, len)
         && r.data == Slice(Content(s.v, ino), off, r.count) && |r.data| == r.count
         && (r.err == OK ==> r.count == ReadSpan(s.v.inodes[ino].size, off, len))
         && (r.err != OK ==> r.err == EINVAL && off + r.count >= MAXBLOCKS * BLOCKSIZE)
  }

  /** Of the blocks from `lo` on, `at` is the first that cannot be had. */
  ghost predicate StopsAt(v: Vol, ino: nat, lo: nat, at: nat, err: Err)
    requires Sized(v) && ino in v.inodes
  {
    IoErr(v, ino, lo, at) == OK && IoErr(v, ino, lo, at + 1) == err
  }

  ghost predicate DidWrite(s: Mounted, ino: nat, off: nat, data: seq<Byte>, r: Res, t: Mounted)
    requires Fine(s) && Fine(t)
  {
    if !Handle(s.vn, ino) || off + |data| > MAXOFF then r == Refused && t == s
    else
      && r.Res? && r.count <= |data| && (r.err == OK ==> r.count == |data|)
      && (r.err == EINVAL ==> off + r.count >= MAXBLOCKS * BLOCKSIZE)
      && (r.err == ENOSPC ==> Sfs.Full(t.v.used))
      && r.err in {OK, EINVAL, ENOSPC} && ino in s.v.inodes
      && r.err == IoErr(s.v, ino, off / BLOCKSIZE, EndBlock(off, |data|))
      && (r.err != OK ==> StopsAt(s.v, ino, off / BLOCKSIZE, (off + r.count) / BLOCKSIZE, r.err))
      && SameNames(s.v, t.v) && Keeps(s.v, t.v, ino) && RefsMove(s.vn, t.vn, ino, 0)
      && t.v.inodes.Keys == s.v.inodes.Keys
      && ino in s.v.inodes && t.v.inodes[ino].links == s.v.inodes[ino].links
      && Content(t.v, ino) == Splice(Content(s.v, ino), off, data[..r.count])
  }

  ghost predicate DidEmpty(s: Mounted, ino: nat, r: Res, t: Mounted)
    requires Fine(s) && Fine(t)
  {
    if !Handle(s.vn, ino) then r == Refused && t == s
    else
      && r.Res? && r.err == OK && Table(t.v) == Table(s.v) && KeepsOthers(s.v, t.v, ino) && RefsMove(s.vn, t.vn, ino, 0)
      && t.v.inodes.Keys == s.v.inodes.Keys && ino in s.v.inodes && t.v.inodes[ino].links == s.v.inodes[ino].links
      && Content(t.v, ino) == []
  }

  ghost predicate DidAdd(s: Mounted, name: CString, ino: nat, r: Res, t: Mounted)
    requires Fine(s)
  {
    if !Handle(s.vn, ino) then r == Refused && t == s
    else
      && r.Res? && r.err == EntryErr(s.v, name, Room(s.v)) && RefsMove(s.vn, t.vn, ino, 0)
      && if r.err == OK then Entered(s.v, t.v, name, ino)
         else SameNames(s.v, t.v) && Keeps(s.v, t.v, 0) && t.v.inodes.Keys == s.v.inodes.Keys
  }

  ghost predicate DidRemove(s: Mounted, name: CString, r: Res, t: Mounted)
    requires Fine(s)
  {
    r.Res? &&
    if Present(Table(s.v), name) then r.err == OK && Removed(s.v, s.vn, t.v, t.vn, name, InoOf(Table(s.v), name))
    else r.err == ENOENT && t == s
  }

  ghost predicate DidMove(s: Mounted, from: CString, to: CString, r: Res, t: Mounted)
    requires Fine(s)
  {
    && r.Res? && (r.err == ENOENT <==> !Present(Table(s.v), from))
    && (Present(Table(s.v), from) ==> r.err == EntryErr(s.v, to, Room(s.v)))
    && Keeps(s.v, t.v, 0) && t.v.inodes.Keys == s.v.inodes.Keys && RefsMove(s.vn, t.vn, 0, 0)
    && if r.err == OK then Renamed(s.v, t.v, from, to) else SameNames(s.v, t.v)
  }

  ghost predicate DidSync(s: Mounted, r: Res, t: Mounted)
    requires Fine(s) && Fine(t)
  {
    && r.Res? && r.err == OK && t.v.inodes == s.v.inodes && KeepsOthers(s.v, t.v, 0) && Table(t.v) == Table(s.v)
    && RefsMove(s.vn, t.vn, 0, 0)
  }

  ghost predicate Did(s: Mounted, c: Command, r: Res, t: Mounted) {
    && Fine(s) && Fine(t)
    && match c
       case CreateFile(name, excl) => DidCreate(s, name, excl, r, t)
       case OpenFile(name) => DidOpen(s, name, r, t)
       case CloseFile(ino) => DidClose(s, ino, r, t)
       case ReadFile(ino, off, len) => DidRead(s, ino, off, len, r, t)
       case WriteFile(ino, off, data) => DidWrite(s, ino, off, data, r, t)
       case EmptyFile(ino) => DidEmpty(s, ino, r, t)
       case AddName(name, ino) => DidAdd(s, name, ino, r, t)
       case RemoveName(name) => DidRemove(s, name, r, t)
       case MoveFile(from, to) => DidMove(s, from, to, r, t)
       case SyncAll => DidSync(s, r, t)
  }

  // ---------------------------------------------------------------------------------------
  // The root directory is never touched by programs

  /** No name leads to the root. */
  lemma RootUnnamed(v: Vol, vn: map<nat, Vnode>, name: CString)
    requires FsOk(v, vn) && ROOT in v.inodes && v.inodes[ROOT].links == 1 && Sized(v)
    ensures InoOf(Table(v), name) != ROOT
  {
    hide Tree, CoreOk, Table, Sized;
    if InoOf(Table(v), name) == ROOT {
      InoOfCounts(Table(v), name);
    }
  }

  lemma {:induction false} InoOfCounts(es: seq<Entry>, name: CString)
    ensures InoOf(es, name) != 0 ==> Count(es, InoOf(es, name)) > 0
  {
    if es != [] {
      InoOfCounts(es[..|es| - 1], name);
    }
  }

  lemma KeepsRoot(v: Vol, w: Vol, ino: nat)
    requires Keeps(v, w, ino) && ino != ROOT
    ensures ROOT in w.inodes && ROOT in v.inodes && w.inodes[ROOT].links == v.inodes[ROOT].links
  {
    hide Sized, Content;
  }

  lemma OthersKeepRoot(v: Vol, w: Vol, ino: nat)
    requires KeepsOthers(v, w, ino) && ino != ROOT && ROOT in v.inodes
    ensures ROOT in w.inodes && w.inodes[ROOT].links == v.inodes[ROOT].links
  {
    hide Sized, Content;
  }

  lemma RootStays(vn: map<nat, Vnode>, vnw: map<nat, Vnode>, ino: nat, d: int)
    requires RefsMove(vn, vnw, ino, d) && ROOT in vn && vn[ROOT].refcount >= 1 && (ino != ROOT || d >= 0)
    ensures ROOT in vnw
  {
    assert Refs(vnw, ROOT) >= 1;
  }

  /** What a method needs to know before it calls an operation. */
  lemma FineParts(s: Mounted)
    requires Fine(s)
    ensures FsOk(s.v, s.vn) && Ok(s.v) && Tree(s.v) && Sized(s.v) && CoreOk(s.v, s.vn) && 0 !in s.v.inodes
    ensures ROOT in s.vn && ROOT in s.v.inodes && s.vn[ROOT].refcount >= 1 && s.v.inodes[ROOT].links == 1
    ensures forall i :: i in s.vn ==> i in s.v.inodes && s.vn[i].refcount >= 1
  {
    hide FsOkBut, Table, Sized, Ok, Tree;
    FsOkValid(s.v, s.vn, 0, 0);
  }

  lemma FineAgain(t: Mounted)
    requires FsOk(t.v, t.vn) && ROOT in t.vn && ROOT in t.v.inodes && t.v.inodes[ROOT].links == 1
    ensures Fine(t)
  {
    hide FsOkBut, Table, Sized, Ok, Tree, CoreOk;
    FsOkValid(t.v, t.vn, 0, 0);
    TreeSized(t.v);
  }

  // ---------------------------------------------------------------------------------------
  // The commands

  /** One command.  Handles that are not open are refused. */
  method Step(fs: Sfs, c: Command) returns (r: Res)
    requires Fine(Now(fs))
    modifies fs
    ensures Did(old(Now(fs)), c, r, Now(fs))
  {
    hide FsOkBut, Table, Sized, DidCreate, DidOpen, DidClose, DidRead, DidWrite, DidEmpty, DidAdd, DidRemove, DidMove,
         DidSync, Fine;
    match c
    case CreateFile(name, excl) => r := DoCreate(fs, name, excl);
    case OpenFile(name) => r := DoOpen(fs, name);
    case CloseFile(ino) => r := DoClose(fs, ino);
    case ReadFile(ino, off, len) => r := DoRead(fs, ino, off, len);
    case WriteFile(ino, off, data) => r := DoWrite(fs, ino, off, data);
    case EmptyFile(ino) => r := DoEmpty(fs, ino);
    case AddName(name, ino) => r := DoLink(fs, name, ino);
    case RemoveName(name) => r := DoRemove(fs, name);
    case MoveFile(from, to) => r := DoRename(fs, from, to);
    case SyncAll => r := DoSync(fs);
  }

  method DoCreate(fs: Sfs, name: CString, excl: bool) returns (r: Res)
    requires Fine(Now(fs))
    modifies fs
    ensures Fine(Now(fs)) && DidCreate(old(Now(fs)), name, excl, r, Now(fs))
  {
    hide FsOkBut, CoreOk, Table, Sized, Ok, Tree, Present, Refs, RefsMove, Created, Undone, Fine;
    ghost var s := Now(fs);
    FineParts(s);
    var err, ino := Creat(fs, name, excl);
    r := Res(err, ino, 0, []);
    if err == OK {
      if !Present(Table(s.v), name) {
        CreatedMeans(s.v, s.vn, fs.V(), fs.vnodes, name, ino);
        KeepsRoot(s.v, fs.V(), 0);
      }
      RootStays(s.vn, fs.vnodes, ino, 1);
    } else {
      UndoneMeans(s.v, s.vn, fs.V(), fs.vnodes);
      RootStays(s.vn, fs.vnodes, 0, 0);
      KeepsRoot(s.v, fs.V(), 0);
    }
    FineAgain(Now(fs));
  }

  lemma CreatedMeans(v: Vol, vn: map<nat, Vnode>, w: Vol, vnw: map<nat, Vnode>, name: CString, ino: nat)
    requires Created(v, vn, w, vnw, name, ino)
    ensures RefsMove(vn, vnw, ino, 1) && Keeps(v, w, 0)
  {
    hide Names, Keeps, RefsMove, Content;
  }

  lemma UndoneMeans(v: Vol, vn: map<nat, Vnode>, w: Vol, vnw: map<nat, Vnode>)
    requires Undone(v, vn, w, vnw)
    ensures RefsMove(vn, vnw, 0, 0) && Keeps(v, w, 0)
  {
    hide SameNames, Keeps, RefsMove;
  }

  method DoOpen(fs: Sfs, name: CString) returns (r: Res)
    requires Fine(Now(fs))
    modifies fs
    ensures Fine(Now(fs)) && DidOpen(old(Now(fs)), name, r, Now(fs))
  {
    hide FsOkBut, CoreOk, Table, Sized, Ok, Tree, Present, Refs, RefsMove, Fine;
    ghost var s := Now(fs);
    FineParts(s);
    var err, ino, slot := LookOnce(fs, name);
    r := Res(err, ino, 0, []);
    FineAgain(Now(fs));
  }

  method DoClose(fs: Sfs, ino: nat) returns (r: Res)
    requires Fine(Now(fs))
    modifies fs
    ensures Fine(Now(fs)) && DidClose(old(Now(fs)), ino, r, Now(fs))
  {
    hide FsOkBut, CoreOk, Table, Sized, Ok, Tree, KeepsOthers, RefsMove, Fine;
    ghost var s := Now(fs);
    FineParts(s);
    if !Handle(fs.vnodes, ino) {
      return Refused;
    }
    DecRef(fs, ino);
    r := Status(OK);
    OthersKeepRoot(s.v, fs.V(), ino);
    DecRefMoves(s.vn, fs.vnodes, ino);
    FineAgain(Now(fs));
  }

  method DoRead(fs: Sfs, ino: nat, off: nat, len: nat) returns (r: Res)
    requires Fine(Now(fs))
    modifies fs
    ensures Fine(Now(fs)) && DidRead(old(Now(fs)), ino, off, len, r, Now(fs))
  {
    hide FsOkBut, CoreOk, Table, Sized, Ok, Tree, FileByte, Fine, Overlay, Zeros;
    ghost var s := Now(fs);
    FineParts(s);
    if !Handle(fs.vnodes, ino) {
      return Refused;
    }
    var uio := new Uio(Zeros(len), off, Rw.Read);
    var err, m := fs.Read(ino, uio);
    var count := len - uio.resid;
    assert count == m && count <= |uio.mem|;
    r := Res(err, 0, count, uio.mem[..count]);
    if count > 0 {
      ReadContent(s.v, ino, off, count);
    }
    FirstPart(Zeros(len), FileBytes(s.v, ino, off, count));
  }

  lemma FirstPart(mem: seq<Byte>, data: seq<Byte>)
    requires |data| <= |mem|
    ensures Overlay(mem, 0, data)[..|data|] == data
  {
  }

  method DoWrite(fs: Sfs, ino: nat, off: nat, data: seq<Byte>) returns (r: Res)
    requires Fine(Now(fs))
    modifies fs
    ensures Fine(Now(fs)) && DidWrite(old(Now(fs)), ino, off, data, r, Now(fs))
  {
    hide FsOkBut, CoreOk, Table, Sized, Ok, Tree, Wrote, SameNames, Keeps, RefsMove, Fine, Splice, IoErr, EndBlock,
         FirstUnmapped;
    ghost var s := Now(fs);
    FineParts(s);
    if !Handle(fs.vnodes, ino) || off + |data| > MAXOFF {
      return Refused;
    }
    var uio := new Uio(data, off, Rw.Write);
    var err, m := fs.Write(ino, uio);
    var count := |data| - uio.resid;
    assert count == m;
    r := Res(err, 0, count, []);
    assert uio.mem[0..0 + m] == data[..count];
    FileWritten(s.v, s.vn, fs.V(), fs.vnodes, ino, off, data[..count]);
    WroteOk(s.v, s.vn, fs.V(), fs.vnodes, ino, off, data[..count]);
    KeepsRoot(s.v, fs.V(), ino);
    FineAgain(Now(fs));
  }

  method DoEmpty(fs: Sfs, ino: nat) returns (r: Res)
    requires Fine(Now(fs))
    modifies fs
    ensures Fine(Now(fs)) && DidEmpty(old(Now(fs)), ino, r, Now(fs))
  {
    hide FsOkBut, CoreOk, Table, Sized, Ok, Tree, Truncated, KeepsOthers, NoBlocks, RefsMove, Fine, Content;
    ghost var s := Now(fs);
    FineParts(s);
    if !Handle(fs.vnodes, ino) {
      return Refused;
    }
    Truncate(fs, ino, 0);
    r := Status(OK);
    EmptiedFile(s.v, s.vn, fs.V(), fs.vnodes, ino);
    EmptiedAlso(s.v, s.vn, fs.V(), fs.vnodes, ino);
    OthersKeepRoot(s.v, fs.V(), ino);
    FineAgain(Now(fs));
  }

  lemma EmptiedAlso(v: Vol, vn: map<nat, Vnode>, w: Vol, vnw: map<nat, Vnode>, ino: nat)
    requires Truncated(v, vn, w, vnw, ino, 0) && CoreStep(vn, vnw, ino)
    ensures Sized(w) && ino in w.inodes && Content(w, ino) == [] && RefsMove(vn, vnw, ino, 0)
    ensures w.inodes.Keys == v.inodes.Keys && vnw.Keys == vn.Keys
  {
    TruncatedOk(v, vn, w, vnw, ino, 0);
    EmptyContent(v, vn, w, vnw, ino);
    hide Truncated, Ok, CoreOk;
    StepMoves(vn, vnw, ino);
  }

  method DoLink(fs: Sfs, name: CString, ino: nat) returns (r: Res)
    requires Fine(Now(fs))
    modifies fs
    ensures Fine(Now(fs)) && DidAdd(old(Now(fs)), name, ino, r, Now(fs))
  {
    hide FsOkBut, CoreOk, Table, Sized, Ok, Tree, Present, Refs, RefsMove, Names, SameNames, Keeps, Fine;
    ghost var s := Now(fs);
    FineParts(s);
    if !Handle(fs.vnodes, ino) {
      return Refused;
    }
    var err := Link(fs, name, ino);
    r := Status(err);
    RootStays(s.vn, fs.vnodes, ino, 0);
    KeepsRoot(s.v, fs.V(), if err == OK then ino else 0);
    FineAgain(Now(fs));
  }

  method DoRemove(fs: Sfs, name: CString) returns (r: Res)
    requires Fine(Now(fs))
    modifies fs
    ensures Fine(Now(fs)) && DidRemove(old(Now(fs)), name, r, Now(fs))
  {
    hide FsOkBut, CoreOk, Table, Sized, Ok, Tree, Present, Refs, RefsMove, Removed, Fine;
    ghost var s := Now(fs);
    FineParts(s);
    RootUnnamed(s.v, s.vn, name);
    var err := Remove(fs, name);
    r := Status(err);
    if err == OK {
      RemovedMeans(s.v, s.vn, fs.V(), fs.vnodes, name, InoOf(Table(s.v), name));
      RootStays(s.vn, fs.vnodes, InoOf(Table(s.v), name), 0);
      KeepsRoot(s.v, fs.V(), InoOf(Table(s.v), name));
      FineAgain(Now(fs));
    }
  }

  lemma RemovedMeans(v: Vol, vn: map<nat, Vnode>, w: Vol, vnw: map<nat, Vnode>, name: CString, ino: nat)
    requires Removed(v, vn, w, vnw, name, ino)
    ensures RefsMove(vn, vnw, ino, 0) && Keeps(v, w, ino)
  {
    hide Names, Keeps, RefsMove, SameFile;
  }

  method DoRename(fs: Sfs, from: CString, to: CString) returns (r: Res)
    requires Fine(Now(fs))
    modifies fs
    ensures Fine(Now(fs)) && DidMove(old(Now(fs)), from, to, r, Now(fs))
  {
    hide FsOkBut, CoreOk, Table, Sized, Ok, Tree, Present, Refs, RefsMove, Renamed, SameNames, Keeps, Fine;
    ghost var s := Now(fs);
    FineParts(s);
    RootUnnamed(s.v, s.vn, from);
    var died, err := Rename(fs, from, to);
    r := Status(err);
    RootStays(s.vn, fs.vnodes, 0, 0);
    KeepsRoot(s.v, fs.V(), 0);
    FineAgain(Now(fs));
  }

  method DoSync(fs: Sfs) returns (r: Res)
    requires Fine(Now(fs))
    modifies fs
    ensures Fine(Now(fs)) && DidSync(old(Now(fs)), r, Now(fs))
  {
    hide FsOkBut, CoreOk, Table, Sized, Ok, Tree, KeepsOthers, SameBytes, Fine;
    ghost var s := Now(fs);
    FineParts(s);
    Sync(fs);
    r := Status(OK);
    SameBytesKeeps(s.v, fs.V(), 0);
    FineAgain(Now(fs));
  }

  // ---------------------------------------------------------------------------------------
  // Runs

  /** Each state of a run follows from the one before by its command, with its result. */
  ghost predicate Ran(run: seq<Mounted>, cs: seq<Command>, rs: seq<Res>) {
    && |run| == |cs| + 1 && |rs| == |cs| && Fine(run[0])
    && forall k :: 0 <= k < |cs| ==> Did(run[k], cs[k], rs[k], run[k + 1])
  }

  lemma RanMore(run: seq<Mounted>, cs: seq<Command>, rs: seq<Res>, c: Command, r: Res, t: Mounted)
    requires Ran(run, cs, rs) && Did(run[|cs|], c, r, t)
    ensures Ran(run + [t], cs + [c], rs + [r])
  {
    hide Did, Fine;
  }

  /** Any sequence of commands on a sound file system is a run. */
  method Session(fs: Sfs, cs: seq<Command>) returns (rs: seq<Res>, ghost run: seq<Mounted>)
    requires Fine(Now(fs))
    modifies fs
    ensures Ran(run, cs, rs) && run[0] == old(Now(fs)) && run[|cs|] == Now(fs)
  {
    hide Did, Fine;
    rs, run := [], [Now(fs)];
    for i := 0 to |cs|
      invariant Ran(run, cs[..i], rs) && run[0] == old(Now(fs)) && run[i] == Now(fs) && Fine(Now(fs))
    {
      var r := Step(fs, cs[i]);
      StepFine(run[i], cs[i], r, Now(fs));
      RanMore(run, cs[..i], rs, cs[i], r, Now(fs));
      assert cs[..i + 1] == cs[..i] + [cs[i]];
      rs, run := rs + [r], run + [Now(fs)];
    }
    assert cs[..|cs|] == cs;
  }

  lemma StepFine(s: Mounted, c: Command, r: Res, t: Mounted)
    requires Did(s, c, r, t)
    ensures Fine(s) && Fine(t)
  {
    hide Fine;
  }
}
