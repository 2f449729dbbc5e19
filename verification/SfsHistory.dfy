/**
 What a history of commands leaves behind: the directory is the map its successful commands
 describe, an open file is the byte sequence its writes describe, and the free map is exact.
 */
module SfsHistory {
  import opened SfsLayout
  import opened SfsVolume
  import opened SfsFile
  import opened SfsContents
  import opened SfsDir
  import opened SfsOps
  import opened SfsNames
  import opened Mksfs
  import opened SfsSession

  // ---------------------------------------------------------------------------------------
  // Names

  /** Where `name` leads after a command with result `r`, `before` telling where names led until then. */
  function LeadsNow(c: Command, r: Res, name: CString, before: CString -> nat): nat {
    if r.Refused? || r.err != OK then before(name)
    else
      match c
      case CreateFile(n, _) => if n == name then r.ino else before(name)
      case AddName(n, ino) => if n == name then ino else before(name)
      case RemoveName(n) => if n == name then 0 else before(name)
      case MoveFile(from, to) => if to == name then before(from) else if from == name then 0 else before(name)
      case _ => before(name)
  }

  /** The same after a whole history; `es` is the directory at its start, 0 is no inode. */
  function Leads(es: seq<Entry>, cs: seq<Command>, rs: seq<Res>, name: CString): nat
    requires |rs| == |cs|
    decreases |cs|
  {
    if cs == [] then InoOf(es, name)
    else
      var k := |cs| - 1;
      LeadsNow(cs[k], rs[k], name, n => Leads(es, cs[..k], rs[..k], n))
  }

  lemma StepLeads(s: Mounted, c: Command, r: Res, t: Mounted, name: CString, before: CString -> nat)
    requires Did(s, c, r, t) && Fine(s) && Fine(t)
    requires forall n :: before(n) == InoOf(Table(s.v), n)
    ensures InoOf(Table(t.v), name) == LeadsNow(c, r, name, before)
  {
    hide FsOkBut, Sized, Table, InoOf, Fine, DidCreate, DidOpen, DidClose, DidRead, DidWrite, DidEmpty, DidAdd,
         DidRemove, DidMove, DidSync;
    match c
    case CreateFile(file, excl) => CreateLeads(s, file, excl, r, t, name, before);
    case AddName(file, ino) => AddLeads(s, file, ino, r, t, name, before);
    case RemoveName(file) => RemoveLeads(s, file, r, t, name, before);
    case MoveFile(from, to) => MoveLeads(s, from, to, r, t, name, before);
    case _ => LeadsSame(s, c, r, t, name);
  }

  lemma CreateLeads(s: Mounted, file: CString, excl: bool, r: Res, t: Mounted, name: CString, before: CString -> nat)
    requires Fine(s) && Fine(t) && DidCreate(s, file, excl, r, t)
    requires forall n :: before(n) == InoOf(Table(s.v), n)
    ensures InoOf(Table(t.v), name) == LeadsNow(CreateFile(file, excl), r, name, before)
  {
    hide FsOkBut, Sized, Table, Keeps, KeepsOthers, RefsMove, Content, InoOf, Fine, Present, SameFile, Refs;
  }

  lemma AddLeads(s: Mounted, file: CString, ino: nat, r: Res, t: Mounted, name: CString, before: CString -> nat)
    requires Fine(s) && Fine(t) && DidAdd(s, file, ino, r, t)
    requires forall n :: before(n) == InoOf(Table(s.v), n)
    ensures InoOf(Table(t.v), name) == LeadsNow(AddName(file, ino), r, name, before)
  {
    hide FsOkBut, Sized, Table, Keeps, KeepsOthers, RefsMove, Content, InoOf, Fine, Present, SameFile, Refs;
  }

  lemma RemoveLeads(s: Mounted, file: CString, r: Res, t: Mounted, name: CString, before: CString -> nat)
    requires Fine(s) && Fine(t) && DidRemove(s, file, r, t)
    requires forall n :: before(n) == InoOf(Table(s.v), n)
    ensures InoOf(Table(t.v), name) == LeadsNow(RemoveName(file), r, name, before)
  {
    hide FsOkBut, Sized, Table, Keeps, KeepsOthers, RefsMove, Content, InoOf, Fine, Present, SameFile, Refs;
  }

  lemma MoveLeads(s: Mounted, from: CString, to: CString, r: Res, t: Mounted, name: CString, before: CString -> nat)
    requires Fine(s) && Fine(t) && DidMove(s, from, to, r, t)
    requires forall n :: before(n) == InoOf(Table(s.v), n)
    ensures InoOf(Table(t.v), name) == LeadsNow(MoveFile(from, to), r, name, before)
  {
    hide FsOkBut, Sized, Table, Keeps, RefsMove, InoOf, Fine, Present, Renamed, SameNames;
    if r.err == OK {
      RenamedAt(s.v, t.v, from, to, name);
    } else {
      SameNameAt(s.v, t.v, name);
    }
  }

  lemma RenamedAt(v: Vol, w: Vol, from: CString, to: CString, n: CString)
    requires Renamed(v, w, from, to)
    ensures Sized(v) && Sized(w) && ROOT in v.inodes && ROOT in w.inodes
    ensures InoOf(Table(w), n) ==
              if n == to then InoOf(Table(v), from) else if n == from then 0 else InoOf(Table(v), n)
  {
    hide Sized, Table, InoOf;
  }

  lemma SameNameAt(v: Vol, w: Vol, n: CString)
    requires SameNames(v, w)
    ensures Sized(v) && Sized(w) && ROOT in v.inodes && ROOT in w.inodes
    ensures InoOf(Table(w), n) == InoOf(Table(v), n)
  {
    hide Sized, Table, InoOf;
  }

  /** The other commands move no name. */
  lemma LeadsSame(s: Mounted, c: Command, r: Res, t: Mounted, name: CString)
    requires Did(s, c, r, t) && Fine(s) && Fine(t)
    requires !c.CreateFile? && !c.AddName? && !c.RemoveName? && !c.MoveFile?
    ensures InoOf(Table(t.v), name) == InoOf(Table(s.v), name)
  {
    hide FsOkBut, Sized, Table, Keeps, KeepsOthers, RefsMove, Content, InoOf, Fine, Present, Refs, Handle, Splice,
         Slice, ReadSpan;
    hide DidCreate, DidAdd, DidRemove, DidMove;
  }

  /** A run without its last command. */
  lemma RanLess(run: seq<Mounted>, cs: seq<Command>, rs: seq<Res>)
    requires Ran(run, cs, rs) && cs != []
    ensures Ran(run[..|cs|], cs[..|cs| - 1], rs[..|cs| - 1])
    ensures Did(run[|cs| - 1], cs[|cs| - 1], rs[|cs| - 1], run[|cs|])
    ensures Fine(run[|cs| - 1]) && Fine(run[|cs|])
  {
    hide Did, Fine;
    StepFine(run[|cs| - 1], cs[|cs| - 1], rs[|cs| - 1], run[|cs|]);
    forall k | 0 <= k < |cs| - 1 ensures Did(run[..|cs|][k], cs[..|cs| - 1][k], rs[..|cs| - 1][k], run[..|cs|][k + 1]) {
      assert Did(run[k], cs[k], rs[k], run[k + 1]);
    }
  }

  /** The directory is a map: after any run each name leads where the successful commands say. */
  lemma {:induction false} DirectoryIsMap(run: seq<Mounted>, cs: seq<Command>, rs: seq<Res>, name: CString)
    requires Ran(run, cs, rs) && Fine(run[0]) && Fine(run[|cs|])
    ensures InoOf(Table(run[|cs|].v), name) == Leads(Table(run[0].v), cs, rs, name)
    decreases |cs|
  {
    hide Ran, Did, Fine, InoOf, Table, LeadsNow, FsOkBut, CoreOk, Ok, Tree, Sized;
    RanShape(run, cs, rs);
    FineParts(run[0]);
    if cs != [] {
      var k := |cs| - 1;
      RanLess(run, cs, rs);
      FineParts(run[k]);
      var es := Table(run[0].v);
      var before := (n: CString) => Leads(es, cs[..k], rs[..k], n);
      forall n: CString ensures before(n) == InoOf(Table(run[k].v), n) {
        DirectoryIsMap(run[..|cs|], cs[..k], rs[..k], n);
      }
      StepLeads(run[k], cs[k], rs[k], run[k + 1], name, before);
    }
  }

  // ---------------------------------------------------------------------------------------
  // Bytes

  function BytesNow(c: Command, r: Res, ino: nat, s: seq<Byte>): seq<Byte> {
    match c
    case WriteFile(i, off, data) => if i == ino && r.Res? && r.count <= |data| then Splice(s, off, data[..r.count])
      else s
    case EmptyFile(i) => if i == ino && r.Res? then [] else s
    case _ => s
  }

  /** The bytes of a file after a history of commands; `s` is what it held at the start. */
  function Bytes(s: seq<Byte>, cs: seq<Command>, rs: seq<Res>, ino: nat): seq<Byte>
    requires |rs| == |cs|
    decreases |cs|
  {
    if cs == [] then s
    else
      var k := |cs| - 1;
      BytesNow(cs[k], rs[k], ino, Bytes(s, cs[..k], rs[..k], ino))
  }

  lemma StepBytes(s: Mounted, c: Command, r: Res, t: Mounted, ino: nat)
    requires Did(s, c, r, t) && Fine(s) && Fine(t)
    requires ino != ROOT && ino in s.v.inodes && ino in t.v.inodes
    ensures Content(t.v, ino) == BytesNow(c, r, ino, Content(s.v, ino))
  {
    hide FsOkBut, Sized, Content, Fine, DidCreate, DidOpen, DidClose, DidRead, DidWrite, DidEmpty, DidAdd, DidRemove,
         DidMove, DidSync;
    FineParts(s);
    FineParts(t);
    match c
    case CreateFile(file, excl) => CreateBytes(s, file, excl, r, t, ino);
    case CloseFile(i) => CloseBytes(s, i, r, t, ino);
    case WriteFile(i, off, data) => WriteBytes(s, i, off, data, r, t, ino);
    case RemoveName(file) => RemoveBytes(s, file, r, t, ino);
    case AddName(file, i) => AddBytes(s, file, i, r, t, ino);
    case _ => RestBytes(s, c, r, t, ino);
  }

  lemma CreateBytes(s: Mounted, file: CString, excl: bool, r: Res, t: Mounted, ino: nat)
    requires Fine(s) && Fine(t) && DidCreate(s, file, excl, r, t) && ino != ROOT && ino != 0 && ino in s.v.inodes
    requires ino in t.v.inodes
    ensures Content(t.v, ino) == Content(s.v, ino)
  {
    hide FsOkBut, Sized, Table, Names, SameNames, Content, InoOf, Fine, RefsMove, Present;
  }

  lemma CloseBytes(s: Mounted, i: nat, r: Res, t: Mounted, ino: nat)
    requires Fine(s) && Fine(t) && DidClose(s, i, r, t) && ino != 0 && ino in s.v.inodes && ino in t.v.inodes
    ensures Content(t.v, ino) == Content(s.v, ino)
  {
    hide FsOkBut, Sized, Table, Content, Fine, RefsMove, Refs;
  }

  lemma WriteBytes(s: Mounted, i: nat, off: nat, data: seq<Byte>, r: Res, t: Mounted, ino: nat)
    requires Fine(s) && Fine(t) && DidWrite(s, i, off, data, r, t) && ino != ROOT && ino in s.v.inodes
    requires ino in t.v.inodes
    ensures Content(t.v, ino) == BytesNow(WriteFile(i, off, data), r, ino, Content(s.v, ino))
  {
    hide FsOkBut, Sized, Table, SameNames, Content, Fine, RefsMove, Splice;
  }

  lemma AddBytes(s: Mounted, file: CString, i: nat, r: Res, t: Mounted, ino: nat)
    requires Fine(s) && Fine(t) && DidAdd(s, file, i, r, t) && ino != ROOT && ino != 0 && ino in s.v.inodes
    requires ino in t.v.inodes
    ensures Content(t.v, ino) == Content(s.v, ino)
  {
    hide FsOkBut, Sized, Table, Names, SameNames, Content, InoOf, Fine, RefsMove, Present;
  }

  lemma RestBytes(s: Mounted, c: Command, r: Res, t: Mounted, ino: nat)
    requires Did(s, c, r, t) && Fine(s) && Fine(t) && ino != ROOT && ino != 0 && ino in s.v.inodes && ino in t.v.inodes
    requires c.OpenFile? || c.ReadFile? || c.EmptyFile? || c.MoveFile? || c.SyncAll?
    ensures Content(t.v, ino) == BytesNow(c, r, ino, Content(s.v, ino))
  {
    hide FsOkBut, Sized, Table, SameNames, Content, InoOf, Fine, RefsMove, Present, Splice, Slice, ReadSpan, Renamed;
    hide DidCreate, DidClose, DidWrite, DidAdd, DidRemove;
  }

  lemma RemoveBytes(s: Mounted, name: CString, r: Res, t: Mounted, ino: nat)
    requires Fine(s) && Fine(t) && DidRemove(s, name, r, t) && ino != ROOT
    requires ino in s.v.inodes && ino in t.v.inodes
    ensures Content(t.v, ino) == Content(s.v, ino)
  {
    hide FsOkBut, Sized, Table, Names, Content, InoOf, Fine, RefsMove, Present;
  }

  /** A file, not the directory, that is there all through a run. */
  ghost predicate ThereThroughout(run: seq<Mounted>, ino: nat) {
    ino != ROOT && forall k :: 0 <= k < |run| ==> ino in run[k].v.inodes
  }

  /** As long as it is there a file is one byte sequence, whatever becomes of its names and handles. */
  lemma {:induction false} FileIsBytes(run: seq<Mounted>, cs: seq<Command>, rs: seq<Res>, ino: nat)
    requires Ran(run, cs, rs) && ThereThroughout(run, ino)
    ensures Fine(run[0]) && Fine(run[|cs|]) && ino in run[0].v.inodes && ino in run[|cs|].v.inodes
    ensures Content(run[|cs|].v, ino) == Bytes(Content(run[0].v, ino), cs, rs, ino)
    decreases |cs|
  {
    hide Ran, Did, Fine, Content, BytesNow, ThereThroughout, FsOkBut, CoreOk, Ok, Tree, Sized;
    RanShape(run, cs, rs);
    ThereShape(run, ino);
    FineParts(run[0]);
    if cs != [] {
      var k := |cs| - 1;
      RanLess(run, cs, rs);
      FineParts(run[|cs|]);
      FileIsBytes(run[..|cs|], cs[..k], rs[..k], ino);
      StepBytes(run[k], cs[k], rs[k], run[k + 1], ino);
    }
  }

  lemma RanShape(run: seq<Mounted>, cs: seq<Command>, rs: seq<Res>)
    requires Ran(run, cs, rs)
    ensures |run| == |cs| + 1 && |rs| == |cs| && Fine(run[0])
  {
  }

  lemma ThereShape(run: seq<Mounted>, ino: nat)
    requires ThereThroughout(run, ino) && run != []
    ensures ino != ROOT && ino in run[0].v.inodes && ino in run[|run| - 1].v.inodes
    ensures ThereThroughout(run[..|run| - 1], ino)
    ensures |run| > 1 ==> ino in run[|run| - 2].v.inodes
  {
  }

  /** An open file does not go away, nor does one with a name. */
  lemma OpenOrNamedIsThere(s: Mounted, ino: nat, name: CString)
    requires Fine(s) && (Handle(s.vn, ino) || (InoOf(Table(s.v), name) == ino && ino != 0))
    ensures ino in s.v.inodes
  {
    hide FsOkBut, Table, Sized, Ok, CoreOk, Tree;
    FineParts(s);
    if !Handle(s.vn, ino) {
      NamedIsThere(s.v, s.vn, name);
    }
  }

  lemma NamedIsThere(v: Vol, vn: map<nat, Vnode>, name: CString)
    requires Tree(v) && Sized(v) && ROOT in v.inodes && InoOf(Table(v), name) != 0
    ensures InoOf(Table(v), name) in v.inodes
  {
    hide Table, Sized, AllClean, Ok;
    InoOfOccupied(Table(v), name);
  }

  lemma {:induction false} InoOfOccupied(es: seq<Entry>, name: CString)
    requires InoOf(es, name) != 0
    ensures exists k :: 0 <= k < |es| && es[k].ino == InoOf(es, name)
  {
    if es != [] {
      if !(es[|es| - 1].ino == InoOf(es, name)) {
        InoOfOccupied(es[..|es| - 1], name);
      }
    }
  }

  /** A read hands back the bytes last written, through whatever else has happened. */
  lemma ReadsLastWritten(run: seq<Mounted>, cs: seq<Command>, rs: seq<Res>, t: Mounted, ino: nat, off: nat, len: nat,
                         r: Res)
    requires Ran(run, cs, rs) && ThereThroughout(run, ino) && Did(run[|cs|], ReadFile(ino, off, len), r, t) && r.Res?
    requires Sized(run[0].v) && ino in run[0].v.inodes
    ensures r.data == Slice(Bytes(Content(run[0].v, ino), cs, rs, ino), off, r.count) && |r.data| == r.count
    ensures r.err == OK ==> r.count == ReadSpan(|Bytes(Content(run[0].v, ino), cs, rs, ino)|, off, len)
    ensures r.err != OK ==> r.err == EINVAL && off + r.count >= MAXBLOCKS * BLOCKSIZE
  {
    hide Ran, Fine, FsOkBut, Sized, Table, ThereThroughout, Bytes;
    FileIsBytes(run, cs, rs, ino);
  }

  // ---------------------------------------------------------------------------------------
  // From a fresh image

  /**
   From a fresh image on, whatever is done to it: the directory is the map the successful
   commands describe, and a block is marked in use exactly when it is reserved, an inode, or a
   block of an inode.
   */
  method Life(disk: seq<Block>, volname: CString, cs: seq<Command>)
    returns (fs: Sfs, rs: seq<Res>, ghost run: seq<Mounted>)
    requires DiskOk(disk) && 3 <= |disk| < WORD && |volname| < VOLNAME_SIZE && BitBlocks(|disk|) <= MAXBITBLOCKS
    ensures Ran(run, cs, rs) && run[|cs|] == Now(fs) && Fine(Now(fs))
    ensures run[0].v.inodes == map[ROOT := RootInode()]
    ensures forall name :: InoOf(Table(fs.V()), name) == Leads([], cs, rs, name)
    ensures forall b :: 0 <= b < |fs.disk| ==>
              (fs.freemap[b] <==>
               ReservedBlock(b, |fs.disk|) || b in fs.inodes || exists ino :: SfsVolume.Owns(fs.V(), ino, b))
  {
    hide FsOkBut, CoreOk, Table, Tree, InoOf, Did;
    var err, mounted := MakeAndMount(disk, volname);
    fs := mounted;
    LoadVnode(fs, ROOT);
    FineAgain(Now(fs));
    rs, run := Session(fs, cs);
    if cs != [] {
      RanLess(run, cs, rs);
    }
    forall name ensures InoOf(Table(fs.V()), name) == Leads([], cs, rs, name) {
      DirectoryIsMap(run, cs, rs, name);
    }
    FineParts(Now(fs));
    Conserved(fs.V());
  }

  lemma Conserved(v: Vol)
    requires Ok(v)
    ensures forall b :: 0 <= b < |v.disk| ==>
              (v.used[b] <==> ReservedBlock(b, |v.disk|) || b in v.inodes || exists ino :: SfsVolume.Owns(v, ino, b))
  {
    hide MapOk, Forward, Backward, Owns;
    forall b | 0 <= b < |v.disk|
      ensures v.used[b] <==> ReservedBlock(b, |v.disk|) || b in v.inodes || exists ino :: SfsVolume.Owns(v, ino, b)
    {
      MarkedIffOwned(v, b);
    }
  }
}
