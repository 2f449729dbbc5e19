/**
 Address spaces: two-level page tables over the coremap.  An address space and each of its
 second-level tables are blocks of whole pages, taken from the same coremap as the frames
 they map.
 */
module PageTable {
  import opened Coremap

  const LEVEL1 := 512        // entries of the first level: user space ends at 2 GB
  const LEVEL2 := 1024       // entries of a second-level table
  const PAGES := 0x8_0000    // user pages of an address space
  const FIELD := 0x10_0000   // range of the 20-bit address field of a page entry
  const SPACE_BYTES := 2080  // of an address space
  const TABLE_BYTES := 8192  // of a second-level table
  const SPACE_FRAMES := 1
  const TABLE_FRAMES := 2

  datatype Frame = NoFrame | Frame(i: nat)

  datatype PageEntry = PageEntry(valid: bool, addr: nat, frame: Frame)

  const EMPTY := PageEntry(false, 0, NoFrame)

  /** A second-level table: the first of its frames, and its entries. */
  datatype Level2 = NoTable | Table(at: nat, ptes: seq<PageEntry>)

  datatype Space = Space(lvone: seq<Level2>)

  predicate Shaped(sp: Space) {
    |sp.lvone| == LEVEL1 && forall i :: 0 <= i < LEVEL1 && sp.lvone[i].Table? ==> |sp.lvone[i].ptes| == LEVEL2
  }

  /** The entry for a virtual page; without a second-level table there is none. */
  function Lookup(sp: Space, vpn: nat): PageEntry
    requires Shaped(sp) && vpn < PAGES
  {
    var l2 := sp.lvone[vpn / LEVEL2];
    if l2.NoTable? then EMPTY else l2.ptes[vpn % LEVEL2]
  }

  predicate HasTable(sp: Space, vpn: nat)
    requires Shaped(sp) && vpn < PAGES
  {
    sp.lvone[vpn / LEVEL2].Table?
  }

  /** A second-level table that maps nothing. */
  function Blank(at: nat): (t: Level2)
    ensures t.Table? && t.at == at && |t.ptes| == LEVEL2
  {
    Table(at, seq(LEVEL2, _ => EMPTY))
  }

  function SetPte(sp: Space, vpn: nat, e: PageEntry): (r: Space)
    requires Shaped(sp) && vpn < PAGES && HasTable(sp, vpn)
    ensures Shaped(r)
  {
    var t := sp.lvone[vpn / LEVEL2];
    Space(sp.lvone[vpn / LEVEL2 := Table(t.at, t.ptes[vpn % LEVEL2 := e])])
  }

  lemma LookupSet(sp: Space, vpn: nat, e: PageEntry, w: nat)
    requires Shaped(sp) && vpn < PAGES && w < PAGES && HasTable(sp, vpn)
    ensures Lookup(SetPte(sp, vpn, e), w) == if w == vpn then e else Lookup(sp, w)
  {
    if w != vpn && w / LEVEL2 == vpn / LEVEL2 {
      assert w % LEVEL2 != vpn % LEVEL2;
    }
  }

  function SetTable(sp: Space, vpn: nat, at: nat): (r: Space)
    requires Shaped(sp) && vpn < PAGES
    ensures Shaped(r)
  {
    Space(sp.lvone[vpn / LEVEL2 := Blank(at)])
  }

  /** A new table maps nothing, so no translation changes. */
  lemma LookupBlank(sp: Space, vpn: nat, at: nat, w: nat)
    requires Shaped(sp) && vpn < PAGES && w < PAGES && !HasTable(sp, vpn)
    ensures Lookup(SetTable(sp, vpn, at), w) == Lookup(sp, w)
  {
  }

  // ---------------------------------------------------------------------------------------
  // The invariant

  datatype State = State(cs: seq<Entry>, base: nat, spaces: map<nat, Space>, runs: map<nat, nat>)

  predicate Well(s: State) {
    forall a :: a in s.spaces ==> Shaped(s.spaces[a])
  }

  function At(s: State, a: nat, vpn: nat): PageEntry
    requires Well(s) && a in s.spaces && vpn < PAGES
  {
    Lookup(s.spaces[a], vpn)
  }

  /** A mapped page has a frame, and the frame knows the page. */
  predicate Mapped(s: State, a: nat, vpn: nat)
    requires Well(s) && a in s.spaces && vpn < PAGES
  {
    var e := At(s, a, vpn);
    && (e.valid <==> e.frame.Frame?)
    && (e.frame.Frame? ==>
          e.frame.i < |s.cs| && s.cs[e.frame.i] == Entry(true, 1, Pte(a, vpn)) &&
            e.addr == (s.base + e.frame.i * PAGE) % FIELD)
  }

  /** A frame that says a page maps it is mapped by that page. */
  predicate Back(s: State, f: nat)
    requires Well(s) && f < |s.cs|
  {
    && (!s.cs[f].inuse ==> s.cs[f] == FREE)
    && (s.cs[f].owner.Pte? ==>
          var a, vpn := s.cs[f].owner.asid, s.cs[f].owner.vpn;
          a in s.spaces && vpn < PAGES && At(s, a, vpn).frame == Frame(f))
  }

  /** A run of frames in kernel hands. */
  predicate RunOk(s: State, i: nat)
    requires i in s.runs
  {
    && s.runs[i] >= 1 && i + s.runs[i] <= |s.cs| && s.cs[i].continuous == s.runs[i]
    && forall k :: i <= k < i + s.runs[i] ==>
         s.cs[k].inuse && s.cs[k].owner == None && (k > i ==> s.cs[k].continuous == 0)
  }

  predicate RunsApart(runs: map<nat, nat>) {
    forall i, j :: i in runs && j in runs && i < j ==> i + runs[i] <= j
  }

  /** The first frame of a second-level table, -1 if there is no table. */
  function TableAt(s: State, a: nat, l: nat): int
    requires Well(s) && a in s.spaces && l < LEVEL1
  {
    if s.spaces[a].lvone[l].Table? then s.spaces[a].lvone[l].at else -1
  }

  /** An address space, which goes by its frame, and its tables are blocks of their own. */
  predicate Housed(s: State)
    requires Well(s)
  {
    && (forall a :: a in s.spaces ==> a in s.runs && s.runs[a] == SPACE_FRAMES)
    && (forall a, l :: a in s.spaces && 0 <= l < LEVEL1 && TableAt(s, a, l) >= 0 ==>
          TableAt(s, a, l) in s.runs && s.runs[TableAt(s, a, l)] == TABLE_FRAMES)
    && (forall a, l, b, k ::
          a in s.spaces && 0 <= l < LEVEL1 && b in s.spaces && 0 <= k < LEVEL1 ==>
          (TableAt(s, a, l) >= 0 && TableAt(s, a, l) == TableAt(s, b, k) ==> a == b && l == k))
  }

  /** A run that is an address space or a second-level table. */
  predicate Pinned(s: State, i: nat)
    requires Well(s)
  {
    i in s.spaces || exists a, l :: a in s.spaces && 0 <= l < LEVEL1 && TableAt(s, a, l) == i
  }

  predicate Sound(s: State) {
    && Well(s)
    && (forall a, vpn :: a in s.spaces && 0 <= vpn < PAGES ==> Mapped(s, a, vpn))
    && (forall f :: 0 <= f < |s.cs| ==> Back(s, f))
    && (forall i :: i in s.runs ==> RunOk(s, i)) && RunsApart(s.runs) && Housed(s)
  }

  /** No frame is in two page tables, or twice in one. */
  lemma FramesNotShared(s: State, a: nat, v: nat, b: nat, w: nat)
    requires Sound(s) && a in s.spaces && b in s.spaces && v < PAGES && w < PAGES
    requires At(s, a, v).frame.Frame? && At(s, a, v).frame == At(s, b, w).frame
    ensures a == b && v == w
  {
    assert Mapped(s, a, v) && Mapped(s, b, w);
  }

  /** Nor is a mapped frame in kernel hands. */
  lemma UserOrKernel(s: State, a: nat, v: nat, i: nat)
    requires Sound(s) && a in s.spaces && v < PAGES && At(s, a, v).frame.Frame? && i in s.runs
    ensures !(i <= At(s, a, v).frame.i < i + s.runs[i])
  {
    assert Mapped(s, a, v) && RunOk(s, i);
  }

  // ---------------------------------------------------------------------------------------
  // Kernel pages

  function KAlloc(s: State, n: nat): State {
    if n >= 1 && FirstRunHolds(s.cs, n) then
      var i := FirstFree(s.cs);
      s.(cs := Taken(s.cs, i, n), runs := s.runs[i := n])
    else s
  }

  /** Whatever keeps the address spaces and their tables where they are keeps them housed. */
  lemma HousedStill(s: State, t: State)
    requires Well(s) && Well(t) && Housed(s) && t.spaces.Keys <= s.spaces.Keys
    requires forall a, l :: a in t.spaces && 0 <= l < LEVEL1 ==> TableAt(t, a, l) == TableAt(s, a, l)
    requires forall a :: a in t.spaces ==> a in t.runs && t.runs[a] == s.runs[a]
    requires forall a, l :: a in t.spaces && 0 <= l < LEVEL1 && TableAt(s, a, l) >= 0 ==>
               TableAt(s, a, l) in t.runs && t.runs[TableAt(s, a, l)] == s.runs[TableAt(s, a, l)]
    ensures Housed(t)
  {
    hide Well, TableAt;
  }

  lemma KAllocSound(s: State, n: nat)
    requires Sound(s)
    ensures Sound(KAlloc(s, n))
  {
    hide FirstFree, Lookup, Shaped, Housed, TableAt;
    if n >= 1 && FirstRunHolds(s.cs, n) {
      var s', i := KAlloc(s, n), FirstFree(s.cs);
      forall a, vpn | a in s'.spaces && 0 <= vpn < PAGES ensures Mapped(s', a, vpn) {
        assert Mapped(s, a, vpn);
      }
      forall f | 0 <= f < |s'.cs| ensures Back(s', f) {
        assert Back(s, f);
      }
      KAllocRuns(s, n);
      KAllocHoused(s, n);
    }
  }

  lemma KAllocRuns(s: State, n: nat)
    requires Sound(s) && n >= 1 && FirstRunHolds(s.cs, n)
    ensures (forall i :: i in KAlloc(s, n).runs ==> RunOk(KAlloc(s, n), i)) && RunsApart(KAlloc(s, n).runs)
  {
    hide FirstFree, Lookup, Shaped, Housed, TableAt, Mapped;
    var s', i := KAlloc(s, n), FirstFree(s.cs);
    forall j | j in s'.runs ensures RunOk(s', j) && (j in s.runs && j != i ==> j + s.runs[j] <= i || i + n <= j) {
      if j in s.runs {
        assert RunOk(s, j);
        ApartFromFree(s, j, i, n);
      } else {
        NewRun(s, n);
      }
    }
  }

  lemma KAllocHoused(s: State, n: nat)
    requires Sound(s)
    ensures Well(KAlloc(s, n)) && Housed(KAlloc(s, n))
    ensures n >= 1 && FirstRunHolds(s.cs, n) ==> FirstFree(s.cs) !in s.runs && !Pinned(KAlloc(s, n), FirstFree(s.cs))
  {
    hide Mapped, Back, Shaped, Lookup, Taken;
    if n >= 1 && FirstRunHolds(s.cs, n) {
      var i := FirstFree(s.cs);
      assert i in s.runs ==> RunOk(s, i);
      SameTables(s, KAlloc(s, n));
    }
  }

  lemma SameTables(s: State, t: State)
    requires Well(s) && t.spaces == s.spaces
    ensures Well(t) && forall a, l :: a in t.spaces && 0 <= l < LEVEL1 ==> TableAt(t, a, l) == TableAt(s, a, l)
  {
    hide Shaped;
  }

  lemma NewRun(s: State, n: nat)
    requires Well(s) && (forall f :: 0 <= f < |s.cs| ==> Back(s, f)) && n >= 1 && FirstRunHolds(s.cs, n)
    ensures RunOk(KAlloc(s, n), FirstFree(s.cs))
  {
    hide Lookup, Shaped;
    var s', i := KAlloc(s, n), FirstFree(s.cs);
    forall k | i <= k < i + n ensures s'.cs[k] == Entry(true, if k == i then n else 0, None) {
      assert Back(s, k);
    }
  }

  /** A free run does not meet a run in kernel hands. */
  lemma ApartFromFree(s: State, j: nat, i: nat, n: nat)
    requires j in s.runs && RunOk(s, j) && AllFree(s.cs, i, n) && n >= 1
    ensures j + s.runs[j] <= i || i + n <= j
  {
    assert !s.cs[i].inuse;
    assert !(j <= i < j + s.runs[j]);
    assert !(i <= j < i + n);
  }

  function KFree(s: State, i: nat): State
    requires i < |s.cs|
  {
    s.(cs := GivenBack(s.cs, i), runs := s.runs - {i})
  }

  /** Address spaces and page tables are not given back behind their owners' backs. */
  lemma KFreeSound(s: State, i: nat)
    requires Sound(s) && i in s.runs && i < |s.cs| && !Pinned(s, i)
    ensures Sound(KFree(s, i))
  {
    hide Lookup, Shaped, Housed, TableAt;
    var s' := KFree(s, i);
    assert RunOk(s, i);
    forall a, vpn | a in s'.spaces && 0 <= vpn < PAGES ensures Mapped(s', a, vpn) {
      assert Mapped(s, a, vpn);
    }
    forall f | 0 <= f < |s'.cs| ensures Back(s', f) {
      assert Back(s, f);
    }
    forall j | j in s'.runs ensures RunOk(s', j) {
      assert RunOk(s, j);
    }
    KFreeHoused(s, i);
  }

  lemma KFreeHoused(s: State, i: nat)
    requires Well(s) && Housed(s) && i < |s.cs| && !Pinned(s, i)
    ensures Well(KFree(s, i)) && Housed(KFree(s, i))
  {
    hide Shaped, GivenBack;
    SameTables(s, KFree(s, i));
    HousedStill(s, KFree(s, i));
  }

  // ---------------------------------------------------------------------------------------
  // User pages

  /** Frame `f` mapped at a page. */
  function MapAt(s: State, a: nat, vpn: nat, f: nat): State
    requires Well(s) && a in s.spaces && vpn < PAGES && f < |s.cs| && HasTable(s.spaces[a], vpn)
  {
    s.(cs := s.cs[f := Entry(true, 1, Pte(a, vpn))],
       spaces := s.spaces[a := SetPte(s.spaces[a], vpn, PageEntry(true, (s.base + f * PAGE) % FIELD, Frame(f)))])
  }

  lemma MapAtWell(s: State, a: nat, vpn: nat, f: nat)
    requires Well(s) && a in s.spaces && vpn < PAGES && f < |s.cs| && HasTable(s.spaces[a], vpn)
    ensures Well(MapAt(s, a, vpn, f))
  {
  }

  lemma MapAtLookup(s: State, a: nat, vpn: nat, f: nat, b: nat, w: nat)
    requires Well(s) && a in s.spaces && vpn < PAGES && f < |s.cs| && b in s.spaces && w < PAGES
    requires HasTable(s.spaces[a], vpn)
    ensures Well(MapAt(s, a, vpn, f)) && b in MapAt(s, a, vpn, f).spaces
    ensures At(MapAt(s, a, vpn, f), b, w) ==
              if b == a && w == vpn then PageEntry(true, (s.base + f * PAGE) % FIELD, Frame(f)) else At(s, b, w)
  {
    MapAtWell(s, a, vpn, f);
    if b == a {
      LookupSet(s.spaces[a], vpn, PageEntry(true, (s.base + f * PAGE) % FIELD, Frame(f)), w);
    }
  }

  /** A frame that is in no run and in no page table. */
  predicate Loose(s: State, f: nat) {
    f < |s.cs| && s.cs[f].owner == None && forall i :: i in s.runs ==> !(i <= f < i + s.runs[i])
  }

  lemma FreeIsLoose(s: State, f: nat)
    requires Sound(s) && f < |s.cs| && !s.cs[f].inuse
    ensures Loose(s, f)
  {
    hide Mapped, Housed;
    assert Back(s, f);
    forall i | i in s.runs ensures !(i <= f < i + s.runs[i]) {
      assert RunOk(s, i);
    }
  }

  lemma MapAtSound(s: State, a: nat, vpn: nat, f: nat)
    requires Sound(s) && a in s.spaces && vpn < PAGES && Loose(s, f) && !At(s, a, vpn).valid
    requires HasTable(s.spaces[a], vpn)
    ensures Sound(MapAt(s, a, vpn, f))
  {
    hide Lookup, Shaped, SetPte, Well, Housed, HasTable;
    WellOf(s);
    var s' := MapAt(s, a, vpn, f);
    MapAtWell(s, a, vpn, f);
    forall b, w | b in s'.spaces && 0 <= w < PAGES ensures Mapped(s', b, w) {
      MapAtLookup(s, a, vpn, f, b, w);
      assert Mapped(s, b, w);
    }
    forall g | 0 <= g < |s'.cs| ensures Back(s', g) {
      assert Back(s, g);
      if g != f && s.cs[g].owner.Pte? {
        MapAtLookup(s, a, vpn, f, s.cs[g].owner.asid, s.cs[g].owner.vpn);
        assert Mapped(s, a, vpn);
      } else if g == f {
        MapAtLookup(s, a, vpn, f, a, vpn);
      }
    }
    forall i | i in s'.runs ensures RunOk(s', i) {
      assert RunOk(s, i);
    }
    MapAtHoused(s, a, vpn, f);
  }

  lemma MapAtHoused(s: State, a: nat, vpn: nat, f: nat)
    requires Well(s) && Housed(s) && a in s.spaces && vpn < PAGES && f < |s.cs| && HasTable(s.spaces[a], vpn)
    ensures Well(MapAt(s, a, vpn, f)) && Housed(MapAt(s, a, vpn, f))
    ensures forall b, l :: b in s.spaces && 0 <= l < LEVEL1 ==> TableAt(MapAt(s, a, vpn, f), b, l) == TableAt(s, b, l)
  {
    MapAtWell(s, a, vpn, f);
    hide Well, Housed;
    HousedStill(s, MapAt(s, a, vpn, f));
  }

  lemma WellOf(s: State)
    requires Sound(s)
    ensures Well(s)
  {
  }

  /** A frame taken and, for want of memory for a table, never mapped: it is lost. */
  function Lost(s: State, f: nat): State
    requires f < |s.cs|
  {
    s.(cs := s.cs[f := s.cs[f].(inuse := true)])
  }

  lemma LostSound(s: State, f: nat)
    requires Sound(s) && f < |s.cs| && !s.cs[f].inuse
    ensures Sound(Lost(s, f)) && Loose(Lost(s, f), f)
  {
    hide Lookup, Shaped, Housed, TableAt;
    var s' := Lost(s, f);
    FreeIsLoose(s, f);
    forall b, w | b in s'.spaces && 0 <= w < PAGES ensures Mapped(s', b, w) {
      assert Mapped(s, b, w);
    }
    forall g | 0 <= g < |s'.cs| ensures Back(s', g) {
      assert Back(s, g);
    }
    forall i | i in s'.runs ensures RunOk(s', i) {
      assert RunOk(s, i);
    }
    LostHoused(s, f);
  }

  lemma LostHoused(s: State, f: nat)
    requires Well(s) && Housed(s) && f < |s.cs|
    ensures Well(Lost(s, f)) && Housed(Lost(s, f))
  {
    hide Shaped;
    SameTables(s, Lost(s, f));
    HousedStill(s, Lost(s, f));
  }

  /** A run that is nothing yet becomes a second-level table that maps nothing. */
  function WithTable(s: State, a: nat, vpn: nat, at: nat): State
    requires Well(s) && a in s.spaces && vpn < PAGES
  {
    s.(spaces := s.spaces[a := SetTable(s.spaces[a], vpn, at)])
  }

  lemma WithTableLookup(s: State, a: nat, vpn: nat, at: nat, b: nat, w: nat)
    requires Well(s) && a in s.spaces && vpn < PAGES && !HasTable(s.spaces[a], vpn) && b in s.spaces && w < PAGES
    ensures Well(WithTable(s, a, vpn, at)) && At(WithTable(s, a, vpn, at), b, w) == At(s, b, w)
    ensures HasTable(WithTable(s, a, vpn, at).spaces[a], vpn)
  {
    if b == a {
      LookupBlank(s.spaces[a], vpn, at, w);
    }
  }

  lemma WithTableHoused(s: State, a: nat, vpn: nat, at: nat)
    requires Well(s) && Housed(s) && a in s.spaces && vpn < PAGES && at in s.runs && s.runs[at] == TABLE_FRAMES
    requires !Pinned(s, at)
    ensures Well(WithTable(s, a, vpn, at)) && Housed(WithTable(s, a, vpn, at))
    ensures forall b, l :: b in s.spaces && 0 <= l < LEVEL1 ==>
              TableAt(WithTable(s, a, vpn, at), b, l) == if b == a && l == vpn / LEVEL2 then at else TableAt(s, b, l)
  {
    var t := WithTable(s, a, vpn, at);
    assert Well(t);
    hide Well;
    forall b, l | b in s.spaces && 0 <= l < LEVEL1
      ensures TableAt(t, b, l) == if b == a && l == vpn / LEVEL2 then at else TableAt(s, b, l)
    {
    }
    hide TableAt;
  }

  lemma WithTableSound(s: State, a: nat, vpn: nat, at: nat)
    requires Sound(s) && a in s.spaces && vpn < PAGES && !HasTable(s.spaces[a], vpn)
    requires at in s.runs && s.runs[at] == TABLE_FRAMES && !Pinned(s, at)
    ensures Sound(WithTable(s, a, vpn, at))
  {
    hide Lookup, Shaped, SetTable, Well, Housed, HasTable, TableAt, RunOk, Pinned;
    WellOf(s);
    var t := WithTable(s, a, vpn, at);
    WithTableHoused(s, a, vpn, at);
    forall b, w | b in t.spaces && 0 <= w < PAGES ensures Mapped(t, b, w) {
      WithTableLookup(s, a, vpn, at, b, w);
      assert Mapped(s, b, w);
    }
    forall g | 0 <= g < |t.cs| ensures Back(t, g) {
      assert Back(s, g);
      if s.cs[g].owner.Pte? {
        WithTableLookup(s, a, vpn, at, s.cs[g].owner.asid, s.cs[g].owner.vpn);
      }
    }
    forall i | i in t.runs ensures RunOk(t, i) {
      SameRun(s, t, i);
    }
  }

  predicate Owns(e: Entry, a: nat) {
    e.owner.Pte? && e.owner.asid == a
  }

  /** The pages of an address space let go: exactly the frames it had mapped are free. */
  function Emptied(s: State, a: nat): State {
    s.(cs := seq(|s.cs|, f requires 0 <= f < |s.cs| => if Owns(s.cs[f], a) then FREE else s.cs[f]),
      spaces := s.spaces - {a})
  }

  lemma EmptiedSound(s: State, a: nat)
    requires Sound(s)
    ensures Sound(Emptied(s, a))
  {
    hide Lookup, Shaped, Housed, TableAt;
    var s' := Emptied(s, a);
    forall b, w | b in s'.spaces && 0 <= w < PAGES ensures Mapped(s', b, w) {
      assert Mapped(s, b, w);
    }
    forall g | 0 <= g < |s'.cs| ensures Back(s', g) {
      assert Back(s, g);
    }
    forall i | i in s'.runs ensures RunOk(s', i) {
      assert RunOk(s, i);
    }
    EmptiedHoused(s, a);
  }

  lemma EmptiedHoused(s: State, a: nat)
    requires Well(s) && Housed(s)
    ensures Well(Emptied(s, a)) && Housed(Emptied(s, a))
    ensures a in s.spaces ==> a in s.runs && !Pinned(Emptied(s, a), a)
  {
    hide Shaped;
    var t := Emptied(s, a);
    forall b, l | b in t.spaces && 0 <= l < LEVEL1 ensures TableAt(t, b, l) == TableAt(s, b, l) {
    }
    HousedStill(s, t);
  }

  /** An address space gone: its frames and its own block are free, its second-level tables are not. */
  function Destroyed(s: State, a: nat): State
    requires a < |s.cs|
  {
    KFree(Emptied(s, a), a)
  }

  lemma SpaceBound(s: State, a: nat)
    requires Sound(s) && a in s.spaces
    ensures a < |s.cs| && a in s.runs && s.runs[a] == SPACE_FRAMES && Well(s)
  {
    hide Mapped, Back;
    assert RunOk(s, a);
  }

  lemma DestroyedSound(s: State, a: nat)
    requires Sound(s) && a in s.spaces
    ensures a < |s.cs| && Sound(Destroyed(s, a))
  {
    hide Sound, Well, Housed, Pinned, KFree;
    SpaceBound(s, a);
    EmptiedSound(s, a);
    SoundParts(s);
    EmptiedHoused(s, a);
    KFreeSound(Emptied(s, a), a);
  }

  lemma SoundParts(s: State)
    requires Sound(s)
    ensures Well(s) && Housed(s)
  {
  }

  /** A frame is freed with the pages of an address space exactly if one of them had it. */
  lemma FreedIffMapped(s: State, a: nat, f: nat)
    requires Sound(s) && a in s.spaces && f < |s.cs|
    ensures Owns(s.cs[f], a) <==> exists vpn :: 0 <= vpn < PAGES && At(s, a, vpn).frame == Frame(f)
  {
    hide Lookup, Shaped, Housed;
    assert Back(s, f);
    if vpn :| 0 <= vpn < PAGES && At(s, a, vpn).frame == Frame(f) {
      assert Mapped(s, a, vpn);
    }
  }

  /** What as_destroy leaves behind: every second-level table stays taken, and no page is in it any more. */
  lemma TablesLeak(s: State, a: nat, l: nat)
    requires Sound(s) && a in s.spaces && l < LEVEL1 && Well(s) && TableAt(s, a, l) >= 0
    ensures a < |s.cs| && TableAt(s, a, l) in Destroyed(s, a).runs && Well(Destroyed(s, a))
    ensures !Pinned(Destroyed(s, a), TableAt(s, a, l))
  {
    hide Mapped, Back, RunOk, Shaped, GivenBack;
    SpaceBound(s, a);
    var t := Destroyed(s, a);
    assert Well(t);
    forall b, k | b in t.spaces && 0 <= k < LEVEL1 ensures TableAt(t, b, k) == TableAt(s, b, k) {
    }
  }

  /** A new address space maps nothing; it goes by the frame it is in. */
  function Created(s: State): State {
    if FirstRunHolds(s.cs, SPACE_FRAMES) then
      KAlloc(s, SPACE_FRAMES).(spaces := s.spaces[FirstFree(s.cs) := Space(seq(LEVEL1, _ => NoTable))])
    else s
  }

  lemma CreatedSound(s: State)
    requires Sound(s)
    ensures Sound(Created(s))
  {
    hide Sound, KAlloc, Housed, Pinned, FirstFree;
    if FirstRunHolds(s.cs, SPACE_FRAMES) {
      KAllocSound(s, SPACE_FRAMES);
      SoundParts(s);
      KAllocHoused(s, SPACE_FRAMES);
      NewRunIs(s, SPACE_FRAMES);
      NewSpaceSound(KAlloc(s, SPACE_FRAMES), FirstFree(s.cs));
    }
  }

  lemma NewRunIs(s: State, n: nat)
    requires n >= 1 && FirstRunHolds(s.cs, n)
    ensures var t := KAlloc(s, n);
            FirstFree(s.cs) in t.runs && t.runs[FirstFree(s.cs)] == n && t.spaces == s.spaces && t.base == s.base &&
              |t.cs| == |s.cs|
  {
  }

  lemma NewSpaceSound(s: State, a: nat)
    requires Sound(s) && a in s.runs && s.runs[a] == SPACE_FRAMES && Well(s) && !Pinned(s, a)
    ensures Sound(s.(spaces := s.spaces[a := Space(seq(LEVEL1, _ => NoTable))]))
  {
    hide Shaped, RunOk, Housed, TableAt, Pinned;
    NewSpaceHoused(s, a);
    var s' := s.(spaces := s.spaces[a := Space(seq(LEVEL1, _ => NoTable))]);
    forall b, w | b in s'.spaces && 0 <= w < PAGES ensures Mapped(s', b, w) {
      if b != a { assert Mapped(s, b, w); }
    }
    forall g | 0 <= g < |s'.cs| ensures Back(s', g) {
      assert Back(s, g);
    }
    forall i | i in s'.runs ensures RunOk(s', i) {
      SameRun(s, s', i);
    }
  }

  lemma NewSpaceHoused(s: State, a: nat)
    requires Well(s) && Housed(s) && a in s.runs && s.runs[a] == SPACE_FRAMES && !Pinned(s, a)
    ensures a !in s.spaces
    ensures var t := s.(spaces := s.spaces[a := Space(seq(LEVEL1, _ => NoTable))]); Well(t) && Housed(t)
  {
    var t := s.(spaces := s.spaces[a := Space(seq(LEVEL1, _ => NoTable))]);
    assert Well(t);
    hide Well;
    forall b, l | b in t.spaces && 0 <= l < LEVEL1
      ensures TableAt(t, b, l) == if b == a then -1 else TableAt(s, b, l)
    {
    }
    hide TableAt;
  }

  lemma SameRun(s: State, t: State, i: nat)
    requires i in s.runs && i in t.runs && RunOk(s, i) && t.cs == s.cs && t.runs == s.runs
    ensures RunOk(t, i)
  {
  }

  /** The 20-bit field keeps the whole address of a frame exactly if the frame lies in the first megabyte. */
  lemma AddressKept(s: State, a: nat, vpn: nat)
    requires Sound(s) && a in s.spaces && vpn < PAGES && At(s, a, vpn).frame.Frame?
    ensures At(s, a, vpn).addr == s.base + At(s, a, vpn).frame.i * PAGE <==>
              s.base + At(s, a, vpn).frame.i * PAGE < FIELD
  {
    hide Lookup, Shaped, Housed;
    assert Mapped(s, a, vpn);
  }

  // ---------------------------------------------------------------------------------------
  // Runs

  datatype Op =
    | KernelAlloc(n: nat)
    | KernelFree(i: nat)
    | NewSpace
    | Grow(a: nat, vpn: nat)
    | DropSpace(a: nat)

  /** The kernel frees only what it holds, and a page is mapped only when it is not. */
  predicate Allowed(s: State, op: Op) {
    match op
    case KernelAlloc(_) => true
    case KernelFree(i) => i in s.runs && i < |s.cs| && Well(s) && !Pinned(s, i)
    case NewSpace => true
    case Grow(a, vpn) => Well(s) && a in s.spaces && vpn < PAGES && !At(s, a, vpn).valid
    case DropSpace(a) => a in s.spaces && a < |s.cs|
  }

  /** The state between taking a frame for a page and mapping it. */
  function Tabled(s: State, a: nat, vpn: nat): State
    requires Well(s) && a in s.spaces && vpn < PAGES
  {
    WithTable(KAlloc(s, TABLE_FRAMES), a, vpn, FirstFree(s.cs))
  }

  /**
   A page mapped, with a second-level table made first if there is none.  Without room for the
   table the frame stays taken, and no page has it.
   */
  function GrowTo(s: State, a: nat, vpn: nat): State
    requires Well(s) && a in s.spaces && vpn < PAGES
  {
    var f := FirstFree(s.cs);
    if f == |s.cs| then s
    else if HasTable(s.spaces[a], vpn) then MapAt(s, a, vpn, f)
    else if !FirstRunHolds(Lost(s, f).cs, TABLE_FRAMES) then Lost(s, f)
    else
      var t := Tabled(Lost(s, f), a, vpn);
      assert Well(t) && HasTable(t.spaces[a], vpn);
      MapAt(t, a, vpn, f)
  }

  /** A page can be had: a frame for it, and two more in a row if it needs a table. */
  predicate CanGrow(s: State, a: nat, vpn: nat)
    requires Well(s) && a in s.spaces && vpn < PAGES
  {
    var f := FirstFree(s.cs);
    f < |s.cs| && (HasTable(s.spaces[a], vpn) || FirstRunHolds(Lost(s, f).cs, TABLE_FRAMES))
  }

  lemma TabledSound(s: State, a: nat, vpn: nat, f: nat)
    requires Sound(s) && a in s.spaces && vpn < PAGES && Well(s) && !HasTable(s.spaces[a], vpn)
    requires FirstRunHolds(s.cs, TABLE_FRAMES)
    requires Loose(s, f) && s.cs[f].inuse
    ensures Sound(Tabled(s, a, vpn)) && Loose(Tabled(s, a, vpn), f) && Well(Tabled(s, a, vpn))
    ensures HasTable(Tabled(s, a, vpn).spaces[a], vpn)
    ensures forall b, w :: b in s.spaces && 0 <= w < PAGES ==> At(Tabled(s, a, vpn), b, w) == At(s, b, w)
  {
    hide Sound, Lookup, Shaped, SetTable, Housed, HasTable, Pinned, Loose, FirstFree, WithTable;
    var k, i := KAlloc(s, TABLE_FRAMES), FirstFree(s.cs);
    KAllocSound(s, TABLE_FRAMES);
    KAllocHoused(s, TABLE_FRAMES);
    NewRunIs(s, TABLE_FRAMES);
    WithTableSound(k, a, vpn, i);
    StillLoose(s, f);
    SameRuns(k, a, vpn, i, f);
    SoundParts(Tabled(s, a, vpn));
    TabledBase(s, a, vpn);
    forall b, w | b in s.spaces && 0 <= w < PAGES ensures At(Tabled(s, a, vpn), b, w) == At(s, b, w) {
      WithTableLookup(k, a, vpn, i, b, w);
    }
    WithTableLookup(k, a, vpn, i, a, vpn);
  }

  lemma StillLoose(s: State, f: nat)
    requires Loose(s, f) && s.cs[f].inuse && FirstRunHolds(s.cs, TABLE_FRAMES)
    ensures Loose(KAlloc(s, TABLE_FRAMES), f)
  {
    var i := FirstFree(s.cs);
    assert !s.cs[i].inuse && !s.cs[i + 1].inuse;
  }

  lemma SameRuns(s: State, a: nat, vpn: nat, i: nat, f: nat)
    requires Well(s) && a in s.spaces && vpn < PAGES && Loose(s, f)
    ensures Loose(WithTable(s, a, vpn, i), f)
  {
    hide Well;
  }

  lemma GrowSound(s: State, a: nat, vpn: nat)
    requires Sound(s) && Well(s) && a in s.spaces && vpn < PAGES && !At(s, a, vpn).valid
    ensures Sound(GrowTo(s, a, vpn)) && Well(GrowTo(s, a, vpn)) && a in GrowTo(s, a, vpn).spaces
    ensures forall b, w :: b in s.spaces && 0 <= w < PAGES && (b != a || w != vpn) ==>
              b in GrowTo(s, a, vpn).spaces && At(GrowTo(s, a, vpn), b, w) == At(s, b, w)
    ensures if CanGrow(s, a, vpn) then At(GrowTo(s, a, vpn), a, vpn) ==
                 PageEntry(true, (s.base + FirstFree(s.cs) * PAGE) % FIELD, Frame(FirstFree(s.cs)))
            else At(GrowTo(s, a, vpn), a, vpn) == At(s, a, vpn)
  {
    hide Sound, Lookup, Shaped, HasTable, Loose, Tabled, MapAt;
    var f := FirstFree(s.cs);
    if f < |s.cs| {
      LostSound(s, f);
      FreeIsLoose(s, f);
      LostSame(s, f);
      if HasTable(s.spaces[a], vpn) {
        MapsOne(s, a, vpn, f);
      } else if FirstRunHolds(Lost(s, f).cs, TABLE_FRAMES) {
        TabledSound(Lost(s, f), a, vpn, f);
        TabledBase(Lost(s, f), a, vpn);
        MapsOne(Tabled(Lost(s, f), a, vpn), a, vpn, f);
      }
    }
  }

  lemma LostSame(s: State, f: nat)
    requires Well(s) && f < |s.cs|
    ensures Well(Lost(s, f)) && Lost(s, f).spaces == s.spaces && Lost(s, f).base == s.base && |Lost(s, f).cs| == |s.cs|
    ensures Lost(s, f).cs[f].inuse && Lost(s, f).runs == s.runs
    ensures forall b, w :: b in s.spaces && 0 <= w < PAGES ==> At(Lost(s, f), b, w) == At(s, b, w)
  {
    hide Shaped;
  }

  lemma TabledBase(s: State, a: nat, vpn: nat)
    requires Well(s) && a in s.spaces && vpn < PAGES
    ensures Tabled(s, a, vpn).base == s.base && |Tabled(s, a, vpn).cs| == |s.cs|
    ensures Tabled(s, a, vpn).spaces.Keys == s.spaces.Keys
  {
    hide Well, SetTable;
  }

  lemma MapsOne(s: State, a: nat, vpn: nat, f: nat)
    requires Sound(s) && a in s.spaces && vpn < PAGES && Loose(s, f) && Well(s) && !At(s, a, vpn).valid
    requires HasTable(s.spaces[a], vpn)
    ensures f < |s.cs| && Sound(MapAt(s, a, vpn, f)) && Well(MapAt(s, a, vpn, f))
    ensures MapAt(s, a, vpn, f).spaces.Keys == s.spaces.Keys
    ensures forall b, w :: b in s.spaces && 0 <= w < PAGES ==>
              At(MapAt(s, a, vpn, f), b, w) ==
              if b == a && w == vpn then PageEntry(true, (s.base + f * PAGE) % FIELD, Frame(f)) else At(s, b, w)
  {
    hide Sound, Lookup, Shaped, HasTable, Well, SetPte;
    MapAtSound(s, a, vpn, f);
    MapAtWell(s, a, vpn, f);
    forall b, w | b in s.spaces && 0 <= w < PAGES
      ensures At(MapAt(s, a, vpn, f), b, w) ==
              if b == a && w == vpn then PageEntry(true, (s.base + f * PAGE) % FIELD, Frame(f)) else At(s, b, w)
    {
      MapAtLookup(s, a, vpn, f, b, w);
    }
  }

  /** A frame is lost to a growth, taken by it and in no page table and no run, exactly if no table can be made. */
  lemma GrowLoses(s: State, a: nat, vpn: nat)
    requires Sound(s) && Well(s) && a in s.spaces && vpn < PAGES && !At(s, a, vpn).valid && FirstFree(s.cs) < |s.cs|
    ensures var t, f := GrowTo(s, a, vpn), FirstFree(s.cs);
            Loose(t, f) && t.cs[f].inuse <==> !HasTable(s.spaces[a], vpn) && !FirstRunHolds(Lost(s, f).cs, TABLE_FRAMES)
  {
    hide Sound, Lookup, Shaped, HasTable, Housed, Tabled, SetPte;
    var f := FirstFree(s.cs);
    LostSound(s, f);
    if !HasTable(s.spaces[a], vpn) && FirstRunHolds(Lost(s, f).cs, TABLE_FRAMES) {
      LostSame(s, f);
      TabledBase(Lost(s, f), a, vpn);
      TabledSound(Lost(s, f), a, vpn, f);
    }
  }

  /** Such a case: the only frame left goes to the page, and there is none for its table. */
  lemma FrameLost() returns (s: State, a: nat)
    ensures Sound(s) && Well(s) && a in s.spaces && !At(s, a, 0).valid
    ensures |s.cs| == 2 && !s.cs[1].inuse && GrowTo(s, a, 0).cs[1].inuse && Loose(GrowTo(s, a, 0), 1)
  {
    var boot := State([FREE, FREE], PAGE, map[], map[]);
    assert Sound(boot);
    s, a := Created(boot), 0;
    CreatedSound(boot);
    assert FirstFree(boot.cs) == 0 && s.cs[0].inuse && !s.cs[1].inuse;
    SoundParts(s);
    FirstFreeIs(s.cs, 1);
    FirstFreeIs(Lost(s, 1).cs, 2);
    GrowLoses(s, a, 0);
  }

  /** With memory from one megabyte on, the first page mapped is entered at an address below it. */
  lemma HighFrame() returns (s: State, a: nat)
    ensures Sound(s) && Well(s) && a in s.spaces && At(s, a, 0).frame == Frame(1)
    ensures s.base == FIELD && At(s, a, 0).addr == PAGE
  {
    hide Sound, Lookup, Shaped, HasTable, Loose, Tabled, MapAt;
    var boot := State([FREE, FREE, FREE, FREE], FIELD, map[], map[]);
    BootSound(4, FIELD);
    assert boot.cs == seq(4, _ => FREE);
    var u := Created(boot);
    a := 0;
    CreatedSound(boot);
    FirstFreeIs(boot.cs, 0);
    assert u.cs[0].inuse && !u.cs[1].inuse && !u.cs[2].inuse && !u.cs[3].inuse;
    SoundParts(u);
    FirstFreeIs(u.cs, 1);
    FirstFreeIs(Lost(u, 1).cs, 2);
    FreshSpace(u, a);
    GrowSound(u, a, 0);
    GrowRuns(u, a, 0);
    s := GrowTo(u, a, 0);
    FirstAddress();
  }

  lemma FreshSpace(s: State, a: nat)
    requires Well(s) && a in s.spaces && s.spaces[a] == Space(seq(LEVEL1, _ => NoTable))
    ensures !At(s, a, 0).valid
  {
  }

  lemma FirstAddress()
    ensures (FIELD + 1 * PAGE) % FIELD == PAGE
  {
  }

  /** No page, of any address space, is mapped to a frame of an address space or of a second-level table. */
  lemma TablesAreNoPages(s: State, a: nat, v: nat, b: nat, l: nat)
    requires Sound(s) && Well(s) && a in s.spaces && v < PAGES && At(s, a, v).frame.Frame? && b in s.spaces
    requires l < LEVEL1
    ensures At(s, a, v).frame.i != b
    ensures TableAt(s, b, l) >= 0 ==> !(TableAt(s, b, l) <= At(s, a, v).frame.i < TableAt(s, b, l) + TABLE_FRAMES)
  {
    hide Mapped, Back, RunOk, Lookup, Shaped;
    UserOrKernel(s, a, v, b);
    if TableAt(s, b, l) >= 0 {
      UserOrKernel(s, a, v, TableAt(s, b, l));
    }
  }

  // What the operations do to the runs in kernel hands

  /** Where the second-level table goes that mapping a page needs. */
  function TableFor(s: State): nat {
    if FirstFree(s.cs) < |s.cs| then FirstFree(Lost(s, FirstFree(s.cs)).cs) else 0
  }

  predicate NeedsTable(s: State, a: nat, vpn: nat)
    requires Well(s) && a in s.spaces && vpn < PAGES
  {
    CanGrow(s, a, vpn) && !HasTable(s.spaces[a], vpn)
  }

  lemma GrowRuns(s: State, a: nat, vpn: nat)
    requires Sound(s) && Well(s) && a in s.spaces && vpn < PAGES && !At(s, a, vpn).valid
    ensures var t := GrowTo(s, a, vpn);
            && t.base == s.base && |t.cs| == |s.cs| && t.spaces.Keys == s.spaces.Keys && Well(t)
            && (if NeedsTable(s, a, vpn) then TableFor(s) !in s.runs && t.runs == s.runs[TableFor(s) := TABLE_FRAMES]
                 else t.runs == s.runs)
            && forall x :: Pinned(t, x) <==> Pinned(s, x) || (NeedsTable(s, a, vpn) && x == TableFor(s))
  {
    hide Sound, Lookup, Shaped, HasTable, Housed, Loose, Tabled, MapAt, Pinned;
    GrowSound(s, a, vpn);
    var f := FirstFree(s.cs);
    if f < |s.cs| {
      LostSound(s, f);
      LostSame(s, f);
      LostPins(s, f);
      SoundParts(s);
      if HasTable(s.spaces[a], vpn) {
        MapAtPins(s, a, vpn, f);
      } else if FirstRunHolds(Lost(s, f).cs, TABLE_FRAMES) {
        FreeIsLoose(s, f);
        TabledSound(Lost(s, f), a, vpn, f);
        TabledPins(Lost(s, f), a, vpn);
        SoundParts(Tabled(Lost(s, f), a, vpn));
        MapAtPins(Tabled(Lost(s, f), a, vpn), a, vpn, f);
      }
    }
  }

  /** Pins are where the address spaces and the tables are. */
  lemma PinsOf(s: State, t: State, made: int)
    requires Well(s) && Well(t) && t.spaces.Keys == s.spaces.Keys
    requires forall b, l :: b in s.spaces && 0 <= l < LEVEL1 ==>
               TableAt(t, b, l) == TableAt(s, b, l) || (TableAt(s, b, l) == -1 && TableAt(t, b, l) == made)
    requires made >= 0 ==> exists b, l :: b in t.spaces && 0 <= l < LEVEL1 && TableAt(t, b, l) == made
    ensures forall x :: Pinned(t, x) <==> Pinned(s, x) || x == made
  {
    hide Well, TableAt;
    forall x ensures Pinned(t, x) <==> Pinned(s, x) || x == made {
      if Pinned(s, x) && x !in s.spaces {
        var b, l :| b in s.spaces && 0 <= l < LEVEL1 && TableAt(s, b, l) == x;
        assert TableAt(t, b, l) == x;
      }
      if Pinned(t, x) && x !in t.spaces {
        var b, l :| b in t.spaces && 0 <= l < LEVEL1 && TableAt(t, b, l) == x;
        assert TableAt(s, b, l) == x || x == made;
      }
    }
  }

  lemma LostPins(s: State, f: nat)
    requires Well(s) && f < |s.cs|
    ensures Well(Lost(s, f)) && forall x :: Pinned(Lost(s, f), x) <==> Pinned(s, x)
  {
    hide Shaped, Pinned;
    SameTables(s, Lost(s, f));
    PinsOf(s, Lost(s, f), -1);
  }

  lemma MapAtPins(s: State, a: nat, vpn: nat, f: nat)
    requires Well(s) && Housed(s) && a in s.spaces && vpn < PAGES && f < |s.cs| && HasTable(s.spaces[a], vpn)
    ensures var t := MapAt(s, a, vpn, f);
            && Well(t) && t.runs == s.runs && t.base == s.base && |t.cs| == |s.cs| && t.spaces.Keys == s.spaces.Keys
            && forall x :: Pinned(t, x) <==> Pinned(s, x)
  {
    hide Shaped, Pinned, Housed, TableAt, HasTable, SetPte;
    MapAtHoused(s, a, vpn, f);
    PinsOf(s, MapAt(s, a, vpn, f), -1);
  }

  lemma TabledPins(s: State, a: nat, vpn: nat)
    requires Sound(s) && Well(s) && a in s.spaces && vpn < PAGES && !HasTable(s.spaces[a], vpn)
    requires FirstRunHolds(s.cs, TABLE_FRAMES)
    ensures var t := Tabled(s, a, vpn);
            && Well(t) && FirstFree(s.cs) !in s.runs && t.runs == s.runs[FirstFree(s.cs) := TABLE_FRAMES]
            && t.base == s.base
            && |t.cs| == |s.cs| && t.spaces.Keys == s.spaces.Keys
            && forall x :: Pinned(t, x) <==> Pinned(s, x) || x == FirstFree(s.cs)
  {
    hide Sound, Shaped, Pinned, Housed, TableAt, SetTable, FirstFree, Taken;
    var k, i := KAlloc(s, TABLE_FRAMES), FirstFree(s.cs);
    KAllocHoused(s, TABLE_FRAMES);
    NewRunIs(s, TABLE_FRAMES);
    WithTableHoused(k, a, vpn, i);
    SameTables(s, k);
    TableWas(s, a, vpn);
    assert TableAt(Tabled(s, a, vpn), a, vpn / LEVEL2) == i;
    PinsOf(s, Tabled(s, a, vpn), i);
  }

  lemma TableWas(s: State, a: nat, vpn: nat)
    requires Well(s) && a in s.spaces && vpn < PAGES && !HasTable(s.spaces[a], vpn)
    ensures TableAt(s, a, vpn / LEVEL2) == -1
  {
  }

  lemma CreatedRuns(s: State)
    requires Sound(s)
    ensures var t, i := Created(s), FirstFree(s.cs);
            && Well(s) && Well(t) && t.base == s.base && |t.cs| == |s.cs|
            && if FirstRunHolds(s.cs, SPACE_FRAMES) then
                 && i !in s.runs && t.runs == s.runs[i := SPACE_FRAMES]
                 && forall x :: Pinned(t, x) <==> Pinned(s, x) || x == i
               else t == s
  {
    hide Sound, Housed, Taken, FirstFree;
    SoundParts(s);
    if FirstRunHolds(s.cs, SPACE_FRAMES) {
      KAllocHoused(s, SPACE_FRAMES);
      SameTables(s, KAlloc(s, SPACE_FRAMES));
      NewSpacePins(KAlloc(s, SPACE_FRAMES), FirstFree(s.cs));
      PinsOf(s, KAlloc(s, SPACE_FRAMES), -1);
    }
  }

  lemma NewSpacePins(s: State, a: nat)
    requires Well(s) && !Pinned(s, a)
    ensures var t := s.(spaces := s.spaces[a := Space(seq(LEVEL1, _ => NoTable))]);
            Well(t) && forall x :: Pinned(t, x) <==> Pinned(s, x) || x == a
  {
    var t := s.(spaces := s.spaces[a := Space(seq(LEVEL1, _ => NoTable))]);
    assert Well(t);
    hide Well;
    forall b, l | b in t.spaces && 0 <= l < LEVEL1
      ensures TableAt(t, b, l) == if b == a then -1 else TableAt(s, b, l)
    {
    }
    hide TableAt;
    forall x ensures Pinned(t, x) <==> Pinned(s, x) || x == a {
      if Pinned(s, x) && x !in s.spaces {
        var b, l :| b in s.spaces && 0 <= l < LEVEL1 && TableAt(s, b, l) == x;
        assert TableAt(t, b, l) == x;
      }
    }
  }

  lemma DestroyedRuns(s: State, a: nat)
    requires Sound(s) && a in s.spaces
    ensures a < |s.cs| && Well(s)
    ensures var t := Destroyed(s, a);
            && Well(t) && t.base == s.base && |t.cs| == |s.cs| && t.runs == s.runs - {a}
            && forall x :: Pinned(t, x) ==> Pinned(s, x)
  {
    hide Sound, Housed, GivenBack, Shaped;
    SpaceBound(s, a);
    var t := Destroyed(s, a);
    assert Well(t);
    forall b, l | b in t.spaces && 0 <= l < LEVEL1 ensures TableAt(t, b, l) == TableAt(s, b, l) {
    }
    hide TableAt;
  }

  function Do(s: State, op: Op): State
    requires Allowed(s, op)
  {
    match op
    case KernelAlloc(n) => KAlloc(s, n)
    case KernelFree(i) => KFree(s, i)
    case NewSpace => Created(s)
    case Grow(a, vpn) => GrowTo(s, a, vpn)
    case DropSpace(a) => Destroyed(s, a)
  }

  lemma DoSound(s: State, op: Op)
    requires Sound(s) && Allowed(s, op)
    ensures Sound(Do(s, op))
  {
    hide Sound, KAlloc, KFree, Created, GrowTo, Destroyed, Lookup, Shaped;
    match op {
      case KernelAlloc(n) => KAllocSound(s, n);
      case KernelFree(i) => KFreeSound(s, i);
      case NewSpace => CreatedSound(s);
      case DropSpace(a) => DestroyedSound(s, a);
      case Grow(a, vpn) => GrowSound(s, a, vpn);
    }
  }

  ghost predicate IsRun(s: State, ops: seq<Op>)
    decreases |ops|
  {
    ops == [] || (Allowed(s, ops[0]) && IsRun(Do(s, ops[0]), ops[1..]))
  }

  ghost function After(s: State, ops: seq<Op>): State
    requires IsRun(s, ops)
    decreases |ops|
  {
    if ops == [] then s else After(Do(s, ops[0]), ops[1..])
  }

  /** However kernel and user pages come and go, every frame has one use and every page entry is exact. */
  lemma {:induction false} RunSound(s: State, ops: seq<Op>)
    requires Sound(s) && IsRun(s, ops)
    ensures Sound(After(s, ops))
    decreases |ops|
  {
    hide Sound, Allowed, Do;
    if ops != [] {
      DoSound(s, ops[0]);
      RunSound(Do(s, ops[0]), ops[1..]);
    }
  }

  lemma BootSound(n: nat, base: nat)
    ensures Sound(State(seq(n, _ => FREE), base, map[], map[]))
  {
  }
}
