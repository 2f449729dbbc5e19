/**
 Physical memory: the coremap, with one entry per page frame, and the two ways frames are
 handed out.
 */
module Coremap {

  const PAGE := 4096

  /** The page-table entry that maps a frame: address space and virtual page number. */
  datatype Owner = None | Pte(asid: nat, vpn: nat)

  datatype Entry = Entry(inuse: bool, continuous: nat, owner: Owner)

  const FREE := Entry(false, 0, None)

  // ---------------------------------------------------------------------------------------
  // Runs of frames

  /** The first free frame, or the number of frames. */
  function FirstFree(cs: seq<Entry>): (i: nat)
    ensures i <= |cs| && (i < |cs| ==> !cs[i].inuse)
    ensures forall k :: 0 <= k < i ==> cs[k].inuse
  {
    if cs == [] || !cs[0].inuse then 0 else 1 + FirstFree(cs[1..])
  }

  lemma FirstFreeIs(cs: seq<Entry>, i: nat)
    requires i <= |cs| && (i < |cs| ==> !cs[i].inuse) && forall k :: 0 <= k < i ==> cs[k].inuse
    ensures FirstFree(cs) == i
  {
    var j := FirstFree(cs);
    assert !(j < i) && !(i < j);
  }

  predicate AllFree(cs: seq<Entry>, i: nat, n: nat) {
    i + n <= |cs| && forall k :: i <= k < i + n ==> !cs[k].inuse
  }

  /** `n` frames from the first free one on are free; a request for none still needs one. */
  predicate FirstRunHolds(cs: seq<Entry>, n: nat) {
    AllFree(cs, FirstFree(cs), if n == 0 then 1 else n)
  }

  /** Frames `i` up to `i + n` taken, the length noted in the first. */
  function Taken(cs: seq<Entry>, i: nat, n: nat): (r: seq<Entry>)
    ensures |r| == |cs|
  {
    seq(|cs|, k requires 0 <= k < |cs| =>
      cs[k].(inuse := if i <= k < i + n then true else cs[k].inuse,
        continuous := if k == i then n else cs[k].continuous))
  }

  /** The run that starts at `i` given back. */
  function GivenBack(cs: seq<Entry>, i: nat): (r: seq<Entry>)
    requires i < |cs|
    ensures |r| == |cs|
  {
    seq(|cs|, k requires 0 <= k < |cs| =>
      cs[k].(inuse := if i <= k < i + cs[i].continuous then false else cs[k].inuse,
        continuous := if k == i then 0 else cs[k].continuous))
  }

  /** free_kpages undoes getppages exactly. */
  lemma TakeThenGiveBack(cs: seq<Entry>, i: nat, n: nat)
    requires AllFree(cs, i, n) && i < |cs| && cs[i].continuous == 0
    ensures GivenBack(Taken(cs, i, n), i) == cs
  {
    var t := Taken(cs, i, n);
    assert t[i].continuous == n;
    forall k | 0 <= k < |cs| ensures GivenBack(t, i)[k] == cs[k] {
    }
  }

  class Frames {
    var cs: array<Entry>
    var base: nat // the address of the first frame

    constructor (n: nat, base: nat)
      ensures fresh(cs) && cs.Length == n && this.base == base && forall k :: 0 <= k < n ==> cs[k] == FREE
    {
      cs := new Entry[n](_ => FREE);
      this.base := base;
    }

    /**
     getppages: the first free run is taken if it is long enough; otherwise nothing changes,
     even if there is a longer run further up.
     */
    method GetPpages(npages: nat) returns (addr: nat)
      requires base > 0
      modifies cs
      ensures addr != 0 <==> FirstRunHolds(old(cs[..]), npages)
      ensures addr == 0 ==> cs[..] == old(cs[..])
      ensures addr != 0 ==>
                var i := FirstFree(old(cs[..])); addr == base + i * PAGE && cs[..] == Taken(old(cs[..]), i, npages)
    {
      var lcr, counter := 0, 0;
      ghost var was := cs[..];
      while lcr < cs.Length && cs[lcr].inuse
        invariant lcr <= cs.Length && forall k :: 0 <= k < lcr ==> was[k].inuse
      {
        lcr := lcr + 1;
      }
      var freepgstart := lcr;
      FirstFreeIs(was, lcr);
      while lcr < cs.Length && !cs[lcr].inuse
        invariant freepgstart <= lcr <= cs.Length && counter == lcr - freepgstart && cs[..] == was
        invariant AllFree(was, freepgstart, counter) && (counter > 0 ==> counter < npages)
        decreases cs.Length - lcr
      {
        counter := counter + 1;
        if counter >= npages {
          addr := base + freepgstart * PAGE;
          MarkRun(freepgstart, npages);
          return;
        }
        lcr := lcr + 1;
      }
      addr := 0;
    }

    /** The marking loop of getppages. */
    method MarkRun(start: nat, npages: nat)
      requires start < cs.Length && start + npages <= cs.Length
      modifies cs
      ensures cs[..] == Taken(old(cs[..]), start, npages)
    {
      cs[start] := cs[start].(continuous := npages);
      for counter := 0 to npages
        invariant forall k :: 0 <= k < cs.Length ==>
                    cs[k] == old(cs[k]).(inuse := if start <= k < start + counter then true else old(cs[k]).inuse,
                                         continuous := if k == start then npages else old(cs[k]).continuous)
      {
        cs[start + counter] := cs[start + counter].(inuse := true);
      }
    }

    /** free_kpages: as many frames as the entry says, which must not reach past the end. */
    method FreeKpages(addr: nat)
      requires base <= addr && (addr - base) / PAGE < cs.Length
      requires (addr - base) / PAGE + cs[(addr - base) / PAGE].continuous <= cs.Length
      modifies cs
      ensures cs[..] == GivenBack(old(cs[..]), (addr - base) / PAGE)
    {
      var i := (addr - base) / PAGE;
      var n := cs[i].continuous;
      for lcr := 0 to n
        invariant forall k :: 0 <= k < cs.Length ==>
                    cs[k] == old(cs[k]).(inuse := if i <= k < i + lcr then false else old(cs[k]).inuse)
      {
        cs[i + lcr] := cs[i + lcr].(inuse := false);
      }
      cs[i] := cs[i].(continuous := 0);
    }

    /** allocate_physical_page: the first free frame, if there is one. */
    method AllocatePage() returns (ok: bool, i: nat)
      modifies cs
      ensures ok <==> FirstFree(old(cs[..])) < cs.Length
      ensures ok ==> i == FirstFree(old(cs[..])) && cs[..] == old(cs[..])[i := old(cs[i]).(inuse := true)]
      ensures !ok ==> cs[..] == old(cs[..])
    {
      for k := 0 to cs.Length
        invariant cs[..] == old(cs[..]) && forall j :: 0 <= j < k ==> cs[j].inuse
      {
        if !cs[k].inuse {
          FirstFreeIs(cs[..], k);
          cs[k] := cs[k].(inuse := true);
          return true, k;
        }
      }
      FirstFreeIs(cs[..], cs.Length);
      return false, 0;
    }
  }

  /** Frames 2 and 3 are free, but frame 0 is too and frame 1 is not: a request for two is refused. */
  method LongerRunMissed() returns (f: Frames, addr: nat)
    ensures addr == 0 && AllFree(f.cs[..], 2, 2)
  {
    hide FirstRunHolds;
    f := new Frames(4, PAGE);
    var none := f.cs[..];
    FirstFreeIs(none, 0);
    assert FirstRunHolds(none, 1) by { FirstRunIs(none, 0, 1); }
    var a := f.GetPpages(1);
    var one := f.cs[..];
    FirstFreeIs(one, 1);
    assert FirstRunHolds(one, 1) by { FirstRunIs(one, 1, 1); }
    var b := f.GetPpages(1);
    f.FreeKpages(a);
    FirstFreeIs(f.cs[..], 0);
    assert f.cs[..][1].inuse;
    assert !FirstRunHolds(f.cs[..], 2) by { FirstRunIs(f.cs[..], 0, 2); }
    addr := f.GetPpages(2);
  }

  lemma FirstRunIs(cs: seq<Entry>, i: nat, n: nat)
    requires FirstFree(cs) == i && n > 0
    ensures FirstRunHolds(cs, n) <==> AllFree(cs, i, n)
  {
  }
}
