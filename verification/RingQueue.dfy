/**
 The kernel's queue: a ring of slots that grows by doubling, one slot always left empty.
 */
module RingQueue {

  /** The items of a ring, from the next to read up to the next to write. */
  function Items<T>(data: seq<T>, from: nat, to: nat): (s: seq<T>)
    requires from < |data| && to < |data|
    ensures |s| == (if from <= to then to - from else to + |data| - from) < |data|
  {
    if from <= to then data[from..to] else data[from..] + data[..to]
  }

  function Next(i: nat, size: nat): (j: nat)
    requires i < size
    ensures j < size && j == if i + 1 == size then 0 else i + 1
  {
    (i + 1) % size
  }

  lemma ItemsAppend<T>(data: seq<T>, from: nat, to: nat, x: T)
    requires from < |data| && to < |data| && Next(to, |data|) != from
    ensures Items(data[to := x], from, Next(to, |data|)) == Items(data, from, to) + [x]
  {
  }

  lemma ItemsDrop<T>(data: seq<T>, from: nat, to: nat)
    requires from < |data| && to < |data| && from != to
    ensures Items(data, from, to) == [data[from]] + Items(data, Next(from, |data|), to)
  {
  }

  /** A ring is full exactly when it holds one item less than it has slots. */
  lemma FullIsOneLess<T>(data: seq<T>, from: nat, to: nat)
    requires from < |data| && to < |data|
    ensures Next(to, |data|) == from <==> |Items(data, from, to)| == |data| - 1
  {
  }

  /** Doubling until the target is reached. */
  function Grown(size: nat, target: nat): (n: nat)
    requires size > 0
    ensures n >= target && n >= size
    decreases target - size
  {
    if size < target then Grown(2 * size, target) else size
  }

  method DoubleUp(size: nat, targetsize: nat) returns (nsize: nat)
    requires size > 0
    ensures nsize == Grown(size, targetsize)
  {
    nsize := size;
    while nsize < targetsize
      invariant nsize >= size && Grown(nsize, targetsize) == Grown(size, targetsize)
    {
      nsize := nsize * 2;
      assert nsize > 0;
    }
  }

  class Queue<T(0)> {
    var size: nat
    var nextwrite: nat
    var nextread: nat
    var data: array<T>

    ghost predicate Valid()
      reads this
    {
      size > 0 && data.Length == size && nextread < size && nextwrite < size
    }

    ghost function Contents(): seq<T>
      requires Valid()
      reads this, data
    {
      Items(data[..], nextread, nextwrite)
    }

    predicate Full()
      requires Valid()
      reads this
    {
      Next(nextwrite, size) == nextread
    }

    constructor (size: nat)
      requires size > 0
      ensures Valid() && Contents() == [] && this.size == size && fresh(data)
    {
      this.size := size;
      data := new T[size];
      nextread, nextwrite := 0, 0;
    }

    /**
     q_grow: the items in order in a larger ring.  Every item put back finds room, so the calls
     of AddTail do not grow the ring again.
     */
    method Grow(targetsize: nat, memory: bool) returns (ok: bool)
      requires Valid()
      modifies this
      ensures Valid() && ok == memory && Contents() == old(Contents())
      ensures if ok then size == Grown(old(size), targetsize) && fresh(data) else unchanged(this)
      decreases 1
    {
      hide Items, Next, Grown;
      var olddata, onr, onw, osize := data, nextread, nextwrite, size;
      var nsize := DoubleUp(size, targetsize);
      if !memory {
        return false;
      }
      ghost var was := olddata[..];
      var ndata := new T[nsize];
      size, data := nsize, ndata;
      nextread, nextwrite := 0, 0;
      var i := onr;
      assert Items(data[..], 0, 0) == [];
      while i != onw
        invariant Valid() && i < osize && size == nsize && data == ndata && olddata[..] == was
        invariant Items(was, onr, onw) == Contents() + Items(was, i, onw)
        decreases |Items(was, i, onw)|
      {
        ItemsDrop(was, i, onw);
        NotFull();
        var result := AddTail(olddata[i], memory);
        assert result;
        i := Next(i, osize);
      }
      ok := true;
    }

    lemma NotFull()
      requires Valid() && |Contents()| + 1 < size
      ensures !Full()
    {
      FullIsOneLess(data[..], nextread, nextwrite);
    }

    /** q_preallocate: afterwards `n - 1` items fit without memory. */
    method Preallocate(n: nat, memory: bool) returns (ok: bool)
      requires Valid()
      modifies this
      ensures Valid() && Contents() == old(Contents())
      ensures ok <==> memory || n <= old(size)
      ensures if ok && n > old(size) then size == Grown(old(size), n) && fresh(data) else unchanged(this)
    {
      ok := true;
      if n > size {
        ok := Grow(n, memory);
      }
    }

    predicate Empty()
      requires Valid()
      reads this
    {
      nextwrite == nextread
    }

    /** q_addtail: needs memory exactly when the ring is full. */
    method AddTail(x: T, memory: bool) returns (ok: bool)
      requires Valid()
      modifies this, data
      ensures Valid() && (ok <==> memory || !old(Full()))
      ensures Contents() == if ok then old(Contents()) + [x] else old(Contents())
      ensures if old(Full()) && ok then size == Grown(old(size), old(size) + 1) && fresh(data)
              else size == old(size) && data == old(data)
      decreases if Full() then 2 else 0
    {
      hide Items, Grown;
      var nextnext := (nextwrite + 1) % size;
      if nextnext == nextread {
        FullIsOneLess(data[..], nextread, nextwrite);
        var result := Grow(size + 1, memory);
        if !result {
          return false;
        }
        FullIsOneLess(data[..], nextread, nextwrite);
        nextnext := (nextwrite + 1) % size;
      }
      ItemsAppend(data[..], nextread, nextwrite, x);
      data[nextwrite] := x;
      nextwrite := nextnext;
      ok := true;
    }

    /** q_remhead */
    method RemHead() returns (x: T)
      requires Valid() && !Empty()
      modifies this`nextread
      ensures Valid() && old(Contents()) == [x] + Contents()
    {
      ItemsDrop(data[..], nextread, nextwrite);
      x := data[nextread];
      nextread := (nextread + 1) % size;
    }
  }
}
