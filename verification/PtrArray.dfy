/**
 The kernel's growing array of pointers.
 */
module PtrArrays {

  /** The capacity after making room for `n`. */
  function Room(max: nat, n: nat): (r: nat)
    ensures r >= n && r >= max && (n <= max ==> r == max)
    decreases n - max
  {
    if n > max then Room((max + 1) * 2, n) else max
  }

  function Without<T>(s: seq<T>, i: nat): (r: seq<T>)
    requires i < |s|
    ensures |r| == |s| - 1
  {
    s[..i] + s[i + 1..]
  }

  class PtrArray<T(0)> {
    var num: nat
    var max: nat
    var v: array<T>

    ghost predicate Valid()
      reads this
    {
      num <= max && v.Length == max
    }

    ghost function Contents(): (s: seq<T>)
      requires Valid()
      reads this, v
      ensures |s| == num
    {
      v[..num]
    }

    constructor ()
      ensures Valid() && Contents() == [] && max == 0 && fresh(v)
    {
      num, max := 0, 0;
      v := new T[0];
    }

    /** array_preallocate: always takes new storage, even if the old one is large enough. */
    method Preallocate(nguys: nat, memory: bool) returns (ok: bool)
      requires Valid()
      modifies this`max, this`v
      ensures Valid() && ok == memory && Contents() == old(Contents())
      ensures if ok then max == Room(old(max), nguys) && fresh(v) else unchanged(this)
    {
      var newmax := max;
      while nguys > newmax
        invariant newmax >= max && Room(newmax, nguys) == Room(max, nguys)
      {
        newmax := (newmax + 1) * 2;
      }
      if !memory {
        return false;
      }
      var newv := new T[newmax];
      max := newmax;
      for i := 0 to num
        invariant v == old(v) && max == newmax
        invariant newv[..i] == v[..i]
      {
        newv[i] := v[i];
      }
      v := newv;
      ok := true;
    }

    /** array_setsize: emptying an array drops a storage of more than 16 slots. */
    method SetSize(nguys: nat, memory: bool) returns (ok: bool)
      requires Valid()
      modifies this
      ensures Valid() && (ok <==> memory || nguys <= old(max))
      ensures !ok ==> unchanged(this)
      ensures ok ==> num == nguys
      ensures ok ==>
                max == if nguys > old(max) then Room(old(max), nguys)
                       else if nguys == 0 && old(max) > 16 then 0 else old(max)
      ensures ok ==> forall i :: 0 <= i < nguys && i < old(num) ==> v[i] == old(v[i])
      ensures max == old(max) ==> v == old(v)
      ensures v != old(v) ==> fresh(v)
    {
      if nguys > max {
        ghost var was := Contents();
        var result := Preallocate(nguys, memory);
        if !result {
          return false;
        }
        assert forall i :: 0 <= i < num ==> v[i] == Contents()[i] == was[i];
      } else if nguys == 0 && max > 16 {
        v := new T[0];
        max := 0;
      }
      num := nguys;
      ok := true;
    }

    /** array_add: needs memory exactly when every slot is taken. */
    method Add(guy: T, memory: bool) returns (ok: bool)
      requires Valid()
      modifies this, v
      ensures Valid() && (ok <==> memory || old(num) < old(max))
      ensures Contents() == if ok then old(Contents()) + [guy] else old(Contents())
      ensures max == if ok then Room(old(max), old(num) + 1) else old(max)
      ensures old(num) < old(max) ==> v == old(v)
      ensures v != old(v) ==> fresh(v)
    {
      var ix := num;
      ghost var was := Contents();
      var result := SetSize(ix + 1, memory);
      if !result {
        return false;
      }
      assert forall i :: 0 <= i < ix ==> v[i] == was[i];
      v[ix] := guy;
      ok := true;
    }

    /** array_remove: the items above move down one. */
    method Remove(index: nat)
      requires Valid() && index < num
      modifies this`num, v
      ensures Valid() && Contents() == Without(old(Contents()), index)
    {
      var nmove := num - (index + 1);
      ghost var was := Contents();
      for i := 0 to nmove
        invariant num == old(num)
        invariant forall j :: 0 <= j < index || index + i < j < num ==> v[j] == was[j]
        invariant forall j :: index < j <= index + i ==> v[j - 1] == was[j]
      {
        v[index + i] := v[index + 1 + i];
      }
      num := num - 1;
      forall j | 0 <= j < num ensures Contents()[j] == Without(was, index)[j] {
        if j >= index { assert v[j] == was[j + 1]; }
      }
    }
  }
}
