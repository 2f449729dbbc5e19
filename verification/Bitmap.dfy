/**
 Arrays of bits, stored eight to a byte as they are on the disk.
 */
module Bitmap {

  function Mask(j: nat): bv8
    requires j < 8
  {
    1 << j
  }

  predicate BitSet(w: bv8, j: nat)
    requires j < 8
  {
    w & Mask(j) != 0
  }

  lemma MaskValue(j: nat)
    requires j < 8
    ensures Mask(j) == match j case 0 => 1 case 1 => 2 case 2 => 4 case 3 => 8
                               case 4 => 16 case 5 => 32 case 6 => 64 case _ => 128
  {
    if j == 0 {} else if j == 1 {} else if j == 2 {} else if j == 3 {}
    else if j == 4 {} else if j == 5 {} else if j == 6 {} else { assert j == 7; }
  }

  lemma OrSets(w: bv8, j: nat, k: nat)
    requires j < 8 && k < 8
    ensures BitSet(w | Mask(j), k) <==> k == j || BitSet(w, k)
  {
    MaskValue(j);
    MaskValue(k);
  }

  lemma AndClears(w: bv8, j: nat, k: nat)
    requires j < 8 && k < 8
    ensures BitSet(w & !Mask(j), k) <==> k != j && BitSet(w, k)
  {
    MaskValue(j);
    MaskValue(k);
  }

  lemma FullByte(w: bv8)
    ensures w == 0xff <==> forall j :: 0 <= j < 8 ==> BitSet(w, j)
  {
    MaskValue(0); MaskValue(1); MaskValue(2); MaskValue(3);
    MaskValue(4); MaskValue(5); MaskValue(6); MaskValue(7);
    if forall j :: 0 <= j < 8 ==> BitSet(w, j) {
      assert BitSet(w, 0) && BitSet(w, 1) && BitSet(w, 2) && BitSet(w, 3);
      assert BitSet(w, 4) && BitSet(w, 5) && BitSet(w, 6) && BitSet(w, 7);
    } else if w == 0xff {
      forall j | 0 <= j < 8 ensures BitSet(w, j) { MaskValue(j); }
    }
  }

  /** The bits of a row of bytes, lowest bit of the first byte first. */
  ghost function Bits(v: seq<bv8>): (s: seq<bool>)
    ensures |s| == 8 * |v|
  {
    seq(8 * |v|, i requires 0 <= i < 8 * |v| => BitSet(v[i / 8], i % 8))
  }

  /** The index of the first clear bit, or the length if all are set. */
  function FirstClear(s: seq<bool>): (i: nat)
    ensures i <= |s| && (i < |s| ==> !s[i])
    ensures forall k :: 0 <= k < i ==> s[k]
  {
    if s == [] || !s[0] then 0 else 1 + FirstClear(s[1..])
  }

  lemma FirstClearIs(s: seq<bool>, i: nat)
    requires i <= |s| && (i < |s| ==> !s[i]) && forall k :: 0 <= k < i ==> s[k]
    ensures FirstClear(s) == i
  {
    var j := FirstClear(s);
    assert !(j < i) && !(i < j);
  }

  lemma BitsUpdate(v: seq<bv8>, ix: nat, j: nat, w: bv8, b: bool)
    requires ix < |v| && j < 8
    requires forall k :: 0 <= k < 8 ==> (BitSet(w, k) <==> if k == j then b else BitSet(v[ix], k))
    ensures Bits(v[ix := w]) == Bits(v)[8 * ix + j := b]
  {
    var was, now := Bits(v), Bits(v[ix := w]);
    forall i | 0 <= i < |was| ensures now[i] == was[8 * ix + j := b][i] {
      assert now[i] == BitSet(v[ix := w][i / 8], i % 8);
    }
  }

  lemma BitIs(v: seq<bv8>, i: nat)
    requires i < 8 * |v|
    ensures Bits(v)[i] <==> v[i / 8] & Mask(i % 8) != 0
    ensures BitSet(v[i / 8], i % 8) <==> v[i / 8] & Mask(i % 8) != 0
  {
  }

  lemma MarkBits(v: seq<bv8>, ix: nat, j: nat)
    requires ix < |v| && j < 8
    ensures Bits(v[ix := v[ix] | Mask(j)]) == Bits(v)[8 * ix + j := true]
  {
    forall k | 0 <= k < 8 ensures BitSet(v[ix] | Mask(j), k) <==> k == j || BitSet(v[ix], k) {
      OrSets(v[ix], j, k);
    }
    BitsUpdate(v, ix, j, v[ix] | Mask(j), true);
  }

  lemma ClearBits(v: seq<bv8>, ix: nat, j: nat)
    requires ix < |v| && j < 8
    ensures Bits(v[ix := v[ix] & !Mask(j)]) == Bits(v)[8 * ix + j := false]
  {
    forall k | 0 <= k < 8 ensures BitSet(v[ix] & !Mask(j), k) <==> k != j && BitSet(v[ix], k) {
      AndClears(v[ix], j, k);
    }
    BitsUpdate(v, ix, j, v[ix] & !Mask(j), false);
  }

  /** A clear bit with every bit before it set is the first clear one. */
  lemma FirstClearInByte(v: seq<bv8>, ix: nat, offset: nat)
    requires ix < |v| && offset < 8 && !BitSet(v[ix], offset)
    requires forall i :: 0 <= i < 8 * ix ==> Bits(v)[i]
    requires forall j :: 0 <= j < offset ==> BitSet(v[ix], j)
    ensures FirstClear(Bits(v)) == 8 * ix + offset && !Bits(v)[8 * ix + offset]
  {
    hide BitSet;
    var s, index := Bits(v), 8 * ix + offset;
    assert s[index] == BitSet(v[ix], offset);
    forall i | 0 <= i < index ensures s[i] {
      if i >= 8 * ix { assert s[i] == BitSet(v[ix], i - 8 * ix); }
    }
    FirstClearIs(s, index);
  }

  class BitArray {
    var nbits: nat
    var v: array<bv8>

    /** The bits past the end of the last byte are permanently in use. */
    ghost predicate Valid()
      reads this, v
    {
      && v.Length == (nbits + 7) / 8
      && forall i :: nbits <= i < 8 * v.Length ==> Bits(v[..])[i]
    }

    constructor (nbits: nat)
      ensures Valid() && fresh(v) && this.nbits == nbits
      ensures forall i :: 0 <= i < nbits ==> !Bits(v[..])[i]
    {
      this.nbits := nbits;
      var words := (nbits + 7) / 8;
      v := new bv8[words](_ => 0);
      new;
      forall i | 0 <= i < 8 * words ensures !Bits(v[..])[i] { MaskValue(i % 8); }
      if nbits / 8 < words {
        var ix := words - 1;
        var overbits := nbits - ix * 8;
        assert nbits / 8 == words - 1;
        assert 0 < overbits < 8;
        for j := overbits to 8
          invariant v.Length == words && fresh(v) && this.nbits == nbits
          invariant forall i :: 0 <= i < 8 * words ==> (Bits(v[..])[i] <==> nbits <= i < 8 * ix + j)
        {
          SetBit(ix, j);
        }
      }
    }

    /** bitmap_alloc: take the lowest clear bit; fails only when every bit is set. */
    method Alloc() returns (ok: bool, index: nat)
      requires Valid()
      modifies v
      ensures Valid()
      ensures ok <==> exists i :: 0 <= i < nbits && !old(Bits(v[..]))[i]
      ensures ok ==> index == FirstClear(old(Bits(v[..]))) < nbits && Bits(v[..]) == old(Bits(v[..]))[index := true]
      ensures !ok ==> v[..] == old(v[..])
    {
      var maxix := (nbits + 7) / 8;
      for ix := 0 to maxix
        invariant v[..] == old(v[..])
        invariant forall i :: 0 <= i < 8 * ix ==> Bits(v[..])[i]
      {
        FullByte(v[ix]);
        if v[ix] != 0xff {
          ok, index := AllocIn(ix);
          return;
        }
        forall i | 8 * ix <= i < 8 * (ix + 1) ensures Bits(v[..])[i] { assert BitSet(v[ix], i % 8); }
      }
      return false, 0;
    }

    /** b->v[ix] |= mask */
    method SetBit(ix: nat, offset: nat)
      requires ix < v.Length && offset < 8
      modifies v
      ensures Bits(v[..]) == old(Bits(v[..]))[8 * ix + offset := true]
    {
      hide Bits, BitSet, Mask;
      ghost var was := v[..];
      MarkBits(was, ix, offset);
      v[ix] := v[ix] | Mask(offset);
      assert v[..] == was[ix := was[ix] | Mask(offset)];
    }

    /** The inner scan: some bit of this byte is clear, so the scan cannot fall through. */
    method AllocIn(ix: nat) returns (ok: bool, index: nat)
      requires Valid() && ix < v.Length && v[ix] != 0xff
      requires forall i :: 0 <= i < 8 * ix ==> Bits(v[..])[i]
      modifies v
      ensures Valid() && ok
      ensures index == FirstClear(old(Bits(v[..]))) < nbits && Bits(v[..]) == old(Bits(v[..]))[index := true]
    {
      hide Bits, BitSet, Mask, FirstClear;
      for offset := 0 to 8
        invariant v[..] == old(v[..])
        invariant forall j :: 0 <= j < offset ==> BitSet(v[ix], j)
      {
        var mask := Mask(offset);
        BitIs(v[..], 8 * ix + offset);
        if v[ix] & mask == 0 {
          index := ix * 8 + offset;
          FirstClearInByte(v[..], ix, offset);
          assert index < nbits;
          SetBit(ix, offset);
          return true, index;
        }
      }
      FullByte(v[ix]);
      assert false;
    }

    method Mark(index: nat)
      requires Valid() && index < nbits && !Bits(v[..])[index]
      modifies v
      ensures Valid() && Bits(v[..]) == old(Bits(v[..]))[index := true]
    {
      SetBit(index / 8, index % 8);
    }

    /** bitmap_unmark undoes bitmap_mark: it clears one set bit. */
    method Unmark(index: nat)
      requires Valid() && index < nbits && Bits(v[..])[index]
      modifies v
      ensures Valid() && Bits(v[..]) == old(Bits(v[..]))[index := false]
    {
      hide Bits, BitSet, Mask;
      var ix, offset := index / 8, index % 8;
      ghost var was := v[..];
      ClearBits(was, ix, offset);
      v[ix] := v[ix] & !Mask(offset);
      assert v[..] == was[ix := was[ix] & !Mask(offset)];
    }

    method IsSet(index: nat) returns (r: bool)
      requires Valid() && index < nbits
      ensures r == Bits(v[..])[index]
    {
      r := v[index / 8] & Mask(index % 8) != 0;
    }
  }
}
