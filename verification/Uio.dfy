/**
 The transfer descriptor of an I/O request: where in memory the data goes or comes from,
 where in the object it belongs, and how much is left.
 */
module UioModel {
  import opened SfsLayout

  datatype Rw = Read | Write

  function Min(a: nat, b: nat): nat {
    if a < b then a else b
  }

  /** `s` with `data` laid over it from position `at`. */
  function Overlay(s: seq<Byte>, at: nat, data: seq<Byte>): (r: seq<Byte>)
    requires at + |data| <= |s|
    ensures |r| == |s|
  {
    s[..at] + data + s[at + |data|..]
  }

  /** Two transfers one after the other are one longer transfer. */
  lemma OverlayAppend(s: seq<Byte>, at: nat, a: seq<Byte>, b: seq<Byte>)
    requires at + |a| + |b| <= |s|
    ensures Overlay(Overlay(s, at, a), at + |a|, b) == Overlay(s, at, a + b)
  {
  }

  lemma OverlayNothing(s: seq<Byte>, at: nat)
    requires at <= |s|
    ensures Overlay(s, at, []) == s
  {
  }

  lemma SliceAppend(s: seq<Byte>, from: nat, p: nat, n: nat)
    requires from + p + n <= |s|
    ensures s[from..from + p] + s[from + p..from + p + n] == s[from..from + p + n]
  {
  }

  lemma ZerosAppend(a: nat, b: nat)
    requires b <= 16
    ensures Zeros(a) + Zeros(16)[..b] == Zeros(a + b)
  {
  }

  class Uio {
    var mem: seq<Byte>   // the memory the iovec points into
    var base: nat        // iov_kbase, an index into mem
    var len: nat         // iov_len
    var offset: nat
    var resid: nat
    const rw: Rw

    ghost predicate Valid()
      reads this
    {
      resid <= len && base + len <= |mem|
    }

    /** mk_kuio: a descriptor for the whole of `mem`. */
    constructor (mem: seq<Byte>, pos: nat, rw: Rw)
      ensures Valid() && this.mem == mem && base == 0 && len == |mem| && resid == |mem|
      ensures offset == pos && this.rw == rw
    {
      this.mem := mem;
      base := 0;
      len := |mem|;
      offset := pos;
      resid := |mem|;
      this.rw := rw;
    }

    /** The descriptor after `m` more bytes have gone through it. */
    twostate predicate Advanced(m: nat)
      reads this
    {
      && m <= old(resid) && resid == old(resid) - m && offset == old(offset) + m
      && base == old(base) + m && len == old(len) - m && |mem| == |old(mem)|
    }

    /** One turn of uiomove: `size` bytes between `out`, from position `p` on, and the described memory. */
    method Piece(buf: seq<Byte>, p: nat, size: nat) returns (out: seq<Byte>)
      requires Valid() && size <= resid && p + size <= |buf|
      modifies this
      ensures Valid() && Advanced(size)
      ensures rw.Read? ==> out == buf && mem == Overlay(old(mem), old(base), buf[p..p + size])
      ensures rw.Write? ==> mem == old(mem) && out == Overlay(buf, p, mem[old(base)..old(base) + size])
    {
      hide Overlay;
      out := buf;
      if rw.Read? {
        mem := Overlay(mem, base, buf[p..p + size]);
      } else {
        out := Overlay(buf, p, mem[base..base + size]);
      }
      base := base + size;
      len := len - size;
      resid := resid - size;
      offset := offset + size;
    }

    /**
     uiomove: transfer up to `n` bytes between `ptr` and the described memory.  The caller
     sets resid to the amount the iovec can take, or asks for no more than resid.
     */
    method Move(ptr: seq<Byte>, n: nat) returns (out: seq<Byte>)
      requires Valid() && n <= |ptr| && (n <= resid || len == resid)
      modifies this
      ensures Valid() && Advanced(Min(n, old(resid)))
      ensures rw.Read? ==> out == ptr && mem == Overlay(old(mem), old(base), ptr[..Min(n, old(resid))])
      ensures rw.Write? ==> mem == old(mem)
      ensures rw.Write? ==> out == Overlay(ptr, 0, old(mem)[old(base)..old(base) + Min(n, old(resid))])
    {
      hide Overlay;
      out := ptr;
      var p := 0;
      var left := n;
      OverlayNothing(mem, base);
      OverlayNothing(ptr, 0);
      assert ptr[..0] == [] && mem[base..base] == [];
      while left > 0 && resid > 0
        invariant Valid() && 0 <= left && 0 <= p && p + left == n && |out| == |ptr| && (left <= resid || len == resid)
        invariant Advanced(p) && (left == n || left == 0 || resid == 0)
        invariant rw.Read? ==> out == ptr && mem == Overlay(old(mem), old(base), ptr[..p])
        invariant rw.Write? ==> mem == old(mem) && out == Overlay(ptr, 0, old(mem)[old(base)..old(base) + p])
        decreases left
      {
        var size := Min(len, left);
        SliceAppend(ptr, 0, p, size);
        OverlayAppend(old(mem), old(base), ptr[..p], ptr[p..p + size]);
        SliceAppend(old(mem), old(base), p, size);
        OverlayAppend(ptr, 0, old(mem)[old(base)..base], old(mem)[base..base + size]);
        out := Piece(out, p, size);
        p := p + size;
        left := left - size;
      }
    }

    /** uiomovezeros: fill up to `n` bytes of the described memory with zeros, 16 at a time. */
    method MoveZeros(n: nat)
      requires Valid() && rw.Read? && (n <= resid || len == resid)
      modifies this
      ensures Valid() && Advanced(Min(n, old(resid)))
      ensures mem == Overlay(old(mem), old(base), Zeros(Min(n, old(resid))))
    {
      hide Overlay, Zeros;
      var left := n;
      OverlayNothing(mem, base);
      assert Zeros(0) == [];
      ghost var done := 0;
      while left > 0
        invariant Valid() && 0 <= left <= n && done == Min(n - left, old(resid)) && Advanced(done)
        invariant left <= resid || len == resid
        invariant mem == Overlay(old(mem), old(base), Zeros(done))
        decreases left
      {
        var amt := Min(16, left);
        ghost var more := Min(amt, resid);
        var _ := Move(Zeros(16), amt);
        OverlayAppend(old(mem), old(base), Zeros(done), Zeros(16)[..more]);
        ZerosAppend(done, more);
        left := left - amt;
        done := done + more;
      }
    }
  }
}
