/**
 The two random number generators: the kernel's minimal standard generator, and the
 C library's additive feedback generator with switchable state.
 */
module Generators {

  // ---------------------------------------------------------------------------------------
  // pseudorand

  const MULTIPLIER := 16807
  const MODULUS := 0x7fff_ffff
  const K1 := 127773
  const K2 := 2836
  const INVERSE := 1407677000 // of the multiplier, modulo the modulus

  predicate IsInt32(x: int) {
    -0x8000_0000 <= x < 0x8000_0000
  }

  predicate IsSeed(s: int) {
    1 <= s <= MODULUS - 1
  }

  lemma Constants()
    ensures MULTIPLIER * K1 + K2 == MODULUS && MULTIPLIER * INVERSE % MODULUS == 1
    ensures MULTIPLIER * INVERSE == 1 + 11017 * MODULUS
  {
  }

  lemma Shift(x: int, q: int)
    ensures (x + MODULUS * q) % MODULUS == x % MODULUS
  {
  }

  /** Multiplying by the inverse undoes the multiplication. */
  lemma Undo(s: int)
    requires IsSeed(s)
    ensures INVERSE * (MULTIPLIER * s % MODULUS) % MODULUS == s && IsSeed(MULTIPLIER * s % MODULUS)
  {
    Constants();
    var q := MULTIPLIER * s / MODULUS;
    var r := MULTIPLIER * s % MODULUS;
    assert MULTIPLIER * s == MODULUS * q + r;
    assert INVERSE * r == s + MODULUS * (11017 * s - INVERSE * q);
    Shift(s, 11017 * s - INVERSE * q);
  }

  /** Different seeds have different successors. */
  lemma NextIsInjective(a: int, b: int)
    requires IsSeed(a) && IsSeed(b) && MULTIPLIER * a % MODULUS == MULTIPLIER * b % MODULUS
    ensures a == b
  {
    Undo(a);
    Undo(b);
  }

  /** The product modulo the modulus, from the quotient and the remainder of the seed by K1. */
  lemma Parts(s: int)
    requires IsSeed(s)
    ensures var hi, lo := s / K1, s % K1;
            && 0 <= MULTIPLIER * lo < MODULUS && 0 <= K2 * hi < MODULUS
            && MULTIPLIER * s % MODULUS == (MULTIPLIER * lo - K2 * hi) % MODULUS
  {
    var hi, lo := s / K1, s % K1;
    assert s == K1 * hi + lo && 0 <= hi <= 16807 && 0 <= lo < K1;
    Constants();
    assert MULTIPLIER * s == MULTIPLIER * lo - K2 * hi + MODULUS * hi;
    Shift(MULTIPLIER * lo - K2 * hi, hi);
  }

  lemma Residue(t: int)
    requires -MODULUS < t < MODULUS
    ensures t % MODULUS == if t < 0 then t + MODULUS else t
  {
  }

  class Pseudorand {
    var seed: int

    constructor ()
      ensures seed == 305824 && IsSeed(seed)
    {
      seed := 305824;
    }

    /** pseudorand_random: the multiplication in two parts, neither of which leaves 32 bits. */
    method Random() returns (r: nat)
      requires IsSeed(seed)
      modifies this
      ensures IsSeed(seed) && seed == MULTIPLIER * old(seed) % MODULUS && r == seed - 1 <= MODULUS - 2
    {
      Undo(seed);
      Parts(seed);
      var hi, lo := seed / K1, seed % K1;
      assert IsInt32(MULTIPLIER * lo) && IsInt32(K2 * hi);
      var tmp := MULTIPLIER * lo - K2 * hi;
      assert IsInt32(tmp);
      Residue(tmp);
      if tmp <= 0 {
        tmp := tmp + MODULUS;
      }
      assert IsInt32(tmp);
      seed := tmp;
      r := seed - 1;
    }
  }

  // ---------------------------------------------------------------------------------------
  // random

  const WORD := 0x1_0000_0000
  const MAX_TYPES := 5

  function Deg(t: nat): nat
    requires t < MAX_TYPES
  {
    [0, 7, 15, 31, 63][t]
  }

  function Sep(t: nat): nat
    requires t < MAX_TYPES
  {
    [0, 3, 1, 3, 1][t]
  }

  /** Words of state a type of generator needs. */
  function Room(t: nat): (n: nat)
    requires t < MAX_TYPES
    ensures n >= 1 && n >= Deg(t)
  {
    if t == 0 then 1 else Deg(t)
  }

  lemma Separated(t: nat)
    requires 0 < t < MAX_TYPES
    ensures 0 < Sep(t) < Deg(t)
  {
  }

  /** A generator: its type, its table, and where the rear pointer is. */
  datatype Gen = Gen(typ: nat, tbl: seq<nat>, rear: nat)

  predicate Words(s: seq<nat>) {
    forall k :: 0 <= k < |s| ==> s[k] < WORD
  }

  predicate GenOk(g: Gen) {
    && g.typ < MAX_TYPES && |g.tbl| >= Room(g.typ) && Words(g.tbl)
    && if g.typ == 0 then g.rear == 0 else g.rear < Deg(g.typ)
  }

  function Front(g: Gen): (f: nat)
    requires GenOk(g) && g.typ != 0
    ensures f < Deg(g.typ)
  {
    (g.rear + Sep(g.typ)) % Deg(g.typ)
  }

  function Wrap(i: nat, n: nat): (j: nat)
    requires i < n
    ensures j < n
  {
    if i + 1 == n then 0 else i + 1
  }

  function Lcg(x: nat): (y: nat)
    ensures y < WORD
  {
    (1103515245 * x + 12345) % WORD
  }

  /** One number drawn. */
  function Drawn(g: Gen): (h: Gen)
    requires GenOk(g)
    ensures GenOk(h) && h.typ == g.typ && |h.tbl| == |g.tbl|
  {
    if g.typ == 0 then g.(tbl := g.tbl[0 := Lcg(g.tbl[0]) % 0x8000_0000])
    else g.(tbl := g.tbl[Front(g) := (g.tbl[Front(g)] + g.tbl[g.rear]) % WORD], rear := Wrap(g.rear, Deg(g.typ)))
  }

  function Value(g: Gen): nat
    requires GenOk(g)
  {
    if g.typ == 0 then Drawn(g).tbl[0] else Drawn(g).tbl[Front(g)] / 2
  }

  /** Front and rear never wrap on the same draw, and the front stays ahead by the separation. */
  lemma PointersMove(g: Gen)
    requires GenOk(g) && g.typ != 0
    ensures Front(g) != g.rear && !(Front(g) + 1 == Deg(g.typ) && g.rear + 1 == Deg(g.typ))
    ensures Front(Drawn(g)) == Wrap(Front(g), Deg(g.typ))
  {
    Separated(g.typ);
    Ahead(g.rear, Sep(g.typ), Deg(g.typ));
  }

  lemma Ahead(r: nat, s: nat, d: nat)
    requires r < d && 0 < s < d
    ensures (r + s) % d == (if r + s < d then r + s else r + s - d) && (r + s) % d != r
    ensures (Wrap(r, d) + s) % d == Wrap((r + s) % d, d)
  {
    Mod(r + s, d);
    Mod(Wrap(r, d) + s, d);
  }

  lemma Mod(x: nat, d: nat)
    requires d > 0 && x < 2 * d
    ensures x % d == if x < d then x else x - d
  {
    if x >= d {
      assert x == d + (x - d);
    }
  }

  function DrawnBy(g: Gen, n: nat): (h: Gen)
    requires GenOk(g)
    ensures GenOk(h) && h.typ == g.typ && |h.tbl| == |g.tbl|
  {
    if n == 0 then g else Drawn(DrawnBy(g, n - 1))
  }

  lemma {:induction false} RearAfter(g: Gen, n: nat)
    requires GenOk(g) && g.typ != 0
    ensures DrawnBy(g, n).rear == (g.rear + n) % Deg(g.typ)
  {
    if n == 0 {
      Mod(g.rear, Deg(g.typ));
    } else {
      RearAfter(g, n - 1);
      StepMod(g.rear + n - 1, Deg(g.typ));
    }
  }

  lemma StepMod(x: nat, d: nat)
    requires d > 1
    ensures Wrap(x % d, d) == (x + 1) % d
  {
    var q := x / d;
    assert x == d * q + x % d;
    if x % d + 1 == d {
      assert x + 1 == d * (q + 1);
      Exact(d, q + 1, 0);
    } else {
      Exact(d, q, x % d + 1);
    }
  }

  lemma Exact(d: nat, q: nat, r: nat)
    requires r < d
    ensures (d * q + r) % d == r
  {
    var x := d * q + r;
    var e := x / d - q;
    assert x == d * (x / d) + x % d;
    assert d * e == r - x % d;
    Scale(d, e);
  }

  lemma Scale(d: nat, e: int)
    ensures (e >= 1 ==> d * e >= d) && (e <= -1 ==> d * e + d <= 0)
  {
    if e >= 1 { assert d * e == d * (e - 1) + d; }
    if e <= -1 { assert d * e + d == d * (e + 1); }
  }

  // ---------------------------------------------------------------------------------------
  // The recurrence

  /** The degree of each type and how far apart its two pointers are. */
  lemma Trinomials(t: nat)
    requires 0 < t < MAX_TYPES
    ensures Deg(t) == (if t == 1 then 7 else if t == 2 then 15 else if t == 3 then 31 else 63)
    ensures Sep(t) == if t == 1 || t == 3 then 3 else 1
  {
  }

  /** The word that draw number `n` puts in the table. */
  function Drawing(g: Gen, n: nat): nat
    requires GenOk(g) && g.typ != 0
  {
    DrawnBy(g, n + 1).tbl[Front(DrawnBy(g, n))]
  }

  lemma FrontAfter(g: Gen, n: nat)
    requires GenOk(g) && g.typ != 0
    ensures Front(DrawnBy(g, n)) == (g.rear + n + Sep(g.typ)) % Deg(g.typ)
  {
    hide Deg, Sep, Drawn, DrawnBy;
    RearAfter(g, n);
    ModPlus(g.rear + n, Sep(g.typ), Deg(g.typ));
  }

  lemma ModPlus(a: nat, b: nat, d: nat)
    requires d > 0
    ensures (a % d + b) % d == (a + b) % d
  {
    var q, q1, k := a / d, (a % d + b) / d, (a % d + b) % d;
    assert a == d * q + a % d && a % d + b == d * q1 + k;
    assert a + b == d * (q + q1) + k;
    Exact(d, q + q1, k);
  }

  lemma FrontsDiffer(g: Gen, m: nat, j: nat)
    requires GenOk(g) && g.typ != 0
    ensures Front(DrawnBy(g, m + j)) == Front(DrawnBy(g, m)) <==> j % Deg(g.typ) == 0
  {
    hide Deg, Sep, Drawn, DrawnBy, Front;
    FrontAfter(g, m);
    FrontAfter(g, m + j);
    var a, d := g.rear + m + Sep(g.typ), Deg(g.typ);
    ModPlus(a, j, d);
    WholeTurns(a % d, j, d);
  }

  /** A word stays in the table until the front pointer has gone all the way round. */
  lemma {:induction false} WordStays(g: Gen, m: nat, k: nat)
    requires GenOk(g) && g.typ != 0 && k < Deg(g.typ)
    ensures DrawnBy(g, m + 1 + k).tbl[Front(DrawnBy(g, m))] == Drawing(g, m)
    decreases k
  {
    hide Deg, Sep, Front, Room, Words;
    if k > 0 {
      WordStays(g, m, k - 1);
      FrontsDiffer(g, m, k);
      Small(k, Deg(g.typ));
      assert DrawnBy(g, m + 1 + k) == Drawn(DrawnBy(g, m + k));
    }
  }

  lemma Small(k: nat, d: nat)
    requires 0 < k < d
    ensures k % d == k
  {
  }

  /**
   Types 1 to 4 are additive feedback generators: each word drawn is the sum of those drawn `deg` and
   `sep` draws before, modulo 2^32, and the number handed out is all of it but its lowest bit.
   */
  lemma Recurrence(g: Gen, n: nat)
    requires GenOk(g) && g.typ != 0
    requires n >= if g.typ == 1 then 7 else if g.typ == 2 then 15 else if g.typ == 3 then 31 else 63
    ensures var deg, sep := (if g.typ == 1 then 7 else if g.typ == 2 then 15 else if g.typ == 3 then 31 else 63),
                            (if g.typ == 1 || g.typ == 3 then 3 else 1);
            Drawing(g, n) == (Drawing(g, n - deg) + Drawing(g, n - sep)) % 0x1_0000_0000
    ensures Value(DrawnBy(g, n)) == Drawing(g, n) / 2
  {
    hide Deg, Sep, Drawing, DrawnBy, Value;
    Trinomials(g.typ);
    Feedback(g, n);
  }

  lemma Feedback(g: Gen, n: nat)
    requires GenOk(g) && 0 < g.typ < MAX_TYPES && n >= Deg(g.typ) > Sep(g.typ) > 0
    ensures Drawing(g, n) == (Drawing(g, n - Deg(g.typ)) + Drawing(g, n - Sep(g.typ))) % WORD
    ensures Value(DrawnBy(g, n)) == Drawing(g, n) / 2
  {
    hide Deg, Sep, Front, GenOk, Drawing, DrawnBy, Value;
    var d, s := Deg(g.typ), Sep(g.typ);
    SumDrawn(g, n);
    WordAt(g, n - d, n);
    WordAt(g, n - s, n);
    FrontsDiffer(g, n - d, d);
    Exact(d, 1, 0);
    RearIsFront(g, n, s);
  }

  lemma WordAt(g: Gen, m: nat, n: nat)
    requires GenOk(g) && g.typ != 0 && m < n <= m + Deg(g.typ)
    ensures DrawnBy(g, n).tbl[Front(DrawnBy(g, m))] == Drawing(g, m)
  {
    hide Deg, Sep, Front, GenOk, Drawing, DrawnBy;
    WordStays(g, m, n - m - 1);
    assert m + 1 + (n - m - 1) == n;
  }

  lemma SumDrawn(g: Gen, n: nat)
    requires GenOk(g) && g.typ != 0
    ensures var h := DrawnBy(g, n);
            && Drawing(g, n) == (h.tbl[Front(h)] + h.tbl[h.rear]) % WORD && Value(h) == Drawing(g, n) / 2
  {
    hide Deg, Sep, Front, Room, Words;
    assert DrawnBy(g, n + 1) == Drawn(DrawnBy(g, n));
  }

  /** Where the rear pointer is, the front pointer was. */
  lemma RearIsFront(g: Gen, n: nat, s: nat)
    requires GenOk(g) && g.typ != 0 && s == Sep(g.typ) <= n
    ensures DrawnBy(g, n).rear == Front(DrawnBy(g, n - s))
  {
    hide Deg, Sep, Front, DrawnBy;
    RearAfter(g, n);
    FrontAfter(g, n - s);
  }

  /** Type 0 is a linear congruential generator: the last 31 bits of each product are the next number and state. */
  lemma LinearRecurrence(g: Gen)
    requires GenOk(g) && g.typ == 0
    ensures Value(g) == (1103515245 * g.tbl[0] + 12345) % 0x8000_0000 && Drawn(g).tbl[0] == Value(g)
  {
    LowBits(1103515245 * g.tbl[0] + 12345);
  }

  lemma LowBits(x: nat)
    ensures x % WORD % 0x8000_0000 == x % 0x8000_0000
  {
    var q, r := x / WORD, x % WORD;
    var h, k := r / 0x8000_0000, r % 0x8000_0000;
    assert x == 0x8000_0000 * (2 * q + h) + k;
    Exact(0x8000_0000, 2 * q + h, k);
  }

  // ---------------------------------------------------------------------------------------
  // Saving and restoring

  /** What is stored in front of the table when another one is switched to. */
  function Header(g: Gen): nat
    requires GenOk(g)
  {
    if g.typ == 0 then 0 else MAX_TYPES * g.rear + g.typ
  }

  function Signed(w: nat): int {
    if w < WORD / 2 then w else w - WORD
  }

  /** C's remainder, which has the sign of the dividend. */
  function Rem(x: int): int {
    if x >= 0 then x % MAX_TYPES else 0 - (0 - x) % MAX_TYPES
  }

  predicate Known(a: seq<nat>) {
    |a| >= 1 && Words(a) && 0 <= Rem(Signed(a[0]))
  }

  /** An array a generator can be taken from. */
  predicate Saved(a: seq<nat>) {
    && Known(a) && |a| >= 1 + Room(Rem(Signed(a[0])))
    && (Rem(Signed(a[0])) != 0 ==> Signed(a[0]) / MAX_TYPES < Deg(Rem(Signed(a[0]))))
  }

  function Restored(a: seq<nat>): Gen
    requires Saved(a)
  {
    var t := Rem(Signed(a[0]));
    Gen(t, a[1..], if t == 0 then 0 else Signed(a[0]) / MAX_TYPES)
  }

  /** A generator saved and restored is the same generator. */
  lemma SaveRestore(g: Gen)
    requires GenOk(g)
    ensures Header(g) < WORD && Saved([Header(g)] + g.tbl) && Restored([Header(g)] + g.tbl) == g
  {
    var a := [Header(g)] + g.tbl;
    assert a[1..] == g.tbl;
    forall k | 0 <= k < |a| ensures a[k] < WORD {
      if k > 0 { assert a[k] == g.tbl[k - 1]; }
    }
  }

  /** The type chosen for a state of `n` bytes; 5 if there are too few. */
  function TypeFor(n: nat): nat {
    if n < 8 then 5 else if n < 32 then 0 else if n < 64 then 1 else if n < 128 then 2 else if n < 256 then 3 else 4
  }

  /** The type chosen fits, header word and all, and no larger one does. */
  lemma TypeFits(n: nat)
    ensures TypeFor(n) < MAX_TYPES ==> 4 * (1 + Room(TypeFor(n))) <= n
    ensures forall t: nat :: TypeFor(n) < t < MAX_TYPES ==> 4 * (1 + Room(t)) > n
    ensures TypeFor(n) == MAX_TYPES <==> n < 4 * (1 + Room(0))
  {
  }

  /** A table filled from a seed. */
  predicate SeededFrom(t: seq<nat>, x: nat, deg: nat) {
    && |t| >= 1 && t[0] == x
    && forall i :: 1 <= i < deg && i < |t| ==> t[i] == (1103515245 * t[i - 1] + 12345) % 0x1_0000_0000
  }

  class Random {
    var cur: array<nat> // the header word and the table
    var typ: nat
    var deg: nat
    var sep: nat
    var fptr: nat
    var rptr: nat

    ghost function G(): Gen
      requires cur.Length >= 1
      reads this, cur
    {
      Gen(typ, cur[1..], if typ == 0 then 0 else rptr)
    }

    ghost predicate Valid()
      reads this, cur
    {
      && cur.Length >= 1 && GenOk(G()) && deg == Deg(typ) && sep == Sep(typ)
      && (typ != 0 ==> fptr == Front(G()))
    }

    /** The header is up to date: no number has been drawn since the state was made or switched to. */
    ghost predicate Current()
      reads this, cur
    {
      cur.Length >= 1 && Saved(cur[..]) && Restored(cur[..]) == G()
    }

    /** The state a program starts with: the 31 words of randtbl, behind their header. */
    constructor (randtbl: array<nat>)
      requires randtbl.Length == 32 && Words(randtbl[..]) && randtbl[0] == 3
      ensures Valid() && Current() && cur == randtbl && G() == Gen(3, randtbl[1..], 0)
    {
      cur := randtbl;
      typ, deg, sep := 3, Deg(3), Sep(3);
      fptr, rptr := 3, 0;
    }

    /** random_unlocked */
    method Next() returns (i: nat)
      requires Valid()
      modifies this`fptr, this`rptr, cur
      ensures Valid() && G() == Drawn(old(G())) && i == Value(old(G())) && cur[0] == old(cur[0])
    {
      hide Lcg, Deg, Sep, Front, Words, Room;
      ghost var g := G();
      if typ == 0 {
        i := Lcg(cur[1]) % 0x8000_0000;
        cur[1] := i;
        assert cur[1..] == g.tbl[0 := i];
        assert G() == Drawn(g);
      } else {
        PointersMove(g);
        var f, r := fptr, rptr;
        cur[1 + f] := (cur[1 + f] + cur[1 + r]) % WORD;
        assert cur[1..] == g.tbl[f := (g.tbl[f] + g.tbl[r]) % WORD];
        HighBits(g.tbl[f] + g.tbl[r]);
        i := cur[1 + f] / 2 % 0x8000_0000;
        f := f + 1;
        if f >= deg {
          f := 0;
          r := r + 1;
        } else {
          r := r + 1;
          if r >= deg {
            r := 0;
          }
        }
        fptr, rptr := f, r;
        assert G() == Drawn(g);
      }
    }

    /** The first loop of srandom_unlocked. */
    method FillTable(x: nat)
      requires 1 <= deg && cur.Length >= 1 + deg && cur[1] == x && Words(cur[..])
      modifies cur
      ensures cur[0] == old(cur[0]) && cur[1] == x && Words(cur[..])
      ensures forall k :: 1 <= k < deg ==> cur[1 + k] == (1103515245 * cur[k] + 12345) % 0x1_0000_0000
    {
      for i := 1 to deg
        invariant cur[0] == old(cur[0]) && cur[1] == x && (forall k :: 0 <= k < cur.Length ==> cur[k] < WORD)
        invariant forall k :: 1 <= k < i ==> cur[1 + k] == (1103515245 * cur[k] + 12345) % 0x1_0000_0000
      {
        cur[1 + i] := Lcg(cur[i]);
      }
    }

    /**
     srandom_unlocked: the table is filled, then stirred by ten rounds, after which the rear pointer is at 0 again.
     */
    method SRandom(x: nat)
      requires x < WORD && typ < MAX_TYPES && deg == Deg(typ) && sep == Sep(typ) && cur.Length >= 1 + Room(typ)
      requires Words(cur[..])
      modifies this`fptr, this`rptr, cur
      ensures Valid() && cur[0] == old(cur[0])
      ensures typ != 0 ==> rptr == 0
      ensures exists g ::
                GenOk(g) && g.typ == typ && g.rear == 0 && SeededFrom(g.tbl, x, deg) && G() == DrawnBy(g, 10 * deg)
    {
      hide Lcg, Drawn;
      cur[1] := x;
      if typ == 0 {
        assert SeededFrom(G().tbl, x, deg) && G() == DrawnBy(G(), 0);
        return;
      }
      FillTable(x);
      fptr, rptr := sep, 0;
      StartsAhead(typ);
      ghost var g := G();
      assert GenOk(g);
      assert SeededFrom(g.tbl, x, deg);
      for i := 0 to 10 * deg
        invariant Valid() && cur[0] == old(cur[0]) && G() == DrawnBy(g, i)
      {
        var _ := Next();
      }
      RearAfter(g, 10 * deg);
      Exact(deg, 10, 0);
    }

    /** The header is brought up to date in the table being left. */
    method Save()
      requires Valid()
      modifies cur
      ensures Valid() && G() == old(G()) && cur[..] == [Header(G())] + old(cur[1..]) && Words(cur[..])
    {
      ghost var g := G();
      SaveRestore(g);
      cur[0] := if typ == 0 then 0 else MAX_TYPES * rptr + typ;
      assert cur[1..] == g.tbl;
    }

    /** initstate; a state too small is refused. */
    method InitState(seed: nat, arg: array<nat>, n: nat) returns (ok: bool)
      requires Valid() && seed < WORD && 4 * arg.Length >= n && Words(arg[..])
      modifies this, cur, arg
      ensures Valid() && (ok <==> n >= 8)
      ensures !ok ==> cur == old(cur) && G() == old(G()) && cur[0] == Header(G())
      ensures ok ==> cur == arg && typ == TypeFor(n) && cur[0] == Header(G()) && Current() && (typ != 0 ==> rptr == 0)
      ensures ok ==> exists g ::
                GenOk(g) && g.typ == typ && g.rear == 0 && SeededFrom(g.tbl, seed, deg) && G() == DrawnBy(g, 10 * deg)
      ensures arg != old(cur) ==> old(cur)[..] == [Header(old(G()))] + old(cur[1..])
    {
      hide Drawn, Front, Deg, Sep;
      Save();
      TypeFits(n);
      ghost var was := cur;
      assert Words(arg[..]);
      if TypeFor(n) == 5 {
        return false;
      }
      typ := TypeFor(n);
      deg, sep := Deg(typ), Sep(typ);
      cur := arg;
      SRandom(seed);
      Save();
      SaveRestore(G());
      ok := true;
    }

    /**
     setstate: the current generator is saved, and the one in `arg` taken up where its header
     says it was left; an array with no known type is refused.
     */
    method SetState(arg: array<nat>) returns (ok: bool)
      requires Valid() && arg.Length >= 1 && Words(arg[..]) && (Known(arg[..]) ==> Saved(arg[..]))
      modifies this, cur
      ensures Valid() && (ok <==> Known(old(arg[..])))
      ensures !ok ==> cur == old(cur) && G() == old(G())
      ensures ok ==> cur == arg && G() == Restored(old(arg[..])) && (arg != old(cur) ==> Current())
      ensures old(cur)[..] == [Header(old(G()))] + old(cur[1..])
    {
      hide Drawn, Deg, Sep;
      var h := Signed(arg[0]);
      var kind := Rem(h);
      var rear := if h >= 0 then h / MAX_TYPES else 0 - (0 - h) / MAX_TYPES;
      ghost var a0 := arg[..];
      assert h >= 0 ==> 0 <= kind < MAX_TYPES;
      Save();
      if !(0 <= kind < MAX_TYPES) {
        return false;
      }
      RestoredOk(a0);
      typ := kind;
      deg, sep := Deg(typ), Sep(typ);
      cur := arg;
      assert arg[1..] == a0[1..];
      if typ != 0 {
        rptr := rear;
        fptr := (rear + sep) % deg;
      }
      ok := true;
    }
  }

  lemma HighBits(x: nat)
    ensures x % WORD / 2 % 0x8000_0000 == x % WORD / 2
  {
  }

  lemma StartsAhead(t: nat)
    requires 0 < t < MAX_TYPES
    ensures Sep(t) == Sep(t) % Deg(t)
  {
  }

  lemma RestoredOk(a: seq<nat>)
    requires Saved(a)
    ensures GenOk(Restored(a)) && (Rem(Signed(a[0])) != 0 ==> Signed(a[0]) >= 0)
  {
    hide Deg;
    var t := a[1..];
    assert forall k :: 0 <= k < |t| ==> t[k] == a[k + 1];
  }

  lemma WholeTurns(r: nat, n: nat, d: nat)
    requires r < d
    ensures (r + n) % d == r <==> n % d == 0
  {
    var q, k := n / d, n % d;
    assert n == d * q + k;
    if r + k < d {
      Exact(d, q, r + k);
    } else {
      assert r + n == d * (q + 1) + (r + k - d);
      Exact(d, q + 1, r + k - d);
    }
  }

  lemma RearReturns(g: Gen, n: nat)
    requires GenOk(g) && g.typ != 0
    ensures DrawnBy(g, n).rear == g.rear <==> n % Deg(g.typ) == 0
  {
    hide Deg, DrawnBy;
    RearAfter(g, n);
    WholeTurns(g.rear, n, Deg(g.typ));
  }

  /** With another table behind it, a header restores the same generator but for the table. */
  lemma NewTable(a: seq<nat>, b: seq<nat>)
    requires Saved(a) && |b| == |a| && b[0] == a[0] && Words(b[1..])
    ensures Saved(b) && Restored(b) == Restored(a).(tbl := b[1..])
  {
    forall k | 0 <= k < |b| ensures b[k] < WORD {
      if k > 0 {
        assert b[k] == b[1..][k - 1];
      }
    }
  }

  /**
   After `n` draws from a state just switched to or made, switching to that same state puts the rear
   pointer back: the stream goes on where it was exactly if there is no such pointer, or it has gone
   round the table a whole number of times.
   */
  method SetSame(g: Random, n: nat) returns (ok: bool)
    requires g.Valid() && g.Current()
    modifies g, g.cur
    ensures ok && g.Valid() && g.cur == old(g.cur)
    ensures g.G() == DrawnBy(old(g.G()), n).(rear := old(g.G()).rear)
    ensures g.G() == DrawnBy(old(g.G()), n) <==> g.typ == 0 || n % Deg(g.typ) == 0
  {
    hide Drawn, Deg, Sep, Front;
    ghost var g0, a0 := g.G(), g.cur[..];
    for i := 0 to n
      invariant g.Valid() && g.cur == old(g.cur) && g.G() == DrawnBy(g0, i) && g.cur[0] == a0[0]
    {
      var _ := g.Next();
    }
    ghost var h := g.G();
    NewTable(a0, g.cur[..]);
    if h.typ != 0 {
      RearReturns(g0, n);
    }
    ok := g.SetState(g.cur);
  }

  /** One number drawn at the start of a program, then setstate of the state in use: the draw is half undone. */
  method SetSameOnce(randtbl: array<nat>) returns (g: Random)
    requires randtbl.Length == 32 && Words(randtbl[..]) && randtbl[0] == 3
    modifies randtbl
    ensures g.Valid() && g.G() != Drawn(Gen(3, old(randtbl[1..]), 0))
  {
    g := new Random(randtbl);
    ghost var g0 := g.G();
    var ok := SetSame(g, 1);
    assert DrawnBy(g0, 1) == Drawn(DrawnBy(g0, 0));
    assert Deg(3) == 31 && 1 % 31 == 1;
  }
}
