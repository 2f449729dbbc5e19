/**
 What printf prints for %d, atoi reads back.
 */
module PrintParse {
  import opened Numerals
  import opened Atoi
  import opened Printf

  /** A signed 32-bit number as the word that holds it. */
  function Word(n: int): nat {
    n % WORD
  }

  predicate IsInt(n: int) {
    -(WORD / 2) <= n < WORD / 2
  }

  lemma SignedIs(x: int, n: int)
    requires IsInt(n)
    ensures Signed(x % WORD) == n <==> (x - n) % WORD == 0
  {
    var r := Signed(x % WORD);
    assert x == WORD * (x / WORD) + x % WORD;
    assert (x - r) % WORD == 0 by { Multiple(x / WORD + if x % WORD < WORD / 2 then 0 else 1); }
    if (x - n) % WORD == 0 {
      Close(x - r, x - n);
    }
  }

  lemma Multiple(q: int)
    ensures WORD * q % WORD == 0
  {
  }

  /** Two multiples of 2^32 less than that apart are equal. */
  lemma Close(a: int, b: int)
    requires a % WORD == 0 && b % WORD == 0 && -WORD < a - b < WORD
    ensures a == b
  {
  }

  lemma MagnitudeOf(n: int)
    requires IsInt(n)
    ensures Word(n) < WORD && Negative('d', Word(n)) == (n < 0) && Magnitude('d', Word(n)) == if n < 0 then -n else n
  {
  }

  // ---------------------------------------------------------------------------------------
  // Reading text of a known shape

  function SignText(neg: bool): string {
    if neg then "-" else ""
  }

  /** Blanks, a sign, digits, and something that does not go on with a digit. */
  lemma ParseShape(k: nat, neg: bool, ds: string, rest: string)
    requires Decimal(ds) && ds != [] && (rest != [] ==> !IsDigit(rest[0]))
    ensures Parse(Pad(k, ' ') + SignText(neg) + ds + rest) ==
              Signed((if neg then -Value(ds, 10) else Value(ds, 10)) % WORD)
  {
    hide Value, Signed, Blanks, Run;
    var s := Pad(k, ' ') + SignText(neg) + ds + rest;
    var u := ds + rest;
    Unshape(k, neg, ds, rest);
    BlanksIs(s, k);
    RunIs(u, |ds|);
    assert u[..|ds|] == ds;
  }

  lemma Unshape(k: nat, neg: bool, ds: string, rest: string)
    requires Decimal(ds) && ds != []
    ensures var s := Pad(k, ' ') + SignText(neg) + ds + rest;
            && k < |s| && (forall i :: 0 <= i < k ==> IsBlank(s[i])) && !IsBlank(s[k])
            && if neg then s[k..][0] == '-' && s[k..][1..] == ds + rest
                 else s[k..] == ds + rest && s[k] != '-' && s[k] != '+'
  {
    var s := Pad(k, ' ') + SignText(neg) + ds + rest;
    assert s[k..] == SignText(neg) + ds + rest;
    assert s[k] == if neg then '-' else ds[0];
    assert SignText(true)[1..] == "";
  }

  /**
   Every string is spaces and tabs, at most one sign, digits and a rest that does not go on with a
   digit; atoi reads it as the number of the digits with that sign, exactly if that fits 32 bits.
   */
  lemma AtoiReads(blanks: string, sign: string, ds: string, rest: string)
    requires forall k :: 0 <= k < |blanks| ==> blanks[k] == ' ' || blanks[k] == '\t'
    requires (sign == "" || sign == "+" || sign == "-") && Decimal(ds)
    requires rest != [] ==> !('0' <= rest[0] <= '9') && (ds == [] && sign == "" ==> rest[0] !in " \t+-")
    ensures var n := if sign == "-" then -Value(ds, 10) else Value(ds, 10);
            && (Parse(blanks + (sign + (ds + rest))) - n) % WORD == 0 && IsInt(Parse(blanks + (sign + (ds + rest))))
            && (Parse(blanks + (sign + (ds + rest))) == n <==> IsInt(n))
  {
    hide Value, Blanks, Run, Signed, Parse;
    ParsedAs(blanks, sign, ds, rest);
    SignedWraps(if sign == "-" then -Value(ds, 10) else Value(ds, 10));
  }

  lemma ParsedAs(blanks: string, sign: string, ds: string, rest: string)
    requires forall k :: 0 <= k < |blanks| ==> IsBlank(blanks[k])
    requires (sign == "" || sign == "+" || sign == "-") && Decimal(ds)
    requires rest != [] ==> !IsDigit(rest[0]) && (ds == [] && sign == "" ==> rest[0] !in " \t+-")
    ensures Parse(blanks + (sign + (ds + rest))) ==
              Signed((if sign == "-" then -Value(ds, 10) else Value(ds, 10)) % WORD)
  {
    hide Value, Blanks, Run, Signed, Parse, Decimal;
    var s := blanks + (sign + (ds + rest));
    AfterBlanks(blanks, sign, ds, rest);
    BlanksIs(s, |blanks|);
    assert s[|blanks|..] == sign + (ds + rest);
    DigitsFirst(sign, ds, rest);
    ParseFrom(s, sign, ds + rest);
  }

  lemma DigitsFirst(sign: string, ds: string, rest: string)
    requires Decimal(ds) && (rest != [] ==> !IsDigit(rest[0]) && (ds == [] && sign == "" ==> rest[0] !in " \t+-"))
    ensures var u := ds + rest; u[..Run(u)] == ds && (u != [] && sign == "" ==> u[0] != '-' && u[0] != '+')
  {
    hide Run;
    var u := ds + rest;
    RunIs(u, |ds|);
    assert u[..|ds|] == ds;
  }

  lemma ParseFrom(s: string, sign: string, u: string)
    requires s[Blanks(s)..] == sign + u && (sign == "" || sign == "+" || sign == "-")
    requires u != [] && sign == "" ==> u[0] != '-' && u[0] != '+'
    ensures var v := Value(u[..Run(u)], 10); Parse(s) == Signed((if sign == "-" then -v else v) % WORD)
  {
    hide Value, Blanks, Run, Signed;
    if sign == "" {
      assert sign + u == u;
    } else {
      assert (sign + u)[1..] == u;
    }
  }

  lemma AfterBlanks(blanks: string, sign: string, ds: string, rest: string)
    requires forall k :: 0 <= k < |blanks| ==> IsBlank(blanks[k])
    requires (sign == "" || sign == "+" || sign == "-") && Decimal(ds)
    requires rest != [] ==> !IsDigit(rest[0]) && (ds == [] && sign == "" ==> rest[0] !in " \t+-")
    ensures var s := blanks + (sign + (ds + rest)); forall k :: 0 <= k < |blanks| ==> IsBlank(s[k])
    ensures var s := blanks + (sign + (ds + rest)); |blanks| < |s| ==> !IsBlank(s[|blanks|])
  {
    var s := blanks + (sign + (ds + rest));
    if |blanks| < |s| {
      assert s[|blanks|] == if sign != "" then sign[0] else if ds != [] then ds[0] else rest[0];
    }
  }

  lemma SignedWraps(n: int)
    ensures IsInt(Signed(n % WORD)) && (Signed(n % WORD) - n) % WORD == 0 && (Signed(n % WORD) == n <==> IsInt(n))
  {
    var q := n / WORD;
    assert n == WORD * q + n % WORD;
    Multiple(-q);
    Multiple(-q - 1);
    if IsInt(n) {
      ReadsAs(n);
    }
  }

  lemma {:induction false} LeadingZeros(k: nat, ds: string)
    ensures Value(Pad(k, '0') + ds, 10) == Value(ds, 10)
    decreases |ds| + k
  {
    hide DigitValue;
    if ds != [] {
      var m := ds[..|ds| - 1];
      assert Pad(k, '0') + ds == (Pad(k, '0') + m) + [ds[|ds| - 1]] && ds == m + [ds[|ds| - 1]];
      LeadingZeros(k, m);
      ValueMore(Pad(k, '0') + m, ds[|ds| - 1], 10);
      ValueMore(m, ds[|ds| - 1], 10);
    } else if k > 0 {
      assert Pad(k, '0') == Pad(k - 1, '0') + ['0'] && Pad(k, '0') + [] == Pad(k, '0') &&
        Pad(k - 1, '0') + [] == Pad(k - 1, '0');
      LeadingZeros(k - 1, []);
      ValueMore(Pad(k - 1, '0'), '0', 10);
      IsValue('0');
    }
  }

  lemma {:induction false} TrailingZeros(ds: string, k: nat)
    ensures Value(ds + Pad(k, '0'), 10) == Value(ds, 10) * Pow(10, k)
  {
    hide DigitValue;
    if k > 0 {
      assert ds + Pad(k, '0') == (ds + Pad(k - 1, '0')) + ['0'];
      TrailingZeros(ds, k - 1);
      ValueMore(ds + Pad(k - 1, '0'), '0', 10);
      IsValue('0');
      Times(Value(ds, 10), Pow(10, k - 1));
    } else {
      assert ds + Pad(0, '0') == ds;
    }
  }

  lemma Times(v: int, p: int)
    ensures v * p * 10 == v * (10 * p)
  {
  }

  lemma ZerosDecimal(k: nat, ds: string)
    requires Decimal(ds)
    ensures Decimal(Pad(k, '0') + ds) && Decimal(ds + Pad(k, '0'))
  {
  }

  // ---------------------------------------------------------------------------------------
  // The round trip

  /** How many characters of padding %d gets. */
  function PadOf(f: Spec, n: int): nat
    requires IsInt(n)
  {
    MagnitudeOf(n);
    Padding(f, |SignText(n < 0)| + |Digits(Magnitude('d', Word(n)), 10)|)
  }

  /** The text of %d in its three shapes. */
  lemma NumberShape(f: Spec, n: int)
    requires IsInt(n) && (f.fill == ' ' || f.fill == '0')
    ensures Word(n) < WORD
    ensures var ds, pad := Digits(if n < 0 then -n else n, 10), PadOf(f, n);
            Number(f, 'd', Word(n)) ==
              if f.rightspc && f.fill == '0' then Pad(0, ' ') + SignText(n < 0) + (ds + Pad(pad, '0')) + []
              else if f.rightspc then Pad(0, ' ') + SignText(n < 0) + ds + Pad(pad, ' ')
              else if f.fill == '0' then Pad(0, ' ') + SignText(n < 0) + (Pad(pad, '0') + ds) + []
              else Pad(pad, ' ') + SignText(n < 0) + ds + []
  {
    hide Digits, Pad;
    MagnitudeOf(n);
    NoPad(' ');
    var ds, pad, sg := Digits(if n < 0 then -n else n, 10), PadOf(f, n), SignText(n < 0);
    assert Number(f, 'd', Word(n)) == Field(f, sg, "", ds);
    assert sg + "" == sg && [] + sg == sg && Pad(pad, ' ') + sg + "" == Pad(pad, ' ') + sg;
    Assoc(sg, ds, Pad(pad, '0'));
    Assoc(sg, Pad(pad, '0'), ds);
  }

  lemma MagnitudeText(n: int)
    requires IsInt(n)
    ensures var ds := Digits(if n < 0 then -n else n, 10);
            Decimal(ds) && ds != [] && (if n < 0 then -Value(ds, 10) else Value(ds, 10)) == n
  {
    var m := if n < 0 then -n else n;
    DigitsDecimal(m);
    DigitsValue(m, 10);
  }

  lemma ReadsAs(n: int)
    requires IsInt(n)
    ensures Signed(n % WORD) == n
  {
    SignedIs(n, n);
  }

  /** Whatever the width and the padding, short of zeros on the right, atoi reads back the number printed. */
  lemma PrintThenParse(f: Spec, n: int)
    requires IsInt(n) && (f.fill == ' ' || f.fill == '0') && !(f.rightspc && f.fill == '0')
    ensures Word(n) < WORD && Parse(Number(f, 'd', Word(n))) == n
  {
    hide Digits, Pad, Number, Parse, Value, Decimal, Signed;
    NumberShape(f, n);
    MagnitudeText(n);
    ReadsAs(n);
    var ds, pad := Digits(if n < 0 then -n else n, 10), PadOf(f, n);
    if f.rightspc {
      ParseShape(0, n < 0, ds, Pad(pad, ' '));
    } else if f.fill == '0' {
      ZerosDecimal(pad, ds);
      LeadingZeros(pad, ds);
      ParseShape(0, n < 0, Pad(pad, '0') + ds, []);
    } else {
      ParseShape(pad, n < 0, ds, []);
    }
  }

  /** An odd factor does not help a number to be a multiple of a power of two. */
  lemma {:induction false} OddFactor(m: int, n: int, e: nat)
    requires m % 2 == 1 && (m * n) % Pow(2, e) == 0
    ensures n % Pow(2, e) == 0
    decreases e
  {
    if e > 0 {
      var p := Pow(2, e - 1);
      var q := m * n / (2 * p);
      assert m * n == 2 * p * q;
      Halve(m * n, p, q);
      EvenFactor(m, n);
      var h := n / 2;
      assert n == 2 * h;
      assert 2 * (m * h) == 2 * (p * q) by { Twice(m, h, p, q, n); }
      Divides(p, q);
      assert (m * h) % p == 0;
      OddFactor(m, h, e - 1);
      var r := h / p;
      assert h == p * r;
      Doubled(p, r);
    }
  }

  lemma Halve(x: int, p: nat, q: int)
    requires x == 2 * p * q
    ensures x % 2 == 0
  {
    assert x == 2 * (p * q);
  }

  lemma EvenFactor(m: int, n: int)
    requires m % 2 == 1 && (m * n) % 2 == 0
    ensures n % 2 == 0
  {
    if n % 2 == 1 {
      OddTimesOdd(m, n);
    }
  }

  lemma OddTimesOdd(m: int, n: int)
    requires m % 2 == 1 && n % 2 == 1
    ensures (m * n) % 2 == 1
  {
    var a, b := m / 2, n / 2;
    assert m * n == 2 * (2 * a * b + a + b) + 1;
  }

  lemma Twice(m: int, h: int, p: nat, q: int, n: int)
    requires n == 2 * h && m * n == 2 * p * q
    ensures 2 * (m * h) == 2 * (p * q)
  {
    assert m * (2 * h) == 2 * (m * h);
  }

  lemma Divides(p: nat, q: int)
    requires p > 0
    ensures (p * q) % p == 0
  {
    Remainder(p, q, 0);
  }

  lemma Remainder(p: nat, q: int, r: nat)
    requires r < p
    ensures (p * q + r) % p == r
  {
    var x := p * q + r;
    var d := x / p - q;
    assert x == p * (x / p) + x % p;
    assert p * d == r - x % p;
    AtLeastOne(p, d);
  }

  lemma AtLeastOne(p: nat, d: int)
    ensures (d >= 1 ==> p * d >= p) && (d <= -1 ==> p * d + p <= 0)
  {
    if d >= 1 { assert p * d == p * (d - 1) + p; }
    if d <= -1 { assert p * d + p == p * (d + 1); }
  }

  lemma Doubled(p: nat, r: int)
    requires p > 0
    ensures (2 * (p * r)) % (2 * p) == 0
  {
    assert 2 * (p * r) == (2 * p) * r;
    Divides(2 * p, r);
  }

  lemma {:induction false} Tens(k: nat)
    requires k >= 1
    ensures (Pow(10, k) - 1) % 2 == 1
  {
    assert Pow(10, k) == 2 * (5 * Pow(10, k - 1));
  }

  lemma TwoTo32()
    ensures Pow(2, 32) == WORD
  {
    assert Pow(2, 4) == 16;
    assert Pow(2, 8) == 256;
    assert Pow(2, 12) == 0x1000;
    assert Pow(2, 16) == 0x1_0000;
    assert Pow(2, 20) == 0x10_0000;
    assert Pow(2, 24) == 0x100_0000;
    assert Pow(2, 28) == 0x1000_0000;
  }

  /** A number other than 0, shifted by decimal places, is another 32-bit number. */
  lemma ShiftedDiffers(n: int, k: nat)
    requires IsInt(n) && k >= 1
    ensures (n * Pow(10, k) - n) % WORD == 0 <==> n == 0
  {
    if (n * Pow(10, k) - n) % WORD == 0 {
      var m := Pow(10, k) - 1;
      assert n * Pow(10, k) - n == m * n;
      Tens(k);
      TwoTo32();
      OddFactor(m, n, 32);
      Close(n, 0);
    }
  }

  /** With zeros to the right of the digits, only 0, or a number that fills its field, is read back. */
  lemma ZerosOnTheRight(f: Spec, n: int)
    requires IsInt(n) && f.rightspc && f.fill == '0'
    ensures Word(n) < WORD
    ensures Parse(Number(f, 'd', Word(n))) == n <==> n == 0 || PadOf(f, n) == 0
  {
    hide Digits, Pad, Number, Parse, Value, Decimal, Signed, PadOf;
    NumberShape(f, n);
    MagnitudeText(n);
    var ds, pad := Digits(if n < 0 then -n else n, 10), PadOf(f, n);
    ZerosDecimal(pad, ds);
    TrailingZeros(ds, pad);
    ParseShape(0, n < 0, ds + Pad(pad, '0'), []);
    var x := n * Pow(10, pad);
    SignedProduct(n, Value(ds, 10), Pow(10, pad));
    SignedIs(x, n);
    if pad >= 1 {
      ShiftedDiffers(n, pad);
    } else {
      assert x == n;
    }
  }

  lemma SignedProduct(n: int, v: int, p: int)
    requires n == if n < 0 then -v else v
    ensures n * p == if n < 0 then -(v * p) else v * p
  {
  }

  // ---------------------------------------------------------------------------------------
  // Formats

  /** A run of modifiers, one after the other. */
  function ModifiedBy(f: Spec, mods: string): Spec
    requires forall k :: 0 <= k < |mods| ==> IsModifier(mods[k])
    decreases |mods|
  {
    if mods == [] then f else ModifiedBy(Modified(f, mods[0]), mods[1..])
  }

  lemma {:induction false} ModifiersOnly(f: Spec, mods: string, args: nat -> Arg)
    requires f.inPct && (forall k :: 0 <= k < |mods| ==> IsModifier(mods[k])) && ArgsOk(args, |mods| + 2)
    requires f.fill == ' ' || f.fill == '0'
    ensures Output(f, mods + "d", args, 0) == Number(ModifiedBy(f, mods), 'd', args(0).word)
    ensures ModifiedBy(f, mods).fill == ' ' || ModifiedBy(f, mods).fill == '0'
    decreases |mods|
  {
    hide Number;
    if mods == [] {
      assert mods + "d" == "d" && "d"[1..] == [];
      assert Output(f, "d", args, 0) == Number(f, 'd', args(0).word) + [];
    } else {
      assert (mods + "d")[1..] == mods[1..] + "d";
      ModifiersOnly(Modified(f, mods[0]), mods[1..], args);
    }
  }

  // ---------------------------------------------------------------------------------------
  // What the modifiers mean together

  predicate AllModifiers(mods: string) {
    forall k :: 0 <= k < |mods| ==> IsModifier(mods[k])
  }

  /** The digits among the modifiers, in order. */
  function Numeral(mods: string): string {
    if mods == [] then []
    else
      var c := mods[|mods| - 1];
      Numeral(mods[..|mods| - 1]) + if IsDigit(c) then [c] else []
  }

  predicate LeadingZero(mods: string) {
    Numeral(mods) != [] && Numeral(mods)[0] == '0'
  }

  lemma {:induction false} ModifiedMore(f: Spec, mods: string, c: char)
    requires AllModifiers(mods) && IsModifier(c)
    ensures AllModifiers(mods + [c]) && ModifiedBy(f, mods + [c]) == Modified(ModifiedBy(f, mods), c)
    decreases |mods|
  {
    hide Modified, IsModifier;
    if mods == [] {
      assert [c][1..] == [] && mods + [c] == [c];
    } else {
      assert (mods + [c])[1..] == mods[1..] + [c];
      ModifiedMore(Modified(f, mods[0]), mods[1..], c);
    }
  }

  /**
   The digits read together are the width; the first of them, if it is a zero, asks for zeros to
   fill; and each other modifier counts once, wherever it stands.
   */
  predicate Means(f: Spec, mods: string) {
    && f.inPct && f.spacing == Value(Numeral(mods), 10) && f.fill == (if LeadingZero(mods) then '0' else ' ')
    && f.alt == ('#' in mods) && f.rightspc == ('-' in mods) && f.long == ('l' in mods || 'q' in mods)
  }

  /** However the modifiers are mixed. */
  lemma {:induction false} ModifiersMean(mods: string)
    requires AllModifiers(mods)
    ensures Means(ModifiedBy(RESET.(inPct := true), mods), mods)
  {
    hide ModifiedBy, Means, Modified;
    if mods == [] {
      NoModifiers();
    } else {
      var r, c := mods[..|mods| - 1], mods[|mods| - 1];
      assert mods == r + [c];
      ModifiersMean(r);
      ModifiedMore(RESET.(inPct := true), r, c);
      MeansMore(ModifiedBy(RESET.(inPct := true), r), r, c);
    }
  }

  lemma MeansMore(f: Spec, r: string, c: char)
    requires Means(f, r) && IsModifier(c)
    ensures Means(Modified(f, c), r + [c])
  {
    hide Value, Numeral, DigitOf;
    NumeralMore(r, c);
    NoWidthYet(r);
    forall x ensures x in r + [c] <==> x in r || x == c {
    }
    if IsDigit(c) {
      assert c != '0' ==> DigitOf(c) > 0 by { NonZero(c); }
      assert DigitOf('0') == 0 by { NonZero('0'); }
    }
  }

  lemma NonZero(c: char)
    requires IsDigit(c)
    ensures DigitOf(c) > 0 <==> c != '0'
  {
  }

  /** The width is 0 as long as all its digits are, so a first digit other than 0 makes it positive. */
  lemma {:induction false} NoWidthYet(mods: string)
    ensures Value(Numeral(mods), 10) >= 0
    ensures (Value(Numeral(mods), 10) == 0 && Numeral(mods) != [] ==> LeadingZero(mods))
    ensures Numeral(mods) == [] ==> Value(Numeral(mods), 10) == 0
  {
    hide Value;
    if mods == [] {
      NoModifiers();
    } else {
      var r, c := mods[..|mods| - 1], mods[|mods| - 1];
      NoWidthYet(r);
      if IsDigit(c) {
        ValueMore(Numeral(r), c, 10);
        IsValue(c);
      } else {
        assert Numeral(r) + [] == Numeral(r);
      }
    }
  }

  lemma NoModifiers()
    ensures Means(ModifiedBy(RESET.(inPct := true), []), []) && Value([], 10) == 0
  {
  }

  lemma NumeralMore(r: string, c: char)
    requires IsModifier(c)
    ensures Numeral(r + [c]) == Numeral(r) + if IsDigit(c) then [c] else []
    ensures Value(Numeral(r + [c]), 10) ==
              if IsDigit(c) then Value(Numeral(r), 10) * 10 + DigitOf(c) else Value(Numeral(r), 10)
    ensures IsDigit(c) <==> c !in "#-ql"
  {
    hide Value;
    assert (r + [c])[..|r|] == r;
    if IsDigit(c) {
      ValueMore(Numeral(r), c, 10);
      IsValue(c);
    } else {
      assert Numeral(r) + [] == Numeral(r);
    }
  }

  /**
   For every format made of %, modifiers and d, and every number: atoi reads the number back unless
   the modifiers have a minus and a leading zero, and the number is not 0 and narrower than the width.
   */
  lemma FormatThenParse(mods: string, args: nat -> Arg, n: int)
    requires AllModifiers(mods) && ArgsOk(args, |mods| + 3) && IsInt(n) && args(0).word == Word(n)
    ensures Parse(Output(RESET, "%" + mods + "d", args, 0)) == n <==>
            !('-' in mods && LeadingZero(mods)) || n == 0
            || Value(Numeral(mods), 10) <= |SignText(n < 0)| + |Digits(if n < 0 then -n else n, 10)|
  {
    hide Number, Parse, Output, ModifiedBy, SendChar, Value, Digits, Numeral;
    var f := ModifiedBy(RESET.(inPct := true), mods);
    ModifiersMean(mods);
    MagnitudeOf(n);
    Assoc("%", mods, "d");
    PercentStarts(mods + "d", args);
    ModifiersOnly(RESET.(inPct := true), mods, args);
    if f.rightspc && f.fill == '0' {
      ZerosOnTheRight(f, n);
    } else {
      PrintThenParse(f, n);
    }
  }

  /** The 1 that "%-05d" prints reads as ten thousand. */
  lemma OneAsTenThousand(args: nat -> Arg)
    requires ArgsOk(args, 6) && args(0).word == 1
    ensures Output(RESET, "%-05d", args, 0) == "10000" && Parse("10000") == 10000
  {
    hide Parse, Output, ModifiedBy, SendChar, Number, Value, Signed, Decimal, ArgsOk, IsModifier;
    assert "%-05d" == "%" + "-05d" && "-05d" == "-05" + "d";
    OkArgs(args);
    PercentStarts("-05d", args);
    MinusZeroFive();
    ModifiersOnly(RESET.(inPct := true), "-05", args);
    OneInFive();
    FiveDigits();
  }

  lemma OkArgs(args: nat -> Arg)
    requires ArgsOk(args, 6)
    ensures ArgsOk(args, 5) && args(0).word < WORD
  {
  }

  lemma OneInFive()
    ensures Number(Spec(true, false, 5, true, '0', false), 'd', 1) == "10000"
  {
    assert Digits(1, 10) == "1" && "" + "" + "1" + Pad(4, '0') == "10000";
  }

  lemma MinusZeroFive()
    ensures ModifiedBy(RESET.(inPct := true), "-05") == Spec(true, false, 5, true, '0', false)
    ensures forall k :: 0 <= k < |"-05"| ==> IsModifier("-05"[k])
  {
    assert "-05"[1..] == "05" && "05"[1..] == "5" && "5"[1..] == [];
  }

  lemma FiveDigits()
    ensures Parse("10000") == 10000
  {
    hide Parse, Value;
    assert "10000" == "1" + Pad(4, '0');
    TrailingZeros("1", 4);
    assert Pow(10, 4) == 10000;
    assert Value("1", 10) == 1 by { assert "1" == [] + ['1']; ValueMore([], '1', 10); ValueNone(10); }
    AtoiReads("", "", "10000", "");
    assert "" + ("" + ("10000" + "")) == "10000";
  }

  lemma PercentStarts(rest: string, args: nat -> Arg)
    requires ArgsOk(args, |rest| + 2)
    ensures Output(RESET, "%" + rest, args, 0) == Output(RESET.(inPct := true), rest, args, 0)
  {
    hide Number, Field, Modified;
    var fmt := "%" + rest;
    assert fmt[0] == '%' && fmt[1..] == rest;
    NextOutput(RESET, fmt, args, 0);
    var out := Output(RESET.(inPct := true), rest, args, 0);
    assert [] + out == out;
  }
}
