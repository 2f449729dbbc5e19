/**
 atoi, with its 32-bit arithmetic.
 */
module Atoi {
  import opened Numerals

  predicate IsBlank(c: char) {
    c == ' ' || c == '\t'
  }

  predicate IsDigit(c: char) {
    '0' <= c <= '9'
  }

  /** A 32-bit word read as a signed number. */
  function Signed(w: nat): int {
    if w < WORD / 2 then w else w - WORD
  }

  /** The position of the first character that is not blank. */
  function Blanks(s: string): (i: nat)
    ensures i <= |s| && (forall k :: 0 <= k < i ==> IsBlank(s[k])) && (i < |s| ==> !IsBlank(s[i]))
  {
    if s == [] || !IsBlank(s[0]) then 0 else 1 + Blanks(s[1..])
  }

  /** The number of leading digits. */
  function Run(s: string): (i: nat)
    ensures i <= |s| && (forall k :: 0 <= k < i ==> IsDigit(s[k])) && (i < |s| ==> !IsDigit(s[i]))
  {
    if s == [] || !IsDigit(s[0]) then 0 else 1 + Run(s[1..])
  }

  lemma RunIs(s: string, i: nat)
    requires i <= |s| && (forall k :: 0 <= k < i ==> IsDigit(s[k])) && (i < |s| ==> !IsDigit(s[i]))
    ensures Run(s) == i
  {
    var j := Run(s);
    assert !(j < i) && !(i < j);
  }

  lemma BlanksIs(s: string, i: nat)
    requires i <= |s| && (forall k :: 0 <= k < i ==> IsBlank(s[k])) && (i < |s| ==> !IsBlank(s[i]))
    ensures Blanks(s) == i
  {
    var j := Blanks(s);
    assert !(j < i) && !(i < j);
  }

  /** What a string means: blanks, a sign, digits, and anything after them. */
  function Parse(s: string): int {
    var t := s[Blanks(s)..];
    var neg := t != [] && t[0] == '-';
    var u := if t != [] && (t[0] == '-' || t[0] == '+') then t[1..] else t;
    var v := Value(u[..Run(u)], 10);
    Signed((if neg then -v else v) % WORD)
  }

  method ParseInt(s: string) returns (n: int)
    ensures n == Parse(s)
  {
    hide Value, Signed, Run, Blanks;
    var i := 0;
    while i < |s| && (s[i] == ' ' || s[i] == '\t')
      invariant i <= |s| && forall k :: 0 <= k < i ==> IsBlank(s[k])
    {
      i := i + 1;
    }
    BlanksIs(s, i);
    var neg := false;
    if i < |s| && s[i] == '-' {
      neg := true;
      i := i + 1;
    } else if i < |s| && s[i] == '+' {
      i := i + 1;
    }
    var val := Accumulate(s, i);
    Negated(Value(s[i..][..Run(s[i..])], 10), val);
    n := Signed(if neg then (WORD - val) % WORD else val);
  }

  /** The digit loop: the value modulo 2^32. */
  method Accumulate(s: string, start: nat) returns (val: nat)
    requires start <= |s|
    ensures val < WORD && val == Value(s[start..][..Run(s[start..])], 10) % WORD
  {
    hide Value, DigitValue;
    var i := start;
    val := 0;
    ValueNone(10);
    assert s[start..][..0] == [];
    while i < |s|
      invariant start <= i <= |s| && val < WORD && forall k :: start <= k < i ==> IsDigit(s[k])
      invariant val == Value(s[start..][..i - start], 10) % WORD
    {
      if !IsDigit(s[i]) {
        break;
      }
      var digit := s[i] as int - '0' as int;
      assert s[start..][..i - start + 1] == s[start..][..i - start] + [s[i]];
      ValueMore(s[start..][..i - start], s[i], 10);
      IsValue(s[i]);
      Wrapped(Value(s[start..][..i - start], 10), digit);
      val := (val * 10 + digit) % WORD;
      i := i + 1;
    }
    RunIs(s[start..], i - start);
  }

  lemma IsValue(c: char)
    requires IsDigit(c)
    ensures DigitValue(c) == c as int - '0' as int && 0 <= DigitValue(c) < 10
  {
  }

  lemma Wrapped(v: int, d: int)
    ensures (v % WORD * 10 + d) % WORD == (v * 10 + d) % WORD
  {
    var q := v / WORD;
    assert v == q * WORD + v % WORD;
    Shifted(v % WORD * 10 + d, q * 10);
  }

  lemma Shifted(x: int, q: int)
    ensures (x + q * WORD) % WORD == x % WORD
  {
  }

  lemma Negated(v: int, val: nat)
    requires val == v % WORD
    ensures (WORD - val) % WORD == (-v) % WORD
  {
    var q := v / WORD;
    assert v == q * WORD + val;
    Shifted(0 - val, 0 - q);
    Shifted(0 - val, 1);
  }
}
