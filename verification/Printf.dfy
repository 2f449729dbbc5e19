/**
 The printf engine and snprintf.
 */
module Printf {
  import opened Numerals

  const NUMBER_BUF_SIZE := 12 // 32 bits in base 8, a NUL, and one more

  /** An argument: a word, or the text a pointer leads to. */
  datatype Arg = Arg(word: nat, text: Text)

  datatype Text = Null | Text(s: string)

  /** Where in a format the engine is, and the modifiers seen so far. */
  datatype Spec = Spec(inPct: bool, long: bool, spacing: nat, rightspc: bool, fill: char, alt: bool)

  const RESET := Spec(false, false, 0, false, ' ', false)

  // ---------------------------------------------------------------------------------------
  // What a format means

  function Pad(n: nat, c: char): (s: string)
    ensures |s| == n && forall k :: 0 <= k < n ==> s[k] == c
  {
    seq(n, _ => c)
  }

  function Padding(f: Spec, len: nat): nat {
    if f.spacing > len then f.spacing - len else 0
  }

  /** Text in its field: spaces go before the prefixes, zeros after them, or either to the right. */
  function Field(f: Spec, prefix: string, prefix2: string, stuff: string): string {
    var pad := Pad(Padding(f, |prefix| + |prefix2| + |stuff|), f.fill);
    if f.rightspc then prefix + prefix2 + stuff + pad
    else if f.fill == '0' then prefix + prefix2 + pad + stuff
    else pad + prefix + prefix2 + stuff
  }

  function Base(ch: char): (b: nat)
    ensures b == 8 || b == 10 || b == 16
  {
    if ch == 'd' || ch == 'u' then 10 else if ch == 'o' then 8 else 16
  }

  predicate Negative(ch: char, word: nat) {
    ch == 'd' && word >= WORD / 2
  }

  function Magnitude(ch: char, word: nat): (n: nat)
    requires word < WORD
    ensures n < WORD
  {
    if Negative(ch, word) then WORD - word else word
  }

  function BasePrefix(f: Spec, ch: char): string {
    if (f.alt || ch == 'p') && Base(ch) == 16 then "0x" else if (f.alt || ch == 'p') && Base(ch) == 8 then "0" else ""
  }

  function Number(f: Spec, ch: char, word: nat): string
    requires word < WORD
  {
    Field(f, if Negative(ch, word) then "-" else "", BasePrefix(f, ch), Digits(Magnitude(ch, word), Base(ch)))
  }

  predicate IsModifier(ch: char) {
    ch in "#-ql0123456789"
  }

  predicate IsInteger(ch: char) {
    ch in "doupx"
  }

  function Modified(f: Spec, ch: char): Spec
    requires IsModifier(ch)
  {
    if ch == '#' then f.(alt := true)
    else if ch == '-' then f.(rightspc := true)
    else if ch == 'l' || ch == 'q' then f.(long := true)
    else if ch == '0' then if f.spacing > 0 then f.(spacing := f.spacing * 10) else f.(fill := '0')
    else f.(spacing := f.spacing * 10 + DigitOf(ch))
  }

  function DigitOf(ch: char): nat {
    if '0' < ch <= '9' then ch as nat - '0' as nat else 0
  }

  /** What one character of a format does. */
  datatype Sent = Sent(text: string, f: Spec, used: bool)

  function SendChar(f: Spec, ch: char, arg: Arg): Sent
    requires arg.word < WORD
  {
    if !f.inPct then if ch != '%' then Sent([ch], f, false) else Sent([], f.(inPct := true), false)
    else if IsModifier(ch) then Sent([], Modified(f, ch), false)
    else if IsInteger(ch) then Sent(Number(f, ch, arg.word), RESET, true)
    else if ch == 's' then Sent(Field(f, "", "", if arg.text.Null? then "(null)" else arg.text.s), RESET, true)
    else if ch == 'c' then Sent(Field(f, "", "", CharText(arg.word)), RESET, true)
    else Sent(Field(f, "", "", [ch]), RESET, false)
  }

  /** A character as a string; NUL makes it empty. */
  function CharText(w: nat): string {
    if w % 256 == 0 then [] else [(w % 256) as char]
  }

  predicate ArgsOk(args: nat -> Arg, upto: nat) {
    forall i :: 0 <= i < upto ==> args(i).word < WORD
  }

  /** The text a format and its arguments stand for, from a state on. */
  function Output(f: Spec, fmt: string, args: nat -> Arg, i: nat): string
    requires ArgsOk(args, i + |fmt| + 1)
    decreases |fmt|
  {
    if fmt == [] then []
    else
      var s := SendChar(f, fmt[0], args(i));
      s.text + Output(s.f, fmt[1..], args, if s.used then i + 1 else i)
  }

  // ---------------------------------------------------------------------------------------
  // The buffer of snprintf

  function Min(a: nat, b: nat): nat {
    if a < b then a else b
  }

  class Snp {
    const buf: array<char>
    const buflen: nat
    var bufpos: nat

    /** As much of `sent` as fits is in the buffer, and the rest of it is as at the start. */
    ghost predicate Holds(sent: string, start: string)
      reads this, buf
    {
      && buflen <= buf.Length == |start| && bufpos == Min(|sent|, buflen)
      && buf[..] == sent[..bufpos] + start[bufpos..]
    }

    constructor (buf: array<char>, buflen: nat)
      requires buflen <= buf.Length
      ensures this.buf == buf && this.buflen == buflen && bufpos == 0 && Holds([], buf[..])
    {
      this.buf, this.buflen := buf, buflen;
      bufpos := 0;
    }

    /** __snprintf_send */
    method Send(data: string, ghost sent: string, ghost start: string)
      requires Holds(sent, start)
      modifies this`bufpos, buf
      ensures Holds(sent + data, start)
    {
      assert sent + data[..0] == sent;
      for i := 0 to |data|
        invariant Holds(sent + data[..i], start)
      {
        assert sent + data[..i + 1] == (sent + data[..i]) + [data[i]];
        if bufpos < buflen {
          buf[bufpos] := data[i];
          bufpos := bufpos + 1;
        }
      }
      assert data[..|data|] == data;
    }
  }

  // ---------------------------------------------------------------------------------------
  // The engine

  class Pf {
    const sink: Snp
    var charcount: nat
    var inPct: bool
    var long: bool
    var num: nat
    var sign: bool
    var spacing: nat
    var rightspc: bool
    var fillchar: char
    var base: nat
    var baseprefix: bool
    var altformat: bool
    var next: nat // the next argument to fetch
    ghost var sent: string

    ghost predicate Valid(start: string)
      reads this, sink, sink.buf
    {
      sink.Holds(sent, start) && charcount == |sent|
    }

    function F(): Spec
      reads this
    {
      Spec(inPct, long, spacing, rightspc, fillchar, altformat)
    }

    /** Nothing of a number is left over between fields. */
    predicate Clear()
      reads this
    {
      num == 0 && !sign && base == 0 && !baseprefix
    }

    constructor (sink: Snp, ghost start: string)
      requires sink.Holds([], start)
      ensures this.sink == sink && Valid(start) && sent == [] && next == 0 && F() == RESET && Clear()
    {
      this.sink := sink;
      charcount, next, sent := 0, 0, [];
      inPct, long, num, sign, spacing := false, false, 0, false, 0;
      rightspc, fillchar, base, baseprefix, altformat := false, ' ', 0, false, false;
    }

    /** __pf_print */
    method Print(txt: string, ghost start: string)
      requires Valid(start)
      modifies this`charcount, this`sent, sink`bufpos, sink.buf
      ensures Valid(start) && sent == old(sent) + txt
    {
      sink.Send(txt, sent, start);
      charcount := charcount + |txt|;
      sent := sent + txt;
    }

    /** __pf_endfield */
    method EndField()
      modifies this
      ensures F() == RESET && Clear() && charcount == old(charcount) && sent == old(sent) && next == old(next)
    {
      inPct, long, num, sign, spacing := false, false, 0, false, 0;
      rightspc, fillchar, base, baseprefix, altformat := false, ' ', 0, false, false;
    }

    /** __pf_fill */
    method Fill(spc: nat, ghost start: string)
      requires Valid(start)
      modifies this`charcount, this`sent, sink`bufpos, sink.buf
      ensures Valid(start) && sent == old(sent) + Pad(spc, fillchar)
    {
      for i := 0 to spc
        invariant Valid(start) && sent == old(sent) + Pad(i, fillchar)
      {
        assert Pad(i + 1, fillchar) == Pad(i, fillchar) + [fillchar];
        Print([fillchar], start);
      }
    }

    /** __pf_printstuff */
    method PrintStuff(prefix: string, prefix2: string, stuff: string, ghost start: string)
      requires Valid(start)
      modifies this`charcount, this`sent, sink`bufpos, sink.buf
      ensures Valid(start) && sent == old(sent) + Field(F(), prefix, prefix2, stuff)
    {
      hide Pad, Field;
      ghost var s0 := sent;
      var len := |prefix| + |prefix2| + |stuff|;
      var spc := spacing;
      if spc > len {
        spc := spc - len;
      } else {
        spc := 0;
      }
      ghost var pad := Pad(spc, fillchar);
      NoPad(fillchar);
      if spc > 0 && !rightspc && fillchar != '0' {
        Fill(spc, start);
      }
      ghost var a := if !rightspc && fillchar != '0' then pad else [];
      assert sent == s0 + a;
      Print(prefix, start);
      Print(prefix2, start);
      ghost var s1 := sent;
      if spc > 0 && !rightspc && fillchar == '0' {
        Fill(spc, start);
      }
      ghost var b := if !rightspc && fillchar == '0' then pad else [];
      assert sent == s1 + b;
      Print(stuff, start);
      ghost var s2 := sent;
      if spc > 0 && rightspc {
        Fill(spc, start);
      }
      ghost var c := if rightspc then pad else [];
      assert sent == s2 + c;
      Regroup(s0, a, prefix, prefix2, b, stuff, c);
      FieldIs(F(), prefix, prefix2, stuff, a, b, c);
    }

    /** __pf_modifier */
    method Modifier(ch: char)
      requires IsModifier(ch)
      modifies this`altformat, this`rightspc, this`long, this`spacing, this`fillchar
      ensures F() == Modified(old(F()), ch)
    {
      match ch
      case '#' => altformat := true;
      case '-' => rightspc := true;
      case 'l' => long := true;
      case 'q' => long := true;
      case '0' =>
        if spacing > 0 {
          spacing := spacing * 10;
        } else {
          fillchar := '0';
        }
      case _ =>
        assert '0' < ch <= '9';
        spacing := spacing * 10 + (ch as nat - '0' as nat);
    }

    /**
     __pf_getnum: a negative number is kept as its magnitude, which the wrapping negation gives even for the smallest.
     */
    method GetNum(ch: char, args: nat -> Arg)
      requires Clear() && args(next).word < WORD
      modifies this`num, this`sign, this`next
      ensures num == Magnitude(ch, args(old(next)).word) && sign == Negative(ch, args(old(next)).word)
      ensures next == old(next) + 1
    {
      var word := args(next).word;
      next := next + 1;
      if ch == 'd' {
        var signednum := if word < WORD / 2 then word else word - WORD;
        if signednum < 0 {
          sign := true;
          num := (0 - signednum) % WORD;
        } else {
          num := signednum;
        }
      } else {
        num := word;
      }
    }

    /** __pf_setbase */
    method SetBase(ch: char)
      requires IsInteger(ch) && !baseprefix
      modifies this`base, this`baseprefix
      ensures base == Base(ch) && baseprefix == (altformat || ch == 'p')
      ensures base == if ch == 'o' then 8 else if ch == 'x' || ch == 'p' then 16 else 10
    {
      match ch {
        case 'd' => base := 10;
        case 'u' => base := 10;
        case 'x' => base := 16;
        case 'p' => base := 16;
        case _ => base := 8;
      }
      if altformat || ch == 'p' {
        baseprefix := true;
      }
    }

    /** The digit loop of __pf_printnum: right to left, never past the start of the buffer. */
    method Convert() returns (text: string)
      requires num < WORD && (base == 8 || base == 10 || base == 16)
      ensures text == Digits(num, base)
    {
      hide Digits, Last, Rest, Digit;
      var buf := new char[NUMBER_BUF_SIZE];
      var x: int := NUMBER_BUF_SIZE - 1;
      buf[x] := '\0';
      x := x - 1;
      var xnum: nat, more := num, true;
      WordDigits(num, base);
      ghost var tail := "";
      assert Digits(num, base) + tail == Digits(num, base);
      while more
        invariant -1 <= x < NUMBER_BUF_SIZE - 1 && |tail| == NUMBER_BUF_SIZE - 2 - x
        invariant (more ==> |Digits(xnum, base)| + |tail| <= 11)
        invariant Digits(num, base) == (if more then Digits(xnum, base) else []) + tail
        invariant buf[x + 1..NUMBER_BUF_SIZE - 1] == tail && buf[NUMBER_BUF_SIZE - 1] == '\0'
        decreases more, xnum
      {
        LastDigit(xnum, base);
        var d := Digit(Last(xnum, base));
        buf[x] := d;
        PutBefore(buf[..], x, tail);
        xnum := Rest(xnum, base);
        more := xnum > 0;
        Assoc(if more then Digits(xnum, base) else [], [d], tail);
        tail := [d] + tail;
        x := x - 1;
      }
      x := x + 1;
      text := buf[x..NUMBER_BUF_SIZE - 1];
      assert [] + tail == tail;
    }

    /** __pf_printnum */
    method PrintNum(ghost ch: char, ghost word: nat, ghost start: string)
      requires Valid(start) && word < WORD && num == Magnitude(ch, word) && sign == Negative(ch, word)
      requires base == Base(ch) && baseprefix == (altformat || ch == 'p')
      modifies this`charcount, this`sent, sink`bufpos, sink.buf
      ensures Valid(start) && sent == old(sent) + Number(F(), ch, word)
    {
      hide Digits, Field;
      var x := Convert();
      var bprefix := if baseprefix && base == 16 then "0x" else if baseprefix && base == 8 then "0" else "";
      var sprefix := if sign then "-" else "";
      PrintStuff(sprefix, bprefix, x, start);
    }

    /** __pf_send */
    method Send(ch: char, args: nat -> Arg, ghost start: string)
      requires Valid(start) && Clear() && args(next).word < WORD
      modifies this, sink`bufpos, sink.buf
      ensures Valid(start) && Clear()
      ensures var s := SendChar(old(F()), ch, args(old(next)));
              sent == old(sent) + s.text && F() == s.f && next == old(next) + if s.used then 1 else 0
    {
      hide Number, Field, Modified, Digits;
      if !inPct && ch != '%' {
        Print([ch], start);
      } else if !inPct {
        inPct := true;
      } else if IsModifier(ch) {
        Modifier(ch);
      } else if IsInteger(ch) {
        SendNumber(ch, args, start);
      } else if ch == 's' {
        var str := args(next).text;
        next := next + 1;
        PrintStuff("", "", if str.Null? then "(null)" else str.s, start);
        EndField();
      } else {
        var x := [ch];
        if ch == 'c' {
          x := CharText(args(next).word);
          next := next + 1;
        }
        PrintStuff("", "", x, start);
        EndField();
      }
    }

    method SendNumber(ch: char, args: nat -> Arg, ghost start: string)
      requires Valid(start) && Clear() && args(next).word < WORD && IsInteger(ch)
      modifies this, sink`bufpos, sink.buf
      ensures Valid(start) && Clear() && sent == old(sent) + Number(old(F()), ch, args(old(next)).word)
      ensures F() == RESET && next == old(next) + 1
    {
      hide Number, Field, Modified, Digits;
      GetNum(ch, args);
      SetBase(ch);
      PrintNum(ch, args(old(next)).word, start);
      EndField();
    }

    /** The loop of __vprintf over the format. */
    method Format(fmt: string, args: nat -> Arg, ghost start: string)
      requires Valid(start) && Clear() && sent == [] && next == 0 && F() == RESET && ArgsOk(args, |fmt| + 1)
      modifies this, sink`bufpos, sink.buf
      ensures Valid(start) && sent == Output(RESET, fmt, args, 0)
    {
      hide SendChar, Output;
      ghost var whole := Output(RESET, fmt, args, 0);
      OutputEnds(fmt, args);
      for i := 0 to |fmt|
        invariant Valid(start) && Clear() && next <= i
        invariant whole == sent + Output(F(), fmt[i..], args, next)
      {
        OutputStep(whole, sent, F(), fmt, i, args, next);
        Send(fmt[i], args, start);
      }
      OutputDone(F(), fmt, args, next);
      assert sent + [] == sent;
    }
  }

  /**
   vsnprintf: for every length of the buffer, as long a prefix of the whole text as fits and a
   NUL after it; nothing else is written; and the length of the whole text is returned.
   */
  method Vsnprintf(buf: array<char>, len: nat, fmt: string, args: nat -> Arg) returns (chars: nat)
    requires len <= buf.Length && ArgsOk(args, |fmt| + 1)
    modifies buf
    ensures chars == |Output(RESET, fmt, args, 0)|
    ensures len == 0 ==> buf[..] == old(buf[..])
    ensures len > 0 ==>
              var n := Min(chars, len - 1);
              buf[..] == Output(RESET, fmt, args, 0)[..n] + ['\0'] + old(buf[..])[n + 1..]
  {
    hide Output;
    ghost var start := buf[..];
    var snp := new Snp(buf, if len == 0 then 0 else len - 1);
    var pf := new Pf(snp, start);
    pf.Format(fmt, args, start);
    chars := pf.charcount;
    ghost var out, n := Output(RESET, fmt, args, 0), snp.bufpos;
    assert buf[..] == out[..n] + start[n..];
    if len > 0 {
      PutNul(out, start, n);
      buf[snp.bufpos] := '\0';
      assert buf[..] == (out[..n] + start[n..])[n := '\0'];
    } else {
      assert out[..0] + start[0..] == start;
    }
  }

  lemma PutBefore(buf: string, x: nat, tail: string)
    requires x < |buf| - 1 && buf[x + 1..|buf| - 1] == tail
    ensures buf[x..|buf| - 1] == [buf[x]] + tail
  {
  }

  /** The last digit of a number, and the number without it. */
  function Last(n: nat, base: nat): (d: nat)
    requires base == 8 || base == 10 || base == 16
    ensures d < 16
  {
    n % base
  }

  function Rest(n: nat, base: nat): nat
    requires base == 8 || base == 10 || base == 16
  {
    n / base
  }

  lemma LastDigit(n: nat, base: nat)
    requires base == 8 || base == 10 || base == 16
    ensures |Digits(n, base)| >= 1 && (Rest(n, base) > 0 ==> Rest(n, base) < n)
    ensures Digits(n, base) == (if Rest(n, base) > 0 then Digits(Rest(n, base), base) else []) + [Digit(Last(n, base))]
  {
    if n >= base {
      assert n / base > 0;
    } else {
      assert n / base == 0 && n % base == n;
    }
  }

  /** A format character sent: what the engine has printed and where it stands. */
  lemma NextOutput(f: Spec, fmt: string, args: nat -> Arg, i: nat)
    requires fmt != [] && ArgsOk(args, i + |fmt| + 1)
    ensures var s := SendChar(f, fmt[0], args(i));
            Output(f, fmt, args, i) == s.text + Output(s.f, fmt[1..], args, if s.used then i + 1 else i)
  {
  }

  lemma OutputEnds(fmt: string, args: nat -> Arg)
    requires ArgsOk(args, |fmt| + 1)
    ensures Output(RESET, fmt, args, 0) == [] + Output(RESET, fmt[0..], args, 0)
  {
    hide SendChar, Output;
    assert fmt[0..] == fmt;
  }

  lemma OutputDone(f: Spec, fmt: string, args: nat -> Arg, i: nat)
    requires ArgsOk(args, i + 1)
    ensures Output(f, fmt[|fmt|..], args, i) == []
  {
    assert fmt[|fmt|..] == [];
  }

  lemma OutputStep(whole: string, sent: string, f: Spec, fmt: string, k: nat, args: nat -> Arg, i: nat)
    requires k < |fmt| && i <= k && ArgsOk(args, |fmt| + 1) && whole == sent + Output(f, fmt[k..], args, i)
    ensures var s := SendChar(f, fmt[k], args(i));
            whole == (sent + s.text) + Output(s.f, fmt[k + 1..], args, if s.used then i + 1 else i)
  {
    hide SendChar;
    NextOutput(f, fmt[k..], args, i);
    assert fmt[k..][0] == fmt[k] && fmt[k..][1..] == fmt[k + 1..];
    var s := SendChar(f, fmt[k], args(i));
    Assoc(sent, s.text, Output(s.f, fmt[k + 1..], args, if s.used then i + 1 else i));
  }

  lemma PutNul(out: string, start: string, n: nat)
    requires n <= |out| && n < |start|
    ensures (out[..n] + start[n..])[n := '\0'] == out[..n] + ['\0'] + start[n + 1..]
  {
  }

  lemma Regroup(s: string, a: string, p: string, q: string, b: string, t: string, c: string)
    ensures ((((s + a) + p) + q) + b) + t + c == s + (a + p + q + b + t + c)
  {
    Assoc(s, a, p);
    Assoc(s, a + p, q);
    Assoc(s, a + p + q, b);
    Assoc(s, a + p + q + b, t);
    Assoc(s, a + p + q + b + t, c);
  }

  lemma Assoc(a: string, b: string, c: string)
    ensures (a + b) + c == a + (b + c)
  {
  }

  lemma FieldIs(f: Spec, p: string, q: string, t: string, a: string, b: string, c: string)
    requires var pad := Pad(Padding(f, |p| + |q| + |t|), f.fill);
             && a == (if !f.rightspc && f.fill != '0' then pad else [])
             && b == (if !f.rightspc && f.fill == '0' then pad else [])
             && c == (if f.rightspc then pad else [])
    ensures Field(f, p, q, t) == a + p + q + b + t + c
  {
    hide Pad;
    assert p + q + [] == p + q && [] + p == p && p + q + t + [] == p + q + t;
  }

  lemma NoPad(c: char)
    ensures Pad(0, c) == []
  {
  }
}
