/**
 What a format means, read off its characters: plain text stands for itself, and each
 conversion for its argument, in a field of the width and kind its modifiers ask for.
 */
module PrintForms {
  import opened Numerals
  import opened Atoi
  import opened Printf
  import opened PrintParse

  /**
   A prefix and a text in the field that the modifiers describe: spaces to the left of both, zeros
   between them, or, with a minus, either to the right.
   */
  function Shaped(mods: string, prefix: string, text: string): string {
    var width, len := Value(Numeral(mods), 10), |prefix| + |text|;
    var k := if width > len then width - len else 0;
    if '-' in mods then prefix + text + (if LeadingZero(mods) then Pad(k, '0') else Pad(k, ' '))
    else if LeadingZero(mods) then prefix + Pad(k, '0') + text
    else Pad(k, ' ') + prefix + text
  }

  predicate IsConversion(ch: char) {
    ch !in "#-ql0123456789"
  }

  // ---------------------------------------------------------------------------------------
  // Formats in pieces

  /** Text without a percent sign stands for itself. */
  lemma {:induction false} PlainText(text: string, rest: string, args: nat -> Arg, i: nat)
    requires '%' !in text && ArgsOk(args, i + |text + rest| + 1)
    ensures Output(RESET, text + rest, args, i) == text + Output(RESET, rest, args, i)
    decreases |text|
  {
    hide SendChar, Output;
    if text == [] {
      assert text + rest == rest && [] + Output(RESET, rest, args, i) == Output(RESET, rest, args, i);
    } else {
      assert (text + rest)[0] == text[0] && (text + rest)[1..] == text[1..] + rest;
      NextOutput(RESET, text + rest, args, i);
      PlainChar(text[0], args(i));
      PlainText(text[1..], rest, args, i);
      assert text == [text[0]] + text[1..];
      Assoc([text[0]], text[1..], Output(RESET, rest, args, i));
    }
  }

  lemma PlainChar(ch: char, arg: Arg)
    requires ch != '%' && arg.word < WORD
    ensures SendChar(RESET, ch, arg) == Sent([ch], RESET, false)
  {
    hide Number, Field, Modified;
  }

  lemma Percent(arg: Arg)
    requires arg.word < WORD
    ensures SendChar(RESET, '%', arg) == Sent([], RESET.(inPct := true), false)
  {
    hide Number, Field, Modified;
  }

  lemma OneModifier(f: Spec, ch: char, arg: Arg)
    requires f.inPct && IsModifier(ch) && arg.word < WORD
    ensures SendChar(f, ch, arg) == Sent([], Modified(f, ch), false) && Modified(f, ch).inPct
  {
    hide Number, Field;
  }

  /** A percent sign, modifiers and a conversion, and then the rest of the format from the start. */
  lemma Conversion(mods: string, ch: char, rest: string, args: nat -> Arg, i: nat)
    requires AllModifiers(mods) && IsConversion(ch) && ArgsOk(args, i + |mods| + |rest| + 3)
    ensures var f := ModifiedBy(RESET.(inPct := true), mods);
            var s := SendChar(f, ch, args(i));
            && f.inPct && s.f == RESET
            && Output(RESET, "%" + (mods + ([ch] + rest)), args, i) ==
               s.text + Output(RESET, rest, args, if s.used then i + 1 else i)
  {
    hide SendChar, Output, ModifiedBy;
    var fmt := "%" + (mods + ([ch] + rest));
    assert fmt[0] == '%' && fmt[1..] == mods + ([ch] + rest);
    NextOutput(RESET, fmt, args, i);
    Percent(args(i));
    ModifiersThen(RESET.(inPct := true), mods, ch, rest, args, i);
    var out := Output(RESET.(inPct := true), mods + ([ch] + rest), args, i);
    assert [] + out == out;
  }

  lemma {:induction false} ModifiersThen(f: Spec, mods: string, ch: char, rest: string, args: nat -> Arg, i: nat)
    requires f.inPct && AllModifiers(mods) && IsConversion(ch) && ArgsOk(args, i + |mods| + |rest| + 3)
    ensures ModifiedBy(f, mods).inPct && SendChar(ModifiedBy(f, mods), ch, args(i)).f == RESET
    ensures var s := SendChar(ModifiedBy(f, mods), ch, args(i));
            Output(f, mods + ([ch] + rest), args, i) == s.text + Output(RESET, rest, args, if s.used then i + 1 else i)
    decreases |mods|
  {
    hide SendChar, Output, Modified, IsModifier;
    var fmt := mods + ([ch] + rest);
    NextOutput(f, fmt, args, i);
    if mods == [] {
      assert fmt[0] == ch && fmt[1..] == rest;
      Ends(f, ch, args(i));
    } else {
      assert fmt[0] == mods[0] && fmt[1..] == mods[1..] + ([ch] + rest);
      OneModifier(f, mods[0], args(i));
      ModifiersThen(Modified(f, mods[0]), mods[1..], ch, rest, args, i);
      var out := Output(Modified(f, mods[0]), fmt[1..], args, i);
      assert [] + out == out;
    }
  }

  lemma Ends(f: Spec, ch: char, arg: Arg)
    requires f.inPct && IsConversion(ch) && arg.word < WORD
    ensures SendChar(f, ch, arg).f == RESET
  {
    hide Number, Field;
  }

  /** The field of the engine is the one the characters of the format ask for. */
  lemma FieldShaped(mods: string, sign: string, prefix: string, text: string)
    requires AllModifiers(mods)
    ensures Field(ModifiedBy(RESET.(inPct := true), mods), sign, prefix, text) == Shaped(mods, sign + prefix, text)
  {
    hide ModifiedBy, Value, Numeral;
    ModifiersMean(mods);
    var f := ModifiedBy(RESET.(inPct := true), mods);
    var pad := Pad(Padding(f, |sign| + |prefix| + |text|), f.fill);
    Assoc(pad, sign, prefix);
  }

  // ---------------------------------------------------------------------------------------
  // Numbers

  /** Digits of a base, with no zero in front of others. */
  predicate Written(ds: string, base: nat) {
    && ds != [] && (forall k :: 0 <= k < |ds| ==> 0 <= DigitValue(ds[k]) < base)
    && (|ds| > 1 ==> ds[0] != '0')
  }

  lemma {:induction false} DigitsAre(n: nat, base: nat)
    requires 2 <= base <= 16
    ensures Written(Digits(n, base), base) && (n > 0 ==> Digits(n, base)[0] != '0')
    decreases n
  {
    if n >= base {
      DivMod(n, base);
      DigitsAre(n / base, base);
    }
  }

  /**
   %u, %o, %x and %p print the word in base 10, 8, 16 and 16; "0x" goes before %p always and before %x
   with a #, "0" before %o with a #.
   */
  lemma UnsignedForm(mods: string, ch: char, rest: string, args: nat -> Arg, i: nat) returns (ds: string)
    requires AllModifiers(mods) && ch in "uoxp" && ArgsOk(args, i + |mods| + |rest| + 3)
    ensures var base := if ch == 'u' then 10 else if ch == 'o' then 8 else 16;
            Written(ds, base) && Value(ds, base) == args(i).word
    ensures var prefix := if ch == 'p' || (ch == 'x' && '#' in mods) then "0x"
                          else if ch == 'o' && '#' in mods then "0" else "";
            Output(RESET, "%" + (mods + ([ch] + rest)), args, i) ==
            Shaped(mods, prefix, ds) + Output(RESET, rest, args, i + 1)
  {
    hide Output, ModifiedBy, Value, Digits, Field, Shaped, Written, Numeral;
    var f := ModifiedBy(RESET.(inPct := true), mods);
    var base := if ch == 'u' then 10 else if ch == 'o' then 8 else 16;
    var word := args(i).word;
    Conversion(mods, ch, rest, args, i);
    ModifiersMean(mods);
    ds := Digits(word, base);
    DigitsAre(word, base);
    DigitsValue(word, base);
    FieldShaped(mods, "", BasePrefix(f, ch), ds);
    assert "" + BasePrefix(f, ch) == BasePrefix(f, ch);
  }

  /** %d prints the number the word stands for: a minus sign if it is negative, and its magnitude in base 10. */
  lemma SignedForm(mods: string, rest: string, args: nat -> Arg, i: nat, n: int) returns (ds: string)
    requires AllModifiers(mods) && ArgsOk(args, i + |mods| + |rest| + 3) && IsInt(n) && args(i).word == Word(n)
    ensures Written(ds, 10) && Value(ds, 10) == if n < 0 then -n else n
    ensures Output(RESET, "%" + (mods + (['d'] + rest)), args, i) ==
            Shaped(mods, if n < 0 then "-" else "", ds) + Output(RESET, rest, args, i + 1)
  {
    hide Output, ModifiedBy, Value, Digits, Field, Shaped, Written, Numeral;
    var f := ModifiedBy(RESET.(inPct := true), mods);
    Conversion(mods, 'd', rest, args, i);
    MagnitudeOf(n);
    var m := if n < 0 then -n else n;
    ds := Digits(m, 10);
    DigitsAre(m, 10);
    DigitsValue(m, 10);
    var sign := if n < 0 then "-" else "";
    FieldShaped(mods, sign, "", ds);
    assert sign + "" == sign;
  }

  // ---------------------------------------------------------------------------------------
  // Text

  lemma Plain()
    ensures IsConversion('s') && IsConversion('c')
  {
  }

  lemma TextShaped(mods: string, text: string)
    requires AllModifiers(mods)
    ensures Field(ModifiedBy(RESET.(inPct := true), mods), "", "", text) == Shaped(mods, "", text)
  {
    hide ModifiedBy, Shaped, Field;
    FieldShaped(mods, "", "", text);
    assert "" + "" == "";
  }

  lemma SentText(f: Spec, ch: char, arg: Arg)
    requires f.inPct && (ch == 's' || ch == 'c') && arg.word < WORD
    ensures var text := if ch == 'c' then CharText(arg.word) else if arg.text.Null? then "(null)" else arg.text.s;
            SendChar(f, ch, arg) == Sent(Field(f, "", "", text), RESET, true)
  {
    hide Number, Field, Modified, CharText;
  }

  /** %s prints the string, or "(null)" for a null pointer. */
  lemma StringForm(mods: string, rest: string, args: nat -> Arg, i: nat)
    requires AllModifiers(mods) && ArgsOk(args, i + |mods| + |rest| + 3)
    ensures Output(RESET, "%" + (mods + (['s'] + rest)), args, i) ==
            Shaped(mods, "", if args(i).text.Null? then "(null)" else args(i).text.s) + Output(RESET, rest, args, i + 1)
  {
    hide Output, ModifiedBy, Field, Shaped, SendChar, IsConversion, IsModifier;
    Plain();
    Conversion(mods, 's', rest, args, i);
    SentText(ModifiedBy(RESET.(inPct := true), mods), 's', args(i));
    TextShaped(mods, if args(i).text.Null? then "(null)" else args(i).text.s);
  }

  /** %c prints the character that the low byte of its argument is, and nothing for a NUL. */
  lemma CharForm(mods: string, rest: string, args: nat -> Arg, i: nat)
    requires AllModifiers(mods) && ArgsOk(args, i + |mods| + |rest| + 3)
    ensures var b := args(i).word % 256;
            Output(RESET, "%" + (mods + (['c'] + rest)), args, i) ==
            Shaped(mods, "", if b == 0 then "" else [b as char]) + Output(RESET, rest, args, i + 1)
  {
    hide Output, ModifiedBy, Field, Shaped, SendChar, IsConversion, IsModifier;
    Plain();
    Conversion(mods, 'c', rest, args, i);
    SentText(ModifiedBy(RESET.(inPct := true), mods), 'c', args(i));
    TextShaped(mods, CharText(args(i).word));
  }

  /** Any other character, a percent sign among them, prints itself and takes no argument. */
  lemma OtherForm(mods: string, ch: char, rest: string, args: nat -> Arg, i: nat)
    requires AllModifiers(mods) && IsConversion(ch) && ch !in "doupxsc" && ArgsOk(args, i + |mods| + |rest| + 3)
    ensures Output(RESET, "%" + (mods + ([ch] + rest)), args, i) ==
            Shaped(mods, "", [ch]) + Output(RESET, rest, args, i)
  {
    hide Output, ModifiedBy, Field, Shaped;
    Conversion(mods, ch, rest, args, i);
    TextShaped(mods, [ch]);
  }

  lemma Bare(ch: char, args: nat -> Arg)
    requires IsInteger(ch) && ArgsOk(args, 3)
    ensures Output(RESET, "%" + [ch], args, 0) == Number(RESET.(inPct := true), ch, args(0).word)
  {
    hide Output, Number;
    Conversion([], ch, [], args, 0);
    assert "%" + ([] + ([ch] + [])) == "%" + [ch];
    assert Output(RESET, [], args, 1) == [] by { OutputDone(RESET, [], args, 1); }
  }

  lemma {:induction false} Digits255()
    ensures Digits(255, 16) == "ff" && Digits(255, 8) == "377" && Digits(255, 10) == "255"
  {
    assert Digits(15, 16) == "f" && Digits(255, 16) == Digits(15, 16) + [Digit(15)];
    assert Digits(3, 8) == "3" && Digits(31, 8) == Digits(3, 8) + [Digit(7)];
    assert Digits(255, 8) == Digits(31, 8) + [Digit(7)];
    assert Digits(2, 10) == "2" && Digits(25, 10) == Digits(2, 10) + [Digit(5)];
    assert Digits(255, 10) == Digits(25, 10) + [Digit(5)];
  }

  lemma NoField(prefix: string, text: string)
    ensures Field(RESET.(inPct := true), "", prefix, text) == prefix + text
  {
  }

  /** 255 in the bases of the conversions. */
  lemma TwoFiftyFive(args: nat -> Arg)
    requires ArgsOk(args, 3) && args(0).word == 255
    ensures Output(RESET, "%x", args, 0) == "ff" && Output(RESET, "%o", args, 0) == "377"
    ensures Output(RESET, "%u", args, 0) == "255" && Output(RESET, "%p", args, 0) == "0xff"
  {
    hide Output, Digits, Field;
    Bare('x', args);
    Bare('o', args);
    Bare('u', args);
    Bare('p', args);
    assert "%" + ['x'] == "%x" && "%" + ['o'] == "%o" && "%" + ['u'] == "%u" && "%" + ['p'] == "%p";
    Digits255();
    NoField("", "ff");
    NoField("", "377");
    NoField("", "255");
    NoField("0x", "ff");
  }
}
