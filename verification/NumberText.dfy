/** The characters of the formatter and of a hash name, in literals: which characters the digits are, which bytes of
    a format are flags, width and precision, and which conversions take an argument. */
module NumberText {
  import opened C99Directives
  import opened Snprintf
  import Hash

  const SMALL := "0123456789abcdef"
  const CAPITAL := "0123456789ABCDEF"

  // ----- Digits ----------------------------------------------------------------------------------

  lemma DigitIs(d: nat, up: bool)
    requires d < 16
    ensures Digit(d, up) == if up then "0123456789ABCDEF"[d] else "0123456789abcdef"[d]
  {
  }

  /** The digit at each place: that of the quotient by a power of the base. */
  lemma {:induction false} LowDigitAt(u: nat, base: nat, up: bool, k: nat, i: nat)
    requires 2 <= base <= 16 && i < k
    ensures Power(base, k - 1 - i) > 0
    ensures LowDigits(u, base, up, k)[i] ==
            (if up then "0123456789ABCDEF" else "0123456789abcdef")[u / Power(base, k - 1 - i) % base]
    decreases k
  {
    hide Digit;
    if i == k - 1 {
      DigitIs(u % base, up);
    } else {
      LowDigitAt(u / base, base, up, k - 1, i);
      QuotientTwice(u, base, Power(base, k - 2 - i));
    }
  }

  lemma QuotientTwice(u: nat, b: nat, p: nat)
    requires b > 0 && p > 0
    ensures b * p > 0 && u / b / p == u / (b * p)
  {
    Quotient(u, b);
    Quotient(u / b, p);
    Regroup(u / b / p, p, u / b % p, b, u % b);
    Scale(u / b % p, p, b, u % b);
    QuotientUnique(u, b * p, u / b / p, u / b % p * b + u % b);
  }

  lemma QuotientUnique(u: nat, m: nat, h: nat, r: nat)
    requires m > 0 && u == h * m + r && r < m
    ensures u / m == h
  {
    ModUnique(u, m, h, r);
    assert (u / m - h) * m == 0;
    SmallMultiple(u / m - h, m);
  }

  /** The characters of %x and %X: blanks and the sixteen digits of the case asked for. */
  lemma HexDigitsOnly(u: nat, up: bool, k: nat)
    ensures forall i :: 0 <= i < k ==>
              LowDigits(u, 16, up, k)[i] in if up then "0123456789ABCDEF" else "0123456789abcdef"
  {
    forall i | 0 <= i < k
      ensures LowDigits(u, 16, up, k)[i] in if up then "0123456789ABCDEF" else "0123456789abcdef"
    {
      LowDigitAt(u, 16, up, k, i);
    }
  }

  lemma HexDirective(c: char, d: Directive, fp: (real, int, int, Flags) -> string)
    requires (c == 'x' && !d.flags.up) || c == 'X'
    ensures forall k :: 0 <= k < |Convert(c, d, fp)| ==>
              Convert(c, d, fp)[k] in if c == 'X' then " 0123456789ABCDEF" else " 0123456789abcdef"
  {
    var flags := d.flags.(unsigned := true, up := c == 'X');
    var v := UnsignedArg(d.modifier, NextNumber(d.va));
    assert flags == if c == 'X' then d.flags.(unsigned := true).(up := true) else d.flags.(unsigned := true);
    assert Convert(c, d, fp) == IntText(v, 16, d.min, d.max, flags) by {
      hide IntText, UnsignedArg;
    }
    hide *;
    HexText(v, d.min, d.max, flags);
  }

  lemma HexText(v: int, min: int, max: int, flags: Flags)
    requires flags.unsigned
    ensures forall k :: 0 <= k < |IntText(v, 16, min, max, flags)| ==>
              IntText(v, 16, min, max, flags)[k] in if flags.up then " 0123456789ABCDEF" else " 0123456789abcdef"
  {
    HexDigitsOnly(Magnitude(v, flags), flags.up, Place(Magnitude(v, flags), 16));
    hide LowDigits, Place, Magnitude, SpacePad, ZeroPad;
  }

  // ----- Widths of integers ----------------------------------------------------------------------

  /** The only value of 32 or 64 bits that is the argument modulo 2^32 or 2^64. */
  lemma IntegerWidths(v: int)
    ensures -2147483648 <= Signed32(v) <= 2147483647 && (v - Signed32(v)) % 4294967296 == 0
    ensures 0 <= Unsigned32(v) <= 4294967295 && (v - Unsigned32(v)) % 4294967296 == 0
    ensures -9223372036854775808 <= Signed64(v) <= 9223372036854775807
    ensures (v - Signed64(v)) % 18446744073709551616 == 0
  {
  }

  /** The long sizes keep every value of 64 bits; h and no size keep the values of an int, and cut others to one. */
  lemma SizesKeep(m: Modifier, v: int)
    ensures m.Long? || m.LongLong? ==>
              (v - SignedArg(m, v)) % 18446744073709551616 == 0 && (v - UnsignedArg(m, v)) % 18446744073709551616 == 0
    ensures m.Short? || m.NoModifier? ==>
              -2147483648 <= SignedArg(m, v) <= 2147483647 && (v - SignedArg(m, v)) % 4294967296 == 0 &&
              0 <= UnsignedArg(m, v) <= 4294967295 && (v - UnsignedArg(m, v)) % 4294967296 == 0
  {
    IntegerWidths(v);
    hide Signed32, Signed64, Unsigned32;
  }

  lemma LongMagnitude(v: int, flags: Flags)
    requires -9223372036854775808 <= v <= 9223372036854775807
    ensures Magnitude(v, flags) == if v >= 0 then v else if flags.unsigned then v + 18446744073709551616 else -v
  {
  }

  /** An integer without width and precision: the sign of a signed value, a plus or a blank where a flag asks for
      it, and the digits of the magnitude; the value of 64 bits is read modulo 2^64 by the unsigned conversions. */
  lemma PlainNumber(v: int, base: nat, flags: Flags)
    requires 2 <= base <= 16 && -9223372036854775808 <= v <= 9223372036854775807
    ensures var u := if v >= 0 then v else if flags.unsigned then v + 18446744073709551616 else -v;
            var sign := if flags.unsigned then "" else if v < 0 then "-" else
                        if flags.plus then "+" else if flags.space then " " else "";
            IntText(v, base, 0, -1, flags) == sign + LowDigits(u, base, flags.up, Min(Length(u, base), 19))
  {
    LongMagnitude(v, flags);
    hide Magnitude, LowDigits, Length;
    var u := Magnitude(v, flags);
    var digits := LowDigits(u, base, flags.up, Place(u, base));
    assert "" + digits == digits;
    assert Sign(v, flags) + digits + "" == Sign(v, flags) + digits == "" + (Sign(v, flags) + digits);
  }

  // ----- How a directive is read -----------------------------------------------------------------

  predicate FlagChar(c: char) { c == '-' || c == '+' || c == ' ' || c == '#' || c == '0' }

  predicate AllFlags(run: string) { forall k :: 0 <= k < |run| ==> FlagChar(run[k]) }

  predicate TenDigit(c: char) { '0' <= c <= '9' }

  predicate TenDigits(s: string) { s != "" && forall k :: 0 <= k < |s| ==> TenDigit(s[k]) }

  /** The conversions that take an argument, and three letters that take none. */
  predicate Takes(c: char) { c in "diouxXpcsfeEgGn" }

  predicate TakesNone(c: char) { c == '%' || c == 'w' || c == 'k' }

  lemma Letters(c: char)
    requires Takes(c) || TakesNone(c)
    ensures !FlagChar(c) && !TenDigit(c) && c != '*' && c != '.' && c != 'h' && c != 'l' && c != 'L' && c != '\0'
    ensures TakesArgument(c) <==> Takes(c)
    ensures Takes(c) ==> !TakesNone(c) && c != 'w'
  {
  }

  lemma Classes(c: char)
    ensures IsFlag(c) <==> FlagChar(c)
    ensures IsDigit(c) <==> TenDigit(c)
    ensures '1' <= c <= '9' ==> !FlagChar(c)
    ensures !TenDigit('.')
  {
  }

  lemma {:induction false} FlagsEndIs(f: string, i: nat, j: nat)
    requires i <= j <= |f| && forall k :: i <= k < j ==> FlagChar(f[k])
    requires j == |f| || !FlagChar(f[j])
    ensures FlagsEnd(f, i) == j
    decreases j - i
  {
    if i < j {
      FlagsEndIs(f, i + 1, j);
    }
  }

  lemma {:induction false} DigitsEndIs(f: string, i: nat, j: nat)
    requires i <= j <= |f| && forall k :: i <= k < j ==> TenDigit(f[k])
    requires j == |f| || !TenDigit(f[j])
    ensures DigitsEnd(f, i) == j
    decreases j - i
  {
    if i < j {
      DigitsEndIs(f, i + 1, j);
    }
  }

  lemma {:induction false} DecimalLast(n: int, s: string, c: char)
    ensures Decimal(n, s + [c]) == 10 * Decimal(n, s) + (c as int - '0' as int)
    decreases |s|
  {
    if s == "" {
      assert (s + [c])[1..] == "";
    } else {
      assert (s + [c])[1..] == s[1..] + [c] && (s + [c])[0] == s[0];
      DecimalLast(10 * n + (s[0] as int - '0' as int), s[1..], c);
    }
  }

  /** A number in digits is read back. */
  lemma {:induction false} DecimalIs(u: nat, k: nat)
    requires u < Power(10, k)
    ensures Decimal(0, LowDigits(u, 10, false, k)) == u
    decreases k
  {
    if k > 0 {
      DecimalIs(u / 10, k - 1);
      hide Decimal;
      DecimalLast(0, LowDigits(u / 10, 10, false, k - 1), Digit(u % 10, false));
    }
  }

  lemma DecimalDigits(u: nat, k: nat)
    requires k > 0
    ensures TenDigits(LowDigits(u, 10, false, k))
  {
    hide Power, LowDigits;
    forall i | 0 <= i < k
      ensures TenDigit(LowDigits(u, 10, false, k)[i])
    {
      LowDigitAt(u, 10, false, k, i);
    }
  }

  /** A number above zero starts with another digit than zero. */
  lemma FirstDigit(u: nat)
    requires u > 0
    ensures '1' <= LowDigits(u, 10, false, Length(u, 10))[0] <= '9'
  {
    var k := Length(u, 10);
    LowDigitAt(u, 10, false, k, 0);
    LengthPower(u, 10, k);
    if k > 1 {
      LengthPower(u, 10, k - 1);
    }
    var p := Power(10, k - 1);
    assert p <= u < 10 * p;
    hide Length, LowDigits, Power;
    BetweenTens(u, p);
  }

  lemma BetweenTens(u: nat, p: nat)
    requires 0 < p <= u < 10 * p
    ensures 1 <= u / p <= 9
  {
    Quotient(u, p);
    var q := u / p;
    if q >= 10 {
      Scaled(10, q, p);
    }
  }

  lemma Scaled(a: nat, b: nat, p: nat)
    requires a <= b
    ensures a * p <= b * p
  {
  }

  /** Flags, a width, a period, a precision and a conversion: each is read where it stands, and as the number it is. */
  lemma DirectiveReads(run: string, w: nat, p: nat, c: char, rest: string, va: seq<Arg>)
    requires AllFlags(run) && w > 0 && (Takes(c) || TakesNone(c))
    ensures var width, precision := LowDigits(w, 10, false, Length(w, 10)), LowDigits(p, 10, false, Length(p, 10));
            var flags := Flags('-' in run, '+' in run, ' ' in run, '#' in run, '0' in run, false, false);
            CodeRead("%" + run + width + "." + precision + [c] + rest, 1, va) ==
            Directive(flags, w, p, NoModifier, |run| + |width| + |precision| + 2, va)
  {
    var width, precision := LowDigits(w, 10, false, Length(w, 10)), LowDigits(p, 10, false, Length(p, 10));
    hide *;
    LengthPower(w, 10, |width|);
    LengthPower(p, 10, |precision|);
    DecimalIs(w, |width|);
    DecimalIs(p, |precision|);
    DecimalDigits(w, |width|);
    DecimalDigits(p, |precision|);
    FirstDigit(w);
    TextParts(run, width, precision, c, rest);
    TextReads("%" + run + width + "." + precision + [c] + rest, run, width, precision, c, va);
  }

  lemma TextReads(f: string, run: string, width: string, precision: string, c: char, va: seq<Arg>)
    requires PartsAt(f, run, width, precision, c)
    requires AllFlags(run) && TenDigits(width) && TenDigits(precision) && (Takes(c) || TakesNone(c))
    requires width != "" && precision != "" && '1' <= width[0] <= '9'
    ensures var flags := Flags('-' in run, '+' in run, ' ' in run, '#' in run, '0' in run, false, false);
            CodeRead(f, 1, va) ==
            Directive(flags, Decimal(0, width), Decimal(0, precision), NoModifier,
                      |run| + |width| + |precision| + 2, va)
  {
    hide *;
    TextEnds(f, run, width, precision, c);
    ReadFrom(f, run, width, precision, c, va);
  }

  /** A text of the parts of a directive. */
  predicate PartsAt(f: string, run: string, width: string, precision: string, c: char) {
    var i, j, k := 1 + |run|, 1 + |run| + |width|, 2 + |run| + |width| + |precision|;
    k < |f| && f[1..i] == run && f[i..j] == width && f[j] == '.' && f[j + 1..k] == precision && f[k] == c
  }

  predicate EndsAt(f: string, run: string, width: string, precision: string) {
    var i, j, k := 1 + |run|, 1 + |run| + |width|, 2 + |run| + |width| + |precision|;
    FlagsEnd(f, 1) == i && DigitsEnd(f, i) == j && DigitsEnd(f, j + 1) == k
  }

  lemma TextEnds(f: string, run: string, width: string, precision: string, c: char)
    requires PartsAt(f, run, width, precision, c)
    requires AllFlags(run) && TenDigits(width) && TenDigits(precision) && (Takes(c) || TakesNone(c))
    requires width != "" && '1' <= width[0] <= '9'
    ensures EndsAt(f, run, width, precision)
  {
    var i, j, k := 1 + |run|, 1 + |run| + |width|, 2 + |run| + |width| + |precision|;
    assert f[1..i] == run && f[i..j] == width && f[j] == '.' && f[j + 1..k] == precision && f[k] == c && k < |f|;
    assert i < j && f[i] == f[i..j][0];
    hide *;
    Letters(c);
    Classes(width[0]);
    FlagsAt(f, run, i);
    DigitsAt(f, width, i, j);
    DigitsAt(f, precision, j + 1, k);
    EndsAre(f, run, width, precision);
  }

  lemma EndsAre(f: string, run: string, width: string, precision: string)
    requires var i, j, k := 1 + |run|, 1 + |run| + |width|, 2 + |run| + |width| + |precision|;
             FlagsEnd(f, 1) == i && DigitsEnd(f, i) == j && DigitsEnd(f, j + 1) == k
    ensures EndsAt(f, run, width, precision)
  {
    hide FlagsEnd, DigitsEnd;
  }

  lemma FlagsAt(f: string, run: string, i: nat)
    requires 1 <= i < |f| && f[1..i] == run && AllFlags(run) && !FlagChar(f[i])
    ensures FlagsEnd(f, 1) == i
  {
    hide FlagsEnd, FlagChar;
    assert forall m :: 1 <= m < i ==> f[m] == f[1..i][m - 1];
    FlagsEndIs(f, 1, i);
  }

  lemma DigitsAt(f: string, digits: string, i: nat, j: nat)
    requires i <= j < |f| && f[i..j] == digits && TenDigits(digits) && !TenDigit(f[j])
    ensures DigitsEnd(f, i) == j
  {
    hide DigitsEnd, TenDigit;
    assert forall m :: i <= m < j ==> f[m] == f[i..j][m - i];
    DigitsEndIs(f, i, j);
  }

  lemma ReadFrom(f: string, run: string, width: string, precision: string, c: char, va: seq<Arg>)
    requires PartsAt(f, run, width, precision, c) && EndsAt(f, run, width, precision)
    requires precision != "" && (Takes(c) || TakesNone(c))
    ensures var flags := Flags('-' in run, '+' in run, ' ' in run, '#' in run, '0' in run, false, false);
            CodeRead(f, 1, va) ==
            Directive(flags, Decimal(0, width), Decimal(0, precision), NoModifier,
                      |run| + |width| + |precision| + 2, va)
  {
    RunFlags(run);
    hide *;
    PartsSplit(f, run, width, precision, c);
    ReadAt(f, 1 + |run|, 1 + |run| + |width|, 2 + |run| + |width| + |precision|, c, va);
  }

  lemma PartsSplit(f: string, run: string, width: string, precision: string, c: char)
    requires PartsAt(f, run, width, precision, c) && EndsAt(f, run, width, precision)
    ensures var i, j, k := 1 + |run|, 1 + |run| + |width|, 2 + |run| + |width| + |precision|;
            k < |f| && f[1..i] == run && f[i..j] == width && f[j] == '.' && f[j + 1..k] == precision && f[k] == c &&
            FlagsEnd(f, 1) == i && DigitsEnd(f, i) == j && DigitsEnd(f, j + 1) == k
  {
    hide FlagsEnd, DigitsEnd;
  }

  lemma ReadAt(f: string, i: nat, j: nat, k: nat, c: char, va: seq<Arg>)
    requires 1 <= i <= j && j + 1 < k < |f| && f[j] == '.' && f[k] == c && (Takes(c) || TakesNone(c))
    requires FlagsEnd(f, 1) == i && DigitsEnd(f, i) == j && DigitsEnd(f, j + 1) == k
    ensures CodeRead(f, 1, va) ==
            Directive(WithFlags(NO_FLAGS, f[1..i]), Decimal(0, f[i..j]), Decimal(0, f[j + 1..k]), NoModifier, k, va)
  {
    var d := START.(va := va, flags := WithFlags(NO_FLAGS, f[1..i]));
    assert d.max == -1 && d.min == 0 && d.modifier == NoModifier;
    hide *;
    ReadHead(f, i, va);
    ReadMiddle(f, i, j, d);
    ReadTail(f, j, k, c, d.(min := Decimal(0, f[i..j])));
  }

  lemma RunFlags(run: string)
    ensures WithFlags(NO_FLAGS, run) == Flags('-' in run, '+' in run, ' ' in run, '#' in run, '0' in run, false, false)
  {
  }

  lemma ReadHead(f: string, i: nat, va: seq<Arg>)
    requires 1 <= i <= |f| && FlagsEnd(f, 1) == i
    ensures CodeRead(f, 1, va) == ReadWidth(f, i, START.(va := va, flags := WithFlags(NO_FLAGS, f[1..i])))
  {
    hide FlagsEnd, WithFlags, ReadWidth;
  }

  lemma ReadMiddle(f: string, i: nat, j: nat, d: Directive)
    requires i <= j < |f| && f[j] == '.' && DigitsEnd(f, i) == j
    ensures ReadWidth(f, i, d) == ReadDot(f, j, d.(min := Decimal(d.min, f[i..j])))
  {
    hide DigitsEnd, Decimal, ReadDot;
  }

  lemma ReadTail(f: string, j: nat, k: nat, c: char, d: Directive)
    requires j + 1 < k < |f| && f[j] == '.' && f[k] == c && (Takes(c) || TakesNone(c)) && DigitsEnd(f, j + 1) == k
    requires d.max == -1
    ensures ReadDot(f, j, d) == d.(max := Decimal(0, f[j + 1..k]), next := k)
  {
    Letters(c);
    hide Takes, TakesNone;
    hide DigitsEnd, Decimal;
  }

  lemma TextParts(run: string, width: string, precision: string, c: char, rest: string)
    ensures PartsAt("%" + run + width + "." + precision + [c] + rest, run, width, precision, c)
  {
  }

  // ----- What each conversion takes and writes ---------------------------------------------------

  /** A letter behind the percent sign is the conversion, with no flags, no width and no precision. */
  lemma SimpleDirective(f: string, i: nat, va: seq<Arg>)
    requires i + 1 < |f| && (Takes(f[i + 1]) || TakesNone(f[i + 1]))
    ensures CodeRead(f, i + 1, va) == Directive(NO_FLAGS, 0, -1, NoModifier, i + 1, va)
  {
    Letters(f[i + 1]);
    hide Takes, TakesNone, FlagChar, TenDigit;
    FlagsEndIs(f, i + 1, i + 1);
    DigitsEndIs(f, i + 1, i + 1);
    assert f[i + 1..i + 1] == "";
    RunFlags("");
    hide FlagsEnd, DigitsEnd, WithFlags, ReadWidth;
    ReadNothing(f, i + 1, START.(va := va));
  }

  lemma ReadNothing(f: string, i: nat, d: Directive)
    requires i < |f| && (Takes(f[i]) || TakesNone(f[i])) && DigitsEnd(f, i) == i
    ensures ReadWidth(f, i, d) == d.(next := i)
  {
    Letters(f[i]);
    assert f[i..i] == "" && Decimal(d.min, "") == d.min;
    hide DigitsEnd, Decimal, Takes, TakesNone, FlagChar, TenDigit;
    assert ReadWidth(f, i, d) == ReadDot(f, i, d) by {
      hide ReadDot;
    }
    hide ReadWidth, ReadPrecision;
  }

  /** The text of one such directive, and what the rest of the format makes of the arguments left. */
  lemma OneRendered(f: string, i: nat, va: seq<Arg>, fp: (real, int, int, Flags) -> string)
    requires i + 1 < |f| && f[i] == '%' && (Takes(f[i + 1]) || TakesNone(f[i + 1]))
    ensures Render(f, i, va, fp) ==
            Convert(f[i + 1], START.(va := va), fp) +
            Render(f, i + if f[i + 1] == 'w' then 3 else 2, if TakesNone(f[i + 1]) then va else Rest(va), fp)
  {
    Letters(f[i + 1]);
    SimpleDirective(f, i, va);
    ConvertNext(f[i + 1], START.(va := va), i + 1, fp);
    hide CodeRead, Convert, Render, Rest, Takes, TakesNone, TakesArgument, FlagChar, TenDigit;
    RenderIs(f, i, va, fp);
  }

  lemma Written(d: Directive, fp: (real, int, int, Flags) -> string)
    ensures Convert('%', d, fp) == "%" && Convert('k', d, fp) == Convert('w', d, fp) == ""
    ensures Convert('e', d, fp) == Convert('E', d, fp) == Convert('g', d, fp) == Convert('G', d, fp) == ""
    ensures Convert('n', d, fp) == ""
    ensures 0 <= NextNumber(d.va) < 256 ==> Convert('c', d, fp) == [NextNumber(d.va) as char]
  {
    hide IntText, StrConversion;
  }

  /** Two percent signs are one in the text, and take no argument. */
  lemma PercentIsPercent(rest: string, va: seq<Arg>, fp: (real, int, int, Flags) -> string)
    ensures Render("%%" + rest, 0, va, fp) == "%" + Render("%%" + rest, 2, va, fp)
  {
    var f := "%%" + rest;
    assert f[0] == '%' && f[1] == '%' && TakesNone('%');
    hide *;
    OneRendered(f, 0, va, fp);
    Written(START.(va := va), fp);
  }

  /** A pointer that is null reads as "(NULL)", other text up to its first NUL. */
  lemma StringArgument(v: string, more: string, va: seq<Arg>)
    requires NoNul(v)
    ensures NextText([NullPointer] + va) == "(NULL)"
    ensures NextText([Text(v)] + va) == v && NextText([Text(v + ['\0'] + more)] + va) == v
  {
    CStringIs(v);
    CStringStops(v, more);
    hide CString, NoNul;
  }

  /** fmtfp is called with the number of its argument, the width, the precision and the flags. */
  lemma FloatArgument(r: real, d: Directive, va: seq<Arg>, fp: (real, int, int, Flags) -> string)
    ensures Convert('f', d.(va := [Real(r)] + va), fp) == fp(r, d.min, d.max, d.flags)
  {
    hide IntText, StrConversion;
  }

  lemma {:induction false} CStringStops(v: string, more: string)
    requires NoNul(v)
    ensures CString(v + ['\0'] + more) == v
  {
    if v != "" {
      assert (v + ['\0'] + more)[1..] == v[1..] + ['\0'] + more;
      CStringStops(v[1..], more);
      assert v == [v[0]] + v[1..];
    }
  }

  lemma LastCharacter(f: string, n: nat, fp: (real, int, int, Flags) -> string)
    requires n < 256 && |f| == 4 && f[2] == '%' && f[3] == 'c'
    ensures Render(f, 2, [Number(n)], fp) == [n as char]
    ensures Render(f, 3, [Number(n)], fp) == "c"
  {
    assert Takes('c') && !TakesNone('c');
    hide Takes, TakesNone;
    OneRendered(f, 2, [Number(n)], fp);
    Written(START.(va := [Number(n)]), fp);
    hide CodeRead, Convert, IntText, StrConversion;
    assert Render(f, 4, Rest([Number(n)]), fp) == Render(f, 4, [Number(n)], fp) == "";
    assert f[3] != '%';
  }

  /** A directive of one letter in front of a last %c: d, i, o, u, x, X, p, c, s, f, e, E, g, G and n take an argument
      of their own, and five of them write nothing. */
  lemma TakesItsArgument(c: char, a: Arg, n: nat, fp: (real, int, int, Flags) -> string)
    requires n < 256 && c in "diouxXpcsfeEgGn"
    ensures Render(['%', c, '%', 'c'], 0, [a, Number(n)], fp) ==
            Convert(c, START.(va := [a, Number(n)]), fp) + [n as char]
    ensures c == 'e' || c == 'E' || c == 'g' || c == 'G' || c == 'n' ==>
              Render(['%', c, '%', 'c'], 0, [a, Number(n)], fp) == [n as char]
  {
    var f := ['%', c, '%', 'c'];
    var va := [a, Number(n)];
    assert Takes(c) && Rest(va) == [Number(n)];
    hide *;
    Letters(c);
    assert f[0] == '%' && f[1] == c && f[2] == '%' && f[3] == 'c';
    OneRendered(f, 0, va, fp);
    LastCharacter(f, n, fp);
    Written(START.(va := va), fp);
    assert "" + [n as char] == [n as char];
  }

  /** Two percent signs and a letter that is no conversion take none, and 'w' takes the character behind it away. */
  lemma TakesNoArgument(n: nat, fp: (real, int, int, Flags) -> string)
    requires n < 256
    ensures Render("%%%c", 0, [Number(n)], fp) == "%" + [n as char]
    ensures Render("%k%c", 0, [Number(n)], fp) == [n as char]
    ensures Render("%w%c", 0, [Number(n)], fp) == "c"
  {
    assert TakesNone('%') && TakesNone('k') && TakesNone('w');
    hide *;
    NoArgument("%%%c", n, fp);
    NoArgument("%k%c", n, fp);
    NoArgument("%w%c", n, fp);
    assert "" + [n as char] == [n as char] && "" + "c" == "c";
  }

  lemma NoArgument(f: string, n: nat, fp: (real, int, int, Flags) -> string)
    requires n < 256 && |f| == 4 && f[0] == '%' && f[2] == '%' && f[3] == 'c' && TakesNone(f[1])
    ensures f[1] == '%' ==> Render(f, 0, [Number(n)], fp) == "%" + [n as char]
    ensures f[1] == 'k' ==> Render(f, 0, [Number(n)], fp) == "" + [n as char]
    ensures f[1] == 'w' ==> Render(f, 0, [Number(n)], fp) == "" + "c"
  {
    hide *;
    Written(START.(va := [Number(n)]), fp);
    LastCharacter(f, n, fp);
    OneRendered(f, 0, [Number(n)], fp);
  }

  // ----- The text of a hash ----------------------------------------------------------------------

  /** The two digits of each byte, the high one first. */
  lemma {:induction false} HashDigits(sum: seq<bv8>, i: nat)
    requires i < |sum|
    ensures Hash.HexText(sum)[2 * i] == "0123456789abcdef"[sum[i] as nat / 16]
    ensures Hash.HexText(sum)[2 * i + 1] == "0123456789abcdef"[sum[i] as nat % 16]
    decreases |sum|
  {
    var n := |sum| - 1;
    if i < n {
      hide Hash.Hex;
      HashDigits(sum[..n], i);
    } else {
      TwoDigits(sum[n]);
      hide Hash.Hex;
    }
  }

  lemma TwoDigits(b: bv8)
    ensures Hash.Hex(b)[0] == "0123456789abcdef"[b as nat / 16] && Hash.Hex(b)[1] == "0123456789abcdef"[b as nat % 16]
  {
    ByteDigits(b as nat);
    hide LowDigits;
  }

  lemma ByteDigits(u: nat)
    requires u < 256
    ensures LowDigits(u, 16, false, 2)[0] == "0123456789abcdef"[u / 16]
    ensures LowDigits(u, 16, false, 2)[1] == "0123456789abcdef"[u % 16]
  {
    assert Power(16, 0) == 1 && Power(16, 1) == 16;
    hide LowDigits, Power;
    LowDigitAt(u, 16, false, 2, 0);
    LowDigitAt(u, 16, false, 2, 1);
    assert u / 16 % 16 == u / 16 && u / 1 == u;
  }

  /** Behind the digest stand a dash and the number of bytes in decimal digits. */
  lemma HashName(sum: seq<bv8>, n: nat)
    requires |sum| == 16
    ensures var t := Hash.ResultText(sum, n);
            |t| > 33 && t[32] == '-' && TenDigits(t[33..]) && Decimal(0, t[33..]) == n
  {
    var k := Length(n, 10);
    DecimalDigits(n, k);
    LengthPower(n, 10, k);
    DecimalIs(n, k);
    hide Hash.HexText, LowDigits, Length, Power, Decimal, TenDigits;
    assert Hash.ResultText(sum, n)[33..] == LowDigits(n, 10, false, k);
  }
}
