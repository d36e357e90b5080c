// Whole directives of dopr (src/swig/CCache/snprintf.c) against section 7.19.6.1 of ISO/IEC 9899:1999: how each
// reads a directive, and when the text that follows is the same.
module C99Directives {
  import opened C99Integers
  import opened Snprintf

  // ------------------------------------------------------------------------------------------------
  // What C99 reads
  // ------------------------------------------------------------------------------------------------

  /** The length modifiers: hh, h, l, ll, L, and j, z or t. */
  datatype Size = IntSize | CharSize | ShortSize | LongSize | LongLongSize | LongDoubleSize | OtherSize

  /** A directive up to its conversion at `next`; a precision below zero is none, and `bare` says that it was a
      period alone. `va` are the arguments left. */
  datatype Spec =
    Spec(flags: Flags, width: int, precision: int, bare: bool, size: Size, next: nat, va: seq<Arg>)

  function SizeOf(f: string, i: nat): Size {
    match At(f, i)
    case 'h' => if At(f, i + 1) == 'h' then CharSize else ShortSize
    case 'l' => if At(f, i + 1) == 'l' then LongLongSize else LongSize
    case 'L' => LongDoubleSize
    case 'j' => OtherSize
    case 'z' => OtherSize
    case 't' => OtherSize
    case _ => IntSize
  }

  function SizeWidth(z: Size): nat {
    match z
    case IntSize => 0
    case CharSize => 2
    case LongLongSize => 2
    case _ => 1
  }

  /** Behind the width: a period alone is precision zero. */
  function C99ReadDot(f: string, i: nat, flags: Flags, width: int, va: seq<Arg>): Spec {
    if At(f, i) != '.' then Spec(flags, width, -1, false, SizeOf(f, i), i + SizeWidth(SizeOf(f, i)), va)
    else if At(f, i + 1) == '*' then
      var z := SizeOf(f, i + 2);
      Spec(flags, width, NextNumber(va), false, z, i + 2 + SizeWidth(z), Rest(va))
    else
      var k := DigitsEnd(f, i + 1);
      var z := SizeOf(f, k);
      Spec(flags, width, if i + 1 <= k <= |f| then Decimal(0, f[i + 1..k]) else 0, k == i + 1, z, k + SizeWidth(z), va)
  }

  /** The directive whose '%' stands before `i`. */
  function C99Read(f: string, i: nat, va: seq<Arg>): Spec
    requires i <= |f|
  {
    var j := FlagsEnd(f, i);
    var flags := WithFlags(NO_FLAGS, f[i..j]);
    if At(f, j) == '*' then C99ReadDot(f, j + 1, flags, NextNumber(va), Rest(va))
    else C99ReadDot(f, DigitsEnd(f, j), flags, Decimal(0, f[j..DigitsEnd(f, j)]), va)
  }

  function Signed16(v: int): int {
    var u := v % 0x1_0000;
    if u < 0x8000 then u else u - 0x1_0000
  }

  /** The value that is converted: an h narrows the promoted argument back. */
  function C99Signed(z: Size, v: int): int {
    if z.ShortSize? then Signed16(v) else if z.LongSize? || z.LongLongSize? then Signed64(v) else Signed32(v)
  }

  function C99Unsigned(z: Size, v: int): int {
    if z.ShortSize? then v % 0x1_0000 else if z.LongSize? || z.LongLongSize? then v % TWO64 else v % TWO32
  }

  predicate IsInteger(c: char) { c in "diouxX" }

  predicate Signs(c: char) { c == 'd' || c == 'i' }

  function BaseOf(c: char): (b: nat)
    ensures b == 8 || b == 10 || b == 16
  {
    if c == 'o' then 8 else if c == 'x' || c == 'X' then 16 else 10
  }

  /** The flags of a conversion: all but d and i are unsigned, X has capital digits. */
  function FlagsOf(c: char, g: Flags): Flags { if Signs(c) then g else g.(unsigned := true, up := g.up || c == 'X') }

  function C99Value(c: char, s: Spec): int {
    var v := NextNumber(s.va);
    if Signs(c) then C99Signed(s.size, v) else C99Unsigned(s.size, v)
  }

  /** The text of an integer directive in C99. */
  function C99Text(c: char, s: Spec): string {
    C99Int(C99Value(c, s), BaseOf(c), s.width, s.precision, FlagsOf(c, s.flags))
  }

  // ------------------------------------------------------------------------------------------------
  // What dopr reads of it
  // ------------------------------------------------------------------------------------------------

  const START: Directive := Directive(NO_FLAGS, 0, -1, NoModifier, 0, [])

  /** What dopr holds at the conversion character. */
  function CodeRead(f: string, i: nat, va: seq<Arg>): (d: Directive)
    requires i <= |f|
    ensures i <= d.next <= |f|
  {
    ReadFlags(f, i, START.(va := va))
  }

  function ModifierOf(z: Size): Modifier {
    match z
    case ShortSize => Short
    case LongSize => Long
    case LongLongSize => LongLong
    case LongDoubleSize => LongDouble
    case _ => NoModifier
  }

  /** The sizes that both know. */
  predicate Shared(z: Size) { z.IntSize? || z.ShortSize? || z.LongSize? || z.LongLongSize? }

  predicate Compared(c: char) { IsInteger(c) || c == 's' || c == 'c' }

  /** dopr reads a directive of C99 as C99 does, but for a period alone, which it takes for no precision. */
  ghost predicate SameReading(d: Directive, s: Spec) {
    d.flags == s.flags && d.min == s.width && d.max == (if s.bare then -1 else s.precision) &&
    d.modifier == ModifierOf(s.size) && d.next == s.next && d.va == s.va
  }

  lemma SameModifier(f: string, i: nat, d: Directive)
    requires Shared(SizeOf(f, i)) && d.modifier == NoModifier
    ensures ReadModifier(f, i, d) == d.(modifier := ModifierOf(SizeOf(f, i)), next := i + SizeWidth(SizeOf(f, i)))
  {
  }

  lemma SameDot(f: string, i: nat, d: Directive, flags: Flags, width: int, va: seq<Arg>)
    requires i <= |f| && d == Directive(flags, width, -1, NoModifier, 0, va)
    requires var s := C99ReadDot(f, i, flags, width, va); Shared(s.size) && Compared(At(f, s.next))
    ensures SameReading(ReadDot(f, i, d), C99ReadDot(f, i, flags, width, va))
  {
    hide ReadModifier, SizeOf, SizeWidth, Decimal, ModifierOf;
    var s := C99ReadDot(f, i, flags, width, va);
    if At(f, i) != '.' {
      SameModifier(f, i, d);
    } else if At(f, i + 1) == '*' {
      SameModifier(f, i + 2, d.(max := NextNumber(va), va := Rest(va)));
    } else {
      var k := DigitsEnd(f, i + 1);
      StarEndsReading(f, k);
      SameModifier(f, k, if k == i + 1 then d else d.(max := Decimal(0, f[i + 1..k])));
    }
  }

  /** A '*' behind digits belongs to no directive of C99. */
  lemma StarEndsReading(f: string, k: nat)
    requires Compared(At(f, k + SizeWidth(SizeOf(f, k))))
    ensures At(f, k) != '*'
  {
  }

  lemma SameDirective(f: string, i: nat, va: seq<Arg>)
    requires i <= |f|
    requires var s := C99Read(f, i, va); Shared(s.size) && Compared(At(f, s.next))
    ensures SameReading(CodeRead(f, i, va), C99Read(f, i, va))
  {
    hide ReadDot, C99ReadDot, SameReading, Decimal;
    var j := FlagsEnd(f, i);
    var flags := WithFlags(NO_FLAGS, f[i..j]);
    if At(f, j) == '*' {
      var width, rest := NextNumber(va), Rest(va);
      SameDot(f, j + 1, Directive(flags, width, -1, NoModifier, 0, rest), flags, width, rest);
    } else {
      var k := DigitsEnd(f, j);
      var width := Decimal(0, f[j..k]);
      StarEndsDot(f, k, flags, width, va);
      SameDot(f, k, Directive(flags, width, -1, NoModifier, 0, va), flags, width, va);
    }
  }

  lemma StarEndsDot(f: string, k: nat, flags: Flags, width: int, va: seq<Arg>)
    requires Compared(At(f, C99ReadDot(f, k, flags, width, va).next))
    ensures At(f, k) != '*'
  {
  }

  // ------------------------------------------------------------------------------------------------
  // Integer directives
  // ------------------------------------------------------------------------------------------------

  /** The value dopr converts: an h is read and forgotten. */
  function CodeValue(c: char, d: Directive): int {
    var v := NextNumber(d.va);
    if Signs(c) then SignedArg(d.modifier, v) else UnsignedArg(d.modifier, v)
  }

  /** A period alone leaves the precision at -1, which fmtint takes for zero. */
  lemma ConvertIs(c: char, d: Directive, s: Spec, fp: (real, int, int, Flags) -> string)
    requires IsInteger(c) && SameReading(d, s) && (s.bare ==> s.precision == 0)
    ensures Convert(c, d, fp) == IntText(CodeValue(c, d), BaseOf(c), s.width, s.precision, FlagsOf(c, s.flags))
  {
    assert d.flags == s.flags && Max(d.max, 0) == Max(s.precision, 0);
    PrecisionFloor(CodeValue(c, d), BaseOf(c), s.width, d.max, s.precision, FlagsOf(c, s.flags));
    hide IntText, SignedArg, UnsignedArg, Max;
  }

  lemma PrecisionFloor(value: int, base: nat, width: int, max: int, precision: int, flags: Flags)
    requires 2 <= base <= 16 && Max(max, 0) == Max(precision, 0)
    ensures IntText(value, base, width, max, flags) == IntText(value, base, width, precision, flags)
  {
  }

  lemma BareIsZero(f: string, i: nat, va: seq<Arg>)
    requires i <= |f|
    ensures var s := C99Read(f, i, va); s.bare ==> s.precision == 0
  {
  }

  /** An h directive agrees for the values of a short, or of an unsigned short. */
  predicate Narrows(c: char, s: Spec) {
    var v := NextNumber(s.va);
    s.size.ShortSize? ==> if Signs(c) then -0x8000 <= Signed32(v) < 0x8000 else v % TWO32 < 0x1_0000
  }

  lemma ValuesAre(c: char, d: Directive, s: Spec)
    requires IsInteger(c) && SameReading(d, s) && Shared(s.size) && !s.flags.unsigned
    ensures SameNumber(CodeValue(c, d), C99Value(c, s), FlagsOf(c, s.flags)) <==> Narrows(c, s)
    ensures s.size.ShortSize? ==> Magnitude(CodeValue(c, d), FlagsOf(c, s.flags)) < TWO32
  {
    var v := NextNumber(s.va);
    assert d.modifier == ModifierOf(s.size) && NextNumber(d.va) == v;
    var flags := FlagsOf(c, s.flags);
    assert flags.unsigned <==> !Signs(c);
    hide SameReading, FlagsOf, SameNumber, SignedArg, UnsignedArg, C99Signed, C99Unsigned, Magnitude, Signed32;
    SignedValues(s.size, v, flags);
    UnsignedValues(s.size, v, flags);
  }

  lemma SignedValues(z: Size, v: int, flags: Flags)
    requires Shared(z)
    ensures var a, b := SignedArg(ModifierOf(z), v), C99Signed(z, v);
            !flags.unsigned ==>
              (SameNumber(a, b, flags) <==> (z.ShortSize? ==> -0x8000 <= Signed32(v) < 0x8000)) &&
              (z.ShortSize? ==> Magnitude(a, flags) < TWO32)
  {
    var a, b := SignedArg(ModifierOf(z), v), C99Signed(z, v);
    if !flags.unsigned {
      if z.ShortSize? {
        Residues(v);
        MagnitudeIs(a, flags);
        MagnitudeIs(b, flags);
        assert a == b <==> -0x8000 <= a < 0x8000;
        hide Signed32, Signed16, Magnitude;
      }
    }
  }

  /** A small value is told by its magnitude and sign. */
  lemma MagnitudeIs(a: int, flags: Flags)
    requires !flags.unsigned && -TWO63 < a < TWO63
    ensures Magnitude(a, flags) == (if a >= 0 then a else -a) && (Sign(a, flags) == "-" <==> a < 0)
  {
  }

  lemma UnsignedValues(z: Size, v: int, flags: Flags)
    requires Shared(z)
    ensures var a, b := UnsignedArg(ModifierOf(z), v), C99Unsigned(z, v);
            flags.unsigned ==>
              (SameNumber(a, b, flags) <==> (z.ShortSize? ==> v % TWO32 < 0x1_0000)) &&
              (z.ShortSize? ==> Magnitude(a, flags) < TWO32)
  {
    var a, b := UnsignedArg(ModifierOf(z), v), C99Unsigned(z, v);
    if z.ShortSize? {
      Residues(v);
      SmallRemainder(a, TWO64);
      SmallRemainder(b, TWO64);
    } else if z.IntSize? {
      assert a == b;
    } else {
      LongResidue(v);
    }
  }

  lemma LongResidue(v: int)
    ensures Signed64(v) % TWO64 == v % TWO64 % TWO64
  {
  }

  lemma Residues(v: int)
    ensures v % 0x1_0000 == v % TWO32 % 0x1_0000
  {
  }

  /** When an integer directive of dopr gives the text of C99. */
  predicate DirectiveAgrees(c: char, s: Spec) {
    Narrows(c, s) && IntAgrees(C99Value(c, s), BaseOf(c), s.width, s.precision, FlagsOf(c, s.flags))
  }

  lemma ReadsUnsigned(f: string, i: nat, va: seq<Arg>)
    requires i <= |f|
    ensures !C99Read(f, i, va).flags.unsigned
  {
  }

  lemma ConvertIff(c: char, d: Directive, s: Spec, fp: (real, int, int, Flags) -> string)
    requires IsInteger(c) && SameReading(d, s) && Shared(s.size) && (s.bare ==> s.precision == 0) && !s.flags.unsigned
    ensures Convert(c, d, fp) == C99Text(c, s) <==> DirectiveAgrees(c, s)
  {
    var flags, base := FlagsOf(c, s.flags), BaseOf(c);
    ConvertIs(c, d, s, fp);
    ValuesAre(c, d, s);
    var a, b := CodeValue(c, d), C99Value(c, s);
    if s.size.ShortSize? {
      ShortIsShort(base);
      hide IntText, C99Int, IntAgrees, Narrows, SameNumber, Magnitude, Power;
      TwoValuesIff(a, b, base, s.width, s.precision, flags);
    } else {
      assert SameNumber(a, b, flags);
      assert IntText(a, base, s.width, s.precision, flags) == IntText(b, base, s.width, s.precision, flags);
      hide IntText, C99Int, IntAgrees, SameNumber;
      IntMatchesC99Iff(b, base, s.width, s.precision, flags);
    }
  }

  /** A value of 32 bits has at most nineteen digits. */
  lemma ShortIsShort(base: nat)
    requires base == 8 || base == 10 || base == 16
    ensures TWO32 < Power(base, MAX_DIGITS)
  {
    AtLeastEights(base, 11);
    Eights();
    MorePower(base, 11, MAX_DIGITS);
  }

  lemma {:induction false} AtLeastEights(base: nat, k: nat)
    requires base >= 8
    ensures Power(base, k) >= Power(8, k)
  {
    if k > 0 {
      AtLeastEights(base, k - 1);
      ProductGrows(8, base, Power(8, k - 1), Power(base, k - 1));
    }
  }

  lemma ProductGrows(a: nat, b: nat, x: nat, y: nat)
    requires a <= b && x <= y
    ensures a * x <= b * y
  {
    assert a * x <= a * y;
    assert a * y <= b * y;
  }

  lemma Eights()
    ensures Power(8, 11) == 0x2_0000_0000
  {
    assert Power(8, 3) == 512;
    assert Power(8, 5) == 64 * Power(8, 3);
    assert Power(8, 7) == 64 * Power(8, 5);
    assert Power(8, 9) == 64 * Power(8, 7);
    assert Power(8, 11) == 64 * Power(8, 9);
  }

  lemma {:induction false} MorePower(base: nat, k: nat, n: nat)
    requires base >= 1 && k <= n
    ensures Power(base, k) <= Power(base, n)
    decreases n
  {
    if k < n {
      MorePower(base, k, n - 1);
      ProductGrows(1, base, Power(base, n - 1), Power(base, n - 1));
    }
  }

  lemma SameTail<T>(a: seq<T>, b: seq<T>, r: seq<T>)
    ensures a + r == b + r <==> a == b
  {
    if a + r == b + r {
      assert |a| == |b|;
      assert a == (a + r)[..|a|] && b == (b + r)[..|b|];
    }
  }

  lemma RenderIs(f: string, i: nat, va: seq<Arg>, fp: (real, int, int, Flags) -> string)
    requires i < |f| && f[i] == '%' && At(f, CodeRead(f, i + 1, va).next) != '\0'
    ensures var d := CodeRead(f, i + 1, va);
            var c := At(f, d.next);
            Render(f, i, va, fp) ==
            Convert(c, d, fp) +
            Render(f, d.next + (if c == 'w' then 2 else 1), if TakesArgument(c) then Rest(d.va) else d.va, fp)
  {
    hide ReadFlags, Convert, TakesArgument;
  }

  lemma IntegerIs(c: char)
    requires IsInteger(c)
    ensures c != '\0' && c != 'w' && TakesArgument(c) && Compared(c)
  {
  }

  lemma ReadingIs(d: Directive, s: Spec)
    requires SameReading(d, s)
    ensures d.next == s.next && d.va == s.va
  {
  }

  /** From a directive of d, i, o, u, x or X on, with any flags, width, precision and one of the sizes h, l, ll or
      none, dopr writes what C99 asks for and then the rest, exactly under the condition of the directive. */
  lemma IntDirectiveIff(f: string, i: nat, va: seq<Arg>, fp: (real, int, int, Flags) -> string)
    requires i < |f| && f[i] == '%'
    requires var s := C99Read(f, i + 1, va); Shared(s.size) && IsInteger(At(f, s.next))
    ensures var s := C99Read(f, i + 1, va);
            var c := At(f, s.next);
            Render(f, i, va, fp) == C99Text(c, s) + Render(f, s.next + 1, Rest(s.va), fp) <==> DirectiveAgrees(c, s)
  {
    hide *;
    var d, s := CodeRead(f, i + 1, va), C99Read(f, i + 1, va);
    var c := At(f, s.next);
    IntegerIs(c);
    SameDirective(f, i + 1, va);
    ReadingIs(d, s);
    BareIsZero(f, i + 1, va);
    ReadsUnsigned(f, i + 1, va);
    RenderIs(f, i, va, fp);
    ConvertIff(c, d, s, fp);
    SameTail(Convert(c, d, fp), C99Text(c, s), Render(f, s.next + 1, Rest(s.va), fp));
  }

  // ------------------------------------------------------------------------------------------------
  // String directives
  // ------------------------------------------------------------------------------------------------

  /** When a %s directive is what C99 says for all values of length `n`: as for its width and precision, and a
      period alone, which asks for nothing of the value, does only where there is nothing. */
  predicate StrDirectiveAgrees(n: nat, s: Spec) {
    if s.bare then n == 0 && s.width >= 0 else StrAgrees(n, s.width, s.precision)
  }

  lemma XShows(n: nat, minus: bool, width: int)
    requires n > 0
    ensures 'x' in StrConversion(Fill(n, 'x'), minus, width, -1)
  {
    var v := Fill(n, 'x');
    var t := StrConversion(v, minus, width, -1);
    var at := if minus || width <= n then 0 else width - n;
    assert t[at] == 'x';
  }

  predicate NoNul(v: string) { forall k :: 0 <= k < |v| ==> v[k] != '\0' }

  lemma {:induction false} CStringIs(v: string)
    requires NoNul(v)
    ensures CString(v) == v
  {
    if v != "" {
      CStringIs(v[1..]);
      assert v == [v[0]] + v[1..];
    }
  }

  /** A %s directive of any flags, width and precision, whatever the characters of its argument, and whatever
      arguments follow. */
  lemma StrDirectiveIff(f: string, i: nat, va: seq<Arg>, n: nat, rest: seq<Arg>, fp: (real, int, int, Flags) -> string)
    requires i <= |f|
    requires var s := C99Read(f, i, va); s.size.IntSize? && At(f, s.next) == 's'
    ensures var d, s := CodeRead(f, i, va), C99Read(f, i, va);
            d.next == s.next && d.va == s.va &&
            (StrDirectiveAgrees(n, s) <==>
             forall v: string :: |v| == n && NoNul(v) ==>
               Convert('s', d.(va := [Text(v)] + rest), fp) == C99Str(v, s.flags.minus, s.width, s.precision))
  {
    var d, s := CodeRead(f, i, va), C99Read(f, i, va);
    SameDirective(f, i, va);
    BareIsZero(f, i, va);
    hide C99Read, CodeRead, StrConversion, C99Str, StrAgrees;
    forall v: string | NoNul(v)
      ensures Convert('s', d.(va := [Text(v)] + rest), fp) == StrConversion(v, s.flags.minus, s.width, d.max)
    {
      ConvertText(v, d, rest, fp);
    }
    hide Convert, NoNul;
    StrForLetters(n, s.flags.minus, s.width, s.precision, s.bare);
  }

  lemma ConvertText(v: string, d: Directive, rest: seq<Arg>, fp: (real, int, int, Flags) -> string)
    requires NoNul(v)
    ensures Convert('s', d.(va := [Text(v)] + rest), fp) == StrConversion(v, d.flags.minus, d.min, d.max)
  {
    CStringIs(v);
    hide NoNul, CString, StrConversion;
  }

  /** The values that decide are letters, so leaving out those with a NUL changes nothing. */
  lemma StrForLetters(n: nat, minus: bool, width: int, precision: int, bare: bool)
    requires bare ==> precision == 0
    ensures (if bare then n == 0 && width >= 0 else StrAgrees(n, width, precision)) <==>
            forall v: string :: |v| == n && NoNul(v) ==>
              StrConversion(v, minus, width, if bare then -1 else precision) == C99Str(v, minus, width, precision)
  {
    var x := Fill(n, 'x');
    assert |x| == n && NoNul(x);
    if bare {
      if n == 0 && width >= 0 {
        StrBareSame(minus, width);
      } else {
        StrBareDiffers(n, minus, width);
      }
      hide StrConversion, C99Str;
    } else {
      StrMatchesC99Iff(n, minus, width, precision);
      if !StrAgrees(n, width, precision) {
        StrDiffers(n, minus, width, precision);
      }
      hide StrConversion, C99Str, StrAgrees;
    }
  }

  lemma StrBareSame(minus: bool, width: int)
    requires width >= 0
    ensures forall v: string :: |v| == 0 ==> StrConversion(v, minus, width, -1) == C99Str(v, minus, width, 0)
  {
  }

  lemma StrBareDiffers(n: nat, minus: bool, width: int)
    requires !(n == 0 && width >= 0)
    ensures StrConversion(Fill(n, 'x'), minus, width, -1) != C99Str(Fill(n, 'x'), minus, width, 0)
  {
    var v := Fill(n, 'x');
    if n > 0 {
      XShows(n, minus, width);
      assert 'x' !in C99Str(v, minus, width, 0);
    } else {
      assert |C99Str(v, minus, width, 0)| == -width && |StrConversion(v, minus, width, -1)| == 0;
    }
  }

  /** A %c directive: dopr writes the character alone, so it agrees exactly for widths that ask for no more. */
  lemma CharDirectiveIff(f: string, i: nat, va: seq<Arg>, fp: (real, int, int, Flags) -> string)
    requires i <= |f|
    requires var s := C99Read(f, i, va); s.size.IntSize? && At(f, s.next) == 'c'
    ensures var d, s := CodeRead(f, i, va), C99Read(f, i, va);
            d.next == s.next && d.va == s.va &&
            (Convert('c', d, fp) == C99Str([(NextNumber(s.va) % 256) as char], s.flags.minus, s.width, -1) <==>
             -1 <= s.width <= 1)
  {
    SameDirective(f, i, va);
    hide C99Read, CodeRead, C99Str;
    var s := C99Read(f, i, va);
    OneCharacter((NextNumber(s.va) % 256) as char, s.flags.minus, s.width);
  }

  lemma OneCharacter(c: char, minus: bool, width: int)
    ensures [c] == C99Str([c], minus, width, -1) <==> -1 <= width <= 1
  {
    var w := if width < 0 then -width else width;
    assert |C99Str([c], minus, width, -1)| == Max(w, 1);
    assert w <= 1 ==> Fill(w - 1, ' ') == "" && [c] + "" == [c] && "" + [c] == [c];
  }

  // ------------------------------------------------------------------------------------------------
  // Directives that show the differences
  // ------------------------------------------------------------------------------------------------

  /** hh, j, z and t: dopr takes a letter of the size for the conversion, and writes the conversion itself in
      place of a number; the argument stays for the next directive. */
  lemma OtherSizePrintsLetter(f: string, i: nat, va: seq<Arg>, fp: (real, int, int, Flags) -> string)
    requires i < |f| && f[i] == '%'
    requires var s := C99Read(f, i + 1, va); (s.size.CharSize? || s.size.OtherSize?) && Compared(At(f, s.next))
    ensures var s := C99Read(f, i + 1, va);
            Render(f, i, va, fp) == [At(f, s.next)] + Render(f, s.next + 1, s.va, fp)
  {
    var d, s := CodeRead(f, i + 1, va), C99Read(f, i + 1, va);
    hide *;
    LetterRead(f, i + 1, va);
    LetterWritesNothing(At(f, d.next), d, fp);
    ConversionStands(f, s.next);
    RenderIs(f, i, va, fp);
    RenderStep(f, s.next, s.va, fp);
    assert "" + Render(f, s.next, s.va, fp) == Render(f, s.next, s.va, fp);
  }

  lemma LetterWritesNothing(c: char, d: Directive, fp: (real, int, int, Flags) -> string)
    requires c in "hjzt"
    ensures c != '\0' && c != 'w' && Convert(c, d, fp) == "" && !TakesArgument(c)
  {
  }

  lemma ConversionStands(f: string, i: nat)
    requires Compared(At(f, i))
    ensures i < |f| && At(f, i) == f[i] && f[i] != '\0' && f[i] != '%'
  {
  }

  /** The last letter of the size stands where dopr looks for the conversion. */
  lemma LetterRead(f: string, i: nat, va: seq<Arg>)
    requires i <= |f|
    requires var s := C99Read(f, i, va); (s.size.CharSize? || s.size.OtherSize?) && Compared(At(f, s.next))
    ensures var d, s := CodeRead(f, i, va), C99Read(f, i, va);
            d.next + 1 == s.next && d.va == s.va && At(f, d.next) in "hjzt"
  {
    hide ReadDot, C99ReadDot, Decimal;
    var j := FlagsEnd(f, i);
    var flags := WithFlags(NO_FLAGS, f[i..j]);
    if At(f, j) == '*' {
      var width, rest := NextNumber(va), Rest(va);
      LetterDot(f, j + 1, Directive(flags, width, -1, NoModifier, 0, rest), flags, width, rest);
    } else {
      var k := DigitsEnd(f, j);
      var width := Decimal(0, f[j..k]);
      StarEndsDot(f, k, flags, width, va);
      LetterDot(f, k, Directive(flags, width, -1, NoModifier, 0, va), flags, width, va);
    }
  }

  lemma LetterDot(f: string, i: nat, d: Directive, flags: Flags, width: int, va: seq<Arg>)
    requires i <= |f| && d == Directive(flags, width, -1, NoModifier, 0, va)
    requires var s := C99ReadDot(f, i, flags, width, va);
             (s.size.CharSize? || s.size.OtherSize?) && Compared(At(f, s.next))
    ensures var r, s := ReadDot(f, i, d), C99ReadDot(f, i, flags, width, va);
            r.next + 1 == s.next && r.va == s.va && At(f, r.next) in "hjzt"
  {
    hide Decimal;
    if At(f, i) == '.' && At(f, i + 1) != '*' {
      StarEndsReading(f, DigitsEnd(f, i + 1));
    }
  }

  /** %.s of "abc" is "abc"; C99 asks for nothing. */
  lemma PeriodAloneShowsAll(fp: (real, int, int, Flags) -> string)
    ensures var va := [Text("abc")];
            var s := C99Read("%.s", 1, va);
            s == Spec(NO_FLAGS, 0, 0, true, IntSize, 2, va) && C99Str("abc", false, 0, 0) == "" &&
            Convert('s', CodeRead("%.s", 1, va), fp) == "abc"
  {
    var va := [Text("abc")];
    var v := "abc";
    assert NoNul(v);
    ReadsBareString(va);
    SameDirective("%.s", 1, va);
    BareShows(v, CodeRead("%.s", 1, va), C99Read("%.s", 1, va), fp);
    hide *;
  }

  lemma BareShows(v: string, d: Directive, s: Spec, fp: (real, int, int, Flags) -> string)
    requires NoNul(v) && s == Spec(NO_FLAGS, 0, 0, true, IntSize, s.next, [Text(v)]) && SameReading(d, s)
    ensures Convert('s', d, fp) == v && C99Str(v, false, 0, 0) == ""
  {
    ConvertText(v, d, [], fp);
    assert d.(va := [Text(v)] + []) == d;
    hide Convert;
    assert v[..|v|] == v && "" + v == v;
  }

  lemma ReadsBareString(va: seq<Arg>)
    ensures C99Read("%.s", 1, va) == Spec(NO_FLAGS, 0, 0, true, IntSize, 2, va) && At("%.s", 2) == 's'
  {
    var f := "%.s";
    assert FlagsEnd(f, 1) == 1 && DigitsEnd(f, 1) == 1 && DigitsEnd(f, 2) == 2;
    assert f[1..1] == "" && f[2..2] == "";
  }

  /** %05.d of 7 is "00007"; C99 asks for four spaces and a 7. */
  lemma PeriodAlonePadsWithZeros(fp: (real, int, int, Flags) -> string)
    ensures var va := [Number(7)];
            var s := C99Read("%05.d", 1, va);
            s == Spec(ZERO_FLAG, 5, 0, true, IntSize, 4, va) && C99Text('d', s) == "    7" &&
            Convert('d', CodeRead("%05.d", 1, va), fp) == "00007"
  {
    var va := [Number(7)];
    var s := Spec(ZERO_FLAG, 5, 0, true, IntSize, 4, va);
    ReadsBareNumber(va);
    SameDirective("%05.d", 1, va);
    SevenIs(s, CodeRead("%05.d", 1, va));
    hide *;
    ConvertIs('d', CodeRead("%05.d", 1, va), s, fp);
    SevenPadded();
  }

  lemma ReadsBareNumber(va: seq<Arg>)
    ensures C99Read("%05.d", 1, va) == Spec(ZERO_FLAG, 5, 0, true, IntSize, 4, va) && At("%05.d", 4) == 'd'
  {
    var f := "%05.d";
    assert FlagsEnd(f, 2) == 2 && DigitsEnd(f, 3) == 3 && DigitsEnd(f, 4) == 4;
    assert FlagsEnd(f, 1) == 2 && DigitsEnd(f, 2) == 3;
    assert f[1..2] == "0" && f[2..3] == "5" && f[4..4] == "";
    assert Decimal(0, "5") == Decimal(5, ""[..]) by {
      assert "5"[1..] == "";
    }
  }

  lemma SevenIs(s: Spec, d: Directive)
    requires s == Spec(ZERO_FLAG, 5, 0, true, IntSize, 4, [Number(7)]) && SameReading(d, s)
    ensures IsInteger('d') && BaseOf('d') == 10 && FlagsOf('d', s.flags) == ZERO_FLAG && CodeValue('d', d) == 7
    ensures C99Text('d', s) == C99Int(7, 10, 5, 0, ZERO_FLAG)
  {
    hide C99Int;
  }

  lemma SevenPadded()
    ensures C99Int(7, 10, 5, 0, ZERO_FLAG) == "    7" && IntText(7, 10, 5, 0, ZERO_FLAG) == "00007"
  {
    OneDigit(7);
    SmallRemainder(7, TWO64);
    hide LowDigits, Length, Place;
    assert Fill(4, '0') == "0000" && Fill(4, ' ') == "    " && Digit(7, false) == '7';
  }

  /** %hd of 70000 is not the 4464 of C99. */
  lemma ShortIsNotNarrowed(fp: (real, int, int, Flags) -> string)
    ensures var va := [Number(70000)];
            var s := C99Read("%hd", 1, va);
            s == Spec(NO_FLAGS, 0, -1, false, ShortSize, 2, va) && C99Value('d', s) == 4464 &&
            Convert('d', CodeRead("%hd", 1, va), fp) != C99Text('d', s)
  {
    var va := [Number(70000)];
    var s := Spec(NO_FLAGS, 0, -1, false, ShortSize, 2, va);
    ReadsShort(va);
    SameDirective("%hd", 1, va);
    assert IsInteger('d') && !Narrows('d', s) && C99Value('d', s) == 4464;
    assert !DirectiveAgrees('d', s);
    hide *;
    ConvertIff('d', CodeRead("%hd", 1, va), s, fp);
  }

  lemma ReadsShort(va: seq<Arg>)
    ensures C99Read("%hd", 1, va) == Spec(NO_FLAGS, 0, -1, false, ShortSize, 2, va) && At("%hd", 2) == 'd'
  {
    var f := "%hd";
    assert FlagsEnd(f, 1) == 1 && DigitsEnd(f, 1) == 1;
    assert f[1..1] == "";
  }
}
