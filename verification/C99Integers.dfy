// The integer conversions of dopr (src/swig/CCache/snprintf.c) against those of C99, section 7.19.6.1 of
// ISO/IEC 9899:1999: where they agree, exactly, and inputs for which they do not.
module C99Integers {
  import opened Snprintf

  function Prefix(value: int, base: nat, flags: Flags): string {
    if flags.num && base == 16 && Magnitude(value, flags) != 0 then if flags.up then "0X" else "0x" else ""
  }

  /** The precision, raised for '#' so that an octal number starts with a zero. */
  function LeastDigits(value: int, base: nat, precision: int, flags: Flags): int
    requires 2 <= base <= 16
  {
    var u, p := Magnitude(value, flags), if precision < 0 then 1 else precision;
    if !flags.num || base != 8 then p
    else if u != 0 && p <= Length(u, base) then Length(u, base) + 1
    else Max(p, 1)
  }

  /** Zero with precision zero has no digits. */
  function C99Digits(value: int, base: nat, precision: int, flags: Flags): string
    requires 2 <= base <= 16
  {
    var u := Magnitude(value, flags);
    if u == 0 && LeastDigits(value, base, precision, flags) == 0 then ""
      else LowDigits(u, base, flags.up, Length(u, base))
  }

  /** Spaces, sign, zeros, digits, spaces. */
  function Lay(left: int, sign: string, zeros: int, digits: string, right: int): string {
    Fill(left, ' ') + (sign + (Fill(zeros, '0') + digits)) + Fill(right, ' ')
  }

  /** The spaces on each side, the zeros and the digits. */
  datatype Parts = Parts(left: nat, zeros: nat, digits: string, right: nat)

  /** What C99 asks for. A negative width is the '-' flag and a width, a negative precision is no precision; '#'
      makes an octal number start with a zero and gives a hexadecimal one a prefix; the '0' flag is ignored when
      there is a '-' flag or a precision. */
  function C99Parts(value: int, base: nat, width: int, precision: int, flags: Flags): Parts
    requires 2 <= base <= 16
  {
    var sign, digits := Sign(value, flags) + Prefix(value, base, flags), C99Digits(value, base, precision, flags);
    var zeros := Max(LeastDigits(value, base, precision, flags) - |digits|, 0);
    var pad := Max((if width < 0 then -width else width) - (|sign| + zeros + |digits|), 0);
    if flags.minus || width < 0 then Parts(0, zeros, digits, pad)
    else if flags.zero && precision < 0 then Parts(0, zeros + pad, digits, 0)
    else Parts(pad, zeros, digits, 0)
  }

  /** %d, %i, %u, %o, %x and %X of C99. */
  function C99Int(value: int, base: nat, width: int, precision: int, flags: Flags): string
    requires 2 <= base <= 16
  {
    var p := C99Parts(value, base, width, precision, flags);
    Lay(p.left, Sign(value, flags) + Prefix(value, base, flags), p.zeros, p.digits, p.right)
  }

  // ------------------------------------------------------------------------------------------------
  // A text tells its parts
  // ------------------------------------------------------------------------------------------------

  predicate DigitChar(c: char) { '0' <= c <= '9' || 'a' <= c <= 'f' || 'A' <= c <= 'F' }

  predicate AllDigits(s: string) { forall k :: 0 <= k < |s| ==> DigitChar(s[k]) }

  lemma {:induction false} DigitsAreDigits(u: nat, base: nat, up: bool, k: nat)
    requires 2 <= base <= 16
    ensures AllDigits(LowDigits(u, base, up, k))
    decreases k
  {
    if k > 0 {
      DigitsAreDigits(u / base, base, up, k - 1);
    }
  }

  /** The character at each place of a layout. */
  lemma LayAt(left: nat, sign: string, zeros: nat, digits: string, right: nat, k: nat)
    requires k < left + |sign| + zeros + |digits| + right
    ensures var t := Lay(left, sign, zeros, digits, right);
            |t| == left + |sign| + zeros + |digits| + right &&
            t[k] == if k < left then ' '
                    else if k < left + |sign| then sign[k - left]
                    else if k < left + |sign| + zeros then '0'
                    else if k < left + |sign| + zeros + |digits| then digits[k - left - |sign| - zeros]
                    else ' '
  {
  }

  predicate SignText(sign: string) { |sign| <= 1 && (sign != "" ==> !DigitChar(sign[0])) }

  /** The digits of a layout stand between its spaces. */
  lemma LayEnds(l: nat, sign: string, z: nat, d: string, r: nat)
    requires d != "" && AllDigits(d)
    ensures var t := Lay(l, sign, z, d, r); var n := l + |sign| + z + |d| + r;
            |t| == n && DigitChar(t[n - 1 - r]) && DigitChar(t[l + |sign|]) &&
            (forall k :: 0 <= k < l ==> t[k] == ' ') && (forall k :: n - r <= k < n ==> t[k] == ' ') &&
            (forall k :: l <= k < l + |sign| ==> t[k] == sign[k - l])
  {
    var t, n := Lay(l, sign, z, d, r), l + |sign| + z + |d| + r;
    LayAt(l, sign, z, d, r, n - 1 - r);
    LayAt(l, sign, z, d, r, l + |sign|);
    hide Lay;
    forall k | 0 <= k < n
      ensures k < l || n - r <= k ==> t[k] == ' '
      ensures l <= k < l + |sign| ==> t[k] == sign[k - l]
    {
      LayAt(l, sign, z, d, r, k);
    }
    assert DigitChar('0');
  }

  /** Two layouts with one sign that give the same text have the same spaces on both sides. */
  lemma LayInjective(l: nat, z: nat, d: string, r: nat, l': nat, z': nat, d': string, r': nat, sign: string)
    requires d != "" && d' != "" && AllDigits(d) && AllDigits(d') && SignText(sign)
    requires Lay(l, sign, z, d, r) == Lay(l', sign, z', d', r')
    ensures l == l' && r == r' && z + |d| == z' + |d'|
  {
    hide Lay, AllDigits;
    LayEnds(l, sign, z, d, r);
    LayEnds(l', sign, z', d', r');
    var t := Lay(l, sign, z, d, r);
    assert !DigitChar(' ');
    hide DigitChar;
    assert |t| - 1 - r < |t| - r' && |t| - 1 - r' < |t| - r;
    assert l + |sign| >= l' && l' + |sign| >= l;
  }

  // ------------------------------------------------------------------------------------------------
  // The two forms
  // ------------------------------------------------------------------------------------------------

  lemma SignIsText(value: int, flags: Flags)
    ensures SignText(Sign(value, flags))
  {
  }

  /** What fmtint leaves in front, between and behind. */
  function CodeSpaces(value: int, base: nat, width: int, precision: int, flags: Flags): nat
    requires 2 <= base <= 16
  {
    Max(SpacePad(Place(Magnitude(value, flags), base), |Sign(value, flags)|, width, Max(precision, 0), flags.zero), 0)
  }

  function CodeZeros(value: int, base: nat, width: int, precision: int, flags: Flags): nat
    requires 2 <= base <= 16
  {
    Max(ZeroPad(Place(Magnitude(value, flags), base), |Sign(value, flags)|, width, Max(precision, 0), flags.zero), 0)
  }

  lemma CodeIsLay(value: int, base: nat, width: int, precision: int, flags: Flags)
    requires 2 <= base <= 16
    ensures var spaces := CodeSpaces(value, base, width, precision, flags);
            var u := Magnitude(value, flags);
            IntText(value, base, width, precision, flags) ==
            Lay(if flags.minus then 0 else spaces, Sign(value, flags), CodeZeros(value, base, width, precision, flags),
                LowDigits(u, base, flags.up, Place(u, base)), if flags.minus then spaces else 0)
  {
    hide LowDigits, Place, Sign, Magnitude;
    var body := Sign(value, flags) +
      (Fill(CodeZeros(value, base, width, precision, flags), '0') +
       LowDigits(Magnitude(value, flags), base, flags.up, Place(Magnitude(value, flags), base)));
    assert Fill(0, ' ') == "" && "" + body == body;
    assert flags.minus || body + "" == body;
  }

  /** The top digit is not a zero. */
  lemma {:induction false} TopNonzero(u: nat, base: nat, up: bool)
    requires 2 <= base <= 16 && u > 0
    ensures LowDigits(u, base, up, Length(u, base))[0] != '0'
    decreases u
  {
    hide LowDigits, Length, Digit;
    LengthUnfolds(u, base);
    DigitsStep(u, base, up, Length(u, base) - 1);
    if u < base {
      SmallRemainder(u, base);
      NoDigits(u, base, up);
      NonzeroDigit(u, up);
    } else {
      QuotientIsLess(u, base);
      TopNonzero(u / base, base, up);
    }
  }

  lemma LengthUnfolds(u: nat, base: nat)
    requires base >= 2
    ensures u < base ==> Length(u, base) == 1
    ensures u >= base ==> u / base > 0 && Length(u, base) == 1 + Length(u / base, base)
  {
  }

  lemma NonzeroDigit(d: nat, up: bool)
    requires 0 < d < 16
    ensures Digit(d, up) != '0'
  {
    assert DigitValue('0') == 0;
  }

  /** Nineteen digits behind zeros are not twenty or more whose first is not a zero. */
  lemma DroppedDigitShows(u: nat, base: nat, up: bool, z: nat, z': nat)
    requires 2 <= base <= 16 && Length(u, base) > MAX_DIGITS
    requires z + MAX_DIGITS == z' + Length(u, base)
    ensures Fill(z, '0') + LowDigits(u, base, up, MAX_DIGITS) != Fill(z', '0') + LowDigits(u, base, up, Length(u, base))
  {
    assert u > 0;
    TopNonzero(u, base, up);
    hide LowDigits, Length;
    assert (Fill(z', '0') + LowDigits(u, base, up, Length(u, base)))[z'] == LowDigits(u, base, up, Length(u, base))[0];
    assert (Fill(z, '0') + LowDigits(u, base, up, MAX_DIGITS))[z'] == '0';
  }

  // ------------------------------------------------------------------------------------------------
  // Where they agree
  // ------------------------------------------------------------------------------------------------

  /** The length without padding: the sign, and the digits there are or as many as are asked for. */
  function Natural(value: int, base: nat, precision: int, flags: Flags): nat
    requires 2 <= base <= 16
  {
    |Sign(value, flags)| + Max(LeastDigits(value, base, precision, flags), Length(Magnitude(value, flags), base))
  }

  /** '#' asks for a leading zero that neither digits nor precision supply. */
  predicate NeedsZero(value: int, base: nat, precision: int, flags: Flags)
    requires 2 <= base <= 16
  {
    var u := Magnitude(value, flags);
    u != 0 && flags.num && base == 8 && precision <= Length(u, base)
  }

  /** When an integer conversion of dopr is what C99 says: the number has at most nineteen digits; it is not a
      zero that precision 0 leaves without digits; '#' asks for no prefix, and for a leading zero only where
      the '0' flag pads with one; a negative width asks for no padding; and the '0' flag pads further only
      where C99 lets it. */
  predicate IntAgrees(value: int, base: nat, width: int, precision: int, flags: Flags)
    requires 2 <= base <= 16
  {
    var u, natural := Magnitude(value, flags), Natural(value, base, precision, flags);
    u < Power(base, MAX_DIGITS) &&
    !(u == 0 && precision == 0 && !(flags.num && base == 8)) &&
    !(u != 0 && flags.num && base == 16) &&
    (NeedsZero(value, base, precision, flags) ==> flags.zero && width >= natural) &&
    -width <= natural &&
    (flags.zero && width > natural ==> !flags.minus && precision < 0)
  }

  /** Each part of dopr's text is that of C99's. */
  predicate SameParts(value: int, base: nat, width: int, precision: int, flags: Flags)
    requires 2 <= base <= 16
  {
    var p, spaces := C99Parts(value, base, width, precision, flags), CodeSpaces(value, base, width, precision, flags);
    Length(Magnitude(value, flags), base) <= MAX_DIGITS && p.zeros == CodeZeros(value, base, width, precision, flags) &&
    p.left == (if flags.minus then 0 else spaces) && p.right == (if flags.minus then spaces else 0)
  }

  /** The arithmetic: with no prefix and some digits, the two forms have the same parts exactly when they
      agree. */
  lemma SamePartsIff(value: int, base: nat, width: int, precision: int, flags: Flags)
    requires 2 <= base <= 16 && Prefix(value, base, flags) == "" && C99Digits(value, base, precision, flags) != ""
    ensures SameParts(value, base, width, precision, flags) <==> IntAgrees(value, base, width, precision, flags)
  {
    if NeedsZero(value, base, precision, flags) {
      RaisedPartsIff(value, base, width, precision, flags);
    } else {
      PlainPartsIff(value, base, width, precision, flags);
    }
    hide *;
  }

  lemma RaisedPartsIff(value: int, base: nat, width: int, precision: int, flags: Flags)
    requires 2 <= base <= 16 && Prefix(value, base, flags) == "" && C99Digits(value, base, precision, flags) != ""
    requires NeedsZero(value, base, precision, flags)
    ensures SameParts(value, base, width, precision, flags) <==> IntAgrees(value, base, width, precision, flags)
  {
    LengthPower(Magnitude(value, flags), base, MAX_DIGITS);
    var len := Length(Magnitude(value, flags), base);
    assert |C99Digits(value, base, precision, flags)| == len;
    assert LeastDigits(value, base, precision, flags) == len + 1;
    hide LowDigits, Length, Power, Magnitude, Sign, LeastDigits, C99Digits, Prefix;
  }

  lemma PlainPartsIff(value: int, base: nat, width: int, precision: int, flags: Flags)
    requires 2 <= base <= 16 && Prefix(value, base, flags) == "" && C99Digits(value, base, precision, flags) != ""
    requires !NeedsZero(value, base, precision, flags)
    ensures SameParts(value, base, width, precision, flags) <==> IntAgrees(value, base, width, precision, flags)
  {
    LengthPower(Magnitude(value, flags), base, MAX_DIGITS);
    var len := Length(Magnitude(value, flags), base);
    assert |C99Digits(value, base, precision, flags)| == len;
    assert Max(LeastDigits(value, base, precision, flags), len) == Max(precision, len);
    assert !(Magnitude(value, flags) == 0 && precision == 0 && !(flags.num && base == 8));
    assert !(Magnitude(value, flags) != 0 && flags.num && base == 16);
    hide LowDigits, Length, Power, Magnitude, Sign, LeastDigits, C99Digits, Prefix, NeedsZero;
  }

  lemma NoDigitsIn(l: nat, sign: string, r: nat)
    requires SignText(sign)
    ensures forall k :: 0 <= k < |Lay(l, sign, 0, "", r)| ==> !DigitChar(Lay(l, sign, 0, "", r)[k])
  {
    forall k | 0 <= k < |Lay(l, sign, 0, "", r)|
      ensures !DigitChar(Lay(l, sign, 0, "", r)[k])
    {
      LayAt(l, sign, 0, "", r, k);
    }
  }

  /** Where the digits are missing: zero with precision zero. fmtint always writes a digit, of any value. */
  lemma NoDigitsDiffer(code: int, value: int, base: nat, width: int, precision: int, flags: Flags)
    requires 2 <= base <= 16 && C99Digits(value, base, precision, flags) == ""
    ensures IntText(code, base, width, precision, flags) != C99Int(value, base, width, precision, flags)
    ensures !IntAgrees(value, base, width, precision, flags)
  {
    var u, sign := Magnitude(value, flags), Sign(value, flags);
    var p := C99Parts(value, base, width, precision, flags);
    assert u == 0 && precision == 0 && !(flags.num && base == 8);
    assert p.zeros == 0 && p.digits == "" && sign + Prefix(value, base, flags) == sign;
    assert C99Int(value, base, width, precision, flags) == Lay(p.left, sign, p.zeros, p.digits, p.right);
    hide *;
    DigitStands(code, base, width, precision, flags);
    SignIsText(value, flags);
    NoDigitsIn(p.left, sign, p.right);
    ZeroDisagrees(value, base, width, precision, flags);
  }

  lemma DigitStands(code: int, base: nat, width: int, precision: int, flags: Flags)
    requires 2 <= base <= 16
    ensures var t := IntText(code, base, width, precision, flags); exists k :: 0 <= k < |t| && DigitChar(t[k])
  {
    var u, sign := Magnitude(code, flags), Sign(code, flags);
    var spaces, zeros := CodeSpaces(code, base, width, precision, flags),
      CodeZeros(code, base, width, precision, flags);
    hide *;
    CodeIsLay(code, base, width, precision, flags);
    PlaceIs(u, base);
    var d := LowDigits(u, base, flags.up, Place(u, base));
    DigitsAreDigits(u, base, flags.up, Place(u, base));
    var l, r := if flags.minus then 0 else spaces, if flags.minus then spaces else 0;
    LayEnds(l, sign, zeros, d, r);
    assert 0 <= l + |sign| < |Lay(l, sign, zeros, d, r)|;
  }

  lemma ZeroDisagrees(value: int, base: nat, width: int, precision: int, flags: Flags)
    requires 2 <= base <= 16 && Magnitude(value, flags) == 0 && precision == 0 && !(flags.num && base == 8)
    ensures !IntAgrees(value, base, width, precision, flags)
  {
    hide Natural, Power;
  }

  /** A character that is neither a space nor a digit comes from the sign. */
  lemma OnlyInSign(l: nat, sign: string, z: nat, d: string, r: nat, c: char)
    requires AllDigits(d) && !DigitChar(c) && c != ' ' && c !in sign
    ensures c !in Lay(l, sign, z, d, r)
  {
    forall k | 0 <= k < |Lay(l, sign, z, d, r)|
      ensures Lay(l, sign, z, d, r)[k] != c
    {
      LayAt(l, sign, z, d, r, k);
    }
  }

  /** Where C99 has a prefix: its letter does not come from dopr, whatever the value. */
  lemma PrefixDiffers(code: int, value: int, base: nat, width: int, precision: int, flags: Flags)
    requires 2 <= base <= 16 && Prefix(value, base, flags) != ""
    ensures IntText(code, base, width, precision, flags) != C99Int(value, base, width, precision, flags)
    ensures !IntAgrees(value, base, width, precision, flags)
  {
    var sign, prefix := Sign(value, flags), Prefix(value, base, flags);
    var p := C99Parts(value, base, width, precision, flags);
    assert |prefix| == 2 && (prefix[1] == 'x' || prefix[1] == 'X');
    assert flags.num && base == 16 && Magnitude(value, flags) != 0;
    assert C99Int(value, base, width, precision, flags) == Lay(p.left, sign + prefix, p.zeros, p.digits, p.right);
    assert !DigitChar(prefix[1]);
    hide *;
    NoLetter(code, base, width, precision, flags, prefix[1]);
    LayAt(p.left, sign + prefix, p.zeros, p.digits, p.right, p.left + |sign| + 1);
    assert (sign + prefix)[|sign| + 1] == prefix[1];
    PrefixDisagrees(value, base, width, precision, flags);
  }

  lemma NoLetter(code: int, base: nat, width: int, precision: int, flags: Flags, c: char)
    requires 2 <= base <= 16 && (c == 'x' || c == 'X')
    ensures c !in IntText(code, base, width, precision, flags)
  {
    var u, sign := Magnitude(code, flags), Sign(code, flags);
    assert c !in sign && !DigitChar(c);
    hide *;
    CodeIsLay(code, base, width, precision, flags);
    DigitsAreDigits(u, base, flags.up, Place(u, base));
    var spaces := CodeSpaces(code, base, width, precision, flags);
    OnlyInSign(if flags.minus then 0 else spaces, sign, CodeZeros(code, base, width, precision, flags),
      LowDigits(u, base, flags.up, Place(u, base)), if flags.minus then spaces else 0, c);
  }

  lemma PrefixDisagrees(value: int, base: nat, width: int, precision: int, flags: Flags)
    requires base == 16 && Magnitude(value, flags) != 0 && flags.num
    ensures !IntAgrees(value, base, width, precision, flags)
  {
    hide Natural, Power;
  }

  /** The integer conversions of dopr agree with C99 exactly under IntAgrees, for every value, base, width,
      precision and set of flags. */
  lemma IntMatchesC99Iff(value: int, base: nat, width: int, precision: int, flags: Flags)
    requires 2 <= base <= 16
    ensures IntText(value, base, width, precision, flags) == C99Int(value, base, width, precision, flags) <==>
            IntAgrees(value, base, width, precision, flags)
  {
    hide *;
    if Prefix(value, base, flags) != "" {
      PrefixDiffers(value, value, base, width, precision, flags);
    } else if C99Digits(value, base, precision, flags) == "" {
      NoDigitsDiffer(value, value, base, width, precision, flags);
    } else {
      PartsDecide(value, base, width, precision, flags);
      SamePartsIff(value, base, width, precision, flags);
    }
  }

  lemma PartsDecide(value: int, base: nat, width: int, precision: int, flags: Flags)
    requires 2 <= base <= 16 && Prefix(value, base, flags) == "" && C99Digits(value, base, precision, flags) != ""
    ensures IntText(value, base, width, precision, flags) == C99Int(value, base, width, precision, flags) <==>
            SameParts(value, base, width, precision, flags)
  {
    hide Lay, Fill, Sign, Magnitude, Prefix, IntText, C99Digits, LeastDigits, C99Parts, CodeSpaces, CodeZeros;
    hide LowDigits, Length, Place, AllDigits, SignText;
    var u, sign := Magnitude(value, flags), Sign(value, flags);
    var p := C99Parts(value, base, width, precision, flags);
    var spaces, zeros := CodeSpaces(value, base, width, precision, flags),
      CodeZeros(value, base, width, precision, flags);
    var d := LowDigits(u, base, flags.up, Place(u, base));
    var left, right := if flags.minus then 0 else spaces, if flags.minus then spaces else 0;
    CodeIsLay(value, base, width, precision, flags);
    assert sign + "" == sign;
    C99DigitsAre(value, base, width, precision, flags);
    SignIsText(value, flags);
    PlaceIs(u, base);
    DigitsAreDigits(u, base, flags.up, Place(u, base));
    DigitsAreDigits(u, base, flags.up, Length(u, base));
    if Lay(left, sign, zeros, d, right) == Lay(p.left, sign, p.zeros, p.digits, p.right) {
      LayInjective(left, zeros, d, right, p.left, p.zeros, p.digits, p.right, sign);
      SameBody(left, sign, zeros, d, right, p.zeros, p.digits);
      if Length(u, base) > MAX_DIGITS {
        DroppedDigitShows(u, base, flags.up, zeros, p.zeros);
      }
    }
  }

  lemma C99DigitsAre(value: int, base: nat, width: int, precision: int, flags: Flags)
    requires 2 <= base <= 16 && C99Digits(value, base, precision, flags) != ""
    ensures var u := Magnitude(value, flags);
            C99Parts(value, base, width, precision, flags).digits == LowDigits(u, base, flags.up, Length(u, base))
  {
    hide LowDigits, Length, LeastDigits, Sign;
  }

  lemma PlaceIs(u: nat, base: nat)
    requires base >= 2
    ensures 1 <= Place(u, base) == Min(Length(u, base), MAX_DIGITS) && MAX_DIGITS == 19
    ensures Place(u, base) == if Length(u, base) <= MAX_DIGITS then Length(u, base) else MAX_DIGITS
  {
    hide Length;
  }

  lemma SameBody(l: nat, sign: string, z: nat, d: string, r: nat, z': nat, d': string)
    requires Lay(l, sign, z, d, r) == Lay(l, sign, z', d', r) && z + |d| == z' + |d'|
    ensures Fill(z, '0') + d == Fill(z', '0') + d'
  {
    var t, i := Lay(l, sign, z, d, r), l + |sign|;
    assert t[i..i + z + |d|] == Fill(z, '0') + d;
    assert t[i..i + z + |d|] == Fill(z', '0') + d';
  }

  // ------------------------------------------------------------------------------------------------
  // When the two read different values
  // ------------------------------------------------------------------------------------------------

  predicate SameNumber(a: int, b: int, flags: Flags) {
    Magnitude(a, flags) == Magnitude(b, flags) && Sign(a, flags) == Sign(b, flags)
  }

  /** The text of one value is the C99 text of another, with at most nineteen digits to write, exactly when both
      are one number and the conversion agrees with C99. */
  lemma TwoValuesIff(a: int, b: int, base: nat, width: int, precision: int, flags: Flags)
    requires 2 <= base <= 16 && Magnitude(a, flags) < Power(base, MAX_DIGITS)
    ensures IntText(a, base, width, precision, flags) == C99Int(b, base, width, precision, flags) <==>
            SameNumber(a, b, flags) && IntAgrees(b, base, width, precision, flags)
  {
    if SameNumber(a, b, flags) {
      assert IntText(a, base, width, precision, flags) == IntText(b, base, width, precision, flags);
      hide *;
      IntMatchesC99Iff(b, base, width, precision, flags);
    } else {
      hide *;
      if Prefix(b, base, flags) != "" {
        PrefixDiffers(a, b, base, width, precision, flags);
      } else if C99Digits(b, base, precision, flags) == "" {
        NoDigitsDiffer(a, b, base, width, precision, flags);
      } else if IntText(a, base, width, precision, flags) == C99Int(b, base, width, precision, flags) {
        SameTextSameNumber(a, b, base, width, precision, flags);
      }
    }
  }

  lemma SameTextSameNumber(a: int, b: int, base: nat, width: int, precision: int, flags: Flags)
    requires 2 <= base <= 16 && Magnitude(a, flags) < Power(base, MAX_DIGITS)
    requires Prefix(b, base, flags) == "" && C99Digits(b, base, precision, flags) != ""
    requires IntText(a, base, width, precision, flags) == C99Int(b, base, width, precision, flags)
    ensures SameNumber(a, b, flags)
  {
    var u, v := Magnitude(a, flags), Magnitude(b, flags);
    var p := C99Parts(b, base, width, precision, flags);
    assert Sign(b, flags) + "" == Sign(b, flags);
    assert C99Int(b, base, width, precision, flags) == Lay(p.left, Sign(b, flags), p.zeros, p.digits, p.right);
    C99DigitsAre(b, base, width, precision, flags);
    hide C99Int, C99Parts, C99Digits, Prefix, IntText, LowDigits, Length, Place, Magnitude, Lay, Sign, Power, ValueOf;
    hide AllDigits;
    var spaces, zeros := CodeSpaces(a, base, width, precision, flags), CodeZeros(a, base, width, precision, flags);
    CodeIsLay(a, base, width, precision, flags);
    var d := LowDigits(u, base, flags.up, Place(u, base));
    PlaceIs(u, base);
    DigitsAreDigits(u, base, flags.up, Place(u, base));
    DigitsAreDigits(v, base, flags.up, Length(v, base));
    PartsTellNumber(if flags.minus then 0 else spaces, zeros, d, if flags.minus then spaces else 0, a, b, p, flags);
    DigitsReadBackIff(u, base, flags.up);
    LeadingZeros(zeros, d, base);
    LeadingZeros(p.zeros, p.digits, base);
    AllDigitsReadBack(v, base, flags.up);
  }

  lemma AllDigitsReadBack(v: nat, base: nat, up: bool)
    requires 2 <= base <= 16
    ensures ValueOf(LowDigits(v, base, up, Length(v, base)), base) == v
  {
    hide ValueOf, LowDigits, Length, Power;
    LowDigitsValue(v, base, up, Length(v, base));
    LengthPower(v, base, Length(v, base));
    SmallRemainder(v, Power(base, Length(v, base)));
  }

  /** One text has one sign, and one body of zeros and digits. */
  lemma PartsTellNumber(l: nat, z: nat, d: string, r: nat, a: int, b: int, p: Parts, flags: Flags)
    requires d != "" && p.digits != "" && AllDigits(d) && AllDigits(p.digits)
    requires Lay(l, Sign(a, flags), z, d, r) == Lay(p.left, Sign(b, flags), p.zeros, p.digits, p.right)
    ensures Sign(a, flags) == Sign(b, flags) && Fill(z, '0') + d == Fill(p.zeros, '0') + p.digits
  {
    SignIsText(a, flags);
    SignIsText(b, flags);
    OneMinus(l, z, d, r, a, b, flags);
    OneMinus(p.left, p.zeros, p.digits, p.right, b, a, flags);
    hide *;
    LayInjective(l, z, d, r, p.left, p.zeros, p.digits, p.right, Sign(a, flags));
    SameBody(l, Sign(a, flags), z, d, r, p.zeros, p.digits);
  }

  /** Two different signs under one set of flags: one of them is a minus, and only its text has one. */
  lemma OneMinus(l: nat, z: nat, d: string, r: nat, a: int, b: int, flags: Flags)
    requires d != "" && AllDigits(d)
    ensures Sign(a, flags) != Sign(b, flags) ==> (a < 0 <==> b >= 0)
    ensures Sign(a, flags) != Sign(b, flags) ==> ('-' in Lay(l, Sign(a, flags), z, d, r) <==> a < 0)
  {
    if Sign(a, flags) != Sign(b, flags) {
      if a < 0 {
        assert Sign(a, flags) == "-";
        LayAt(l, Sign(a, flags), z, d, r, l);
      } else {
        OnlyInSign(l, Sign(a, flags), z, d, r, '-');
      }
    }
  }

  // ------------------------------------------------------------------------------------------------
  // Inputs that show the differences
  // ------------------------------------------------------------------------------------------------

  const ZERO_FLAG: Flags := NO_FLAGS.(zero := true)

  lemma OneDigit(d: nat)
    requires d < 10
    ensures Length(d, 10) == 1 && LowDigits(d, 10, false, 1) == [Digit(d, false)] && Place(d, 10) == 1
  {
    DigitsStep(d, 10, false, 0);
    NoDigits(d, 10, false);
    SmallRemainder(d, 10);
  }

  /** %-03d of 7 is padded with zeros on the left; C99 asks for spaces on the right. */
  lemma MinusAndZeroDiffer()
    ensures IntText(7, 10, 3, -1, ZERO_FLAG.(minus := true)) == "007"
    ensures C99Int(7, 10, 3, -1, ZERO_FLAG.(minus := true)) == "7  "
  {
    OneDigit(7);
    SmallRemainder(7, TWO64);
    hide LowDigits, Length, Place;
    assert Fill(2, '0') == "00" && Fill(2, ' ') == "  " && Digit(7, false) == '7';
  }

  /** %.0d of 0 is "0"; C99 asks for nothing. */
  lemma ZeroWithoutPrecisionDiffers()
    ensures IntText(0, 10, 0, 0, NO_FLAGS) == "0" && C99Int(0, 10, 0, 0, NO_FLAGS) == ""
  {
    OneDigit(0);
    hide LowDigits, Length, Place;
    assert Digit(0, false) == '0';
  }

  /** %05.2d of 7 has four characters, not five: the '0' flag makes zeros of the padding and forgets those of
      the precision. */
  lemma ZeroFlagWithPrecisionIsShort()
    ensures IntText(7, 10, 5, 2, ZERO_FLAG) == "0007"
  {
    OneDigit(7);
    SmallRemainder(7, TWO64);
    hide LowDigits, Length, Place;
    assert Fill(3, '0') == "000" && Digit(7, false) == '7';
  }

  lemma TenToTheNineteenth()
    ensures Power(10, MAX_DIGITS) == 10_000_000_000_000_000_000
  {
    assert Power(10, 4) == 10_000;
    PowerStep(4);
    assert Power(10, 8) == 100_000_000;
    PowerStep(8);
    assert Power(10, 12) == 1_000_000_000_000;
    PowerStep(12);
    assert Power(10, 16) == 10_000_000_000_000_000;
    assert Power(10, 19) == 10 * (10 * (10 * Power(10, 16)));
  }

  lemma PowerStep(k: nat)
    ensures Power(10, k + 4) == 10_000 * Power(10, k)
  {
    assert Power(10, k + 4) == 10 * Power(10, k + 3) && Power(10, k + 3) == 10 * Power(10, k + 2);
    assert Power(10, k + 2) == 10 * Power(10, k + 1) && Power(10, k + 1) == 10 * Power(10, k);
  }

  /** %lu of 10^19, a value below 2^64: the first digit is lost and nineteen zeros are left. */
  lemma TwentyDigitsLoseOne(fp: (real, int, int, Flags) -> string)
    ensures var d := Directive(NO_FLAGS, 0, -1, Long, 0, [Number(10_000_000_000_000_000_000)]);
            ValueOf(Convert('u', d, fp), 10) == 0
  {
    var v := 10_000_000_000_000_000_000;
    TenToTheNineteenth();
    DigitsReadBackIff(v, 10, false);
    LongTen();
    hide *;
    ConvertPlain(v, fp);
  }

  lemma LongTen()
    ensures UnsignedArg(Long, 10_000_000_000_000_000_000) == 10_000_000_000_000_000_000 - TWO64
  {
  }

  /** %lu with nothing else is the digits alone. */
  lemma ConvertPlain(v: int, fp: (real, int, int, Flags) -> string)
    requires 0 < v < TWO64 && UnsignedArg(Long, v) == v - TWO64
    ensures Convert('u', Directive(NO_FLAGS, 0, -1, Long, 0, [Number(v)]), fp) == LowDigits(v, 10, false, Place(v, 10))
  {
    PlaceIs(v, 10);
    hide LowDigits, Length, Place;
    var s := LowDigits(v, 10, false, Place(v, 10));
    assert Magnitude(v - TWO64, NO_FLAGS.(unsigned := true)) == v;
    NoFill(s);
  }

  lemma NoFill(s: string)
    ensures Fill(0, '0') == "" && Fill(0, ' ') == ""
    ensures Fill(0, '0') + s == s && Fill(0, ' ') + s == s && "" + s == s
  {
  }
}
