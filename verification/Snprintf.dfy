/** The bounded formatter of snprintf.c.

    `Render` is the unbounded text of a format and its arguments: directives are read as runs (flags,
    width, precision, modifier, conversion). The class `Sink` and `Dopr` are the code: an eight-state
    machine whose helpers write at most `maxlen` characters but count all of them. */
module Snprintf {

  // ----- C values ------------------------------------------------------------------------------

  function Min(a: int, b: int): int { if a <= b then a else b }

  function Max(a: int, b: int): int { if a >= b then a else b }

  const TWO32 := 0x1_0000_0000
  const TWO63 := 0x8000_0000_0000_0000
  const TWO64 := 0x1_0000_0000_0000_0000

  function Unsigned32(v: int): int { v % TWO32 }

  function Signed32(v: int): int {
    var u := v % TWO32;
    if u < 0x8000_0000 then u else u - TWO32
  }

  /** `long` and `long long` have 64 bits. */
  function Signed64(v: int): int {
    var u := v % TWO64;
    if u < TWO63 then u else u - TWO64
  }

  /** What the variable arguments hold. An argument of the wrong kind, or none, reads as zero. */
  datatype Arg = Number(v: int) | Text(s: string) | NullPointer | Real(r: real)

  function NextNumber(va: seq<Arg>): int {
    if va != [] && va[0].Number? then va[0].v else 0
  }

  function NextReal(va: seq<Arg>): real {
    if va != [] && va[0].Real? then va[0].r else 0.0
  }

  function Rest(va: seq<Arg>): seq<Arg> { if va == [] then [] else va[1..] }

  /** The characters of a C string: those before its first NUL. */
  function CString(s: string): (r: string)
    ensures |r| <= |s|
  {
    if s == "" || s[0] == '\0' then "" else [s[0]] + CString(s[1..])
  }

  function NextText(va: seq<Arg>): string {
    if va != [] && va[0].Text? then CString(va[0].s) else "(NULL)"
  }

  datatype Flags = Flags(minus: bool, plus: bool, space: bool, num: bool, zero: bool, up: bool, unsigned: bool)

  const NO_FLAGS := Flags(false, false, false, false, false, false, false)

  datatype Modifier = NoModifier | Short | Long | LongDouble | LongLong

  // ----- fmtstr --------------------------------------------------------------------------------

  function Fill(n: int, c: char): (r: string)
    ensures |r| == Max(n, 0)
  {
    if n <= 0 then "" else seq(n, _ => c)
  }

  /** The text fmtstr writes: at most `max` characters of padding and value together. */
  function StrText(value: string, minus: bool, min: int, max: int): string {
    var m := Max(max, 0);
    var pad := Max(min - |value|, 0);
    if minus then
      var shown := Min(|value|, m);
      value[..shown] + Fill(Min(pad, m - shown), ' ')
    else
      var spaces := Min(pad, m);
      Fill(spaces, ' ') + value[..Min(|value|, m - spaces)]
  }

  /** The text from the number of characters shown: all, or as many as the maximum leaves room for. */
  lemma StrTextIs(value: string, minus: bool, min: int, max: int, spaces: int, k: nat)
    requires var pad := Max(min - |value|, 0); spaces == if minus then 0 else Min(pad, Max(max, 0))
    requires k <= |value| && (k < |value| ==> max <= spaces + k) && (k == 0 || spaces + k <= max)
    ensures StrText(value, minus, min, max) ==
            if minus then value[..k] + Fill(Min(Max(min - |value|, 0), max - k), ' ')
            else Fill(spaces, ' ') + value[..k]
  {
  }

  /** The text of %s: dopr sets the precision before it calls fmtstr. */
  function StrConversion(value: string, minus: bool, min: int, max: int): string {
    var m := if max == -1 then |value| else max;
    StrText(value, minus, min, if min > 0 && m >= 0 && min > m then min else m)
  }

  /** %s of C99, section 7.19.6.1 of ISO/IEC 9899:1999: a negative width is the '-' flag and a width,
      a negative precision is no precision. */
  function C99Str(value: string, minus: bool, width: int, precision: int): string {
    var shown := if precision < 0 then value else value[..Min(|value|, precision)];
    var pad := Fill((if width < 0 then -width else width) - |shown|, ' ');
    if minus || width < 0 then shown + pad else pad + shown
  }

  /** When %s is what C99 says, whatever characters a value of length `n` has. */
  predicate StrAgrees(n: nat, width: int, precision: int) {
    if precision < -1 then n == 0 && width == 0
    else if width < 0 then -width <= (if precision == -1 then n else Min(n, precision))
    else !(0 <= precision < width && precision < n)
  }

  /** Where the condition fails, a value of letters comes out different. */
  lemma StrDiffers(n: nat, minus: bool, width: int, precision: int)
    requires !StrAgrees(n, width, precision)
    ensures var v := Fill(n, 'x');
            StrConversion(v, minus, width, precision) != C99Str(v, minus, width, precision)
  {
    var v := Fill(n, 'x');
    var code, c99 := StrConversion(v, minus, width, precision), C99Str(v, minus, width, precision);
    if precision < -1 || width < 0 {
      assert |code| < |c99|;
    } else if minus {
      assert code[precision] == 'x' && c99[precision] == ' ';
    } else {
      var at := width - precision - 1;
      assert code[at] == 'x' && c99[at] == ' ';
    }
  }

  /** %s agrees with C99 exactly under StrAgrees: a width above the precision cancels the precision
      when the value is longer than it, and neither argument of '*' may be read as negative. */
  lemma StrMatchesC99Iff(n: nat, minus: bool, width: int, precision: int)
    ensures StrAgrees(n, width, precision) <==>
            forall v: string :: |v| == n ==>
              StrConversion(v, minus, width, precision) == C99Str(v, minus, width, precision)
  {
    if !StrAgrees(n, width, precision) {
      StrDiffers(n, minus, width, precision);
      assert |Fill(n, 'x')| == n;
    }
  }

  // ----- fmtint --------------------------------------------------------------------------------

  function Digit(d: nat, up: bool): (c: char)
    requires d < 16
    ensures DigitValue(c) == d
  {
    if d < 10 then '0' + d as char else if up then 'A' + (d - 10) as char else 'a' + (d - 10) as char
  }

  function DigitValue(c: char): nat {
    if '0' <= c <= '9' then (c - '0') as nat
    else if 'A' <= c <= 'F' then 10 + (c - 'A') as nat
    else if 'a' <= c <= 'f' then 10 + (c - 'a') as nat
    else 0
  }

  function Power(base: nat, k: nat): nat { if k == 0 then 1 else base * Power(base, k - 1) }

  /** The value of a string of digits, the most significant first. */
  function ValueOf(s: string, base: nat): nat {
    if s == "" then 0 else ValueOf(s[..|s| - 1], base) * base + DigitValue(s[|s| - 1])
  }

  lemma QuotientIsLess(u: nat, base: nat)
    requires u > 0 && base >= 2
    ensures u / base < u
  {
    Quotient(u, base);
    AtLeastTwice(u / base, base);
  }

  lemma AtLeastTwice(q: nat, base: nat)
    requires base >= 2
    ensures q * base >= 2 * q
  {
  }

  /** The number of digits `u` has in the base. */
  function Length(u: nat, base: nat): (k: nat)
    requires base >= 2
    ensures k >= 1
  {
    if u < base then 1
    else
      QuotientIsLess(u, base);
      1 + Length(u / base, base)
  }

  /** The `k` low digits of `u`, the most significant first. */
  function LowDigits(u: nat, base: nat, up: bool, k: nat): (s: string)
    requires 2 <= base <= 16
    ensures |s| == k
  {
    if k == 0 then "" else LowDigits(u / base, base, up, k - 1) + [Digit(u % base, up)]
  }

  lemma {:induction false} LowDigitsValue(u: nat, base: nat, up: bool, k: nat)
    requires 2 <= base <= 16
    ensures Power(base, k) > 0 && ValueOf(LowDigits(u, base, up, k), base) == u % Power(base, k)
    decreases k
  {
    if k > 0 {
      LowDigitsValue(u / base, base, up, k - 1);
      var s, p := LowDigits(u, base, up, k), Power(base, k - 1);
      assert s[..k - 1] == LowDigits(u / base, base, up, k - 1);
      assert base * p > 0;
      ModSplit(u, base, p);
    }
  }

  lemma ModSplit(u: nat, b: nat, p: nat)
    requires b > 0 && p > 0
    ensures b * p > 0 && (u / b % p) * b + u % b == u % (b * p)
  {
    Quotient(u, b);
    Quotient(u / b, p);
    SplitTwice(u, u / b, u % b, u / b / p, u / b % p, b, p);
  }

  lemma Quotient(u: nat, b: nat)
    requires b > 0
    ensures u == u / b * b + u % b && u % b < b
  {
  }

  lemma SplitTwice(u: nat, q: nat, r: nat, h: nat, l: nat, b: nat, p: nat)
    requires u == q * b + r && q == h * p + l && r < b && l < p
    ensures b * p > 0 && l * b + r == u % (b * p)
  {
    Regroup(h, p, l, b, r);
    Scale(l, p, b, r);
    ModUnique(u, b * p, h, l * b + r);
  }

  lemma Regroup(h: nat, p: nat, l: nat, b: nat, r: nat)
    ensures (h * p + l) * b + r == h * (b * p) + (l * b + r)
  {
  }

  lemma Scale(l: nat, p: nat, b: nat, r: nat)
    requires l < p && r < b
    ensures 0 <= l * b + r < b * p
  {
    assert (l + 1) * b <= p * b;
  }

  lemma ModUnique(u: nat, m: nat, h: nat, r: nat)
    requires m > 0 && u == h * m + r && r < m
    ensures u % m == r
  {
    var d := u / m - h;
    assert d * m == r - u % m;
    SmallMultiple(d, m);
  }

  lemma SmallMultiple(d: int, m: int)
    requires m > 0 && -m < d * m < m
    ensures d == 0
  {
  }

  /** `u` is below base^k exactly when it has at most `k` digits. */
  lemma {:induction false} LengthPower(u: nat, base: nat, k: nat)
    requires base >= 2 && k >= 1
    ensures Power(base, k) > 0
    ensures u < Power(base, k) <==> Length(u, base) <= k
    decreases k
  {
    if k == 1 {
      assert Power(base, 1) == base * Power(base, 0);
    } else {
      LengthPower(u / base, base, k - 1);
      QuotientBelow(u, base, Power(base, k - 1));
      if u < base {
        SmallQuotient(u, base);
      }
    }
  }

  lemma QuotientBelow(u: nat, b: nat, p: nat)
    requires b > 0 && p > 0
    ensures b * p > 0
    ensures u < b * p <==> u / b < p
  {
    var q, r := u / b, u % b;
    assert u == q * b + r;
    if q < p {
      Scale(q, p, b, r);
    } else {
      assert q * b >= p * b;
    }
  }

  lemma SmallQuotient(u: nat, b: nat)
    requires u < b
    ensures u / b == 0
  {
  }

  /** The buffer of fmtint holds 19 digits: a twentieth, the most significant one, is dropped. */
  const MAX_DIGITS: nat := 19

  function Place(u: nat, base: nat): nat
    requires base >= 2
  {
    Min(Length(u, base), MAX_DIGITS)
  }

  /** The sign fmtint writes, as a string of at most one character. */
  function Sign(value: int, flags: Flags): (s: string)
    ensures |s| <= 1
  {
    if flags.unsigned then ""
    else if value < 0 then "-"
    else if flags.plus then "+"
    else if flags.space then " "
    else ""
  }

  /** The magnitude: `value` is a long, and an unsigned conversion reads it modulo 2^64. */
  function Magnitude(value: int, flags: Flags): nat {
    if flags.unsigned || value >= 0 then value % TWO64 else -value % TWO64
  }

  function ZeroPad(place: nat, sign: nat, min: int, max: int, zero: bool): int {
    var z, s := Max(max - place, 0), Max(min - Max(max, place) - sign, 0);
    if zero then Max(z, s) else z
  }

  function SpacePad(place: nat, sign: nat, min: int, max: int, zero: bool): int {
    if zero then 0 else Max(min - Max(max, place) - sign, 0)
  }

  /** The text fmtint writes. */
  function IntText(value: int, base: nat, min: int, max: int, flags: Flags): string
    requires 2 <= base <= 16
  {
    var m := Max(max, 0);
    var sign, u := Sign(value, flags), Magnitude(value, flags);
    var place := Place(u, base);
    var spaces := Fill(SpacePad(place, |sign|, min, m, flags.zero), ' ');
    var zeros := Fill(ZeroPad(place, |sign|, min, m, flags.zero), '0');
    var body := sign + (zeros + LowDigits(u, base, flags.up, place));
    if flags.minus then body + spaces else spaces + body
  }

  /** The digits read back to the magnitude modulo base^19, so to the magnitude exactly when it is
      below base^19. */
  lemma DigitsReadBackIff(u: nat, base: nat, up: bool)
    requires 2 <= base <= 16
    ensures Power(base, MAX_DIGITS) > 0
    ensures ValueOf(LowDigits(u, base, up, Place(u, base)), base) == u % Power(base, MAX_DIGITS)
    ensures ValueOf(LowDigits(u, base, up, Place(u, base)), base) == u <==> u < Power(base, MAX_DIGITS)
  {
    hide LowDigits, ValueOf, Length;
    var k := Place(u, base);
    LowDigitsValue(u, base, up, k);
    LowDigitsValue(u, base, up, MAX_DIGITS);
    LengthPower(u, base, MAX_DIGITS);
    if k < MAX_DIGITS {
      LengthPower(u, base, k);
      SmallRemainder(u, Power(base, k));
    }
    if u < Power(base, MAX_DIGITS) {
      SmallRemainder(u, Power(base, MAX_DIGITS));
    }
  }

  lemma SmallRemainder(u: nat, p: nat)
    requires u < p
    ensures u % p == u
  {
  }

  /** Zeros in front of the digits do not change the value. */
  lemma {:induction false} LeadingZeros(n: int, s: string, base: nat)
    ensures ValueOf(Fill(n, '0') + s, base) == ValueOf(s, base)
    decreases |s|, Max(n, 0)
  {
    var z := Fill(n, '0');
    if s != "" {
      assert (z + s)[..|z + s| - 1] == z + s[..|s| - 1];
      LeadingZeros(n, s[..|s| - 1], base);
    } else if n > 0 {
      assert z + s == z && z[..n - 1] == Fill(n - 1, '0') + s;
      LeadingZeros(n - 1, s, base);
    } else {
      assert z + s == s;
    }
  }

  /** Width and precision: the total length is max(min, sign + max(precision, digits)), except when a
      zero flag meets a precision above the digit count and a width above both. */
  lemma LengthIff(value: int, base: nat, min: int, max: int, flags: Flags)
    requires 2 <= base <= 16
    ensures var sign := |Sign(value, flags)|;
            var place := Place(Magnitude(value, flags), base);
            var m := Max(max, 0);
            |IntText(value, base, min, max, flags)| == Max(min, sign + Max(m, place)) <==>
            !(flags.zero && m > place && min > m + sign)
  {
    hide LowDigits, Length;
  }

  // ----- Directives ----------------------------------------------------------------------------

  /** The character at `i`. The NUL that ends the format is also what stands after it. */
  function At(f: string, i: nat): char { if i < |f| then f[i] else '\0' }

  predicate IsFlag(c: char) { c == '-' || c == '+' || c == ' ' || c == '#' || c == '0' }

  predicate IsDigit(c: char) { '0' <= c <= '9' }

  function FlagsEnd(f: string, i: nat): (j: nat)
    ensures i <= j && (i <= |f| ==> j <= |f|) && !IsFlag(At(f, j))
    decreases Max(|f| - i, 0)
  {
    if IsFlag(At(f, i)) then FlagsEnd(f, i + 1) else i
  }

  function DigitsEnd(f: string, i: nat): (j: nat)
    ensures i <= j && (i <= |f| ==> j <= |f|) && !IsDigit(At(f, j))
    decreases Max(|f| - i, 0)
  {
    if IsDigit(At(f, i)) then DigitsEnd(f, i + 1) else i
  }

  /** The flags `g` and those among the characters of `run`. */
  function WithFlags(g: Flags, run: string): Flags {
    g.(minus := g.minus || '-' in run, plus := g.plus || '+' in run, space := g.space || ' ' in run,
       num := g.num || '#' in run, zero := g.zero || '0' in run)
  }

  /** The number that the digits of `run` continue from `n`. */
  function Decimal(n: int, run: string): int
    decreases |run|
  {
    if run == "" then n else Decimal(10 * n + (run[0] as int - '0' as int), run[1..])
  }

  /** A directive as read so far, the offset after it, and the arguments left. */
  datatype Directive = Directive(flags: Flags, min: int, max: int, modifier: Modifier, next: nat, va: seq<Arg>)

  function ReadModifier(f: string, i: nat, d: Directive): (r: Directive)
    ensures i <= r.next && (i <= |f| ==> r.next <= |f|)
  {
    match At(f, i)
    case 'h' => d.(modifier := Short, next := i + 1)
    case 'l' => if At(f, i + 1) == 'l' then d.(modifier := LongLong, next := i + 2)
                else d.(modifier := Long, next := i + 1)
    case 'L' => d.(modifier := LongDouble, next := i + 1)
    case _ => d.(next := i)
  }

  /** The precision after the dot: digits continue d.max, and '*' replaces it by an argument. */
  function ReadPrecision(f: string, i: nat, d: Directive): (r: Directive)
    requires i <= |f|
    ensures i <= r.next <= |f|
  {
    var j := DigitsEnd(f, i);
    if At(f, j) == '*' then ReadModifier(f, j + 1, d.(max := NextNumber(d.va), va := Rest(d.va)))
    else ReadModifier(f, j, if j == i then d else d.(max := Decimal(Max(d.max, 0), f[i..j])))
  }

  function ReadDot(f: string, i: nat, d: Directive): (r: Directive)
    requires i <= |f|
    ensures i <= r.next <= |f|
  {
    if At(f, i) == '.' then ReadPrecision(f, i + 1, d) else ReadModifier(f, i, d)
  }

  /** The width: digits continue d.min, and '*' replaces it by an argument. */
  function ReadWidth(f: string, i: nat, d: Directive): (r: Directive)
    requires i <= |f|
    ensures i <= r.next <= |f|
  {
    var j := DigitsEnd(f, i);
    if At(f, j) == '*' then ReadDot(f, j + 1, d.(min := NextNumber(d.va), va := Rest(d.va)))
    else ReadDot(f, j, d.(min := Decimal(d.min, f[i..j])))
  }

  function ReadFlags(f: string, i: nat, d: Directive): (r: Directive)
    requires i <= |f|
    ensures i <= r.next <= |f|
  {
    var j := FlagsEnd(f, i);
    ReadWidth(f, j, d.(flags := WithFlags(d.flags, f[i..j])))
  }

  // ----- Conversions ---------------------------------------------------------------------------

  function SignedArg(m: Modifier, v: int): int {
    if m.Long? || m.LongLong? then Signed64(v) else Signed32(v)
  }

  function UnsignedArg(m: Modifier, v: int): int {
    if m.Long? || m.LongLong? then Signed64(v) else Unsigned32(v)
  }

  /** The text of one conversion. `fp` stands for fmtfp. */
  function Convert(c: char, d: Directive, fp: (real, int, int, Flags) -> string): string {
    var v := NextNumber(d.va);
    var u := d.flags.(unsigned := true);
    match c
    case 'd' => IntText(SignedArg(d.modifier, v), 10, d.min, d.max, d.flags)
    case 'i' => IntText(SignedArg(d.modifier, v), 10, d.min, d.max, d.flags)
    case 'o' => IntText(UnsignedArg(d.modifier, v), 8, d.min, d.max, u)
    case 'u' => IntText(UnsignedArg(d.modifier, v), 10, d.min, d.max, u)
    case 'X' => IntText(UnsignedArg(d.modifier, v), 16, d.min, d.max, u.(up := true))
    case 'x' => IntText(UnsignedArg(d.modifier, v), 16, d.min, d.max, u)
    case 'p' => IntText(Signed64(v), 16, d.min, d.max, d.flags)
    case 'c' => [(v % 256) as char]
    case 's' => StrConversion(NextText(d.va), d.flags.minus, d.min, d.max)
    case 'f' => fp(NextReal(d.va), d.min, d.max, d.flags)
    case '%' => "%"
    case _ => ""
  }

  /** Conversions that take an argument; 'e', 'E', 'g', 'G' and 'n' write nothing. */
  predicate TakesArgument(c: char) { c in "diouXxpcsfeEgGn" }

  /** The unbounded output from offset `i` of the format. */
  function Render(f: string, i: nat, va: seq<Arg>, fp: (real, int, int, Flags) -> string): string
    decreases Max(|f| - i, 0), 1
  {
    var c := At(f, i);
    if c == '\0' then ""
    else if c != '%' then [c] + Render(f, i + 1, va, fp)
    else RenderDirective(f, ReadFlags(f, i + 1, Directive(NO_FLAGS, 0, -1, NoModifier, 0, va)), i, fp)
  }

  /** The output from the conversion character of a directive that started after `i`. */
  function RenderDirective(f: string, d: Directive, i: nat, fp: (real, int, int, Flags) -> string): string
    requires i < d.next <= |f|
    decreases Max(|f| - i, 0), 0
  {
    var c := At(f, d.next);
    if c == '\0' then ""
    else Convert(c, d, fp) +
         Render(f, d.next + (if c == 'w' then 2 else 1), if TakesArgument(c) then Rest(d.va) else d.va, fp)
  }

  /** What `text` leaves in a buffer that held `before` when at most `maxlen` characters fit: its
      first maxlen - 1 characters or all of it, a NUL, and the rest of the buffer as it was. */
  function Bounded(text: string, maxlen: nat, before: string): string
    requires maxlen <= |before|
  {
    if maxlen == 0 then before
    else var n := Min(|text|, maxlen - 1); text[..n] + ['\0'] + before[n + 1..]
  }

  // ----- The code: dopr_outch, fmtstr, fmtint ---------------------------------------------------

  /** `buffer`, `maxlen` and `currlen`. `text` is every character passed to dopr_outch, and `initial`
      what stood in the buffer at first. */
  class Sink {
    const buffer: array?<char>
    const maxlen: nat
    var currlen: nat
    ghost var text: string
    ghost const initial: string

    ghost predicate Valid()
      reads this, buffer
    {
      currlen == |text| &&
      (maxlen > 0 ==> buffer != null) &&
      (buffer != null ==>
        maxlen <= buffer.Length == |initial| &&
        var n := Min(currlen, maxlen); buffer[..] == text[..n] + initial[n..])
    }

    constructor (buffer: array?<char>, maxlen: nat)
      requires maxlen > 0 ==> buffer != null
      requires buffer != null ==> maxlen <= buffer.Length
      ensures Valid() && text == "" && this.buffer == buffer && this.maxlen == maxlen
      ensures initial == if buffer == null then "" else buffer[..]
    {
      this.buffer, this.maxlen, currlen := buffer, maxlen, 0;
      text := "";
      initial := if buffer == null then "" else buffer[..];
    }

    /** dopr_outch */
    method Outch(c: char)
      requires Valid()
      modifies this, buffer
      ensures Valid() && text == old(text) + [c]
    {
      if currlen < maxlen {
        buffer[currlen] := c;
      }
      currlen := currlen + 1;
      text := text + [c];
    }

    /** The NUL that dopr writes at the end, and the length it returns. */
    method Terminate() returns (len: nat)
      requires Valid()
      modifies buffer
      ensures len == |text|
      ensures buffer != null ==> buffer[..] == Bounded(text, maxlen, initial)
    {
      if maxlen != 0 {
        if currlen < maxlen - 1 {
          buffer[currlen] := '\0';
        } else {
          buffer[maxlen - 1] := '\0';
        }
      }
      len := currlen;
    }

    /** A loop that writes `c` while `n` is positive. */
    method Repeat(c: char, n: int)
      requires Valid()
      modifies this, buffer
      ensures Valid() && text == old(text) + Fill(n, c)
    {
      var k := 0;
      while k < n
        invariant 0 <= k <= Max(n, 0) && Valid() && text == old(text) + Fill(k, c)
      {
        hide Valid;
        assert Fill(k + 1, c) == Fill(k, c) + [c];
        Outch(c);
        k := k + 1;
      }
    }

    /** fmtfp: whatever it writes goes through dopr_outch. */
    method EmitAll(s: string)
      requires Valid()
      modifies this, buffer
      ensures Valid() && text == old(text) + s
    {
      hide Valid;
      for k := 0 to |s|
        invariant Valid() && text == old(text) + s[..k]
      {
        assert s[..k + 1] == s[..k] + [s[k]];
        Outch(s[k]);
      }
      assert s[..|s|] == s;
    }

    method FmtStr(value: string, minus: bool, min: int, max: int)
      requires Valid()
      modifies this, buffer
      ensures Valid() && text == old(text) + StrText(value, minus, min, max)
    {
      hide Valid, StrText, Fill;
      var padlen := Max(min - |value|, 0);
      var cnt := 0;
      if !minus {
        cnt := Min(padlen, Max(max, 0));
        Repeat(' ', cnt);
      }
      ghost var spaces, before := cnt, text;
      var k := 0;
      while k < |value| && cnt < max
        invariant 0 <= k <= |value| && Valid() && text == before + value[..k]
        invariant cnt == spaces + k && (k == 0 || cnt <= max)
      {
        assert value[..k + 1] == value[..k] + [value[k]];
        Outch(value[k]);
        k := k + 1;
        cnt := cnt + 1;
      }
      if minus {
        Repeat(' ', Min(padlen, max - cnt));
      }
      StrTextIs(value, minus, min, max, spaces, k);
    }

    /** The do-while loop of fmtint: digits from the least significant one, twenty at most. */
    static method ConvertDigits(u: nat, base: nat, up: bool) returns (convert: array<char>, place: nat)
      requires 2 <= base <= 16
      ensures fresh(convert) && convert.Length == 20 && place == Place(u, base) <= 20
      ensures forall j :: 0 <= j < place ==> convert[j] == LowDigits(u, base, up, place)[place - 1 - j]
    {
      hide LowDigits, Length, Digit, Shifted;
      convert := new char[20];
      place := 0;
      var uvalue := u;
      var more := true;
      ShiftNone(u, base);
      while more
        invariant place <= 20 && (more ==> place < 20) && (!more ==> place > 0)
        invariant uvalue == Shifted(u, base, place)
        invariant forall j :: 0 <= j < place ==> convert[j] == LowDigits(u, base, up, place)[place - 1 - j]
        invariant place == 0 || uvalue > 0 ==> Length(u, base) == place + Length(uvalue, base)
        invariant place > 0 && uvalue == 0 ==> Length(u, base) == place
        invariant more <==> place == 0 || (uvalue > 0 && place < 20)
        decreases 20 - place, more
      {
        TopDigit(u, base, up, place);
        ShiftMore(u, base, place);
        LengthStep(uvalue, base);
        convert[place] := Digit(uvalue % base, up);
        place := place + 1;
        uvalue := uvalue / base;
        more := uvalue != 0 && place < 20;
      }
      if place == 20 {
        TopDigit(u, base, up, 19);
        place := place - 1;
      }
    }

    /** The digits, the most significant first: the filled part of `convert` from its end. */
    method EmitDigits(convert: array<char>, place: nat, ghost digits: string)
      requires Valid() && place <= convert.Length && convert != buffer && |digits| == place
      requires forall j :: 0 <= j < place ==> convert[j] == digits[place - 1 - j]
      modifies this, buffer
      ensures Valid() && text == old(text) + digits
    {
      hide Valid;
      var k := place;
      while k > 0
        invariant 0 <= k <= place && Valid() && text == old(text) + digits[..place - k]
        invariant forall j :: 0 <= j < place ==> convert[j] == digits[place - 1 - j]
      {
        k := k - 1;
        assert digits[..place - k] == digits[..place - k - 1] + [convert[k]];
        Outch(convert[k]);
      }
      assert digits[..place] == digits;
    }

    /** The sign, the zeros and the digits. */
    method EmitNumber(sign: string, zpadlen: int, u: nat, base: nat, up: bool)
      requires Valid() && 2 <= base <= 16 && |sign| <= 1
      modifies this, buffer
      ensures Valid()
      ensures text == old(text) + (sign + (Fill(zpadlen, '0') + LowDigits(u, base, up, Place(u, base))))
    {
      hide Valid, LowDigits, Place, Fill;
      ghost var t := text;
      if |sign| == 1 {
        Outch(sign[0]);
      }
      assert text == t + sign;
      Repeat('0', zpadlen);
      var convert, place := ConvertDigits(u, base, up);
      EmitDigits(convert, place, LowDigits(u, base, up, place));
    }

    method FmtInt(value: int, base: nat, min: int, max: int, flags: Flags)
      requires Valid() && 2 <= base <= 16
      modifies this, buffer
      ensures Valid() && text == old(text) + IntText(value, base, min, max, flags)
    {
      hide Valid, LowDigits, Place, Sign, Magnitude, Fill;
      var m := Max(max, 0);
      var sign, u := Sign(value, flags), Magnitude(value, flags);
      var place := Place(u, base);
      var zpadlen := Max(m - place, 0);
      var spadlen := Max(min - Max(m, place) - |sign|, 0);
      if flags.zero {
        zpadlen := Max(zpadlen, spadlen);
        spadlen := 0;
      }
      if !flags.minus {
        Repeat(' ', spadlen);
      }
      EmitNumber(sign, zpadlen, u, base, flags.up);
      if flags.minus {
        Repeat(' ', spadlen);
      }
    }
  }

  lemma ShiftNone(u: nat, base: nat)
    requires base >= 2
    ensures Shifted(u, base, 0) == u
  {
  }

  lemma LengthStep(v: nat, base: nat)
    requires base >= 2
    ensures Length(v, base) == if v / base == 0 then 1 else 1 + Length(v / base, base)
  {
  }

  function Shifted(u: nat, base: nat, k: nat): nat
    requires base >= 2
  {
    if k == 0 then u else Shifted(u / base, base, k - 1)
  }

  lemma {:induction false} ShiftMore(u: nat, base: nat, k: nat)
    requires base >= 2
    ensures Shifted(u, base, k + 1) == Shifted(u, base, k) / base
    decreases k
  {
    if k > 0 {
      ShiftMore(u / base, base, k - 1);
    }
  }

  /** The top digit of `k` + 1 digits is that of the magnitude divided `k` times. */
  lemma {:induction false} TopDigit(u: nat, base: nat, up: bool, k: nat)
    requires 2 <= base <= 16
    ensures LowDigits(u, base, up, k + 1) == [Digit(Shifted(u, base, k) % base, up)] + LowDigits(u, base, up, k)
    decreases k
  {
    hide *;
    DigitsStep(u, base, up, k);
    if k > 0 {
      TopDigit(u / base, base, up, k - 1);
      DigitsStep(u, base, up, k - 1);
      ShiftStep(u, base, k);
      Regrouped(Digit(Shifted(u, base, k) % base, up), LowDigits(u / base, base, up, k - 1), Digit(u % base, up));
    } else {
      NoDigits(u, base, up);
    }
  }

  lemma DigitsStep(u: nat, base: nat, up: bool, k: nat)
    requires 2 <= base <= 16
    ensures LowDigits(u, base, up, k + 1) == LowDigits(u / base, base, up, k) + [Digit(u % base, up)]
  {
    hide Digit;
  }

  lemma ShiftStep(u: nat, base: nat, k: nat)
    requires base >= 2 && k > 0
    ensures Shifted(u, base, k) == Shifted(u / base, base, k - 1)
  {
  }

  lemma NoDigits(u: nat, base: nat, up: bool)
    requires 2 <= base <= 16
    ensures LowDigits(u, base, up, 0) == "" && LowDigits(u / base, base, up, 0) == ""
    ensures Shifted(u, base, 0) == u
  {
  }

  lemma Regrouped(a: char, s: string, b: char)
    ensures ([a] + s) + [b] == [a] + (s + [b])
  {
  }

  // ----- dopr ----------------------------------------------------------------------------------

  datatype State = Default | InFlags | InMin | InDot | InMax | InMod | InConv | Done {
    /** The order of the states within one directive. */
    function Rank(): nat {
      match this
      case Default => 7 case InFlags => 6 case InMin => 5 case InDot => 4
      case InMax => 3 case InMod => 2 case InConv => 1 case Done => 0
    }
  }

  /** What the machine in a state still has to write. `s` is where the directive started. */
  function Remaining(st: State, f: string, i: nat, d: Directive, s: nat, fp: (real, int, int, Flags) -> string): string
    requires !st.Default? && !st.Done? ==> s < i <= |f|
  {
    match st
    case Default => Render(f, i, d.va, fp)
    case InFlags => RenderDirective(f, ReadFlags(f, i, d), s, fp)
    case InMin => RenderDirective(f, ReadWidth(f, i, d), s, fp)
    case InDot => RenderDirective(f, ReadDot(f, i, d), s, fp)
    case InMax => RenderDirective(f, ReadPrecision(f, i, d), s, fp)
    case InMod => RenderDirective(f, ReadModifier(f, i, d), s, fp)
    case InConv => RenderDirective(f, d.(next := i), s, fp)
    case Done => ""
  }

  lemma ReadOneFlag(f: string, i: nat, d: Directive)
    requires i < |f|
    ensures IsFlag(f[i]) ==>
              ReadFlags(f, i, d) == ReadFlags(f, i + 1, d.(flags := WithFlags(d.flags, [f[i]])))
    ensures !IsFlag(f[i]) ==> ReadFlags(f, i, d) == ReadWidth(f, i, d)
  {
    hide ReadWidth;
    var j := FlagsEnd(f, i);
    if IsFlag(f[i]) {
      assert f[i..j] == [f[i]] + f[i + 1..j];
    } else {
      assert WithFlags(d.flags, f[i..i]) == d.flags;
    }
  }

  lemma ReadOneWidthDigit(f: string, i: nat, d: Directive)
    requires i < |f|
    ensures IsDigit(f[i]) ==>
              ReadWidth(f, i, d) == ReadWidth(f, i + 1, d.(min := 10 * d.min + (f[i] as int - '0' as int)))
    ensures f[i] == '*' ==> ReadWidth(f, i, d) == ReadDot(f, i + 1, d.(min := NextNumber(d.va), va := Rest(d.va)))
    ensures !IsDigit(f[i]) && f[i] != '*' ==> ReadWidth(f, i, d) == ReadDot(f, i, d)
  {
    hide ReadDot;
    var j := DigitsEnd(f, i);
    if IsDigit(f[i]) {
      assert f[i..j][1..] == f[i + 1..j];
    } else {
      assert Decimal(d.min, f[i..i]) == d.min;
    }
  }

  lemma ReadOnePrecisionDigit(f: string, i: nat, d: Directive)
    requires i < |f|
    ensures IsDigit(f[i]) ==>
              ReadPrecision(f, i, d) ==
              ReadPrecision(f, i + 1, d.(max := 10 * Max(d.max, 0) + (f[i] as int - '0' as int)))
    ensures f[i] == '*' ==>
              ReadPrecision(f, i, d) == ReadModifier(f, i + 1, d.(max := NextNumber(d.va), va := Rest(d.va)))
    ensures !IsDigit(f[i]) && f[i] != '*' ==> ReadPrecision(f, i, d) == ReadModifier(f, i, d)
  {
    hide ReadModifier;
    var j := DigitsEnd(f, i);
    if IsDigit(f[i]) {
      var n := 10 * Max(d.max, 0) + (f[i] as int - '0' as int);
      assert f[i..j][1..] == f[i + 1..j];
      assert Decimal(Max(d.max, 0), f[i..j]) == Decimal(n, f[i + 1..j]);
      assert j == i + 1 ==> Decimal(n, f[i + 1..j]) == n;
    }
  }

  /** At the end of the format every reading stage stops where it is. */
  lemma ReadAtEnd(f: string, i: nat, d: Directive)
    requires i <= |f| && At(f, i) == '\0'
    ensures ReadFlags(f, i, d).next == i && ReadWidth(f, i, d).next == i && ReadDot(f, i, d).next == i
    ensures ReadPrecision(f, i, d).next == i && ReadModifier(f, i, d).next == i
  {
  }

  /** Write one conversion. */
  method Conversion(sink: Sink, c: char, d: Directive, fp: (real, int, int, Flags) -> string)
    requires sink.Valid()
    modifies sink, sink.buffer
    ensures sink.Valid() && sink.text == old(sink.text) + Convert(c, d, fp)
  {
    hide IntText, StrText;
    var v := NextNumber(d.va);
    var u := d.flags.(unsigned := true);
    match c
    case 'd' => sink.FmtInt(SignedArg(d.modifier, v), 10, d.min, d.max, d.flags);
    case 'i' => sink.FmtInt(SignedArg(d.modifier, v), 10, d.min, d.max, d.flags);
    case 'o' => sink.FmtInt(UnsignedArg(d.modifier, v), 8, d.min, d.max, u);
    case 'u' => sink.FmtInt(UnsignedArg(d.modifier, v), 10, d.min, d.max, u);
    case 'X' => sink.FmtInt(UnsignedArg(d.modifier, v), 16, d.min, d.max, u.(up := true));
    case 'x' => sink.FmtInt(UnsignedArg(d.modifier, v), 16, d.min, d.max, u);
    case 'p' => sink.FmtInt(Signed64(v), 16, d.min, d.max, d.flags);
    case 'c' => sink.Outch((v % 256) as char);
    case 's' =>
      var value := NextText(d.va);
      var max := if d.max == -1 then |value| else d.max;
      if d.min > 0 && max >= 0 && d.min > max {
        max := d.min;
      }
      sink.FmtStr(value, d.flags.minus, d.min, max);
    case 'f' => sink.EmitAll(fp(NextReal(d.va), d.min, d.max, d.flags));
    case '%' => sink.Outch(c);
    case _ =>
  }

  lemma RenderStep(f: string, i: nat, va: seq<Arg>, fp: (real, int, int, Flags) -> string)
    requires i < |f| && f[i] != '\0'
    ensures f[i] != '%' ==> Render(f, i, va, fp) == [f[i]] + Render(f, i + 1, va, fp)
    ensures f[i] == '%' ==>
              Render(f, i, va, fp) ==
              Remaining(InFlags, f, i + 1, Directive(NO_FLAGS, 0, -1, NoModifier, 0, va), i, fp)
  {
  }

  lemma RenderStop(st: State, f: string, i: nat, d: Directive, s: nat, fp: (real, int, int, Flags) -> string)
    requires !st.Default? && !st.Done? ==> s < i <= |f|
    requires At(f, i) == '\0'
    ensures Remaining(st, f, i, d, s, fp) == ""
  {
    if i <= |f| {
      ReadAtEnd(f, i, d);
    }
  }

  lemma ReadOneModifier(f: string, i: nat, d: Directive, s: nat, fp: (real, int, int, Flags) -> string)
    requires s < i < |f|
    ensures var r := ReadModifier(f, i, d);
            Remaining(InMod, f, i, d, s, fp) == Remaining(InConv, f, r.next, r.(next := 0), s, fp)
  {
  }

  function AfterConversion(c: char, d: Directive): Directive {
    Directive(NO_FLAGS, 0, -1, NoModifier, 0, if TakesArgument(c) then Rest(d.va) else d.va)
  }

  lemma ConvStep(f: string, i: nat, d: Directive, s: nat, fp: (real, int, int, Flags) -> string)
    requires s < i < |f| && f[i] != '\0' && d.next == 0
    ensures var n := i + (if f[i] == 'w' then 2 else 1);
            Remaining(InConv, f, i, d, s, fp) ==
            Convert(f[i], d, fp) + Remaining(Default, f, n, AfterConversion(f[i], d), s, fp)
  {
    hide Render, Convert;
    ConvertNext(f[i], d, i, fp);
  }

  lemma ConvertNext(c: char, d: Directive, i: nat, fp: (real, int, int, Flags) -> string)
    ensures Convert(c, d.(next := i), fp) == Convert(c, d, fp)
  {
    hide IntText, StrConversion;
  }

  /** The states of one directive: each pass reads a character or moves on to a later state. */
  method ReadDirective(st: State, f: string, at: nat, before: Directive, ghost from: nat,
                       ghost fp: (real, int, int, Flags) -> string)
    returns (state: State, i: nat, d: Directive)
    requires st.InFlags? || st.InMin? || st.InDot? || st.InMax? || st.InMod?
    requires before.next == 0 && from < at < |f| && f[at] != '\0'
    ensures !state.Default? && !state.Done? && at <= i <= |f| && d.next == 0
    ensures Remaining(state, f, i, d, from, fp) == Remaining(st, f, at, before, from, fp)
    ensures i == at ==> state.Rank() < st.Rank()
  {
    hide RenderDirective, ReadFlags, ReadWidth, ReadPrecision;
    var ch := f[at];
    state, i, d := st, at, before;
    match st
    case InFlags =>
      ReadOneFlag(f, i, d);
      match ch {
        case '-' => d := d.(flags := d.flags.(minus := true)); i := i + 1;
        case '+' => d := d.(flags := d.flags.(plus := true)); i := i + 1;
        case ' ' => d := d.(flags := d.flags.(space := true)); i := i + 1;
        case '#' => d := d.(flags := d.flags.(num := true)); i := i + 1;
        case '0' => d := d.(flags := d.flags.(zero := true)); i := i + 1;
        case _ => state := InMin;
      }
    case InMin =>
      ReadOneWidthDigit(f, i, d);
      if IsDigit(ch) {
        d := d.(min := 10 * d.min + (ch as int - '0' as int));
        i := i + 1;
      } else if ch == '*' {
        d := d.(min := NextNumber(d.va), va := Rest(d.va));
        i := i + 1;
        state := InDot;
      } else {
        state := InDot;
      }
    case InDot =>
      if ch == '.' {
        state := InMax;
        i := i + 1;
      } else {
        state := InMod;
      }
    case InMax =>
      ReadOnePrecisionDigit(f, i, d);
      if IsDigit(ch) {
        d := d.(max := 10 * (if d.max < 0 then 0 else d.max) + (ch as int - '0' as int));
        i := i + 1;
      } else if ch == '*' {
        d := d.(max := NextNumber(d.va), va := Rest(d.va));
        i := i + 1;
        state := InMod;
      } else {
        state := InMod;
      }
    case InMod =>
      ReadOneModifier(f, i, d, from, fp);
      match ch {
        case 'h' => d := d.(modifier := Short); i := i + 1;
        case 'l' =>
          d := d.(modifier := Long);
          i := i + 1;
          if At(f, i) == 'l' {
            d := d.(modifier := LongLong);
            i := i + 1;
          }
        case 'L' => d := d.(modifier := LongDouble); i := i + 1;
        case _ =>
      }
      state := InConv;
  }

  /** One pass of the loop of dopr at the character `ch`. */
  method Advance(sink: Sink, st: State, f: string, at: nat, before: Directive, ghost from: nat,
                 fp: (real, int, int, Flags) -> string)
    returns (state: State, i: nat, d: Directive, ghost start: nat)
    requires sink.Valid() && !st.Done? && before.next == 0
    requires st.Default? ==> at <= |f| + 1 && before == Directive(NO_FLAGS, 0, -1, NoModifier, 0, before.va)
    requires !st.Default? ==> from < at <= |f|
    modifies sink, sink.buffer
    ensures sink.Valid() && d.next == 0
    ensures state.Default? ==> i <= |f| + 1 && d == Directive(NO_FLAGS, 0, -1, NoModifier, 0, d.va)
    ensures !state.Default? && !state.Done? ==> start < i <= |f|
    ensures sink.text + Remaining(state, f, i, d, start, fp) ==
            old(sink.text) + Remaining(st, f, at, before, from, fp)
    ensures at <= i <= |f| + 1 && (i == at ==> state.Rank() < st.Rank())
  {
    hide Render, RenderDirective, ReadFlags, ReadWidth, ReadDot, ReadPrecision, ReadModifier, Convert;
    state, i, d, start := st, at, before, from;
    var ch := At(f, i);
    if ch == '\0' {
      RenderStop(st, f, i, d, from, fp);
      state := Done;
      return;
    }
    match st
    case Default =>
      RenderStep(f, i, d.va, fp);
      if ch == '%' {
        state, start := InFlags, i;
      } else {
        sink.Outch(ch);
      }
      i := i + 1;
    case InConv =>
      ConvStep(f, i, d, from, fp);
      Conversion(sink, ch, d, fp);
      if ch == 'w' {
        i := i + 1;
      }
      i := i + 1;
      state, d := Default, AfterConversion(ch, d);
    case _ =>
      state, i, d := ReadDirective(st, f, i, d, from, fp);
  }

  lemma RemainingEnds(f: string, args: seq<Arg>, fp: (real, int, int, Flags) -> string)
    ensures Remaining(Default, f, 0, Directive(NO_FLAGS, 0, -1, NoModifier, 0, args), 0, fp) == Render(f, 0, args, fp)
    ensures forall i: nat, d: Directive, start: nat :: Remaining(Done, f, i, d, start, fp) == ""
    ensures "" + Render(f, 0, args, fp) == Render(f, 0, args, fp)
  {
    hide Render;
  }

  /** dopr. The offset `i` is that of the character the C code holds in `ch`. */
  method Dopr(buffer: array?<char>, maxlen: nat, f: string, args: seq<Arg>, fp: (real, int, int, Flags) -> string)
    returns (currlen: nat)
    requires maxlen > 0 ==> buffer != null
    requires buffer != null ==> maxlen <= buffer.Length
    modifies buffer
    ensures currlen == |Render(f, 0, args, fp)|
    ensures buffer != null ==> buffer[..] == Bounded(Render(f, 0, args, fp), maxlen, old(buffer[..]))
  {
    hide Render, Convert, Remaining, Sink.Valid, Bounded, State.Rank;
    ghost var out := Render(f, 0, args, fp);
    RemainingEnds(f, args, fp);
    var sink := new Sink(buffer, maxlen);
    var state, d := Default, Directive(NO_FLAGS, 0, -1, NoModifier, 0, args);
    var i: nat := 0;
    ghost var start: nat := 0;
    while state != Done
      invariant sink.Valid() && sink.initial == if buffer == null then "" else old(buffer[..])
      invariant d.next == 0
      invariant state.Default? ==> i <= |f| + 1 && d == Directive(NO_FLAGS, 0, -1, NoModifier, 0, d.va)
      invariant !state.Default? && !state.Done? ==> start < i <= |f|
      invariant i <= |f| + 1
      invariant sink.text + Remaining(state, f, i, d, start, fp) == out
      decreases |f| + 1 - i, state.Rank()
    {
      state, i, d, start := Advance(sink, state, f, i, d, start, fp);
    }
    assert sink.text + "" == sink.text;
    currlen := sink.Terminate();
  }

  /** What the caller finds in the buffer: the whole text, or the first maxlen - 1 characters of a text that does
      not fit, then a NUL, then the rest of the buffer as it was. */
  lemma BoundedPrefix(text: string, maxlen: nat, before: string)
    requires maxlen <= |before|
    ensures var b, n := Bounded(text, maxlen, before), if maxlen == 0 then 0 else Min(|text|, maxlen - 1);
            |b| == |before| && b[..n] == text[..n] && (0 < maxlen ==> b[n] == '\0') &&
            (forall k :: n < k < |before| ==> b[k] == before[k]) && (maxlen == 0 ==> b == before)
    ensures |text| < maxlen ==> Bounded(text, maxlen, before)[..|text| + 1] == text + ['\0']
  {
  }

  /** vasprintf: the first pass counts, the second writes into a buffer of that length and a NUL. */
  method Vasprintf(f: string, args: seq<Arg>, fp: (real, int, int, Flags) -> string)
    returns (ptr: array?<char>, ret: nat)
    ensures ret == |Render(f, 0, args, fp)|
    ensures ret == 0 ==> ptr == null
    ensures ret > 0 ==> ptr != null && fresh(ptr) && ptr[..] == Render(f, 0, args, fp) + ['\0']
  {
    hide Render;
    ptr := null;
    ret := Dopr(null, 0, f, args, fp);
    if ret == 0 {
      return;
    }
    ptr := new char[ret + 1];
    ghost var before := ptr[..];
    BoundedPrefix(Render(f, 0, args, fp), ret + 1, before);
    ret := Dopr(ptr, ret + 1, f, args, fp);
    assert ptr[..] == ptr[..][..ret + 1];
  }
}
