/** The front end of hash.c: a file fed to the digest in reads of at most 1024 bytes. */
module Hash {
  import opened Md4
  import Snprintf

  /** What read() returns at each offset of a file: a count of bytes, 0 at the end, or -1. */
  predicate Reads(file: seq<bv8>, read: nat -> int) {
    forall o: nat :: o <= |file| ==> -1 <= read(o) <= 1024 && read(o) <= |file| - o
  }

  /** hash_file. The loop stops at the first read that is not positive, at offset `end`. */
  method HashFile(md: Mdfour, file: seq<bv8>, read: nat -> int) returns (end: nat)
    requires md.Valid() && Reads(file, read)
    modifies md, md.tail
    ensures md.Valid() && end <= |file| && read(end) <= 0
    ensures md.Abs() == Absorb(old(md.Abs()), file[..end])
    ensures (forall o: nat :: o < |file| ==> read(o) > 0) ==> end == |file|
  {
    hide Absorb;
    ghost var s := md.Abs();
    var buf := new bv8[1024];
    end := 0;
    AbsorbNothing(s);
    assert file[..0] == [];
    while read(end) > 0
      invariant md.Valid() && end <= |file| && md.Abs() == Absorb(s, file[..end])
      decreases |file| - end
    {
      var n := read(end);
      forall i | 0 <= i < n { buf[i] := file[end + i]; }
      assert buf[..n] == file[end..end + n];
      assert file[..end] + file[end..end + n] == file[..end + n];
      AbsorbCompose(s, file[..end], file[end..end + n]);
      md.Update(buf, n);
      end := end + n;
    }
  }

  // ----- The text of a hash ----------------------------------------------------------------------

  /** "%02x" of a byte. */
  function Hex(b: bv8): (t: string)
    ensures |t| == 2
  {
    Snprintf.LowDigits(b as nat, 16, false, 2)
  }

  function HexText(sum: seq<bv8>): (t: string)
    ensures |t| == 2 * |sum|
  {
    if sum == [] then "" else HexText(sum[..|sum| - 1]) + Hex(sum[|sum| - 1])
  }

  /** What hash_result returns: the digest in hexadecimal digits, a dash and the counter of bytes. */
  function ResultText(sum: seq<bv8>, total: nat): string {
    HexText(sum) + ("-" + Snprintf.LowDigits(total, 10, false, Snprintf.Length(total, 10)))
  }

  lemma DigitsTell(u: nat, v: nat, base: nat, k: nat)
    requires 2 <= base <= 16 && u < Snprintf.Power(base, k) && v < Snprintf.Power(base, k)
    requires Snprintf.LowDigits(u, base, false, k) == Snprintf.LowDigits(v, base, false, k)
    ensures u == v
  {
    Snprintf.LowDigitsValue(u, base, false, k);
    Snprintf.LowDigitsValue(v, base, false, k);
    Snprintf.SmallRemainder(u, Snprintf.Power(base, k));
    Snprintf.SmallRemainder(v, Snprintf.Power(base, k));
  }

  lemma HexTells(a: bv8, b: bv8)
    requires Hex(a) == Hex(b)
    ensures a == b
  {
    assert Snprintf.Power(16, 2) == 256;
    DigitsTell(a as nat, b as nat, 16, 2);
    assert (a as nat) as bv8 == a && (b as nat) as bv8 == b;
  }

  lemma {:induction false} HexTextTells(a: seq<bv8>, b: seq<bv8>)
    requires HexText(a) == HexText(b)
    ensures a == b
    decreases |a|
  {
    hide Hex;
    assert |a| == |b|;
    if a != [] {
      var x, y := HexText(a[..|a| - 1]), HexText(b[..|b| - 1]);
      assert x == HexText(a)[..|x|] && y == HexText(b)[..|y|];
      assert Hex(a[|a| - 1]) == HexText(a)[|x|..] && Hex(b[|b| - 1]) == HexText(b)[|y|..];
      HexTextTells(a[..|a| - 1], b[..|b| - 1]);
      HexTells(a[|a| - 1], b[|b| - 1]);
      assert a == a[..|a| - 1] + [a[|a| - 1]] && b == b[..|b| - 1] + [b[|b| - 1]];
    }
  }

  /** Two results are the same text exactly when digest and counter are the same: nothing is lost in the name of
      a cached file. */
  lemma ResultTellsIff(a: seq<bv8>, n: nat, b: seq<bv8>, m: nat)
    requires |a| == |b| == 16
    ensures ResultText(a, n) == ResultText(b, m) <==> a == b && n == m
  {
    if ResultText(a, n) == ResultText(b, m) {
      var k, l := Snprintf.Length(n, 10), Snprintf.Length(m, 10);
      var s, t := Snprintf.LowDigits(n, 10, false, k), Snprintf.LowDigits(m, 10, false, l);
      ResultCuts(a, n);
      ResultCuts(b, m);
      Snprintf.LengthPower(n, 10, k);
      Snprintf.LengthPower(m, 10, l);
      hide *;
      HexTextTells(a, b);
      assert k == |s| == |t| == l;
      DigitsTell(n, m, 10, k);
    }
  }

  lemma ResultCuts(sum: seq<bv8>, n: nat)
    requires |sum| == 16
    ensures ResultText(sum, n)[..32] == HexText(sum)
    ensures ResultText(sum, n)[33..] == Snprintf.LowDigits(n, 10, false, Snprintf.Length(n, 10))
    ensures |ResultText(sum, n)| >= 33
  {
    hide HexText, Snprintf.LowDigits, Snprintf.Length;
  }

  /** A counter of 32 bits fits, so the text and its NUL fit the 53 characters of the buffer. */
  lemma ResultFits(sum: seq<bv8>, n: nat)
    requires |sum| == 16 && n < MASK32
    ensures |ResultText(sum, n)| < 53
  {
    assert Snprintf.Power(10, 5) == 100_000;
    assert Snprintf.Power(10, 8) == 1000 * Snprintf.Power(10, 5);
    assert Snprintf.Power(10, 10) == 100 * Snprintf.Power(10, 8);
    Snprintf.LengthPower(n, 10, 10);
    hide HexText, Snprintf.LowDigits, Snprintf.Length;
  }

  /** hash_result: the closing NULL update, and the text of digest and counter. */
  method HashResult(md: Mdfour) returns (ret: string)
    requires md.Valid()
    modifies md, md.tail
    ensures md.Valid() && md.Abs() == Finish(old(md.Abs()))
    ensures ret == ResultText(Output(Finish(old(md.Abs())).regs), md.totalN) && |ret| < 53
  {
    hide Finish, Output, Hex;
    md.Update(null, 0);
    var sum := new bv8[16];
    md.Result(sum);
    ret := "";
    for i := 0 to 16
      invariant ret == HexText(sum[..i])
    {
      assert sum[..i + 1][..i] == sum[..i];
      ret := ret + Hex(sum[i]);
    }
    assert sum[..16] == sum[..];
    ResultFits(sum[..], md.totalN);
    hide HexText, Snprintf.LowDigits, Snprintf.Length;
    ret := ret + ("-" + Snprintf.LowDigits(md.totalN, 10, false, Snprintf.Length(md.totalN, 10)));
  }

  /** hash_start, hash_file and hash_result on a file read to its end. */
  method FileDigest(md: Mdfour, file: seq<bv8>, read: nat -> int) returns (ret: string)
    requires md.Valid() && Reads(file, read) && forall o: nat :: o < |file| ==> read(o) > 0
    modifies md, md.tail
    ensures ret == ResultText(Output(Finish(Absorb(BEGIN, file)).regs), |file| % MASK32)
    ensures |file| / 0x2000_0000 % MASK32 == 0 ==> ret == ResultText(Rfc1320(file), |file| % MASK32)
  {
    hide Absorb, Finish, Rfc1320, Output, AbsorbAll, Flatten, ResultText;
    md.Begin();
    var end := HashFile(md, file, read);
    assert file[..end] == file;
    ret := HashResult(md);
    TotalIsLength(file);
    OnePiece(file);
    if |file| / 0x2000_0000 % MASK32 == 0 {
      StreamIsRfc1320([file]);
    }
  }

  /** mdfour: the one-shot entry point. */
  method OneShot(out: array<bv8>, input: array<bv8>, n: nat)
    requires out.Length == 16 && n <= input.Length
    modifies out
    ensures n / 0x2000_0000 % MASK32 == 0 ==> out[..] == Rfc1320(old(input[..n]))
  {
    hide Absorb, Finish, Rfc1320, Output, AbsorbAll, Flatten;
    var md := new Mdfour();
    ghost var msg := input[..n];
    md.Update(input, n);
    md.Update(null, 0);
    md.Result(out);
    OnePiece(msg);
    if n / 0x2000_0000 % MASK32 == 0 {
      StreamIsRfc1320([msg]);
    }
  }
}
