/** The streaming MD4 of mdfour.c and its front end in hash.c.

    `Rfc1320` is the one-shot digest of RFC 1320, sections 3.1 to 3.5: pad, append the 64-bit
    length, fold the 16-word blocks, output the registers. The class `Mdfour` is the code: registers,
    a 64-byte tail buffer and a 32-bit byte counter, all updated in place. Its methods are proved
    against `Absorb` and `Finish`, and the lemmas below connect those two with `Rfc1320`. */
module Md4 {

  const MASK32: nat := 0x1_0000_0000

  type uint32 = x: int | 0 <= x < MASK32

  // ----- Section 3.4: functions, rounds and the 48 steps --------------------------------------

  datatype Regs = Regs(a: bv32, b: bv32, c: bv32, d: bv32)

  function F(x: bv32, y: bv32, z: bv32): bv32 { (x & y) | (!x & z) }

  function G(x: bv32, y: bv32, z: bv32): bv32 { (x & y) | (x & z) | (y & z) }

  function H(x: bv32, y: bv32, z: bv32): bv32 { x ^ y ^ z }

  /** `x <<< s`, written with two shifts as the lshift macro does. */
  function Lshift(x: bv32, s: bv6): bv32
    requires 0 < s < 32
  {
    (x << s) | (x >> (32 - s))
  }

  /** Lshift is the circular left shift, for each of the eight amounts MD4 uses. */
  lemma LshiftIsRotation(t: bv32)
    ensures Lshift(t, 3) == t.RotateLeft(3) && Lshift(t, 7) == t.RotateLeft(7)
    ensures Lshift(t, 11) == t.RotateLeft(11) && Lshift(t, 19) == t.RotateLeft(19)
    ensures Lshift(t, 5) == t.RotateLeft(5) && Lshift(t, 9) == t.RotateLeft(9)
    ensures Lshift(t, 13) == t.RotateLeft(13) && Lshift(t, 15) == t.RotateLeft(15)
  {
  }

  /** The operation of each round: the new value of `a`. */
  function Op1(a: bv32, b: bv32, c: bv32, d: bv32, m: bv32, s: bv6): bv32
    requires 0 < s < 32
  {
    Lshift(a + F(b, c, d) + m, s)
  }

  function Op2(a: bv32, b: bv32, c: bv32, d: bv32, m: bv32, s: bv6): bv32
    requires 0 < s < 32
  {
    Lshift(a + G(b, c, d) + m + 0x5A827999, s)
  }

  function Op3(a: bv32, b: bv32, c: bv32, d: bv32, m: bv32, s: bv6): bv32
    requires 0 < s < 32
  {
    Lshift(a + H(b, c, d) + m + 0x6ED9EBA1, s)
  }

  /** Four operations [ABCD], [DABC], [CDAB], [BCDA] of each round, on the words `k`, `l`, `m`, `n`.
      After an operation the roles of the registers move on by one place. */
  function Group1(r: Regs, k: bv32, l: bv32, m: bv32, n: bv32): Regs {
    var r1 := Regs(r.d, Op1(r.a, r.b, r.c, r.d, k, 3), r.b, r.c);
    var r2 := Regs(r1.d, Op1(r1.a, r1.b, r1.c, r1.d, l, 7), r1.b, r1.c);
    var r3 := Regs(r2.d, Op1(r2.a, r2.b, r2.c, r2.d, m, 11), r2.b, r2.c);
    Regs(r3.d, Op1(r3.a, r3.b, r3.c, r3.d, n, 19), r3.b, r3.c)
  }

  function Group2(r: Regs, k: bv32, l: bv32, m: bv32, n: bv32): Regs {
    var r1 := Regs(r.d, Op2(r.a, r.b, r.c, r.d, k, 3), r.b, r.c);
    var r2 := Regs(r1.d, Op2(r1.a, r1.b, r1.c, r1.d, l, 5), r1.b, r1.c);
    var r3 := Regs(r2.d, Op2(r2.a, r2.b, r2.c, r2.d, m, 9), r2.b, r2.c);
    Regs(r3.d, Op2(r3.a, r3.b, r3.c, r3.d, n, 13), r3.b, r3.c)
  }

  function Group3(r: Regs, k: bv32, l: bv32, m: bv32, n: bv32): Regs {
    var r1 := Regs(r.d, Op3(r.a, r.b, r.c, r.d, k, 3), r.b, r.c);
    var r2 := Regs(r1.d, Op3(r1.a, r1.b, r1.c, r1.d, l, 9), r1.b, r1.c);
    var r3 := Regs(r2.d, Op3(r2.a, r2.b, r2.c, r2.d, m, 11), r2.b, r2.c);
    Regs(r3.d, Op3(r3.a, r3.b, r3.c, r3.d, n, 15), r3.b, r3.c)
  }

  /** The first `j` groups of a round: words by rows, by columns, and in bit-reversed order. */
  function Round1(x: seq<bv32>, r: Regs, j: nat): Regs
    requires |x| == 16 && j <= 4
  {
    if j == 0 then r
    else var i := 4 * (j - 1); Group1(Round1(x, r, j - 1), x[i], x[i + 1], x[i + 2], x[i + 3])
  }

  function Round2(x: seq<bv32>, r: Regs, j: nat): Regs
    requires |x| == 16 && j <= 4
  {
    if j == 0 then r
    else var i := j - 1; Group2(Round2(x, r, j - 1), x[i], x[i + 4], x[i + 8], x[i + 12])
  }

  function Round3(x: seq<bv32>, r: Regs, j: nat): Regs
    requires |x| == 16 && j <= 4
  {
    if j == 0 then r
    else
      var i := (j - 1) % 2 * 2 + (j - 1) / 2;
      Group3(Round3(x, r, j - 1), x[i], x[i + 8], x[i + 4], x[i + 12])
  }

  function Plus(q: Regs, r: Regs): Regs { Regs(q.a + r.a, q.b + r.b, q.c + r.c, q.d + r.d) }

  /** Three rounds of four groups, then the sum with the registers before them. */
  function Compress(r: Regs, x: seq<bv32>): Regs
    requires |x| == 16
  {
    Plus(Round3(x, Round2(x, Round1(x, r, |x| / 4), |x| / 4), |x| / 4), r)
  }

  lemma CompressIs(x: seq<bv32>, r: Regs)
    requires |x| == 16
    ensures Compress(r, x) == Plus(Round3(x, Round2(x, Round1(x, r, 4), 4), 4), r)
  {
    hide Round1, Round2, Round3, Plus;
    assert |x| / 4 == 4;
  }

  // ----- Section 2: a word is four bytes, low-order byte first --------------------------------

  function Word(b0: bv8, b1: bv8, b2: bv8, b3: bv8): bv32 {
    b3 as bv32 * 0x100_0000 + b2 as bv32 * 0x1_0000 + b1 as bv32 * 0x100 + b0 as bv32
  }

  function Words(block: seq<bv8>): (x: seq<bv32>)
    requires |block| == 64
    ensures |x| == 16
  {
    seq(16, i requires 0 <= i < 16 => Word(block[4*i], block[4*i+1], block[4*i+2], block[4*i+3]))
  }

  function Bytes(x: bv32): (b: seq<bv8>)
    ensures |b| == 4
  {
    [(x & 0xFF) as bv8, ((x >> 8) & 0xFF) as bv8, ((x >> 16) & 0xFF) as bv8, ((x >> 24) & 0xFF) as bv8]
  }

  lemma WordBytesRoundTrip(x: bv32)
    ensures Word(Bytes(x)[0], Bytes(x)[1], Bytes(x)[2], Bytes(x)[3]) == x
  {
  }

  /** Section 3.4: the blocks of 16 words one after the other. */
  function Blocks(r: Regs, s: seq<bv8>): Regs
    decreases |s|
  {
    if |s| < 64 then r else Blocks(Compress(r, Words(s[..64])), s[64..])
  }

  lemma {:induction false} BlocksConcat(r: Regs, s: seq<bv8>, t: seq<bv8>)
    requires |s| % 64 == 0
    ensures Blocks(r, s + t) == Blocks(Blocks(r, s), t)
    decreases |s|
  {
    if |s| == 0 {
      assert s + t == t;
    } else {
      assert (s + t)[..64] == s[..64] && (s + t)[64..] == s[64..] + t;
      BlocksConcat(Compress(r, Words(s[..64])), s[64..], t);
    }
  }

  // ----- Sections 3.1, 3.2, 3.3, 3.5: the one-shot digest -------------------------------------

  const INITIAL := Regs(0x67452301, 0xefcdab89, 0x98badcfe, 0x10325476)

  /** The number of zero bytes that bring 0x80 and itself up to 56 modulo 64. */
  function ZeroCount(n: nat): (z: nat)
    ensures z < 64 && (n + 1 + z) % 64 == 56
  {
    (119 - n % 64) % 64
  }

  function Zeros(n: nat): (z: seq<bv8>)
    ensures |z| == n
  {
    seq(n, i => 0)
  }

  /** The low-order and high-order words of the 64-bit length in bits of an `n`-byte message. */
  function LowWord(n: nat): bv32 { (8 * n % MASK32) as bv32 }

  function HighWord(n: nat): bv32 { (8 * n / MASK32 % MASK32) as bv32 }

  lemma PaddingFills(n: nat, z: nat)
    requires (n + 1 + z) % 64 == 56
    ensures (n + (1 + z + 4 + 4)) % 64 == 0
  {
  }

  /** What RFC 1320 appends to a message of `n` bytes. */
  function RfcPadding(n: nat): (p: seq<bv8>)
    ensures (n + |p|) % 64 == 0
  {
    PaddingFills(n, ZeroCount(n));
    [0x80] + Zeros(ZeroCount(n)) + Bytes(LowWord(n)) + Bytes(HighWord(n))
  }

  function Output(r: Regs): seq<bv8> {
    Bytes(r.a) + Bytes(r.b) + Bytes(r.c) + Bytes(r.d)
  }

  function Rfc1320(msg: seq<bv8>): seq<bv8> {
    Output(Blocks(INITIAL, msg + RfcPadding(|msg|)))
  }

  // ----- The abstract state of `struct mdfour` and its two operations -------------------------

  datatype State = State(regs: Regs, totalN: uint32, tail: seq<bv8>) {
    predicate Valid() { |tail| < 64 }
  }

  const BEGIN := State(INITIAL, 0, [])

  /** The bytes of `n` that fill whole blocks. */
  function Whole(n: nat): (k: nat)
    ensures k % 64 == 0 && k <= n < k + 64
  {
    n / 64 * 64
  }

  function Absorb(s: State, data: seq<bv8>): (s': State)
    requires s.Valid()
    ensures s'.Valid()
  {
    var t := s.tail + data;
    var k := Whole(|t|);
    State(Blocks(s.regs, t[..k]), (s.totalN + k) % MASK32, t[k..])
  }

  /** What mdfour_tail appends: the bit count is a 32-bit product and its high word stays zero. */
  function CodePadding(n: nat, count: uint32): (p: seq<bv8>)
    ensures (n + |p|) % 64 == 0
  {
    PaddingFills(n, ZeroCount(n));
    [0x80] + Zeros(ZeroCount(n)) + Bytes((count * 8 % MASK32) as bv32) + Zeros(4)
  }

  function Finish(s: State): (s': State)
    requires s.Valid()
    ensures s'.Valid()
  {
    var total := (s.totalN + |s.tail|) % MASK32;
    State(Blocks(s.regs, s.tail + CodePadding(|s.tail|, total)), total, s.tail)
  }

  function AbsorbAll(s: State, pieces: seq<seq<bv8>>): (s': State)
    requires s.Valid()
    ensures s'.Valid()
    decreases |pieces|
  {
    if pieces == [] then s else AbsorbAll(Absorb(s, pieces[0]), pieces[1..])
  }

  function Flatten(pieces: seq<seq<bv8>>): seq<bv8> {
    if pieces == [] then [] else pieces[0] + Flatten(pieces[1..])
  }

  lemma WholeOfSum(a: nat, b: nat)
    ensures Whole(a) + Whole(a - Whole(a) + b) == Whole(a + b)
  {
  }

  lemma AddMod(t: nat, k: nat, l: nat)
    ensures ((t + k) % MASK32 + l) % MASK32 == (t + k + l) % MASK32
  {
  }

  lemma AbsorbCompose(s: State, x: seq<bv8>, y: seq<bv8>)
    requires s.Valid()
    ensures Absorb(Absorb(s, x), y) == Absorb(s, x + y)
  {
    hide Blocks, Whole;
    var t := s.tail + x;
    var k := Whole(|t|);
    var u := t[k..] + y;
    var l := Whole(|u|);
    var w := s.tail + (x + y);
    assert w == t[..k] + u;
    WholeOfSum(|t|, |y|);
    assert w[..k + l] == t[..k] + u[..l];
    assert w[k + l..] == u[l..];
    AddMod(s.totalN, k, l);
    BlocksConcat(s.regs, t[..k], u[..l]);
  }

  lemma AbsorbNothing(s: State)
    requires s.Valid()
    ensures Absorb(s, []) == s
  {
    assert s.tail + [] == s.tail;
  }

  /** However a message is cut into updates, the state is that of one update. */
  lemma {:induction false} CutsDoNotMatter(s: State, pieces: seq<seq<bv8>>)
    requires s.Valid()
    ensures AbsorbAll(s, pieces) == Absorb(s, Flatten(pieces))
    decreases |pieces|
  {
    if pieces == [] {
      AbsorbNothing(s);
    } else {
      CutsDoNotMatter(Absorb(s, pieces[0]), pieces[1..]);
      AbsorbCompose(s, pieces[0], Flatten(pieces[1..]));
    }
  }

  lemma OnePiece(e: seq<bv8>)
    ensures Flatten([e]) == e && AbsorbAll(BEGIN, [e]) == Absorb(BEGIN, e)
  {
    hide Absorb;
    assert [e][1..] == [];
  }

  // ----- The stream against RFC 1320 ----------------------------------------------------------

  lemma SamePadding(n: nat, count: uint32)
    ensures CodePadding(n % 64, count) == CodePadding(n, count)
  {
  }

  lemma FinishRegs(r: Regs, total: uint32, tail: seq<bv8>, n: nat)
    requires |tail| == n % 64 && (total + |tail|) % MASK32 == n % MASK32
    ensures Finish(State(r, total, tail)).regs == Blocks(r, tail + CodePadding(n, n % MASK32))
  {
    hide Blocks, CodePadding;
    SamePadding(n, n % MASK32);
  }

  lemma SplitFold(msg: seq<bv8>, k: nat, pad: seq<bv8>)
    requires k <= |msg| && k % 64 == 0
    ensures Blocks(INITIAL, msg + pad) == Blocks(Blocks(INITIAL, msg[..k]), msg[k..] + pad)
  {
    hide Blocks;
    assert msg[..k] + (msg[k..] + pad) == msg + pad;
    BlocksConcat(INITIAL, msg[..k], msg[k..] + pad);
  }

  /** Counted block by block or in one go, the 32-bit counter ends at the message length. */
  lemma CounterIsLength(n: nat)
    ensures (Whole(n) % MASK32 + (n - Whole(n))) % MASK32 == n % MASK32
    ensures n - Whole(n) == n % 64 && MASK32 > 0
  {
    AddMod(0, Whole(n), n - Whole(n));
  }

  lemma AbsorbFromBegin(msg: seq<bv8>)
    ensures var k := Whole(|msg|);
            Absorb(BEGIN, msg) == State(Blocks(INITIAL, msg[..k]), k % MASK32, msg[k..])
  {
    hide Blocks, Whole;
    assert [] + msg == msg;
  }

  lemma TotalIsLength(msg: seq<bv8>)
    ensures Finish(Absorb(BEGIN, msg)).totalN == |msg| % MASK32
  {
    hide Blocks, CodePadding;
    AbsorbFromBegin(msg);
    CounterIsLength(|msg|);
  }

  /** The registers after the NULL update are the fold over the message and the code's padding. */
  lemma FinishIsOneShot(msg: seq<bv8>)
    ensures Finish(Absorb(BEGIN, msg)).regs == Blocks(INITIAL, msg + CodePadding(|msg|, |msg| % MASK32))
  {
    hide *;
    CounterIsLength(|msg|);
    AbsorbFromBegin(msg);
    var k := Whole(|msg|);
    FinishRegs(Blocks(INITIAL, msg[..k]), k % MASK32, msg[k..], |msg|);
    SplitFold(msg, k, CodePadding(|msg|, |msg| % MASK32));
  }

  lemma BytesOfZero(w: bv32)
    ensures Bytes(w) == [0, 0, 0, 0] <==> w == 0
  {
    if Bytes(w) == [0, 0, 0, 0] {
      assert Bytes(w)[0] == 0 && Bytes(w)[1] == 0 && Bytes(w)[2] == 0 && Bytes(w)[3] == 0;
      WordBytesRoundTrip(w);
    }
  }

  lemma BitCount(n: nat)
    ensures (n % MASK32) * 8 % MASK32 == 8 * n % MASK32
    ensures 8 * n / MASK32 == n / 0x2000_0000
  {
  }

  /** The padding is that of RFC 1320 exactly when the bit length has a zero high-order word. */
  lemma PaddingMatchesRfcIff(n: nat)
    ensures CodePadding(n, n % MASK32) == RfcPadding(n) <==> n / 0x2000_0000 % MASK32 == 0
  {
    hide *;
    var prefix := PaddingStart(n);
    BitCount(n);
    CodePaddingIs(n);
    RfcPaddingIs(n);
    BytesOfZero(HighWord(n));
    HighWordIs(n);
    SameFront(prefix, Bytes(HighWord(n)));
  }

  /** What both paddings begin with. */
  function PaddingStart(n: nat): seq<bv8> { [0x80] + Zeros(ZeroCount(n)) + Bytes(LowWord(n)) }

  lemma CodePaddingIs(n: nat)
    ensures CodePadding(n, n % MASK32) == PaddingStart(n) + [0, 0, 0, 0]
  {
    hide Bytes, LowWord;
    SameLowWord(n);
    assert Zeros(4) == [0, 0, 0, 0];
  }

  lemma RfcPaddingIs(n: nat)
    ensures RfcPadding(n) == PaddingStart(n) + Bytes(HighWord(n))
  {
    hide Bytes, LowWord, HighWord;
  }

  lemma HighWordIs(n: nat)
    requires 8 * n / MASK32 == n / 0x2000_0000
    ensures HighWord(n) == 0 <==> n / 0x2000_0000 % MASK32 == 0
  {
  }

  lemma SameFront(prefix: seq<bv8>, b: seq<bv8>)
    ensures prefix + [0, 0, 0, 0] == prefix + b <==> b == [0, 0, 0, 0]
  {
    assert (prefix + [0, 0, 0, 0])[|prefix|..] == [0, 0, 0, 0] && (prefix + b)[|prefix|..] == b;
  }

  lemma SameLowWord(n: nat)
    ensures (n % MASK32 * 8 % MASK32) as bv32 == LowWord(n)
  {
    BitCount(n);
  }

  /** A message of 2^29 bytes is the first whose padding leaves the standard. */
  lemma PaddingFailsAt512MiB()
    ensures CodePadding(0x2000_0000, 0x2000_0000) != RfcPadding(0x2000_0000)
  {
    hide CodePadding, RfcPadding;
    PaddingMatchesRfcIff(0x2000_0000);
  }

  /** Main result: any sequence of updates closed by the NULL update gives the RFC 1320 digest. */
  lemma StreamIsRfc1320(pieces: seq<seq<bv8>>)
    requires |Flatten(pieces)| / 0x2000_0000 % MASK32 == 0
    ensures Output(Finish(AbsorbAll(BEGIN, pieces)).regs) == Rfc1320(Flatten(pieces))
  {
    CutsDoNotMatter(BEGIN, pieces);
    FinishIsOneShot(Flatten(pieces));
    PaddingMatchesRfcIff(|Flatten(pieces)|);
  }

  // ----- Absorb and Finish one block at a time ------------------------------------------------

  lemma OneBlock(r: Regs, s: seq<bv8>)
    requires |s| == 64
    ensures Blocks(r, s) == Compress(r, Words(s))
  {
    hide Compress, Words;
    assert s[..64] == s;
  }

  lemma TwoBlocks(r: Regs, s: seq<bv8>)
    requires |s| == 128
    ensures Blocks(r, s) == Compress(Compress(r, Words(s[..64])), Words(s[64..]))
  {
    hide Compress, Words, Blocks;
    assert s == s[..64] + s[64..];
    BlocksConcat(r, s[..64], s[64..]);
    OneBlock(r, s[..64]);
    OneBlock(Blocks(r, s[..64]), s[64..]);
  }

  lemma AbsorbShort(s: State, data: seq<bv8>)
    requires |s.tail| + |data| < 64
    ensures Absorb(s, data) == State(s.regs, s.totalN, s.tail + data)
  {
    hide Compress;
    assert (s.tail + data)[..0] == [];
  }

  lemma AbsorbBlock(s: State, data: seq<bv8>)
    requires s.Valid() && |s.tail| + |data| == 64
    ensures Absorb(s, data) == State(Compress(s.regs, Words(s.tail + data)), (s.totalN + 64) % MASK32, [])
  {
    hide Compress, Words, Blocks;
    var t := s.tail + data;
    assert t[..64] == t && t[64..] == [];
    OneBlock(s.regs, t);
  }

  lemma OrIsSum(b0: bv8, b1: bv8, b2: bv8, b3: bv8)
    ensures (b3 as bv32 << 24) | (b2 as bv32 << 16) | (b1 as bv32 << 8) | b0 as bv32 == Word(b0, b1, b2, b3)
  {
  }

  /** The layout mdfour_tail builds in its buffer; `at` is where the length goes. */
  lemma PaddedBuffer(tail: seq<bv8>, total: uint32, buf: seq<bv8>, at: nat, b: seq<bv8>)
    requires |tail| < 64 && at == if |tail| <= 55 then 56 else 120
    requires b == Bytes((total * 8 % MASK32) as bv32)
    requires |buf| == 128 && buf[..|tail|] == tail && buf[|tail|] == 0x80
    requires forall i :: |tail| < i < 128 ==> buf[i] == 0
    ensures (buf[..at] + b + buf[at + 4..])[..at + 8] == tail + CodePadding(|tail|, total)
  {
    hide Bytes;
    assert ZeroCount(|tail|) == at - 1 - |tail|;
    assert buf[..at] == tail + [0x80] + Zeros(at - 1 - |tail|);
    assert buf[at + 4..at + 8] == Zeros(4);
  }

  // ----- The code -----------------------------------------------------------------------------

  class Mdfour {
    var A: bv32
    var B: bv32
    var C: bv32
    var D: bv32
    var totalN: uint32
    var tailLen: nat
    const tail: array<bv8>

    ghost predicate Valid()
      reads this, tail
    {
      tail.Length == 64 && tailLen < 64
    }

    ghost function Abs(): (s: State)
      reads this, tail
      requires Valid()
      ensures s.Valid()
    {
      State(Regs(A, B, C, D), totalN, tail[..tailLen])
    }

    constructor ()
      ensures Valid() && Abs() == BEGIN && fresh(tail)
    {
      tail := new bv8[64];
      A, B, C, D := 0x67452301, 0xefcdab89, 0x98badcfe, 0x10325476;
      totalN, tailLen := 0, 0;
    }

    method Begin()
      requires Valid()
      modifies this
      ensures Valid() && Abs() == BEGIN
    {
      A, B, C, D := 0x67452301, 0xefcdab89, 0x98badcfe, 0x10325476;
      totalN, tailLen := 0, 0;
    }

    static method Quad1(A: bv32, B: bv32, C: bv32, D: bv32, k: bv32, l: bv32, m: bv32, n: bv32)
      returns (a: bv32, b: bv32, c: bv32, d: bv32)
      ensures Regs(a, b, c, d) == Group1(Regs(A, B, C, D), k, l, m, n)
    {
      a := Op1(A, B, C, D, k, 3);
      d := Op1(D, a, B, C, l, 7);
      c := Op1(C, d, a, B, m, 11);
      b := Op1(B, c, d, a, n, 19);
    }

    static method Quad2(A: bv32, B: bv32, C: bv32, D: bv32, k: bv32, l: bv32, m: bv32, n: bv32)
      returns (a: bv32, b: bv32, c: bv32, d: bv32)
      ensures Regs(a, b, c, d) == Group2(Regs(A, B, C, D), k, l, m, n)
    {
      a := Op2(A, B, C, D, k, 3);
      d := Op2(D, a, B, C, l, 5);
      c := Op2(C, d, a, B, m, 9);
      b := Op2(B, c, d, a, n, 13);
    }

    static method Quad3(A: bv32, B: bv32, C: bv32, D: bv32, k: bv32, l: bv32, m: bv32, n: bv32)
      returns (a: bv32, b: bv32, c: bv32, d: bv32)
      ensures Regs(a, b, c, d) == Group3(Regs(A, B, C, D), k, l, m, n)
    {
      a := Op3(A, B, C, D, k, 3);
      d := Op3(D, a, B, C, l, 9);
      c := Op3(C, d, a, B, m, 11);
      b := Op3(B, c, d, a, n, 15);
    }

    static method Sixteen1(A: bv32, B: bv32, C: bv32, D: bv32, M: seq<bv32>)
      returns (a: bv32, b: bv32, c: bv32, d: bv32)
      requires |M| == 16
      ensures Regs(a, b, c, d) == Round1(M, Regs(A, B, C, D), 4)
    {
      hide Group1;
      a, b, c, d := Quad1(A, B, C, D, M[0], M[1], M[2], M[3]);
      assert Regs(a, b, c, d) == Round1(M, Regs(A, B, C, D), 1);
      a, b, c, d := Quad1(a, b, c, d, M[4], M[5], M[6], M[7]);
      assert Regs(a, b, c, d) == Round1(M, Regs(A, B, C, D), 2);
      a, b, c, d := Quad1(a, b, c, d, M[8], M[9], M[10], M[11]);
      assert Regs(a, b, c, d) == Round1(M, Regs(A, B, C, D), 3);
      a, b, c, d := Quad1(a, b, c, d, M[12], M[13], M[14], M[15]);
    }

    static method Sixteen2(A: bv32, B: bv32, C: bv32, D: bv32, M: seq<bv32>)
      returns (a: bv32, b: bv32, c: bv32, d: bv32)
      requires |M| == 16
      ensures Regs(a, b, c, d) == Round2(M, Regs(A, B, C, D), 4)
    {
      hide Group2;
      a, b, c, d := Quad2(A, B, C, D, M[0], M[4], M[8], M[12]);
      assert Regs(a, b, c, d) == Round2(M, Regs(A, B, C, D), 1);
      a, b, c, d := Quad2(a, b, c, d, M[1], M[5], M[9], M[13]);
      assert Regs(a, b, c, d) == Round2(M, Regs(A, B, C, D), 2);
      a, b, c, d := Quad2(a, b, c, d, M[2], M[6], M[10], M[14]);
      assert Regs(a, b, c, d) == Round2(M, Regs(A, B, C, D), 3);
      a, b, c, d := Quad2(a, b, c, d, M[3], M[7], M[11], M[15]);
    }

    static method Sixteen3(A: bv32, B: bv32, C: bv32, D: bv32, M: seq<bv32>)
      returns (a: bv32, b: bv32, c: bv32, d: bv32)
      requires |M| == 16
      ensures Regs(a, b, c, d) == Round3(M, Regs(A, B, C, D), 4)
    {
      hide Group3;
      a, b, c, d := Quad3(A, B, C, D, M[0], M[8], M[4], M[12]);
      assert Regs(a, b, c, d) == Round3(M, Regs(A, B, C, D), 1);
      a, b, c, d := Quad3(a, b, c, d, M[2], M[10], M[6], M[14]);
      assert Regs(a, b, c, d) == Round3(M, Regs(A, B, C, D), 2);
      a, b, c, d := Quad3(a, b, c, d, M[1], M[9], M[5], M[13]);
      assert Regs(a, b, c, d) == Round3(M, Regs(A, B, C, D), 3);
      a, b, c, d := Quad3(a, b, c, d, M[3], M[11], M[7], M[15]);
    }

    /** mdfour64: the 48 assignments of one block, then the sums into the registers. */
    method Mdfour64(M: array<bv32>)
      requires M.Length == 16
      modifies this`A, this`B, this`C, this`D
      ensures Regs(A, B, C, D) == Compress(old(Regs(A, B, C, D)), M[..])
    {
      hide Compress, Round1, Round2, Round3, Plus;
      CompressIs(M[..], Regs(A, B, C, D));
      var a, b, c, d := Sixteen1(A, B, C, D, M[..]);
      a, b, c, d := Sixteen2(a, b, c, d, M[..]);
      a, b, c, d := Sixteen3(a, b, c, d, M[..]);
      var sum := Plus(Regs(a, b, c, d), Regs(A, B, C, D));
      A, B, C, D := sum.a, sum.b, sum.c, sum.d;
    }

    /** copy64: sixteen little-endian words. */
    static method Copy64(M: array<bv32>, input: array<bv8>, off: nat)
      requires M.Length == 16 && off + 64 <= input.Length
      modifies M
      ensures M[..] == Words(input[off..off + 64])
    {
      hide Word;
      ghost var block := input[off..off + 64];
      for i := 0 to 16
        invariant forall j :: 0 <= j < i ==> M[j] == Word(block[4*j], block[4*j+1], block[4*j+2], block[4*j+3])
      {
        var k := off + 4 * i;
        OrIsSum(input[k], input[k+1], input[k+2], input[k+3]);
        M[i] := (input[k+3] as bv32 << 24) | (input[k+2] as bv32 << 16) | (input[k+1] as bv32 << 8) | input[k] as bv32;
      }
    }

    /** copy4: one word, low-order byte first. */
    static method Copy4(out: array<bv8>, off: nat, x: bv32)
      requires off + 4 <= out.Length
      modifies out
      ensures out[..] == old(out[..off]) + Bytes(x) + old(out[off + 4..])
    {
      out[off] := (x & 0xFF) as bv8;
      out[off + 1] := ((x >> 8) & 0xFF) as bv8;
      out[off + 2] := ((x >> 16) & 0xFF) as bv8;
      out[off + 3] := ((x >> 24) & 0xFF) as bv8;
    }

    method Absorb64(input: array<bv8>, off: nat)
      requires off + 64 <= input.Length
      modifies this`A, this`B, this`C, this`D
      ensures Regs(A, B, C, D) == Compress(old(Regs(A, B, C, D)), Words(input[off..off + 64]))
    {
      hide Compress, Words;
      var M := new bv32[16];
      Copy64(M, input, off);
      Mdfour64(M);
    }

    method FillTail() returns (buf: array<bv8>)
      requires Valid()
      ensures fresh(buf) && buf.Length == 128
      ensures buf[..tailLen] == tail[..tailLen] && buf[tailLen] == 0x80
      ensures forall i :: tailLen < i < 128 ==> buf[i] == 0
    {
      buf := new bv8[128](_ => 0);
      forall i | 0 <= i < tailLen { buf[i] := tail[i]; }
      buf[tailLen] := 0x80;
    }

    /** The 128-byte buffer of mdfour_tail: the tail, 0x80, zeros, and the 32-bit bit count. */
    method PadTail() returns (buf: array<bv8>)
      requires Valid()
      ensures fresh(buf) && buf.Length == 128
      ensures buf[..if tailLen <= 55 then 64 else 128] == tail[..tailLen] + CodePadding(tailLen, totalN)
    {
      hide Bytes, CodePadding;
      buf := FillTail();
      var at := if tailLen <= 55 then 56 else 120;
      var b := (totalN * 8 % MASK32) as bv32;
      PaddedBuffer(tail[..tailLen], totalN, buf[..], at, Bytes(b));
      ghost var padded := tail[..tailLen] + CodePadding(tailLen, totalN);
      ghost var before := buf[..];
      assert (before[..at] + Bytes(b) + before[at + 4..])[..at + 8] == padded;
      assert before[..at] == buf[..at] && before[at + 4..] == buf[at + 4..];
      Copy4(buf, at, b);
      assert buf[..][..at + 8] == buf[..at + 8];
    }

    /** mdfour_tail on the tail buffer: pad, then run one or two blocks. */
    method Tail()
      requires Valid()
      modifies this
      ensures Valid() && Abs() == Finish(old(Abs()))
    {
      hide Blocks, Compress, Words, CodePadding;
      ghost var s := Abs();
      totalN := (totalN + tailLen) % MASK32;
      var buf := PadTail();
      if tailLen <= 55 {
        OneBlock(s.regs, buf[0..64]);
        Absorb64(buf, 0);
      } else {
        TwoBlocks(s.regs, buf[..]);
        assert buf[..][..64] == buf[0..64] && buf[..][64..] == buf[64..64 + 64] && buf[..128] == buf[..];
        Absorb64(buf, 0);
        Absorb64(buf, 64);
      }
    }

    /** The first part of mdfour_update: complete a pending tail with the first `p` bytes. */
    method TopUp(input: array<bv8>, n: nat) returns (p: nat)
      requires Valid() && n <= input.Length && input != tail
      modifies this, tail
      ensures Valid() && p <= n && (p == n || tailLen == 0)
      ensures Abs() == Absorb(old(Abs()), input[..p])
    {
      hide Absorb, Compress, Words;
      ghost var s := Abs();
      var len := if 64 - tailLen > n then n else 64 - tailLen;
      forall i | 0 <= i < len { tail[tailLen + i] := input[i]; }
      assert tail[..tailLen + len] == s.tail + input[..len];
      tailLen := tailLen + len;
      p := len;
      if tailLen == 64 {
        AbsorbBlock(s, input[..len]);
        assert tail[0..0 + 64] == s.tail + input[..len];
        Absorb64(tail, 0);
        totalN := (totalN + 64) % MASK32;
        tailLen := 0;
        assert tail[..0] == [];
      } else {
        AbsorbShort(s, input[..len]);
      }
    }

    /** One pass of the block loop of mdfour_update. */
    method AbsorbBlockAt(input: array<bv8>, p: nat)
      requires Valid() && tailLen == 0 && p + 64 <= input.Length
      modifies this
      ensures Valid() && tailLen == 0 && Abs() == Absorb(old(Abs()), input[p..p + 64])
    {
      hide Absorb, Compress, Words;
      ghost var s := Abs();
      AbsorbBlock(s, input[p..p + 64]);
      assert s.tail + input[p..p + 64] == input[p..p + 64];
      Absorb64(input, p);
      totalN := (totalN + 64) % MASK32;
    }

    /** The last part of mdfour_update: keep the bytes that do not fill a block. */
    method KeepTail(input: array<bv8>, p: nat, n: nat)
      requires Valid() && tailLen == 0 && p <= n <= input.Length && n - p < 64 && input != tail
      modifies this, tail
      ensures Valid() && Abs() == Absorb(old(Abs()), input[p..n])
    {
      hide Absorb, Compress, Words;
      ghost var s, data := Abs(), input[p..n];
      AbsorbShort(s, data);
      forall i | 0 <= i < n - p { tail[i] := input[p + i]; }
      tailLen := n - p;
      assert tail[..n - p] == s.tail + data;
      assert input[p..n] == data;
    }

    /** mdfour_update. A null `input` closes the stream; otherwise `n` bytes are absorbed. */
    method Update(input: array?<bv8>, n: nat)
      requires Valid()
      requires input != null ==> n <= input.Length && input != tail
      modifies this, tail
      ensures Valid()
      ensures Abs() == if input == null then Finish(old(Abs())) else Absorb(old(Abs()), input[..n])
    {
      hide *;
      if input == null {
        Tail();
        return;
      }
      ghost var s, data := Abs(), input[..];
      var p := 0;
      AbsorbNothing(s);
      assert data[..0] == [];
      if tailLen > 0 {
        p := TopUp(input, n);
      }
      while n - p >= 64
        invariant p <= n && Valid() && Abs() == Absorb(s, data[..p])
        invariant p == n || tailLen == 0
        invariant input[..] == data
      {
        AbsorbCompose(s, data[..p], data[p..p + 64]);
        assert data[..p] + data[p..p + 64] == data[..p + 64];
        AbsorbBlockAt(input, p);
        p := p + 64;
      }
      if n - p > 0 {
        AbsorbCompose(s, data[..p], data[p..n]);
        assert data[..p] + data[p..n] == data[..n];
        KeepTail(input, p, n);
      }
      assert input[..n] == data[..n];
    }

    /** mdfour_result: the registers as sixteen bytes. */
    method Result(out: array<bv8>)
      requires out.Length == 16
      modifies out
      ensures out[..] == Output(Regs(A, B, C, D))
    {
      hide Bytes;
      Copy4(out, 0, A);
      Copy4(out, 4, B);
      Copy4(out, 8, C);
      Copy4(out, 12, D);
    }
  }
}
