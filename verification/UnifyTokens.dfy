/** Which bytes make one token: each pass of unify in bytes, apart from the classes and the search that Unify writes
    it with, and what that means for white space inside a word. */
module UnifyTokens {
  import opened Unify

  // ----- Words and numbers ----------------------------------------------------------------------

  /** From a letter or underscore on, a pass pushes all letters, underscores and digits there are, and a newline. */
  lemma WordIsMaximal(t: seq<bv8>, o: nat, past: bv8)
    requires o < |t| && (0x41 <= t[o] <= 0x5A || 0x61 <= t[o] <= 0x7A || t[o] == 0x5F)
    ensures var n := Next(t, o);
            o < n <= |t| && Pushed(t, o, past) == t[o..n] + [0x0A] &&
            (forall i :: o <= i < n ==>
               0x41 <= t[i] <= 0x5A || 0x61 <= t[i] <= 0x7A || t[i] == 0x5F || 0x30 <= t[i] <= 0x39) &&
            (n < |t| ==> !(0x41 <= t[n] <= 0x5A || 0x61 <= t[n] <= 0x7A || t[n] == 0x5F || 0x30 <= t[n] <= 0x39))
  {
    SpanHolds(Word, t, o + 1);
    TakeFront(t, past, o, Next(t, o));
  }

  /** From a digit on: digits and periods up to `i`; behind an x the hexadecimal digits up to `j`; behind an e the
      digits and signs up to `k`; then the letters of a suffix; each part as long as it can be. */
  lemma NumberIsMaximal(t: seq<bv8>, o: nat, past: bv8) returns (i: nat, j: nat, k: nat)
    requires o < |t| && 0x30 <= t[o] <= 0x39
    ensures o < i <= j <= k <= Next(t, o) <= |t| && Pushed(t, o, past) == t[o..Next(t, o)] + [0x0A]
    ensures forall x :: o <= x < i ==> 0x30 <= t[x] <= 0x39 || t[x] == 0x2E
    ensures i < |t| ==> !(0x30 <= t[i] <= 0x39 || t[i] == 0x2E)
    ensures if i < |t| && (t[i] == 0x78 || t[i] == 0x58) then i < j else j == i
    ensures forall x :: i < x < j ==> 0x30 <= t[x] <= 0x39 || 0x41 <= t[x] <= 0x46 || 0x61 <= t[x] <= 0x66
    ensures i < j < |t| ==> !(0x30 <= t[j] <= 0x39 || 0x41 <= t[j] <= 0x46 || 0x61 <= t[j] <= 0x66)
    ensures if j < |t| && (t[j] == 0x45 || t[j] == 0x65) then j < k else k == j
    ensures forall x :: j < x < k ==> 0x30 <= t[x] <= 0x39 || t[x] == 0x2B || t[x] == 0x2D
    ensures j < k < |t| ==> !(0x30 <= t[k] <= 0x39 || t[k] == 0x2B || t[k] == 0x2D)
    ensures forall x :: k <= x < Next(t, o) ==>
              t[x] == 0x6C || t[x] == 0x4C || t[x] == 0x66 || t[x] == 0x46 || t[x] == 0x75 || t[x] == 0x55
    ensures var n := Next(t, o);
            n < |t| ==> !(t[n] == 0x6C || t[n] == 0x4C || t[n] == 0x66 || t[n] == 0x46 || t[n] == 0x75 || t[n] == 0x55)
  {
    hide *;
    i := Span(Digits, t, o + 1);
    j := PartEnd(Hex, t, i, 0x78, 0x58);
    k := PartEnd(Exponent, t, j, 0x45, 0x65);
    NumberNext(t, o, i, j, k);
    TakeFront(t, past, o, Next(t, o));
    SpanHolds(Digits, t, o + 1);
    PartHolds(Hex, t, i, 0x78, 0x58);
    PartHolds(Exponent, t, j, 0x45, 0x65);
    SpanHolds(Suffix, t, k);
    NumberBytes();
  }

  lemma NumberBytes()
    ensures forall c :: Has(Digits, c) <==> 0x30 <= c <= 0x39 || c == 0x2E
    ensures forall c :: Has(Hex, c) <==> 0x30 <= c <= 0x39 || 0x41 <= c <= 0x46 || 0x61 <= c <= 0x66
    ensures forall c :: Has(Exponent, c) <==> 0x30 <= c <= 0x39 || c == 0x2B || c == 0x2D
    ensures forall c :: Has(Suffix, c) <==>
                        c == 0x6C || c == 0x4C || c == 0x66 || c == 0x46 || c == 0x75 || c == 0x55
  {
  }

  lemma NumberNext(t: seq<bv8>, o: nat, i: nat, j: nat, k: nat)
    requires o < |t| && 0x30 <= t[o] <= 0x39 && i == Span(Digits, t, o + 1)
    requires j == PartEnd(Hex, t, i, 0x78, 0x58) && k == PartEnd(Exponent, t, j, 0x45, 0x65)
    ensures Next(t, o) == Span(Suffix, t, k)
    ensures forall past :: Pushed(t, o, past) == (t + [past])[o..Next(t, o)] + [0x0A]
  {
    hide Span, PartEnd;
  }

  lemma PartHolds(k: Class, t: seq<bv8>, i: nat, a: bv8, b: bv8)
    requires i <= |t|
    ensures var j := PartEnd(k, t, i, a, b);
            (if i < |t| && (t[i] == a || t[i] == b) then i < j else j == i) &&
            (forall x :: i < x < j ==> Has(k, t[x])) && (i < j < |t| ==> !Has(k, t[j]))
  {
    if i < |t| {
      SpanHolds(k, t, i + 1);
    }
    hide Has;
  }

  // ----- White space, lines and literals --------------------------------------------------------

  /** A pass over white space, blanks and the bytes from tab to carriage return, takes all there is and pushes
      nothing. */
  lemma WhiteIsMaximal(t: seq<bv8>, o: nat, past: bv8)
    requires o < |t| && (t[o] == 0x20 || 0x09 <= t[o] <= 0x0D)
    ensures var n := Next(t, o);
            o < n <= |t| && Pushed(t, o, past) == [] &&
            (forall i :: o <= i < n ==> t[i] == 0x20 || 0x09 <= t[i] <= 0x0D) &&
            (n < |t| ==> !(t[n] == 0x20 || 0x09 <= t[n] <= 0x0D))
  {
    SpanHolds(Space, t, o + 1);
  }

  /** A '#' line goes to its newline, or the end of the text. A marker, a blank and a digit behind the '#', is
      dropped, any other line is pushed with a newline. */
  lemma HashLine(t: seq<bv8>, o: nat, past: bv8)
    requires o < |t| && t[o] == 0x23
    ensures var n := Next(t, o) - 1;
            o < n <= |t| && (forall i :: o <= i < n ==> t[i] != 0x0A) && (n < |t| ==> t[n] == 0x0A) &&
            Pushed(t, o, past) ==
            if |t| > o + 2 && t[o + 1] == 0x20 && 0x30 <= t[o + 2] <= 0x39 then [] else t[o..n] + [0x0A]
  {
    SpanHolds(Line, t, o + 1);
  }

  /** The backslashes right before `m`, down to `o`. */
  function Slashes(t: seq<bv8>, o: nat, m: nat): nat
    requires o <= m <= |t|
    decreases m
  {
    if o < m && t[m - 1] == 0x5C then 1 + Slashes(t, o, m - 1) else 0
  }

  /** Past a byte that is no backslash the count starts afresh. */
  lemma {:induction false} SlashesAfter(t: seq<bv8>, o: nat, p: nat, m: nat)
    requires o < p <= m <= |t| && t[p - 1] != 0x5C
    ensures Slashes(t, o, m) == Slashes(t, p, m)
    decreases m
  {
    if p < m {
      SlashesAfter(t, o, p, m - 1);
    }
  }

  /** Past an escaped byte the count keeps its parity. */
  lemma {:induction false} SlashesSkip(t: seq<bv8>, o: nat, m: nat)
    requires o + 2 <= m <= |t| && t[o] == 0x5C
    ensures Slashes(t, o, m) % 2 == Slashes(t, o + 2, m) % 2
    decreases m
  {
    if o + 2 < m {
      SlashesSkip(t, o, m - 1);
    } else if t[o + 1] == 0x5C {
      assert Slashes(t, o, o + 1) == 1;
    }
  }

  lemma {:induction false} QuoteCloses(t: seq<bv8>, q: bv8, i: nat)
    requires i <= |t| && q != 0x5C
    ensures var m := QuoteEnd(t, q, i);
            i <= m <= |t| && (m < |t| ==> t[m] == q && Slashes(t, i, m) % 2 == 0) &&
            forall k :: i <= k < m && t[k] == q ==> Slashes(t, i, k) % 2 == 1
    decreases |t| - i
  {
    var m := QuoteEnd(t, q, i);
    if i < |t| - 1 && t[i] == 0x5C {
      QuoteCloses(t, q, i + 2);
      if m < |t| {
        SlashesSkip(t, i, m);
      }
      forall k | i <= k < m && t[k] == q
        ensures Slashes(t, i, k) % 2 == 1
      {
        if k == i + 1 {
          assert Slashes(t, i, i + 1) == 1 + Slashes(t, i, i);
        } else {
          SlashesSkip(t, i, k);
        }
      }
    } else if i < |t| && t[i] != q {
      QuoteCloses(t, q, i + 1);
      if t[i] == 0x5C {
        assert m == |t|;
      } else {
        if m < |t| {
          SlashesAfter(t, i, i + 1, m);
        }
        forall k | i <= k < m && t[k] == q
          ensures Slashes(t, i, k) % 2 == 1
        {
          SlashesAfter(t, i, i + 1, k);
        }
      }
    }
  }

  /** A literal goes from its quote, single or double, to the first like one behind an even number of backslashes,
      else past the end of the text; it is pushed with a newline. */
  lemma LiteralCloses(t: seq<bv8>, o: nat, past: bv8)
    requires o < |t| && (t[o] == 0x22 || t[o] == 0x27)
    ensures var m := Next(t, o) - 1;
            o < m <= |t| && (m < |t| ==> t[m] == t[o] && Slashes(t, o + 1, m) % 2 == 0) &&
            (forall k :: o < k < m && t[k] == t[o] ==> Slashes(t, o + 1, k) % 2 == 1) &&
            Pushed(t, o, past) == (t + [past])[o..m + 1] + [0x0A]
  {
    QuoteCloses(t, t[o], o + 1);
  }

  // ----- Operators ------------------------------------------------------------------------------

  /** ... >>= <<= */
  const THREES: set<seq<bv8>> := {[0x2E, 0x2E, 0x2E], [0x3E, 0x3E, 0x3D], [0x3C, 0x3C, 0x3D]}

  /** += -= *= /= %= &= ^= |= >> << ++ -- -> && || <= >= == != <% %> <: */
  const TWOS: set<seq<bv8>> := {
    [0x2B, 0x3D], [0x2D, 0x3D], [0x2A, 0x3D], [0x2F, 0x3D], [0x25, 0x3D], [0x26, 0x3D],
    [0x5E, 0x3D], [0x7C, 0x3D], [0x3E, 0x3E], [0x3C, 0x3C], [0x2B, 0x2B], [0x2D, 0x2D],
    [0x2D, 0x3E], [0x26, 0x26], [0x7C, 0x7C], [0x3C, 0x3D], [0x3E, 0x3D], [0x3D, 0x3D],
    [0x21, 0x3D], [0x3C, 0x25], [0x25, 0x3E], [0x3C, 0x3A]
  }

  /** The table in bytes, in its order. */
  lemma LongTokens()
    ensures |LONG_TOKENS| == 3
    ensures LONG_TOKENS[0] == [0x2E, 0x2E, 0x2E]
    ensures LONG_TOKENS[1] == [0x3E, 0x3E, 0x3D] && LONG_TOKENS[2] == [0x3C, 0x3C, 0x3D]
  {
  }

  lemma PairTokens()
    ensures |PAIR_TOKENS| == 19
    ensures PAIR_TOKENS[0] == [0x2B, 0x3D] && PAIR_TOKENS[1] == [0x2D, 0x3D]
    ensures PAIR_TOKENS[2] == [0x2A, 0x3D] && PAIR_TOKENS[3] == [0x2F, 0x3D]
    ensures PAIR_TOKENS[4] == [0x25, 0x3D] && PAIR_TOKENS[5] == [0x26, 0x3D]
    ensures PAIR_TOKENS[6] == [0x5E, 0x3D] && PAIR_TOKENS[7] == [0x7C, 0x3D]
    ensures PAIR_TOKENS[8] == [0x3E, 0x3E] && PAIR_TOKENS[9] == [0x3C, 0x3C]
    ensures PAIR_TOKENS[10] == [0x2B, 0x2B] && PAIR_TOKENS[11] == [0x2D, 0x2D]
    ensures PAIR_TOKENS[12] == [0x2D, 0x3E] && PAIR_TOKENS[13] == [0x26, 0x26]
    ensures PAIR_TOKENS[14] == [0x7C, 0x7C] && PAIR_TOKENS[15] == [0x3C, 0x3D]
    ensures PAIR_TOKENS[16] == [0x3E, 0x3D] && PAIR_TOKENS[17] == [0x3D, 0x3D] && PAIR_TOKENS[18] == [0x21, 0x3D]
  {
  }

  lemma MixedTokens()
    ensures |MIXED_TOKENS| == 14
    ensures MIXED_TOKENS[0] == [0x3B] && MIXED_TOKENS[1] == [0x7B]
    ensures MIXED_TOKENS[2] == [0x3C, 0x25] && MIXED_TOKENS[3] == [0x7D]
    ensures MIXED_TOKENS[4] == [0x25, 0x3E] && MIXED_TOKENS[5] == [0x2C]
    ensures MIXED_TOKENS[6] == [0x3A] && MIXED_TOKENS[7] == [0x3D]
    ensures MIXED_TOKENS[8] == [0x28] && MIXED_TOKENS[9] == [0x29]
    ensures MIXED_TOKENS[10] == [0x5B] && MIXED_TOKENS[11] == [0x3C, 0x3A]
    ensures MIXED_TOKENS[12] == [0x5D] && MIXED_TOKENS[13] == [0x3A, 0x3E]
  {
  }

  lemma ShortTokens()
    ensures |SHORT_TOKENS| == 14
    ensures SHORT_TOKENS[0] == [0x2E] && SHORT_TOKENS[1] == [0x26]
    ensures SHORT_TOKENS[2] == [0x21] && SHORT_TOKENS[3] == [0x7E]
    ensures SHORT_TOKENS[4] == [0x2D] && SHORT_TOKENS[5] == [0x2B]
    ensures SHORT_TOKENS[6] == [0x2A] && SHORT_TOKENS[7] == [0x2F]
    ensures SHORT_TOKENS[8] == [0x25] && SHORT_TOKENS[9] == [0x3C]
    ensures SHORT_TOKENS[10] == [0x3E] && SHORT_TOKENS[11] == [0x5E]
    ensures SHORT_TOKENS[12] == [0x7C] && SHORT_TOKENS[13] == [0x3F]
  {
  }

  lemma TokenStarts(t: seq<bv8>, o: nat, tok: seq<bv8>)
    requires 0 < |tok| && o + |tok| <= |t| && t[o..o + |tok|] == tok
    ensures t[o] == tok[0] && (1 < |tok| ==> t[o + 1] == tok[1])
  {
  }

  lemma {:induction false} NoEarlier(t: seq<bv8>, o: nat, i: nat, j: nat)
    requires i <= |S_TOKENS| && i <= j < FirstToken(t, o, i)
    ensures !TokenAt(t, o, S_TOKENS[j])
    decreases j - i
  {
    hide TokenAt, S_TOKENS, FirstToken;
    FirstTokenStep(t, o, i);
    if i < j {
      NoEarlier(t, o, i + 1, j);
    }
  }

  lemma TokenIsAt(t: seq<bv8>, o: nat, tok: Token)
    ensures TokenAt(t, o, tok) <==> o + |tok| <= |t| && t[o..o + |tok|] == tok
  {
  }

  /** A token that stands in the text bounds the search. */
  lemma AtMost(t: seq<bv8>, o: nat, j: nat)
    requires j < |S_TOKENS| && TokenAt(t, o, S_TOKENS[j])
    ensures FirstToken(t, o, 0) <= j
  {
    hide TokenAt, S_TOKENS, FirstToken;
    if j < FirstToken(t, o, 0) {
      NoEarlier(t, o, 0, j);
    }
  }

  /** The four parts of the table. */
  lemma Parts()
    ensures |S_TOKENS| == 50
    ensures forall i :: 0 <= i < 3 ==> S_TOKENS[i] == LONG_TOKENS[i]
    ensures forall i :: 3 <= i < 22 ==> S_TOKENS[i] == PAIR_TOKENS[i - 3]
    ensures forall i :: 22 <= i < 36 ==> S_TOKENS[i] == MIXED_TOKENS[i - 22]
    ensures forall i :: 36 <= i < 50 ==> S_TOKENS[i] == SHORT_TOKENS[i - 36]
  {
    LongTokens();
    PairTokens();
    MixedTokens();
    ShortTokens();
    hide LONG_TOKENS, PAIR_TOKENS, MIXED_TOKENS, SHORT_TOKENS;
  }

  /** Three bytes are one token exactly when they are one of THREES. */
  lemma FirstIsLong(t: seq<bv8>, o: nat)
    ensures FirstToken(t, o, 0) < 3 <==> o + 3 <= |t| && t[o..o + 3] in THREES
  {
    Parts();
    LongTokens();
    var i := FirstToken(t, o, 0);
    hide FirstToken, S_TOKENS, LONG_TOKENS, TokenAt;
    if i < 3 {
      TokenIsAt(t, o, S_TOKENS[i]);
    }
    if o + 3 <= |t| && t[o..o + 3] in THREES {
      var k :| 0 <= k < 3 && t[o..o + 3] == S_TOKENS[k];
      TokenIsAt(t, o, S_TOKENS[k]);
      AtMost(t, o, k);
    }
  }

  /** The places of the table that hold two bytes and can come first: a ':' stands before the token ":>". */
  predicate PairPlace(i: nat) { 3 <= i < 22 || i == 24 || i == 26 || i == 33 }

  lemma PlacesArePairs(i: nat)
    requires i < 50
    ensures |S_TOKENS| == 50
    ensures PairPlace(i) ==> |S_TOKENS[i]| == 2 && S_TOKENS[i] in TWOS
    ensures 3 <= i && !PairPlace(i) && i != 35 ==> |S_TOKENS[i]| == 1
    ensures S_TOKENS[35] == [0x3A, 0x3E] && S_TOKENS[28] == [0x3A]
  {
    Parts();
    PairTokens();
    MixedTokens();
    ShortTokens();
    hide S_TOKENS, PAIR_TOKENS, MIXED_TOKENS, SHORT_TOKENS;
  }

  /** Every pair has its place. */
  lemma PairHasPlace(p: seq<bv8>) returns (k: nat)
    requires p in TWOS
    ensures PairPlace(k) && |S_TOKENS| == 50 && S_TOKENS[k] == p
  {
    Parts();
    PairTokens();
    MixedTokens();
    hide S_TOKENS, PAIR_TOKENS, MIXED_TOKENS;
    if p == [0x3C, 0x25] {
      k := 24;
    } else if p == [0x25, 0x3E] {
      k := 26;
    } else if p == [0x3C, 0x3A] {
      k := 33;
    } else {
      var j :| 0 <= j < 19 && PAIR_TOKENS[j] == p;
      k := j + 3;
    }
  }

  /** Between the pairs of the mixed part there is no token that a pair starts with. */
  lemma NothingBetween(i: nat, k: nat)
    requires 22 <= i < k && PairPlace(k) && !PairPlace(i)
    ensures |S_TOKENS| == 50 && S_TOKENS[i] != [] && S_TOKENS[i][0] != S_TOKENS[k][0]
  {
    Parts();
    MixedTokens();
    hide S_TOKENS, MIXED_TOKENS;
  }

  /** Tokens that stand at one place start with one byte. */
  lemma SameStart(t: seq<bv8>, o: nat, p: Token, q: Token)
    requires TokenAt(t, o, p) && TokenAt(t, o, q)
    ensures p[0] == q[0]
  {
    TokenStarts(t, o, p);
    TokenStarts(t, o, q);
  }

  /** A pair that stands in the text is found first, or a pair before it. */
  lemma PairComesFirst(t: seq<bv8>, o: nat, k: nat)
    requires PairPlace(k) && |S_TOKENS| == 50 && TokenAt(t, o, S_TOKENS[k]) && FirstToken(t, o, 0) >= 3
    ensures PairPlace(FirstToken(t, o, 0))
  {
    PlacesArePairs(k);
    var i := FirstToken(t, o, 0);
    hide FirstToken, S_TOKENS, TokenAt;
    AtMost(t, o, k);
    if i != k && 22 <= i {
      NotAtSame(t, o, i, k);
    }
  }

  lemma NotAtSame(t: seq<bv8>, o: nat, i: nat, k: nat)
    requires 22 <= i < k && PairPlace(k) && |S_TOKENS| == 50
    requires TokenAt(t, o, S_TOKENS[i]) && TokenAt(t, o, S_TOKENS[k])
    ensures PairPlace(i)
  {
    hide S_TOKENS, TokenAt;
    if !PairPlace(i) {
      NothingBetween(i, k);
      SameStart(t, o, S_TOKENS[i], S_TOKENS[k]);
    }
  }

  lemma FirstIsPair(t: seq<bv8>, o: nat)
    requires FirstToken(t, o, 0) >= 3
    ensures PairPlace(FirstToken(t, o, 0)) <==> o + 2 <= |t| && t[o..o + 2] in TWOS
  {
    var i := FirstToken(t, o, 0);
    if o + 2 <= |t| && t[o..o + 2] in TWOS {
      var k := PairHasPlace(t[o..o + 2]);
      hide FirstToken, S_TOKENS, TWOS, TokenAt;
      TokenIsAt(t, o, S_TOKENS[k]);
      PairComesFirst(t, o, k);
    }
    if PairPlace(i) {
      PlacesArePairs(i);
      hide FirstToken, S_TOKENS, TWOS, TokenAt;
      TokenIsAt(t, o, S_TOKENS[i]);
    }
  }

  lemma NotColonPair(t: seq<bv8>, o: nat)
    ensures FirstToken(t, o, 0) != 35
  {
    if FirstToken(t, o, 0) == 35 {
      PlacesArePairs(35);
      hide FirstToken, S_TOKENS, TokenAt;
      TokenIsAt(t, o, S_TOKENS[35]);
      TokenStarts(t, o, S_TOKENS[35]);
      TokenIsAt(t, o, S_TOKENS[28]);
      AtMost(t, o, 28);
    }
  }

  /** The bytes at which none of the other passes starts. */
  lemma OtherBytes(t: seq<bv8>, o: nat)
    requires o < |t| && t[o] != 0x23 && t[o] != 0x20 && !(0x09 <= t[o] <= 0x0D) && t[o] != 0x22 && t[o] != 0x27
    requires !(0x30 <= t[o] <= 0x39 || 0x41 <= t[o] <= 0x5A || 0x61 <= t[o] <= 0x7A || t[o] == 0x5F)
    ensures var i := FirstToken(t, o, 0);
            Next(t, o) == o + if i < |S_TOKENS| then |S_TOKENS[i]| else 1
    ensures forall past :: Pushed(t, o, past) == (t + [past])[o..Next(t, o)] + [0x0A]
  {
    hide FirstToken, S_TOKENS;
  }

  /** Any other byte starts an operator of three bytes if it can, else of two, else it stands alone; each is
      pushed with a newline. */
  lemma OperatorIsLongest(t: seq<bv8>, o: nat, past: bv8)
    requires o < |t| && t[o] != 0x23 && t[o] != 0x20 && !(0x09 <= t[o] <= 0x0D) && t[o] != 0x22 && t[o] != 0x27
    requires !(0x30 <= t[o] <= 0x39 || 0x41 <= t[o] <= 0x5A || 0x61 <= t[o] <= 0x7A || t[o] == 0x5F)
    ensures var n := if o + 3 <= |t| && t[o..o + 3] in THREES then 3
                     else if o + 2 <= |t| && t[o..o + 2] in TWOS then 2
                     else 1;
            o + n <= |t| && Next(t, o) == o + n && Pushed(t, o, past) == t[o..o + n] + [0x0A]
  {
    var i := FirstToken(t, o, 0);
    OtherBytes(t, o);
    FirstIsLong(t, o);
    NotColonPair(t, o);
    FiftyTokens();
    if i < 3 {
      LongIsThree(i);
    } else if i < 50 {
      FirstIsPair(t, o);
      PlacesArePairs(i);
    } else {
      FirstIsPair(t, o);
    }
    hide *;
    TakeFront(t, past, o, Next(t, o));
  }

  lemma FiftyTokens()
    ensures |S_TOKENS| == 50
  {
    Parts();
    hide *;
  }

  lemma LongIsThree(i: nat)
    requires i < 3
    ensures |S_TOKENS| == 50 && |S_TOKENS[i]| == 3
  {
    Parts();
    LongTokens();
    hide S_TOKENS, LONG_TOKENS;
  }

  // ----- Texts that the theorems are about -------------------------------------------------------

  /** A text without quotes has no open literal, and without # lines either every pass ends inside it. */
  lemma {:induction false} QuotelessIsClosed(t: seq<bv8>, o: nat)
    requires forall i :: o <= i < |t| ==> t[i] != 0x22 && t[i] != 0x27
    ensures Closed(t, o)
    ensures (forall i :: o <= i < |t| ==> t[i] != 0x23) ==> Complete(t, o)
    decreases |t| - o
  {
    hide Next;
    if o < |t| {
      QuotelessPass(t, o);
      QuotelessIsClosed(t, Next(t, o));
    }
  }

  lemma QuotelessPass(t: seq<bv8>, o: nat)
    requires o < |t| && t[o] != 0x22 && t[o] != 0x27
    ensures Next(t, o) > o && (t[o] != 0x23 ==> Next(t, o) <= |t|)
  {
    hide Next, Pushed;
    var c := t[o];
    if c != 0x23 {
      if 0x41 <= c <= 0x5A || 0x61 <= c <= 0x7A || c == 0x5F {
        WordIsMaximal(t, o, 0);
      } else if 0x30 <= c <= 0x39 {
        var i, j, k := NumberIsMaximal(t, o, 0);
      } else if c == 0x20 || 0x09 <= c <= 0x0D {
        WhiteIsMaximal(t, o, 0);
      } else {
        OperatorIsLongest(t, o, 0);
      }
    }
  }

  // ----- White space inside a word --------------------------------------------------------------

  /** A word and what goes on with a letter, an underscore or a digit is another text for the unifier when white
      space comes between: the stream tells them apart. */
  lemma SpaceSplitsWord(a: seq<bv8>, b: seq<bv8>, past: bv8)
    requires a != [] && b != []
    requires 0x41 <= a[0] <= 0x5A || 0x61 <= a[0] <= 0x7A || a[0] == 0x5F
    requires forall i :: 0 <= i < |a| ==>
               0x41 <= a[i] <= 0x5A || 0x61 <= a[i] <= 0x7A || a[i] == 0x5F || 0x30 <= a[i] <= 0x39
    requires 0x41 <= b[0] <= 0x5A || 0x61 <= b[0] <= 0x7A || b[0] == 0x5F || 0x30 <= b[0] <= 0x39
    ensures Emit(a + b, 0, past) != Emit(a + [0x20] + b, 0, past)
  {
    var t, u := a + b, a + [0x20] + b;
    assert t[0] == a[0] == u[0];
    assert forall i :: 0 <= i <= |a| ==> t[i] == if i < |a| then a[i] else b[0];
    assert forall i :: 0 <= i < |a| ==> u[i] == a[i];
    assert u[|a|] == 0x20 && |u| > |a|;
    hide *;
    WordIsMaximal(t, 0, past);
    WordIsMaximal(u, 0, past);
    assert Next(t, 0) > |a| && Next(u, 0) == |a|;
    EmitFront(t, past);
    EmitFront(u, past);
    FrontDiffers(t, Next(t, 0), Emit(t, Next(t, 0), past), u, Next(u, 0), Emit(u, Next(u, 0), past));
  }

  /** Two streams of which the first goes on with no newline where the second has one. */
  lemma FrontDiffers(t: seq<bv8>, n: nat, p: seq<bv8>, u: seq<bv8>, m: nat, q: seq<bv8>)
    requires m < n <= |t| && m <= |u| && t[m] != 0x0A
    ensures (t[0..n] + [0x0A]) + p != (u[0..m] + [0x0A]) + q
  {
    FrontShows(t[0..n] + [0x0A], p, m);
    FrontShows(u[0..m] + [0x0A], q, m);
  }

  lemma FrontShows(p: seq<bv8>, rest: seq<bv8>, k: nat)
    requires k < |p|
    ensures (p + rest)[k] == p[k]
  {
  }

  /** The text x1 is one token. */
  lemma NameWithDigit(past: bv8)
    ensures Emit([0x78, 0x31], 0, past) == [0x78, 0x31, 0x0A]
  {
    var t: seq<bv8> := [0x78, 0x31];
    WordIsMaximal(t, 0, past);
    assert t[0..2] == t;
    EmitFront(t, past);
    hide Next, Pushed;
  }
}
