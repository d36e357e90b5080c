/** The layout-insensitive lexer of unify.c that feeds the hash.

    `Emit` is the stream of bytes that unify pushes for a text, given as a function. The class
    `Unifier` is the code: a 64-byte buffer in front of the hash, and nested loops over an offset.
    `LayoutDoesNotMatter` is what the unifier is for: texts that differ in layout give one stream,
    hence (`SameLayoutSameHash`) one hash state. */
module Unify {
  import opened Md4

  const NL: bv8 := 0x0A

  // ----- Character classes, as build_table assigns them ----------------------------------------

  predicate IsDigit(c: bv8) { 0x30 <= c <= 0x39 }

  predicate IsAlpha(c: bv8) { 0x41 <= c <= 0x5A || 0x61 <= c <= 0x7A || c == 0x5F }

  predicate IsSpace(c: bv8) { c == 0x20 || 0x09 <= c <= 0x0D }

  predicate IsQuote(c: bv8) { c == 0x22 || c == 0x27 }

  /** The classes that the loops of unify run over. */
  datatype Class = Line | Word | Digits | Hex | Exponent | Suffix | Space

  predicate Has(k: Class, c: bv8) {
    match k
    case Line => c != NL
    case Word => IsAlpha(c) || IsDigit(c)
    case Digits => IsDigit(c) || c == 0x2E
    case Hex => IsDigit(c) || 0x41 <= c <= 0x46 || 0x61 <= c <= 0x66
    case Exponent => IsDigit(c) || c == 0x2B || c == 0x2D
    case Suffix => c == 0x6C || c == 0x4C || c == 0x66 || c == 0x46 || c == 0x75 || c == 0x55
    case Space => IsSpace(c)
  }

  /** No token holds white space, which is what makes layout irrelevant between tokens. */
  type Token = s: seq<bv8> | 0 < |s| && forall i :: 0 <= i < |s| ==> !IsSpace(s[i]) witness [0x3B]

  function Tok(s: seq<bv8>): (t: Token)
    requires 0 < |s| && forall i :: 0 <= i < |s| ==> !IsSpace(s[i])
  {
    s
  }

  // ... >>= <<=
  const LONG_TOKENS: seq<Token> := [
    Tok([0x2E, 0x2E, 0x2E]), Tok([0x3E, 0x3E, 0x3D]), Tok([0x3C, 0x3C, 0x3D])
  ]

  // += -= *= /= %= &= ^= |= >> << ++ -- -> && || <= >= == !=
  const PAIR_TOKENS: seq<Token> := [
    Tok([0x2B, 0x3D]), Tok([0x2D, 0x3D]), Tok([0x2A, 0x3D]), Tok([0x2F, 0x3D]), Tok([0x25, 0x3D]), Tok([0x26, 0x3D]),
    Tok([0x5E, 0x3D]), Tok([0x7C, 0x3D]), Tok([0x3E, 0x3E]), Tok([0x3C, 0x3C]), Tok([0x2B, 0x2B]), Tok([0x2D, 0x2D]),
    Tok([0x2D, 0x3E]), Tok([0x26, 0x26]), Tok([0x7C, 0x7C]), Tok([0x3C, 0x3D]), Tok([0x3E, 0x3D]), Tok([0x3D, 0x3D]),
    Tok([0x21, 0x3D])
  ]

  // ; { <% } %> , : = ( ) [ <: ] :>
  const MIXED_TOKENS: seq<Token> := [
    Tok([0x3B]), Tok([0x7B]), Tok([0x3C, 0x25]), Tok([0x7D]), Tok([0x25, 0x3E]), Tok([0x2C]),
    Tok([0x3A]), Tok([0x3D]), Tok([0x28]), Tok([0x29]), Tok([0x5B]), Tok([0x3C, 0x3A]),
    Tok([0x5D]), Tok([0x3A, 0x3E])
  ]

  // . & ! ~ - + * / % < > ^ | ?
  const SHORT_TOKENS: seq<Token> := [
    Tok([0x2E]), Tok([0x26]), Tok([0x21]), Tok([0x7E]), Tok([0x2D]), Tok([0x2B]),
    Tok([0x2A]), Tok([0x2F]), Tok([0x25]), Tok([0x3C]), Tok([0x3E]), Tok([0x5E]),
    Tok([0x7C]), Tok([0x3F])
  ]

  /** s_tokens, in the order of the source: a row of the table keeps this order. */
  const S_TOKENS: seq<Token> := LONG_TOKENS + PAIR_TOKENS + MIXED_TOKENS + SHORT_TOKENS

  // ----- The stream of a text ------------------------------------------------------------------

  /** Where the run of class `k` that starts at `i` ends. */
  function Span(k: Class, t: seq<bv8>, i: nat): (j: nat)
    requires i <= |t|
    ensures i <= j <= |t|
    ensures j < |t| ==> !Has(k, t[j])
    decreases |t| - i
  {
    if i < |t| && Has(k, t[i]) then Span(k, t, i + 1) else i
  }

  /** Where a literal quoted by `q` closes: a backslash takes the next byte with it, except in the
      last position. An unclosed literal ends at |t|. */
  function QuoteEnd(t: seq<bv8>, q: bv8, i: nat): (j: nat)
    requires i <= |t|
    ensures i <= j <= |t|
    decreases |t| - i
  {
    if i < |t| - 1 && t[i] == 0x5C then QuoteEnd(t, q, i + 2)
    else if i < |t| && t[i] != q then QuoteEnd(t, q, i + 1)
    else i
  }

  predicate TokenAt(t: seq<bv8>, o: nat, tok: Token) {
    o + |tok| <= |t| && t[o..o + |tok|] == tok
  }

  /** The first token of the table, from index `i`, that stands at `o`; |S_TOKENS| if none does. */
  function FirstToken(t: seq<bv8>, o: nat, i: nat): (j: nat)
    requires i <= |S_TOKENS|
    ensures i <= j <= |S_TOKENS|
    ensures j < |S_TOKENS| ==> TokenAt(t, o, S_TOKENS[j])
    decreases |S_TOKENS| - i
  {
    if i == |S_TOKENS| || TokenAt(t, o, S_TOKENS[i]) then i else FirstToken(t, o, i + 1)
  }

  /** The end of the part of a number that the letter `a` or `b` starts at `i`, if one of them does. */
  function PartEnd(k: Class, t: seq<bv8>, i: nat, a: bv8, b: bv8): (j: nat)
    requires i <= |t|
    ensures i <= j <= |t|
  {
    if i < |t| && (t[i] == a || t[i] == b) then Span(k, t, i + 1) else i
  }

  function NumberEnd(t: seq<bv8>, o: nat): (j: nat)
    requires o < |t|
    ensures o < j <= |t|
  {
    var j := PartEnd(Hex, t, Span(Digits, t, o + 1), 0x78, 0x58);
    Span(Suffix, t, PartEnd(Exponent, t, j, 0x45, 0x65))
  }

  predicate MarkerAt(t: seq<bv8>, o: nat) {
    |t| > o + 2 && t[o] == 0x23 && t[o + 1] == 0x20 && IsDigit(t[o + 2])
  }

  /** One pass of the outer loop at offset `o`: where it leaves the offset. */
  function Next(t: seq<bv8>, o: nat): (n: nat)
    requires o < |t|
    ensures o < n <= |t| + 1
  {
    var c := t[o];
    if c == 0x23 then Span(Line, t, o + 1) + 1
    else if IsAlpha(c) then Span(Word, t, o + 1)
    else if IsDigit(c) then NumberEnd(t, o)
    else if IsSpace(c) then Span(Space, t, o + 1)
    else if IsQuote(c) then QuoteEnd(t, c, o + 1) + 1
    else
      var i := FirstToken(t, o, 0);
      if i < |S_TOKENS| then o + |S_TOKENS[i]| else o + 1
  }

  /** What that pass pushes. `past` is the byte after the text, which an unclosed literal reads. */
  function Pushed(t: seq<bv8>, o: nat, past: bv8): seq<bv8>
    requires o < |t|
  {
    var c := t[o];
    if MarkerAt(t, o) || (c != 0x23 && IsSpace(c)) then []
    else if c == 0x23 then t[o..Next(t, o) - 1] + [NL]
    else (t + [past])[o..Next(t, o)] + [NL]
  }

  function Emit(t: seq<bv8>, o: nat, past: bv8): seq<bv8>
    decreases |t| - o
  {
    if o >= |t| then [] else Pushed(t, o, past) + Emit(t, Next(t, o), past)
  }

  // ----- Layout does not matter ----------------------------------------------------------------

  /** Offset `m` is reached by the outer loop that starts at `o`: it separates two tokens. */
  predicate Boundary(t: seq<bv8>, o: nat, m: nat)
    decreases |t| - o
  {
    o == m || (o < m && o < |t| && Boundary(t, Next(t, o), m))
  }

  function EmitTo(t: seq<bv8>, o: nat, m: nat, past: bv8): seq<bv8>
    requires Boundary(t, o, m)
    decreases |t| - o
  {
    if o == m then [] else Pushed(t, o, past) + EmitTo(t, Next(t, o), m, past)
  }

  lemma {:induction false} EmitSplits(t: seq<bv8>, o: nat, m: nat, past: bv8)
    requires Boundary(t, o, m)
    ensures Emit(t, o, past) == EmitTo(t, o, m, past) + Emit(t, m, past)
    decreases |t| - o
  {
    hide Next, Pushed;
    if o < m {
      EmitSplits(t, Next(t, o), m, past);
    }
  }

  /** The two texts agree up to `m`, where `u` goes on with white space. */
  predicate SameUpTo(t: seq<bv8>, u: seq<bv8>, m: nat) {
    m <= |t| && m < |u| && t[..m] == u[..m] && IsSpace(u[m])
  }

  lemma {:induction false} SpanLocal(k: Class, t: seq<bv8>, u: seq<bv8>, m: nat, i: nat)
    requires SameUpTo(t, u, m) && i <= m
    requires Span(k, t, i) < m || (Span(k, t, i) == m && !k.Line? && !k.Space?)
    ensures Span(k, u, i) == Span(k, t, i)
    decreases m - i
  {
    if i < m {
      assert t[i] == t[..m][i] == u[..m][i] == u[i];
      if Has(k, t[i]) {
        SpanLocal(k, t, u, m, i + 1);
      }
    }
  }

  lemma {:induction false} QuoteLocal(t: seq<bv8>, u: seq<bv8>, q: bv8, m: nat, i: nat)
    requires SameUpTo(t, u, m) && i <= m && QuoteEnd(t, q, i) < m && IsQuote(q)
    ensures QuoteEnd(u, q, i) == QuoteEnd(t, q, i)
    decreases m - i
  {
    assert t[i] == t[..m][i] == u[..m][i] == u[i];
    if i < |t| - 1 && t[i] == 0x5C {
      QuoteLocal(t, u, q, m, i + 2);
    } else if t[i] != q {
      QuoteLocal(t, u, q, m, i + 1);
    }
  }

  lemma TokenBytes(t: seq<bv8>, o: nat, tok: Token)
    requires TokenAt(t, o, tok)
    ensures forall i :: o <= i < o + |tok| ==> !IsSpace(t[i])
  {
    forall i | o <= i < o + |tok| ensures !IsSpace(t[i]) {
      assert t[i] == t[o..o + |tok|][i - o] == tok[i - o];
    }
  }

  lemma TokenLocal(t: seq<bv8>, u: seq<bv8>, m: nat, o: nat, tok: Token)
    requires SameUpTo(t, u, m) && o < m
    requires TokenAt(t, o, tok) ==> o + |tok| <= m
    ensures TokenAt(u, o, tok) == TokenAt(t, o, tok)
  {
    if TokenAt(u, o, tok) {
      TokenBytes(u, o, tok);
    }
    if o + |tok| <= m {
      assert t[o..o + |tok|] == t[..m][o..o + |tok|] == u[..m][o..o + |tok|] == u[o..o + |tok|];
    }
  }

  lemma FirstTokenStep(t: seq<bv8>, o: nat, i: nat)
    requires i < |S_TOKENS|
    ensures FirstToken(t, o, i) == if TokenAt(t, o, S_TOKENS[i]) then i else FirstToken(t, o, i + 1)
  {
    hide TokenAt;
  }

  lemma {:induction false} FirstTokenLocal(t: seq<bv8>, u: seq<bv8>, m: nat, o: nat, i: nat)
    requires SameUpTo(t, u, m) && o < m && i <= |S_TOKENS|
    requires var j := FirstToken(t, o, i); j < |S_TOKENS| ==> o + |S_TOKENS[j]| <= m
    ensures FirstToken(u, o, i) == FirstToken(t, o, i)
    decreases |S_TOKENS| - i
  {
    hide *;
    if i < |S_TOKENS| {
      FirstTokenStep(t, o, i);
      FirstTokenStep(u, o, i);
      TokenLocal(t, u, m, o, S_TOKENS[i]);
      if !TokenAt(t, o, S_TOKENS[i]) {
        FirstTokenLocal(t, u, m, o, i + 1);
      }
    }
  }

  lemma SameBytes(t: seq<bv8>, u: seq<bv8>, m: nat)
    requires SameUpTo(t, u, m)
    ensures m <= |t| && m < |u| && IsSpace(u[m]) && forall i :: 0 <= i < m ==> t[i] == u[i]
  {
    forall i | 0 <= i < m
      ensures t[i] == u[i]
    {
      assert t[i] == t[..m][i] == u[..m][i];
    }
  }

  lemma SameSlice(t: seq<bv8>, u: seq<bv8>, m: nat, i: nat, j: nat)
    requires SameUpTo(t, u, m) && i <= j <= m
    ensures t[i..j] == u[i..j]
  {
    hide IsSpace;
    assert t[..m] == u[..m];
    TakeSlice(t, m, i, j);
    TakeSlice(u, m, i, j);
  }

  lemma TakeSlice(t: seq<bv8>, m: nat, i: nat, j: nat)
    requires i <= j <= m <= |t|
    ensures t[i..j] == t[..m][i..j]
  {
  }

  lemma PartLocal(k: Class, t: seq<bv8>, u: seq<bv8>, m: nat, i: nat, a: bv8, b: bv8)
    requires SameUpTo(t, u, m) && i <= m && PartEnd(k, t, i, a, b) <= m && !k.Line? && !k.Space?
    requires !IsSpace(a) && !IsSpace(b)
    ensures PartEnd(k, u, i, a, b) == PartEnd(k, t, i, a, b)
  {
    SameBytes(t, u, m);
    hide Span, SameUpTo, IsSpace;
    if i < m && (t[i] == a || t[i] == b) {
      SpanLocal(k, t, u, m, i + 1);
    }
  }

  lemma NumberLocal(t: seq<bv8>, u: seq<bv8>, m: nat, o: nat)
    requires SameUpTo(t, u, m) && o < m && NumberEnd(t, o) <= m
    ensures NumberEnd(u, o) == NumberEnd(t, o)
  {
    assert !IsSpace(0x78) && !IsSpace(0x58) && !IsSpace(0x45) && !IsSpace(0x65);
    hide Span, SameUpTo, PartEnd, IsSpace;
    var j := Span(Digits, t, o + 1);
    SpanLocal(Digits, t, u, m, o + 1);
    PartLocal(Hex, t, u, m, j, 0x78, 0x58);
    var k := PartEnd(Hex, t, j, 0x78, 0x58);
    PartLocal(Exponent, t, u, m, k, 0x45, 0x65);
    SpanLocal(Suffix, t, u, m, PartEnd(Exponent, t, k, 0x45, 0x65));
    assert m < |u| by { SameBytes(t, u, m); }
  }

  /** A marker whose line ends before `m` is a marker in both texts. */
  lemma MarkerLocal(t: seq<bv8>, u: seq<bv8>, m: nat, o: nat)
    requires SameUpTo(t, u, m) && o < m && t[o] == 0x23 && Span(Line, t, o + 1) < m
    ensures MarkerAt(u, o) == MarkerAt(t, o)
  {
    SameBytes(t, u, m);
  }

  lemma NextLocal(t: seq<bv8>, u: seq<bv8>, m: nat, o: nat)
    requires SameUpTo(t, u, m) && o < m <= |t| && m < |u| && t[o] == u[o] && Next(t, o) <= m
    requires IsSpace(t[o]) ==> Next(t, o) < m
    ensures Next(u, o) == Next(t, o)
  {
    hide Span, QuoteEnd, FirstToken, NumberEnd, TokenAt, SameUpTo;
    var c := t[o];
    if c == 0x23 {
      SpanLocal(Line, t, u, m, o + 1);
    } else if IsAlpha(c) {
      SpanLocal(Word, t, u, m, o + 1);
    } else if IsDigit(c) {
      NumberLocal(t, u, m, o);
    } else if IsSpace(c) {
      SpanLocal(Space, t, u, m, o + 1);
    } else if IsQuote(c) {
      QuoteLocal(t, u, c, m, o + 1);
    } else {
      FirstTokenLocal(t, u, m, o, 0);
    }
  }

  /** A pass that ends by `m` does the same in both texts. */
  lemma PassLocal(t: seq<bv8>, u: seq<bv8>, m: nat, o: nat, past: bv8)
    requires SameUpTo(t, u, m) && o < m && Next(t, o) <= m
    requires IsSpace(t[o]) ==> Next(t, o) < m
    ensures Next(u, o) == Next(t, o) && Pushed(u, o, past) == Pushed(t, o, past)
  {
    SameBytes(t, u, m);
    hide *;
    var n := Next(t, o);
    if t[o] == 0x23 {
      LineEndsInside(t, m, o);
      MarkerLocal(t, u, m, o);
    } else {
      MarkerHash(t, o);
      MarkerHash(u, o);
    }
    NextLocal(t, u, m, o);
    SameSlice(t, u, m, o, n - 1);
    SameSlice(t, u, m, o, n);
    TakeFront(t, past, o, n);
    TakeFront(u, past, o, n);
    PushedSame(t, u, o, o, past, n, n);
  }

  lemma PushedSame(t: seq<bv8>, u: seq<bv8>, o: nat, p: nat, past: bv8, n: nat, q: nat)
    requires o < |t| && n == Next(t, o) && p < |u| && q == Next(u, p) && t[o] == u[p] &&
             MarkerAt(t, o) == MarkerAt(u, p)
    requires t[o..n - 1] == u[p..q - 1] && (t + [past])[o..n] == (u + [past])[p..q]
    ensures Pushed(t, o, past) == Pushed(u, p, past)
  {
    hide Next, MarkerAt, IsSpace;
  }

  lemma LineEndsInside(t: seq<bv8>, m: nat, o: nat)
    requires o < |t| && t[o] == 0x23 && Next(t, o) <= m
    ensures Span(Line, t, o + 1) < m
  {
    hide Span, NumberEnd, QuoteEnd, FirstToken;
  }

  lemma MarkerHash(t: seq<bv8>, o: nat)
    requires o < |t|
    ensures MarkerAt(t, o) ==> t[o] == 0x23
  {
  }

  /** The last pass before `m` is not one over white space. */
  predicate AfterToken(t: seq<bv8>, o: nat, m: nat)
    requires Boundary(t, o, m)
    decreases |t| - o
  {
    o < m ==> !(IsSpace(t[o]) && Next(t, o) == m) && AfterToken(t, Next(t, o), m)
  }

  lemma {:induction false} PrefixLocal(t: seq<bv8>, u: seq<bv8>, m: nat, o: nat, past: bv8)
    requires SameUpTo(t, u, m) && Boundary(t, o, m) && AfterToken(t, o, m)
    ensures Boundary(u, o, m) && AfterToken(u, o, m)
    ensures EmitTo(u, o, m, past) == EmitTo(t, o, m, past)
    decreases |t| - o
  {
    if o < m {
      BoundaryBound(t, Next(t, o), m);
      PassLocal(t, u, m, o, past);
      assert t[o] == t[..m][o] == u[..m][o] == u[o];
      hide Next, Pushed;
      PrefixLocal(t, u, m, Next(t, o), past);
    }
  }

  lemma BoundaryBound(t: seq<bv8>, o: nat, m: nat)
    requires Boundary(t, o, m)
    ensures o <= m
  {
  }

  // ----- A pass looks forward only: it does not depend on what stands before its offset --------

  lemma {:induction false} SpanShift(k: Class, x: seq<bv8>, b: seq<bv8>, i: nat)
    requires i <= |b|
    ensures Span(k, x + b, |x| + i) == |x| + Span(k, b, i)
    decreases |b| - i
  {
    if i < |b| && Has(k, b[i]) {
      SpanShift(k, x, b, i + 1);
    }
  }

  lemma {:induction false} QuoteShift(x: seq<bv8>, b: seq<bv8>, q: bv8, i: nat)
    requires i <= |b|
    ensures QuoteEnd(x + b, q, |x| + i) == |x| + QuoteEnd(b, q, i)
    decreases |b| - i
  {
    if i < |b| - 1 && b[i] == 0x5C {
      QuoteShift(x, b, q, i + 2);
    } else if i < |b| && b[i] != q {
      QuoteShift(x, b, q, i + 1);
    }
  }

  lemma SliceAfter(x: seq<bv8>, b: seq<bv8>, i: nat, j: nat, p: nat, q: nat)
    requires i <= j <= |b| && p == |x| + i && q == |x| + j
    ensures (x + b)[p..q] == b[i..j]
  {
  }

  lemma TokenShift(x: seq<bv8>, b: seq<bv8>, o: nat, tok: Token)
    ensures TokenAt(x + b, |x| + o, tok) == TokenAt(b, o, tok)
  {
    if o + |tok| <= |b| {
      SliceAfter(x, b, o, o + |tok|, |x| + o, |x| + o + |tok|);
    }
  }

  lemma {:induction false} FirstTokenShift(x: seq<bv8>, b: seq<bv8>, o: nat, i: nat)
    requires i <= |S_TOKENS|
    ensures FirstToken(x + b, |x| + o, i) == FirstToken(b, o, i)
    decreases |S_TOKENS| - i
  {
    hide *;
    if i < |S_TOKENS| {
      FirstTokenStep(x + b, |x| + o, i);
      FirstTokenStep(b, o, i);
      TokenShift(x, b, o, S_TOKENS[i]);
      FirstTokenShift(x, b, o, i + 1);
    }
  }

  lemma PartShift(k: Class, x: seq<bv8>, t: seq<bv8>, i: nat, a: bv8, b: bv8)
    requires i <= |t|
    ensures PartEnd(k, x + t, |x| + i, a, b) == |x| + PartEnd(k, t, i, a, b)
  {
    hide Span;
    if i < |t| {
      SpanShift(k, x, t, i + 1);
    }
  }

  lemma NumberShift(x: seq<bv8>, b: seq<bv8>, o: nat)
    requires o < |b|
    ensures NumberEnd(x + b, |x| + o) == |x| + NumberEnd(b, o)
  {
    hide Span, PartEnd;
    var j := Span(Digits, b, o + 1);
    SpanShift(Digits, x, b, o + 1);
    PartShift(Hex, x, b, j, 0x78, 0x58);
    var k := PartEnd(Hex, b, j, 0x78, 0x58);
    PartShift(Exponent, x, b, k, 0x45, 0x65);
    SpanShift(Suffix, x, b, PartEnd(Exponent, b, k, 0x45, 0x65));
  }

  lemma NextShift(x: seq<bv8>, b: seq<bv8>, o: nat)
    requires o < |b|
    ensures Next(x + b, |x| + o) == |x| + Next(b, o)
  {
    hide Span, QuoteEnd, FirstToken, NumberEnd, TokenAt;
    var c := b[o];
    assert (x + b)[|x| + o] == c;
    if c == 0x23 {
      SpanShift(Line, x, b, o + 1);
    } else if IsAlpha(c) {
      SpanShift(Word, x, b, o + 1);
    } else if IsDigit(c) {
      NumberShift(x, b, o);
    } else if IsSpace(c) {
      SpanShift(Space, x, b, o + 1);
    } else if IsQuote(c) {
      QuoteShift(x, b, c, o + 1);
    } else {
      FirstTokenShift(x, b, o, 0);
    }
  }

  lemma PushedShift(x: seq<bv8>, b: seq<bv8>, o: nat, past: bv8)
    requires o < |b|
    ensures Pushed(x + b, |x| + o, past) == Pushed(b, o, past)
  {
    NextShift(x, b, o);
    MarkerShift(x, b, o);
    FirstShift(x, b, o);
    hide *;
    var p := |x| + o;
    var n, q := Next(b, o), Next(x + b, p);
    SliceAfter(x, b, o, n - 1, p, q - 1);
    SliceTwice(x, b, past, o, n, p, q);
    PushedSame(b, x + b, o, p, past, n, q);
  }

  lemma SliceTwice(x: seq<bv8>, b: seq<bv8>, past: bv8, i: nat, j: nat, p: nat, q: nat)
    requires i <= j <= |b| + 1 && p == |x| + i && q == |x| + j
    ensures ((x + b) + [past])[p..q] == (b + [past])[i..j]
  {
    assert (x + b) + [past] == x + (b + [past]);
    SliceAfter(x, b + [past], i, j, p, q);
  }

  lemma FirstShift(x: seq<bv8>, b: seq<bv8>, o: nat)
    requires o < |b|
    ensures (x + b)[|x| + o] == b[o]
  {
  }

  lemma MarkerShift(x: seq<bv8>, b: seq<bv8>, o: nat)
    ensures MarkerAt(x + b, |x| + o) == MarkerAt(b, o)
  {
    assert forall i :: 0 <= i < |b| ==> (x + b)[|x| + i] == b[i];
  }

  lemma {:induction false} EmitShift(x: seq<bv8>, b: seq<bv8>, o: nat, past: bv8)
    ensures Emit(x + b, |x| + o, past) == Emit(b, o, past)
    decreases |b| - o
  {
    hide Next, Pushed;
    if o < |b| {
      NextShift(x, b, o);
      PushedShift(x, b, o, past);
      EmitShift(x, b, Next(b, o), past);
    }
  }

  // ----- The theorems --------------------------------------------------------------------------

  predicate WhiteSpace(w: seq<bv8>) {
    0 < |w| && forall i :: 0 <= i < |w| ==> IsSpace(w[i])
  }

  /** A line marker of the preprocessor: "# <digit>" to the end of its line, newline included. */
  predicate Marker(k: seq<bv8>) {
    MarkerAt(k, 0) && k[|k| - 1] == NL && forall i :: 0 <= i < |k| - 1 ==> k[i] != NL
  }

  lemma {:induction false} SpanThroughSpace(w: seq<bv8>, b: seq<bv8>, i: nat)
    requires i <= |w| && forall j :: 0 <= j < |w| ==> IsSpace(w[j])
    ensures Span(Space, w + b, i) == |w| + Span(Space, b, 0)
    decreases |w| - i
  {
    if i < |w| {
      assert (w + b)[i] == w[i];
      SpanThroughSpace(w, b, i + 1);
    } else {
      SpanShift(Space, w, b, 0);
    }
  }

  lemma LeadingSpace(b: seq<bv8>, past: bv8)
    ensures Emit(b, Span(Space, b, 0), past) == Emit(b, 0, past)
  {
    if |b| > 0 && IsSpace(b[0]) {
      assert Pushed(b, 0, past) == [];
    }
  }

  lemma SpacePass(w: seq<bv8>, b: seq<bv8>, past: bv8)
    requires WhiteSpace(w)
    ensures var t := w + b;
            0 < |t| && Next(t, 0) == |w| + Span(Space, b, 0) && Pushed(t, 0, past) == []
  {
    hide Span;
    assert (w + b)[0] == w[0];
    SpanThroughSpace(w, b, 1);
  }

  lemma SkipPass(t: seq<bv8>, past: bv8)
    requires 0 < |t| && Pushed(t, 0, past) == []
    ensures Emit(t, 0, past) == Emit(t, Next(t, 0), past)
  {
    hide Next, Pushed;
    assert [] + Emit(t, Next(t, 0), past) == Emit(t, Next(t, 0), past);
  }

  lemma SkipSpace(w: seq<bv8>, b: seq<bv8>, past: bv8)
    requires WhiteSpace(w)
    ensures Emit(w + b, 0, past) == Emit(b, 0, past)
  {
    hide *;
    SpacePass(w, b, past);
    SkipPass(w + b, past);
    EmitShift(w, b, Span(Space, b, 0), past);
    LeadingSpace(b, past);
  }

  lemma {:induction false} SpanLine(k: seq<bv8>, b: seq<bv8>, i: nat)
    requires Marker(k) && i < |k|
    ensures Span(Line, k + b, i) == |k| - 1
    decreases |k| - i
  {
    assert (k + b)[i] == k[i];
    if i < |k| - 1 {
      SpanLine(k, b, i + 1);
    }
  }

  lemma MarkerPass(k: seq<bv8>, b: seq<bv8>, past: bv8)
    requires Marker(k)
    ensures var t := k + b;
            0 < |t| && Next(t, 0) == |k| && Pushed(t, 0, past) == []
  {
    hide Span;
    var t := k + b;
    SpanLine(k, b, 1);
    assert t[0] == k[0] && t[1] == k[1] && t[2] == k[2];
  }

  lemma SkipMarker(k: seq<bv8>, b: seq<bv8>, past: bv8)
    requires Marker(k)
    ensures Emit(k + b, 0, past) == Emit(b, 0, past)
  {
    hide *;
    MarkerPass(k, b, past);
    SkipPass(k + b, past);
    EmitShift(k, b, 0, past);
  }

  /** What comes after a boundary is emitted on its own, whatever white space stands there. */
  lemma EmitAfterPrefix(a: seq<bv8>, w: seq<bv8>, b: seq<bv8>, past: bv8)
    requires w == [] || WhiteSpace(w)
    requires Boundary(a + w + b, 0, |a|)
    ensures Emit(a + w + b, 0, past) == EmitTo(a + w + b, 0, |a|, past) + Emit(b, 0, past)
  {
    hide Boundary, EmitTo, Emit;
    EmitSplits(a + w + b, 0, |a|, past);
    assert a + w + b == a + (w + b);
    EmitShift(a, w + b, 0, past);
    if w == [] {
      assert w + b == b;
    } else {
      SkipSpace(w, b, past);
    }
  }

  lemma SamePrefix(a: seq<bv8>, r: seq<bv8>, w: seq<bv8>, b: seq<bv8>, past: bv8)
    requires WhiteSpace(w) && Boundary(a + r, 0, |a|) && AfterToken(a + r, 0, |a|)
    ensures Boundary(a + w + b, 0, |a|)
    ensures EmitTo(a + w + b, 0, |a|, past) == EmitTo(a + r, 0, |a|, past)
  {
    hide Boundary, EmitTo, AfterToken;
    var t, u := a + r, a + w + b;
    assert t[..|a|] == a == u[..|a|];
    assert u[|a|] == w[0];
    PrefixLocal(t, u, |a|, 0, past);
  }

  /** An edit of the layout of a text `a w b`, at the end of a token: another run of white space in
      place of the run `w`, which may be empty, or a line marker after a run that is not. */
  datatype Edit =
    | Respace(a: seq<bv8>, w: seq<bv8>, b: seq<bv8>, w': seq<bv8>)
    | AddMarker(a: seq<bv8>, w: seq<bv8>, b: seq<bv8>, marker: seq<bv8>)
  {
    function Before(): seq<bv8> { a + w + b }

    function After(): seq<bv8> {
      match this
      case Respace(_, _, _, _) => a + w' + b
      case AddMarker(_, _, _, _) => a + w + (marker + b)
    }

    predicate Valid() {
      Boundary(Before(), 0, |a|) && AfterToken(Before(), 0, |a|) &&
      match this
      case Respace(_, _, _, _) => (w == [] || WhiteSpace(w)) && WhiteSpace(w')
      case AddMarker(_, _, _, _) => WhiteSpace(w) && Marker(marker)
    }
  }

  lemma EditKeepsStream(e: Edit, past: bv8)
    requires e.Valid()
    ensures Emit(e.After(), 0, past) == Emit(e.Before(), 0, past)
  {
    hide Boundary, EmitTo, Emit, AfterToken;
    EmitAfterPrefix(e.a, e.w, e.b, past);
    assert e.a + e.w + e.b == e.a + (e.w + e.b);
    match e
    case Respace(a, w, b, w') =>
      SamePrefix(a, w + b, w', b, past);
      EmitAfterPrefix(a, w', b, past);
    case AddMarker(a, w, b, marker) =>
      SamePrefix(a, w + b, w, marker + b, past);
      EmitAfterPrefix(a, w, marker + b, past);
      SkipMarker(marker, b, past);
  }

  /** `t` becomes `u` by the edits, each made forwards or undone. */
  predicate Connected(t: seq<bv8>, edits: seq<Edit>, u: seq<bv8>)
    decreases |edits|
  {
    if edits == [] then t == u
    else
      edits[0].Valid() &&
      ((t == edits[0].Before() && Connected(edits[0].After(), edits[1..], u)) ||
       (t == edits[0].After() && Connected(edits[0].Before(), edits[1..], u)))
  }

  /** Main result: texts that differ in layout only give the same stream. */
  lemma {:induction false} LayoutDoesNotMatter(t: seq<bv8>, edits: seq<Edit>, u: seq<bv8>, past: bv8)
    requires Connected(t, edits, u)
    ensures Emit(t, 0, past) == Emit(u, 0, past)
    decreases |edits|
  {
    hide Emit;
    if edits != [] {
      var e := edits[0];
      EditKeepsStream(e, past);
      if t == e.Before() && Connected(e.After(), edits[1..], u) {
        LayoutDoesNotMatter(e.After(), edits[1..], u, past);
      } else {
        LayoutDoesNotMatter(e.Before(), edits[1..], u, past);
      }
    }
  }

  // ----- The stream is a normal form: read back as a text it gives itself ----------------------

  /** Every literal from offset `o` on closes. */
  predicate Closed(t: seq<bv8>, o: nat)
    decreases |t| - o
  {
    o < |t| ==> (t[o] == 0x23 || Next(t, o) <= |t|) && Closed(t, Next(t, o))
  }

  lemma LinePass(t: seq<bv8>, o: nat, r: seq<bv8>, past: bv8)
    requires o < |t| && t[o] == 0x23 && !MarkerAt(t, o)
    ensures var p := Pushed(t, o, past);
            0 < |p| && Next(p + r, 0) == |p| && Pushed(p + r, 0, past) == p
  {
    var n := Next(t, o);
    var p := t[o..n - 1] + [NL];
    var u := p + r;
    LineRun(t, o, o + 1);
    assert forall i :: 0 <= i < |p| - 1 ==> u[i] == t[o + i];
    LineEnd(u, 1, |p| - 1);
    assert u[..|p| - 1] + [NL] == p;
  }

  lemma {:induction false} LineRun(t: seq<bv8>, o: nat, i: nat)
    requires o < i <= |t|
    ensures forall j :: i <= j < Span(Line, t, i) ==> t[j] != NL
    decreases |t| - i
  {
    if i < |t| && t[i] != NL {
      LineRun(t, o, i + 1);
    }
  }

  lemma {:induction false} LineEnd(u: seq<bv8>, i: nat, e: nat)
    requires i <= e < |u| && u[e] == NL && forall j :: i <= j < e ==> u[j] != NL
    ensures Span(Line, u, i) == e
    decreases e - i
  {
    if i < e {
      LineEnd(u, i + 1, e);
    }
  }

  lemma TokenPushed(t: seq<bv8>, o: nat, past: bv8)
    requires o < |t| && t[o] != 0x23 && !IsSpace(t[o]) && Next(t, o) <= |t|
    ensures Pushed(t, o, past) == t[o..Next(t, o)] + [NL]
  {
    hide Next;
    assert (t + [past])[o..Next(t, o)] == t[o..Next(t, o)];
  }

  lemma TokenPass(t: seq<bv8>, o: nat, r: seq<bv8>, past: bv8)
    requires o < |t| && t[o] != 0x23 && !IsSpace(t[o]) && Next(t, o) <= |t|
    ensures var p := Pushed(t, o, past);
            0 < |p| && p[|p| - 1] == NL && Next(p + r, 0) == |p| - 1 && Pushed(p + r, 0, past) == p
  {
    hide Next, Pushed;
    var s, m := t[o..], Next(t, o) - o;
    TokenPushed(t, o, past);
    assert t == t[..o] + s;
    NextShift(t[..o], s, 0);
    PushedShift(t[..o], s, 0, past);
    var u := Pushed(t, o, past) + r;
    assert u[..m] == s[..m] && u[m] == NL;
    PassLocal(s, u, m, 0, past);
  }

  /** For a text whose literals close, emitting the stream gives the stream again. */
  lemma {:induction false} StreamIsNormalForm(t: seq<bv8>, o: nat, past: bv8)
    requires Closed(t, o)
    ensures Emit(Emit(t, o, past), 0, past) == Emit(t, o, past)
    decreases |t| - o
  {
    if o < |t| {
      var p, r := Pushed(t, o, past), Emit(t, Next(t, o), past);
      StreamIsNormalForm(t, Next(t, o), past);
      if p == [] {
        assert p + r == r;
      } else if t[o] == 0x23 {
        LinePass(t, o, r, past);
        EmitFirst(p, r, past);
      } else {
        TokenPass(t, o, r, past);
        EmitFirst(p, r, past);
      }
    }
  }

  lemma EmitFirst(p: seq<bv8>, r: seq<bv8>, past: bv8)
    requires 0 < |p| && Pushed(p + r, 0, past) == p
    requires Next(p + r, 0) == |p| || (Next(p + r, 0) == |p| - 1 && p[|p| - 1] == NL)
    ensures Emit(p + r, 0, past) == p + Emit(r, 0, past)
  {
    hide Next, Pushed;
    if Next(p + r, 0) == |p| {
      EmitShift(p, r, 0, past);
    } else {
      var q := p[..|p| - 1];
      assert p + r == q + ([NL] + r);
      EmitShift(q, [NL] + r, 0, past);
      SkipSpace([NL], r, past);
    }
  }

  // ----- Only layout is lost: texts with one stream are connected by edits -----------------------

  /** Every pass from offset `o` on ends inside the text: each literal closes, and each '#' line has its
      newline. */
  predicate Complete(t: seq<bv8>, o: nat)
    decreases |t| - o
  {
    o < |t| ==> Next(t, o) <= |t| && Complete(t, Next(t, o))
  }

  lemma {:induction false} CompleteShift(x: seq<bv8>, b: seq<bv8>, o: nat)
    requires Complete(x + b, |x| + o)
    ensures Complete(b, o)
    decreases |b| - o
  {
    hide Next;
    if o < |b| {
      NextShift(x, b, o);
      CompleteShift(x, b, Next(b, o));
    }
  }

  lemma {:induction false} BoundaryShift(x: seq<bv8>, b: seq<bv8>, o: nat, m: nat)
    requires Boundary(b, o, m) && AfterToken(b, o, m)
    ensures Boundary(x + b, |x| + o, |x| + m) && AfterToken(x + b, |x| + o, |x| + m)
    decreases |b| - o
  {
    hide Next, IsSpace;
    if o < m {
      NextShift(x, b, o);
      FirstShift(x, b, o);
      BoundaryBound(b, Next(b, o), m);
      BoundaryShift(x, b, Next(b, o), m);
    }
  }

  /** `y` is one pass, a '#' line or a token, whatever follows `z`: a newline keeps a token apart. */
  ghost predicate Front(y: seq<bv8>, z: seq<bv8>) {
    0 < |y| && !IsSpace(y[0]) && (z == [] || z == [NL]) && forall s :: Next(y + z + s, 0) == |y|
  }

  /** The boundaries of a text move with it behind `y z`. */
  lemma BoundaryBehind(y: seq<bv8>, z: seq<bv8>, s: seq<bv8>, m: nat)
    requires Front(y, z) && Boundary(s, 0, m) && AfterToken(s, 0, m)
    ensures Boundary(y + z + s, 0, |y|) && AfterToken(y + z + s, 0, |y|)
    ensures 0 < m ==> Boundary(y + z + s, 0, |y| + |z| + m) && AfterToken(y + z + s, 0, |y| + |z| + m)
  {
    var t := y + z + s;
    assert t[0] == y[0] && Next(t, 0) == |y|;
    hide IsSpace, Next;
    if 0 < m {
      BoundaryAfter(y, z, s, m);
      BoundaryBound(t, |y|, |y| + |z| + m);
    }
  }

  lemma BoundaryAfter(y: seq<bv8>, z: seq<bv8>, s: seq<bv8>, m: nat)
    requires (z == [] || z == [NL]) && 0 < m && Boundary(s, 0, m) && AfterToken(s, 0, m)
    ensures Boundary(y + z + s, |y|, |y| + |z| + m) && AfterToken(y + z + s, |y|, |y| + |z| + m)
  {
    hide *;
    if z == [] {
      Appended(y, z);
      BoundaryShift(y, s, 0, m);
    } else {
      NewlineFirst(y, z, s);
      SpaceFirst(s, m);
      var k := Span(Space, s, 0);
      BoundaryShift(y + z, s, k, m);
      BoundaryStep(y + z + s, |y|, |y| + 1 + k, |y| + |z| + m);
    }
  }

  lemma NewlineFirst(y: seq<bv8>, z: seq<bv8>, s: seq<bv8>)
    requires z == [NL]
    ensures |y| < |y + z + s| && Next(y + z + s, |y|) == |y| + 1 + Span(Space, s, 0)
  {
    assert WhiteSpace(z);
    hide *;
    SpacePass(z, s, 0);
    assert y + z + s == y + (z + s);
    NextShift(y, z + s, 0);
  }

  lemma SpaceFirst(s: seq<bv8>, m: nat)
    requires 0 < m && Boundary(s, 0, m) && AfterToken(s, 0, m)
    ensures var k := Span(Space, s, 0); k < m && Boundary(s, k, m) && AfterToken(s, k, m)
  {
    BoundaryBound(s, Next(s, 0), m);
  }

  lemma BoundaryStep(t: seq<bv8>, o: nat, n: nat, m: nat)
    requires o < |t| && n == Next(t, o) && n < m && Boundary(t, n, m) && AfterToken(t, n, m)
    ensures Boundary(t, o, m) && AfterToken(t, o, m)
  {
    hide Next, IsSpace;
  }

  /** The edit made behind `y z`. At the start of the text it is made at the end of `y`. */
  function Behind(e: Edit, y: seq<bv8>, z: seq<bv8>): Edit {
    if e.a == [] then
      match e
      case Respace(_, w, b, w') => Respace(y, z + w, b, z + w')
      case AddMarker(_, w, b, marker) => AddMarker(y, z + w, b, marker)
    else
      match e
      case Respace(a, w, b, w') => Respace(y + z + a, w, b, w')
      case AddMarker(a, w, b, marker) => AddMarker(y + z + a, w, b, marker)
  }

  lemma BehindTexts(e: Edit, y: seq<bv8>, z: seq<bv8>)
    ensures Behind(e, y, z).Before() == y + z + e.Before() && Behind(e, y, z).After() == y + z + e.After()
  {
    var x := y + z;
    match e
    case Respace(a, w, b, w') =>
      Regroup(y, z, a, w, b);
      Regroup(y, z, a, w', b);
    case AddMarker(a, w, b, marker) =>
      Regroup(y, z, a, w, b);
      Regroup(y, z, a, w, marker + b);
  }

  lemma Regroup(y: seq<bv8>, z: seq<bv8>, a: seq<bv8>, w: seq<bv8>, b: seq<bv8>)
    ensures y + z + a + w + b == y + z + (a + w + b)
    ensures a == [] ==> y + (z + w) + b == y + z + (a + w + b)
  {
  }

  lemma SpaceMore(z: seq<bv8>, w: seq<bv8>)
    requires z == [] || z == [NL]
    ensures WhiteSpace(w) ==> WhiteSpace(z + w)
    ensures w == [] ==> z + w == [] || WhiteSpace(z + w)
  {
  }

  lemma BehindValid(e: Edit, y: seq<bv8>, z: seq<bv8>)
    requires Front(y, z) && e.Valid()
    ensures Behind(e, y, z).Valid()
  {
    BoundaryBehind(y, z, e.Before(), |e.a|);
    BehindTexts(e, y, z);
    hide Boundary, AfterToken, WhiteSpace, Marker, Next, IsSpace;
    SpaceMore(z, e.w);
    if e.Respace? {
      SpaceMore(z, e.w');
    }
  }

  /** What is connected stays so behind `y z`. */
  lemma {:induction false} ConnectedBehind(t: seq<bv8>, edits: seq<Edit>, u: seq<bv8>, y: seq<bv8>, z: seq<bv8>)
      returns (moved: seq<Edit>)
    requires Front(y, z) && Connected(t, edits, u)
    ensures Connected(y + z + t, moved, y + z + u)
    decreases |edits|
  {
    if edits == [] {
      moved := [];
    } else {
      hide *;
      var e := edits[0];
      var v := ConnectedFirst(t, edits, u);
      BehindValid(e, y, z);
      BehindTexts(e, y, z);
      moved := ConnectedBehind(v, edits[1..], u, y, z);
      ConnectedStep(y + z + t, Behind(e, y, z), y + z + v, moved, y + z + u);
      moved := [Behind(e, y, z)] + moved;
    }
  }

  lemma ConnectedStep(t: seq<bv8>, e: Edit, v: seq<bv8>, edits: seq<Edit>, u: seq<bv8>)
    requires e.Valid() && Connected(v, edits, u)
    requires (t == e.Before() && v == e.After()) || (t == e.After() && v == e.Before())
    ensures Connected(t, [e] + edits, u)
  {
    hide Boundary, AfterToken;
    assert ([e] + edits)[1..] == edits;
  }

  /** The text after the first edit. */
  lemma ConnectedFirst(t: seq<bv8>, edits: seq<Edit>, u: seq<bv8>) returns (v: seq<bv8>)
    requires edits != [] && Connected(t, edits, u)
    ensures var e := edits[0];
            e.Valid() && ((t == e.Before() && v == e.After()) || (t == e.After() && v == e.Before()))
    ensures Connected(v, edits[1..], u)
  {
    var e := edits[0];
    hide Edit.Valid;
    v := if t == e.Before() && Connected(e.After(), edits[1..], u) then e.After() else e.Before();
  }

  lemma {:induction false} ConnectedAppend(t: seq<bv8>, first: seq<Edit>, v: seq<bv8>, second: seq<Edit>, u: seq<bv8>)
    requires Connected(t, first, v) && Connected(v, second, u)
    ensures Connected(t, first + second, u)
    decreases |first|
  {
    hide *;
    if first == [] {
      ConnectedEnd(t, v);
      assert first + second == second;
    } else {
      var next := ConnectedFirst(t, first, v);
      ConnectedAppend(next, first[1..], v, second, u);
      ConnectedStep(t, first[0], next, first[1..] + second, u);
      assert [first[0]] + (first[1..] + second) == first + second;
    }
  }

  lemma {:induction false} ConnectedBack(t: seq<bv8>, edits: seq<Edit>, u: seq<bv8>) returns (back: seq<Edit>)
    requires Connected(t, edits, u)
    ensures Connected(u, back, t)
    decreases |edits|
  {
    if edits == [] {
      back := [];
    } else {
      ConnectedNothing(t);
      hide *;
      var next := ConnectedFirst(t, edits, u);
      back := ConnectedBack(next, edits[1..], u);
      ConnectedStep(next, edits[0], t, [], t);
      ConnectedAppend(u, back, next, [edits[0]] + [], t);
      back := back + ([edits[0]] + []);
    }
  }

  lemma ConnectedEnd(t: seq<bv8>, u: seq<bv8>)
    requires Connected(t, [], u)
    ensures t == u
  {
  }

  lemma ConnectedNothing(t: seq<bv8>)
    ensures Connected(t, [], t)
  {
  }

  lemma {:induction false} SpanHolds(k: Class, t: seq<bv8>, i: nat)
    requires i <= |t|
    ensures forall j :: i <= j < Span(k, t, i) ==> Has(k, t[j])
    decreases |t| - i
  {
    if i < |t| && Has(k, t[i]) {
      SpanHolds(k, t, i + 1);
    }
  }

  /** White space at the start of a text can be taken away. */
  lemma DropSpace(w: seq<bv8>, rest: seq<bv8>, edits: seq<Edit>, u: seq<bv8>)
    requires WhiteSpace(w) && Connected(rest, edits, u)
    ensures Connected(w + rest, [Respace([], [], rest, w)] + edits, u)
  {
    var e := Respace([], [], rest, w);
    StartTexts(w, rest);
    assert e.Valid();
    hide Edit.Valid;
    ConnectedStep(w + rest, e, rest, edits, u);
  }

  lemma StartTexts(w: seq<bv8>, b: seq<bv8>)
    ensures [] + w + b == w + b && [] + [] + b == b
  {
  }

  /** So can a line marker: behind a newline that is put in front of it and taken away after it. */
  lemma DropMarker(marker: seq<bv8>, rest: seq<bv8>, edits: seq<Edit>, u: seq<bv8>) returns (all: seq<Edit>)
    requires Marker(marker) && Connected(rest, edits, u)
    ensures Connected(marker + rest, all, u)
  {
    assert WhiteSpace([NL]);
    DropSpace([NL], rest, edits, u);
    var e, f := AddMarker([], [NL], rest, marker), Respace([], [], marker + rest, [NL]);
    StartTexts([NL], rest);
    StartTexts([NL], marker + rest);
    assert e.Valid() && f.Valid();
    hide *;
    EditTexts(e, f, marker, rest);
    all := [Respace([], [], rest, [NL])] + edits;
    ConnectedStep([NL] + (marker + rest), e, [NL] + rest, all, u);
    all := [e] + all;
    ConnectedStep(marker + rest, f, [NL] + (marker + rest), all, u);
    all := [f] + all;
  }

  lemma EditTexts(e: Edit, f: Edit, marker: seq<bv8>, rest: seq<bv8>)
    requires e == AddMarker([], [NL], rest, marker) && f == Respace([], [], marker + rest, [NL])
    ensures e.Before() == [NL] + rest && e.After() == [NL] + (marker + rest)
    ensures f.Before() == marker + rest && f.After() == [NL] + (marker + rest)
  {
    StartTexts([NL], rest);
    StartTexts([NL], marker + rest);
  }

  /** A '#' line with its newline is one pass whatever follows it. */
  lemma LineIsFront(t: seq<bv8>)
    requires 0 < |t| && t[0] == 0x23 && Next(t, 0) <= |t|
    ensures var y := t[..Next(t, 0)];
            Front(y, []) && y[|y| - 1] == NL && forall i :: 0 <= i < |y| - 1 ==> y[i] != NL
  {
    var n := Next(t, 0);
    var y := t[..n];
    SpanHolds(Line, t, 1);
    assert y[n - 1] == NL;
    forall s
      ensures Next(y + [] + s, 0) == n
    {
      LineNext(y, s);
    }
  }

  lemma LineNext(y: seq<bv8>, s: seq<bv8>)
    requires 1 < |y| && y[0] == 0x23 && y[|y| - 1] == NL && forall i :: 0 <= i < |y| - 1 ==> y[i] != NL
    ensures Next(y + [] + s, 0) == |y|
  {
    var u := y + [] + s;
    assert forall i :: 0 <= i < |y| ==> u[i] == y[i];
    LineEnd(u, 1, |y| - 1);
  }

  /** A token is one pass whatever follows the newline after it. */
  lemma TokenIsFront(t: seq<bv8>)
    requires 0 < |t| && t[0] != 0x23 && !IsSpace(t[0]) && Next(t, 0) <= |t|
    ensures Front(t[..Next(t, 0)], [NL])
  {
    var n := Next(t, 0);
    var y := t[..n];
    forall s
      ensures Next(y + [NL] + s, 0) == n
    {
      TokenNext(t, y + [NL] + s, n);
    }
  }

  lemma TokenNext(t: seq<bv8>, u: seq<bv8>, n: nat)
    requires 0 < |t| && !IsSpace(t[0]) && n == Next(t, 0) <= |t|
    requires n < |u| && u[..n] == t[..n] && u[n] == NL
    ensures Next(u, 0) == n
  {
    assert t[0] == t[..n][0] == u[0];
    hide Next;
    NextLocal(t, u, n, 0);
  }

  /** A text is connected to its own stream. */
  lemma {:induction false} ToStream(t: seq<bv8>, past: bv8) returns (edits: seq<Edit>)
    requires Complete(t, 0)
    ensures Connected(t, edits, Emit(t, 0, past))
    decreases |t|
  {
    hide *;
    if t == [] {
      EmitNothing(past);
      ConnectedNothing(t);
      edits := [];
    } else {
      CompleteNext(t);
      var n := Next(t, 0);
      var y, rest := Cut(t, n);
      CompleteShift(y, rest, 0);
      EmitShift(y, rest, 0, past);
      edits := ToStream(rest, past);
      edits := FirstPass(t, n, y, rest, edits, Emit(rest, 0, past), past);
      EmitFront(t, past);
    }
  }

  lemma Cut(t: seq<bv8>, n: nat) returns (y: seq<bv8>, rest: seq<bv8>)
    requires n <= |t|
    ensures y == t[..n] && rest == t[n..] && t == y + rest && |y| == n && |rest| == |t| - n
  {
    y, rest := t[..n], t[n..];
  }

  lemma EmitNothing(past: bv8)
    ensures Emit([], 0, past) == []
  {
  }

  lemma CompleteNext(t: seq<bv8>)
    requires t != [] && Complete(t, 0)
    ensures Next(t, 0) <= |t| && Complete(t, Next(t, 0))
  {
  }

  lemma EmitFront(t: seq<bv8>, past: bv8)
    requires t != []
    ensures Emit(t, 0, past) == Pushed(t, 0, past) + Emit(t, Next(t, 0), past)
  {
    hide Next, Pushed;
  }

  /** The edits of the first pass, in front of those of the rest. */
  lemma FirstPass(t: seq<bv8>, n: nat, y: seq<bv8>, rest: seq<bv8>, edits: seq<Edit>, u: seq<bv8>, past: bv8)
      returns (all: seq<Edit>)
    requires t != [] && n == Next(t, 0) <= |t| && y == t[..n] && t == y + rest && Connected(rest, edits, u)
    ensures Connected(t, all, Pushed(t, 0, past) + u)
  {
    if IsSpace(t[0]) {
      SpaceIsRun(t, n, past);
      hide *;
      DropSpace(y, rest, edits, u);
      all := [Respace([], [], rest, y)] + edits;
      NothingPushed(u);
    } else if MarkerAt(t, 0) {
      MarkerIsLine(t, n, past);
      hide *;
      all := DropMarker(y, rest, edits, u);
      NothingPushed(u);
    } else if t[0] == 0x23 {
      LinePushed(t, n, past);
      hide *;
      all := ConnectedBehind(rest, edits, u, y, []);
      Appended(y, []);
    } else {
      hide *;
      TokenIsFront(t);
      TokenPushed(t, 0, past);
      all := SpaceToken(y, rest, edits, u);
    }
  }

  lemma SpaceIsRun(t: seq<bv8>, n: nat, past: bv8)
    requires 0 < |t| && IsSpace(t[0]) && n == Next(t, 0) <= |t|
    ensures WhiteSpace(t[..n]) && Pushed(t, 0, past) == []
  {
    SpanHolds(Space, t, 1);
    assert t[..n][0] == t[0];
    hide Span;
  }

  lemma NothingPushed(u: seq<bv8>)
    ensures [] + u == u
  {
  }

  lemma Appended(y: seq<bv8>, z: seq<bv8>)
    requires z == []
    ensures y + z == y
  {
  }

  lemma MarkerIsLine(t: seq<bv8>, n: nat, past: bv8)
    requires MarkerAt(t, 0) && n == Next(t, 0) <= |t|
    ensures Marker(t[..n]) && Pushed(t, 0, past) == []
  {
    LineIsFront(t);
    var y := t[..n];
    hide Next, Front;
    assert forall i :: 0 <= i < n ==> y[i] == t[i];
    assert y[n - 1] == NL;
  }

  lemma LinePushed(t: seq<bv8>, n: nat, past: bv8)
    requires 0 < |t| && t[0] == 0x23 && !MarkerAt(t, 0) && n == Next(t, 0) <= |t|
    ensures Front(t[..n], []) && Pushed(t, 0, past) == t[..n]
  {
    LineIsFront(t);
    hide Next, MarkerAt, Front;
    assert t[0..n - 1] + [NL] == t[..n];
  }

  lemma SpaceToken(y: seq<bv8>, rest: seq<bv8>, edits: seq<Edit>, u: seq<bv8>) returns (all: seq<Edit>)
    requires Front(y, [NL]) && Next(y + rest, 0) == |y| && Connected(rest, edits, u)
    ensures Connected(y + rest, all, y + [NL] + u)
  {
    all := ConnectedBehind(rest, edits, u, y, [NL]);
    var e := Respace(y, [], rest, [NL]);
    Appended(y, []);
    TokenSpaced(y, rest, e);
    hide *;
    ConnectedStep(y + rest, e, y + [NL] + rest, all, y + [NL] + u);
    all := [e] + all;
  }

  lemma TokenSpaced(y: seq<bv8>, rest: seq<bv8>, e: Edit)
    requires 0 < |y| && !IsSpace(y[0]) && Next(y + rest, 0) == |y| && e == Respace(y, [], rest, [NL])
    ensures e.Valid() && e.Before() == y + rest && e.After() == y + [NL] + rest
  {
    Appended(y, []);
    var t := y + rest;
    assert t[0] == y[0] && e.Before() == t;
    assert WhiteSpace([NL]);
    hide Next, IsSpace;
    assert Boundary(t, |y|, |y|) && AfterToken(t, |y|, |y|);
    assert Boundary(t, 0, |y|) && AfterToken(t, 0, |y|);
  }

  /** Layout is all that the unifier throws away: texts whose literals close and whose '#' lines end have the
      same stream exactly when edits of the layout lead from one to the other. */
  lemma SameStreamIff(t: seq<bv8>, u: seq<bv8>, past: bv8)
    requires Complete(t, 0) && Complete(u, 0)
    ensures Emit(t, 0, past) == Emit(u, 0, past) <==> exists edits :: Connected(t, edits, u)
  {
    hide *;
    if Emit(t, 0, past) == Emit(u, 0, past) {
      var first := ToStream(t, past);
      var second := ToStream(u, past);
      var back := ConnectedBack(u, second, Emit(u, 0, past));
      ConnectedAppend(t, first, Emit(t, 0, past), back, u);
    }
    forall edits | Connected(t, edits, u)
      ensures Emit(t, 0, past) == Emit(u, 0, past)
    {
      LayoutDoesNotMatter(t, edits, u, past);
    }
  }

  // ----- The code ------------------------------------------------------------------------------

  /** The hash after the bytes of `x` went through pushchar: a zero byte closes the hash. */
  ghost function Feed(s: State, x: seq<bv8>): (r: State)
    requires s.Valid()
    ensures r.Valid()
  {
    if x == [] then s
    else
      var r := Feed(s, x[..|x| - 1]);
      if x[|x| - 1] == 0 then Finish(r) else Absorb(r, [x[|x| - 1]])
  }

  lemma FeedOne(s: State, x: seq<bv8>, c: bv8)
    requires s.Valid()
    ensures Feed(s, x + [c]) == if c == 0 then Finish(Feed(s, x)) else Absorb(Feed(s, x), [c])
  {
    hide Finish, Absorb;
    assert (x + [c])[..|x|] == x;
  }

  /** Bytes that are not zero are absorbed in one go. */
  lemma {:induction false} FeedText(s: State, x: seq<bv8>)
    requires s.Valid() && forall i :: 0 <= i < |x| ==> x[i] != 0
    ensures Feed(s, x) == Absorb(s, x)
  {
    hide Finish, Absorb;
    if x == [] {
      AbsorbNothing(s);
    } else {
      var y := x[..|x| - 1];
      FeedText(s, y);
      AbsorbCompose(s, y, [x[|x| - 1]]);
      assert y + [x[|x| - 1]] == x;
    }
  }

  lemma Join(p: seq<bv8>, t: seq<bv8>, i: nat, j: nat, k: nat)
    requires i <= j <= k <= |t|
    ensures p + t[i..j] + t[j..k] == p + t[i..k]
  {
  }

  lemma TakeFront(t: seq<bv8>, past: bv8, i: nat, j: nat)
    requires i <= j <= |t|
    ensures (t + [past])[i..j] == t[i..j]
  {
  }

  class Unifier {
    const hash: Mdfour
    const buf: array<bv8>
    var len: nat
    /** The state the hash was in at first, and every byte pushed since. */
    ghost const start: State
    ghost var pushed: seq<bv8>

    ghost predicate Valid()
      reads this, hash, hash.tail, buf
    {
      hash.Valid() && start.Valid() &&
      buf.Length == 64 && buf != hash.tail && len < 64 &&
      Absorb(hash.Abs(), buf[..len]) == Feed(start, pushed)
    }

    constructor (hash: Mdfour)
      requires hash.Valid()
      ensures Valid() && this.hash == hash && fresh(buf)
      ensures start == hash.Abs() && pushed == [] && len == 0
    {
      this.hash := hash;
      buf := new bv8[64];
      len := 0;
      start := hash.Abs();
      pushed := [];
      new;
      assert buf[..0] == [];
      AbsorbNothing(hash.Abs());
    }

    /** Hand the buffered bytes to hash_buffer. */
    method Flush()
      requires hash.Valid() && buf != hash.tail && len <= buf.Length
      modifies this`len, hash, hash.tail
      ensures hash.Valid() && len == 0
      ensures hash.Abs() == Absorb(old(hash.Abs()), buf[..old(len)])
    {
      hide Absorb, Finish;
      hash.Update(buf, len);
      len := 0;
    }

    method Pushchar(c: bv8)
      requires Valid()
      modifies this, hash, hash.tail, buf
      ensures Valid() && pushed == old(pushed) + [c]
      ensures c == 0 ==> len == 0
    {
      hide Absorb, Finish;
      FeedOne(start, pushed, c);
      ghost var h, b := hash.Abs(), buf[..len];
      if c == 0 {
        AbsorbNothing(h);
        if len > 0 {
          Flush();
        }
        hash.Update(null, 0);
        AbsorbNothing(hash.Abs());
        assert buf[..0] == [];
      } else {
        AbsorbCompose(h, b, [c]);
        buf[len] := c;
        len := len + 1;
        assert buf[..len] == b + [c];
        if len == 64 {
          Flush();
          AbsorbNothing(hash.Abs());
          assert buf[..0] == [];
        }
      }
      pushed := pushed + [c];
    }

    /** A loop of unify that skips a run: `o` is where it stops. */
    static method SkipRun(t: seq<bv8>, i: nat, k: Class) returns (o: nat)
      requires i <= |t|
      ensures o == Span(k, t, i)
    {
      o := i;
      while o < |t| && Has(k, t[o])
        invariant i <= o <= |t| && Span(k, t, o) == Span(k, t, i)
      {
        o := o + 1;
      }
    }

    /** A loop of unify that pushes a run. */
    method PushRun(t: seq<bv8>, i: nat, k: Class) returns (o: nat)
      requires Valid() && i <= |t|
      modifies this, hash, hash.tail, buf
      ensures Valid() && o == Span(k, t, i) && pushed == old(pushed) + t[i..o]
    {
      hide Valid, Has;
      o := i;
      while o < |t| && Has(k, t[o])
        invariant i <= o <= |t| && Valid() && Span(k, t, o) == Span(k, t, i)
        invariant pushed == old(pushed) + t[i..o]
      {
        assert t[i..o + 1] == t[i..o] + [t[o]];
        Pushchar(t[o]);
        o := o + 1;
      }
    }

    /** The part of a number that byte `a` or `b` opens. */
    method PushPart(t: seq<bv8>, i: nat, a: bv8, b: bv8, k: Class) returns (o: nat)
      requires Valid() && i <= |t|
      modifies this, hash, hash.tail, buf
      ensures Valid() && i <= o <= |t| && pushed == old(pushed) + t[i..o]
      ensures o == PartEnd(k, t, i, a, b)
    {
      hide Valid, Span, Has;
      o := i;
      if i < |t| && (t[i] == a || t[i] == b) {
        Pushchar(t[i]);
        o := PushRun(t, i + 1, k);
      }
      assert pushed == old(pushed) + t[i..o];
    }

    method PushNumber(t: seq<bv8>, ofs: nat) returns (o: nat)
      requires Valid() && ofs < |t|
      modifies this, hash, hash.tail, buf
      ensures Valid() && o == NumberEnd(t, ofs) && pushed == old(pushed) + t[ofs..o]
    {
      hide Valid, Span, Has, PartEnd;
      ghost var p := pushed;
      Pushchar(t[ofs]);
      assert [t[ofs]] == t[ofs..ofs + 1];
      var j := PushRun(t, ofs + 1, Digits);
      Join(p, t, ofs, ofs + 1, j);
      var k := PushPart(t, j, 0x78, 0x58, Hex);
      Join(p, t, ofs, j, k);
      var l := PushPart(t, k, 0x45, 0x65, Exponent);
      Join(p, t, ofs, k, l);
      o := PushRun(t, l, Suffix);
      Join(p, t, ofs, l, o);
    }

    /** The inner loop over a literal: pairs of a backslash and the byte after it. */
    method PushEscapes(t: seq<bv8>, i: nat, q: bv8) returns (o: nat)
      requires Valid() && i <= |t|
      modifies this, hash, hash.tail, buf
      ensures Valid() && i <= o <= |t| && pushed == old(pushed) + t[i..o]
      ensures QuoteEnd(t, q, o) == QuoteEnd(t, q, i) && !(o < |t| - 1 && t[o] == 0x5C)
    {
      hide Valid;
      o := i;
      while o < |t| - 1 && t[o] == 0x5C
        invariant i <= o <= |t| && Valid()
        invariant QuoteEnd(t, q, o) == QuoteEnd(t, q, i)
        invariant pushed == old(pushed) + t[i..o]
        decreases |t| - o
      {
        assert t[i..o + 2] == t[i..o] + [t[o]] + [t[o + 1]];
        Pushchar(t[o]);
        Pushchar(t[o + 1]);
        o := o + 2;
      }
    }

    /** The two nested loops over a literal; `past` stands at offset |t|. */
    method PushLiteral(t: seq<bv8>, ofs: nat, past: bv8) returns (o: nat)
      requires Valid() && ofs < |t|
      modifies this, hash, hash.tail, buf
      ensures Valid() && o == QuoteEnd(t, t[ofs], ofs + 1)
      ensures pushed == old(pushed) + (t + [past])[ofs..o + 1]
    {
      hide Valid;
      var q := t[ofs];
      ghost var p, u := pushed, t + [past];
      Pushchar(q);
      assert [q] == u[ofs..ofs + 1];
      o := ofs;
      var closed := false;
      while !closed
        invariant ofs <= o <= |t| && Valid()
        invariant pushed == p + u[ofs..o + 1]
        invariant closed ==> o == QuoteEnd(t, q, ofs + 1)
        invariant !closed ==> o < |t| && QuoteEnd(t, q, o + 1) == QuoteEnd(t, q, ofs + 1)
        decreases |t| - o, !closed
      {
        o, closed := PushEscaped(t, ofs, o, past, q, p);
      }
    }

    /** One turn of the outer of the two loops. */
    method PushEscaped(t: seq<bv8>, ofs: nat, i: nat, past: bv8, q: bv8, ghost p: seq<bv8>)
        returns (o: nat, closed: bool)
      requires Valid() && ofs <= i < |t| && pushed == p + (t + [past])[ofs..i + 1]
      modifies this, hash, hash.tail, buf
      ensures Valid() && i < o <= |t| && pushed == p + (t + [past])[ofs..o + 1]
      ensures if closed then o == QuoteEnd(t, q, i + 1) else o < |t| && QuoteEnd(t, q, o + 1) == QuoteEnd(t, q, i + 1)
    {
      hide Valid;
      ghost var u := t + [past];
      o := PushEscapes(t, i + 1, q);
      TakeFront(t, past, i + 1, o);
      Join(p, u, ofs, i + 1, o);
      var c := if o < |t| then t[o] else past;
      assert [c] == u[o..o + 1];
      Join(p, u, ofs, o, o + 1);
      Pushchar(c);
      closed := !(o < |t| && t[o] != q);
    }

    /** The search for a token: push the first of the table that stands at `ofs`. */
    method PushToken(t: seq<bv8>, ofs: nat) returns (found: bool, o: nat)
      requires Valid() && ofs < |t|
      modifies this, hash, hash.tail, buf
      ensures Valid() && ofs <= o <= |t|
      ensures var i := FirstToken(t, ofs, 0);
              found == (i < |S_TOKENS|) && o == if found then ofs + |S_TOKENS[i]| else ofs
      ensures pushed == old(pushed) + t[ofs..o]
    {
      hide Valid, S_TOKENS;
      found, o := false, ofs;
      var i := 0;
      while i < |S_TOKENS| && !TokenAt(t, ofs, S_TOKENS[i])
        invariant i <= |S_TOKENS| && FirstToken(t, ofs, i) == FirstToken(t, ofs, 0)
      {
        i := i + 1;
      }
      if i < |S_TOKENS| {
        found := true;
        for j := 0 to |S_TOKENS[i]|
          invariant Valid() && o == ofs + j && pushed == old(pushed) + t[ofs..o]
        {
          assert t[ofs..ofs + |S_TOKENS[i]|][j] == t[o];
          Pushchar(S_TOKENS[i][j]);
          o := o + 1;
        }
      }
    }

    /** A '#' line: a marker is skipped, anything else is pushed as it stands. */
    method PassLine(t: seq<bv8>, ofs: nat, past: bv8) returns (o: nat)
      requires Valid() && ofs < |t| && t[ofs] == 0x23
      modifies this, hash, hash.tail, buf
      ensures Valid() && o == Next(t, ofs) && pushed == old(pushed) + Pushed(t, ofs, past)
    {
      hide Valid, Span, Has, MarkerAt, IsSpace;
      if MarkerAt(t, ofs) {
        o := SkipRun(t, ofs + 1, Line);
      } else {
        Pushchar(t[ofs]);
        o := PushRun(t, ofs + 1, Line);
        assert pushed == old(pushed) + t[ofs..o];
        Pushchar(NL);
      }
      o := o + 1;
    }

    /** A word, a number, a literal, a token of the table or a single byte, and a newline. */
    method PassToken(t: seq<bv8>, ofs: nat, past: bv8) returns (o: nat)
      requires Valid() && ofs < |t| && t[ofs] != 0x23 && !IsSpace(t[ofs])
      modifies this, hash, hash.tail, buf
      ensures Valid() && o == Next(t, ofs) && pushed == old(pushed) + (t + [past])[ofs..o] + [NL]
    {
      hide Valid, Span, Has, NumberEnd, QuoteEnd, FirstToken, TokenAt, IsSpace, IsAlpha, IsDigit, IsQuote;
      var c := t[ofs];
      ghost var u := t + [past];
      if IsAlpha(c) {
        Pushchar(c);
        o := PushRun(t, ofs + 1, Word);
      } else if IsDigit(c) {
        o := PushNumber(t, ofs);
      } else if IsQuote(c) {
        o := PushLiteral(t, ofs, past);
        o := o + 1;
      } else {
        var found;
        found, o := PushToken(t, ofs);
        if !found {
          Pushchar(c);
          o := ofs + 1;
        }
      }
      assert pushed == old(pushed) + u[ofs..o];
      Pushchar(NL);
    }

    /** One pass of the outer loop of unify. */
    method Pass(t: seq<bv8>, ofs: nat, past: bv8) returns (o: nat)
      requires Valid() && ofs < |t|
      modifies this, hash, hash.tail, buf
      ensures Valid() && o == Next(t, ofs) && pushed == old(pushed) + Pushed(t, ofs, past)
    {
      hide Valid, Span;
      if t[ofs] == 0x23 {
        o := PassLine(t, ofs, past);
      } else if IsSpace(t[ofs]) {
        o := SkipRun(t, ofs + 1, Space);
      } else {
        o := PassToken(t, ofs, past);
      }
    }

    /** unify: the stream of the text, then the zero byte that flushes and closes the hash. */
    method Unify(t: seq<bv8>, past: bv8)
      requires Valid()
      modifies this, hash, hash.tail, buf
      ensures Valid() && len == 0
      ensures pushed == old(pushed) + Emit(t, 0, past) + [0]
      ensures hash.Abs() == Feed(start, pushed)
    {
      hide Next, Pushed, Feed, Absorb;
      var ofs := 0;
      while ofs < |t|
        invariant Valid()
        invariant pushed + Emit(t, ofs, past) == old(pushed) + Emit(t, 0, past)
        decreases |t| - ofs
      {
        ghost var before := pushed;
        ghost var from := ofs;
        ofs := Pass(t, ofs, past);
        assert pushed + Emit(t, ofs, past) == before + (Pushed(t, from, past) + Emit(t, ofs, past));
      }
      assert pushed == old(pushed) + Emit(t, 0, past);
      Pushchar(0);
      assert buf[..0] == [];
      AbsorbNothing(hash.Abs());
    }
  }

  /** Texts that differ in layout only, pushed from the same state, leave the hash in one state. */
  lemma SameLayoutSameHash(s: State, t: seq<bv8>, edits: seq<Edit>, u: seq<bv8>, past: bv8)
    requires s.Valid() && Connected(t, edits, u)
    ensures Feed(s, Emit(t, 0, past) + [0]) == Feed(s, Emit(u, 0, past) + [0])
  {
    hide Feed, Emit, Connected;
    LayoutDoesNotMatter(t, edits, u, past);
  }

  /** For a stream without zero bytes, unify and its closing zero leave the MD4 of the stream. */
  lemma StreamDigest(e: seq<bv8>)
    requires forall i :: 0 <= i < |e| ==> e[i] != 0
    requires |e| < 0x2000_0000
    ensures Output(Feed(BEGIN, e + [0]).regs) == Rfc1320(e)
  {
    hide Feed, Finish, Absorb, Rfc1320, Output, AbsorbAll, Flatten;
    FeedOne(BEGIN, e, 0);
    FeedText(BEGIN, e);
    OnePiece(e);
    StreamIsRfc1320([e]);
  }
}
