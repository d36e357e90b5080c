// redact_sensitive and merge_sensitive of the config editor
// (experiment-manager/backend/app/config_generator.py): secret fields are masked for the browser, and put
// back when the edited text returns.
module Secrets {
  import opened Options
  import opened PythonText

  /** A text as the regular expression sees it: fields that match, and the characters between them. */
  datatype Seg = Plain(c: char) | Secret(lead: string, key: string, eq: string, rest: string)

  /** The letter that a character equals when case is ignored. */
  function Fold(c: char): char {
    if 'A' <= c <= 'Z' then (c as int + 32) as char
    else if c == '\U{0130}' || c == '\U{0131}' then 'i'
    else if c == '\U{017F}' then 's'
    else if c == '\U{212A}' then 'k'
    else c
  }

  /** str.lower, character by character. */
  function LowerChar(c: char): string {
    if 'A' <= c <= 'Z' then [(c as int + 32) as char]
    else if c == '\U{0130}' then "i\U{0307}"
    else if c == '\U{212A}' then "k"
    else [c]
  }

  function Lower(key: string): string { if key == [] then [] else LowerChar(key[0]) + Lower(key[1..]) }

  datatype Word = Opc | Op | K | Pin | Password

  function Letters(w: Word): (s: string)
    ensures s != []
  {
    match w
    case Opc => "opc"
    case Op => "op"
    case K => "k"
    case Pin => "pin"
    case Password => "password"
  }

  predicate WordAt(t: string, i: nat, w: Word) {
    i + |Letters(w)| <= |t| && forall k :: 0 <= k < |Letters(w)| ==> Fold(t[i + k]) == Letters(w)[k]
  }

  /** The word and white space, then an equals sign. */
  predicate KeyAt(t: string, i: nat, w: Word) {
    WordAt(t, i, w) && var j := SkipSpaces(t, i + |Letters(w)|); j < |t| && t[j] == '='
  }

  /** The alternatives in their order. */
  function WordFound(t: string, i: nat): (w: Option<Word>)
    ensures w.Some? ==> KeyAt(t, i, w.value)
  {
    if KeyAt(t, i, Opc) then Some(Opc)
    else if KeyAt(t, i, Op) then Some(Op)
    else if KeyAt(t, i, K) then Some(K)
    else if KeyAt(t, i, Pin) then Some(Pin)
    else if KeyAt(t, i, Password) then Some(Password)
    else None
  }

  function NewlineFrom(t: string, i: nat): (n: nat)
    requires i <= |t|
    ensures i <= n <= |t| && (n < |t| ==> t[n] == '\n') && forall k :: i <= k < n ==> t[k] != '\n'
    decreases |t| - i
  {
    if i == |t| || t[i] == '\n' then i else NewlineFrom(t, i + 1)
  }

  /** The expression tried at the start of a line. */
  function Match(t: string): Option<Seg> {
    var i := SkipSpaces(t, 0);
    match WordFound(t, i)
    case None => None
    case Some(w) =>
      var n := i + |Letters(w)|;
      var j := SkipSpaces(t, n);
      Some(Secret(t[..i], t[i..n], t[n..j + 1], t[j + 1..NewlineFrom(t, j + 1)]))
  }

  function SegText(s: Seg): string {
    match s
    case Plain(c) => [c]
    case Secret(lead, key, eq, rest) => lead + key + eq + rest
  }

  function Unscan(segs: seq<Seg>): string { if segs == [] then [] else SegText(segs[0]) + Unscan(segs[1..]) }

  // ------------------------------------------------------------------------------------------------
  // What a field looks like
  // ------------------------------------------------------------------------------------------------

  predicate AllSpace(t: string) { forall i :: 0 <= i < |t| ==> IsSpace(t[i]) }

  predicate IsKey(key: string, w: Word) { |key| == |Letters(w)| && WordAt(key, 0, w) }

  predicate KeyShape(key: string) { exists w: Word :: IsKey(key, w) }

  predicate Shape(s: Seg) {
    s.Secret? && AllSpace(s.lead) && KeyShape(s.key) && s.eq != [] && AllSpace(s.eq[..|s.eq| - 1]) &&
    s.eq[|s.eq| - 1] == '=' && '\n' !in s.rest
  }

  /** The end of the text or of the line. */
  predicate LineEnd(u: string) { u == [] || u[0] == '\n' }

  lemma SpaceFolds(c: char)
    requires IsSpace(c)
    ensures Fold(c) == c && !('a' <= c <= 'z') && c != '='
  {
  }

  lemma FirstLetters(w: Word)
    ensures Letters(w)[0] ==
            match w { case Opc => 'o' case Op => 'o' case K => 'k' case Pin => 'p' case Password => 'p' }
    ensures w.Opc? ==> |Letters(w)| == 3 && Letters(w)[2] == 'c'
    ensures w.Op? ==> |Letters(w)| == 2
    ensures w.Pin? ==> |Letters(w)| == 3 && Letters(w)[1] == 'i'
    ensures w.Password? ==> |Letters(w)| == 8 && Letters(w)[1] == 'a'
  {
  }

  lemma Letter(t: string, i: nat, w: Word, k: nat)
    requires WordAt(t, i, w) && k < |Letters(w)|
    ensures i + k < |t| && Fold(t[i + k]) == Letters(w)[k]
  {
  }

  lemma KeyStarts(key: string)
    requires KeyShape(key)
    ensures key != [] && !IsSpace(key[0]) && key[0] != '='
  {
    hide WordAt, IsSpace, Letters;
    var w: Word :| IsKey(key, w);
    FirstLetters(w);
    Letter(key, 0, w, 0);
    if IsSpace(key[0]) {
      SpaceFolds(key[0]);
    }
  }

  /** Two words that differ in a letter do not stand at the same place. */
  lemma Exclusive(t: string, i: nat, a: Word, b: Word, k: nat)
    requires k < |Letters(a)| && k < |Letters(b)| && Letters(a)[k] != Letters(b)[k]
    ensures !(WordAt(t, i, a) && WordAt(t, i, b))
  {
    hide Letters;
    assert WordAt(t, i, a) ==> Fold(t[i + k]) == Letters(a)[k];
    assert WordAt(t, i, b) ==> Fold(t[i + k]) == Letters(b)[k];
  }

  lemma OpIsNotOpc(t: string, i: nat)
    requires KeyAt(t, i, Op)
    ensures !WordAt(t, i, Opc)
  {
    hide Letters, IsSpace;
    FirstLetters(Op);
    FirstLetters(Opc);
    var c := t[i + 2];
    assert WordAt(t, i, Opc) ==> Fold(c) == Letters(Opc)[2];
    if IsSpace(c) {
      SpaceFolds(c);
    } else {
      SkipSpacesIs(t, i + 2, i + 2);
    }
  }

  /** At most one alternative fits. */
  lemma WordIsUnique(t: string, i: nat, w: Word)
    requires KeyAt(t, i, w)
    ensures WordFound(t, i) == Some(w)
  {
    hide Letters, WordAt;
    FirstLetters(Opc);
    FirstLetters(Op);
    FirstLetters(K);
    FirstLetters(Pin);
    FirstLetters(Password);
    if w.Op? {
      OpIsNotOpc(t, i);
    } else if !w.Opc? {
      Exclusive(t, i, w, Opc, 0);
      Exclusive(t, i, w, Op, 0);
    }
    if w.Pin? || w.Password? {
      Exclusive(t, i, w, K, 0);
    }
    if w.Password? {
      Exclusive(t, i, w, Pin, 1);
    }
  }

  // ------------------------------------------------------------------------------------------------
  // Matching
  // ------------------------------------------------------------------------------------------------

  lemma NewlineIs(t: string, i: nat, n: nat)
    requires i <= n <= |t| && (n < |t| ==> t[n] == '\n') && forall k :: i <= k < n ==> t[k] != '\n'
    ensures NewlineFrom(t, i) == n
  {
    var m := NewlineFrom(t, i);
    assert m < |t| ==> t[m] == '\n';
    assert n < |t| ==> t[n] == '\n';
  }

  /** The text `t` holds `x` at `i`. */
  predicate Holds(t: string, i: nat, x: string) { i + |x| <= |t| && t[i..i + |x|] == x }

  lemma HoldsAt(t: string, i: nat, x: string)
    requires Holds(t, i, x)
    ensures forall k :: i <= k < i + |x| ==> t[k] == x[k - i]
  {
    assert forall k :: i <= k < i + |x| ==> t[k] == t[i..i + |x|][k - i];
  }

  lemma FieldCuts(t: string, s: Seg, u: string, i: nat, n: nat, m: nat, e: nat)
    requires s.Secret? && t == SegText(s) + u
    requires i == |s.lead| && n == i + |s.key| && m == n + |s.eq| && e == m + |s.rest|
    ensures |t| == e + |u| && t[e..] == u && t[..i] == s.lead && t[i..n] == s.key && t[n..m] == s.eq &&
            t[m..e] == s.rest
  {
  }

  /** Where the parts of a field are when it follows `w`. */
  predicate Places(w: string, s: Seg, i: nat, n: nat, m: nat, e: nat) {
    s.Secret? && i == |w| + |s.lead| && n == i + |s.key| && m == n + |s.eq| && e == m + |s.rest|
  }

  lemma HoldsShift(w: string, y: string, j: nat, k: nat, x: string)
    requires j <= k <= |y| && y[j..k] == x
    ensures Holds(w + y, |w| + j, x)
  {
  }

  lemma FieldHolds(t: string, w: string, s: Seg, u: string, i: nat, n: nat, m: nat, e: nat)
    requires t == w + (SegText(s) + u) && Places(w, s, i, n, m, e)
    ensures Holds(t, 0, w) && Holds(t, |w|, s.lead) && Holds(t, i, s.key) && Holds(t, n, s.eq) && Holds(t, m, s.rest) &&
            Holds(t, e, u) && |t| == e + |u|
  {
    hide SegText;
    var y, a := SegText(s) + u, |s.lead|;
    var b := a + |s.key|;
    var c := b + |s.eq|;
    var d := c + |s.rest|;
    FieldCuts(y, s, u, a, b, c, d);
    assert t == w + y;
    hide Holds;
    HoldsFront(w, y);
    assert y[0..a] == y[..a];
    HoldsShift(w, y, 0, a, s.lead);
    HoldsShift(w, y, a, b, s.key);
    HoldsShift(w, y, b, c, s.eq);
    HoldsShift(w, y, c, d, s.rest);
    assert y[d..|y|] == y[d..];
    HoldsShift(w, y, d, |y|, u);
  }

  lemma HoldsFront(w: string, y: string)
    ensures Holds(w + y, 0, w)
  {
  }

  lemma KeyHolds(t: string, i: nat, key: string, w: Word)
    requires Holds(t, i, key) && IsKey(key, w)
    ensures WordAt(t, i, w) && |key| == |Letters(w)|
  {
    hide Letters;
    HoldsAt(t, i, key);
    forall k | 0 <= k < |Letters(w)|
      ensures Fold(t[i + k]) == Letters(w)[k]
    {
      assert t[i + k] == key[k];
      assert Fold(key[0 + k]) == Letters(w)[k];
    }
  }

  lemma ShapeParts(s: Seg) returns (w: Word)
    requires Shape(s)
    ensures s.Secret? && AllSpace(s.lead) && KeyShape(s.key) && IsKey(s.key, w) && '\n' !in s.rest
    ensures s.eq != [] && AllSpace(s.eq[..|s.eq| - 1]) && s.eq[|s.eq| - 1] == '='
  {
    hide IsKey, AllSpace;
    w :| IsKey(s.key, w);
  }

  lemma KeyAtIs(t: string, i: nat, w: Word, j: nat)
    requires WordAt(t, i, w) && SkipSpaces(t, i + |Letters(w)|) == j < |t| && t[j] == '='
    ensures KeyAt(t, i, w)
  {
  }

  /** White space, then a field: what the expression finds when it starts anywhere in the white space. */
  lemma FieldFound(t: string, w: string, s: Seg, u: string, i: nat, n: nat, m: nat, e: nat) returns (word: Word)
    requires t == w + (SegText(s) + u) && AllSpace(w) && Shape(s) && LineEnd(u) && Places(w, s, i, n, m, e)
    ensures i < n < m <= e <= |t| && SkipSpaces(t, 0) == i && WordFound(t, i) == Some(word) &&
            n == i + |Letters(word)| &&
            SkipSpaces(t, n) == m - 1 && NewlineFrom(t, m) == e
  {
    hide Shape, SegText, LineEnd, AllSpace, KeyShape, IsKey, Letters, WordAt, KeyAt, WordFound, SkipSpaces;
    hide NewlineFrom, Holds;
    word := ShapeParts(s);
    FieldHolds(t, w, s, u, i, n, m, e);
    SpacesThenKey(t, w, s);
    KeyHolds(t, i, s.key, word);
    EqualsFound(t, n, s.eq);
    RestFound(t, m, s.rest, u);
    KeyAtIs(t, i, word, m - 1);
    WordIsUnique(t, i, word);
  }

  lemma SpacesThenKey(t: string, w: string, s: Seg)
    requires s.Secret? && AllSpace(w) && AllSpace(s.lead) && KeyShape(s.key)
    requires Holds(t, 0, w) && Holds(t, |w|, s.lead) && Holds(t, |w| + |s.lead|, s.key)
    ensures SkipSpaces(t, 0) == |w| + |s.lead|
  {
    hide IsSpace;
    KeyStarts(s.key);
    HoldsAt(t, 0, w);
    HoldsAt(t, |w|, s.lead);
    HoldsAt(t, |w| + |s.lead|, s.key);
    SkipSpacesIs(t, 0, |w| + |s.lead|);
  }

  lemma EqualsFound(t: string, n: nat, eq: string)
    requires eq != [] && AllSpace(eq[..|eq| - 1]) && eq[|eq| - 1] == '=' && Holds(t, n, eq)
    ensures SkipSpaces(t, n) == n + |eq| - 1 < |t| && t[n + |eq| - 1] == '='
  {
    HoldsAt(t, n, eq);
    assert forall k :: 0 <= k < |eq| - 1 ==> eq[k] == eq[..|eq| - 1][k];
    assert !IsSpace('=');
    hide IsSpace;
    SkipSpacesIs(t, n, n + |eq| - 1);
  }

  lemma RestFound(t: string, e: nat, rest: string, u: string)
    requires Holds(t, e, rest) && Holds(t, e + |rest|, u) && |t| == e + |rest| + |u| && '\n' !in rest && LineEnd(u)
    ensures NewlineFrom(t, e) == e + |rest|
  {
    HoldsAt(t, e, rest);
    HoldsAt(t, e + |rest|, u);
    NewlineIs(t, e, e + |rest|);
  }

  lemma MatchParts(t: string, i: nat, w: Word, n: nat, m: nat, e: nat)
    requires SkipSpaces(t, 0) == i && WordFound(t, i) == Some(w) && n == i + |Letters(w)|
    requires n < m <= |t| && SkipSpaces(t, n) == m - 1 && NewlineFrom(t, m) == e
    ensures Match(t) == Some(Secret(t[..i], t[i..n], t[n..m], t[m..e]))
  {
    hide Letters, SkipSpaces, WordFound, NewlineFrom;
  }

  lemma FieldFirst(t: string, s: Seg, u: string, i: nat, n: nat, m: nat, e: nat) returns (w: Word)
    requires Shape(s) && LineEnd(u) && t == SegText(s) + u && Places([], s, i, n, m, e)
    ensures i < n < m <= e <= |t| && SkipSpaces(t, 0) == i && WordFound(t, i) == Some(w) && n == i + |Letters(w)| &&
            SkipSpaces(t, n) == m - 1 && NewlineFrom(t, m) == e
  {
    var none: string := [];
    assert AllSpace(none);
    hide *;
    EmptyConcat(none, SegText(s) + u);
    w := FieldFound(t, none, s, u, i, n, m, e);
  }

  /** A field in front of a line end is matched as it is. */
  lemma MatchIs(s: Seg, u: string)
    requires Shape(s) && LineEnd(u)
    ensures Match(SegText(s) + u) == Some(s)
  {
    hide *;
    var t := SegText(s) + u;
    var word := ShapeParts(s);
    var i := |s.lead|;
    var n := i + |s.key|;
    var m := n + |s.eq|;
    var e := m + |s.rest|;
    PlacesAre(s, i, n, m, e);
    var w := FieldFirst(t, s, u, i, n, m, e);
    MatchParts(t, i, w, n, m, e);
    FieldCuts(t, s, u, i, n, m, e);
    SecretIs(s, t[..i], t[i..n], t[n..m], t[m..e]);
  }

  lemma PlacesAre(s: Seg, i: nat, n: nat, m: nat, e: nat)
    requires s.Secret? && i == |s.lead| && n == i + |s.key| && m == n + |s.eq| && e == m + |s.rest|
    ensures Places([], s, i, n, m, e)
  {
  }

  lemma SecretIs(s: Seg, lead: string, key: string, eq: string, rest: string)
    requires s.Secret? && s.lead == lead && s.key == key && s.eq == eq && s.rest == rest
    ensures s == Secret(lead, key, eq, rest)
  {
  }

  /** What is matched is a field, and it is followed by a line end. */
  lemma MatchShape(t: string)
    requires Match(t).Some?
    ensures var s := Match(t).value;
            Shape(s) && 0 < |SegText(s)| <= |t| && t == SegText(s) + t[|SegText(s)|..] && LineEnd(t[|SegText(s)|..])
  {
    hide *;
    var i, n, m, e := MatchCuts(t);
    FourCuts(t, i, n, m, e);
    CutShape(t, i, n, m, e);
    SecretText(Match(t).value);
  }

  lemma MatchCuts(t: string) returns (i: nat, n: nat, m: nat, e: nat)
    requires Match(t).Some?
    ensures i < n < m <= e <= |t| && Match(t) == Some(Secret(t[..i], t[i..n], t[n..m], t[m..e]))
    ensures i == SkipSpaces(t, 0) && KeyShape(t[i..n]) && m - 1 == SkipSpaces(t, n) && t[m - 1] == '=' &&
            e == NewlineFrom(t, m)
    ensures LineEnd(t[e..])
  {
    hide *;
    i := SkipSpaces(t, 0);
    MatchIff(t);
    var w := WordFound(t, i).value;
    n := i + |Letters(w)|;
    KeyAtParts(t, i, w);
    m := SkipSpaces(t, n) + 1;
    e := NewlineFrom(t, m);
    KeyCut(t, i, w);
    MatchParts(t, i, w, n, m, e);
    EndsLine(t, m);
  }

  lemma KeyAtParts(t: string, i: nat, w: Word)
    requires KeyAt(t, i, w)
    ensures WordAt(t, i, w) && i + |Letters(w)| <= |t|
    ensures var j := SkipSpaces(t, i + |Letters(w)|); j < |t| && t[j] == '='
  {
  }

  lemma EndsLine(t: string, m: nat)
    requires m <= |t|
    ensures LineEnd(t[NewlineFrom(t, m)..])
  {
  }

  lemma SecretText(s: Seg)
    requires s.Secret?
    ensures SegText(s) == s.lead + s.key + s.eq + s.rest
  {
  }

  lemma CutShape(t: string, i: nat, n: nat, m: nat, e: nat)
    requires i < n < m <= e <= |t|
    requires i == SkipSpaces(t, 0) && KeyShape(t[i..n]) && m - 1 == SkipSpaces(t, n) && t[m - 1] == '=' &&
             e == NewlineFrom(t, m)
    ensures Shape(Secret(t[..i], t[i..n], t[n..m], t[m..e]))
  {
    hide KeyShape, IsSpace;
    SpaceCut(t, 0, i);
    SpaceCut(t, n, m - 1);
    assert t[0..i] == t[..i] && t[n..m][..m - n - 1] == t[n..m - 1];
    hide AllSpace, SkipSpaces;
  }

  lemma SpaceCut(t: string, a: nat, b: nat)
    requires a <= b <= |t| && forall k :: a <= k < b ==> IsSpace(t[k])
    ensures AllSpace(t[a..b])
  {
    hide IsSpace;
  }

  lemma FourCuts(t: string, a: nat, b: nat, c: nat, d: nat)
    requires a <= b <= c <= d <= |t|
    ensures t == (t[..a] + t[a..b] + t[b..c] + t[c..d]) + t[d..] && |t[..a] + t[a..b] + t[b..c] + t[c..d]| == d
  {
  }

  lemma KeyCut(t: string, i: nat, w: Word)
    requires WordAt(t, i, w)
    ensures KeyShape(t[i..i + |Letters(w)|])
  {
    hide Letters;
    var key := t[i..i + |Letters(w)|];
    forall k | 0 <= k < |Letters(w)|
      ensures Fold(key[0 + k]) == Letters(w)[k]
    {
      assert key[k] == t[i + k];
      assert Fold(t[i + k]) == Letters(w)[k];
    }
    assert IsKey(key, w);
  }

  // ------------------------------------------------------------------------------------------------
  // Scanning
  // ------------------------------------------------------------------------------------------------

  /** finditer: `bol` says that the text starts a line. */
  function Scan(t: string, bol: bool): seq<Seg>
    decreases |t|
  {
    if t == [] then []
    else if bol && Match(t).Some? && 0 < |SegText(Match(t).value)| <= |t| then
      [Match(t).value] + Scan(t[|SegText(Match(t).value)|..], false)
    else [Plain(t[0])] + Scan(t[1..], t[0] == '\n')
  }

  lemma UnscanCons(s: Seg, rest: seq<Seg>)
    ensures Unscan([s] + rest) == SegText(s) + Unscan(rest)
  {
    assert ([s] + rest)[1..] == rest;
  }

  lemma {:induction false} UnscanScan(t: string, bol: bool)
    ensures Unscan(Scan(t, bol)) == t
    decreases |t|
  {
    if t != [] {
      hide Match, Unscan, SegText;
      if bol && Match(t).Some? {
        MatchShape(t);
        var m := Match(t).value;
        UnscanScan(t[|SegText(m)|..], false);
        UnscanCons(m, Scan(t[|SegText(m)|..], false));
      } else {
        UnscanScan(t[1..], t[0] == '\n');
        UnscanCons(Plain(t[0]), Scan(t[1..], t[0] == '\n'));
        PlainText(t);
      }
    } else {
      assert Scan(t, bol) == [];
    }
  }

  lemma PlainText(t: string)
    requires t != []
    ensures SegText(Plain(t[0])) + t[1..] == t
  {
  }

  /** The segments are what scanning their text gives. */
  ghost predicate Canon(segs: seq<Seg>, bol: bool) { Scan(Unscan(segs), bol) == segs }

  // ------------------------------------------------------------------------------------------------
  // Exchanging fields
  // ------------------------------------------------------------------------------------------------

  lemma SkipConcat(w: string, y: string, j: nat)
    requires j <= |w|
    ensures SkipSpaces(w + y, j) == if SkipSpaces(w, j) < |w| then SkipSpaces(w, j) else |w| + SkipSpaces(y, 0)
  {
    hide IsSpace;
    var n := SkipSpaces(w, j);
    assert forall k :: 0 <= k < |w| ==> (w + y)[k] == w[k];
    assert forall k :: |w| <= k < |w + y| ==> (w + y)[k] == y[k - |w|];
    if n < |w| {
      SkipSpacesIs(w + y, j, n);
    } else {
      SkipSpacesIs(w + y, j, |w| + SkipSpaces(y, 0));
    }
  }

  /** The first character of a text that is no white space is there, and it is not an equals sign. */
  predicate StartsField(y: string) { var j := SkipSpaces(y, 0); j < |y| && y[j] != '=' }

  lemma FieldStarts(s: Seg, u: string)
    requires Shape(s) && LineEnd(u)
    ensures StartsField(SegText(s) + u)
  {
    var y := SegText(s) + u;
    hide Letters, WordAt, IsSpace, SegText, WordFound, AllSpace, KeyShape;
    var i := |s.lead|;
    var n := i + |s.key|;
    var m := n + |s.eq|;
    var e := m + |s.rest|;
    var w := FieldFirst(y, s, u, i, n, m, e);
    KeyStarts(s.key);
    FieldCuts(y, s, u, i, n, m, e);
    assert y[i] == y[i..n][0];
  }

  lemma LettersAreLetters(w: Word)
    ensures forall k :: 0 <= k < |Letters(w)| ==> Letters(w)[k] != '\n'
  {
  }

  /** A word does not reach over the end of a line. */
  lemma WordInLine(w: string, y: string, i: nat, word: Word)
    requires w != [] && w[|w| - 1] == '\n' && i < |w| && WordAt(w + y, i, word)
    ensures i + |Letters(word)| < |w|
  {
    hide Letters, WordAt;
    var k := |w| - 1 - i;
    assert (w + y)[i + k] == '\n';
    if k < |Letters(word)| {
      NoNewline(w + y, i, word, k);
    }
  }

  lemma NoNewline(t: string, i: nat, word: Word, k: nat)
    requires WordAt(t, i, word) && k < |Letters(word)|
    ensures i + k < |t| && t[i + k] != '\n'
  {
    Letter(t, i, word, k);
    LettersAreLetters(word);
  }

  lemma WordKept(w: string, x: string, y: string, i: nat, word: Word)
    requires i + |Letters(word)| <= |w| && WordAt(w + y, i, word)
    ensures WordAt(w + x, i, word)
  {
    hide Letters;
    forall k | 0 <= k < |Letters(word)|
      ensures Fold((w + x)[i + k]) == Letters(word)[k]
    {
      assert (w + x)[i + k] == w[i + k] == (w + y)[i + k];
      assert Fold((w + y)[i + k]) == Letters(word)[k];
    }
  }

  /** A word before a field is followed by an equals sign of its own line, or by none. */
  lemma KeyKept(w: string, x: string, y: string, i: nat, word: Word)
    requires w != [] && w[|w| - 1] == '\n' && i < |w| && StartsField(y) && KeyAt(w + y, i, word)
    ensures KeyAt(w + x, i, word)
  {
    hide Letters, WordAt, IsSpace;
    WordInLine(w, y, i, word);
    WordKept(w, x, y, i, word);
    var n := i + |Letters(word)|;
    SkipConcat(w, y, n);
    SkipConcat(w, x, n);
    var j := SkipSpaces(w, n);
    assert j < |w| && (w + y)[j] == w[j] == (w + x)[j];
    hide SkipSpaces;
  }

  lemma MatchIff(t: string)
    ensures Match(t).Some? <==> WordFound(t, SkipSpaces(t, 0)).Some?
  {
    hide WordFound, SkipSpaces, Letters;
  }

  /** Whether a line before a field matches does not depend on the field. */
  lemma NoneKept(w: string, s: Seg, u: string, y: string)
    requires w != [] && w[|w| - 1] == '\n' && Shape(s) && LineEnd(u) && StartsField(y)
    requires Match(w + y).Some?
    ensures Match(w + (SegText(s) + u)).Some?
  {
    var x := SegText(s) + u;
    hide Letters, WordAt, IsSpace, SegText, WordFound, Match, Shape, KeyAt, StartsField;
    var i := SkipSpaces(w, 0);
    MatchIff(w + x);
    MatchIff(w + y);
    SkipConcat(w, x, 0);
    SkipConcat(w, y, 0);
    if i < |w| {
      var word := WordFound(w + y, i).value;
      KeyKept(w, x, y, i, word);
      WordIsUnique(w + x, i, word);
    } else {
      assert AllSpace(w);
      IsSecret(s);
      var n := |w| + |s.lead|;
      var word := FieldFound(w + x, w, s, u, n, n + |s.key|, n + |s.key| + |s.eq|, n + |s.key| + |s.eq| + |s.rest|);
    }
  }

  predicate NewlineSeg(s: Seg) { s == Plain('\n') }

  /** Whether a line starts after the segment. */
  predicate IsNewline(s: Seg) { s.Plain? && s.c == '\n' }

  predicate FieldInLines(segs: seq<Seg>, bol: bool, k: nat)
    requires k < |segs|
  {
    Shape(segs[k]) && (if k > 0 then NewlineSeg(segs[k - 1]) else bol) && (k + 1 < |segs| ==> NewlineSeg(segs[k + 1]))
  }

  /** In scanned segments each field is at the start of a line and followed by the end of one. */
  predicate InLines(segs: seq<Seg>, bol: bool) {
    forall k :: 0 <= k < |segs| && segs[k].Secret? ==> FieldInLines(segs, bol, k)
  }

  lemma InLinesTail(x: Seg, rest: seq<Seg>, bol: bool)
    ensures InLines([x] + rest, bol) <==>
            InLines(rest, IsNewline(x)) && (x.Secret? ==> bol && Shape(x) && (rest != [] ==> NewlineSeg(rest[0])))
  {
    hide Shape, NewlineSeg;
    var all := [x] + rest;
    assert forall k :: 0 <= k < |rest| ==> all[k + 1] == rest[k];
    if InLines(all, bol) {
      assert x.Secret? ==> FieldInLines(all, bol, 0);
      forall k | 0 <= k < |rest| && rest[k].Secret?
        ensures FieldInLines(rest, IsNewline(x), k)
      {
        assert FieldInLines(all, bol, k + 1);
        assert k > 0 ==> all[k] == rest[k - 1];
        NewlineIff(x);
      }
    }
    if InLines(rest, IsNewline(x)) && (x.Secret? ==> bol && Shape(x) && (rest != [] ==> NewlineSeg(rest[0]))) {
      forall k | 0 <= k < |all| && all[k].Secret?
        ensures FieldInLines(all, bol, k)
      {
        if k > 0 {
          assert FieldInLines(rest, IsNewline(x), k - 1);
          assert k > 1 ==> all[k - 1] == rest[k - 2];
          NewlineIff(x);
        }
      }
    }
  }

  lemma NewlineIff(x: Seg)
    ensures NewlineSeg(x) <==> IsNewline(x)
  {
  }

  lemma {:induction false} ScanInLines(t: string, bol: bool)
    ensures InLines(Scan(t, bol), bol)
    decreases |t|
  {
    hide InLines, Match, SegText, Shape;
    if t == [] {
      NothingInLines(Scan(t, bol), bol);
    } else if bol && Match(t).Some? {
      MatchShape(t);
      var m := Match(t).value;
      var u := t[|SegText(m)|..];
      ScanInLines(u, false);
      InLinesTail(m, Scan(u, false), bol);
      IsSecret(m);
    } else {
      ScanInLines(t[1..], t[0] == '\n');
      InLinesTail(Plain(t[0]), Scan(t[1..], t[0] == '\n'), bol);
    }
  }

  lemma IsSecret(s: Seg)
    requires Shape(s)
    ensures s.Secret?
  {
  }

  lemma NothingInLines(segs: seq<Seg>, bol: bool)
    requires segs == []
    ensures InLines(segs, bol)
  {
  }

  /** `b` has other fields where `a` has fields, and is the same elsewhere. */
  predicate Similar(a: seq<Seg>, b: seq<Seg>) {
    |a| == |b| && forall k :: 0 <= k < |a| ==> if a[k].Secret? then Shape(b[k]) else b[k] == a[k]
  }

  lemma {:induction false} UnscanConcat(a: seq<Seg>, b: seq<Seg>)
    ensures Unscan(a + b) == Unscan(a) + Unscan(b)
  {
    if a == [] {
      assert a + b == b;
    } else {
      hide SegText;
      TailConcat(a, b);
      UnscanConcat(a[1..], b);
      Assoc(SegText(a[0]), Unscan(a[1..]), Unscan(b));
    }
  }

  lemma ScanField(s: Seg, u: string)
    requires Shape(s) && LineEnd(u)
    ensures Scan(SegText(s) + u, true) == [s] + Scan(u, false)
  {
    MatchIs(s, u);
    FieldText(s);
    hide Match, Shape, SegText;
    var t := SegText(s) + u;
    assert t[|SegText(s)|..] == u;
  }

  lemma FieldText(s: Seg)
    requires Shape(s)
    ensures SegText(s) != []
  {
  }

  lemma ScanPlain(c: char, u: string, bol: bool)
    requires !(bol && Match([c] + u).Some?)
    ensures Scan([c] + u, bol) == [Plain(c)] + Scan(u, c == '\n')
  {
    hide Match;
    assert ([c] + u)[1..] == u;
  }

  lemma UnscanHead(a: seq<Seg>)
    requires a != []
    ensures Unscan(a) == SegText(a[0]) + Unscan(a[1..])
  {
  }

  /** The segments after the first are what scanning the rest gives. */
  lemma CanonTail(a: seq<Seg>, bol: bool)
    requires Canon(a, bol) && a != []
    ensures Canon(a[1..], IsNewline(a[0])) && (a[0].Plain? && bol ==> Match(Unscan(a)).None?)
  {
    var t := Unscan(a);
    UnscanHead(a);
    hide Unscan;
    assert t == [] ==> Scan(t, bol) == [];
    if bol && Match(t).Some? {
      MatchShape(t);
      var m := Match(t).value;
      IsSecret(m);
      hide Match, Shape, SegText;
      assert a == [m] + Scan(t[|SegText(m)|..], false);
      assert a[0] == m && a[1..] == Scan(t[|SegText(m)|..], false);
      SkipHead(SegText(m), Unscan(a[1..]));
    } else {
      hide Match;
      assert a == [Plain(t[0])] + Scan(t[1..], t[0] == '\n');
      assert a[0] == Plain(t[0]) && a[1..] == Scan(t[1..], t[0] == '\n');
      SkipHead(SegText(a[0]), Unscan(a[1..]));
    }
  }

  lemma SkipHead(a: string, b: string)
    ensures (a + b)[|a|..] == b
  {
  }

  lemma TailLineEnd(segs: seq<Seg>)
    requires segs != [] ==> NewlineSeg(segs[0])
    ensures LineEnd(Unscan(segs))
  {
  }

  /** The characters before the first field. */
  lemma NoneExchange(a: seq<Seg>, b: seq<Seg>, bol: bool)
    requires InLines(a, bol) && Similar(a, b) && a != [] && a[0].Plain?
    requires Match(Unscan(b)).Some?
    ensures Match(Unscan(a)).Some?
  {
    hide Match, SegText, LineEnd;
    if forall k :: 0 <= k < |a| ==> a[k].Plain? {
      assert a == b;
    } else {
      var j := FirstField(a);
      assert FieldInLines(a, bol, j) && Shape(b[j]);
      hide Shape;
      var w := Unscan(a[..j]);
      assert a[..j] == b[..j];
      LastChar(a[..j]);
      CutAt(a, j);
      CutAt(b, j);
      hide InLines, Unscan;
      assert a[j + 1..] != [] ==> a[j + 1..][0] == b[j + 1..][0] == a[j + 1];
      TailLineEnd(a[j + 1..]);
      TailLineEnd(b[j + 1..]);
      FieldStarts(b[j], Unscan(b[j + 1..]));
      NoneKept(w, a[j], Unscan(a[j + 1..]), SegText(b[j]) + Unscan(b[j + 1..]));
    }
  }

  lemma FirstField(a: seq<Seg>) returns (j: nat)
    requires exists k :: 0 <= k < |a| && a[k].Secret?
    ensures j < |a| && a[j].Secret? && forall k :: 0 <= k < j ==> a[k].Plain?
  {
    j := 0;
    while a[j].Plain?
      invariant j < |a| && forall k :: 0 <= k < j ==> a[k].Plain?
      decreases |a| - j
    {
      j := j + 1;
    }
  }

  lemma LastChar(segs: seq<Seg>)
    requires segs != [] && NewlineSeg(segs[|segs| - 1])
    ensures Unscan(segs) != [] && Unscan(segs)[|Unscan(segs)| - 1] == '\n'
  {
    var front, last := segs[..|segs| - 1], segs[|segs| - 1];
    assert segs == front + [last];
    UnscanConcat(front, [last]);
    UnscanHead([last]);
    assert Unscan([last]) == "\n";
  }

  lemma CutAt(a: seq<Seg>, j: nat)
    requires j < |a|
    ensures Unscan(a) == Unscan(a[..j]) + (SegText(a[j]) + Unscan(a[j + 1..]))
  {
    assert a == a[..j] + a[j..];
    UnscanConcat(a[..j], a[j..]);
    UnscanHead(a[j..]);
    assert a[j..][1..] == a[j + 1..];
  }

  /** When fields are exchanged for other fields, the text is still scanned as it was put together. */
  lemma {:induction false} Resecret(a: seq<Seg>, b: seq<Seg>, bol: bool)
    requires Canon(a, bol) && Similar(a, b)
    ensures Canon(b, bol)
    decreases |a|
  {
    hide Match, SegText, LineEnd, Shape;
    if a == [] {
      assert b == [];
    } else {
      CanonTail(a, bol);
      ScanInLines(Unscan(a), bol);
      UnscanHead(b);
      assert b == [b[0]] + b[1..];
      Resecret(a[1..], b[1..], IsNewline(a[0]));
      if a[0].Secret? {
        assert FieldInLines(a, bol, 0);
        assert b[1..] != [] ==> b[1..][0] == a[1];
        TailLineEnd(b[1..]);
        ScanField(b[0], Unscan(b[1..]));
      } else {
        if bol && Match(Unscan(b)).Some? {
          NoneExchange(a, b, bol);
        }
        OneChar(b[0]);
        ScanPlain(b[0].c, Unscan(b[1..]), bol);
      }
    }
  }

  lemma OneChar(s: Seg)
    requires s.Plain?
    ensures SegText(s) == [s.c]
  {
  }

  // ------------------------------------------------------------------------------------------------
  // Redacting
  // ------------------------------------------------------------------------------------------------

  const MASK: string := " ******** (redacted)"

  function Hide(s: Seg): Seg { if s.Secret? then s.(rest := MASK) else s }

  function HideAll(segs: seq<Seg>): (h: seq<Seg>)
    ensures |h| == |segs| && forall k :: 0 <= k < |segs| ==> h[k] == Hide(segs[k])
  {
    seq(|segs|, k requires 0 <= k < |segs| => Hide(segs[k]))
  }

  /** redact_sensitive. */
  function Redact(t: string): string { Unscan(HideAll(Scan(t, true))) }

  lemma ScanIsCanon(t: string)
    ensures Canon(Scan(t, true), true) && InLines(Scan(t, true), true)
  {
    UnscanScan(t, true);
    ScanInLines(t, true);
  }

  lemma HideShape(s: Seg)
    requires Shape(s)
    ensures Shape(Hide(s))
  {
    hide AllSpace, KeyShape;
  }

  lemma HiddenIsSimilar(segs: seq<Seg>, bol: bool)
    requires InLines(segs, bol)
    ensures Similar(segs, HideAll(segs))
  {
    forall k | 0 <= k < |segs| && segs[k].Secret?
      ensures Shape(Hide(segs[k]))
    {
      assert FieldInLines(segs, bol, k);
      HideShape(segs[k]);
    }
    hide Shape;
  }

  /** The redacted text has the same fields, each with the mask as its value. */
  lemma ScanRedact(t: string)
    ensures Scan(Redact(t), true) == HideAll(Scan(t, true))
  {
    ScanIsCanon(t);
    HiddenIsSimilar(Scan(t, true), true);
    Resecret(Scan(t, true), HideAll(Scan(t, true)), true);
    hide Scan, Unscan;
  }

  /** Two texts look the same to the browser exactly when they differ in secret values only. */
  lemma RedactIff(t: string, u: string)
    ensures Redact(t) == Redact(u) <==> HideAll(Scan(t, true)) == HideAll(Scan(u, true))
  {
    ScanRedact(t);
    ScanRedact(u);
    hide Scan, Unscan;
  }

  /** Whatever the secret values are exchanged for, the redacted text stays the same. */
  lemma RedactIsIndependent(t: string, segs: seq<Seg>)
    requires Similar(Scan(t, true), segs) && HideAll(segs) == HideAll(Scan(t, true))
    ensures Redact(Unscan(segs)) == Redact(t)
  {
    ScanIsCanon(t);
    Resecret(Scan(t, true), segs, true);
    hide Scan, Unscan;
  }

  lemma RedactTwice(t: string)
    ensures Redact(Redact(t)) == Redact(t)
  {
    ScanRedact(t);
    hide Scan, Unscan;
    var h := HideAll(Scan(t, true));
    assert HideAll(h) == h;
  }

  // ------------------------------------------------------------------------------------------------
  // Merging
  // ------------------------------------------------------------------------------------------------

  datatype Merged = Merged(text: string) | Edited(key: string) | Missing(keys: set<string>)

  /** The fields of the original text by key; of two with one key the later counts. */
  function Originals(segs: seq<Seg>): map<string, Seg> {
    if segs == [] then map[]
    else
      var last := segs[|segs| - 1];
      if last.Secret? then Originals(segs[..|segs| - 1])[Lower(last.key) := last] else Originals(segs[..|segs| - 1])
  }

  predicate Contains(t: string, word: string) { exists i {:trigger t[i..]} :: 0 <= i <= |t| && word <= t[i..] }

  predicate Masked(s: Seg) { s.Secret? && Contains(s.rest, "(redacted)") }

  function Restore(s: Seg, originals: map<string, Seg>): Seg {
    if s.Secret? && Lower(s.key) in originals then originals[Lower(s.key)] else s
  }

  function RestoreAll(segs: seq<Seg>, originals: map<string, Seg>): (r: seq<Seg>)
    ensures |r| == |segs| && forall k :: 0 <= k < |segs| ==> r[k] == Restore(segs[k], originals)
  {
    seq(|segs|, k requires 0 <= k < |segs| => Restore(segs[k], originals))
  }

  /** The first field whose value the user has changed. */
  function FirstEdited(segs: seq<Seg>): (k: nat)
    ensures k <= |segs| && (k < |segs| ==> segs[k].Secret? && !Masked(segs[k]))
    ensures forall i :: 0 <= i < k ==> segs[i].Plain? || Masked(segs[i])
  {
    if segs == [] || (segs[0].Secret? && !Masked(segs[0])) then 0 else 1 + FirstEdited(segs[1..])
  }

  function KeysOf(segs: seq<Seg>): set<string> { set s | s in segs && s.Secret? :: Lower(s.key) }

  /** merge_sensitive. */
  function Merge(original: string, submitted: string): Merged {
    var originals := Originals(Scan(original, true));
    var segs := Scan(submitted, true);
    var k := FirstEdited(segs);
    if k < |segs| then Edited(Lower(segs[k].key))
    else if originals.Keys - KeysOf(segs) != {} then Missing(originals.Keys - KeysOf(segs))
    else Merged.Merged(Unscan(RestoreAll(segs, originals)))
  }

  /** Each entry is the last field with its key. */
  lemma {:induction false} OriginalsAre(segs: seq<Seg>, bol: bool, key: string)
    requires InLines(segs, bol)
    ensures key in Originals(segs) <==> key in KeysOf(segs)
    ensures key in Originals(segs) ==>
              Shape(Originals(segs)[key]) && Originals(segs)[key] in segs && Lower(Originals(segs)[key].key) == key
  {
    hide Shape, Lower;
    if segs != [] {
      var front, last := segs[..|segs| - 1], segs[|segs| - 1];
      assert segs == front + [last];
      InLinesFront(segs, bol);
      OriginalsAre(front, bol, key);
      assert last.Secret? ==> FieldInLines(segs, bol, |segs| - 1);
      assert forall s :: s in segs <==> s in front || s == last;
      hide InLines;
    }
  }

  lemma InLinesFront(segs: seq<Seg>, bol: bool)
    requires segs != [] && InLines(segs, bol)
    ensures InLines(segs[..|segs| - 1], bol)
  {
    hide Shape, NewlineSeg;
    var front := segs[..|segs| - 1];
    forall k | 0 <= k < |front| && front[k].Secret?
      ensures FieldInLines(front, bol, k)
    {
      assert FieldInLines(segs, bol, k);
    }
  }

  lemma RestoredIsSimilar(segs: seq<Seg>, originals: map<string, Seg>)
    requires InLines(segs, true) && forall key :: key in originals ==> Shape(originals[key])
    ensures Similar(segs, RestoreAll(segs, originals))
  {
    hide Shape, Lower;
    forall k | 0 <= k < |segs| && segs[k].Secret?
      ensures Shape(Restore(segs[k], originals))
    {
      assert FieldInLines(segs, true, k);
    }
  }

  /** The fields of the merged text. */
  lemma ScanMerged(original: string, submitted: string)
    requires Merge(original, submitted).Merged?
    ensures Scan(Merge(original, submitted).text, true) ==
            RestoreAll(Scan(submitted, true), Originals(Scan(original, true)))
  {
    var originals := Originals(Scan(original, true));
    var segs := Scan(submitted, true);
    ScanIsCanon(original);
    ScanIsCanon(submitted);
    forall key | key in originals
      ensures Shape(originals[key])
    {
      OriginalsAre(Scan(original, true), true, key);
    }
    RestoredIsSimilar(segs, originals);
    Resecret(segs, RestoreAll(segs, originals), true);
    hide Scan, Unscan;
  }

  /** Whatever the user submits: if it is accepted, every secret field of the original is in the result,
      and every field of the result with such a key is that of the original, to the last character. */
  lemma MergeProtects(original: string, submitted: string, key: string)
    requires Merge(original, submitted).Merged? && key in Originals(Scan(original, true))
    ensures var segs := Scan(Merge(original, submitted).text, true);
            key in KeysOf(segs) &&
            forall k :: 0 <= k < |segs| && segs[k].Secret? && Lower(segs[k].key) == key ==>
              segs[k] == Originals(Scan(original, true))[key]
  {
    var originals := Originals(Scan(original, true));
    ScanMerged(original, submitted);
    ScanIsCanon(original);
    assert key in KeysOf(Scan(submitted, true)) by {
      AllSubmitted(original, submitted, key);
    }
    forall other | other in originals
      ensures originals[other].Secret? && Lower(originals[other].key) == other
    {
      OriginalsAre(Scan(original, true), true, other);
      IsSecret(originals[other]);
    }
    hide *;
    RestoredHas(Scan(submitted, true), originals, key);
  }

  lemma AllSubmitted(original: string, submitted: string, key: string)
    requires Merge(original, submitted).Merged? && key in Originals(Scan(original, true))
    ensures key in KeysOf(Scan(submitted, true))
  {
    hide Scan, Unscan, Lower, Originals, KeysOf;
    var missing := Originals(Scan(original, true)).Keys - KeysOf(Scan(submitted, true));
    assert missing == {};
    assert key !in missing;
  }

  lemma RestoredHas(was: seq<Seg>, originals: map<string, Seg>, key: string)
    requires key in originals && key in KeysOf(was)
    requires forall k :: k in originals ==> originals[k].Secret? && Lower(originals[k].key) == k
    ensures var segs := RestoreAll(was, originals);
            key in KeysOf(segs) &&
            forall k :: 0 <= k < |segs| && segs[k].Secret? && Lower(segs[k].key) == key ==> segs[k] == originals[key]
  {
    hide Lower;
    var segs := RestoreAll(was, originals);
    var k :| 0 <= k < |was| && was[k].Secret? && Lower(was[k].key) == key;
    assert segs[k] == originals[key] && segs[k] in segs;
  }

  predicate SameKey(a: Seg, b: Seg) { a.Secret? && b.Secret? && Lower(a.key) == Lower(b.key) }

  /** Fields with the same key are written the same. */
  ghost predicate KeysAgree(segs: seq<Seg>) {
    forall i, j :: 0 <= i < |segs| && 0 <= j < |segs| && SameKey(segs[i], segs[j]) ==> segs[i] == segs[j]
  }

  lemma MaskIsMasked(s: Seg)
    requires s.Secret? && s.rest == MASK
    ensures Masked(s)
  {
    assert "(redacted)" <= MASK[10..];
  }

  /** What the browser was shown comes back as a text; it is the original exactly when fields with the same
      key are written the same in it, in particular when each key occurs once. */
  lemma RoundTripIff(t: string)
    ensures Merge(t, Redact(t)).Merged?
    ensures Merge(t, Redact(t)).text == t <==> KeysAgree(Scan(t, true))
  {
    var segs := Scan(t, true);
    var originals := Originals(segs);
    ScanRedact(t);
    ScanIsCanon(t);
    UnscanScan(t, true);
    RedactedIsMasked(segs);
    forall key
      ensures key in originals <==> key in KeysOf(segs)
    {
      OriginalsAre(segs, true, key);
    }
    HiddenKeys(segs);
    hide Scan, Unscan, Originals, Lower, KeysOf;
    assert Merge(t, Redact(t)).Merged?;
    ScanMerged(t, Redact(t));
    RestoresIff(segs);
  }

  /** Two fields with one key that are written differently are not both restored. */
  lemma RepeatedKeyIsNotRestored(a: Seg, b: Seg)
    requires Shape(a) && Shape(b) && SameKey(a, b) && a != b
    ensures var t := SegText(a) + ("\n" + SegText(b));
            Merge(t, Redact(t)).Merged? && Merge(t, Redact(t)).text != t
  {
    var t := SegText(a) + ("\n" + SegText(b));
    TwoFields(a, b);
    RoundTripIff(t);
    var segs := [a, Plain('\n'), b];
    hide *;
    KeysDiffer(segs, 0, 2);
  }

  lemma TwoFields(a: Seg, b: Seg)
    requires Shape(a) && Shape(b)
    ensures Scan(SegText(a) + ("\n" + SegText(b)), true) == [a, Plain('\n'), b]
  {
    NothingScans();
    hide *;
    ScanField(a, "\n" + SegText(b));
    ScanPlain('\n', SegText(b), false);
    ScanField(b, []);
    assert SegText(b) + [] == SegText(b);
  }

  lemma NothingScans()
    ensures LineEnd([]) && (forall u :: LineEnd("\n" + u)) && Scan([], false) == []
  {
  }

  lemma KeysDiffer(segs: seq<Seg>, i: nat, j: nat)
    requires i < |segs| && j < |segs| && SameKey(segs[i], segs[j]) && segs[i] != segs[j]
    ensures !KeysAgree(segs)
  {
  }

  /** The two lines k=1 and k=2 do not come back. */
  lemma RoundTripFails()
    ensures var t := "k=1" + ("\n" + "k=2");
            Merge(t, Redact(t)).Merged? && Merge(t, Redact(t)).text != t
  {
    var a, b := Secret([], "k", "=", "1"), Secret([], "k", "=", "2");
    assert IsKey("k", K);
    assert SegText(a) == "k=1" && SegText(b) == "k=2";
    hide KeyShape, Merge, Redact, SegText, Lower;
    RepeatedKeyIsNotRestored(a, b);
  }

  lemma RedactedIsMasked(segs: seq<Seg>)
    ensures FirstEdited(HideAll(segs)) == |segs|
  {
    hide Contains;
    var k := FirstEdited(HideAll(segs));
    if k < |segs| && segs[k].Secret? {
      MaskIsMasked(HideAll(segs)[k]);
    }
  }

  lemma HiddenKeys(segs: seq<Seg>)
    ensures KeysOf(HideAll(segs)) == KeysOf(segs)
  {
    hide Lower;
    var h := HideAll(segs);
    forall key
      ensures key in KeysOf(h) <==> key in KeysOf(segs)
    {
      if key in KeysOf(h) {
        var k :| 0 <= k < |h| && h[k].Secret? && Lower(h[k].key) == key;
        assert segs[k] in segs;
      }
      if key in KeysOf(segs) {
        var k :| 0 <= k < |segs| && segs[k].Secret? && Lower(segs[k].key) == key;
        assert h[k] in h;
      }
    }
  }

  lemma RestoresIff(segs: seq<Seg>)
    requires InLines(segs, true)
    ensures RestoreAll(HideAll(segs), Originals(segs)) == segs <==> KeysAgree(segs)
  {
    var originals := Originals(segs);
    var r := RestoreAll(HideAll(segs), originals);
    forall k | 0 <= k < |segs| && segs[k].Secret?
      ensures Lower(segs[k].key) in originals && r[k] == originals[Lower(segs[k].key)] && r[k] in segs &&
              r[k].Secret? && Lower(r[k].key) == Lower(segs[k].key)
    {
      assert segs[k] in segs;
      OriginalsAre(segs, true, Lower(segs[k].key));
      IsSecret(originals[Lower(segs[k].key)]);
    }
    hide Originals, Lower, InLines, Shape;
    assert forall k :: 0 <= k < |segs| && segs[k].Plain? ==> r[k] == segs[k];
    if KeysAgree(segs) {
      forall k | 0 <= k < |segs|
        ensures r[k] == segs[k]
      {
        if segs[k].Secret? {
          var j :| 0 <= j < |segs| && segs[j] == r[k];
        }
      }
    }
  }

  // ------------------------------------------------------------------------------------------------
  // The program
  // ------------------------------------------------------------------------------------------------

  /** The dict comprehension over the matches of the original. */
  method CollectOriginals(segs: seq<Seg>) returns (originals: map<string, Seg>)
    ensures originals == Originals(segs)
  {
    originals := map[];
    for n := 0 to |segs|
      invariant originals == Originals(segs[..n])
    {
      assert segs[..n + 1][..n] == segs[..n];
      if segs[n].Secret? {
        originals := originals[Lower(segs[n].key) := segs[n]];
      }
    }
    assert segs[..|segs|] == segs;
  }

  /** merge_sensitive: the substitution over the submitted text, which stops at the first edited field. */
  method MergeSensitive(original: string, submitted: string) returns (r: Merged)
    ensures r == Merge(original, submitted)
  {
    var originals := CollectOriginals(Scan(original, true));
    var segs := Scan(submitted, true);
    var seen: set<string> := {};
    var merged := [];
    hide *;
    NoKeys(segs);
    for n := 0 to |segs|
      invariant n <= FirstEdited(segs)
      invariant seen == KeysOf(segs[..n]) && merged == RestoreAll(segs, originals)[..n]
    {
      KeysSnoc(segs, n);
      if segs[n].Secret? {
        var key := Lower(segs[n].key);
        seen := seen + {key};
        if !Masked(segs[n]) {
          MergeEdited(original, submitted, n);
          return Edited(key);
        }
      }
      RestoreSnoc(segs, originals, n);
      merged := merged + [Restore(segs[n], originals)];
    }
    assert segs[..|segs|] == segs;
    assert RestoreAll(segs, originals)[..|segs|] == RestoreAll(segs, originals);
    MergeEnds(original, submitted);
    var missing := originals.Keys - seen;
    if missing != {} {
      return Missing(missing);
    }
    r := Merged.Merged(Unscan(merged));
  }

  lemma MergeEdited(original: string, submitted: string, n: nat)
    requires n <= FirstEdited(Scan(submitted, true)) && n < |Scan(submitted, true)|
    requires Scan(submitted, true)[n].Secret? && !Masked(Scan(submitted, true)[n])
    ensures Merge(original, submitted) == Edited(Lower(Scan(submitted, true)[n].key))
  {
    hide Scan, Lower, Masked;
  }

  lemma MergeEnds(original: string, submitted: string)
    requires FirstEdited(Scan(submitted, true)) == |Scan(submitted, true)|
    ensures var originals, segs := Originals(Scan(original, true)), Scan(submitted, true);
            var missing := originals.Keys - KeysOf(segs);
            Merge(original, submitted) ==
            if missing != {} then Missing(missing) else Merged.Merged(Unscan(RestoreAll(segs, originals)))
  {
    hide Scan, Lower, Masked, Originals, Unscan, KeysOf, RestoreAll;
  }

  lemma NoKeys(segs: seq<Seg>)
    ensures KeysOf(segs[..0]) == {}
  {
  }

  lemma RestoreSnoc(segs: seq<Seg>, originals: map<string, Seg>, n: nat)
    requires n < |segs|
    ensures RestoreAll(segs, originals)[..n + 1] == RestoreAll(segs, originals)[..n] + [Restore(segs[n], originals)]
  {
    hide Restore;
  }

  lemma KeysSnoc(segs: seq<Seg>, n: nat)
    requires n < |segs|
    ensures KeysOf(segs[..n + 1]) == KeysOf(segs[..n]) + if segs[n].Secret? then {Lower(segs[n].key)} else {}
  {
    hide Lower;
    assert segs[..n + 1] == segs[..n] + [segs[n]];
    assert forall x :: x in segs[..n + 1] <==> x in segs[..n] || x == segs[n];
  }
}
