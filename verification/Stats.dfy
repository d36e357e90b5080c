/** The counter store of stats.c: 23 unsigned counters in a text file that is overwritten in place
    and never cut to size. */
module Stats {
  import opened Snprintf

  const STATS_END: nat := 23
  const STATS_TOCACHE: nat := 4
  const STATS_NUMFILES: nat := 11
  const STATS_TOTALSIZE: nat := 12
  const STATS_MAXFILES: nat := 13
  const STATS_MAXSIZE: nat := 14
  const DEFAULT_MAXSIZE: nat := 1000 * 1000
  const BUFFER: nat := 1024

  type Counter = x: int | 0 <= x < 0x1_0000_0000

  /** `unsigned` addition. */
  function Plus(a: Counter, b: int): Counter { (a + b) % TWO32 }

  // ----- The text ------------------------------------------------------------------------------

  /** What snprintf writes for "%u " and one counter. */
  function CounterText(c: Counter): string {
    LowDigits(c, 10, false, Length(c, 10)) + " "
  }

  function Body(counters: seq<Counter>): string {
    if counters == [] then "" else CounterText(counters[0]) + Body(counters[1..])
  }

  function StatsText(counters: seq<Counter>): string { Body(counters) + "\n" }

  lemma CounterLength(c: Counter)
    ensures Length(c, 10) <= 10
  {
    LengthPower(c, 10, 10);
    assert Power(10, 10) == 10_000_000_000;
  }

  lemma ReadPlain(f: string, i: nat, d: Directive)
    requires i < |f| && f[i] == 'u'
    ensures ReadFlags(f, i, d) == d.(next := i)
  {
    assert f[i..i] == "" && WithFlags(d.flags, "") == d.flags && Decimal(d.min, "") == d.min;
  }

  lemma ConvertUnsigned(c: Counter, fp: (real, int, int, Flags) -> string)
    ensures Convert('u', Directive(NO_FLAGS, 0, -1, NoModifier, 1, [Number(c)]), fp) ==
            LowDigits(c, 10, false, Length(c, 10))
  {
    hide LowDigits, Length, IntText;
    CounterLength(c);
    PlainUnsigned(c);
  }

  lemma PlainUnsigned(c: Counter)
    requires Length(c, 10) <= 10
    ensures IntText(c, 10, 0, -1, NO_FLAGS.(unsigned := true)) == LowDigits(c, 10, false, Length(c, 10))
  {
    hide LowDigits, Length;
  }

  lemma RenderSpace(fp: (real, int, int, Flags) -> string)
    ensures Render("%u ", 2, [], fp) == " "
  {
    RenderStep("%u ", 2, [], fp);
    assert Render("%u ", 3, [], fp) == "";
  }

  /** The "%u " of snprintf.c is the digits of the counter and a space. */
  lemma RenderCounter(c: Counter, fp: (real, int, int, Flags) -> string)
    ensures Render("%u ", 0, [Number(c)], fp) == CounterText(c)
  {
    hide ReadFlags, Convert, Render, LowDigits, Length;
    var f := "%u ";
    var d := Directive(NO_FLAGS, 0, -1, NoModifier, 0, [Number(c)]);
    RenderStep(f, 0, [Number(c)], fp);
    ReadPlain(f, 1, d);
    ConvertUnsigned(c, fp);
    RenderSpace(fp);
    assert [Number(c)][1..] == [];
  }

  // ----- strtol and parse_stats -----------------------------------------------------------------

  predicate IsSpace(c: char) { c == ' ' || '\t' <= c <= '\r' }

  function SpacesEnd(s: string, i: nat): (j: nat)
    requires i <= |s|
    ensures i <= j <= |s|
    decreases |s| - i
  {
    if i < |s| && IsSpace(s[i]) then SpacesEnd(s, i + 1) else i
  }

  function NumberEnd(s: string, i: nat): (j: nat)
    requires i <= |s|
    ensures i <= j <= |s| && (i < j ==> IsDigit(s[i]))
    decreases |s| - i
  {
    if i < |s| && IsDigit(s[i]) then NumberEnd(s, i + 1) else i
  }

  function ClampLong(v: int): int { Max(-TWO63, Min(v, TWO63 - 1)) }

  /** strtol in base 10 at offset `i`: white space, a sign, digits. Without digits the value is zero
      and the end is `i` itself. */
  function Strtol(s: string, i: nat): (r: (int, nat))
    requires i <= |s|
    ensures i <= r.1 <= |s|
  {
    var j := SpacesEnd(s, i);
    var k := if j < |s| && (s[j] == '-' || s[j] == '+') then j + 1 else j;
    var e := NumberEnd(s, k);
    if e == k then (0, i)
    else
      var v: int := ValueOf(s[k..e], 10);
      (ClampLong(if k > j && s[j] == '-' then -v else v), e)
  }

  /** parse_stats from counter `n` on: each number found is added to its counter. */
  function Parse(counters: seq<Counter>, n: nat, s: string, i: nat): (r: seq<Counter>)
    requires n <= |counters| && i <= |s|
    ensures |r| == |counters|
    decreases |counters| - n
  {
    if n == |counters| then counters
    else
      var (v, e) := Strtol(s, i);
      if e == i then counters
      else Parse(counters[n := Plus(counters[n], v)], n + 1, s, e)
  }

  lemma {:induction false} DigitsAreDigits(u: nat, k: nat)
    ensures forall j :: 0 <= j < k ==> IsDigit(LowDigits(u, 10, false, k)[j])
    decreases k
  {
    if k > 0 {
      DigitsAreDigits(u / 10, k - 1);
    }
  }

  lemma {:induction false} NumberSpan(s: string, i: nat, e: nat)
    requires i <= e < |s| && !IsDigit(s[e]) && forall j :: i <= j < e ==> IsDigit(s[j])
    ensures NumberEnd(s, i) == e
    decreases e - i
  {
    if i < e {
      NumberSpan(s, i + 1, e);
    }
  }

  lemma CounterShape(s: string, k: nat, c: Counter)
    requires k <= |s| && CounterText(c) <= s[k..]
    ensures var n := Length(c, 10);
            0 < n && k + n < |s| && s[k + n] == ' ' && s[k..k + n] == LowDigits(c, 10, false, n) &&
            forall j :: k <= j < k + n ==> IsDigit(s[j])
  {
    var n := Length(c, 10);
    DigitsAreDigits(c, n);
    hide LowDigits, Length;
    var text := CounterText(c);
    assert forall j :: 0 <= j <= n ==> s[k + j] == s[k..][j] == text[j];
    assert forall j :: k <= j < k + n ==> s[j] == text[j - k];
  }

  /** strtol reads one printed counter back, after at most one space, and stops at the space. */
  lemma StrtolReadsCounter(s: string, i: nat, k: nat, c: Counter)
    requires i <= k <= i + 1 && k <= |s| && (i < k ==> s[i] == ' ')
    requires CounterText(c) <= s[k..]
    ensures Strtol(s, i) == (c, k + Length(c, 10))
  {
    hide *;
    var n := Length(c, 10);
    CounterShape(s, k, c);
    DigitsReadBack(c);
    SpaceIsNoDigit();
    SpaceBefore(s, i, k);
    NumberSpan(s, k, k + n);
    PlainNumber(s, i, k, k + n, c);
  }

  lemma SpaceIsNoDigit()
    ensures !IsDigit(' ')
  {
  }

  lemma SpaceBefore(s: string, i: nat, k: nat)
    requires i <= k <= i + 1 && k < |s| && (i < k ==> s[i] == ' ') && IsDigit(s[k])
    ensures SpacesEnd(s, i) == k
  {
    assert SpacesEnd(s, k) == k;
  }

  /** A number without a sign that fits in a long. */
  lemma PlainNumber(s: string, i: nat, k: nat, e: nat, c: Counter)
    requires i <= k < e <= |s| && SpacesEnd(s, i) == k && IsDigit(s[k]) && NumberEnd(s, k) == e &&
             ValueOf(s[k..e], 10) == c
    ensures Strtol(s, i) == (c, e)
  {
    hide SpacesEnd, NumberEnd, ValueOf;
  }

  lemma DigitsReadBack(c: Counter)
    ensures ValueOf(LowDigits(c, 10, false, Length(c, 10)), 10) == c
  {
    CounterLength(c);
    LowDigitsValue(c, 10, false, Length(c, 10));
    LengthPower(c, 10, Length(c, 10));
    SmallRemainder(c, Power(10, Length(c, 10)));
  }

  function Zeros(n: nat): seq<Counter> { seq(n, _ => 0) }

  function Added(a: seq<Counter>, b: seq<Counter>): (r: seq<Counter>)
    requires |a| == |b|
    ensures |r| == |a|
  {
    if a == [] then [] else [Plus(a[0], b[0])] + Added(a[1..], b[1..])
  }

  lemma {:induction false} AddedToZeros(c: seq<Counter>)
    ensures Added(Zeros(|c|), c) == c
    decreases |c|
  {
    if c != [] {
      AddedToZeros(c[1..]);
      assert Zeros(|c|)[1..] == Zeros(|c| - 1);
    }
  }

  lemma ParseStep(base: seq<Counter>, n: nat, s: string, i: nat, v: int, e: nat)
    requires n < |base| && i < e <= |s| && Strtol(s, i) == (v, e)
    ensures Parse(base, n, s, i) == Parse(base[n := Plus(base[n], v)], n + 1, s, e)
  {
  }

  lemma BodySplits(written: seq<Counter>, s: string, k: nat)
    requires written != [] && k <= |s| && Body(written) <= s[k..]
    ensures CounterText(written[0]) <= s[k..]
    ensures var e := k + Length(written[0], 10) + 1; e <= |s| && Body(written[1..]) <= s[e..]
  {
    var t, rest := CounterText(written[0]), Body(written[1..]);
    assert Body(written) == t + rest && |t| == Length(written[0], 10) + 1;
    hide Length, LowDigits, Body, CounterText;
    assert s[k..][|t|..] == s[k + |t|..];
  }

  /** From counter `n` on, the counters written are added, whatever follows them in the file. */
  lemma {:induction false} ParseAdds(base: seq<Counter>, n: nat, written: seq<Counter>, s: string, i: nat, k: nat)
    requires n <= |base| && |written| == |base| - n
    requires i <= k <= |s| && k <= i + 1 && (i < k ==> s[i] == ' ')
    requires Body(written) <= s[k..]
    ensures Parse(base, n, s, i) == base[..n] + Added(base[n..], written)
    decreases |written|
  {
    hide *;
    if n < |base| {
      var c := written[0];
      var e := k + Length(c, 10);
      var next := base[n := Plus(base[n], c)];
      AddedStep(base, n, written, next);
      BodySplits(written, s, k);
      StrtolReadsCounter(s, i, k, c);
      CounterShape(s, k, c);
      ParseStep(base, n, s, i, c, e);
      ParseAdds(next, n + 1, written[1..], s, e, e + 1);
    } else {
      AddedNothing(base, n, written, s, i);
    }
  }

  lemma AddedStep(base: seq<Counter>, n: nat, written: seq<Counter>, next: seq<Counter>)
    requires n < |base| && |written| == |base| - n && next == base[n := Plus(base[n], written[0])]
    ensures base[..n] + Added(base[n..], written) == next[..n + 1] + Added(next[n + 1..], written[1..])
  {
    hide Plus, Added;
    AddedCons(base[n..], written);
    UpdateCuts(base, n, next[n]);
    Chain(base[..n], [next[n]], Added(next[n + 1..], written[1..]));
  }

  lemma AddedCons(a: seq<Counter>, b: seq<Counter>)
    requires |a| == |b| && a != []
    ensures Added(a, b) == [Plus(a[0], b[0])] + Added(a[1..], b[1..])
  {
  }

  lemma UpdateCuts(s: seq<Counter>, n: nat, c: Counter)
    requires n < |s|
    ensures s[n := c][..n + 1] == s[..n] + [c] && s[n := c][n + 1..] == s[n..][1..] && s[n..][0] == s[n]
  {
  }

  lemma Chain(a: seq<Counter>, b: seq<Counter>, c: seq<Counter>)
    ensures a + (b + c) == (a + b) + c
  {
  }

  lemma AddedNothing(base: seq<Counter>, n: nat, written: seq<Counter>, s: string, i: nat)
    requires n == |base| && written == [] && i <= |s|
    ensures Parse(base, n, s, i) == base[..n] + Added(base[n..], written)
  {
  }

  /** Main result: whatever a longer earlier file left behind, the counters written are the ones
      added, so zeroed counters read back what was written. */
  lemma ParseAfterWrite(base: seq<Counter>, counters: seq<Counter>, stale: string)
    requires |base| == |counters|
    ensures Parse(base, 0, StatsText(counters) + stale, 0) == Added(base, counters)
    ensures base == Zeros(|base|) ==> Parse(base, 0, StatsText(counters) + stale, 0) == counters
  {
    hide Body, Added, Parse;
    var s := StatsText(counters) + stale;
    assert s[0..] == Body(counters) + ("\n" + stale);
    ParseAdds(base, 0, counters, s, 0, 0);
    assert base[0..] == base && base[..0] == [];
    AddedToZeros(counters);
  }

  // ----- The file ------------------------------------------------------------------------------

  lemma {:induction false} BodyLength(counters: seq<Counter>)
    ensures |Body(counters)| <= 11 * |counters|
    decreases |counters|
  {
    if counters != [] {
      CounterLength(counters[0]);
      BodyLength(counters[1..]);
    }
  }

  lemma {:induction false} BodyAppend(counters: seq<Counter>, c: Counter)
    ensures Body(counters + [c]) == Body(counters) + CounterText(c)
    decreases |counters|
  {
    hide CounterText;
    if counters == [] {
      assert [c][1..] == [];
    } else {
      assert (counters + [c])[1..] == counters[1..] + [c];
      BodyAppend(counters[1..], c);
    }
  }

  /** The counters of a new file: only the size limit is set. */
  const DEFAULTS: seq<Counter> := Zeros(STATS_END)[STATS_MAXSIZE := DEFAULT_MAXSIZE / 16]

  /** What one update does to the counters. */
  function Updated(c: seq<Counter>, stat: nat, size: nat, numfiles: nat): (r: seq<Counter>)
    requires |c| == STATS_END && stat < STATS_END
    ensures |r| == STATS_END
  {
    var c := c[stat := Plus(c[stat], 1)];
    if stat != STATS_TOCACHE then c
    else
      var c := c[STATS_NUMFILES := Plus(c[STATS_NUMFILES], numfiles)];
      c[STATS_TOTALSIZE := Plus(c[STATS_TOTALSIZE], size)]
  }

  /** A limit is exceeded. */
  predicate Exceeds(c: seq<Counter>)
    requires |c| == STATS_END
  {
    (c[STATS_MAXFILES] != 0 && c[STATS_NUMFILES] > c[STATS_MAXFILES]) ||
    (c[STATS_MAXSIZE] != 0 && c[STATS_TOTALSIZE] > c[STATS_MAXSIZE])
  }

  /** The counters with what a cleanup has counted. */
  function Recorded(c: seq<Counter>, numFiles: nat, totalSize: nat): (r: seq<Counter>)
    requires |c| == STATS_END
    ensures |r| == STATS_END
  {
    c[STATS_NUMFILES := numFiles % TWO32][STATS_TOTALSIZE := totalSize % TWO32]
  }

  // ----- Many updates --------------------------------------------------------------------------

  /** One call of stats_update_size. */
  datatype Change = Change(stat: nat, size: nat, numfiles: nat)

  predicate Known(changes: seq<Change>) { forall i :: 0 <= i < |changes| ==> changes[i].stat < STATS_END }

  function UpdatedAll(c: seq<Counter>, changes: seq<Change>): (r: seq<Counter>)
    requires |c| == STATS_END && Known(changes)
    ensures |r| == STATS_END
  {
    if changes == [] then c
    else
      var last := changes[|changes| - 1];
      Updated(UpdatedAll(c, changes[..|changes| - 1]), last.stat, last.size, last.numfiles)
  }

  /** What one update contributes to counter `k`. */
  function Share(ch: Change, k: nat): nat {
    (if ch.stat == k then 1 else 0) +
    (if ch.stat == STATS_TOCACHE && k == STATS_NUMFILES then ch.numfiles else 0) +
    (if ch.stat == STATS_TOCACHE && k == STATS_TOTALSIZE then ch.size else 0)
  }

  function Total(changes: seq<Change>, k: nat): nat {
    if changes == [] then 0 else Total(changes[..|changes| - 1], k) + Share(changes[|changes| - 1], k)
  }

  /** No update is lost: after any updates each counter has grown by what they contribute, modulo 2^32. */
  lemma {:induction false} UpdatesAccumulate(c: seq<Counter>, changes: seq<Change>, k: nat)
    requires |c| == STATS_END && Known(changes) && k < STATS_END
    ensures UpdatedAll(c, changes)[k] == (c[k] + Total(changes, k)) % TWO32
    decreases |changes|
  {
    if changes == [] {
      SmallRemainder(c[k], TWO32);
    } else {
      var front, last := changes[..|changes| - 1], changes[|changes| - 1];
      UpdatesAccumulate(c, front, k);
      ShareOfUpdate(UpdatedAll(c, front), last, k);
      hide UpdatedAll, Updated, Share;
      AddShares(c[k] + Total(front, k), Share(last, k));
    }
  }

  lemma ShareOfUpdate(c: seq<Counter>, ch: Change, k: nat)
    requires |c| == STATS_END && ch.stat < STATS_END && k < STATS_END
    ensures Updated(c, ch.stat, ch.size, ch.numfiles)[k] == (c[k] + Share(ch, k)) % TWO32
  {
    if Share(ch, k) == 0 {
      SmallRemainder(c[k], TWO32);
    }
  }

  lemma AddShares(a: nat, b: nat)
    ensures (a % TWO32 + b) % TWO32 == (a + b) % TWO32
  {
  }

  /** Nor does the order matter, in which processes that hold the lock in turn make their updates. */
  lemma OrderDoesNotMatter(c: seq<Counter>, a: seq<Change>, b: seq<Change>)
    requires |c| == STATS_END && Known(a) && Known(b) && multiset(a) == multiset(b)
    ensures UpdatedAll(c, a) == UpdatedAll(c, b)
  {
    hide UpdatedAll, Total;
    forall k | 0 <= k < STATS_END
      ensures UpdatedAll(c, a)[k] == UpdatedAll(c, b)[k]
    {
      UpdatesAccumulate(c, a, k);
      UpdatesAccumulate(c, b, k);
      TotalPermutes(a, b, k);
    }
  }

  lemma {:induction false} TotalPermutes(a: seq<Change>, b: seq<Change>, k: nat)
    requires multiset(a) == multiset(b)
    ensures Total(a, k) == Total(b, k)
    decreases |a|
  {
    assert |multiset(a)| == |a| && |multiset(b)| == |b|;
    if a != [] {
      var last := a[|a| - 1];
      assert last in multiset(b);
      var i :| 0 <= i < |b| && b[i] == last;
      hide Share;
      TotalDrop(b, i, k);
      WithoutLast(a);
      WithoutOne(b, i);
      TotalPermutes(a[..|a| - 1], b[..i] + b[i + 1..], k);
    }
  }

  lemma WithoutLast(s: seq<Change>)
    requires s != []
    ensures multiset(s[..|s| - 1]) == multiset(s) - multiset{s[|s| - 1]}
  {
    assert s == s[..|s| - 1] + [s[|s| - 1]];
  }

  lemma WithoutOne(s: seq<Change>, i: nat)
    requires i < |s|
    ensures multiset(s[..i] + s[i + 1..]) == multiset(s) - multiset{s[i]}
  {
    assert s == s[..i] + [s[i]] + s[i + 1..];
  }

  lemma {:induction false} TotalDrop(s: seq<Change>, i: nat, k: nat)
    requires i < |s|
    ensures Total(s, k) == Total(s[..i] + s[i + 1..], k) + Share(s[i], k)
    decreases |s|
  {
    var front, rest := s[..|s| - 1], s[..i] + s[i + 1..];
    TotalLast(s, k);
    hide *;
    DropEnds(s, i);
    if i < |s| - 1 {
      TotalDrop(front, i, k);
      TotalLast(rest, k);
    }
  }

  lemma TotalLast(s: seq<Change>, k: nat)
    ensures s != [] ==> Total(s, k) == Total(s[..|s| - 1], k) + Share(s[|s| - 1], k)
  {
    hide Share;
  }

  lemma DropEnds<T>(s: seq<T>, i: nat)
    requires i < |s|
    ensures var front, rest := s[..|s| - 1], s[..i] + s[i + 1..];
            if i == |s| - 1 then rest == front
            else rest != [] && rest[|rest| - 1] == s[|s| - 1] && rest[..|rest| - 1] == front[..i] + front[i + 1..]
  {
  }

  /** The content holds the counters: it is empty and they are the defaults, or it starts with their text, and
      anything may stand after that. */
  ghost predicate Held(content: string, counters: seq<Counter>) {
    |counters| == STATS_END && if content == "" then counters == DEFAULTS else StatsText(counters) <= content
  }

  /** What reading a file makes of the counters: at most 1023 characters are read. */
  function ReadInto(was: seq<Counter>, content: string): seq<Counter>
    requires |was| == STATS_END
  {
    if content == "" then was[STATS_MAXSIZE := Plus(was[STATS_MAXSIZE], DEFAULT_MAXSIZE / 16)]
    else Parse(was, 0, content[..Min(|content|, BUFFER - 1)], 0)
  }

  /** Reading a file adds the counters that it holds. */
  lemma HeldIsAdded(was: seq<Counter>, content: string, held: seq<Counter>)
    requires |was| == STATS_END && Held(content, held)
    ensures ReadInto(was, content) == Added(was, held)
  {
    hide Parse, Body, Added, Plus;
    if content == "" {
      AddedDefaults(was);
    } else {
      BodyLength(held);
      var buf, text := content[..Min(|content|, BUFFER - 1)], StatsText(held);
      assert text <= buf;
      assert buf == text + buf[|text|..];
      ParseAfterWrite(was, held, buf[|text|..]);
    }
  }

  lemma {:induction false} AddedAt(a: seq<Counter>, b: seq<Counter>, k: nat)
    requires k < |a| == |b|
    ensures Added(a, b)[k] == Plus(a[k], b[k])
  {
    if k > 0 {
      AddedAt(a[1..], b[1..], k - 1);
    }
  }

  lemma AddedDefaults(was: seq<Counter>)
    requires |was| == STATS_END
    ensures Added(was, DEFAULTS) == was[STATS_MAXSIZE := Plus(was[STATS_MAXSIZE], DEFAULT_MAXSIZE / 16)]
  {
    hide Added;
    forall k | 0 <= k < STATS_END
      ensures Added(was, DEFAULTS)[k] == Plus(was[k], DEFAULTS[k])
    {
      AddedAt(was, DEFAULTS, k);
    }
    SmallRemainders();
  }

  lemma SmallRemainders()
    ensures forall c: Counter :: Plus(c, 0) == c
  {
  }

  class StatsFile {
    var content: string

    ghost predicate Holds(counters: seq<Counter>)
      reads this
    {
      Held(content, counters)
    }

    /** stats_read_fd, whatever the file holds. The counters that it does hold are added. */
    method ReadFd(was: seq<Counter>) returns (counters: seq<Counter>)
      requires |was| == STATS_END
      ensures counters == ReadInto(was, content)
      ensures forall held :: Holds(held) ==> counters == Added(was, held)
    {
      var buf := content[..Min(|content|, BUFFER - 1)];
      counters := if |buf| == 0 then was[STATS_MAXSIZE := Plus(was[STATS_MAXSIZE], DEFAULT_MAXSIZE / 16)]
                  else Parse(was, 0, buf, 0);
      forall held | Holds(held)
        ensures counters == Added(was, held)
      {
        HeldIsAdded(was, content, held);
      }
    }

    /** write_stats: the text is built counter by counter and written over the start of the file. */
    method WriteStats(counters: seq<Counter>)
      requires |counters| == STATS_END
      modifies this
      ensures Holds(counters) && content != ""
      ensures content == StatsText(counters) + old(content)[Min(|StatsText(counters)|, |old(content)|)..]
    {
      var buf := "";
      for i := 0 to STATS_END
        invariant buf == Body(counters[..i]) && |buf| <= 11 * i
        invariant content == old(content)
      {
        hide Body, CounterText;
        BodyAppend(counters[..i], counters[i]);
        assert counters[..i] + [counters[i]] == counters[..i + 1];
        CounterTextLength(counters[i]);
        buf := buf + CounterText(counters[i]);
        assert |buf| < BUFFER - 1;  // "stats too long" is not reached
      }
      assert counters[..STATS_END] == counters;
      buf := buf + "\n";
      assert buf == StatsText(counters) && |buf| < BUFFER - 1;
      content := buf + content[Min(|buf|, |content|)..];
    }

    /** stats_update_size on the locked file. */
    method Update(stat: nat, size: nat, numfiles: nat, ghost held: seq<Counter>)
      returns (needCleanup: bool, limits: (Counter, Counter))
      requires Holds(held) && stat < STATS_END
      modifies this
      ensures Holds(Updated(held, stat, size, numfiles)) && content != ""
      ensures needCleanup == Exceeds(Updated(held, stat, size, numfiles))
      ensures var c := Updated(held, stat, size, numfiles); limits == (c[STATS_MAXFILES], c[STATS_MAXSIZE])
    {
      var counters := ReadFd(Zeros(STATS_END));
      AddedToZeros(held);
      counters := counters[stat := Plus(counters[stat], 1)];
      if stat == STATS_TOCACHE {
        counters := counters[STATS_NUMFILES := Plus(counters[STATS_NUMFILES], numfiles)];
        counters := counters[STATS_TOTALSIZE := Plus(counters[STATS_TOTALSIZE], size)];
      }
      WriteStats(counters);
      needCleanup := counters[STATS_MAXFILES] != 0 && counters[STATS_NUMFILES] > counters[STATS_MAXFILES];
      if counters[STATS_MAXSIZE] != 0 && counters[STATS_TOTALSIZE] > counters[STATS_MAXSIZE] {
        needCleanup := true;
      }
      limits := (counters[STATS_MAXFILES], counters[STATS_MAXSIZE]);
    }

    /** stats_set_sizes on the open file: the two counters get what a cleanup has counted. */
    method SetSizes(numFiles: nat, totalSize: nat, ghost held: seq<Counter>)
      requires Holds(held)
      modifies this
      ensures Holds(Recorded(held, numFiles, totalSize)) && content != ""
    {
      var counters := ReadFd(Zeros(STATS_END));
      AddedToZeros(held);
      counters := counters[STATS_NUMFILES := numFiles % TWO32];
      counters := counters[STATS_TOTALSIZE := totalSize % TWO32];
      WriteStats(counters);
    }
  }

  lemma CounterTextLength(c: Counter)
    ensures |CounterText(c)| <= 11
  {
    CounterLength(c);
  }
}
