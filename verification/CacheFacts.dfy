/** The cache directory in literals: which files are listed and which goes first (cleanup.c), what the counters say
    after an update and when that asks for a cleanup (stats.c), what strtol reads. */
module CacheFacts {
  import opened Cleanup
  import CacheUpdate
  import Snprintf
  import NumberText
  import Stats

  // ----- Which files are listed ------------------------------------------------------------------

  /** The path names a file "stats" in some directory, or in none. */
  predicate IsStats(path: string) {
    path == "stats" || (|path| >= 6 && path[|path| - 6..] == "/stats")
  }

  lemma {:induction false} BasenameIs(path: string)
    ensures var b := Basename(path);
            '/' !in b && |b| <= |path| && path[|path| - |b|..] == b &&
            (b == path || path[|path| - |b| - 1] == '/')
    decreases |path|
  {
    if path != [] && path[|path| - 1] != '/' {
      var front := path[..|path| - 1];
      BasenameIs(front);
      var b := Basename(front);
      assert path[|path| - |b| - 1..] == front[|front| - |b|..] + [path[|path| - 1]];
    }
  }

  lemma StatsIff(path: string)
    ensures Basename(path) == "stats" <==> IsStats(path)
  {
    BasenameIs(path);
    hide Basename;
    var b := Basename(path);
    if b == "stats" && b != path {
      assert path[|path| - 6..] == ['/'] + path[|path| - 5..];
    }
    if IsStats(path) {
      assert path[|path| - 5..] == "stats" by {
        assert path != "stats" ==> path[|path| - 5..] == path[|path| - 6..][1..];
      }
      assert path != "stats" ==> path[|path| - 6] == path[|path| - 6..][0] == '/';
      SameEnd(path, b);
    }
  }

  /** Of a path that ends in "stats" the part behind the last slash is no other than that. */
  lemma SameEnd(path: string, b: string)
    requires |path| >= 5 && path[|path| - 5..] == "stats" && (|path| == 5 || path[|path| - 6] == '/')
    requires '/' !in b && |b| <= |path| && path[|path| - |b|..] == b && (b == path || path[|path| - |b| - 1] == '/')
    ensures b == "stats"
  {
    if |b| > 5 {
      SlashInside(path, b);
    } else if |b| < 5 {
      NoSlashBefore(path, b);
    }
  }

  lemma SlashInside(path: string, b: string)
    requires 5 < |b| <= |path| && path[|path| - |b|..] == b && path[|path| - 6] == '/'
    ensures '/' in b
  {
    assert b[|b| - 6] == '/';
  }

  lemma NoSlashBefore(path: string, b: string)
    requires |b| < 5 <= |path| && path[|path| - 5..] == "stats"
    ensures path[|path| - |b| - 1] != '/'
  {
    assert path[|path| - |b| - 1] == path[|path| - 5..][4 - |b|] == "stats"[4 - |b|];
  }

  /** The size in KiB: half the blocks of 512 bytes, or the least number of KiB for a file longer than its blocks. */
  predicate KibOf(e: Entry, size: nat) {
    if e.bytes <= 512 * e.blocks then 2 * size <= e.blocks < 2 * size + 2
    else 1024 * size >= e.bytes > 1024 * size - 1024
  }

  lemma KibIsFileSize(e: Entry, size: nat)
    ensures KibOf(e, size) <==> FileSize(e) / 1024 == size
  {
  }

  lemma {:induction false} ListedHas(entries: seq<Entry>, f: File)
    ensures f in Cached(entries) <==>
            exists i :: 0 <= i < |entries| && entries[i].regular && Basename(entries[i].path) != "stats" &&
                        f == File(entries[i].path, entries[i].mtime, FileSize(entries[i]) / 1024)
    decreases |entries|
  {
    hide Basename, FileSize;
    if entries != [] {
      ListedHas(entries[..|entries| - 1], f);
      var front, e := entries[..|entries| - 1], entries[|entries| - 1];
      assert forall i :: 0 <= i < |front| ==> front[i] == entries[i];
    }
  }

  /** The listing holds the regular files whose name is not "stats", with their time and their size in KiB. */
  lemma ListedIff(entries: seq<Entry>, f: File)
    ensures f in Cached(entries) <==>
            exists i :: 0 <= i < |entries| && entries[i].regular && !IsStats(entries[i].path) &&
                        f.name == entries[i].path && f.mtime == entries[i].mtime && KibOf(entries[i], f.size)
  {
    hide Cached, Basename, FileSize, KibOf, IsStats;
    ListedHas(entries, f);
    forall i | 0 <= i < |entries|
      ensures Basename(entries[i].path) == "stats" <==> IsStats(entries[i].path)
      ensures KibOf(entries[i], f.size) <==> FileSize(entries[i]) / 1024 == f.size
    {
      StatsIff(entries[i].path);
      KibIsFileSize(entries[i], f.size);
    }
  }

  /** So the counters of a directory are never evicted with its files, whatever the limits. */
  lemma StatsIsNeverTried(entries: seq<Entry>, sorted: seq<File>, n: nat, refused: set<string>, path: string)
    requires multiset(sorted) == multiset(Cached(entries)) && n <= |sorted| && IsStats(path)
    ensures path !in Gone(sorted, n, refused)
  {
    hide Cached, IsStats;
    if path in Gone(sorted, n, refused) {
      var k :| 0 <= k < n && sorted[k].name == path;
      assert sorted[k] in multiset(Cached(entries));
      ListedIff(entries, sorted[k]);
    }
  }

  // ----- Which file goes first -------------------------------------------------------------------

  /** strcmp looks at the first character that differs; a longer name comes after the name it starts with. */
  lemma {:induction false} StrcmpIs(p: string, a: string, b: string)
    ensures a != [] && b != [] && a[0] < b[0] ==> Strcmp(p + a, p + b) < 0 < Strcmp(p + b, p + a)
    ensures a != [] ==> Strcmp(p, p + a) < 0 < Strcmp(p + a, p)
    decreases |p|
  {
    if p == [] {
      assert p + a == a && p + b == b;
    } else {
      assert (p + a)[1..] == p[1..] + a && (p + b)[1..] == p[1..] + b;
      StrcmpIs(p[1..], a, b);
    }
  }

  /** In the order of eviction an older file comes first, and of files of one time the one with the later name. */
  lemma GoesFirst(s: seq<File>, i: nat, j: nat, p: string, a: string, b: string)
    requires Sorted(s) && i < |s| && j < |s|
    ensures s[i].mtime < s[j].mtime ==> i < j
    ensures a != [] && b != [] && b[0] < a[0] ==>
              s[i].mtime == s[j].mtime && s[i].name == p + a && s[j].name == p + b ==>
              i < j
    ensures s[i].mtime == s[j].mtime && s[i].name == p + a && s[j].name == p && a != [] ==> i < j
  {
    StrcmpIs(p, b, a);
    StrcmpIs(p, a, b);
    hide Strcmp;
    if i > j {
      assert FilesCompare(s[j], s[i]) <= 0;
    }
  }

  // ----- The counters after an update ------------------------------------------------------------

  /** A miss, with counters that stay within 32 bits: the files and KiB are added, and a cleanup is asked for exactly
      when a limit that is set is then exceeded. */
  lemma MissOutcome(c: seq<Stats.Counter>, size: nat, numfiles: nat)
    requires |c| == 23 && c[4] < 0xFFFF_FFFF && c[11] + numfiles < 0x1_0000_0000 && c[12] + size < 0x1_0000_0000
    ensures var r := Stats.Updated(c, 4, size, numfiles);
            r == c[4 := c[4] + 1][11 := c[11] + numfiles][12 := c[12] + size] &&
            (Stats.Exceeds(r) <==> 0 < c[13] < c[11] + numfiles || 0 < c[14] < c[12] + size)
  {
    Snprintf.SmallRemainder(c[4] + 1, 0x1_0000_0000);
    Snprintf.SmallRemainder(c[11] + numfiles, 0x1_0000_0000);
    Snprintf.SmallRemainder(c[12] + size, 0x1_0000_0000);
  }

  /** Every other event counts itself alone, whatever size comes with it. */
  lemma OtherOutcome(c: seq<Stats.Counter>, stat: nat, size: nat, numfiles: nat)
    requires |c| == 23 && stat < 23 && stat != 4 && c[stat] < 0xFFFF_FFFF
    ensures Stats.Updated(c, stat, size, numfiles) == c[stat := c[stat] + 1]
  {
    Snprintf.SmallRemainder(c[stat] + 1, 0x1_0000_0000);
  }

  /** An empty counter file: no events, and a limit of 62500 KiB. */
  lemma EmptyFileHolds(c: seq<Stats.Counter>)
    ensures Stats.Held("", c) <==> |c| == 23 && c[14] == 62500 && forall k :: 0 <= k < 23 && k != 14 ==> c[k] == 0
  {
    if |c| == 23 && c[14] == 62500 && forall k :: 0 <= k < 23 && k != 14 ==> c[k] == 0 {
      assert c == Stats.DEFAULTS;
    }
  }

  /** At most 1023 characters of the file are read. */
  lemma OnlyTheStartIsRead(was: seq<Stats.Counter>, content: string)
    requires |was| == 23 && content != ""
    ensures Stats.ReadInto(was, content) ==
            Stats.Parse(was, 0, if |content| <= 1023 then content else content[..1023], 0)
  {
    hide Stats.Parse;
    assert content[..|content|] == content;
  }

  /** What one cleanup records stands in the counters of the files and of their size. */
  lemma RecordedIs(c: seq<Stats.Counter>, files: nat, size: nat)
    requires |c| == 23 && files < 0x1_0000_0000 && size < 0x1_0000_0000
    ensures Stats.Recorded(c, files, size) == c[11 := files][12 := size]
  {
    Snprintf.SmallRemainder(files, 0x1_0000_0000);
    Snprintf.SmallRemainder(size, 0x1_0000_0000);
  }

  /** The cleanup aims at four fifths of each limit, rounded down: the size limit is counter 14, that of the files
      counter 13. */
  lemma AimsAtFourFifths(c: seq<Stats.Counter>)
    requires |c| == 23
    ensures var limits := CacheUpdate.Limits(c);
            5 * limits.size <= 4 * c[14] < 5 * limits.size + 5 && 5 * limits.files <= 4 * c[13] < 5 * limits.files + 5
  {
  }

  // ----- What strtol reads -----------------------------------------------------------------------

  lemma {:induction false} SpacesEndIs(s: string, i: nat, j: nat)
    requires i <= j <= |s| && forall k :: i <= k < j ==> s[k] == ' ' || 9 <= s[k] as int <= 13
    requires j == |s| || !(s[j] == ' ' || 9 <= s[j] as int <= 13)
    ensures Stats.SpacesEnd(s, i) == j
    decreases j - i
  {
    if i < j {
      SpacesEndIs(s, i + 1, j);
    }
  }

  lemma {:induction false} NumberEndIs(s: string, i: nat, j: nat)
    requires i <= j <= |s| && forall k :: i <= k < j ==> '0' <= s[k] <= '9'
    requires j == |s| || !('0' <= s[j] <= '9')
    ensures Stats.NumberEnd(s, i) == j
    decreases j - i
  {
    if i < j {
      NumberEndIs(s, i + 1, j);
    }
  }

  /** The value of digits read from either end. */
  lemma {:induction false} ValueIsDecimal(s: string)
    requires forall k :: 0 <= k < |s| ==> '0' <= s[k] <= '9'
    ensures Snprintf.ValueOf(s, 10) == Snprintf.Decimal(0, s)
    decreases |s|
  {
    if s != "" {
      var n := |s| - 1;
      ValueIsDecimal(s[..n]);
      assert '0' <= s[n] <= '9';
      assert s == s[..n] + [s[n]];
      NumberText.DecimalLast(0, s[..n], s[n]);
      hide Snprintf.Decimal;
    }
  }

  /** White space, a sign or none, and digits: their value, cut to 64 bits, and the end of the digits. */
  lemma StrtolIs(lead: string, sign: string, digits: string, rest: string)
    requires forall k :: 0 <= k < |lead| ==> lead[k] == ' ' || 9 <= lead[k] as int <= 13
    requires sign == "" || sign == "+" || sign == "-"
    requires digits != "" && forall k :: 0 <= k < |digits| ==> '0' <= digits[k] <= '9'
    requires rest == "" || !('0' <= rest[0] <= '9')
    ensures var v := if sign == "-" then -Snprintf.Decimal(0, digits) else Snprintf.Decimal(0, digits);
            var r := Stats.Strtol(lead + sign + digits + rest, 0);
            r.1 == |lead| + |sign| + |digits| &&
            r.0 == if v > 9223372036854775807 then 9223372036854775807
                   else if v < -9223372036854775808 then -9223372036854775808 else v
  {
    var s := lead + sign + digits + rest;
    Laid(lead, sign, digits, rest);
    LaidEnds(s, |lead|, |lead| + |sign|, |lead| + |sign| + |digits|);
    ValueIsDecimal(digits);
    hide *;
    StrtolAt(s, |lead|, |lead| + |sign|, |lead| + |sign| + |digits|, sign == "-", Snprintf.Decimal(0, digits));
    assert Stats.Strtol(s, 0).1 == |lead| + |sign| + |digits|;
    var v := if sign == "-" then -Snprintf.Decimal(0, digits) else Snprintf.Decimal(0, digits);
    assert Stats.Strtol(s, 0).0 == if v > 9223372036854775807 then 9223372036854775807
                   else if v < -9223372036854775808 then -9223372036854775808 else v;
  }

  lemma LaidEnds(s: string, j: nat, k: nat, e: nat)
    requires j <= k <= e <= |s|
    requires forall m :: 0 <= m < j ==> s[m] == ' ' || 9 <= s[m] as int <= 13
    requires j == |s| || !(s[j] == ' ' || 9 <= s[j] as int <= 13)
    requires forall m :: k <= m < e ==> '0' <= s[m] <= '9'
    requires e == |s| || !('0' <= s[e] <= '9')
    ensures Stats.SpacesEnd(s, 0) == j && Stats.NumberEnd(s, k) == e
  {
    SpacesEndIs(s, 0, j);
    NumberEndIs(s, k, e);
  }

  lemma Laid(lead: string, sign: string, digits: string, rest: string)
    ensures var s := lead + sign + digits + rest;
            var j := |lead|;
            var k := j + |sign|;
            var e := k + |digits|;
            |s| == e + |rest| && (forall m :: 0 <= m < j ==> s[m] == lead[m]) &&
            (forall m :: k <= m < e ==> s[m] == digits[m - k]) && s[k..e] == digits &&
            (sign != "" ==> s[j] == sign[0]) && (rest != "" ==> s[e] == rest[0])
  {
  }

  lemma StrtolAt(s: string, j: nat, k: nat, e: nat, minus: bool, u: int)
    requires j <= k <= j + 1 && k < e <= |s| && Stats.SpacesEnd(s, 0) == j && Stats.NumberEnd(s, k) == e
    requires if j == k then '0' <= s[j] <= '9' && !minus else s[j] == if minus then '-' else '+'
    requires Snprintf.ValueOf(s[k..e], 10) == u
    ensures var v := if minus then -u else u;
            var r := Stats.Strtol(s, 0);
            r.1 == e && r.0 == if v > 9223372036854775807 then 9223372036854775807
                               else if v < -9223372036854775808 then -9223372036854775808 else v
  {
    hide Stats.SpacesEnd, Stats.NumberEnd, Snprintf.ValueOf;
  }

  /** Without a digit behind the white space and the sign nothing is read. */
  lemma StrtolFindsNone(lead: string, sign: string, rest: string)
    requires forall k :: 0 <= k < |lead| ==> lead[k] == ' ' || 9 <= lead[k] as int <= 13
    requires sign == "+" || sign == "-" || sign == ""
    requires sign == "" ==> rest == "" || (rest[0] !in "+- " && !(9 <= rest[0] as int <= 13))
    requires rest == "" || !('0' <= rest[0] <= '9')
    ensures Stats.Strtol(lead + sign + rest, 0) == (0, 0)
  {
    var s := lead + sign + rest;
    var j := |lead|;
    var k := j + |sign|;
    assert forall m :: 0 <= m < j ==> s[m] == lead[m];
    assert (sign != "" ==> s[j] == sign[0]) && (k < |s| ==> s[k] == rest[0]);
    SpacesEndIs(s, 0, j);
    NumberEndIs(s, k, k);
    hide Stats.SpacesEnd, Stats.NumberEnd;
  }
}
