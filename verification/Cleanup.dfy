// Eviction from one cache directory (src/swig/CCache/cleanup.c): list the files, sort them oldest first,
// and unlink from the front until the limits hold or only protected files are left.
module Cleanup {
  datatype File = File(name: string, mtime: int, size: nat)

  // ------------------------------------------------------------------------------------------------
  // The order
  // ------------------------------------------------------------------------------------------------

  /** strcmp, up to the magnitude of its result. */
  function Strcmp(a: string, b: string): int {
    if a == [] then if b == [] then 0 else -1
    else if b == [] then 1
    else if a[0] != b[0] then if a[0] < b[0] then -1 else 1
    else Strcmp(a[1..], b[1..])
  }

  function FilesCompare(f: File, g: File): int {
    if g.mtime == f.mtime then Strcmp(g.name, f.name)
    else if g.mtime > f.mtime then -1
    else 1
  }

  lemma {:induction false} StrcmpOrder(a: string, b: string)
    ensures Strcmp(a, b) == -Strcmp(b, a)
    ensures Strcmp(a, b) == 0 <==> a == b
  {
    if a != [] && b != [] {
      assert a == [a[0]] + a[1..] && b == [b[0]] + b[1..];
      StrcmpOrder(a[1..], b[1..]);
    }
  }

  lemma {:induction false} StrcmpTransitive(a: string, b: string, c: string)
    requires Strcmp(a, b) <= 0 && Strcmp(b, c) <= 0
    ensures Strcmp(a, c) <= 0
  {
    if a != [] && b != [] && c != [] && a[0] == b[0] == c[0] {
      StrcmpTransitive(a[1..], b[1..], c[1..]);
    }
  }

  /** files_compare is a total order on files with different names: what qsort needs. */
  lemma FilesCompareOrder(f: File, g: File, h: File)
    ensures FilesCompare(f, g) == -FilesCompare(g, f)
    ensures FilesCompare(f, g) == 0 <==> f.mtime == g.mtime && f.name == g.name
    ensures FilesCompare(f, g) <= 0 && FilesCompare(g, h) <= 0 ==> FilesCompare(f, h) <= 0
  {
    StrcmpOrder(f.name, g.name);
    if f.mtime == g.mtime == h.mtime && FilesCompare(f, g) <= 0 && FilesCompare(g, h) <= 0 {
      StrcmpTransitive(h.name, g.name, f.name);
    }
  }

  predicate Sorted(s: seq<File>) { forall i, j :: 0 <= i < j < |s| ==> FilesCompare(s[i], s[j]) <= 0 }

  /** A directory lists a path once. */
  predicate NamesIdentify(s: seq<File>) { forall f, g :: f in s && g in s && f.name == g.name ==> f == g }

  /** There is one sorted arrangement: the result does not depend on how qsort works. */
  lemma {:induction false} SortedIsUnique(a: seq<File>, b: seq<File>)
    requires Sorted(a) && Sorted(b) && NamesIdentify(a) && multiset(a) == multiset(b)
    ensures a == b
    decreases |a|
  {
    hide FilesCompare;
    SameMembers(a, b);
    if a != [] {
      assert a[0] == b[0] by {
        FirstIsLeast(a, b[0]);
        FirstIsLeast(b, a[0]);
        FilesCompareOrder(a[0], b[0], b[0]);
      }
      DropFirst(a);
      DropFirst(b);
      hide Sorted, NamesIdentify;
      SortedIsUnique(a[1..], b[1..]);
    }
  }

  lemma DropFirst(s: seq<File>)
    requires s != []
    ensures s == [s[0]] + s[1..] && multiset(s[1..]) == multiset(s) - multiset{s[0]}
    ensures Sorted(s) ==> Sorted(s[1..])
    ensures NamesIdentify(s) ==> NamesIdentify(s[1..])
  {
    hide FilesCompare;
    assert s == [s[0]] + s[1..];
    assert forall f :: f in s[1..] ==> f in s;
  }

  lemma FirstIsLeast(s: seq<File>, f: File)
    requires Sorted(s) && f in s
    ensures FilesCompare(s[0], f) <= 0
  {
    FilesCompareOrder(f, f, f);
  }

  lemma SameMembers(a: seq<File>, b: seq<File>)
    requires multiset(a) == multiset(b)
    ensures |a| == |b| && forall f :: f in a <==> f in b
  {
    assert |multiset(a)| == |a| && |multiset(b)| == |b|;
    assert forall f :: f in a <==> f in multiset(a);
    assert forall f :: f in b <==> f in multiset(b);
  }

  // ------------------------------------------------------------------------------------------------
  // Sizes and protection
  // ------------------------------------------------------------------------------------------------

  function Sum(s: seq<File>): nat { if s == [] then 0 else Sum(s[..|s| - 1]) + s[|s| - 1].size }

  /** The files that are not removed when the first `n` are tried and those in `refused` cannot be. */
  function Remaining(s: seq<File>, n: nat, refused: set<string>): seq<File>
    requires n <= |s|
  {
    Refused(s[..n], refused) + s[n..]
  }

  function Refused(s: seq<File>, refused: set<string>): seq<File> {
    if s == [] then []
    else Refused(s[..|s| - 1], refused) + if s[|s| - 1].name in refused then [s[|s| - 1]] else []
  }

  /** How many files at the end of the sorted list are protected: the newest `minfiles`, and the files
      before them with the time stamp of the oldest of these. 0 is no protection. */
  function Ties(s: seq<File>, first: nat, time: int): nat
    requires first <= |s|
  {
    if first > 0 && s[first - 1].mtime == time then 1 + Ties(s, first - 1, time) else 0
  }

  function Adjusted(s: seq<File>, minfiles: nat): nat {
    if minfiles != 0 && minfiles < |s| then minfiles + Ties(s, |s| - minfiles, s[|s| - minfiles].mtime) else minfiles
  }

  /** With a minimum, a file of the sorted list is protected exactly when it is not older than the
      `minfiles`-th newest file, and always when there are not more files than that. */
  lemma ProtectedIff(s: seq<File>, minfiles: nat, k: nat)
    requires Sorted(s) && 0 < minfiles && k < |s|
    ensures |s| - k <= Adjusted(s, minfiles) <==> |s| <= minfiles || s[k].mtime >= s[|s| - minfiles].mtime
  {
    if minfiles < |s| {
      var first := |s| - minfiles;
      TiesIs(s, first, s[first].mtime);
      var n := Ties(s, first, s[first].mtime);
      if k < first {
        assert FilesCompare(s[k], s[first]) <= 0;
        if k < first - n {
          assert s[first - n - 1].mtime != s[first].mtime;
          assert FilesCompare(s[first - n - 1], s[first]) <= 0;
          assert k < first - n - 1 ==> FilesCompare(s[k], s[first - n - 1]) <= 0;
        }
      } else if first < k {
        assert FilesCompare(s[first], s[k]) <= 0;
      }
    }
  }

  lemma {:induction false} TiesIs(s: seq<File>, first: nat, time: int)
    requires first <= |s|
    ensures var n := Ties(s, first, time);
            n <= first && (forall i :: first - n <= i < first ==> s[i].mtime == time) &&
            (n < first ==> s[first - n - 1].mtime != time)
    decreases first
  {
    if first > 0 && s[first - 1].mtime == time {
      TiesIs(s, first - 1, time);
    }
  }

  /** A threshold of 0 is no limit. */
  datatype Limits = Limits(size: nat, files: nat)

  predicate Within(limits: Limits, total: nat, count: int) {
    (limits.size == 0 || total < limits.size) && (limits.files == 0 || count < limits.files)
  }

  /** The loop leaves before file `k`: the limits hold, or the file is protected. */
  predicate Stops(s: seq<File>, limits: Limits, minfiles: nat, refused: set<string>, k: nat)
    requires k <= |s|
  {
    k == |s| || Within(limits, Sum(Remaining(s, k, refused)), |s| - k) ||
    (minfiles != 0 && |s| - k <= Adjusted(s, minfiles))
  }

  /** `stop` is the first index at which the loop leaves. */
  predicate FirstStop(s: seq<File>, limits: Limits, minfiles: nat, refused: set<string>, stop: nat) {
    stop <= |s| && Stops(s, limits, minfiles, refused, stop) &&
    forall k :: 0 <= k < stop ==> !Stops(s, limits, minfiles, refused, k)
  }

  /** The names that the loop has unlinked, or found missing, when it stands at `n`. */
  function Gone(s: seq<File>, n: nat, refused: set<string>): set<string>
    requires n <= |s|
  {
    set k | 0 <= k < n && s[k].name !in refused :: s[k].name
  }

  lemma SumConcat(a: seq<File>, b: seq<File>)
    ensures Sum(a + b) == Sum(a) + Sum(b)
  {
    if b == [] {
      assert a + b == a;
    } else {
      assert (a + b)[..|a + b| - 1] == a + b[..|b| - 1];
      SumConcat(a, b[..|b| - 1]);
    }
  }

  lemma RemainingStep(s: seq<File>, n: nat, refused: set<string>)
    requires n < |s|
    ensures Sum(Remaining(s, n, refused)) ==
            Sum(Remaining(s, n + 1, refused)) + if s[n].name in refused then 0 else s[n].size
    ensures |Remaining(s, n, refused)| == |Remaining(s, n + 1, refused)| + if s[n].name in refused then 0 else 1
  {
    var head := Refused(s[..n], refused);
    var one := if s[n].name in refused then [s[n]] else [];
    assert s[..n + 1][..n] == s[..n] && s[n..] == [s[n]] + s[n + 1..];
    assert Refused(s[..n + 1], refused) == head + one;
    SumConcat(head, s[n..]);
    SumConcat(head + one, s[n + 1..]);
    SumConcat(head, one);
    SumConcat([s[n]], s[n + 1..]);
    SumOne(s[n]);
  }

  lemma SumOne(f: File)
    ensures Sum([f]) == f.size
  {
    assert Sum([]) == 0;
  }

  // ------------------------------------------------------------------------------------------------
  // What follows from the place where the loop leaves
  // ------------------------------------------------------------------------------------------------

  lemma FirstStopIsUnique(s: seq<File>, limits: Limits, minfiles: nat, refused: set<string>, a: nat, b: nat)
    requires FirstStop(s, limits, minfiles, refused, a) && FirstStop(s, limits, minfiles, refused, b)
    ensures a == b
  {
  }

  /** When no unlink is refused: at the end both limits hold for what is left, or only protected files
      are left, or none. */
  lemma EndsWithinLimits(s: seq<File>, limits: Limits, minfiles: nat, stop: nat)
    requires FirstStop(s, limits, minfiles, {}, stop)
    ensures Remaining(s, stop, {}) == s[stop..]
    ensures Within(limits, Sum(s[stop..]), |s| - stop) || stop == |s| ||
            (minfiles != 0 && |s| - stop <= Adjusted(s, minfiles))
  {
    NoneRefused(s[..stop]);
    assert [] + s[stop..] == s[stop..];
  }

  lemma {:induction false} NoneRefused(s: seq<File>)
    ensures Refused(s, {}) == []
  {
    if s != [] {
      NoneRefused(s[..|s| - 1]);
    }
  }

  /** No file is tried that is among the `minfiles` newest or has the time stamp of one of them; and each
      file is tried while a limit is exceeded. */
  lemma NewestAreKept(s: seq<File>, limits: Limits, minfiles: nat, refused: set<string>, stop: nat, k: nat, newest: nat)
    requires Sorted(s) && FirstStop(s, limits, minfiles, refused, stop) && k < stop
    ensures minfiles > 0 && |s| - minfiles <= newest < |s| ==> s[k].mtime < s[newest].mtime
    ensures !Within(limits, Sum(Remaining(s, k, refused)), |s| - k)
  {
    assert !Stops(s, limits, minfiles, refused, k);
    if minfiles > 0 && |s| - minfiles <= newest < |s| {
      ProtectedIff(s, minfiles, k);
      hide Stops, FirstStop;
      var first := |s| - minfiles;
      if first >= 0 && first < newest {
        assert FilesCompare(s[first], s[newest]) <= 0;
      }
    }
  }

  /** The number that is recorded, |s| - stop, is the number of files left exactly when no unlink that was
      tried was refused. */
  lemma CountIsTried(s: seq<File>, stop: nat, refused: set<string>)
    requires stop <= |s|
    ensures |s| - stop == |Remaining(s, stop, refused)| <==> NoneIn(s, stop, refused)
  {
    RefusedCount(s[..stop], refused);
    assert forall k :: 0 <= k < stop ==> s[..stop][k] == s[k];
  }

  /** None of the first `n` files is refused. */
  predicate NoneIn(s: seq<File>, n: nat, refused: set<string>)
    requires n <= |s|
  {
    forall k :: 0 <= k < n ==> s[k].name !in refused
  }

  /** Up to the first refused file the loop goes as if none were refused. */
  lemma SameUntilRefused(s: seq<File>, limits: Limits, minfiles: nat, refused: set<string>, n: nat)
    requires n <= |s| && NoneIn(s, n, refused)
    ensures Stops(s, limits, minfiles, refused, n) <==> Stops(s, limits, minfiles, {}, n)
  {
    CountIsTried(s, n, refused);
    RefusedCount(s[..n], refused);
    assert forall k :: 0 <= k < n ==> s[..n][k] == s[k];
    NoneRefused(s[..n]);
    assert Remaining(s, n, refused) == Remaining(s, n, {});
    hide Remaining, Sum, Adjusted;
  }

  lemma SameStop(s: seq<File>, limits: Limits, minfiles: nat, refused: set<string>, n: nat)
    requires n <= |s| && NoneIn(s, n, refused)
    ensures FirstStop(s, limits, minfiles, refused, n) <==> FirstStop(s, limits, minfiles, {}, n)
  {
    forall k | 0 <= k <= n
      ensures Stops(s, limits, minfiles, refused, k) <==> Stops(s, limits, minfiles, {}, k)
    {
      SameUntilRefused(s, limits, minfiles, refused, k);
    }
    hide Stops;
  }

  /** Told before the call: the recorded number is right exactly when none of the files can refuse that would
      be evicted if none refused. The recorded size is right in any case. */
  lemma CountIsRightIff(s: seq<File>, limits: Limits, minfiles: nat, refused: set<string>, free: nat, stop: nat)
    requires FirstStop(s, limits, minfiles, {}, free) && FirstStop(s, limits, minfiles, refused, stop)
    ensures |s| - stop == |Remaining(s, stop, refused)| <==> NoneIn(s, free, refused)
  {
    CountIsTried(s, stop, refused);
    if NoneIn(s, free, refused) {
      SameStop(s, limits, minfiles, refused, free);
      FirstStopIsUnique(s, limits, minfiles, refused, free, stop);
    }
    if NoneIn(s, stop, refused) {
      SameStop(s, limits, minfiles, refused, stop);
      FirstStopIsUnique(s, limits, minfiles, {}, free, stop);
    }
    hide FirstStop, Remaining;
  }

  /** One file that cannot be removed, over the size limit: the recorded number is 0, and the file is there. */
  lemma RefusedFileIsNotCounted()
    ensures var s := [File("a", 0, 5)];
            FirstStop(s, Limits(1, 0), 0, {"a"}, 1) && Remaining(s, 1, {"a"}) == s && |s| - 1 == 0
  {
    var f := File("a", 0, 5);
    var s := [f];
    assert s[..0] == [] && s[..1] == s && s[0..] == s && s[1..] == [];
    assert Refused(s, {"a"}) == [f] by {
      assert s[..|s| - 1] == [];
    }
    assert Remaining(s, 0, {"a"}) == s && Remaining(s, 1, {"a"}) == s;
    SumOne(f);
  }

  lemma {:induction false} RefusedCount(s: seq<File>, refused: set<string>)
    ensures |Refused(s, refused)| == 0 <==> forall k :: 0 <= k < |s| ==> s[k].name !in refused
  {
    if s != [] {
      RefusedCount(s[..|s| - 1], refused);
      assert forall k :: 0 <= k < |s| - 1 ==> s[..|s| - 1][k] == s[k];
    }
  }

  predicate AtLeast(a: nat, b: nat) { a == 0 || (b != 0 && a >= b) }

  lemma LooserStops(s: seq<File>, loose: Limits, tight: Limits, minfiles: nat, refused: set<string>, k: nat)
    requires AtLeast(loose.size, tight.size) && AtLeast(loose.files, tight.files) && k <= |s|
    ensures Stops(s, tight, minfiles, refused, k) ==> Stops(s, loose, minfiles, refused, k)
  {
    hide Remaining, Sum, Adjusted;
  }

  /** Looser limits never evict more. */
  lemma LooserLimitsKeepMore(s: seq<File>, loose: Limits, tight: Limits, minfiles: nat, refused: set<string>, a: nat,
                             b: nat)
    requires AtLeast(loose.size, tight.size) && AtLeast(loose.files, tight.files)
    requires FirstStop(s, loose, minfiles, refused, a) && FirstStop(s, tight, minfiles, refused, b)
    ensures a <= b
  {
    LooserStops(s, loose, tight, minfiles, refused, b);
    hide Stops;
  }

  // ------------------------------------------------------------------------------------------------
  // The program
  // ------------------------------------------------------------------------------------------------

  /** What `traverse` reports for a path. */
  datatype Entry = Entry(path: string, regular: bool, mtime: int, bytes: nat, blocks: nat)

  /** file_size: the space on disk, or the length rounded up when that is larger. */
  function FileSize(e: Entry): nat {
    if e.bytes > e.blocks * 512 then (e.bytes + 1023) / 1024 * 1024 else e.blocks * 512
  }

  /** str_basename. */
  function Basename(path: string): string {
    if path == [] then []
    else if path[|path| - 1] == '/' then []
    else Basename(path[..|path| - 1]) + [path[|path| - 1]]
  }

  /** The cached files among the entries: regular ones, without the counter files, sizes in KiB. */
  function Cached(entries: seq<Entry>): seq<File> {
    if entries == [] then []
    else
      var e := entries[|entries| - 1];
      Cached(entries[..|entries| - 1]) +
      if e.regular && Basename(e.path) != "stats" then [File(e.path, e.mtime, FileSize(e) / 1024)] else []
  }

  class Cleaner {
    /** The static variables of cleanup.c. */
    var files: array<File>
    var numFiles: nat
    var totalSize: nat
    var totalFiles: nat
    /** The paths that exist. */
    var disk: set<string>

    ghost predicate Valid()
      reads this, files
    {
      numFiles <= files.Length && totalSize == Sum(files[..numFiles])
    }

    ghost function Contents(): seq<File>
      reads this`files, this`numFiles, files
      requires numFiles <= files.Length
    {
      files[..numFiles]
    }

    constructor (paths: set<string>)
      ensures Valid() && fresh(files) && Contents() == [] && disk == paths
    {
      files := new File[0];
      numFiles, totalSize, totalFiles, disk := 0, 0, 0, paths;
    }

    /** traverse_fn. */
    method TraverseFn(e: Entry)
      requires Valid()
      modifies this, files
      ensures Valid() && (files == old(files) || fresh(files)) && disk == old(disk)
      ensures Contents() == old(Contents()) + Cached([e])
    {
      assert Cached([e]) == Cached([]) +
        if e.regular && Basename(e.path) != "stats" then [File(e.path, e.mtime, FileSize(e) / 1024)] else [];
      assert Contents() + [] == Contents();
      if !e.regular { return; }
      if Basename(e.path) == "stats" { return; }
      var f := File(e.path, e.mtime, FileSize(e) / 1024);
      ghost var was := Contents();
      if numFiles == files.Length {
        Grow(f);
      }
      files[numFiles] := f;
      totalSize := totalSize + f.size;
      numFiles := numFiles + 1;
      assert files[..numFiles] == was + [f];
      assert (was + [f])[..|was|] == was;
    }

    /** traverse, over all that it finds. */
    method Traverse(entries: seq<Entry>)
      requires Valid() && numFiles == 0
      modifies this, files
      ensures Valid() && (files == old(files) || fresh(files)) && disk == old(disk)
      ensures Contents() == Cached(entries)
    {
      hide Sum;
      for i := 0 to |entries|
        invariant Valid() && (files == old(files) || fresh(files)) && disk == old(disk)
        invariant Contents() == Cached(entries[..i])
      {
        CachedSnoc(entries, i);
        hide Cached;
        TraverseFn(entries[i]);
      }
      assert entries[..|entries|] == entries;
    }

    /** The x_realloc of the list; `filler` is what the new places hold. */
    method Grow(filler: File)
      requires Valid()
      modifies this`files
      ensures Valid() && fresh(files) && files.Length > numFiles && Contents() == old(Contents())
    {
      var bigger := new File[10000 + numFiles * 2](_ => filler);
      for i := 0 to numFiles
        invariant files == old(files) && fresh(bigger) && Valid() && Contents() == old(Contents())
        invariant bigger[..i] == files[..i]
      {
        bigger[i] := files[i];
      }
      files := bigger;
    }

    /** qsort with files_compare: any sort gives the same arrangement. */
    method Sort()
      requires Valid()
      modifies files
      ensures Valid() && Sorted(Contents()) && multiset(Contents()) == multiset(old(Contents()))
    {
      for i := 0 to numFiles
        invariant Sorted(files[..i])
        invariant multiset(files[..numFiles]) == multiset(old(files[..numFiles]))
      {
        Insert(i);
      }
      assert files[..numFiles] == Contents();
      SumPermutes(files[..numFiles], old(files[..numFiles]));
    }

    method Insert(i: nat)
      requires i < numFiles <= files.Length && Sorted(files[..i])
      modifies files
      ensures Sorted(files[..i + 1]) && multiset(files[..numFiles]) == multiset(old(files[..numFiles]))
    {
      hide SortedExcept, FilesCompare, Sorted;
      ghost var was := files[..numFiles];
      assert was[..i] == files[..i];
      StartsExcept(was, i);
      var j := i;
      while j > 0 && FilesCompare(files[j - 1], files[j]) > 0
        invariant 0 <= j <= i && SortedExcept(files[..numFiles], i, j)
        invariant multiset(files[..numFiles]) == multiset(was)
      {
        MoveDown(i, j);
        j := j - 1;
      }
      InPlace(files[..numFiles], i, j);
      assert files[..numFiles][..i + 1] == files[..i + 1];
    }

    method MoveDown(i: nat, j: nat)
      requires 0 < j <= i < numFiles <= files.Length && SortedExcept(files[..numFiles], i, j)
      requires FilesCompare(files[j - 1], files[j]) > 0
      modifies files
      ensures SortedExcept(files[..numFiles], i, j - 1)
      ensures multiset(files[..numFiles]) == multiset(old(files[..numFiles]))
    {
      hide SortedExcept, FilesCompare;
      ghost var was := files[..numFiles];
      SwapKeeps(was, i, j);
      files[j - 1], files[j] := files[j], files[j - 1];
      assert files[..numFiles] == was[j - 1 := was[j]][j := was[j - 1]];
    }

    /** The look for ties before the protected files. */
    method AdjustedMinfiles(minfiles: nat) returns (adjusted: nat)
      requires Valid()
      ensures adjusted == Adjusted(Contents(), minfiles)
    {
      adjusted := minfiles;
      if minfiles != 0 && minfiles < numFiles {
        var index := numFiles - minfiles;
        var time := files[index].mtime;
        var i := 1;
        while i <= index && files[index - i].mtime == time
          invariant 1 <= i <= index + 1 && adjusted == minfiles + i - 1
          invariant i - 1 + Ties(Contents(), index - (i - 1), time) == Ties(Contents(), index, time)
          decreases index + 1 - i
        {
          adjusted := adjusted + 1;
          i := i + 1;
        }
      }
    }

    /** sort_and_clean: the files before the first stop are unlinked, oldest first, but for those that
        cannot be. */
    method SortAndClean(limits: Limits, minfiles: nat, refused: set<string>) returns (ghost stop: nat)
      requires Valid()
      modifies files, this`totalSize, this`totalFiles, this`disk
      ensures Sorted(Contents()) && multiset(Contents()) == multiset(old(Contents()))
      ensures FirstStop(Contents(), limits, minfiles, refused, stop)
      ensures disk == old(disk) - Gone(Contents(), stop, refused)
      ensures totalSize == Sum(Remaining(Contents(), stop, refused)) && totalFiles == numFiles - stop
    {
      if numFiles > 1 {
        Sort();
      }
      var adjusted := AdjustedMinfiles(minfiles);
      stop := Evict(limits, minfiles, adjusted, refused);
    }

    /** The total and the disk when `n` files of `s` have been tried and the disk held `was` before. */
    ghost predicate Tally(s: seq<File>, n: nat, refused: set<string>, was: set<string>)
      reads this`totalSize, this`disk
      requires n <= |s|
    {
      totalSize == Sum(Remaining(s, n, refused)) && disk == was - Gone(s, n, refused)
    }

    /** The loop over the sorted list. */
    method Evict(limits: Limits, minfiles: nat, adjusted: nat, refused: set<string>) returns (ghost stop: nat)
      requires Valid() && adjusted == Adjusted(Contents(), minfiles)
      modifies this`totalSize, this`totalFiles, this`disk
      ensures FirstStop(Contents(), limits, minfiles, refused, stop)
      ensures disk == old(disk) - Gone(Contents(), stop, refused)
      ensures totalSize == Sum(Remaining(Contents(), stop, refused)) && totalFiles == numFiles - stop
    {
      ghost var s := Contents();
      NothingTried(s, refused);
      AtEnd(s, limits, minfiles, refused);
      hide Sum, Remaining, Adjusted, Gone, Stops, NoStop, FirstStop;
      ghost var was := disk;
      var i := 0;
      while i < numFiles
        invariant 0 <= i <= numFiles
        invariant Tally(s, i, refused, was)
        invariant NoStop(s, limits, minfiles, refused, i)
      {
        var leave := Turn(i, limits, minfiles, adjusted, refused, s, was);
        if leave { break; }
        i := i + 1;
      }
      totalFiles := numFiles - i;
      stop := i;
      FirstStopIs(s, limits, minfiles, refused, stop);
    }

    /** One turn: the loop is left before file `i`, or the file is unlinked. */
    method Turn(i: nat, limits: Limits, minfiles: nat, adjusted: nat, refused: set<string>, ghost s: seq<File>,
                ghost was: set<string>)
        returns (leave: bool)
      requires i < numFiles <= files.Length && s == files[..numFiles] && adjusted == Adjusted(s, minfiles)
      requires Tally(s, i, refused, was) && NoStop(s, limits, minfiles, refused, i)
      modifies this`totalSize, this`disk
      ensures leave == Stops(s, limits, minfiles, refused, i)
      ensures leave ==> Tally(s, i, refused, was)
      ensures !leave ==> Tally(s, i + 1, refused, was) && NoStop(s, limits, minfiles, refused, i + 1)
    {
      AdjustedIsZero(s, minfiles);
      hide Sum, Remaining, Adjusted, Gone;
      if (limits.size == 0 || totalSize < limits.size) && (limits.files == 0 || numFiles - i < limits.files) {
        return true;
      }
      if adjusted != 0 && numFiles - i <= adjusted {
        return true;
      }
      leave := false;
      RemainingStep(s, i, refused);
      GoneStep(s, i, refused);
      // A file that cannot be removed stays in the total.
      if files[i].name !in refused {
        disk := disk - {files[i].name};
        totalSize := totalSize - files[i].size;
      }
    }

    /** cleanup_dir, from any listing left in the static variables: the result depends only on the directory.
        `count` and `size` are what stats_set_sizes records; the listing is empty again afterwards. */
    method CleanupDir(entries: seq<Entry>, limits: Limits, minfiles: nat, refused: set<string>)
        returns (count: nat, size: nat, ghost sorted: seq<File>, ghost stop: nat)
      requires numFiles <= files.Length
      modifies this, files
      ensures Valid() && Contents() == [] && (files == old(files) || fresh(files))
      ensures Sorted(sorted) && multiset(sorted) == multiset(Cached(entries))
      ensures FirstStop(sorted, limits, minfiles, refused, stop)
      ensures disk == old(disk) - Gone(sorted, stop, refused)
      ensures size == Sum(Remaining(sorted, stop, refused)) && count == |sorted| - stop
    {
      numFiles, totalSize := 0, 0;
      Traverse(entries);
      stop := SortAndClean(limits, minfiles, refused);
      sorted := Contents();
      count, size := totalFiles, totalSize;
      numFiles, totalSize := 0, 0;
    }
  }

  lemma CachedSnoc(entries: seq<Entry>, i: nat)
    requires i < |entries|
    ensures Cached(entries[..i + 1]) == Cached(entries[..i]) + Cached([entries[i]])
  {
    assert entries[..i + 1][..i] == entries[..i];
    assert [entries[i]][..0] == [];
    assert Cached([]) == [];
  }

  lemma AdjustedIsZero(s: seq<File>, minfiles: nat)
    ensures Adjusted(s, minfiles) == 0 <==> minfiles == 0
  {
  }

  ghost predicate NoStop(s: seq<File>, limits: Limits, minfiles: nat, refused: set<string>, n: nat)
    requires n <= |s|
  {
    forall k :: 0 <= k < n ==> !Stops(s, limits, minfiles, refused, k)
  }

  lemma FirstStopIs(s: seq<File>, limits: Limits, minfiles: nat, refused: set<string>, n: nat)
    requires n <= |s| && NoStop(s, limits, minfiles, refused, n) && Stops(s, limits, minfiles, refused, n)
    ensures FirstStop(s, limits, minfiles, refused, n)
  {
    hide Stops;
  }

  lemma AtEnd(s: seq<File>, limits: Limits, minfiles: nat, refused: set<string>)
    ensures Stops(s, limits, minfiles, refused, |s|)
  {
  }

  lemma NothingTried(s: seq<File>, refused: set<string>)
    ensures Remaining(s, 0, refused) == s && Gone(s, 0, refused) == {}
  {
    assert s[..0] == [] && s[0..] == s;
  }

  lemma GoneStep(s: seq<File>, n: nat, refused: set<string>)
    requires n < |s|
    ensures Gone(s, n + 1, refused) == Gone(s, n, refused) + if s[n].name in refused then {} else {s[n].name}
  {
  }

  /** The first `i` + 1 files are in order, except that the one at `j` may belong further to the front. */
  ghost predicate SortedExcept(s: seq<File>, i: nat, j: nat)
    requires i < |s|
  {
    forall a, b :: 0 <= a < b <= i && b != j ==> FilesCompare(s[a], s[b]) <= 0
  }

  lemma StartsExcept(s: seq<File>, i: nat)
    requires i < |s| && Sorted(s[..i])
    ensures SortedExcept(s, i, i)
  {
    hide FilesCompare;
    assert forall k :: 0 <= k < i ==> s[..i][k] == s[k];
  }

  lemma SwapKeeps(s: seq<File>, i: nat, j: nat)
    requires 0 < j <= i < |s| && SortedExcept(s, i, j) && FilesCompare(s[j - 1], s[j]) > 0
    ensures var t := s[j - 1 := s[j]][j := s[j - 1]]; SortedExcept(t, i, j - 1) && multiset(t) == multiset(s)
  {
    FilesCompareOrder(s[j - 1], s[j], s[j]);
    hide FilesCompare;
  }

  lemma InPlace(s: seq<File>, i: nat, j: nat)
    requires j <= i < |s| && SortedExcept(s, i, j) && (j > 0 ==> FilesCompare(s[j - 1], s[j]) <= 0)
    ensures Sorted(s[..i + 1])
  {
    forall a | 0 <= a < j
      ensures FilesCompare(s[a], s[j]) <= 0
    {
      FilesCompareOrder(s[a], s[j - 1], s[j]);
    }
  }

  lemma {:induction false} SumPermutes(a: seq<File>, b: seq<File>)
    requires multiset(a) == multiset(b)
    ensures Sum(a) == Sum(b)
    decreases |a|
  {
    SameMembers(a, b);
    assert |a| == |b|;
    if a != [] {
      hide *;
      var i := Place(a, b);
      SumDrop(a, 0);
      SumDrop(b, i);
      DropMultiset(a, 0);
      DropMultiset(b, i);
      SumPermutes(a[..0] + a[1..], b[..i] + b[i + 1..]);
    }
  }

  lemma Place(a: seq<File>, b: seq<File>) returns (i: nat)
    requires multiset(a) == multiset(b) && a != []
    ensures i < |b| && b[i] == a[0]
  {
    SameMembers(a, b);
    assert a[0] in a && a[0] in b;
    i :| 0 <= i < |b| && b[i] == a[0];
  }

  lemma DropMultiset(s: seq<File>, i: nat)
    requires i < |s|
    ensures multiset(s[..i] + s[i + 1..]) == multiset(s) - multiset{s[i]}
  {
    assert s == s[..i] + [s[i]] + s[i + 1..];
  }

  lemma SumDrop(s: seq<File>, i: nat)
    requires i < |s|
    ensures Sum(s) == Sum(s[..i] + s[i + 1..]) + s[i].size
  {
    hide Sum;
    var a, b := s[..i], s[i + 1..];
    var tail := [s[i]] + b;
    assert s == a + tail;
    SumConcat(a, b);
    SumConcat(a, tail);
    SumConcat([s[i]], b);
    SumOne(s[i]);
  }
}
