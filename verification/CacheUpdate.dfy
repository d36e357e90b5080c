// An update of the counters and the cleanup it may ask for: stats_update_size of src/swig/CCache/stats.c with
// cleanup_dir and stats_set_sizes behind it.
module CacheUpdate {
  import Cleanup
  import Snprintf
  import Stats

  /** cleanup_dir aims at 0.8 of the limits. */
  function Target(limit: nat): nat { limit * 4 / 5 }

  function Limits(c: seq<Stats.Counter>): Cleanup.Limits
    requires |c| == Stats.STATS_END
  {
    Cleanup.Limits(Target(c[Stats.STATS_MAXSIZE]), Target(c[Stats.STATS_MAXFILES]))
  }

  /** What the counters say of the directory after the cleanup. */
  predicate Tells(c: seq<Stats.Counter>, left: seq<Cleanup.File>)
    requires |c| == Stats.STATS_END
  {
    c[Stats.STATS_NUMFILES] == |left| % Snprintf.TWO32 && c[Stats.STATS_TOTALSIZE] == Cleanup.Sum(left) % Snprintf.TWO32
  }

  /** stats_update_size: the update, and when it leaves a limit exceeded, the cleanup of the directory, which
      spares the files just added, and the recording of what it counted. `disabled` stands for the environment
      variable, `locked` for an open and locked file, `reopened` for the second opening. */
  method UpdateSize(file: Stats.StatsFile, cleaner: Cleanup.Cleaner, stat: nat, size: nat, numfiles: nat,
                    disabled: bool, locked: bool, reopened: bool, entries: seq<Cleanup.Entry>, refused: set<string>,
                    ghost held: seq<Stats.Counter>)
      returns (cleaned: bool, ghost sorted: seq<Cleanup.File>, ghost stop: nat)
    requires file.Holds(held) && stat < Stats.STATS_END && cleaner.numFiles <= cleaner.files.Length
    modifies file, cleaner, cleaner.files
    ensures disabled || !locked ==> !cleaned && file.content == old(file.content)
    ensures !disabled && locked ==>
              var c := Stats.Updated(held, stat, size, numfiles);
              cleaned == Stats.Exceeds(c) && (!(cleaned && reopened) ==> file.Holds(c)) &&
              (cleaned ==>
                 Cleanup.Sorted(sorted) && multiset(sorted) == multiset(Cleanup.Cached(entries)) &&
                 Cleanup.FirstStop(sorted, Limits(c), numfiles, refused, stop) &&
                 cleaner.disk == old(cleaner.disk) - Cleanup.Gone(sorted, stop, refused) &&
                 (reopened ==>
                    file.Holds(Stats.Recorded(c, |sorted| - stop,
                                              Cleanup.Sum(Cleanup.Remaining(sorted, stop, refused))))))
    ensures !cleaned ==> cleaner.disk == old(cleaner.disk)
  {
    cleaned, sorted, stop := false, [], 0;
    hide Stats.Held, Stats.Updated, Stats.Exceeds, Stats.Recorded, Cleanup.Sorted, Cleanup.Cached, Cleanup.FirstStop;
    hide Cleanup.Gone, Cleanup.Remaining, Cleanup.Sum, Target;
    if disabled { return; }
    if !locked { return; }
    var limits;
    cleaned, limits := file.Update(stat, size, numfiles, held);
    if cleaned {
      ghost var c := Stats.Updated(held, stat, size, numfiles);
      var count, total;
      count, total, sorted, stop :=
        cleaner.CleanupDir(entries, Cleanup.Limits(Target(limits.1), Target(limits.0)), numfiles, refused);
      if reopened {
        file.SetSizes(count, total, c);
      }
    }
  }

  /** What is recorded is the directory, however far the counters were off before, exactly when no file can
      refuse that would be evicted if none did: the number then is that of the files left, and the size is in
      any case. Counters have 32 bits, so this is for fewer files. */
  lemma RecordedTellsIff(c: seq<Stats.Counter>, sorted: seq<Cleanup.File>, minfiles: nat, refused: set<string>,
                         free: nat, stop: nat)
    requires |c| == Stats.STATS_END && |sorted| < Snprintf.TWO32
    requires Cleanup.FirstStop(sorted, Limits(c), minfiles, {}, free)
    requires Cleanup.FirstStop(sorted, Limits(c), minfiles, refused, stop)
    ensures var left := Cleanup.Remaining(sorted, stop, refused);
            Tells(Stats.Recorded(c, |sorted| - stop, Cleanup.Sum(left)), left) <==>
              Cleanup.NoneIn(sorted, free, refused)
  {
    Cleanup.CountIsRightIff(sorted, Limits(c), minfiles, refused, free, stop);
    RefusedAreFewer(sorted[..stop], refused);
    var left := Cleanup.Remaining(sorted, stop, refused);
    assert |left| <= |sorted|;
    hide Cleanup.FirstStop, Limits, Cleanup.Remaining, Cleanup.Sum, Cleanup.NoneIn;
    Snprintf.SmallRemainder(|sorted| - stop, Snprintf.TWO32);
    Snprintf.SmallRemainder(|left|, Snprintf.TWO32);
  }

  lemma {:induction false} RefusedAreFewer(s: seq<Cleanup.File>, refused: set<string>)
    ensures |Cleanup.Refused(s, refused)| <= |s|
    decreases |s|
  {
    if s != [] {
      RefusedAreFewer(s[..|s| - 1], refused);
    }
  }

  /** The directory after a cleanup without refusals that has no files to spare. */
  ghost predicate Quiet(maxfiles: nat, maxsize: nat, sorted: seq<Cleanup.File>, stop: nat)
    requires stop <= |sorted|
  {
    (maxfiles == 0 || |sorted| - stop <= maxfiles) && (maxsize == 0 || Cleanup.Sum(sorted[stop..]) <= maxsize)
  }

  /** A cleanup leaves both limits kept, whatever the files, exactly when no limit is 1, which 0.8 truncates to no
      limit at all; but a size limit of 1 does no harm beside a file limit of 2, which leaves no file. */
  lemma QuietIff(maxfiles: nat, maxsize: nat)
    ensures (forall sorted: seq<Cleanup.File>, stop: nat ::
               Cleanup.FirstStop(sorted, Cleanup.Limits(Target(maxsize), Target(maxfiles)), 0, {}, stop) ==>
                 Quiet(maxfiles, maxsize, sorted, stop)) <==>
            maxfiles != 1 && (maxsize == 1 ==> maxfiles == 2)
  {
    var limits := Cleanup.Limits(Target(maxsize), Target(maxfiles));
    if maxfiles != 1 && (maxsize == 1 ==> maxfiles == 2) {
      forall sorted: seq<Cleanup.File>, stop: nat | Cleanup.FirstStop(sorted, limits, 0, {}, stop)
        ensures Quiet(maxfiles, maxsize, sorted, stop)
      {
        Cleanup.EndsWithinLimits(sorted, limits, 0, stop);
        WithinIsQuiet(maxfiles, maxsize, sorted, stop);
      }
    } else if maxfiles == 1 {
      var s := [Cleanup.File("a", 0, 0), Cleanup.File("b", 0, 0)];
      TwoEmpty();
      StaysWhole(s, limits);
      assert !Quiet(maxfiles, maxsize, s, 0);
    } else {
      var s := [Cleanup.File("a", 0, 2)];
      Cleanup.SumOne(s[0]);
      StaysWhole(s, limits);
      assert !Quiet(maxfiles, maxsize, s, 0);
    }
  }

  lemma WithinIsQuiet(maxfiles: nat, maxsize: nat, sorted: seq<Cleanup.File>, stop: nat)
    requires stop <= |sorted| && maxfiles != 1 && (maxsize == 1 ==> maxfiles == 2)
    requires Cleanup.Within(Cleanup.Limits(Target(maxsize), Target(maxfiles)), Cleanup.Sum(sorted[stop..]),
                            |sorted| - stop) ||
             stop == |sorted|
    ensures Quiet(maxfiles, maxsize, sorted, stop)
  {
    assert stop == |sorted| ==> sorted[stop..] == [];
  }

  lemma TwoEmpty()
    ensures Cleanup.Sum([Cleanup.File("a", 0, 0), Cleanup.File("b", 0, 0)]) == 0
  {
    var a, b := Cleanup.File("a", 0, 0), Cleanup.File("b", 0, 0);
    Cleanup.SumConcat([a], [b]);
    Cleanup.SumOne(a);
    Cleanup.SumOne(b);
    assert [a] + [b] == [a, b];
  }

  /** A listing within the limits is left as it is. */
  lemma StaysWhole(s: seq<Cleanup.File>, limits: Cleanup.Limits)
    requires Cleanup.Within(limits, Cleanup.Sum(s), |s|)
    ensures Cleanup.FirstStop(s, limits, 0, {}, 0) && s[0..] == s
  {
    Cleanup.NothingTried(s, {});
  }
}
