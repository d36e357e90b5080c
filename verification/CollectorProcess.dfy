// The collector process itself: the loops of collect.py over its lists and files, each method tied to the
// steps of module Collector.
module CollectorProcess {
  import opened Collector
  import opened Policies

  /** `ordered` takes from the two ends of `pairs` in turn, front first. */
  predicate Alternates(ordered: seq<(real, real)>, pairs: seq<(real, real)>) {
    |ordered| <= |pairs| && forall i :: 0 <= i < |ordered| ==> ordered[i] == pairs[TurnOf(i, |pairs|)]
  }

  function TurnOf(i: nat, n: nat): (k: nat)
    requires i < n
    ensures k < n
  {
    if i % 2 == 0 then i / 2 else n - 1 - i / 2
  }

  /** The `while pairs` loop of scenario_grid. */
  method Alternate(all: seq<(real, real)>) returns (ordered: seq<(real, real)>)
    ensures |ordered| == |all| && Alternates(ordered, all)
    ensures multiset(ordered) == multiset(all)
  {
    var pairs := all;
    ordered := [];
    ghost var front: nat := 0;
    while pairs != []
      invariant |ordered| + |pairs| == |all| && Alternates(ordered, all)
      invariant pairs != [] ==> |ordered| == 2 * front && pairs == all[front..|all| - front]
      invariant multiset(ordered) + multiset(pairs) == multiset(all)
      decreases |pairs|
    {
      ordered, pairs := TakeTwo(ordered, pairs, all, front);
      front := front + 1;
    }
  }

  method TakeTwo(taken: seq<(real, real)>, left: seq<(real, real)>, ghost all: seq<(real, real)>, ghost front: nat)
      returns (ordered: seq<(real, real)>, pairs: seq<(real, real)>)
    requires |taken| + |left| == |all| && |taken| == 2 * front && left != [] && left == all[front..|all| - front]
    requires Alternates(taken, all)
    ensures |ordered| + |pairs| == |all| && |pairs| < |left| && Alternates(ordered, all)
    ensures pairs != [] ==> |ordered| == 2 * front + 2 && pairs == all[front + 1..|all| - (front + 1)]
    ensures multiset(ordered) + multiset(pairs) == multiset(taken) + multiset(left)
  {
    hide *;
    Take(taken, all, front);
    MoveFirst(taken, left);
    ordered, pairs := taken + [left[0]], left[1..];
    assert pairs == all[front + 1..|all| - front];
    if pairs != [] {
      Take(ordered, all, front);
      MoveLast(ordered, pairs);
      assert pairs[|pairs| - 1] == all[|all| - 1 - front];
      ordered, pairs := ordered + [pairs[|pairs| - 1]], pairs[..|pairs| - 1];
      assert pairs == all[front + 1..|all| - (front + 1)];
    }
  }

  lemma MoveFirst(to: seq<(real, real)>, from: seq<(real, real)>)
    requires from != []
    ensures multiset(to + [from[0]]) + multiset(from[1..]) == multiset(to) + multiset(from)
  {
    assert from == [from[0]] + from[1..];
  }

  lemma MoveLast(to: seq<(real, real)>, from: seq<(real, real)>)
    requires from != []
    ensures multiset(to + [from[|from| - 1]]) + multiset(from[..|from| - 1]) == multiset(to) + multiset(from)
  {
    assert from == from[..|from| - 1] + [from[|from| - 1]];
  }

  lemma Take(ordered: seq<(real, real)>, all: seq<(real, real)>, front: nat)
    requires Alternates(ordered, all) && |ordered| < |all| && 2 * front <= |ordered| <= 2 * front + 1
    ensures Alternates(ordered + [all[if |ordered| == 2 * front then front else |all| - 1 - front]], all)
  {
  }

  function RoundIds(campaign: string, round: nat, pairs: seq<(real, real)>, percent: real -> int): (ids: seq<Id>)
    ensures |ids| == |pairs| && forall k :: 0 <= k < |ids| ==> ids[k].round == round
  {
    seq(|pairs|, i requires 0 <= i < |pairs| => Id(campaign, round, percent(pairs[i].0), percent(pairs[i].1)))
  }

  /** The ids of all rounds. `percent` is int(scale * 100), whatever the rounding of binary arithmetic makes of
      it. */
  function GridIds(campaign: string, rounds: nat, pairs: seq<(real, real)>, percent: real -> int): seq<Id> {
    if rounds == 0 then []
    else GridIds(campaign, rounds - 1, pairs, percent) + RoundIds(campaign, rounds, pairs, percent)
  }

  /** The list comprehension over the levels, twice. */
  function AllPairs(levels: seq<real>): (pairs: seq<(real, real)>)
    ensures |pairs| == |levels| * |levels|
  {
    PairRows(levels, |levels|)
  }

  function PairRows(levels: seq<real>, n: nat): (pairs: seq<(real, real)>)
    requires n <= |levels|
    ensures |pairs| == n * |levels|
  {
    if n == 0 then [] else PairRows(levels, n - 1) + PairRow(levels, levels[n - 1])
  }

  function PairRow(levels: seq<real>, x: real): (pairs: seq<(real, real)>)
    ensures |pairs| == |levels|
  {
    seq(|levels|, i requires 0 <= i < |levels| => (x, levels[i]))
  }

  /** scenario_grid and the ids main makes from it; `pairs` are the pairs of levels as they were sorted. */
  method ScenarioGrid(campaign: string, rounds: nat, pairs: seq<(real, real)>, percent: real -> int)
      returns (grid: seq<Id>, ghost ordered: seq<(real, real)>)
    ensures |ordered| == |pairs| && Alternates(ordered, pairs) && multiset(ordered) == multiset(pairs)
    ensures grid == GridIds(campaign, rounds, ordered, percent)
  {
    var taken := Alternate(pairs);
    ordered, grid := taken, [];
    for round := 0 to rounds
      invariant grid == GridIds(campaign, round, taken, percent)
    {
      ghost var before := grid;
      for i := 0 to |taken|
        invariant grid == before + RoundIds(campaign, round + 1, taken, percent)[..i]
      {
        grid := grid + [Id(campaign, round + 1, percent(taken[i].0), percent(taken[i].1))];
      }
      assert RoundIds(campaign, round + 1, taken, percent)[..|taken|] == RoundIds(campaign, round + 1, taken, percent);
    }
  }

  predicate DistinctPercents(pairs: seq<(real, real)>, percent: real -> int) {
    forall i, j :: 0 <= i < j < |pairs| ==>
      percent(pairs[i].0) != percent(pairs[j].0) || percent(pairs[i].1) != percent(pairs[j].1)
  }

  lemma {:induction false} GridRounds(campaign: string, rounds: nat, pairs: seq<(real, real)>, percent: real -> int)
    ensures forall id :: id in GridIds(campaign, rounds, pairs, percent) ==> 1 <= id.round <= rounds
  {
    if rounds > 0 {
      GridRounds(campaign, rounds - 1, pairs, percent);
      assert forall id :: id in RoundIds(campaign, rounds, pairs, percent) ==> id.round == rounds;
    }
  }

  lemma RoundDistinct(campaign: string, round: nat, pairs: seq<(real, real)>, percent: real -> int)
    ensures NoRepeat(RoundIds(campaign, round, pairs, percent)) <==> DistinctPercents(pairs, percent)
  {
    var ids := RoundIds(campaign, round, pairs, percent);
    assert forall i :: 0 <= i < |pairs| ==> ids[i] == Id(campaign, round, percent(pairs[i].0), percent(pairs[i].1));
  }

  lemma NoRepeatConcat(a: seq<Id>, b: seq<Id>)
    requires forall i, j :: 0 <= i < |a| && 0 <= j < |b| ==> a[i] != b[j]
    ensures NoRepeat(a + b) <==> NoRepeat(a) && NoRepeat(b)
  {
    var c := a + b;
    if NoRepeat(c) {
      forall i, j | 0 <= i < j < |b|
        ensures b[i] != b[j]
      {
        assert c[|a| + i] == b[i] && c[|a| + j] == b[j];
      }
      forall i, j | 0 <= i < j < |a|
        ensures a[i] != a[j]
      {
        assert c[i] == a[i] && c[j] == a[j];
      }
    }
  }

  /** The ids of a grid are distinct exactly when no two pairs have the same percents. */
  lemma {:induction false} GridPairsDistinct(campaign: string, rounds: nat, pairs: seq<(real, real)>,
                                             percent: real -> int)
    requires rounds > 0
    ensures NoRepeat(GridIds(campaign, rounds, pairs, percent)) <==> DistinctPercents(pairs, percent)
    decreases rounds
  {
    var front, last := GridIds(campaign, rounds - 1, pairs, percent), RoundIds(campaign, rounds, pairs, percent);
    GridRounds(campaign, rounds - 1, pairs, percent);
    assert GridIds(campaign, rounds, pairs, percent) == front + last;
    assert rounds == 1 ==> front == [];
    hide GridIds, RoundIds;
    assert forall i :: 0 <= i < |front| ==> front[i] in front && front[i].round < rounds;
    NoRepeatConcat(front, last);
    RoundDistinct(campaign, rounds, pairs, percent);
    if rounds > 1 {
      GridPairsDistinct(campaign, rounds - 1, pairs, percent);
    }
  }

  predicate DistinctLevels(levels: seq<real>, percent: real -> int) {
    forall i, j :: 0 <= i < j < |levels| ==> percent(levels[i]) != percent(levels[j])
  }

  /** Where the pair of two levels stands. */
  lemma {:induction false} PairAt(levels: seq<real>, n: nat, i: nat, j: nat)
    requires i < n <= |levels| && j < |levels|
    ensures 0 <= i * |levels| + j < n * |levels|
    ensures PairRows(levels, n)[i * |levels| + j] == (levels[i], levels[j])
    decreases n
  {
    RowBounds(|levels|, n, i, j);
    if i < n - 1 {
      PairAt(levels, n - 1, i, j);
    }
  }

  lemma RowBounds(m: nat, n: nat, i: nat, j: nat)
    requires i < n && j < m
    ensures 0 <= i * m + j < n * m
  {
    Times(i + 1, n, m);
    Times(0, i, m);
  }

  lemma Times(a: int, b: int, m: nat)
    requires a <= b
    ensures a * m <= b * m && (a - 1) * m + m == a * m
  {
    assert (b - a) * m >= 0;
  }

  /** Every place of the pairs is that of two levels. */
  lemma PairPlace(m: nat, k: nat) returns (i: nat, j: nat)
    requires k < m * m
    ensures i < m && j < m && k == i * m + j
  {
    i, j := k / m, k % m;
    assert k == i * m + j;
    BelowSquare(m, i, j);
  }

  lemma BelowSquare(m: nat, i: nat, j: nat)
    requires i * m + j < m * m
    ensures i < m
  {
    if m <= i {
      Times(m, i, m);
    }
  }

  lemma AllPairsDistinct(levels: seq<real>, percent: real -> int)
    ensures DistinctPercents(AllPairs(levels), percent) <==> DistinctLevels(levels, percent)
  {
    var pairs, m := AllPairs(levels), |levels|;
    if DistinctLevels(levels, percent) {
      forall k, l | 0 <= k < l < |pairs|
        ensures percent(pairs[k].0) != percent(pairs[l].0) || percent(pairs[k].1) != percent(pairs[l].1)
      {
        var i, j := PairPlace(m, k);
        var i', j' := PairPlace(m, l);
        PairAt(levels, m, i, j);
        PairAt(levels, m, i', j');
        assert i != i' || j != j';
      }
    }
    if DistinctPercents(pairs, percent) {
      forall i, j | 0 <= i < j < m
        ensures percent(levels[i]) != percent(levels[j])
      {
        PairAt(levels, m, 0, i);
        PairAt(levels, m, 0, j);
      }
    }
  }

  /** The order of the pairs is of no importance. */
  lemma DistinctInAnyOrder(a: seq<(real, real)>, b: seq<(real, real)>, percent: real -> int)
    requires multiset(a) == multiset(b) && DistinctPercents(a, percent)
    ensures DistinctPercents(b, percent)
  {
    forall i, j | 0 <= i < j < |b|
      ensures percent(b[i].0) != percent(b[j].0) || percent(b[i].1) != percent(b[j].1)
    {
      assert b[i] in multiset(b) && b[j] in multiset(b);
      var k :| 0 <= k < |a| && a[k] == b[i];
      var l :| 0 <= l < |a| && a[l] == b[j];
      if k == l {
        TwiceIn(b, i, j);
        OnceIn(a, k, percent);
      }
    }
  }

  lemma TwiceIn<T>(s: seq<T>, i: nat, j: nat)
    requires i < j < |s| && s[i] == s[j]
    ensures multiset(s)[s[i]] >= 2
  {
    assert s == s[..j] + [s[j]] + s[j + 1..];
    assert s[i] in s[..j];
  }

  lemma OnceIn(s: seq<(real, real)>, k: nat, percent: real -> int)
    requires k < |s| && DistinctPercents(s, percent)
    ensures multiset(s)[s[k]] == 1
  {
    assert s == s[..k] + [s[k]] + s[k + 1..];
    assert s[k] !in s[..k] && s[k] !in s[k + 1..];
  }

  /** The ids of a grid are distinct exactly when no two levels have the same percent, whatever the rounding of
      int(scale * 100), the sorting of the pairs and the alternation do: the condition under which a campaign
      measures each of its scenarios once. */
  lemma GridIdsDistinctIff(campaign: string, rounds: nat, levels: seq<real>, ordered: seq<(real, real)>,
                           percent: real -> int)
    requires rounds > 0 && multiset(ordered) == multiset(AllPairs(levels))
    ensures NoRepeat(GridIds(campaign, rounds, ordered, percent)) <==> DistinctLevels(levels, percent)
  {
    GridPairsDistinct(campaign, rounds, ordered, percent);
    AllPairsDistinct(levels, percent);
    hide *;
    if DistinctPercents(ordered, percent) {
      DistinctInAnyOrder(ordered, AllPairs(levels), percent);
    }
    if DistinctPercents(AllPairs(levels), percent) {
      DistinctInAnyOrder(AllPairs(levels), ordered, percent);
    }
  }

  /** 0.29 * 100 is below 29 in binary, so int makes 28 of it as of 0.28: with these levels one id stands for
      two scenarios. */
  lemma BinaryLevelsCollide(campaign: string, rounds: nat, ordered: seq<(real, real)>, percent: real -> int)
    requires rounds > 0 && multiset(ordered) == multiset(AllPairs([0.28, 0.29])) && percent(0.28) == percent(0.29) == 28
    ensures !NoRepeat(GridIds(campaign, rounds, ordered, percent))
  {
    var levels := [0.28, 0.29];
    assert percent(levels[0]) == percent(levels[1]);
    GridIdsDistinctIff(campaign, rounds, levels, ordered, percent);
  }

  /** The levels 0.251 and 0.252 collide even without rounding. */
  lemma CloseLevelsCollide(campaign: string, rounds: nat, ordered: seq<(real, real)>, percent: real -> int)
    requires rounds > 0 && multiset(ordered) == multiset(AllPairs([0.251, 0.252]))
    requires forall x :: percent(x) == (x * 100.0).Floor
    ensures !NoRepeat(GridIds(campaign, rounds, ordered, percent))
  {
    var levels := [0.251, 0.252];
    assert percent(levels[0]) == 25 && percent(levels[1]) == 25;
    GridIdsDistinctIff(campaign, rounds, levels, ordered, percent);
  }

  // ------------------------------------------------------------------------------------------------
  // The process
  // ------------------------------------------------------------------------------------------------

  /** What the environment supplies for one scenario: the shuffled order and one window per policy. */
  datatype Plan = Plan(sequence: seq<Policy>, readings: seq<seq<Reading>>, summaries: seq<Summary>)

  predicate PlanOk(plan: Plan) {
    Shuffled(plan.sequence) && |plan.readings| == |plan.summaries| == |plan.sequence| &&
    forall i :: 0 <= i < |plan.sequence| ==> 0 < |plan.readings[i]| == plan.summaries[i].samples
  }

  /** The set comprehension that lists the completed scenarios. */
  method Completed(results: seq<Result>) returns (completed: set<Id>)
    ensures completed == IdsOf(results)
  {
    completed := {};
    for i := 0 to |results|
      invariant completed == IdsOf(results[..i])
    {
      assert results[..i + 1] == results[..i] + [results[i]];
      completed := completed + {results[i].scenario};
    }
    assert results[..|results|] == results;
  }

  method CompletedRaw(rows: seq<Row>, results: seq<Result>, completed: set<Id>) returns (kept: seq<Row>)
    requires completed == IdsOf(results)
    ensures kept == KeepRaw(rows, results)
  {
    kept := [];
    for i := 0 to |rows|
      invariant kept == KeepRaw(rows[..i], results)
    {
      assert rows[..i + 1][..i] == rows[..i];
      ListedIsId(results, rows[i].scenario);
      if rows[i].scenario in completed {
        kept := kept + [rows[i]];
      }
    }
    assert rows[..|rows|] == rows;
  }

  method CompletedTraining(rows: seq<TrainingRow>, results: seq<Result>, completed: set<Id>)
      returns (kept: seq<TrainingRow>)
    requires completed == IdsOf(results)
    ensures kept == KeepTraining(rows, results)
  {
    kept := [];
    for i := 0 to |rows|
      invariant kept == KeepTraining(rows[..i], results)
    {
      assert rows[..i + 1][..i] == rows[..i];
      ListedIsId(results, rows[i].scenario);
      if rows[i].scenario in completed {
        kept := kept + [rows[i]];
      }
    }
    assert rows[..|rows|] == rows;
  }

  /** The raw rows and the outcomes of the first `n` policies of a plan. */
  function PlanRows(id: Id, plan: Plan, n: nat): seq<Row>
    requires n <= |plan.sequence| == |plan.readings|
  {
    if n == 0 then [] else PlanRows(id, plan, n - 1) + Samples(id, plan.sequence[n - 1], plan.readings[n - 1])
  }

  function Outcomes(plan: Plan, n: nat): map<Policy, Summary>
    requires n <= |plan.sequence| == |plan.summaries|
  {
    if n == 0 then map[] else Outcomes(plan, n - 1)[plan.sequence[n - 1] := plan.summaries[n - 1]]
  }

  class Process {
    /** The three files. */
    var disk: Lists
    /** The three lists. */
    var raw: seq<Row>
    var training: seq<TrainingRow>
    var results: seq<Result>
    var completed: set<Id>
    var grid: seq<Id>
    var pos: nat
    ghost var phase: Phase

    ghost function Abs(): Sys
      reads this
    {
      Sys(disk, Lists(raw, training, results), completed, grid, pos, phase)
    }

    /** The start of `main` with --resume. */
    method Resume(ids: seq<Id>)
      requires Inv(Abs()) && phase.Down? && NoRepeat(ids)
      modifies this
      ensures Inv(Abs()) && Abs() == Do(old(Abs()), Start(ids, true))
      ensures grid == ids && pos == 0 && phase.Next? && disk == old(disk) && results == disk.results
    {
      StepKeeps(Abs(), Start(ids, true));
      hide Inv, KeepRaw, KeepTraining, IdsOf;
      results := disk.results;
      completed := Completed(results);
      raw := CompletedRaw(disk.raw, results, completed);
      training := CompletedTraining(disk.training, results, completed);
      grid, pos, phase := ids, 0, Next;
    }

    /** The start of `main` without --resume: the lists are empty, the files stay until the first checkpoint. */
    method StartFresh(ids: seq<Id>)
      requires phase.Down?
      modifies this
      ensures Abs() == Sys(old(disk), Lists([], [], []), {}, ids, 0, Next)
      ensures Inv(old(Abs())) && NoRepeat(ids) && old(disk).results == [] ==> Inv(Abs())
    {
      if Inv(Abs()) && NoRepeat(ids) && disk.results == [] {
        StepKeeps(Abs(), Start(ids, false));
      }
      raw, training, results, completed := [], [], [], {};
      grid, pos, phase := ids, 0, Next;
    }

    /** The start of a scenario: no policy is tried yet. */
    method BeginScenario(plan: Plan)
      requires Inv(Abs()) && Enabled(Abs(), Begin(plan.sequence))
      modifies this`phase
      ensures Inv(Abs()) && phase == Measuring(plan.sequence, 0, map[], [], 0)
    {
      StepKeeps(Abs(), Begin(plan.sequence));
      hide Inv, Shuffled;
      phase := Measuring(plan.sequence, 0, map[], [], 0);
    }

    /** One turn of the policy loop: the window is appended to the raw rows, its summary is recorded, and
        the window of EQUAL_100 becomes the baseline. */
    method TryPolicy(plan: Plan, i: nat, outcomes: map<Policy, Summary>, baseline: seq<Row>)
        returns (recorded: map<Policy, Summary>, base: seq<Row>)
      requires PlanOk(plan) && i < |plan.sequence| && pos < |grid|
      requires Inv(Abs()) && phase == Measuring(plan.sequence, i, outcomes, baseline, 0)
      modifies this`raw, this`phase
      ensures Inv(Abs()) && phase == Measuring(plan.sequence, i + 1, recorded, base, 0)
      ensures raw == old(raw) + Samples(grid[pos], plan.sequence[i], plan.readings[i])
      ensures recorded == outcomes[plan.sequence[i] := plan.summaries[i]]
    {
      hide Inv, Shuffled;
      StepKeeps(Abs(), Measure(plan.readings[i], plan.summaries[i]));
      var policy := plan.sequence[i];
      var samples := Samples(grid[pos], policy, plan.readings[i]);
      raw := raw + samples;
      recorded := outcomes[policy := plan.summaries[i]];
      base := if policy == Equal100 then samples else baseline;
      phase := Measuring(plan.sequence, i + 1, recorded, base, 0);
    }

    /** The policy loop of one scenario. */
    method TryPolicies(plan: Plan) returns (outcomes: map<Policy, Summary>, baseline: seq<Row>)
      requires PlanOk(plan) && pos < |grid|
      requires Inv(Abs()) && phase == Measuring(plan.sequence, 0, map[], [], 0)
      modifies this`raw, this`phase
      ensures Inv(Abs()) && phase == Measuring(plan.sequence, |plan.sequence|, outcomes, baseline, 0)
      ensures raw == old(raw) + PlanRows(grid[pos], plan, |plan.sequence|)
      ensures outcomes == Outcomes(plan, |plan.sequence|)
    {
      hide Inv, Samples;
      outcomes, baseline := map[], [];
      for i := 0 to |plan.sequence|
        invariant Inv(Abs()) && phase == Measuring(plan.sequence, i, outcomes, baseline, 0)
        invariant raw == old(raw) + PlanRows(grid[pos], plan, i) && outcomes == Outcomes(plan, i)
      {
        outcomes, baseline := TryPolicy(plan, i, outcomes, baseline);
      }
    }

    /** The training loop: the baseline samples are appended with the chosen label. */
    method AppendTraining(sequence: seq<Policy>, outcomes: map<Policy, Summary>, baseline: seq<Row>)
      requires Measured(outcomes) && pos < |grid|
      requires Inv(Abs()) && phase == Measuring(sequence, |sequence|, outcomes, baseline, 0)
      modifies this`training, this`phase
      ensures Inv(Abs()) && phase == Measuring(sequence, |sequence|, outcomes, baseline, |baseline|)
    {
      hide Inv, Label;
      var chosen := Label(outcomes);
      for i := 0 to |baseline|
        invariant Inv(Abs()) && phase == Measuring(sequence, |sequence|, outcomes, baseline, i)
      {
        StepKeeps(Abs(), Train);
        training := training + [TrainingRow(grid[pos], baseline[i].features, chosen)];
        phase := Measuring(sequence, |sequence|, outcomes, baseline, i + 1);
      }
    }

    /** The new entry of the results. */
    method AppendResult(sequence: seq<Policy>, outcomes: map<Policy, Summary>, ghost baseline: seq<Row>)
      requires Measured(outcomes) && pos < |grid|
      requires Inv(Abs()) && phase == Measuring(sequence, |sequence|, outcomes, baseline, |baseline|)
      modifies this`results, this`pos, this`phase
      ensures Inv(Abs()) && phase == Replacing(0) && pos == old(pos) + 1
      ensures results == old(results) + [Result(grid[old(pos)], sequence, Label(outcomes), outcomes)]
    {
      hide Inv, Label;
      StepKeeps(Abs(), Append);
      results := results + [Result(grid[pos], sequence, Label(outcomes), outcomes)];
      pos := pos + 1;
      phase := Replacing(0);
    }

    /** One scenario: its windows are measured in the order of the plan and its result is appended. */
    method RunScenario(plan: Plan)
      requires Inv(Abs()) && Enabled(Abs(), Begin(plan.sequence)) && PlanOk(plan)
      modifies this`raw, this`training, this`results, this`pos, this`phase
      ensures Inv(Abs()) && phase == Replacing(0) && pos == old(pos) + 1
      ensures raw == old(raw) + PlanRows(grid[old(pos)], plan, |plan.sequence|)
      ensures var outcomes := Outcomes(plan, |plan.sequence|);
              Measured(outcomes) &&
                results == old(results) + [Result(grid[old(pos)], plan.sequence, Label(outcomes), outcomes)]
    {
      hide Inv, Shuffled, Label, Samples, PlanRows, Outcomes, Do;
      BeginScenario(plan);
      var outcomes, baseline := TryPolicies(plan);
      AllMeasured(Abs());
      AppendTraining(plan.sequence, outcomes, baseline);
      AppendResult(plan.sequence, outcomes, baseline);
    }

    /** checkpoint. */
    method Checkpoint()
      requires Inv(Abs()) && (phase.Replacing? || phase.Final?) && phase.stage == 0
      modifies this`disk, this`phase
      ensures Inv(Abs()) && phase == old(phase).(stage := 3)
      ensures disk == Lists(raw, training, results)
    {
      hide Inv;
      StepKeeps(Abs(), Replace);
      disk := disk.(raw := raw);
      phase := phase.(stage := 1);
      StepKeeps(Abs(), Replace);
      disk := disk.(training := training);
      phase := phase.(stage := 2);
      StepKeeps(Abs(), Replace);
      disk := disk.(results := results);
      phase := phase.(stage := 3);
    }

    /** `main` with --resume, run to its end: each scenario of the grid is in the files exactly once, with
        its complete rows, after those that were complete before. */
    method Collect(ids: seq<Id>, plans: seq<Plan>)
      requires Inv(Abs()) && phase.Down? && NoRepeat(ids)
      requires |plans| == |ids| && forall i :: 0 <= i < |plans| ==> PlanOk(plans[i])
      modifies this
      ensures Inv(Abs()) && phase == Final(3, true) && grid == ids
      ensures Consistent(disk) && old(disk.results) <= disk.results
      ensures forall id :: id in ids ==> Listed(disk.results, id)
    {
      Resume(ids);
      hide Inv, Do, Load;
      while pos < |grid|
        invariant Inv(Abs()) && phase.Next? && pos <= |grid| && grid == ids && old(disk.results) <= results
        decreases |grid| - pos
      {
        NextScenario(plans[pos]);
      }
      Finish();
      FinishedFacts(Abs());
    }

    /** One turn of the scenario loop. */
    method NextScenario(plan: Plan)
      requires Inv(Abs()) && phase.Next? && pos < |grid| && PlanOk(plan)
      modifies this
      ensures Inv(Abs()) && phase.Next? && pos == old(pos) + 1 && grid == old(grid)
      ensures old(results) <= results
    {
      hide Inv, Label, PlanRows, Outcomes;
      if grid[pos] in completed {
        StepKeeps(Abs(), Skip);
        pos := pos + 1;
      } else {
        RunScenario(plan);
        Checkpoint();
        StepKeeps(Abs(), Leave);
        phase := Next;
      }
    }

    /** The `finally` block after a whole run. */
    method Finish()
      requires Inv(Abs()) && phase.Next? && pos == |grid|
      modifies this`disk, this`phase
      ensures Inv(Abs()) && phase == Final(3, true) && disk == Lists(raw, training, results)
    {
      hide Inv;
      StepKeeps(Abs(), Leave);
      phase := Final(0, true);
      Checkpoint();
    }
  }

  lemma AllMeasured(s: Sys)
    requires Inv(s) && s.phase.Measuring? && s.phase.tried == |s.phase.sequence|
    ensures Measured(s.phase.outcomes)
  {
    hide Consistent, Agree, OnlyKnown, Progress, Listed, RawUnderway;
  }

  lemma FinishedFacts(s: Sys)
    requires Inv(s) && s.phase == Final(3, true)
    ensures Consistent(s.disk) && forall id :: id in s.grid ==> Listed(s.disk.results, id)
  {
    hide Consistent, Agree, Listed;
  }
}
