// The data collector's campaign (xapps/voiceguard_rf_3ue/collect.py): measurements are appended to
// three lists in memory, and a checkpoint replaces three files one after the other. A process may die
// between any two of these actions, and the next one resumes from what the files hold.
module Collector {
  import opened Policies

  /** The scenario id is a text built from the campaign name, the round and the two scales in percent. */
  datatype Id = Id(campaign: string, round: nat, ue1: int, ue2: int)

  datatype Row = Row(scenario: Id, policy: Policy, index: nat, features: seq<real>, slaOk: bool)

  datatype TrainingRow = TrainingRow(scenario: Id, features: seq<real>, chosen: Policy)

  datatype Summary = Summary(samples: nat, slaSuccess: real, delivery: real, loss: real, jitter: real, rtt: real)

  datatype Result = Result(scenario: Id, sequence: seq<Policy>, chosen: Policy, outcomes: map<Policy, Summary>)

  /** What sample_window reads once a second. */
  datatype Reading = Reading(features: seq<real>, slaOk: bool)

  // ------------------------------------------------------------------------------------------------
  // Labels
  // ------------------------------------------------------------------------------------------------

  predicate Acceptable(s: Summary) {
    s.slaSuccess >= 0.75 && s.delivery >= 0.95 && s.loss <= 2.0 && s.jitter <= 30.0 && s.rtt <= 60.0
  }

  /** random.shuffle of POLICY_ORDER. */
  predicate Shuffled(sequence: seq<Policy>) { multiset(sequence) == multiset(POLICY_ORDER) }

  predicate Measured(outcomes: map<Policy, Summary>) { forall p: Policy :: p in outcomes }

  /** The first acceptable policy from index `i` on, else the last one. */
  function LabelFrom(outcomes: map<Policy, Summary>, i: nat): Policy
    requires Measured(outcomes) && i <= |POLICY_ORDER|
    decreases |POLICY_ORDER| - i
  {
    if i == |POLICY_ORDER| then Strong40
    else if Acceptable(outcomes[POLICY_ORDER[i]]) then POLICY_ORDER[i]
    else LabelFrom(outcomes, i + 1)
  }

  function Label(outcomes: map<Policy, Summary>): Policy
    requires Measured(outcomes)
  {
    LabelFrom(outcomes, 0)
  }

  /** A policy is the label exactly when it is the least restrictive acceptable one; when none is
      acceptable the label is the strongest. */
  lemma LabelIsLeastRestrictive(outcomes: map<Policy, Summary>, p: Policy)
    requires Measured(outcomes)
    ensures Label(outcomes) == p <==>
            (forall q: Policy :: Strength(q) < Strength(p) ==> !Acceptable(outcomes[q])) &&
            (Acceptable(outcomes[p]) || p == Strong40)
  {
    assert Label(outcomes) == LabelFrom(outcomes, 0);
    assert LabelFrom(outcomes, 1) == if Acceptable(outcomes[Light85]) then Light85 else LabelFrom(outcomes, 2);
    assert LabelFrom(outcomes, 2) == if Acceptable(outcomes[Medium70]) then Medium70 else LabelFrom(outcomes, 3);
    assert LabelFrom(outcomes, 3) == Strong40;
    assert Strength(Equal100) == 0 && Strength(Light85) == 1 && Strength(Medium70) == 2;
  }

  /** A summary misses one of the five limits of the voice service. */
  predicate Misses(s: Summary) {
    4.0 * s.slaSuccess < 3.0 || 20.0 * s.delivery < 19.0 || 2.0 < s.loss || 30.0 < s.jitter || 60.0 < s.rtt
  }

  /** The label told by the limits: every weaker policy misses one of them, and the label misses none unless it is
      STRONG_40. */
  lemma LabelByLimits(outcomes: map<Policy, Summary>, p: Policy)
    requires Measured(outcomes)
    ensures Label(outcomes) == p <==>
            match p
            case Equal100 => !Misses(outcomes[Equal100])
            case Light85 => Misses(outcomes[Equal100]) && !Misses(outcomes[Light85])
            case Medium70 => Misses(outcomes[Equal100]) && Misses(outcomes[Light85]) && !Misses(outcomes[Medium70])
            case Strong40 => Misses(outcomes[Equal100]) && Misses(outcomes[Light85]) && Misses(outcomes[Medium70])
  {
    LabelIsLeastRestrictive(outcomes, p);
    hide Label;
    assert Strength(Equal100) == 0 && Strength(Light85) == 1 && Strength(Medium70) == 2 && Strength(Strong40) == 3;
  }

  /** Each of the five limits is needed: a full-scale window that is good but for one measure does not give the label
      EQUAL_100. */
  lemma EachLimitIsNeeded(outcomes: map<Policy, Summary>, s: Summary, x: real)
    requires Measured(outcomes) && !Misses(s)
    ensures Label(outcomes[Equal100 := s]) == Equal100
    ensures x < 0.75 ==> Label(outcomes[Equal100 := s.(slaSuccess := x)]) != Equal100
    ensures x < 0.95 ==> Label(outcomes[Equal100 := s.(delivery := x)]) != Equal100
    ensures x > 2.0 ==> Label(outcomes[Equal100 := s.(loss := x)]) != Equal100
    ensures x > 30.0 ==> Label(outcomes[Equal100 := s.(jitter := x)]) != Equal100
    ensures x > 60.0 ==> Label(outcomes[Equal100 := s.(rtt := x)]) != Equal100
  {
    hide Label;
    LabelByLimits(outcomes[Equal100 := s], Equal100);
    LabelByLimits(outcomes[Equal100 := s.(slaSuccess := x)], Equal100);
    LabelByLimits(outcomes[Equal100 := s.(delivery := x)], Equal100);
    LabelByLimits(outcomes[Equal100 := s.(loss := x)], Equal100);
    LabelByLimits(outcomes[Equal100 := s.(jitter := x)], Equal100);
    LabelByLimits(outcomes[Equal100 := s.(rtt := x)], Equal100);
  }

  // ------------------------------------------------------------------------------------------------
  // Rows of one scenario
  // ------------------------------------------------------------------------------------------------

  function RowsOf(raw: seq<Row>, id: Id): seq<Row> {
    if raw == [] then []
    else if raw[|raw| - 1].scenario == id then RowsOf(raw[..|raw| - 1], id) + [raw[|raw| - 1]]
    else RowsOf(raw[..|raw| - 1], id)
  }

  function TrainingOf(training: seq<TrainingRow>, id: Id): seq<TrainingRow> {
    if training == [] then []
    else if training[|training| - 1].scenario == id then
      TrainingOf(training[..|training| - 1], id) + [training[|training| - 1]]
    else TrainingOf(training[..|training| - 1], id)
  }

  /** The rows that sample_window returns. */
  function Samples(id: Id, p: Policy, readings: seq<Reading>): (rows: seq<Row>)
    ensures |rows| == |readings|
    ensures forall i :: 0 <= i < |rows| ==> rows[i] == Row(id, p, i, readings[i].features, readings[i].slaOk)
  {
    seq(|readings|, i requires 0 <= i < |readings| => Row(id, p, i, readings[i].features, readings[i].slaOk))
  }

  /** `rows` are the windows of the policies in `sequence`, one after the other, each as long as its
      summary says and numbered from zero. */
  predicate Windows(rows: seq<Row>, sequence: seq<Policy>, outcomes: map<Policy, Summary>)
    decreases |sequence|
  {
    if sequence == [] then rows == []
    else
      var p := sequence[|sequence| - 1];
      p in outcomes && 0 < outcomes[p].samples <= |rows| &&
      var start := |rows| - outcomes[p].samples;
      (forall i :: start <= i < |rows| ==> rows[i].policy == p && rows[i].index == i - start) &&
      Windows(rows[..start], sequence[..|sequence| - 1], outcomes)
  }

  function Baseline(rows: seq<Row>): seq<Row> {
    if rows == [] then []
    else if rows[|rows| - 1].policy == Equal100 then Baseline(rows[..|rows| - 1]) + [rows[|rows| - 1]]
    else Baseline(rows[..|rows| - 1])
  }

  /** The training rows made from baseline samples. */
  function Labelled(id: Id, baseline: seq<Row>, chosen: Policy): seq<TrainingRow> {
    seq(|baseline|, i requires 0 <= i < |baseline| => TrainingRow(id, baseline[i].features, chosen))
  }

  /** The lists hold everything that the entry `r` stands for, once: the windows of all four policies in
      the order they were tried, and one training row for each sample of the baseline policy. */
  predicate Complete(raw: seq<Row>, training: seq<TrainingRow>, r: Result) {
    Shuffled(r.sequence) && Measured(r.outcomes) && r.chosen == Label(r.outcomes) &&
    Windows(RowsOf(raw, r.scenario), r.sequence, r.outcomes) &&
    TrainingOf(training, r.scenario) == Labelled(r.scenario, Baseline(RowsOf(raw, r.scenario)), r.chosen)
  }

  predicate Distinct(results: seq<Result>) {
    forall i, j :: 0 <= i < j < |results| ==> results[i].scenario != results[j].scenario
  }

  predicate Listed(results: seq<Result>, id: Id) { exists r :: r in results && r.scenario == id }

  predicate AllComplete(raw: seq<Row>, training: seq<TrainingRow>, results: seq<Result>) {
    Distinct(results) && forall r :: r in results ==> Complete(raw, training, r)
  }

  /** The lists in memory, and also the three files: a missing file reads as an empty list. */
  datatype Lists = Lists(raw: seq<Row>, training: seq<TrainingRow>, results: seq<Result>)

  predicate Consistent(l: Lists) { AllComplete(l.raw, l.training, l.results) }

  lemma {:induction false} RowsConcat(a: seq<Row>, b: seq<Row>, id: Id)
    ensures RowsOf(a + b, id) == RowsOf(a, id) + RowsOf(b, id)
  {
    if b == [] {
      assert a + b == a;
    } else {
      assert (a + b)[..|a + b| - 1] == a + b[..|b| - 1];
      RowsConcat(a, b[..|b| - 1], id);
    }
  }

  lemma {:induction false} RowsAll(rows: seq<Row>, id: Id)
    requires forall row :: row in rows ==> row.scenario == id
    ensures RowsOf(rows, id) == rows
  {
    if rows != [] {
      RowsAll(rows[..|rows| - 1], id);
      assert rows == rows[..|rows| - 1] + [rows[|rows| - 1]];
    }
  }

  lemma {:induction false} RowsNone(rows: seq<Row>, id: Id)
    requires forall row :: row in rows ==> row.scenario != id
    ensures RowsOf(rows, id) == []
  {
    if rows != [] {
      RowsNone(rows[..|rows| - 1], id);
    }
  }

  lemma {:induction false} TrainingNone(rows: seq<TrainingRow>, id: Id)
    requires forall row :: row in rows ==> row.scenario != id
    ensures TrainingOf(rows, id) == []
  {
    if rows != [] {
      TrainingNone(rows[..|rows| - 1], id);
    }
  }

  lemma TrainingSnoc(training: seq<TrainingRow>, row: TrainingRow, id: Id)
    ensures TrainingOf(training + [row], id) == TrainingOf(training, id) + if row.scenario == id then [row] else []
  {
    assert (training + [row])[..|training|] == training;
  }

  lemma {:induction false} BaselineConcat(a: seq<Row>, b: seq<Row>)
    ensures Baseline(a + b) == Baseline(a) + Baseline(b)
  {
    if b == [] {
      assert a + b == a;
    } else {
      assert (a + b)[..|a + b| - 1] == a + b[..|b| - 1];
      BaselineConcat(a, b[..|b| - 1]);
    }
  }

  lemma {:induction false} BaselineOfWindow(rows: seq<Row>, p: Policy)
    requires forall i :: 0 <= i < |rows| ==> rows[i].policy == p
    ensures Baseline(rows) == if p == Equal100 then rows else []
  {
    if rows != [] {
      var front, last := rows[..|rows| - 1], rows[|rows| - 1];
      assert last.policy == p;
      BaselineOfWindow(front, p);
      assert rows == front + [last];
    }
  }

  /** Adding the window of the next policy. */
  lemma WindowsNext(rows: seq<Row>, sequence: seq<Policy>, tried: nat, outcomes: map<Policy, Summary>, more: seq<Row>,
                    s: Summary)
    requires tried < |sequence| && sequence[tried] !in outcomes && 0 < |more| == s.samples
    requires Windows(rows, sequence[..tried], outcomes)
    requires forall i :: 0 <= i < |more| ==> more[i].policy == sequence[tried] && more[i].index == i
    ensures Windows(rows + more, sequence[..tried + 1], outcomes[sequence[tried] := s])
  {
    WindowsKeep(rows, sequence[..tried], outcomes, sequence[tried], s);
    var all := rows + more;
    assert sequence[..tried + 1][..tried] == sequence[..tried];
    assert all[..|all| - s.samples] == rows;
  }

  lemma {:induction false} WindowsKeep(rows: seq<Row>, sequence: seq<Policy>, outcomes: map<Policy, Summary>,
                                       p: Policy, s: Summary)
    requires Windows(rows, sequence, outcomes) && p !in outcomes
    ensures Windows(rows, sequence, outcomes[p := s])
    decreases |sequence|
  {
    if sequence != [] {
      var q := sequence[|sequence| - 1];
      var start := |rows| - outcomes[q].samples;
      WindowsKeep(rows[..start], sequence[..|sequence| - 1], outcomes, p, s);
    }
  }

  // ------------------------------------------------------------------------------------------------
  // Resuming
  // ------------------------------------------------------------------------------------------------

  function KeepRaw(raw: seq<Row>, results: seq<Result>): seq<Row> {
    if raw == [] then []
    else KeepRaw(raw[..|raw| - 1], results) + if Listed(results, raw[|raw| - 1].scenario) then [raw[|raw| - 1]] else []
  }

  function KeepTraining(training: seq<TrainingRow>, results: seq<Result>): seq<TrainingRow> {
    if training == [] then []
    else KeepTraining(training[..|training| - 1], results) +
         if Listed(results, training[|training| - 1].scenario) then [training[|training| - 1]] else []
  }

  /** What a process holds in memory after its start. */
  function Load(disk: Lists, resume: bool): Lists {
    if resume then Lists(KeepRaw(disk.raw, disk.results), KeepTraining(disk.training, disk.results), disk.results)
    else Lists([], [], [])
  }

  lemma {:induction false} KeepRawRows(raw: seq<Row>, results: seq<Result>, id: Id)
    ensures RowsOf(KeepRaw(raw, results), id) == if Listed(results, id) then RowsOf(raw, id) else []
    ensures forall row :: row in KeepRaw(raw, results) ==> Listed(results, row.scenario)
  {
    if raw != [] {
      var front, last := raw[..|raw| - 1], raw[|raw| - 1];
      KeepRawRows(front, results, id);
      hide Listed;
      if Listed(results, last.scenario) {
        var kept := KeepRaw(front, results);
        assert (kept + [last])[..|kept|] == kept;
      } else {
        assert KeepRaw(raw, results) == KeepRaw(front, results);
      }
    }
  }

  lemma {:induction false} KeepTrainingRows(training: seq<TrainingRow>, results: seq<Result>, id: Id)
    ensures TrainingOf(KeepTraining(training, results), id) ==
            if Listed(results, id) then TrainingOf(training, id) else []
    ensures forall row :: row in KeepTraining(training, results) ==> Listed(results, row.scenario)
  {
    if training != [] {
      var front, last := training[..|training| - 1], training[|training| - 1];
      KeepTrainingRows(front, results, id);
      hide Listed;
      if Listed(results, last.scenario) {
        TrainingSnoc(KeepTraining(front, results), last, id);
      } else {
        assert KeepTraining(training, results) == KeepTraining(front, results);
      }
    }
  }

  // ------------------------------------------------------------------------------------------------
  // The campaign as a system of steps
  // ------------------------------------------------------------------------------------------------

  /** Where a process stands. Next: at the head of the scenario loop. Measuring: `tried` policies are
      measured and `trained` training rows appended. Replacing and Final: inside `checkpoint`, after the
      scenario and in the `finally` block. */
  datatype Phase =
    | Down
    | Next
    | Measuring(sequence: seq<Policy>, tried: nat, outcomes: map<Policy, Summary>, baseline: seq<Row>, trained: nat)
    | Replacing(stage: nat)
    | Final(stage: nat, finished: bool)

  datatype Sys = Sys(disk: Lists, mem: Lists, completed: set<Id>, grid: seq<Id>, pos: nat, phase: Phase)

  /** Start: a process starts. Interrupt: an exception or a signal while the loop runs. Crash: the process
      dies, in whatever it is doing. */
  datatype Step =
    | Start(grid: seq<Id>, resume: bool)
    | Skip
    | Begin(sequence: seq<Policy>)
    | Measure(readings: seq<Reading>, summary: Summary)
    | Train
    | Append
    | Replace
    | Interrupt
    | Leave
    | Crash

  predicate NoRepeat(ids: seq<Id>) { forall i, j :: 0 <= i < j < |ids| ==> ids[i] != ids[j] }

  function IdsOf(results: seq<Result>): set<Id> { set r | r in results :: r.scenario }

  predicate Enabled(s: Sys, step: Step) {
    match step
    case Start(grid, resume) => s.phase.Down? && NoRepeat(grid) && (resume || s.disk.results == [])
    case Skip => s.phase.Next? && s.pos < |s.grid| && s.grid[s.pos] in s.completed
    case Begin(sequence) =>
      s.phase.Next? && s.pos < |s.grid| && s.grid[s.pos] !in s.completed && Shuffled(sequence)
    case Measure(readings, summary) =>
      s.phase.Measuring? && s.pos < |s.grid| && s.phase.tried < |s.phase.sequence| && 0 < |readings| == summary.samples
    case Train =>
      s.phase.Measuring? && s.pos < |s.grid| && s.phase.tried == |s.phase.sequence| && Measured(s.phase.outcomes) &&
      s.phase.trained < |s.phase.baseline|
    case Append =>
      s.phase.Measuring? && s.pos < |s.grid| && s.phase.tried == |s.phase.sequence| && Measured(s.phase.outcomes) &&
      s.phase.trained == |s.phase.baseline|
    case Replace => (s.phase.Replacing? || s.phase.Final?) && s.phase.stage < 3
    case Interrupt => s.phase.Next? || s.phase.Measuring? || s.phase.Replacing?
    case Leave =>
      (s.phase.Next? && s.pos == |s.grid|) || (s.phase.Replacing? && s.phase.stage == 3) ||
      (s.phase.Final? && s.phase.stage == 3)
    case Crash => true
  }

  /** checkpoint replaces the raw samples, then the training rows, then the results. */
  function ReplaceFile(disk: Lists, mem: Lists, stage: nat): Lists {
    if stage == 0 then disk.(raw := mem.raw)
    else if stage == 1 then disk.(training := mem.training)
    else disk.(results := mem.results)
  }

  function Do(s: Sys, step: Step): Sys
    requires Enabled(s, step)
  {
    match step
    case Start(grid, resume) =>
      var mem := Load(s.disk, resume);
      Sys(s.disk, mem, IdsOf(mem.results), grid, 0, Next)
    case Skip => s.(pos := s.pos + 1)
    case Begin(sequence) => s.(phase := Measuring(sequence, 0, map[], [], 0))
    case Measure(readings, summary) =>
      var p := s.phase.sequence[s.phase.tried];
      var rows := Samples(s.grid[s.pos], p, readings);
      s.(mem := s.mem.(raw := s.mem.raw + rows),
         phase := Measuring(s.phase.sequence, s.phase.tried + 1, s.phase.outcomes[p := summary],
                            if p == Equal100 then rows else s.phase.baseline, s.phase.trained))
    case Train =>
      var row := s.phase.baseline[s.phase.trained];
      s.(mem := s.mem.(training :=
                         s.mem.training + [TrainingRow(s.grid[s.pos], row.features, Label(s.phase.outcomes))]),
         phase := s.phase.(trained := s.phase.trained + 1))
    case Append =>
      var r := Result(s.grid[s.pos], s.phase.sequence, Label(s.phase.outcomes), s.phase.outcomes);
      s.(mem := s.mem.(results := s.mem.results + [r]), pos := s.pos + 1, phase := Replacing(0))
    case Replace =>
      s.(disk := ReplaceFile(s.disk, s.mem, s.phase.stage), phase := s.phase.(stage := s.phase.stage + 1))
    case Interrupt => s.(phase := Final(0, false))
    case Leave => s.(phase := if s.phase.Next? then Final(0, true) else if s.phase.Replacing? then Next else Down)
    case Crash => s.(phase := Down)
  }

  // ------------------------------------------------------------------------------------------------
  // What every step keeps
  // ------------------------------------------------------------------------------------------------

  ghost predicate SameRows(a: Lists, b: Lists, id: Id) {
    RowsOf(a.raw, id) == RowsOf(b.raw, id) && TrainingOf(a.training, id) == TrainingOf(b.training, id)
  }

  /** Every entry of the results file is still in memory, with the same rows. */
  ghost predicate Agree(mem: Lists, disk: Lists) {
    forall r :: r in disk.results ==> r in mem.results && SameRows(mem, disk, r.scenario)
  }

  /** The lists in memory hold rows of the listed scenarios and of `current` only. */
  ghost predicate OnlyKnown(mem: Lists, current: set<Id>) {
    (forall row :: row in mem.raw ==> Listed(mem.results, row.scenario) || row.scenario in current) &&
    (forall row :: row in mem.training ==> Listed(mem.results, row.scenario) || row.scenario in current)
  }

  /** The scenarios in memory are those that were complete at the start and those the loop has passed. */
  ghost predicate Progress(results: seq<Result>, completed: set<Id>, done: seq<Id>) {
    forall id :: Listed(results, id) <==> id in completed || id in done
  }

  /** The scenario being measured: the windows tried so far, and the training rows appended so far. */
  ghost predicate RawUnderway(rows: seq<Row>, ph: Phase)
    requires ph.Measuring?
  {
    Shuffled(ph.sequence) && ph.tried <= |ph.sequence| &&
    (forall i :: 0 <= i < ph.tried ==> ph.sequence[i] in ph.outcomes) &&
    Windows(rows, ph.sequence[..ph.tried], ph.outcomes) && ph.baseline == Baseline(rows) &&
    (forall i :: ph.tried <= i < |ph.sequence| ==> ph.sequence[i] !in ph.outcomes) &&
    (Equal100 !in ph.outcomes ==> ph.baseline == [])
  }

  ghost predicate TrainingUnderway(rows: seq<TrainingRow>, id: Id, ph: Phase)
    requires ph.Measuring?
  {
    ph.trained <= |ph.baseline| &&
    if ph.tried < |ph.sequence| then ph.trained == 0 && rows == []
    else Measured(ph.outcomes) && rows == Labelled(id, ph.baseline, Label(ph.outcomes))[..ph.trained]
  }

  ghost predicate Underway(mem: Lists, id: Id, ph: Phase)
    requires ph.Measuring?
  {
    RawUnderway(RowsOf(mem.raw, id), ph) && TrainingUnderway(TrainingOf(mem.training, id), id, ph)
  }

  ghost predicate Written(disk: Lists, mem: Lists, stage: nat) {
    stage <= 3 && (stage >= 1 ==> disk.raw == mem.raw) && (stage >= 2 ==> disk.training == mem.training) &&
    (stage >= 3 ==> disk.results == mem.results)
  }

  ghost predicate PhaseOk(s: Sys)
    requires s.pos <= |s.grid|
  {
    match s.phase
    case Down => true
    case Next => Progress(s.mem.results, s.completed, s.grid[..s.pos]) && OnlyKnown(s.mem, {})
    case Measuring(_, _, _, _, _) =>
      s.pos < |s.grid| && s.grid[s.pos] !in s.completed &&
      Progress(s.mem.results, s.completed, s.grid[..s.pos]) && OnlyKnown(s.mem, {s.grid[s.pos]}) &&
      Underway(s.mem, s.grid[s.pos], s.phase)
    case Replacing(stage) =>
      Progress(s.mem.results, s.completed, s.grid[..s.pos]) && OnlyKnown(s.mem, {}) && Written(s.disk, s.mem, stage)
    case Final(stage, finished) =>
      Written(s.disk, s.mem, stage) && (finished ==> forall id :: id in s.grid ==> Listed(s.mem.results, id))
  }

  ghost predicate Inv(s: Sys) {
    Consistent(s.disk) &&
    (!s.phase.Down? ==>
      NoRepeat(s.grid) && s.pos <= |s.grid| && Consistent(s.mem) && Agree(s.mem, s.disk) && PhaseOk(s))
  }

  lemma LoadKeeps(disk: Lists)
    requires Consistent(disk)
    ensures Consistent(Load(disk, true)) && Agree(Load(disk, true), disk) && OnlyKnown(Load(disk, true), {})
  {
    var mem := Load(disk, true);
    forall r | r in disk.results
      ensures SameRows(mem, disk, r.scenario) && Complete(mem.raw, mem.training, r)
    {
      assert Listed(disk.results, r.scenario);
      KeepRawRows(disk.raw, disk.results, r.scenario);
      KeepTrainingRows(disk.training, disk.results, r.scenario);
      assert Complete(disk.raw, disk.training, r);
      hide KeepRaw, KeepTraining, RowsOf, TrainingOf, Windows, Baseline;
      assert SameRows(mem, disk, r.scenario);
    }
    forall row | row in mem.raw ensures Listed(mem.results, row.scenario) {
      KeepRawRows(disk.raw, disk.results, row.scenario);
    }
    forall row | row in mem.training ensures Listed(mem.results, row.scenario) {
      KeepTrainingRows(disk.training, disk.results, row.scenario);
    }
  }

  lemma ListedIsId(results: seq<Result>, id: Id)
    ensures Listed(results, id) <==> id in IdsOf(results)
  {
  }

  /** Lists that grow by rows of scenarios which are not listed stay complete. */
  lemma GrowKeeps(mem: Lists, raw: seq<Row>, training: seq<TrainingRow>, disk: Lists)
    requires Consistent(mem) && Agree(mem, disk)
    requires forall r :: r in mem.results ==>
      RowsOf(raw, r.scenario) == RowsOf(mem.raw, r.scenario) &&
        TrainingOf(training, r.scenario) == TrainingOf(mem.training, r.scenario)
    ensures Consistent(Lists(raw, training, mem.results)) && Agree(Lists(raw, training, mem.results), disk)
  {
    hide RowsOf, TrainingOf, Windows, Baseline;
    var b := Lists(raw, training, mem.results);
    forall r | r in mem.results
      ensures Complete(raw, training, r)
    {
      assert Complete(mem.raw, mem.training, r);
    }
    forall r | r in disk.results
      ensures r in b.results && SameRows(b, disk, r.scenario)
    {
      assert r in mem.results && SameRows(mem, disk, r.scenario);
    }
  }

  lemma ProgressAtStart(results: seq<Result>, done: seq<Id>)
    requires done == []
    ensures Progress(results, IdsOf(results), done)
  {
    forall id: Id
      ensures Listed(results, id) <==> id in IdsOf(results) || id in done
    {
      ListedIsId(results, id);
    }
  }

  lemma StartKeeps(s: Sys, grid: seq<Id>, resume: bool)
    requires Inv(s) && Enabled(s, Start(grid, resume))
    ensures Inv(Do(s, Start(grid, resume)))
  {
    if resume {
      LoadKeeps(s.disk);
    }
    var mem := Load(s.disk, resume);
    ProgressAtStart(mem.results, grid[..0]);
    hide Consistent, Agree, OnlyKnown, Progress, Load;
    assert Consistent(mem) && Agree(mem, s.disk) && OnlyKnown(mem, {}) by {
      if !resume {
        FreshLists(s.disk);
      }
    }
  }

  lemma FreshLists(disk: Lists)
    requires disk.results == []
    ensures Load(disk, false) == Lists([], [], [])
    ensures Consistent(Lists([], [], [])) && Agree(Lists([], [], []), disk) && OnlyKnown(Lists([], [], []), {})
  {
  }

  lemma MeasureRows(mem: Lists, id: Id, rows: seq<Row>, other: Id)
    requires forall row :: row in rows ==> row.scenario == id
    ensures RowsOf(mem.raw + rows, other) == RowsOf(mem.raw, other) + if other == id then rows else []
  {
    RowsConcat(mem.raw, rows, other);
    if other == id {
      RowsAll(rows, id);
    } else {
      RowsNone(rows, other);
    }
  }

  lemma MeasureRaw(was: seq<Row>, id: Id, ph: Phase, readings: seq<Reading>, summary: Summary)
    requires ph.Measuring? && RawUnderway(was, ph) && ph.tried < |ph.sequence| && 0 < |readings| == summary.samples
    ensures var p := ph.sequence[ph.tried];
            var rows := Samples(id, p, readings);
            RawUnderway(was + rows,
                        Measuring(ph.sequence, ph.tried + 1, ph.outcomes[p := summary],
                                  if p == Equal100 then rows else ph.baseline, ph.trained))
  {
    hide Windows, Baseline, Samples;
    var p := ph.sequence[ph.tried];
    var rows := Samples(id, p, readings);
    PermutationIsDistinct(ph.sequence);
    hide Shuffled;
    WindowsNext(was, ph.sequence, ph.tried, ph.outcomes, rows, summary);
    MeasureBaseline(was, rows, p);
  }

  lemma MeasureBaseline(was: seq<Row>, rows: seq<Row>, p: Policy)
    requires forall i :: 0 <= i < |rows| ==> rows[i].policy == p
    requires p == Equal100 ==> Baseline(was) == []
    ensures Baseline(was + rows) == if p == Equal100 then rows else Baseline(was)
  {
    BaselineConcat(was, rows);
    BaselineOfWindow(rows, p);
    assert p != Equal100 ==> Baseline(was) + [] == Baseline(was);
  }

  lemma MeasureUnderway(mem: Lists, id: Id, ph: Phase, readings: seq<Reading>, summary: Summary)
    requires ph.Measuring? && Underway(mem, id, ph) && ph.tried < |ph.sequence| && 0 < |readings| == summary.samples
    ensures var p := ph.sequence[ph.tried];
            var rows := Samples(id, p, readings);
            Underway(mem.(raw := mem.raw + rows), id,
                     Measuring(ph.sequence, ph.tried + 1, ph.outcomes[p := summary],
                               if p == Equal100 then rows else ph.baseline, ph.trained))
  {
    var p := ph.sequence[ph.tried];
    MeasureRows(mem, id, Samples(id, p, readings), id);
    MeasureRaw(RowsOf(mem.raw, id), id, ph, readings, summary);
    if ph.tried + 1 == |ph.sequence| {
      AllTried(ph.sequence, ph.outcomes[p := summary]);
    }
    hide RawUnderway, RowsOf, TrainingOf, Label;
  }

  lemma PermutationIsDistinct(sequence: seq<Policy>)
    requires Shuffled(sequence)
    ensures |sequence| == 4 && forall i, j :: 0 <= i < j < |sequence| ==> sequence[i] != sequence[j]
  {
    assert |multiset(sequence)| == 4;
    assert forall p: Policy :: multiset(POLICY_ORDER)[p] <= 1;
    forall i, j | 0 <= i < j < |sequence|
      ensures sequence[i] != sequence[j]
    {
      Twice(sequence, i, j);
    }
  }

  lemma Twice(sequence: seq<Policy>, i: nat, j: nat)
    requires i < j < |sequence|
    ensures sequence[i] == sequence[j] ==> multiset(sequence)[sequence[i]] >= 2
  {
    var a, b, c := sequence[..i], sequence[i + 1..j], sequence[j + 1..];
    assert sequence == a + [sequence[i]] + b + [sequence[j]] + c;
  }

  lemma AllTried(sequence: seq<Policy>, outcomes: map<Policy, Summary>)
    requires Shuffled(sequence)
    requires forall i :: 0 <= i < |sequence| ==> sequence[i] in outcomes
    ensures Measured(outcomes)
  {
    forall p: Policy
      ensures p in outcomes
    {
      assert p == POLICY_ORDER[Strength(p)];
      assert p in POLICY_ORDER;
      assert p in multiset(POLICY_ORDER);
      assert p in multiset(sequence);
      assert p in sequence;
    }
  }

  lemma MeasureLists(mem: Lists, disk: Lists, id: Id, rows: seq<Row>)
    requires Consistent(mem) && Agree(mem, disk) && OnlyKnown(mem, {id})
    requires forall row :: row in rows ==> row.scenario == id
    requires forall r :: r in mem.results ==> r.scenario != id
    ensures var next := mem.(raw := mem.raw + rows); Consistent(next) && Agree(next, disk) && OnlyKnown(next, {id})
  {
    forall r | r in mem.results
      ensures RowsOf(mem.raw + rows, r.scenario) == RowsOf(mem.raw, r.scenario)
    {
      MeasureRows(mem, id, rows, r.scenario);
    }
    GrowKeeps(mem, mem.raw + rows, mem.training, disk);
    hide Consistent, Agree, Listed;
  }

  lemma MeasureKeeps(s: Sys, readings: seq<Reading>, summary: Summary)
    requires Inv(s) && Enabled(s, Measure(readings, summary))
    ensures Inv(Do(s, Measure(readings, summary)))
  {
    hide Consistent, Agree, OnlyKnown, Progress, Underway, Listed, Label;
    var id, p := s.grid[s.pos], s.phase.sequence[s.phase.tried];
    MeasureUnderway(s.mem, id, s.phase, readings, summary);
    NotListed(s, id);
    MeasureLists(s.mem, s.disk, id, Samples(id, p, readings));
    hide Samples;
  }

  lemma NotListed(s: Sys, id: Id)
    requires Inv(s) && s.phase.Measuring? && id == s.grid[s.pos]
    ensures forall r :: r in s.mem.results ==> r.scenario != id
  {
    hide Consistent, Agree, OnlyKnown, Underway;
    assert id !in s.grid[..s.pos];
    forall r | r in s.mem.results
      ensures r.scenario != id
    {
      assert Listed(s.mem.results, r.scenario);
    }
  }

  lemma SkipKeeps(s: Sys)
    requires Inv(s) && Enabled(s, Skip)
    ensures Inv(Do(s, Skip))
  {
    hide Consistent, Agree, OnlyKnown, Listed;
    var before, after := s.grid[..s.pos], s.grid[..s.pos + 1];
    assert after == before + [s.grid[s.pos]];
    assert Progress(s.mem.results, s.completed, after);
  }

  lemma BeginKeeps(s: Sys, sequence: seq<Policy>)
    requires Inv(s) && Enabled(s, Begin(sequence))
    ensures Inv(Do(s, Begin(sequence)))
  {
    var id := s.grid[s.pos];
    hide Consistent, Agree, Label;
    assert !Listed(s.mem.results, id) by {
      hide OnlyKnown, Listed;
      assert id !in s.grid[..s.pos];
    }
    BeginUnderway(s.mem, id, sequence);
    hide Listed, Progress, Shuffled, Underway;
    assert OnlyKnown(s.mem, {id});
    hide OnlyKnown;
  }

  lemma BeginUnderway(mem: Lists, id: Id, sequence: seq<Policy>)
    requires OnlyKnown(mem, {}) && !Listed(mem.results, id) && Shuffled(sequence)
    ensures Underway(mem, id, Measuring(sequence, 0, map[], [], 0))
  {
    RowsNone(mem.raw, id);
    TrainingNone(mem.training, id);
    PermutationIsDistinct(sequence);
    hide Listed, Shuffled, OnlyKnown;
  }

  lemma TrainLists(mem: Lists, disk: Lists, row: TrainingRow)
    requires Consistent(mem) && Agree(mem, disk) && OnlyKnown(mem, {row.scenario})
    requires forall r :: r in mem.results ==> r.scenario != row.scenario
    ensures var next := mem.(training := mem.training + [row]);
            Consistent(next) && Agree(next, disk) && OnlyKnown(next, {row.scenario})
  {
    forall r | r in mem.results
      ensures TrainingOf(mem.training + [row], r.scenario) == TrainingOf(mem.training, r.scenario)
    {
      TrainingSnoc(mem.training, row, r.scenario);
    }
    GrowKeeps(mem, mem.raw, mem.training + [row], disk);
    hide Consistent, Agree, Listed;
  }

  lemma TrainUnderway(rows: seq<TrainingRow>, id: Id, ph: Phase)
    requires ph.Measuring? && TrainingUnderway(rows, id, ph)
    requires ph.tried == |ph.sequence| && Measured(ph.outcomes) && ph.trained < |ph.baseline|
    ensures TrainingUnderway(rows + [TrainingRow(id, ph.baseline[ph.trained].features, Label(ph.outcomes))], id,
                             ph.(trained := ph.trained + 1))
  {
    hide Label;
    var all := Labelled(id, ph.baseline, Label(ph.outcomes));
    assert all[..ph.trained + 1] == all[..ph.trained] + [all[ph.trained]];
  }

  lemma TrainKeeps(s: Sys)
    requires Inv(s) && Enabled(s, Train)
    ensures Inv(Do(s, Train))
  {
    hide Consistent, Agree, OnlyKnown, Progress, Listed, Label, RawUnderway, TrainingUnderway, RowsOf, TrainingOf;
    hide Labelled;
    var id := s.grid[s.pos];
    var row := TrainingRow(id, s.phase.baseline[s.phase.trained].features, Label(s.phase.outcomes));
    NotListed(s, id);
    TrainLists(s.mem, s.disk, row);
    TrainUnderway(TrainingOf(s.mem.training, id), id, s.phase);
    TrainingSnoc(s.mem.training, row, id);
    RawSame(RowsOf(s.mem.raw, id), s.phase);
  }

  lemma RawSame(rows: seq<Row>, ph: Phase)
    requires ph.Measuring? && RawUnderway(rows, ph)
    ensures RawUnderway(rows, ph.(trained := ph.trained + 1))
  {
    hide Windows, Baseline, Shuffled;
  }

  /** A scenario whose measurement is over is complete in memory. */
  lemma UnderwayIsComplete(mem: Lists, id: Id, ph: Phase)
    requires ph.Measuring? && Underway(mem, id, ph)
    requires ph.tried == |ph.sequence| && Measured(ph.outcomes) && ph.trained == |ph.baseline|
    ensures Complete(mem.raw, mem.training, Result(id, ph.sequence, Label(ph.outcomes), ph.outcomes))
  {
    hide Windows, Baseline, Shuffled, Label, RowsOf, TrainingOf;
    assert ph.sequence[..ph.tried] == ph.sequence;
    var all := Labelled(id, ph.baseline, Label(ph.outcomes));
    assert all[..ph.trained] == all;
  }

  lemma AppendLists(mem: Lists, disk: Lists, r: Result)
    requires Consistent(mem) && Agree(mem, disk) && OnlyKnown(mem, {r.scenario})
    requires Complete(mem.raw, mem.training, r) && forall q :: q in mem.results ==> q.scenario != r.scenario
    ensures var next := mem.(results := mem.results + [r]); Consistent(next) && Agree(next, disk) && OnlyKnown(next, {})
  {
    hide Complete, RowsOf, TrainingOf;
    var next := mem.(results := mem.results + [r]);
    assert forall q :: q in next.results <==> q in mem.results || q == r;
    assert r in next.results;
    forall id: Id
      ensures Listed(next.results, id) <==> Listed(mem.results, id) || id == r.scenario
    {
      AppendListed(mem.results, r, id);
    }
    assert Distinct(next.results);
    hide Listed, Distinct;
    assert OnlyKnown(next, {});
  }

  lemma AppendListed(results: seq<Result>, r: Result, id: Id)
    ensures Listed(results + [r], id) <==> Listed(results, id) || id == r.scenario
  {
    var next := results + [r];
    assert forall q :: q in next <==> q in results || q == r;
    if id == r.scenario {
      assert r in next;
    }
  }

  lemma AppendKeeps(s: Sys)
    requires Inv(s) && Enabled(s, Append)
    ensures Inv(Do(s, Append))
  {
    hide Consistent, Agree, OnlyKnown, Listed, Label, Complete, Underway;
    var id := s.grid[s.pos];
    var r := Result(id, s.phase.sequence, Label(s.phase.outcomes), s.phase.outcomes);
    UnderwayIsComplete(s.mem, id, s.phase);
    NotListed(s, id);
    AppendLists(s.mem, s.disk, r);
    ProgressGrows(s.mem.results, r, s.completed, s.grid, s.pos);
    hide Progress;
  }

  lemma ProgressGrows(results: seq<Result>, r: Result, completed: set<Id>, grid: seq<Id>, pos: nat)
    requires pos < |grid| && r.scenario == grid[pos] && Progress(results, completed, grid[..pos])
    ensures Progress(results + [r], completed, grid[..pos + 1])
  {
    hide Listed;
    assert grid[..pos + 1] == grid[..pos] + [grid[pos]];
    forall id: Id
      ensures Listed(results + [r], id) <==> id in completed || id in grid[..pos + 1]
    {
      AppendListed(results, r, id);
    }
  }

  /** Between two replacements the files mix two states of the lists, and every listed scenario is still
      complete. */
  lemma ReplaceLists(mem: Lists, disk: Lists, stage: nat)
    requires stage < 3 && Consistent(mem) && Consistent(disk) && Agree(mem, disk) && Written(disk, mem, stage)
    ensures var next := ReplaceFile(disk, mem, stage);
            Consistent(next) && Agree(mem, next) && Written(next, mem, stage + 1)
  {
    var next := ReplaceFile(disk, mem, stage);
    hide RowsOf, TrainingOf, Windows, Baseline, Labelled, Label;
    if stage == 2 {
      assert next == mem;
    } else {
      forall r | r in next.results
        ensures SameRows(mem, next, r.scenario) && r in mem.results && Complete(next.raw, next.training, r)
      {
        assert SameRows(mem, disk, r.scenario);
        assert Complete(disk.raw, disk.training, r);
      }
    }
  }

  lemma ReplaceKeeps(s: Sys)
    requires Inv(s) && Enabled(s, Replace)
    ensures Inv(Do(s, Replace))
  {
    ReplaceLists(s.mem, s.disk, s.phase.stage);
    hide Consistent, Agree, OnlyKnown, Progress, Listed;
  }

  /** Every step keeps the invariant, wherever it stops. */
  lemma StepKeeps(s: Sys, step: Step)
    requires Inv(s) && Enabled(s, step)
    ensures Inv(Do(s, step))
  {
    match step
    case Start(grid, resume) => StartKeeps(s, grid, resume);
    case Skip => SkipKeeps(s);
    case Begin(sequence) => BeginKeeps(s, sequence);
    case Measure(readings, summary) => MeasureKeeps(s, readings, summary);
    case Train => TrainKeeps(s);
    case Append => AppendKeeps(s);
    case Replace => ReplaceKeeps(s);
    case _ => OtherKeeps(s, step);
  }

  lemma OtherKeeps(s: Sys, step: Step)
    requires Inv(s) && Enabled(s, step) && (step.Interrupt? || step.Leave? || step.Crash?)
    ensures Inv(Do(s, step))
  {
    hide Consistent, Agree, OnlyKnown, Listed;
    assert s.phase.Next? && s.pos == |s.grid| ==> s.grid[..s.pos] == s.grid;
  }

  // ------------------------------------------------------------------------------------------------
  // Whole campaigns
  // ------------------------------------------------------------------------------------------------

  ghost predicate Possible(s: Sys, run: seq<Step>)
    decreases |run|
  {
    run == [] || (Enabled(s, run[0]) && Possible(Do(s, run[0]), run[1..]))
  }

  function Campaign(s: Sys, run: seq<Step>): Sys
    requires Possible(s, run)
    decreases |run|
  {
    if run == [] then s else Campaign(Do(s, run[0]), run[1..])
  }

  /** Nothing was collected yet; the files do not exist. */
  const EMPTY: Sys := Sys(Lists([], [], []), Lists([], [], []), {}, [], 0, Down)

  lemma {:induction false} RunKeeps(s: Sys, run: seq<Step>)
    requires Inv(s) && Possible(s, run)
    ensures Inv(Campaign(s, run))
    decreases |run|
  {
    hide Inv, Do, Enabled;
    if run != [] {
      StepKeeps(s, run[0]);
      RunKeeps(Do(s, run[0]), run[1..]);
    }
  }

  /** However often the campaign was interrupted or killed, and at whatever point, every scenario that the
      results file lists is there once, with its complete rows. */
  lemma FilesAreConsistent(run: seq<Step>)
    requires Possible(EMPTY, run)
    ensures Consistent(Campaign(EMPTY, run).disk)
  {
    assert Inv(EMPTY);
    RunKeeps(EMPTY, run);
    hide Consistent;
  }

  predicate Occurrences(results: seq<Result>, id: Id, k: nat) {
    k < |results| && results[k].scenario == id && forall i :: 0 <= i < |results| && results[i].scenario == id ==> i == k
  }

  /** When a process has run to its end, the files hold every scenario of its grid exactly once. */
  lemma FinishedHoldsGrid(run: seq<Step>, id: Id)
    requires Possible(EMPTY, run)
    requires var s := Campaign(EMPTY, run); s.phase == Final(3, true) && id in s.grid
    ensures var disk := Campaign(EMPTY, run).disk;
            exists k: nat :: Occurrences(disk.results, id, k) && Complete(disk.raw, disk.training, disk.results[k])
  {
    assert Inv(EMPTY);
    RunKeeps(EMPTY, run);
    var s := Campaign(EMPTY, run);
    hide Campaign, Possible, Complete, Agree, OnlyKnown;
    assert Listed(s.disk.results, id);
    var r :| r in s.disk.results && r.scenario == id;
    var k :| 0 <= k < |s.disk.results| && s.disk.results[k] == r;
    assert Occurrences(s.disk.results, id, k);
  }

  /** A completed scenario is never lost or measured again: its entry and its rows stay as they are. */
  lemma StepKeepsResult(s: Sys, step: Step, r: Result)
    requires Inv(s) && Enabled(s, step) && r in s.disk.results
    ensures r in Do(s, step).disk.results && SameRows(s.disk, Do(s, step).disk, r.scenario)
  {
    hide Consistent, OnlyKnown, Progress, Listed, RowsOf, TrainingOf, Load, Label;
    if step.Replace? {
      assert SameRows(s.mem, s.disk, r.scenario);
    }
  }

  lemma {:induction false} ResultsStay(s: Sys, run: seq<Step>, r: Result)
    requires Inv(s) && Possible(s, run) && r in s.disk.results
    ensures r in Campaign(s, run).disk.results && SameRows(s.disk, Campaign(s, run).disk, r.scenario)
    decreases |run|
  {
    hide Inv, Do, Enabled, RowsOf, TrainingOf;
    if run != [] {
      StepKeeps(s, run[0]);
      StepKeepsResult(s, run[0], r);
      ResultsStay(Do(s, run[0]), run[1..], r);
    }
  }

  /** A restart without --resume, stopped before its first sample, in the `finally` block after the first
      file was replaced. */
  function FreshCut(disk: Lists): Lists { ReplaceFile(disk, Load(disk, false), 0) }

  /** Such a restart is harmless exactly when no scenario was complete yet. */
  lemma FreshRestartIff(disk: Lists)
    requires Consistent(disk)
    ensures Consistent(FreshCut(disk)) <==> disk.results == []
  {
    var cut := FreshCut(disk);
    assert cut == Lists([], disk.training, disk.results);
    if disk.results != [] {
      var r := disk.results[0];
      assert RowsOf([], r.scenario) == [];
      assert Shuffled(r.sequence) by {
        assert Complete(disk.raw, disk.training, r);
      }
      PermutationIsDistinct(r.sequence);
      assert !Windows([], r.sequence, r.outcomes);
    }
  }

  const FINE: Summary := Summary(1, 1.0, 1.0, 0.0, 0.0, 0.0)
  const SCENARIO: Id := Id("c", 1, 25, 25)

  /** One sample for each policy. */
  function FourRows(): (rows: seq<Row>)
    ensures |rows| == 4
    ensures forall i :: 0 <= i < 4 ==> rows[i] == Row(SCENARIO, POLICY_ORDER[i], 0, [], true)
  {
    seq(4, i requires 0 <= i < 4 => Row(SCENARIO, POLICY_ORDER[i], 0, [], true))
  }

  function AllFine(): map<Policy, Summary> {
    map[Equal100 := FINE, Light85 := FINE, Medium70 := FINE, Strong40 := FINE]
  }

  lemma AllFineIs(p: Policy)
    ensures p in AllFine() && AllFine()[p] == FINE
  {
    match p case Equal100 => case Light85 => case Medium70 => case Strong40 =>
  }

  /** A campaign of one scenario, complete in the three files. */
  function OneScenario(): Lists {
    Lists(FourRows(), [TrainingRow(SCENARIO, [], Equal100)], [Result(SCENARIO, POLICY_ORDER, Equal100, AllFine())])
  }

  lemma OneScenarioIsConsistent()
    ensures Consistent(OneScenario())
  {
    forall p: Policy
      ensures p in AllFine() && AllFine()[p] == FINE
    {
      AllFineIs(p);
    }
    OneIsComplete(FourRows(), AllFine());
    hide Complete, FourRows, AllFine;
    OnlyOne(OneScenario(), OneScenario().results[0]);
  }

  lemma OnlyOne(l: Lists, r: Result)
    requires l.results == [r] && Complete(l.raw, l.training, r)
    ensures Consistent(l)
  {
    hide Complete;
  }

  lemma {:induction false} OneIsComplete(rows: seq<Row>, outcomes: map<Policy, Summary>)
    requires |rows| == 4 && forall i :: 0 <= i < 4 ==> rows[i] == Row(SCENARIO, POLICY_ORDER[i], 0, [], true)
    requires forall p: Policy :: p in outcomes && outcomes[p] == FINE
    ensures Complete(rows, [TrainingRow(SCENARIO, [], Equal100)], Result(SCENARIO, POLICY_ORDER, Equal100, outcomes))
  {
    hide Complete, Windows, Baseline, RowsOf, TrainingOf, Labelled, Label;
    var row := TrainingRow(SCENARIO, [], Equal100);
    RowsAll(rows, SCENARIO);
    FourWindows(rows, outcomes);
    FourBaseline(rows);
    OneTraining(row, SCENARIO);
    OneLabelled(row, rows[0]);
    FirstAcceptable(outcomes);
    assert Shuffled(POLICY_ORDER);
    hide Shuffled;
    CompleteIs(rows, [row], Result(SCENARIO, POLICY_ORDER, Equal100, outcomes));
  }

  lemma OneLabelled(row: TrainingRow, sample: Row)
    requires row.features == sample.features
    ensures Labelled(row.scenario, [sample], row.chosen) == [row]
  {
  }

  lemma CompleteIs(raw: seq<Row>, training: seq<TrainingRow>, r: Result)
    requires Shuffled(r.sequence) && Measured(r.outcomes) && r.chosen == Label(r.outcomes)
    requires RowsOf(raw, r.scenario) == raw && Windows(raw, r.sequence, r.outcomes)
    requires TrainingOf(training, r.scenario) == training == Labelled(r.scenario, Baseline(raw), r.chosen)
    ensures Complete(raw, training, r)
  {
    hide RowsOf, Windows, TrainingOf, Labelled, Baseline, Label, Shuffled;
  }

  lemma FirstAcceptable(outcomes: map<Policy, Summary>)
    requires Measured(outcomes) && Acceptable(outcomes[Equal100])
    ensures Label(outcomes) == Equal100
  {
  }

  lemma OneTraining(row: TrainingRow, id: Id)
    requires row.scenario == id
    ensures TrainingOf([row], id) == [row]
  {
    TrainingSnoc([], row, id);
    assert [] + [row] == [row];
  }

  lemma {:induction false} FourBaseline(rows: seq<Row>)
    requires |rows| == 4 && forall i :: 0 <= i < 4 ==> rows[i].policy == POLICY_ORDER[i]
    ensures Baseline(rows) == [rows[0]]
  {
    assert rows == [rows[0]] + rows[1..];
    BaselineConcat([rows[0]], rows[1..]);
    BaselineOfWindow([rows[0]], Equal100);
    NoBaseline(rows[1..]);
  }

  lemma {:induction false} FourWindows(rows: seq<Row>, outcomes: map<Policy, Summary>)
    requires |rows| == 4 && forall i :: 0 <= i < 4 ==> rows[i].policy == POLICY_ORDER[i] && rows[i].index == 0
    requires forall i :: 0 <= i < 4 ==> POLICY_ORDER[i] in outcomes && outcomes[POLICY_ORDER[i]].samples == 1
    ensures Windows(rows, POLICY_ORDER, outcomes)
  {
    assert Windows(rows[..0], POLICY_ORDER[..0], outcomes);
    hide Windows;
    OneMore(rows, outcomes, 0);
    OneMore(rows, outcomes, 1);
    OneMore(rows, outcomes, 2);
    OneMore(rows, outcomes, 3);
    assert rows[..4] == rows && POLICY_ORDER[..4] == POLICY_ORDER;
  }

  lemma OneMore(rows: seq<Row>, outcomes: map<Policy, Summary>, n: nat)
    requires n < 4 == |rows| && POLICY_ORDER[n] in outcomes && outcomes[POLICY_ORDER[n]].samples == 1
    requires rows[n].policy == POLICY_ORDER[n] && rows[n].index == 0 && Windows(rows[..n], POLICY_ORDER[..n], outcomes)
    ensures Windows(rows[..n + 1], POLICY_ORDER[..n + 1], outcomes)
  {
    assert rows[..n + 1][..n] == rows[..n] && POLICY_ORDER[..n + 1][..n] == POLICY_ORDER[..n];
  }

  lemma {:induction false} NoBaseline(rows: seq<Row>)
    requires forall i :: 0 <= i < |rows| ==> rows[i].policy != Equal100
    ensures Baseline(rows) == []
  {
    if rows != [] {
      NoBaseline(rows[..|rows| - 1]);
    }
  }

  /** These files, after a restart without --resume that is stopped in its first checkpoint, list a scenario
      whose samples are gone. */
  lemma FreshRestartLosesRows()
    ensures Consistent(OneScenario()) && !Consistent(FreshCut(OneScenario()))
    ensures FreshCut(OneScenario()).raw == [] && FreshCut(OneScenario()).results == OneScenario().results
  {
    OneScenarioIsConsistent();
    FreshRestartIff(OneScenario());
    hide Consistent;
  }
}
