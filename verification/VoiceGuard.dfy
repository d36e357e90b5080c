// The control loop of the VoiceGuard RF runtime (xapps/voiceguard_rf/voiceguard_rf.py): one decision of
// the model per call, escalation on sustained evidence, gradual restore in silence.
module VoiceGuard {
  import opened Options
  import opened Policies

  /** `window` is the number of samples the model is given, `required` the evidence for an escalation. */
  datatype Config = Config(closed: bool, window: int, required: int, restoreStep: real, quantile: Option<real>)

  /** `named` is None for a class outside POLICY_SCALES. */
  datatype Prediction = Prediction(named: Option<Policy>, probabilities: map<Policy, real>)

  /** One turn of the loop as the environment plays it. Unreadable: the request for the traffic failed.
      `healthy` is the SLA of the median features, `model` is None when the inference fails, and `writes`
      tells whether a write of the control file would succeed. */
  datatype Sample =
    | Unreadable
    | Sample(time: real, signature: seq<string>, healthy: bool, model: Option<Prediction>, writes: bool)

  /** The variables of the loop, and the video scale that the control file holds. `history` is the length
      of the feature history. */
  datatype Loop = Loop(policy: Policy, predicted: Policy, signature: seq<string>, decided: bool, history: nat,
                       bad: nat, stable: nat, restoreAt: real, control: real)

  /** The loop is entered after the baseline was written. */
  const START: Loop := Loop(Equal100, Equal100, [], false, 0, 0, 0, 0.0, 1.0)

  /** The length of history[-window:]. */
  function Trim(length: nat, window: int): nat {
    if window > 0 then if length < window then length else window
    else if window == 0 then length
    else if length + window > 0 then length + window
    else 0
  }

  /** A new combination of calls, or silence, starts the evidence over. */
  function Signature(s: Loop, x: Sample): Loop
    requires x.Sample?
  {
    if x.signature == s.signature then s
    else if x.signature != [] then s.(history := 0, decided := false, bad := 0, stable := 0, signature := x.signature)
    else s.(history := 0, decided := false, restoreAt := x.time, signature := x.signature)
  }

  function Append(c: Config, s: Loop): Loop { s.(history := Trim(s.history + 1, c.window)) }

  function Count(s: Loop, x: Sample): Loop
    requires x.Sample?
  {
    s.(bad := if x.signature != [] && !x.healthy then s.bad + 1 else 0,
       stable := if x.signature != [] && x.healthy then s.stable + 1 else 0)
  }

  /** The choice of the model: the weakest policy whose cumulative probability reaches the quantile, or the
      most likely class when there is no quantile. */
  ghost predicate Chosen(c: Config, m: Prediction, p: Policy) {
    match c.quantile
    case None => p == (match m.named case None => Strong40 case Some(named) => named)
    case Some(q) => IsQuantile(m.probabilities, q, p)
  }

  function Choice(c: Config, m: Prediction): (p: Policy)
    ensures Chosen(c, m, p)
  {
    match c.quantile
    case None => (match m.named case None => Strong40 case Some(named) => named)
    case Some(q) => Quantile(m.probabilities, q, 0)
  }

  function Quantile(probabilities: map<Policy, real>, q: real, k: nat): (p: Policy)
    requires k < 4 && forall i :: 0 <= i < k ==> Through(probabilities, i) < q
    ensures IsQuantile(probabilities, q, p)
    decreases 4 - k
  {
    assert forall i :: 0 <= i < 4 ==> Strength(POLICY_ORDER[i]) == i;
    if Through(probabilities, k) >= q then POLICY_ORDER[k]
    else if k == 3 then Strong40
    else Quantile(probabilities, q, k + 1)
  }

  /** A change of policy: in a closed loop the control file is written, unless the write fails. */
  function Apply(s: Loop, p: Policy, writes: bool): Loop {
    if p == s.policy then s else s.(policy := p, control := if writes then Scale(p) else s.control)
  }

  /** The first full window of a call. */
  function Decide(c: Config, s: Loop, x: Sample): Loop
    requires x.Sample?
  {
    if x.model.None? then s
    else
      var p := Choice(c, x.model.value);
      var t := s.(predicted := p, decided := true, bad := 0, stable := 0);
      if c.closed then Apply(t, p, x.writes) else t
  }

  function Stronger(p: Policy): Policy { POLICY_ORDER[if Strength(p) + 1 < 4 then Strength(p) + 1 else 3] }

  function Weaker(p: Policy): Policy { POLICY_ORDER[if Strength(p) > 0 then Strength(p) - 1 else 0] }

  function Escalate(c: Config, s: Loop, x: Sample): Loop
    requires x.Sample?
  {
    if s.bad < c.required then s
    else
      var t := s.(bad := 0, stable := 0);
      if c.closed then Apply(t, Stronger(s.policy), x.writes) else t
  }

  /** One level down, not before `restoreAt`; a write that fails leaves `restoreAt` as it is. */
  function Restore(c: Config, s: Loop, x: Sample): Loop
    requires x.Sample?
  {
    if c.closed && s.policy != Equal100 && x.time >= s.restoreAt then
      var t := Apply(s, Weaker(s.policy), x.writes);
      if x.writes then t.(restoreAt := x.time + c.restoreStep) else t
    else s
  }

  /** One turn of the loop. */
  function Step(c: Config, s: Loop, x: Sample): Loop {
    if x.Unreadable? then s
    else
      var t := Append(c, Signature(s, x));
      // The median of no samples is an error.
      if t.history == 0 then t
      else
        var u := Count(t, x);
        if x.signature == [] then Restore(c, u, x)
        else if u.history < c.window then u
        else if !u.decided then Decide(c, u, x)
        else Escalate(c, u, x)
  }

  /** The sample got as far as the counters. */
  predicate Processed(c: Config, s: Loop, x: Sample) {
    x.Sample? && Append(c, Signature(s, x)).history > 0
  }

  function Run(c: Config, s: Loop, xs: seq<Sample>): Loop {
    if xs == [] then s else Step(c, Run(c, s, xs[..|xs| - 1]), xs[|xs| - 1])
  }

  /** The state before sample `k`. */
  function At(c: Config, s: Loop, xs: seq<Sample>, k: nat): Loop
    requires k <= |xs|
  {
    Run(c, s, xs[..k])
  }

  lemma AtStart(c: Config, s: Loop, xs: seq<Sample>)
    ensures At(c, s, xs, 0) == s
  {
    assert xs[..0] == [];
  }

  lemma AtNext(c: Config, s: Loop, xs: seq<Sample>, k: nat)
    requires k < |xs|
    ensures At(c, s, xs, k + 1) == Step(c, At(c, s, xs, k), xs[k])
  {
    assert xs[..k + 1][..k] == xs[..k];
  }

  // ------------------------------------------------------------------------------------------------
  // The control file
  // ------------------------------------------------------------------------------------------------

  predicate InStep(s: Loop) { s.control == Scale(s.policy) }

  predicate Written(s: Loop, t: Loop, writes: bool) {
    t.control == if t.policy != s.policy && writes then Scale(t.policy) else s.control
  }

  lemma BranchesWrite(c: Config, s: Loop, x: Sample)
    requires x.Sample?
    ensures Written(s, Decide(c, s, x), x.writes) && Written(s, Escalate(c, s, x), x.writes) &&
            Written(s, Restore(c, s, x), x.writes)
  {
    hide Choice, Scale, Stronger, Weaker;
  }

  /** The control file is written exactly when the policy changes. */
  lemma WritesOnChange(c: Config, s: Loop, x: Sample)
    ensures Written(s, Step(c, s, x), x.Sample? && x.writes)
  {
    if x.Sample? {
      BranchesWrite(c, Count(Append(c, Signature(s, x)), x), x);
    }
    hide Decide, Escalate, Restore, Trim, Scale;
  }

  /** The samples at which the loop changes the policy, told from what is known before the sample is acted
      on: in silence when protection is left and the time has come, at the first full window of a call when
      the model chooses another policy, later in a call when the evidence is complete and a stronger policy
      is left. */
  predicate Changes(c: Config, s: Loop, x: Sample) {
    x.Sample? && c.closed &&
    var again := x.signature == s.signature;
    var history := Trim((if again then s.history else 0) + 1, c.window);
    history > 0 &&
    if x.signature == [] then s.policy != Equal100 && (again ==> x.time >= s.restoreAt)
    else
      history >= c.window &&
      if again && s.decided then (if x.healthy then 0 else s.bad + 1) >= c.required && s.policy != Strong40
      else x.model.Some? && Choice(c, x.model.value) != s.policy
  }

  lemma ChangesIff(c: Config, s: Loop, x: Sample)
    ensures Step(c, s, x).policy != s.policy <==> Changes(c, s, x)
  {
    if x.Sample? {
      BranchesChange(c, Count(Append(c, Signature(s, x)), x), x);
    }
    hide Trim, Choice, Decide, Escalate, Restore;
  }

  lemma BranchesChange(c: Config, u: Loop, x: Sample)
    requires x.Sample?
    ensures Restore(c, u, x).policy != u.policy <==> c.closed && u.policy != Equal100 && x.time >= u.restoreAt
    ensures Decide(c, u, x).policy != u.policy <==> c.closed && x.model.Some? && Choice(c, x.model.value) != u.policy
    ensures Escalate(c, u, x).policy != u.policy <==> c.closed && u.bad >= c.required && u.policy != Strong40
  {
    StrongerIff(u.policy);
    hide Choice, Scale, Stronger, Weaker;
  }

  lemma StrongerIff(p: Policy)
    ensures Stronger(p) == p <==> p == Strong40
    ensures Weaker(p) == p <==> p == Equal100
  {
  }

  /** Once the file agrees with the policy, a sample leaves it so exactly when it does not call for a change
      whose write fails. */
  lemma InStepIff(c: Config, s: Loop, x: Sample)
    requires InStep(s)
    ensures InStep(Step(c, s, x)) <==> !(Changes(c, s, x) && !x.writes)
  {
    var p, q := s.policy, Step(c, s, x).policy;
    WritesOnChange(c, s, x);
    ChangesIff(c, s, x);
    assert Changes(c, s, x) ==> x.Sample?;
    hide Step, Changes;
    ScaleFalls(p, q);
    ScaleFalls(q, p);
    assert p == POLICY_ORDER[Strength(p)] && q == POLICY_ORDER[Strength(q)];
    hide Scale;
  }

  /** In silence, one level above EQUAL_100: the write of the restore fails, the policy is EQUAL_100 and the
      file still slows the video down. */
  lemma FailedWriteLeavesFileBehind()
    ensures var c := Config(true, 3, 3, 3.0, None);
            var s := START.(policy := Light85, control := 0.85);
            var t := Step(c, s, Sample(1.0, [], true, None, false));
            InStep(s) && t.policy == Equal100 && t.control == 0.85 && !InStep(t)
  {
  }

  /** As long as no write fails, the file holds the scale of the current policy after every sample. */
  lemma {:induction false} AlwaysInStep(c: Config, xs: seq<Sample>)
    requires forall k :: 0 <= k < |xs| && xs[k].Sample? ==> xs[k].writes
    ensures InStep(Run(c, START, xs))
    decreases |xs|
  {
    if xs != [] {
      AlwaysInStep(c, xs[..|xs| - 1]);
      InStepIff(c, Run(c, START, xs[..|xs| - 1]), xs[|xs| - 1]);
      hide Step, InStep;
    }
  }

  /** A runtime that only observes never slows the video down. */
  lemma {:induction false} ObserveOnly(c: Config, xs: seq<Sample>)
    requires !c.closed
    ensures Run(c, START, xs).policy == Equal100 && Run(c, START, xs).control == 1.0
    decreases |xs|
  {
    if xs != [] {
      ObserveOnly(c, xs[..|xs| - 1]);
      hide Choice, Trim;
    }
  }

  /** The `finally` block. */
  function Stop(s: Loop, writes: bool): Loop { if writes then s.(control := 1.0) else s }

  // ------------------------------------------------------------------------------------------------
  // During a call
  // ------------------------------------------------------------------------------------------------

  /** The same combination of calls lasts, and its decision is taken. */
  predicate InCall(s: Loop, xs: seq<Sample>) {
    s.signature != [] && s.decided && forall k :: 0 <= k < |xs| && xs[k].Sample? ==> xs[k].signature == s.signature
  }

  /** One turn in a call: the level stays or rises by one, and it rises only when the counter of unhealthy
      samples has reached the required number. */
  lemma CallStep(c: Config, s: Loop, x: Sample)
    requires s.signature != [] && s.decided && (x.Sample? ==> x.signature == s.signature)
    ensures var t := Step(c, s, x);
            t.signature == s.signature && t.decided &&
              Strength(s.policy) <= Strength(t.policy) <= Strength(s.policy) + 1 &&
            (!Processed(c, s, x) ==> t.bad == s.bad && t.policy == s.policy) &&
            (Processed(c, s, x) ==>
               var bad := if x.healthy then 0 else s.bad + 1;
               t.bad == (if c.window <= Append(c, s).history && bad >= c.required then 0 else bad) &&
               (t.policy != s.policy ==> bad >= c.required && t.bad == 0))
  {
    hide Trim, Choice;
    assert Strength(Stronger(s.policy)) <= Strength(s.policy) + 1;
  }

  /** The first decision of a call follows the model, and the evidence starts from nothing. */
  lemma FirstDecision(c: Config, s: Loop, x: Sample)
    requires !s.decided && Step(c, s, x).decided
    ensures var t := Step(c, s, x);
            x.Sample? && x.model.Some? && Chosen(c, x.model.value, t.predicted) && t.bad == 0 &&
            t.signature == x.signature != [] && t.history >= c.window &&
            t.policy == if c.closed then t.predicted else s.policy
  {
    var u := Count(Append(c, Signature(s, x)), x);
    assert !u.decided && u.policy == s.policy;
    DecisionFollows(c, u, x);
    hide Decide, Trim, Chosen;
  }

  lemma DecisionFollows(c: Config, s: Loop, x: Sample)
    requires x.Sample? && !s.decided
    ensures var t := Decide(c, s, x);
            t.signature == s.signature && t.history == s.history &&
            (t.decided ==> x.model.Some? && Chosen(c, x.model.value, t.predicted) && t.bad == 0 &&
                           t.policy == if c.closed then t.predicted else s.policy)
  {
    if x.model.Some? {
      var p := Choice(c, x.model.value);
      assert Chosen(c, x.model.value, p);
      hide Chosen, Choice;
    }
  }

  lemma {:induction false} CallLasts(c: Config, s: Loop, xs: seq<Sample>, k: nat)
    requires InCall(s, xs) && k <= |xs|
    ensures At(c, s, xs, k).signature == s.signature && At(c, s, xs, k).decided
    ensures Strength(s.policy) <= Strength(At(c, s, xs, k).policy)
  {
    hide Step;
    if k > 0 {
      CallLasts(c, s, xs, k - 1);
      AtNext(c, s, xs, k - 1);
      CallStep(c, At(c, s, xs, k - 1), xs[k - 1]);
    } else {
      assert xs[..0] == [];
    }
  }

  /** The number of processed samples among xs[j..k]. */
  function Evidence(c: Config, s: Loop, xs: seq<Sample>, j: nat, k: nat): nat
    requires j <= k <= |xs|
    decreases k
  {
    if j == k then 0
    else Evidence(c, s, xs, j, k - 1) + if Processed(c, At(c, s, xs, k - 1), xs[k - 1]) then 1 else 0
  }

  /** From sample `j` up to `k` every processed sample is unhealthy, and the policy does not change before
      the last of them. */
  ghost predicate Unhealthy(c: Config, s: Loop, xs: seq<Sample>, j: nat, k: nat)
    requires j <= k <= |xs|
  {
    (forall i :: j <= i < k && Processed(c, At(c, s, xs, i), xs[i]) ==> !xs[i].healthy) &&
    (forall i :: j <= i < k ==> At(c, s, xs, i).policy == At(c, s, xs, j).policy)
  }

  /** The counter is the length of the run of unhealthy samples that ends before `k`. */
  lemma {:induction false} CounterIsEvidence(c: Config, s: Loop, xs: seq<Sample>, k: nat) returns (j: nat)
    requires InCall(s, xs) && k <= |xs| && s.bad == 0
    ensures j <= k && Unhealthy(c, s, xs, j, k) && Evidence(c, s, xs, j, k) == At(c, s, xs, k).bad
    ensures At(c, s, xs, k).policy == At(c, s, xs, j).policy
  {
    hide Step, Processed, Append, Strength, Run;
    if k == 0 {
      AtStart(c, s, xs);
      j := 0;
    } else {
      var before, x := At(c, s, xs, k - 1), xs[k - 1];
      AtNext(c, s, xs, k - 1);
      CallLasts(c, s, xs, k - 1);
      CallStep(c, before, x);
      if At(c, s, xs, k).bad == 0 && Processed(c, before, x) {
        j := k;
      } else {
        j := CounterIsEvidence(c, s, xs, k - 1);
      }
    }
  }

  /** Every rise of the level follows the required number of unhealthy samples in a row, all of them since
      the last change of policy. */
  lemma RiseFollowsEvidence(c: Config, s: Loop, xs: seq<Sample>, k: nat) returns (j: nat)
    requires InCall(s, xs) && s.bad == 0 && k < |xs|
    requires At(c, s, xs, k + 1).policy != At(c, s, xs, k).policy
    ensures Strength(At(c, s, xs, k + 1).policy) == Strength(At(c, s, xs, k).policy) + 1
    ensures j <= k + 1 && Unhealthy(c, s, xs, j, k + 1) && Evidence(c, s, xs, j, k + 1) >= c.required
  {
    hide Step;
    var before, x := At(c, s, xs, k), xs[k];
    AtNext(c, s, xs, k);
    CallLasts(c, s, xs, k);
    CallStep(c, before, x);
    assert before.policy == POLICY_ORDER[Strength(before.policy)];
    assert At(c, s, xs, k + 1).policy == POLICY_ORDER[Strength(At(c, s, xs, k + 1).policy)];
    if x.healthy {
      j := k + 1;
    } else {
      j := CounterIsEvidence(c, s, xs, k);
    }
  }

  // ------------------------------------------------------------------------------------------------
  // In silence
  // ------------------------------------------------------------------------------------------------

  predicate Silent(s: Loop, xs: seq<Sample>) {
    s.signature == [] && forall k :: 0 <= k < |xs| && xs[k].Sample? ==> xs[k].signature == []
  }

  /** One turn in silence: the level falls by one exactly when the sample is processed, there is protection
      left and the time has come; after a successful write the next fall waits for the restore step. */
  lemma SilentStep(c: Config, s: Loop, x: Sample)
    requires c.closed && s.signature == [] && (x.Sample? ==> x.signature == [])
    ensures var t := Step(c, s, x);
            var falls := Processed(c, s, x) && s.policy != Equal100 && x.time >= s.restoreAt;
            t.signature == [] &&
            Strength(t.policy) == (if falls then Strength(s.policy) - 1 else Strength(s.policy)) &&
            t.restoreAt == if falls && x.writes then x.time + c.restoreStep else s.restoreAt
  {
    hide Trim, Choice;
    assert s.policy == POLICY_ORDER[Strength(s.policy)];
    assert Strength(Weaker(s.policy)) == if Strength(s.policy) > 0 then Strength(s.policy) - 1 else 0;
  }

  lemma {:induction false} SilenceLasts(c: Config, s: Loop, xs: seq<Sample>, k: nat)
    requires c.closed && Silent(s, xs) && k <= |xs|
    ensures At(c, s, xs, k).signature == [] && Strength(At(c, s, xs, k).policy) <= Strength(s.policy)
  {
    hide Step;
    if k > 0 {
      SilenceLasts(c, s, xs, k - 1);
      AtNext(c, s, xs, k - 1);
      SilentStep(c, At(c, s, xs, k - 1), xs[k - 1]);
    } else {
      assert xs[..0] == [];
    }
  }

  /** The policy falls at sample `k`. */
  predicate Falls(c: Config, s: Loop, xs: seq<Sample>, k: nat)
    requires k < |xs|
  {
    At(c, s, xs, k + 1).policy != At(c, s, xs, k).policy
  }

  lemma {:induction false} NoFallKeeps(c: Config, s: Loop, xs: seq<Sample>, j: nat, k: nat)
    requires c.closed && Silent(s, xs) && j <= k <= |xs|
    requires forall i :: j <= i < k ==> !Falls(c, s, xs, i)
    ensures At(c, s, xs, k).restoreAt == At(c, s, xs, j).restoreAt
    decreases k
  {
    hide Step;
    if j < k {
      NoFallKeeps(c, s, xs, j, k - 1);
      SilenceLasts(c, s, xs, k - 1);
      AtNext(c, s, xs, k - 1);
      assert !Falls(c, s, xs, k - 1);
      SilentStep(c, At(c, s, xs, k - 1), xs[k - 1]);
    }
  }

  /** Two falls in a row are at least the restore step apart when the first was written. */
  lemma FallsAreApart(c: Config, s: Loop, xs: seq<Sample>, j: nat, k: nat)
    requires c.closed && Silent(s, xs) && j < k < |xs|
    requires Falls(c, s, xs, j) && Falls(c, s, xs, k) && forall i :: j < i < k ==> !Falls(c, s, xs, i)
    requires xs[j].Sample? && xs[j].writes
    ensures xs[k].Sample? && xs[k].time >= xs[j].time + c.restoreStep
  {
    hide Step;
    SilenceLasts(c, s, xs, j);
    AtNext(c, s, xs, j);
    SilentStep(c, At(c, s, xs, j), xs[j]);
    NoFallKeeps(c, s, xs, j + 1, k);
    SilenceLasts(c, s, xs, k);
    AtNext(c, s, xs, k);
    SilentStep(c, At(c, s, xs, k), xs[k]);
  }

  /** Sample `k` of `xs` is the first at which the policy falls after the state `s`. */
  ghost predicate FirstFall(c: Config, s: Loop, xs: seq<Sample>, k: nat) {
    Silent(s, xs) && k < |xs| && Falls(c, s, xs, k) && forall i :: 0 <= i < k ==> !Falls(c, s, xs, i)
  }

  /** The time before which a silent sample lowers nothing: the first of a silence is due at once. */
  function Due(s: Loop, x: Sample): real
    requires x.Sample?
  {
    if s.signature == [] then s.restoreAt else x.time
  }

  /** The clock does not run backwards: the samples come from `start` on, in the order of their times. */
  predicate Forward(start: real, xs: seq<Sample>) {
    (forall i :: 0 <= i < |xs| && xs[i].Sample? ==> start <= xs[i].time) &&
    forall i, j :: 0 <= i < j < |xs| && xs[i].Sample? && xs[j].Sample? ==> xs[i].time <= xs[j].time
  }

  /** After a fall at `x` the next one, whatever silent samples come later, waits for the restore step exactly
      when the write at `x` succeeds, or there is no step to wait for, or no level is left. */
  lemma RestoreSpacingIff(c: Config, s: Loop, x: Sample)
    requires c.closed && c.window >= 0 && x.Sample? && x.signature == []
    requires s.policy != Equal100 && x.time >= Due(s, x)
    ensures (forall xs: seq<Sample>, k: nat :: Forward(x.time, xs) && FirstFall(c, Step(c, s, x), xs, k) ==>
               xs[k].Sample? && xs[k].time >= x.time + c.restoreStep) <==>
            x.writes || c.restoreStep <= 0.0 || Weaker(s.policy) == Equal100
  {
    var t := Step(c, s, x);
    AfterFall(c, s, x);
    forall xs: seq<Sample>, k: nat | FirstFall(c, t, xs, k)
      ensures xs[k].Sample? && xs[k].time >= t.restoreAt && t.policy != Equal100
    {
      NextFallWaits(c, t, xs, k);
    }
    if !x.writes && c.restoreStep > 0.0 && Weaker(s.policy) != Equal100 {
      var y := Sample(x.time, [], true, None, true);
      FallsAtOnce(c, t, y);
      assert Forward(x.time, [y]) && FirstFall(c, t, [y], 0) && [y][0].time < x.time + c.restoreStep;
    }
    hide Step, FirstFall;
  }

  lemma AfterFall(c: Config, s: Loop, x: Sample)
    requires c.closed && c.window >= 0 && x.Sample? && x.signature == []
    requires s.policy != Equal100 && x.time >= Due(s, x)
    ensures Step(c, s, x).policy == Weaker(s.policy) && Step(c, s, x).signature == []
    ensures Step(c, s, x).restoreAt == if x.writes then x.time + c.restoreStep else Due(s, x)
  {
    hide Weaker, Scale, Decide, Escalate;
    StrongerIff(s.policy);
  }

  lemma NextFallWaits(c: Config, t: Loop, xs: seq<Sample>, k: nat)
    requires c.closed && FirstFall(c, t, xs, k)
    ensures xs[k].Sample? && xs[k].time >= t.restoreAt && t.policy != Equal100
  {
    hide Step;
    AtStart(c, t, xs);
    NoFallKeeps(c, t, xs, 0, k);
    SilenceLasts(c, t, xs, k);
    AtNext(c, t, xs, k);
    SilentStep(c, At(c, t, xs, k), xs[k]);
  }

  /** A silent sample at the restore time makes the policy fall. */
  lemma FallsAtOnce(c: Config, t: Loop, y: Sample)
    requires c.closed && c.window >= 0 && t.signature == [] && t.policy != Equal100
    requires y.Sample? && y.signature == [] && y.time >= t.restoreAt
    ensures FirstFall(c, t, [y], 0)
  {
    AtStart(c, t, [y]);
    AtNext(c, t, [y], 0);
    SilentStep(c, t, y);
    hide Step, Run;
  }

  /** Two restore steps at one time: the first write fails, the second follows at once. */
  lemma FailedRestoreIsNotSpaced()
    ensures var c := Config(true, 3, 3, 3.0, None);
            var x, y := Sample(5.0, [], true, None, false), Sample(5.0, [], true, None, true);
            var s := START.(policy := Strong40, control := 0.4);
            var t := Step(c, s, x);
            t.policy == Medium70 && Step(c, t, y).policy == Light85 && y.time < x.time + c.restoreStep
  {
  }

  /** The number of falls up to `k`. */
  function FallCount(c: Config, s: Loop, xs: seq<Sample>, k: nat): nat
    requires k <= |xs|
  {
    if k == 0 then 0 else FallCount(c, s, xs, k - 1) + if Falls(c, s, xs, k - 1) then 1 else 0
  }

  /** Each fall takes exactly one level: a silent period reaches EQUAL_100 after as many falls as the level
      it began with, and stays there. */
  lemma {:induction false} FallsTakeOneLevel(c: Config, s: Loop, xs: seq<Sample>, k: nat)
    requires c.closed && Silent(s, xs) && k <= |xs|
    ensures Strength(At(c, s, xs, k).policy) + FallCount(c, s, xs, k) == Strength(s.policy)
  {
    hide Step;
    if k > 0 {
      FallsTakeOneLevel(c, s, xs, k - 1);
      SilenceLasts(c, s, xs, k - 1);
      AtNext(c, s, xs, k - 1);
      SilentStep(c, At(c, s, xs, k - 1), xs[k - 1]);
      var p, q := At(c, s, xs, k - 1).policy, At(c, s, xs, k).policy;
      assert p == POLICY_ORDER[Strength(p)] && q == POLICY_ORDER[Strength(q)];
    } else {
      assert xs[..0] == [];
    }
  }

  /** Samples that are processed and at least the restore step apart take one level each, until none is
      left: the restore is not delayed further. */
  lemma {:induction false} RestoreCompletes(c: Config, s: Loop, xs: seq<Sample>, k: nat)
    requires c.closed && Silent(s, xs) && k <= |xs| && c.window >= 0
    requires forall i :: 0 <= i < |xs| ==> xs[i].Sample? && xs[i].writes && xs[i].time >= s.restoreAt
    requires forall i :: 0 < i < |xs| ==> xs[i].time >= xs[i - 1].time + c.restoreStep
    requires c.restoreStep >= 0.0
    ensures Strength(At(c, s, xs, k).policy) == if k < Strength(s.policy) then Strength(s.policy) - k else 0
    ensures k < |xs| ==> xs[k].time >= At(c, s, xs, k).restoreAt
  {
    hide Step;
    if k > 0 {
      RestoreCompletes(c, s, xs, k - 1);
      SilenceLasts(c, s, xs, k - 1);
      AtNext(c, s, xs, k - 1);
      var before := At(c, s, xs, k - 1);
      assert Processed(c, before, xs[k - 1]);
      SilentStep(c, before, xs[k - 1]);
      assert before.policy == POLICY_ORDER[Strength(before.policy)];
    } else {
      assert xs[..0] == [];
    }
  }

  // ------------------------------------------------------------------------------------------------
  // The program
  // ------------------------------------------------------------------------------------------------

  class Runtime {
    const config: Config
    var policy: Policy
    var predicted: Policy
    var signature: seq<string>
    var decided: bool
    var history: nat
    var bad: nat
    var stable: nat
    var restoreAt: real
    /** The video scale in the control file. */
    var control: real

    ghost function Abs(): Loop
      reads this
    {
      Loop(policy, predicted, signature, decided, history, bad, stable, restoreAt, control)
    }

    constructor (c: Config, file: real)
      ensures config == c && Abs() == START.(control := file)
    {
      config := c;
      policy, predicted, signature, decided := Equal100, Equal100, [], false;
      history, bad, stable, restoreAt := 0, 0, 0, 0.0;
      control := file;
    }

    /** The change of policy that both the decision and the escalation make. */
    method ApplyPolicy(selected: Policy, writes: bool)
      modifies this`policy, this`control
      ensures Abs() == if config.closed then Apply(old(Abs()), selected, writes) else old(Abs())
    {
      if config.closed && selected != policy {
        policy := selected;
        if writes {
          control := Scale(policy);
        }
      }
    }

    method NoteSignature(x: Sample)
      requires x.Sample?
      modifies this
      ensures Abs() == Signature(old(Abs()), x)
    {
      if x.signature != signature {
        history := 0;
        if x.signature != [] {
          decided := false;
          bad, stable := 0, 0;
        } else {
          decided := false;
          restoreAt := x.time;
        }
        signature := x.signature;
      }
    }

    method CallTurn(x: Sample)
      requires x.Sample?
      modifies this
      ensures Abs() == if old(history) < config.window then old(Abs())
                       else if !old(decided) then Decide(config, old(Abs()), x)
                       else Escalate(config, old(Abs()), x)
    {
      hide Choice;
      if history < config.window {
      } else if !decided {
        if x.model.Some? {
          var selected := Choice(config, x.model.value);
          predicted := selected;
          decided := true;
          bad, stable := 0, 0;
          ApplyPolicy(selected, x.writes);
        }
      } else {
        var selected := policy;
        if bad >= config.required {
          selected := Stronger(policy);
          bad, stable := 0, 0;
        }
        ApplyPolicy(selected, x.writes);
      }
    }

    method SilentTurn(x: Sample)
      requires x.Sample?
      modifies this
      ensures Abs() == Restore(config, old(Abs()), x)
    {
      if config.closed && policy != Equal100 && x.time >= restoreAt {
        assert Strength(Equal100) == 0 && policy == POLICY_ORDER[Strength(policy)];
        policy := Weaker(policy);
        if x.writes {
          control := Scale(policy);
          restoreAt := x.time + config.restoreStep;
        }
      }
    }

    /** One turn of the `while not stop_requested` loop. */
    method TakeSample(x: Sample)
      modifies this
      ensures Abs() == Step(config, old(Abs()), x)
    {
      if x.Unreadable? { return; }
      NoteSignature(x);
      history := Trim(history + 1, config.window);
      if history == 0 { return; }
      bad := if x.signature != [] && !x.healthy then bad + 1 else 0;
      stable := if x.signature != [] && x.healthy then stable + 1 else 0;
      hide Decide, Escalate, Restore, Trim;
      if x.signature != [] {
        CallTurn(x);
      } else {
        SilentTurn(x);
      }
    }

    /** `main` from the first write of the baseline to the `finally` block. The loop ends after the samples
        `xs`, be it by a signal or by an error that leaves it. Whatever happened, the video is at full scale
        afterwards unless the last write fails. */
    method ControlLoop(xs: seq<Sample>, startWrites: bool, exitWrites: bool)
      requires Abs() == START.(control := control)
      modifies this
      ensures exitWrites ==> control == 1.0
      ensures startWrites ==> Abs() == Stop(Run(config, START, xs), exitWrites)
    {
      if startWrites {
        control := 1.0;
        for i := 0 to |xs|
          invariant Abs() == Run(config, START, xs[..i])
        {
          assert xs[..i + 1][..i] == xs[..i];
          TakeSample(xs[i]);
        }
        assert xs[..|xs|] == xs;
      }
      if exitWrites {
        control := 1.0;
      }
    }
  }
}
