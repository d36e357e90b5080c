/** The start of a call in the VoiceGuard RF runtime (xapps/voiceguard_rf/voiceguard_rf.py): a decision is made, at
    which sample, which one, and after which evidence the next level follows. */
module CallDecision {
  import opened Options
  import opened Policies
  import opened VoiceGuard

  /** Readable samples of one combination of calls. */
  predicate OneCall(xs: seq<Sample>, calls: seq<string>) {
    calls != [] && forall i :: 0 <= i < |xs| ==> xs[i].Sample? && xs[i].signature == calls
  }

  // ----- Collecting ------------------------------------------------------------------------------

  /** The first sample of another combination. */
  lemma FirstOfCall(c: Config, s: Loop, x: Sample)
    requires c.window >= 1 && x.Sample? && x.signature != [] && s.signature != x.signature
    ensures var t := Step(c, s, x);
            t.history == 1 && t.signature == x.signature && (t.decided <==> c.window == 1 && x.model.Some?) &&
            (!t.decided ==> t.policy == s.policy && t.control == s.control)
  {
    hide Choice;
  }

  /** A later sample of the same call. */
  lemma NextOfCall(c: Config, s: Loop, x: Sample)
    requires c.window >= 1 && x.Sample? && x.signature == s.signature != []
    requires s.history <= c.window
    ensures var t := Step(c, s, x);
            t.history == (if s.history < c.window then s.history + 1 else c.window) && t.signature == s.signature &&
            (t.decided <==> s.decided || (s.history + 1 >= c.window && x.model.Some?)) &&
            (!t.decided ==> t.policy == s.policy && t.control == s.control)
  {
    hide Choice;
  }

  /** After `k` samples of a new call the window holds the smaller of `k` and its length, and the decision has been
      made exactly when the inference succeeded at the sample that filled the window, or at a later one. Up to then
      the policy stays. */
  lemma {:induction false} Collecting(c: Config, s: Loop, xs: seq<Sample>, calls: seq<string>, k: nat)
    requires c.window >= 1 && OneCall(xs, calls) && s.signature != calls && 1 <= k <= |xs|
    ensures var t := At(c, s, xs, k);
            t.history == (if k < c.window then k else c.window) && t.signature == calls &&
            (t.decided <==> exists i :: c.window - 1 <= i < k && xs[i].model.Some?) &&
            (!t.decided ==> t.policy == s.policy && t.control == s.control)
  {
    hide Step, Run;
    AtStart(c, s, xs);
    AtNext(c, s, xs, k - 1);
    var x := xs[k - 1];
    if k == 1 {
      FirstOfCall(c, s, x);
    } else {
      Collecting(c, s, xs, calls, k - 1);
      NextOfCall(c, At(c, s, xs, k - 1), x);
    }
  }

  // ----- The decision ----------------------------------------------------------------------------

  /** The likelihood of a policy; a class that the model does not know has none. */
  function Likelihood(m: Prediction, p: Policy): real {
    if p in m.probabilities then m.probabilities[p] else 0.0
  }

  /** The choice: without a quantile the class named, or STRONG_40 for a class of no policy; with one the first
      policy, from full scale on, at which the likelihoods add up to it. */
  lemma ChoiceIs(c: Config, m: Prediction)
    ensures var p := Choice(c, m);
            match c.quantile
            case None => p == if m.named.Some? then m.named.value else Strong40
            case Some(q) =>
              var e, l, n := Likelihood(m, Equal100), Likelihood(m, Light85), Likelihood(m, Medium70);
              p == if e >= q then Equal100
                   else if e + l >= q then Light85
                   else if e + l + n >= q then Medium70
                   else Strong40
  {
    if c.quantile.Some? {
      Sums(m);
      var p := Choice(c, m);
      assert p == POLICY_ORDER[Strength(p)] && IsQuantile(m.probabilities, c.quantile.value, p);
      assert Strength(p) > 0 ==> Through(m.probabilities, 0) < c.quantile.value;
      assert Strength(p) > 1 ==> Through(m.probabilities, 1) < c.quantile.value;
      assert Strength(p) > 2 ==> Through(m.probabilities, 2) < c.quantile.value;
      hide Choice, Through, Likelihood;
    }
  }

  lemma Sums(m: Prediction)
    ensures Through(m.probabilities, 0) == Likelihood(m, Equal100)
    ensures Through(m.probabilities, 1) == Likelihood(m, Equal100) + Likelihood(m, Light85)
    ensures Through(m.probabilities, 2) == Likelihood(m, Equal100) + Likelihood(m, Light85) + Likelihood(m, Medium70)
  {
    assert Cumulative(m.probabilities, 0) == 0.0;
    assert Cumulative(m.probabilities, 1) == Likelihood(m, Equal100);
    assert Cumulative(m.probabilities, 2) == Likelihood(m, Equal100) + Likelihood(m, Light85);
  }

  lemma DecidesNow(c: Config, s: Loop, x: Sample)
    requires c.window >= 1 && x.Sample? && x.signature != [] && x.model.Some?
    requires if x.signature == s.signature then !s.decided && s.history + 1 >= c.window else c.window == 1
    ensures var t := Step(c, s, x);
            var p := Choice(c, x.model.value);
            t.decided && t.predicted == p && t.bad == 0 && t.policy == (if c.closed then p else s.policy) &&
            t.control == if c.closed && p != s.policy && x.writes then Scale(p) else s.control
  {
    hide Choice, Scale;
  }

  /** Liveness of the call branch: the first successful inference at a full window decides, with the choice of the
      model for that sample, and the video scale goes with it. */
  lemma Decision(c: Config, s: Loop, xs: seq<Sample>, calls: seq<string>, k: nat)
    requires c.window >= 1 && OneCall(xs, calls) && s.signature != calls && c.window <= k + 1 && k < |xs|
    requires xs[k].model.Some? && forall i :: c.window - 1 <= i < k ==> xs[i].model.None?
    ensures var t := At(c, s, xs, k + 1);
            var p := Choice(c, xs[k].model.value);
            t.decided && t.predicted == p && t.bad == 0 && t.policy == (if c.closed then p else s.policy) &&
            t.control == if c.closed && p != s.policy && xs[k].writes then Scale(p) else s.control
  {
    hide Step, Run, Scale, Choice;
    AtStart(c, s, xs);
    AtNext(c, s, xs, k);
    if k > 0 {
      Collecting(c, s, xs, calls, k);
    }
    DecidesNow(c, At(c, s, xs, k), xs[k]);
  }

  // ----- Escalation ------------------------------------------------------------------------------

  /** Within a call, an unhealthy sample. */
  lemma UnhealthySample(c: Config, s: Loop, x: Sample)
    requires c.closed && c.window >= 1 && x.Sample? && x.signature == s.signature != [] && !x.healthy
    requires s.decided && s.history == c.window
    ensures var t := Step(c, s, x);
            t.history == c.window && t.signature == s.signature && t.decided &&
            (s.bad + 1 < c.required ==> t.bad == s.bad + 1 && t.policy == s.policy && t.control == s.control) &&
            (s.bad + 1 >= c.required ==>
               t.bad == 0 && t.policy == Stronger(s.policy) &&
               t.control == if t.policy != s.policy && x.writes then Scale(t.policy) else s.control)
  {
    hide Scale, Stronger, Choice;
  }

  /** One level up: full scale, 0.85, 0.7, 0.4. */
  lemma OneLevelUp(p: Policy)
    ensures Stronger(p) == match p case Equal100 => Light85 case Light85 => Medium70 case _ => Strong40
    ensures Scale(Equal100) == 1.0 && Scale(Light85) == 0.85 && Scale(Medium70) == 0.7 && Scale(Strong40) == 0.4
  {
  }

  lemma {:induction false} EvidenceGrows(c: Config, s: Loop, xs: seq<Sample>, k: nat)
    requires c.closed && c.window >= 1 && OneCall(xs, s.signature) && s.decided && s.history == c.window && s.bad == 0
    requires k <= |xs| && k < c.required && forall i :: 0 <= i < |xs| ==> !xs[i].healthy
    ensures var t := At(c, s, xs, k);
            t.history == c.window && t.signature == s.signature && t.decided && t.bad == k && t.policy == s.policy &&
            t.control == s.control
  {
    hide Step, Run;
    AtStart(c, s, xs);
    if k > 0 {
      EvidenceGrows(c, s, xs, k - 1);
      AtNext(c, s, xs, k - 1);
      UnhealthySample(c, At(c, s, xs, k - 1), xs[k - 1]);
    }
  }

  /** After the required number of unhealthy samples in a row, and not before, the level is one higher, and with a
      write that succeeds so is the slowing of the video. */
  lemma Escalation(c: Config, s: Loop, xs: seq<Sample>, k: nat)
    requires c.closed && c.window >= 1 && OneCall(xs, s.signature) && s.decided && s.history == c.window && s.bad == 0
    requires 1 <= c.required == |xs| && k <= |xs| && forall i :: 0 <= i < |xs| ==> !xs[i].healthy
    ensures var t := At(c, s, xs, k);
            t.decided && (k < |xs| ==> t.policy == s.policy) &&
            (k == |xs| ==>
               t.bad == 0 &&
               t.policy == (match s.policy case Equal100 => Light85 case Light85 => Medium70 case _ => Strong40) &&
               (t.policy != s.policy && xs[k - 1].writes ==>
                  t.control == (match t.policy
                                case Equal100 => 1.0
                                case Light85 => 0.85
                                case Medium70 => 0.7
                                case Strong40 => 0.4)))
  {
    hide Step, Run, Scale, Stronger;
    if k < |xs| {
      EvidenceGrows(c, s, xs, k);
    } else {
      EvidenceGrows(c, s, xs, k - 1);
      AtNext(c, s, xs, k - 1);
      UnhealthySample(c, At(c, s, xs, k - 1), xs[k - 1]);
      OneLevelUp(s.policy);
    }
  }

  lemma RunSplits(c: Config, s: Loop, a: seq<Sample>, b: seq<Sample>)
    ensures Run(c, s, a + b) == Run(c, Run(c, s, a), b)
    decreases |b|
  {
    if b == [] {
      assert a + b == a;
    } else {
      assert (a + b)[..|a + b| - 1] == a + b[..|b| - 1];
      RunSplits(c, s, a, b[..|b| - 1]);
    }
  }

  /** A whole call: the samples that fill the window and decide, then the required unhealthy ones, end one level
      above the choice of the model, whatever came before the call. */
  lemma CallEndsOneLevelUp(c: Config, s: Loop, first: seq<Sample>, later: seq<Sample>, calls: seq<string>)
    requires c.closed && c.window >= 1 && c.required >= 1 && |first| == c.window && |later| == c.required
    requires OneCall(first, calls) && OneCall(later, calls) && s.signature != calls
    requires first[|first| - 1].model.Some? && forall i :: 0 <= i < |later| ==> !later[i].healthy
    ensures var t := Run(c, s, first + later);
            t.decided &&
            t.policy == match Choice(c, first[|first| - 1].model.value)
                        case Equal100 => Light85
                        case Light85 => Medium70
                        case _ => Strong40
  {
    hide Step, Run, Choice;
    var n := |first|;
    Collecting(c, s, first, calls, n);
    Decision(c, s, first, calls, n - 1);
    assert first[..n] == first && later[..|later|] == later;
    var t := Run(c, s, first);
    RunSplits(c, s, first, later);
    Escalation(c, t, later, |later|);
  }

  /** Three samples of one call fill a window of three, and STRONG_40 is in force. */
  lemma ThreeSamplesDecide()
    ensures var c := Config(true, 3, 3, 3.0, None);
            var x := Sample(1.0, ["ue3"], false, Some(Prediction(Some(Strong40), map[])), true);
            var t := Run(c, START, [x, x, x]);
            t.policy == Strong40 && t.control == 0.4 && t.decided && !Run(c, START, [x, x]).decided
  {
    var c := Config(true, 3, 3, 3.0, None);
    var x := Sample(1.0, ["ue3"], false, Some(Prediction(Some(Strong40), map[])), true);
    var xs := [x, x, x];
    assert OneCall(xs, ["ue3"]);
    Decision(c, START, xs, ["ue3"], 2);
    Collecting(c, START, xs, ["ue3"], 2);
    assert xs[..2] == [x, x] && xs[..3] == xs;
    hide Run, Step;
  }

  // ----- The window ------------------------------------------------------------------------------

  /** h[start:] of Python. */
  function Slice<T>(h: seq<T>, start: int): seq<T> {
    if start >= |h| then []
    else if start >= 0 then h[start..]
    else if |h| + start >= 0 then h[|h| + start..]
    else h
  }

  /** The window keeps as many samples as history[-window:]; for a window below zero those are the samples that are
      left when the first ones are dropped. */
  lemma KeepsTheLast<T>(h: seq<T>, window: int)
    ensures Trim(|h|, window) == |Slice(h, -window)|
  {
  }

  // ----- Silence ---------------------------------------------------------------------------------

  /** From STRONG_40 in silence the video comes back in three steps, each the restore step after the last. */
  lemma SilenceGivesBack(c: Config, s: Loop, xs: seq<Sample>)
    requires c.closed && c.window >= 1 && c.restoreStep >= 0.0 && s.policy == Strong40 && s.signature == [] && |xs| == 3
    requires forall i :: 0 <= i < 3 ==>
               xs[i].Sample? && xs[i].signature == [] && xs[i].writes && xs[i].time >= s.restoreAt
    requires xs[1].time >= xs[0].time + c.restoreStep && xs[2].time >= xs[1].time + c.restoreStep
    ensures At(c, s, xs, 1).policy == Medium70 && At(c, s, xs, 1).control == 0.7
    ensures At(c, s, xs, 2).policy == Light85 && At(c, s, xs, 2).control == 0.85
    ensures At(c, s, xs, 3).policy == Equal100 && At(c, s, xs, 3).control == 1.0
  {
    hide Step, Run;
    assert forall i :: 0 < i < 3 ==> xs[i].time >= xs[i - 1].time + c.restoreStep;
    AtStart(c, s, xs);
    Lowered(c, s, xs, 0);
    Lowered(c, s, xs, 1);
    Lowered(c, s, xs, 2);
    assert Strength(Strong40) == 3;
  }

  lemma Lowered(c: Config, s: Loop, xs: seq<Sample>, k: nat)
    requires c.closed && c.window >= 1 && c.restoreStep >= 0.0 && s.policy == Strong40 && s.signature == []
    requires |xs| == 3 && k < 3
    requires forall i :: 0 <= i < 3 ==>
               xs[i].Sample? && xs[i].signature == [] && xs[i].writes && xs[i].time >= s.restoreAt
    requires forall i :: 0 < i < 3 ==> xs[i].time >= xs[i - 1].time + c.restoreStep
    ensures var t := At(c, s, xs, k + 1);
            t.policy == [Medium70, Light85, Equal100][k] && t.control == [0.7, 0.85, 1.0][k]
  {
    hide Step, Run;
    assert Silent(s, xs) && Strength(s.policy) == 3;
    RestoreCompletes(c, s, xs, k);
    RestoreCompletes(c, s, xs, k + 1);
    var before, t := At(c, s, xs, k), At(c, s, xs, k + 1);
    AtNext(c, s, xs, k);
    WritesOnChange(c, before, xs[k]);
    assert t.policy == POLICY_ORDER[Strength(t.policy)] && before.policy == POLICY_ORDER[Strength(before.policy)];
  }
}
