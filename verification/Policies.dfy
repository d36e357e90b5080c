// The protection policies shared by the collector, the trainer and the runtime
// (xapps/voiceguard_rf_3ue/common.py), and the rules that choose among them.
module Policies {
  datatype Policy = Equal100 | Light85 | Medium70 | Strong40

  /** POLICY_ORDER: from the least to the most restrictive. */
  const POLICY_ORDER: seq<Policy> := [Equal100, Light85, Medium70, Strong40]

  /** POLICY_ORDER.index. */
  function Strength(p: Policy): (k: nat)
    ensures k < 4 && POLICY_ORDER[k] == p
  {
    match p
    case Equal100 => 0
    case Light85 => 1
    case Medium70 => 2
    case Strong40 => 3
  }

  /** POLICY_SCALES. */
  function Scale(p: Policy): real {
    match p
    case Equal100 => 1.0
    case Light85 => 0.85
    case Medium70 => 0.7
    case Strong40 => 0.4
  }

  /** A stronger policy gives the video less. */
  lemma ScaleFalls(p: Policy, q: Policy)
    ensures Strength(p) < Strength(q) <==> Scale(p) > Scale(q)
  {
    assert p == POLICY_ORDER[Strength(p)] && q == POLICY_ORDER[Strength(q)];
  }

  // ------------------------------------------------------------------------------------------------
  // The actuator
  // ------------------------------------------------------------------------------------------------

  function Clamp(x: real): real { if x < 0.1 then 0.1 else if x > 1.0 then 1.0 else x }

  function Distance(p: Policy, x: real): real { if Scale(p) >= x then Scale(p) - x else x - Scale(p) }

  /** min over the policies in their order, with the distance as key. */
  method Nearest(x: real) returns (p: Policy)
    ensures forall q: Policy :: Distance(p, x) <= Distance(q, x)
    ensures forall q: Policy :: Distance(q, x) == Distance(p, x) ==> Strength(p) <= Strength(q)
  {
    p := POLICY_ORDER[0];
    for i := 1 to |POLICY_ORDER|
      invariant Strength(p) < i
      invariant forall k :: 0 <= k < i ==> Distance(p, x) <= Distance(POLICY_ORDER[k], x)
      invariant forall k :: 0 <= k < i && Distance(POLICY_ORDER[k], x) == Distance(p, x) ==> Strength(p) <= k
    {
      assert forall k :: 0 <= k < 4 ==> Strength(POLICY_ORDER[k]) == k;
      if Distance(POLICY_ORDER[i], x) < Distance(p, x) {
        p := POLICY_ORDER[i];
      }
    }
    forall q: Policy
      ensures Distance(p, x) <= Distance(q, x)
      ensures Distance(q, x) == Distance(p, x) ==> Strength(p) <= Strength(q)
    {
      assert q == POLICY_ORDER[Strength(q)];
    }
  }

  /** The nearest policy changes at 0.55, 0.775 and 0.925, where the two policies are equally near and the weaker one
      is taken. */
  lemma NearestIs(x: real, p: Policy)
    requires forall q: Policy :: Distance(p, Clamp(x)) <= Distance(q, Clamp(x))
    requires forall q: Policy :: Distance(q, Clamp(x)) == Distance(p, Clamp(x)) ==> Strength(p) <= Strength(q)
    ensures p == if x >= 0.925 then Equal100
                 else if x >= 0.775 then Light85
                 else if x >= 0.55 then Medium70
                 else Strong40
  {
    var y := Clamp(x);
    assert Distance(p, y) <= Distance(Equal100, y) && Distance(p, y) <= Distance(Light85, y);
    assert Distance(p, y) <= Distance(Medium70, y) && Distance(p, y) <= Distance(Strong40, y);
  }

  /** What the control file holds: the scale of each video terminal; voice is never slowed down. */
  datatype Control = Control(policy: Policy, video: seq<real>, voice: real)

  /** write_traffic_scale, through write_video_policy with base scales of 1: asked for the scale of a policy it
      writes that policy, and asked for anything else the nearest one. */
  method TrafficScale(factor: real, terminals: nat) returns (file: Control)
    ensures |file.video| == terminals && file.voice == 1.0
    ensures forall i :: 0 <= i < terminals ==> file.video[i] == Scale(file.policy)
    ensures forall q: Policy :: Distance(file.policy, Clamp(factor)) <= Distance(q, Clamp(factor))
    ensures forall q: Policy :: Distance(q, Clamp(factor)) == Distance(file.policy, Clamp(factor)) ==>
                                  Strength(file.policy) <= Strength(q)
    ensures forall p: Policy :: factor == Scale(p) ==> file.policy == p
  {
    var p := Nearest(Clamp(factor));
    var video := [];
    for i := 0 to terminals
      invariant |video| == i && forall k :: 0 <= k < i ==> video[k] == Scale(p)
    {
      video := video + [Clamp(1.0 * Scale(p))];
    }
    file := Control(p, video, 1.0);
    forall q: Policy | factor == Scale(q)
      ensures p == q
    {
      assert Distance(p, factor) <= Distance(q, factor);
    }
  }

  // ------------------------------------------------------------------------------------------------
  // The quantile rule
  // ------------------------------------------------------------------------------------------------

  /** The probability that the model gives a policy, 0 for a class it does not know. */
  function Get(probabilities: map<Policy, real>, p: Policy): real {
    if p in probabilities then probabilities[p] else 0.0
  }

  function Cumulative(probabilities: map<Policy, real>, k: nat): real
    requires k <= 4
  {
    if k == 0 then 0.0 else Cumulative(probabilities, k - 1) + Get(probabilities, POLICY_ORDER[k - 1])
  }

  /** The probability of the policies up to the one at index `k`. */
  function Through(probabilities: map<Policy, real>, k: nat): real
    requires k < 4
  {
    Cumulative(probabilities, k + 1)
  }

  /** `p` is the weakest policy whose cumulative probability reaches `q`, or the strongest when none does. */
  ghost predicate IsQuantile(probabilities: map<Policy, real>, q: real, p: Policy) {
    (forall k :: 0 <= k < Strength(p) ==> Through(probabilities, k) < q) &&
    (Through(probabilities, Strength(p)) >= q || p == Strong40)
  }

  /** The rule leaves no choice: the runtime and the trainer, which both follow it, agree. */
  lemma QuantileIsUnique(probabilities: map<Policy, real>, q: real, p: Policy, r: Policy)
    requires IsQuantile(probabilities, q, p) && IsQuantile(probabilities, q, r)
    ensures p == r
  {
    hide Through;
    assert p == POLICY_ORDER[Strength(p)] && r == POLICY_ORDER[Strength(r)];
  }

  /** A larger quantile, or probabilities shifted towards the stronger policies, never give a weaker
      policy. */
  lemma QuantileIsMonotone(light: map<Policy, real>, heavy: map<Policy, real>, q: real, higher: real, p: Policy,
                           r: Policy)
    requires q <= higher
    requires forall k :: 0 <= k < 4 ==> Through(heavy, k) <= Through(light, k)
    requires IsQuantile(light, q, p) && IsQuantile(heavy, higher, r)
    ensures Strength(p) <= Strength(r)
  {
    hide Through;
    assert Through(heavy, Strength(r)) <= Through(light, Strength(r));
    assert r == Strong40 ==> Strength(r) == 3;
  }

  /** The loop of the runtime: the last policy is preset and the loop is left at the first hit. */
  method RuntimeQuantile(probabilities: map<Policy, real>, q: real) returns (selected: Policy)
    ensures IsQuantile(probabilities, q, selected)
  {
    var cumulative := 0.0;
    selected := POLICY_ORDER[|POLICY_ORDER| - 1];
    for i := 0 to |POLICY_ORDER|
      invariant cumulative == Cumulative(probabilities, i) && selected == Strong40
      invariant forall k :: 0 <= k < i ==> Through(probabilities, k) < q
    {
      cumulative := cumulative + Get(probabilities, POLICY_ORDER[i]);
      assert cumulative == Through(probabilities, i) && Strength(POLICY_ORDER[i]) == i;
      if cumulative >= q {
        selected := POLICY_ORDER[i];
        break;
      }
    }
  }

  /** The loop of the trainer, over all evaluated groups: for each, the for-else form of the same rule. */
  method RiskPredictions(groups: seq<string>, probabilities: map<string, map<Policy, real>>, q: real)
      returns (predictions: map<string, Policy>)
    requires forall g :: g in groups ==> g in probabilities
    ensures predictions.Keys == set g | g in groups
    ensures forall g :: g in groups ==> IsQuantile(probabilities[g], q, predictions[g])
  {
    predictions := map[];
    for n := 0 to |groups|
      invariant predictions.Keys == set g | g in groups[..n]
      invariant forall g :: g in groups[..n] ==> IsQuantile(probabilities[g], q, predictions[g])
    {
      var p := TrainerQuantile(probabilities[groups[n]], q);
      hide IsQuantile;
      predictions := predictions[groups[n] := p];
      assert groups[..n + 1] == groups[..n] + [groups[n]];
    }
    assert groups[..|groups|] == groups;
  }

  method TrainerQuantile(probabilities: map<Policy, real>, q: real) returns (p: Policy)
    ensures IsQuantile(probabilities, q, p)
  {
    var cumulative := 0.0;
    for i := 0 to |POLICY_ORDER|
      invariant cumulative == Cumulative(probabilities, i)
      invariant forall k :: 0 <= k < i ==> Through(probabilities, k) < q
    {
      cumulative := cumulative + Get(probabilities, POLICY_ORDER[i]);
      assert cumulative == Through(probabilities, i) && Strength(POLICY_ORDER[i]) == i;
      if cumulative >= q {
        return POLICY_ORDER[i];
      }
    }
    p := POLICY_ORDER[|POLICY_ORDER| - 1];
  }
}
