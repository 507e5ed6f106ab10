/** Weighted validator consensus, src/content-validation/services/consensus.service.ts.
    JavaScript numbers are reals here. */
module Consensus {
  import opened Basics
  import opened Reals

  datatype Decision = APPROVE | REJECT | NEEDS_REVIEW
  datatype Verdict = APPROVED | REJECTED | NEEDS_MORE_VALIDATION
  datatype Status = PENDING | REACHED
  datatype Tier = PLATINUM | GOLD | SILVER | OTHER_TIER

  datatype Validator = Validator(reputationScore: real, tier: Tier, accuracyRate: real)
  datatype Vote = Vote(validatorId: string, decision: Decision, accuracyScore: real,
                       reliabilityScore: real, biasScore: real)

  const THRESHOLD := 0.66

  // ---------- weights ----------

  function TierFactor(tier: Tier): real {
    match tier
    case PLATINUM => 1.5
    case GOLD => 1.3
    case SILVER => 1.1
    case OTHER_TIER => 1.0
  }

  function AccuracyFactor(accuracyRate: real): real {
    if accuracyRate > 90.0 then 1.2 else if accuracyRate < 70.0 then 0.8 else 1.0
  }

  /** Reputation as a share of its scale of 100, but never less than a tenth. */
  function BaseWeight(reputationScore: real): real {
    if reputationScore / 100.0 > 0.1 then reputationScore / 100.0 else 0.1
  }

  function Weight(v: Validator): (w: real)
    ensures w >= 0.08
  {
    var base := BaseWeight(v.reputationScore);
    assert base * TierFactor(v.tier) >= 0.1;
    base * TierFactor(v.tier) * AccuracyFactor(v.accuracyRate)
  }

  function Rank(tier: Tier): nat {
    match tier
    case OTHER_TIER => 0
    case SILVER => 1
    case GOLD => 2
    case PLATINUM => 3
  }

  lemma ProductMonotone(a: real, b: real, c: real, d: real)
    requires 0.0 <= a <= b && 0.0 <= c <= d
    ensures a * c <= b * d
  {
    MulMonotone(a, b, c);
    MulMonotone(c, d, b);
  }

  /** More reputation, a better tier and a higher accuracy never cost weight, a better tier
      always gains some, and a reputation on the scale 0..100 weighs between 0.08 and 1.8. */
  lemma WeightIsMonotone(v: Validator, w: Validator)
    requires v.reputationScore <= w.reputationScore && Rank(v.tier) <= Rank(w.tier) && v.accuracyRate <= w.accuracyRate
    ensures Weight(v) <= Weight(w)
    ensures Rank(v.tier) < Rank(w.tier) ==> Weight(v) < Weight(w)
    ensures v.reputationScore <= 100.0 ==> Weight(v) <= 1.8
  {
    hide BaseWeight, TierFactor, AccuracyFactor;
    FactorsAreMonotone(v, w);
    WeightFactors(v);
    WeightFactors(w);
    var a, b := BaseWeight(v.reputationScore), BaseWeight(w.reputationScore);
    var s, t := TierFactor(v.tier), TierFactor(w.tier);
    var p, q := AccuracyFactor(v.accuracyRate), AccuracyFactor(w.accuracyRate);
    ProductsCompare(a, s, p, b, t, q);
    if v.reputationScore <= 100.0 {
      ProductsCompare(a, s, p, 1.0, 1.5, 1.2);
    }
  }

  lemma WeightFactors(v: Validator)
    ensures Weight(v) == BaseWeight(v.reputationScore) * TierFactor(v.tier) * AccuracyFactor(v.accuracyRate)
    ensures 0.1 <= BaseWeight(v.reputationScore)
            && (v.reputationScore <= 100.0 ==> BaseWeight(v.reputationScore) <= 1.0)
    ensures 1.0 <= TierFactor(v.tier) <= 1.5 && 0.8 <= AccuracyFactor(v.accuracyRate) <= 1.2
  {
  }

  lemma FactorsAreMonotone(v: Validator, w: Validator)
    ensures v.reputationScore <= w.reputationScore ==> BaseWeight(v.reputationScore) <= BaseWeight(w.reputationScore)
    ensures Rank(v.tier) <= Rank(w.tier) ==> TierFactor(v.tier) <= TierFactor(w.tier)
    ensures Rank(v.tier) < Rank(w.tier) ==> TierFactor(v.tier) < TierFactor(w.tier)
    ensures v.accuracyRate <= w.accuracyRate ==> AccuracyFactor(v.accuracyRate) <= AccuracyFactor(w.accuracyRate)
  {
  }

  lemma ProductsCompare(a: real, s: real, p: real, b: real, t: real, q: real)
    requires 0.0 < a <= b && 0.0 < s <= t && 0.0 < p <= q
    ensures a * s * p <= b * t * q
    ensures s < t ==> a * s * p < b * t * q
  {
    ProductMonotone(a, b, t, t);
    ProductMonotone(a * t, b * t, p, q);
    if s < t {
      StrictlyMore(a, s, t, p);
    }
  }

  lemma StrictlyMore(a: real, s: real, t: real, p: real)
    requires a > 0.0 && p > 0.0 && s < t
    ensures a * s * p < a * t * p
  {
    MulStrict(s, t, a);
    MulStrict(a * s, a * t, p);
  }

  /** What the tier and the accuracy make of a weight, and what a weight is without either. */
  lemma WeightIsExact(v: Validator)
    ensures var plain := v.(tier := OTHER_TIER);
      && Weight(v.(tier := PLATINUM)) == Weight(plain) * 1.5
      && Weight(v.(tier := GOLD)) == Weight(plain) * 1.3
      && Weight(v.(tier := SILVER)) == Weight(plain) * 1.1
    ensures var average := Weight(v.(accuracyRate := 80.0));
      && (v.accuracyRate > 90.0 ==> Weight(v) == average * 1.2)
      && (v.accuracyRate < 70.0 ==> Weight(v) == average * 0.8)
      && (70.0 <= v.accuracyRate <= 90.0 ==> Weight(v) == average)
    ensures v.tier == OTHER_TIER && 70.0 <= v.accuracyRate <= 90.0 ==>
      Weight(v) == if v.reputationScore > 10.0 then v.reputationScore / 100.0 else 0.1
  {
    hide Weight;
    TierIsExact(v, AccuracyFactor(v.accuracyRate));
    AccuracyIsExact(v);
    PlainIsExact(v);
  }

  lemma Regroup(a: real, b: real, c: real)
    ensures a * b * c == a * 1.0 * c * b
  {
  }

  lemma TierIsExact(v: Validator, accuracy: real)
    requires accuracy == AccuracyFactor(v.accuracyRate)
    ensures var plain := v.(tier := OTHER_TIER);
      && Weight(v.(tier := PLATINUM)) == Weight(plain) * 1.5
      && Weight(v.(tier := GOLD)) == Weight(plain) * 1.3
      && Weight(v.(tier := SILVER)) == Weight(plain) * 1.1
  {
    hide AccuracyFactor, BaseWeight;
    var base := BaseWeight(v.reputationScore);
    Regroup(base, 1.5, accuracy);
    Regroup(base, 1.3, accuracy);
    Regroup(base, 1.1, accuracy);
  }

  lemma AccuracyIsExact(v: Validator)
    ensures var average := Weight(v.(accuracyRate := 80.0));
      && (v.accuracyRate > 90.0 ==> Weight(v) == average * 1.2)
      && (v.accuracyRate < 70.0 ==> Weight(v) == average * 0.8)
      && (70.0 <= v.accuracyRate <= 90.0 ==> Weight(v) == average)
  {
    hide BaseWeight, TierFactor;
    var merit := BaseWeight(v.reputationScore) * TierFactor(v.tier);
    assert Weight(v) == merit * AccuracyFactor(v.accuracyRate);
    assert Weight(v.(accuracyRate := 80.0)) == merit;
  }

  lemma PlainIsExact(v: Validator)
    ensures v.tier == OTHER_TIER && 70.0 <= v.accuracyRate <= 90.0 ==>
      Weight(v) == if v.reputationScore > 10.0 then v.reputationScore / 100.0 else 0.1
  {
  }

  function Voters(votes: seq<Vote>): set<string> {
    set i | 0 <= i < |votes| :: votes[i].validatorId
  }

  /** The weight record: one entry a validator, however often it voted. */
  function WeightsOf(votes: seq<Vote>, validators: map<string, Validator>): map<string, real>
    requires Voters(votes) <= validators.Keys
  {
    map id | id in Voters(votes) :: Weight(validators[id])
  }

  /** The recorded weight; a missing or zero one counts as 1. */
  function WeightFor(weights: map<string, real>, id: string): real {
    if id in weights && weights[id] != 0.0 then weights[id] else 1.0
  }

  ghost predicate AllPositive(weights: map<string, real>) {
    forall id :: id in weights ==> weights[id] > 0.0
  }

  ghost predicate Distinct(votes: seq<Vote>) {
    forall i, j :: 0 <= i < j < |votes| ==> votes[i].validatorId != votes[j].validatorId
  }

  /** The sum of a record's values, in no particular order. */
  ghost function SumValues(m: map<string, real>): real {
    if m == map[] then 0.0
    else
      var k :| k in m;
      m[k] + SumValues(m - {k})
  }

  lemma {:induction false} SumWithout(m: map<string, real>, k: string)
    requires k in m
    ensures SumValues(m) == m[k] + SumValues(m - {k})
    decreases |m|
  {
    var k0 :| k0 in m && SumValues(m) == m[k0] + SumValues(m - {k0});
    if k0 != k {
      SumWithout(m - {k0}, k);
      SumWithout(m - {k}, k0);
      assert m - {k0} - {k} == m - {k} - {k0};
    }
  }

  // ---------- sums over the votes ----------

  function Total(votes: seq<Vote>, f: Vote -> real): real {
    if votes == [] then 0.0 else Total(votes[..|votes| - 1], f) + f(votes[|votes| - 1])
  }

  function WeightOf(weights: map<string, real>): Vote -> real {
    (v: Vote) => WeightFor(weights, v.validatorId)
  }

  function VoteFor(weights: map<string, real>, d: Decision): Vote -> real {
    (v: Vote) => if v.decision == d then WeightFor(weights, v.validatorId) else 0.0
  }

  function Score(v: Vote): real {
    (v.accuracyScore + v.reliabilityScore + (1.0 - v.biasScore)) / 3.0
  }

  function ScoreOf(weights: map<string, real>): Vote -> real {
    (v: Vote) => Score(v) * WeightFor(weights, v.validatorId)
  }

  lemma {:induction false} TotalRemove(votes: seq<Vote>, f: Vote -> real, j: nat)
    requires j < |votes|
    ensures Total(votes, f) == Total(votes[..j] + votes[j + 1..], f) + f(votes[j])
  {
    var n := |votes| - 1;
    if j == n {
      assert votes[..j] + votes[j + 1..] == votes[..n];
    } else {
      TotalRemove(votes[..n], f, j);
      var rest := votes[..j] + votes[j + 1..];
      assert rest[..n - 1] == votes[..n][..j] + votes[..n][j + 1..];
    }
  }

  lemma RemoveMatching(a: seq<Vote>, b: seq<Vote>, j: nat)
    requires multiset(a) == multiset(b) && a != [] && j < |b| && b[j] == a[|a| - 1]
    ensures multiset(b[..j] + b[j + 1..]) == multiset(a[..|a| - 1])
  {
    var n := |a| - 1;
    Without(b, j);
    Without(a, n);
    assert a[..n] + a[n + 1..] == a[..n];
  }

  lemma Without(votes: seq<Vote>, j: nat)
    requires j < |votes|
    ensures multiset(votes[..j] + votes[j + 1..]) == multiset(votes) - multiset{votes[j]}
  {
    assert votes == votes[..j] + [votes[j]] + votes[j + 1..];
  }

  /** Votes with the decision. */
  function Deciding(votes: seq<Vote>, d: Decision): nat {
    if votes == [] then 0
    else Deciding(votes[..|votes| - 1], d) + (if votes[|votes| - 1].decision == d then 1 else 0)
  }

  /** Voters whose weight is missing, or recorded as zero, count one vote each. */
  lemma {:induction false} UnweightedCountOne(votes: seq<Vote>, weights: map<string, real>, d: Decision)
    requires forall id :: id in weights ==> weights[id] == 0.0
    ensures Total(votes, VoteFor(weights, d)) == Deciding(votes, d) as real
  {
    if votes != [] {
      UnweightedCountOne(votes[..|votes| - 1], weights, d);
    }
  }

  /** Sums do not depend on the order in which the votes come in. */
  lemma {:induction false} TotalPermuted(a: seq<Vote>, b: seq<Vote>, f: Vote -> real)
    requires multiset(a) == multiset(b)
    ensures Total(a, f) == Total(b, f)
  {
    if a == [] {
      assert |b| == |multiset(b)| == 0;
    } else {
      var n := |a| - 1;
      assert a[n] in multiset(b);
      var j :| 0 <= j < |b| && b[j] == a[n];
      RemoveMatching(a, b, j);
      TotalPermuted(a[..n], b[..j] + b[j + 1..], f);
      TotalRemove(b, f, j);
    }
  }

  lemma {:induction false} TotalSplitsByDecision(votes: seq<Vote>, weights: map<string, real>)
    ensures Total(votes, WeightOf(weights))
            == Total(votes, VoteFor(weights, APPROVE)) + Total(votes, VoteFor(weights, REJECT))
               + Total(votes, VoteFor(weights, NEEDS_REVIEW))
  {
    if votes != [] {
      TotalSplitsByDecision(votes[..|votes| - 1], weights);
    }
  }

  lemma {:induction false} TotalNonNegative(votes: seq<Vote>, weights: map<string, real>, d: Decision)
    requires AllPositive(weights)
    ensures Total(votes, VoteFor(weights, d)) >= 0.0
  {
    if votes != [] {
      TotalNonNegative(votes[..|votes| - 1], weights, d);
    }
  }

  lemma {:induction false} TotalSame(votes: seq<Vote>, f: Vote -> real, g: Vote -> real)
    requires forall v :: v in votes ==> f(v) == g(v)
    ensures Total(votes, f) == Total(votes, g)
  {
    if votes != [] {
      TotalSame(votes[..|votes| - 1], f, g);
    }
  }

  /** What the last vote adds to the record. */
  lemma LastVoterWeight(votes: seq<Vote>, validators: map<string, Validator>)
    requires votes != [] && Voters(votes) <= validators.Keys
    ensures var n := |votes| - 1;
      var past, id := votes[..n], votes[n].validatorId;
      && Voters(votes) == Voters(past) + {id}
      && WeightsOf(votes, validators) == WeightsOf(past, validators)[id := Weight(validators[id])]
      && SumValues(WeightsOf(votes, validators))
         == SumValues(WeightsOf(past, validators)) + (if id in Voters(past) then 0.0 else Weight(validators[id]))
  {
    var n := |votes| - 1;
    var past, id := votes[..n], votes[n].validatorId;
    VotersStep(votes, n);
    assert votes[..n + 1] == votes;
    var weights, before := WeightsOf(votes, validators), WeightsOf(past, validators);
    assert weights == before[id := Weight(validators[id])];
    if id in Voters(past) {
      assert weights == before;
    } else {
      assert weights - {id} == before;
      SumWithout(weights, id);
    }
  }

  lemma {:induction false} TotalIgnoresOthers(votes: seq<Vote>, a: map<string, real>, b: map<string, real>)
    requires forall id :: id in Voters(votes) ==> id in a && id in b && a[id] == b[id]
    ensures Total(votes, WeightOf(a)) == Total(votes, WeightOf(b))
    ensures forall d :: Total(votes, VoteFor(a, d)) == Total(votes, VoteFor(b, d))
  {
    forall v | v in votes
      ensures WeightFor(a, v.validatorId) == WeightFor(b, v.validatorId)
    {
      var i :| 0 <= i < |votes| && votes[i] == v;
      assert v.validatorId in Voters(votes);
    }
    TotalSame(votes, WeightOf(a), WeightOf(b));
    forall d
      ensures Total(votes, VoteFor(a, d)) == Total(votes, VoteFor(b, d))
    {
      TotalSame(votes, VoteFor(a, d), VoteFor(b, d));
    }
  }

  /** Every vote adds its weight to the votes, every validator once to the total weight. */
  lemma {:induction false} VotesAgainstTotal(votes: seq<Vote>, validators: map<string, Validator>)
    requires Voters(votes) <= validators.Keys
    ensures var weights := WeightsOf(votes, validators);
      && (Distinct(votes) ==> Total(votes, WeightOf(weights)) == SumValues(weights))
      && (!Distinct(votes) ==> Total(votes, WeightOf(weights)) > SumValues(weights))
  {
    hide SumValues;
    var weights := WeightsOf(votes, validators);
    if votes == [] {
      SumEmpty(weights);
    } else {
      var n := |votes| - 1;
      var past, id := votes[..n], votes[n].validatorId;
      LastVoterWeight(votes, validators);
      VotesAgainstTotal(past, validators);
      var before := WeightsOf(past, validators);
      TotalIgnoresOthers(past, weights, before);
      assert WeightOf(weights)(votes[n]) == Weight(validators[id]);
      if id in Voters(past) {
        RepeatedVoter(votes);
      } else {
        DistinctAppend(votes);
      }
    }
  }

  lemma SumEmpty(m: map<string, real>)
    requires m.Keys == {}
    ensures SumValues(m) == 0.0
  {
    assert m == map[];
  }

  lemma RepeatedVoter(votes: seq<Vote>)
    requires votes != [] && votes[|votes| - 1].validatorId in Voters(votes[..|votes| - 1])
    ensures !Distinct(votes)
  {
    var n := |votes| - 1;
    var i :| 0 <= i < n && votes[..n][i].validatorId == votes[n].validatorId;
    assert votes[i].validatorId == votes[n].validatorId;
  }

  lemma DistinctAppend(votes: seq<Vote>)
    requires votes != [] && votes[|votes| - 1].validatorId !in Voters(votes[..|votes| - 1])
    ensures Distinct(votes) <==> Distinct(votes[..|votes| - 1])
  {
    var past := votes[..|votes| - 1];
    assert forall i :: 0 <= i < |past| ==> past[i] == votes[i] && votes[i].validatorId in Voters(past);
    if !Distinct(votes) {
      var i, j :| 0 <= i < j < |votes| && votes[i].validatorId == votes[j].validatorId;
      assert past[i].validatorId == past[j].validatorId;
    }
  }

  // ---------- the decision ----------

  datatype Tally = Tally(approve: real, reject: real, review: real, totalWeight: real, score: real)

  ghost function TallyOf(votes: seq<Vote>, validators: map<string, Validator>): Tally
    requires Voters(votes) <= validators.Keys
  {
    var weights := WeightsOf(votes, validators);
    var voted := Total(votes, WeightOf(weights));
    Tally(Total(votes, VoteFor(weights, APPROVE)), Total(votes, VoteFor(weights, REJECT)),
          Total(votes, VoteFor(weights, NEEDS_REVIEW)), SumValues(weights),
          if voted > 0.0 then Total(votes, ScoreOf(weights)) / voted else 0.0)
  }

  function Side(t: Tally, d: Decision): real {
    match d
    case APPROVE => t.approve
    case REJECT => t.reject
    case NEEDS_REVIEW => t.review
  }

  function VerdictOn(d: Decision): Verdict {
    match d
    case APPROVE => APPROVED
    case REJECT => REJECTED
    case NEEDS_REVIEW => NEEDS_MORE_VALIDATION
  }

  function Largest(t: Tally): real {
    var m := if t.approve >= t.reject then t.approve else t.reject;
    if m >= t.review then m else t.review
  }

  function StatusOf(t: Tally): Status
    requires t.totalWeight > 0.0
  {
    if Largest(t) / t.totalWeight >= THRESHOLD then REACHED else PENDING
  }

  function VerdictOf(t: Tally): Verdict {
    if t.approve > t.reject && t.approve > t.review then APPROVED
    else if t.reject > t.approve && t.reject > t.review then REJECTED
    else NEEDS_MORE_VALIDATION
  }

  lemma TallyFacts(votes: seq<Vote>, validators: map<string, Validator>)
    requires Voters(votes) <= validators.Keys && votes != []
    ensures var t := TallyOf(votes, validators);
      && t.totalWeight > 0.0
      && t.approve >= 0.0 && t.reject >= 0.0 && t.review >= 0.0
      && (t.approve + t.reject + t.review == t.totalWeight <==> Distinct(votes))
      && t.approve + t.reject + t.review >= t.totalWeight
  {
    var weights := WeightsOf(votes, validators);
    VotesAgainstTotal(votes, validators);
    TotalSplitsByDecision(votes, weights);
    TotalNonNegative(votes, weights, APPROVE);
    TotalNonNegative(votes, weights, REJECT);
    TotalNonNegative(votes, weights, NEEDS_REVIEW);
    var id := votes[0].validatorId;
    assert id in weights;
    SumWithout(weights, id);
    SumNonNegative(weights - {id});
  }

  lemma {:induction false} SumNonNegative(m: map<string, real>)
    requires AllPositive(m)
    ensures SumValues(m) >= 0.0
    decreases |m|
  {
    if m != map[] {
      var k :| k in m;
      SumWithout(m, k);
      SumNonNegative(m - {k});
    }
  }

  lemma ShareOfTotal(part: real, whole: real)
    requires whole > 0.0
    ensures part / whole >= THRESHOLD <==> part >= THRESHOLD * whole
  {
    var share := part / whole;
    assert part == share * whole;
    if share >= THRESHOLD {
      MulMonotone(THRESHOLD, share, whole);
    } else {
      MulStrict(share, THRESHOLD, whole);
    }
  }

  /** With one vote a validator, a verdict is reached for a side exactly when that side holds
      66% of all weight; it is then the only side with more than half of it. */
  lemma ReachedIsTheMajority(votes: seq<Vote>, validators: map<string, Validator>, d: Decision)
    requires Voters(votes) <= validators.Keys && votes != [] && Distinct(votes)
    ensures TallyOf(votes, validators).totalWeight > 0.0
    ensures var t := TallyOf(votes, validators);
      && (StatusOf(t) == REACHED && VerdictOf(t) == VerdictOn(d) <==> Side(t, d) >= THRESHOLD * t.totalWeight)
      && (StatusOf(t) == REACHED ==> (VerdictOf(t) == VerdictOn(d) <==> 2.0 * Side(t, d) > t.totalWeight))
  {
    hide Total, SumValues, WeightsOf, TallyOf;
    TallyFacts(votes, validators);
    var t := TallyOf(votes, validators);
    ShareOfTotal(Largest(t), t.totalWeight);
  }

  // ---------- repeated voters ----------

  ghost predicate VotersAre(votes: seq<Vote>, ids: seq<string>) {
    |votes| == |ids| && forall k :: 0 <= k < |ids| ==> votes[k].validatorId == ids[k]
  }

  ghost predicate OnScale(validators: map<string, Validator>) {
    forall id :: id in validators ==> 0.0 <= validators[id].reputationScore <= 100.0
  }

  /** However the voters decide and whatever they weigh, at most one side has more than half. */
  ghost predicate OneMajorityAtMost(ids: seq<string>) {
    forall votes, validators, d, e ::
      VotersAre(votes, ids) && OnScale(validators) && Voters(votes) <= validators.Keys && d != e
      ==> !(IsMajority(votes, validators, d) && IsMajority(votes, validators, e))
  }

  ghost predicate IsMajority(votes: seq<Vote>, validators: map<string, Validator>, d: Decision)
    requires Voters(votes) <= validators.Keys
  {
    2.0 * Side(TallyOf(votes, validators), d) > TallyOf(votes, validators).totalWeight
  }

  ghost predicate DistinctIds(ids: seq<string>) {
    forall i, j :: 0 <= i < j < |ids| ==> ids[i] != ids[j]
  }

  lemma DistinctHaveOneMajority(votes: seq<Vote>, validators: map<string, Validator>, d: Decision, e: Decision)
    requires Voters(votes) <= validators.Keys && Distinct(votes) && d != e
    ensures !(IsMajority(votes, validators, d) && IsMajority(votes, validators, e))
  {
    hide SumValues, WeightsOf;
    if votes == [] {
      NoMajority(validators, d);
    } else {
      hide TallyOf;
      TallyFacts(votes, validators);
    }
  }

  lemma NoMajority(validators: map<string, Validator>, d: Decision)
    ensures !IsMajority([], validators, d)
  {
    SumEmpty(WeightsOf([], validators));
  }

  /** The heavy voter votes for both sides, the others alternate between them. */
  function Torn(ids: seq<string>, i: nat, j: nat): (votes: seq<Vote>)
    ensures |votes| == |ids|
  {
    seq(|ids|, k requires 0 <= k < |ids| => Vote(ids[k], TornDecision(k, i, j), 1.0, 1.0, 0.0))
  }

  function TornDecision(k: nat, i: nat, j: nat): Decision {
    if k == i then APPROVE else if k == j then REJECT else if k % 2 == 0 then APPROVE else REJECT
  }

  /** One voter with reputation 100 among voters with reputation 0. */
  function OneHeavy(ids: seq<string>, x: string): map<string, Validator> {
    map k | k in ids :: Validator(if k == x then 100.0 else 0.0, OTHER_TIER, 80.0)
  }

  lemma HeavyWeights(ids: seq<string>, x: string, votes: seq<Vote>)
    requires Voters(votes) <= OneHeavy(ids, x).Keys
    ensures var weights := WeightsOf(votes, OneHeavy(ids, x));
      weights.Keys == Voters(votes) && forall id :: id in weights ==> weights[id] == if id == x then 1.0 else 0.1
  {
  }

  /** A record in which only x weighs more than 0.1 sums to at most 0.1 a vote, and 1 for x. */
  lemma {:induction false} TotalOfLight(ids: seq<string>, x: string, votes: seq<Vote>)
    requires Voters(votes) <= OneHeavy(ids, x).Keys
    ensures SumValues(WeightsOf(votes, OneHeavy(ids, x)))
            <= 0.1 * |votes| as real + (if x in Voters(votes) then 1.0 else 0.0)
  {
    hide SumValues, WeightsOf;
    var validators := OneHeavy(ids, x);
    if votes == [] {
      RecordKeys(votes, validators);
      SumEmpty(WeightsOf(votes, validators));
    } else {
      var n := |votes| - 1;
      LastVoterWeight(votes, validators);
      TotalOfLight(ids, x, votes[..n]);
      assert Weight(validators[votes[n].validatorId]) == if votes[n].validatorId == x then 1.0 else 0.1;
    }
  }

  /** What the two sides have at least after k of the votes. */
  lemma {:induction false} SidesOfTorn(ids: seq<string>, i: nat, j: nat, weights: map<string, real>, k: nat)
    requires i < j < |ids| && ids[i] == ids[j] && k <= |ids|
    requires forall n :: 0 <= n < |ids| ==>
             ids[n] in weights && weights[ids[n]] == if ids[n] == ids[i] then 1.0 else 0.1
    ensures Total(Torn(ids, i, j)[..k], VoteFor(weights, APPROVE))
            >= 0.1 * ((k + 1) / 2) as real + (if i < k then 0.9 else 0.0) - (if j < k then 0.1 else 0.0)
    ensures Total(Torn(ids, i, j)[..k], VoteFor(weights, REJECT))
            >= 0.1 * (k / 2) as real + (if j < k then 0.9 else 0.0) - (if i < k then 0.1 else 0.0)
  {
    hide WeightFor, Torn, Total;
    if k > 0 {
      SidesOfTorn(ids, i, j, weights, k - 1);
      TornStep(ids, i, j, weights, k - 1, APPROVE);
      TornStep(ids, i, j, weights, k - 1, REJECT);
      assert ids[k - 1] in weights;
      KnownWeight(weights, ids[k - 1]);
    } else {
      assert Torn(ids, i, j)[..0] == [];
      NoVotes(VoteFor(weights, APPROVE));
      NoVotes(VoteFor(weights, REJECT));
    }
  }

  lemma NoVotes(f: Vote -> real)
    ensures Total([], f) == 0.0
  {
  }

  lemma KnownWeight(weights: map<string, real>, id: string)
    requires id in weights && weights[id] > 0.0
    ensures WeightFor(weights, id) == weights[id]
  {
  }

  lemma TornStep(ids: seq<string>, i: nat, j: nat, weights: map<string, real>, k: nat, d: Decision)
    requires i < j < |ids| && k < |ids|
    ensures Total(Torn(ids, i, j)[..k + 1], VoteFor(weights, d))
            == Total(Torn(ids, i, j)[..k], VoteFor(weights, d))
               + (if TornDecision(k, i, j) == d then WeightFor(weights, ids[k]) else 0.0)
  {
    hide WeightFor;
    var votes := Torn(ids, i, j);
    assert votes[..k + 1][..k] == votes[..k] && votes[..k + 1][k] == votes[k];
  }

  lemma TornHasTwoMajorities(ids: seq<string>, i: nat, j: nat)
    requires i < j < |ids| && ids[i] == ids[j]
    ensures var votes, validators := Torn(ids, i, j), OneHeavy(ids, ids[i]);
      && VotersAre(votes, ids) && OnScale(validators) && Voters(votes) <= validators.Keys
      && IsMajority(votes, validators, APPROVE) && IsMajority(votes, validators, REJECT)
  {
    hide SumValues, Total;
    var votes, validators := Torn(ids, i, j), OneHeavy(ids, ids[i]);
    var weights, n := WeightsOf(votes, validators), |ids|;
    HeavyWeights(ids, ids[i], votes);
    TotalOfLight(ids, ids[i], votes);
    forall k | 0 <= k < n
      ensures ids[k] in weights
    {
      assert votes[k].validatorId in Voters(votes);
    }
    SidesOfTorn(ids, i, j, weights, n);
    assert votes[..n] == votes;
    assert 2 * (n / 2) >= n - 1 && 2 * ((n + 1) / 2) >= n;
  }

  /** At most one side can have a majority exactly when no validator votes twice: for any list of
      voters with a repetition there are decisions and reputations that give both sides one. */
  lemma OneMajorityExactly(ids: seq<string>)
    ensures OneMajorityAtMost(ids) <==> DistinctIds(ids)
  {
    hide IsMajority;
    if DistinctIds(ids) {
      forall votes, validators, d, e |
        VotersAre(votes, ids) && OnScale(validators) && Voters(votes) <= validators.Keys && d != e
        ensures !(IsMajority(votes, validators, d) && IsMajority(votes, validators, e))
      {
        DistinctHaveOneMajority(votes, validators, d, e);
      }
    } else {
      var i, j :| 0 <= i < j < |ids| && ids[i] == ids[j];
      TornHasTwoMajorities(ids, i, j);
      assert !OneMajorityAtMost(ids);
    }
  }

  /** So two votes of one validator are enough for a reached consensus that is on neither side,
      with all weight on both. */
  lemma RepeatedVoterTies(v: Validator, id: string)
    ensures var votes := [Vote(id, APPROVE, 1.0, 1.0, 0.0), Vote(id, REJECT, 1.0, 1.0, 0.0)];
      var validators := map[id := v];
      && Voters(votes) <= validators.Keys
      && var t := TallyOf(votes, validators);
         && t.totalWeight > 0.0 && t.approve == t.reject == t.totalWeight
         && StatusOf(t) == REACHED && VerdictOf(t) == NEEDS_MORE_VALIDATION
  {
    var votes := [Vote(id, APPROVE, 1.0, 1.0, 0.0), Vote(id, REJECT, 1.0, 1.0, 0.0)];
    var validators := map[id := v];
    var w := Weight(v);
    var weights := WeightsOf(votes, validators);
    assert votes[0].validatorId in Voters(votes);
    assert weights == map[id := w];
    SumWithout(weights, id);
    assert weights - {id} == map[];
    assert votes[..1][..0] == [];
    assert Total(votes[..1], VoteFor(weights, APPROVE)) == w && Total(votes[..1], VoteFor(weights, REJECT)) == 0.0;
    assert Total(votes[..1], VoteFor(weights, NEEDS_REVIEW)) == 0.0;
    var t := TallyOf(votes, validators);
    assert Largest(t) == w == t.totalWeight;
    ShareOfTotal(Largest(t), t.totalWeight);
  }

  /** The order of the votes is irrelevant. */
  lemma OrderIrrelevant(a: seq<Vote>, b: seq<Vote>, validators: map<string, Validator>)
    requires multiset(a) == multiset(b) && Voters(a) <= validators.Keys
    ensures Voters(a) == Voters(b)
    ensures TallyOf(a, validators) == TallyOf(b, validators)
  {
    forall id
      ensures id in Voters(a) <==> id in Voters(b)
    {
      SameVoters(a, b, id);
      SameVoters(b, a, id);
    }
    var weights := WeightsOf(a, validators);
    assert weights == WeightsOf(b, validators);
    TotalPermuted(a, b, VoteFor(weights, APPROVE));
    TotalPermuted(a, b, VoteFor(weights, REJECT));
    TotalPermuted(a, b, VoteFor(weights, NEEDS_REVIEW));
    TotalPermuted(a, b, WeightOf(weights));
    TotalPermuted(a, b, ScoreOf(weights));
  }

  lemma SameVoters(a: seq<Vote>, b: seq<Vote>, id: string)
    requires multiset(a) == multiset(b)
    ensures id in Voters(a) ==> id in Voters(b)
  {
    if id in Voters(a) {
      var i :| 0 <= i < |a| && a[i].validatorId == id;
      assert a[i] in multiset(b);
      var j :| 0 <= j < |b| && b[j] == a[i];
    }
  }

  ghost predicate ApprovalReached(votes: seq<Vote>, validators: map<string, Validator>) {
    && Voters(votes) <= validators.Keys && votes != [] && Distinct(votes)
    && var t := TallyOf(votes, validators);
       t.totalWeight > 0.0 && StatusOf(t) == REACHED && VerdictOf(t) == APPROVED
  }

  /** A reached approval survives when any one voter switches to approval. */
  lemma ApprovalSurvivesSwitch(votes: seq<Vote>, validators: map<string, Validator>, i: nat)
    requires ApprovalReached(votes, validators) && i < |votes|
    ensures ApprovalReached(votes[i := votes[i].(decision := APPROVE)], validators)
  {
    hide SumValues, WeightsOf, Total;
    var switched := votes[i := votes[i].(decision := APPROVE)];
    assert forall j :: 0 <= j < |votes| ==> switched[j].validatorId == votes[j].validatorId;
    assert Voters(switched) == Voters(votes);
    SameWeights(votes, switched, validators);
    var f := VoteFor(WeightsOf(votes, validators), APPROVE);
    WeightsArePositive(votes, validators);
    SwitchGains(WeightsOf(votes, validators), votes[i]);
    TotalRemove(votes, f, i);
    TotalRemove(switched, f, i);
    assert switched[..i] + switched[i + 1..] == votes[..i] + votes[i + 1..];
    ReachedIsTheMajority(votes, validators, APPROVE);
    ReachedIsTheMajority(switched, validators, APPROVE);
  }

  lemma SameWeights(a: seq<Vote>, b: seq<Vote>, validators: map<string, Validator>)
    requires Voters(a) == Voters(b) <= validators.Keys
    ensures WeightsOf(a, validators) == WeightsOf(b, validators)
  {
  }

  lemma SwitchGains(weights: map<string, real>, v: Vote)
    requires AllPositive(weights)
    ensures VoteFor(weights, APPROVE)(v) <= VoteFor(weights, APPROVE)(v.(decision := APPROVE))
  {
  }

  lemma WeightsArePositive(votes: seq<Vote>, validators: map<string, Validator>)
    requires Voters(votes) <= validators.Keys
    ensures AllPositive(WeightsOf(votes, validators))
  {
  }

  /** It survives when a validator that has not voted yet joins with an approval. */
  lemma ApprovalSurvivesNewApprover(votes: seq<Vote>, validators: map<string, Validator>, v: Vote)
    requires ApprovalReached(votes, validators)
    requires v.decision == APPROVE && v.validatorId in validators && v.validatorId !in Voters(votes)
    ensures ApprovalReached(votes + [v], validators)
  {
    hide SumValues, WeightsOf;
    var more := votes + [v];
    assert more[..|votes|] == votes;
    LastVoterWeight(more, validators);
    DistinctAppend(more);
    var weights, before := WeightsOf(more, validators), WeightsOf(votes, validators);
    RecordKeys(more, validators);
    RecordKeys(votes, validators);
    TotalIgnoresOthers(votes, weights, before);
    assert VoteFor(weights, APPROVE)(v) == Weight(validators[v.validatorId]);
    assert Total(more, VoteFor(weights, APPROVE))
           == Total(votes, VoteFor(before, APPROVE)) + Weight(validators[v.validatorId]);
    ReachedIsTheMajority(votes, validators, APPROVE);
    ReachedIsTheMajority(more, validators, APPROVE);
  }

  lemma RecordKeys(votes: seq<Vote>, validators: map<string, Validator>)
    requires Voters(votes) <= validators.Keys
    ensures WeightsOf(votes, validators).Keys == Voters(votes)
  {
  }

  // ---------- the weighted score ----------

  ghost predicate UnitScores(votes: seq<Vote>) {
    forall v :: v in votes ==>
      0.0 <= v.accuracyScore <= 1.0 && 0.0 <= v.reliabilityScore <= 1.0 && 0.0 <= v.biasScore <= 1.0
  }

  lemma ScoreWithinWeight(v: Vote, weights: map<string, real>)
    requires UnitScores([v]) && AllPositive(weights)
    ensures 0.0 <= ScoreOf(weights)(v) <= WeightOf(weights)(v)
    ensures WeightOf(weights)(v) > 0.0
  {
    hide Score, WeightFor;
    ScoreIsUnit(v);
    WeightIsPositive(weights, v.validatorId);
    FractionOf(Score(v), WeightFor(weights, v.validatorId));
  }

  lemma ScoreIsUnit(v: Vote)
    requires UnitScores([v])
    ensures 0.0 <= Score(v) <= 1.0
  {
    assert v in [v];
  }

  lemma WeightIsPositive(weights: map<string, real>, id: string)
    requires AllPositive(weights)
    ensures WeightFor(weights, id) > 0.0
  {
  }

  lemma {:induction false} ScoresWithinWeights(votes: seq<Vote>, weights: map<string, real>)
    requires UnitScores(votes) && AllPositive(weights)
    ensures 0.0 <= Total(votes, ScoreOf(weights)) <= Total(votes, WeightOf(weights))
  {
    hide Score, ScoreOf, WeightOf;
    if votes != [] {
      var n := |votes| - 1;
      ScoresWithinWeights(votes[..n], weights);
      ScoreWithinWeight(votes[n], weights);
    }
  }

  /** Unit scores average to a unit score, whatever the weights. */
  lemma WeightedScoreIsUnit(votes: seq<Vote>, validators: map<string, Validator>)
    requires Voters(votes) <= validators.Keys && UnitScores(votes)
    ensures 0.0 <= TallyOf(votes, validators).score <= 1.0
    ensures votes == [] ==> TallyOf(votes, validators).score == 0.0
  {
    var weights := WeightsOf(votes, validators);
    ScoresWithinWeights(votes, weights);
    var top, bottom := Total(votes, ScoreOf(weights)), Total(votes, WeightOf(weights));
    if bottom > 0.0 {
      QuotientIsUnit(top, bottom);
    }
  }

  /** What the votes weigh together, each with its voter's full weight. */
  function BallotWeight(votes: seq<Vote>, validators: map<string, Validator>): real
    requires Voters(votes) <= validators.Keys
  {
    if votes == [] then 0.0
    else
      var n := |votes| - 1;
      VotersStep(votes, n);
      assert votes[..n + 1] == votes;
      BallotWeight(votes[..n], validators) + Weight(validators[votes[n].validatorId])
  }

  lemma {:induction false} BallotIsTotal(votes: seq<Vote>, validators: map<string, Validator>,
                                         weights: map<string, real>)
    requires Voters(votes) <= validators.Keys <= weights.Keys
    requires forall id :: id in validators ==> weights[id] == Weight(validators[id])
    ensures BallotWeight(votes, validators) == Total(votes, WeightOf(weights))
    ensures BallotWeight(votes, validators) >= 0.0 && (votes != [] ==> BallotWeight(votes, validators) > 0.0)
  {
    hide Weight;
    if votes != [] {
      var n := |votes| - 1;
      VotersStep(votes, n);
      assert votes[..n + 1] == votes;
      BallotIsTotal(votes[..n], validators, weights);
    }
  }

  lemma BallotIsVoted(votes: seq<Vote>, validators: map<string, Validator>)
    requires Voters(votes) <= validators.Keys
    ensures Total(votes, WeightOf(WeightsOf(votes, validators))) == BallotWeight(votes, validators)
    ensures votes != [] ==> BallotWeight(votes, validators) > 0.0
  {
    hide Weight;
    var all := map id | id in validators :: Weight(validators[id]);
    BallotIsTotal(votes, validators, all);
    TotalIgnoresOthers(votes, WeightsOf(votes, validators), all);
  }

  /** The vote with other scores. */
  function Rescored(v: Vote, da: real, dr: real, db: real): Vote {
    v.(accuracyScore := v.accuracyScore + da, reliabilityScore := v.reliabilityScore + dr,
       biasScore := v.biasScore + db)
  }

  lemma RescoredScore(weights: map<string, real>, v: Vote, da: real, dr: real, db: real)
    ensures ScoreOf(weights)(Rescored(v, da, dr, db))
            == ScoreOf(weights)(v) + Times((da + dr - db) / 3.0, WeightFor(weights, v.validatorId))
  {
    hide WeightFor;
    var w := WeightFor(weights, v.validatorId);
    assert Score(Rescored(v, da, dr, db)) == Score(v) + (da + dr - db) / 3.0;
    AddedShare(Score(v), (da + dr - db) / 3.0, w);
  }

  lemma AddedShare(a: real, d: real, w: real)
    ensures (a + d) * w == a * w + Times(d, w)
  {
  }

  lemma AddedQuotient(a: real, x: real, b: real)
    requires b != 0.0
    ensures (a + x) / b == a / b + x / b
  {
  }

  lemma TimesOver(d: real, w: real, b: real)
    requires b != 0.0
    ensures Times(d, w) / b == Times(d, w / b)
  {
  }

  /** Raising the accuracy or the reliability of one vote raises the weighted score, raising its
      bias lowers it, by a third of the change times the voter's share of the ballot. */
  lemma ScoreResponds(votes: seq<Vote>, validators: map<string, Validator>, i: nat, da: real, dr: real, db: real)
    requires Voters(votes) <= validators.Keys && i < |votes|
    ensures var changed := votes[i := Rescored(votes[i], da, dr, db)];
      && Voters(changed) == Voters(votes) && BallotWeight(votes, validators) > 0.0
      && votes[i].validatorId in validators
      && TallyOf(changed, validators).score == TallyOf(votes, validators).score
         + (da + dr - db) / 3.0 * (Weight(validators[votes[i].validatorId]) / BallotWeight(votes, validators))
  {
    hide Total, Weight, WeightsOf, BallotWeight, Score, Times;
    var changed := votes[i := Rescored(votes[i], da, dr, db)];
    assert forall j :: 0 <= j < |votes| ==> changed[j].validatorId == votes[j].validatorId;
    assert Voters(changed) == Voters(votes) && votes[i].validatorId in Voters(votes);
    SameWeights(votes, changed, validators);
    var weights := WeightsOf(votes, validators);
    BallotIsVoted(votes, validators);
    BallotIsVoted(changed, validators);
    TotalRemove(votes, ScoreOf(weights), i);
    TotalRemove(changed, ScoreOf(weights), i);
    TotalRemove(votes, WeightOf(weights), i);
    TotalRemove(changed, WeightOf(weights), i);
    assert changed[..i] + changed[i + 1..] == votes[..i] + votes[i + 1..];
    RescoredScore(weights, votes[i], da, dr, db);
    VoterWeight(votes, validators, i);
    var d, w, b := (da + dr - db) / 3.0, Weight(validators[votes[i].validatorId]), BallotWeight(votes, validators);
    AddedQuotient(Total(votes, ScoreOf(weights)), Times(d, w), b);
    TimesOver(d, w, b);
    TimesIs(d, w / b);
  }

  lemma TimesIs(a: real, b: real)
    ensures Times(a, b) == a * b
  {
  }

  lemma VoterWeight(votes: seq<Vote>, validators: map<string, Validator>, i: nat)
    requires Voters(votes) <= validators.Keys && i < |votes|
    ensures votes[i].validatorId in validators
    ensures WeightFor(WeightsOf(votes, validators), votes[i].validatorId) == Weight(validators[votes[i].validatorId])
  {
    assert votes[i].validatorId in Voters(votes);
  }

  predicate Perfect(v: Vote) {
    v.accuracyScore == 1.0 && v.reliabilityScore == 1.0 && v.biasScore == 0.0
  }

  lemma PerfectScore(v: Vote, weights: map<string, real>)
    requires UnitScores([v]) && AllPositive(weights)
    ensures ScoreOf(weights)(v) == WeightOf(weights)(v) <==> Perfect(v)
  {
    hide WeightFor, Score, Perfect;
    WeightIsPositive(weights, v.validatorId);
    ScoreIsOne(v);
    WholeShare(Score(v), WeightFor(weights, v.validatorId));
  }

  lemma ScoreIsOne(v: Vote)
    requires UnitScores([v])
    ensures Score(v) == 1.0 <==> Perfect(v)
  {
    assert v in [v];
  }

  lemma {:induction false} PerfectTotals(votes: seq<Vote>, weights: map<string, real>)
    requires UnitScores(votes) && AllPositive(weights)
    ensures Total(votes, ScoreOf(weights)) == Total(votes, WeightOf(weights)) <==> forall v :: v in votes ==> Perfect(v)
  {
    hide ScoreOf, WeightOf, Perfect, AllPositive;
    if votes != [] {
      var n := |votes| - 1;
      PerfectTotals(votes[..n], weights);
      ScoresWithinWeights(votes[..n], weights);
      ScoreWithinWeight(votes[n], weights);
      PerfectScore(votes[n], weights);
      assert votes == votes[..n] + [votes[n]];
    }
  }

  lemma QuotientIsOne(a: real, b: real)
    requires b != 0.0
    ensures a / b == 1.0 <==> a == b
  {
    assert a == a / b * b;
  }

  /** A ballot with unit scores has the weighted score 1 exactly when every vote is perfect. */
  lemma PerfectExactly(votes: seq<Vote>, validators: map<string, Validator>)
    requires Voters(votes) <= validators.Keys && UnitScores(votes) && votes != []
    ensures TallyOf(votes, validators).score == 1.0 <==> forall v :: v in votes ==> Perfect(v)
  {
    hide Total, Perfect, Weight;
    var weights := WeightsOf(votes, validators);
    WeightsArePositive(votes, validators);
    BallotIsVoted(votes, validators);
    PerfectTotals(votes, weights);
    QuotientIsOne(Total(votes, ScoreOf(weights)), Total(votes, WeightOf(weights)));
  }

  // ---------- the service ----------

  datatype Row = Row(threshold: real, totalValidators: nat, validatorWeights: map<string, real>,
                     approvalCount: real, rejectionCount: real, reviewCount: real,
                     achievedConsensus: real, weightedScore: real, status: Status, decision: Option<Verdict>)

  datatype Failure = NoResults | ValidatorNotFound
  datatype Outcome = Saved(row: Row) | Failed(error: Failure)

  /** The row after a recount. A new row records the threshold, the number of votes and the
      weights of its first count, and a pending count keeps the decision of an earlier one. */
  ghost function Recounted(old_: Option<Row>, votes: seq<Vote>, validators: map<string, Validator>): Row
    requires Voters(votes) <= validators.Keys
    requires TallyOf(votes, validators).totalWeight > 0.0
  {
    var t := TallyOf(votes, validators);
    var reached := StatusOf(t) == REACHED;
    Row(if old_.Some? then old_.value.threshold else THRESHOLD,
        if old_.Some? then old_.value.totalValidators else |votes|,
        if old_.Some? then old_.value.validatorWeights else WeightsOf(votes, validators),
        t.approve, t.reject, t.review, Largest(t) / t.totalWeight, t.score, StatusOf(t),
        if reached then Some(VerdictOf(t)) else if old_.Some? then old_.value.decision else None)
  }

  // ---------- recounts ----------

  datatype Ballot = Ballot(votes: seq<Vote>, validators: map<string, Validator>)

  /** A ballot that a recount accepts. */
  predicate Counted(b: Ballot) {
    b.votes != [] && Voters(b.votes) <= b.validators.Keys
  }

  ghost function TallyOn(b: Ballot): (t: Tally)
    requires Counted(b)
    ensures t.totalWeight > 0.0
  {
    TallyFacts(b.votes, b.validators);
    TallyOf(b.votes, b.validators)
  }

  /** The row of a task after its recounts; a refused one leaves it alone. */
  ghost function RowAfter(ballots: seq<Ballot>): Option<Row> {
    if ballots == [] then None
    else
      var n := |ballots| - 1;
      var b := ballots[n];
      if !Counted(b) then RowAfter(ballots[..n])
      else
        assert TallyOn(b).totalWeight > 0.0;
        Some(Recounted(RowAfter(ballots[..n]), b.votes, b.validators))
  }

  /** Some side has 66% of all weight. */
  ghost predicate IsReached(b: Ballot) {
    Counted(b) && exists d :: Side(TallyOn(b), d) >= THRESHOLD * TallyOn(b).totalWeight
  }

  /** The side has more weight behind it than either of the others. */
  predicate Leads(t: Tally, d: Decision) {
    forall e :: e != d ==> Side(t, d) > Side(t, e)
  }

  ghost predicate FirstCounted(ballots: seq<Ballot>, k: nat) {
    k < |ballots| && Counted(ballots[k]) && forall i :: 0 <= i < k ==> !Counted(ballots[i])
  }

  ghost predicate LastCounted(ballots: seq<Ballot>, k: nat) {
    k < |ballots| && Counted(ballots[k]) && forall i :: k < i < |ballots| ==> !Counted(ballots[i])
  }

  ghost predicate LastReached(ballots: seq<Ballot>, k: nat) {
    k < |ballots| && IsReached(ballots[k]) && forall i :: k < i < |ballots| ==> !IsReached(ballots[i])
  }

  /** What the row keeps of the first counted ballot. */
  ghost predicate Opened(row: Row, b: Ballot)
    requires Counted(b)
  {
    row.threshold == THRESHOLD && row.totalValidators == |b.votes|
    && row.validatorWeights.Keys == Voters(b.votes)
    && forall id :: id in row.validatorWeights ==> row.validatorWeights[id] == Weight(b.validators[id])
  }

  /** What the row says of the last counted ballot. */
  ghost predicate Reports(row: Row, b: Ballot)
    requires Counted(b)
  {
    var t := TallyOn(b);
    && row.approvalCount == t.approve && row.rejectionCount == t.reject && row.reviewCount == t.review
    && row.weightedScore == t.score
    && (forall d :: row.achievedConsensus >= Side(t, d) / t.totalWeight)
    && (exists d :: row.achievedConsensus == Side(t, d) / t.totalWeight)
    && (row.status == REACHED <==> IsReached(b))
  }

  /** What the row says of the last ballot that reached a consensus. */
  ghost predicate Decides(row: Row, b: Ballot)
    requires Counted(b)
  {
    var t := TallyOn(b);
    row.decision == Some(if Leads(t, APPROVE) then APPROVED else if Leads(t, REJECT) then REJECTED
                         else NEEDS_MORE_VALIDATION)
  }

  lemma LargestIsASide(t: Tally)
    ensures (forall d :: Largest(t) >= Side(t, d)) && exists d :: Largest(t) == Side(t, d)
  {
    var d := if Largest(t) == t.approve then APPROVE else if Largest(t) == t.reject then REJECT else NEEDS_REVIEW;
    assert Largest(t) == Side(t, d);
  }

  lemma VerdictIsTheLeader(t: Tally)
    ensures VerdictOf(t) == if Leads(t, APPROVE) then APPROVED else if Leads(t, REJECT) then REJECTED
                            else NEEDS_MORE_VALIDATION
  {
    assert Side(t, APPROVE) == t.approve && Side(t, REJECT) == t.reject && Side(t, NEEDS_REVIEW) == t.review;
  }

  lemma SharesCompare(a: real, b: real, whole: real)
    requires whole > 0.0 && a >= b
    ensures a / whole >= b / whole
  {
  }

  lemma ReachedStatus(b: Ballot)
    requires Counted(b)
    ensures StatusOf(TallyOn(b)) == REACHED <==> IsReached(b)
  {
    hide TallyOn, Largest;
    var t := TallyOn(b);
    LargestIsASide(t);
    ShareOfTotal(Largest(t), t.totalWeight);
  }

  lemma RecountSays(old_: Option<Row>, b: Ballot)
    requires Counted(b) && TallyOf(b.votes, b.validators).totalWeight > 0.0
    ensures var row := Recounted(old_, b.votes, b.validators);
      && (old_.None? ==> Opened(row, b)) && Reports(row, b)
      && (IsReached(b) ==> Decides(row, b))
      && (!IsReached(b) ==> row.decision == if old_.Some? then old_.value.decision else None)
      && (old_.Some? ==> row.threshold == old_.value.threshold && row.totalValidators == old_.value.totalValidators
                         && row.validatorWeights == old_.value.validatorWeights)
  {
    var t := TallyOn(b);
    assert t == TallyOf(b.votes, b.validators);
    hide TallyOn, TallyOf, Largest, Leads, VerdictOf, StatusOf, IsReached;
    LargestIsASide(t);
    VerdictIsTheLeader(t);
    ReachedStatus(b);
    forall d
      ensures Largest(t) / t.totalWeight >= Side(t, d) / t.totalWeight
    {
      SharesCompare(Largest(t), Side(t, d), t.totalWeight);
    }
  }

  lemma ReachedIsCounted()
    ensures forall b :: IsReached(b) ==> Counted(b)
  {
  }

  /** A row with the same threshold, validators and weights still opens with the same ballot, and
      one with the same decision still holds the verdict of the same ballot. */
  lemma KeptByRecount(old_: Option<Row>, row: Row)
    requires old_.Some? ==> row.threshold == old_.value.threshold
                            && row.totalValidators == old_.value.totalValidators
                            && row.validatorWeights == old_.value.validatorWeights
    ensures old_.Some? ==> forall b :: Counted(b) && Opened(old_.value, b) ==> Opened(row, b)
    ensures old_.Some? && row.decision == old_.value.decision ==>
      forall b :: Counted(b) && Decides(old_.value, b) ==> Decides(row, b)
  {
  }

  lemma FirstOfAppend(past: seq<Ballot>, b: Ballot, k: nat)
    requires FirstCounted(past + [b], k)
    ensures k < |past| ==> FirstCounted(past, k) && (past + [b])[k] == past[k] && past[k] in past
    ensures k >= |past| ==> k == |past| && (past + [b])[k] == b && Counted(b) && forall c :: c in past ==> !Counted(c)
  {
    hide Counted;
    assert forall i :: 0 <= i < |past| ==> (past + [b])[i] == past[i];
  }

  lemma LastCountedOfAppend(past: seq<Ballot>, b: Ballot, k: nat)
    requires LastCounted(past + [b], k)
    ensures if Counted(b) then k == |past| && (past + [b])[k] == b
            else LastCounted(past, k) && (past + [b])[k] == past[k]
  {
    hide Counted;
    var all := past + [b];
    assert all[|past|] == b;
    assert forall i :: 0 <= i < |past| ==> all[i] == past[i];
  }

  lemma LastReachedOfAppend(past: seq<Ballot>, b: Ballot, k: nat)
    requires LastReached(past + [b], k)
    ensures if IsReached(b) then k == |past| && (past + [b])[k] == b
            else LastReached(past, k) && (past + [b])[k] == past[k] && past[k] in past
  {
    hide IsReached;
    var all := past + [b];
    assert all[|past|] == b;
    assert forall i :: 0 <= i < |past| ==> all[i] == past[i];
  }

  lemma RowAfterAppend(past: seq<Ballot>, b: Ballot)
    ensures !Counted(b) ==> RowAfter(past + [b]) == RowAfter(past)
    ensures Counted(b) ==> TallyOf(b.votes, b.validators).totalWeight > 0.0
                           && RowAfter(past + [b]) == Some(Recounted(RowAfter(past), b.votes, b.validators))
  {
    hide Counted, Recounted, TallyOf;
    assert (past + [b])[..|past|] == past;
    if Counted(b) {
      assert TallyOn(b).totalWeight > 0.0;
    }
  }

  lemma {:induction false} RowExists(ballots: seq<Ballot>)
    ensures RowAfter(ballots).Some? <==> exists b :: b in ballots && Counted(b)
  {
    hide Counted, Recounted, TallyOf;
    if ballots != [] {
      var past, b := ballots[..|ballots| - 1], ballots[|ballots| - 1];
      assert ballots == past + [b];
      RowExists(past);
      RowAfterAppend(past, b);
    }
  }

  lemma {:induction false} FirstIsKept(ballots: seq<Ballot>, k: nat)
    requires FirstCounted(ballots, k)
    ensures RowAfter(ballots).Some? && Opened(RowAfter(ballots).value, ballots[k])
  {
    hide Counted, Recounted, TallyOf, Opened, Reports, Decides, IsReached;
    var past, b := ballots[..|ballots| - 1], ballots[|ballots| - 1];
    assert ballots == past + [b];
    FirstOfAppend(past, b, k);
    RowAfterAppend(past, b);
    RowExists(past);
    if k < |past| {
      FirstIsKept(past, k);
    }
    if Counted(b) {
      RecountSays(RowAfter(past), b);
      KeptByRecount(RowAfter(past), RowAfter(ballots).value);
    }
  }

  lemma {:induction false} LastIsReported(ballots: seq<Ballot>, k: nat)
    requires LastCounted(ballots, k)
    ensures RowAfter(ballots).Some? && Reports(RowAfter(ballots).value, ballots[k])
  {
    hide Counted, Recounted, TallyOf, Opened, Reports, Decides, IsReached;
    var past, b := ballots[..|ballots| - 1], ballots[|ballots| - 1];
    assert ballots == past + [b];
    LastCountedOfAppend(past, b, k);
    RowAfterAppend(past, b);
    if Counted(b) {
      RecountSays(RowAfter(past), b);
    } else {
      LastIsReported(past, k);
    }
  }

  lemma {:induction false} LastVerdictStands(ballots: seq<Ballot>, k: nat)
    requires LastReached(ballots, k)
    ensures Counted(ballots[k]) && RowAfter(ballots).Some? && Decides(RowAfter(ballots).value, ballots[k])
  {
    hide Counted, Recounted, TallyOf, Opened, Reports, Decides, IsReached;
    var past, b := ballots[..|ballots| - 1], ballots[|ballots| - 1];
    assert ballots == past + [b];
    LastReachedOfAppend(past, b, k);
    RowAfterAppend(past, b);
    ReachedIsCounted();
    if !IsReached(b) {
      LastVerdictStands(past, k);
    }
    if Counted(b) {
      RecountSays(RowAfter(past), b);
      KeptByRecount(RowAfter(past), RowAfter(ballots).value);
    }
  }

  lemma {:induction false} NoneReachedNoVerdict(ballots: seq<Ballot>)
    requires forall b :: b in ballots ==> !IsReached(b)
    ensures RowAfter(ballots).Some? ==> RowAfter(ballots).value.decision == None
  {
    hide Counted, Recounted, TallyOf, Opened, Reports, Decides, IsReached;
    if ballots != [] {
      var past, b := ballots[..|ballots| - 1], ballots[|ballots| - 1];
      assert ballots == past + [b];
      NoneReachedNoVerdict(past);
      RowAfterAppend(past, b);
      if Counted(b) {
        RecountSays(RowAfter(past), b);
      }
    }
  }

  /** However often a task is recounted, its row keeps the threshold, the number of votes and the
      weights of the first count, reports the last one, and holds the verdict of the last count that
      reached a consensus. */
  lemma RecountsExactly(ballots: seq<Ballot>)
    ensures RowAfter(ballots).Some? <==> exists b :: b in ballots && Counted(b)
    ensures forall k: nat :: FirstCounted(ballots, k) ==>
              RowAfter(ballots).Some? && Opened(RowAfter(ballots).value, ballots[k])
    ensures forall k: nat :: LastCounted(ballots, k) ==>
              RowAfter(ballots).Some? && Reports(RowAfter(ballots).value, ballots[k])
    ensures forall k: nat :: LastReached(ballots, k) ==>
              Counted(ballots[k]) && RowAfter(ballots).Some? && Decides(RowAfter(ballots).value, ballots[k])
    ensures (forall b :: b in ballots ==> !IsReached(b)) && RowAfter(ballots).Some? ==>
      RowAfter(ballots).value.decision == None
  {
    hide Counted, RowAfter, Opened, Reports, Decides, IsReached;
    RowExists(ballots);
    forall k: nat | FirstCounted(ballots, k)
      ensures RowAfter(ballots).Some? && Opened(RowAfter(ballots).value, ballots[k])
    {
      FirstIsKept(ballots, k);
    }
    forall k: nat | LastCounted(ballots, k)
      ensures RowAfter(ballots).Some? && Reports(RowAfter(ballots).value, ballots[k])
    {
      LastIsReported(ballots, k);
    }
    forall k: nat | LastReached(ballots, k)
      ensures Counted(ballots[k]) && RowAfter(ballots).Some? && Decides(RowAfter(ballots).value, ballots[k])
    {
      LastVerdictStands(ballots, k);
    }
    if forall b :: b in ballots ==> !IsReached(b) {
      NoneReachedNoVerdict(ballots);
    }
  }

  class ConsensusService {
    var rows: map<string, Row>

    constructor ()
      ensures rows == map[]
    {
      rows := map[];
    }

    /** Nothing is saved when there are no votes or a voter is unknown. */
    method CalculateConsensus(taskId: string, votes: seq<Vote>, validators: map<string, Validator>)
      returns (outcome: Outcome)
      modifies this
      ensures votes == [] ==> outcome == Failed(NoResults) && rows == old(rows)
      ensures votes != [] && !(Voters(votes) <= validators.Keys) ==>
        outcome == Failed(ValidatorNotFound) && rows == old(rows)
      ensures votes != [] && Voters(votes) <= validators.Keys ==>
        && TallyOf(votes, validators).totalWeight > 0.0
        && outcome == Saved(Recounted(Lookup(old(rows), taskId), votes, validators))
        && rows == old(rows)[taskId := outcome.row]
    {
      hide Total, SumValues, WeightsOf, VoteFor, WeightOf, ScoreOf;
      if votes == [] {
        return Failed(NoResults);
      }
      var found, weights := GetValidatorWeights(votes, validators);
      if !found {
        return Failed(ValidatorNotFound);
      }
      TallyFacts(votes, validators);
      var approve, reject, review := CalculateWeightedVotes(votes, weights);
      var totalWeight := SumOf(weights);
      var row := if taskId in rows then rows[taskId]
                 else Row(THRESHOLD, |votes|, weights, 0.0, 0.0, 0.0, 0.0, 0.0, PENDING, None);
      var maxVotes := if approve >= reject then approve else reject;
      if review > maxVotes {
        maxVotes := review;
      }
      var score := CalculateWeightedScore(votes, weights);
      ghost var tally := Tally(approve, reject, review, totalWeight, score);
      assert tally == TallyOf(votes, validators) && maxVotes == Largest(tally);
      hide TallyOf, Largest;
      row := row.(approvalCount := approve, rejectionCount := reject, reviewCount := review,
                  achievedConsensus := maxVotes / totalWeight, weightedScore := score);
      if row.achievedConsensus >= THRESHOLD {
        row := row.(status := REACHED);
        if approve > reject && approve > review {
          row := row.(decision := Some(APPROVED));
        } else if reject > approve && reject > review {
          row := row.(decision := Some(REJECTED));
        } else {
          row := row.(decision := Some(NEEDS_MORE_VALIDATION));
        }
      } else {
        row := row.(status := PENDING);
      }
      rows := rows[taskId := row];
      outcome := Saved(row);
    }

    /** findOne throws on the first unknown validator. */
    static method GetValidatorWeights(votes: seq<Vote>, validators: map<string, Validator>)
      returns (found: bool, weights: map<string, real>)
      ensures found <==> Voters(votes) <= validators.Keys
      ensures found ==> weights == WeightsOf(votes, validators)
    {
      weights := map[];
      for i := 0 to |votes|
        invariant Voters(votes[..i]) <= validators.Keys
        invariant weights == WeightsOf(votes[..i], validators)
      {
        var id := votes[i].validatorId;
        assert votes[i].validatorId in Voters(votes);
        if id !in validators {
          return false, map[];
        }
        VotersStep(votes, i);
        weights := weights[id := Weight(validators[id])];
      }
      assert votes[..|votes|] == votes;
      found := true;
    }

    static method CalculateWeightedVotes(votes: seq<Vote>, weights: map<string, real>)
      returns (approve: real, reject: real, review: real)
      ensures approve == Total(votes, VoteFor(weights, APPROVE))
      ensures reject == Total(votes, VoteFor(weights, REJECT))
      ensures review == Total(votes, VoteFor(weights, NEEDS_REVIEW))
    {
      approve, reject, review := 0.0, 0.0, 0.0;
      for i := 0 to |votes|
        invariant approve == Total(votes[..i], VoteFor(weights, APPROVE))
        invariant reject == Total(votes[..i], VoteFor(weights, REJECT))
        invariant review == Total(votes[..i], VoteFor(weights, NEEDS_REVIEW))
      {
        assert votes[..i + 1][..i] == votes[..i];
        var weight := WeightFor(weights, votes[i].validatorId);
        match votes[i].decision
        case APPROVE => approve := approve + weight;
        case REJECT => reject := reject + weight;
        case NEEDS_REVIEW => review := review + weight;
      }
      assert votes[..|votes|] == votes;
    }

    static method CalculateWeightedScore(votes: seq<Vote>, weights: map<string, real>) returns (score: real)
      ensures var voted := Total(votes, WeightOf(weights));
        score == if voted > 0.0 then Total(votes, ScoreOf(weights)) / voted else 0.0
    {
      var totalScore, totalWeight := 0.0, 0.0;
      for i := 0 to |votes|
        invariant totalScore == Total(votes[..i], ScoreOf(weights))
        invariant totalWeight == Total(votes[..i], WeightOf(weights))
      {
        assert votes[..i + 1][..i] == votes[..i];
        var weight := WeightFor(weights, votes[i].validatorId);
        totalScore := totalScore + Score(votes[i]) * weight;
        totalWeight := totalWeight + weight;
      }
      assert votes[..|votes|] == votes;
      score := if totalWeight > 0.0 then totalScore / totalWeight else 0.0;
    }

    /** The total weight of a record, in whatever order its entries are visited. */
    static method SumOf(weights: map<string, real>) returns (sum: real)
      ensures sum == SumValues(weights)
    {
      sum := 0.0;
      var rest := weights;
      while rest != map[]
        invariant sum + SumValues(rest) == SumValues(weights)
        decreases |rest|
      {
        var k :| k in rest;
        SumWithout(rest, k);
        sum := sum + rest[k];
        rest := rest - {k};
      }
    }
  }

  lemma VotersStep(votes: seq<Vote>, i: nat)
    requires i < |votes|
    ensures Voters(votes[..i + 1]) == Voters(votes[..i]) + {votes[i].validatorId}
  {
    var past, now := votes[..i], votes[..i + 1];
    assert now[i] == votes[i];
    assert forall j :: 0 <= j < i ==> past[j] == now[j];
  }
}
