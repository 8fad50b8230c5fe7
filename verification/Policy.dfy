/** The policy evaluator over real numbers: the weighted mean, the risk penalty, the verdict. */
module Policy {
  import opened Basics
  import opened Texts
  import opened Events
  import opened System
  import opened Replay

  // "DATA_FRESHNESS", "CONTRADICTION", "POLICY_BREACH" and "CRITICAL"
  const DATA_FRESHNESS: Text :=
    [0x44, 0x41, 0x54, 0x41, 0x5f, 0x46, 0x52, 0x45, 0x53, 0x48, 0x4e, 0x45, 0x53, 0x53]
  const CONTRADICTION: Text := [0x43, 0x4f, 0x4e, 0x54, 0x52, 0x41, 0x44, 0x49, 0x43, 0x54, 0x49, 0x4f, 0x4e]
  const POLICY_BREACH: Text := [0x50, 0x4f, 0x4c, 0x49, 0x43, 0x59, 0x5f, 0x42, 0x52, 0x45, 0x41, 0x43, 0x48]
  const CRITICAL: Text := [0x43, 0x52, 0x49, 0x54, 0x49, 0x43, 0x41, 0x4c]

  datatype Thresholds = Thresholds(approveAt: real, rejectBelow: real)

  const DEFAULT_THRESHOLDS := Thresholds(0.7, 0.5)

  datatype RiskEntry = RiskEntry(metric: Text, category: Text, severity: real, active: bool)

  datatype Verdict = Approve | Reject | ManualReview | InsufficientData

  datatype PolicyResult = PolicyResult(score: Option<real>, verdict: Verdict, missing: seq<Text>, refs: seq<Text>)

  /** One item of the metrics dictionary. */
  datatype Item = Item(name: Text, record: MetricRecord)

  // ---- Sums -----------------------------------------------------------------------

  function Total<T>(f: T -> real, s: seq<T>): real {
    if s == [] then 0.0 else Total(f, s[..|s| - 1]) + f(s[|s| - 1])
  }

  lemma {:induction false} TotalAppend<T>(f: T -> real, s: seq<T>, t: seq<T>)
    ensures Total(f, s + t) == Total(f, s) + Total(f, t)
    decreases |t|
  {
    if t == [] {
      assert s + t == s;
    } else {
      assert (s + t)[..|s + t| - 1] == s + t[..|t| - 1];
      TotalAppend(f, s, t[..|t| - 1]);
    }
  }

  lemma {:induction false} RemoveOne<T>(init: seq<T>, last: T, left: seq<T>, right: seq<T>)
    requires multiset(init + [last]) == multiset(left + ([last] + right))
    ensures multiset(init) == multiset(left + right)
  {
    assert multiset(init + [last]) == multiset(init) + multiset{last};
    assert multiset(left + ([last] + right)) == multiset(left + right) + multiset{last};
    assert multiset(init) == multiset(init + [last]) - multiset{last};
    assert multiset(left + right) == multiset(left + ([last] + right)) - multiset{last};
  }

  /** The order of the summands does not matter. */
  lemma {:induction false} TotalPermutes<T>(f: T -> real, s: seq<T>, t: seq<T>)
    requires multiset(s) == multiset(t)
    ensures Total(f, s) == Total(f, t)
    decreases |s|
  {
    if s == [] {
      assert |multiset(t)| == 0;
    } else {
      var init, last := s[..|s| - 1], s[|s| - 1];
      assert s == init + [last];
      assert last in multiset(t);
      var j :| 0 <= j < |t| && t[j] == last;
      var left, right := t[..j], t[j + 1..];
      assert t == left + ([last] + right);
      RemoveOne(init, last, left, right);
      TotalPermutes(f, init, left + right);
      TotalAppend(f, left, right);
      TotalAppend(f, left, [last] + right);
      TotalAppend(f, [last], right);
      assert Total(f, [last]) == f(last) by {
        assert [last][..0] == [];
      }
    }
  }

  function Sum(terms: seq<real>): real {
    if terms == [] then 0.0 else Sum(terms[..|terms| - 1]) + terms[|terms| - 1]
  }

  function Clamp01(x: real): real {
    if x < 0.0 then 0.0 else if x > 1.0 then 1.0 else x
  }

  // ---- The evaluator -----------------------------------------------------------------------

  function NumericValue(v: Value): real {
    if v.number.Some? then v.number.value else 1.0
  }

  /** No weights at all, or none for this name, means 1.0. */
  function WeightOf(weights: map<Text, real>, name: Text): real {
    if name in weights then weights[name] else 1.0
  }

  function TermOf(weights: map<Text, real>): Item -> real {
    (item: Item) => NumericValue(item.record.value) * WeightOf(weights, item.name)
  }

  function ItemWeight(weights: map<Text, real>): Item -> real {
    (item: Item) => WeightOf(weights, item.name)
  }

  function TotalWeight(items: seq<Item>, weights: map<Text, real>): real {
    var total := Total(ItemWeight(weights), items);
    if total == 0.0 then 1.0 else total
  }

  lemma {:induction false} TotalWeightIsNotZero(items: seq<Item>, weights: map<Text, real>)
    ensures TotalWeight(items, weights) != 0.0
  {
  }

  /** The clamped weighted mean; an empty set scores 0. */
  function BaseScore(items: seq<Item>, weights: map<Text, real>): real {
    if items == [] then 0.0
    else
      TotalWeightIsNotZero(items, weights);
      Clamp01(Total(TermOf(weights), items) / TotalWeight(items, weights))
  }

  function CommittedItems(items: seq<Item>, required: seq<Text>): seq<Item> {
    if items == [] then []
    else
      var init, last := items[..|items| - 1], items[|items| - 1];
      CommittedItems(init, required) + if last.record.status == Committed && last.name in required then [last] else []
  }

  predicate HasName(items: seq<Item>, name: Text) {
    exists i :: 0 <= i < |items| && items[i].name == name
  }

  function WithoutNames(required: seq<Text>, items: seq<Item>): (rest: seq<Text>)
    ensures forall name :: name in rest <==> name in required && !HasName(items, name)
  {
    if required == [] then []
    else (if HasName(items, required[0]) then [] else [required[0]]) + WithoutNames(required[1..], items)
  }

  function Missing(required: seq<Text>, items: seq<Item>): seq<Text> {
    SortedUnique(WithoutNames(required, items))
  }

  function CategoryWeight(category: Text): real {
    if category == DATA_FRESHNESS then 0.05
    else if category == CONTRADICTION then 0.15
    else if category == POLICY_BREACH then 0.30
    else if category == CRITICAL then 0.50
    else 0.1
  }

  function Contribution(): RiskEntry -> real {
    (r: RiskEntry) => if r.active then r.severity * CategoryWeight(r.category) else 0.0
  }

  function Penalty(risks: seq<RiskEntry>): real {
    Total(Contribution(), risks)
  }

  predicate HasCritical(risks: seq<RiskEntry>) {
    exists i :: 0 <= i < |risks| && risks[i].active && risks[i].category == CRITICAL
  }

  function TrustScore(base: real, risks: seq<RiskEntry>): real {
    Clamp01(base - Penalty(risks))
  }

  function VerdictOf(score: real, critical: bool, t: Thresholds): Verdict {
    if score >= t.approveAt && !critical then Approve
    else if score < t.rejectBelow || critical then Reject
    else ManualReview
  }

  function AllRefs(items: seq<Item>): (refs: seq<Text>)
    ensures forall ref :: ref in refs <==> exists i :: 0 <= i < |items| && ref in items[i].record.refs
  {
    if items == [] then [] else items[0].record.refs + AllRefs(items[1..])
  }

  function Evaluate(required: seq<Text>, items: seq<Item>, risks: seq<RiskEntry>, weights: map<Text, real>, t: Thresholds): PolicyResult {
    var committed := CommittedItems(items, required);
    var missing := Missing(required, committed);
    if missing != [] then PolicyResult(None, InsufficientData, missing, [])
    else
      var score := TrustScore(BaseScore(committed, weights), risks);
      PolicyResult(Some(score), VerdictOf(score, HasCritical(risks), t), [], SortedUnique(AllRefs(committed)))
  }

  /** The base-score loop: the score is recomputed and clamped for every prefix of the terms. */
  method BaseScoreLoop(items: seq<Item>, weights: map<Text, real>) returns (base: real)
    ensures base == BaseScore(items, weights)
  {
    base := 0.0;
    var numericTerms: seq<real> := [];
    for k := 0 to |items|
      invariant Sum(numericTerms) == Total(TermOf(weights), items[..k])
      invariant base == if k == 0 then 0.0 else Clamp01(Sum(numericTerms) / TotalWeight(items, weights))
    {
      var item := items[k];
      assert items[..k + 1][..k] == items[..k];
      var term := NumericValue(item.record.value) * WeightOf(weights, item.name);
      assert (numericTerms + [term])[..|numericTerms|] == numericTerms;
      numericTerms := numericTerms + [term];
      var totalWeight := Total(ItemWeight(weights), items);
      if totalWeight == 0.0 {
        totalWeight := 1.0;
      }
      base := Sum(numericTerms) / totalWeight;
      base := Clamp01(base);
    }
    assert items[..|items|] == items;
  }

  // ---- The gate on missing metrics ------------------------------------------------------------

  lemma {:induction false} CommittedNames(items: seq<Item>, required: seq<Text>, name: Text)
    ensures HasName(CommittedItems(items, required), name) <==>
              name in required && exists i :: 0 <= i < |items| && items[i].name == name && items[i].record.status == Committed
    decreases |items|
  {
    if items != [] {
      var init, last := items[..|items| - 1], items[|items| - 1];
      CommittedNames(init, required, name);
      var before := CommittedItems(init, required);
      if HasName(before, name) {
        var i :| 0 <= i < |before| && before[i].name == name;
        assert CommittedItems(items, required)[i] == before[i];
      }
      if last.record.status == Committed && last.name in required && last.name == name {
        assert CommittedItems(items, required)[|before|] == last;
      }
      if exists i :: 0 <= i < |items| && items[i].name == name && items[i].record.status == Committed {
        var i :| 0 <= i < |items| && items[i].name == name && items[i].record.status == Committed;
        assert i < |init| ==> init[i] == items[i];
      }
    }
  }

  ghost predicate IsCommitted(items: seq<Item>, name: Text) {
    exists i :: 0 <= i < |items| && items[i].name == name && items[i].record.status == Committed
  }

  /** A numeric score is returned exactly when every required metric is committed; otherwise the
      missing ones are listed, in order and once each. */
  lemma {:induction false} ScoreIffComplete(required: seq<Text>, items: seq<Item>, risks: seq<RiskEntry>, weights: map<Text, real>, t: Thresholds)
    ensures var r := Evaluate(required, items, risks, weights, t);
            && (r.score.Some? <==> forall name :: name in required ==> IsCommitted(items, name))
            && (r.score.None? <==> r.verdict == InsufficientData)
            && Increasing(r.missing)
            && (forall name :: name in r.missing <==> name in required && !IsCommitted(items, name))
            && (r.score.Some? ==> 0.0 <= r.score.value <= 1.0)
  {
    var committed := CommittedItems(items, required);
    SortedUniqueIsSorted(WithoutNames(required, committed));
    hide SortedUnique, Increasing, BaseScore, AllRefs, Penalty, HasCritical, CommittedItems;
    forall name
      ensures name in Missing(required, committed) <==> name in required && !IsCommitted(items, name)
    {
      CommittedNames(items, required, name);
    }
    if Missing(required, committed) != [] {
      assert Missing(required, committed)[0] in Missing(required, committed);
    }
    assert Evaluate(required, items, risks, weights, t).missing == Missing(required, committed);
  }

  // ---- The weighted mean -----------------------------------------------------------------------------

  lemma {:induction false} MeanBounds(items: seq<Item>, weights: map<Text, real>, lo: real, hi: real)
    requires forall i :: 0 <= i < |items| ==> lo <= NumericValue(items[i].record.value) <= hi
    requires forall i :: 0 <= i < |items| ==> WeightOf(weights, items[i].name) >= 0.0
    ensures Between(lo, hi, Total(ItemWeight(weights), items), Total(TermOf(weights), items))
    decreases |items|
  {
    hide Between;
    if items == [] {
      AddBounds(lo, hi, 0.0, 0.0, 0.0, 0.0);
    } else {
      var init, last := items[..|items| - 1], items[|items| - 1];
      ItemBounds(last, weights, lo, hi);
      hide TermOf, ItemWeight, NumericValue, WeightOf;
      MeanBounds(init, weights, lo, hi);
      AddBounds(lo, hi, Total(ItemWeight(weights), init), Total(TermOf(weights), init),
                ItemWeight(weights)(last), TermOf(weights)(last));
    }
  }

  lemma {:induction false} ItemBounds(item: Item, weights: map<Text, real>, lo: real, hi: real)
    requires lo <= NumericValue(item.record.value) <= hi && WeightOf(weights, item.name) >= 0.0
    ensures Between(lo, hi, ItemWeight(weights)(item), TermOf(weights)(item))
  {
    ProductBounds(NumericValue(item.record.value), WeightOf(weights, item.name), lo, hi);
  }

  /** A sum of terms lies between multiples of the sum of its weights. */
  ghost predicate Between(lo: real, hi: real, d: real, n: real) {
    lo * d <= n <= hi * d
  }

  lemma AddBounds(lo: real, hi: real, d: real, n: real, w: real, t: real)
    requires w == 0.0 == t || Between(lo, hi, w, t)
    ensures d == 0.0 == n || Between(lo, hi, d, n) ==> Between(lo, hi, d + w, n + t)
  {
    assert lo * (d + w) == lo * d + lo * w;
    assert hi * (d + w) == hi * d + hi * w;
  }

  lemma ProductBounds(v: real, w: real, lo: real, hi: real)
    requires lo <= v <= hi && w >= 0.0
    ensures Between(lo, hi, w, v * w)
  {
  }

  lemma ClampedMean(n: real, d: real, lo: real, hi: real)
    requires d > 0.0 && Between(lo, hi, d, n) && 0.0 <= lo <= hi <= 1.0
    ensures lo <= Clamp01(n / d) <= hi && Clamp01(n / d) * d == n
  {
    assert n == (n / d) * d;
  }

  lemma {:induction false} QuotientScore(items: seq<Item>, weights: map<Text, real>)
    requires items != [] && Total(ItemWeight(weights), items) > 0.0
    ensures BaseScore(items, weights) == Clamp01(Total(TermOf(weights), items) / Total(ItemWeight(weights), items))
  {
    hide Total, TermOf, ItemWeight, Clamp01;
  }

  /** With values in [0, 1] and non-negative weights of positive sum, the base score is the weighted
      mean itself, no clamping, and lies between any bounds of the committed values. */
  lemma {:induction false} BaseScoreIsTheMean(items: seq<Item>, weights: map<Text, real>, lo: real, hi: real)
    requires items != [] && 0.0 <= lo <= hi <= 1.0
    requires forall i :: 0 <= i < |items| ==> lo <= NumericValue(items[i].record.value) <= hi
    requires forall i :: 0 <= i < |items| ==> WeightOf(weights, items[i].name) >= 0.0
    requires Total(ItemWeight(weights), items) > 0.0
    ensures BaseScore(items, weights) * Total(ItemWeight(weights), items) == Total(TermOf(weights), items)
    ensures lo <= BaseScore(items, weights) <= hi
  {
    hide Total, TermOf, ItemWeight, NumericValue, WeightOf, BaseScore, Between, Clamp01;
    MeanBounds(items, weights, lo, hi);
    QuotientScore(items, weights);
    var n, d := Total(TermOf(weights), items), Total(ItemWeight(weights), items);
    ClampedMean(n, d, lo, hi);
    assert BaseScore(items, weights) == Clamp01(n / d);
  }

  // ---- The score in plain numbers ---------------------------------------------------------------------------

  /** The metric takes part in the score. */
  ghost predicate Counts(item: Item, required: seq<Text>) {
    item.record.status == Committed && item.name in required
  }

  /** A weight that is not given, and a value that is no number, count as 1. */
  ghost function GivenWeight(item: Item, weights: map<Text, real>): real {
    if item.name in weights then weights[item.name] else 1.0
  }

  ghost function GivenValue(item: Item): real {
    if item.record.value.number.Some? then item.record.value.number.value else 1.0
  }

  ghost function WeightedValue(item: Item, weights: map<Text, real>): real {
    GivenValue(item) * GivenWeight(item, weights)
  }

  /** Over the metrics that count: the sum of value times weight, and the sum of the weights. */
  ghost function ValueSum(items: seq<Item>, required: seq<Text>, weights: map<Text, real>): real {
    if items == [] then 0.0
    else
      var item := items[|items| - 1];
      ValueSum(items[..|items| - 1], required, weights)
      + if Counts(item, required) then WeightedValue(item, weights) else 0.0
  }

  ghost function WeightSum(items: seq<Item>, required: seq<Text>, weights: map<Text, real>): real {
    if items == [] then 0.0
    else
      var item := items[|items| - 1];
      WeightSum(items[..|items| - 1], required, weights) + if Counts(item, required) then GivenWeight(item, weights) else 0.0
  }

  lemma {:induction false} TermIsGiven(item: Item, weights: map<Text, real>)
    ensures TermOf(weights)(item) == WeightedValue(item, weights)
    ensures ItemWeight(weights)(item) == GivenWeight(item, weights)
  {
  }

  lemma {:induction false} TotalLast<T>(f: T -> real, s: seq<T>, last: T)
    ensures Total(f, s + [last]) == Total(f, s) + f(last)
  {
    assert (s + [last])[..|s|] == s;
  }

  lemma {:induction false} SumsOfCommitted(items: seq<Item>, required: seq<Text>, weights: map<Text, real>)
    ensures Total(TermOf(weights), CommittedItems(items, required)) == ValueSum(items, required, weights)
    ensures Total(ItemWeight(weights), CommittedItems(items, required)) == WeightSum(items, required, weights)
    decreases |items|
  {
    hide TermOf, ItemWeight, WeightedValue, GivenWeight;
    if items != [] {
      var init, last := items[..|items| - 1], items[|items| - 1];
      var before := CommittedItems(init, required);
      SumsOfCommitted(init, required, weights);
      TermIsGiven(last, weights);
      TotalLast(TermOf(weights), before, last);
      TotalLast(ItemWeight(weights), before, last);
      assert before + [] == before;
    }
  }

  /** A number cut off at 0 and 1. */
  ghost predicate IsCutOff(x: real, y: real) {
    (x <= 0.0 && y == 0.0) || (0.0 <= x <= 1.0 && y == x) || (x >= 1.0 && y == 1.0)
  }

  lemma {:induction false} BaseOfCommitted(items: seq<Item>, required: seq<Text>, weights: map<Text, real>)
    requires CommittedItems(items, required) != []
    ensures var total := WeightSum(items, required, weights);
            IsCutOff(ValueSum(items, required, weights) / (if total == 0.0 then 1.0 else total),
                     BaseScore(CommittedItems(items, required), weights))
  {
    hide TermOf, ItemWeight, Total, ValueSum, WeightSum, CommittedItems;
    SumsOfCommitted(items, required, weights);
    var committed := CommittedItems(items, required);
    assert TotalWeight(committed, weights) == if WeightSum(items, required, weights) == 0.0 then 1.0 else WeightSum(items, required, weights);
  }

  lemma {:induction false} CompleteScore(required: seq<Text>, items: seq<Item>, risks: seq<RiskEntry>, weights: map<Text, real>, t: Thresholds)
    requires forall name :: name in required ==> IsCommitted(items, name)
    ensures var score := Evaluate(required, items, risks, weights, t).score;
            score.Some? && score.value == Clamp01(BaseScore(CommittedItems(items, required), weights) - Penalty(risks))
  {
    hide CommittedItems, IsCommitted, SortedUnique, AllRefs, HasCritical, Penalty, Increasing, BaseScore, Clamp01, Missing, VerdictOf;
    ScoreIffComplete(required, items, risks, weights, t);
  }

  lemma {:induction false} CommittedIfRequired(items: seq<Item>, required: seq<Text>)
    requires forall name :: name in required ==> IsCommitted(items, name)
    ensures CommittedItems(items, required) == [] <==> required == []
  {
    var committed := CommittedItems(items, required);
    if required != [] {
      CommittedNames(items, required, required[0]);
      assert IsCommitted(items, required[0]) && HasName(committed, required[0]);
    }
    if committed != [] {
      CommittedNames(items, required, committed[0].name);
      assert HasName(committed, committed[0].name);
    }
  }

  ghost predicate HasActive(risks: seq<RiskEntry>) {
    exists i :: 0 <= i < |risks| && risks[i].active
  }

  lemma {:induction false} NoActiveNoPenalty(risks: seq<RiskEntry>)
    requires !HasActive(risks)
    ensures Penalty(risks) == 0.0
    decreases |risks|
  {
    if risks != [] {
      var init := risks[..|risks| - 1];
      assert forall i :: 0 <= i < |init| ==> init[i] == risks[i];
      NoActiveNoPenalty(init);
    }
  }

  /** With no active signal a complete decision scores the weighted mean, cut off at 0 and 1; with no
      required metrics at all it scores 0, and weights that cancel out count as 1 together. */
  lemma {:induction false} ScoreWithoutRisk(required: seq<Text>, items: seq<Item>, risks: seq<RiskEntry>, weights: map<Text, real>, t: Thresholds)
    requires (forall name :: name in required ==> IsCommitted(items, name)) && !HasActive(risks)
    ensures var score, total := Evaluate(required, items, risks, weights, t).score, WeightSum(items, required, weights);
            && score.Some?
            && if required == [] then score.value == 0.0
               else IsCutOff(ValueSum(items, required, weights) / (if total == 0.0 then 1.0 else total), score.value)
  {
    hide Evaluate, ValueSum, WeightSum, IsCommitted, CommittedItems, Total, TotalWeight, TermOf, Penalty, HasActive;
    CompleteScore(required, items, risks, weights, t);
    CommittedIfRequired(items, required);
    NoActiveNoPenalty(risks);
    if required != [] {
      BaseOfCommitted(items, required, weights);
      hide BaseScore;
    }
  }

  /** So with values in [0, 1] and non-negative weights of positive sum it is the weighted mean itself. */
  lemma {:induction false} ScoreIsTheMean(required: seq<Text>, items: seq<Item>, risks: seq<RiskEntry>, weights: map<Text, real>, t: Thresholds)
    requires (forall name :: name in required ==> IsCommitted(items, name)) && !HasActive(risks)
    requires forall i :: 0 <= i < |items| && Counts(items[i], required) ==>
               0.0 <= GivenValue(items[i]) <= 1.0 && GivenWeight(items[i], weights) >= 0.0
    requires WeightSum(items, required, weights) > 0.0
    ensures var score := Evaluate(required, items, risks, weights, t).score;
            score.Some? && score.value * WeightSum(items, required, weights) == ValueSum(items, required, weights)
  {
    hide ValueSum, WeightSum, Evaluate, IsCommitted, HasActive, GivenValue, GivenWeight;
    ScoreWithoutRisk(required, items, risks, weights, t);
    SumBounds(items, required, weights);
    NoWeightUnlessRequired(items, required, weights);
    UnitQuotient(ValueSum(items, required, weights), WeightSum(items, required, weights));
  }

  lemma {:induction false} UnitQuotient(n: real, d: real)
    requires 0.0 <= n <= d && d > 0.0
    ensures 0.0 <= n / d <= 1.0 && (n / d) * d == n
  {
  }

  lemma {:induction false} UnitTerm(item: Item, weights: map<Text, real>)
    requires 0.0 <= GivenValue(item) <= 1.0 && GivenWeight(item, weights) >= 0.0
    ensures 0.0 <= WeightedValue(item, weights) <= GivenWeight(item, weights)
  {
    ProductBounds(GivenValue(item), GivenWeight(item, weights), 0.0, 1.0);
  }

  lemma {:induction false} NoWeightUnlessRequired(items: seq<Item>, required: seq<Text>, weights: map<Text, real>)
    ensures required == [] ==> WeightSum(items, required, weights) == 0.0
    decreases |items|
  {
    if items != [] {
      NoWeightUnlessRequired(items[..|items| - 1], required, weights);
    }
  }

  lemma {:induction false} SumBounds(items: seq<Item>, required: seq<Text>, weights: map<Text, real>)
    requires forall i :: 0 <= i < |items| && Counts(items[i], required) ==>
               0.0 <= GivenValue(items[i]) <= 1.0 && GivenWeight(items[i], weights) >= 0.0
    ensures 0.0 <= ValueSum(items, required, weights) <= WeightSum(items, required, weights)
    decreases |items|
  {
    hide GivenValue, GivenWeight, WeightedValue;
    if items != [] {
      var init, last := items[..|items| - 1], items[|items| - 1];
      assert forall i :: 0 <= i < |init| ==> init[i] == items[i];
      SumBounds(init, required, weights);
      assert items[|items| - 1] == last;
      if Counts(last, required) {
        UnitTerm(last, weights);
      }
    }
  }

  // ---- Risk signals ---------------------------------------------------------------------------------------

  /** What one unit of severity costs. */
  ghost function PenaltyRate(category: Text): real {
    if category == Ascii("DATA_FRESHNESS") then 0.05
    else if category == Ascii("CONTRADICTION") then 0.15
    else if category == Ascii("POLICY_BREACH") then 0.30
    else if category == Ascii("CRITICAL") then 0.50
    else 0.1
  }

  lemma {:induction false} CategoryNames()
    ensures DATA_FRESHNESS == Ascii("DATA_FRESHNESS") && CONTRADICTION == Ascii("CONTRADICTION")
    ensures POLICY_BREACH == Ascii("POLICY_BREACH") && CRITICAL == Ascii("CRITICAL")
  {
  }

  lemma {:induction false} WeightIsRate(category: Text)
    ensures CategoryWeight(category) == PenaltyRate(category)
  {
    CategoryNames();
    hide Ascii;
  }

  /** What a signal takes off the score. */
  ghost function RiskCost(r: RiskEntry): real {
    if r.active then r.severity * PenaltyRate(r.category) else 0.0
  }

  ghost predicate NoNegativeSeverity(risks: seq<RiskEntry>) {
    forall i :: 0 <= i < |risks| ==> risks[i].severity >= 0.0
  }

  lemma {:induction false} PenaltyIsNotNegative(risks: seq<RiskEntry>)
    requires NoNegativeSeverity(risks)
    ensures Penalty(risks) >= 0.0
    decreases |risks|
  {
    if risks != [] {
      var init, last := risks[..|risks| - 1], risks[|risks| - 1];
      assert forall i :: 0 <= i < |init| ==> init[i] == risks[i];
      PenaltyIsNotNegative(init);
      assert risks[|risks| - 1] == last;
      ProductBounds(last.severity, CategoryWeight(last.category), 0.0, last.severity);
    }
  }

  /** One more signal, anywhere among the others, takes its severity times the rate of its category off
      the score, down to 0 at most; a signal that is not active takes nothing. */
  lemma {:induction false} OneMoreSignal(required: seq<Text>, items: seq<Item>, risks: seq<RiskEntry>, extra: RiskEntry, more: seq<RiskEntry>,
                                         weights: map<Text, real>, t: Thresholds)
    requires NoNegativeSeverity(risks) && extra.severity >= 0.0 && multiset(more) == multiset(risks + [extra])
    ensures var score, score' := Evaluate(required, items, risks, weights, t).score, Evaluate(required, items, more, weights, t).score;
            && (score'.Some? <==> score.Some?)
            && (score.Some? ==>
                  var lowered := score.value - RiskCost(extra);
                  score'.value == if lowered >= 0.0 then lowered else 0.0)
  {
    hide Evaluate, BaseScore, CommittedItems, RiskCost, NoNegativeSeverity, Penalty, IsCommitted, Clamp01, Increasing;
    RiskOrderDoesNotMatter(required, items, more, risks + [extra], weights, t);
    ScoreIffComplete(required, items, risks, weights, t);
    ScoreIffComplete(required, items, more, weights, t);
    if Evaluate(required, items, risks, weights, t).score.Some? {
      var base := BaseScore(CommittedItems(items, required), weights);
      CompleteScore(required, items, risks, weights, t);
      CompleteScore(required, items, risks + [extra], weights, t);
      PenaltyOfOneMore(risks, extra);
      PenaltyIsNotNegative(risks);
      BaseInUnit(CommittedItems(items, required), weights);
      ScoreDrops(base, Penalty(risks), Penalty(risks + [extra]) - Penalty(risks));
    }
  }

  lemma {:induction false} PenaltyOfOneMore(risks: seq<RiskEntry>, extra: RiskEntry)
    ensures Penalty(risks + [extra])
            == Penalty(risks) + RiskCost(extra)
    ensures extra.severity >= 0.0 ==> RiskCost(extra) >= 0.0
  {
    TotalLast(Contribution(), risks, extra);
    WeightIsRate(extra.category);
    hide PenaltyRate;
    if extra.severity >= 0.0 {
      ProductBounds(extra.severity, CategoryWeight(extra.category), 0.0, extra.severity);
    }
  }

  lemma {:induction false} ScoreDrops(base: real, penalty: real, more: real)
    requires 0.0 <= base <= 1.0 && penalty >= 0.0 && more >= 0.0
    ensures var lowered := Clamp01(base - penalty) - more;
            Clamp01(base - (penalty + more)) == if lowered >= 0.0 then lowered else 0.0
  {
  }

  lemma {:induction false} BaseInUnit(items: seq<Item>, weights: map<Text, real>)
    ensures 0.0 <= BaseScore(items, weights) <= 1.0
  {
    hide Total, TotalWeight;
  }

  /** The whole of the risk penalty, over the active signals. */
  ghost function RiskSum(risks: seq<RiskEntry>): real {
    if risks == [] then 0.0
    else
      RiskSum(risks[..|risks| - 1]) + RiskCost(risks[|risks| - 1])
  }

  /** All signals together take their sum off the score without signals, down to 0 at most. */
  lemma {:induction false} SignalsLowerScore(required: seq<Text>, items: seq<Item>, risks: seq<RiskEntry>, weights: map<Text, real>, t: Thresholds)
    requires NoNegativeSeverity(risks)
    ensures RiskSum(risks) >= 0.0
    ensures var clean, score := Evaluate(required, items, [], weights, t).score, Evaluate(required, items, risks, weights, t).score;
            && (score.Some? <==> clean.Some?)
            && (score.Some? ==>
                  score.value == if clean.value >= RiskSum(risks) then clean.value - RiskSum(risks) else 0.0)
    decreases |risks|
  {
    hide Evaluate, RiskCost, IsCommitted, Increasing;
    if risks == [] {
      ScoreIffComplete(required, items, [], weights, t);
    } else {
      var init, last := risks[..|risks| - 1], risks[|risks| - 1];
      assert forall i :: 0 <= i < |init| ==> init[i] == risks[i];
      assert init + [last] == risks;
      assert risks[|risks| - 1] == last;
      SignalsLowerScore(required, items, init, weights, t);
      OneMoreSignal(required, items, init, last, risks, weights, t);
      PenaltyOfOneMore(init, last);
    }
  }

  ghost predicate IsCritical(risks: seq<RiskEntry>) {
    exists i :: 0 <= i < |risks| && risks[i].active && risks[i].category == Ascii("CRITICAL")
  }

  /** The verdict on a complete decision, by score and critical signals. */
  lemma {:induction false} VerdictLadder(required: seq<Text>, items: seq<Item>, risks: seq<RiskEntry>, weights: map<Text, real>, t: Thresholds)
    requires forall name :: name in required ==> IsCommitted(items, name)
    ensures var r := Evaluate(required, items, risks, weights, t);
            && r.score.Some?
            && (r.verdict == Approve <==> r.score.value >= t.approveAt && !IsCritical(risks))
            && (r.verdict == Reject <==> r.verdict != Approve && (r.score.value < t.rejectBelow || IsCritical(risks)))
            && (r.verdict == ManualReview <==> r.verdict != Approve && r.verdict != Reject)
  {
    ScoreIffComplete(required, items, risks, weights, t);
    CategoryNames();
    hide BaseScore, SortedUnique, AllRefs, CommittedItems, Penalty, IsCommitted, Increasing, Ascii;
    assert HasCritical(risks) <==> IsCritical(risks);
  }

  /** The refs of a complete decision are those of its committed required metrics, in order, once each. */
  lemma {:induction false} PolicyRefs(required: seq<Text>, items: seq<Item>, risks: seq<RiskEntry>, weights: map<Text, real>, t: Thresholds)
    ensures var r := Evaluate(required, items, risks, weights, t);
            && (r.score.None? ==> r.refs == [])
            && (r.score.Some? ==>
                  && Increasing(r.refs)
                  && forall ref :: ref in r.refs <==>
                       exists i :: 0 <= i < |items| && items[i].record.status == Committed && items[i].name in required
                                   && ref in items[i].record.refs)
  {
    var committed := CommittedItems(items, required);
    SortedUniqueIsSorted(AllRefs(committed));
    hide SortedUnique, Increasing, BaseScore, Penalty, HasCritical, CommittedItems;
    forall ref
      ensures ref in AllRefs(committed) <==>
                exists i :: 0 <= i < |items| && items[i].record.status == Committed && items[i].name in required
                            && ref in items[i].record.refs
    {
      CommittedMembers(items, required);
      if i :| 0 <= i < |committed| && ref in committed[i].record.refs {
        assert committed[i] in items;
        var j :| 0 <= j < |items| && items[j] == committed[i];
      }
      if i :| 0 <= i < |items| && items[i].record.status == Committed && items[i].name in required && ref in items[i].record.refs {
        assert items[i] in committed;
        var j :| 0 <= j < |committed| && committed[j] == items[i];
      }
    }
  }

  lemma {:induction false} CommittedMembers(items: seq<Item>, required: seq<Text>)
    ensures forall x :: x in CommittedItems(items, required) <==> x in items && x.record.status == Committed && x.name in required
    decreases |items|
  {
    if items != [] {
      CommittedMembers(items[..|items| - 1], required);
      assert items == items[..|items| - 1] + [items[|items| - 1]];
    }
  }

  /** The order of the risk signals does not matter. */
  lemma {:induction false} RiskOrderDoesNotMatter(required: seq<Text>, items: seq<Item>, risks: seq<RiskEntry>, others: seq<RiskEntry>,
                                                  weights: map<Text, real>, t: Thresholds)
    requires multiset(risks) == multiset(others)
    ensures Evaluate(required, items, risks, weights, t) == Evaluate(required, items, others, weights, t)
  {
    hide BaseScore, SortedUnique, AllRefs, CommittedItems;
    TotalPermutes(Contribution(), risks, others);
    CriticalPermutes(risks, others);
    CriticalPermutes(others, risks);
  }

  lemma {:induction false} CriticalPermutes(risks: seq<RiskEntry>, others: seq<RiskEntry>)
    requires multiset(risks) == multiset(others)
    ensures HasCritical(risks) ==> HasCritical(others)
  {
    if HasCritical(risks) {
      var i :| 0 <= i < |risks| && risks[i].active && risks[i].category == CRITICAL;
      assert risks[i] in multiset(others);
      var j :| 0 <= j < |others| && others[j] == risks[i];
    }
  }

  /** An active critical signal rejects a complete decision at any score and any thresholds. */
  lemma {:induction false} CriticalForcesReject(required: seq<Text>, items: seq<Item>, risks: seq<RiskEntry>, weights: map<Text, real>, t: Thresholds)
    requires forall name :: name in required ==> IsCommitted(items, name)
    requires exists r :: r in risks && r.active && r.category == CRITICAL
    ensures Evaluate(required, items, risks, weights, t).verdict == Reject
  {
    ScoreIffComplete(required, items, risks, weights, t);
    var r :| r in risks && r.active && r.category == CRITICAL;
    var i :| 0 <= i < |risks| && risks[i] == r;
    hide BaseScore, SortedUnique, AllRefs, CommittedItems, Penalty, IsCommitted, Increasing;
    assert HasCritical(risks);
  }

  function Rank(v: Verdict): nat {
    match v
    case InsufficientData => 0
    case Reject => 1
    case ManualReview => 2
    case Approve => 3
  }

  lemma {:induction false} VerdictIsMonotone(score: real, critical: bool, score': real, critical': bool, t: Thresholds)
    requires score' <= score && (critical ==> critical')
    ensures Rank(VerdictOf(score', critical', t)) <= Rank(VerdictOf(score, critical, t))
  {
  }

  /** One more risk signal of non-negative severity, anywhere among the others, never raises the
      score nor moves the verdict up, whatever the thresholds. */
  lemma {:induction false} MoreRiskNeverHelps(required: seq<Text>, items: seq<Item>, risks: seq<RiskEntry>, extra: RiskEntry, more: seq<RiskEntry>,
                                              weights: map<Text, real>, t: Thresholds)
    requires extra.severity >= 0.0 && multiset(more) == multiset(risks + [extra])
    ensures var r, r' := Evaluate(required, items, risks, weights, t), Evaluate(required, items, more, weights, t);
            && (r.score.Some? <==> r'.score.Some?)
            && (r.score.Some? ==> r'.score.value <= r.score.value)
            && Rank(r'.verdict) <= Rank(r.verdict)
  {
    RiskOrderDoesNotMatter(required, items, more, risks + [extra], weights, t);
    hide BaseScore, SortedUnique, AllRefs, CommittedItems;
    var longer := risks + [extra];
    assert longer[..|longer| - 1] == risks;
    ProductBounds(extra.severity, CategoryWeight(extra.category), 0.0, extra.severity);
    assert Penalty(longer) == Penalty(risks) + Contribution()(extra);
    assert HasCritical(risks) ==> HasCritical(longer) by {
      if HasCritical(risks) {
        var i :| 0 <= i < |risks| && risks[i].active && risks[i].category == CRITICAL;
        assert longer[i] == risks[i];
      }
    }
    var base := BaseScore(CommittedItems(items, required), weights);
    VerdictIsMonotone(TrustScore(base, risks), HasCritical(risks), TrustScore(base, longer), HasCritical(longer), t);
  }

  // ---- Dictionary order ---------------------------------------------------------------------------------------

  lemma {:induction false} CommittedAppend(items: seq<Item>, others: seq<Item>, required: seq<Text>)
    ensures CommittedItems(items + others, required) == CommittedItems(items, required) + CommittedItems(others, required)
    decreases |others|
  {
    if others == [] {
      assert items + others == items;
    } else {
      assert (items + others)[..|items + others| - 1] == items + others[..|others| - 1];
      CommittedAppend(items, others[..|others| - 1], required);
    }
  }

  lemma {:induction false} CommittedPermutes(items: seq<Item>, others: seq<Item>, required: seq<Text>)
    requires multiset(items) == multiset(others)
    ensures multiset(CommittedItems(items, required)) == multiset(CommittedItems(others, required))
    decreases |items|
  {
    if items == [] {
      assert |multiset(others)| == 0;
    } else {
      var init, last := items[..|items| - 1], items[|items| - 1];
      assert items == init + [last];
      assert last in multiset(others);
      var j :| 0 <= j < |others| && others[j] == last;
      var left, right := others[..j], others[j + 1..];
      assert others == left + ([last] + right);
      RemoveOne(init, last, left, right);
      CommittedPermutes(init, left + right, required);
      CommittedAppend(left, right, required);
      CommittedAppend(left, [last] + right, required);
      CommittedAppend([last], right, required);
      CommittedAppend(init, [last], required);
    }
  }

  /** The order in which the dictionary lists its metrics does not matter. */
  lemma {:induction false} ItemOrderDoesNotMatter(required: seq<Text>, items: seq<Item>, others: seq<Item>, risks: seq<RiskEntry>,
                                                  weights: map<Text, real>, t: Thresholds)
    requires multiset(items) == multiset(others)
    ensures Evaluate(required, items, risks, weights, t) == Evaluate(required, others, risks, weights, t)
  {
    hide CommittedItems, SortedUnique, Penalty, HasCritical, Total;
    var c, d := CommittedItems(items, required), CommittedItems(others, required);
    CommittedPermutes(items, others, required);
    TotalPermutes(TermOf(weights), c, d);
    TotalPermutes(ItemWeight(weights), c, d);
    assert forall x :: x in c <==> x in multiset(c);
    assert forall x :: x in d <==> x in multiset(d);
    SameMembers(c, d);
    SameElementsSameList(WithoutNames(required, c), WithoutNames(required, d));
    SameElementsSameList(AllRefs(c), AllRefs(d));
    assert c == [] <==> d == [] by {
      assert |multiset(c)| == |c| && |multiset(d)| == |d|;
    }
  }

  lemma {:induction false} SameMembers(c: seq<Item>, d: seq<Item>)
    requires forall x :: x in c <==> x in d
    ensures forall name :: HasName(c, name) <==> HasName(d, name)
    ensures forall ref :: ref in AllRefs(c) <==> ref in AllRefs(d)
  {
    MemberNames(c, d);
    MemberNames(d, c);
  }

  lemma {:induction false} MemberNames(c: seq<Item>, d: seq<Item>)
    requires forall x :: x in c ==> x in d
    ensures forall name :: HasName(c, name) ==> HasName(d, name)
    ensures forall ref :: ref in AllRefs(c) ==> ref in AllRefs(d)
  {
    forall name | HasName(c, name)
      ensures HasName(d, name)
    {
      var i :| 0 <= i < |c| && c[i].name == name;
      assert c[i] in d;
      var j :| 0 <= j < |d| && d[j] == c[i];
    }
    forall ref | ref in AllRefs(c)
      ensures ref in AllRefs(d)
    {
      var i :| 0 <= i < |c| && ref in c[i].record.refs;
      assert c[i] in d;
      var j :| 0 <= j < |d| && d[j] == c[i];
    }
  }
}
