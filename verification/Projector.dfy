/** The scoreboard projector: the read model rebuilt from one decision's event stream. */
module Projector {
  import opened Basics
  import opened Texts
  import opened Events
  import opened AuditTrail
  import opened System
  import opened SystemInvariant
  import opened SystemTheorems
  import opened Replay
  import opened Policy

  datatype MetricView = MetricView(value: Value, refs: seq<Text>, committedAt: Text, status: MetricStatus)

  /** The read model; the wall-clock field rebuilt_at is left out. */
  datatype ScoreboardState = ScoreboardState(
    decision: Text, trustScore: Option<real>, verdict: Verdict, metrics: map<Text, MetricView>,
    rootRef: Option<Bytes>, rootStamp: Option<Text>, rebuildSeq: nat)

  /** The risk matrix: every RiskSignal of the stream, active. */
  function RisksOf(events: seq<Event>): seq<RiskEntry> {
    if events == [] then []
    else
      var last := events[|events| - 1].body;
      RisksOf(events[..|events| - 1])
      + if last.RiskSignal? then [RiskEntry(last.metric, last.category, last.severity, true)] else []
  }

  function LastRoot(events: seq<Event>): (root: Option<Event>)
    ensures root.Some? ==> root.value in events && root.value.body.MerkleRootPublished?
    ensures root.None? ==> forall e :: e in events ==> !e.body.MerkleRootPublished?
  {
    if events == [] then None
    else if events[|events| - 1].body.MerkleRootPublished? then Some(events[|events| - 1])
    else LastRoot(events[..|events| - 1])
  }

  // ---- The metrics dictionary in some order -------------------------------------------

  /** `order` lists every key of the dictionary once. */
  predicate IsListing(order: seq<Text>, metrics: Metrics) {
    multiset(order) == multiset(metrics.Keys)
  }

  lemma {:induction false} ListedIsKey(order: seq<Text>, metrics: Metrics, name: Text)
    requires IsListing(order, metrics)
    ensures name in order <==> name in metrics
  {
    assert name in order <==> name in multiset(order);
  }

  function ItemsOf(metrics: Metrics, order: seq<Text>): (items: seq<Item>)
    requires forall name :: name in order ==> name in metrics
    ensures |items| == |order|
    ensures forall i :: 0 <= i < |order| ==> items[i] == Item(order[i], metrics[order[i]])
  {
    if order == [] then [] else [Item(order[0], metrics[order[0]])] + ItemsOf(metrics, order[1..])
  }

  method ListKeys(metrics: Metrics) returns (order: seq<Text>)
    ensures IsListing(order, metrics)
  {
    order := [];
    var left := metrics.Keys;
    while left != {}
      invariant left <= metrics.Keys && multiset(order) + multiset(left) == multiset(metrics.Keys)
      decreases left
    {
      var name :| name in left;
      assert multiset(left) == multiset(left - {name}) + multiset{name};
      order, left := order + [name], left - {name};
    }
  }

  lemma {:induction false} ItemsAppend(metrics: Metrics, a: seq<Text>, b: seq<Text>)
    requires forall name :: name in a + b ==> name in metrics
    ensures (forall name :: name in a ==> name in metrics) && (forall name :: name in b ==> name in metrics)
    ensures ItemsOf(metrics, a + b) == ItemsOf(metrics, a) + ItemsOf(metrics, b)
  {
    hide ItemsOf;
    assert forall name :: name in a ==> name in a + b;
    assert forall name :: name in b ==> name in a + b;
    assert ItemsOf(metrics, a + b) == ItemsOf(metrics, a) + ItemsOf(metrics, b);
  }

  lemma {:induction false} InsertOne<T>(all: seq<T>, one: seq<T>, left: seq<T>, right: seq<T>)
    requires multiset(all) == multiset(left + right)
    ensures multiset(all + one) == multiset(left + (one + right))
  {
    assert multiset(left + (one + right)) == multiset(left + right) + multiset(one);
  }

  lemma {:induction false} ItemsPermute(metrics: Metrics, order: seq<Text>, other: seq<Text>)
    requires multiset(order) == multiset(other)
    requires (forall name :: name in order ==> name in metrics) && (forall name :: name in other ==> name in metrics)
    ensures multiset(ItemsOf(metrics, order)) == multiset(ItemsOf(metrics, other))
    decreases |order|
  {
    hide ItemsOf;
    if order == [] {
      assert |multiset(other)| == 0;
    } else {
      var init, last := order[..|order| - 1], order[|order| - 1];
      assert order == init + [last];
      assert last in multiset(other);
      var j :| 0 <= j < |other| && other[j] == last;
      var left, right := other[..j], other[j + 1..];
      assert other == left + ([last] + right);
      RemoveOne(init, last, left, right);
      ItemsAppend(metrics, init, [last]);
      ItemsAppend(metrics, left, [last] + right);
      ItemsAppend(metrics, [last], right);
      assert forall name :: name in left + right ==> name in left || name in right;
      ItemsAppend(metrics, left, right);
      ItemsPermute(metrics, init, left + right);
      InsertOne(ItemsOf(metrics, init), ItemsOf(metrics, [last]), ItemsOf(metrics, left), ItemsOf(metrics, right));
    }
  }

  // ---- Rebuilding ----------------------------------------------------------------------------

  function ViewsOf(metrics: Metrics): map<Text, MetricView> {
    map name | name in metrics ::
      MetricView(metrics[name].value, metrics[name].refs, metrics[name].createdAt, metrics[name].status)
  }

  function StateFrom(decision: Text, events: seq<Event>, metrics: Metrics, policy: PolicyResult): ScoreboardState {
    var root := LastRoot(events);
    ScoreboardState(
      decision, policy.score, policy.verdict, ViewsOf(metrics),
      if root.Some? then Some(root.value.body.root) else None,
      if root.Some? then Some(root.value.body.stamp) else None,
      |events|)
  }

  function PolicyFor(events: seq<Event>, metrics: Metrics, required: seq<Text>, order: seq<Text>): PolicyResult
    requires forall name :: name in order ==> name in metrics
  {
    Evaluate(required, ItemsOf(metrics, order), RisksOf(events), map[], DEFAULT_THRESHOLDS)
  }

  /** The verdict is the same in whatever order the dictionary lists its metrics. */
  lemma {:induction false} PolicyIgnoresOrder(events: seq<Event>, metrics: Metrics, required: seq<Text>, order: seq<Text>, other: seq<Text>)
    requires IsListing(order, metrics) && IsListing(other, metrics)
    ensures (forall name :: name in order ==> name in metrics) && (forall name :: name in other ==> name in metrics)
    ensures PolicyFor(events, metrics, required, order) == PolicyFor(events, metrics, required, other)
  {
    forall name
      ensures name in order <==> name in metrics
      ensures name in other <==> name in metrics
    {
      ListedIsKey(order, metrics, name);
      ListedIsKey(other, metrics, name);
    }
    hide Evaluate, ItemsOf, RisksOf;
    ItemsPermute(metrics, order, other);
    ItemOrderDoesNotMatter(required, ItemsOf(metrics, order), ItemsOf(metrics, other), RisksOf(events), map[], DEFAULT_THRESHOLDS);
  }

  /** The state is the one rebuilt from the stream, for every listing of the metrics. */
  ghost predicate IsRebuilt(state: ScoreboardState, decision: Text, events: seq<Event>, required: seq<Text>) {
    var metrics := Reconstruct(decision, events);
    forall order :: IsListing(order, metrics) ==>
      && (forall name :: name in order ==> name in metrics)
      && state == StateFrom(decision, events, metrics, PolicyFor(events, metrics, required, order))
  }

  class ScoreboardStore {
    var boards: map<Text, ScoreboardState>

    constructor ()
      ensures boards == map[]
    {
      boards := map[];
    }
  }

  class ScoreboardProjector {
    const audit: MemoryAuditTrail
    const store: ScoreboardStore

    constructor (audit: MemoryAuditTrail, store: ScoreboardStore)
      ensures this.audit == audit && this.store == store
    {
      this.audit, this.store := audit, store;
    }

    method Rebuild(decision: Text, required: seq<Text>) returns (state: ScoreboardState)
      requires Agrees(audit.View())
      modifies store
      ensures store.boards == old(store.boards)[decision := state]
      ensures IsRebuilt(state, decision, ByDecision(audit.events, decision), required)
    {
      var events := audit.ReadRange(decision, 0);
      assert events == ByDecision(audit.events, decision);
      var metrics := ReconstructLoop(decision, events);
      var order := ListKeys(metrics);
      forall other | IsListing(other, metrics)
        ensures (forall name :: name in other ==> name in metrics) && (forall name :: name in order ==> name in metrics)
        ensures PolicyFor(events, metrics, required, other) == PolicyFor(events, metrics, required, order)
      {
        PolicyIgnoresOrder(events, metrics, required, other, order);
      }
      var policy := PolicyFor(events, metrics, required, order);
      state := StateFrom(decision, events, metrics, policy);
      store.boards := store.boards[decision := state];
    }
  }

  lemma {:induction false} SomeListing(keys: set<Text>) returns (order: seq<Text>)
    ensures multiset(order) == multiset(keys)
    decreases keys
  {
    if keys == {} {
      order := [];
    } else {
      var name :| name in keys;
      var rest := SomeListing(keys - {name});
      order := rest + [name];
      assert multiset(keys) == multiset(keys - {name}) + multiset{name};
    }
  }

  lemma {:induction false} ListedCommitted(metrics: Metrics, order: seq<Text>, name: Text)
    requires IsListing(order, metrics) && forall n :: n in order ==> n in metrics
    ensures IsCommitted(ItemsOf(metrics, order), name) <==> name in metrics && metrics[name].status == Committed
  {
    ListedIsKey(order, metrics, name);
    if name in metrics {
      var i :| 0 <= i < |order| && order[i] == name;
      assert ItemsOf(metrics, order)[i] == Item(name, metrics[name]);
    }
  }

  /** A rebuilt scoreboard has a numeric score exactly when the stream declares every required
      metric COMMITTED, and otherwise says INSUFFICIENT_DATA. */
  lemma {:induction false} ScoreIffAllDeclaredCommitted(state: ScoreboardState, decision: Text, events: seq<Event>, required: seq<Text>)
    requires IsRebuilt(state, decision, events, required)
    ensures state.trustScore.Some? <==>
              forall name :: name in required ==>
                DeclaredRecord(decision, events, name).Some? && DeclaredRecord(decision, events, name).value.status == Committed
    ensures state.trustScore.None? <==> state.verdict == InsufficientData
  {
    var metrics := Reconstruct(decision, events);
    var order := SomeListing(metrics.Keys);
    assert IsListing(order, metrics);
    assert state == StateFrom(decision, events, metrics, PolicyFor(events, metrics, required, order));
    hide Reconstruct, Evaluate, DeclaredRecord, IsCommitted, Increasing, RisksOf, LastRoot, IsListing;
    ScoreIffComplete(required, ItemsOf(metrics, order), RisksOf(events), map[], DEFAULT_THRESHOLDS);
    forall name
      ensures IsCommitted(ItemsOf(metrics, order), name) <==> name in metrics && metrics[name].status == Committed
      ensures Lookup(metrics, name) == DeclaredRecord(decision, events, name)
    {
      ListedCommitted(metrics, order, name);
      ReconstructIsDeclared(decision, events, name);
    }
  }

  // ---- The board, field by field -----------------------------------------------------------------

  ghost predicate IsLastRoot(events: seq<Event>, i: nat) {
    && i < |events| && events[i].body.MerkleRootPublished?
    && forall j :: i < j < |events| ==> !events[j].body.MerkleRootPublished?
  }

  lemma {:induction false} LastRootIsLast(events: seq<Event>)
    ensures LastRoot(events).Some? ==> exists i: nat :: IsLastRoot(events, i) && LastRoot(events).value == events[i]
    decreases |events|
  {
    if LastRoot(events).Some? {
      if events[|events| - 1].body.MerkleRootPublished? {
        assert IsLastRoot(events, |events| - 1);
      } else {
        var init := events[..|events| - 1];
        LastRootIsLast(init);
        var i: nat :| IsLastRoot(init, i) && LastRoot(init).value == init[i];
        assert IsLastRoot(events, i);
      }
    }
  }

  lemma {:induction false} ShownRoot(state: ScoreboardState, decision: Text, events: seq<Event>, required: seq<Text>)
    requires IsRebuilt(state, decision, events, required)
    ensures var root := LastRoot(events);
            if root.Some? then state.rootRef == Some(root.value.body.root) && state.rootStamp == Some(root.value.body.stamp)
            else state.rootRef == None && state.rootStamp == None
  {
    hide Reconstruct, Evaluate;
    var metrics := Reconstruct(decision, events);
    var order := SomeListing(metrics.Keys);
    assert IsListing(order, metrics);
  }

  /** A rebuilt board shows every record the stream declares and no other, the last published root with
      its time, and how many events were read. */
  lemma {:induction false} BoardFields(state: ScoreboardState, decision: Text, events: seq<Event>, required: seq<Text>, name: Text)
    requires IsRebuilt(state, decision, events, required)
    ensures state.decision == decision && state.rebuildSeq == |events|
    ensures var record := DeclaredRecord(decision, events, name);
            && (name in state.metrics <==> record.Some?)
            && (record.Some? ==>
                  var view := state.metrics[name];
                  && view.value == record.value.value && view.refs == record.value.refs
                  && view.committedAt == record.value.createdAt && view.status == record.value.status)
    ensures if e :| e in events && e.body.MerkleRootPublished? then
              exists i: nat :: IsLastRoot(events, i) && state.rootRef == Some(events[i].body.root)
                               && state.rootStamp == Some(events[i].body.stamp)
            else state.rootRef == None && state.rootStamp == None
  {
    var metrics := Reconstruct(decision, events);
    var order := SomeListing(metrics.Keys);
    assert IsListing(order, metrics);
    ShownRoot(state, decision, events, required);
    LastRootIsLast(events);
    ReconstructIsDeclared(decision, events, name);
    hide Reconstruct, DeclaredRecord, Evaluate, LastRoot;
  }

  // ---- Its verdict -------------------------------------------------------------------------------

  ghost predicate HasCriticalSignal(events: seq<Event>) {
    exists i :: 0 <= i < |events| && events[i].body.RiskSignal? && events[i].body.category == Ascii("CRITICAL")
  }

  ghost predicate SeveritiesNotNegative(events: seq<Event>) {
    forall i :: 0 <= i < |events| && events[i].body.RiskSignal? ==> events[i].body.severity >= 0.0
  }

  /** Severity times rate, over all risk signals of the stream. */
  ghost function SignalSum(events: seq<Event>): real {
    if events == [] then 0.0
    else
      var body := events[|events| - 1].body;
      SignalSum(events[..|events| - 1]) + if body.RiskSignal? then body.severity * PenaltyRate(body.category) else 0.0
  }

  lemma {:induction false} SignalSumIsRiskSum(events: seq<Event>)
    ensures RiskSum(RisksOf(events)) == SignalSum(events)
    decreases |events|
  {
    hide PenaltyRate;
    if events != [] {
      var before, body := RisksOf(events[..|events| - 1]), events[|events| - 1].body;
      SignalSumIsRiskSum(events[..|events| - 1]);
      if body.RiskSignal? {
        var entry := RiskEntry(body.metric, body.category, body.severity, true);
        assert (before + [entry])[..|before|] == before;
      } else {
        assert before + [] == before;
      }
    }
  }

  lemma {:induction false} CriticalIsCritical(events: seq<Event>)
    ensures IsCritical(RisksOf(events)) <==> HasCriticalSignal(events)
    decreases |events|
  {
    hide Ascii;
    if events != [] {
      CriticalIsCritical(events[..|events| - 1]);
      CriticalStep(events);
      var before, body := RisksOf(events[..|events| - 1]), events[|events| - 1].body;
      if body.RiskSignal? {
        OneMoreCritical(before, RiskEntry(body.metric, body.category, body.severity, true));
      } else {
        assert before + [] == before;
      }
    }
  }

  lemma {:induction false} OneMoreCritical(risks: seq<RiskEntry>, r: RiskEntry)
    ensures IsCritical(risks + [r]) <==> IsCritical(risks) || (r.active && r.category == Ascii("CRITICAL"))
  {
    hide Ascii;
    var longer := risks + [r];
    assert longer[|risks|] == r;
    if i :| 0 <= i < |risks| && risks[i].active && risks[i].category == Ascii("CRITICAL") {
      assert longer[i] == risks[i];
    }
  }

  lemma {:induction false} SeveritiesCarryOver(events: seq<Event>)
    ensures NoNegativeSeverity(RisksOf(events)) <==> SeveritiesNotNegative(events)
    decreases |events|
  {
    if events != [] {
      var init, last := events[..|events| - 1], events[|events| - 1];
      var before, risks := RisksOf(init), RisksOf(events);
      SeveritiesCarryOver(init);
      assert forall i :: 0 <= i < |init| ==> init[i] == events[i];
      assert events[|events| - 1] == last;
      assert forall i :: 0 <= i < |before| ==> risks[i] == before[i];
      if last.body.RiskSignal? {
        assert risks[|before|].severity == last.body.severity;
      }
    }
  }

  /** The risk matrix holds every signal of the stream, all of them active. */
  lemma {:induction false} RisksAreSignals(events: seq<Event>)
    ensures RiskSum(RisksOf(events)) == SignalSum(events)
    ensures IsCritical(RisksOf(events)) <==> HasCriticalSignal(events)
    ensures NoNegativeSeverity(RisksOf(events)) <==> SeveritiesNotNegative(events)
  {
    hide RiskSum, RisksOf, SignalSum, IsCritical, HasCriticalSignal, NoNegativeSeverity, SeveritiesNotNegative;
    SignalSumIsRiskSum(events);
    CriticalIsCritical(events);
    SeveritiesCarryOver(events);
  }

  lemma {:induction false} CriticalStep(events: seq<Event>)
    requires events != []
    ensures var init, body := events[..|events| - 1], events[|events| - 1].body;
            HasCriticalSignal(events) <==> HasCriticalSignal(init) || (body.RiskSignal? && body.category == Ascii("CRITICAL"))
  {
    hide Ascii;
    var init := events[..|events| - 1];
    if HasCriticalSignal(init) {
      var i :| 0 <= i < |init| && init[i].body.RiskSignal? && init[i].body.category == Ascii("CRITICAL");
      assert events[i] == init[i];
    }
    if i :| 0 <= i < |events| && events[i].body.RiskSignal? && events[i].body.category == Ascii("CRITICAL") {
      assert i < |init| ==> init[i] == events[i];
    }
  }

  /** The verdict of a rebuilt board, by its score and the critical signals of the stream: at 0.7 and
      more without one APPROVE, below 0.5 or with one REJECT. */
  lemma {:induction false} BoardVerdict(state: ScoreboardState, decision: Text, events: seq<Event>, required: seq<Text>)
    requires IsRebuilt(state, decision, events, required) && state.trustScore.Some?
    ensures state.verdict == Approve <==> state.trustScore.value >= 0.7 && !HasCriticalSignal(events)
    ensures state.verdict == Reject <==> state.trustScore.value < 0.5 || HasCriticalSignal(events)
    ensures state.verdict == ManualReview <==> 0.5 <= state.trustScore.value < 0.7 && !HasCriticalSignal(events)
  {
    var metrics := Reconstruct(decision, events);
    var order := SomeListing(metrics.Keys);
    assert IsListing(order, metrics);
    var items := ItemsOf(metrics, order);
    assert state == StateFrom(decision, events, metrics, PolicyFor(events, metrics, required, order));
    hide Reconstruct, Evaluate, IsCommitted, Increasing, IsCritical, HasCriticalSignal, RisksOf, LastRoot;
    ScoreIffComplete(required, items, RisksOf(events), map[], DEFAULT_THRESHOLDS);
    VerdictLadder(required, items, RisksOf(events), map[], DEFAULT_THRESHOLDS);
    RisksAreSignals(events);
  }

  /** One more risk signal takes its severity times the rate of its category off the board's score, down
      to 0 at most, and leaves records and root as they were. */
  lemma {:induction false} BoardAfterSignal(before: ScoreboardState, after: ScoreboardState, decision: Text, events: seq<Event>, e: Event, required: seq<Text>)
    requires IsRebuilt(before, decision, events, required) && IsRebuilt(after, decision, events + [e], required)
    requires e.body.RiskSignal? && e.body.severity >= 0.0 && SeveritiesNotNegative(events)
    ensures after.metrics == before.metrics && after.rootRef == before.rootRef && after.rootStamp == before.rootStamp
    ensures after.trustScore.Some? <==> before.trustScore.Some?
    ensures before.trustScore.Some? ==>
              var lowered := before.trustScore.value - e.body.severity * PenaltyRate(e.body.category);
              after.trustScore.value == if lowered >= 0.0 then lowered else 0.0
  {
    hide Reconstruct, Evaluate, RisksOf, LastRoot, PenaltyRate, NoNegativeSeverity, SeveritiesNotNegative, SignalSum, RiskSum, Ascii;
    OtherEventsAreIgnored(decision, events, e);
    RisksAreSignals(events);
    SignalAppended(events, e);
    var metrics := Reconstruct(decision, events);
    var order := SomeListing(metrics.Keys);
    assert IsListing(order, metrics);
    var extra := RiskEntry(e.body.metric, e.body.category, e.body.severity, true);
    OneMoreSignal(required, ItemsOf(metrics, order), RisksOf(events), extra, RisksOf(events + [e]), map[], DEFAULT_THRESHOLDS);
  }

  lemma {:induction false} SignalAppended(events: seq<Event>, e: Event)
    requires e.body.RiskSignal?
    ensures RisksOf(events + [e]) == RisksOf(events) + [RiskEntry(e.body.metric, e.body.category, e.body.severity, true)]
    ensures LastRoot(events + [e]) == LastRoot(events)
  {
    assert (events + [e])[..|events|] == events;
  }

  // ---- Its score ---------------------------------------------------------------------------------

  /** The sum of the values the stream declares for some names; what is no number counts as 1. */
  ghost function DeclaredSum(decision: Text, events: seq<Event>, names: seq<Text>): real {
    if names == [] then 0.0
    else
      var record := DeclaredRecord(decision, events, names[|names| - 1]);
      DeclaredSum(decision, events, names[..|names| - 1])
      + if record.Some? && record.value.value.number.Some? then record.value.value.number.value else 1.0
  }

  /** The mean of the declared values of the required metrics, each name once, cut off at 0 and 1; nothing
      required scores 0. */
  ghost predicate IsCleanScore(decision: Text, events: seq<Event>, required: seq<Text>, clean: real) {
    var names := SortedUnique(required);
    if names == [] then clean == 0.0 else IsCutOff(DeclaredSum(decision, events, names) / |names| as real, clean)
  }

  lemma {:induction false} SumsAppend(items: seq<Item>, others: seq<Item>, required: seq<Text>)
    requires forall i :: 0 <= i < |others| ==> !Counts(others[i], required)
    ensures ValueSum(items + others, required, map[]) == ValueSum(items, required, map[])
    ensures WeightSum(items + others, required, map[]) == WeightSum(items, required, map[])
    decreases |others|
  {
    hide WeightedValue, GivenWeight, Counts;
    if others == [] {
      assert items + others == items;
    } else {
      var init := others[..|others| - 1];
      assert forall i :: 0 <= i < |init| ==> init[i] == others[i];
      assert (items + others)[..|items + others| - 1] == items + init;
      SumsAppend(items, init, required);
    }
  }

  lemma {:induction false} SumsOfNames(decision: Text, events: seq<Event>, required: seq<Text>, names: seq<Text>)
    requires var metrics := Reconstruct(decision, events);
             forall name :: name in names ==> name in required && name in metrics && metrics[name].status == Committed
    ensures var items := ItemsOf(Reconstruct(decision, events), names);
            && ValueSum(items, required, map[]) == DeclaredSum(decision, events, names)
            && WeightSum(items, required, map[]) == |names| as real
    decreases |names|
  {
    hide Reconstruct, DeclaredRecord, ItemsOf, ValueSum, WeightSum;
    var metrics := Reconstruct(decision, events);
    if names == [] {
      SumOfNone(required);
    } else {
      var init, last := names[..|names| - 1], names[|names| - 1];
      assert last in names && forall name :: name in init ==> name in names;
      SumsOfNames(decision, events, required, init);
      ReconstructIsDeclared(decision, events, last);
      assert ItemsOf(metrics, names) == ItemsOf(metrics, init) + [Item(last, metrics[last])];
      SumOfOneMore(ItemsOf(metrics, init), Item(last, metrics[last]), required);
    }
  }

  lemma {:induction false} SumOfNone(required: seq<Text>)
    ensures ValueSum([], required, map[]) == WeightSum([], required, map[]) == 0.0
  {
  }

  lemma {:induction false} SumOfOneMore(items: seq<Item>, item: Item, required: seq<Text>)
    requires Counts(item, required)
    ensures ValueSum(items + [item], required, map[]) == ValueSum(items, required, map[]) + GivenValue(item)
    ensures WeightSum(items + [item], required, map[]) == WeightSum(items, required, map[]) + 1.0
  {
    assert (items + [item])[..|items|] == items;
  }

  lemma {:induction false} IncreasingIsDistinct(names: seq<Text>, keys: set<Text>)
    requires Increasing(names) && forall name :: name in names <==> name in keys
    ensures multiset(names) == multiset(keys)
    decreases |names|
  {
    if names != [] {
      var first, rest := names[0], names[1..];
      assert names == [first] + rest;
      LessIsTotal(first, first);
      IncreasingIsDistinct(rest, keys - {first});
      assert multiset(keys) == multiset(keys - {first}) + multiset{first};
    }
  }

  /** The score of a rebuilt board: the mean of the declared values of the required metrics, less the
      penalties of all risk signals in the stream, down to 0 at most. */
  lemma {:induction false} BoardScore(state: ScoreboardState, decision: Text, events: seq<Event>, required: seq<Text>) returns (clean: real)
    requires IsRebuilt(state, decision, events, required) && state.trustScore.Some? && SeveritiesNotNegative(events)
    ensures IsCleanScore(decision, events, required, clean) && SignalSum(events) >= 0.0
    ensures state.trustScore.value == if clean >= SignalSum(events) then clean - SignalSum(events) else 0.0
  {
    hide Reconstruct, Evaluate, IsCommitted, Increasing, SortedUnique, RisksOf, LastRoot, NoNegativeSeverity, SignalSum, RiskSum,
         SeveritiesNotNegative, DeclaredSum, ValueSum, WeightSum, DeclaredRecord;
    var metrics := Reconstruct(decision, events);
    var names := SortedUnique(required);
    ScoreIffAllDeclaredCommitted(state, decision, events, required);
    var order := RequiredFirst(decision, events, required);
    var items := ItemsOf(metrics, order);
    assert state == StateFrom(decision, events, metrics, PolicyFor(events, metrics, required, order));
    ScoreIffComplete(required, items, RisksOf(events), map[], DEFAULT_THRESHOLDS);
    RisksAreSignals(events);
    SignalsLowerScore(required, items, RisksOf(events), map[], DEFAULT_THRESHOLDS);
    ScoreWithoutRisk(required, items, [], map[], DEFAULT_THRESHOLDS);
    NoneFromNone(required);
    clean := Evaluate(required, items, [], map[], DEFAULT_THRESHOLDS).score.value;
  }

  lemma {:induction false} NoneFromNone(refs: seq<Text>)
    ensures SortedUnique(refs) == [] <==> refs == []
  {
    SortedUniqueIsSorted(refs);
    if refs != [] {
      assert refs[0] in SortedUnique(refs);
    }
  }

  /** A listing of the dictionary that starts with the required names. */
  lemma {:induction false} RequiredFirst(decision: Text, events: seq<Event>, required: seq<Text>) returns (order: seq<Text>)
    requires forall name :: name in required ==>
               DeclaredRecord(decision, events, name).Some? && DeclaredRecord(decision, events, name).value.status == Committed
    ensures IsListing(order, Reconstruct(decision, events)) && forall name :: name in order ==> name in Reconstruct(decision, events)
    ensures var items, names := ItemsOf(Reconstruct(decision, events), order), SortedUnique(required);
            && ValueSum(items, required, map[]) == DeclaredSum(decision, events, names)
            && WeightSum(items, required, map[]) == |names| as real
  {
    hide Reconstruct, Increasing, SortedUnique, DeclaredSum, DeclaredRecord, ValueSum, WeightSum;
    var metrics, names := Reconstruct(decision, events), SortedUnique(required);
    SortedUniqueIsSorted(required);
    forall name | name in names
      ensures name in required && name in metrics && metrics[name].status == Committed
    {
      ReconstructIsDeclared(decision, events, name);
    }
    var keys := set name | name in names;
    var rest := SomeListing(metrics.Keys - keys);
    order := names + rest;
    IncreasingIsDistinct(names, keys);
    assert multiset(metrics.Keys) == multiset(keys) + multiset(metrics.Keys - keys);
    assert multiset(order) == multiset(names) + multiset(rest);
    forall name | name in rest
      ensures name in metrics && name !in names
    {
      assert name in multiset(rest);
    }
    ItemsAppend(metrics, names, rest);
    SumsOfNames(decision, events, required, names);
    SumsAppend(ItemsOf(metrics, names), ItemsOf(metrics, rest), required);
  }

  // ---- Over reachable logs ----------------------------------------------------------------------

  /** In every reachable state the stream of a decision has no key twice, so ReconstructIsFullReplayIff
      applies to it. */
  lemma {:induction false} StreamKeysAreDistinct(h: Hash, actions: seq<Action>, decision: Text)
    requires ValidRun(h, INITIAL, actions)
    ensures KeysDistinct(Stream(Exec(h, INITIAL, actions).trail, decision))
  {
    var places := Reached(h, actions);
    hide Apply, Enabled, RunsInv, RowsInv, PlaceInv, EventOk;
    var trail := Exec(h, INITIAL, actions).trail;
    var stream := Stream(trail, decision);
    assert stream == ByDecision(trail.events, decision);
    forall i, j | 0 <= i < j < |stream| && KeyOf(stream[i].body).Some?
      ensures KeyOf(stream[i].body) != KeyOf(stream[j].body)
    {
      SelectionsKeepOrder(trail.events, decision, {}, i, j);
      InByDecision(trail.events, decision, stream[i]);
      InByDecision(trail.events, decision, stream[j]);
      assert trail.events[stream[i].id] == stream[i] && trail.events[stream[j].id] == stream[j];
      if KeyOf(stream[i].body) == KeyOf(stream[j].body) {
        OneEventPerKey(h, actions, stream[i].id, stream[j].id);
      }
    }
  }

  /** The root published to a decision's stream is that of a run which took one of its leaves. */
  ghost predicate RootOfOwnBatch(h: Hash, s: State, decision: Text, root: Bytes, stamp: Text) {
    exists b, i :: 0 <= b < |s.runs| && 0 <= i < |s.runs[b].leaves|
                   && s.runs[b].leaves[i].decision == decision
                   && root == RunRoot(h, s.runs[b]) && stamp == s.runs[b].stamp
  }

  lemma {:induction false} PublishedToOwnDecision(h: Hash, actions: seq<Action>, e: Event)
    requires ValidRun(h, INITIAL, actions) && e in Exec(h, INITIAL, actions).trail.events
    requires e.body.MerkleRootPublished? && e.decision != SYSTEM
    ensures RootOfOwnBatch(h, Exec(h, INITIAL, actions), e.decision, e.body.root, e.body.stamp)
  {
    hide ValidRun, Exec;
    PublishedFields(h, actions, e);
  }

  /** Once one of its events is batched, the scoreboard of a decision other than "system" shows a root,
      and the root and time it shows are those of a run that took a leaf of this very decision. */
  lemma {:induction false} AnchoredDecisionShowsARoot(h: Hash, actions: seq<Action>, id: nat, state: ScoreboardState, required: seq<Text>)
    requires ValidRun(h, INITIAL, actions)
    requires var trail := Exec(h, INITIAL, actions).trail;
             && id in trail.batched && id < |trail.events| && trail.events[id].decision != SYSTEM
             && IsRebuilt(state, trail.events[id].decision, Stream(trail, trail.events[id].decision), required)
    ensures var s := Exec(h, INITIAL, actions);
            && state.rootRef.Some? && state.rootStamp.Some?
            && RootOfOwnBatch(h, s, s.trail.events[id].decision, state.rootRef.value, state.rootStamp.value)
  {
    hide Apply, Enabled, Inv, Reconstruct, Evaluate, RootOfOwnBatch, IsRebuilt;
    var s := Exec(h, INITIAL, actions);
    var decision := s.trail.events[id].decision;
    var stream := Stream(s.trail, decision);
    AnchorSafety(h, actions, id);
    var batch: nat, i: nat :| AnchoredBy(h, s, id, batch, i);
    var e :| e in stream && e.body == RootBody(h, s.runs[batch], batch);
    ShownRoot(state, decision, stream, required);
    var shown := LastRoot(stream).value;
    InStream(h, actions, decision, shown);
    PublishedToOwnDecision(h, actions, shown);
  }

  lemma {:induction false} InStream(h: Hash, actions: seq<Action>, decision: Text, e: Event)
    requires ValidRun(h, INITIAL, actions)
    ensures var trail := Exec(h, INITIAL, actions).trail;
            e in Stream(trail, decision) <==> e in trail.events && e.decision == decision
  {
    var places := Reached(h, actions);
    hide Apply, Enabled, RunsInv, RowsInv, QueueInv, PlaceInv, EventOk;
    var trail := Exec(h, INITIAL, actions).trail;
    assert Stream(trail, decision) == ByDecision(trail.events, decision);
    InByDecision(trail.events, decision, e);
  }

  // ---- Supersession ---------------------------------------------------------------------------------

  lemma {:induction false} SupersedingKeepsRoot(events: seq<Event>, e: Event)
    requires e.body.MetricSuperseded?
    ensures LastRoot(events + [e]) == LastRoot(events)
  {
    assert (events + [e])[..|events + [e]| - 1] == events;
  }

  /** What superseding a metric does, in any state: rows, runs and queued leaves stay, every decision
      shows the root it showed, and of all rebuilt records only the named one changes, in status and
      superseding key alone. It changes nothing at all when the key was seen, when the metric is
      unknown, or when a supersession took effect in this decision before. */
  lemma {:induction false} SupersessionEffect(h: Hash, s: State, decision: Text, body: Body, other: Text)
    requires body.MetricSuperseded?
    ensures var s' := Apply(h, s, LogSupersede(decision, body));
            var before, after := Stream(s.trail, other), Stream(s'.trail, other);
            var metrics := Reconstruct(other, before);
            && s' == s.(trail := s'.trail) && s'.trail.batched == s.trail.batched
            && LastRoot(after) == LastRoot(before)
            && Reconstruct(other, after)
               == if other != decision || body.key in s.trail.index || body.metric !in metrics || HasCut(before) then metrics
                  else metrics[body.metric := metrics[body.metric].(status := Superseded, supersededBy := Some(body.key))]
  {
    hide Reconstruct, LastRoot, HasCut;
    if other == decision && body.key !in s.trail.index {
      var e := Event(|s.trail.events|, decision, body);
      SupersedingKeepsRoot(Stream(s.trail, decision), e);
      ReconstructAppend(decision, Stream(s.trail, decision), e);
    }
  }
}
