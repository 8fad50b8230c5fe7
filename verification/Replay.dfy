/** Rebuilding the metric records of one decision from its event stream: the loop with its early
    return, its declarative reading, and where it differs from replaying the whole stream. */
module Replay {
  import opened Basics
  import opened Texts
  import opened Events
  import opened System

  /** "unknown", and the JSON text null. */
  const UNKNOWN: Text := [0x75, 0x6e, 0x6b, 0x6e, 0x6f, 0x77, 0x6e]
  const NULL_VALUE: Value := Value([0x6e, 0x75, 0x6c, 0x6c], None)

  datatype MetricRecord = MetricRecord(
    decision: Text, metric: Text, value: Value, proposedBy: Text, key: Text, refs: seq<Text>,
    status: MetricStatus, createdAt: Text, leafHash: Option<Digest>, supersededBy: Option<Text>)

  type Metrics = map<Text, MetricRecord>

  function FromCommit(decision: Text, e: Event): MetricRecord
    requires e.body.MetricCommitted?
  {
    var b := e.body;
    MetricRecord(decision, b.metric, b.value, b.proposedBy, b.key, SortedUnique(b.refs),
                 Committed, b.committedAt, Some(b.leafHash), None)
  }

  function FromRejection(decision: Text, e: Event): MetricRecord
    requires e.body.MetricRejected?
  {
    MetricRecord(decision, e.body.metric, NULL_VALUE, UNKNOWN, e.body.key, [], Rejected, e.body.occurredAt, None, None)
  }

  function Supersede(r: MetricRecord, key: Text): MetricRecord {
    r.(status := Superseded, supersededBy := Some(key))
  }

  function ApplyEvent(decision: Text, metrics: Metrics, e: Event): Metrics {
    match e.body
    case MetricCommitted(metric, _, _, _, _, _, _) => metrics[metric := FromCommit(decision, e)]
    case MetricRejected(metric, _, _) => if metric in metrics then metrics else metrics[metric := FromRejection(decision, e)]
    case MetricSuperseded(metric, _, _, key, _) =>
      if metric in metrics then metrics[metric := Supersede(metrics[metric], key)] else metrics
    case _ => metrics
  }

  /** The early return: a supersession whose target is known. */
  predicate Stops(metrics: Metrics, e: Event) {
    e.body.MetricSuperseded? && e.body.metric in metrics
  }

  function ReplayFrom(decision: Text, metrics: Metrics, events: seq<Event>): Metrics
    decreases |events|
  {
    if events == [] then metrics
    else if Stops(metrics, events[0]) then ApplyEvent(decision, metrics, events[0])
    else ReplayFrom(decision, ApplyEvent(decision, metrics, events[0]), events[1..])
  }

  function Reconstruct(decision: Text, events: seq<Event>): Metrics {
    ReplayFrom(decision, map[], events)
  }

  method ReconstructLoop(decision: Text, events: seq<Event>) returns (metrics: Metrics)
    ensures metrics == Reconstruct(decision, events)
  {
    metrics := map[];
    for k := 0 to |events|
      invariant ReplayFrom(decision, metrics, events[k..]) == Reconstruct(decision, events)
    {
      var e := events[k];
      assert events[k..][1..] == events[k + 1..];
      if e.body.MetricCommitted? {
        metrics := metrics[e.body.metric := FromCommit(decision, e)];
      } else if e.body.MetricRejected? {
        if e.body.metric !in metrics {
          metrics := metrics[e.body.metric := FromRejection(decision, e)];
        }
      } else if e.body.MetricSuperseded? {
        if e.body.metric in metrics {
          metrics := metrics[e.body.metric := Supersede(metrics[e.body.metric], e.body.key)];
          return;
        }
      }
    }
    assert events[|events|..] == [];
  }

  // ---- The whole stream, without the early return --------------------------------------------

  function FullReplay(decision: Text, events: seq<Event>): Metrics {
    if events == [] then map[]
    else ApplyEvent(decision, FullReplay(decision, events[..|events| - 1]), events[|events| - 1])
  }

  predicate Mentions(e: Event, metric: Text) {
    (e.body.MetricCommitted? || e.body.MetricRejected?) && e.body.metric == metric
  }

  /** Some event commits or rejects the metric. */
  ghost predicate Mentioned(events: seq<Event>, metric: Text) {
    exists i :: 0 <= i < |events| && Mentions(events[i], metric)
  }

  /** A supersession of a metric that the events before it know. */
  ghost predicate IsCut(events: seq<Event>, i: nat)
    requires i < |events|
  {
    events[i].body.MetricSuperseded? && Mentioned(events[..i], events[i].body.metric)
  }

  /** How many events replay reads: up to and including the first such supersession. */
  ghost function ReadFrom(events: seq<Event>, i: nat): (n: nat)
    requires i <= |events|
    ensures i <= n <= |events|
    decreases |events| - i
  {
    if i == |events| then i else if IsCut(events, i) then i + 1 else ReadFrom(events, i + 1)
  }

  ghost function ReadPrefix(events: seq<Event>): seq<Event> {
    events[..ReadFrom(events, 0)]
  }

  lemma {:induction false} MentionedAfter(events: seq<Event>, metric: Text)
    requires events != []
    ensures Mentioned(events, metric) <==>
              Mentioned(events[..|events| - 1], metric) || Mentions(events[|events| - 1], metric)
  {
    var init := events[..|events| - 1];
    if Mentioned(init, metric) {
      var i :| 0 <= i < |init| && Mentions(init[i], metric);
      assert Mentions(events[i], metric);
    }
    if Mentioned(events, metric) {
      var i :| 0 <= i < |events| && Mentions(events[i], metric);
      assert i < |init| ==> Mentions(init[i], metric);
    }
  }

  lemma {:induction false} FullReplayKnows(decision: Text, events: seq<Event>, metric: Text)
    ensures metric in FullReplay(decision, events) <==> Mentioned(events, metric)
    decreases |events|
  {
    if events != [] {
      FullReplayKnows(decision, events[..|events| - 1], metric);
      MentionedAfter(events, metric);
    }
  }

  lemma {:induction false} FullReplayStep(decision: Text, events: seq<Event>, i: nat)
    requires i < |events|
    ensures FullReplay(decision, events[..i + 1]) == ApplyEvent(decision, FullReplay(decision, events[..i]), events[i])
  {
    assert events[..i + 1][..i] == events[..i];
  }

  lemma {:induction false} ReplayReadsPrefix(decision: Text, events: seq<Event>, i: nat)
    requires i <= |events|
    ensures ReplayFrom(decision, FullReplay(decision, events[..i]), events[i..])
            == FullReplay(decision, events[..ReadFrom(events, i)])
    decreases |events| - i
  {
    if i < |events| {
      hide Mentioned, FullReplay, ApplyEvent;
      FullReplayStep(decision, events, i);
      assert events[i..][1..] == events[i + 1..];
      if events[i].body.MetricSuperseded? {
        FullReplayKnows(decision, events[..i], events[i].body.metric);
      }
      if !IsCut(events, i) {
        ReplayReadsPrefix(decision, events, i + 1);
      }
    }
  }

  /** The code replays exactly the prefix that ends at the first supersession of a known metric. */
  lemma {:induction false} ReconstructIsFullReplayOfPrefix(decision: Text, events: seq<Event>)
    ensures Reconstruct(decision, events) == FullReplay(decision, ReadPrefix(events))
  {
    assert events[..0] == [] && events[0..] == events;
    ReplayReadsPrefix(decision, events, 0);
  }

  // ---- The declarative reading ------------------------------------------------------------------

  function LastCommit(events: seq<Event>, metric: Text): (i: Option<nat>)
    ensures i.Some? ==> i.value < |events| && events[i.value].body.MetricCommitted? && events[i.value].body.metric == metric
    ensures forall j :: (if i.Some? then i.value else -1) < j < |events| ==>
              !(events[j].body.MetricCommitted? && events[j].body.metric == metric)
  {
    if events == [] then None
    else
      var last := events[|events| - 1].body;
      if last.MetricCommitted? && last.metric == metric then Some(|events| - 1)
      else LastCommit(events[..|events| - 1], metric)
  }

  function FirstRejection(events: seq<Event>, metric: Text): (i: Option<nat>)
    ensures i.Some? ==> i.value < |events| && events[i.value].body.MetricRejected? && events[i.value].body.metric == metric
    ensures forall j :: 0 <= j < (if i.Some? then i.value else |events|) ==>
              !(events[j].body.MetricRejected? && events[j].body.metric == metric)
  {
    if events == [] then None
    else
      var earlier := FirstRejection(events[..|events| - 1], metric);
      var last := events[|events| - 1].body;
      if earlier.Some? then earlier
      else if last.MetricRejected? && last.metric == metric then Some(|events| - 1)
      else None
  }

  /** Before any supersession takes effect: the last commit, else the first rejection, field by field. */
  function BaseRecord(decision: Text, events: seq<Event>, metric: Text): Option<MetricRecord> {
    var commit, rejection := LastCommit(events, metric), FirstRejection(events, metric);
    if commit.Some? then
      var b := events[commit.value].body;
      Some(MetricRecord(decision, metric, b.value, b.proposedBy, b.key, SortedUnique(b.refs),
                        Committed, b.committedAt, Some(b.leafHash), None))
    else if rejection.Some? then
      var b := events[rejection.value].body;
      Some(MetricRecord(decision, metric, Value(Ascii("null"), None), Ascii("unknown"), b.key, [],
                        Rejected, b.occurredAt, None, None))
    else None
  }

  /** The record that the stream declares for a metric. */
  ghost function DeclaredRecord(decision: Text, events: seq<Event>, metric: Text): Option<MetricRecord> {
    var n := ReadFrom(events, 0);
    if n > 0 && IsCut(events, n - 1) then
      var base := BaseRecord(decision, events[..n - 1], metric);
      if base.Some? && events[n - 1].body.metric == metric then
        Some(base.value.(status := Superseded, supersededBy := Some(events[n - 1].body.key)))
      else base
    else BaseRecord(decision, events[..n], metric)
  }

  function Lookup(metrics: Metrics, metric: Text): Option<MetricRecord> {
    if metric in metrics then Some(metrics[metric]) else None
  }

  lemma {:induction false} NoCutBefore(events: seq<Event>, i: nat, j: nat)
    requires i <= |events| && i <= j && j + 1 < ReadFrom(events, i)
    ensures !IsCut(events, j)
    decreases j - i
  {
    if i < j {
      NoCutBefore(events, i + 1, j);
    }
  }

  lemma {:induction false} ReplayNames()
    ensures UNKNOWN == Ascii("unknown") && NULL_VALUE == Value(Ascii("null"), None)
  {
  }

  lemma {:induction false} BaseRecordStep(decision: Text, events: seq<Event>, k: nat, metric: Text)
    requires k < |events|
    ensures var base, e := BaseRecord(decision, events[..k], metric), events[k];
            BaseRecord(decision, events[..k + 1], metric)
            == if e.body.MetricCommitted? && e.body.metric == metric then Some(FromCommit(decision, e))
               else if e.body.MetricRejected? && e.body.metric == metric && base.None? then Some(FromRejection(decision, e))
               else base
  {
    ReplayNames();
    assert events[..k + 1][..k] == events[..k];
    hide SortedUnique, Ascii;
  }

  lemma {:induction false} FullReplayIsBase(decision: Text, events: seq<Event>, k: nat, metric: Text)
    requires k <= |events| && forall j :: 0 <= j < k ==> !IsCut(events, j)
    ensures Lookup(FullReplay(decision, events[..k]), metric) == BaseRecord(decision, events[..k], metric)
    decreases k
  {
    if k > 0 {
      FullReplayIsBase(decision, events, k - 1, metric);
      FullReplayStep(decision, events, k - 1);
      BaseRecordStep(decision, events, k - 1, metric);
      var e := events[k - 1];
      if e.body.MetricSuperseded? {
        FullReplayKnows(decision, events[..k - 1], e.body.metric);
        assert !IsCut(events, k - 1);
      }
      hide FullReplay, BaseRecord, FromCommit, FromRejection, Mentioned;
    }
  }

  /** Replay characterisation: reconstruct returns, for every metric, exactly the declared record. */
  lemma {:induction false} ReconstructIsDeclared(decision: Text, events: seq<Event>, metric: Text)
    ensures Lookup(Reconstruct(decision, events), metric) == DeclaredRecord(decision, events, metric)
  {
    ReconstructIsFullReplayOfPrefix(decision, events);
    hide Reconstruct, IsCut, FullReplay, BaseRecord;
    var n := ReadFrom(events, 0);
    forall j: nat | j + 1 < n
      ensures !IsCut(events, j)
    {
      NoCutBefore(events, 0, j);
    }
    if n == 0 {
      FullReplayIsBase(decision, events, 0, metric);
    } else if IsCut(events, n - 1) {
      FullReplayIsBase(decision, events, n - 1, metric);
      FullReplayStep(decision, events, n - 1);
      CutApplies(decision, events, n - 1, metric);
    } else {
      FullReplayIsBase(decision, events, n, metric);
    }
  }

  lemma {:induction false} CutApplies(decision: Text, events: seq<Event>, i: nat, metric: Text)
    requires i < |events| && IsCut(events, i)
    ensures var before := FullReplay(decision, events[..i]);
            var after := ApplyEvent(decision, before, events[i]);
            Lookup(after, metric)
            == if metric in before && events[i].body.metric == metric then Some(Supersede(before[metric], events[i].body.key))
               else Lookup(before, metric)
  {
  }

  /** REJECTED appears only where nothing was committed; at most one record is SUPERSEDED, and it
      keeps its value, leaf hash and time. */
  lemma {:induction false} ReplayShape(decision: Text, events: seq<Event>, metric: Text, other: Text)
    requires var metrics := Reconstruct(decision, events); metric in metrics && other in metrics
    ensures var metrics := Reconstruct(decision, events);
            && (metrics[metric].status == Rejected ==> LastCommit(ReadPrefix(events), metric).None?)
            && (metrics[metric].status == Superseded && metrics[other].status == Superseded ==> metric == other)
            && (metrics[metric].status == Superseded ==>
                  var n := ReadFrom(events, 0);
                  n > 0 && var base := BaseRecord(decision, events[..n - 1], metric);
                  base.Some? && metrics[metric] == base.value.(status := Superseded, supersededBy := metrics[metric].supersededBy))
  {
    hide Reconstruct, SortedUnique, LastCommit;
    ReconstructIsDeclared(decision, events, metric);
    ReconstructIsDeclared(decision, events, other);
    var n := ReadFrom(events, 0);
    if n > 0 {
      assert events[..n][..n - 1] == events[..n - 1];
      assert events[..n][n - 1] == events[n - 1];
    }
  }

  // ---- One more event ----------------------------------------------------------------------------

  ghost predicate HasCut(events: seq<Event>) {
    exists i :: 0 <= i < |events| && IsCut(events, i)
  }

  lemma {:induction false} ReadFromAppend(events: seq<Event>, e: Event, i: nat)
    requires i <= |events|
    ensures if exists j :: i <= j < |events| && IsCut(events, j) then ReadFrom(events + [e], i) == ReadFrom(events, i)
            else ReadFrom(events + [e], i) == |events| + 1
    decreases |events| - i
  {
    hide Mentioned;
    var longer := events + [e];
    if i < |events| {
      assert longer[..i] == events[..i] && longer[i] == events[i];
      assert IsCut(longer, i) <==> IsCut(events, i);
      ReadFromAppend(events, e, i + 1);
    } else {
      assert ReadFrom(longer, i + 1) == i + 1;
    }
  }

  /** Replay of a stream with one more event: nothing new once a supersession has taken effect, else
      just that event. */
  lemma {:induction false} ReconstructAppend(decision: Text, events: seq<Event>, e: Event)
    ensures Reconstruct(decision, events + [e])
            == if HasCut(events) then Reconstruct(decision, events) else ApplyEvent(decision, Reconstruct(decision, events), e)
  {
    hide Reconstruct, FullReplay, ApplyEvent, IsCut;
    var longer := events + [e];
    ReadFromAppend(events, e, 0);
    ReconstructIsFullReplayOfPrefix(decision, events);
    ReconstructIsFullReplayOfPrefix(decision, longer);
    if HasCut(events) {
      assert longer[..ReadFrom(events, 0)] == events[..ReadFrom(events, 0)];
    } else {
      NoCutReadsAll(events, 0);
      assert longer[..|events| + 1] == longer && longer[..|events|] == events && events[..|events|] == events;
      FullReplayStep(decision, longer, |events|);
    }
  }

  lemma {:induction false} NoCutReadsAll(events: seq<Event>, i: nat)
    requires i <= |events| && !HasCut(events)
    ensures ReadFrom(events, i) == |events|
    decreases |events| - i
  {
    hide IsCut;
    if i < |events| {
      assert !IsCut(events, i);
      NoCutReadsAll(events, i + 1);
    }
  }

  /** Events that are no commit, rejection or supersession leave the records alone. */
  lemma {:induction false} OtherEventsAreIgnored(decision: Text, events: seq<Event>, e: Event)
    requires !e.body.MetricCommitted? && !e.body.MetricRejected? && !e.body.MetricSuperseded?
    ensures Reconstruct(decision, events + [e]) == Reconstruct(decision, events)
  {
    hide Reconstruct;
    ReconstructAppend(decision, events, e);
  }

  // ---- Against replaying everything ------------------------------------------------------------------

  /** No two events of the stream were appended under one idempotency key. */
  ghost predicate KeysDistinct(events: seq<Event>) {
    forall i, j :: 0 <= i < j < |events| && KeyOf(events[i].body).Some? ==> KeyOf(events[i].body) != KeyOf(events[j].body)
  }

  /** The event changes the records that the events before it give. */
  ghost predicate Effective(events: seq<Event>, i: nat)
    requires i < |events|
  {
    match events[i].body
    case MetricCommitted(_, _, _, _, _, _, _) => true
    case MetricRejected(metric, _, _) => !Mentioned(events[..i], metric)
    case MetricSuperseded(metric, _, _, _, _) => Mentioned(events[..i], metric)
    case _ => false
  }

  lemma {:induction false} IneffectiveChangesNothing(decision: Text, events: seq<Event>, from: nat, until: nat)
    requires from <= until <= |events| && forall i :: from <= i < until ==> !Effective(events, i)
    ensures FullReplay(decision, events[..until]) == FullReplay(decision, events[..from])
    decreases until
  {
    if from < until {
      IneffectiveChangesNothing(decision, events, from, until - 1);
      FullReplayStep(decision, events, until - 1);
      var body := events[until - 1].body;
      assert !Effective(events, until - 1);
      if body.MetricRejected? || body.MetricSuperseded? {
        FullReplayKnows(decision, events[..until - 1], body.metric);
      }
      hide FullReplay, Mentioned;
    }
  }

  /** Where a record's key and superseding key come from. */
  lemma {:induction false} RecordSources(decision: Text, events: seq<Event>, metric: Text)
    requires metric in FullReplay(decision, events)
    ensures var r := FullReplay(decision, events)[metric];
            && (r.status == Committed ==> exists j :: 0 <= j < |events| && events[j].body.MetricCommitted? && events[j].body.key == r.key)
            && (r.supersededBy.Some? ==>
                  exists j :: 0 <= j < |events| && events[j].body.MetricSuperseded? && events[j].body.key == r.supersededBy.value)
    decreases |events|
  {
    hide SortedUnique;
    var init, last := events[..|events| - 1], events[|events| - 1];
    assert last == events[|events| - 1];
    if metric in FullReplay(decision, init) {
      RecordSources(decision, init, metric);
      assert forall j :: 0 <= j < |init| ==> init[j] == events[j];
    }
  }

  lemma {:induction false} EffectiveChanges(decision: Text, events: seq<Event>, from: nat, i: nat)
    requires KeysDistinct(events) && from <= i < |events| && Effective(events, i)
    ensures FullReplay(decision, events[..i + 1]) != FullReplay(decision, events[..from])
  {
    var body := events[i].body;
    var early := events[..from];
    FullReplayStep(decision, events, i);
    FullReplayKnows(decision, events[..i], body.metric);
    FullReplayKnows(decision, early, body.metric);
    hide FullReplay, SortedUnique;
    if body.metric in FullReplay(decision, early) {
      RecordSources(decision, early, body.metric);
      assert forall j :: 0 <= j < from ==> early[j] == events[j];
    }
  }

  lemma {:induction false} LastEffective(events: seq<Event>, from: nat) returns (i: nat)
    requires exists j :: from <= j < |events| && Effective(events, j)
    ensures from <= i < |events| && Effective(events, i)
    ensures forall j :: i < j < |events| ==> !Effective(events, j)
  {
    hide Effective;
    var j0 :| from <= j0 < |events| && Effective(events, j0);
    var k := |events|;
    while !(k > 0 && Effective(events, k - 1))
      invariant j0 < k <= |events|
      decreases k
      invariant forall j :: k <= j < |events| ==> !Effective(events, j)
    {
      k := k - 1;
    }
    i := k - 1;
  }

  /** Exactly when the early return does no harm: no event after the first supersession of a known
      metric is a commit, a first rejection or a supersession of a known metric. */
  lemma {:induction false} ReconstructIsFullReplayIff(decision: Text, events: seq<Event>)
    requires KeysDistinct(events)
    ensures Reconstruct(decision, events) == FullReplay(decision, events) <==>
              forall i :: ReadFrom(events, 0) <= i < |events| ==> !Effective(events, i)
  {
    hide Effective, Reconstruct, FullReplay, KeysDistinct;
    var n := ReadFrom(events, 0);
    ReconstructIsFullReplayOfPrefix(decision, events);
    assert events[..|events|] == events;
    if exists i :: n <= i < |events| && Effective(events, i) {
      var i := LastEffective(events, n);
      IneffectiveChangesNothing(decision, events, i + 1, |events|);
      EffectiveChanges(decision, events, n, i);
    } else {
      IneffectiveChangesNothing(decision, events, n, |events|);
    }
  }
}
