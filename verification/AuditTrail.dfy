/** The in-memory audit trail: an append-only log with a per-decision index, an idempotency
    index and the set of batched ids; as a value with its operations, and as the class. */
module AuditTrail {
  import opened Basics
  import opened Events

  datatype Trail = Trail(events: seq<Event>, byDecision: map<Text, seq<Event>>, index: map<Text, nat>, batched: set<nat>)

  datatype AppendResult = AppendResult(id: nat, deduplicated: bool)

  const EMPTY_TRAIL := Trail([], map[], map[], {})

  function Stream(t: Trail, decision: Text): seq<Event> {
    if decision in t.byDecision then t.byDecision[decision] else []
  }

  predicate Seen(t: Trail, key: Option<Text>) {
    key.Some? && key.value in t.index
  }

  /** One record, unless its idempotency key was seen before. */
  function Append(t: Trail, decision: Text, body: Body, key: Option<Text>): (Trail, AppendResult) {
    if Seen(t, key) then (t, AppendResult(t.index[key.value], true))
    else
      var e := Event(|t.events|, decision, body);
      (Trail(t.events + [e],
             t.byDecision[decision := Stream(t, decision) + [e]],
             if key.Some? then t.index[key.value := e.id] else t.index,
             t.batched),
       AppendResult(e.id, false))
  }

  function MarkBatched(t: Trail, ids: seq<nat>): Trail {
    t.(batched := t.batched + set id | id in ids)
  }

  /** The order-preserving filter of a log by decision. */
  function ByDecision(events: seq<Event>, decision: Text): seq<Event> {
    if events == [] then []
    else
      var init, last := events[..|events| - 1], events[|events| - 1];
      ByDecision(init, decision) + if last.decision == decision then [last] else []
  }

  function Unbatched(events: seq<Event>, batched: set<nat>): seq<Event> {
    if events == [] then []
    else
      var init, last := events[..|events| - 1], events[|events| - 1];
      Unbatched(init, batched)
      + if last.id !in batched && last.body.MetricCommitted? then [last] else []
  }

  /** Python's `s[n:]` and `s[:n]`. */
  function SliceFrom<T>(s: seq<T>, n: int): seq<T> {
    if n >= |s| then [] else if n >= 0 then s[n..] else if -n >= |s| then s else s[|s| + n..]
  }

  function SliceTo<T>(s: seq<T>, n: int): seq<T> {
    if n >= |s| then s else if n >= 0 then s[..n] else if -n >= |s| then [] else s[..|s| + n]
  }

  /** The two slices cut the list once, at position n, counted from the end when n is negative. */
  lemma {:induction false} SlicesCut<T>(s: seq<T>, n: int)
    ensures SliceTo(s, n) + SliceFrom(s, n) == s
    ensures n >= 0 ==> |SliceTo(s, n)| == if n < |s| then n else |s|
    ensures n < 0 ==> |SliceFrom(s, n)| == if -n < |s| then -n else |s|
  {
  }

  // ---- Agreement of the indexes with the log -------------------------------------------

  ghost predicate Agrees(t: Trail) {
    && (forall i :: 0 <= i < |t.events| ==> t.events[i].id == i)
    && (forall d: Text :: Stream(t, d) == ByDecision(t.events, d))
    && (forall k :: k in t.index ==> t.index[k] < |t.events|)
    && (forall k, m :: k in t.index && m in t.index && t.index[k] == t.index[m] ==> k == m)
  }

  lemma {:induction false} ByDecisionAppend(events: seq<Event>, e: Event, decision: Text)
    ensures ByDecision(events + [e], decision) == ByDecision(events, decision) + if e.decision == decision then [e] else []
  {
    assert (events + [e])[..|events|] == events;
  }

  lemma {:induction false} AppendAgrees(t: Trail, decision: Text, body: Body, key: Option<Text>)
    requires Agrees(t)
    ensures Agrees(Append(t, decision, body, key).0)
    ensures t.events <= Append(t, decision, body, key).0.events
  {
    hide ByDecision;
    var t' := Append(t, decision, body, key).0;
    if !Seen(t, key) {
      var e := Event(|t.events|, decision, body);
      forall d: Text
        ensures Stream(t', d) == ByDecision(t'.events, d)
      {
        ByDecisionAppend(t.events, e, d);
        assert Stream(t, d) == ByDecision(t.events, d);
      }
    }
  }

  datatype TrailOp = AppendOp(decision: Text, body: Body, key: Option<Text>) | MarkOp(ids: seq<nat>)

  function RunOps(t: Trail, ops: seq<TrailOp>): Trail
    decreases |ops|
  {
    if ops == [] then t
    else
      match ops[0]
      case AppendOp(decision, body, key) => RunOps(Append(t, decision, body, key).0, ops[1..])
      case MarkOp(ids) => RunOps(MarkBatched(t, ids), ops[1..])
  }

  /** After any sequence of operations every per-decision list is the filter of the log, the
      idempotency index is injective into existing ids, and the earlier log is a prefix. */
  lemma {:induction false} IndexesAgreeAlways(t: Trail, ops: seq<TrailOp>)
    requires Agrees(t)
    ensures Agrees(RunOps(t, ops)) && t.events <= RunOps(t, ops).events
    ensures t.batched <= RunOps(t, ops).batched
    ensures forall k :: k in t.index ==> k in RunOps(t, ops).index && RunOps(t, ops).index[k] == t.index[k]
    decreases |ops|
  {
    if ops != [] {
      match ops[0]
      case AppendOp(decision, body, key) =>
        AppendAgrees(t, decision, body, key);
        IndexesAgreeAlways(Append(t, decision, body, key).0, ops[1..]);
      case MarkOp(ids) =>
        IndexesAgreeAlways(MarkBatched(t, ids), ops[1..]);
    }
  }

  lemma {:induction false} EmptyTrailAgrees()
    ensures Agrees(EMPTY_TRAIL)
  {
  }

  /** So from the empty trail on: whatever was done, and whatever is done after it. */
  lemma {:induction false} IndexesAgreeFromStart(ops: seq<TrailOp>, more: seq<TrailOp>)
    ensures var t := RunOps(EMPTY_TRAIL, ops);
            var t' := RunOps(t, more);
            && Agrees(t) && Agrees(t') && t.events <= t'.events && t.batched <= t'.batched
            && forall k :: k in t.index ==> k in t'.index && t'.index[k] == t.index[k]
  {
    hide Agrees, RunOps;
    EmptyTrailAgrees();
    IndexesAgreeAlways(EMPTY_TRAIL, ops);
    IndexesAgreeAlways(RunOps(EMPTY_TRAIL, ops), more);
  }

  lemma {:induction false} InByDecision(events: seq<Event>, decision: Text, e: Event)
    ensures e in ByDecision(events, decision) <==> e in events && e.decision == decision
    decreases |events|
  {
    if events != [] {
      var init, last := events[..|events| - 1], events[|events| - 1];
      InByDecision(init, decision, e);
      assert events == init + [last];
    }
  }

  lemma {:induction false} InUnbatched(events: seq<Event>, batched: set<nat>, e: Event)
    ensures e in Unbatched(events, batched) <==> e in events && e.body.MetricCommitted? && e.id !in batched
    decreases |events|
  {
    if events != [] {
      var init, last := events[..|events| - 1], events[|events| - 1];
      InUnbatched(init, batched, e);
      assert events == init + [last];
    }
  }

  /** Both selections keep the order of the log, so that their members fix them. */
  lemma {:induction false} SelectionsKeepOrder(events: seq<Event>, decision: Text, batched: set<nat>, i: nat, j: nat)
    requires forall k :: 0 <= k < |events| ==> events[k].id == k
    ensures i < j < |ByDecision(events, decision)| ==>
              ByDecision(events, decision)[i].id < ByDecision(events, decision)[j].id < |events|
    ensures i < j < |Unbatched(events, batched)| ==>
              Unbatched(events, batched)[i].id < Unbatched(events, batched)[j].id < |events|
    decreases |events|
  {
    if events != [] {
      var init := events[..|events| - 1];
      var stream, unbatched := ByDecision(init, decision), Unbatched(init, batched);
      SelectionsKeepOrder(init, decision, batched, i, j);
      if i < |stream| {
        InByDecision(init, decision, stream[i]);
      }
      if i < |unbatched| {
        InUnbatched(init, batched, unbatched[i]);
      }
    }
  }

  // ---- The class -------------------------------------------------------------------------

  class MemoryAuditTrail {
    var events: seq<Event>
    var byDecision: map<Text, seq<Event>>
    var index: map<Text, nat>
    var batched: set<nat>

    ghost function View(): Trail
      reads this
    {
      Trail(events, byDecision, index, batched)
    }

    constructor ()
      ensures View() == EMPTY_TRAIL
    {
      events, byDecision, index, batched := [], map[], map[], {};
    }

    method AppendEvent(decision: Text, body: Body, key: Option<Text>) returns (r: AppendResult)
      modifies this
      ensures (View(), r) == Append(old(View()), decision, body, key)
      ensures old(events) <= events
    {
      if key.Some? && key.value in index {
        return AppendResult(index[key.value], true);
      }
      var record := Event(|events|, decision, body);
      events := events + [record];
      if decision !in byDecision {
        byDecision := byDecision[decision := []];
      }
      byDecision := byDecision[decision := byDecision[decision] + [record]];
      assert byDecision == old(byDecision)[decision := Stream(old(View()), decision) + [record]];
      if key.Some? {
        index := index[key.value := record.id];
      }
      return AppendResult(record.id, false);
    }

    method ReadRange(decision: Text, sinceSeq: int) returns (r: seq<Event>)
      requires Agrees(View())
      ensures r == SliceFrom(ByDecision(events, decision), sinceSeq)
    {
      assert Stream(View(), decision) == ByDecision(events, decision);
      if decision in byDecision {
        r := SliceFrom(byDecision[decision], sinceSeq);
      } else {
        r := SliceFrom([], sinceSeq);
      }
    }

    method ReadUnbatched(limit: int) returns (r: seq<Event>)
      ensures r == SliceTo(Unbatched(events, batched), limit)
    {
      var out: seq<Event> := [];
      for k := 0 to |events|
        invariant out == Unbatched(events[..k], batched)
      {
        assert events[..k + 1][..k] == events[..k];
        if events[k].id !in batched && events[k].body.MetricCommitted? {
          out := out + [events[k]];
        }
      }
      assert events[..|events|] == events;
      return SliceTo(out, limit);
    }

    method Mark(ids: seq<nat>)
      modifies this`batched
      ensures View() == MarkBatched(old(View()), ids)
    {
      batched := batched + set id | id in ids;
    }
  }
}
