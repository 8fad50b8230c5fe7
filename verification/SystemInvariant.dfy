/** The invariant of the commit and anchor protocol and its preservation by every action. */
module SystemInvariant {
  import opened Basics
  import opened Texts
  import opened Merkle
  import opened MerkleBatches
  import opened LeafHash
  import opened Events
  import opened AuditTrail
  import opened System

  /** Where a committed event's leaf is. */
  datatype Place = Unqueued | Abandoned | Queued(i: nat) | InRun(batch: nat, i: nat)

  /** The leaf is that of a committed event in the log. */
  ghost predicate LeafLogged(events: seq<Event>, p: PendingLeaf) {
    p.eventId < |events| && events[p.eventId].body.MetricCommitted? && LeafOf(events[p.eventId]) == p
  }

  ghost predicate IsPublished(events: seq<Event>, decision: Text, body: Body) {
    exists j :: 0 <= j < |events| && events[j].decision == decision && events[j].body == body
  }

  ghost predicate EventOk(h: Hash, s: State, e: Event) {
    match e.body
    case MetricCommitted(_, _, _, key, leafHash, _, _) =>
      && leafHash == ComputeLeafHash(h, FieldsOf(e))
      && key in s.trail.index && s.trail.index[key] == e.id
    case MetricSuperseded(_, _, _, key, _) => key in s.trail.index && s.trail.index[key] == e.id
    case MerkleRootPublished(batch, _, _, _, _) =>
      && batch < |s.runs| && s.runs[batch].leaves != [] && !s.runs[batch].phase.Stamping?
      && e.body == RootBody(h, s.runs[batch], batch)
      && (e.decision == SYSTEM || e.decision in Decisions(s.runs[batch]))
    case _ => true
  }

  ghost predicate LogInv(h: Hash, s: State) {
    && Agrees(s.trail)
    && (forall i :: 0 <= i < |s.trail.events| ==> EventOk(h, s, s.trail.events[i]))
    && (forall k :: k in s.trail.index ==> KeyOf(s.trail.events[s.trail.index[k]].body) == Some(k))
  }

  ghost predicate QueueInv(s: State) {
    && (s.firstTs.None? <==> s.pending == [])
    && forall i :: 0 <= i < |s.pending| ==> LeafLogged(s.trail.events, s.pending[i])
  }

  ghost predicate RunOk(h: Hash, s: State, batch: nat)
    requires batch < |s.runs|
  {
    var r := s.runs[batch];
    && r.leaves != [] && (r.failed ==> !r.phase.Done?)
    && Written(r) <= |r.leaves| && (r.phase.Writing? ==> r.phase.next < |r.leaves|)
    && Announced(r) <= |Decisions(r)| && (r.phase.Publishing? ==> r.phase.next < |Decisions(r)|)
    && (forall i :: 0 <= i < |r.leaves| ==> LeafLogged(s.trail.events, r.leaves[i]))
    && (forall i :: 0 <= i < Written(r) ==> r.leaves[i].leafHash in s.rows)
    && (forall i :: 0 <= i < Announced(r) ==> IsPublished(s.trail.events, Decisions(r)[i], RootBody(h, r, batch)))
  }

  ghost predicate RunsInv(h: Hash, s: State) {
    forall b :: 0 <= b < |s.runs| ==> RunOk(h, s, b)
  }

  /** The row was written for leaf i of run `batch`. */
  ghost predicate RowFrom(h: Hash, s: State, row: Row, batch: nat, i: nat) {
    batch < |s.runs| && i < Written(s.runs[batch]) && i < |s.runs[batch].leaves|
    && row == RowFor(h, s.runs[batch], batch, i)
  }

  ghost predicate RowsInv(h: Hash, s: State) {
    forall k :: k in s.rows ==> s.rows[k].leafHash == k && exists b: nat, i: nat :: RowFrom(h, s, s.rows[k], b, i)
  }

  ghost predicate PlaceHolds(s: State, id: nat, place: Place) {
    match place
    case Unqueued => id in s.unqueued
    case Abandoned => id in s.abandoned
    case Queued(i) => i < |s.pending| && s.pending[i].eventId == id
    case InRun(b, i) => b < |s.runs| && i < |s.runs[b].leaves| && s.runs[b].leaves[i].eventId == id
  }

  ghost predicate PlacedAt(places: map<nat, Place>, id: nat, place: Place) {
    id in places && places[id] == place
  }

  /** Every committed event has one place, and every place holds one committed event. */
  ghost predicate PlaceInv(s: State, places: map<nat, Place>) {
    && (forall id: nat :: id in places <==> id < |s.trail.events| && s.trail.events[id].body.MetricCommitted?)
    && (forall id :: id in places ==> PlaceHolds(s, id, places[id]))
    && (forall id :: id in s.unqueued ==> PlacedAt(places, id, Unqueued))
    && (forall id :: id in s.abandoned ==> PlacedAt(places, id, Abandoned))
    && (forall i :: 0 <= i < |s.pending| ==> PlacedAt(places, s.pending[i].eventId, Queued(i)))
    && (forall b, i :: 0 <= b < |s.runs| && 0 <= i < |s.runs[b].leaves| ==>
          PlacedAt(places, s.runs[b].leaves[i].eventId, InRun(b, i)))
    && (forall id :: id in s.trail.batched ==>
          id in places && places[id].InRun? && s.runs[places[id].batch].phase.Done?)
    && (forall b, i :: 0 <= b < |s.runs| && 0 <= i < |s.runs[b].leaves| && s.runs[b].phase.Done? ==>
          s.runs[b].leaves[i].eventId in s.trail.batched)
  }

  ghost predicate Inv(h: Hash, s: State, places: map<nat, Place>) {
    LogInv(h, s) && QueueInv(s) && RunsInv(h, s) && RowsInv(h, s) && PlaceInv(s, places)
  }

  // ---- What only grows -------------------------------------------------------------------

  ghost predicate RunGrows(r: Run, r': Run) {
    && r'.leaves == r.leaves && r'.signature == r.signature
    && (!r.phase.Stamping? ==> r'.stamp == r.stamp && !r'.phase.Stamping?)
    && Written(r) <= Written(r') && Announced(r) <= Announced(r')
    && (r.phase.Done? ==> r'.phase.Done?)
  }

  ghost predicate Grows(s: State, s': State) {
    && s.trail.events <= s'.trail.events
    && (forall k :: k in s.trail.index ==> k in s'.trail.index && s'.trail.index[k] == s.trail.index[k])
    && |s.runs| <= |s'.runs|
    && (forall b :: 0 <= b < |s.runs| ==> RunGrows(s.runs[b], s'.runs[b]))
    && s.rows.Keys <= s'.rows.Keys
    && s.trail.batched <= s'.trail.batched
  }

  lemma {:induction false} ApplyRunGrows(h: Hash, s: State, a: Action, b: nat)
    requires Enabled(s, a) && b < |s.runs| && RunOk(h, s, b)
    ensures b < |Apply(h, s, a).runs| && RunGrows(s.runs[b], Apply(h, s, a).runs[b])
  {
    hide ComputeLeafHash, Sorted, SortedUnique, RootBody, RowFor, Append, MarkBatched, LeafLogged, IsPublished;
  }

  lemma {:induction false} ApplyGrows(h: Hash, s: State, a: Action)
    requires Enabled(s, a) && RunsInv(h, s)
    ensures Grows(s, Apply(h, s, a))
  {
    hide ComputeLeafHash, Sorted, SortedUnique, RootBody, RowFor, ByDecision, RunGrows, RunOk;
    var s' := Apply(h, s, a);
    forall b | 0 <= b < |s.runs|
      ensures RunGrows(s.runs[b], s'.runs[b])
    {
      ApplyRunGrows(h, s, a, b);
    }
  }

  // ---- The log -----------------------------------------------------------------------------

  lemma {:induction false} EventStaysOk(h: Hash, s: State, s': State, e: Event)
    requires EventOk(h, s, e) && Grows(s, s')
    ensures EventOk(h, s', e)
  {
    hide ComputeLeafHash, Root;
    if e.body.MerkleRootPublished? {
      assert RunGrows(s.runs[e.body.batch], s'.runs[e.body.batch]);
    }
  }

  lemma {:induction false} LogUnchanged(h: Hash, s: State, s': State)
    requires LogInv(h, s) && Grows(s, s') && s'.trail == s.trail.(batched := s'.trail.batched)
    ensures LogInv(h, s')
  {
    hide EventOk, ByDecision;
    assert forall d: Text :: Stream(s'.trail, d) == Stream(s.trail, d);
    forall i | 0 <= i < |s'.trail.events|
      ensures EventOk(h, s', s'.trail.events[i])
    {
      EventStaysOk(h, s, s', s.trail.events[i]);
    }
  }

  lemma {:induction false} LogExtended(h: Hash, s: State, s': State, decision: Text, body: Body)
    requires LogInv(h, s) && Grows(s, s')
    requires s'.trail == Append(s.trail, decision, body, KeyOf(body)).0
    requires !Seen(s.trail, KeyOf(body)) ==> EventOk(h, s', Event(|s.trail.events|, decision, body))
    ensures LogInv(h, s')
  {
    hide EventOk, ByDecision;
    AppendAgrees(s.trail, decision, body, KeyOf(body));
    forall i | 0 <= i < |s'.trail.events|
      ensures EventOk(h, s', s'.trail.events[i])
    {
      if i < |s.trail.events| {
        EventStaysOk(h, s, s', s.trail.events[i]);
      }
    }
  }

  lemma {:induction false} CommitEventOk(h: Hash, s': State, id: nat, c: Commit, at: Text)
    requires c.key in s'.trail.index && s'.trail.index[c.key] == id
    ensures EventOk(h, s', Event(id, c.decision, CommitBody(h, c, at)))
  {
    LeafHashIsReproducible(h, CommitFields(c, at));
    hide ComputeLeafHash, Sorted;
  }

  lemma {:induction false} LogInvKept(h: Hash, s: State, a: Action)
    requires Enabled(s, a) && LogInv(h, s) && RunsInv(h, s)
    ensures LogInv(h, Apply(h, s, a))
  {
    var s' := Apply(h, s, a);
    ApplyGrows(h, s, a);
    match a
    case LogPlain(decision, body) => LogExtended(h, s, s', decision, body);
    case LogSupersede(decision, body) => LogExtended(h, s, s', decision, body);
    case AppendCommit(c, at) =>
      if !Seen(s.trail, Some(c.key)) {
        CommitEventOk(h, s', |s.trail.events|, c, at);
      }
      LogExtended(h, s, s', c.decision, CommitBody(h, c, at));
    case PublishSystem(b) => LogExtended(h, s, s', SYSTEM, RootBody(h, s.runs[b], b));
    case PublishDecision(b) =>
      LogExtended(h, s, s', Decisions(s.runs[b])[s.runs[b].phase.next], RootBody(h, s.runs[b], b));
    case _ => LogUnchanged(h, s, s');
  }

  // ---- The queue, the runs and the rows ---------------------------------------------------------

  lemma {:induction false} QueueStays(s: State, s': State)
    requires QueueInv(s) && s'.pending == s.pending && s'.firstTs == s.firstTs && s.trail.events <= s'.trail.events
    ensures QueueInv(s')
  {
    forall i | 0 <= i < |s'.pending|
      ensures LeafLogged(s'.trail.events, s'.pending[i])
    {
      assert LeafLogged(s.trail.events, s.pending[i]);
    }
  }

  lemma {:induction false} QueueInvKept(h: Hash, s: State, a: Action)
    requires Enabled(s, a) && QueueInv(s) && LogInv(h, s) && RunsInv(h, s)
    ensures QueueInv(Apply(h, s, a))
  {
    ApplyGrows(h, s, a);
    hide RunsInv, RunGrows, ComputeLeafHash, Sorted, SortedUnique, ByDecision, RootBody, RowFor, EventOk;
    var s' := Apply(h, s, a);
    match a
    case Enqueue(id, now) =>
      forall i | 0 <= i < |s'.pending|
        ensures LeafLogged(s'.trail.events, s'.pending[i])
      {
        if i < |s.pending| {
          assert LeafLogged(s.trail.events, s.pending[i]);
        }
      }
    case Take(_) =>
    case _ =>
      hide QueueInv;
      QueueStays(s, s');
  }

  predicate StandsStill(r: Run, r': Run) {
    r' == r || (r' == r.(failed := true) && !r.phase.Done?)
  }

  lemma {:induction false} RunStays(h: Hash, s: State, s': State, b: nat)
    requires b < |s.runs| && RunOk(h, s, b) && Grows(s, s')
    requires StandsStill(s.runs[b], s'.runs[b])
    ensures RunOk(h, s', b)
  {
    hide Root, SortedUnique;
    var r := s'.runs[b];
    forall i | 0 <= i < |r.leaves|
      ensures LeafLogged(s'.trail.events, r.leaves[i])
    {
      assert LeafLogged(s.trail.events, r.leaves[i]);
    }
    forall i | 0 <= i < Announced(r)
      ensures IsPublished(s'.trail.events, Decisions(r)[i], RootBody(h, r, b))
    {
      PublishedStays(s.trail.events, s'.trail.events, Decisions(r)[i], RootBody(h, r, b));
    }
  }

  lemma {:induction false} PublishedStays(events: seq<Event>, events': seq<Event>, decision: Text, body: Body)
    requires IsPublished(events, decision, body) && events <= events'
    ensures IsPublished(events', decision, body)
  {
    var j :| 0 <= j < |events| && events[j].decision == decision && events[j].body == body;
    assert events'[j] == events[j];
  }

  /** A run keeps its invariant when it moves forward and what it newly claims is there. */
  lemma {:induction false} RunMoves(h: Hash, s: State, s': State, b: nat)
    requires b < |s.runs| && b < |s'.runs| && RunOk(h, s, b)
    requires s.trail.events <= s'.trail.events && s.rows.Keys <= s'.rows.Keys
    requires var r, r' := s.runs[b], s'.runs[b];
             && r'.leaves == r.leaves && r'.signature == r.signature && (r'.stamp == r.stamp || Announced(r) == 0)
             && !r'.failed && Written(r') <= |r'.leaves| && (r'.phase.Writing? ==> r'.phase.next < |r'.leaves|)
             && Announced(r') <= |Decisions(r)| && (r'.phase.Publishing? ==> r'.phase.next < |Decisions(r)|)
             && (forall i :: Written(r) <= i < Written(r') ==> r.leaves[i].leafHash in s'.rows)
             && (forall i :: Announced(r) <= i < Announced(r') ==>
                   IsPublished(s'.trail.events, Decisions(r)[i], RootBody(h, r', b)))
    ensures RunOk(h, s', b)
  {
    hide Root, SortedUnique;
    var r, r' := s.runs[b], s'.runs[b];
    forall i | 0 <= i < |r.leaves|
      ensures LeafLogged(s'.trail.events, r.leaves[i])
    {
      assert LeafLogged(s.trail.events, r.leaves[i]);
    }
    forall i | 0 <= i < Announced(r')
      ensures IsPublished(s'.trail.events, Decisions(r)[i], RootBody(h, r', b))
    {
      if i < Announced(r) {
        PublishedStays(s.trail.events, s'.trail.events, Decisions(r)[i], RootBody(h, r, b));
      }
    }
  }

  lemma {:induction false} AppendedLast(events: seq<Event>, e: Event)
    ensures IsPublished(events + [e], e.decision, e.body)
  {
    assert (events + [e])[|events|] == e;
  }

  lemma {:induction false} WriteRowAdvances(h: Hash, s: State, b: nat)
    requires Enabled(s, WriteRow(b)) && RunOk(h, s, b)
    ensures RunOk(h, WriteRowStep(h, s, b), b)
  {
    hide Root, ProofFor, SortedUnique, IsPublished, LeafLogged;
    RunMoves(h, s, WriteRowStep(h, s, b), b);
  }

  lemma {:induction false} PublishDecisionAdvances(h: Hash, s: State, b: nat)
    requires Enabled(s, PublishDecision(b)) && RunOk(h, s, b)
    ensures RunOk(h, PublishDecisionStep(h, s, b), b)
  {
    hide Root, SortedUnique, IsPublished, LeafLogged;
    var r := s.runs[b];
    AppendedLast(s.trail.events, Event(|s.trail.events|, Decisions(r)[r.phase.next], RootBody(h, r, b)));
    RunMoves(h, s, PublishDecisionStep(h, s, b), b);
  }

  lemma {:induction false} PublishSystemAdvances(h: Hash, s: State, b: nat)
    requires Enabled(s, PublishSystem(b)) && RunOk(h, s, b)
    ensures RunOk(h, WithPhase(Logged(s, SYSTEM, RootBody(h, s.runs[b], b)), b, Publishing(0)), b)
  {
    DecisionsExist(s.runs[b]);
    hide Root, SortedUnique, IsPublished, LeafLogged;
    RunMoves(h, s, WithPhase(Logged(s, SYSTEM, RootBody(h, s.runs[b], b)), b, Publishing(0)), b);
  }

  lemma {:induction false} StampOrDoneAdvances(h: Hash, s: State, a: Action)
    requires Enabled(s, a) && (a.ReceiveStamp? || a.MarkDone?) && RunOk(h, s, a.batch)
    ensures RunOk(h, Apply(h, s, a), a.batch)
  {
    hide Root, SortedUnique, IsPublished, LeafLogged;
    RunMoves(h, s, Apply(h, s, a), a.batch);
  }

  /** The run that the action moves forward. */
  lemma {:induction false} RunAdvances(h: Hash, s: State, a: Action)
    requires Enabled(s, a) && RunsInv(h, s) && MovesRun(a)
    ensures RunOk(h, Apply(h, s, a), a.batch)
  {
    assert RunOk(h, s, a.batch);
    hide RunsInv, RunOk, AppendCommitStep, EnqueueStep, MarkBatched, Decisions;
    if a.WriteRow? {
      hide WriteRowStep;
      WriteRowAdvances(h, s, a.batch);
    } else if a.PublishSystem? {
      hide Logged, WithPhase;
      PublishSystemAdvances(h, s, a.batch);
    } else if a.PublishDecision? {
      hide PublishDecisionStep;
      PublishDecisionAdvances(h, s, a.batch);
    } else {
      StampOrDoneAdvances(h, s, a);
    }
  }

  lemma {:induction false} DecisionsExist(r: Run)
    requires r.leaves != []
    ensures Decisions(r) != []
    ensures forall i :: 0 <= i < |r.leaves| ==> r.leaves[i].decision in Decisions(r)
  {
    SortedUniqueIsSorted(DecisionsOf(r.leaves));
    forall i | 0 <= i < |r.leaves|
      ensures r.leaves[i].decision in Decisions(r)
    {
      assert DecisionsOf(r.leaves)[i] in DecisionsOf(r.leaves);
    }
    assert r.leaves[0].decision in Decisions(r);
  }

  predicate MovesRun(a: Action) {
    a.ReceiveStamp? || a.WriteRow? || a.PublishSystem? || a.PublishDecision? || a.MarkDone?
  }

  /** An action starts one run over all pending leaves, moves or fails one run, or leaves all runs alone. */
  lemma {:induction false} RunsChange(h: Hash, s: State, a: Action, b: nat)
    requires Enabled(s, a) && b < |Apply(h, s, a).runs|
    ensures var r' := Apply(h, s, a).runs[b];
            if b < |s.runs| then StandsStill(s.runs[b], r') || (MovesRun(a) && b == a.batch)
            else a.Take? && s.pending != [] && r' == Run(s.pending, a.signature, [], Stamping, false)
                 && Apply(h, s, a).trail == s.trail
  {
    hide Append, MarkBatched, RowFor, RootBody, Decisions, CommitBody;
  }

  lemma {:induction false} RunsInvKept(h: Hash, s: State, a: Action)
    requires Enabled(s, a) && QueueInv(s) && RunsInv(h, s)
    ensures RunsInv(h, Apply(h, s, a))
  {
    hide Apply, Enabled, RunOk, RunGrows, QueueInv;
    var s' := Apply(h, s, a);
    ApplyGrows(h, s, a);
    forall b | 0 <= b < |s'.runs|
      ensures RunOk(h, s', b)
    {
      RunsChange(h, s, a, b);
      if b >= |s.runs| {
        NewRunOk(h, s, s', b);
      } else if StandsStill(s.runs[b], s'.runs[b]) {
        RunStays(h, s, s', b);
      } else {
        RunAdvances(h, s, a);
      }
    }
  }

  lemma {:induction false} NewRunOk(h: Hash, s: State, s': State, b: nat)
    requires QueueInv(s) && s.pending != [] && s'.trail == s.trail
    requires b < |s'.runs| && s'.runs[b].leaves == s.pending && s'.runs[b].phase.Stamping?
    ensures RunOk(h, s', b)
  {
    hide Root, SortedUnique;
  }

  lemma {:induction false} RowStays(h: Hash, s: State, s': State, row: Row, b: nat, i: nat)
    requires RowFrom(h, s, row, b, i) && Grows(s, s')
    ensures RowFrom(h, s', row, b, i)
  {
    hide Root, ProofFor;
    assert RunGrows(s.runs[b], s'.runs[b]);
  }

  /** Only writing a row touches the stored rows, and only its own leaf's. */
  lemma {:induction false} RowsChange(h: Hash, s: State, a: Action, k: Bytes)
    requires Enabled(s, a) && k in Apply(h, s, a).rows
    ensures var row := Apply(h, s, a).rows[k];
            || (k in s.rows && row == s.rows[k])
            || (a.WriteRow? && var r := s.runs[a.batch];
                k == r.leaves[r.phase.next].leafHash && row == RowFor(h, r, a.batch, r.phase.next))
  {
    hide RowFor, RootBody, Append, MarkBatched, CommitBody;
  }

  lemma {:induction false} RowsInvKept(h: Hash, s: State, a: Action)
    requires Enabled(s, a) && RunsInv(h, s) && RowsInv(h, s)
    ensures RowsInv(h, Apply(h, s, a))
  {
    var s' := Apply(h, s, a);
    ApplyGrows(h, s, a);
    hide Apply, RowFrom, Grows, RunsInv;
    forall k | k in s'.rows
      ensures s'.rows[k].leafHash == k && exists b: nat, i: nat :: RowFrom(h, s', s'.rows[k], b, i)
    {
      RowsChange(h, s, a, k);
      if k in s.rows && s'.rows[k] == s.rows[k] {
        var b: nat, i: nat :| RowFrom(h, s, s.rows[k], b, i);
        RowStays(h, s, s', s.rows[k], b, i);
      } else {
        NewRowFrom(h, s, a.batch);
      }
    }
  }

  lemma {:induction false} NewRowFrom(h: Hash, s: State, b: nat)
    requires Enabled(s, WriteRow(b))
    ensures var i := s.runs[b].phase.next;
            RowFrom(h, Apply(h, s, WriteRow(b)), RowFor(h, s.runs[b], b, i), b, i)
  {
    hide Root, ProofFor;
  }

  // ---- Places ------------------------------------------------------------------------------------

  function NextPlaces(s: State, places: map<nat, Place>, a: Action): map<nat, Place> {
    match a
    case AppendCommit(c, _) => if Seen(s.trail, Some(c.key)) then places else places[|s.trail.events| := Unqueued]
    case Enqueue(id, _) => places[id := Queued(|s.pending|)]
    case Abandon(id) => places[id := Abandoned]
    case Take(_) => map id | id in places :: if places[id].Queued? then InRun(|s.runs|, places[id].i) else places[id]
    case _ => places
  }

  lemma {:induction false} PlacesStay(s: State, s': State, places: map<nat, Place>)
    requires PlaceInv(s, places)
    requires s.trail.events <= s'.trail.events && s'.trail.batched == s.trail.batched
    requires forall i :: |s.trail.events| <= i < |s'.trail.events| ==> !s'.trail.events[i].body.MetricCommitted?
    requires s'.pending == s.pending && s'.unqueued == s.unqueued && s'.abandoned == s.abandoned
    requires |s'.runs| == |s.runs|
    requires forall b :: 0 <= b < |s.runs| ==> s'.runs[b].leaves == s.runs[b].leaves
    requires forall b :: 0 <= b < |s.runs| ==> (s'.runs[b].phase.Done? <==> s.runs[b].phase.Done?)
    ensures PlaceInv(s', places)
  {
    forall id | id in places
      ensures PlaceHolds(s', id, places[id])
    {
      assert PlaceHolds(s, id, places[id]);
    }
  }

  lemma {:induction false} CommitPlaces(h: Hash, s: State, places: map<nat, Place>, c: Commit, at: Text)
    requires PlaceInv(s, places) && !Seen(s.trail, Some(c.key))
    ensures PlaceInv(AppendCommitStep(h, s, c, at), places[|s.trail.events| := Unqueued])
  {
    NewCommitPlace(s, AppendCommitStep(h, s, c, at), places, Event(|s.trail.events|, c.decision, CommitBody(h, c, at)));
  }

  lemma {:induction false} NewCommitPlace(s: State, s': State, places: map<nat, Place>, e: Event)
    requires PlaceInv(s, places) && e.body.MetricCommitted?
    requires s'.trail.events == s.trail.events + [e] && s'.trail.batched == s.trail.batched
    requires s' == s.(trail := s'.trail, unqueued := s.unqueued + {|s.trail.events|})
    ensures PlaceInv(s', places[|s.trail.events| := Unqueued])
  {
    var places' := places[|s.trail.events| := Unqueued];
    forall id | id in places'
      ensures PlaceHolds(s', id, places'[id])
    {
      if id in places {
        assert PlaceHolds(s, id, places[id]);
      }
    }
  }

  lemma {:induction false} EnqueuePlaces(s: State, places: map<nat, Place>, id: nat, now: real)
    requires PlaceInv(s, places) && Enabled(s, Enqueue(id, now)) && s.trail.events[id].id == id
    ensures PlaceInv(EnqueueStep(s, id, now), places[id := Queued(|s.pending|)])
  {
    var s', places' := EnqueueStep(s, id, now), places[id := Queued(|s.pending|)];
    assert PlacedAt(places, id, Unqueued);
    forall other | other in places'
      ensures PlaceHolds(s', other, places'[other])
    {
      assert PlaceHolds(s, other, places[other]);
    }
    OthersKeepPlace(s, s', places, id, Queued(|s.pending|));
  }

  lemma {:induction false} AbandonPlaces(h: Hash, s: State, places: map<nat, Place>, id: nat)
    requires PlaceInv(s, places) && id in s.unqueued
    ensures PlaceInv(Apply(h, s, System.Abandon(id)), places[id := Abandoned])
  {
    var s', places' := Apply(h, s, System.Abandon(id)), places[id := Abandoned];
    assert PlacedAt(places, id, Unqueued);
    forall other | other in places'
      ensures PlaceHolds(s', other, places'[other])
    {
      assert PlaceHolds(s, other, places[other]);
    }
    OthersKeepPlace(s, s', places, id, Abandoned);
  }

  lemma {:induction false} OthersKeepPlace(s: State, s': State, places: map<nat, Place>, id: nat, place: Place)
    requires PlaceInv(s, places) && PlacedAt(places, id, Unqueued)
    requires s.pending <= s'.pending && s'.runs == s.runs
    ensures forall i :: 0 <= i < |s.pending| ==> PlacedAt(places[id := place], s'.pending[i].eventId, Queued(i))
    ensures forall b, i :: 0 <= b < |s.runs| && 0 <= i < |s.runs[b].leaves| ==>
              PlacedAt(places[id := place], s'.runs[b].leaves[i].eventId, InRun(b, i))
  {
    forall i | 0 <= i < |s.pending|
      ensures PlacedAt(places[id := place], s'.pending[i].eventId, Queued(i))
    {
      assert PlacedAt(places, s.pending[i].eventId, Queued(i));
    }
    forall b, i | 0 <= b < |s.runs| && 0 <= i < |s.runs[b].leaves|
      ensures PlacedAt(places[id := place], s'.runs[b].leaves[i].eventId, InRun(b, i))
    {
      assert PlacedAt(places, s.runs[b].leaves[i].eventId, InRun(b, i));
    }
  }

  lemma {:induction false} TakePlaces(h: Hash, s: State, places: map<nat, Place>, signature: Bytes)
    requires PlaceInv(s, places) && s.pending != []
    ensures PlaceInv(Apply(h, s, Take(signature)), NextPlaces(s, places, Take(signature)))
  {
    var s', places' := Apply(h, s, Take(signature)), NextPlaces(s, places, Take(signature));
    forall id | id in places'
      ensures PlaceHolds(s', id, places'[id])
    {
      assert PlaceHolds(s, id, places[id]);
    }
    forall b, i | 0 <= b < |s'.runs| && 0 <= i < |s'.runs[b].leaves|
      ensures PlacedAt(places', s'.runs[b].leaves[i].eventId, InRun(b, i))
    {
      if b < |s.runs| {
        assert PlacedAt(places, s.runs[b].leaves[i].eventId, InRun(b, i));
      } else {
        assert PlacedAt(places, s.pending[i].eventId, Queued(i));
      }
    }
  }

  lemma {:induction false} DonePlaces(h: Hash, s: State, places: map<nat, Place>, b: nat)
    requires PlaceInv(s, places) && Enabled(s, MarkDone(b))
    ensures PlaceInv(Apply(h, s, MarkDone(b)), places)
  {
    var s' := Apply(h, s, MarkDone(b));
    var ids := Ids(s.runs[b].leaves);
    forall id | id in places
      ensures PlaceHolds(s', id, places[id])
    {
      assert PlaceHolds(s, id, places[id]);
    }
    forall c, i | 0 <= c < |s'.runs| && 0 <= i < |s'.runs[c].leaves|
      ensures PlacedAt(places, s'.runs[c].leaves[i].eventId, InRun(c, i))
      ensures s'.runs[c].phase.Done? ==> s'.runs[c].leaves[i].eventId in s'.trail.batched
    {
      assert PlacedAt(places, s.runs[c].leaves[i].eventId, InRun(c, i));
      if c == b {
        assert ids[i] in ids;
      }
    }
    forall id | id in s'.trail.batched
      ensures id in places && places[id].InRun? && s'.runs[places[id].batch].phase.Done?
    {
      if id !in s.trail.batched {
        var i :| 0 <= i < |ids| && ids[i] == id;
        assert PlacedAt(places, s.runs[b].leaves[i].eventId, InRun(b, i));
      }
    }
  }

  lemma {:induction false} PlaceInvKept(h: Hash, s: State, places: map<nat, Place>, a: Action)
    requires Enabled(s, a) && PlaceInv(s, places) && Agrees(s.trail)
    ensures PlaceInv(Apply(h, s, a), NextPlaces(s, places, a))
  {
    hide PlaceInv, Agrees, ByDecision, ComputeLeafHash, Sorted, SortedUnique, RowFor, Root, LeafOf, CommitBody;
    if a.AppendCommit? {
      if !Seen(s.trail, Some(a.commit.key)) {
        CommitPlaces(h, s, places, a.commit, a.at);
      }
    } else if a.Enqueue? {
      EventIdIsPosition(s, a.id);
      EnqueuePlaces(s, places, a.id, a.now);
    } else if a.Abandon? {
      AbandonPlaces(h, s, places, a.id);
    } else if a.Take? {
      TakePlaces(h, s, places, a.signature);
    } else if a.MarkDone? {
      DonePlaces(h, s, places, a.batch);
    } else {
      PlacesStay(s, Apply(h, s, a), places);
    }
  }

  lemma {:induction false} EventIdIsPosition(s: State, id: nat)
    requires Agrees(s.trail) && id < |s.trail.events|
    ensures s.trail.events[id].id == id
  {
  }

  // ---- Every run ----------------------------------------------------------------------------------

  lemma {:induction false} InitialInv(h: Hash)
    ensures Inv(h, INITIAL, map[])
  {
  }

  /** Every action keeps the invariant. */
  lemma {:induction false} StepKeepsInv(h: Hash, s: State, places: map<nat, Place>, a: Action)
    requires Enabled(s, a) && Inv(h, s, places)
    ensures Inv(h, Apply(h, s, a), NextPlaces(s, places, a))
    ensures Grows(s, Apply(h, s, a))
  {
    hide LogInv, QueueInv, RunsInv, RowsInv, PlaceInv, Enabled, Apply, NextPlaces, Grows;
    ApplyGrows(h, s, a);
    LogInvKept(h, s, a);
    QueueInvKept(h, s, a);
    RunsInvKept(h, s, a);
    RowsInvKept(h, s, a);
    assert Agrees(s.trail) by {
      LogAgrees(h, s);
    }
    PlaceInvKept(h, s, places, a);
  }

  lemma {:induction false} LogAgrees(h: Hash, s: State)
    requires LogInv(h, s)
    ensures Agrees(s.trail)
  {
  }

  lemma {:induction false} GrowsFurther(s: State, s': State, s'': State)
    requires Grows(s, s') && Grows(s', s'')
    ensures Grows(s, s'')
  {
    forall b | 0 <= b < |s.runs|
      ensures RunGrows(s.runs[b], s''.runs[b])
    {
      assert RunGrows(s.runs[b], s'.runs[b]) && RunGrows(s'.runs[b], s''.runs[b]);
    }
  }

  lemma {:induction false} GrowsAtAll(s: State)
    ensures Grows(s, s)
  {
  }

  /** Every run of the system keeps the invariant, and what was recorded stays recorded. */
  lemma {:induction false} RunKeepsInv(h: Hash, s: State, places: map<nat, Place>, actions: seq<Action>) returns (places': map<nat, Place>)
    requires Inv(h, s, places) && ValidRun(h, s, actions)
    ensures Inv(h, Exec(h, s, actions), places') && Grows(s, Exec(h, s, actions))
    decreases |actions|
  {
    hide Inv, Enabled, Apply, NextPlaces, Grows;
    if actions == [] {
      places' := places;
      GrowsAtAll(s);
    } else {
      var s' := Apply(h, s, actions[0]);
      StepKeepsInv(h, s, places, actions[0]);
      places' := RunKeepsInv(h, s', NextPlaces(s, places, actions[0]), actions[1..]);
      GrowsFurther(s, s', Exec(h, s', actions[1..]));
    }
  }
}
