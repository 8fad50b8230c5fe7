/** What holds in every state the commit and anchor protocol can reach, whatever the
    interleaving and wherever runs fail. */
module SystemTheorems {
  import opened Basics
  import opened Texts
  import opened Merkle
  import opened MerkleBatches
  import opened LeafHash
  import opened Events
  import opened AuditTrail
  import opened System
  import opened SystemInvariant

  lemma {:induction false} Reached(h: Hash, actions: seq<Action>) returns (places: map<nat, Place>)
    requires ValidRun(h, INITIAL, actions)
    ensures Inv(h, Exec(h, INITIAL, actions), places)
  {
    InitialInv(h);
    hide Inv, Enabled, Apply;
    places := RunKeepsInv(h, INITIAL, map[], actions);
  }

  // ---- Anchor safety -------------------------------------------------------------------

  /** The leaf has a row of its own whose path verifies, and its decision's stream holds the root. */
  ghost predicate HasProofAndRoot(h: Hash, s: State, p: PendingLeaf, batch: nat)
    requires batch < |s.runs| && s.runs[batch].leaves != []
  {
    && p.leafHash in s.rows
    && s.rows[p.leafHash].leafHash == p.leafHash
    && Verifies(h, p.leafHash, s.rows[p.leafHash].path, s.rows[p.leafHash].root)
    && exists e :: e in Stream(s.trail, p.decision) && e.body == RootBody(h, s.runs[batch], batch)
  }

  /** The finished run `batch` took the event as its leaf i. */
  ghost predicate AnchoredBy(h: Hash, s: State, id: nat, batch: nat, i: nat) {
    && batch < |s.runs| && i < |s.runs[batch].leaves| && s.runs[batch].phase.Done?
    && s.runs[batch].leaves[i].eventId == id
    && LeafLogged(s.trail.events, s.runs[batch].leaves[i])
    && HasProofAndRoot(h, s, s.runs[batch].leaves[i], batch)
  }

  /** Safety: every batched event has a verifying row, and its own decision's log holds the
      root of the batch that marked it. */
  lemma {:induction false} AnchorSafety(h: Hash, actions: seq<Action>, id: nat)
    requires ValidRun(h, INITIAL, actions) && id in Exec(h, INITIAL, actions).trail.batched
    ensures exists batch: nat, i: nat :: AnchoredBy(h, Exec(h, INITIAL, actions), id, batch, i)
  {
    var places := Reached(h, actions);
    hide Apply, Enabled, LogInv, RowsInv, Root, RowFor, RunOk;
    var s := Exec(h, INITIAL, actions);
    assert PlaceHolds(s, id, places[id]);
    var b, i := places[id].batch, places[id].i;
    assert RunOk(h, s, b);
    FinishedLeaf(h, s, b, i);
    assert AnchoredBy(h, s, id, b, i);
  }

  lemma {:induction false} FinishedLeaf(h: Hash, s: State, b: nat, i: nat)
    requires LogInv(h, s) && RowsInv(h, s) && b < |s.runs| && RunOk(h, s, b)
    requires s.runs[b].phase.Done? && i < |s.runs[b].leaves|
    ensures LeafLogged(s.trail.events, s.runs[b].leaves[i]) && HasProofAndRoot(h, s, s.runs[b].leaves[i], b)
  {
    var r := s.runs[b];
    var p := r.leaves[i];
    DecisionsExist(r);
    hide SortedUnique, EventOk, Root, Fold, ProofFor, ByDecision;
    var d :| 0 <= d < |Decisions(r)| && Decisions(r)[d] == p.decision;
    assert IsPublished(s.trail.events, Decisions(r)[d], RootBody(h, r, b));
    var j :| 0 <= j < |s.trail.events| && s.trail.events[j].decision == p.decision && s.trail.events[j].body == RootBody(h, r, b);
    InByDecision(s.trail.events, p.decision, s.trail.events[j]);
    assert Stream(s.trail, p.decision) == ByDecision(s.trail.events, p.decision);
    RowVerifies(h, s, p.leafHash);
  }

  lemma {:induction false} RowVerifies(h: Hash, s: State, k: Digest)
    requires RowsInv(h, s) && k in s.rows
    ensures s.rows[k].leafHash == k && Verifies(h, k, s.rows[k].path, s.rows[k].root)
  {
    hide Root, Fold, ProofFor, RunOk;
    var b: nat, i: nat :| RowFrom(h, s, s.rows[k], b, i);
    ProofsVerify(h, LeafHashes(s.runs[b].leaves), i);
  }

  // ---- What rows and root events hold -------------------------------------------------------

  /** Every stored row is that of a leaf its run took: its path is the proof issued for that leaf, its
      root that of the run's leaves, its signature and time those the run was given. */
  lemma {:induction false} RowFields(h: Hash, actions: seq<Action>, k: Digest)
    requires ValidRun(h, INITIAL, actions) && k in Exec(h, INITIAL, actions).rows
    ensures var s := Exec(h, INITIAL, actions);
            var row := s.rows[k];
            && row.batch < |s.runs|
            && var r := s.runs[row.batch];
            && r.leaves != [] && row.leafHash == k && row.root == Root(h, LeafHashes(r.leaves))
            && row.signature == r.signature && row.stamp == r.stamp && !r.phase.Stamping?
            && exists i :: 0 <= i < |r.leaves| && r.leaves[i].leafHash == k && row.path == ProofFor(h, LeafHashes(r.leaves), i)
  {
    var places := Reached(h, actions);
    hide Apply, Enabled, LogInv, RunsInv, QueueInv, PlaceInv, Root, ProofFor;
    var s := Exec(h, INITIAL, actions);
    var b: nat, i: nat :| RowFrom(h, s, s.rows[k], b, i);
  }

  /** Every published root is that of its run's leaves, with their number and the run's signature and
      time, and goes to "system" or to a decision with a leaf in the run. */
  lemma {:induction false} PublishedFields(h: Hash, actions: seq<Action>, e: Event)
    requires ValidRun(h, INITIAL, actions) && e in Exec(h, INITIAL, actions).trail.events
    requires e.body.MerkleRootPublished?
    ensures var s := Exec(h, INITIAL, actions);
            && e.body.batch < |s.runs|
            && var r := s.runs[e.body.batch];
            && r.leaves != [] && e.body.root == Root(h, LeafHashes(r.leaves)) && e.body.leafCount == |r.leaves|
            && e.body.signature == r.signature && e.body.stamp == r.stamp && !r.phase.Stamping?
            && (e.decision == SYSTEM || exists i :: 0 <= i < |r.leaves| && r.leaves[i].decision == e.decision)
  {
    var places := Reached(h, actions);
    hide Apply, Enabled, RunsInv, RowsInv, QueueInv, PlaceInv, Root, Agrees, SortedUnique;
    var s := Exec(h, INITIAL, actions);
    assert EventOk(h, s, e);
    var r := s.runs[e.body.batch];
    if e.decision != SYSTEM {
      SortedUniqueIsSorted(DecisionsOf(r.leaves));
      assert e.decision in DecisionsOf(r.leaves);
      var i :| 0 <= i < |r.leaves| && DecisionsOf(r.leaves)[i] == e.decision;
    }
  }

  // ---- Conservation ------------------------------------------------------------------------

  ghost function CommittedIds(s: State): set<nat> {
    set id | 0 <= id < |s.trail.events| && s.trail.events[id].body.MetricCommitted?
  }

  ghost function QueuedIds(s: State): set<nat> {
    set i | 0 <= i < |s.pending| :: s.pending[i].eventId
  }

  ghost function BatchIds(s: State, batch: nat): set<nat>
    requires batch < |s.runs|
  {
    set i | 0 <= i < |s.runs[batch].leaves| :: s.runs[batch].leaves[i].eventId
  }

  /** Taken by a run that has not finished, or failed. */
  ghost function TakenIds(s: State): set<nat> {
    set b, i | 0 <= b < |s.runs| && 0 <= i < |s.runs[b].leaves| && !s.runs[b].phase.Done? :: s.runs[b].leaves[i].eventId
  }

  ghost predicate Splits(s: State) {
    && CommittedIds(s) == (s.unqueued + s.abandoned) + QueuedIds(s) + TakenIds(s) + s.trail.batched
    && s.unqueued !! s.abandoned !! QueuedIds(s) !! TakenIds(s) !! s.trail.batched
  }

  ghost predicate Conserved(s: State) {
    && Splits(s)
    && |QueuedIds(s)| == |s.pending|
    && (forall b, c :: 0 <= b < c < |s.runs| ==> BatchIds(s, b) !! BatchIds(s, c))
    && (forall b :: 0 <= b < |s.runs| ==> |BatchIds(s, b)| == |s.runs[b].leaves|)
  }

  lemma {:induction false} DistinctCount(leaves: seq<PendingLeaf>, ids: set<nat>)
    requires ids == set i | 0 <= i < |leaves| :: leaves[i].eventId
    requires forall i, j :: 0 <= i < j < |leaves| ==> leaves[i].eventId != leaves[j].eventId
    ensures |ids| == |leaves|
    decreases |leaves|
  {
    if leaves != [] {
      var init := leaves[..|leaves| - 1];
      var rest := set i | 0 <= i < |init| :: init[i].eventId;
      DistinctCount(init, rest);
      var last := leaves[|leaves| - 1].eventId;
      assert ids == rest + {last} by {
        assert forall i :: 0 <= i < |init| ==> init[i] == leaves[i];
      }
    }
  }

  lemma {:induction false} QueueIsDistinct(s: State, places: map<nat, Place>)
    requires PlaceInv(s, places)
    ensures |QueuedIds(s)| == |s.pending|
  {
    forall i, j | 0 <= i < j < |s.pending|
      ensures s.pending[i].eventId != s.pending[j].eventId
    {
      assert PlacedAt(places, s.pending[i].eventId, Queued(i)) && PlacedAt(places, s.pending[j].eventId, Queued(j));
    }
    DistinctCount(s.pending, QueuedIds(s));
  }

  lemma {:induction false} BatchIsDistinct(s: State, places: map<nat, Place>, b: nat)
    requires PlaceInv(s, places) && b < |s.runs|
    ensures |BatchIds(s, b)| == |s.runs[b].leaves|
    ensures forall c :: b < c < |s.runs| ==> BatchIds(s, b) !! BatchIds(s, c)
  {
    var leaves := s.runs[b].leaves;
    forall i, j | 0 <= i < j < |leaves|
      ensures leaves[i].eventId != leaves[j].eventId
    {
      assert PlacedAt(places, leaves[i].eventId, InRun(b, i)) && PlacedAt(places, leaves[j].eventId, InRun(b, j));
    }
    DistinctCount(leaves, BatchIds(s, b));
    forall c, id | b < c < |s.runs| && id in BatchIds(s, b)
      ensures id !in BatchIds(s, c)
    {
      assert PlaceHolds(s, id, places[id]);
      var i :| 0 <= i < |leaves| && leaves[i].eventId == id;
      assert PlacedAt(places, id, InRun(b, i));
    }
  }

  ghost predicate PlacedInRun(s: State, places: map<nat, Place>, id: nat, done: bool) {
    && id in places && places[id].InRun? && places[id].batch < |s.runs|
    && (s.runs[places[id].batch].phase.Done? <==> done)
  }

  /** Which group an event is in, read off its place. */
  lemma {:induction false} GroupOfPlace(s: State, places: map<nat, Place>, id: nat)
    requires PlaceInv(s, places)
    ensures id in CommittedIds(s) <==> id in places
    ensures id in s.unqueued <==> PlacedAt(places, id, Unqueued)
    ensures id in s.abandoned <==> PlacedAt(places, id, Abandoned)
    ensures id in QueuedIds(s) <==> id in places && places[id].Queued?
    ensures id in TakenIds(s) <==> PlacedInRun(s, places, id, false)
    ensures id in s.trail.batched <==> PlacedInRun(s, places, id, true)
    ensures id in places && places[id].InRun? ==> PlacedInRun(s, places, id, false) || PlacedInRun(s, places, id, true)
  {
    if id in places {
      assert PlaceHolds(s, id, places[id]);
    }
    if id in QueuedIds(s) {
      var i :| 0 <= i < |s.pending| && s.pending[i].eventId == id;
      assert PlacedAt(places, s.pending[i].eventId, Queued(i));
    }
    if id in TakenIds(s) {
      var b, i :| 0 <= b < |s.runs| && 0 <= i < |s.runs[b].leaves| && !s.runs[b].phase.Done? && s.runs[b].leaves[i].eventId == id;
      assert PlacedAt(places, s.runs[b].leaves[i].eventId, InRun(b, i));
    }
  }

  lemma {:induction false} SplitByPlace(s: State, places: map<nat, Place>)
    requires PlaceInv(s, places)
    ensures Splits(s)
  {
    hide PlaceInv, CommittedIds, QueuedIds, TakenIds;
    forall id: nat
      ensures id in CommittedIds(s) <==> id in places
      ensures id in s.unqueued <==> PlacedAt(places, id, Unqueued)
      ensures id in s.abandoned <==> PlacedAt(places, id, Abandoned)
      ensures id in QueuedIds(s) <==> id in places && places[id].Queued?
      ensures id in TakenIds(s) <==> PlacedInRun(s, places, id, false)
      ensures id in s.trail.batched <==> PlacedInRun(s, places, id, true)
      ensures id in places && places[id].InRun? ==> PlacedInRun(s, places, id, false) || PlacedInRun(s, places, id, true)
    {
      GroupOfPlace(s, places, id);
    }
    assert CommittedIds(s) == (s.unqueued + s.abandoned) + QueuedIds(s) + TakenIds(s) + s.trail.batched;
  }

  /** Conservation: in every reachable state the committed events split disjointly into appended
      but not queued, pending, taken by an unfinished or failed run, and batched; no event enters
      two batches or one batch twice. */
  lemma {:induction false} LeavesAreConserved(h: Hash, actions: seq<Action>)
    requires ValidRun(h, INITIAL, actions)
    ensures Conserved(Exec(h, INITIAL, actions))
  {
    var places := Reached(h, actions);
    hide Apply, Enabled, PlaceInv, Splits, QueuedIds, BatchIds, LogInv, RunsInv, RowsInv, QueueInv;
    var s := Exec(h, INITIAL, actions);
    QueueIsDistinct(s, places);
    forall b | 0 <= b < |s.runs|
      ensures |BatchIds(s, b)| == |s.runs[b].leaves|
      ensures forall c :: b < c < |s.runs| ==> BatchIds(s, b) !! BatchIds(s, c)
    {
      BatchIsDistinct(s, places, b);
    }
    SplitByPlace(s, places);
  }

  /** Reading the unbatched events without a limit returns exactly the other groups. */
  lemma {:induction false} UnbatchedAreTheRest(h: Hash, actions: seq<Action>, e: Event)
    requires ValidRun(h, INITIAL, actions)
    ensures var s := Exec(h, INITIAL, actions);
            e in Unbatched(s.trail.events, s.trail.batched) <==>
              && e in s.trail.events
              && e.id in (s.unqueued + s.abandoned) + QueuedIds(s) + TakenIds(s)
  {
    var places := Reached(h, actions);
    LeavesAreConserved(h, actions);
    hide Apply, Enabled, QueuedIds, TakenIds, BatchIds, EventOk, RunsInv, RowsInv, PlaceInv, QueueInv, CommittedIds;
    var s := Exec(h, INITIAL, actions);
    InUnbatched(s.trail.events, s.trail.batched, e);
    if e in s.trail.events {
      RestOfSplit(s, e);
    }
  }

  lemma {:induction false} RestOfSplit(s: State, e: Event)
    requires Splits(s) && Agrees(s.trail) && e in s.trail.events
    ensures e.body.MetricCommitted? && e.id !in s.trail.batched <==>
              e.id in (s.unqueued + s.abandoned) + QueuedIds(s) + TakenIds(s)
  {
    hide QueuedIds, TakenIds, ByDecision;
    var j :| 0 <= j < |s.trail.events| && s.trail.events[j] == e;
    assert e.id == j;
    assert j in CommittedIds(s) <==> e.body.MetricCommitted?;
  }

  // ---- Rows stay ---------------------------------------------------------------------------------

  ghost predicate IsCommit(events: seq<Event>, id: nat) {
    id < |events| && events[id].body.MetricCommitted?
  }

  function PayloadAt(events: seq<Event>, id: nat): Text
    requires id < |events| && events[id].body.MetricCommitted?
  {
    Payload(FieldsOf(events[id]))
  }

  /** The only two ways for different logged commits to share a leaf: their payloads collide, or they
      are one payload, and then one of the keys holds the separator '|'. */
  ghost predicate ShareLeaf(h: Hash, events: seq<Event>, i: nat, j: nat) {
    && IsCommit(events, i) && IsCommit(events, j) && i != j
    && (Collides(h, PayloadAt(events, i), PayloadAt(events, j))
        || (PayloadAt(events, i) == PayloadAt(events, j)
            && (PIPE in events[i].body.key || PIPE in events[j].body.key)))
  }

  /** Two logged leaves with one hash are one event, or share the leaf in one of those two ways. */
  lemma {:induction false} EqualLeavesAreOneEvent(h: Hash, s: State, p: PendingLeaf, q: PendingLeaf)
    requires LogInv(h, s)
    requires LeafLogged(s.trail.events, p) && LeafLogged(s.trail.events, q) && p.leafHash == q.leafHash
    ensures p.eventId == q.eventId || ShareLeaf(h, s.trail.events, p.eventId, q.eventId)
  {
    hide Payload;
    var e, f := s.trail.events[p.eventId], s.trail.events[q.eventId];
    assert EventOk(h, s, e) && EventOk(h, s, f);
    if p.eventId != q.eventId && Payload(FieldsOf(e)) == Payload(FieldsOf(f)) {
      assert e.body.key != f.body.key;
      if PIPE !in e.body.key && PIPE !in f.body.key {
        PayloadDeterminesKey(FieldsOf(e), FieldsOf(f));
      }
    }
  }

  /** Conversely commits that share a leaf are different events with one leaf hash. */
  lemma {:induction false} SharedLeafIsOneHash(h: Hash, s: State, i: nat, j: nat)
    requires LogInv(h, s) && ShareLeaf(h, s.trail.events, i, j)
    ensures i != j && s.trail.events[i].body.leafHash == s.trail.events[j].body.leafHash
  {
    hide Payload;
    assert EventOk(h, s, s.trail.events[i]) && EventOk(h, s, s.trail.events[j]);
  }

  /** The row of the event has been written by the run that took it. */
  ghost predicate RowWritten(s: State, id: nat) {
    exists b: nat, i: nat :: b < |s.runs| && i < |s.runs[b].leaves| && i < Written(s.runs[b]) && s.runs[b].leaves[i].eventId == id
  }

  /** The leaf of the row that run b writes next. */
  function NextLeaf(s: State, b: nat): PendingLeaf
    requires Enabled(s, WriteRow(b))
  {
    s.runs[b].leaves[s.runs[b].phase.next]
  }

  /** Exactly when writing a row overwrites one: when the leaf is shared with another commit whose row
      has been written. */
  lemma {:induction false} OverwritesIffSharedLeaf(h: Hash, actions: seq<Action>, b: nat)
    requires ValidRun(h, INITIAL, actions) && Enabled(Exec(h, INITIAL, actions), WriteRow(b))
    ensures var s := Exec(h, INITIAL, actions);
            var p := NextLeaf(s, b);
            p.leafHash in s.rows <==> exists id :: ShareLeaf(h, s.trail.events, p.eventId, id) && RowWritten(s, id)
  {
    hide Enabled, Apply, Inv;
    var places := Reached(h, actions);
    var s := Exec(h, INITIAL, actions);
    if NextLeaf(s, b).leafHash in s.rows {
      var id := WriterOfRow(h, s, places, b);
    }
    if id :| ShareLeaf(h, s.trail.events, NextLeaf(s, b).eventId, id) && RowWritten(s, id) {
      SharedRowIsThere(h, s, places, b, id);
    }
  }

  lemma {:induction false} WriterOfRow(h: Hash, s: State, places: map<nat, Place>, b: nat) returns (id: nat)
    requires Inv(h, s, places) && Enabled(s, WriteRow(b)) && NextLeaf(s, b).leafHash in s.rows
    ensures ShareLeaf(h, s.trail.events, NextLeaf(s, b).eventId, id) && RowWritten(s, id)
  {
    hide LogInv, QueueInv, ShareLeaf, LeafLogged, RowFor;
    var p := NextLeaf(s, b);
    assert RunOk(h, s, b);
    var c: nat, j: nat :| RowFrom(h, s, s.rows[p.leafHash], c, j);
    assert RunOk(h, s, c);
    var q := s.runs[c].leaves[j];
    id := q.eventId;
    assert PlacedAt(places, p.eventId, InRun(b, s.runs[b].phase.next)) && PlacedAt(places, q.eventId, InRun(c, j));
    RowForLeaf(h, s.runs[c], c, j);
    EqualLeavesAreOneEvent(h, s, p, q);
  }

  lemma {:induction false} RowForLeaf(h: Hash, r: Run, batch: nat, i: nat)
    requires i < |r.leaves|
    ensures RowFor(h, r, batch, i).leafHash == r.leaves[i].leafHash
  {
  }

  lemma {:induction false} SharedRowIsThere(h: Hash, s: State, places: map<nat, Place>, b: nat, id: nat)
    requires Inv(h, s, places) && Enabled(s, WriteRow(b))
    requires ShareLeaf(h, s.trail.events, NextLeaf(s, b).eventId, id) && RowWritten(s, id)
    ensures NextLeaf(s, b).leafHash in s.rows
  {
    assert RunOk(h, s, b);
    SharedLeafIsOneHash(h, s, NextLeaf(s, b).eventId, id);
    hide ShareLeaf, LogInv, QueueInv;
    var c: nat, i: nat :| c < |s.runs| && i < |s.runs[c].leaves| && i < Written(s.runs[c]) && s.runs[c].leaves[i].eventId == id;
    assert RunOk(h, s, c);
  }

  /** The row under k is as it was, or two commits share the leaf k. */
  ghost predicate RowKept(h: Hash, s: State, s': State, k: Digest)
    requires k in s.rows
  {
    || (k in s'.rows && s'.rows[k] == s.rows[k])
    || exists i: nat, j: nat :: SharedAt(h, s'.trail.events, i, j, k)
  }

  ghost predicate SharedAt(h: Hash, events: seq<Event>, i: nat, j: nat, k: Digest) {
    ShareLeaf(h, events, i, j) && h(PayloadAt(events, i)) == k
  }

  lemma {:induction false} StepKeepsRow(h: Hash, s: State, places: map<nat, Place>, a: Action, k: Digest)
    requires Inv(h, s, places) && Enabled(s, a) && k in s.rows
    ensures RowKept(h, s, Apply(h, s, a), k)
  {
    hide Inv, Apply, Enabled, ShareLeaf, Payload;
    var s' := Apply(h, s, a);
    StepKeepsInv(h, s, places, a);
    RowsChange(h, s, a, k);
    if s'.rows[k] != s.rows[k] {
      var p := NextLeaf(s, a.batch);
      var id := WriterOfRow(h, s, places, a.batch);
      SharedHash(h, s, places, a.batch);
      SharedStays(h, s.trail.events, s'.trail.events, p.eventId, id, k);
    }
  }

  lemma {:induction false} SharedHash(h: Hash, s: State, places: map<nat, Place>, b: nat)
    requires Inv(h, s, places) && Enabled(s, WriteRow(b))
    ensures var p := NextLeaf(s, b);
            IsCommit(s.trail.events, p.eventId) && h(PayloadAt(s.trail.events, p.eventId)) == p.leafHash
  {
    hide Payload, RowsInv, QueueInv, PlaceInv;
    assert RunOk(h, s, b);
    assert EventOk(h, s, s.trail.events[NextLeaf(s, b).eventId]);
  }

  lemma {:induction false} SharedStays(h: Hash, events: seq<Event>, events': seq<Event>, i: nat, j: nat, k: Digest)
    requires SharedAt(h, events, i, j, k) && events <= events'
    ensures SharedAt(h, events', i, j, k)
  {
    assert events'[i] == events[i] && events'[j] == events[j];
  }

  lemma {:induction false} RunKeepsRow(h: Hash, s: State, places: map<nat, Place>, actions: seq<Action>, k: Digest)
    requires Inv(h, s, places) && ValidRun(h, s, actions) && k in s.rows
    ensures RowKept(h, s, Exec(h, s, actions), k)
    decreases |actions|
  {
    hide Inv, Enabled, Apply, NextPlaces, SharedAt;
    if actions != [] {
      var s' := Apply(h, s, actions[0]);
      StepKeepsInv(h, s, places, actions[0]);
      var places' := RunKeepsInv(h, s', NextPlaces(s, places, actions[0]), actions[1..]);
      StepKeepsRow(h, s, places, actions[0], k);
      RunKeepsRow(h, s', NextPlaces(s, places, actions[0]), actions[1..], k);
      var s'' := Exec(h, s', actions[1..]);
      if i: nat, j: nat :| SharedAt(h, s'.trail.events, i, j, k) {
        SharedStays(h, s'.trail.events, s''.trail.events, i, j, k);
      }
    }
  }

  /** Stable rows: whatever happens later, a stored proof row never changes, unless two different
      commits of the log share its leaf. */
  lemma {:induction false} RowsAreStable(h: Hash, earlier: seq<Action>, later: seq<Action>, k: Digest)
    requires ValidRun(h, INITIAL, earlier) && ValidRun(h, Exec(h, INITIAL, earlier), later)
    requires k in Exec(h, INITIAL, earlier).rows
    ensures RowKept(h, Exec(h, INITIAL, earlier), Exec(h, Exec(h, INITIAL, earlier), later), k)
  {
    hide Inv, Enabled, Apply, RowKept;
    var places := Reached(h, earlier);
    RunKeepsRow(h, Exec(h, INITIAL, earlier), places, later, k);
  }

  /** And the row of a batched event is the one its own batch wrote, unless another commit of the log
      shares its leaf. */
  lemma {:induction false} RowIsOwnBatchs(h: Hash, actions: seq<Action>, batch: nat, i: nat)
    requires ValidRun(h, INITIAL, actions)
    requires var s := Exec(h, INITIAL, actions);
             batch < |s.runs| && s.runs[batch].phase.Done? && i < |s.runs[batch].leaves|
    ensures var s := Exec(h, INITIAL, actions);
            var p := s.runs[batch].leaves[i];
            || (p.leafHash in s.rows && s.rows[p.leafHash] == RowFor(h, s.runs[batch], batch, i))
            || exists id :: ShareLeaf(h, s.trail.events, p.eventId, id)
  {
    var places := Reached(h, actions);
    hide Apply, Enabled, Root, ProofFor, ShareLeaf;
    var s := Exec(h, INITIAL, actions);
    var p := s.runs[batch].leaves[i];
    assert RunOk(h, s, batch);
    var c: nat, j: nat :| RowFrom(h, s, s.rows[p.leafHash], c, j);
    assert RunOk(h, s, c);
    var q := s.runs[c].leaves[j];
    assert PlacedAt(places, p.eventId, InRun(batch, i)) && PlacedAt(places, q.eventId, InRun(c, j));
    EqualLeavesAreOneEvent(h, s, p, q);
  }

  // ---- Tamper evidence -------------------------------------------------------------------------------

  /** The leaf of a run that a proof's pattern picks. */
  function PickedLeaf(r: Run, proof: seq<ProofStep>): PendingLeaf
    requires r.leaves != []
  {
    r.leaves[Picked(|r.leaves|, proof)]
  }

  /** Offline verification end to end: a payload whose hash verifies, by any proof of the depth that
      the published leaf count gives, against a root published in the log, is the payload of the
      logged commit that the proof's pattern picks in that batch; otherwise a collision is computed,
      from the proof and the tree or from that commit's payload and the given one. */
  lemma {:induction false} OnlyLoggedPayloadsVerify(h: Hash, actions: seq<Action>, e: Event, payload: Text, proof: seq<ProofStep>)
    requires ValidRun(h, INITIAL, actions) && e in Exec(h, INITIAL, actions).trail.events
    requires e.body.MerkleRootPublished? && |proof| == Depth(e.body.leafCount)
    requires Verifies(h, h(payload), proof, e.body.root)
    ensures var s := Exec(h, INITIAL, actions);
            && e.body.batch < |s.runs| && s.runs[e.body.batch].leaves != []
            && var r := s.runs[e.body.batch];
            var id := PickedLeaf(r, proof).eventId;
            && IsCommit(s.trail.events, id)
            && (|| PayloadAt(s.trail.events, id) == payload
                || Collides(h, PayloadAt(s.trail.events, id), payload)
                || var c := ForgeryCollision(h, LeafHashes(r.leaves), h(payload), proof); Collides(h, c.0, c.1))
  {
    var places := Reached(h, actions);
    hide Apply, Enabled, PlaceInv, RowsInv, QueueInv, Payload, Root, Fold, Depth;
    var s := Exec(h, INITIAL, actions);
    assert EventOk(h, s, e);
    var r := s.runs[e.body.batch];
    var leaves := LeafHashes(r.leaves);
    assert RunOk(h, s, e.body.batch);
    Soundness(h, leaves, h(payload), proof);
    LeafHasPayload(h, s, PickedLeaf(r, proof));
  }

  lemma {:induction false} LeafHasPayload(h: Hash, s: State, p: PendingLeaf)
    requires LogInv(h, s) && LeafLogged(s.trail.events, p)
    ensures IsCommit(s.trail.events, p.eventId) && h(PayloadAt(s.trail.events, p.eventId)) == p.leafHash
  {
    hide Payload;
    assert EventOk(h, s, s.trail.events[p.eventId]);
  }

  // ---- Keys, redelivery and the log -----------------------------------------------------------------------

  /** At most one committed or superseding event exists for an idempotency key. */
  lemma {:induction false} OneEventPerKey(h: Hash, actions: seq<Action>, i: nat, j: nat)
    requires ValidRun(h, INITIAL, actions)
    requires var events := Exec(h, INITIAL, actions).trail.events;
             i < |events| && j < |events| && KeyOf(events[i].body).Some? && KeyOf(events[i].body) == KeyOf(events[j].body)
    ensures i == j
  {
    var places := Reached(h, actions);
    hide Apply, Enabled, ComputeLeafHash, ByDecision;
    var s := Exec(h, INITIAL, actions);
    assert EventOk(h, s, s.trail.events[i]) && EventOk(h, s, s.trail.events[j]);
  }

  /** Redelivering a commit whose key was appended earlier changes nothing, at any later time. */
  lemma {:induction false} RedeliveryChangesNothing(h: Hash, earlier: seq<Action>, c: Commit, at: Text, later: seq<Action>, again: Commit, at': Text)
    requires ValidRun(h, INITIAL, earlier) && c.refs != [] && again.key == c.key
    requires ValidRun(h, AppendCommitStep(h, Exec(h, INITIAL, earlier), c, at), later)
    ensures var s := Exec(h, AppendCommitStep(h, Exec(h, INITIAL, earlier), c, at), later);
            AppendCommitStep(h, s, again, at') == s
  {
    var places := Reached(h, earlier);
    var s0 := Exec(h, INITIAL, earlier);
    var s1 := AppendCommitStep(h, s0, c, at);
    StepKeepsInv(h, s0, places, AppendCommit(c, at));
    assert c.key in s1.trail.index;
    hide Apply, Enabled, Inv, ComputeLeafHash, Sorted;
    var places1 := RunKeepsInv(h, s1, NextPlaces(s0, places, AppendCommit(c, at)), later);
    KeyStays(s1, Exec(h, s1, later), c.key);
  }

  lemma {:induction false} KeyStays(s: State, s': State, key: Text)
    requires Grows(s, s') && key in s.trail.index
    ensures key in s'.trail.index
  {
  }

  /** Every earlier log is a prefix of every later one, and no event is ever unmarked. */
  lemma {:induction false} LogOnlyGrows(h: Hash, earlier: seq<Action>, later: seq<Action>)
    requires ValidRun(h, INITIAL, earlier) && ValidRun(h, Exec(h, INITIAL, earlier), later)
    ensures var s := Exec(h, INITIAL, earlier);
            var s' := Exec(h, s, later);
            s.trail.events <= s'.trail.events && s.trail.batched <= s'.trail.batched && s.rows.Keys <= s'.rows.Keys
  {
    hide Inv, Enabled, Apply;
    var places := Reached(h, earlier);
    var places' := RunKeepsInv(h, Exec(h, INITIAL, earlier), places, later);
  }

  /** Recomputing the hash of a logged commit, from its stored fields or from the rebuilt record,
      gives the recorded leaf hash. */
  lemma {:induction false} LoggedLeafHashesReproduce(h: Hash, actions: seq<Action>, e: Event)
    requires ValidRun(h, INITIAL, actions) && e in Exec(h, INITIAL, actions).trail.events
    requires e.body.MetricCommitted?
    ensures ComputeLeafHash(h, FieldsOf(e)) == e.body.leafHash
    ensures ComputeLeafHash(h, FieldsOf(e).(refs := SortedUnique(e.body.refs))) == e.body.leafHash
  {
    var places := Reached(h, actions);
    hide Apply, Enabled, ComputeLeafHash;
    assert EventOk(h, Exec(h, INITIAL, actions), e);
    LeafHashIsReproducible(h, FieldsOf(e));
  }

  // ---- Failed runs and finishing runs -----------------------------------------------------------------------

  lemma {:induction false} FailedRunStays(h: Hash, s: State, actions: seq<Action>, b: nat)
    requires ValidRun(h, s, actions) && b < |s.runs| && s.runs[b].failed
    ensures b < |Exec(h, s, actions).runs| && Exec(h, s, actions).runs[b] == s.runs[b]
    decreases |actions|
  {
    hide RootBody, RowFor, Sorted, ComputeLeafHash;
    if actions != [] {
      var s' := Apply(h, s, actions[0]);
      assert b < |s'.runs| && s'.runs[b] == s.runs[b];
      hide Apply, Enabled;
      FailedRunStays(h, s', actions[1..], b);
    }
  }

  /** The leaves of a failed run are never batched and never queued again. */
  lemma {:induction false} FailedRunLosesItsLeaves(h: Hash, earlier: seq<Action>, later: seq<Action>, b: nat, i: nat)
    requires ValidRun(h, INITIAL, earlier) && ValidRun(h, Exec(h, INITIAL, earlier), later)
    requires var s := Exec(h, INITIAL, earlier);
             b < |s.runs| && s.runs[b].failed && i < |s.runs[b].leaves|
    ensures var id := Exec(h, INITIAL, earlier).runs[b].leaves[i].eventId;
            var s' := Exec(h, Exec(h, INITIAL, earlier), later);
            id !in s'.trail.batched && id !in QueuedIds(s') && id in TakenIds(s')
  {
    hide Apply, Enabled, Inv;
    var s := Exec(h, INITIAL, earlier);
    var places0 := Reached(h, earlier);
    var places := RunKeepsInv(h, s, places0, later);
    var s' := Exec(h, s, later);
    FailedRunStays(h, s, later, b);
    FailedIsTaken(h, s', places, b, i);
  }

  lemma {:induction false} FailedIsTaken(h: Hash, s: State, places: map<nat, Place>, b: nat, i: nat)
    requires Inv(h, s, places) && b < |s.runs| && s.runs[b].failed && i < |s.runs[b].leaves|
    ensures var id := s.runs[b].leaves[i].eventId;
            id !in s.trail.batched && id !in QueuedIds(s) && id in TakenIds(s)
  {
    hide LogInv, RowsInv, QueueInv, QueuedIds, TakenIds;
    assert RunOk(h, s, b);
    assert PlacedAt(places, s.runs[b].leaves[i].eventId, InRun(b, i));
    GroupOfPlace(s, places, s.runs[b].leaves[i].eventId);
  }

  function NextAction(s: State, b: nat): Action
    requires b < |s.runs|
  {
    match s.runs[b].phase
    case Stamping => ReceiveStamp(b, [])
    case Writing(_) => WriteRow(b)
    case PublishingSystem => PublishSystem(b)
    case Publishing(_) => PublishDecision(b)
    case _ => MarkDone(b)
  }

  function StepsLeft(r: Run): nat {
    match r.phase
    case Stamping => 3 + |r.leaves| + |Decisions(r)|
    case Writing(next) => 2 + |Decisions(r)| + Max0(|r.leaves| - next)
    case PublishingSystem => 2 + |Decisions(r)|
    case Publishing(next) => 1 + Max0(|Decisions(r)| - next)
    case Marking => 1
    case Done => 0
  }

  function Max0(n: int): nat {
    if n > 0 then n else 0
  }

  lemma {:induction false} NextActionEnabled(h: Hash, s: State, b: nat)
    requires b < |s.runs| && RunOk(h, s, b) && !s.runs[b].failed && !s.runs[b].phase.Done?
    ensures Enabled(s, NextAction(s, b))
  {
    DecisionsExist(s.runs[b]);
    hide SortedUnique, LeafLogged, IsPublished, RootBody;
  }

  lemma {:induction false} NextActionAdvances(h: Hash, s: State, b: nat)
    requires b < |s.runs| && RunOk(h, s, b) && !s.runs[b].failed && !s.runs[b].phase.Done?
    ensures Enabled(s, NextAction(s, b))
    ensures var s' := Apply(h, s, NextAction(s, b));
            b < |s'.runs| && !s'.runs[b].failed && s'.runs[b].leaves == s.runs[b].leaves
            && StepsLeft(s'.runs[b]) < StepsLeft(s.runs[b])
  {
    NextActionEnabled(h, s, b);
    DecisionsExist(s.runs[b]);
    ApplyRunGrows(h, s, NextAction(s, b), b);
    hide RunOk, SortedUnique, Append, MarkBatched, RowFor, RootBody;
    assert Decisions(Apply(h, s, NextAction(s, b)).runs[b]) == Decisions(s.runs[b]);
    hide Decisions;
  }

  /** From every reachable state a run that has not failed can finish, so nothing but failure keeps
      its leaves from being batched. */
  lemma {:induction false} LiveRunCanFinish(h: Hash, s: State, places: map<nat, Place>, b: nat) returns (actions: seq<Action>)
    requires Inv(h, s, places) && b < |s.runs| && !s.runs[b].failed
    ensures ValidRun(h, s, actions)
    ensures var s' := Exec(h, s, actions);
            && b < |s'.runs| && s'.runs[b].phase.Done? && s'.runs[b].leaves == s.runs[b].leaves
            && BatchIds(s', b) <= s'.trail.batched
    decreases StepsLeft(s.runs[b])
  {
    if s.runs[b].phase.Done? {
      actions := [];
      FinishedIsBatched(h, s, places, b);
    } else {
      var a := NextAction(s, b);
      assert RunOk(h, s, b);
      NextActionAdvances(h, s, b);
      hide Apply, Enabled, Inv, NextAction, StepsLeft, BatchIds;
      StepKeepsInv(h, s, places, a);
      var rest := LiveRunCanFinish(h, Apply(h, s, a), NextPlaces(s, places, a), b);
      actions := [a] + rest;
      assert actions[1..] == rest;
    }
  }

  lemma {:induction false} FinishedIsBatched(h: Hash, s: State, places: map<nat, Place>, b: nat)
    requires Inv(h, s, places) && b < |s.runs| && s.runs[b].phase.Done?
    ensures BatchIds(s, b) <= s.trail.batched
  {
  }

  // ---- Exactly which commits can still be batched -----------------------------------------------------------

  ghost predicate InFailedRun(s: State, id: nat) {
    exists b, i :: 0 <= b < |s.runs| && 0 <= i < |s.runs[b].leaves| && s.runs[b].failed && s.runs[b].leaves[i].eventId == id
  }

  /** Lost: the handler died after its append, or the run that took the leaf failed. */
  ghost predicate IsLost(s: State, id: nat) {
    id in s.abandoned || InFailedRun(s, id)
  }

  ghost predicate CanBeBatched(h: Hash, s: State, id: nat) {
    exists actions :: ValidRun(h, s, actions) && id in Exec(h, s, actions).trail.batched
  }

  lemma {:induction false} AbandonedStays(h: Hash, s: State, actions: seq<Action>, id: nat)
    requires ValidRun(h, s, actions) && id in s.abandoned
    ensures id in Exec(h, s, actions).abandoned
    decreases |actions|
  {
    hide RootBody, RowFor, Sorted, ComputeLeafHash, Append, MarkBatched;
    if actions != [] {
      AbandonedStays(h, Apply(h, s, actions[0]), actions[1..], id);
    }
  }

  /** A lost commit is never batched and never queued, whatever happens later. */
  lemma {:induction false} LostStaysLost(h: Hash, s: State, places: map<nat, Place>, later: seq<Action>, id: nat)
    requires Inv(h, s, places) && ValidRun(h, s, later) && IsLost(s, id)
    ensures var s' := Exec(h, s, later);
            IsLost(s', id) && id !in s'.trail.batched && id !in QueuedIds(s') && id !in s'.unqueued
  {
    hide Apply, Enabled, Inv, QueuedIds;
    var places' := RunKeepsInv(h, s, places, later);
    var s' := Exec(h, s, later);
    if id in s.abandoned {
      AbandonedStays(h, s, later, id);
    } else {
      var b, i :| 0 <= b < |s.runs| && 0 <= i < |s.runs[b].leaves| && s.runs[b].failed && s.runs[b].leaves[i].eventId == id;
      FailedRunStays(h, s, later, b);
      assert s'.runs[b].leaves[i].eventId == id;
    }
    LostIsApart(h, s', places', id);
  }

  lemma {:induction false} LostIsApart(h: Hash, s: State, places: map<nat, Place>, id: nat)
    requires Inv(h, s, places) && IsLost(s, id)
    ensures id !in s.trail.batched && id !in QueuedIds(s) && id !in s.unqueued
  {
    hide LogInv, RowsInv, QueueInv, QueuedIds, TakenIds, CommittedIds;
    GroupOfPlace(s, places, id);
    if id !in s.abandoned {
      var b, i :| 0 <= b < |s.runs| && 0 <= i < |s.runs[b].leaves| && s.runs[b].failed && s.runs[b].leaves[i].eventId == id;
      assert RunOk(h, s, b);
      assert PlacedAt(places, s.runs[b].leaves[i].eventId, InRun(b, i));
    }
  }

  /** A run that has not failed can finish with the leaf; so can one that is still to be started. */
  lemma {:induction false} TakenCanBeBatched(h: Hash, s: State, places: map<nat, Place>, b: nat, i: nat) returns (actions: seq<Action>)
    requires Inv(h, s, places) && b < |s.runs| && i < |s.runs[b].leaves| && !s.runs[b].failed
    ensures ValidRun(h, s, actions) && s.runs[b].leaves[i].eventId in Exec(h, s, actions).trail.batched
  {
    hide Inv, Apply, Enabled, ValidRun, Exec;
    actions := LiveRunCanFinish(h, s, places, b);
    assert Exec(h, s, actions).runs[b].leaves[i].eventId in BatchIds(Exec(h, s, actions), b);
  }

  lemma {:induction false} QueuedCanBeBatched(h: Hash, s: State, places: map<nat, Place>, i: nat) returns (actions: seq<Action>)
    requires Inv(h, s, places) && i < |s.pending|
    ensures ValidRun(h, s, actions) && s.pending[i].eventId in Exec(h, s, actions).trail.batched
  {
    hide Inv, ValidRun, Exec;
    var s' := Apply(h, s, Take([]));
    StepKeepsInv(h, s, places, Take([]));
    assert s'.runs[|s.runs|] == Run(s.pending, [], [], Stamping, false);
    var rest := TakenCanBeBatched(h, s', NextPlaces(s, places, Take([])), |s.runs|, i);
    actions := Prefixed(h, s, Take([]), rest);
  }

  lemma {:induction false} UnqueuedCanBeBatched(h: Hash, s: State, places: map<nat, Place>, id: nat) returns (actions: seq<Action>)
    requires Inv(h, s, places) && id in s.unqueued
    ensures ValidRun(h, s, actions) && id in Exec(h, s, actions).trail.batched
  {
    var a := Enqueue(id, 0.0);
    UnqueuedIsCommit(h, s, places, id);
    hide Inv, ValidRun, Exec;
    var s' := Apply(h, s, a);
    StepKeepsInv(h, s, places, a);
    assert s'.pending[|s.pending|].eventId == id;
    var rest := QueuedCanBeBatched(h, s', NextPlaces(s, places, a), |s.pending|);
    actions := Prefixed(h, s, a, rest);
  }

  lemma {:induction false} UnqueuedIsCommit(h: Hash, s: State, places: map<nat, Place>, id: nat)
    requires Inv(h, s, places) && id in s.unqueued
    ensures IsCommit(s.trail.events, id) && s.trail.events[id].id == id
  {
    hide RunsInv, RowsInv, QueueInv, EventOk, ByDecision;
    assert PlacedAt(places, id, Unqueued);
  }

  lemma {:induction false} Prefixed(h: Hash, s: State, a: Action, rest: seq<Action>) returns (actions: seq<Action>)
    requires Enabled(s, a) && ValidRun(h, Apply(h, s, a), rest)
    ensures ValidRun(h, s, actions) && Exec(h, s, actions) == Exec(h, Apply(h, s, a), rest)
  {
    hide Enabled, Apply;
    actions := [a] + rest;
    assert actions[1..] == rest;
  }

  /** In every reachable state a commit can still be batched exactly when it is not lost: no run
      brings a lost one back, and for every other one some run ends with it batched. */
  lemma {:induction false} CanBeBatchedIffNotLost(h: Hash, earlier: seq<Action>, id: nat)
    requires ValidRun(h, INITIAL, earlier) && id in CommittedIds(Exec(h, INITIAL, earlier))
    ensures var s := Exec(h, INITIAL, earlier);
            CanBeBatched(h, s, id) <==> !IsLost(s, id)
  {
    hide Apply, Enabled, Inv, CommittedIds, IsLost, Exec, ValidRun;
    var places := Reached(h, earlier);
    var s := Exec(h, INITIAL, earlier);
    if actions :| ValidRun(h, s, actions) && id in Exec(h, s, actions).trail.batched {
      if IsLost(s, id) {
        LostStaysLost(h, s, places, actions, id);
      }
    }
    if !IsLost(s, id) {
      var actions := BatchingRun(h, s, places, id);
    }
  }

  lemma {:induction false} BatchingRun(h: Hash, s: State, places: map<nat, Place>, id: nat) returns (actions: seq<Action>)
    requires Inv(h, s, places) && id in CommittedIds(s) && !IsLost(s, id)
    ensures ValidRun(h, s, actions) && id in Exec(h, s, actions).trail.batched
  {
    hide LogInv, RunsInv, RowsInv, QueueInv, Apply, Enabled, ValidRun, Exec, CommittedIds, TakenIds, QueuedIds;
    GroupOfPlace(s, places, id);
    assert PlaceHolds(s, id, places[id]);
    match places[id]
    case Unqueued => actions := UnqueuedCanBeBatched(h, s, places, id);
    case Abandoned => assert false;
    case Queued(i) => actions := QueuedCanBeBatched(h, s, places, i);
    case InRun(b, i) => actions := TakenCanBeBatched(h, s, places, b, i);
  }
}
