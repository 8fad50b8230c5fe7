/** The anchor service run without interruption: drain, stamp, rows, roots, mark; the class in
    the source's form and the proof that it is a run of the system. */
module AnchorServices {
  import opened Basics
  import opened Texts
  import opened Merkle
  import opened MerkleBatches
  import opened Events
  import opened AuditTrail
  import opened System
  import opened SystemInvariant

  datatype AnchorError = NothingPending | TsaFailed

  class MemoryProjectionStore {
    var rows: map<Digest, Row>

    constructor ()
      ensures rows == map[]
    {
      rows := map[];
    }

    method Get(k: Digest) returns (r: Option<Row>)
      ensures r == if k in rows then Some(rows[k]) else None
    {
      r := if k in rows then Some(rows[k]) else None;
    }

    method Set(k: Digest, row: Row)
      modifies this
      ensures rows == old(rows)[k := row]
    {
      rows := rows[k := row];
    }
  }

  // ---- What one anchoring does -----------------------------------------------------------

  /** The rows after the first k writes of a run. */
  function RowsAfter(h: Hash, rows: map<Digest, Row>, r: Run, batch: nat, k: nat): map<Digest, Row>
    requires k <= |r.leaves|
  {
    if k == 0 then rows
    else RowsAfter(h, rows, r, batch, k - 1)[r.leaves[k - 1].leafHash := RowFor(h, r, batch, k - 1)]
  }

  /** The trail after publishing for the first k decisions. */
  function PublishedAfter(t: Trail, decisions: seq<Text>, body: Body, k: nat): Trail
    requires k <= |decisions|
  {
    if k == 0 then t else Append(PublishedAfter(t, decisions, body, k - 1), decisions[k - 1], body, None).0
  }

  function AnchoredTrail(h: Hash, t: Trail, r: Run, batch: nat): Trail
    requires r.leaves != []
  {
    var body := RootBody(h, r, batch);
    var published := PublishedAfter(Append(t, SYSTEM, body, None).0, Decisions(r), body, |Decisions(r)|);
    MarkBatched(published, Ids(r.leaves))
  }

  /** The row for a leaf of a batch: a path that verifies against the batch's root, that root signed, the
      time stamp and the batch id. */
  ghost predicate IsRowFor(h: Hash, row: Row, leaf: Digest, leaves: seq<PendingLeaf>, signature: Bytes, stamp: Text, batch: nat)
    requires leaves != []
  {
    && row.leafHash == leaf && row.root == Root(h, LeafHashes(leaves)) && Verifies(h, leaf, row.path, row.root)
    && row.signature == signature && row.stamp == stamp && row.batch == batch
  }

  lemma {:induction false} RowsAreForLeaves(h: Hash, rows: map<Digest, Row>, r: Run, batch: nat, k: nat)
    requires k <= |r.leaves| && r.leaves != []
    ensures var after := RowsAfter(h, rows, r, batch, k);
            && (forall i :: 0 <= i < k ==>
                  r.leaves[i].leafHash in after
                  && IsRowFor(h, after[r.leaves[i].leafHash], r.leaves[i].leafHash, r.leaves, r.signature, r.stamp, batch))
            && (forall d :: d in rows ==> d in after && (d !in LeafHashes(r.leaves) ==> after[d] == rows[d]))
    decreases k
  {
    hide ProofFor, Root, Fold;
    if k > 0 {
      RowsAreForLeaves(h, rows, r, batch, k - 1);
      ProofsVerify(h, LeafHashes(r.leaves), k - 1);
      assert LeafHashes(r.leaves)[k - 1] == r.leaves[k - 1].leafHash;
    }
  }

  lemma {:induction false} PublishedOneByOne(t: Trail, decisions: seq<Text>, body: Body, k: nat)
    requires k <= |decisions|
    ensures PublishedAfter(t, decisions, body, k).events
            == t.events + seq(k, i requires 0 <= i < k => Event(|t.events| + i, decisions[i], body))
    ensures PublishedAfter(t, decisions, body, k).index == t.index && PublishedAfter(t, decisions, body, k).batched == t.batched
    decreases k
  {
    if k > 0 {
      PublishedOneByOne(t, decisions, body, k - 1);
    }
  }

  /** The log after anchoring: the root event under "system", then one under each decision of the batch,
      in order and once each; no key is taken, and exactly the batch's events are marked. */
  ghost predicate IsAnchoredLog(h: Hash, t: Trail, t': Trail, leaves: seq<PendingLeaf>, signature: Bytes, stamp: Text, batch: nat)
    requires leaves != []
  {
    var body := MerkleRootPublished(batch, Root(h, LeafHashes(leaves)), |leaves|, signature, stamp);
    && (exists decisions: seq<Text> ::
          && Increasing(decisions) && (forall d :: d in decisions <==> exists i :: 0 <= i < |leaves| && leaves[i].decision == d)
          && t'.events == t.events + [Event(|t.events|, Ascii("system"), body)]
                          + seq(|decisions|, i requires 0 <= i < |decisions| => Event(|t.events| + 1 + i, decisions[i], body)))
    && t'.index == t.index
    && t'.batched == t.batched + set i | 0 <= i < |leaves| :: leaves[i].eventId
  }

  lemma {:induction false} SystemName()
    ensures SYSTEM == Ascii("system")
  {
  }

  lemma {:induction false} AnchoredLog(h: Hash, t: Trail, r: Run, batch: nat)
    requires r.leaves != []
    ensures IsAnchoredLog(h, t, AnchoredTrail(h, t, r, batch), r.leaves, r.signature, r.stamp, batch)
  {
    hide SortedUnique, Root, Increasing, Ascii;
    var body := RootBody(h, r, batch);
    var start := Append(t, SYSTEM, body, None).0;
    var decisions := Decisions(r);
    SystemName();
    SortedUniqueIsSorted(DecisionsOf(r.leaves));
    PublishedOneByOne(start, decisions, body, |decisions|);
    forall d
      ensures d in decisions <==> exists i :: 0 <= i < |r.leaves| && r.leaves[i].decision == d
    {
      assert d in decisions <==> d in DecisionsOf(r.leaves);
      if d in DecisionsOf(r.leaves) {
        var i :| 0 <= i < |r.leaves| && DecisionsOf(r.leaves)[i] == d;
      }
      if i :| 0 <= i < |r.leaves| && r.leaves[i].decision == d {
        assert DecisionsOf(r.leaves)[i] == d;
      }
    }
    MarkedIds(r.leaves);
    assert AnchoredTrail(h, t, r, batch).events
           == t.events + [Event(|t.events|, Ascii("system"), body)]
              + seq(|decisions|, i requires 0 <= i < |decisions| => Event(|t.events| + 1 + i, decisions[i], body));
  }

  lemma {:induction false} MarkedIds(leaves: seq<PendingLeaf>)
    ensures (set id | id in Ids(leaves)) == set i | 0 <= i < |leaves| :: leaves[i].eventId
  {
    var ids, marked := Ids(leaves), set i | 0 <= i < |leaves| :: leaves[i].eventId;
    forall id
      ensures id in ids <==> id in marked
    {
      if id in ids {
        var i :| 0 <= i < |ids| && ids[i] == id;
      }
      if id in marked {
        var i :| 0 <= i < |leaves| && leaves[i].eventId == id;
        assert ids[i] == id;
      }
    }
  }

  // ---- The class ----------------------------------------------------------------------------

  class MerkleAnchorService {
    const h: Hash
    const builder: MerkleBatchBuilder
    const audit: MemoryAuditTrail
    const store: MemoryProjectionStore
    const sign: Bytes -> Bytes

    constructor (h: Hash, builder: MerkleBatchBuilder, audit: MemoryAuditTrail, store: MemoryProjectionStore, sign: Bytes -> Bytes)
      ensures this.h == h && this.builder == builder && this.audit == audit && this.store == store && this.sign == sign
    {
      this.h, this.builder, this.audit, this.store, this.sign := h, builder, audit, store, sign;
    }

    ghost predicate Valid()
      reads builder
    {
      builder.Valid() && builder.h == h
    }

    /** The run that anchoring the pending leaves amounts to. */
    ghost function RunOver(leaves: seq<PendingLeaf>, stamp: Text): Run
      requires leaves != []
    {
      Run(leaves, sign(Root(h, LeafHashes(leaves))), stamp, Done, false)
    }

    /** `stamp` is the time of the TSA's token, or None when the TSA raises. */
    method CloseAndAnchor(batchId: nat, stamp: Option<Text>) returns (r: Result<nat, AnchorError>)
      requires Valid()
      modifies builder, audit, store
      ensures Valid()
      ensures old(builder.pending) == [] ==>
                r == Failure(NothingPending) && builder.pending == [] && builder.firstLeafTs == old(builder.firstLeafTs)
                && audit.View() == old(audit.View()) && store.rows == old(store.rows)
      ensures old(builder.pending) != [] ==> builder.pending == [] && builder.firstLeafTs == None
      ensures old(builder.pending) != [] && stamp.None? ==>
                r == Failure(TsaFailed) && audit.View() == old(audit.View()) && store.rows == old(store.rows)
      ensures old(builder.pending) != [] && stamp.Some? ==>
                var run := RunOver(old(builder.pending), stamp.value);
                && r == Success(batchId)
                && store.rows == RowsAfter(h, old(store.rows), run, batchId, |run.leaves|)
                && audit.View() == AnchoredTrail(h, old(audit.View()), run, batchId)
      ensures old(builder.pending) != [] && stamp.Some? ==>
                var leaves := old(builder.pending);
                var signature := sign(Root(h, LeafHashes(leaves)));
                && (forall i :: 0 <= i < |leaves| ==>
                      leaves[i].leafHash in store.rows
                      && IsRowFor(h, store.rows[leaves[i].leafHash], leaves[i].leafHash, leaves, signature, stamp.value, batchId))
                && IsAnchoredLog(h, old(audit.View()), audit.View(), leaves, signature, stamp.value, batchId)
    {
      var closed := builder.CloseAndReset();
      if closed.Failure? {
        return Failure(NothingPending);
      }
      var (batch, root, pending) := closed.value;
      var signature := sign(root);
      if stamp.None? {
        return Failure(TsaFailed);
      }
      ghost var run := RunOver(pending, stamp.value);
      WriteRows(batch, root, pending, signature, stamp.value, batchId, run);
      PublishRoots(MerkleRootPublished(batchId, root, |batch.leaves|, signature, stamp.value), pending, run);
      audit.Mark(Ids(pending));
      RowsAreForLeaves(h, old(store.rows), run, batchId, |pending|);
      AnchoredLog(h, old(audit.View()), run, batchId);
      return Success(batchId);
    }

    method WriteRows(batch: MerkleBatch, root: Bytes, pending: seq<PendingLeaf>, signature: Bytes, stamp: Text, batchId: nat, ghost run: Run)
      requires pending != [] && run == RunOver(pending, stamp)
      requires batch.Valid() && batch.h == h && batch.leaves == LeafHashes(pending) && batch.levels == Levels(h, batch.leaves)
      requires root == Root(h, batch.leaves) && signature == sign(root)
      modifies store
      ensures store.rows == RowsAfter(h, old(store.rows), run, batchId, |pending|)
    {
      hide ProofFor, Root, Levels;
      for idx := 0 to |batch.leaves|
        invariant store.rows == RowsAfter(h, old(store.rows), run, batchId, idx)
        invariant batch.Valid() && batch.levels == Levels(h, batch.leaves)
      {
        LevelsExist(h, batch.leaves);
        var proof := batch.ProofOf(idx);
        store.Set(pending[idx].leafHash, Row(pending[idx].leafHash, proof.value, root, signature, stamp, batchId));
      }
    }

    method PublishRoots(body: Body, pending: seq<PendingLeaf>, ghost run: Run)
      requires KeyOf(body).None? && run.leaves == pending
      modifies audit
      ensures audit.View() == PublishedAfter(Append(old(audit.View()), SYSTEM, body, None).0, Decisions(run), body, |Decisions(run)|)
    {
      var _ := audit.AppendEvent(SYSTEM, body, None);
      var decisions := SortedUnique(DecisionsOf(pending));
      ghost var start := audit.View();
      for k := 0 to |decisions|
        invariant audit.View() == PublishedAfter(start, decisions, body, k)
      {
        var _ := audit.AppendEvent(decisions[k], body, None);
      }
    }

    method MaybeCloseAndAnchor(now: real, batchId: nat, stamp: Option<Text>) returns (r: Option<Result<nat, AnchorError>>)
      requires Valid()
      modifies builder, audit, store
      ensures Valid()
      ensures var since := old(builder.firstLeafTs);
              var due := old(builder.pending) != []
                         && (old(|builder.pending|) >= builder.maxLeaves
                             || (since.Some? && now - since.value >= builder.maxSeconds));
              && (r.Some? <==> due)
              && (!due ==> builder.pending == old(builder.pending) && builder.firstLeafTs == old(builder.firstLeafTs)
                           && audit.View() == old(audit.View()) && store.rows == old(store.rows))
              && (due ==> builder.pending == [] && builder.firstLeafTs == None)
              && (due && stamp.None? ==>
                    r.value == Failure(TsaFailed) && audit.View() == old(audit.View()) && store.rows == old(store.rows))
              && (due && stamp.Some? ==>
                    var run := RunOver(old(builder.pending), stamp.value);
                    && r.value == Success(batchId)
                    && store.rows == RowsAfter(h, old(store.rows), run, batchId, |run.leaves|)
                    && audit.View() == AnchoredTrail(h, old(audit.View()), run, batchId))
    {
      var due := builder.ShouldClose(now);
      if !due {
        return None;
      }
      var anchored := CloseAndAnchor(batchId, stamp);
      return Some(anchored);
    }

    method ForceClose(batchId: nat, stamp: Option<Text>) returns (r: Option<Result<nat, AnchorError>>)
      requires Valid()
      modifies builder, audit, store
      ensures Valid() && builder.pending == []
      ensures r.Some? <==> old(builder.pending) != []
      ensures r.None? ==>
                builder.firstLeafTs == old(builder.firstLeafTs)
                && audit.View() == old(audit.View()) && store.rows == old(store.rows)
      ensures r.Some? ==> builder.firstLeafTs == None
      ensures r.Some? && stamp.None? ==>
                r.value == Failure(TsaFailed) && audit.View() == old(audit.View()) && store.rows == old(store.rows)
      ensures r.Some? && stamp.Some? ==>
                var run := RunOver(old(builder.pending), stamp.value);
                && r.value == Success(batchId)
                && store.rows == RowsAfter(h, old(store.rows), run, batchId, |run.leaves|)
                && audit.View() == AnchoredTrail(h, old(audit.View()), run, batchId)
    {
      var any := builder.HasPending();
      if !any {
        return None;
      }
      var anchored := CloseAndAnchor(batchId, stamp);
      return Some(anchored);
    }
  }

  lemma {:induction false} LevelsExist(h: Hash, leaves: seq<Bytes>)
    requires leaves != []
    ensures Levels(h, leaves) != []
  {
  }

  // ---- Anchoring is a run of the system --------------------------------------------------------

  lemma {:induction false} ThenOne(h: Hash, s: State, actions: seq<Action>, a: Action)
    requires ValidRun(h, s, actions) && Enabled(Exec(h, s, actions), a)
    ensures ValidRun(h, s, actions + [a]) && Exec(h, s, actions + [a]) == Apply(h, Exec(h, s, actions), a)
  {
    hide Enabled, Apply;
    var s' := Exec(h, s, actions);
    assert [a][1..] == [];
    assert ValidRun(h, s', [a]) && Exec(h, s', [a]) == Apply(h, s', a);
    ExecSplits(h, s, actions, [a]);
  }

  /** The state while run b stands at `phase`, with rows and trail as given. */
  function StateAt(s: State, r: Run, rows: map<Digest, Row>, trail: Trail): State {
    s.(pending := [], firstTs := None, rows := rows, trail := trail, runs := s.runs + [r])
  }

  lemma {:induction false} RunStarts(h: Hash, s: State, r: Run) returns (actions: seq<Action>)
    requires s.pending == r.leaves && r.leaves != [] && !r.failed
    ensures ValidRun(h, s, actions)
    ensures Exec(h, s, actions) == StateAt(s, r.(phase := Writing(0)), s.rows, s.trail)
  {
    var b := |s.runs|;
    assert ValidRun(h, s, []) && Exec(h, s, []) == s;
    ThenOne(h, s, [], Take(r.signature));
    ThenOne(h, s, [] + [Take(r.signature)], ReceiveStamp(b, r.stamp));
    actions := [] + [Take(r.signature)] + [ReceiveStamp(b, r.stamp)];
    assert Exec(h, s, actions).runs == s.runs + [r.(phase := Writing(0))];
  }

  /** One row written moves the run from row k to row k + 1. */
  lemma {:induction false} WritesOne(h: Hash, s: State, r: Run, k: nat, rows: map<Digest, Row>, trail: Trail)
    requires k < |r.leaves| && !r.failed
    ensures var before := StateAt(s, r.(phase := Writing(k)), rows, trail);
            && Enabled(before, WriteRow(|s.runs|))
            && Apply(h, before, WriteRow(|s.runs|))
               == StateAt(s, r.(phase := if k + 1 < |r.leaves| then Writing(k + 1) else PublishingSystem),
                          rows[r.leaves[k].leafHash := RowFor(h, r, |s.runs|, k)], trail)
  {
    var after := r.(phase := if k + 1 < |r.leaves| then Writing(k + 1) else PublishingSystem);
    assert (s.runs + [r.(phase := Writing(k))])[|s.runs| := after] == s.runs + [after];
    RowForIgnoresPhase(h, r.(phase := Writing(k)), r, |s.runs|, k);
    hide RowFor;
  }

  lemma {:induction false} RunIsWriting(h: Hash, s: State, r: Run, k: nat) returns (actions: seq<Action>)
    requires s.pending == r.leaves && r.leaves != [] && !r.failed && k <= |r.leaves|
    ensures ValidRun(h, s, actions)
    ensures Exec(h, s, actions)
            == StateAt(s, r.(phase := if k < |r.leaves| then Writing(k) else PublishingSystem),
                       RowsAfter(h, s.rows, r, |s.runs|, k), s.trail)
    decreases k
  {
    hide Enabled, Apply, StateAt, RowFor, ValidRun, Exec;
    if k == 0 {
      actions := RunStarts(h, s, r);
    } else {
      var before := RunIsWriting(h, s, r, k - 1);
      WritesOne(h, s, r, k - 1, RowsAfter(h, s.rows, r, |s.runs|, k - 1), s.trail);
      ThenOne(h, s, before, WriteRow(|s.runs|));
      actions := before + [WriteRow(|s.runs|)];
    }
  }

  lemma {:induction false} RowForIgnoresPhase(h: Hash, r: Run, r': Run, b: nat, i: nat)
    requires r'.leaves == r.leaves && r'.signature == r.signature && r'.stamp == r.stamp && i < |r.leaves|
    ensures RowFor(h, r, b, i) == RowFor(h, r', b, i) && RootBody(h, r, b) == RootBody(h, r', b)
    ensures Decisions(r) == Decisions(r')
  {
  }

  lemma {:induction false} RunIsPublishing(h: Hash, s: State, r: Run, k: nat) returns (actions: seq<Action>)
    requires s.pending == r.leaves && r.leaves != [] && !r.failed && k <= |Decisions(r)|
    ensures ValidRun(h, s, actions)
    ensures var b, n := |s.runs|, |r.leaves|;
            var body := RootBody(h, r, b);
            Exec(h, s, actions)
            == StateAt(s, r.(phase := if k < |Decisions(r)| then Publishing(k) else Marking),
                       RowsAfter(h, s.rows, r, b, n),
                       PublishedAfter(Append(s.trail, SYSTEM, body, None).0, Decisions(r), body, k))
    decreases k
  {
    hide SortedUnique, Root, ProofFor, LeafHashes, RowsAfter, Apply, Enabled, RootBody;
    var b := |s.runs|;
    var rows := RowsAfter(h, s.rows, r, b, |r.leaves|);
    if k == 0 {
      var before := RunIsWriting(h, s, r, |r.leaves|);
      SystemPublish(h, s, r, rows, s.trail);
      ThenOne(h, s, before, PublishSystem(b));
      actions := before + [PublishSystem(b)];
    } else {
      var before := RunIsPublishing(h, s, r, k - 1);
      var start := Append(s.trail, SYSTEM, RootBody(h, r, b), None).0;
      DecisionPublish(h, s, r, rows, PublishedAfter(start, Decisions(r), RootBody(h, r, b), k - 1), k - 1);
      ThenOne(h, s, before, PublishDecision(b));
      actions := before + [PublishDecision(b)];
    }
  }

  lemma {:induction false} SystemPublish(h: Hash, s: State, r: Run, rows: map<Digest, Row>, trail: Trail)
    requires r.leaves != [] && !r.failed
    ensures var x := StateAt(s, r.(phase := PublishingSystem), rows, trail);
            && Enabled(x, PublishSystem(|s.runs|)) && Decisions(r) != []
            && Apply(h, x, PublishSystem(|s.runs|))
               == StateAt(s, r.(phase := Publishing(0)), rows, Append(trail, SYSTEM, RootBody(h, r, |s.runs|), None).0)
  {
    DecisionsExist(r);
    hide SortedUnique, Root, LeafHashes;
    var b, x := |s.runs|, StateAt(s, r.(phase := PublishingSystem), rows, trail);
    RowForIgnoresPhase(h, x.runs[b], r, b, 0);
    assert Apply(h, x, PublishSystem(b)).runs == s.runs + [r.(phase := Publishing(0))];
  }

  lemma {:induction false} DecisionPublish(h: Hash, s: State, r: Run, rows: map<Digest, Row>, trail: Trail, k: nat)
    requires r.leaves != [] && !r.failed && k < |Decisions(r)|
    ensures var x := StateAt(s, r.(phase := Publishing(k)), rows, trail);
            && Enabled(x, PublishDecision(|s.runs|))
            && Apply(h, x, PublishDecision(|s.runs|))
               == StateAt(s, r.(phase := if k + 1 < |Decisions(r)| then Publishing(k + 1) else Marking), rows,
                          Append(trail, Decisions(r)[k], RootBody(h, r, |s.runs|), None).0)
  {
    hide SortedUnique, Root, LeafHashes;
    var b, x := |s.runs|, StateAt(s, r.(phase := Publishing(k)), rows, trail);
    var phase := if k + 1 < |Decisions(r)| then Publishing(k + 1) else Marking;
    RowForIgnoresPhase(h, x.runs[b], r, b, 0);
    assert Apply(h, x, PublishDecision(b)).runs == s.runs + [r.(phase := phase)];
  }

  lemma {:induction false} MarksDone(h: Hash, s: State, r: Run, rows: map<Digest, Row>, trail: Trail)
    requires r.leaves != [] && !r.failed && r.phase.Done?
    ensures var before := StateAt(s, r.(phase := Marking), rows, trail);
            && Enabled(before, MarkDone(|s.runs|))
            && Apply(h, before, MarkDone(|s.runs|)) == StateAt(s, r, rows, MarkBatched(trail, Ids(r.leaves)))
  {
    assert (s.runs + [r.(phase := Marking)])[|s.runs| := r] == s.runs + [r];
    hide MarkBatched;
  }

  /** What the class computes when the TSA answers is where an uninterrupted run of the system ends. */
  lemma {:induction false} AnchoringIsARun(h: Hash, s: State, signature: Bytes, stamp: Text) returns (actions: seq<Action>)
    requires s.pending != []
    ensures ValidRun(h, s, actions)
    ensures var r := Run(s.pending, signature, stamp, Done, false);
            Exec(h, s, actions)
            == StateAt(s, r, RowsAfter(h, s.rows, r, |s.runs|, |r.leaves|), AnchoredTrail(h, s.trail, r, |s.runs|))
  {
    hide Enabled, Apply, StateAt, RowsAfter, PublishedAfter, RootBody, ValidRun, Exec;
    var r := Run(s.pending, signature, stamp, Done, false);
    var b := |s.runs|;
    var body := RootBody(h, r, b);
    var before := RunIsPublishing(h, s, r, |Decisions(r)|);
    MarksDone(h, s, r, RowsAfter(h, s.rows, r, b, |r.leaves|),
              PublishedAfter(Append(s.trail, SYSTEM, body, None).0, Decisions(r), body, |Decisions(r)|));
    ThenOne(h, s, before, MarkDone(b));
    actions := before + [MarkDone(b)];
  }

  /** When the TSA raises, the run of the system takes the leaves and fails with them. */
  lemma {:induction false} FailedAnchoringIsARun(h: Hash, s: State, signature: Bytes)
    requires s.pending != []
    ensures var actions := [Take(signature), FailRun(|s.runs|)];
            && ValidRun(h, s, actions)
            && Exec(h, s, actions) == StateAt(s, Run(s.pending, signature, [], Stamping, true), s.rows, s.trail)
  {
    var b := |s.runs|;
    assert ValidRun(h, s, []) && Exec(h, s, []) == s;
    ThenOne(h, s, [], Take(signature));
    ThenOne(h, s, [] + [Take(signature)], FailRun(b));
    assert [] + [Take(signature)] + [FailRun(b)] == [Take(signature), FailRun(b)];
    assert Apply(h, Apply(h, s, Take(signature)), FailRun(b)).runs == s.runs + [Run(s.pending, signature, [], Stamping, true)];
  }
}
