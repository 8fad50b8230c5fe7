/** What one handled command or event does to the log, the queue, the staging area and the rebuilt
    records, in terms of its own fields. */
module EndToEnd {
  import opened Basics
  import opened Texts
  import opened MerkleBatches
  import opened LeafHash
  import opened Events
  import opened AuditTrail
  import opened System
  import opened Replay
  import opened CommandHandlers

  /** Every staging entry but one is as it was. */
  ghost predicate OtherEntriesKept(c: Core, c': Core, key: (Text, Text)) {
    forall other :: other != key ==> (other in c'.staging <==> other in c.staging) && (other in c.staging ==> c'.staging[other] == c.staging[other])
  }

  /** One event went to the end of the log and of its decision's stream. */
  ghost predicate Logged(c: Core, c': Core, decision: Text, body: Body) {
    var e := Event(|c.trail.events|, decision, body);
    && c'.trail.events == c.trail.events + [e] && c'.trail.batched == c.trail.batched
    && Stream(c'.trail, decision) == Stream(c.trail, decision) + [e]
    && forall other :: other != decision ==> Stream(c'.trail, other) == Stream(c.trail, other)
  }

  // ---- Updates -----------------------------------------------------------------------------------

  /** An accepted update: the hash of its payload is returned, queued under the new event's id and kept in
      the staging entry, which is COMMITTED; and, unless a supersession took effect in this decision
      before, the rebuilt record of the metric is the command's, field by field, and no other changes. */
  lemma {:induction false} AcceptedUpdateIsShown(h: Hash, c: Core, commit: Commit, at: Text, now: real)
    requires UpdateIn(h, c, commit, at, now).1.status == Accepted
    ensures var (c', r) := UpdateIn(h, c, commit, at, now);
            var leaf := h(Payload(LeafFields(commit.decision, commit.metric, commit.value.json, at, commit.refs, commit.key)));
            var key := (commit.decision, commit.metric);
            && r.leafHash == Some(leaf)
            && c'.pending == c.pending + [PendingLeaf(leaf, |c.trail.events|, commit.decision)]
            && c'.firstTs == (if c.firstTs.None? then Some(now) else c.firstTs)
            && c'.trail.index == c.trail.index[commit.key := |c.trail.events|]
            && key in c'.staging && c'.staging[key].status == Committed && c'.staging[key].leafHash == Some(leaf)
            && (key in c.staging ==> c'.staging[key].copied == c.staging[key].copied && c'.staging[key].riskLevel == c.staging[key].riskLevel)
            && OtherEntriesKept(c, c', key)
    ensures var c' := UpdateIn(h, c, commit, at, now).0;
            var d := commit.decision;
            var leaf := h(Payload(LeafFields(d, commit.metric, commit.value.json, at, commit.refs, commit.key)));
            var record := MetricRecord(d, commit.metric, commit.value, commit.proposedBy, commit.key, SortedUnique(commit.refs),
                                       Committed, at, Some(leaf), None);
            && (!HasCut(Stream(c.trail, d)) ==>
                  Reconstruct(d, Stream(c'.trail, d)) == Reconstruct(d, Stream(c.trail, d))[commit.metric := record])
            && forall other :: other != d ==> Stream(c'.trail, other) == Stream(c.trail, other)
  {
    SortedUniqueAbsorbs(commit.refs);
    hide Payload, Sorted, SortedUnique, Reconstruct, HasCut;
    ReconstructAppend(commit.decision, Stream(c.trail, commit.decision),
                      Event(|c.trail.events|, commit.decision, CommitBody(h, commit, at)));
  }

  /** An update without evidence is logged as a rejection and changes nothing else; it shows up as a record
      only where the metric was unknown, and then without any value. */
  lemma {:induction false} RejectedUpdateIsShown(h: Hash, c: Core, commit: Commit, at: Text, now: real)
    requires commit.refs == []
    ensures var (c', r) := UpdateIn(h, c, commit, at, now);
            && r == UpdateResult(RejectedMissingEvidence, None)
            && Logged(c, c', commit.decision, MetricRejected(commit.metric, commit.key, at))
            && c'.pending == c.pending && c'.firstTs == c.firstTs && c'.staging == c.staging && c'.trail.index == c.trail.index
    ensures var c' := UpdateIn(h, c, commit, at, now).0;
            var d := commit.decision;
            var metrics := Reconstruct(d, Stream(c.trail, d));
            Reconstruct(d, Stream(c'.trail, d))
            == if HasCut(Stream(c.trail, d)) || commit.metric in metrics then metrics
               else metrics[commit.metric := MetricRecord(d, commit.metric, Value(Ascii("null"), None), Ascii("unknown"), commit.key, [],
                                                          Rejected, at, None, None)]
  {
    ReplayNames();
    hide Reconstruct, HasCut, Ascii;
    ReconstructAppend(commit.decision, Stream(c.trail, commit.decision),
                      Event(|c.trail.events|, commit.decision, MetricRejected(commit.metric, commit.key, at)));
  }

  // ---- Lifecycle events ------------------------------------------------------------------------------

  /** The staging entry before the event; a missing one is empty. */
  ghost predicate EntryWas(c: Core, key: (Text, Text), leafHash: Option<Digest>, riskLevel: Option<Text>, copied: map<Text, Text>) {
    if key in c.staging then
      c.staging[key].leafHash == leafHash && c.staging[key].riskLevel == riskLevel && c.staging[key].copied == copied
    else
      leafHash == None && riskLevel == None && copied == map[]
  }

  ghost predicate QueueKept(c: Core, c': Core) {
    c'.pending == c.pending && c'.firstTs == c.firstTs && c'.trail.index == c.trail.index
  }

  /** Each lifecycle event is logged as it is and sets the status it stands for: a proposal replaces the
      entry, an outcome merges its payload into it, a risk signal only adds its level. */
  lemma {:induction false} LifecycleEffect(c: Core, decision: Text, body: Body, payload: map<Text, Text>,
                                           leafHash: Option<Digest>, riskLevel: Option<Text>, copied: map<Text, Text>)
    requires body.MetricProposed? || body.DebateOutcome? || body.RiskSignal?
    requires EntryWas(c, (decision, body.metric), leafHash, riskLevel, copied)
    ensures var key := (decision, body.metric);
            && (body.MetricProposed? ==>
                  var c' := ProposedIn(c, decision, body, payload);
                  && key in c'.staging && c'.staging[key] == StageInfo(Proposed, None, None, payload)
                  && Logged(c, c', decision, body) && OtherEntriesKept(c, c', key) && QueueKept(c, c'))
            && (body.DebateOutcome? ==>
                  var c' := DebatedIn(c, decision, body, payload);
                  && key in c'.staging && c'.staging[key] == StageInfo(Debated, leafHash, riskLevel, copied + payload)
                  && Logged(c, c', decision, body) && OtherEntriesKept(c, c', key) && QueueKept(c, c'))
            && (body.RiskSignal? ==>
                  var c' := CritiquedIn(c, decision, body);
                  && key in c'.staging && c'.staging[key] == StageInfo(Critiqued, leafHash, Some(body.category), copied)
                  && Logged(c, c', decision, body) && OtherEntriesKept(c, c', key) && QueueKept(c, c'))
  {
  }

  /** A ReconciledDecision without evidence: logged with all its fields, then rejected; the entry is
      RECONCILED and merged. */
  lemma {:induction false} UnreconcilableEffect(h: Hash, c: Core, commit: Commit, payload: map<Text, Text>, at: Text, now: real,
                                                leafHash: Option<Digest>, riskLevel: Option<Text>, copied: map<Text, Text>)
    requires commit.refs == [] && EntryWas(c, (commit.decision, commit.metric), leafHash, riskLevel, copied)
    ensures var c' := ReconciledIn(h, c, commit, payload, at, now);
            var key := (commit.decision, commit.metric);
            var n := |c.trail.events|;
            && key in c'.staging && c'.staging[key] == StageInfo(Reconciled, leafHash, riskLevel, copied + payload)
            && OtherEntriesKept(c, c', key) && QueueKept(c, c')
            && c'.trail.events
               == c.trail.events
                  + [Event(n, commit.decision, ReconciledDecision(commit.metric, commit.value, commit.refs, commit.key, commit.proposedBy)),
                     Event(n + 1, commit.decision, MetricRejected(commit.metric, commit.key, at))]
  {
  }

  /** One with evidence and a new key: logged, then committed exactly as an update with its fields is. */
  lemma {:induction false} ReconciledIsShown(h: Hash, c: Core, commit: Commit, payload: map<Text, Text>, at: Text, now: real)
    requires commit.refs != [] && commit.key !in c.trail.index && !HasCut(Stream(c.trail, commit.decision))
    ensures var c' := ReconciledIn(h, c, commit, payload, at, now);
            var d := commit.decision;
            var leaf := h(Payload(LeafFields(d, commit.metric, commit.value.json, at, commit.refs, commit.key)));
            var record := MetricRecord(d, commit.metric, commit.value, commit.proposedBy, commit.key, SortedUnique(commit.refs),
                                       Committed, at, Some(leaf), None);
            && Reconstruct(d, Stream(c'.trail, d)) == Reconstruct(d, Stream(c.trail, d))[commit.metric := record]
            && c'.pending == c.pending + [PendingLeaf(leaf, |c.trail.events| + 1, d)]
            && |c'.trail.events| == |c.trail.events| + 2
            && c'.trail.events[|c.trail.events|]
               == Event(|c.trail.events|, d, ReconciledDecision(commit.metric, commit.value, commit.refs, commit.key, commit.proposedBy))
            && (d, commit.metric) in c'.staging && c'.staging[(d, commit.metric)].status == Committed
  {
    var d, key := commit.decision, (commit.decision, commit.metric);
    var body := ReconciledBody(commit);
    var e := Event(|c.trail.events|, d, body);
    var logged := LogIn(StagedIn(c, key, ReconciledStage(StageIn(c, key), payload)), d, body);
    OtherEventsAreIgnored(d, Stream(c.trail, d), e);
    CutOnlyBySupersession(Stream(c.trail, d), e);
    hide Reconstruct, HasCut, Payload, SortedUnique, Sorted;
    AcceptedUpdateIsShown(h, logged, commit, at, now);
  }

  lemma {:induction false} CutOnlyBySupersession(events: seq<Event>, e: Event)
    requires !HasCut(events) && !e.body.MetricSuperseded?
    ensures !HasCut(events + [e])
  {
    var longer := events + [e];
    forall i | 0 <= i < |longer|
      ensures !IsCut(longer, i)
    {
      if i < |events| {
        assert longer[..i] == events[..i] && longer[i] == events[i];
        assert !IsCut(events, i);
      }
    }
  }
}
