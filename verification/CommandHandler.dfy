/** The command handlers run without interruption: the class in the source's form, the function
    of the old state each handler computes, and the proof that each is a run of the system. */
module CommandHandlers {
  import opened Basics
  import opened Texts
  import opened MerkleBatches
  import opened LeafHash
  import opened Events
  import opened AuditTrail
  import opened System
  import opened SystemInvariant
  import opened SystemTheorems

  datatype UpdateStatus = Accepted | DuplicateIgnored | RejectedMissingEvidence

  datatype UpdateResult = UpdateResult(status: UpdateStatus, leafHash: Option<Digest>)

  /** What the handlers read and write. */
  datatype Core = Core(trail: Trail, pending: seq<PendingLeaf>, firstTs: Option<real>, staging: map<(Text, Text), StageInfo>)

  function CoreOf(s: State): Core {
    Core(s.trail, s.pending, s.firstTs, s.staging)
  }

  function WithCore(s: State, c: Core): State {
    s.(trail := c.trail, pending := c.pending, firstTs := c.firstTs, staging := c.staging)
  }

  // ---- What each handler computes ------------------------------------------------------

  function StageIn(c: Core, key: (Text, Text)): StageInfo {
    if key in c.staging then c.staging[key] else EMPTY_STAGE
  }

  function LogIn(c: Core, decision: Text, body: Body): Core {
    c.(trail := Append(c.trail, decision, body, KeyOf(body)).0)
  }

  function CommitIn(h: Hash, c: Core, commit: Commit, at: Text, now: real): (Core, UpdateResult) {
    var body := CommitBody(h, commit, at);
    var (trail, appended) := Append(c.trail, commit.decision, body, Some(commit.key));
    if appended.deduplicated then (c, UpdateResult(DuplicateIgnored, None))
    else
      var key := (commit.decision, commit.metric);
      (Core(trail,
            c.pending + [PendingLeaf(body.leafHash, appended.id, commit.decision)],
            if c.firstTs.None? then Some(now) else c.firstTs,
            c.staging[key := StageIn(c, key).(status := Committed, leafHash := Some(body.leafHash))]),
       UpdateResult(Accepted, Some(body.leafHash)))
  }

  function UpdateIn(h: Hash, c: Core, commit: Commit, at: Text, now: real): (Core, UpdateResult) {
    if commit.refs == [] then
      (LogIn(c, commit.decision, MetricRejected(commit.metric, commit.key, at)), UpdateResult(RejectedMissingEvidence, None))
    else
      CommitIn(h, c, commit, at, now)
  }

  function StagedIn(c: Core, key: (Text, Text), info: StageInfo): Core {
    c.(staging := c.staging[key := info])
  }

  // `payload` is the payload as the dictionary that the staging entry copies: field name to JSON text.

  function ProposedIn(c: Core, decision: Text, body: Body, payload: map<Text, Text>): Core
    requires body.MetricProposed?
  {
    LogIn(StagedIn(c, (decision, body.metric), StageInfo(Proposed, None, None, payload)), decision, body)
  }

  function DebatedIn(c: Core, decision: Text, body: Body, payload: map<Text, Text>): Core
    requires body.DebateOutcome?
  {
    var stage := StageIn(c, (decision, body.metric));
    LogIn(StagedIn(c, (decision, body.metric), stage.(status := Debated, copied := stage.copied + payload)), decision, body)
  }

  function CritiquedIn(c: Core, decision: Text, body: Body): Core
    requires body.RiskSignal?
  {
    var stage := StageIn(c, (decision, body.metric));
    LogIn(StagedIn(c, (decision, body.metric), stage.(status := Critiqued, riskLevel := Some(body.category))), decision, body)
  }

  function ReconciledBody(commit: Commit): Body {
    ReconciledDecision(commit.metric, commit.value, commit.refs, commit.key, commit.proposedBy)
  }

  function ReconciledStage(stage: StageInfo, payload: map<Text, Text>): StageInfo {
    stage.(status := Reconciled, copied := stage.copied + payload)
  }

  function ReconciledIn(h: Hash, c: Core, commit: Commit, payload: map<Text, Text>, at: Text, now: real): Core {
    var key := (commit.decision, commit.metric);
    var staged := StagedIn(c, key, ReconciledStage(StageIn(c, key), payload));
    UpdateIn(h, LogIn(staged, commit.decision, ReconciledBody(commit)), commit, at, now).0
  }

  // ---- The class -----------------------------------------------------------------------------

  class CommandHandler {
    const h: Hash
    const audit: MemoryAuditTrail
    const merkle: MerkleBatchBuilder
    var staging: map<(Text, Text), StageInfo>

    constructor (h: Hash, audit: MemoryAuditTrail, merkle: MerkleBatchBuilder)
      ensures this.h == h && this.audit == audit && this.merkle == merkle && staging == map[]
    {
      this.h, this.audit, this.merkle, staging := h, audit, merkle, map[];
    }

    ghost function View(): Core
      reads this, audit, merkle
    {
      Core(audit.View(), merkle.pending, merkle.firstLeafTs, staging)
    }

    /** `at` and `now` are one reading of the clock, as text and as a number. */
    method CommitMetric(commit: Commit, at: Text, now: real) returns (r: UpdateResult)
      requires merkle.Valid()
      modifies this, audit, merkle
      ensures merkle.Valid()
      ensures (View(), r) == CommitIn(h, old(View()), commit, at, now)
    {
      var leafHash := ComputeLeafHash(h, CommitFields(commit, at));
      var body := MetricCommitted(commit.metric, commit.value, Sorted(commit.refs), commit.key, leafHash, at, commit.proposedBy);
      var result := audit.AppendEvent(commit.decision, body, Some(commit.key));
      if result.deduplicated {
        return UpdateResult(DuplicateIgnored, None);
      }
      merkle.AddLeaf(leafHash, result.id, commit.decision, now);
      var key := (commit.decision, commit.metric);
      var stage := if key in staging then staging[key] else EMPTY_STAGE;
      staging := staging[key := stage.(status := Committed, leafHash := Some(leafHash))];
      return UpdateResult(Accepted, Some(leafHash));
    }

    method HandleUpdateMetric(commit: Commit, at: Text, now: real) returns (r: UpdateResult)
      requires merkle.Valid()
      modifies this, audit, merkle
      ensures merkle.Valid()
      ensures (View(), r) == UpdateIn(h, old(View()), commit, at, now)
    {
      if commit.refs == [] {
        var _ := audit.AppendEvent(commit.decision, MetricRejected(commit.metric, commit.key, at), None);
        return UpdateResult(RejectedMissingEvidence, None);
      }
      r := CommitMetric(commit, at, now);
    }

    method OnMetricProposed(decision: Text, body: Body, payload: map<Text, Text>)
      requires body.MetricProposed?
      modifies this, audit
      ensures View() == ProposedIn(old(View()), decision, body, payload)
    {
      staging := staging[(decision, body.metric) := StageInfo(Proposed, None, None, payload)];
      var _ := audit.AppendEvent(decision, body, None);
    }

    method OnDebateOutcome(decision: Text, body: Body, payload: map<Text, Text>)
      requires body.DebateOutcome?
      modifies this, audit
      ensures View() == DebatedIn(old(View()), decision, body, payload)
    {
      var key := (decision, body.metric);
      var stage := if key in staging then staging[key] else EMPTY_STAGE;
      staging := staging[key := stage.(status := Debated, copied := stage.copied + payload)];
      var _ := audit.AppendEvent(decision, body, None);
    }

    method OnRiskSignal(decision: Text, body: Body)
      requires body.RiskSignal?
      modifies this, audit
      ensures View() == CritiquedIn(old(View()), decision, body)
    {
      var key := (decision, body.metric);
      var stage := if key in staging then staging[key] else EMPTY_STAGE;
      staging := staging[key := stage.(status := Critiqued, riskLevel := Some(body.category))];
      var _ := audit.AppendEvent(decision, body, None);
    }

    method OnReconciledDecision(commit: Commit, payload: map<Text, Text>, at: Text, now: real)
      requires merkle.Valid()
      modifies this, audit, merkle
      ensures merkle.Valid()
      ensures View() == ReconciledIn(h, old(View()), commit, payload, at, now)
    {
      var key := (commit.decision, commit.metric);
      var stage := if key in staging then staging[key] else EMPTY_STAGE;
      staging := staging[key := stage.(status := Reconciled, copied := stage.copied + payload)];
      var body := ReconciledDecision(commit.metric, commit.value, commit.refs, commit.key, commit.proposedBy);
      var _ := audit.AppendEvent(commit.decision, body, None);
      if commit.refs == [] {
        var _ := audit.AppendEvent(commit.decision, MetricRejected(commit.metric, commit.key, at), None);
        return;
      }
      var _ := CommitMetric(commit, at, now);
    }

    method SupersedeMetric(decision: Text, body: Body)
      requires body.MetricSuperseded?
      modifies audit
      ensures View() == LogIn(old(View()), decision, body)
    {
      var _ := audit.AppendEvent(decision, body, Some(body.key));
    }

    /** The handlers that only record: evidence, artifacts, configuration and goals. */
    method OnOther(decision: Text, body: Body)
      requires body.OtherEvent?
      modifies audit
      ensures View() == LogIn(old(View()), decision, body)
    {
      var _ := audit.AppendEvent(decision, body, None);
    }
  }

  // ---- Each handler is a run of the system ------------------------------------------------------

  function CommitActions(s: State, commit: Commit, at: Text, now: real): seq<Action> {
    if Seen(s.trail, Some(commit.key)) then [AppendCommit(commit, at)]
    else [AppendCommit(commit, at), Enqueue(|s.trail.events|, now)]
  }

  function UpdateActions(s: State, commit: Commit, at: Text, now: real): seq<Action> {
    if commit.refs == [] then [LogPlain(commit.decision, MetricRejected(commit.metric, commit.key, at))]
    else CommitActions(s, commit, at, now)
  }

  /** No event id is already waiting to be queued beyond the end of the log. */
  ghost predicate NoFutureIds(s: State) {
    forall id :: id in s.unqueued ==> id < |s.trail.events|
  }

  lemma {:induction false} ReachableHasNoFutureIds(h: Hash, actions: seq<Action>)
    requires ValidRun(h, INITIAL, actions)
    ensures NoFutureIds(Exec(h, INITIAL, actions))
  {
    var places := Reached(h, actions);
    hide Apply, Enabled, LogInv, RunsInv, RowsInv, QueueInv;
    var s := Exec(h, INITIAL, actions);
    forall id | id in s.unqueued
      ensures id < |s.trail.events|
    {
      assert PlacedAt(places, id, Unqueued);
    }
  }

  lemma {:induction false} OneAction(h: Hash, s: State, a: Action)
    requires Enabled(s, a)
    ensures ValidRun(h, s, [a]) && Exec(h, s, [a]) == Apply(h, s, a)
  {
    hide Enabled, Apply;
    assert [a][1..] == [];
    assert ValidRun(h, Apply(h, s, a), []);
  }

  lemma {:induction false} TwoActions(h: Hash, s: State, a: Action, b: Action)
    requires Enabled(s, a) && Enabled(Apply(h, s, a), b)
    ensures ValidRun(h, s, [a, b]) && Exec(h, s, [a, b]) == Apply(h, Apply(h, s, a), b)
  {
    hide Enabled, Apply;
    OneAction(h, s, a);
    OneAction(h, Apply(h, s, a), b);
    ExecSplits(h, s, [a], [b]);
    assert [a] + [b] == [a, b];
  }

  lemma {:induction false} UpdateSteps(h: Hash, s: State, commit: Commit, at: Text, now: real)
    requires NoFutureIds(s)
    ensures var actions := UpdateActions(s, commit, at, now);
            ValidRun(h, s, actions) && Exec(h, s, actions) == WithCore(s, UpdateIn(h, CoreOf(s), commit, at, now).0)
  {
    hide ComputeLeafHash, Sorted, ValidRun, Exec;
    if commit.refs == [] {
      OneAction(h, s, LogPlain(commit.decision, MetricRejected(commit.metric, commit.key, at)));
    } else if Seen(s.trail, Some(commit.key)) {
      OneAction(h, s, AppendCommit(commit, at));
    } else {
      var id := |s.trail.events|;
      var s1 := AppendCommitStep(h, s, commit, at);
      TwoActions(h, s, AppendCommit(commit, at), Enqueue(id, now));
      assert s1.unqueued - {id} == s.unqueued;
    }
  }

  /** The state is where some run of the system from its start ends. */
  ghost predicate Reachable(h: Hash, s: State) {
    exists actions :: ValidRun(h, INITIAL, actions) && Exec(h, INITIAL, actions) == s
  }

  lemma {:induction false} ReachedFurther(h: Hash, s: State, actions: seq<Action>)
    requires Reachable(h, s) && ValidRun(h, s, actions)
    ensures Reachable(h, Exec(h, s, actions))
  {
    hide ValidRun, Exec;
    var before :| ValidRun(h, INITIAL, before) && Exec(h, INITIAL, before) == s;
    ExecSplits(h, INITIAL, before, actions);
  }

  /** In every reachable state an uninterrupted update does to the system exactly what it does to its
      own part of it, and reaches a state again. */
  lemma {:induction false} UpdateIsARun(h: Hash, s: State, commit: Commit, at: Text, now: real)
    requires Reachable(h, s)
    ensures var actions := UpdateActions(s, commit, at, now);
            ValidRun(h, s, actions) && Exec(h, s, actions) == WithCore(s, UpdateIn(h, CoreOf(s), commit, at, now).0)
    ensures Reachable(h, WithCore(s, UpdateIn(h, CoreOf(s), commit, at, now).0))
  {
    hide ValidRun, Exec, UpdateIn, UpdateActions, NoFutureIds;
    var before :| ValidRun(h, INITIAL, before) && Exec(h, INITIAL, before) == s;
    ReachableHasNoFutureIds(h, before);
    UpdateSteps(h, s, commit, at, now);
    ReachedFurther(h, s, UpdateActions(s, commit, at, now));
  }

  /** So does the handling of a ReconciledDecision. */
  lemma {:induction false} ReconciledIsARun(h: Hash, s: State, commit: Commit, payload: map<Text, Text>, at: Text, now: real) returns (actions: seq<Action>)
    requires Reachable(h, s)
    ensures ValidRun(h, s, actions) && Exec(h, s, actions) == WithCore(s, ReconciledIn(h, CoreOf(s), commit, payload, at, now))
    ensures Reachable(h, WithCore(s, ReconciledIn(h, CoreOf(s), commit, payload, at, now)))
  {
    var key := (commit.decision, commit.metric);
    var first := [Stage(key, ReconciledStage(StageIn(CoreOf(s), key), payload)), LogPlain(commit.decision, ReconciledBody(commit))];
    TwoActions(h, s, first[0], first[1]);
    hide ValidRun, Exec, UpdateIn, Reachable;
    var s2 := Exec(h, s, first);
    ReachedFurther(h, s, first);
    UpdateIsARun(h, s2, commit, at, now);
    ExecSplits(h, s, first, UpdateActions(s2, commit, at, now));
    actions := first + UpdateActions(s2, commit, at, now);
  }

  /** So do the handlers of the earlier lifecycle events ... */
  lemma {:induction false} LifecycleIsARun(h: Hash, s: State, decision: Text, body: Body, payload: map<Text, Text>) returns (actions: seq<Action>)
    requires body.MetricProposed? || body.DebateOutcome? || body.RiskSignal?
    ensures ValidRun(h, s, actions)
    ensures body.MetricProposed? ==> Exec(h, s, actions) == WithCore(s, ProposedIn(CoreOf(s), decision, body, payload))
    ensures body.DebateOutcome? ==> Exec(h, s, actions) == WithCore(s, DebatedIn(CoreOf(s), decision, body, payload))
    ensures body.RiskSignal? ==> Exec(h, s, actions) == WithCore(s, CritiquedIn(CoreOf(s), decision, body))
  {
    hide ValidRun, Exec;
    var key := (decision, body.metric);
    var stage := StageIn(CoreOf(s), key);
    var info :=
      if body.MetricProposed? then StageInfo(Proposed, None, None, payload)
      else if body.DebateOutcome? then stage.(status := Debated, copied := stage.copied + payload)
      else stage.(status := Critiqued, riskLevel := Some(body.category));
    TwoActions(h, s, Stage(key, info), LogPlain(decision, body));
    actions := [Stage(key, info), LogPlain(decision, body)];
  }

  /** ... and those that only append: supersessions and plain recordings. */
  lemma {:induction false} RecordingIsARun(h: Hash, s: State, decision: Text, body: Body) returns (actions: seq<Action>)
    requires body.MetricSuperseded? || body.OtherEvent?
    ensures ValidRun(h, s, actions) && Exec(h, s, actions) == WithCore(s, LogIn(CoreOf(s), decision, body))
  {
    hide ValidRun, Exec;
    var a := if body.MetricSuperseded? then LogSupersede(decision, body) else LogPlain(decision, body);
    OneAction(h, s, a);
    actions := [a];
  }

  // ---- One uninterrupted handling ------------------------------------------------------------------

  /** A seen key makes an update do nothing at all. */
  lemma {:induction false} SeenKeyIsIgnored(h: Hash, c: Core, commit: Commit, at: Text, now: real)
    requires commit.refs != [] && commit.key in c.trail.index
    ensures UpdateIn(h, c, commit, at, now) == (c, UpdateResult(DuplicateIgnored, None))
  {
    hide ComputeLeafHash;
  }

  /** An update is accepted exactly when it has evidence and its key is new. */
  lemma {:induction false} AcceptedIffNewWithEvidence(h: Hash, c: Core, commit: Commit, at: Text, now: real)
    ensures var r := UpdateIn(h, c, commit, at, now).1.status;
            && (r == Accepted <==> commit.refs != [] && commit.key !in c.trail.index)
            && (r == RejectedMissingEvidence <==> commit.refs == [])
            && (r == Accepted ==> commit.key in UpdateIn(h, c, commit, at, now).0.trail.index)
            && (r != Accepted ==> UpdateIn(h, c, commit, at, now).0.pending == c.pending)
  {
    hide ComputeLeafHash;
  }
}
