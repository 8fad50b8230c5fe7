/** The commit and anchor protocol as a transition system. Every `await` is an interleaving
    point and a possible failure point, so each action below is one uninterrupted segment. */
module System {
  import opened Basics
  import opened Texts
  import opened Merkle
  import opened MerkleBatches
  import opened LeafHash
  import opened Events
  import opened AuditTrail

  datatype MetricStatus = Proposed | Debated | Critiqued | Reconciled | Committed | Rejected | Superseded

  /** A staging entry: what the handlers set, and the payload fields copied along. */
  datatype StageInfo = StageInfo(status: MetricStatus, leafHash: Option<Digest>, riskLevel: Option<Text>, copied: map<Text, Text>)

  const EMPTY_STAGE := StageInfo(Proposed, None, None, map[])

  /** A proof-lookup row, stored under the leaf hash. */
  datatype Row = Row(leafHash: Digest, path: seq<ProofStep>, root: Bytes, signature: Bytes, stamp: Text, batch: nat)

  /** Where an anchor run stands: waiting for the time stamp, about to write row `next`, about
      to publish for the system or for decision `next`, about to mark, finished. */
  datatype Phase = Stamping | Writing(next: nat) | PublishingSystem | Publishing(next: nat) | Marking | Done

  /** One anchor run; its batch id is its position. */
  datatype Run = Run(leaves: seq<PendingLeaf>, signature: Bytes, stamp: Text, phase: Phase, failed: bool)

  /** `unqueued`: appended, the handler not yet back from its append. `abandoned`: the handler died there. */
  datatype State = State(
    trail: Trail, pending: seq<PendingLeaf>, firstTs: Option<real>, staging: map<(Text, Text), StageInfo>,
    rows: map<Digest, Row>, unqueued: set<nat>, abandoned: set<nat>, runs: seq<Run>)

  const INITIAL := State(EMPTY_TRAIL, [], None, map[], map[], {}, {}, [])

  /** The decision id "system". */
  const SYSTEM: Text := [0x73, 0x79, 0x73, 0x74, 0x65, 0x6d]

  datatype Commit = Commit(decision: Text, metric: Text, value: Value, refs: seq<Text>, key: Text, proposedBy: Text)

  datatype Action =
    | Stage(stageKey: (Text, Text), info: StageInfo)
    | LogPlain(decision: Text, body: Body)
    | LogSupersede(decision: Text, body: Body)
    | AppendCommit(commit: Commit, at: Text)
    | Enqueue(id: nat, now: real)
    | Abandon(id: nat)
    | Take(signature: Bytes)
    | ReceiveStamp(batch: nat, stamp: Text)
    | WriteRow(batch: nat)
    | PublishSystem(batch: nat)
    | PublishDecision(batch: nat)
    | MarkDone(batch: nat)
    | FailRun(batch: nat)

  // ---- Runs ---------------------------------------------------------------------------

  function DecisionsOf(leaves: seq<PendingLeaf>): (decisions: seq<Text>)
    ensures |decisions| == |leaves|
    ensures forall i :: 0 <= i < |leaves| ==> decisions[i] == leaves[i].decision
  {
    seq(|leaves|, i requires 0 <= i < |leaves| => leaves[i].decision)
  }

  function Ids(leaves: seq<PendingLeaf>): (ids: seq<nat>)
    ensures |ids| == |leaves|
    ensures forall i :: 0 <= i < |leaves| ==> ids[i] == leaves[i].eventId
  {
    seq(|leaves|, i requires 0 <= i < |leaves| => leaves[i].eventId)
  }

  function Decisions(r: Run): seq<Text> {
    SortedUnique(DecisionsOf(r.leaves))
  }

  function RunRoot(h: Hash, r: Run): Bytes
    requires r.leaves != []
  {
    Root(h, LeafHashes(r.leaves))
  }

  function RowFor(h: Hash, r: Run, batch: nat, i: nat): Row
    requires i < |r.leaves|
  {
    Row(r.leaves[i].leafHash, ProofFor(h, LeafHashes(r.leaves), i), RunRoot(h, r), r.signature, r.stamp, batch)
  }

  function RootBody(h: Hash, r: Run, batch: nat): Body
    requires r.leaves != []
  {
    MerkleRootPublished(batch, RunRoot(h, r), |r.leaves|, r.signature, r.stamp)
  }

  /** How many rows a run has written, and for how many decisions it has published. */
  function Written(r: Run): nat {
    match r.phase
    case Stamping => 0
    case Writing(next) => next
    case _ => |r.leaves|
  }

  function Announced(r: Run): nat {
    match r.phase
    case Publishing(next) => next
    case Marking => |Decisions(r)|
    case Done => |Decisions(r)|
    case _ => 0
  }

  predicate Active(s: State, batch: nat) {
    batch < |s.runs| && !s.runs[batch].failed && s.runs[batch].leaves != []
  }

  // ---- Steps -----------------------------------------------------------------------------

  predicate IsPlain(body: Body) {
    KeyOf(body).None? && !body.MerkleRootPublished?
  }

  predicate Enabled(s: State, a: Action) {
    match a
    case Stage(_, _) => true
    case LogPlain(_, body) => IsPlain(body)
    case LogSupersede(_, body) => body.MetricSuperseded?
    case AppendCommit(commit, _) => commit.refs != []
    case Enqueue(id, _) => id in s.unqueued && id < |s.trail.events| && s.trail.events[id].body.MetricCommitted?
    case Abandon(id) => id in s.unqueued
    case Take(_) => s.pending != []
    case ReceiveStamp(b, _) => Active(s, b) && s.runs[b].phase.Stamping?
    case WriteRow(b) => Active(s, b) && s.runs[b].phase.Writing? && s.runs[b].phase.next < |s.runs[b].leaves|
    case PublishSystem(b) => Active(s, b) && s.runs[b].phase.PublishingSystem?
    case PublishDecision(b) =>
      Active(s, b) && s.runs[b].phase.Publishing? && s.runs[b].phase.next < |Decisions(s.runs[b])|
    case MarkDone(b) => Active(s, b) && s.runs[b].phase.Marking?
    case FailRun(b) => Active(s, b) && !s.runs[b].phase.Done?
  }

  function CommitFields(c: Commit, at: Text): LeafFields {
    LeafFields(c.decision, c.metric, c.value.json, at, c.refs, c.key)
  }

  function CommitBody(h: Hash, c: Commit, at: Text): Body {
    MetricCommitted(c.metric, c.value, Sorted(c.refs), c.key, ComputeLeafHash(h, CommitFields(c, at)), at, c.proposedBy)
  }

  function LeafOf(e: Event): PendingLeaf
    requires e.body.MetricCommitted?
  {
    PendingLeaf(e.body.leafHash, e.id, e.decision)
  }

  function StageOf(s: State, key: (Text, Text)): StageInfo {
    if key in s.staging then s.staging[key] else EMPTY_STAGE
  }

  function WithPhase(s: State, batch: nat, phase: Phase): State
    requires batch < |s.runs|
  {
    s.(runs := s.runs[batch := s.runs[batch].(phase := phase)])
  }

  function Logged(s: State, decision: Text, body: Body): State {
    s.(trail := Append(s.trail, decision, body, KeyOf(body)).0)
  }

  /** The append of a commit: a seen key changes nothing at all. */
  function AppendCommitStep(h: Hash, s: State, c: Commit, at: Text): State {
    var (trail, result) := Append(s.trail, c.decision, CommitBody(h, c, at), Some(c.key));
    if result.deduplicated then s else s.(trail := trail, unqueued := s.unqueued + {result.id})
  }

  /** The handler after its append returned: the leaf is queued and the staging entry set. */
  function EnqueueStep(s: State, id: nat, now: real): State
    requires id < |s.trail.events| && s.trail.events[id].body.MetricCommitted?
  {
    var e := s.trail.events[id];
    var key := (e.decision, e.body.metric);
    s.(unqueued := s.unqueued - {id},
       pending := s.pending + [LeafOf(e)],
       firstTs := if s.firstTs.None? then Some(now) else s.firstTs,
       staging := s.staging[key := StageOf(s, key).(status := Committed, leafHash := Some(e.body.leafHash))])
  }

  function WriteRowStep(h: Hash, s: State, b: nat): State
    requires b < |s.runs| && s.runs[b].phase.Writing? && s.runs[b].phase.next < |s.runs[b].leaves|
  {
    var r := s.runs[b];
    var i := r.phase.next;
    WithPhase(s.(rows := s.rows[r.leaves[i].leafHash := RowFor(h, r, b, i)]), b,
              if i + 1 < |r.leaves| then Writing(i + 1) else PublishingSystem)
  }

  function PublishDecisionStep(h: Hash, s: State, b: nat): State
    requires b < |s.runs| && s.runs[b].phase.Publishing? && s.runs[b].phase.next < |Decisions(s.runs[b])|
    requires s.runs[b].leaves != []
  {
    var r := s.runs[b];
    var i := r.phase.next;
    WithPhase(Logged(s, Decisions(r)[i], RootBody(h, r, b)), b,
              if i + 1 < |Decisions(r)| then Publishing(i + 1) else Marking)
  }

  function Apply(h: Hash, s: State, a: Action): State
    requires Enabled(s, a)
  {
    match a
    case Stage(key, info) => s.(staging := s.staging[key := info])
    case LogPlain(decision, body) => Logged(s, decision, body)
    case LogSupersede(decision, body) => Logged(s, decision, body)
    case AppendCommit(commit, at) => AppendCommitStep(h, s, commit, at)
    case Enqueue(id, now) => EnqueueStep(s, id, now)
    case Abandon(id) => s.(unqueued := s.unqueued - {id}, abandoned := s.abandoned + {id})
    case Take(signature) =>
      s.(pending := [], firstTs := None, runs := s.runs + [Run(s.pending, signature, [], Stamping, false)])
    case ReceiveStamp(b, stamp) =>
      s.(runs := s.runs[b := s.runs[b].(stamp := stamp, phase := Writing(0))])
    case WriteRow(b) => WriteRowStep(h, s, b)
    case PublishSystem(b) => WithPhase(Logged(s, SYSTEM, RootBody(h, s.runs[b], b)), b, Publishing(0))
    case PublishDecision(b) => PublishDecisionStep(h, s, b)
    case MarkDone(b) =>
      WithPhase(s.(trail := MarkBatched(s.trail, Ids(s.runs[b].leaves))), b, Done)
    case FailRun(b) => s.(runs := s.runs[b := s.runs[b].(failed := true)])
  }

  // ---- Runs of the system ---------------------------------------------------------------------

  predicate ValidRun(h: Hash, s: State, actions: seq<Action>)
    decreases |actions|
  {
    actions != [] ==> Enabled(s, actions[0]) && ValidRun(h, Apply(h, s, actions[0]), actions[1..])
  }

  function Exec(h: Hash, s: State, actions: seq<Action>): State
    requires ValidRun(h, s, actions)
    decreases |actions|
  {
    if actions == [] then s else Exec(h, Apply(h, s, actions[0]), actions[1..])
  }

  lemma {:induction false} ExecSplits(h: Hash, s: State, first: seq<Action>, then_: seq<Action>)
    requires ValidRun(h, s, first) && ValidRun(h, Exec(h, s, first), then_)
    ensures ValidRun(h, s, first + then_)
    ensures Exec(h, s, first + then_) == Exec(h, Exec(h, s, first), then_)
    decreases |first|
  {
    hide Enabled, Apply;
    if first == [] {
      assert first + then_ == then_;
    } else {
      assert (first + then_)[1..] == first[1..] + then_;
      ExecSplits(h, Apply(h, s, first[0]), first[1..], then_);
    }
  }
}
