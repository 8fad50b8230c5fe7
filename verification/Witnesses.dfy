/** Runs of the whole system on which an expectation fails: a proof row overwritten without any hash
    collision, and commits that replay no longer sees. */
module Witnesses {
  import opened Basics
  import opened Texts
  import opened MerkleBatches
  import opened LeafHash
  import opened Events
  import opened AuditTrail
  import opened System
  import opened CommandHandlers
  import opened AnchorServices
  import opened Replay
  import opened Projector

  // ---- A row overwritten ------------------------------------------------------------------------------

  function LeafHashOf(h: Hash, commit: Commit, at: Text): Digest {
    ComputeLeafHash(h, CommitFields(commit, at))
  }

  lemma {:induction false} PublishingKeepsIndex(t: Trail, decisions: seq<Text>, body: Body, k: nat)
    requires k <= |decisions|
    ensures PublishedAfter(t, decisions, body, k).index == t.index
    decreases k
  {
    if k > 0 {
      PublishingKeepsIndex(t, decisions, body, k - 1);
    }
  }

  lemma {:induction false} AnchoringKeepsIndex(h: Hash, t: Trail, r: Run, batch: nat)
    requires r.leaves != []
    ensures AnchoredTrail(h, t, r, batch).index == t.index
  {
    var body := RootBody(h, r, batch);
    PublishingKeepsIndex(Append(t, SYSTEM, body, None).0, Decisions(r), body, |Decisions(r)|);
  }

  /** With nothing pending, a new commit is accepted and anchored alone, in a batch of its own. */
  lemma {:induction false} CommitAndAnchor(h: Hash, s: State, commit: Commit, at: Text) returns (actions: seq<Action>)
    requires Reachable(h, s) && s.pending == [] && commit.refs != [] && commit.key !in s.trail.index
    ensures ValidRun(h, s, actions)
    ensures var s' := Exec(h, s, actions);
            var k := LeafHashOf(h, commit, at);
            && Reachable(h, s') && s'.pending == [] && |s'.runs| == |s.runs| + 1
            && s'.trail.index == s.trail.index[commit.key := |s.trail.events|]
            && s'.rows.Keys == s.rows.Keys + {k} && s'.rows[k].batch == |s.runs|
  {
    hide ValidRun, Exec, Reachable, ComputeLeafHash, AnchoredTrail;
    var first := UpdateActions(s, commit, at, 0.0);
    UpdateIsARun(h, s, commit, at, 0.0);
    var s1 := Exec(h, s, first);
    var second := AnchoringIsARun(h, s1, [], []);
    ReachedFurther(h, s1, second);
    ExecSplits(h, s, first, second);
    actions := first + second;
    var r := Run(s1.pending, [], [], Done, false);
    assert s1.pending == [PendingLeaf(LeafHashOf(h, commit, at), |s.trail.events|, commit.decision)];
    AnchoringKeepsIndex(h, s1.trail, r, |s1.runs|);
    OneRow(h, s1.rows, r, |s1.runs|);
  }

  lemma {:induction false} OneRow(h: Hash, rows: map<Digest, Row>, r: Run, batch: nat)
    requires |r.leaves| == 1
    ensures RowsAfter(h, rows, r, batch, 1) == rows[r.leaves[0].leafHash := RowFor(h, r, batch, 0)]
  {
    assert RowsAfter(h, rows, r, batch, 0) == rows;
  }

  /** Why keys must not hold the separator: in every reachable state with nothing pending, and for every
      hash, take two commits with new keys whose refs and keys differ only in where the '|' falls.
      Both are accepted and anchored, and the second one's row replaces the first one's. */
  lemma {:induction false} PipeInKeyOverwritesRow(h: Hash, s: State, commit: Commit, ref: Text, x: Text, at: Text)
      returns (first: seq<Action>, second: seq<Action>)
    requires Reachable(h, s) && s.pending == []
    requires commit.refs == [ref + [PIPE] + x]
    requires commit.key !in s.trail.index && x + [PIPE] + commit.key !in s.trail.index
    ensures ValidRun(h, s, first) && ValidRun(h, Exec(h, s, first), second)
    ensures var s1 := Exec(h, s, first);
            var s2 := Exec(h, s1, second);
            var other := commit.(refs := [ref], key := x + [PIPE] + commit.key);
            var k := LeafHashOf(h, commit, at);
            && commit.key in s1.trail.index && other.key in s2.trail.index && other.key != commit.key
            && Payload(CommitFields(other, at)) == Payload(CommitFields(commit, at))
            && k in s1.rows && k in s2.rows && s1.rows[k].batch == |s.runs| && s2.rows[k].batch == |s.runs| + 1
  {
    hide ValidRun, Exec, Reachable, Payload;
    var other := commit.(refs := [ref], key := x + [PIPE] + commit.key);
    PipeInKeyIsAmbiguous(ref, x, commit.key, CommitFields(commit, at));
    first := CommitAndAnchor(h, s, commit, at);
    second := CommitAndAnchor(h, Exec(h, s, first), other, at);
  }

  // ---- Commits that replay does not see -----------------------------------------------------------------

  /** Once a supersession of a known metric is in a decision's stream, an accepted update of that
      decision is logged and queued for anchoring, but no rebuilt record ever shows it. */
  lemma {:induction false} CommitsAfterCutAreInvisible(h: Hash, s: State, commit: Commit, at: Text, now: real)
    requires Reachable(h, s) && HasCut(Stream(s.trail, commit.decision))
    requires UpdateIn(h, CoreOf(s), commit, at, now).1.status == Accepted
    ensures var c := UpdateIn(h, CoreOf(s), commit, at, now).0;
            var d := commit.decision;
            && |c.pending| == |s.pending| + 1 && |Stream(c.trail, d)| == |Stream(s.trail, d)| + 1
            && HasCut(Stream(c.trail, d))
            && Reconstruct(d, Stream(c.trail, d)) == Reconstruct(d, Stream(s.trail, d))
  {
    hide CommitBody, Reconstruct, HasCut, Reachable;
    var stream := Stream(s.trail, commit.decision);
    var e := Event(|s.trail.events|, commit.decision, CommitBody(h, commit, at));
    ReconstructAppend(commit.decision, stream, e);
    CutStays(stream, e);
  }

  lemma {:induction false} CutStays(events: seq<Event>, e: Event)
    requires HasCut(events)
    ensures HasCut(events + [e])
  {
    var i :| 0 <= i < |events| && IsCut(events, i);
    assert (events + [e])[..i] == events[..i] && (events + [e])[i] == events[i];
    assert IsCut(events + [e], i);
  }

  /** The early return loses commits on real logs: superseding one metric of a decision hides the first
      commit of another. No key repeats, so the full replay is what the log means. */
  lemma {:induction false} EarlyReturnLosesCommits(h: Hash, a: Commit, superseding: Text, b: Commit, at: Text) returns (actions: seq<Action>)
    requires a.refs != [] && b.refs != [] && a.decision == b.decision && a.metric != b.metric
    requires a.key != superseding && a.key != b.key && superseding != b.key
    ensures ValidRun(h, INITIAL, actions)
    ensures var stream := Stream(Exec(h, INITIAL, actions).trail, a.decision);
            && KeysDistinct(stream) && b.metric !in Reconstruct(a.decision, stream)
            && b.metric in FullReplay(a.decision, stream)
            && FullReplay(a.decision, stream)[b.metric].status == Committed
            && FullReplay(a.decision, stream)[b.metric].key == b.key
  {
    hide ValidRun, Exec, Reachable, ComputeLeafHash, Sorted;
    var d := a.decision;
    var sup := MetricSuperseded(a.metric, [], [], superseding, at);
    InitialIsReachable(h);
    var one := UpdateActions(INITIAL, a, at, 0.0);
    UpdateIsARun(h, INITIAL, a, at, 0.0);
    var s1 := Exec(h, INITIAL, one);
    var two := RecordingIsARun(h, s1, d, sup);
    ReachedFurther(h, s1, two);
    var s2 := Exec(h, s1, two);
    UpdateIsARun(h, s2, b, at, 0.0);
    var three := UpdateActions(s2, b, at, 0.0);
    ExecSplits(h, INITIAL, one, two);
    ExecSplits(h, INITIAL, one + two, three);
    actions := one + two + three;
    StreamKeysAreDistinct(h, actions, d);
    var ea, es, eb := Event(0, d, CommitBody(h, a, at)), Event(1, d, sup), Event(2, d, CommitBody(h, b, at));
    assert Stream(Exec(h, INITIAL, actions).trail, d) == [ea] + [es] + [eb];
    SupersededThenCommitted(d, ea, es, eb);
  }

  lemma {:induction false} InitialIsReachable(h: Hash)
    ensures Reachable(h, INITIAL)
  {
    assert ValidRun(h, INITIAL, []) && Exec(h, INITIAL, []) == INITIAL;
  }

  lemma {:induction false} SupersededThenCommitted(d: Text, ea: Event, es: Event, eb: Event)
    requires ea.body.MetricCommitted? && es.body.MetricSuperseded? && eb.body.MetricCommitted?
    requires ea.body.metric == es.body.metric != eb.body.metric
    ensures var events := [ea] + [es] + [eb];
            && eb.body.metric !in Reconstruct(d, events)
            && eb.body.metric in FullReplay(d, events) && FullReplay(d, events)[eb.body.metric] == FromCommit(d, eb)
  {
    var two := [ea] + [es];
    assert Mentions(two[..1][0], ea.body.metric);
    assert IsCut(two, 1);
    ReconstructAppend(d, two, eb);
    ReconstructAppend(d, [ea], es);
    ReconstructAppend(d, [], ea);
    assert [] + [ea] == [ea];
    assert !HasCut([ea]) by {
      assert !IsCut([ea], 0);
    }
    assert Reconstruct(d, []) == map[];
    assert (two + [eb])[..2] == two;
  }
}
