/** Redelivered commands and events, at any later time and interleaved with anything else. */
module Redelivery {
  import opened Basics
  import opened Events
  import opened AuditTrail
  import opened System
  import opened SystemInvariant
  import opened SystemTheorems
  import opened Replay
  import opened CommandHandlers

  /** The handler's first delivery: the commit was appended in a state the system can reach (or its key
      was known there already), and `later` is whatever happened since. */
  ghost predicate DeliveredBefore(h: Hash, s: State, commit: Commit, at: Text, later: seq<Action>) {
    && Reachable(h, s) && commit.refs != []
    && ValidRun(h, AppendCommitStep(h, s, commit, at), later)
  }

  function StateAfter(h: Hash, s: State, commit: Commit, at: Text, later: seq<Action>): State
    requires ValidRun(h, AppendCommitStep(h, s, commit, at), later)
  {
    Exec(h, AppendCommitStep(h, s, commit, at), later)
  }

  lemma {:induction false} KeyIsKnown(h: Hash, s: State, commit: Commit, at: Text, later: seq<Action>)
    requires DeliveredBefore(h, s, commit, at, later)
    ensures commit.key in StateAfter(h, s, commit, at, later).trail.index
  {
    var earlier :| ValidRun(h, INITIAL, earlier) && Exec(h, INITIAL, earlier) == s;
    var places := Reached(h, earlier);
    var a := AppendCommit(commit, at);
    StepKeepsInv(h, s, places, a);
    assert commit.key in AppendCommitStep(h, s, commit, at).trail.index;
    hide Inv, Apply, Enabled, ValidRun, Exec, AppendCommitStep;
    var places' := RunKeepsInv(h, AppendCommitStep(h, s, commit, at), NextPlaces(s, places, a), later);
    KeyStays(AppendCommitStep(h, s, commit, at), StateAfter(h, s, commit, at, later), commit.key);
  }

  // ---- A redelivered ReconciledDecision ------------------------------------------------------------

  /** One of the actions of handling the ReconciledDecision again: staging, logging or appending. */
  predicate IsRedelivery(a: Action, again: Commit) {
    || (a.Stage? && a.stageKey == (again.decision, again.metric))
    || (a.LogPlain? && a.decision == again.decision && a.body == ReconciledBody(again))
    || (a.AppendCommit? && a.commit == again)
  }

  /** Pending leaves, taken leaves, rows, commits, keys and marks are as they were. */
  ghost predicate CommitsKept(s: State, s': State) {
    && s'.pending == s.pending && s'.firstTs == s.firstTs && s'.runs == s.runs && s'.rows == s.rows
    && s'.unqueued == s.unqueued && s'.abandoned == s.abandoned
    && CommittedIds(s') == CommittedIds(s) && s'.trail.index == s.trail.index && s'.trail.batched == s.trail.batched
  }

  /** Whenever a known commit's ReconciledDecision is delivered again, and whatever runs in between, each
      of its steps leaves the commits and the rebuilt metrics of every decision as they were. */
  lemma {:induction false} RedeliveredReconciliationChangesNothing(
      h: Hash, s0: State, commit: Commit, at: Text, later: seq<Action>, again: Commit, a: Action, decision: Text)
    requires DeliveredBefore(h, s0, commit, at, later)
    requires again.key == commit.key && again.refs != [] && IsRedelivery(a, again)
    ensures var s := StateAfter(h, s0, commit, at, later);
            && Enabled(s, a) && CommitsKept(s, Apply(h, s, a))
            && Reconstruct(decision, Stream(Apply(h, s, a).trail, decision)) == Reconstruct(decision, Stream(s.trail, decision))
  {
    KeyIsKnown(h, s0, commit, at, later);
    hide CommitBody, Reconstruct, ValidRun, Exec;
    var s := StateAfter(h, s0, commit, at, later);
    if a.LogPlain? {
      OtherEventsAreIgnored(decision, Stream(s.trail, decision), Event(|s.trail.events|, a.decision, a.body));
    }
  }

  /** Handled without interruption it adds one log entry and moves the staging entry back to RECONCILED. */
  lemma {:induction false} RedeliveredReconciliationIsLogged(
      h: Hash, s0: State, commit: Commit, at: Text, later: seq<Action>, again: Commit, payload: map<Text, Text>, at': Text, now': real)
    requires DeliveredBefore(h, s0, commit, at, later) && again.key == commit.key && again.refs != []
    ensures var c := CoreOf(StateAfter(h, s0, commit, at, later));
            var key := (again.decision, again.metric);
            ReconciledIn(h, c, again, payload, at', now')
            == LogIn(StagedIn(c, key, ReconciledStage(StageIn(c, key), payload)), again.decision, ReconciledBody(again))
  {
    KeyIsKnown(h, s0, commit, at, later);
    hide CommitBody, ValidRun, Exec;
    var c := CoreOf(StateAfter(h, s0, commit, at, later));
    var key := (again.decision, again.metric);
    var staged := StagedIn(c, key, ReconciledStage(StageIn(c, key), payload));
    SeenKeyIsIgnored(h, LogIn(staged, again.decision, ReconciledBody(again)), again, at', now');
  }

  // ---- A redelivered update ------------------------------------------------------------------------

  /** An update accepted in a reachable state is ignored whenever its key comes again: neither log,
      index, pending leaves nor staging change. */
  lemma {:induction false} AcceptedUpdateIsIgnoredLater(
      h: Hash, s0: State, commit: Commit, at: Text, now: real, later: seq<Action>, again: Commit, at': Text, now': real)
    requires Reachable(h, s0) && UpdateIn(h, CoreOf(s0), commit, at, now).1.status == Accepted
    requires ValidRun(h, WithCore(s0, UpdateIn(h, CoreOf(s0), commit, at, now).0), later)
    requires again.key == commit.key && again.refs != []
    ensures var s := Exec(h, WithCore(s0, UpdateIn(h, CoreOf(s0), commit, at, now).0), later);
            UpdateIn(h, CoreOf(s), again, at', now') == (CoreOf(s), UpdateResult(DuplicateIgnored, None))
  {
    AcceptedIffNewWithEvidence(h, CoreOf(s0), commit, at, now);
    UpdateIsARun(h, s0, commit, at, now);
    hide ValidRun, Exec, UpdateIn, Inv, Apply, Enabled;
    var s1 := WithCore(s0, UpdateIn(h, CoreOf(s0), commit, at, now).0);
    var earlier :| ValidRun(h, INITIAL, earlier) && Exec(h, INITIAL, earlier) == s1;
    var places := Reached(h, earlier);
    var places' := RunKeepsInv(h, s1, places, later);
    KeyStays(s1, Exec(h, s1, later), commit.key);
    SeenKeyIsIgnored(h, CoreOf(Exec(h, s1, later)), again, at', now');
  }
}
