/** The events of the audit trail, with typed payloads. */
module Events {
  import opened Basics
  import opened LeafHash

  /** A metric value: its canonical JSON text, and its numeric reading if it is a number. */
  datatype Value = Value(json: Text, number: Option<real>)

  datatype Body =
    | MetricCommitted(metric: Text, value: Value, refs: seq<Text>, key: Text, leafHash: Digest, committedAt: Text, proposedBy: Text)
    | MetricRejected(metric: Text, key: Text, occurredAt: Text)
    | MetricSuperseded(metric: Text, originalLeaf: Text, newRiskContext: Text, key: Text, occurredAt: Text)
    | MerkleRootPublished(batch: nat, root: Bytes, leafCount: nat, signature: Bytes, stamp: Text)
    | MetricProposed(metric: Text, value: Value, key: Text)
    | DebateOutcome(metric: Text, consensus: Value)
    | RiskSignal(metric: Text, category: Text, severity: real)
    | ReconciledDecision(metric: Text, finalValue: Value, refs: seq<Text>, key: Text, proposedBy: Text)
    | OtherEvent(eventType: Text, payload: Text)

  /** uuid4 identifiers are fresh names; here an event's id is its position in the log. */
  datatype Event = Event(id: nat, decision: Text, body: Body)

  /** The idempotency key an event is appended under. */
  function KeyOf(body: Body): Option<Text> {
    match body
    case MetricCommitted(_, _, _, key, _, _, _) => Some(key)
    case MetricSuperseded(_, _, _, key, _) => Some(key)
    case _ => None
  }

  /** The stored fields of a commit. */
  function FieldsOf(e: Event): LeafFields
    requires e.body.MetricCommitted?
  {
    LeafFields(e.decision, e.body.metric, e.body.value.json, e.body.committedAt, e.body.refs, e.body.key)
  }
}
