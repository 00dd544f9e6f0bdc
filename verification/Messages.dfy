/** The deployment messages that the panel and an agent exchange. */
module Messages {
  datatype Phase = Prepare | Apply | Rollback

  // The states of one node inside a release. Acknowledgements use four of them.
  datatype NodeStatus = Pending | Prepared | Active | Applied | RollbackPending | RolledBack | Failed

  // The configuration of one node: the empty one, or a compiled draft.
  datatype Topology = Direct(node: int) | Routed(node: int, draft: int)

  // A content hash of a rendered runtime document.
  type Version = int

  datatype PendingDeployment = PendingDeployment(release: int, phase: Phase, generation: int)

  datatype Document = Document(release: int, generation: int, phase: Phase, version: Version)

  datatype Ack = Ack(release: int, node: int, generation: int, phase: Phase, version: Version, status: NodeStatus, hasErrorCode: bool)

  function SuccessStatus(phase: Phase): NodeStatus {
    match phase
    case Prepare => Prepared
    case Apply => Applied
    case Rollback => RolledBack
  }

  // Identities are positive, a failure carries an error code, and a success names the status of its own phase.
  predicate ValidAck(ack: Ack) {
    && ack.release > 0 && ack.node > 0 && ack.generation > 0
    && ack.status in {Prepared, Applied, RolledBack, Failed}
    && (ack.status == Failed ==> ack.hasErrorCode)
    && (ack.status != Failed ==> ack.status == SuccessStatus(ack.phase))
  }

  predicate ValidPending(pending: PendingDeployment) {
    pending.release > 0 && pending.generation > 0
  }
}
