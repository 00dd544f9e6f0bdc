/** The agent's handling of the work that a heartbeat offers it, over its deployment state file. */
module DeploymentAgent {
  import opened Common
  import opened Messages
  import opened ReleaseModel
  import opened ReleaseSystem

  // The panel's answer to the request for the offered work.
  type Answered = Result<Document, Error>

  // What a write of the state file reports, and whether it replaced the file.
  datatype Save = Saved | NotSaved | SavedButReported

  // The document has to be the one that was offered.
  predicate Bound(document: Document, pending: PendingDeployment) {
    document.release == pending.release && document.generation == pending.generation && document.phase == pending.phase
  }

  function OutcomeOf(done: bool, save: Save): Outcome {
    if !done || save == NotSaved then FailedUnsaved else if save == Saved then Worked else FailedSaved
  }

  class DeploymentAgent {
    const node: int
    var stored: Stored

    constructor (node: int)
      ensures this.node == node && stored == NEW_AGENT.stored
    {
      this.node, stored := node, NEW_AGENT.stored;
    }

    // `done` says whether the preparation or the application succeeded, and `save` how the state file was written.
    method HandlePendingDeployment(pending: PendingDeployment, answer: Answered, done: bool, save: Save) returns (ack: Option<Ack>)
      modifies this
      ensures Fenced(old(stored), pending) || answer.Err? || !Bound(answer.value, pending) ==> ack.None? && stored == old(stored)
      ensures !Fenced(old(stored), pending) && answer.Ok? && Bound(answer.value, pending) ==>
        Agent(if ack.Some? then Answering(ack.value) else Idle, stored)
          == Acted(node, Agent(Holding(answer.value), old(stored)), answer.value, OutcomeOf(done, save))
      // It answers exactly the bound document that is neither behind the state file, nor at its generation for another
      // release, nor at its generation to be prepared again.
      ensures ack.Some? <==>
        && old(stored).generation <= pending.generation && answer.Ok? && Bound(answer.value, pending)
        && !(old(stored).generation == pending.generation
             && ((old(stored).release != 0 && old(stored).release != pending.release) || (pending.phase == Prepare && old(stored).phase != Prepare)))
      // The answer says what came of it, and the state file names the work as soon as it was written.
      ensures ack.Some? ==>
        var worked := done && save == Saved;
        var success := match pending.phase { case Prepare => Prepared case Apply => Applied case Rollback => RolledBack };
        ack.value == Ack(pending.release, node, pending.generation, pending.phase, answer.value.version, if worked then success else Failed, !worked)
      ensures stored == if ack.Some? && done && save != NotSaved then Stored(pending.release, pending.generation, pending.phase) else old(stored)
      ensures old(stored).generation <= stored.generation
      ensures ack.Some? && ack.value.status != Failed ==> stored == Stored(pending.release, pending.generation, pending.phase)
    {
      ack := None;
      if pending.generation < stored.generation { return; }
      if answer.Err? || !Bound(answer.value, pending) { return; }
      var document := answer.value;
      if pending.generation == stored.generation && stored.release != 0 && stored.release != pending.release { return; }
      var status := Applied;
      if pending.phase == Prepare {
        if stored.generation == pending.generation && stored.phase != Prepare { return; }
        status := Prepared;
      } else if pending.phase == Rollback {
        status := RolledBack;
      }
      var failed := !done;
      if !failed {
        if save != NotSaved {
          stored := Stored(document.release, document.generation, document.phase);
        }
        failed := save != Saved;
      }
      if failed {
        status := Failed;
      }
      ack := Some(Ack(document.release, node, document.generation, document.phase, document.version, status, failed));
    }
  }

  // What an agent sends is legal, and it is the answer the panel expects for that phase or a failure.
  lemma AnswersAreLegal(node: int, document: Document, outcome: Outcome)
    requires node > 0 && document.release > 0 && document.generation > 0
    ensures ValidAck(Answer(node, document, outcome))
    ensures Answer(node, document, outcome).status in {SuccessStatus(document.phase), Failed}
    ensures Answer(node, document, outcome).status == Failed <==> outcome != Worked
  {
  }
}
