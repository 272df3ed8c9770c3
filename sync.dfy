/**
 * How the client and the server fit together: a relayed edit or creation reproduces the
 * sender's own update on every other editor, and the output pane after a run is decided by
 * the route's answer.
 */
module Sync {
  import opened Wrappers
  import opened Protocol
  import opened FileSet
  import opened ExecuteRoute

  /**
   * An editor that holds the same files as the sender ends with the same files as the sender
   * once it applies the relayed edit.
   */
  lemma EditConverges(files: Files, active: string, value: string, roomId: RoomId)
    requires active in files
    ensures Relayed(CodeChange(roomId, active, value)).Some?
    ensures ApplyRemote(files, Relayed(CodeChange(roomId, active, value)).value) == ApplyEdit(files, active, value)
  {
  }

  /**
   * An editor that holds the same files as the creator ends with the same files once it applies
   * the relayed creation. An editor that already has a file of that name keeps its own.
   */
  lemma CreateConverges(files: Files, name: string, roomId: RoomId)
    requires name !in files
    ensures var f := NewFile(name);
      ApplyRemote(files, Relayed(FileCreated(roomId, name, f.language, f.value)).value) == files[name := f]
  {
  }

  /**
   * The pane after a run, traced through the route: a rejected body or a failed service call
   * shows the failure message; a service answer with a `run` part shows that run; one without
   * it shows the failure message too.
   */
  lemma RunThroughRoute(body: ExecuteBody, piston: PistonRequest -> UpstreamOutcome)
    ensures MissingData(body) ==> RunDisplay(Some(Execute(body, piston))) == (FailureMessage, true)
    ensures !MissingData(body) ==>
      var outcome := piston(BuildRequest(body).value);
      RunDisplay(Some(Execute(body, piston))) ==
        if outcome.UpstreamOk? && outcome.data.run.Some? then ShowRun(outcome.data.run.value) else (FailureMessage, true)
  {
  }
}
