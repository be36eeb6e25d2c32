/** The coordinator's hold on a received capture. Committing is explicit and
    single-use; it rereads every byte of the held snapshot first. */
module Transfer {
  import opened Text
  import opened Archive

  datatype Stage = Captured | Delivered

  datatype Response = Response(job: string, binding: string, stage: Stage, members: seq<Member>, artifact: Artifact)

  datatype Acknowledgement = Acknowledgement(job: string, binding: string, sha: string)

  class AuxiliaryTransfer {
    // What the caller sees, and may change, and the private copies that decide.
    var response: Response
    var snapshot: Bytes
    var captured: Response
    var held: Bytes
    var attempted: bool
    var closed: bool
    ghost var sent: seq<Acknowledgement>

    /** At most one acknowledgement ever leaves, only in an attempt, and it names the held capture. */
    ghost predicate Valid()
      reads this
    {
      && captured.stage == Captured
      && |sent| <= 1
      && (sent != [] ==> attempted && sent[0] == Acknowledgement(captured.job, captured.binding, captured.artifact.sha))
    }

    constructor (r: Response, file: Bytes)
      requires r.stage == Captured
      ensures Valid() && !attempted && !closed && sent == [] && captured == response == r && held == snapshot == file
    {
      response, snapshot, captured, held := r, file, r, file;
      attempted, closed, sent := false, false, [];
    }

    /** Sending may fail before or after the peer could read the frame. */
    method Send(ack: Acknowledgement) returns (ok: bool)
      requires Valid() && attempted && sent == []
        && ack == Acknowledgement(captured.job, captured.binding, captured.artifact.sha)
      modifies this`sent
      ensures Valid() && (ok ==> sent == [ack])
    {
      var left: bool := *;
      if left { sent := [ack]; }
      var reported: bool := *;
      return left && reported;
    }

    /** Commit, given whatever the peer answers (nothing when the connection ends). */
    method Commit(reply: Option<Response>, host: Host) returns (result: Option<Response>)
      requires Valid()
      modifies this`attempted, this`closed, this`sent
      ensures Valid() && attempted == (old(attempted) || !old(closed))
      ensures old(attempted) || old(closed) ==> result.None? && sent == old(sent) && closed == old(closed)
      ensures result.None? && !old(attempted) && !old(closed) ==> closed
      ensures result.Some? ==>
        && !old(attempted) && !closed
        && reply == result && result == Some(captured.(stage := Delivered))
        && sent == [Acknowledgement(captured.job, captured.binding, captured.artifact.sha)]
      ensures sent != old(sent) ==>
        && response == captured && snapshot == held
        && MetadataOk(captured.members, captured.artifact) && HeadersFit(captured.members, host)
        && IsArchive(captured.members, held, captured.artifact.sums, host) && host.sha(held) == captured.artifact.sha
    {
      if closed || attempted { return None; }
      attempted := true;
      result := None;
      if response == captured && snapshot == held {
        var valid := ValidateArchive(captured.members, captured.artifact, held, host);
        if valid {
          var ok := Send(Acknowledgement(captured.job, captured.binding, captured.artifact.sha));
          if ok && reply == Some(captured.(stage := Delivered)) { result := reply; }
        }
      }
      if result.None? { Close(); }
    }

    /** Closing is final and says nothing to the peer. */
    method Close()
      requires Valid()
      modifies this`closed
      ensures Valid() && closed
    {
      closed := true;
    }
  }
}
