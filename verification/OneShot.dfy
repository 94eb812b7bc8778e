/** The candidate owner's mutable session: each locked section does what the protocol says. */
module OneShot {
  import opened Basics
  import Protocol = OneShotSpec

  class AuthenticatedStandardCandidate {
    var generation: nat
    var currentTrack: Option<nat>
    var captureConsumed: bool
    var stage1Consumed: bool
    var stage2Consumed: bool
    var halted: bool

    ghost function View(): Protocol.Session
      reads this
    {
      Protocol.Session(generation, currentTrack, captureConsumed, stage1Consumed, stage2Consumed, halted)
    }

    constructor ()
      ensures View() == Protocol.NEW.session
    {
      generation, currentTrack := 0, None;
      captureConsumed, stage1Consumed, stage2Consumed, halted := false, false, false, false;
    }

    method Clear()
      modifies this
      ensures View() == Protocol.Clear(old(View()))
    {
      generation := generation + 1;
      currentTrack := None;
    }

    method BeginCapture(track: nat) returns (verdict: Protocol.Verdict)
      modifies this
      ensures (View(), verdict) == Protocol.BeginCapture(old(View()), track)
    {
      if halted {
        return Protocol.Refused(Protocol.RiskControl);
      }
      if captureConsumed {
        return Protocol.Refused(Protocol.AttemptConsumed);
      }
      captureConsumed := true;
      currentTrack := Some(track);
      return Protocol.Admitted;
    }

    method RequireCurrent(began: nat, track: nat) returns (verdict: Protocol.Verdict)
      ensures verdict == Protocol.Current(View(), began, track)
    {
      if generation != began || currentTrack != Some(track) {
        return Protocol.Refused(Protocol.Replaced);
      }
      if halted {
        return Protocol.Refused(Protocol.RiskControl);
      }
      return Protocol.Admitted;
    }

    /** First half of `resolve_stage1_once`, before its await. */
    method StartStage1(began: nat, track: nat) returns (verdict: Protocol.Verdict)
      modifies this
      ensures (View(), verdict) == Protocol.StartStage1(old(View()), began, track)
    {
      verdict := RequireCurrent(began, track);
      if verdict.Admitted? {
        if stage1Consumed || stage2Consumed {
          return Protocol.Refused(Protocol.AttemptConsumed);
        }
        stage1Consumed := true;
      }
    }

    method FinishStage1(began: nat, track: nat, answer: Protocol.Answer) returns (verdict: Protocol.Verdict)
      modifies this
      ensures (View(), verdict) == Protocol.FinishStage1(old(View()), began, track, answer)
    {
      if generation != began || currentTrack != Some(track) {
        return Protocol.Refused(Protocol.Replaced);
      }
      if answer.Failed? {
        if answer.error == Protocol.RiskControl || answer.error == Protocol.RateLimited {
          halted := true;
        }
        return Protocol.Refused(answer.error);
      }
      if answer.Direct? {
        stage2Consumed := true;
      }
      return Protocol.Admitted;
    }

    /** First half of `resolve_captured_once`, before its await. */
    method StartFinal(began: nat, track: nat) returns (verdict: Protocol.Verdict)
      modifies this
      ensures (View(), verdict) == Protocol.StartFinal(old(View()), began, track)
    {
      verdict := RequireCurrent(began, track);
      if verdict.Admitted? {
        if stage2Consumed {
          return Protocol.Refused(Protocol.AttemptConsumed);
        }
        stage2Consumed := true;
      }
    }

    method FinishFinal(began: nat, track: nat, answer: Protocol.Answer) returns (verdict: Protocol.Verdict)
      modifies this
      ensures (View(), verdict) == Protocol.FinishFinal(old(View()), began, track, answer)
    {
      if generation != began || currentTrack != Some(track) {
        return Protocol.Refused(Protocol.Replaced);
      }
      if answer.Failed? {
        if answer.error == Protocol.RiskControl || answer.error == Protocol.RateLimited {
          halted := true;
        }
        return Protocol.Refused(answer.error);
      }
      if answer.Encoded? {
        return Protocol.Refused(Protocol.OtherFailure);
      }
      return Protocol.Admitted;
    }

    method State() returns (state: Protocol.State)
      ensures state == Protocol.StateOf(View())
    {
      if halted {
        return Protocol.Halted;
      }
      if currentTrack.None? {
        return Protocol.Missing;
      }
      if stage2Consumed {
        return Protocol.Spent;
      }
      return Protocol.Pending;
    }
  }
}
