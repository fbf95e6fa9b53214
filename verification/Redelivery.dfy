// A command that was committed but not acknowledged, delivered again while it is still current.
module Redelivery {
  import opened Wrappers
  import opened MachineInts
  import opened Hex
  import opened Calendar
  import opened CommandSecurity
  import opened RemoteSync
  import opened SyncProtocol

  /** The world offers the command again, before both expiries, and no file operation or download fails. */
  predicate Delivers(ex: Exchange, command: PendingCommand, patch: PatchFile) {
    && ex.checkIn.Some? && ex.checkIn.value.pendingCommand == Some(command) && ex.patchReply == Current(patch)
    && ex.firstWriteSucceeds && ex.downloadSucceeds && ex.secondWriteSucceeds
    && var verifiedAt := Later(ex.checkIn.value.serverTime, ex.verifyClock);
    && command.expiresAt.After(verifiedAt) && patch.expiresAt.After(verifiedAt)
    && StillCurrent(command, patch, ex.commandClock, ex.patchClock)
  }

  /** Over the ledger it left itself, an accepted command is accepted again and leaves that ledger. */
  lemma RetryJudged(crypto: Crypto, session: Session, command: PendingCommand, patch: PatchFile, first: DateTime,
                    later: DateTime, ledger: CommandSecurityState)
    requires session.trusted != map[] && command.expiresAt.After(later) && patch.expiresAt.After(later)
    requires VerifyCommandPatch(crypto, session.device, command, patch, first, session.trusted, ledger).Ok?
    ensures var next := AppliedSecurityState(crypto, session.device, ledger, command, patch);
            NextLedger(crypto, session.device, session.trusted, command, patch, later, next) == Ok(next)
  {
    hide VerifyCommandPatch, AppliedSecurityState;
    RetryAcceptedAndIdle(crypto, session.device, command, patch, first, later, session.trusted, ledger);
  }

  /** An undisturbed redelivery succeeds: same ledger, the command's target and reason, and Ok once acknowledged. */
  lemma RedeliveryOutcome(crypto: Crypto, session: Session, command: PendingCommand, patch: PatchFile, first: DateTime,
                          ledger: CommandSecurityState, document: Document, ex: Exchange)
    requires session.trusted != map[] && Delivers(ex, command, patch) && CommandTargetState(command.action).Ok?
    requires VerifyCommandPatch(crypto, session.device, command, patch, first, session.trusted, ledger).Ok?
    requires LoadLedger(document) == Ok(AppliedSecurityState(crypto, session.device, ledger, command, patch))
    ensures var (after, verdict) := Outcome(crypto, session.device, session.trusted, document, ex);
            && after.Saved? && LoadLedger(after) == LoadLedger(document)
            && CommandTargetState(command.action) == Ok(after.state.remote.lockState.state)
            && after.state.remote.lockState.reason == command.reason
            && verdict == if ex.ackSucceeds then Ok(()) else Err(AcknowledgementFailed)
  {
    hide VerifyCommandPatch, AppliedSecurityState, NextLedger, StillCurrent;
    RetryJudged(crypto, session, command, patch, first, Later(ex.checkIn.value.serverTime, ex.verifyClock), ledger);
  }

  /** What is known of a process that has committed a signed command: how it was judged, and what is on disk. */
  lemma CommittedCommand(crypto: Crypto, s: System, p: Pid)
    requires Invariant(crypto, s) && s.PhaseOf(p).CommandSaved? && s.PhaseOf(p).work.session.trusted != map[]
    ensures var saved := s.PhaseOf(p);
            var w, state := saved.work, s.document.state;
            && s.document.Saved?
            && VerifyCommandPatch(crypto, w.session.device, saved.command, saved.patch, saved.clock, w.session.trusted,
                                  w.ledger).Ok?
            && LoadLedger(s.document)
               == Ok(AppliedSecurityState(crypto, w.session.device, w.ledger, saved.command, saved.patch))
            && CommandTargetState(saved.command.action) == Ok(state.remote.lockState.state)
            && state.remote.lockState.reason == saved.command.reason
  {
    hide Judged, VerifyCommandPatch, VerifyPatchBinding, AppliedSecurityState, Extends;
    var saved := s.PhaseOf(p);
    assert PhaseHolds(crypto, s.document, saved);
    JudgedCommits(crypto, saved.work, saved.command, saved.patch, saved.clock, s.document.state.commandSecurity);
  }

  /**
   * A process dies after committing a signed command and before acknowledging it. After any redeliveries,
   * completed, failed or crashed, by any processes, one more delivery of the still current command is accepted,
   * and it ends with the lock free and with the ledger, the lock kind and the reason of the first commit.
   */
  lemma RedeliveryTheorem(crypto: Crypto, s: System, first: Schedule, p: Pid, again: Schedule, q: Pid, ex: Exchange)
    requires Quiescent(s)
    requires Exec(crypto, s, first).PhaseOf(p).CommandSaved?
    requires Exec(crypto, s, first).PhaseOf(p).work.session.trusted != map[]
    requires var saved := Exec(crypto, s, first).PhaseOf(p);
             && (forall step | step in again ::
                   Redelivers(step.1, saved.work.session.device, saved.command, saved.patch))
             && Delivers(ex, saved.command, saved.patch)
    requires Exec(crypto, Step(crypto, Exec(crypto, s, first), p, Crash), again).holder.None?
    ensures var before := Exec(crypto, s, first);
            var between := Exec(crypto, Step(crypto, before, p, Crash), again);
            var session := before.PhaseOf(p).work.session;
            var after := Exec(crypto, between, Script(q, session, ex));
            && before.document.Saved? && after.document.Saved?
            && after.holder.None? && after.PhaseOf(q).Idle?
            && after.document.state.commandSecurity == before.document.state.commandSecurity
            && after.document.state.remote.lockState.state == before.document.state.remote.lockState.state
            && after.document.state.remote.lockState.reason == before.document.state.remote.lockState.reason
            && Outcome(crypto, session.device, session.trusted, between.document, ex).1
               == if ex.ackSucceeds then Ok(()) else Err(AcknowledgementFailed)
  {
    hide Step, Exec, Invariant, AppliedSecurityState, VerifyCommandPatch, Delivers, Redelivers, Outcome, Script,
      CommandTargetState;
    var before := Exec(crypto, s, first);
    var saved := before.PhaseOf(p);
    QuiescentHolds(crypto, s);
    InvariantHolds(crypto, s, first);
    CommittedCommand(crypto, before, p);
    CrashQuiesces(crypto, before, p);
    var crashed := Step(crypto, before, p, Crash);
    QuiescentHolds(crypto, crashed);
    InvariantHolds(crypto, crashed, again);
    CrashThenRedelivery(crypto, s, first, p, again, q);
    var between := Exec(crypto, crashed, again);
    UnheldQuiesces(crypto, between);
    RedeliveryOutcome(crypto, saved.work.session, saved.command, saved.patch, saved.clock, saved.work.ledger,
                      between.document, ex);
    SoloRunMatchesOutcome(crypto, between, q, saved.work.session, ex);
  }

  lemma QuiescentHolds(crypto: Crypto, s: System)
    requires Quiescent(s)
    ensures Invariant(crypto, s)
  {
  }

  /** Whoever is inside a transaction holds the lock. */
  lemma UnheldQuiesces(crypto: Crypto, s: System)
    requires Invariant(crypto, s) && s.holder.None?
    ensures Quiescent(s)
  {
    hide PhaseHolds;
  }
}
