// The log of signed commands that synchronizing processes publish, over every schedule.
module CommandHistory {
  import opened Wrappers
  import opened Base64
  import opened Calendar
  import opened CommandSecurity
  import opened CommandLedger
  import opened RemoteSync
  import opened SyncProtocol

  /** Every published command was accepted in its turn, and the ledger on disk is what they left of `start`. */
  ghost predicate HistoryHolds(crypto: Crypto, start: CommandSecurityState, s: System) {
    && Accepted(crypto, start, s.history)
    && LoadLedger(s.document) == Ok(LedgerAfter(crypto, start, s.history))
    && forall i :: 0 <= i < |s.history| ==> !s.history[i].command.action.Uninstall?
  }

  /** Only a publication touches document and history. */
  lemma QuietStep(crypto: Crypto, s: System, p: Pid, e: Event)
    requires !e.PublishCheckIn? && !e.PublishCommand?
    ensures Step(crypto, s, p, e).document == s.document && Step(crypto, s, p, e).history == s.history
  {
    hide NextLedger, StillCurrent, LoadLedger, CommandDocument;
  }

  /** A publication writes the loaded ledger again, or that of a judged command and its history entry. */
  lemma PublishingStep(crypto: Crypto, s: System, p: Pid, e: Event)
    requires Invariant(crypto, s) && LoadLedger(s.document).Ok? && (e.PublishCheckIn? || e.PublishCommand?)
    ensures var s', ledger := Step(crypto, s, p, e), LoadLedger(s.document).value;
            || (LoadLedger(s'.document) == Ok(ledger) && s'.history == s.history)
            || (&& s.PhaseOf(p).CommandStaged?
                && var w, command, patch, clock :=
                     s.PhaseOf(p).work, s.PhaseOf(p).command, s.PhaseOf(p).patch, s.PhaseOf(p).clock;
                   && w.ledger == ledger && LoadLedger(s'.document).Ok? && !command.action.Uninstall?
                   && Judged(crypto, w, command, patch, clock, LoadLedger(s'.document).value)
                   && s'.history == s.history + Keyed(w.session, command, patch, clock))
  {
    hide NextLedger, StillCurrent, Keyed;
    assert s.PhaseOf(p).Idle? || PhaseHolds(crypto, s.document, s.PhaseOf(p));
  }

  /** An accepted command extends an accepted log. */
  lemma AcceptedExtends(crypto: Crypto, start: CommandSecurityState, log: seq<Attempt>, next: Attempt)
    requires Accepted(crypto, start, log) && next.Verdict(crypto, LedgerAfter(crypto, start, log)).Ok?
    ensures Accepted(crypto, start, log + [next])
    ensures LedgerAfter(crypto, start, log + [next]) == next.Applied(crypto, LedgerAfter(crypto, start, log))
  {
    hide Attempt.Verdict, Attempt.Applied;
    assert (log + [next])[..|log|] == log;
    assert forall i :: 0 <= i < |log| ==> (log + [next])[..i] == log[..i];
  }

  /** A judged command extends the history as it changes the ledger. */
  lemma JudgedExtends(crypto: Crypto, start: CommandSecurityState, s: System, s': System, w: Work,
                      command: PendingCommand, patch: PatchFile, clock: DateTime, next: CommandSecurityState)
    requires HistoryHolds(crypto, start, s) && LoadLedger(s.document) == Ok(w.ledger) && !command.action.Uninstall?
    requires Judged(crypto, w, command, patch, clock, next) && LoadLedger(s'.document) == Ok(next)
    requires s'.history == s.history + Keyed(w.session, command, patch, clock)
    ensures HistoryHolds(crypto, start, s')
  {
    hide Judged, VerifyCommandPatch, VerifyPatchBinding, AppliedSecurityState, Accepted, LedgerAfter, LoadLedger;
    JudgedCommits(crypto, w, command, patch, clock, next);
    if w.session.trusted != map[] {
      AcceptedExtends(crypto, start, s.history, Attempt(w.session.device, command, patch, clock, w.session.trusted));
    } else {
      assert s'.history == s.history;
    }
  }

  lemma StepKeepsHistory(crypto: Crypto, start: CommandSecurityState, s: System, p: Pid, e: Event)
    requires Invariant(crypto, s) && HistoryHolds(crypto, start, s)
    ensures HistoryHolds(crypto, start, Step(crypto, s, p, e))
  {
    hide Step, Invariant, Accepted, LedgerAfter, LoadLedger, Judged, Keyed;
    var s' := Step(crypto, s, p, e);
    if e.PublishCheckIn? || e.PublishCommand? {
      PublishingStep(crypto, s, p, e);
      if LoadLedger(s'.document) != LoadLedger(s.document) || s'.history != s.history {
        var phase := s.PhaseOf(p);
        JudgedExtends(crypto, start, s, s', phase.work, phase.command, phase.patch, phase.clock,
                      LoadLedger(s'.document).value);
      }
    } else {
      QuietStep(crypto, s, p, e);
    }
  }

  /** The history and the ledger agree at every moment of every schedule. */
  lemma {:induction false} RunKeepsHistory(crypto: Crypto, start: CommandSecurityState, s: System, schedule: Schedule)
    requires Invariant(crypto, s) && HistoryHolds(crypto, start, s)
    ensures HistoryHolds(crypto, start, Exec(crypto, s, schedule))
    decreases |schedule|
  {
    if schedule != [] {
      hide Step, Invariant, HistoryHolds;
      StepKeepsInvariant(crypto, s, schedule[0].0, schedule[0].1);
      StepKeepsHistory(crypto, start, s, schedule[0].0, schedule[0].1);
      RunKeepsHistory(crypto, start, Step(crypto, s, schedule[0].0, schedule[0].1), schedule[1..]);
    }
  }

  /** A system at rest with a readable ledger and nothing published yet. */
  ghost predicate Starts(s: System) {
    Quiescent(s) && s.history == [] && LoadLedger(s.document).Ok?
  }

  lemma StartHolds(crypto: Crypto, s: System)
    requires Starts(s)
    ensures Invariant(crypto, s) && HistoryHolds(crypto, LoadLedger(s.document).value, s)
  {
  }

  /**
   * Over every schedule, with crashes anywhere, keyed and unkeyed sessions and an arbitrary server, of two
   * signed commands that were published the later has the higher version or repeats the earlier one with all
   * its signed content, and two different contents never share a nonce.
   */
  lemma AppliedLogTheorem(crypto: Crypto, s: System, schedule: Schedule, i: nat, j: nat)
    requires Starts(s) && CollisionFree(crypto, Messages(Exec(crypto, s, schedule).history))
    requires i < j < |Exec(crypto, s, schedule).history|
    ensures var a, b := Exec(crypto, s, schedule).history[i], Exec(crypto, s, schedule).history[j];
            && (a.patch.version < b.patch.version || (a.patch.version == b.patch.version && a.Signed() == b.Signed()))
            && (a.command.nonce == b.command.nonce ==> a.Signed() == b.Signed())
  {
    hide Exec, Starts, Invariant, Accepted, CollisionFree, Messages, LoadLedger, LedgerAfter, Attempt.Signed;
    StartHolds(crypto, s);
    var start := LoadLedger(s.document).value;
    RunKeepsHistory(crypto, start, s, schedule);
    AcceptedLogOrder(crypto, start, Exec(crypto, s, schedule).history, i, j);
  }

  /**
   * Every signed command that was published passed, under its own session's keys, every check against the
   * ledger the commands before it left, and none is an UNINSTALL; the ledger on disk is what they all left.
   */
  lemma AppliedEntriesAreVerified(crypto: Crypto, s: System, schedule: Schedule, i: nat)
    requires Starts(s) && i < |Exec(crypto, s, schedule).history|
    ensures var now, start := Exec(crypto, s, schedule), LoadLedger(s.document).value;
            var a := now.history[i];
            && a.Verdict(crypto, LedgerAfter(crypto, start, now.history[..i])).Ok?
            && (exists key: Bytes, signature: Bytes ::
                  SignedUnder(crypto, a.Message(), a.patch, a.trusted, key, signature))
            && !a.command.action.Uninstall?
            && LoadLedger(now.document) == Ok(LedgerAfter(crypto, start, now.history))
  {
    hide Exec, Starts, Invariant, LoadLedger, LedgerAfter, VerifyCommandPatch, SignedUnder, CanonicalPatchMessage;
    StartHolds(crypto, s);
    var start := LoadLedger(s.document).value;
    RunKeepsHistory(crypto, start, s, schedule);
    var now := Exec(crypto, s, schedule);
    var a := now.history[i];
    assert a.Message() == CanonicalPatchMessage(a.device, a.command, a.patch);
    AcceptedExactly(crypto, a.device, a.command, a.patch, a.now, a.trusted,
                    LedgerAfter(crypto, start, now.history[..i]));
  }
}
