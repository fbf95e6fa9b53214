// What the replay ledger guarantees about the log of signed commands it has let through.
module CommandLedger {
  import opened Wrappers
  import opened MachineInts
  import opened Hex
  import opened Calendar
  import opened CommandSecurity

  /** One applied command, as the server, the clock and the configured keys presented it. */
  datatype Attempt = Attempt(
    device: Uuid,
    command: PendingCommand,
    patch: PatchFile,
    now: DateTime,
    trusted: map<U64, string>)
  {
    function Message(): string {
      CanonicalPatchMessage(device, command, patch)
    }

    /** What a signature over this command covers. */
    function Signed(): SignedContent {
      Content(device, command, patch)
    }

    function Verdict(crypto: Crypto, state: CommandSecurityState): Result<(), CommandError> {
      VerifyCommandPatch(crypto, device, command, patch, now, trusted, state)
    }

    function Applied(crypto: Crypto, state: CommandSecurityState): CommandSecurityState {
      AppliedSecurityState(crypto, device, state, command, patch)
    }
  }

  /** The ledger after committing a log of commands to `start`. */
  function LedgerAfter(crypto: Crypto, start: CommandSecurityState, applied: seq<Attempt>): CommandSecurityState {
    if applied == [] then start
    else applied[|applied| - 1].Applied(crypto, LedgerAfter(crypto, start, applied[..|applied| - 1]))
  }

  /** Each command passed verification against the ledger the ones before it left. */
  ghost predicate Accepted(crypto: Crypto, start: CommandSecurityState, applied: seq<Attempt>) {
    forall i :: 0 <= i < |applied| ==> applied[i].Verdict(crypto, LedgerAfter(crypto, start, applied[..i])).Ok?
  }

  /** No two of the given texts share a SHA-256 digest. */
  ghost predicate CollisionFree(crypto: Crypto, texts: set<string>) {
    forall a, b | a in texts && b in texts && crypto.sha256(a) == crypto.sha256(b) :: a == b
  }

  function Messages(attempts: seq<Attempt>): set<string> {
    set a | a in attempts :: a.Message()
  }

  /** Versions never go back, and one version stands for one message. */
  ghost predicate VersionsIncrease(applied: seq<Attempt>) {
    forall i, j | 0 <= i < j < |applied| ::
      && applied[i].patch.version <= applied[j].patch.version
      && (applied[i].patch.version == applied[j].patch.version ==> applied[i].Message() == applied[j].Message())
  }

  /** A nonce belongs to one message. */
  ghost predicate NoncesUnique(applied: seq<Attempt>) {
    forall i, j | 0 <= i < j < |applied| && applied[i].command.nonce == applied[j].command.nonce ::
      applied[i].Message() == applied[j].Message()
  }

  /** How the ledger summarises the log. */
  ghost predicate Summarises(crypto: Crypto, state: CommandSecurityState, applied: seq<Attempt>) {
    && (applied != [] ==>
          var last := applied[|applied| - 1];
          && state.highestPatchVersion == last.patch.version
          && state.lastMessageSha256 == Some(crypto.sha256(last.Message())))
    && (forall a | a in applied :: crypto.sha256(a.command.nonce) in state.consumedNonceSha256)
  }

  /** A log accepted command by command is monotone, whatever ledger it started from. */
  lemma {:induction false} AcceptedIsMonotone(crypto: Crypto, start: CommandSecurityState, applied: seq<Attempt>)
    requires Accepted(crypto, start, applied) && CollisionFree(crypto, Messages(applied))
    ensures Summarises(crypto, LedgerAfter(crypto, start, applied), applied)
    ensures VersionsIncrease(applied) && NoncesUnique(applied)
  {
    hide *;
    if applied == [] {
      EmptyLog(crypto, start);
    } else {
      var prefix, last := applied[..|applied| - 1], applied[|applied| - 1];
      AcceptedPrefix(crypto, start, applied);
      AcceptedIsMonotone(crypto, start, prefix);
      assert applied == prefix + [last];
      AppliedStep(crypto, LedgerAfter(crypto, start, prefix), prefix, last);
    }
  }

  lemma EmptyLog(crypto: Crypto, start: CommandSecurityState)
    ensures Summarises(crypto, LedgerAfter(crypto, start, []), []) && VersionsIncrease([]) && NoncesUnique([])
  {
  }

  lemma AcceptedPrefix(crypto: Crypto, start: CommandSecurityState, applied: seq<Attempt>)
    requires Accepted(crypto, start, applied) && CollisionFree(crypto, Messages(applied)) && applied != []
    ensures var n := |applied| - 1;
            && Accepted(crypto, start, applied[..n]) && CollisionFree(crypto, Messages(applied[..n]))
            && applied[n].Verdict(crypto, LedgerAfter(crypto, start, applied[..n])).Ok?
            && LedgerAfter(crypto, start, applied)
               == applied[n].Applied(crypto, LedgerAfter(crypto, start, applied[..n]))
  {
    hide Attempt.Verdict, Attempt.Message, Attempt.Applied;
    var n := |applied| - 1;
    assert Messages(applied[..n]) <= Messages(applied);
    assert forall i :: 0 <= i < n ==> applied[..n][..i] == applied[..i];
  }

  /** The step case: a newer command with an unused nonce, or the last message again. */
  lemma AppliedStep(crypto: Crypto, before: CommandSecurityState, log: seq<Attempt>, next: Attempt)
    requires CollisionFree(crypto, Messages(log + [next]))
    requires Summarises(crypto, before, log) && VersionsIncrease(log) && NoncesUnique(log)
    requires next.Verdict(crypto, before).Ok?
    ensures Summarises(crypto, next.Applied(crypto, before), log + [next])
    ensures VersionsIncrease(log + [next]) && NoncesUnique(log + [next])
  {
    hide VerifyCommandPatch, CanonicalPatchMessage, CollisionFree, Messages;
    AcceptedCommandExtends(crypto, next.device, next.command, next.patch, next.now, next.trusted, before);
    if ExactRetry(crypto, next.device, next.command, next.patch, before) && log != [] {
      RetryRepeatsLast(crypto, before, log, next);
    }
  }

  lemma RetryRepeatsLast(crypto: Crypto, before: CommandSecurityState, log: seq<Attempt>, next: Attempt)
    requires CollisionFree(crypto, Messages(log + [next])) && Summarises(crypto, before, log) && log != []
    requires ExactRetry(crypto, next.device, next.command, next.patch, before)
    ensures var last := log[|log| - 1];
            && next.Message() == last.Message()
            && next.command.nonce == last.command.nonce && next.patch.version == last.patch.version
  {
    hide CanonicalPatchMessage;
    var last := log[|log| - 1];
    assert next in log + [next] && last in log + [next];
    assert next.Message() in Messages(log + [next]) && last.Message() in Messages(log + [next]);
    CanonicalMessageInjective(next.device, next.command, next.patch, last.device, last.command, last.patch);
  }

  /**
   * Of two commands in an accepted log, the later has the higher version or repeats the earlier one with
   * all its signed content, and a shared nonce means the same signed content.
   */
  lemma AcceptedLogOrder(crypto: Crypto, start: CommandSecurityState, applied: seq<Attempt>, i: nat, j: nat)
    requires Accepted(crypto, start, applied) && CollisionFree(crypto, Messages(applied)) && i < j < |applied|
    ensures var a, b := applied[i], applied[j];
            && (a.patch.version < b.patch.version || (a.patch.version == b.patch.version && a.Signed() == b.Signed()))
            && (a.command.nonce == b.command.nonce ==> a.Signed() == b.Signed())
  {
    hide CanonicalPatchMessage, Content, Accepted;
    AcceptedIsMonotone(crypto, start, applied);
    var a, b := applied[i], applied[j];
    CanonicalMessageInjective(a.device, a.command, a.patch, b.device, b.command, b.patch);
  }
}
