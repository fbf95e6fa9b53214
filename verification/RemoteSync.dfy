// Admin check-in, application of the pending command and its acknowledgement (remote_sync.rs),
// over the one document `remote-state.json`.
module RemoteSync {
  import opened Wrappers
  import opened MachineInts
  import opened Hex
  import opened Calendar
  import opened CommandSecurity

  datatype LockStateKind = Unlocked | Warning | Locked | PermanentlyReleased

  datatype LockState = LockState(state: LockStateKind, reason: string, changedAt: DateTime)

  datatype PersistedRemoteState = PersistedRemoteState(
    deviceUuid: Uuid,
    lockState: LockState,
    checkedAt: DateTime,
    serverTime: DateTime)

  /** Lock state and replay ledger, published together. */
  datatype SecuredRemoteState = SecuredRemoteState(remote: PersistedRemoteState, commandSecurity: CommandSecurityState)

  /** The content of the state file. */
  datatype Document = Missing | Corrupt | Saved(state: SecuredRemoteState)

  datatype CheckInResponse = CheckInResponse(
    serverTime: DateTime,
    lockState: LockState,
    pendingCommand: Option<PendingCommand>)

  datatype PatchReply = Unavailable | Superseded | Current(patch: PatchFile)

  datatype SyncError =
    | CheckInFailed
    | LedgerUnreadable
    | WriteFailed
    | PatchUnavailable
    | Rejected(reason: CommandError)
    | DownloadFailed
    | ExpiredDuringDownload
    | UninstallRefused
    | AcknowledgementFailed

  /** Everything the server, the clock and the disk answer during one synchronization. */
  datatype Exchange = Exchange(
    checkIn: Option<CheckInResponse>,
    checkedAt: DateTime,
    firstWriteSucceeds: bool,
    patchReply: PatchReply,
    verifyClock: DateTime,
    downloadSucceeds: bool,
    commandClock: DateTime,
    patchClock: DateTime,
    appliedAt: DateTime,
    secondWriteSucceeds: bool,
    ackSucceeds: bool)

  /** `load_command_security_state`: a missing file is an empty ledger, a corrupt one an error. */
  function LoadLedger(document: Document): Result<CommandSecurityState, SyncError> {
    match document
    case Missing => Ok(NO_COMMANDS)
    case Corrupt => Err(LedgerUnreadable)
    case Saved(state) => Ok(state.commandSecurity)
  }

  function CommandTargetState(action: CommandAction): Result<LockStateKind, SyncError> {
    match action
    case Lock => Ok(Locked)
    case Unlock => Ok(Unlocked)
    case Warn => Ok(Warning)
    case Release => Ok(PermanentlyReleased)
    case Uninstall => Err(UninstallRefused)
  }

  /** What every successful check-in publishes first: the server's lock state over the old ledger. */
  function CheckInDocument(device: Uuid, checkIn: CheckInResponse, checkedAt: DateTime, ledger: CommandSecurityState)
    : SecuredRemoteState
  {
    SecuredRemoteState(PersistedRemoteState(device, checkIn.lockState, checkedAt, checkIn.serverTime), ledger)
  }

  /** The ledger to commit with the command; without trusted keys it is carried through. */
  function NextLedger(crypto: Crypto, device: Uuid, trusted: map<U64, string>, command: PendingCommand,
                      patch: PatchFile,
                      clock: DateTime, ledger: CommandSecurityState): Result<CommandSecurityState, SyncError>
  {
    if trusted == map[] then
      match VerifyPatchBinding(command, patch, clock)
      case Ok(_) => Ok(ledger)
      case Err(reason) => Err(Rejected(reason))
    else
      match VerifyCommandPatch(crypto, device, command, patch, clock, trusted, ledger)
      case Ok(_) => Ok(AppliedSecurityState(crypto, device, ledger, command, patch))
      case Err(reason) => Err(Rejected(reason))
  }

  /** The recheck after the download reads the clock once per expiry. */
  predicate StillCurrent(command: PendingCommand, patch: PatchFile, commandClock: DateTime, patchClock: DateTime) {
    command.expiresAt.After(commandClock) && patch.expiresAt.After(patchClock)
  }

  /** What an applied command publishes: its target state, stamped anew, over the new ledger. */
  function CommandDocument(device: Uuid, checkIn: CheckInResponse, command: PendingCommand, appliedAt: DateTime,
                           ledger: CommandSecurityState): Result<SecuredRemoteState, SyncError>
  {
    var target :- CommandTargetState(command.action);
    Ok(SecuredRemoteState(
      PersistedRemoteState(device, LockState(target, command.reason, checkIn.serverTime), appliedAt,
                           checkIn.serverTime),
      ledger))
  }

  /** The application of a fetched patch, up to the document it would publish. */
  function ApplyPatch(crypto: Crypto, device: Uuid, trusted: map<U64, string>, checkIn: CheckInResponse,
                      command: PendingCommand, patch: PatchFile, ledger: CommandSecurityState, ex: Exchange)
    : Result<SecuredRemoteState, SyncError>
  {
    var next :- NextLedger(crypto, device, trusted, command, patch, Later(checkIn.serverTime, ex.verifyClock), ledger);
    var _ :- Ensure(ex.downloadSucceeds, DownloadFailed);
    var _ :- Ensure(StillCurrent(command, patch, ex.commandClock, ex.patchClock), ExpiredDuringDownload);
    var document :- CommandDocument(device, checkIn, command, ex.appliedAt, next);
    var _ :- Ensure(ex.secondWriteSucceeds, WriteFailed);
    Ok(document)
  }

  /** The document and the verdict one undisturbed synchronization leaves. */
  function Outcome(crypto: Crypto, device: Uuid, trusted: map<U64, string>, document: Document, ex: Exchange)
    : (Document, Result<(), SyncError>)
  {
    match (ex.checkIn, LoadLedger(document))
    case (None, _) => (document, Err(CheckInFailed))
    case (_, Err(error)) => (document, Err(error))
    case (Some(checkIn), Ok(ledger)) =>
      if !ex.firstWriteSucceeds then (document, Err(WriteFailed))
      else
        var saved := Saved(CheckInDocument(device, checkIn, ex.checkedAt, ledger));
        match (checkIn.pendingCommand, ex.patchReply)
        case (None, _) => (saved, Ok(()))
        case (_, Superseded) => (saved, Ok(()))
        case (_, Unavailable) => (saved, Err(PatchUnavailable))
        case (Some(command), Current(patch)) =>
          match ApplyPatch(crypto, device, trusted, checkIn, command, patch, ledger, ex)
          case Err(error) => (saved, Err(error))
          case Ok(state) => (Saved(state), if ex.ackSucceeds then Ok(()) else Err(AcknowledgementFailed))
  }

  /** What each action does to the device. */
  lemma TargetStates(action: CommandAction)
    ensures CommandTargetState(action) == Ok(Locked) <==> action.Lock?
    ensures CommandTargetState(action) == Ok(LockStateKind.Unlocked) <==> action.Unlock?
    ensures CommandTargetState(action) == Ok(Warning) <==> action.Warn?
    ensures CommandTargetState(action) == Ok(PermanentlyReleased) <==> action.Release?
    ensures CommandTargetState(action).Err? <==> action.Uninstall?
  {
  }

  /** `kind` is what `action` asks for. */
  ghost predicate Effect(action: CommandAction, kind: LockStateKind) {
    && (kind.Locked? <==> action.Lock?) && (kind.Unlocked? <==> action.Unlock?)
    && (kind.Warning? <==> action.Warn?) && (kind.PermanentlyReleased? <==> action.Release?)
  }

  /** The ledger a synchronization starts from. */
  function StartLedger(document: Document): CommandSecurityState {
    if document.Saved? then document.state.commandSecurity else CommandSecurityState(0, None, None, None, {})
  }

  /** The command was fetched, judged, downloaded, found still current and published. */
  ghost predicate Applies(crypto: Crypto, device: Uuid, trusted: map<U64, string>, document: Document, ex: Exchange,
                          command: PendingCommand, patch: PatchFile)
    requires ex.checkIn.Some?
  {
    && ex.checkIn.value.pendingCommand == Some(command) && ex.patchReply == Current(patch)
    && var now := Later(ex.checkIn.value.serverTime, ex.verifyClock);
    && (if trusted == map[] then VerifyPatchBinding(command, patch, now).Ok?
        else VerifyCommandPatch(crypto, device, command, patch, now, trusted, StartLedger(document)).Ok?)
    && ex.downloadSucceeds
    && command.expiresAt.After(ex.commandClock) && patch.expiresAt.After(ex.patchClock)
    && !command.action.Uninstall? && ex.secondWriteSucceeds
  }

  /**
   * What a synchronization leaves, by the answers it gets. Without a check-in, a readable ledger and a first
   * write, nothing; with them the server's lock state over the old ledger; and over that the command, if it
   * applies: its effect, reason and ledger, stamped anew.
   */
  lemma SynchronizationExactly(crypto: Crypto, device: Uuid, trusted: map<U64, string>, document: Document,
                               ex: Exchange)
    ensures var (after, verdict) := Outcome(crypto, device, trusted, document, ex);
            if ex.checkIn.None? || document.Corrupt? || !ex.firstWriteSucceeds then after == document && verdict.Err?
            else
              var checkIn := ex.checkIn.value;
              && after.Saved?
              && var remote, ledger := after.state.remote, after.state.commandSecurity;
              && remote.deviceUuid == device && remote.serverTime == checkIn.serverTime
              && ((exists command, patch :: Applies(crypto, device, trusted, document, ex, command, patch)) ==>
                    var command, patch := checkIn.pendingCommand.value, ex.patchReply.patch;
                    && Effect(command.action, remote.lockState.state) && remote.lockState.reason == command.reason
                    && remote.lockState.changedAt == checkIn.serverTime && remote.checkedAt == ex.appliedAt
                    && ledger == (if trusted == map[] then StartLedger(document)
                                  else AppliedSecurityState(crypto, device, StartLedger(document), command, patch))
                    && (verdict.Ok? <==> ex.ackSucceeds))
              && ((forall command, patch :: !Applies(crypto, device, trusted, document, ex, command, patch)) ==>
                    && remote.lockState == checkIn.lockState && remote.checkedAt == ex.checkedAt
                    && ledger == StartLedger(document)
                    && (verdict.Ok? <==> checkIn.pendingCommand.None? || ex.patchReply.Superseded?))
  {
    hide VerifyPatchBinding, VerifyCommandPatch, AppliedSecurityState, ApplyPatch;
    if ex.checkIn.Some? && ex.checkIn.value.pendingCommand.Some? && ex.patchReply.Current? {
      var command, patch := ex.checkIn.value.pendingCommand.value, ex.patchReply.patch;
      assert (exists c, f :: Applies(crypto, device, trusted, document, ex, c, f))
        <==> Applies(crypto, device, trusted, document, ex, command, patch);
      ApplicationExactly(crypto, device, trusted, document, ex, command, patch);
    }
  }

  /** What becomes of a fetched patch. */
  lemma ApplicationExactly(crypto: Crypto, device: Uuid, trusted: map<U64, string>, document: Document, ex: Exchange,
                           command: PendingCommand, patch: PatchFile)
    requires ex.checkIn.Some? && ex.checkIn.value.pendingCommand == Some(command) && ex.patchReply == Current(patch)
    ensures var checkIn, start := ex.checkIn.value, StartLedger(document);
            var applied := ApplyPatch(crypto, device, trusted, checkIn, command, patch, start, ex);
            && (applied.Ok? <==> Applies(crypto, device, trusted, document, ex, command, patch))
            && (applied.Ok? ==>
                  && var remote := applied.value.remote;
                  && remote.deviceUuid == device && remote.serverTime == checkIn.serverTime
                  && Effect(command.action, remote.lockState.state) && remote.lockState.reason == command.reason
                  && remote.lockState.changedAt == checkIn.serverTime && remote.checkedAt == ex.appliedAt
                  && applied.value.commandSecurity
                     == if trusted == map[] then start else AppliedSecurityState(crypto, device, start, command, patch))
  {
    hide VerifyPatchBinding, VerifyCommandPatch, AppliedSecurityState;
  }

  /** The state file as one synchronizing process sees it, command lock held. */
  class RemoteStateFile {
    var document: Document

    constructor (document: Document)
      ensures this.document == document
    {
      this.document := document;
    }

    /** Atomic replacement: the previous document survives a failed write. */
    method Persist(state: SecuredRemoteState, succeeds: bool) returns (r: Result<(), SyncError>)
      modifies this
      ensures r == if succeeds then Ok(()) else Err(WriteFailed)
      ensures document == if succeeds then Saved(state) else old(document)
    {
      if !succeeds {
        return Err(WriteFailed);
      }
      document := Saved(state);
      return Ok(());
    }

    method Synchronize(crypto: Crypto, device: Uuid, trusted: map<U64, string>, ex: Exchange)
      returns (r: Result<(), SyncError>)
      modifies this
      ensures (document, r) == Outcome(crypto, device, trusted, old(document), ex)
    {
      if ex.checkIn.None? {
        return Err(CheckInFailed);
      }
      var checkIn := ex.checkIn.value;
      var loaded := LoadLedger(document);
      if loaded.Err? {
        return Err(loaded.error);
      }
      var written := Persist(CheckInDocument(device, checkIn, ex.checkedAt, loaded.value), ex.firstWriteSucceeds);
      if written.Err? {
        return written;
      }
      if checkIn.pendingCommand.None? {
        return Ok(());
      }
      r := ApplyPendingCommand(crypto, device, trusted, checkIn, loaded.value, ex);
    }

    method ApplyPendingCommand(crypto: Crypto, device: Uuid, trusted: map<U64, string>, checkIn: CheckInResponse,
                               ledger: CommandSecurityState, ex: Exchange) returns (r: Result<(), SyncError>)
      requires checkIn.pendingCommand.Some?
      modifies this
      ensures ex.patchReply.Superseded? ==> r == Ok(()) && document == old(document)
      ensures ex.patchReply.Unavailable? ==> r == Err(PatchUnavailable) && document == old(document)
      ensures ex.patchReply.Current? ==>
                match ApplyPatch(crypto, device, trusted, checkIn, checkIn.pendingCommand.value, ex.patchReply.patch,
                                 ledger, ex)
                case Err(error) => r == Err(error) && document == old(document)
                case Ok(state) =>
                  document == Saved(state) && (r == if ex.ackSucceeds then Ok(()) else Err(AcknowledgementFailed))
    {
      if ex.patchReply.Superseded? {
        return Ok(());
      }
      if ex.patchReply.Unavailable? {
        return Err(PatchUnavailable);
      }
      var command, patch := checkIn.pendingCommand.value, ex.patchReply.patch;
      var result: Result<(), SyncError> := Ok(());
      var next := NextLedger(crypto, device, trusted, command, patch, Later(checkIn.serverTime, ex.verifyClock),
                             ledger);
      if next.Err? {
        result := Err(next.error);
      } else if !ex.downloadSucceeds {
        result := Err(DownloadFailed);
      } else if !StillCurrent(command, patch, ex.commandClock, ex.patchClock) {
        result := Err(ExpiredDuringDownload);
      } else {
        var state := CommandDocument(device, checkIn, command, ex.appliedAt, next.value);
        if state.Err? {
          result := Err(state.error);
        } else {
          result := Persist(state.value, ex.secondWriteSucceeds);
        }
      }
      // The verdict is acknowledged either way; a failed command outranks a failed acknowledgement.
      if result.Err? {
        return result;
      }
      r := if ex.ackSucceeds then Ok(()) else Err(AcknowledgementFailed);
    }
  }
}
