// Synchronizations of several processes, step by step: the command lock, the two atomic
// publications of `remote-state.json`, crashes between any two steps, and an arbitrary server.
module SyncProtocol {
  import opened Wrappers
  import opened MachineInts
  import opened Hex
  import opened Calendar
  import opened CommandSecurity
  import opened CommandLedger
  import opened RemoteSync

  type Pid = nat

  /** The identity and keys a process synchronizes with. */
  datatype Session = Session(device: Uuid, trusted: map<U64, string>)

  /** A received check-in and the ledger read after it. */
  datatype Work = Work(session: Session, checkIn: CheckInResponse, ledger: CommandSecurityState)

  /** Where a process stands; everything but `Idle` holds the command lock. `clock` is the time of verification. */
  datatype Phase =
    | Idle
    | Waiting(session: Session)
    | Received(session: Session, checkIn: CheckInResponse)
    | Loaded(work: Work)
    | CheckInStaged(work: Work, temporary: SecuredRemoteState)
    | CheckInSaved(work: Work)
    | Fetched(work: Work, command: PendingCommand, patch: PatchFile)
    | Verified(work: Work, command: PendingCommand, patch: PatchFile, clock: DateTime, next: CommandSecurityState)
    | Downloaded(work: Work, command: PendingCommand, patch: PatchFile, clock: DateTime, next: CommandSecurityState)
    | CommandStaged(work: Work, command: PendingCommand, patch: PatchFile, clock: DateTime,
                    temporary: SecuredRemoteState)
    | CommandSaved(work: Work, command: PendingCommand, patch: PatchFile, clock: DateTime)
    | Failed(work: Work, command: PendingCommand)

  /** One step of one process, with what the server, clock or disk answers it. */
  datatype Event =
    | Acquire(session: Session)
    | CheckInReply(reply: Option<CheckInResponse>)
    | ReadLedger
    | StageCheckIn(checkedAt: DateTime)
    | PublishCheckIn(succeeds: bool)
    | AskPatch(patchReply: PatchReply)
    | Verify(clock: DateTime)
    | Download(succeeds: bool)
    | StageCommand(commandClock: DateTime, patchClock: DateTime, appliedAt: DateTime)
    | PublishCommand(succeeds: bool)
    | Acknowledge
    | Crash

  /** `history` holds, in order, every command published after verification under trusted keys. */
  datatype System = System(document: Document, holder: Option<Pid>, phases: map<Pid, Phase>, history: seq<Attempt>) {
    function PhaseOf(p: Pid): Phase {
      if p in phases then phases[p] else Idle
    }

    function With(p: Pid, phase: Phase): System {
      this.(phases := phases[p := phase])
    }

    function Release(p: Pid): System {
      this.(holder := None, phases := phases[p := Idle])
    }
  }

  /** The entry a published command adds to the history: none without trusted keys. */
  function Keyed(session: Session, command: PendingCommand, patch: PatchFile, clock: DateTime): seq<Attempt> {
    if session.trusted == map[] then [] else [Attempt(session.device, command, patch, clock, session.trusted)]
  }

  /** Steps that do not fit the process's phase leave the system alone. */
  function Step(crypto: Crypto, s: System, p: Pid, e: Event): System {
    match (s.PhaseOf(p), e)
    case (Idle, Acquire(session)) =>
      if s.holder.None? then s.(holder := Some(p)).With(p, Waiting(session)) else s
    case (Idle, _) => s
    case (_, Crash) => s.Release(p)
    case (Waiting(session), CheckInReply(Some(checkIn))) => s.With(p, Received(session, checkIn))
    case (Waiting(_), CheckInReply(None)) => s.Release(p)
    case (Received(session, checkIn), ReadLedger) =>
      (match LoadLedger(s.document)
       case Ok(ledger) => s.With(p, Loaded(Work(session, checkIn, ledger)))
       case Err(_) => s.Release(p))
    case (Loaded(w), StageCheckIn(checkedAt)) =>
      s.With(p, CheckInStaged(w, CheckInDocument(w.session.device, w.checkIn, checkedAt, w.ledger)))
    case (CheckInStaged(w, temporary), PublishCheckIn(succeeds)) =>
      if succeeds then s.(document := Saved(temporary)).With(p, CheckInSaved(w)) else s.Release(p)
    case (CheckInSaved(w), AskPatch(reply)) =>
      (match (w.checkIn.pendingCommand, reply)
       case (Some(command), Current(patch)) => s.With(p, Fetched(w, command, patch))
       case _ => s.Release(p))
    case (Fetched(w, command, patch), Verify(clock)) =>
      var now := Later(w.checkIn.serverTime, clock);
      (match NextLedger(crypto, w.session.device, w.session.trusted, command, patch, now, w.ledger)
       case Ok(next) => s.With(p, Verified(w, command, patch, now, next))
       case Err(_) => s.With(p, Failed(w, command)))
    case (Verified(w, command, patch, clock, next), Download(succeeds)) =>
      s.With(p, if succeeds then Downloaded(w, command, patch, clock, next) else Failed(w, command))
    case (Downloaded(w, command, patch, clock, next), StageCommand(commandClock, patchClock, appliedAt)) =>
      (match CommandDocument(w.session.device, w.checkIn, command, appliedAt, next)
       case Ok(temporary) =>
         s.With(p, if StillCurrent(command, patch, commandClock, patchClock)
                   then CommandStaged(w, command, patch, clock, temporary)
                   else Failed(w, command))
       case Err(_) => s.With(p, Failed(w, command)))
    case (CommandStaged(w, command, patch, clock, temporary), PublishCommand(succeeds)) =>
      if !succeeds then s.With(p, Failed(w, command))
      else
        s.(document := Saved(temporary), history := s.history + Keyed(w.session, command, patch, clock))
        .With(p, CommandSaved(w, command, patch, clock))
    case (CommandSaved(_, _, _, _), Acknowledge) => s.Release(p)
    case (Failed(_, _), Acknowledge) => s.Release(p)
    case _ => s
  }

  /** A schedule: which process moves, and how the world answers. */
  type Schedule = seq<(Pid, Event)>

  function Exec(crypto: Crypto, s: System, schedule: Schedule): System
    decreases |schedule|
  {
    if schedule == [] then s
    else Exec(crypto, Step(crypto, s, schedule[0].0, schedule[0].1), schedule[1..])
  }

  lemma {:induction false} ExecSplits(crypto: Crypto, s: System, schedule: Schedule, i: nat)
    requires i <= |schedule|
    ensures Exec(crypto, s, schedule) == Exec(crypto, Exec(crypto, s, schedule[..i]), schedule[i..])
    decreases i
  {
    if i == 0 {
      assert schedule[0..] == schedule;
    } else {
      hide Step;
      ExecSplits(crypto, Step(crypto, s, schedule[0].0, schedule[0].1), schedule[1..], i - 1);
      assert schedule[..i][1..] == schedule[1..][..i - 1] && schedule[i..] == schedule[1..][i - 1..];
    }
  }

  /** Nobody is synchronizing. */
  ghost predicate Quiescent(s: System) {
    s.holder.None? && forall p: Pid :: s.PhaseOf(p).Idle?
  }

  // What holds between any two steps.

  /** The disk carries exactly the check-in of `w` over the ledger that was loaded. */
  predicate OnCheckIn(document: Document, w: Work) {
    && document.Saved?
    && document.state.commandSecurity == w.ledger
    && document.state.remote.lockState == w.checkIn.lockState
  }

  /** At `clock` the command passed the checks its session makes, and `next` is the ledger to commit. */
  predicate Judged(crypto: Crypto, w: Work, command: PendingCommand, patch: PatchFile, clock: DateTime,
                   next: CommandSecurityState) {
    NextLedger(crypto, w.session.device, w.session.trusted, command, patch, clock, w.ledger) == Ok(next)
  }

  /** `state` carries the effect of a judged command: target, reason and ledger together. */
  predicate Carries(crypto: Crypto, state: SecuredRemoteState, w: Work, command: PendingCommand, patch: PatchFile,
                    clock: DateTime) {
    && CommandTargetState(command.action) == Ok(state.remote.lockState.state)
    && state.remote.lockState.reason == command.reason
    && state.remote.lockState.changedAt == w.checkIn.serverTime
    && Judged(crypto, w, command, patch, clock, state.commandSecurity)
  }

  predicate PhaseHolds(crypto: Crypto, document: Document, phase: Phase) {
    match phase
    case Idle => true
    case Waiting(_) => true
    case Received(_, _) => true
    case Loaded(w) => LoadLedger(document) == Ok(w.ledger)
    case CheckInStaged(w, temporary) => LoadLedger(document) == Ok(w.ledger) && OnCheckIn(Saved(temporary), w)
    case CheckInSaved(w) => OnCheckIn(document, w)
    case Fetched(w, command, patch) => OnCheckIn(document, w) && w.checkIn.pendingCommand == Some(command)
    case Verified(w, command, patch, clock, next) =>
      && OnCheckIn(document, w) && w.checkIn.pendingCommand == Some(command)
      && Judged(crypto, w, command, patch, clock, next)
    case Downloaded(w, command, patch, clock, next) =>
      && OnCheckIn(document, w) && w.checkIn.pendingCommand == Some(command)
      && Judged(crypto, w, command, patch, clock, next)
    case CommandStaged(w, command, patch, clock, temporary) =>
      && OnCheckIn(document, w) && w.checkIn.pendingCommand == Some(command)
      && Carries(crypto, temporary, w, command, patch, clock)
    case CommandSaved(w, command, patch, clock) =>
      && document.Saved? && w.checkIn.pendingCommand == Some(command)
      && Carries(crypto, document.state, w, command, patch, clock)
    case Failed(w, command) => OnCheckIn(document, w) && w.checkIn.pendingCommand == Some(command)
  }

  ghost predicate Invariant(crypto: Crypto, s: System) {
    forall p: Pid :: !s.PhaseOf(p).Idle? ==> s.holder == Some(p) && PhaseHolds(crypto, s.document, s.PhaseOf(p))
  }

  /** A later document: same corruption, or a ledger that forgot nothing. */
  predicate DocumentExtends(a: Document, b: Document) {
    match (LoadLedger(a), LoadLedger(b))
    case (Ok(before), Ok(after)) => Extends(before, after) && (a.Saved? ==> b.Saved?)
    case (Err(_), _) => a == b
    case _ => false
  }

  /** What a judged command commits: the applied ledger, or the loaded one without keys; nothing is forgotten. */
  lemma JudgedCommits(crypto: Crypto, w: Work, command: PendingCommand, patch: PatchFile, clock: DateTime,
                      next: CommandSecurityState)
    requires Judged(crypto, w, command, patch, clock, next)
    ensures Extends(w.ledger, next)
    ensures next == if w.session.trusted == map[] then w.ledger
                    else AppliedSecurityState(crypto, w.session.device, w.ledger, command, patch)
    ensures if w.session.trusted == map[] then VerifyPatchBinding(command, patch, clock).Ok?
            else VerifyCommandPatch(crypto, w.session.device, command, patch, clock, w.session.trusted, w.ledger).Ok?
  {
    hide VerifyPatchBinding, VerifyCommandPatch, AppliedSecurityState;
    if w.session.trusted != map[] {
      AcceptedCommandExtends(crypto, w.session.device, command, patch, clock, w.session.trusted, w.ledger);
    }
  }

  /** A step moves one process; nobody enters while another holds the lock. */
  lemma StepMoves(crypto: Crypto, s: System, p: Pid, e: Event)
    ensures var s' := Step(crypto, s, p, e);
            && (forall q: Pid :: q != p ==> s'.PhaseOf(q) == s.PhaseOf(q))
            && (s.PhaseOf(p).Idle? && s.holder.Some? ==> s' == s)
            && (s.PhaseOf(p).Idle? ==> s'.document == s.document)
            && (!s'.PhaseOf(p).Idle? && (s.PhaseOf(p).Idle? || s.holder == Some(p)) ==> s'.holder == Some(p))
            && (!s.PhaseOf(p).Idle? && s'.PhaseOf(p).Idle? ==> s'.holder.None? && s'.document == s.document)
  {
    hide NextLedger, StillCurrent, CommandDocument, LoadLedger, Keyed;
  }

  /** The phases up to the publication of the check-in. */
  predicate Early(phase: Phase) {
    phase.Idle? || phase.Waiting? || phase.Received? || phase.Loaded? || phase.CheckInStaged?
  }

  lemma EarlyStepHolds(crypto: Crypto, s: System, p: Pid, e: Event)
    requires Early(s.PhaseOf(p)) && PhaseHolds(crypto, s.document, s.PhaseOf(p))
    ensures var s' := Step(crypto, s, p, e);
            PhaseHolds(crypto, s'.document, s'.PhaseOf(p)) && DocumentExtends(s.document, s'.document)
  {
    hide Judged, Carries;
    ExtendsReflexive(s.document);
  }

  lemma LateStepHolds(crypto: Crypto, s: System, p: Pid, e: Event)
    requires !Early(s.PhaseOf(p)) && PhaseHolds(crypto, s.document, s.PhaseOf(p))
    ensures var s' := Step(crypto, s, p, e);
            PhaseHolds(crypto, s'.document, s'.PhaseOf(p)) && DocumentExtends(s.document, s'.document)
  {
    hide NextLedger, StillCurrent, Extends, AppliedSecurityState;
    ExtendsReflexive(s.document);
    if s.PhaseOf(p).CommandStaged? {
      var phase := s.PhaseOf(p);
      JudgedCommits(crypto, phase.work, phase.command, phase.patch, phase.clock, phase.temporary.commandSecurity);
    }
  }

  lemma StepKeepsInvariant(crypto: Crypto, s: System, p: Pid, e: Event)
    requires Invariant(crypto, s)
    ensures Invariant(crypto, Step(crypto, s, p, e))
    ensures DocumentExtends(s.document, Step(crypto, s, p, e).document)
  {
    hide Step, DocumentExtends, OnCheckIn, Carries, Judged;
    StepMoves(crypto, s, p, e);
    if Early(s.PhaseOf(p)) {
      EarlyStepHolds(crypto, s, p, e);
    } else {
      LateStepHolds(crypto, s, p, e);
    }
  }

  lemma ExtendsReflexive(d: Document)
    ensures DocumentExtends(d, d)
  {
  }

  lemma ExtendsTransitive(a: Document, b: Document, c: Document)
    requires DocumentExtends(a, b) && DocumentExtends(b, c)
    ensures DocumentExtends(a, c)
  {
  }

  lemma {:induction false} InvariantHolds(crypto: Crypto, s: System, schedule: Schedule)
    requires Invariant(crypto, s)
    ensures Invariant(crypto, Exec(crypto, s, schedule))
    ensures DocumentExtends(s.document, Exec(crypto, s, schedule).document)
    decreases |schedule|
  {
    if schedule == [] {
      ExtendsReflexive(s.document);
    } else {
      hide Step, Invariant, DocumentExtends;
      var next := Step(crypto, s, schedule[0].0, schedule[0].1);
      StepKeepsInvariant(crypto, s, schedule[0].0, schedule[0].1);
      InvariantHolds(crypto, next, schedule[1..]);
      ExtendsTransitive(s.document, next.document, Exec(crypto, s, schedule).document);
    }
  }

  /**
   * Under every schedule of any number of processes, crashes included, the document on disk at a
   * later moment extends the one at an earlier moment: the highest version never decreases and no
   * consumed nonce is forgotten.
   */
  lemma LedgerNeverShrinks(crypto: Crypto, s: System, schedule: Schedule, i: nat, j: nat)
    requires Quiescent(s) && i <= j <= |schedule|
    ensures DocumentExtends(Exec(crypto, s, schedule[..i]).document, Exec(crypto, s, schedule[..j]).document)
  {
    hide Step, DocumentExtends;
    InvariantHolds(crypto, s, schedule[..i]);
    ExecSplits(crypto, s, schedule[..j], i);
    assert schedule[..j][..i] == schedule[..i];
    InvariantHolds(crypto, Exec(crypto, s, schedule[..i]), schedule[..j][i..]);
  }

  /**
   * Between its verdict and its acknowledgement a failed command, whatever the reason, has left
   * the ledger as loaded and the lock state as the check-in gave it; a saved one has published its
   * target state, reason and ledger together, passed the checks its session makes, and is never an UNINSTALL.
   */
  lemma VerdictsMatchDisk(crypto: Crypto, s: System, schedule: Schedule, p: Pid)
    requires Quiescent(s)
    ensures var now := Exec(crypto, s, schedule);
            match now.PhaseOf(p)
            case Failed(w, command) => OnCheckIn(now.document, w) && w.checkIn.pendingCommand == Some(command)
            case CommandSaved(w, command, patch, clock) =>
              && now.document.Saved? && Carries(crypto, now.document.state, w, command, patch, clock)
              && !command.action.Uninstall? && Effect(command.action, now.document.state.remote.lockState.state)
              && (if w.session.trusted == map[] then VerifyPatchBinding(command, patch, clock).Ok?
                  else VerifyCommandPatch(crypto, w.session.device, command, patch, clock, w.session.trusted,
                                          w.ledger).Ok?)
            case _ => true
  {
    hide Step, Exec, NextLedger, VerifyPatchBinding, VerifyCommandPatch;
    InvariantHolds(crypto, s, schedule);
    var now := Exec(crypto, s, schedule);
    if now.PhaseOf(p).CommandSaved? {
      var saved := now.PhaseOf(p);
      JudgedCommits(crypto, saved.work, saved.command, saved.patch, saved.clock, now.document.state.commandSecurity);
    }
  }

  /** At most one process is ever inside a transaction. */
  lemma CommandLockExcludes(crypto: Crypto, s: System, schedule: Schedule, p: Pid, q: Pid)
    requires Quiescent(s)
    requires !Exec(crypto, s, schedule).PhaseOf(p).Idle? && !Exec(crypto, s, schedule).PhaseOf(q).Idle?
    ensures p == q
  {
    InvariantHolds(crypto, s, schedule);
  }

  // A crash between the commit and its acknowledgement, followed by the same command again.

  /** The world offers nothing but the given command and patch, to the given device. */
  predicate Redelivers(e: Event, device: Uuid, command: PendingCommand, patch: PatchFile) {
    match e
    case Acquire(session) => session.device == device
    case CheckInReply(Some(checkIn)) => checkIn.pendingCommand in {None, Some(command)}
    case AskPatch(Current(offered)) => offered == patch
    case _ => true
  }

  /** A phase that repeats the command over the ledger that stands. */
  predicate Repeats(phase: Phase, device: Uuid, command: PendingCommand, patch: PatchFile,
                    ledger: CommandSecurityState) {
    match phase
    case Idle => true
    case Waiting(session) => session.device == device
    case Received(session, checkIn) => session.device == device && checkIn.pendingCommand in {None, Some(command)}
    case Loaded(w) => RepeatsWork(w, device, command, ledger)
    case CheckInStaged(w, temporary) => RepeatsWork(w, device, command, ledger) && temporary.commandSecurity == ledger
    case CheckInSaved(w) => RepeatsWork(w, device, command, ledger)
    case Fetched(w, c, f) => RepeatsWork(w, device, command, ledger) && c == command && f == patch
    case Verified(w, c, f, _, next) =>
      RepeatsWork(w, device, command, ledger) && c == command && f == patch && next == ledger
    case Downloaded(w, c, f, _, next) =>
      RepeatsWork(w, device, command, ledger) && c == command && f == patch && next == ledger
    case CommandStaged(w, c, f, _, temporary) =>
      RepeatsWork(w, device, command, ledger) && c == command && f == patch && temporary.commandSecurity == ledger
    case CommandSaved(w, c, f, _) => RepeatsWork(w, device, command, ledger) && c == command && f == patch
    case Failed(w, c) => RepeatsWork(w, device, command, ledger)
  }

  predicate RepeatsWork(w: Work, device: Uuid, command: PendingCommand, ledger: CommandSecurityState) {
    w.session.device == device && w.checkIn.pendingCommand in {None, Some(command)} && w.ledger == ledger
  }

  /** The system as redeliveries keep it. */
  ghost predicate Repeating(s: System, device: Uuid, command: PendingCommand, patch: PatchFile,
                            ledger: CommandSecurityState) {
    && LoadLedger(s.document) == Ok(ledger)
    && forall p: Pid :: Repeats(s.PhaseOf(p), device, command, patch, ledger)
  }

  lemma RepeatingStep(crypto: Crypto, s: System, p: Pid, e: Event, device: Uuid, command: PendingCommand,
                      patch: PatchFile, ledger: CommandSecurityState)
    requires Repeating(s, device, command, patch, ledger) && Redelivers(e, device, command, patch)
    requires AppliedSecurityState(crypto, device, ledger, command, patch) == ledger
    ensures Repeating(Step(crypto, s, p, e), device, command, patch, ledger)
  {
    hide Step, Repeats, Redelivers, AppliedSecurityState;
    StepMoves(crypto, s, p, e);
    PhaseRepeats(crypto, s, p, e, device, command, patch, ledger);
  }

  lemma PhaseRepeats(crypto: Crypto, s: System, p: Pid, e: Event, device: Uuid, command: PendingCommand,
                     patch: PatchFile, ledger: CommandSecurityState)
    requires LoadLedger(s.document) == Ok(ledger) && Repeats(s.PhaseOf(p), device, command, patch, ledger)
    requires Redelivers(e, device, command, patch)
             && AppliedSecurityState(crypto, device, ledger, command, patch) == ledger
    ensures var s' := Step(crypto, s, p, e);
            LoadLedger(s'.document) == Ok(ledger) && Repeats(s'.PhaseOf(p), device, command, patch, ledger)
  {
    hide StillCurrent, VerifyCommandPatch, VerifyPatchBinding, AppliedSecurityState;
  }

  lemma {:induction false} RedeliveryKeepsLedger(crypto: Crypto, s: System, schedule: Schedule, device: Uuid,
                                                 command: PendingCommand, patch: PatchFile,
                                                 ledger: CommandSecurityState)
    requires Repeating(s, device, command, patch, ledger)
    requires AppliedSecurityState(crypto, device, ledger, command, patch) == ledger
    requires forall step | step in schedule :: Redelivers(step.1, device, command, patch)
    ensures Repeating(Exec(crypto, s, schedule), device, command, patch, ledger)
    decreases |schedule|
  {
    if schedule != [] {
      hide Step, Repeating, Redelivers, AppliedSecurityState;
      assert schedule[0] in schedule && forall step | step in schedule[1..] :: step in schedule;
      RepeatingStep(crypto, s, schedule[0].0, schedule[0].1, device, command, patch, ledger);
      RedeliveryKeepsLedger(crypto, Step(crypto, s, schedule[0].0, schedule[0].1), schedule[1..], device, command,
                            patch, ledger);
    }
  }

  /**
   * A process dies after committing a signed command and before acknowledging it. However often,
   * by whomever and with whatever further crashes the command is delivered again, the ledger stays
   * identical, and each time it is saved again the lock kind and reason are those of the first time.
   */
  lemma CrashThenRedelivery(crypto: Crypto, s: System, first: Schedule, p: Pid, again: Schedule, q: Pid)
    requires Quiescent(s)
    requires Exec(crypto, s, first).PhaseOf(p).CommandSaved?
    requires Exec(crypto, s, first).PhaseOf(p).work.session.trusted != map[]
    requires var saved := Exec(crypto, s, first).PhaseOf(p);
             forall step | step in again :: Redelivers(step.1, saved.work.session.device, saved.command, saved.patch)
    ensures var before := Exec(crypto, s, first);
            var after := Exec(crypto, Step(crypto, before, p, Crash), again);
            && before.document.Saved? && after.document.Saved?
            && after.document.state.commandSecurity == before.document.state.commandSecurity
            && (after.PhaseOf(q).CommandSaved? ==>
                  && after.document.state.remote.lockState.state == before.document.state.remote.lockState.state
                  && after.document.state.remote.lockState.reason == before.document.state.remote.lockState.reason)
  {
    hide Step, Exec, AppliedSecurityState, Extends;
    InvariantHolds(crypto, s, first);
    var before := Exec(crypto, s, first);
    var saved := before.PhaseOf(p);
    var w, ledger := saved.work, before.document.state.commandSecurity;
    AppliedIdempotent(crypto, w.session.device, w.ledger, saved.command, saved.patch);
    var crashed := Step(crypto, before, p, Crash);
    CrashQuiesces(crypto, before, p);
    RedeliveryKeepsLedger(crypto, crashed, again, w.session.device, saved.command, saved.patch, ledger);
    InvariantHolds(crypto, crashed, again);
  }

  lemma AppliedIdempotent(crypto: Crypto, device: Uuid, ledger: CommandSecurityState, command: PendingCommand,
                          patch: PatchFile)
    ensures var next := AppliedSecurityState(crypto, device, ledger, command, patch);
            AppliedSecurityState(crypto, device, next, command, patch) == next
  {
    hide CanonicalPatchMessage;
    var next := AppliedSecurityState(crypto, device, ledger, command, patch);
    assert next.consumedNonceSha256 + {crypto.sha256(command.nonce)} == next.consumedNonceSha256;
  }

  lemma CrashQuiesces(crypto: Crypto, s: System, p: Pid)
    requires Invariant(crypto, s) && !s.PhaseOf(p).Idle?
    ensures Quiescent(Step(crypto, s, p, Crash)) && Step(crypto, s, p, Crash).document == s.document
  {
    hide PhaseHolds;
    assert s.holder == Some(p) && Step(crypto, s, p, Crash) == s.Release(p);
    forall q: Pid
      ensures s.Release(p).PhaseOf(q).Idle?
    {
      assert q != p ==> s.PhaseOf(q).Idle?;
    }
  }

  // The undisturbed transaction.

  /** The steps of one synchronization answered by `ex`; steps past an early end fall on an idle process. */
  function Script(p: Pid, session: Session, ex: Exchange): Schedule {
    [ (p, Acquire(session)),
      (p, CheckInReply(ex.checkIn)),
      (p, ReadLedger),
      (p, StageCheckIn(ex.checkedAt)),
      (p, PublishCheckIn(ex.firstWriteSucceeds)),
      (p, AskPatch(ex.patchReply)),
      (p, Verify(ex.verifyClock)),
      (p, Download(ex.downloadSucceeds)),
      (p, StageCommand(ex.commandClock, ex.patchClock, ex.appliedAt)),
      (p, PublishCommand(ex.secondWriteSucceeds)),
      (p, Acknowledge) ]
  }

  /** A process that has finished early ignores the rest of its script. */
  lemma {:induction false} IdleIgnores(crypto: Crypto, s: System, p: Pid, schedule: Schedule)
    requires s.PhaseOf(p).Idle?
    requires forall step | step in schedule :: step.0 == p && !step.1.Acquire?
    ensures Exec(crypto, s, schedule) == s
    decreases |schedule|
  {
    if schedule != [] {
      assert schedule[0] in schedule;
      IdleIgnores(crypto, s, p, schedule[1..]);
    }
  }

  lemma ExecNext(crypto: Crypto, s: System, schedule: Schedule, k: nat)
    requires k < |schedule|
    ensures Exec(crypto, s, schedule[k..])
            == Exec(crypto, Step(crypto, s, schedule[k].0, schedule[k].1), schedule[k + 1..])
  {
    hide Step;
    assert schedule[k..][1..] == schedule[k + 1..];
  }

  /** A failed command waits through the rest of its script and leaves only the lock behind. */
  lemma {:induction false} FailedEnds(crypto: Crypto, s: System, p: Pid, session: Session, ex: Exchange, k: nat)
    requires 7 <= k <= 10 && s.PhaseOf(p).Failed?
    ensures Exec(crypto, s, Script(p, session, ex)[k..]) == s.Release(p)
    decreases 10 - k
  {
    ExecNext(crypto, s, Script(p, session, ex), k);
    if k < 10 {
      FailedEnds(crypto, s, p, session, ex, k + 1);
    } else {
      assert Script(p, session, ex)[11..] == [];
    }
  }

  /** The judgement of a fetched patch, step by step. */
  lemma JudgingSteps(crypto: Crypto, s: System, p: Pid, ex: Exchange)
    requires s.PhaseOf(p).Fetched?
    ensures var (w, command, patch) := (s.PhaseOf(p).work, s.PhaseOf(p).command, s.PhaseOf(p).patch);
            var now := Later(w.checkIn.serverTime, ex.verifyClock);
            var next := NextLedger(crypto, w.session.device, w.session.trusted, command, patch, now, w.ledger);
            var s7 := Step(crypto, s, p, Verify(ex.verifyClock));
            var s8 := Step(crypto, s7, p, Download(ex.downloadSucceeds));
            var s9 := Step(crypto, s8, p, StageCommand(ex.commandClock, ex.patchClock, ex.appliedAt));
            && s7.document == s.document && s8.document == s.document && s9.document == s.document
            && (next.Err? ==> s7.PhaseOf(p).Failed?)
            && (next.Ok? ==> s7.PhaseOf(p) == Verified(w, command, patch, now, next.value))
            && (next.Ok? && !ex.downloadSucceeds ==> s8.PhaseOf(p).Failed?)
            && (next.Ok? && ex.downloadSucceeds ==>
                  && s8.PhaseOf(p) == Downloaded(w, command, patch, now, next.value)
                  && var staged := CommandDocument(w.session.device, w.checkIn, command, ex.appliedAt, next.value);
                     if StillCurrent(command, patch, ex.commandClock, ex.patchClock) && staged.Ok?
                     then s9.PhaseOf(p) == CommandStaged(w, command, patch, now, staged.value)
                     else s9.PhaseOf(p).Failed?)
  {
    hide NextLedger, StillCurrent, CommandDocument;
  }

  /** The last steps, from a fetched patch on: it is applied and published, or nothing changes. */
  lemma ApplySteps(crypto: Crypto, s: System, p: Pid, session: Session, ex: Exchange)
    requires s.PhaseOf(p).Fetched? && s.PhaseOf(p).work.session == session
    ensures var (w, command, patch) := (s.PhaseOf(p).work, s.PhaseOf(p).command, s.PhaseOf(p).patch);
            var after := Exec(crypto, s, Script(p, session, ex)[6..]);
            && after.PhaseOf(p).Idle? && after.holder.None?
            && after.document ==
               match ApplyPatch(crypto, session.device, session.trusted, w.checkIn, command, patch, w.ledger, ex)
               case Err(_) => s.document
               case Ok(state) => Saved(state)
  {
    hide Exec, Step, NextLedger, StillCurrent, CommandDocument, Script;
    ScriptSteps(p, session, ex);
    JudgingSteps(crypto, s, p, ex);
    var script := Script(p, session, ex);
    var s7 := Step(crypto, s, p, Verify(ex.verifyClock));
    var s8 := Step(crypto, s7, p, Download(ex.downloadSucceeds));
    var s9 := Step(crypto, s8, p, StageCommand(ex.commandClock, ex.patchClock, ex.appliedAt));
    ExecNext(crypto, s, script, 6);
    if s7.PhaseOf(p).Failed? {
      FailedEnds(crypto, s7, p, session, ex, 7);
    } else {
      ExecNext(crypto, s7, script, 7);
      if s8.PhaseOf(p).Failed? {
        FailedEnds(crypto, s8, p, session, ex, 8);
      } else {
        ExecNext(crypto, s8, script, 8);
        if s9.PhaseOf(p).Failed? {
          FailedEnds(crypto, s9, p, session, ex, 9);
        } else {
          PublishSteps(crypto, s9, p, session, ex);
        }
      }
    }
  }

  lemma PublishSteps(crypto: Crypto, s: System, p: Pid, session: Session, ex: Exchange)
    requires s.PhaseOf(p).CommandStaged?
    ensures var after := Exec(crypto, s, Script(p, session, ex)[9..]);
            && after.PhaseOf(p).Idle? && after.holder.None?
            && after.document == if ex.secondWriteSucceeds then Saved(s.PhaseOf(p).temporary) else s.document
  {
    hide Exec;
    var script := Script(p, session, ex);
    var s10 := Step(crypto, s, p, PublishCommand(ex.secondWriteSucceeds));
    ExecNext(crypto, s, script, 9);
    ExecNext(crypto, s10, script, 10);
    assert script[11..] == [];
    ExecEnds(crypto, Step(crypto, s10, p, Acknowledge));
  }

  lemma ExecEnds(crypto: Crypto, s: System)
    ensures Exec(crypto, s, []) == s
  {
  }

  /** The steps up to the reply about the patch: the check-in is published, or the process gives up. */
  lemma CheckInSteps(crypto: Crypto, s: System, p: Pid, session: Session, ex: Exchange)
    requires Quiescent(s)
    ensures var s1 := Step(crypto, s, p, Acquire(session));
            var s2 := Step(crypto, s1, p, CheckInReply(ex.checkIn));
            var s3 := Step(crypto, s2, p, ReadLedger);
            var s4 := Step(crypto, s3, p, StageCheckIn(ex.checkedAt));
            var s5 := Step(crypto, s4, p, PublishCheckIn(ex.firstWriteSucceeds));
            var s6 := Step(crypto, s5, p, AskPatch(ex.patchReply));
            var ledger := LoadLedger(s.document);
            if ex.checkIn.None? || ledger.Err? || !ex.firstWriteSucceeds then
              s6.document == s.document && s6.PhaseOf(p).Idle? && s6.holder.None?
            else
              && s6.document == Saved(CheckInDocument(session.device, ex.checkIn.value, ex.checkedAt, ledger.value))
              && match (ex.checkIn.value.pendingCommand, ex.patchReply)
                 case (Some(command), Current(patch)) =>
                   s6.PhaseOf(p) == Fetched(Work(session, ex.checkIn.value, ledger.value), command, patch)
                 case _ => s6.PhaseOf(p).Idle? && s6.holder.None?
  {
    hide NextLedger, StillCurrent, CommandDocument, LoadLedger, CheckInDocument;
  }

  /** Run alone, the steps leave exactly the document of `Outcome`, and the lock free. */
  lemma SoloRunMatchesOutcome(crypto: Crypto, s: System, p: Pid, session: Session, ex: Exchange)
    requires Quiescent(s)
    ensures var after := Exec(crypto, s, Script(p, session, ex));
            && after.document == Outcome(crypto, session.device, session.trusted, s.document, ex).0
            && after.PhaseOf(p).Idle? && after.holder.None?
  {
    hide Exec, Step, ApplyPatch, Script, LoadLedger, CheckInDocument;
    var script := Script(p, session, ex);
    ScriptSteps(p, session, ex);
    CheckInSteps(crypto, s, p, session, ex);
    var s1 := Step(crypto, s, p, Acquire(session));
    var s2 := Step(crypto, s1, p, CheckInReply(ex.checkIn));
    var s3 := Step(crypto, s2, p, ReadLedger);
    var s4 := Step(crypto, s3, p, StageCheckIn(ex.checkedAt));
    var s5 := Step(crypto, s4, p, PublishCheckIn(ex.firstWriteSucceeds));
    var s6 := Step(crypto, s5, p, AskPatch(ex.patchReply));
    assert script[0..] == script;
    ExecNext(crypto, s, script, 0);
    ExecNext(crypto, s1, script, 1);
    ExecNext(crypto, s2, script, 2);
    ExecNext(crypto, s3, script, 3);
    ExecNext(crypto, s4, script, 4);
    ExecNext(crypto, s5, script, 5);
    if s6.PhaseOf(p).Idle? {
      IdleIgnores(crypto, s6, p, script[6..]);
    } else {
      ApplySteps(crypto, s6, p, session, ex);
    }
  }

  lemma ScriptSteps(p: Pid, session: Session, ex: Exchange)
    ensures var t := Script(p, session, ex);
            && |t| == 11
            && t[0] == (p, Acquire(session)) && t[1] == (p, CheckInReply(ex.checkIn)) && t[2] == (p, ReadLedger)
            && t[3] == (p, StageCheckIn(ex.checkedAt)) && t[4] == (p, PublishCheckIn(ex.firstWriteSucceeds))
            && t[5] == (p, AskPatch(ex.patchReply)) && t[6] == (p, Verify(ex.verifyClock))
            && t[7] == (p, Download(ex.downloadSucceeds))
            && t[8] == (p, StageCommand(ex.commandClock, ex.patchClock, ex.appliedAt))
            && forall step | step in t[6..] :: step.0 == p && !step.1.Acquire?
  {
  }
}
