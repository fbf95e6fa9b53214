// Offline recovery step by step: lock screens wait for receipts, service workers answer an
// untrusted mailbox, provisioners rotate the key, all under the recovery lock and with crashes
// between any two steps.
module RecoveryProtocol {
  import opened Wrappers
  import opened Base64
  import opened MachineInts
  import opened Hex
  import opened Calendar
  import opened UnlockTokens
  import opened RecoveryService

  type Pid = nat

  /** Where a service or provisioning process stands. */
  datatype Phase =
    | Idle
    | Requested(request: RecoveryRequest, now: DateTime)
    | KeyChecked(keyHex: string)
    | Processing(request: RecoveryRequest, now: DateTime)
    | Provisioning(keyHex: string)
    | Answering(request: RecoveryRequest, now: DateTime, state: RecoveryState)
    | AnswerStaged(request: RecoveryRequest, now: DateTime, state: RecoveryState, temporary: RecoveryState)
    | KeyStaged(temporary: RecoveryState)
    | Published
  {
    /** The phase holds the recovery lock. */
    predicate Locked() {
      !Idle? && !Requested? && !KeyChecked?
    }
  }

  /** One published acceptance, with the document it replaced. */
  datatype Acceptance = Acceptance(request: RecoveryRequest, now: DateTime, replaced: RecoveryState, token: UnlockToken)

  /** One unlocking of a lock screen, and the acceptance whose receipt it read. */
  datatype Release = Release(requestId: Uuid, acceptance: nat)

  /**
   * `accepted` and `releases` are the history of the run; `issued` holds every request id ever
   * used, of which `earlier` were used before the run.
   */
  datatype System = System(
    file: StateFile,
    holder: Option<Pid>,
    phases: map<Pid, Phase>,
    pending: map<Pid, Uuid>,
    issued: set<Uuid>,
    earlier: set<Uuid>,
    accepted: seq<Acceptance>,
    releases: seq<Release>)
  {
    function PhaseOf(p: Pid): Phase {
      if p in phases then phases[p] else Idle
    }

    function With(p: Pid, phase: Phase): System {
      this.(phases := phases[p := phase])
    }

    function Unlock(p: Pid): System {
      this.(holder := if PhaseOf(p).Locked() then None else holder, phases := phases[p := Idle])
    }
  }

  datatype Event =
    // Service and provisioner. The mailbox may hold anything a user wrote, whole or in part.
    | ReadMailbox(mailbox: Option<RecoveryRequest>, now: DateTime)
    | CheckKey(keyHex: string)
    | Acquire
    | Load
    | Stage
    | Publish(succeeds: bool)
    | Finish
    | Crash
    // Lock screen.
    | Submit(requestId: Uuid)
    | Poll(clock: DateTime)
    | GiveUp

  function Step(v: Verifier, device: Uuid, s: System, p: Pid, e: Event): System {
    if e.Submit? || e.Poll? || e.GiveUp? then ScreenStep(s, p, e) else ServiceStep(v, device, s, p, e)
  }

  function ScreenStep(s: System, p: Pid, e: Event): System {
    match e
    case Submit(requestId) =>
      if p in s.pending || requestId in s.issued then s
      else s.(pending := s.pending[p := requestId], issued := s.issued + {requestId})
    case Poll(clock) => if p in s.pending then PollReceipt(s, p, clock) else s
    case GiveUp => s.(pending := s.pending - {p})
    case _ => s
  }

  function ServiceStep(v: Verifier, device: Uuid, s: System, p: Pid, e: Event): System {
    match (s.PhaseOf(p), e)
    case (Idle, ReadMailbox(Some(request), now)) => s.With(p, Requested(request, now))
    case (Idle, CheckKey(keyHex)) =>
      (match ValidatePublicKey(v, keyHex)
       case Ok(normalized) => s.With(p, KeyChecked(normalized))
       case Err(_) => s)
    case (Requested(request, now), Acquire) =>
      if s.holder.None? then s.(holder := Some(p)).With(p, Processing(request, now)) else s
    case (KeyChecked(keyHex), Acquire) =>
      if s.holder.None? then s.(holder := Some(p)).With(p, Provisioning(keyHex)) else s
    case (Processing(request, now), Load) =>
      (match LoadState(s.file)
       case Ok(state) => if Answered(state, request) then s.Unlock(p) else s.With(p, Answering(request, now, state))
       case Err(_) => s.Unlock(p))
    case (Provisioning(keyHex), Load) =>
      (match CarriedCounter(s.file)
       case Ok(counter) => s.With(p, KeyStaged(RecoveryState(keyHex, counter, None)))
       case Err(_) => s.Unlock(p))
    case (Answering(request, now, state), Stage) =>
      (match Answer(v, state, request, device, now)
       case Ok(next) => s.With(p, AnswerStaged(request, now, state, next))
       case Err(_) => s.Unlock(p))
    case (AnswerStaged(request, now, state, temporary), Publish(succeeds)) =>
      if !succeeds then s.Unlock(p)
      else
        var published := s.(file := Saved(temporary)).With(p, Published);
        if temporary.receipt.Some? && temporary.receipt.value.accepted
        then Record(v, device, published, request, now, s.file)
        else published
    case (KeyStaged(temporary), Publish(succeeds)) =>
      if succeeds then s.(file := Saved(temporary)).With(p, Published) else s.Unlock(p)
    case (Published, Finish) => s.Unlock(p)
    case (_, Crash) => s.Unlock(p)
    case _ => s
  }

  /** Appends the acceptance to the history, judged by the document that was on disk until now. */
  function Record(v: Verifier, device: Uuid, s: System, request: RecoveryRequest, now: DateTime,
                  replaced: StateFile): System {
    match LoadState(replaced)
    case Err(_) => s
    case Ok(before) =>
      match AllowedKey(v, before.publicKeyHex)
      case Err(_) => s
      case Ok(key) =>
        match VerifyUnlock(v.scheme, request.token, key, device, now, before.counter)
        case Ok(token) => s.(accepted := s.accepted + [Acceptance(request, now, before, token)])
        case Err(_) => s
  }

  /** `poll_recovery_unlock`: only a current receipt for this screen's own request counts. */
  function PollReceipt(s: System, p: Pid, clock: DateTime): System
    requires p in s.pending
  {
    match LoadState(s.file)
    case Err(_) => s
    case Ok(state) =>
      match ReceiptVerdict(state, s.pending[p], clock)
      case None => s
      case Some(accepted) =>
        var answered := s.(pending := s.pending - {p});
        if accepted then
          answered.(releases := s.releases + [Release(s.pending[p], if s.accepted == [] then 0 else |s.accepted| - 1)])
        else answered
  }

  type Schedule = seq<(Pid, Event)>

  function Exec(v: Verifier, device: Uuid, s: System, schedule: Schedule): System
    decreases |schedule|
  {
    if schedule == [] then s
    else Exec(v, device, Step(v, device, s, schedule[0].0, schedule[0].1), schedule[1..])
  }

  /** Before the run: nobody works or waits, no history, and an old receipt answers an old request. */
  ghost predicate Initial(s: System) {
    && s.holder.None? && (forall p: Pid :: s.PhaseOf(p).Idle?)
    && s.pending == map[] && s.accepted == [] && s.releases == [] && s.issued == s.earlier
    && (s.file.Saved? && s.file.state.receipt.Some? ==> s.file.state.receipt.value.requestId in s.earlier)
  }

  function CounterOf(file: StateFile): U64 {
    if file.Saved? then file.state.counter else 0
  }

  // Invariants.

  predicate PhaseHolds(v: Verifier, device: Uuid, file: StateFile, phase: Phase) {
    match phase
    case Answering(_, _, state) => file == Saved(state)
    case AnswerStaged(request, now, state, temporary) =>
      file == Saved(state) && Answer(v, state, request, device, now) == Ok(temporary)
    case KeyStaged(temporary) => !file.Corrupt? && temporary.counter == CounterOf(file) && temporary.receipt.None?
    case _ => true
  }

  ghost predicate Exclusive(v: Verifier, device: Uuid, s: System) {
    forall p: Pid | s.PhaseOf(p).Locked() :: s.holder == Some(p) && PhaseHolds(v, device, s.file, s.PhaseOf(p))
  }

  /** `a` accepted a token under the key and above the counter of the document it replaced. */
  predicate Justified(v: Verifier, device: Uuid, a: Acceptance) {
    && AllowedKey(v, a.replaced.publicKeyHex).Ok?
    && VerifyUnlock(v.scheme, a.request.token, AllowedKey(v, a.replaced.publicKeyHex).value, device, a.now,
                    a.replaced.counter)
       == Ok(a.token)
  }

  /** Every acceptance is justified, and starts no lower than where the one before it ended. */
  ghost predicate CountersIncrease(v: Verifier, device: Uuid, accepted: seq<Acceptance>) {
    && (forall i | 0 <= i < |accepted| ::
          Justified(v, device, accepted[i]) && accepted[i].replaced.counter < accepted[i].token.counter)
    && (forall i, j | 0 <= i < j < |accepted| :: accepted[i].token.counter <= accepted[j].replaced.counter)
  }

  /** Counters consumed so far: one acceptance costs at least one. */
  ghost predicate CounterCovers(accepted: seq<Acceptance>, start: nat, counter: nat) {
    && start + |accepted| <= counter
    && (forall i | 0 <= i < |accepted| :: accepted[i].token.counter <= counter)
  }

  /** An accepted receipt on disk comes with its counter, and from the latest acceptance or an earlier run. */
  predicate ReceiptBacked(s: System) {
    s.file.Saved? && s.file.state.receipt.Some? && s.file.state.receipt.value.accepted ==>
      || s.file.state.receipt.value.requestId in s.earlier
      || (&& s.accepted != []
          && var last := s.accepted[|s.accepted| - 1];
             && last.request.requestId == s.file.state.receipt.value.requestId
             && last.token.counter == s.file.state.counter)
  }

  /** Waiting screens have distinct ids of this run that have not released anything. */
  ghost predicate PendingFresh(s: System) {
    && s.earlier <= s.issued
    && (forall p | p in s.pending :: s.pending[p] in s.issued && s.pending[p] !in s.earlier)
    && (forall p, q | p in s.pending && q in s.pending && p != q :: s.pending[p] != s.pending[q])
    && (forall p, k | p in s.pending && 0 <= k < |s.releases| :: s.pending[p] != s.releases[k].requestId)
    && (forall k | 0 <= k < |s.releases| :: s.releases[k].requestId in s.issued)
  }

  ghost predicate ReleasesBacked(s: System) {
    && (forall k | 0 <= k < |s.releases| ::
          s.releases[k].acceptance < |s.accepted|
          && s.accepted[s.releases[k].acceptance].request.requestId == s.releases[k].requestId)
    && (forall k, l | 0 <= k < l < |s.releases| :: s.releases[k].requestId != s.releases[l].requestId)
  }

  ghost predicate Invariant(v: Verifier, device: Uuid, start: nat, s: System) {
    && Exclusive(v, device, s)
    && CountersIncrease(v, device, s.accepted)
    && CounterCovers(s.accepted, start, CounterOf(s.file))
    && ReceiptBacked(s)
    && PendingFresh(s)
    && ReleasesBacked(s)
  }

  lemma ExclusiveFrame(v: Verifier, device: Uuid, s: System, s': System)
    requires Exclusive(v, device, s) && s'.phases == s.phases && s'.holder == s.holder && s'.file == s.file
    ensures Exclusive(v, device, s')
  {
    hide PhaseHolds;
    assert forall q: Pid :: s'.PhaseOf(q) == s.PhaseOf(q);
  }

  /** A poll takes at most the screen's own id off the waiting ones, and adds it to the released ones. */
  lemma PollKeepsPending(s: System, p: Pid, clock: DateTime)
    requires PendingFresh(s) && p in s.pending
    ensures PendingFresh(PollReceipt(s, p, clock))
  {
    hide ReceiptVerdict;
  }

  /** A receipt that releases a screen names an acceptance of this run, for an id not released yet. */
  lemma PollBacksRelease(s: System, p: Pid, clock: DateTime)
    requires ReceiptBacked(s) && PendingFresh(s) && ReleasesBacked(s) && p in s.pending
    ensures ReleasesBacked(PollReceipt(s, p, clock)) && ReceiptBacked(PollReceipt(s, p, clock))
  {
    hide ReceiptVerdict;
    if s.file.Saved? {
      ReceiptExactly(s.file.state, s.pending[p], clock, true);
    }
  }

  lemma PollKeepsInvariant(v: Verifier, device: Uuid, start: nat, s: System, p: Pid, clock: DateTime)
    requires Invariant(v, device, start, s) && p in s.pending
    ensures Invariant(v, device, start, PollReceipt(s, p, clock)) && PollReceipt(s, p, clock).file == s.file
  {
    hide Exclusive, CountersIncrease, CounterCovers, ReceiptBacked, PendingFresh, ReleasesBacked, ReceiptVerdict;
    PollKeepsPending(s, p, clock);
    PollBacksRelease(s, p, clock);
    ExclusiveFrame(v, device, s, PollReceipt(s, p, clock));
  }

  lemma ScreenStepKeepsInvariant(v: Verifier, device: Uuid, start: nat, s: System, p: Pid, e: Event)
    requires Invariant(v, device, start, s)
    ensures Invariant(v, device, start, ScreenStep(s, p, e)) && ScreenStep(s, p, e).file == s.file
  {
    hide Exclusive, CountersIncrease, CounterCovers, PollReceipt;
    if e.Poll? && p in s.pending {
      PollKeepsInvariant(v, device, start, s, p, e.clock);
    } else {
      ExclusiveFrame(v, device, s, ScreenStep(s, p, e));
    }
  }

  /** A step moves one process; nobody locks, or writes, while another holds the lock. */
  lemma ServiceMoves(v: Verifier, device: Uuid, s: System, p: Pid, e: Event)
    ensures var s' := ServiceStep(v, device, s, p, e);
            && (forall q: Pid :: q != p ==> s'.PhaseOf(q) == s.PhaseOf(q))
            && (!s.PhaseOf(p).Locked() ==> s'.file == s.file)
            && (!s.PhaseOf(p).Locked() && (s.holder.Some? || !s'.PhaseOf(p).Locked()) ==>
                  !s'.PhaseOf(p).Locked() && s'.holder == s.holder)
            && (s'.PhaseOf(p).Locked() && (s.PhaseOf(p).Locked() ==> s.holder == Some(p)) ==> s'.holder == Some(p))
  {
    hide Answer, ValidatePublicKey, AllowedKey, VerifyUnlock, LoadState, CarriedCounter;
  }

  lemma OwnPhaseHolds(v: Verifier, device: Uuid, s: System, p: Pid, e: Event)
    requires PhaseHolds(v, device, s.file, s.PhaseOf(p))
    ensures var s' := ServiceStep(v, device, s, p, e);
            PhaseHolds(v, device, s'.file, s'.PhaseOf(p))
  {
    hide Answer, ValidatePublicKey, AllowedKey, VerifyUnlock;
  }

  /** The lock discipline survives every service step. */
  lemma ServiceStepKeepsExclusive(v: Verifier, device: Uuid, s: System, p: Pid, e: Event)
    requires Exclusive(v, device, s)
    ensures Exclusive(v, device, ServiceStep(v, device, s, p, e))
  {
    hide ServiceStep, PhaseHolds;
    ServiceMoves(v, device, s, p, e);
    if !s.PhaseOf(p).Locked() {
      UnlockedHolds(v, device, s.file, s.PhaseOf(p));
    }
    OwnPhaseHolds(v, device, s, p, e);
  }

  lemma UnlockedHolds(v: Verifier, device: Uuid, file: StateFile, phase: Phase)
    requires !phase.Locked()
    ensures PhaseHolds(v, device, file, phase)
  {
  }

  /** Everything but a publication only moves the process and the lock. */
  lemma QuietStep(v: Verifier, device: Uuid, s: System, p: Pid, e: Event)
    requires !e.Publish?
    ensures var s' := ServiceStep(v, device, s, p, e);
            s' == s.(holder := s'.holder, phases := s'.phases)
  {
    hide Answer, ValidatePublicKey;
  }

  /** A publication replaces the document by an answer to it, recorded if accepted, or by a new key. */
  lemma PublishStep(v: Verifier, device: Uuid, s: System, p: Pid, e: Event)
    requires Exclusive(v, device, s) && e.Publish?
    ensures var s' := ServiceStep(v, device, s, p, e);
            || s' == s.(holder := s'.holder, phases := s'.phases)
            || (&& s'.file.Saved? && !s.file.Corrupt? && s'.file.state.receipt.None?
                && s'.file.state.counter == CounterOf(s.file)
                && s' == s.(file := s'.file, holder := s'.holder, phases := s'.phases))
            || (&& s'.file.Saved? && s.file.Saved? && s'.file.state.receipt.Some?
                && var accepted := s'.file.state.receipt.value.accepted;
                   && s' == s.(file := s'.file, holder := s'.holder, phases := s'.phases, accepted := s'.accepted)
                   && (!accepted ==> s'.accepted == s.accepted && s'.file.state.counter == s.file.state.counter)
                   && (accepted ==>
                         && |s'.accepted| == |s.accepted| + 1 && s'.accepted[..|s.accepted|] == s.accepted
                         && var last := s'.accepted[|s.accepted|];
                            && last.replaced == s.file.state && Justified(v, device, last)
                            && last.request.requestId == s'.file.state.receipt.value.requestId
                            && last.token.counter == s'.file.state.counter > s.file.state.counter))
  {
    hide ValidatePublicKey, AllowedKey, VerifyUnlock;
    if s.PhaseOf(p).AnswerStaged? && e.succeeds {
      var phase := s.PhaseOf(p);
      AnswerMovesCounterForward(v, phase.state, phase.request, device, phase.now);
    }
  }

  lemma ServiceStepKeepsInvariant(v: Verifier, device: Uuid, start: nat, s: System, p: Pid, e: Event)
    requires Invariant(v, device, start, s)
    ensures Invariant(v, device, start, ServiceStep(v, device, s, p, e))
    ensures CounterOf(s.file) <= CounterOf(ServiceStep(v, device, s, p, e).file)
  {
    hide ServiceStep, Exclusive, Justified;
    ServiceStepKeepsExclusive(v, device, s, p, e);
    if e.Publish? {
      PublishStep(v, device, s, p, e);
    } else {
      QuietStep(v, device, s, p, e);
    }
  }

  lemma {:induction false} InvariantHolds(v: Verifier, device: Uuid, start: nat, s: System, schedule: Schedule)
    requires Invariant(v, device, start, s)
    ensures Invariant(v, device, start, Exec(v, device, s, schedule))
    ensures CounterOf(s.file) <= CounterOf(Exec(v, device, s, schedule).file)
    decreases |schedule|
  {
    if schedule != [] {
      hide ScreenStep, ServiceStep, Invariant;
      var (p, e) := schedule[0];
      ServiceStepKeepsInvariant(v, device, start, s, p, e);
      ScreenStepKeepsInvariant(v, device, start, s, p, e);
      InvariantHolds(v, device, start, Step(v, device, s, p, e), schedule[1..]);
    }
  }

  lemma InitialHolds(v: Verifier, device: Uuid, s: System)
    requires Initial(s)
    ensures Invariant(v, device, CounterOf(s.file), s)
  {
  }

  /**
   * Every interleaving of workers, provisioners and crashes: the stored counter never decreases,
   * accepted counters strictly increase, there are at most as many acceptances as the counter has
   * grown, and no moment, hence no crash point, shows an accepted receipt without its counter.
   */
  lemma CounterTheorem(v: Verifier, device: Uuid, s: System, schedule: Schedule)
    requires Initial(s)
    ensures var now := Exec(v, device, s, schedule);
            && CounterOf(s.file) + |now.accepted| <= CounterOf(now.file)
            && (forall i, j | 0 <= i < j < |now.accepted| ::
                  now.accepted[i].token.counter < now.accepted[j].token.counter)
            && ReceiptBacked(now)
  {
    hide Step, Exec, Justified, Initial;
    InitialHolds(v, device, s);
    InvariantHolds(v, device, CounterOf(s.file), s, schedule);
  }

  /**
   * Each unlocking by receipt goes back to one acceptance of its own: a request with its id whose
   * token is for this device, signed under the key provisioned at that moment, unexpired at
   * processing time, and above every counter accepted before.
   */
  lemma ReleaseTheorem(v: Verifier, device: Uuid, s: System, schedule: Schedule, k: nat)
    requires Initial(s) && k < |Exec(v, device, s, schedule).releases|
    ensures var now := Exec(v, device, s, schedule);
            var i := now.releases[k].acceptance;
            && i < |now.accepted|
            && var a := now.accepted[i];
               && a.request.requestId == now.releases[k].requestId
               && AllowedKey(v, a.replaced.publicKeyHex).Ok?
               && (exists signature: Bytes ::
                     Signs(v.scheme, AllowedKey(v, a.replaced.publicKeyHex).value, a.request.token, a.token, signature))
               && a.token.deviceId == device
               && a.token.expiresUnix > a.now.seconds
               && -8_334_601_228_800 <= a.token.expiresUnix <= 8_210_266_876_799
               && (forall j | 0 <= j < i :: now.accepted[j].token.counter < a.token.counter)
    ensures forall l | 0 <= l < |Exec(v, device, s, schedule).releases| && l != k ::
              Exec(v, device, s, schedule).releases[l].acceptance != Exec(v, device, s, schedule).releases[k].acceptance
  {
    hide Step, Exec, Initial, AllowedKey, VerifyUnlock, TokenText;
    InitialHolds(v, device, s);
    InvariantHolds(v, device, CounterOf(s.file), s, schedule);
    var now := Exec(v, device, s, schedule);
    var a := now.accepted[now.releases[k].acceptance];
    assert Justified(v, device, a);
    AcceptanceIsCanonical(v.scheme, a.request.token, AllowedKey(v, a.replaced.publicKeyHex).value, device, a.now,
                          a.replaced.counter, a.token);
  }

  // The undisturbed transaction.

  lemma ExecTwo(v: Verifier, device: Uuid, s: System, p: Pid, a: Event, b: Event)
    ensures Exec(v, device, s, [(p, a), (p, b)]) == Step(v, device, Step(v, device, s, p, a), p, b)
  {
    hide Step;
    var schedule := [(p, a), (p, b)];
    assert schedule[1..] == [(p, b)] && [(p, b)][1..] == [];
    assert Exec(v, device, Step(v, device, s, p, a), [(p, b)])
           == Exec(v, device, Step(v, device, Step(v, device, s, p, a), p, b), []);
  }

  /** Deciding: the lock is held, the state is loaded, and an answer is staged unless there is none to give. */
  lemma DecideSteps(v: Verifier, device: Uuid, s: System, p: Pid, request: RecoveryRequest, now: DateTime)
    requires s.PhaseOf(p) == Processing(request, now)
    ensures var after := ServiceStep(v, device, ServiceStep(v, device, s, p, Load), p, Stage);
            && after.file == s.file
            && after.holder == (if after.PhaseOf(p).Idle? then None else s.holder)
            && after.PhaseOf(p) ==
               match LoadState(s.file)
               case Err(_) => Idle
               case Ok(state) =>
                 if Answered(state, request) || Answer(v, state, request, device, now).Err? then Idle
                 else AnswerStaged(request, now, state, Answer(v, state, request, device, now).value)
  {
    hide Answer, Record;
  }

  /** Publishing: the staged answer replaces the document, or the write fails. */
  lemma PublishSteps(v: Verifier, device: Uuid, s: System, p: Pid, succeeds: bool)
    ensures var after := ServiceStep(v, device, ServiceStep(v, device, s, p, Publish(succeeds)), p, Finish);
            s.PhaseOf(p).Idle? || s.PhaseOf(p).AnswerStaged? ==>
              && after.file == (if s.PhaseOf(p).AnswerStaged? && succeeds then Saved(s.PhaseOf(p).temporary)
                                else s.file)
              && after.PhaseOf(p).Idle? && after.holder == if s.PhaseOf(p).Idle? then s.holder else None
  {
    hide Answer, VerifyUnlock, AllowedKey;
  }

  /** Run alone, the steps leave exactly the document `Process` leaves. */
  lemma SoloRunMatchesProcess(v: Verifier, device: Uuid, s: System, p: Pid, request: RecoveryRequest, now: DateTime,
                              succeeds: bool)
    requires s.holder.None? && s.PhaseOf(p).Idle?
    ensures var deciding := Exec(v, device, Exec(v, device, s, [(p, ReadMailbox(Some(request), now)), (p, Acquire)]),
                                 [(p, Load), (p, Stage)]);
            var after := Exec(v, device, deciding, [(p, Publish(succeeds)), (p, Finish)]);
            && after.file == Processed(v, device, s.file, request, now, succeeds)
            && after.PhaseOf(p).Idle? && after.holder.None?
  {
    hide Exec, Answer, Record, Answered, LoadState;
    ExecTwo(v, device, s, p, ReadMailbox(Some(request), now), Acquire);
    var locked := Exec(v, device, s, [(p, ReadMailbox(Some(request), now)), (p, Acquire)]);
    assert locked.PhaseOf(p) == Processing(request, now) && locked.file == s.file;
    hide ServiceStep;
    ExecTwo(v, device, locked, p, Load, Stage);
    DecideSteps(v, device, locked, p, request, now);
    var deciding := Exec(v, device, locked, [(p, Load), (p, Stage)]);
    ExecTwo(v, device, deciding, p, Publish(succeeds), Finish);
    PublishSteps(v, device, deciding, p, succeeds);
  }

  /** Checking a key and taking the lock, which a key that is not allowed never asks for. */
  lemma CheckKeySteps(v: Verifier, device: Uuid, s: System, p: Pid, keyHex: string)
    requires s.holder.None? && s.PhaseOf(p).Idle?
    ensures var after := ServiceStep(v, device, ServiceStep(v, device, s, p, CheckKey(keyHex)), p, Acquire);
            && after.file == s.file
            && (ValidatePublicKey(v, keyHex).Err? ==> after == s)
            && (ValidatePublicKey(v, keyHex).Ok? ==>
                  after.PhaseOf(p) == Provisioning(ValidatePublicKey(v, keyHex).value) && after.holder == Some(p))
  {
    hide ValidatePublicKey;
  }

  /** Carrying the counter over, unless it cannot be read. */
  lemma StageKeySteps(v: Verifier, device: Uuid, s: System, p: Pid)
    requires s.PhaseOf(p).Provisioning? || (s.PhaseOf(p).Idle? && s.holder.None?)
    ensures var after := ServiceStep(v, device, ServiceStep(v, device, s, p, Load), p, Stage);
            && after.file == s.file
            && (s.PhaseOf(p).Idle? || CarriedCounter(s.file).Err? ==> after.PhaseOf(p).Idle? && after.holder.None?)
            && (s.PhaseOf(p).Provisioning? && CarriedCounter(s.file).Ok? ==>
                  after.PhaseOf(p) == KeyStaged(RecoveryState(s.PhaseOf(p).keyHex, CarriedCounter(s.file).value, None)))
  {
    hide CarriedCounter, Answer;
  }

  lemma PublishKeySteps(v: Verifier, device: Uuid, s: System, p: Pid, succeeds: bool)
    requires s.PhaseOf(p).KeyStaged? || (s.PhaseOf(p).Idle? && s.holder.None?)
    ensures var after := ServiceStep(v, device, ServiceStep(v, device, s, p, Publish(succeeds)), p, Finish);
            && after.file == (if s.PhaseOf(p).KeyStaged? && succeeds then Saved(s.PhaseOf(p).temporary) else s.file)
            && after.PhaseOf(p).Idle? && after.holder.None?
  {
    hide Record;
  }

  /** Run alone, the steps of a provisioning leave exactly the document `Provision` leaves. */
  lemma SoloRunMatchesProvision(v: Verifier, device: Uuid, s: System, p: Pid, keyHex: string, succeeds: bool)
    requires s.holder.None? && s.PhaseOf(p).Idle?
    ensures var locked := Exec(v, device, s, [(p, CheckKey(keyHex)), (p, Acquire)]);
            var staged := Exec(v, device, locked, [(p, Load), (p, Stage)]);
            var after := Exec(v, device, staged, [(p, Publish(succeeds)), (p, Finish)]);
            && after.file == Provisioned(v, s.file, keyHex, succeeds)
            && after.PhaseOf(p).Idle? && after.holder.None?
  {
    hide Exec, ServiceStep, ValidatePublicKey, CarriedCounter;
    ExecTwo(v, device, s, p, CheckKey(keyHex), Acquire);
    CheckKeySteps(v, device, s, p, keyHex);
    var locked := Exec(v, device, s, [(p, CheckKey(keyHex)), (p, Acquire)]);
    ExecTwo(v, device, locked, p, Load, Stage);
    StageKeySteps(v, device, locked, p);
    var staged := Exec(v, device, locked, [(p, Load), (p, Stage)]);
    ExecTwo(v, device, staged, p, Publish(succeeds), Finish);
    PublishKeySteps(v, device, staged, p, succeeds);
  }

  /** A crash gives up the lock and everything staged, and leaves the document alone. */
  lemma CrashForgets(v: Verifier, device: Uuid, s: System, p: Pid)
    requires s.PhaseOf(p).Locked() ==> s.holder == Some(p)
    ensures var s' := Step(v, device, s, p, Crash);
            && s'.file == s.file && s'.PhaseOf(p).Idle? && (s.PhaseOf(p).Locked() ==> s'.holder.None?)
            && s'.accepted == s.accepted && s'.releases == s.releases
  {
  }

  /** A screen waits for a request of a new id until it hears of it or gives up. */
  lemma ScreenStepsExactly(s: System, p: Pid, id: Uuid)
    ensures p !in s.pending && id !in s.issued ==>
              ScreenStep(s, p, Submit(id)) == s.(pending := s.pending[p := id], issued := s.issued + {id})
    ensures p in s.pending || id in s.issued ==> ScreenStep(s, p, Submit(id)) == s
    ensures p !in ScreenStep(s, p, GiveUp).pending && ScreenStep(s, p, GiveUp).releases == s.releases
  {
  }
}
