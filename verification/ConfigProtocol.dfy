// Processes sharing `config.json` with no lock between them: initialization, key trust, and the
// clearing and renewing of credentials, each a read followed by writes of its own copy.
module ConfigProtocol {
  import opened Wrappers
  import opened MachineInts
  import opened Hex
  import opened AgentConfiguration
  import opened Enrollment

  type Pid = nat

  /** Where a process stands, with the copy it holds. */
  datatype Task =
    | Idle
    | Rejecting(freshId: Uuid)
    | Initializing(config: AgentConfig)
    | Ready(config: AgentConfig)
    | TrustingKey(config: AgentConfig)
    | Denied(config: AgentConfig)
    | Cleared(config: AgentConfig)

  /** One step of one process; a crash can come at any point. */
  datatype Event =
    | Start(freshId: Uuid)
    | BackUp
    | WriteInitial(succeeds: bool)
    | TrustKey(id: U64, key: string)
    | WriteTrusted(succeeds: bool)
    | LearnDenial
    | WriteCleared(succeeds: bool)
    | EnrollmentFails
    | WriteEnrolled(server: string, token: string, device: Uuid, succeeds: bool)
    | Crash

  /** The file, the credential pairs the backend has issued, and whether an initialization has ever been written. */
  datatype System = System(file: ConfigFile, issued: set<(string, Uuid)>, initialized: bool, tasks: map<Pid, Task>) {
    function TaskOf(p: Pid): Task {
      if p in tasks then tasks[p] else Idle
    }

    function With(p: Pid, task: Task): System {
      this.(tasks := tasks[p := task])
    }

    function Write(p: Pid, config: AgentConfig, succeeds: bool, next: Task, failed: Task): System {
      if succeeds then this.(file := Stored(config)).With(p, next) else With(p, failed)
    }
  }

  /** Steps that do not fit where the process stands leave the system alone. */
  function Step(s: System, p: Pid, e: Event): System {
    match (s.TaskOf(p), e)
    case (_, Crash) => s.With(p, Idle)
    case (Idle, Start(freshId)) =>
      (match s.file
       case Absent => s.With(p, Initializing(FreshConfig(freshId)))
       case Stored(config) => s.With(p, Initializing(config.Normalized()))
       case Invalid(_) => s.With(p, Rejecting(freshId)))
    case (Rejecting(freshId), BackUp) =>
      if s.file.Absent? then s.With(p, Idle) else s.(file := Absent).With(p, Initializing(FreshConfig(freshId)))
    case (Initializing(config), WriteInitial(succeeds)) =>
      s.(initialized := s.initialized || succeeds).Write(p, config, succeeds, Ready(config), Idle)
    case (Ready(config), TrustKey(id, key)) => s.With(p, TrustingKey(config.Trusting(id, key)))
    case (TrustingKey(config), WriteTrusted(succeeds)) => s.Write(p, config, succeeds, Ready(config), Idle)
    case (Ready(_), LearnDenial) => if s.file.Stored? then s.With(p, Denied(s.file.config)) else s
    case (Denied(config), WriteCleared(succeeds)) =>
      s.Write(p, config.Cleared(), succeeds, Cleared(config.Cleared()), Ready(config.Cleared()))
    case (Cleared(config), EnrollmentFails) => s.With(p, Ready(config))
    case (Cleared(config), WriteEnrolled(server, token, device, succeeds)) =>
      var enrolled := config.Enrolled(TrimSlashes(server), token, device);
      s.(issued := s.issued + {(token, device)}).Write(p, enrolled, succeeds, Ready(enrolled), Ready(enrolled))
    case _ => s
  }

  function Exec(s: System, schedule: seq<(Pid, Event)>): System {
    if schedule == [] then s
    else
      var n := |schedule| - 1;
      Step(Exec(s, schedule[..n]), schedule[n].0, schedule[n].1)
  }

  /** No credentials, or a token together with the device id it was issued with. */
  predicate Genuine(config: AgentConfig, issued: set<(string, Uuid)>) {
    if config.Authenticated() then (config.agentToken.value, config.remoteDeviceId.value) in issued
    else config.agentToken.None? && config.remoteDeviceId.None?
  }

  predicate GenuineTask(task: Task, s: System) {
    match task
    case Idle => true
    case Rejecting(_) => true
    case Initializing(config) => Genuine(config, s.issued)
    case Cleared(config) => s.initialized && config.agentToken.None? && config.remoteDeviceId.None?
    case _ => s.initialized && Genuine(task.config, s.issued)
  }

  /** Before the first initialization only a half-written pair may be in the file. */
  ghost predicate Invariant(s: System) {
    && (s.file.Stored? && s.file.config.Paired() ==> Genuine(s.file.config, s.issued))
    && (s.initialized ==> !s.file.Invalid? && (s.file.Stored? ==> s.file.config.Paired()))
    && forall p :: p in s.tasks ==> GenuineTask(s.tasks[p], s)
  }

  lemma NormalizedGenuine(config: AgentConfig, issued: set<(string, Uuid)>)
    requires config.Paired() ==> Genuine(config, issued)
    ensures Genuine(config.Normalized(), issued)
  {
  }

  lemma StepKeepsInvariant(s: System, p: Pid, e: Event)
    requires Invariant(s)
    ensures Invariant(Step(s, p, e)) && (s.initialized ==> Step(s, p, e).initialized)
            && s.issued <= Step(s, p, e).issued
  {
    hide TrimSlashes, AgentConfig.Normalized;
    if s.file.Stored? {
      NormalizedGenuine(s.file.config, s.issued);
    }
    var next := Step(s, p, e);
    forall q | q in next.tasks ensures GenuineTask(next.tasks[q], next) {
      if q != p || next.tasks[q] == s.TaskOf(p) {
        assert q in s.tasks ==> GenuineTask(s.tasks[q], s);
      }
    }
  }

  /** A system no process has touched: what is in the file, if paired, was issued as a pair. */
  ghost predicate Untouched(s: System) {
    !s.initialized && s.tasks == map[]
      && (s.file.Stored? && s.file.config.Paired() ==> Genuine(s.file.config, s.issued))
  }

  lemma {:induction false} InvariantHolds(s: System, schedule: seq<(Pid, Event)>)
    requires Untouched(s)
    ensures Invariant(Exec(s, schedule))
  {
    if schedule != [] {
      hide Step, Invariant;
      var n := |schedule| - 1;
      InvariantHolds(s, schedule[..n]);
      StepKeepsInvariant(Exec(s, schedule[..n]), schedule[n].0, schedule[n].1);
    }
  }

  lemma {:induction false} OnceInitialized(s: System, schedule: seq<(Pid, Event)>, i: nat)
    requires Untouched(s) && i <= |schedule| && Exec(s, schedule[..i]).initialized
    ensures Exec(s, schedule).initialized
    decreases |schedule|
  {
    hide Step, Invariant, Untouched;
    if i == |schedule| {
      assert schedule[..i] == schedule;
    } else {
      var n := |schedule| - 1;
      assert schedule[..n][..i] == schedule[..i];
      OnceInitialized(s, schedule[..n], i);
      InvariantHolds(s, schedule[..n]);
      StepKeepsInvariant(Exec(s, schedule[..n]), schedule[n].0, schedule[n].1);
    }
  }

  /**
   * From the first written initialization on, under any interleaving and any crashes, the file never
   * holds half a pair, nor a token with a device id from another enrollment.
   */
  lemma PairingTheorem(s: System, schedule: seq<(Pid, Event)>, i: nat)
    requires Untouched(s) && i <= |schedule| && Exec(s, schedule[..i]).initialized
    ensures var done := Exec(s, schedule);
            done.file.Absent? || (done.file.Stored? && Genuine(done.file.config, done.issued))
  {
    hide Step, Genuine;
    InvariantHolds(s, schedule);
    OnceInitialized(s, schedule, i);
  }

  /** Left alone, the steps of an initialization are `Initialized`. */
  lemma SoloInitialize(s: System, d: Directory, p: Pid, disk: Disk)
    requires s.TaskOf(p).Idle? && s.file == d.config && disk.readable && disk.renames && FirstFree(d.backups, 0).Some?
    ensures var first, last := (p, Start(disk.freshId)), (p, WriteInitial(disk.writes));
            var script := if d.config.Invalid? then [first, (p, BackUp), last] else [first, last];
            Exec(s, script).file == Initialized(d, disk).0.config
  {
    var first := (p, Start(disk.freshId));
    assert Exec(s, [first]) == Step(s, p, first.1) by { assert Exec(s, [first][..0]) == s; }
    if d.config.Invalid? {
      var script := [first, (p, BackUp), (p, WriteInitial(disk.writes))];
      assert script[..2][..1] == [first] && script[..2] == [first, (p, BackUp)];
      assert Exec(s, script) == Step(Exec(s, script[..2]), p, WriteInitial(disk.writes));
      assert Exec(s, script[..2]) == Step(Exec(s, [first]), p, BackUp);
    } else {
      var script := [first, (p, WriteInitial(disk.writes))];
      assert script[..1] == [first];
      assert Exec(s, script) == Step(Exec(s, [first]), p, WriteInitial(disk.writes));
    }
  }

  /** Left alone, the steps after a denial are those of the enrollment attempt. */
  lemma SoloDenial(s: System, d: Directory, p: Pid, memory: AgentConfig, ex: Exchange)
    requires s.TaskOf(p).Ready? && s.file == d.config
    requires ex.locked && ex.readable && d.config.Stored? && ex.serialKnown && ex.check == Registered(false)
    requires NewClient(ex.usable, d.config.config.apiBase).Some?
    requires d.status.None? || d.status.value.enrolled != Some(true) || d.status.value.failed
             || ex.now - d.status.value.checkedAt >= 60_000_000_000
             || d.config.config.agentToken.None? || d.config.config.remoteDeviceId.None?
    requires ex.enroll.Granted? && ex.serialKnownAgain && ex.clearMirrors
    requires NewClient(ex.usableAgain, d.config.config.apiBase).Some?
    ensures var script := [(p, LearnDenial), (p, WriteCleared(ex.clearWrites)),
                           (p, WriteEnrolled(d.config.config.apiBase, ex.enroll.token, ex.enroll.device,
                                             ex.enrollWrites))];
            Exec(s, script).file == CheckedOrEnrolled(d, memory, None, ex).0.config
  {
    hide TrimSlashes, NewClient;
    var first: (Pid, Event) := (p, LearnDenial);
    var second: (Pid, Event) := (p, WriteCleared(ex.clearWrites));
    var enrolled := WriteEnrolled(d.config.config.apiBase, ex.enroll.token, ex.enroll.device, ex.enrollWrites);
    var third: (Pid, Event) := (p, enrolled);
    var script := [first, second, third];
    assert Exec(s, [first][..0]) == s;
    assert script[..2][..1] == [first] && script[..2] == [first, second];
    assert Exec(s, [first]) == Step(s, p, LearnDenial);
    assert Exec(s, script[..2]) == Step(Exec(s, [first]), p, second.1);
    assert Exec(s, script) == Step(Exec(s, script[..2]), p, third.1);
  }

  /** And when the backend then refuses to enroll the device. */
  lemma SoloRefusal(s: System, d: Directory, p: Pid, memory: AgentConfig, ex: Exchange)
    requires s.TaskOf(p).Ready? && s.file == d.config
    requires ex.locked && ex.readable && d.config.Stored? && ex.serialKnown && ex.check == Registered(false)
    requires NewClient(ex.usable, d.config.config.apiBase).Some?
    requires d.status.None? || d.status.value.enrolled != Some(true) || d.status.value.failed
             || ex.now - d.status.value.checkedAt >= 60_000_000_000
             || d.config.config.agentToken.None? || d.config.config.remoteDeviceId.None?
    requires ex.enroll.Refused? && ex.clearMirrors
    ensures var script := [(p, LearnDenial), (p, WriteCleared(ex.clearWrites)), (p, EnrollmentFails)];
            var (after, config, _) := CheckedOrEnrolled(d, memory, None, ex);
            Exec(s, script).file == after.config && Exec(s, script).TaskOf(p) == Ready(config)
  {
    hide TrimSlashes, NewClient;
    var first: (Pid, Event) := (p, LearnDenial);
    var second: (Pid, Event) := (p, WriteCleared(ex.clearWrites));
    var script := [first, second, (p, EnrollmentFails)];
    assert Exec(s, [first][..0]) == s;
    assert script[..2][..1] == [first] && script[..2] == [first, second];
    assert Exec(s, [first]) == Step(s, p, LearnDenial);
    assert Exec(s, script[..2]) == Step(Exec(s, [first]), p, second.1);
    assert Exec(s, script) == Step(Exec(s, script[..2]), p, EnrollmentFails);
  }

  /** Left alone, the steps that trust a key after an initialization are those of `TrustCommandKey`. */
  lemma SoloTrust(s: System, config: AgentConfig, p: Pid, id: U64, key: string, writes: bool)
    requires s.TaskOf(p) == Ready(config) && s.file == Stored(config)
    ensures var script := [(p, TrustKey(id, key)), (p, WriteTrusted(writes))];
            var trusting := config.(trustedKeys := config.trustedKeys[id := key]);
            Exec(s, script).file == Stored(if writes then trusting else config)
  {
    var first: (Pid, Event) := (p, TrustKey(id, key));
    var script := [first, (p, WriteTrusted(writes))];
    assert Exec(s, [first][..0]) == s && script[..1] == [first];
    assert Exec(s, [first]) == Step(s, p, first.1);
    assert Exec(s, script) == Step(Exec(s, [first]), p, WriteTrusted(writes));
  }

  /** A crash loses the process's copy and nothing in the file. */
  lemma CrashForgets(s: System, p: Pid)
    ensures Step(s, p, Crash).TaskOf(p).Idle? && Step(s, p, Crash).file == s.file
  {
  }
}
