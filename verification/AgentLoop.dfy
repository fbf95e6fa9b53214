// The agent's main loop (runner.rs): health, enrollment and check-in timers over a configuration
// another process may edit, and the rule about when a client may be used.
module AgentLoop {
  import opened Wrappers
  import opened MachineInts
  import opened Hex
  import opened Clock
  import opened AgentConfiguration
  import opened Enrollment
  import opened Pacing

  const HEALTH_PERIOD: nat := 300 * SECOND
  const ENROLLMENT_PERIOD: nat := 300 * SECOND
  const CHECK_IN_PERIOD: nat := 60 * SECOND

  datatype Setting = Setting(once: bool, autoEnroll: bool)

  datatype RunError =
    | HealthFailed
    | ApiLockFailed
    | DiskUnreadable
    | ClientUnusable
    | EnrollmentIncomplete(reason: EnrollmentError)
    | CheckInFailed

  /** The loop's variables; `api` is the base its client calls. */
  datatype Loop = Loop(
    config: AgentConfig,
    api: Option<string>,
    nextHealth: Instant,
    nextCheckIn: Instant,
    nextEnrollment: Instant)

  /**
   * Everything that answers one iteration: edits by other processes before it, flags, clocks in order,
   * outcomes. `interposed` is an edit between the reload and the attempt's own reading; one that comes
   * later is overwritten or read by a later iteration, so it is an edit before that.
   */
  datatype Tick = Tick(
    edited: Option<Directory>,
    stopped: bool,
    resumed: bool,
    healthAt: Instant,
    healthSucceeds: bool,
    healthDone: Instant,
    enrollmentAt: Instant,
    checkInAt: Instant,
    locked: bool,
    readable: bool,
    usable: string -> bool,
    interposed: Option<Directory>,
    enrollment: Exchange,
    usableAfter: string -> bool,
    enrollmentDone: Instant,
    syncSucceeds: bool,
    syncDone: Instant)
  {
    predicate Ordered() {
      healthAt <= healthDone <= enrollmentAt <= checkInAt <= enrollmentDone <= syncDone
    }

    function Logged(r: Reading, attempt: Option<Result<(), EnrollmentError>>, completed: bool,
                    checkIn: Option<CheckIn>, left: ConfigFile): Entry
    {
      Entry(resumed, enrollmentAt, checkInAt, enrollmentDone, syncDone, r.due, r.reloaded, r.seen, r.asked, enrollment,
            attempt, completed, checkIn, left)
    }

    /** The directory as an attempt finds it. */
    function Asked(d: Directory): Directory {
      if interposed.Some? then interposed.value else d
    }
  }

  /** What an iteration finds: whether a check-in is due, whether it reloaded, and the disk at both readings. */
  datatype Reading = Reading(due: bool, reloaded: bool, seen: Directory, asked: Directory)

  datatype CheckIn = CheckIn(base: string, token: string, device: Uuid, keys: map<U64, string>)

  /** What one iteration did: the disk it read, its attempt and what answered it, its check-in, the disk it left. */
  datatype Entry = Entry(
    resumed: bool,
    enrollmentAt: Instant,
    checkInAt: Instant,
    enrollmentDone: Instant,
    syncDone: Instant,
    due: bool,
    reloaded: bool,
    seen: Directory,
    asked: Directory,
    exchange: Exchange,
    attempt: Option<Result<(), EnrollmentError>>,
    completed: bool,
    checkIn: Option<CheckIn>,
    left: ConfigFile)

  datatype History = History(
    loop: Loop,
    directory: Directory,
    log: seq<Entry>,
    clock: Instant,
    exit: Option<Result<(), RunError>>)

  /** The client of a configuration: none without a token; `None` outside when it cannot be built. */
  function Connect(usable: string -> bool, config: AgentConfig): Option<Option<string>> {
    if config.agentToken.None? then Some(None)
    else match NewClient(usable, config.apiBase)
         case None => None
         case Some(base) => Some(Some(base))
  }

  /** The base a configuration with a token calls. */
  function ClientOf(config: AgentConfig): Option<string> {
    if config.agentToken.Some? then Some(TrimSlashes(config.apiBase)) else None
  }

  /** Changed credentials on disk replace the configuration and the client. */
  function Reloaded(l: Loop, disk: AgentConfig, usable: string -> bool): Option<Loop> {
    if l.config.Access() == disk.Access() then Some(l)
    else match Connect(usable, disk)
         case None => None
         case Some(api) => Some(l.(config := disk, api := api))
  }

  /** One enrollment attempt; a failed one leaves no client. */
  function Enrolled(setting: Setting, l: Loop, d: Directory, t: Tick)
    : (Loop, Directory, Result<(), EnrollmentError>, Option<RunError>)
  {
    var (after, config, verdict) := CheckedOrEnrolled(d, l.config, None, t.enrollment);
    var client := if verdict.Ok? then NewClient(t.usableAfter, config.apiBase) else None;
    (l.(config := config, api := client, nextEnrollment := t.enrollmentDone + ENROLLMENT_PERIOD), after, verdict,
     if verdict.Ok? then if client.None? then Some(ClientUnusable) else None
     else if setting.once then Some(EnrollmentIncomplete(verdict.error)) else None)
  }

  /** The check-in the loop's variables allow. */
  function CheckInOf(l: Loop): Option<CheckIn> {
    if l.api.Some? && l.config.agentToken.Some? && l.config.remoteDeviceId.Some? then
      Some(CheckIn(l.api.value, l.config.agentToken.value, l.config.remoteDeviceId.value, l.config.trustedKeys))
    else None
  }

  /** The end of an iteration: the check-in if it is due. */
  function Synced(setting: Setting, h: History, t: Tick, r: Reading,
                  attempt: Option<Result<(), EnrollmentError>>): History
  {
    var checkIn := if r.due then CheckInOf(h.loop) else None;
    h.(loop := if checkIn.Some? then h.loop.(nextCheckIn := t.syncDone + CHECK_IN_PERIOD) else h.loop,
       log := h.log + [t.Logged(r, attempt, true, checkIn, h.directory.config)],
       clock := t.syncDone,
       exit := if !setting.once then None
               else Some(if checkIn.Some? && !t.syncSucceeds then Err(CheckInFailed) else Ok(())))
  }

  /** The enrollment attempt and what follows it. */
  function Asking(setting: Setting, h: History, t: Tick, r: Reading): History {
    var (loop, after, verdict, error) := Enrolled(setting, h.loop, r.asked, t);
    var next := h.(loop := loop, directory := after);
    if error.Some? then
      next.(exit := Some(Err(error.value)), clock := t.syncDone,
            log := h.log + [t.Logged(r, Some(verdict), false, None, after.config)])
    else Synced(setting, next, t, r, Some(verdict))
  }

  /** From the reload on. */
  function Attended(setting: Setting, h: History, t: Tick, enrollmentDue: bool, due: bool): History
    requires h.directory.config.Stored?
  {
    var disk := h.directory.config.config;
    var asked := if enrollmentDue then t.Asked(h.directory) else h.directory;
    var r := Reading(due, h.loop.config.Access() != disk.Access(), h.directory, asked);
    match Reloaded(h.loop, disk, t.usable)
    case None => h.(exit := Some(Err(ClientUnusable)))
    case Some(reloaded) =>
      if enrollmentDue then Asking(setting, h.(loop := reloaded), t, r)
      else Synced(setting, h.(loop := reloaded), t, r, None)
  }

  /** One iteration. */
  function Iterated(setting: Setting, h: History, t: Tick): History {
    var healthDue := t.healthAt >= h.loop.nextHealth || t.resumed;
    var enrollmentDue := setting.autoEnroll && (t.enrollmentAt >= h.loop.nextEnrollment || t.resumed);
    var due := t.checkInAt >= h.loop.nextCheckIn || t.resumed;
    if t.stopped then h.(exit := Some(Ok(())))
    else if healthDue && !t.healthSucceeds then h.(exit := Some(Err(HealthFailed)))
    else
      var healthy := if healthDue then h.(loop := h.loop.(nextHealth := t.healthDone + HEALTH_PERIOD)) else h;
      if (enrollmentDue || due) && !t.locked then healthy.(exit := Some(Err(ApiLockFailed)))
      else if !t.readable || !h.directory.config.Stored? then healthy.(exit := Some(Err(DiskUnreadable)))
      else Attended(setting, healthy, t, enrollmentDue, due)
  }

  function Edited(h: History, t: Tick): History {
    if t.edited.Some? then h.(directory := t.edited.value) else h
  }

  /** A run that has ended stays as it is. */
  function Advanced(setting: Setting, h: History, t: Tick): History {
    if h.exit.Some? then h else Iterated(setting, Edited(h, t), t)
  }

  function Execute(setting: Setting, h: History, ticks: seq<Tick>): History {
    if ticks == [] then h
    else Advanced(setting, Execute(setting, h, ticks[..|ticks| - 1]), ticks[|ticks| - 1])
  }

  /** Where a run starts: right after a successful initialization. */
  ghost predicate Initial(h: History) {
    && h.directory.config == Stored(h.loop.config) && h.loop.config.Paired()
    && h.loop.api.Some? == h.loop.config.agentToken.Some?
    && (h.loop.api.Some? ==> h.loop.api.value == TrimSlashes(h.loop.config.apiBase))
    && h.log == [] && h.exit.None?
    && h.loop.nextHealth <= h.clock && h.loop.nextCheckIn <= h.clock && h.loop.nextEnrollment <= h.clock
  }

  /** Iterations follow each other in time. */
  ghost predicate InOrder(start: Instant, ticks: seq<Tick>) {
    && (forall i :: 0 <= i < |ticks| ==> start <= ticks[i].healthAt && ticks[i].Ordered())
    && (forall i, j :: 0 <= i < j < |ticks| ==> ticks[i].syncDone <= ticks[j].healthAt)
  }

  /** A health snapshot is written exactly when five minutes have passed since the last one, or after a resume. */
  lemma HealthExactly(setting: Setting, h: History, t: Tick)
    requires !t.stopped
    ensures var next, due := Iterated(setting, h, t), t.healthAt >= h.loop.nextHealth || t.resumed;
            && (due && !t.healthSucceeds ==> next.exit == Some(Err(HealthFailed)) && next.log == h.log)
            && (next.exit.None? ==>
                  next.loop.nextHealth == if due then t.healthDone + 300_000_000_000 else h.loop.nextHealth)
  {
    hide CheckedOrEnrolled, NewClient, CheckInOf, Connect;
  }

  // The rate of attempts.

  function SyncBeat(e: Entry): Beat {
    Beat(e.checkInAt, e.resumed, e.checkIn.Some?)
  }

  function EnrollmentBeat(e: Entry): Beat {
    Beat(e.enrollmentAt, e.resumed, e.attempt.Some?)
  }

  function SyncBeats(log: seq<Entry>): seq<Beat> {
    seq(|log|, i requires 0 <= i < |log| => SyncBeat(log[i]))
  }

  function EnrollmentBeats(log: seq<Entry>): seq<Beat> {
    seq(|log|, i requires 0 <= i < |log| => EnrollmentBeat(log[i]))
  }

  ghost predicate SyncOnPace(h: History) {
    && Paced(SyncBeats(h.log), CHECK_IN_PERIOD)
    && (h.exit.None? ==> Armed(SyncBeats(h.log), CHECK_IN_PERIOD, h.loop.nextCheckIn, h.clock))
  }

  ghost predicate EnrollmentOnPace(h: History) {
    && Paced(EnrollmentBeats(h.log), ENROLLMENT_PERIOD)
    && (h.exit.None? ==> Armed(EnrollmentBeats(h.log), ENROLLMENT_PERIOD, h.loop.nextEnrollment, h.clock))
  }

  /** What an iteration that reads the disk records, and how it re-arms the timers. */
  ghost predicate Records(h: History, t: Tick, enrollmentDue: bool, due: bool, next: History) {
    && |next.log| == |h.log| + 1 && next.log[..|h.log|] == h.log && next.clock == t.syncDone
    && var e := next.log[|h.log|];
    && e.resumed == t.resumed && e.enrollmentAt == t.enrollmentAt && e.checkInAt == t.checkInAt
    && e.enrollmentDone == t.enrollmentDone && e.syncDone == t.syncDone
    && e.due == due && e.attempt.Some? == enrollmentDue && (e.checkIn.Some? ==> due)
    && next.loop.nextEnrollment
       == (if enrollmentDue then t.enrollmentDone + ENROLLMENT_PERIOD else h.loop.nextEnrollment)
    && next.loop.nextCheckIn == (if e.checkIn.Some? then t.syncDone + CHECK_IN_PERIOD else h.loop.nextCheckIn)
  }

  lemma AskingRecords(setting: Setting, h: History, t: Tick, r: Reading)
    ensures Records(h, t, true, r.due, Asking(setting, h, t, r))
  {
    hide CheckedOrEnrolled, NewClient, CheckInOf;
  }

  lemma AttendedRecords(setting: Setting, h: History, t: Tick, enrollmentDue: bool, due: bool)
    requires h.directory.config.Stored?
    ensures var next := Attended(setting, h, t, enrollmentDue, due);
            Records(h, t, enrollmentDue, due, next) || (next.exit.Some? && next.log == h.log)
  {
    hide Asking, CheckInOf, Connect;
    var disk := h.directory.config.config;
    var reloaded := Reloaded(h.loop, disk, t.usable);
    if enrollmentDue && reloaded.Some? {
      var r := Reading(due, h.loop.config.Access() != disk.Access(), h.directory, t.Asked(h.directory));
      AskingRecords(setting, h.(loop := reloaded.value), t, r);
    }
  }

  lemma AdvanceRecords(setting: Setting, h: History, t: Tick)
    requires h.exit.None?
    ensures var next := Advanced(setting, h, t);
            || (next.exit.Some? && next.log == h.log)
            || Records(h, t, setting.autoEnroll && (t.enrollmentAt >= h.loop.nextEnrollment || t.resumed),
                       t.checkInAt >= h.loop.nextCheckIn || t.resumed, next)
  {
    hide Attended;
    var d := Edited(h, t);
    var healthDue := t.healthAt >= h.loop.nextHealth || t.resumed;
    var healthy := if healthDue then d.(loop := h.loop.(nextHealth := t.healthDone + HEALTH_PERIOD)) else d;
    if healthy.directory.config.Stored? {
      AttendedRecords(setting, healthy, t, setting.autoEnroll && (t.enrollmentAt >= h.loop.nextEnrollment || t.resumed),
                      t.checkInAt >= h.loop.nextCheckIn || t.resumed);
    }
  }

  /** How an iteration over the directory `d` arrives at its entry and at the configuration in memory. */
  ghost predicate Explains(loop: Loop, d: Directory, t: Tick, e: Entry, after: Loop) {
    && d.config.Stored? && e.seen == d
    && e.reloaded == (loop.config.Access() != d.config.config.Access())
    && var memory := if e.reloaded then d.config.config else loop.config;
    && (e.attempt.Some? ==>
          && e.asked == t.Asked(d) && e.exchange == t.enrollment
          && e.attempt.value == CheckedOrEnrolled(e.asked, memory, None, e.exchange).2
          && after.config == CheckedOrEnrolled(e.asked, memory, None, e.exchange).1)
    && (e.attempt.None? ==> after.config == memory && e.left == d.config)
    && (e.attempt.None? ==> after.api == if e.reloaded then ClientOf(memory) else loop.api)
    && (e.attempt.Some? && e.attempt.value.Err? ==> after.api.None?)
    && e.checkIn == if e.completed && e.due then CheckInOf(after) else None
  }

  /** The entry of an attempt. */
  lemma AskingExplains(setting: Setting, h: History, t: Tick, r: Reading)
    ensures var next := Asking(setting, h, t, r);
            var (_, config, verdict) := CheckedOrEnrolled(r.asked, h.loop.config, None, t.enrollment);
            && |next.log| == |h.log| + 1 && next.log[..|h.log|] == h.log && next.loop.config == config
            && var e := next.log[|h.log|];
            && e.reloaded == r.reloaded && e.seen == r.seen && e.asked == r.asked && e.exchange == t.enrollment
            && e.attempt == Some(verdict) && (verdict.Err? ==> next.loop.api.None?)
            && e.checkIn == if e.completed && e.due then CheckInOf(next.loop) else None
  {
    hide CheckedOrEnrolled, NewClient;
  }

  lemma ReloadedClient(l: Loop, disk: AgentConfig, usable: string -> bool)
    requires Reloaded(l, disk, usable).Some?
    ensures Reloaded(l, disk, usable).value.api == if l.config.Access() == disk.Access() then l.api else ClientOf(disk)
  {
    hide TrimSlashes;
  }

  lemma AttendedExplains(setting: Setting, h: History, t: Tick, enrollmentDue: bool, due: bool)
    requires h.directory.config.Stored?
    ensures var next := Attended(setting, h, t, enrollmentDue, due);
            || (next.exit.Some? && next.log == h.log)
            || (|next.log| == |h.log| + 1 && next.log[..|h.log|] == h.log
                && Explains(h.loop, h.directory, t, next.log[|h.log|], next.loop))
  {
    hide Asking, CheckedOrEnrolled, Connect, ClientOf;
    var disk := h.directory.config.config;
    var reloaded := Reloaded(h.loop, disk, t.usable);
    if reloaded.Some? {
      ReloadedClient(h.loop, disk, t.usable);
    }
    if enrollmentDue && reloaded.Some? {
      var r := Reading(due, h.loop.config.Access() != disk.Access(), h.directory, t.Asked(h.directory));
      AskingExplains(setting, h.(loop := reloaded.value), t, r);
    }
  }

  lemma AdvanceExplains(setting: Setting, h: History, t: Tick)
    requires h.exit.None?
    ensures var next := Advanced(setting, h, t);
            || (next.exit.Some? && next.log == h.log)
            || (|next.log| == |h.log| + 1 && next.log[..|h.log|] == h.log
                && Explains(h.loop, Edited(h, t).directory, t, next.log[|h.log|], next.loop))
  {
    hide Attended, CheckedOrEnrolled, ClientOf, CheckInOf;
    var d := Edited(h, t);
    var healthDue := t.healthAt >= h.loop.nextHealth || t.resumed;
    var healthy := if healthDue then d.(loop := h.loop.(nextHealth := t.healthDone + HEALTH_PERIOD)) else d;
    if healthy.directory.config.Stored? {
      AttendedExplains(setting, healthy, t,
                       setting.autoEnroll && (t.enrollmentAt >= h.loop.nextEnrollment || t.resumed),
                       t.checkInAt >= h.loop.nextCheckIn || t.resumed);
    }
  }

  lemma {:induction false} RunKeepsPace(setting: Setting, h: History, ticks: seq<Tick>)
    requires Initial(h) && InOrder(h.clock, ticks)
    ensures var done := Execute(setting, h, ticks);
            && SyncOnPace(done) && EnrollmentOnPace(done)
            && (done.exit.None? ==> done.clock == if ticks == [] then h.clock else ticks[|ticks| - 1].syncDone)
  {
    if ticks != [] {
      hide Initial, Advanced, SyncOnPace, EnrollmentOnPace;
      var before, t := ticks[..|ticks| - 1], ticks[|ticks| - 1];
      RunKeepsPace(setting, h, before);
      AdvanceKeepsPace(setting, Execute(setting, h, before), t);
    }
  }

  lemma AdvanceKeepsPace(setting: Setting, h: History, t: Tick)
    requires SyncOnPace(h) && EnrollmentOnPace(h) && (h.exit.None? ==> h.clock <= t.healthAt) && t.Ordered()
    ensures var next := Advanced(setting, h, t);
            && SyncOnPace(next) && EnrollmentOnPace(next)
            && (next.exit.None? ==> next.clock == t.syncDone)
  {
    if h.exit.None? {
      hide Advanced, Paced, Armed;
      AdvanceRecords(setting, h, t);
      var next := Advanced(setting, h, t);
      if next.log != h.log {
        RecordKeepsPace(setting, h, t, next);
      }
    }
  }

  lemma RecordKeepsPace(setting: Setting, h: History, t: Tick, next: History)
    requires SyncOnPace(h) && EnrollmentOnPace(h) && h.exit.None? && h.clock <= t.healthAt && t.Ordered()
    requires Records(h, t, setting.autoEnroll && (t.enrollmentAt >= h.loop.nextEnrollment || t.resumed),
                     t.checkInAt >= h.loop.nextCheckIn || t.resumed, next)
    ensures SyncOnPace(next) && EnrollmentOnPace(next)
  {
    hide Paced, Armed;
    var e := next.log[|h.log|];
    assert next.log == h.log + [e];
    assert SyncBeats(next.log) == SyncBeats(h.log) + [SyncBeat(e)];
    assert EnrollmentBeats(next.log) == EnrollmentBeats(h.log) + [EnrollmentBeat(e)];
    BeatKeepsPace(SyncBeats(h.log), CHECK_IN_PERIOD, h.loop.nextCheckIn, h.clock, SyncBeat(e),
                  next.loop.nextCheckIn, t.syncDone);
    BeatKeepsPace(EnrollmentBeats(h.log), ENROLLMENT_PERIOD, h.loop.nextEnrollment, h.clock, EnrollmentBeat(e),
                  next.loop.nextEnrollment, t.enrollmentDone);
    LaterStillArmed(EnrollmentBeats(next.log), ENROLLMENT_PERIOD, next.loop.nextEnrollment, t.enrollmentDone,
                    t.syncDone);
  }

  lemma LaterStillArmed(beats: seq<Beat>, period: nat, next: Instant, now: Instant, later: Instant)
    requires Armed(beats, period, next, now) && now <= later
    ensures Armed(beats, period, next, later)
  {
  }

  /** In a stretch of iterations of at most `seconds`: one attempt, one per period that fits, one per resume. */
  ghost predicate RateBounded(log: seq<Entry>, from: nat, to: nat, seconds: nat)
    requires from < to <= |log|
  {
    var stretch := log[from..to];
    var resumes := |set i | 0 <= i < |stretch| && stretch[i].resumed|;
    && (log[to - 1].checkInAt - log[from].checkInAt <= seconds * 1_000_000_000 ==>
          |set i | 0 <= i < |stretch| && stretch[i].checkIn.Some?| <= 1 + seconds / 60 + resumes)
    && (log[to - 1].enrollmentAt - log[from].enrollmentAt <= seconds * 1_000_000_000 ==>
          |set i | 0 <= i < |stretch| && stretch[i].attempt.Some?| <= 1 + seconds / 300 + resumes)
  }

  /** The rate bound, for every run, clock and mix of failures. */
  lemma RateTheorem(setting: Setting, h: History, ticks: seq<Tick>, from: nat, to: nat, seconds: nat)
    requires Initial(h) && InOrder(h.clock, ticks)
    requires from < to <= |Execute(setting, h, ticks).log|
    ensures RateBounded(Execute(setting, h, ticks).log, from, to, seconds)
  {
    hide Execute, Initial, InOrder, Paced, Armed, RateBounded;
    RunKeepsPace(setting, h, ticks);
    StretchRates(Execute(setting, h, ticks).log, from, to, seconds);
  }

  lemma StretchRates(log: seq<Entry>, from: nat, to: nat, seconds: nat)
    requires Paced(SyncBeats(log), CHECK_IN_PERIOD) && Paced(EnrollmentBeats(log), ENROLLMENT_PERIOD)
             && from < to <= |log|
    ensures RateBounded(log, from, to, seconds)
  {
    hide Attempts, Resumes, Paced;
    SyncStretch(log, from, to, seconds);
    EnrollmentStretch(log, from, to, seconds);
    SyncCounts(log[from..to]);
    EnrollmentCounts(log[from..to]);
  }

  lemma SyncCounts(log: seq<Entry>)
    ensures Attempts(SyncBeats(log)) == |set i | 0 <= i < |log| && log[i].checkIn.Some?|
    ensures Resumes(SyncBeats(log)) == |set i | 0 <= i < |log| && log[i].resumed|
  {
    hide Attempts, Resumes;
    AttemptsExactly(SyncBeats(log));
    ResumesExactly(SyncBeats(log));
    var beats := SyncBeats(log);
    assert (set i | 0 <= i < |beats| && beats[i].attempted) == set i | 0 <= i < |log| && log[i].checkIn.Some?;
    assert (set i | 0 <= i < |beats| && beats[i].resumed) == set i | 0 <= i < |log| && log[i].resumed;
  }

  lemma EnrollmentCounts(log: seq<Entry>)
    ensures Attempts(EnrollmentBeats(log)) == |set i | 0 <= i < |log| && log[i].attempt.Some?|
    ensures Resumes(EnrollmentBeats(log)) == |set i | 0 <= i < |log| && log[i].resumed|
  {
    hide Attempts, Resumes;
    AttemptsExactly(EnrollmentBeats(log));
    ResumesExactly(EnrollmentBeats(log));
    var beats := EnrollmentBeats(log);
    assert (set i | 0 <= i < |beats| && beats[i].attempted) == set i | 0 <= i < |log| && log[i].attempt.Some?;
    assert (set i | 0 <= i < |beats| && beats[i].resumed) == set i | 0 <= i < |log| && log[i].resumed;
  }

  lemma SyncStretch(log: seq<Entry>, from: nat, to: nat, seconds: nat)
    requires Paced(SyncBeats(log), CHECK_IN_PERIOD) && from < to <= |log|
    ensures log[to - 1].checkInAt - log[from].checkInAt <= seconds * SECOND ==>
              Attempts(SyncBeats(log[from..to])) <= 1 + seconds / 60 + Resumes(SyncBeats(log[from..to]))
  {
    hide Paced, Attempts, Resumes;
    assert SyncBeats(log[from..to]) == SyncBeats(log)[from..to];
    StretchBound(SyncBeats(log), CHECK_IN_PERIOD, 60, from, to, seconds);
  }

  lemma EnrollmentStretch(log: seq<Entry>, from: nat, to: nat, seconds: nat)
    requires Paced(EnrollmentBeats(log), ENROLLMENT_PERIOD) && from < to <= |log|
    ensures log[to - 1].enrollmentAt - log[from].enrollmentAt <= seconds * SECOND ==>
              Attempts(EnrollmentBeats(log[from..to])) <= 1 + seconds / 300 + Resumes(EnrollmentBeats(log[from..to]))
  {
    hide Paced, Attempts, Resumes;
    assert EnrollmentBeats(log[from..to]) == EnrollmentBeats(log)[from..to];
    StretchBound(EnrollmentBeats(log), ENROLLMENT_PERIOD, 300, from, to, seconds);
  }

  lemma StretchBound(beats: seq<Beat>, period: nat, every: nat, from: nat, to: nat, seconds: nat)
    requires Paced(beats, period) && from < to <= |beats| && every > 0 && period == every * SECOND
    ensures beats[to - 1].at - beats[from].at <= seconds * SECOND ==>
              Attempts(beats[from..to]) <= 1 + seconds / every + Resumes(beats[from..to])
  {
    if beats[to - 1].at - beats[from].at <= seconds * SECOND {
      WindowBound(beats, period, from, to, seconds * SECOND);
      SameQuotient(seconds, every);
    }
  }

  lemma SameQuotient(seconds: nat, every: nat)
    requires every > 0
    ensures every * SECOND > 0 && (seconds * SECOND) / (every * SECOND) <= seconds / every
  {
    var q := seconds / every;
    assert seconds < (q + 1) * every;
    assert seconds * SECOND < (q + 1) * (every * SECOND);
    QuotientBelow(seconds * SECOND, q + 1, every * SECOND);
  }

  lemma QuotientBelow(x: nat, n: nat, d: nat)
    requires d > 0 && x < n * d
    ensures x / d < n
  {
    if x / d >= n {
      ProductGrows(n, x / d, d);
    }
  }

  // When attempts are due.

  /** A period after the latest check-in, or the start of the run. */
  function NextCheckIn(start: Instant, log: seq<Entry>): Instant {
    if log == [] then start
    else
      var n := |log| - 1;
      if log[n].checkIn.Some? then log[n].syncDone + CHECK_IN_PERIOD else NextCheckIn(start, log[..n])
  }

  /** A period after the latest enrollment attempt, or the start of the run. */
  function NextEnrollment(start: Instant, log: seq<Entry>): Instant {
    if log == [] then start
    else
      var n := |log| - 1;
      if log[n].attempt.Some? then log[n].enrollmentDone + ENROLLMENT_PERIOD else NextEnrollment(start, log[..n])
  }

  /** Iteration `j` attempted exactly what was due: a period after the last time, or at once after a resume. */
  ghost predicate OnSchedule(setting: Setting, start: Loop, log: seq<Entry>, j: nat)
    requires j < |log|
  {
    && (log[j].due <==> log[j].checkInAt >= NextCheckIn(start.nextCheckIn, log[..j]) || log[j].resumed)
    && (log[j].attempt.Some? <==>
          setting.autoEnroll
            && (log[j].enrollmentAt >= NextEnrollment(start.nextEnrollment, log[..j]) || log[j].resumed))
  }

  /** No attempt comes early and none is put off, over every run; failed attempts re-arm as successful ones do. */
  lemma {:induction false} ScheduleTheorem(setting: Setting, h: History, ticks: seq<Tick>)
    requires Initial(h)
    ensures var done := Execute(setting, h, ticks);
            && (done.exit.None? ==>
                  && done.loop.nextCheckIn == NextCheckIn(h.loop.nextCheckIn, done.log)
                  && done.loop.nextEnrollment == NextEnrollment(h.loop.nextEnrollment, done.log))
            && forall j :: 0 <= j < |done.log| ==> OnSchedule(setting, h.loop, done.log, j)
  {
    if ticks != [] {
      var n := |ticks| - 1;
      var before := Execute(setting, h, ticks[..n]);
      ScheduleTheorem(setting, h, ticks[..n]);
      if before.exit.None? {
        AdvanceRecords(setting, before, ticks[n]);
        hide Advanced, OnSchedule, NextCheckIn, NextEnrollment, Initial;
        var next := Advanced(setting, before, ticks[n]);
        if next.log != before.log {
          RecordOnSchedule(setting, h.loop, before, ticks[n], next);
        }
      }
    }
  }

  lemma RecordOnSchedule(setting: Setting, start: Loop, h: History, t: Tick, next: History)
    requires h.loop.nextCheckIn == NextCheckIn(start.nextCheckIn, h.log)
    requires h.loop.nextEnrollment == NextEnrollment(start.nextEnrollment, h.log)
    requires forall j :: 0 <= j < |h.log| ==> OnSchedule(setting, start, h.log, j)
    requires Records(h, t, setting.autoEnroll && (t.enrollmentAt >= h.loop.nextEnrollment || t.resumed),
                     t.checkInAt >= h.loop.nextCheckIn || t.resumed, next)
    ensures next.loop.nextCheckIn == NextCheckIn(start.nextCheckIn, next.log)
    ensures next.loop.nextEnrollment == NextEnrollment(start.nextEnrollment, next.log)
    ensures forall j :: 0 <= j < |next.log| ==> OnSchedule(setting, start, next.log, j)
  {
    hide CHECK_IN_PERIOD, ENROLLMENT_PERIOD;
    forall j | 0 <= j < |next.log| ensures OnSchedule(setting, start, next.log, j) {
      if j < |h.log| {
        assert OnSchedule(setting, start, h.log, j);
        assert next.log[..j] == h.log[..j] && next.log[j] == h.log[j];
      } else {
        assert next.log[..j] == h.log;
      }
    }
  }

  // The loop over its variables and the shared directory.

  /** `run` from the first reading of the clock on, given the configuration `initialize` returned. */
  function Started(d: Directory, config: AgentConfig, usable: string -> bool, now: Instant): History {
    match Connect(usable, config)
    case None => History(Loop(config, None, now, now, now), d, [], now, Some(Err(ClientUnusable)))
    case Some(api) => History(Loop(config, api, now, now, now), d, [], now, None)
  }

  lemma StartedInitial(d: Directory, disk: Disk, usable: string -> bool, now: Instant)
    requires Initialized(d, disk).1.Ok?
    ensures var (after, config) := Initialized(d, disk);
            var h := Started(after, config.value, usable, now);
            h.exit.None? ==> Initial(h)
  {
    InitializeTheorem(d, disk);
    hide Initialized, TrimSlashes;
  }

  /** The same log, directory and end; the loop's own variables die with the run. */
  ghost predicate SameRun(a: History, b: History) {
    && a.log == b.log && a.directory == b.directory && a.exit == b.exit
    && (a.exit.None? ==> a == b)
  }

  class Runner {
    const setting: Setting
    const directory: DataDirectory
    var config: AgentConfig
    var api: Option<string>
    var nextHealth: Instant
    var nextCheckIn: Instant
    var nextEnrollment: Instant
    ghost var log: seq<Entry>
    ghost var clock: Instant

    ghost function View(exit: Option<Result<(), RunError>>): History
      reads this, directory
    {
      History(Loop(config, api, nextHealth, nextCheckIn, nextEnrollment), directory.View(), log, clock, exit)
    }

    constructor (setting: Setting, directory: DataDirectory, config: AgentConfig, api: Option<string>, now: Instant)
      ensures this.setting == setting && this.directory == directory
      ensures View(None) == History(Loop(config, api, now, now, now), directory.View(), [], now, None)
    {
      this.setting, this.directory := setting, directory;
      this.config, this.api := config, api;
      nextHealth, nextCheckIn, nextEnrollment := now, now, now;
      log, clock := [], now;
    }

    /** The reload: a changed configuration on disk replaces memory and client. */
    method Reload(disk: AgentConfig, usable: string -> bool) returns (ok: bool)
      modifies this
      ensures log == old(log) && clock == old(clock)
      ensures ok == Reloaded(old(View(None)).loop, disk, usable).Some?
      ensures ok ==> View(None) == old(View(None)).(loop := Reloaded(old(View(None)).loop, disk, usable).value)
    {
      if config.agentToken != disk.agentToken || config.remoteDeviceId != disk.remoteDeviceId
        || config.apiBase != disk.apiBase {
        config := disk;
        api := None;
        if config.agentToken.Some? {
          api := NewClient(usable, config.apiBase);
          return api.Some?;
        }
      }
      return true;
    }

    /** One enrollment attempt; a failed one leaves no client. */
    method Enroll(t: Tick) returns (verdict: Result<(), EnrollmentError>, error: Option<RunError>)
      modifies this, directory
      ensures log == old(log) && clock == old(clock)
      ensures (View(None).loop, directory.View(), verdict, error)
           == Enrolled(setting, old(View(None)).loop, old(directory.View()), t)
    {
      hide CheckedOrEnrolled, NewClient;
      config, verdict := CheckOrEnrollConfig(directory, config, None, t.enrollment);
      api, error := None, None;
      if verdict.Ok? {
        api := NewClient(t.usableAfter, config.apiBase);
        if api.None? {
          error := Some(ClientUnusable);
        }
      } else if setting.once {
        error := Some(EnrollmentIncomplete(verdict.error));
      }
      nextEnrollment := t.enrollmentDone + ENROLLMENT_PERIOD;
    }

    /** The check-in, if it is due and everything it needs is there. */
    method Synchronize(t: Tick, r: Reading, attempt: Option<Result<(), EnrollmentError>>)
      returns (exit: Option<Result<(), RunError>>)
      modifies this
      ensures View(exit) == Synced(setting, old(View(None)), t, r, attempt)
    {
      exit := if setting.once then Some(Ok(())) else None;
      var checkIn: Option<CheckIn> := None;
      if r.due && api.Some? && config.agentToken.Some? && config.remoteDeviceId.Some? {
        checkIn := Some(CheckIn(api.value, config.agentToken.value, config.remoteDeviceId.value, config.trustedKeys));
        if !t.syncSucceeds && setting.once {
          exit := Some(Err(CheckInFailed));
        }
        nextCheckIn := t.syncDone + CHECK_IN_PERIOD;
      }
      log := log + [t.Logged(r, attempt, true, checkIn, directory.config)];
      clock := t.syncDone;
    }

    method Iterate(t: Tick) returns (exit: Option<Result<(), RunError>>)
      modifies this, directory
      ensures SameRun(View(exit), Iterated(setting, old(View(None)), t))
    {
      hide Attended;
      if t.stopped {
        return Some(Ok(()));
      }
      if t.healthAt >= nextHealth || t.resumed {
        if !t.healthSucceeds {
          return Some(Err(HealthFailed));
        }
        nextHealth := t.healthDone + HEALTH_PERIOD;
      }
      var enrollmentDue := setting.autoEnroll && (t.enrollmentAt >= nextEnrollment || t.resumed);
      var due := t.checkInAt >= nextCheckIn || t.resumed;
      if (enrollmentDue || due) && !t.locked {
        return Some(Err(ApiLockFailed));
      }
      if !t.readable || !directory.config.Stored? {
        return Some(Err(DiskUnreadable));
      }
      exit := Attend(t, enrollmentDue, due);
    }

    method Attend(t: Tick, enrollmentDue: bool, due: bool) returns (exit: Option<Result<(), RunError>>)
      requires directory.config.Stored?
      modifies this, directory
      ensures SameRun(View(exit), Attended(setting, old(View(None)), t, enrollmentDue, due))
    {
      hide Enrolled, Reloaded, Synced;
      var seen, reloaded := directory.View(), config.Access() != directory.config.config.Access();
      var loaded := Reload(directory.config.config, t.usable);
      if !loaded {
        return Some(Err(ClientUnusable));
      }
      var attempt: Option<Result<(), EnrollmentError>> := None;
      var r := Reading(due, reloaded, seen, seen);
      if enrollmentDue {
        if t.interposed.Some? {
          directory.Replace(t.interposed.value);
        }
        r := r.(asked := directory.View());
        var verdict, error := Enroll(t);
        attempt := Some(verdict);
        if error.Some? {
          log := log + [t.Logged(r, attempt, false, None, directory.config)];
          clock := t.syncDone;
          return Some(Err(error.value));
        }
      }
      exit := Synchronize(t, r, attempt);
    }

    /** The loop: between iterations, while this process sleeps, others may rewrite the directory. */
    method Run(ticks: seq<Tick>) returns (exit: Option<Result<(), RunError>>)
      modifies this, directory
      ensures SameRun(View(exit), Execute(setting, old(View(None)), ticks))
    {
      exit := None;
      ghost var start := View(None);
      assert ticks[..0] == [];
      for k := 0 to |ticks|
        invariant exit.None?
        invariant View(None) == Execute(setting, start, ticks[..k])
      {
        hide Iterated, Execute;
        var t := ticks[k];
        ExecuteNext(setting, start, ticks, k);
        if t.edited.Some? {
          directory.Replace(t.edited.value);
        }
        exit := Iterate(t);
        if exit.Some? {
          EndedStays(setting, start, ticks, k + 1);
          return exit;
        }
      }
      assert ticks[..|ticks|] == ticks;
    }
  }

  lemma ExecuteNext(setting: Setting, h: History, ticks: seq<Tick>, k: nat)
    requires k < |ticks|
    ensures Execute(setting, h, ticks[..k + 1]) == Advanced(setting, Execute(setting, h, ticks[..k]), ticks[k])
  {
    assert ticks[..k + 1][..k] == ticks[..k];
  }

  lemma {:induction false} EndedStays(setting: Setting, h: History, ticks: seq<Tick>, k: nat)
    requires k <= |ticks| && Execute(setting, h, ticks[..k]).exit.Some?
    ensures Execute(setting, h, ticks) == Execute(setting, h, ticks[..k])
    decreases |ticks| - k
  {
    assert ticks[..|ticks|] == ticks;
    if k < |ticks| {
      ExecuteNext(setting, h, ticks, k);
      EndedStays(setting, h, ticks, k + 1);
    }
  }
}
