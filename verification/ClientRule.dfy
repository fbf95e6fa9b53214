// When the loop may send a check-in: the credentials it uses and the enrollment answer it rests on.
module ClientRule {
  import opened Wrappers
  import opened Hex
  import opened Clock
  import opened AgentConfiguration
  import opened Enrollment
  import opened AgentLoop

  function AccessOf(file: ConfigFile): Option<Credentials> {
    if file.Stored? then Some(file.config.Access()) else None
  }

  /** What the log so far says about the credentials on disk. */
  datatype Standing =
    | Unasked
    | Confirmed
    | Denied(clearFailed: bool)
    | Replaced

  function AttemptStanding(e: Entry): Standing
    requires e.attempt.Some?
  {
    match e.attempt.value
    case Ok(_) => Confirmed
    case Err(error) => if Interposed(e) then Replaced else Denied(error.ClearNotWritten?)
  }

  /** The latest attempt decides, unless another process changes the credentials or the API base. */
  function StandingOf(log: seq<Entry>): Standing {
    if log == [] then Unasked
    else
      var n := |log| - 1;
      var before := StandingOf(log[..n]);
      if log[n].attempt.Some? then AttemptStanding(log[n])
      else if before.Denied? && ChangedAt(log, n) then Replaced
      else before
  }

  /** The disk read in iteration `k` is not as the iteration before left it. */
  predicate ChangedAt(log: seq<Entry>, k: nat) {
    0 < k < |log| && AccessOf(log[k].seen.config) != AccessOf(log[k - 1].left)
  }

  /** The attempt of an iteration found other credentials or another base than its reload. */
  predicate Interposed(e: Entry) {
    AccessOf(e.asked.config) != AccessOf(e.seen.config)
  }

  /** Iteration `i` made the latest attempt. */
  ghost predicate LatestAttempt(log: seq<Entry>, i: nat) {
    i < |log| && log[i].attempt.Some? && forall k :: i < k < |log| ==> log[k].attempt.None?
  }

  /** Another process changed the credentials after iteration `i` reloaded, and before the last reading. */
  ghost predicate ChangedSince(log: seq<Entry>, i: nat)
    requires i < |log|
  {
    Interposed(log[i]) || exists k: nat :: i < k && ChangedAt(log, k)
  }

  /** The standing in terms of the whole log: what the latest attempt left, and changes since. */
  lemma {:induction false} StandingMeans(log: seq<Entry>, i: nat)
    requires LatestAttempt(log, i)
    ensures StandingOf(log) == match log[i].attempt.value
                               case Ok(_) => Confirmed
                               case Err(error) =>
                                 if ChangedSince(log, i) then Replaced else Denied(error.ClearNotWritten?)
  {
    var n := |log| - 1;
    UnfoldStanding(log);
    hide StandingOf, ChangedAt;
    if i < n {
      var before := log[..n];
      StandingMeans(before, i);
      ChangesSplit(log, i);
    }
  }

  lemma ChangesSplit(log: seq<Entry>, i: nat)
    requires i < |log| - 1
    ensures ChangedSince(log, i) <==> ChangedSince(log[..|log| - 1], i) || ChangedAt(log, |log| - 1)
  {
    var n := |log| - 1;
    assert forall k: nat :: ChangedAt(log, k) <==> ChangedAt(log[..n], k) || (k == n && ChangedAt(log, n));
  }

  lemma {:induction false} UnaskedMeans(log: seq<Entry>)
    ensures StandingOf(log).Unasked? <==> forall i: nat :: !LatestAttempt(log, i)
  {
    if log != [] {
      var n := |log| - 1;
      UnaskedMeans(log[..n]);
      if log[n].attempt.Some? {
        assert LatestAttempt(log, n);
      } else {
        assert forall i: nat :: LatestAttempt(log, i) <==> LatestAttempt(log[..n], i);
      }
    }
  }

  lemma UnfoldStanding(log: seq<Entry>)
    requires log != []
    ensures var n := |log| - 1;
            StandingOf(log) == if log[n].attempt.Some? then AttemptStanding(log[n])
                               else if StandingOf(log[..n]).Denied? && ChangedAt(log, n) then Replaced
                               else StandingOf(log[..n])
  {
  }

  // The invariant of the loop.

  /** Memory holds the credentials on disk, with a client exactly when there is a token. */
  predicate Tracks(l: Loop, disk: AgentConfig) {
    && l.config.Access() == disk.Access()
    && l.api == ClientOf(disk)
  }

  /** A client is that of the configuration in memory. */
  predicate OwnClient(l: Loop) {
    l.api.Some? ==> l.api == ClientOf(l.config)
  }

  /** Memory against the disk once the disk has been read, before any attempt. */
  predicate AfterReading(l: Loop, disk: AgentConfig, standing: Standing) {
    match standing
    case Denied(false) => l.config.Access() == disk.Access() && l.api.None?
    case Replaced => l.config.Access() == disk.Access() && OwnClient(l)
    case _ => Tracks(l, disk)
  }

  /** Memory against the disk right after a denied attempt. */
  predicate AfterDenial(l: Loop, disk: AgentConfig, clearFailed: bool) {
    && l.api.None?
    && if clearFailed then l.config.Access() == disk.Cleared().Access()
       else l.config.Access() == disk.Access() || disk.agentToken.None?
  }

  /** Memory against the disk between iterations. */
  predicate Between(l: Loop, file: ConfigFile, standing: Standing, justAsked: bool) {
    if standing.Replaced? then OwnClient(l)
    else
      && file.Stored?
      && if standing.Denied? && justAsked then AfterDenial(l, file.config, standing.clearFailed)
         else AfterReading(l, file.config, standing)
  }

  ghost predicate Lawful(setting: Setting, h: History) {
    && (h.log != [] ==> h.log[|h.log| - 1].left == h.directory.config)
    && Between(h.loop, h.directory.config, StandingOf(h.log), h.log != [] && h.log[|h.log| - 1].attempt.Some?)
    && (StandingOf(h.log).Unasked? && setting.autoEnroll ==> h.log == [] && h.loop.nextEnrollment <= h.clock)
  }

  /** A check-in carries the credentials on disk. */
  predicate Carries(checkIn: CheckIn, disk: AgentConfig) {
    && disk.agentToken == Some(checkIn.token) && disk.remoteDeviceId == Some(checkIn.device)
    && checkIn.base == TrimSlashes(disk.apiBase)
  }

  /** What the check-in of an iteration comes down to, given the standing it ends with. */
  predicate CheckInRuled(e: Entry, standing: Standing) {
    && (e.checkIn.Some? ==>
          && e.due && e.left.Stored? && Carries(e.checkIn.value, e.left.config)
          && (standing.Denied? ==> standing.clearFailed && e.attempt.None?)
          && (e.attempt.Some? ==> e.attempt.value.Ok?))
    && (&& e.completed && e.due && e.left.Stored? && e.left.config.Authenticated()
        && (standing.Denied? ==> standing.clearFailed && e.attempt.None?) && !standing.Replaced?
        ==> e.checkIn.Some?)
  }

  predicate Ruled(setting: Setting, log: seq<Entry>, j: nat)
    requires j < |log|
  {
    && CheckInRuled(log[j], StandingOf(log[..j + 1]))
    && (setting.autoEnroll ==> !StandingOf(log[..j + 1]).Unasked?)
  }

  /** Reading the disk brings memory in step with it, and gives no client to a denied device. */
  lemma ReadingSettles(setting: Setting, h: History, disk: AgentConfig, usable: string -> bool)
    requires Lawful(setting, h) && Reloaded(h.loop, disk, usable).Some?
    ensures var changed := h.log != [] && Some(disk.Access()) != AccessOf(h.log[|h.log| - 1].left);
            var standing := StandingOf(h.log);
            var l := Reloaded(h.loop, disk, usable).value;
            && AfterReading(l, disk, if standing.Denied? && changed then Replaced else standing)
            && l.config.Access() == disk.Access()
            && l.nextEnrollment == h.loop.nextEnrollment
  {
    assert h.log == [] ==> StandingOf(h.log).Unasked?;
    hide StandingOf, TrimSlashes;
  }

  /** The entry of an iteration that goes on to its check-in. */
  lemma SyncedRuled(setting: Setting, h: History, t: Tick, r: Reading, attempt: Option<Result<(), EnrollmentError>>,
                    standing: Standing)
    requires attempt.None? ==> h.directory.config.Stored? && AfterReading(h.loop, h.directory.config.config, standing)
    requires attempt.Some? && attempt.value.Ok? ==>
               standing.Confirmed? && h.directory.config.Stored? && Tracks(h.loop, h.directory.config.config)
    requires attempt.Some? && attempt.value.Err? ==> (standing.Denied? || standing.Replaced?) && h.loop.api.None?
    ensures CheckInRuled(Synced(setting, h, t, r, attempt).log[|h.log|], standing)
  {
    hide TrimSlashes;
  }

  /** What an attempt makes of memory, disk and client; `seen` is the disk as the reload found it. */
  lemma AttemptLeaves(setting: Setting, l: Loop, seen: Directory, asked: Directory, t: Tick)
    requires seen.config.Stored? && l.config.Access() == seen.config.config.Access()
    ensures var (loop, after, verdict, error) := Enrolled(setting, l, asked, t);
            && (verdict.Ok? && error.None? ==> after.config.Stored? && Tracks(loop, after.config.config))
            && (verdict.Err? ==> loop.api.None?)
            && (verdict.Err? && AccessOf(asked.config) == AccessOf(seen.config) ==>
                  after.config.Stored? && AfterDenial(loop, after.config.config, verdict.error.ClearNotWritten?))
  {
    hide CheckedOrEnrolled, TrimSlashes;
    if CheckedOrEnrolled(asked, l.config, None, t.enrollment).2.Ok? {
      SuccessLeavesCredentials(asked, l.config, None, t.enrollment);
    } else if AccessOf(asked.config) == AccessOf(seen.config) {
      FailureLeaves(asked, l.config, t.enrollment);
    }
  }

  /** The standing after one more entry. */
  lemma StandingGrows(log: seq<Entry>, e: Entry)
    ensures StandingOf(log + [e]) ==
            if e.attempt.Some? then AttemptStanding(e)
            else if StandingOf(log).Denied? && log != []
              && AccessOf(e.seen.config) != AccessOf(log[|log| - 1].left) then Replaced
            else StandingOf(log)
  {
    UnfoldStanding(log + [e]);
    assert (log + [e])[..|log|] == log;
  }

  /** `next` added one ruled entry to `log` and, unless it ended the run, keeps the law. */
  ghost predicate GrowsRuled(setting: Setting, log: seq<Entry>, next: History) {
    && |next.log| == |log| + 1 && next.log[..|log|] == log && Ruled(setting, next.log, |log|)
    && (next.exit.None? ==> Lawful(setting, next))
  }

  lemma QuietIterationRuled(setting: Setting, h: History, d: Directory, t: Tick, l: Loop, r: Reading)
    requires Lawful(setting, h) && d.config.Stored? && Reloaded(h.loop, d.config.config, t.usable) == Some(l)
    requires setting.autoEnroll ==> h.log != []
    requires r.seen == d
    ensures GrowsRuled(setting, h.log, Synced(setting, h.(loop := l, directory := d), t, r, None))
  {
    hide StandingOf, TrimSlashes, Reloaded, CheckInRuled;
    ReadingSettles(setting, h, d.config.config, t.usable);
    var next := Synced(setting, h.(loop := l, directory := d), t, r, None);
    StandingGrows(h.log, next.log[|h.log|]);
    assert next.log[..|h.log|] == h.log && next.log[..|h.log| + 1] == next.log;
    SyncedRuled(setting, h.(loop := l, directory := d), t, r, None, StandingOf(next.log));
  }

  /** An attempt, after which the iteration goes on or the run ends. */
  lemma AskingRuled(setting: Setting, h: History, t: Tick, r: Reading)
    requires r.seen.config.Stored? && h.loop.config.Access() == r.seen.config.config.Access()
    ensures GrowsRuled(setting, h.log, Asking(setting, h, t, r))
  {
    hide StandingOf, TrimSlashes, Enrolled, Synced, GrowsRuled, Tracks, AfterDenial, AccessOf;
    AttemptLeaves(setting, h.loop, r.seen, r.asked, t);
    var (loop, after, verdict, error) := Enrolled(setting, h.loop, r.asked, t);
    var next := h.(loop := loop, directory := after);
    if error.Some? {
      AbortRuled(setting, next.(clock := t.syncDone), t.Logged(r, Some(verdict), false, None, after.config),
                 error.value);
    } else {
      DecidedRuled(setting, next, t, r, verdict);
    }
  }

  lemma AbortRuled(setting: Setting, h: History, e: Entry, error: RunError)
    requires e.checkIn.None? && e.attempt.Some? && !e.completed
    ensures GrowsRuled(setting, h.log, h.(exit := Some(Err(error)), log := h.log + [e]))
  {
    hide StandingOf, TrimSlashes, Lawful;
    StandingGrows(h.log, e);
    assert (h.log + [e])[..|h.log| + 1] == h.log + [e] && (h.log + [e])[..|h.log|] == h.log;
  }

  lemma DecidedRuled(setting: Setting, h: History, t: Tick, r: Reading, verdict: Result<(), EnrollmentError>)
    requires verdict.Ok? ==> h.directory.config.Stored? && Tracks(h.loop, h.directory.config.config)
    requires verdict.Err? ==> h.loop.api.None?
    requires verdict.Err? && AccessOf(r.asked.config) == AccessOf(r.seen.config) ==>
               h.directory.config.Stored?
               && AfterDenial(h.loop, h.directory.config.config, verdict.error.ClearNotWritten?)
    ensures GrowsRuled(setting, h.log, Synced(setting, h, t, r, Some(verdict)))
  {
    hide StandingOf, TrimSlashes, AccessOf, CheckInRuled;
    var next := Synced(setting, h, t, r, Some(verdict));
    StandingGrows(h.log, next.log[|h.log|]);
    assert next.log[..|h.log|] == h.log && next.log[..|h.log| + 1] == next.log;
    SyncedRuled(setting, h, t, r, Some(verdict), StandingOf(next.log));
  }

  lemma AttendedRuled(setting: Setting, h: History, d: Directory, t: Tick, enrollmentDue: bool, due: bool)
    requires Lawful(setting, h) && h.exit.None? && d.config.Stored?
    requires setting.autoEnroll && h.log == [] ==> enrollmentDue
    ensures var next := Attended(setting, h.(directory := d), t, enrollmentDue, due);
            (next.exit.Some? && next.log == h.log) || GrowsRuled(setting, h.log, next)
  {
    hide StandingOf, TrimSlashes, Asking, Synced, GrowsRuled, Reloaded, Lawful, AfterReading;
    var reloaded := Reloaded(h.loop, d.config.config, t.usable);
    if reloaded.Some? {
      ReadingSettles(setting, h, d.config.config, t.usable);
      var asked := if enrollmentDue then t.Asked(d) else d;
      var r := Reading(due, h.loop.config.Access() != d.config.config.Access(), d, asked);
      if enrollmentDue {
        AskingRuled(setting, h.(loop := reloaded.value, directory := d), t, r);
      } else {
        QuietIterationRuled(setting, h, d, t, reloaded.value, r);
      }
    }
  }

  lemma HealthAside(setting: Setting, h: History, next: Instant)
    requires Lawful(setting, h)
    ensures Lawful(setting, h.(loop := h.loop.(nextHealth := next)))
    ensures setting.autoEnroll && h.log == [] ==> h.loop.nextEnrollment <= h.clock
  {
    hide TrimSlashes;
  }

  lemma AdvanceRuled(setting: Setting, h: History, t: Tick)
    requires Lawful(setting, h) && h.exit.None? && h.clock <= t.healthAt && t.Ordered()
    ensures var next := Advanced(setting, h, t);
            (next.exit.Some? && next.log == h.log) || GrowsRuled(setting, h.log, next)
  {
    hide StandingOf, TrimSlashes, Attended, GrowsRuled, Lawful;
    var d := Edited(h, t).directory;
    var healthDue := t.healthAt >= h.loop.nextHealth || t.resumed;
    var healthy := if healthDue then h.(loop := h.loop.(nextHealth := t.healthDone + HEALTH_PERIOD)) else h;
    HealthAside(setting, h, healthy.loop.nextHealth);
    if d.config.Stored? {
      AttendedRuled(setting, healthy, d, t,
                    setting.autoEnroll && (t.enrollmentAt >= h.loop.nextEnrollment || t.resumed),
                    t.checkInAt >= h.loop.nextCheckIn || t.resumed);
    }
  }

  ghost predicate AllRuled(setting: Setting, log: seq<Entry>) {
    forall j :: 0 <= j < |log| ==> Ruled(setting, log, j)
  }

  lemma {:induction false} RunRuled(setting: Setting, h: History, ticks: seq<Tick>)
    requires Initial(h) && InOrder(h.clock, ticks)
    ensures var done := Execute(setting, h, ticks);
            (done.exit.None? ==> Lawful(setting, done)) && AllRuled(setting, done.log)
  {
    if ticks == [] {
      StartLawful(setting, h);
    } else {
      hide Initial, Advanced, Lawful, AllRuled;
      var before, t := ticks[..|ticks| - 1], ticks[|ticks| - 1];
      RunRuled(setting, h, before);
      RunKeepsPace(setting, h, before);
      AdvanceKeepsRuled(setting, Execute(setting, h, before), t);
    }
  }

  lemma StartLawful(setting: Setting, h: History)
    requires Initial(h)
    ensures Lawful(setting, h) && AllRuled(setting, h.log)
  {
  }

  lemma AdvanceKeepsRuled(setting: Setting, h: History, t: Tick)
    requires (h.exit.None? ==> Lawful(setting, h) && h.clock <= t.healthAt) && AllRuled(setting, h.log) && t.Ordered()
    ensures var next := Advanced(setting, h, t);
            (next.exit.None? ==> Lawful(setting, next)) && AllRuled(setting, next.log)
  {
    hide Advanced, Lawful, Ruled, AllRuled;
    if h.exit.None? {
      AdvanceRuled(setting, h, t);
      var next := Advanced(setting, h, t);
      if next.log != h.log {
        RuledGrows(setting, h.log, next.log);
      }
    } else {
      EndedStaysEnded(setting, h, t);
    }
  }

  lemma EndedStaysEnded(setting: Setting, h: History, t: Tick)
    requires h.exit.Some?
    ensures Advanced(setting, h, t) == h
  {
    hide Iterated;
  }

  lemma RuledGrows(setting: Setting, log: seq<Entry>, longer: seq<Entry>)
    requires AllRuled(setting, log) && |longer| == |log| + 1 && longer[..|log|] == log
    requires Ruled(setting, longer, |log|)
    ensures AllRuled(setting, longer)
  {
    hide Ruled;
    forall j | 0 <= j < |longer| ensures Ruled(setting, longer, j) {
      if j < |log| {
        RuledStays(setting, log, longer, j);
      }
    }
  }

  lemma RuledStays(setting: Setting, log: seq<Entry>, longer: seq<Entry>, j: nat)
    requires j < |log| <= |longer| && longer[..|log|] == log && Ruled(setting, log, j)
    ensures Ruled(setting, longer, j)
  {
    assert longer[..j + 1] == log[..j + 1];
    assert longer[j] == log[j];
  }

  // The attempts.

  /** Which inputs make a logged attempt the one failure that leaves denied credentials on disk. */
  ghost predicate ClearingLogged(log: seq<Entry>) {
    forall i :: 0 <= i < |log| && log[i].attempt.Some? ==>
      (log[i].attempt.value == Err(ClearNotWritten) <==> ClearingFails(log[i].asked, log[i].exchange))
  }

  lemma AdvanceLogsClearing(setting: Setting, h: History, t: Tick)
    requires h.exit.None? && ClearingLogged(h.log)
    ensures ClearingLogged(Advanced(setting, h, t).log)
  {
    hide Advanced, CheckedOrEnrolled, ClearingFails;
    AdvanceExplains(setting, h, t);
    var next := Advanced(setting, h, t);
    if next.log != h.log {
      var e := next.log[|h.log|];
      assert next.log == h.log + [e];
      var memory := if e.reloaded then e.seen.config.config else h.loop.config;
      ClearFailsExactly(e.asked, memory, e.exchange);
    }
  }

  lemma {:induction false} RunLogsClearing(setting: Setting, h: History, ticks: seq<Tick>)
    requires h.log == []
    ensures ClearingLogged(Execute(setting, h, ticks).log)
  {
    if ticks != [] {
      hide Advanced, ClearingLogged;
      var before := Execute(setting, h, ticks[..|ticks| - 1]);
      RunLogsClearing(setting, h, ticks[..|ticks| - 1]);
      if before.exit.None? {
        AdvanceLogsClearing(setting, before, ticks[|ticks| - 1]);
      }
    }
  }

  /** A successful attempt rests on the backend's answer, or on a positive one recorded less than a minute ago. */
  ghost predicate SuccessLogged(log: seq<Entry>) {
    forall i :: 0 <= i < |log| && log[i].attempt == Some(Ok(())) ==> Backed(log[i].asked, log[i].exchange)
  }

  predicate Backed(asked: Directory, ex: Exchange) {
    || ex.check == Registered(true)
    || (ex.check == Registered(false) && ex.enroll.Granted?)
    || (&& asked.status.Some? && asked.status.value.enrolled == Some(true) && !asked.status.value.failed
        && ex.now - asked.status.value.checkedAt < 60_000_000_000)
  }

  lemma AdvanceLogsSuccess(setting: Setting, h: History, t: Tick)
    requires h.exit.None? && SuccessLogged(h.log)
    ensures SuccessLogged(Advanced(setting, h, t).log)
  {
    hide Advanced, CheckedOrEnrolled, Backed;
    AdvanceExplains(setting, h, t);
    var next := Advanced(setting, h, t);
    if next.log != h.log {
      var e := next.log[|h.log|];
      assert next.log == h.log + [e];
      SuccessBacked(e.asked, if e.reloaded then e.seen.config.config else h.loop.config, e.exchange);
    }
  }

  lemma SuccessBacked(d: Directory, memory: AgentConfig, ex: Exchange)
    ensures CheckedOrEnrolled(d, memory, None, ex).2.Ok? ==> Backed(d, ex)
  {
    hide TrimSlashes;
  }

  /** Over every run, no attempt skips the backend on an answer a minute old or older. */
  lemma {:induction false} RunLogsSuccess(setting: Setting, h: History, ticks: seq<Tick>)
    requires h.log == []
    ensures SuccessLogged(Execute(setting, h, ticks).log)
  {
    if ticks != [] {
      hide Advanced, SuccessLogged;
      var before := Execute(setting, h, ticks[..|ticks| - 1]);
      RunLogsSuccess(setting, h, ticks[..|ticks| - 1]);
      if before.exit.None? {
        AdvanceLogsSuccess(setting, before, ticks[|ticks| - 1]);
      }
    }
  }

  // The rule itself.

  /**
   * Every check-in of an auto-enrolling run carries the credentials on disk, and follows a successful
   * latest attempt, a change on disk since it failed, or a failure to clear the denied credentials.
   */
  lemma CheckInTheorem(setting: Setting, h: History, ticks: seq<Tick>, j: nat) returns (i: nat)
    requires Initial(h) && InOrder(h.clock, ticks) && setting.autoEnroll
    requires j < |Execute(setting, h, ticks).log| && Execute(setting, h, ticks).log[j].checkIn.Some?
    ensures var log := Execute(setting, h, ticks).log;
            && log[j].left.Stored? && Carries(log[j].checkIn.value, log[j].left.config)
            && LatestAttempt(log[..j + 1], i)
            && (|| log[i].attempt.value.Ok?
                || (i < j && ChangedSince(log[..j + 1], i))
                || (i < j && ClearingFails(log[i].asked, log[i].exchange)))
  {
    hide Execute, InOrder, StandingOf, ChangedAt, Interposed, ClearingFails, TrimSlashes;
    RunRuled(setting, h, ticks);
    RunLogsClearing(setting, h, ticks);
    var log := Execute(setting, h, ticks).log;
    assert Ruled(setting, log, j);
    UnaskedMeans(log[..j + 1]);
    i :| LatestAttempt(log[..j + 1], i);
    StandingMeans(log[..j + 1], i);
    assert log[..j + 1][i] == log[i] && log[..j + 1][j] == log[j];
  }

  /**
   * While other processes leave the credentials alone, a failed attempt silences check-ins, except in one
   * case: the backend denied the device, clearing `config.json` failed, and so the old credentials are read
   * back from it by the next iteration.
   */
  lemma SilenceAfterFailure(setting: Setting, h: History, ticks: seq<Tick>, i: nat, j: nat)
    requires Initial(h) && InOrder(h.clock, ticks)
    requires j < |Execute(setting, h, ticks).log|
    requires var log := Execute(setting, h, ticks).log;
             && log[j].completed && LatestAttempt(log[..j + 1], i) && log[i].attempt.value.Err?
             && !ChangedSince(log[..j + 1], i)
    ensures var log := Execute(setting, h, ticks).log;
            && (log[j].checkIn.Some? <==>
                  && log[j].due && i < j && ClearingFails(log[i].asked, log[i].exchange)
                  && log[j].left.Stored? && log[j].left.config.Authenticated())
  {
    hide Execute, InOrder, StandingOf, ChangedAt, Interposed, ClearingFails, TrimSlashes;
    RunRuled(setting, h, ticks);
    RunLogsClearing(setting, h, ticks);
    var log := Execute(setting, h, ticks).log;
    assert Ruled(setting, log, j);
    StandingMeans(log[..j + 1], i);
    assert log[..j + 1][i] == log[i] && log[..j + 1][j] == log[j];
    assert i == j || log[j].attempt.None?;
  }

  /** The latest attempt failed. */
  predicate LastFailed(log: seq<Entry>) {
    log != [] &&
    var e := log[|log| - 1];
    if e.attempt.Some? then e.attempt.value.Err? else LastFailed(log[..|log| - 1])
  }

  /** An iteration after the latest attempt reloaded. */
  predicate ReloadedSince(log: seq<Entry>) {
    log != [] &&
    var e := log[|log| - 1];
    e.attempt.None? && (e.reloaded || ReloadedSince(log[..|log| - 1]))
  }

  lemma {:induction false} ReloadedMeans(log: seq<Entry>, i: nat)
    requires LatestAttempt(log, i)
    ensures LastFailed(log) <==> log[i].attempt.value.Err?
    ensures ReloadedSince(log) <==> exists k :: i < k < |log| && log[k].reloaded
  {
    var n := |log| - 1;
    if i < n {
      var before := log[..n];
      ReloadedMeans(before, i);
      assert (exists k :: i < k < |log| && log[k].reloaded)
        <==> (exists k :: i < k < |before| && before[k].reloaded) || log[n].reloaded;
    }
  }

  /** After a failed attempt there is no client until a reload, and from then on that of the configuration. */
  ghost predicate ClientAfterFailure(h: History) {
    LastFailed(h.log) ==> h.loop.api == if ReloadedSince(h.log) then ClientOf(h.loop.config) else None
  }

  /** The check-in of an iteration with a failed latest attempt. */
  predicate CheckInAfterFailure(log: seq<Entry>, e: Entry) {
    LastFailed(log) && e.completed ==>
      (e.checkIn.Some? <==> e.due && ReloadedSince(log) && e.left.Stored? && e.left.config.Authenticated())
  }

  lemma EntryAfterFailure(h: History, d: Directory, t: Tick, e: Entry, next: History)
    requires ClientAfterFailure(h) && Explains(h.loop, d, t, e, next.loop) && next.log == h.log + [e]
    ensures ClientAfterFailure(next) && CheckInAfterFailure(next.log, e)
  {
    hide CheckedOrEnrolled, TrimSlashes;
    assert next.log[..|h.log|] == h.log;
  }

  ghost predicate CheckInsFollowFailures(log: seq<Entry>) {
    forall j :: 0 <= j < |log| ==> CheckInAfterFailure(log[..j + 1], log[j])
  }

  lemma FollowsGrows(log: seq<Entry>, e: Entry)
    requires CheckInsFollowFailures(log) && CheckInAfterFailure(log + [e], e)
    ensures CheckInsFollowFailures(log + [e])
  {
    hide CheckInAfterFailure;
    var longer := log + [e];
    assert longer[..|log| + 1] == longer;
    assert forall j :: 0 <= j < |log| ==> longer[..j + 1] == log[..j + 1] && longer[j] == log[j];
  }

  lemma AdvanceAfterFailure(setting: Setting, h: History, t: Tick)
    requires h.exit.None? && ClientAfterFailure(h) && CheckInsFollowFailures(h.log)
    ensures var next := Advanced(setting, h, t);
            && (next.exit.None? ==> ClientAfterFailure(next))
            && CheckInsFollowFailures(next.log)
  {
    hide Advanced, ClientAfterFailure, CheckInAfterFailure, CheckInsFollowFailures, Explains;
    AdvanceExplains(setting, h, t);
    var next := Advanced(setting, h, t);
    if next.log != h.log {
      var e := next.log[|h.log|];
      assert next.log == h.log + [e];
      EntryAfterFailure(h, Edited(h, t).directory, t, e, next);
      FollowsGrows(h.log, e);
    }
  }

  lemma {:induction false} RunAfterFailure(setting: Setting, h: History, ticks: seq<Tick>)
    requires h.log == []
    ensures var done := Execute(setting, h, ticks);
            (done.exit.None? ==> ClientAfterFailure(done)) && CheckInsFollowFailures(done.log)
  {
    if ticks != [] {
      hide Advanced, ClientAfterFailure, CheckInsFollowFailures;
      var before := Execute(setting, h, ticks[..|ticks| - 1]);
      RunAfterFailure(setting, h, ticks[..|ticks| - 1]);
      if before.exit.None? {
        AdvanceAfterFailure(setting, before, ticks[|ticks| - 1]);
      }
    }
  }

  /**
   * Whatever other processes do, after a failed attempt a due check-in is sent exactly if some iteration
   * since has reloaded and the disk holds both credentials.
   */
  lemma CheckInsAfterFailure(setting: Setting, h: History, ticks: seq<Tick>, i: nat, j: nat)
    requires h.log == [] && j < |Execute(setting, h, ticks).log|
    requires var log := Execute(setting, h, ticks).log;
             log[j].completed && LatestAttempt(log[..j + 1], i) && log[i].attempt.value.Err?
    ensures var log := Execute(setting, h, ticks).log;
            log[j].checkIn.Some? <==>
              && log[j].due && (exists k :: i < k <= j && log[k].reloaded)
              && log[j].left.Stored? && log[j].left.config.Authenticated()
  {
    hide Execute, LastFailed, ReloadedSince;
    RunAfterFailure(setting, h, ticks);
    var log := Execute(setting, h, ticks).log;
    ReloadedMeans(log[..j + 1], i);
    assert CheckInAfterFailure(log[..j + 1], log[j]);
    assert forall k :: 0 <= k <= j ==> log[..j + 1][k] == log[k];
  }

  /** After a successful attempt, every due check-in is sent as long as the disk holds both credentials. */
  lemma CheckInsAfterSuccess(setting: Setting, h: History, ticks: seq<Tick>, i: nat, j: nat)
    requires Initial(h) && InOrder(h.clock, ticks)
    requires j < |Execute(setting, h, ticks).log|
    requires var log := Execute(setting, h, ticks).log;
             log[j].completed && LatestAttempt(log[..j + 1], i) && log[i].attempt.value.Ok?
    ensures var log := Execute(setting, h, ticks).log;
            log[j].checkIn.Some? <==> log[j].due && log[j].left.Stored? && log[j].left.config.Authenticated()
  {
    hide Execute, InOrder, StandingOf, ChangedAt, TrimSlashes;
    RunRuled(setting, h, ticks);
    var log := Execute(setting, h, ticks).log;
    assert Ruled(setting, log, j);
    StandingMeans(log[..j + 1], i);
    assert log[..j + 1][i] == log[i];
  }

  /** An iteration at `at` whose attempt is answered by `check`, with every client usable and no write succeeding. */
  function PlainTick(at: Instant, check: CheckReply, edited: Option<Directory>): Tick {
    var any := (_: string) => true;
    var exchange := Exchange(true, true, 0, true, any, check, 0, false, false, false, true, any, Refused, false, false);
    Tick(edited, false, false, at, true, at, at, at, true, true, any, None, exchange, any, at, true, at)
  }

  /** A fresh run over a stored configuration that calls the default API. */
  function EnrolledStart(device: Uuid, token: string): History {
    var config := AgentConfig(device, DEFAULT_API_BASE, Some(token), Some(device), map[]);
    History(Loop(config, Some(DEFAULT_API_BASE), 0, 0, 0), Directory(Stored(config), None, map[], None), [], 0, None)
  }

  /** The excepted case happens: a denied device checks in with the credentials that were to be cleared. */
  lemma StaleCheckInHappens(device: Uuid, token: string) returns (h: History, ticks: seq<Tick>)
    ensures Initial(h) && InOrder(h.clock, ticks) && h.loop.api == Some(DEFAULT_API_BASE)
    ensures var log := Execute(Setting(false, true), h, ticks).log;
            && |log| == 2 && !ChangedSince(log, 0)
            && log[0].attempt == Some(Err(ClearNotWritten)) && log[1].attempt.None?
            && log[1].checkIn.Some? && Carries(log[1].checkIn.value, h.loop.config)
  {
    var setting := Setting(false, true);
    h := EnrolledStart(device, token);
    ticks := [PlainTick(0, Registered(false), None), PlainTick(1, NoAnswer, None)];
    assert Execute(setting, h, ticks[..1][..0]) == h;
    var first := Execute(setting, h, ticks[..1]);
    assert first == Advanced(setting, h, ticks[0]);
    assert first.log[0].attempt == Some(Err(ClearNotWritten));
    assert Execute(setting, h, ticks) == Advanced(setting, first, ticks[1]);
  }
}
