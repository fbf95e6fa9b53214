// The lock-screen controller (ui/lock.rs and the lock part of ui/app.rs): four lock sources, the
// local-release override, the lockout, and the side effects that follow the lock frame by frame.
module LockScreen {
  import opened Wrappers
  import opened Text
  import opened MachineInts
  import opened Hex
  import opened Calendar
  import opened Clock
  import opened RemoteSync
  import opened Lockout
  import Protocol = RecoveryProtocol
  import Recovery = RecoveryService
  import TokenDelivery

  const RECEIPT_WAIT: int := 30 * SECOND
  const REFRESH_EVERY: int := 2 * SECOND
  const MAX_U32: nat := 0xFFFF_FFFF

  // The remote lock as the screen tracks it.

  /** The tracked lock, and the stamp of the state a local release overrides. */
  datatype Tracking = Tracking(locked: bool, overrideAt: Option<DateTime>)

  /** One refresh that could read the published state. */
  function Refresh(t: Tracking, remote: PersistedRemoteState): Tracking {
    var locked := remote.lockState.state.Locked?;
    if locked && t.overrideAt == Some(remote.checkedAt) then Tracking(false, t.overrideAt) else Tracking(locked, None)
  }

  /** A local release overrides whatever state can be read at that moment. */
  function Released(remote: Option<PersistedRemoteState>): Tracking {
    Tracking(false, match remote case Some(state) => Some(state.checkedAt) case None => None)
  }

  function RefreshAll(t: Tracking, seen: seq<PersistedRemoteState>): Tracking {
    if seen == [] then t else Refresh(RefreshAll(t, seen[..|seen| - 1]), seen[|seen| - 1])
  }

  /** `state` is locked and carries the stamp of the released one. */
  predicate Suppressed(state: PersistedRemoteState, released: DateTime) {
    state.lockState.state.Locked? && state.checkedAt == released
  }

  /**
   * After a release, over any sequence of refreshes: the lock follows the server except while every
   * refresh so far saw the released state itself.
   */
  lemma {:induction false} ReleaseClosedForm(state: PersistedRemoteState, seen: seq<PersistedRemoteState>)
    requires seen != []
    ensures var now := RefreshAll(Released(Some(state)), seen);
            var still := forall i :: 0 <= i < |seen| ==> Suppressed(seen[i], state.checkedAt);
            && (now.locked <==> seen[|seen| - 1].lockState.state.Locked? && !still)
            && now.overrideAt == if still then Some(state.checkedAt) else None
  {
    var prefix, last := seen[..|seen| - 1], seen[|seen| - 1];
    var before := RefreshAll(Released(Some(state)), prefix);
    assert RefreshAll(Released(Some(state)), seen) == Refresh(before, last);
    assert prefix == [] ==> before == Released(Some(state));
    hide RefreshAll;
    if prefix != [] {
      ReleaseClosedForm(state, prefix);
    }
    var stamp := state.checkedAt;
    assert (forall i :: 0 <= i < |seen| ==> Suppressed(seen[i], stamp))
      <==> (forall i :: 0 <= i < |prefix| ==> Suppressed(prefix[i], stamp)) && Suppressed(last, stamp);
  }

  /** Publications never reuse a stamp. */
  ghost predicate FreshStamps(published: seq<PersistedRemoteState>) {
    forall i, j :: 0 <= i < j < |published| ==> published[i].checkedAt != published[j].checkedAt
  }

  /** The publications with the given numbers. */
  function Publications(published: seq<PersistedRemoteState>, polls: seq<nat>): seq<PersistedRemoteState>
    requires forall i :: 0 <= i < |polls| ==> polls[i] < |published|
  {
    seq(|polls|, i requires 0 <= i < |polls| => published[polls[i]])
  }

  /**
   * With a fresh stamp per publication, a release at publication `r` suppresses the lock while `r` is
   * current, and from the first refresh that sees a later one the screen follows the server.
   */
  lemma FreshStampsFollowServer(published: seq<PersistedRemoteState>, r: nat, polls: seq<nat>)
    requires FreshStamps(published) && r < |published| && polls != []
    requires forall i :: 0 <= i < |polls| ==> r <= polls[i] < |published|
    requires forall i, j :: 0 <= i < j < |polls| ==> polls[i] <= polls[j]
    ensures var last := polls[|polls| - 1];
            RefreshAll(Released(Some(published[r])), Publications(published, polls)).locked
            <==> last != r && published[last].lockState.state.Locked?
  {
    var seen := Publications(published, polls);
    var last := polls[|polls| - 1];
    ReleaseClosedForm(published[r], seen);
    if last == r {
      assert forall i :: 0 <= i < |polls| ==> polls[i] == r;
    } else {
      assert published[last].checkedAt != published[r].checkedAt;
      assert !Suppressed(seen[|seen| - 1], published[r].checkedAt);
    }
  }

  // The screen as a value, and what each method makes of it.

  /** What clicking Unlock submits, how the mailbox write goes, and the clock before and after. */
  datatype UnlockClick = UnlockClick(input: string, requestId: Uuid, writeSucceeds: bool, checked: Instant,
                                     done: Instant)

  /** Everything a frame reads: clocks in order, the two state files, and what happened before it. */
  datatype Frame = Frame(
    sessionStarted: bool,
    lockedByHand: bool,
    keyboardDisabled: bool,
    recovery: Option<Recovery.RecoveryState>,
    clock: DateTime,
    releasedFrom: Option<PersistedRemoteState>,
    polled: Instant,
    remote: Option<PersistedRemoteState>,
    synced: Instant,
    refreshed: Instant,
    dismissed: bool,
    ticked: Instant,
    unlock: Option<UnlockClick>)
  {
    predicate Ordered() {
      && polled <= synced <= refreshed <= ticked
      && (unlock.Some? ==> ticked <= unlock.value.checked <= unlock.value.done)
    }

    function End(): Instant {
      if unlock.Some? then unlock.value.done else ticked
    }
  }

  /** Recovery attempts: the pending request, the refusals since the last release, and the lockout they earned. */
  datatype Gate = Gate(
    pending: Option<(Uuid, Instant)>,
    failCount: U32,
    lockedUntil: Option<Instant>,
    refusals: seq<Instant>)
  {
    function Refused(now: Instant): Gate {
      var count := if failCount == MAX_U32 then failCount else failCount + 1;
      Gate(pending, count, if count >= 5 then Some(now + Backoff(count) * SECOND) else lockedUntil, refusals + [now])
    }

    /** Submitting is ignored while a request is pending or a lockout runs. */
    function Tried(click: UnlockClick): Gate {
      if pending.Some? || (lockedUntil.Some? && click.checked <= lockedUntil.value) then this
      else if !TokenDelivery.Submittable(Trim(click.input)) then Refused(click.done)
      else if click.writeSucceeds then this.(pending := Some((click.requestId, click.done)))
      else this
    }

    /** The verdict on the pending request, while its receipt is current. */
    function Reply(recovery: Option<Recovery.RecoveryState>, clock: DateTime): Option<bool> {
      if pending.None? || recovery.None? then None
      else Recovery.ReceiptVerdict(recovery.value, pending.value.0, clock)
    }

    /** A verdict settles the request; without one it lapses after thirty seconds. */
    function Heard(reply: Option<bool>, now: Instant): Gate {
      match reply
      case Some(accepted) => if accepted then this.(pending := None) else this.(pending := None).Refused(now)
      case None =>
        if pending.Some? && now - pending.value.1 > RECEIPT_WAIT then this.(pending := None) else this
    }

    /** The counter, the deadline and the pending request agree with the refusals so far. */
    ghost predicate Valid() {
      && failCount == Min(|refusals|, MAX_U32)
      && lockedUntil == (if |refusals| < 5 then None else Some(refusals[|refusals| - 1] + Backoff(|refusals|) * SECOND))
      && Spaced(refusals)
      && (pending.Some? && lockedUntil.Some? ==> lockedUntil.value < pending.value.1)
    }

    /** No recorded time lies after `now`. */
    ghost predicate Timely(now: Instant) {
      && (forall i :: 0 <= i < |refusals| ==> refusals[i] <= now)
      && (pending.Some? ==> pending.value.1 <= now)
    }
  }

  datatype Screen = Screen(
    session: bool,
    enforced: bool,
    manualLock: bool,
    track: Tracking,
    lockStarted: Option<Instant>,
    lastRemoteRefresh: Instant,
    keyboardDisabled: bool,
    taskManagerDisabled: bool,
    keyboardBlocked: bool,
    gate: Gate)
  {
    predicate Active() {
      session || enforced || manualLock || track.locked
    }

    function Gated(gate: Gate): Screen {
      this.(gate := gate)
    }

    /** Every source but the remote lock is cleared, and the side effects of locking undone. */
    function Ended(): Screen {
      this.(session := false, enforced := false, manualLock := false, lockStarted := None, taskManagerDisabled := false)
    }

    function Unlocked(remote: Option<PersistedRemoteState>): Screen {
      this.(gate := gate.(failCount := 0, lockedUntil := None, refusals := []), track := Released(remote)).Ended()
    }

    /** An accepted receipt releases the screen; the gate alone sees the rest. */
    function Polled(recovery: Option<Recovery.RecoveryState>, clock: DateTime, remote: Option<PersistedRemoteState>,
                    now: Instant)
      : Screen
    {
      var reply := gate.Reply(recovery, clock);
      var polled := this.(gate := gate.Heard(reply, now));
      if reply == Some(true) then polled.Unlocked(remote) else polled
    }

    /** At most every two seconds; a server release ends the screen, an unreadable state changes nothing. */
    function Synced(remote: Option<PersistedRemoteState>, now: Instant, refreshed: Instant): Screen {
      if now - lastRemoteRefresh < REFRESH_EVERY then this
      else
        var due := this.(lastRemoteRefresh := refreshed);
        if remote.None? then due
        else
          var tracked := Refresh(track, remote.value);
          var next := due.(track := tracked);
          if track.locked && !tracked.locked && tracked.overrideAt.None? then next.Ended() else next
    }

    /** A dismissed session ends unless the mode is enforced. */
    function Dismissed(dismissed: bool): Screen {
      if !enforced && session && dismissed then Ended() else this
    }

    function Ticked(now: Instant, unlock: Option<UnlockClick>): Screen {
      var entered := if lockStarted.None? then this.(lockStarted := Some(now), taskManagerDisabled := true) else this;
      if unlock.Some? then entered.(gate := gate.Tried(unlock.value)) else entered
    }

    /** What can change between frames: sessions start, the manual switches are set. */
    function Prepared(frame: Frame): Screen {
      this.(session := session || frame.sessionStarted, manualLock := manualLock || frame.lockedByHand,
            keyboardDisabled := frame.keyboardDisabled)
    }

    function Updated(frame: Frame): Screen {
      var s := Polled(frame.recovery, frame.clock, frame.releasedFrom, frame.polled)
               .Synced(frame.remote, frame.synced, frame.refreshed)
               .Dismissed(frame.dismissed);
      var hooked := s.(keyboardBlocked := s.Active() || s.keyboardDisabled);
      if s.Active() then hooked.Ticked(frame.ticked, frame.unlock) else hooked
    }

    // What holds.

    /** The lock side effects never outlive the lock, also within a frame. */
    predicate EffectsBacked() {
      && (track.overrideAt.Some? ==> !track.locked)
      && taskManagerDisabled == lockStarted.Some?
      && (lockStarted.Some? ==> Active())
    }

    /** At the end of a frame, the screen and its side effects match the lock exactly. */
    predicate Settled() {
      && lockStarted.Some? == Active()
      && taskManagerDisabled == Active()
      && keyboardBlocked == (Active() || keyboardDisabled)
    }

    ghost predicate Valid() {
      gate.Valid() && EffectsBacked()
    }
  }

  function RunFrames(s: Screen, frames: seq<Frame>): Screen {
    if frames == [] then s
    else
      var last := frames[|frames| - 1];
      RunFrames(s, frames[..|frames| - 1]).Prepared(last).Updated(last)
  }

  /** `load`: shell enforcement for non-administrators, and the published lock for everyone. */
  function Loaded(isAdmin: bool, launchedAsShell: bool, remote: Option<PersistedRemoteState>, now: Instant): Screen {
    Screen(false, !isAdmin && launchedAsShell, false,
           Tracking(remote.Some? && remote.value.lockState.state.Locked?, None),
           None, now, false, false, false, Gate(None, 0, None, []))
  }

  /** A refusal that no running lockout forbids keeps the books. */
  lemma RefusedKeepsGate(g: Gate, now: Instant)
    requires g.Valid() && g.Timely(now) && g.pending.None?
    requires g.lockedUntil.Some? ==> g.lockedUntil.value <= now
    ensures g.Refused(now).Valid() && g.Refused(now).Timely(now)
  {
    hide Backoff;
    SpacedExtends(g.refusals, now);
    if |g.refusals| >= MAX_U32 {
      BackoffBounds(|g.refusals| + 1);
      BackoffBounds(MAX_U32);
    }
  }

  lemma TriedKeepsGate(g: Gate, click: UnlockClick)
    requires g.Valid() && g.Timely(click.checked) && click.checked <= click.done
    ensures g.Tried(click).Valid() && g.Tried(click).Timely(click.done)
  {
    hide Backoff, Trim, TokenDelivery.Submittable, Spaced, Gate.Refused;
    if g.pending.None? && !(g.lockedUntil.Some? && click.checked <= g.lockedUntil.value) {
      RefusedKeepsGate(g, click.done);
    }
  }

  /** A refused receipt is no loophole: its request was submitted after the last lockout ran out. */
  lemma HeardKeepsGate(g: Gate, reply: Option<bool>, now: Instant)
    requires g.Valid() && g.Timely(now) && (reply.Some? ==> g.pending.Some?)
    ensures g.Heard(reply, now).Valid() && g.Heard(reply, now).Timely(now)
  {
    hide Backoff, Spaced, Gate.Refused;
    if reply == Some(false) {
      RefusedKeepsGate(g.(pending := None), now);
    }
  }

  lemma PolledKeepsGate(s: Screen, recovery: Option<Recovery.RecoveryState>, clock: DateTime,
                        remote: Option<PersistedRemoteState>, now: Instant)
    requires s.gate.Valid() && s.gate.Timely(now)
    ensures s.Polled(recovery, clock, remote, now).gate.Valid()
            && s.Polled(recovery, clock, remote, now).gate.Timely(now)
  {
    hide Gate.Valid, Gate.Timely, Gate.Heard, Released;
    var reply := s.gate.Reply(recovery, clock);
    HeardKeepsGate(s.gate, reply, now);
    ForgivenKeepsGate(s.gate.Heard(reply, now), now);
  }

  lemma ForgivenKeepsGate(g: Gate, now: Instant)
    requires g.Timely(now)
    ensures var forgiven := g.(failCount := 0, lockedUntil := None, refusals := []);
            forgiven.Valid() && forgiven.Timely(now)
  {
  }

  lemma UpdateKeepsGate(s: Screen, frame: Frame, start: Instant)
    requires s.gate.Valid() && s.gate.Timely(start) && start <= frame.polled && frame.Ordered()
    ensures s.Updated(frame).gate.Valid() && s.Updated(frame).gate.Timely(frame.End())
  {
    hide Gate.Valid, Gate.Tried, Screen.Polled, Refresh;
    var polled := s.Polled(frame.recovery, frame.clock, frame.releasedFrom, frame.polled);
    PolledKeepsGate(s, frame.recovery, frame.clock, frame.releasedFrom, frame.polled);
    var locked := polled.Synced(frame.remote, frame.synced, frame.refreshed).Dismissed(frame.dismissed);
    assert locked.gate == polled.gate;
    if frame.unlock.Some? {
      TriedKeepsGate(polled.gate, frame.unlock.value);
    }
  }

  lemma PolledBacked(s: Screen, recovery: Option<Recovery.RecoveryState>, clock: DateTime,
                     remote: Option<PersistedRemoteState>, now: Instant)
    requires s.EffectsBacked()
    ensures s.Polled(recovery, clock, remote, now).EffectsBacked()
  {
    hide Gate.Heard, Gate.Reply;
  }

  lemma SyncedBacked(s: Screen, remote: Option<PersistedRemoteState>, now: Instant, refreshed: Instant)
    requires s.EffectsBacked()
    ensures s.Synced(remote, now, refreshed).EffectsBacked()
  {
  }

  /**
   * Mid-frame the screen may be torn down while the remote lock stands; by the end of the frame it and
   * its side effects match the lock again.
   */
  lemma UpdateSettles(s: Screen, frame: Frame)
    requires s.EffectsBacked()
    ensures s.Updated(frame).EffectsBacked() && s.Updated(frame).Settled()
  {
    hide Gate.Tried, Screen.Polled, Screen.Synced;
    PolledBacked(s, frame.recovery, frame.clock, frame.releasedFrom, frame.polled);
    SyncedBacked(s.Polled(frame.recovery, frame.clock, frame.releasedFrom, frame.polled), frame.remote,
                 frame.synced, frame.refreshed);
  }

  // The decisions by their conditions.

  /** What is locked at launch: an enrolled user's shell without administrator rights, or whatever the server locked. */
  lemma LoadedExactly(isAdmin: bool, launchedAsShell: bool, remote: Option<PersistedRemoteState>, now: Instant)
    ensures var s := Loaded(isAdmin, launchedAsShell, remote, now);
            && (s.enforced <==> launchedAsShell && !isAdmin)
            && (s.track.locked <==> remote.Some? && remote.value.lockState.state == Locked)
            && (s.Active() <==>
                  (launchedAsShell && !isAdmin) || (remote.Some? && remote.value.lockState.state == Locked))
            && s.track.overrideAt.None? && s.gate.pending.None? && s.gate.lockedUntil.None? && s.gate.failCount == 0
            && !s.session && !s.manualLock && !s.taskManagerDisabled && !s.keyboardBlocked && s.lockStarted.None?
  {
  }

  /** What a click comes to: nothing while waiting, a refusal for what is no token, else a request if it is written. */
  lemma TriedExactly(g: Gate, click: UnlockClick)
    ensures var token, after := Trim(click.input), g.Tried(click);
            var waits := g.pending.Some? || (g.lockedUntil.Some? && g.lockedUntil.value >= click.checked);
            var plausible := "EMIU1-" <= token && Utf8Len(token) <= 256;
            && (waits || (plausible && !click.writeSucceeds) ==> after == g)
            && (!waits && plausible && click.writeSucceeds ==>
                  after == g.(pending := Some((click.requestId, click.done))))
            && (!waits && !plausible ==> after == g.Refused(click.done))
  {
    hide Trim, Utf8Len, Gate.Refused;
  }

  /** A refusal is counted, and from the fifth on locks for 5, 10, 20, 40, 80 and then 160 seconds. */
  lemma RefusedExactly(g: Gate, now: Instant)
    ensures var after := g.Refused(now);
            && after.refusals == g.refusals + [now] && after.pending == g.pending
            && after.failCount == (if g.failCount == 0xFFFF_FFFF then g.failCount else g.failCount + 1)
            && after.lockedUntil == match after.failCount
                                    case 5 => Some(now + 5_000_000_000)
                                    case 6 => Some(now + 10_000_000_000)
                                    case 7 => Some(now + 20_000_000_000)
                                    case 8 => Some(now + 40_000_000_000)
                                    case 9 => Some(now + 80_000_000_000)
                                    case n => if n < 5 then g.lockedUntil else Some(now + 160_000_000_000)
  {
    assert Pow2(1) == 2 && Pow2(2) == 4;
    assert Pow2(3) == 8;
    assert Pow2(4) == 16;
    assert Pow2(5) == 32;
  }

  /** A verdict settles the request; without one it lapses after more than thirty seconds. */
  lemma HeardExactly(g: Gate, reply: Option<bool>, now: Instant)
    requires g.pending.Some?
    ensures reply == Some(true) ==> g.Heard(reply, now) == g.(pending := None)
    ensures reply == Some(false) ==> g.Heard(reply, now) == g.(pending := None).Refused(now)
    ensures reply == None ==>
              g.Heard(reply, now) == if now > g.pending.value.1 + 30_000_000_000 then g.(pending := None) else g
  {
    hide Gate.Refused;
  }

  /** The state file is looked at two seconds after the last time, not before; unreadable, it changes nothing else. */
  lemma SyncedExactly(s: Screen, remote: Option<PersistedRemoteState>, now: Instant, refreshed: Instant)
    ensures var after, due := s.Synced(remote, now, refreshed), now >= s.lastRemoteRefresh + 2_000_000_000;
            && (!due ==> after == s)
            && (due ==> after.lastRemoteRefresh == refreshed)
            && (due && remote.None? ==> after == s.(lastRemoteRefresh := refreshed))
            && (due && remote.Some? ==>
                  && (after.track.locked <==> remote.value.lockState.state == Locked
                                              && s.track.overrideAt != Some(remote.value.checkedAt))
                  && (after.track.overrideAt.Some? <==> remote.value.lockState.state == Locked
                                                        && s.track.overrideAt == Some(remote.value.checkedAt)))
  {
  }

  // The ways out.

  /** A due refresh reads that the server has released a tracked lock. */
  predicate ServerReleases(s: Screen, frame: Frame) {
    s.track.locked && Glimpse(s, frame) != [] && !Glimpse(s, frame)[0].lockState.state.Locked?
  }

  /**
   * A frame leaves the restriction only by an accepted receipt for the screen's own request, by the
   * server releasing its lock, or by dismissing a session that is not enforced.
   */
  lemma OnlyThreeExits(s: Screen, frame: Frame)
    requires s.EffectsBacked() && s.Active() && !s.Updated(frame).Active()
    ensures || s.gate.Reply(frame.recovery, frame.clock) == Some(true)
            || ServerReleases(s, frame)
            || (s.session && !s.enforced && frame.dismissed)
  {
    hide Gate.Reply, Gate.Tried, Screen.Polled, Screen.Synced, Refresh;
    if s.gate.Reply(frame.recovery, frame.clock) != Some(true) {
      PollChangesGateOnly(s, frame.recovery, frame.clock, frame.releasedFrom, frame.polled);
      var polled := s.Polled(frame.recovery, frame.clock, frame.releasedFrom, frame.polled);
      if !ServerReleases(s, frame) {
        SyncKeepsLock(polled, frame.remote, frame.synced, frame.refreshed);
      }
    }
  }

  lemma PollChangesGateOnly(s: Screen, recovery: Option<Recovery.RecoveryState>, clock: DateTime,
                            remote: Option<PersistedRemoteState>, now: Instant)
    requires s.gate.Reply(recovery, clock) != Some(true)
    ensures var polled := s.Polled(recovery, clock, remote, now);
            polled == s.Gated(polled.gate)
  {
    hide Gate.Heard, Gate.Reply;
  }

  /** A refresh that does not read a release of a tracked lock leaves every source as it was, or locks. */
  lemma SyncKeepsLock(s: Screen, remote: Option<PersistedRemoteState>, now: Instant, refreshed: Instant)
    requires s.track.overrideAt.Some? ==> !s.track.locked
    requires !(s.track.locked && now - s.lastRemoteRefresh >= REFRESH_EVERY && remote.Some?
               && !remote.value.lockState.state.Locked?)
    ensures var synced := s.Synced(remote, now, refreshed);
            && synced.session == s.session && synced.enforced == s.enforced && synced.manualLock == s.manualLock
            && (s.track.locked ==> synced.track.locked)
  {
  }

  /** Nothing is left of the restriction, the manual keyboard switch aside. */
  predicate Free(s: Screen) {
    && !s.session && !s.enforced && !s.manualLock && !s.track.locked
    && s.lockStarted.None? && !s.taskManagerDisabled && s.keyboardBlocked == s.keyboardDisabled
  }

  /**
   * An accepted receipt frees the screen within its frame and forgives all refusals, whatever was locking
   * it; only a lock the server has published since then, read in the same frame, takes hold again.
   */
  lemma AcceptedReceiptFrees(s: Screen, frame: Frame)
    requires s.gate.Reply(frame.recovery, frame.clock) == Some(true)
    ensures var after, seen := s.Updated(frame), Glimpse(s, frame);
            && (after.Active() <==> seen != [] && Refresh(Released(frame.releasedFrom), seen[0]).locked)
            && (!after.Active() ==> Free(after) && after.gate == Gate(None, 0, None, []))
  {
    hide Gate.Reply, Gate.Tried;
  }

  /** A release by the server frees the screen too, but forgives no refusals. */
  lemma ServerReleaseFrees(s: Screen, frame: Frame)
    requires ServerReleases(s, frame) && s.gate.Reply(frame.recovery, frame.clock) != Some(true)
    ensures var after := s.Updated(frame);
            && Free(after)
            && after.gate == s.gate.Heard(s.gate.Reply(frame.recovery, frame.clock), frame.polled)
  {
    hide Gate.Reply, Gate.Tried, Gate.Heard;
  }

  /** A session or a lock by hand that begins before a frame holds at its end, unless one of the exits applies. */
  lemma SourcesLock(s: Screen, frame: Frame)
    requires s.EffectsBacked() && (frame.sessionStarted || frame.lockedByHand)
    requires s.gate.Reply(frame.recovery, frame.clock) != Some(true) && !ServerReleases(s, frame)
    requires frame.sessionStarted && !frame.lockedByHand ==> s.enforced || !frame.dismissed
    requires frame.lockedByHand && !s.enforced && (s.session || frame.sessionStarted) ==> !frame.dismissed
    ensures s.Prepared(frame).Updated(frame).Active()
  {
    hide Gate.Reply, Screen.Updated;
    assert Glimpse(s.Prepared(frame), frame) == Glimpse(s, frame);
    if !s.Prepared(frame).Updated(frame).Active() {
      OnlyThreeExits(s.Prepared(frame), frame);
    }
  }

  /** Frames follow each other in time. */
  ghost predicate InOrder(start: Instant, frames: seq<Frame>) {
    && (forall i :: 0 <= i < |frames| ==> start <= frames[i].polled && frames[i].Ordered())
    && (forall i, j :: 0 <= i < j < |frames| ==> frames[i].End() <= frames[j].polled)
  }

  lemma {:induction false} FramesKeepValid(s: Screen, start: Instant, frames: seq<Frame>)
    requires s.Valid() && s.gate.Timely(start) && InOrder(start, frames)
    ensures RunFrames(s, frames).Valid()
    ensures RunFrames(s, frames).gate.Timely(if frames == [] then start else frames[|frames| - 1].End())
    ensures frames != [] ==> RunFrames(s, frames).Settled()
  {
    if frames != [] {
      hide Gate.Valid, Gate.Timely, Screen.Updated;
      var prefix, last := frames[..|frames| - 1], frames[|frames| - 1];
      FramesKeepValid(s, start, prefix);
      var prepared := RunFrames(s, prefix).Prepared(last);
      UpdateKeepsGate(prepared, last, if prefix == [] then start else prefix[|prefix| - 1].End());
      UpdateSettles(prepared, last);
    }
  }

  /**
   * Every run from loading: each frame ends with the screen, Task Manager and the keyboard hook in step
   * with the lock sources, and the refusals since the last release, from the fifth on, took at least the
   * sum of the lockouts between them.
   */
  lemma RunTheorem(isAdmin: bool, launchedAsShell: bool, remote: Option<PersistedRemoteState>, start: Instant,
                   frames: seq<Frame>)
    requires InOrder(start, frames) && frames != []
    ensures var s := RunFrames(Loaded(isAdmin, launchedAsShell, remote, start), frames);
            var times := s.gate.refusals;
            && s.Settled()
            && (|times| >= 5 ==> times[|times| - 1] - times[4] >= TotalWait(|times|) * SECOND)
  {
    hide RunFrames;
    var loaded := Loaded(isAdmin, launchedAsShell, remote, start);
    FramesKeepValid(loaded, start, frames);
    var times := RunFrames(loaded, frames).gate.refusals;
    if |times| >= 5 {
      RefusalsTakeTime(times, |times|);
    }
  }

  /** The state the refresh of one frame sees, if it is due and the file can be read. */
  function Glimpse(s: Screen, frame: Frame): seq<PersistedRemoteState> {
    if frame.synced - s.lastRemoteRefresh >= REFRESH_EVERY && frame.remote.Some? then [frame.remote.value] else []
  }

  /** The states the refreshes of `frames` see. */
  function Seen(s: Screen, frames: seq<Frame>): seq<PersistedRemoteState> {
    if frames == [] then []
    else
      var n := |frames| - 1;
      Seen(s, frames[..n]) + Glimpse(RunFrames(s, frames[..n]), frames[n])
  }

  /** No receipt releases the screen in these frames. */
  ghost predicate NoRelease(s: Screen, frames: seq<Frame>) {
    forall i :: 0 <= i < |frames|
      ==> RunFrames(s, frames[..i]).gate.Reply(frames[i].recovery, frames[i].clock) != Some(true)
  }

  /** Whatever else happens in the frames, between releases only refreshes move the tracked lock. */
  lemma {:induction false} TrackFollowsRefreshes(s: Screen, frames: seq<Frame>)
    requires NoRelease(s, frames)
    ensures RunFrames(s, frames).track == RefreshAll(s.track, Seen(s, frames))
  {
    if frames != [] {
      var n := |frames| - 1;
      var before, last, seen := RunFrames(s, frames[..n]), frames[n], Seen(s, frames[..n]);
      assert RunFrames(s, frames) == before.Prepared(last).Updated(last)
             && Seen(s, frames) == seen + Glimpse(before, last);
      hide RunFrames, Seen, Screen.Updated, Screen.Prepared, Refresh, NoRelease, RefreshAll;
      FewerFramesNoRelease(s, frames);
      TrackFollowsRefreshes(s, frames[..n]);
      FrameTrack(before, last);
      RefreshAppends(s.track, seen, Glimpse(before, last));
    }
  }

  lemma FewerFramesNoRelease(s: Screen, frames: seq<Frame>)
    requires NoRelease(s, frames) && frames != []
    ensures var n := |frames| - 1;
            NoRelease(s, frames[..n])
              && RunFrames(s, frames[..n]).gate.Reply(frames[n].recovery, frames[n].clock) != Some(true)
  {
    hide RunFrames, Gate.Reply;
    assert forall i :: 0 <= i < |frames| - 1 ==> frames[..|frames| - 1][..i] == frames[..i];
  }

  lemma RefreshAppends(t: Tracking, seen: seq<PersistedRemoteState>, more: seq<PersistedRemoteState>)
    requires |more| <= 1
    ensures RefreshAll(t, seen + more) == if more == [] then RefreshAll(t, seen)
            else Refresh(RefreshAll(t, seen), more[0])
  {
    if more == [] {
      assert seen + more == seen;
    } else {
      assert (seen + more)[..|seen|] == seen;
    }
  }

  /** One frame without a release refreshes the tracked lock at most once. */
  lemma FrameTrack(s: Screen, frame: Frame)
    requires s.gate.Reply(frame.recovery, frame.clock) != Some(true)
    ensures s.Prepared(frame).Updated(frame).track ==
            if Glimpse(s, frame) == [] then s.track else Refresh(s.track, Glimpse(s, frame)[0])
  {
    hide Gate.Heard, Gate.Reply, Gate.Tried, Refresh, Screen.Polled, Screen.Synced, Screen.Dismissed, Screen.Ticked;
    var prepared := s.Prepared(frame);
    PolledTrack(prepared, frame.recovery, frame.clock, frame.releasedFrom, frame.polled);
    var polled := prepared.Polled(frame.recovery, frame.clock, frame.releasedFrom, frame.polled);
    SyncedTrack(polled, frame.remote, frame.synced, frame.refreshed);
    RestTrack(polled.Synced(frame.remote, frame.synced, frame.refreshed), frame);
  }

  lemma PolledTrack(s: Screen, recovery: Option<Recovery.RecoveryState>, clock: DateTime,
                    remote: Option<PersistedRemoteState>, now: Instant)
    requires s.gate.Reply(recovery, clock) != Some(true)
    ensures var polled := s.Polled(recovery, clock, remote, now);
            polled.track == s.track && polled.lastRemoteRefresh == s.lastRemoteRefresh
  {
    hide Gate.Heard, Gate.Reply, Screen.Polled;
    PollChangesGateOnly(s, recovery, clock, remote, now);
  }

  lemma SyncedTrack(s: Screen, remote: Option<PersistedRemoteState>, now: Instant, refreshed: Instant)
    ensures s.Synced(remote, now, refreshed).track ==
            if now - s.lastRemoteRefresh >= REFRESH_EVERY && remote.Some? then Refresh(s.track, remote.value)
              else s.track
  {
    hide Refresh;
  }

  lemma RestTrack(s: Screen, frame: Frame)
    ensures s.Dismissed(frame.dismissed).track == s.track
    ensures forall blocked ::
              var hooked := s.Dismissed(frame.dismissed).(keyboardBlocked := blocked);
              hooked.Ticked(frame.ticked, frame.unlock).track == s.track
  {
    hide Gate.Tried;
  }

  // Releases, from the frame that reads the accepted receipt.

  /** The screen after a frame. */
  function After(s: Screen, frame: Frame): Screen {
    s.Prepared(frame).Updated(frame)
  }

  /** The states the refreshes of the releasing frame and of those after it see. */
  function SeenSince(s: Screen, release: Frame, frames: seq<Frame>): seq<PersistedRemoteState> {
    Glimpse(s, release) + Seen(After(s, release), frames)
  }

  /** `release` reads an accepted receipt, and the frames after it read none. */
  ghost predicate Releases(s: Screen, release: Frame, frames: seq<Frame>) {
    s.gate.Reply(release.recovery, release.clock) == Some(true) && NoRelease(After(s, release), frames)
  }

  /** The releasing frame overrides the state it can read, and may refresh once more before it ends. */
  lemma ReleasingFrameTrack(s: Screen, release: Frame)
    requires s.gate.Reply(release.recovery, release.clock) == Some(true)
    ensures After(s, release).track == RefreshAll(Released(release.releasedFrom), Glimpse(s, release))
  {
    hide Gate.Heard, Gate.Reply, Gate.Tried, Refresh, Released, Screen.Synced, Screen.Dismissed, Screen.Ticked,
        RefreshAll;
    var unlocked := s.Prepared(release).Polled(release.recovery, release.clock, release.releasedFrom, release.polled);
    assert unlocked.track == Released(release.releasedFrom) && unlocked.lastRemoteRefresh == s.lastRemoteRefresh;
    SyncedTrack(unlocked, release.remote, release.synced, release.refreshed);
    RestTrack(unlocked.Synced(release.remote, release.synced, release.refreshed), release);
    RefreshAppends(unlocked.track, [], Glimpse(s, release));
    assert [] + Glimpse(s, release) == Glimpse(s, release);
    NothingSeen(unlocked.track);
  }

  lemma NothingSeen(t: Tracking)
    ensures RefreshAll(t, []) == t
  {
  }

  lemma {:induction false} RefreshAllJoins(t: Tracking, first: seq<PersistedRemoteState>,
                                           rest: seq<PersistedRemoteState>)
    ensures RefreshAll(t, first + rest) == RefreshAll(RefreshAll(t, first), rest)
  {
    hide Refresh;
    if rest == [] {
      assert first + rest == first;
    } else {
      assert (first + rest)[..|first + rest| - 1] == first + rest[..|rest| - 1];
      RefreshAllJoins(t, first, rest[..|rest| - 1]);
    }
  }

  /** Without a state to override, the lock follows every refresh. */
  lemma {:induction false} UnreadableRelease(seen: seq<PersistedRemoteState>)
    ensures var now := RefreshAll(Released(None), seen);
            now.overrideAt.None? && (now.locked <==> seen != [] && seen[|seen| - 1].lockState.state.Locked?)
  {
    if seen != [] {
      UnreadableRelease(seen[..|seen| - 1]);
    }
  }

  /**
   * From the frame that releases, over any frames without another release: the screen follows the server
   * except while every refresh since has seen the released state itself.
   */
  lemma ReleaseTheorem(s: Screen, release: Frame, frames: seq<Frame>)
    requires Releases(s, release, frames)
    ensures var seen := SeenSince(s, release, frames);
            var now := RunFrames(After(s, release), frames).track;
            && now == RefreshAll(Released(release.releasedFrom), seen)
            && (now.locked <==>
                  && seen != [] && seen[|seen| - 1].lockState.state.Locked?
                  && !(release.releasedFrom.Some?
                       && forall i :: 0 <= i < |seen| ==> Suppressed(seen[i], release.releasedFrom.value.checkedAt)))
  {
    hide Gate.Reply, RunFrames, Seen, Glimpse, RefreshAll, Suppressed, After;
    var seen := SeenSince(s, release, frames);
    ReleasingFrameTrack(s, release);
    TrackFollowsRefreshes(After(s, release), frames);
    RefreshAllJoins(Released(release.releasedFrom), Glimpse(s, release), Seen(After(s, release), frames));
    if release.releasedFrom.None? {
      UnreadableRelease(seen);
    } else if seen != [] {
      ReleaseClosedForm(release.releasedFrom.value, seen);
    } else {
      NothingSeen(Released(release.releasedFrom));
    }
  }

  /**
   * With a fresh stamp per publication, whole runs of frames follow the server from the first refresh that
   * sees another publication than the released one, and stay free until then.
   */
  lemma ReleaseFollowsServer(s: Screen, release: Frame, frames: seq<Frame>, published: seq<PersistedRemoteState>,
                             r: nat, polls: seq<nat>)
    requires Releases(s, release, frames) && FreshStamps(published) && r < |published|
    requires release.releasedFrom == Some(published[r])
    requires forall i :: 0 <= i < |polls| ==> r <= polls[i] < |published|
    requires forall i, j :: 0 <= i < j < |polls| ==> polls[i] <= polls[j]
    requires SeenSince(s, release, frames) == Publications(published, polls)
    ensures RunFrames(After(s, release), frames).track.locked <==>
              && polls != [] && polls[|polls| - 1] != r
              && published[polls[|polls| - 1]].lockState.state.Locked?
  {
    hide Releases, RunFrames, SeenSince, RefreshAll, After, FreshStamps;
    ReleaseTheorem(s, release, frames);
    if polls == [] {
      assert Publications(published, polls) == [];
    } else {
      FreshStampsFollowServer(published, r, polls);
    }
  }

  /** The poll step of the recovery protocol is this screen's own reading of the state file. */
  lemma PollMatchesProtocol(g: Gate, s: Protocol.System, p: Protocol.Pid, clock: DateTime)
    requires p in s.pending && g.pending.Some? && g.pending.value.0 == s.pending[p]
    ensures var file := if s.file.Saved? then Some(s.file.state) else None;
            var reply, polled := g.Reply(file, clock), Protocol.PollReceipt(s, p, clock);
            && (reply.None? ==> polled == s)
            && (reply.Some? ==> polled.pending == s.pending - {p} && g.Heard(reply, 0).pending.None?)
            && (reply == Some(true) <==> |polled.releases| == |s.releases| + 1)
            && (reply == Some(true) ==> polled.releases[|s.releases|].requestId == g.pending.value.0)
  {
  }

  // The object the event loop updates in place.

  class DeviceApp {
    var session: bool
    var enforced: bool
    var manualLock: bool
    var remoteLocked: bool
    var lockStarted: Option<Instant>
    var remoteUnlockOverrideAt: Option<DateTime>
    var lastRemoteRefresh: Instant
    var keyboardDisabled: bool
    var recoveryInput: string
    var pendingRecovery: Option<(Uuid, Instant)>
    var unlockFailCount: U32
    var unlockLockedUntil: Option<Instant>
    // The last requests made of Windows.
    var taskManagerDisabled: bool
    var keyboardBlocked: bool
    ghost var refusals: seq<Instant>

    ghost function View(): Screen
      reads this
    {
      Screen(session, enforced, manualLock, Tracking(remoteLocked, remoteUnlockOverrideAt), lockStarted,
             lastRemoteRefresh, keyboardDisabled, taskManagerDisabled, keyboardBlocked,
             Gate(pendingRecovery, unlockFailCount, unlockLockedUntil, refusals))
    }

    constructor (isAdmin: bool, launchedAsShell: bool, remote: Option<PersistedRemoteState>, now: Instant)
      ensures View() == Loaded(isAdmin, launchedAsShell, remote, now)
    {
      session, manualLock, keyboardDisabled := false, false, false;
      enforced := !isAdmin && launchedAsShell;
      remoteLocked := remote.Some? && remote.value.lockState.state.Locked?;
      lockStarted, remoteUnlockOverrideAt, pendingRecovery, unlockLockedUntil := None, None, None, None;
      lastRemoteRefresh := now;
      recoveryInput, unlockFailCount, refusals := "", 0, [];
      taskManagerDisabled, keyboardBlocked := false, false;
    }

    method EndBlueScreen()
      modifies this
      ensures View() == old(View()).Ended() && recoveryInput == ""
    {
      hide Refresh, Released;
      session := false;
      recoveryInput := "";
      enforced := false;
      manualLock := false;
      lockStarted := None;
      taskManagerDisabled := false;
    }

    method RecoveryRefused(now: Instant)
      modifies this
      ensures View() == old(View()).Gated(old(View()).gate.Refused(now))
    {
      unlockFailCount := if unlockFailCount == MAX_U32 then unlockFailCount else unlockFailCount + 1;
      if unlockFailCount >= 5 {
        var backoff := Backoff(unlockFailCount);
        unlockLockedUntil := Some(now + backoff * SECOND);
      }
      refusals := refusals + [now];
    }

    method UnlockReleased(remote: Option<PersistedRemoteState>)
      modifies this
      ensures View() == old(View()).Unlocked(remote) && recoveryInput == ""
    {
      unlockFailCount := 0;
      unlockLockedUntil := None;
      refusals := [];
      remoteUnlockOverrideAt := match remote case Some(state) => Some(state.checkedAt) case None => None;
      remoteLocked := false;
      EndBlueScreen();
    }

    method TryRecoveryUnlock(click: UnlockClick) returns (unlocked: bool)
      modifies this
      ensures !unlocked && View() == old(View()).Gated(old(View()).gate.Tried(click))
    {
      hide TokenDelivery.Submittable, Trim, Gate.Refused, Backoff;
      recoveryInput := click.input;
      if pendingRecovery.Some? {
        return false;
      }
      if unlockLockedUntil.Some? {
        if click.checked <= unlockLockedUntil.value {
          return false;
        }
      }
      var token := Trim(recoveryInput);
      if !TokenDelivery.Submittable(token) {
        RecoveryRefused(click.done);
        return false;
      }
      if click.writeSucceeds {
        pendingRecovery := Some((click.requestId, click.done));
        recoveryInput := "";
      }
      return false;
    }

    method PollRecoveryUnlock(recovery: Option<Recovery.RecoveryState>, clock: DateTime,
                              remote: Option<PersistedRemoteState>, now: Instant)
      modifies this
      ensures View() == old(View()).Polled(recovery, clock, remote, now)
    {
      hide Gate.Refused, Screen.Unlocked;
      if pendingRecovery.None? {
        return;
      }
      var (id, started) := pendingRecovery.value;
      if recovery.Some? && recovery.value.receipt.Some? {
        var receipt := recovery.value.receipt.value;
        if receipt.requestId == id && receipt.expiresAt.After(clock) {
          pendingRecovery := None;
          if receipt.accepted {
            UnlockReleased(remote);
          } else {
            RecoveryRefused(now);
          }
          return;
        }
      }
      if now - started > RECEIPT_WAIT {
        pendingRecovery := None;
      }
    }

    method SyncRemoteLockState(remote: Option<PersistedRemoteState>, now: Instant, refreshed: Instant)
      modifies this
      ensures View() == old(View()).Synced(remote, now, refreshed)
    {
      if now - lastRemoteRefresh < REFRESH_EVERY {
        return;
      }
      lastRemoteRefresh := refreshed;
      if remote.None? {
        return;
      }
      var locked := remote.value.lockState.state.Locked?;
      if locked && remoteUnlockOverrideAt == Some(remote.value.checkedAt) {
        remoteLocked := false;
        return;
      }
      remoteUnlockOverrideAt := None;
      if remoteLocked && !locked {
        remoteLocked := false;
        EndBlueScreen();
      } else if !remoteLocked && locked {
        remoteLocked := true;
      }
    }

    method BlueScreenActive(dismissed: bool) returns (active: bool)
      modifies this
      ensures View() == old(View()).Dismissed(dismissed) && active == View().Active()
    {
      if !enforced && session && dismissed {
        EndBlueScreen();
      }
      active := session || enforced || manualLock || remoteLocked;
    }

    method TickLocked(now: Instant, unlock: Option<UnlockClick>)
      modifies this
      ensures View() == old(View()).Ticked(now, unlock)
    {
      if lockStarted.None? {
        taskManagerDisabled := true;
        lockStarted := Some(now);
      }
      if unlock.Some? {
        var _ := TryRecoveryUnlock(unlock.value);
      }
    }

    method Update(frame: Frame)
      modifies this
      ensures View() == old(View()).Updated(frame)
      ensures old(View()).EffectsBacked() ==> View().Settled()
    {
      hide Screen.Polled, Screen.Synced, Screen.Dismissed, Screen.Ticked;
      UpdateSettlesIfBacked(View(), frame);
      PollRecoveryUnlock(frame.recovery, frame.clock, frame.releasedFrom, frame.polled);
      SyncRemoteLockState(frame.remote, frame.synced, frame.refreshed);
      var locked := BlueScreenActive(frame.dismissed);
      keyboardBlocked := locked || keyboardDisabled;
      if locked {
        TickLocked(frame.ticked, frame.unlock);
      }
    }
  }

  lemma UpdateSettlesIfBacked(s: Screen, frame: Frame)
    ensures s.EffectsBacked() ==> s.Updated(frame).Settled()
  {
    if s.EffectsBacked() {
      UpdateSettles(s, frame);
    }
  }
}
