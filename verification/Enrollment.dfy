// Enrollment (enrollment.rs): ask the backend about this device first, enroll only when it says no.
module Enrollment {
  import opened Wrappers
  import opened Hex
  import opened Clock
  import opened AgentConfiguration

  datatype EnrollmentError =
    | LockFailed
    | ConfigUnreadable
    | SerialUnknown
    | ClientRejected
    | CheckFailed
    | CredentialsMissing
    | ClearNotWritten
    | ClearNotMirrored
    | EnrollRefused
    | EnrollmentNotWritten
    | EnrollmentNotMirrored

  datatype CheckReply = NoAnswer | Registered(enrolled: bool)
  datatype EnrollReply = Refused | Granted(token: string, device: Uuid)

  /** Everything that answers one enrollment attempt; `usable` are the bases a client can be built for. */
  datatype Exchange = Exchange(
    locked: bool,
    readable: bool,
    now: int,
    serialKnown: bool,
    usable: string -> bool,
    check: CheckReply,
    recordedAt: int,
    recorded: bool,
    clearWrites: bool,
    clearMirrors: bool,
    serialKnownAgain: bool,
    usableAgain: string -> bool,
    enroll: EnrollReply,
    enrollWrites: bool,
    enrollMirrors: bool)

  function TrimSlashes(s: string): string {
    if s != [] && s[|s| - 1] == '/' then TrimSlashes(s[..|s| - 1]) else s
  }

  /** `AgentApi::new`: the base it calls, if that is acceptable. */
  function NewClient(usable: string -> bool, base: string): Option<string> {
    if usable(TrimSlashes(base)) then Some(TrimSlashes(base)) else None
  }

  /** A positive answer less than a minute old spares the next check. */
  predicate RecentlyConfirmed(config: AgentConfig, status: Option<EnrollmentStatus>, now: int) {
    && config.Authenticated()
    && status.Some? && status.value.enrolled == Some(true) && !status.value.failed
    && now - status.value.checkedAt < 60 * SECOND
  }

  /** The directory, the configuration in memory and the verdict an attempt leaves. */
  type Aftermath = (Directory, AgentConfig, Result<(), EnrollmentError>)

  /** `enroll_config`. */
  function Enrolling(d: Directory, config: AgentConfig, server: string, ex: Exchange): Aftermath {
    if !ex.serialKnownAgain then (d, config, Err(SerialUnknown))
    else if NewClient(ex.usableAgain, server).None? then (d, config, Err(ClientRejected))
    else if ex.enroll.Refused? then (d, config, Err(EnrollRefused))
    else
      var enrolled := config.Enrolled(TrimSlashes(server), ex.enroll.token, ex.enroll.device);
      if !ex.enrollWrites then (d, enrolled, Err(EnrollmentNotWritten))
      else if !ex.enrollMirrors then (d.(config := Stored(enrolled)), enrolled, Err(EnrollmentNotMirrored))
      else (d.(config := Stored(enrolled), ui := Some(MirrorOf(enrolled))), enrolled, Ok(()))
  }

  /** `clear_enrollment_credentials`: memory first, then the file. */
  function Clearing(d: Directory, config: AgentConfig, ex: Exchange): Aftermath {
    var cleared := config.Cleared();
    if !ex.clearWrites then (d, cleared, Err(ClearNotWritten))
    else if !ex.clearMirrors then (d.(config := Stored(cleared)), cleared, Err(ClearNotMirrored))
    else (d.(config := Stored(cleared), ui := Some(MirrorOf(cleared))), cleared, Ok(()))
  }

  /** The decision once the backend has been asked. */
  function Decided(d: Directory, config: AgentConfig, ex: Exchange): Aftermath {
    match ex.check
    case NoAnswer => (d, config, Err(CheckFailed))
    case Registered(true) => (d, config, if config.Authenticated() then Ok(()) else Err(CredentialsMissing))
    case Registered(false) =>
      var (cleared, memory, verdict) := Clearing(d, config, ex);
      if verdict.Err? then (cleared, memory, verdict) else Enrolling(cleared, memory, memory.apiBase, ex)
  }

  function Recorded(d: Directory, ex: Exchange): Directory {
    if !ex.recorded then d
    else d.(status := Some(match ex.check
                           case NoAnswer => EnrollmentStatus(ex.recordedAt, None, true)
                           case Registered(enrolled) => EnrollmentStatus(ex.recordedAt, Some(enrolled), false)))
  }

  /** `check_or_enroll_config`. */
  function CheckedOrEnrolled(d: Directory, memory: AgentConfig, server: Option<string>, ex: Exchange): Aftermath {
    if !ex.locked then (d, memory, Err(LockFailed))
    else if !ex.readable || !d.config.Stored? then (d, memory, Err(ConfigUnreadable))
    else
      var config := if server.Some? then d.config.config.(apiBase := TrimSlashes(server.value)) else d.config.config;
      if server.None? && RecentlyConfirmed(config, d.status, ex.now) then (d, config, Ok(()))
      else if !ex.serialKnown then (d, config, Err(SerialUnknown))
      else if NewClient(ex.usable, config.apiBase).None? then (d, config, Err(ClientRejected))
      else Decided(Recorded(d, ex), config, ex)
  }

  // What an attempt guarantees.

  /** A successful attempt leaves the token and the device id, the same in memory and on disk. */
  lemma SuccessLeavesCredentials(d: Directory, memory: AgentConfig, server: Option<string>, ex: Exchange)
    requires CheckedOrEnrolled(d, memory, server, ex).2.Ok?
    ensures var (after, config, _) := CheckedOrEnrolled(d, memory, server, ex);
            && config.Authenticated() && after.config.Stored?
            && after.config.config.agentToken == config.agentToken
            && after.config.config.remoteDeviceId == config.remoteDeviceId
            && (server.None? ==> after.config.config == config)
  {
  }

  /** A backend that does not know the device leaves either no old credentials on disk or a failed clear. */
  lemma DenialDropsOldCredentials(d: Directory, memory: AgentConfig, server: Option<string>, ex: Exchange)
    requires ex.locked && ex.readable && d.config.Stored? && ex.serialKnown && ex.check == Registered(false)
    requires NewClient(ex.usable, if server.Some? then TrimSlashes(server.value) else d.config.config.apiBase).Some?
    requires server.Some? || d.status.None? || d.status.value.enrolled != Some(true) || d.status.value.failed
             || ex.now - d.status.value.checkedAt >= 60_000_000_000
             || d.config.config.agentToken.None? || d.config.config.remoteDeviceId.None?
    ensures var (after, config, verdict) := CheckedOrEnrolled(d, memory, server, ex);
            && (verdict == Err(ClearNotWritten) <==> !ex.clearWrites)
            && (verdict == Err(ClearNotWritten) ==> after.config == d.config)
            && (verdict != Err(ClearNotWritten) ==>
                  after.config.Stored? &&
                  var left := after.config.config;
                  || (left.agentToken.None? && left.remoteDeviceId.None?)
                  || (ex.enroll.Granted? && left.agentToken == Some(ex.enroll.token)
                      && left.remoteDeviceId == Some(ex.enroll.device)))
  {
  }

  /** The backend is asked and denies the device, and `config.json` cannot be rewritten. */
  predicate ClearingFails(d: Directory, ex: Exchange) {
    && ex.locked && ex.readable && d.config.Stored? && ex.serialKnown
    && !(&& d.config.config.agentToken.Some? && d.config.config.remoteDeviceId.Some?
         && d.status.Some? && d.status.value.enrolled == Some(true) && !d.status.value.failed
         && ex.now - d.status.value.checkedAt < 60_000_000_000)
    && ex.usable(TrimSlashes(d.config.config.apiBase))
    && ex.check == Registered(false) && !ex.clearWrites
  }

  /** The one failure that leaves denied credentials on disk, by what comes in. */
  lemma ClearFailsExactly(d: Directory, memory: AgentConfig, ex: Exchange)
    ensures CheckedOrEnrolled(d, memory, None, ex).2 == Err(ClearNotWritten) <==> ClearingFails(d, ex)
  {
    hide TrimSlashes;
  }

  /** An attempt ends with the trusted keys it read, or those in memory if it never read any. */
  lemma AttemptReadsKeys(d: Directory, memory: AgentConfig, server: Option<string>, ex: Exchange)
    ensures var (_, config, verdict) := CheckedOrEnrolled(d, memory, server, ex);
            if verdict in {Err(LockFailed), Err(ConfigUnreadable)} then config == memory
            else d.config.Stored? && config.trustedKeys == d.config.config.trustedKeys
  {
    hide RecentlyConfirmed, NewClient, TrimSlashes;
  }

  /** A base loses its trailing slashes and nothing else. */
  lemma {:induction false} TrimSlashesExactly(s: string) returns (slashes: string)
    ensures s == TrimSlashes(s) + slashes && forall i :: 0 <= i < |slashes| ==> slashes[i] == '/'
    ensures TrimSlashes(s) == [] || TrimSlashes(s)[|TrimSlashes(s)| - 1] != '/'
  {
    slashes := [];
    if s != [] && s[|s| - 1] == '/' {
      var rest := TrimSlashesExactly(s[..|s| - 1]);
      slashes := rest + ['/'];
      assert s == s[..|s| - 1] + ['/'];
    }
  }

  /**
   * What decides an attempt that has read the configuration: a positive answer less than a minute old spares the
   * question, and touches nothing; otherwise the backend's answer is recorded and followed. A device it does not
   * know ends well only with new credentials.
   */
  lemma AttemptExactly(d: Directory, memory: AgentConfig, ex: Exchange)
    requires ex.locked && ex.readable && d.config.Stored?
    ensures var (after, config, verdict) := CheckedOrEnrolled(d, memory, None, ex);
            var stored := d.config.config;
            var known := stored.agentToken.Some? && stored.remoteDeviceId.Some?;
            var spared := && known && d.status.Some? && d.status.value.enrolled == Some(true) && !d.status.value.failed
                          && ex.now - d.status.value.checkedAt < 60_000_000_000;
            var asks := !spared && ex.serialKnown && ex.usable(TrimSlashes(stored.apiBase));
            && (spared ==> after == d && config == stored && verdict == Ok(()))
            && (!spared && !asks ==>
                  && after == d && config == stored
                  && verdict == Err(if ex.serialKnown then ClientRejected else SerialUnknown))
            && (asks && !ex.recorded ==> after.status == d.status)
            && (asks && ex.recorded ==>
                  && after.status.Some? && after.status.value.checkedAt == ex.recordedAt
                  && (after.status.value.failed <==> ex.check.NoAnswer?)
                  && after.status.value.enrolled == if ex.check.NoAnswer? then None else Some(ex.check.enrolled))
            && (asks && ex.check == NoAnswer ==>
                  after.config == d.config && config == stored && verdict == Err(CheckFailed))
            && (asks && ex.check == Registered(true) ==>
                  && after.config == d.config && config == stored
                  && verdict == if known then Ok(()) else Err(CredentialsMissing))
            && (asks && ex.check == Registered(false) ==>
                  (verdict.Ok? <==>
                     && ex.clearWrites && ex.clearMirrors && ex.serialKnownAgain && ex.enroll.Granted?
                     && ex.usableAgain(TrimSlashes(stored.apiBase)) && ex.enrollWrites && ex.enrollMirrors))
            && (asks && ex.check == Registered(false) && verdict.Ok? ==>
                  && after.config == Stored(config) && config.apiBase == TrimSlashes(stored.apiBase)
                  && config.agentToken == Some(ex.enroll.token) && config.remoteDeviceId == Some(ex.enroll.device)
                  && config.deviceId == stored.deviceId && config.trustedKeys == stored.trustedKeys)
  {
    hide TrimSlashes;
  }

  /** What a failed attempt leaves: memory in step with the disk, unless a write was what failed. */
  lemma FailureLeaves(d: Directory, memory: AgentConfig, ex: Exchange)
    requires CheckedOrEnrolled(d, memory, None, ex).2.Err?
    requires d.config.Stored? && d.config.config.Access() == memory.Access()
    ensures var (after, config, verdict) := CheckedOrEnrolled(d, memory, None, ex);
            && after.config.Stored?
            && var left := after.config.config;
            && (verdict == Err(ClearNotWritten) ==>
                  left == d.config.config && config.agentToken.None? && config.remoteDeviceId.None?
                  && config.apiBase == left.apiBase)
            && (verdict == Err(EnrollmentNotWritten) ==> left.agentToken.None?)
            && (verdict != Err(ClearNotWritten) && verdict != Err(EnrollmentNotWritten) ==>
                  left.Access() == config.Access())
  {
  }

  /** Paired credentials stay paired, in memory and on disk. */
  lemma AttemptKeepsPairs(d: Directory, memory: AgentConfig, server: Option<string>, ex: Exchange)
    requires memory.Paired() && (d.config.Stored? ==> d.config.config.Paired())
    ensures var (after, config, _) := CheckedOrEnrolled(d, memory, server, ex);
            config.Paired() && (after.config.Stored? ==> after.config.config.Paired())
  {
    hide RecentlyConfirmed, NewClient, TrimSlashes;
  }

  // The attempt on the shared directory, API lock held.

  method ClearEnrollmentCredentials(directory: DataDirectory, config: AgentConfig, ex: Exchange)
    returns (cleared: AgentConfig, r: Result<(), EnrollmentError>)
    modifies directory
    ensures (directory.View(), cleared, r) == Clearing(old(directory.View()), config, ex)
  {
    cleared := config.(agentToken := None, remoteDeviceId := None);
    var saved := directory.Save(cleared, ex.clearWrites, ex.clearMirrors);
    r := if saved.Ok? then Ok(()) else if saved.error.WriteFailed? then Err(ClearNotWritten) else Err(ClearNotMirrored);
  }

  method EnrollConfig(directory: DataDirectory, config: AgentConfig, server: string, ex: Exchange)
    returns (enrolled: AgentConfig, r: Result<(), EnrollmentError>)
    modifies directory
    ensures (directory.View(), enrolled, r) == Enrolling(old(directory.View()), config, server, ex)
  {
    enrolled := config;
    if !ex.serialKnownAgain {
      return enrolled, Err(SerialUnknown);
    }
    var api := NewClient(ex.usableAgain, server);
    if api.None? {
      return enrolled, Err(ClientRejected);
    }
    if ex.enroll.Refused? {
      return enrolled, Err(EnrollRefused);
    }
    enrolled := enrolled.(apiBase := TrimSlashes(server));
    enrolled := enrolled.(agentToken := Some(ex.enroll.token));
    enrolled := enrolled.(remoteDeviceId := Some(ex.enroll.device));
    var saved := directory.Save(enrolled, ex.enrollWrites, ex.enrollMirrors);
    r := if saved.Ok? then Ok(()) else if saved.error.WriteFailed? then Err(EnrollmentNotWritten)
      else Err(EnrollmentNotMirrored);
  }

  method CheckOrEnrollConfig(directory: DataDirectory, memory: AgentConfig, server: Option<string>, ex: Exchange)
    returns (config: AgentConfig, r: Result<(), EnrollmentError>)
    modifies directory
    ensures (directory.View(), config, r) == CheckedOrEnrolled(old(directory.View()), memory, server, ex)
  {
    hide Enrolling, Clearing, RecentlyConfirmed;
    config := memory;
    if !ex.locked {
      return config, Err(LockFailed);
    }
    if !ex.readable || !directory.config.Stored? {
      return config, Err(ConfigUnreadable);
    }
    config := directory.config.config;
    if server.Some? {
      config := config.(apiBase := TrimSlashes(server.value));
    } else if RecentlyConfirmed(config, directory.status, ex.now) {
      return config, Ok(());
    }
    if !ex.serialKnown {
      return config, Err(SerialUnknown);
    }
    var api := NewClient(ex.usable, config.apiBase);
    if api.None? {
      return config, Err(ClientRejected);
    }
    if ex.recorded {
      directory.status := Some(match ex.check
                               case NoAnswer => EnrollmentStatus(ex.recordedAt, None, true)
                               case Registered(enrolled) => EnrollmentStatus(ex.recordedAt, Some(enrolled), false));
    }
    if ex.check.NoAnswer? {
      return config, Err(CheckFailed);
    }
    if ex.check.enrolled {
      return config, if config.Authenticated() then Ok(()) else Err(CredentialsMissing);
    }
    config, r := ClearEnrollmentCredentials(directory, config, ex);
    if r.Err? {
      return config, r;
    }
    config, r := EnrollConfig(directory, config, config.apiBase, ex);
  }
}
