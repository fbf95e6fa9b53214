// The agent's configuration file (config.rs): identity, API credentials and trusted keys, and the
// data directory that holds it beside its mirrors and backups.
module AgentConfiguration {
  import opened Wrappers
  import opened MachineInts
  import opened Hex
  import opened Base64
  import opened KeyText

  const DEFAULT_API_BASE: string := "https://emi-api.yajtech.com"
  const SUFFIXES: nat := 0x1_0000

  datatype AgentConfig = AgentConfig(
    deviceId: Uuid,
    apiBase: string,
    agentToken: Option<string>,
    remoteDeviceId: Option<Uuid>,
    trustedKeys: map<U64, string>)
  {
    /** A token only counts together with the device id the server issued with it. */
    predicate Paired() {
      agentToken.Some? <==> remoteDeviceId.Some?
    }

    predicate Authenticated() {
      agentToken.Some? && remoteDeviceId.Some?
    }

    /** What a check-in depends on. */
    function Access(): Credentials {
      Credentials(apiBase, agentToken, remoteDeviceId)
    }

    function Cleared(): AgentConfig {
      this.(agentToken := None, remoteDeviceId := None)
    }

    function Normalized(): AgentConfig {
      if agentToken.Some? != remoteDeviceId.Some? then Cleared() else this
    }

    function Enrolled(base: string, token: string, id: Uuid): AgentConfig {
      this.(apiBase := base, agentToken := Some(token), remoteDeviceId := Some(id))
    }

    function Trusting(id: U64, key: string): AgentConfig {
      this.(trustedKeys := trustedKeys[id := key])
    }
  }

  datatype Credentials = Credentials(apiBase: string, token: Option<string>, remoteId: Option<Uuid>)

  function FreshConfig(device: Uuid): AgentConfig {
    AgentConfig(device, DEFAULT_API_BASE, None, None, map[])
  }

  /** The content of `config.json`. */
  datatype ConfigFile = Absent | Invalid(content: string) | Stored(config: AgentConfig)

  /** The mirror for the unprivileged desktop UI: the token itself stays out. */
  datatype UiConfig = UiConfig(deviceId: Uuid, remoteDeviceId: Option<Uuid>, enrolled: bool, apiBase: string)

  function MirrorOf(c: AgentConfig): UiConfig {
    UiConfig(c.deviceId, c.remoteDeviceId, c.agentToken.Some?, c.apiBase)
  }

  /** The last recorded enrollment answer; its clock is the wall clock in nanoseconds. */
  datatype EnrollmentStatus = EnrollmentStatus(checkedAt: int, enrolled: Option<bool>, failed: bool)

  /** `backups` maps the suffix of each `config.invalid*.json` to its content. */
  datatype Directory = Directory(
    config: ConfigFile,
    ui: Option<UiConfig>,
    backups: map<nat, string>,
    status: Option<EnrollmentStatus>)

  datatype ConfigError =
    | KeyIdZero
    | BadKey(error: KeyError)
    | ReadFailed
    | NoBackupName
    | BackupFailed
    | WriteFailed
    | MirrorFailed

  /** How the file operations of one initialization go, and the id a fresh device would get. */
  datatype Disk = Disk(readable: bool, renames: bool, writes: bool, mirrors: bool, freshId: Uuid)

  /** The smallest free suffix from `from` on. */
  function FirstFree(backups: map<nat, string>, from: nat): Option<nat>
    requires from <= SUFFIXES
    decreases SUFFIXES - from
  {
    if from == SUFFIXES then None
    else if from !in backups then Some(from)
    else FirstFree(backups, from + 1)
  }

  lemma {:induction false} FirstFreeIsLeast(backups: map<nat, string>, from: nat)
    requires from <= SUFFIXES
    ensures match FirstFree(backups, from)
            case Some(suffix) =>
              from <= suffix < 65_536 && suffix !in backups && forall k :: from <= k < suffix ==> k in backups
            case None => forall k :: from <= k < 65_536 ==> k in backups
    decreases SUFFIXES - from
  {
    if from < SUFFIXES && from in backups {
      FirstFreeIsLeast(backups, from + 1);
    }
  }

  /** `backup_invalid_config` as a change of the directory. */
  function BackedUp(d: Directory, renames: bool): (Directory, Result<nat, ConfigError>)
    requires d.config.Invalid?
  {
    match FirstFree(d.backups, 0)
    case None => (d, Err(NoBackupName))
    case Some(suffix) =>
      if renames then (d.(config := Absent, backups := d.backups[suffix := d.config.content]), Ok(suffix))
      else (d, Err(BackupFailed))
  }

  /** The configuration `initialize` starts from. */
  function LoadOrCreate(d: Directory, disk: Disk): (Directory, Result<AgentConfig, ConfigError>) {
    if !disk.readable && !d.config.Absent? then (d, Err(ReadFailed))
    else
      match d.config
      case Stored(config) => (d, Ok(config))
      case Absent => (d, Ok(FreshConfig(disk.freshId)))
      case Invalid(_) =>
        var (backed, suffix) := BackedUp(d, disk.renames);
        (backed, if suffix.Ok? then Ok(FreshConfig(disk.freshId)) else Err(suffix.error))
  }

  /** Both files rewritten, the configuration first. */
  function Saved(d: Directory, config: AgentConfig, writes: bool, mirrors: bool)
    : (Directory, Result<AgentConfig, ConfigError>)
  {
    if !writes then (d, Err(WriteFailed))
    else
      var written := d.(config := Stored(config));
      if !mirrors then (written, Err(MirrorFailed))
      else (written.(ui := Some(MirrorOf(config))), Ok(config))
  }

  function Initialized(d: Directory, disk: Disk): (Directory, Result<AgentConfig, ConfigError>) {
    var (loaded, config) := LoadOrCreate(d, disk);
    if config.Err? then (loaded, config)
    else Saved(loaded, config.value.Normalized(), disk.writes, disk.mirrors)
  }

  function Trusted(d: Directory, id: U64, key: Result<string, KeyError>, disk: Disk, writes: bool)
    : (Directory, Result<(), ConfigError>)
  {
    if id == 0 then (d, Err(KeyIdZero))
    else if key.Err? then (d, Err(BadKey(key.error)))
    else
      var (ready, config) := Initialized(d, disk);
      if config.Err? then (ready, Err(config.error))
      else if !writes then (ready, Err(WriteFailed))
      else (ready.(config := Stored(config.value.Trusting(id, key.value))), Ok(()))
  }

  // What a caller can rely on.

  /** A fresh configuration knows the default API and no one's credentials or keys. */
  lemma FreshExactly(device: Uuid)
    ensures var c := FreshConfig(device);
            && c.deviceId == device && c.apiBase == "https://emi-api.yajtech.com"
            && c.agentToken.None? && c.remoteDeviceId.None? && c.trustedKeys == map[]
  {
  }

  /** What the desktop UI is told: whether there is a token, never which. */
  lemma MirrorExactly(a: AgentConfig, b: AgentConfig)
    ensures MirrorOf(a).enrolled <==> a.agentToken.Some?
    ensures MirrorOf(a).deviceId == a.deviceId && MirrorOf(a).remoteDeviceId == a.remoteDeviceId
    ensures MirrorOf(a).apiBase == a.apiBase
    ensures a.agentToken.Some? && b.agentToken.Some? && b == a.(agentToken := b.agentToken) ==>
              MirrorOf(a) == MirrorOf(b)
  {
  }

  /**
   * Initialization that succeeds returns what it stored: paired credentials, mirrored without the token.
   * A stored paired configuration is kept as it is, half a pair is dropped, and invalid content survives
   * under a name that was free; no earlier backup is touched.
   */
  lemma InitializeTheorem(d: Directory, disk: Disk)
    requires Initialized(d, disk).1.Ok?
    ensures var (after, result) := Initialized(d, disk);
            var config := result.value;
            && after.config == Stored(config) && config.Paired() && after.ui == Some(MirrorOf(config))
            && (d.config.Stored? && d.config.config.Paired()
                ==> config == d.config.config && after.backups == d.backups)
            && (d.config.Stored? && !d.config.config.Paired() ==> config == d.config.config.Cleared())
            && (!d.config.Stored? ==> config == FreshConfig(disk.freshId))
            && (d.config.Invalid? ==> exists suffix: nat :: suffix < 65_536 && suffix !in d.backups
                                         && after.backups == d.backups[suffix := d.config.content])
  {
    FirstFreeIsLeast(d.backups, 0);
    if d.config.Invalid? {
      assert FirstFree(d.backups, 0).value !in d.backups;
    }
  }

  /** A failed initialization loses nothing: the old content is in place, kept as a backup, or normalized. */
  lemma FailedInitializeKeepsContent(d: Directory, disk: Disk)
    requires Initialized(d, disk).1.Err?
    ensures var after := Initialized(d, disk).0;
            && (forall k :: k in d.backups ==> k in after.backups && after.backups[k] == d.backups[k])
            && (d.config.Stored? ==> after.config == d.config || after.config == Stored(d.config.config.Normalized()))
            && (d.config.Invalid? ==> after.config == d.config || d.config.content in after.backups.Values)
  {
    FirstFreeIsLeast(d.backups, 0);
    if d.config.Invalid? && disk.readable && FirstFree(d.backups, 0).Some? && disk.renames {
      var suffix := FirstFree(d.backups, 0).value;
      assert Initialized(d, disk).0.backups[suffix] == d.config.content;
    }
  }

  /** Initializing again changes nothing. */
  lemma InitializeIdempotent(d: Directory, disk: Disk, again: Disk)
    requires Initialized(d, disk).1.Ok? && again.readable && again.writes && again.mirrors
    ensures Initialized(Initialized(d, disk).0, again) == Initialized(d, disk)
  {
    InitializeTheorem(d, disk);
  }

  /**
   * Trusting a key stores it in its normal form, under the other keys and the credentials that were there;
   * an id of zero or a bad key changes nothing at all.
   */
  lemma TrustTheorem(d: Directory, id: U64, onCurve: Bytes -> bool, weak: Bytes -> bool, text: string, disk: Disk,
                     writes: bool)
    ensures var key := NormalizePublicKey(onCurve, weak, text);
            var (after, result) := Trusted(d, id, key, disk, writes);
            && (id == 0 || key.Err? ==> result.Err? && after == d)
            && (result.Ok? ==>
                  && after.config.Stored? && after.config.config.Paired()
                  && id in after.config.config.trustedKeys
                  && NormalizePublicKey(onCurve, weak, after.config.config.trustedKeys[id]) == key
                  && (d.config.Stored? && d.config.config.Paired() ==>
                        && after.config.config.Access() == d.config.config.Access()
                        && after.config.config.trustedKeys - {id} == d.config.config.trustedKeys - {id}))
  {
    hide NormalizePublicKey, Initialized;
    var key := NormalizePublicKey(onCurve, weak, text);
    if key.Ok? {
      NormalizeIdempotent(onCurve, weak, text);
      if Initialized(d, disk).1.Ok? {
        InitializeTheorem(d, disk);
      }
    }
  }

  // The directory as the processes change it.

  class DataDirectory {
    var config: ConfigFile
    var ui: Option<UiConfig>
    var backups: map<nat, string>
    var status: Option<EnrollmentStatus>

    function View(): Directory
      reads this
    {
      Directory(config, ui, backups, status)
    }

    constructor (d: Directory)
      ensures View() == d
    {
      config, ui, backups, status := d.config, d.ui, d.backups, d.status;
    }

    /** What another process leaves. */
    method Replace(d: Directory)
      modifies this
      ensures View() == d
    {
      config, ui, backups, status := d.config, d.ui, d.backups, d.status;
    }

    /** `config.json`, then its mirror; each replacement is atomic. */
    method Save(config: AgentConfig, writes: bool, mirrors: bool) returns (r: Result<AgentConfig, ConfigError>)
      modifies this
      ensures (View(), r) == Saved(old(View()), config, writes, mirrors)
    {
      if !writes {
        return Err(WriteFailed);
      }
      this.config := Stored(config);
      if !mirrors {
        return Err(MirrorFailed);
      }
      ui := Some(MirrorOf(config));
      return Ok(config);
    }

    method BackupInvalidConfig(renames: bool) returns (r: Result<nat, ConfigError>)
      requires config.Invalid?
      modifies this
      ensures (View(), r) == BackedUp(old(View()), renames)
    {
      for suffix := 0 to SUFFIXES
        invariant View() == old(View())
        invariant FirstFree(backups, 0) == FirstFree(backups, suffix)
      {
        if suffix !in backups {
          if !renames {
            return Err(BackupFailed);
          }
          backups := backups[suffix := config.content];
          config := Absent;
          return Ok(suffix);
        }
      }
      return Err(NoBackupName);
    }

    method Initialize(disk: Disk) returns (r: Result<AgentConfig, ConfigError>)
      modifies this
      ensures (View(), r) == Initialized(old(View()), disk)
    {
      hide BackedUp, Saved;
      if !disk.readable && !config.Absent? {
        return Err(ReadFailed);
      }
      var loaded := FreshConfig(disk.freshId);
      if config.Stored? {
        loaded := config.config;
      } else if config.Invalid? {
        var backup := BackupInvalidConfig(disk.renames);
        if backup.Err? {
          return Err(backup.error);
        }
      }
      if loaded.agentToken.Some? != loaded.remoteDeviceId.Some? {
        loaded := loaded.(agentToken := None, remoteDeviceId := None);
      }
      r := Save(loaded, disk.writes, disk.mirrors);
    }

    method TrustCommandKey(id: U64, onCurve: Bytes -> bool, weak: Bytes -> bool, text: string, disk: Disk, writes: bool)
      returns (r: Result<(), ConfigError>)
      modifies this
      ensures (View(), r) == Trusted(old(View()), id, NormalizePublicKey(onCurve, weak, text), disk, writes)
    {
      hide NormalizePublicKey, Initialized;
      if id == 0 {
        return Err(KeyIdZero);
      }
      var key := NormalizePublicKey(onCurve, weak, text);
      if key.Err? {
        return Err(BadKey(key.error));
      }
      var ready := Initialize(disk);
      if ready.Err? {
        return Err(ready.error);
      }
      if !writes {
        return Err(WriteFailed);
      }
      config := Stored(ready.value.Trusting(id, key.value));
      return Ok(());
    }
  }
}
