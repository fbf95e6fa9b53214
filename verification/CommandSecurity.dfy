// Verification and replay protection of remote lock commands (command_security.rs).
module CommandSecurity {
  import opened Wrappers
  import opened Text
  import opened Base64
  import opened MachineInts
  import opened Hex
  import opened Calendar
  import Json
  import KeyText

  /**
   * The primitives left abstract: the hex SHA-256 of a text's UTF-8 bytes, which 32-byte strings
   * are curve points, and strict Ed25519 verification (section 5.1 of RFC 8032).
   */
  datatype Crypto = Crypto(
    sha256: string -> string,
    onCurve: Bytes -> bool,
    verify: (Bytes, string, Bytes) -> bool)

  datatype CommandAction = Lock | Unlock | Warn | Release | Uninstall

  datatype PendingCommand = PendingCommand(
    uuid: Uuid,
    action: CommandAction,
    reason: string,
    nonce: string,
    expiresAt: DateTime)

  datatype PatchFile = PatchFile(
    uuid: Uuid,
    lockCommandUuid: Uuid,
    version: U32,
    action: CommandAction,
    checksum: string,
    sizeBytes: U64,
    signedPayload: string,
    signingKeyId: U64,
    expiresAt: DateTime,
    downloadUrl: string)

  /** The durable anti-replay ledger. */
  datatype CommandSecurityState = CommandSecurityState(
    highestPatchVersion: U32,
    lastPatchUuid: Option<Uuid>,
    lastCommandUuid: Option<Uuid>,
    lastMessageSha256: Option<string>,
    consumedNonceSha256: set<string>)

  const NO_COMMANDS := CommandSecurityState(0, None, None, None, {})

  datatype CommandError =
    | Expired
    | MissingNonce
    | MetadataMismatch
    | ZeroVersion
    | ReplayOrRollback
    | NonceReused
    | UntrustedKey
    | MalformedKey
    | InvalidKey
    | MalformedSignature
    | BadSignature

  // The canonical signed message.

  const SIGNING_DOMAIN: string := "emi-command-patch-v1"

  function ActionName(action: CommandAction): string {
    match action
    case Lock => "LOCK"
    case Unlock => "UNLOCK"
    case Warn => "WARN"
    case Release => "RELEASE"
    case Uninstall => "UNINSTALL"
  }

  function ReadAction(name: string): Option<CommandAction> {
    if name == "LOCK" then Some(Lock)
    else if name == "UNLOCK" then Some(Unlock)
    else if name == "WARN" then Some(Warn)
    else if name == "RELEASE" then Some(Release)
    else if name == "UNINSTALL" then Some(Uninstall)
    else None
  }

  function CanonicalMembers(device: Uuid, command: PendingCommand, patch: PatchFile): Json.Object {
    [ Json.Member("domain", Json.Str(SIGNING_DOMAIN)),
      Json.Member("device_uuid", Json.Str(UuidText(device))),
      Json.Member("patch_uuid", Json.Str(UuidText(patch.uuid))),
      Json.Member("command_uuid", Json.Str(UuidText(command.uuid))),
      Json.Member("version", Json.Num(patch.version)),
      Json.Member("action", Json.Str(ActionName(patch.action))),
      Json.Member("reason", Json.Str(command.reason)),
      Json.Member("nonce", Json.Str(command.nonce)),
      Json.Member("command_expires_at", Json.Str(Rfc3339Micros(command.expiresAt))),
      Json.Member("patch_expires_at", Json.Str(Rfc3339Micros(patch.expiresAt))),
      Json.Member("checksum", Json.Str(AsciiLowercase(Trim(patch.checksum)))),
      Json.Member("size_bytes", Json.Num(patch.sizeBytes)) ]
  }

  function CanonicalPatchMessage(device: Uuid, command: PendingCommand, patch: PatchFile): string {
    Json.ObjectText(CanonicalMembers(device, command, patch))
  }

  /** What a signature covers: every field below, expiries to the microsecond, checksum folded. */
  datatype SignedContent = SignedContent(
    device: Bytes,
    patchUuid: Bytes,
    commandUuid: Bytes,
    version: nat,
    action: CommandAction,
    reason: string,
    nonce: string,
    commandExpiresAt: RawDateTime,
    patchExpiresAt: RawDateTime,
    checksum: string,
    sizeBytes: nat)

  function Content(device: Uuid, command: PendingCommand, patch: PatchFile): SignedContent {
    SignedContent(device, patch.uuid, command.uuid, patch.version, patch.action, command.reason, command.nonce,
                  TruncateMicros(command.expiresAt), TruncateMicros(patch.expiresAt),
                  AsciiLowercase(Trim(patch.checksum)), patch.sizeBytes)
  }

  function StrAt(o: Json.Object, i: nat): string {
    if i < |o| && o[i].value.Str? then o[i].value.text else ""
  }

  function NumAt(o: Json.Object, i: nat): nat {
    if i < |o| && o[i].value.Num? then o[i].value.number else 0
  }

  /** Reads a canonical message back. */
  function ReadContent(message: string): Option<SignedContent> {
    match Json.ReadObject(message)
    case None => None
    case Some(o) =>
      match (ReadUuid(StrAt(o, 1)), ReadUuid(StrAt(o, 2)), ReadUuid(StrAt(o, 3)),
             ReadAction(StrAt(o, 5)), ReadTimestamp(StrAt(o, 8)), ReadTimestamp(StrAt(o, 9)))
      case (Some(device), Some(patchUuid), Some(commandUuid), Some(action), Some(commandExpiry), Some(patchExpiry)) =>
        Some(SignedContent(device, patchUuid, commandUuid, NumAt(o, 4), action, StrAt(o, 6), StrAt(o, 7),
                           commandExpiry, patchExpiry, StrAt(o, 10), NumAt(o, 11)))
      case _ => None
  }

  /** The canonical message carries its content, for arbitrary reason, nonce and checksum texts. */
  lemma CanonicalMessageInverts(device: Uuid, command: PendingCommand, patch: PatchFile)
    ensures ReadContent(CanonicalPatchMessage(device, command, patch)) == Some(Content(device, command, patch))
  {
    hide Json.ReadObject, Json.ObjectText, ReadUuid, UuidText, ReadTimestamp, Rfc3339Micros, AsciiLowercase, Trim,
        TruncateMicros;
    Json.ObjectInverts(CanonicalMembers(device, command, patch));
    UuidInverts(device);
    UuidInverts(patch.uuid);
    UuidInverts(command.uuid);
    TimestampInverts(command.expiresAt);
    TimestampInverts(patch.expiresAt);
  }

  /**
   * Two messages are equal exactly when their contents are, so a signature cannot be carried to
   * any other content.
   */
  lemma CanonicalMessageInjective(device: Uuid, command: PendingCommand, patch: PatchFile,
                                  device': Uuid, command': PendingCommand, patch': PatchFile)
    ensures CanonicalPatchMessage(device, command, patch) == CanonicalPatchMessage(device', command', patch')
            <==> Content(device, command, patch) == Content(device', command', patch')
  {
    hide ReadContent, CanonicalPatchMessage, Rfc3339Micros, AsciiLowercase, Trim, TruncateMicros;
    CanonicalMessageInverts(device, command, patch);
    CanonicalMessageInverts(device', command', patch');
    if Content(device, command, patch) == Content(device', command', patch') {
      TruncationKeepsText(command.expiresAt);
      TruncationKeepsText(command'.expiresAt);
      TruncationKeepsText(patch.expiresAt);
      TruncationKeepsText(patch'.expiresAt);
      assert CanonicalMembers(device, command, patch) == CanonicalMembers(device', command', patch');
      CanonicalMessageIsObject(device, command, patch);
      CanonicalMessageIsObject(device', command', patch');
    }
  }

  lemma CanonicalMessageIsObject(device: Uuid, command: PendingCommand, patch: PatchFile)
    ensures CanonicalPatchMessage(device, command, patch) == Json.ObjectText(CanonicalMembers(device, command, patch))
  {
  }

  /**
   * The message written out: the twelve names in order, the domain, the action names, and what stands for
   * each value. `Json.Name` puts a name between quotes before a colon.
   */
  lemma CanonicalMessageText(device: Uuid, command: PendingCommand, patch: PatchFile)
    ensures CanonicalPatchMessage(device, command, patch)
         == ['{'] + (Json.Name("domain") + (Json.Quoted("emi-command-patch-v1") + ([',']
            + (Json.Name("device_uuid") + (Json.Quoted(UuidText(device)) + ([',']
            + (Json.Name("patch_uuid") + (Json.Quoted(UuidText(patch.uuid)) + ([',']
            + (Json.Name("command_uuid") + (Json.Quoted(UuidText(command.uuid)) + ([',']
            + (Json.Name("version") + (Decimal(patch.version) + ([',']
            + (Json.Name("action") + (Json.Quoted(match patch.action
                                                  case Lock => "LOCK"
                                                  case Unlock => "UNLOCK"
                                                  case Warn => "WARN"
                                                  case Release => "RELEASE"
                                                  case Uninstall => "UNINSTALL") + ([',']
            + (Json.Name("reason") + (Json.Quoted(command.reason) + ([',']
            + (Json.Name("nonce") + (Json.Quoted(command.nonce) + ([',']
            + (Json.Name("command_expires_at") + (Json.Quoted(Rfc3339Micros(command.expiresAt)) + ([',']
            + (Json.Name("patch_expires_at") + (Json.Quoted(Rfc3339Micros(patch.expiresAt)) + ([',']
            + (Json.Name("checksum") + (Json.Quoted(AsciiLowercase(Trim(patch.checksum))) + ([',']
            + (Json.Name("size_bytes") + (Decimal(patch.sizeBytes)
            + ['}'])))))))))))))))))))))))))))))))))))
  {
    hide Json.Quoted, Json.MembersText, Json.Name, Json.PlainText, UuidText, Rfc3339Micros, AsciiLowercase, Trim,
      Decimal;
    var o := CanonicalMembers(device, command, patch);
    MemberNames();
    assert forall i :: 0 <= i < 12 ==> Json.PlainText(o[i].key);
    ThreeFrom(o, 0);
    ThreeFrom(o, 3);
    ThreeFrom(o, 6);
    LastThree(o);
    assert o[0..] == o;
  }

  lemma ThreeFrom(o: Json.Object, k: nat)
    requires k + 3 < |o| && forall i :: 0 <= i < |o| ==> Json.PlainText(o[i].key)
    ensures Json.MembersText(o[k..])
         == Json.Name(o[k].key) + (Json.ValueText(o[k].value) + ([',']
            + (Json.Name(o[k + 1].key) + (Json.ValueText(o[k + 1].value) + ([',']
            + (Json.Name(o[k + 2].key) + (Json.ValueText(o[k + 2].value) + ([',']
            + Json.MembersText(o[k + 3..])))))))))
  {
    hide Json.MembersText, Json.Name, Json.ValueText, Json.PlainText;
    MembersFrom(o, k);
    MembersFrom(o, k + 1);
    MembersFrom(o, k + 2);
  }

  lemma LastThree(o: Json.Object)
    requires |o| == 12 && forall i :: 0 <= i < 12 ==> Json.PlainText(o[i].key)
    ensures Json.MembersText(o[9..])
         == Json.Name(o[9].key) + (Json.ValueText(o[9].value) + ([',']
            + (Json.Name(o[10].key) + (Json.ValueText(o[10].value) + ([',']
            + (Json.Name(o[11].key) + (Json.ValueText(o[11].value)
            + ['}'])))))))
  {
    hide Json.MembersText, Json.Name, Json.ValueText, Json.PlainText;
    MembersFrom(o, 9);
    MembersFrom(o, 10);
    MembersFrom(o, 11);
    NoMembers();
    assert o[12..] == [] && "" + ['}'] == ['}'];
  }

  lemma MemberNames()
    ensures Json.PlainText("domain") && Json.PlainText("device_uuid") && Json.PlainText("patch_uuid")
    ensures Json.PlainText("command_uuid") && Json.PlainText("version") && Json.PlainText("action")
    ensures Json.PlainText("reason") && Json.PlainText("nonce") && Json.PlainText("command_expires_at")
    ensures Json.PlainText("patch_expires_at") && Json.PlainText("checksum") && Json.PlainText("size_bytes")
  {
    hide Json.PlainText;
    LongNames();
    ShortNames();
  }

  lemma LongNames()
    ensures Json.PlainText("device_uuid") && Json.PlainText("patch_uuid") && Json.PlainText("command_uuid")
    ensures Json.PlainText("command_expires_at") && Json.PlainText("patch_expires_at")
  {
  }

  lemma ShortNames()
    ensures Json.PlainText("domain") && Json.PlainText("version") && Json.PlainText("action")
    ensures Json.PlainText("reason") && Json.PlainText("nonce") && Json.PlainText("checksum")
    ensures Json.PlainText("size_bytes")
  {
  }

  lemma MembersFrom(o: Json.Object, k: nat)
    requires k < |o| && Json.PlainText(o[k].key)
    ensures Json.MembersText(o[k..])
         == Json.Name(o[k].key) + (Json.ValueText(o[k].value)
            + ((if k == |o| - 1 then "" else ",") + Json.MembersText(o[k + 1..])))
  {
    hide Json.MembersText, Json.Name, Json.ValueText, Json.PlainText;
    Json.MembersStart(o[k..]);
    assert o[k..][1..] == o[k + 1..];
  }

  lemma NoMembers()
    ensures Json.MembersText([]) == ['}']
  {
  }

  /** The checksum as it is signed: trimmed, small letters for capitals, every other character kept. */
  lemma ChecksumText(patch: PatchFile, i: nat)
    requires i < |Trim(patch.checksum)|
    ensures var trimmed, signed := Trim(patch.checksum), AsciiLowercase(Trim(patch.checksum));
            && |signed| == |trimmed| && !('A' <= signed[i] <= 'Z')
            && (if 'A' <= trimmed[i] <= 'Z' then signed[i] as int == trimmed[i] as int + 32
                else signed[i] == trimmed[i])
  {
    hide Trim;
    LowercaseExactly(Trim(patch.checksum), i);
  }

  // Verification.

  /** The checks that need no signing key. */
  function VerifyPatchBinding(command: PendingCommand, patch: PatchFile, serverTime: DateTime)
    : Result<(), CommandError>
  {
    if !command.expiresAt.After(serverTime) || !patch.expiresAt.After(serverTime) then Err(Expired)
    else if Trim(command.nonce) == "" then Err(MissingNonce)
    else if patch.lockCommandUuid != command.uuid || patch.action != command.action then Err(MetadataMismatch)
    else if patch.version == 0 then Err(ZeroVersion)
    else Ok(())
  }

  predicate ExactRetry(crypto: Crypto, device: Uuid, command: PendingCommand, patch: PatchFile,
                       state: CommandSecurityState) {
    && state.lastMessageSha256 == Some(crypto.sha256(CanonicalPatchMessage(device, command, patch)))
    && state.lastPatchUuid == Some(patch.uuid)
    && state.lastCommandUuid == Some(command.uuid)
    && crypto.sha256(command.nonce) in state.consumedNonceSha256
    && state.highestPatchVersion == patch.version
  }

  /** The signature over the canonical message verifies under the trusted key the patch names. */
  function VerifySignature(crypto: Crypto, message: string, patch: PatchFile, trusted: map<U64, string>)
    : Result<(), CommandError>
  {
    if patch.signingKeyId !in trusted then Err(UntrustedKey)
    else
      match (KeyText.DecodeFixed(32, trusted[patch.signingKeyId]), KeyText.DecodeFixed(64, patch.signedPayload))
      case (Err(_), _) => Err(MalformedKey)
      case (Ok(key), signature) =>
        if !crypto.onCurve(key) then Err(InvalidKey)
        else if signature.Err? then Err(MalformedSignature)
        else if crypto.verify(key, message, signature.value) then Ok(())
        else Err(BadSignature)
  }

  function VerifyCommandPatch(crypto: Crypto, device: Uuid, command: PendingCommand, patch: PatchFile,
                              serverTime: DateTime, trusted: map<U64, string>, state: CommandSecurityState)
    : Result<(), CommandError>
  {
    var _ :- VerifyPatchBinding(command, patch, serverTime);
    var retry := ExactRetry(crypto, device, command, patch, state);
    if patch.version < state.highestPatchVersion || (patch.version == state.highestPatchVersion && !retry) then
      Err(ReplayOrRollback)
    else if !retry && crypto.sha256(command.nonce) in state.consumedNonceSha256 then
      Err(NonceReused)
    else
      VerifySignature(crypto, CanonicalPatchMessage(device, command, patch), patch, trusted)
  }

  function AppliedSecurityState(crypto: Crypto, device: Uuid, previous: CommandSecurityState,
                                command: PendingCommand, patch: PatchFile): CommandSecurityState {
    previous.(
      lastMessageSha256 := Some(crypto.sha256(CanonicalPatchMessage(device, command, patch))),
      highestPatchVersion := patch.version,
      lastPatchUuid := Some(patch.uuid),
      lastCommandUuid := Some(command.uuid),
      consumedNonceSha256 := previous.consumedNonceSha256 + {crypto.sha256(command.nonce)})
  }

  /** `signature` is a signature of `message` under the key the patch names, both in one of their two spellings. */
  ghost predicate SignedUnder(crypto: Crypto, message: string, patch: PatchFile, trusted: map<U64, string>,
                              key: Bytes, signature: Bytes) {
    && patch.signingKeyId in trusted && |key| == 32 && |signature| == 64
    && Trim(trusted[patch.signingKeyId]) in {Encode(Standard, key), Encode(UrlSafeNoPad, key)}
    && Trim(patch.signedPayload) in {Encode(Standard, signature), Encode(UrlSafeNoPad, signature)}
    && crypto.onCurve(key) && crypto.verify(key, message, signature)
  }

  lemma SignatureExactly(crypto: Crypto, message: string, patch: PatchFile, trusted: map<U64, string>)
    ensures VerifySignature(crypto, message, patch, trusted).Ok?
            <==> exists key: Bytes, signature: Bytes :: SignedUnder(crypto, message, patch, trusted, key, signature)
  {
    hide KeyText.DecodeFixed, Encode, Trim;
    if patch.signingKeyId in trusted {
      forall key: Bytes, signature: Bytes
        ensures KeyText.DecodeFixed(32, trusted[patch.signingKeyId]) == Ok(key)
                <==> |key| == 32
                     && Trim(trusted[patch.signingKeyId]) in {Encode(Standard, key), Encode(UrlSafeNoPad, key)}
        ensures KeyText.DecodeFixed(64, patch.signedPayload) == Ok(signature)
                <==> |signature| == 64
                     && Trim(patch.signedPayload) in {Encode(Standard, signature), Encode(UrlSafeNoPad, signature)}
      {
        KeyText.DecodeFixedSpellings(32, trusted[patch.signingKeyId], key);
        KeyText.DecodeFixedSpellings(64, patch.signedPayload, signature);
      }
      if VerifySignature(crypto, message, patch, trusted).Ok? {
        var key := KeyText.DecodeFixed(32, trusted[patch.signingKeyId]).value;
        var signature := KeyText.DecodeFixed(64, patch.signedPayload).value;
        assert SignedUnder(crypto, message, patch, trusted, key, signature);
      }
    }
  }

  /** The digest, ids, nonce and version are those of the last applied command. */
  predicate RepeatsLast(crypto: Crypto, device: Uuid, command: PendingCommand, patch: PatchFile,
                        state: CommandSecurityState) {
    && state.highestPatchVersion == patch.version
    && state.lastPatchUuid == Some(patch.uuid) && state.lastCommandUuid == Some(command.uuid)
    && crypto.sha256(command.nonce) in state.consumedNonceSha256
    && state.lastMessageSha256 == Some(crypto.sha256(CanonicalPatchMessage(device, command, patch)))
  }

  /**
   * A command is accepted exactly if it is current and bound to its patch, new or the last one again, and
   * carries a signature that verifies under the trusted key it names.
   */
  lemma AcceptedExactly(crypto: Crypto, device: Uuid, command: PendingCommand, patch: PatchFile,
                        serverTime: DateTime, trusted: map<U64, string>, state: CommandSecurityState)
    ensures VerifyCommandPatch(crypto, device, command, patch, serverTime, trusted, state).Ok?
            <==> && command.expiresAt.After(serverTime) && patch.expiresAt.After(serverTime)
                 && Trim(command.nonce) != "" && patch.lockCommandUuid == command.uuid && patch.action == command.action
                 && patch.version > 0
                 && (|| RepeatsLast(crypto, device, command, patch, state)
                     || (&& patch.version > state.highestPatchVersion
                         && crypto.sha256(command.nonce) !in state.consumedNonceSha256))
                 && exists key: Bytes, signature: Bytes ::
                      SignedUnder(crypto, CanonicalPatchMessage(device, command, patch), patch, trusted, key, signature)
  {
    hide CanonicalPatchMessage, VerifySignature, Trim, SignedUnder;
    SignatureExactly(crypto, CanonicalPatchMessage(device, command, patch), patch, trusted);
  }

  /** The first check to fail gives the reason, in this order. */
  lemma RefusedExactly(crypto: Crypto, device: Uuid, command: PendingCommand, patch: PatchFile,
                       serverTime: DateTime, trusted: map<U64, string>, state: CommandSecurityState)
    ensures var verdict := VerifyCommandPatch(crypto, device, command, patch, serverTime, trusted, state);
            var current := command.expiresAt.After(serverTime) && patch.expiresAt.After(serverTime);
            var named := Trim(command.nonce) != "";
            var bound := patch.lockCommandUuid == command.uuid && patch.action == command.action;
            var again := RepeatsLast(crypto, device, command, patch, state);
            var newer := patch.version > state.highestPatchVersion || again;
            var unused := crypto.sha256(command.nonce) !in state.consumedNonceSha256 || again;
            && (verdict == Err(Expired) <==> !current)
            && (verdict == Err(MissingNonce) <==> current && !named)
            && (verdict == Err(MetadataMismatch) <==> current && named && !bound)
            && (verdict == Err(ZeroVersion) <==> current && named && bound && patch.version == 0)
            && (verdict == Err(ReplayOrRollback) <==> current && named && bound && patch.version > 0 && !newer)
            && (verdict == Err(NonceReused) <==> current && named && bound && patch.version > 0 && newer && !unused)
            && (verdict == Err(UntrustedKey) <==>
                  && current && named && bound && patch.version > 0 && newer && unused
                  && patch.signingKeyId !in trusted)
  {
    hide CanonicalPatchMessage, Trim, KeyText.DecodeFixed;
  }

  /** `next` can follow `previous` on disk: nothing is forgotten. */
  predicate Extends(previous: CommandSecurityState, next: CommandSecurityState) {
    && previous.highestPatchVersion <= next.highestPatchVersion
    && previous.consumedNonceSha256 <= next.consumedNonceSha256
  }

  /**
   * `AppliedSecurityState` assigns the version unconditionally; it extends the ledger because an
   * accepted command either is newer with an unused nonce or is the last one again.
   */
  lemma AcceptedCommandExtends(crypto: Crypto, device: Uuid, command: PendingCommand, patch: PatchFile,
                               serverTime: DateTime, trusted: map<U64, string>, state: CommandSecurityState)
    requires VerifyCommandPatch(crypto, device, command, patch, serverTime, trusted, state).Ok?
    ensures var next := AppliedSecurityState(crypto, device, state, command, patch);
            && Extends(state, next)
            && (|| (state.highestPatchVersion < patch.version
                    && crypto.sha256(command.nonce) !in state.consumedNonceSha256)
                || (ExactRetry(crypto, device, command, patch, state) && next == state))
  {
    hide CanonicalPatchMessage, VerifySignature, Trim;
    var next := AppliedSecurityState(crypto, device, state, command, patch);
    if ExactRetry(crypto, device, command, patch, state) {
      assert next.consumedNonceSha256 == state.consumedNonceSha256;
    }
  }

  /** Applying makes the same command an exact retry: accepted while current, and changing nothing. */
  lemma RetryAcceptedAndIdle(crypto: Crypto, device: Uuid, command: PendingCommand, patch: PatchFile,
                             serverTime: DateTime, later: DateTime, trusted: map<U64, string>,
                             state: CommandSecurityState)
    requires VerifyCommandPatch(crypto, device, command, patch, serverTime, trusted, state).Ok?
    ensures var next := AppliedSecurityState(crypto, device, state, command, patch);
            && AppliedSecurityState(crypto, device, next, command, patch) == next
            && (VerifyCommandPatch(crypto, device, command, patch, later, trusted, next).Ok?
                <==> command.expiresAt.After(later) && patch.expiresAt.After(later))
  {
    hide CanonicalPatchMessage, VerifySignature, Trim;
    var next := AppliedSecurityState(crypto, device, state, command, patch);
    assert ExactRetry(crypto, device, command, patch, next);
    assert next.consumedNonceSha256 + {crypto.sha256(command.nonce)} == next.consumedNonceSha256;
  }
}
