// The service side of offline recovery (recovery_service.rs): provisioning a public key, and
// answering one mailbox request by committing counter and receipt in one document.
module RecoveryService {
  import opened Wrappers
  import opened Text
  import opened Base64
  import opened MachineInts
  import opened Hex
  import opened Calendar
  import opened UnlockTokens

  const LAB_KEY: string := "ac1473ba71d2cd322163ccc8a8f64e1226cfcb815bfc270cbe7417f16d8ae7ba"
  const RECEIPT_SECONDS: nat := 30

  datatype RecoveryRequest = RecoveryRequest(requestId: Uuid, token: string)

  datatype RecoveryReceipt = RecoveryReceipt(requestId: Uuid, accepted: bool, expiresAt: DateTime)

  datatype RecoveryState = RecoveryState(publicKeyHex: string, counter: U64, receipt: Option<RecoveryReceipt>)

  /** The content of `recovery-state.json`. */
  datatype StateFile = Missing | Corrupt | Saved(state: RecoveryState)

  datatype RecoveryError =
    | MailboxUnreadable
    | NotProvisioned
    | StateUnreadable
    | InvalidKey
    | KeyNotAllowed
    | WriteFailed

  /** The signature scheme with its tests for curve points and weak keys. */
  datatype Verifier = Verifier(scheme: Scheme, onCurve: Bytes -> bool, weak: Bytes -> bool)

  /** Parses a key text and applies the curve, weakness and published-key tests. */
  function AllowedKey(v: Verifier, hex: string): Result<Bytes, RecoveryError> {
    match ParsedKey(v.onCurve, hex)
    case None => Err(InvalidKey)
    case Some(key) =>
      if v.weak(key) || AsciiLowercase(hex) == LAB_KEY then Err(KeyNotAllowed)
      else Ok(key)
  }

  /** `validate_public_key`: the trimmed lower-case text, if it is an allowed key. */
  function ValidatePublicKey(v: Verifier, keyHex: string): Result<string, RecoveryError> {
    var normalized := AsciiLowercase(Trim(keyHex));
    var _ :- AllowedKey(v, normalized);
    Ok(normalized)
  }

  /** The counter a provisioning carries over; a missing file starts at zero. */
  function CarriedCounter(file: StateFile): Result<U64, RecoveryError> {
    match file
    case Missing => Ok(0)
    case Corrupt => Err(StateUnreadable)
    case Saved(state) => Ok(state.counter)
  }

  function LoadState(file: StateFile): Result<RecoveryState, RecoveryError> {
    match file
    case Missing => Err(NotProvisioned)
    case Corrupt => Err(StateUnreadable)
    case Saved(state) => Ok(state)
  }

  predicate Answered(state: RecoveryState, request: RecoveryRequest) {
    state.receipt.Some? && state.receipt.value.requestId == request.requestId
  }

  /** What a screen that submitted `requestId` reads at `clock`: the verdict of a receipt still current. */
  function ReceiptVerdict(state: RecoveryState, requestId: Uuid, clock: DateTime): Option<bool> {
    match state.receipt
    case None => None
    case Some(receipt) =>
      if receipt.requestId == requestId && receipt.expiresAt.After(clock) then Some(receipt.accepted) else None
  }

  /** The answer to a request not answered yet: counter and receipt change together. */
  function Answer(v: Verifier, state: RecoveryState, request: RecoveryRequest, device: Uuid, now: DateTime)
    : Result<RecoveryState, RecoveryError>
  {
    var key :- AllowedKey(v, state.publicKeyHex);
    var verdict := VerifyUnlock(v.scheme, request.token, key, device, now, state.counter);
    var receipt := RecoveryReceipt(request.requestId, verdict.Ok?, PlusSeconds(now, RECEIPT_SECONDS));
    Ok(RecoveryState(state.publicKeyHex, if verdict.Ok? then verdict.value.counter else state.counter, Some(receipt)))
  }

  /** Only an accepted token moves the counter, and only forward. */
  lemma AnswerMovesCounterForward(v: Verifier, state: RecoveryState, request: RecoveryRequest, device: Uuid,
                                  now: DateTime)
    requires Answer(v, state, request, device, now).Ok?
    ensures var next := Answer(v, state, request, device, now).value;
            && next.publicKeyHex == state.publicKeyHex
            && next.receipt.Some? && next.receipt.value.requestId == request.requestId
            && (next.receipt.value.accepted <==> state.counter < next.counter)
            && (!next.receipt.value.accepted ==> next.counter == state.counter)
  {
    hide Unpack, ReadPayload;
  }

  /** What one undisturbed processing of `request` leaves on disk. */
  function Processed(v: Verifier, device: Uuid, file: StateFile, request: RecoveryRequest, now: DateTime,
                     succeeds: bool): StateFile
  {
    match LoadState(file)
    case Err(_) => file
    case Ok(state) =>
      if Answered(state, request) || Answer(v, state, request, device, now).Err? || !succeeds then file
      else Saved(Answer(v, state, request, device, now).value)
  }

  // The decisions by their conditions.

  /** A key text is allowed exactly if it parses to a curve point, that is not weak, and is not the published one. */
  lemma AllowedExactly(v: Verifier, hex: string, key: Bytes)
    ensures AllowedKey(v, hex) == Ok(key) <==>
            && KeyBytes(hex) == Some(key) && v.onCurve(key) && !v.weak(key)
            && AsciiLowercase(hex) != "ac1473ba71d2cd322163ccc8a8f64e1226cfcb815bfc270cbe7417f16d8ae7ba"
    ensures AllowedKey(v, hex) == Err(InvalidKey) <==> KeyBytes(hex).None? || !v.onCurve(KeyBytes(hex).value)
    ensures ValidatePublicKey(v, hex).Ok? ==>
              ValidatePublicKey(v, hex).value == AsciiLowercase(Trim(hex))
    ensures ValidatePublicKey(v, hex).Ok? <==> AllowedKey(v, AsciiLowercase(Trim(hex))).Ok?
  {
    hide KeyBytes, AsciiLowercase, Trim;
  }

  /** A receipt counts for its own request until it expires, and with its own verdict. */
  lemma ReceiptExactly(state: RecoveryState, id: Uuid, clock: DateTime, accepted: bool)
    ensures ReceiptVerdict(state, id, clock) == Some(accepted) <==>
            && state.receipt.Some? && state.receipt.value.requestId == id && state.receipt.value.accepted == accepted
            && var expiry := state.receipt.value.expiresAt;
               expiry.seconds > clock.seconds || (expiry.seconds == clock.seconds && expiry.nanos > clock.nanos)
  {
  }

  /**
   * The answer to a request: accepted exactly if its token is signed under the provisioned key, for this device,
   * unexpired and above the counter, which it then becomes; the receipt names the request and lasts thirty seconds.
   */
  lemma AnswerExactly(v: Verifier, state: RecoveryState, request: RecoveryRequest, device: Uuid, now: DateTime)
    requires AllowedKey(v, state.publicKeyHex).Ok?
    ensures var key := AllowedKey(v, state.publicKeyHex).value;
            && Answer(v, state, request, device, now).Ok?
            && var next := Answer(v, state, request, device, now).value;
            && next.publicKeyHex == state.publicKeyHex && next.receipt.Some?
            && var receipt := next.receipt.value;
            && receipt.requestId == request.requestId
            && receipt.expiresAt.seconds == now.seconds + 30
            && (now.nanos < 1_000_000_000 ==> receipt.expiresAt.nanos == now.nanos)
            && (receipt.accepted <==> exists t: UnlockToken, signature: Bytes ::
                  && Signs(v.scheme, key, request.token, t, signature) && t.deviceId == device
                  && -8_334_601_228_800 <= t.expiresUnix <= 8_210_266_876_799 && t.expiresUnix > now.seconds
                  && t.counter > state.counter && t.counter == next.counter)
            && (!receipt.accepted ==> next.counter == state.counter)
  {
    hide AllowedKey, VerifyUnlock, Signs;
    var key := AllowedKey(v, state.publicKeyHex).value;
    var verdict := VerifyUnlock(v.scheme, request.token, key, device, now, state.counter);
    forall t: UnlockToken, signature: Bytes | Signs(v.scheme, key, request.token, t, signature)
      ensures verdict == Ok(t) <==>
              && t.deviceId == device
              && -8_334_601_228_800 <= t.expiresUnix <= 8_210_266_876_799 && t.expiresUnix > now.seconds
              && t.counter > state.counter
    {
      AcceptanceIsCanonical(v.scheme, request.token, key, device, now, state.counter, t);
    }
    if verdict.Ok? {
      AcceptanceIsCanonical(v.scheme, request.token, key, device, now, state.counter, verdict.value);
    }
  }

  /** Only a request without an answer changes the document, into its answer; it is never answered again. */
  lemma ProcessedExactly(v: Verifier, device: Uuid, file: StateFile, request: RecoveryRequest, now: DateTime,
                         succeeds: bool)
    ensures var after := Processed(v, device, file, request, now, succeeds);
            var open := && file.Saved?
                        && (file.state.receipt.None? || file.state.receipt.value.requestId != request.requestId);
            && (open && AllowedKey(v, file.state.publicKeyHex).Ok? && succeeds ==>
                  Answer(v, file.state, request, device, now) == Ok(after.state) && after.Saved?)
            && (!open || AllowedKey(v, file.state.publicKeyHex).Err? || !succeeds ==> after == file)
  {
    hide AllowedKey, VerifyUnlock;
  }

  /** What a provisioning leaves: the key, the counter that was there, no receipt. */
  function Provisioned(v: Verifier, file: StateFile, keyHex: string, succeeds: bool): StateFile {
    if ValidatePublicKey(v, keyHex).Err? || CarriedCounter(file).Err? || !succeeds then file
    else Saved(RecoveryState(ValidatePublicKey(v, keyHex).value, CarriedCounter(file).value, None))
  }

  /** A missing file counts from zero, an unreadable one is left alone, and rotation never moves the counter. */
  lemma ProvisionedExactly(v: Verifier, file: StateFile, keyHex: string, succeeds: bool)
    ensures var after := Provisioned(v, file, keyHex, succeeds);
            if ValidatePublicKey(v, keyHex).Ok? && !file.Corrupt? && succeeds then
              && after.Saved? && after.state.publicKeyHex == ValidatePublicKey(v, keyHex).value
              && after.state.receipt.None? && after.state.counter == if file.Saved? then file.state.counter else 0
            else after == file
  {
    hide ValidatePublicKey;
  }

  /** The recovery directory as one service or provisioner sees it, recovery lock held. */
  class RecoveryDirectory {
    var file: StateFile

    constructor (file: StateFile)
      ensures this.file == file
    {
      this.file := file;
    }

    /** Atomic replacement: the previous document survives a failed write. */
    method WriteState(state: RecoveryState, succeeds: bool) returns (r: Result<(), RecoveryError>)
      modifies this
      ensures r == if succeeds then Ok(()) else Err(WriteFailed)
      ensures file == if succeeds then Saved(state) else old(file)
    {
      if !succeeds {
        return Err(WriteFailed);
      }
      file := Saved(state);
      return Ok(());
    }

    /** Installs or rotates the key; the consumed counter survives and any receipt is withdrawn. */
    method Provision(v: Verifier, keyHex: string, writeSucceeds: bool) returns (r: Result<(), RecoveryError>)
      modifies this
      ensures r.Ok? <==> ValidatePublicKey(v, keyHex).Ok? && !old(file).Corrupt? && writeSucceeds
      ensures r.Ok? ==>
                var normalized, counter := ValidatePublicKey(v, keyHex).value, CarriedCounter(old(file)).value;
                file == Saved(RecoveryState(normalized, counter, None))
      ensures r.Err? ==> file == old(file)
      ensures file == Provisioned(v, old(file), keyHex, writeSucceeds)
    {
      var normalized := ValidatePublicKey(v, keyHex);
      if normalized.Err? {
        return Err(normalized.error);
      }
      var counter := CarriedCounter(file);
      if counter.Err? {
        return Err(counter.error);
      }
      r := WriteState(RecoveryState(normalized.value, counter.value, None), writeSucceeds);
    }

    /** Handles one mailbox; `None` stands for a missing, oversized or unparsable request. */
    method Process(v: Verifier, read: Result<Option<RecoveryRequest>, ()>, device: Uuid, now: DateTime,
                   writeSucceeds: bool)
      returns (r: Result<(), RecoveryError>)
      modifies this
      ensures file == match read
                      case Ok(Some(request)) => Processed(v, device, old(file), request, now, writeSucceeds)
                      case _ => old(file)
      ensures read.Err? ==> r == Err(MailboxUnreadable) && file == old(file)
      ensures read == Ok(None) ==> r.Ok? && file == old(file)
      ensures read.Ok? && read.value.Some? && old(file).Saved? && Answered(old(file).state, read.value.value)
              ==> r.Ok? && file == old(file)
      ensures read.Ok? && read.value.Some? && old(file).Saved? && !Answered(old(file).state, read.value.value) ==>
                match Answer(v, old(file).state, read.value.value, device, now)
                case Err(error) => r == Err(error) && file == old(file)
                case Ok(next) =>
                  if writeSucceeds then r.Ok? && file == Saved(next) else r == Err(WriteFailed) && file == old(file)
      ensures read.Ok? && read.value.Some? && old(file).Missing? ==> r == Err(NotProvisioned) && file == old(file)
      ensures read.Ok? && read.value.Some? && old(file).Corrupt? ==> r == Err(StateUnreadable) && file == old(file)
    {
      if read.Err? {
        return Err(MailboxUnreadable);
      }
      if read.value.None? {
        return Ok(());
      }
      var request := read.value.value;
      var loaded := LoadState(file);
      if loaded.Err? {
        return Err(loaded.error);
      }
      var state := loaded.value;
      if Answered(state, request) {
        return Ok(());
      }
      var key := AllowedKey(v, state.publicKeyHex);
      if key.Err? {
        return Err(key.error);
      }
      var verdict := VerifyUnlock(v.scheme, request.token, key.value, device, now, state.counter);
      if verdict.Ok? {
        state := state.(counter := verdict.value.counter);
      }
      var receipt := RecoveryReceipt(request.requestId, verdict.Ok?, PlusSeconds(now, RECEIPT_SECONDS));
      state := state.(receipt := Some(receipt));
      r := WriteState(state, writeSucceeds);
    }
  }
}
