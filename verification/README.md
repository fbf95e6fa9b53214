# A verified model of the device agent

The Windows device agent keeps a financed computer in step with an administrator's decisions. This project
models its four connected state machines and the codecs they rest on, and proves what holds of them over every
input, every run and every interleaving.

1. **Signed commands.** `CommandSecurity` holds the canonical message and the verification of a command,
   `CommandLedger` what the replay ledger guarantees about a log of accepted commands, `RemoteSync` the check-in
   transaction as an object over its state file, and `SyncProtocol` any number of processes running that
   transaction step by step, with crashes between any two steps and an arbitrary server. `CommandHistory` proves
   the log guarantees for what these processes publish, `Redelivery` that a command committed but not
   acknowledged is accepted again, and `CommandEffect` what it does to the screen. `Base64`, `KeyText`, `Hex`, `Calendar`, `Json` and `MachineInts` are the
   codecs, each with a reader that inverts it.
2. **Offline unlocking.** `UnlockTokens` is the token format and its verification, `RecoveryService` the service
   that answers the mailbox, `RecoveryProtocol` screens, workers and provisioners interleaved with crashes, and
   `TokenDelivery` the way of a token from the keyboard to the service.
3. **The lock screen.** `LockScreen` is the controller object with its four lock sources, its release override and
   its side effects, frame by frame; `Lockout` is the arithmetic of refused attempts.
4. **The agent loop.** `AgentConfiguration`, `Enrollment` and `AgentLoop` are the configuration directory, the
   enrollment attempt and the loop, in place; `Pacing` and `ClientRule` prove how often it calls the server and
   with what right, and `KeysInUse` with which trusted keys; `ConfigProtocol` interleaves all writers of the
   configuration file.
5. **The dismissal link.** `Bluescreen` is the bounded header reader, the header scan and the one-time answer.

Each decision is also stated by its conditions, in lemmas whose names end in `Exactly`: which numbers are compared,
which texts are written, what is refused and for which reason.

Objects the agent updates in place are classes here. Each method's contract gives the new state as a function of
the old one, and the lemmas are about those functions. Each of the two transaction protocols is tied back to its
object: run undisturbed, its steps leave exactly the document the method leaves.

What the world decides is a parameter: clock readings (one for each reading the code can reach), server
replies, whether a file operation succeeds, what other processes write. SHA-256, Ed25519 (section 5.1 of RFC 8032)
and the curve-point and weak-key tests are abstract functions. Assumptions are stated where they are used:
`CommandLedger.CollisionFree` (SHA-256 does not collide on the messages of the run), `UnlockTokens.Lawful` (a
signature has 64 bytes and verifies under its own public key), `LockScreen.FreshStamps` (no two publications of
the remote state carry the same time), and request ids that were never used before.

## Where the code and its comments differ

- `apps/windows-agent/src/agent/runner.rs:85-88` says that an unsuccessful enrollment attempt never lets a stale
  check-in through. The code keeps that promise while the configuration file can be written. If the backend denies
  the device and clearing `config.json` fails, memory is cleared and the file is not, so the next iteration takes
  the difference for another process's edit and reloads the denied credentials.
  `ClientRule.StaleCheckInHappens` is such a run; `ClientRule.SilenceAfterFailure` shows that it is the only
  exception and says exactly when it occurs.
- The reload (`apps/windows-agent/src/agent/runner.rs:69-79`) compares token, remote id and API base, although its
  comment has it respect what either process wrote. A change of the trusted keys alone waits for the next
  enrollment attempt: `KeysInUse.KeysTheorem` says which keys a check-in uses, `KeysInUse.AddedKeyWaits` is a run.
- `apps/windows-agent/src/bluescreen.rs:134` speaks of ASCII headers; the reader accepts any UTF-8.
- `apps/windows-agent/src/ui/lock.rs:18` names a five-minute auto-close; the code has none.

## Model

| member | source | states |
|---|---|---|
| `Text.WhitespaceTable` | apps/windows-agent/src/command_security.rs:205 | the 25 code points trimming removes |
| `Text.LowercaseExactly` | apps/windows-agent/src/command_security.rs:170 | A to Z become a to z, every other character stays |
| `Text.Utf8LenOfChar` | apps/windows-agent/src/ui/lock.rs:124 | how many bytes a character takes |
| `Text.DecimalCanonical` | apps/windows-agent/src/command_security.rs:160 | numbers are written without leading zeros |
| `Text.ZeroPadExactly` | apps/windows-agent/src/command_security.rs:164-169 | zeros in front, up to the width and no further |
| `Base64.DecodeInverts` | apps/windows-agent/src/command_security.rs:204-213 | each engine (RFC 4648, sections 3.5, 4 and 5) decodes a text to given bytes exactly when it is their encoding: padding and trailing bits are strict |
| `Base64.EncodeLength` | crates/emi-core/src/recovery.rs:98 | the length of an encoding, padded or not |
| `Base64.EncodeTight` | crates/emi-core/src/recovery.rs:98 | an encoding has no whitespace at its ends, so trimming keeps it |
| `Base64.Alphabets` | apps/windows-agent/src/command_security.rs:206-208 | the two alphabets as tables 1 and 2 of RFC 4648 list them |
| `KeyText.DecodeFixedSpellings` | apps/windows-agent/src/command_security.rs:204-213 | 32 and 64 bytes have exactly two accepted texts after trimming, padded standard and unpadded URL-safe, and both give the bytes back |
| `KeyText.SpellingDecodes` | apps/windows-agent/src/command_security.rs:204-213 | either spelling, with any whitespace around it, decodes to its bytes |
| `KeyText.NormalizeIdempotent` | apps/windows-agent/src/command_security.rs:181-188 | a normalized key normalizes to itself |
| `KeyText.NormalizeIdentifiesKeys` | apps/windows-agent/src/command_security.rs:181-188 | two accepted texts have one normal form exactly when they spell the same key |
| `KeyText.DecodeFixedRefusals` | apps/windows-agent/src/command_security.rs:204-213 | a refused text spells no bytes by either engine, or bytes of another length |
| `KeyText.NormalizeExactly` | apps/windows-agent/src/command_security.rs:181-188 | a key is normalized if and only if it spells a curve point that is not weak, and to its padded spelling |
| `MachineInts.U64Inverts` | crates/emi-core/src/recovery.rs:79 | eight big-endian bytes and unsigned 64-bit integers correspond one to one |
| `MachineInts.I64Inverts` | crates/emi-core/src/recovery.rs:80 | the same for two's-complement signed integers |
| `MachineInts.U64Weights` | crates/emi-core/src/recovery.rs:79 | the weight of each of the eight bytes, the first the highest |
| `MachineInts.I64Weights` | crates/emi-core/src/recovery.rs:80 | a first byte from 128 on makes the number negative |
| `Hex.UuidInverts` | apps/windows-agent/src/command_security.rs:20-22 | a UUID is read back from its lower-case text |
| `Hex.UuidTextExactly` | apps/windows-agent/src/command_security.rs:20-22 | where each byte of a UUID and each hyphen stands, in lower-case digits |
| `Calendar.CalendarInverts` | apps/windows-agent/src/command_security.rs:164-169 | the calendar date of a day names that day only, for all years |
| `Calendar.TimestampInverts` | apps/windows-agent/src/command_security.rs:164-169 | the RFC 3339 text of an instant, leap seconds and signed years included, is read back as the instant cut to microseconds |
| `Calendar.TruncationKeepsText` | apps/windows-agent/src/command_security.rs:164-169 | what lies below the microsecond never reaches the text |
| `Calendar.TimestampText` | apps/windows-agent/src/command_security.rs:164-169 | the text written out: year, month, day, hour, minute, second, microseconds and their separators |
| `Calendar.AfterExactly` | apps/windows-agent/src/command_security.rs:56 | times are ordered by seconds, then by the fraction |
| `Calendar.LaterExactly` | apps/windows-agent/src/agent/remote_sync.rs:99 | the later of server time and clock |
| `Calendar.PlusSecondsExactly` | apps/windows-agent/src/recovery_service.rs:112 | thirty seconds later is exactly that, leap seconds included |
| `Calendar.FromTimestampExactly` | crates/emi-core/src/recovery.rs:85-87 | the expiries that are representable |
| `Json.ReadClosedInverts` | apps/windows-agent/src/command_security.rs:155-172 | string escaping (section 7 of RFC 8259) is undone for arbitrary text |
| `Json.ObjectInverts` | apps/windows-agent/src/command_security.rs:155-172 | a compact object of strings and numbers is read back member by member |
| `Json.EscapeExactly` | apps/windows-agent/src/command_security.rs:155-172 | every escape written out: seven short ones, four hex digits for the other controls, everything else verbatim |
| `Json.QuotedExactly` | apps/windows-agent/src/command_security.rs:155-172 | a quoted text is its escaped characters in order between quotes |
| `CommandSecurity.CanonicalMessageInverts` | apps/windows-agent/src/command_security.rs:150-174 | a reader recovers from the canonical message every field it covers, for arbitrary reason, nonce and checksum |
| `CommandSecurity.CanonicalMessageInjective` | apps/windows-agent/src/command_security.rs:150-174 | two canonical messages are equal exactly when device, ids, version, action, reason, nonce, folded checksum, size and truncated expiries are |
| `CommandSecurity.CanonicalMessageText` | apps/windows-agent/src/command_security.rs:18-31 | the message written out for all inputs: the domain, the twelve names and their order, the action names, and what stands for each value |
| `CommandSecurity.ChecksumText` | apps/windows-agent/src/command_security.rs:170 | the signed checksum, character by character |
| `CommandSecurity.SignatureExactly` | apps/windows-agent/src/command_security.rs:112-120 | the signature check passes if and only if the patch names a trusted key whose text spells a curve point, carries a text that spells 64 bytes, and these verify for the message |
| `CommandSecurity.AcceptedExactly` | apps/windows-agent/src/command_security.rs:80-121 | a command is accepted if and only if it is current, bound to its patch, carries a nonce and a version, is newer with an unused nonce or repeats the last one in all five respects, and there are a key and a signature as above |
| `CommandSecurity.RefusedExactly` | apps/windows-agent/src/command_security.rs:51-121 | the first check to fail, in the order of the code, gives the reason |
| `CommandSecurity.AcceptedCommandExtends` | apps/windows-agent/src/command_security.rs:80-144 | although the version is assigned unconditionally, an accepted command either raises it with an unused nonce or repeats the last message and changes nothing; nothing is forgotten |
| `CommandSecurity.RetryAcceptedAndIdle` | apps/windows-agent/src/command_security.rs:92-144 | once applied, the same command is accepted again exactly while it is current, and applying it again is the identity |
| `CommandLedger.AcceptedIsMonotone` | apps/windows-agent/src/command_security.rs:80-144 | in a log accepted command by command from any ledger, versions never fall, one version and one nonce stand for one message, and the ledger summarises the log |
| `CommandLedger.AcceptedLogOrder` | apps/windows-agent/src/command_security.rs:80-144 | of two commands in such a log the later has the higher version or the same signed content, and a shared nonce means the same signed content |
| `RemoteSync.RemoteStateFile.Persist` | apps/windows-agent/src/agent/remote_sync.rs:198-200 | the document is replaced whole or not at all |
| `RemoteSync.RemoteStateFile.Synchronize` | apps/windows-agent/src/agent/remote_sync.rs:17-72 | the document and verdict of one synchronization for every server reply, clock and write failure |
| `RemoteSync.RemoteStateFile.ApplyPendingCommand` | apps/windows-agent/src/agent/remote_sync.rs:76-150 | a patch is verified, downloaded, rechecked and published with its ledger in one document; any failure leaves the document alone, and the acknowledgement never undoes a publication |
| `RemoteSync.TargetStates` | apps/windows-agent/src/agent/remote_sync.rs:178-188 | LOCK locks, UNLOCK unlocks, WARN warns, RELEASE releases for good, UNINSTALL is refused |
| `RemoteSync.SynchronizationExactly` | apps/windows-agent/src/agent/remote_sync.rs:17-150 | what one synchronization leaves and answers, by its conditions: nothing, the server's lock state, or the effect of the command with reason, stamps and ledger |
| `SyncProtocol.JudgedCommits` | apps/windows-agent/src/agent/remote_sync.rs:98-116 | a command that passed its session's checks commits the applied ledger, or the loaded one without keys, and forgets nothing |
| `SyncProtocol.StepKeepsInvariant` | apps/windows-agent/src/agent/remote_sync.rs:17-150 | each step of each process keeps the ledger and what every phase relies on, from verification to publication with the verification itself |
| `SyncProtocol.InvariantHolds` | apps/windows-agent/src/agent/remote_sync.rs:17-150 | the same over whole schedules, the document at the end extending the one at the start |
| `SyncProtocol.LedgerNeverShrinks` | apps/windows-agent/src/agent/remote_sync.rs:165-200 | between any two moments of any schedule, with crashes, mixed keys and an arbitrary server, the highest version does not fall and no consumed nonce is lost |
| `SyncProtocol.VerdictsMatchDisk` | apps/windows-agent/src/agent/remote_sync.rs:98-138 | a failed command, UNINSTALL included, leaves the loaded ledger under the check-in's lock state; a saved one passed every check its session makes and has published target, reason and ledger together |
| `CommandEffect.OnlyLockLocksScreen` | apps/windows-agent/src/agent/remote_sync.rs:121-133 | over every schedule, a refresh that reads a published command leaves the screen locked if and only if it is a LOCK whose stamp is not overridden |
| `SyncProtocol.CommandLockExcludes` | apps/windows-agent/src/state_store.rs:14-24 | at most one process is inside a transaction |
| `SyncProtocol.RedeliveryKeepsLedger` | apps/windows-agent/src/agent/remote_sync.rs:98-150 | any number of redeliveries by any processes with any crashes keep the ledger as it is |
| `SyncProtocol.CrashThenRedelivery` | apps/windows-agent/src/agent/remote_sync.rs:98-150 | after a crash between commit and acknowledgement, no redelivery, complete or not, changes the ledger, or saves another lock kind or reason |
| `SyncProtocol.SoloRunMatchesOutcome` | apps/windows-agent/src/agent/remote_sync.rs:17-150 | undisturbed, the steps leave exactly the document `Synchronize` leaves, and the lock free |
| `Redelivery.RedeliveryOutcome` | apps/windows-agent/src/agent/remote_sync.rs:17-150 | over the ledger it left itself, a still current command is accepted and synchronizing ends well, with that ledger and the command's lock kind and reason |
| `Redelivery.RedeliveryTheorem` | apps/windows-agent/src/agent/remote_sync.rs:98-150 | after a crash between commit and acknowledgement and any redeliveries and further crashes, one more delivery of the still current command is accepted and ends with the lock free and the ledger, lock kind and reason of the first commit |
| `CommandHistory.StepKeepsHistory` | apps/windows-agent/src/agent/remote_sync.rs:17-150 | each step keeps the published history accepted in order and the ledger on disk equal to what it left |
| `CommandHistory.RunKeepsHistory` | apps/windows-agent/src/agent/remote_sync.rs:17-150 | the same over whole schedules |
| `CommandHistory.AppliedLogTheorem` | apps/windows-agent/src/agent/remote_sync.rs:98-138 | over every schedule, from any ledger, with crashes and with and without keys, of two published signed commands the later has the higher version or the same signed content, and a shared nonce means the same signed content |
| `CommandHistory.AppliedEntriesAreVerified` | apps/windows-agent/src/command_security.rs:80-121 | each published signed command passed every check, signature included, under its session's keys and against the ledger the ones before it left; none is an UNINSTALL |
| `UnlockTokens.PayloadInverts` | crates/emi-core/src/recovery.rs:76-82 | tokens and 32-byte payloads correspond one to one |
| `UnlockTokens.UnpackInverts` | crates/emi-core/src/recovery.rs:149-159 | exactly one trimmed text unpacks to a given token and signature |
| `UnlockTokens.AcceptanceIsCanonical` | crates/emi-core/src/recovery.rs:142-195 | a code is accepted as a token if and only if, trimmed, it is the text of that token with a signature that verifies, the device is this one, the expiry is a representable second after now, and the counter is above the last; it then has 134 characters |
| `UnlockTokens.RefusedUnsigned` | crates/emi-core/src/recovery.rs:149-163 | a code is malformed if and only if it is no token text; a token text is refused for its signature if and only if that does not verify |
| `UnlockTokens.TokenTextExactly` | crates/emi-core/src/recovery.rs:92-99 | the text written out: prefix, then device, counter, expiry and signature |
| `UnlockTokens.TokenTextInjective` | crates/emi-core/src/recovery.rs:92-99 | the text determines token and signature |
| `UnlockTokens.MintedCodeVerifies` | crates/emi-core/src/recovery.rs:142-195 | a minted code, in any whitespace, gives its token or the first of wrong device, expired and replayed, each by its numbers |
| `UnlockTokens.WritePayload` | crates/emi-core/src/recovery.rs:76-82 | the three copies into the buffer produce the payload |
| `UnlockTokens.CopyInto` | crates/emi-core/src/recovery.rs:78-80 | a copy at an offset changes that range only |
| `UnlockTokens.SignToString` | crates/emi-core/src/recovery.rs:92-99 | the buffers end as the minted text |
| `UnlockTokens.ParsePublicKeyHex` | crates/emi-core/src/recovery.rs:122-133 | the in-place parse yields the 32 bytes of the pairs exactly when all can be read and the bytes are a curve point |
| `UnlockTokens.KeyHexInverts` | crates/emi-core/src/recovery.rs:122-133 | a curve point printed as hex is read back, whitespace around it aside, and other bytes are refused |
| `UnlockTokens.PairExactly` | crates/emi-core/src/recovery.rs:128-131 | which pairs of characters a byte is read from |
| `RecoveryService.AnswerMovesCounterForward` | apps/windows-agent/src/recovery_service.rs:104-114 | the counter rises exactly with an acceptance, and a refusal leaves it |
| `RecoveryService.AnswerExactly` | apps/windows-agent/src/recovery_service.rs:98-114 | a request is accepted if and only if its token is signed under the provisioned key, for this device, unexpired and above the counter, which it then becomes; the receipt names it and lasts thirty seconds |
| `RecoveryService.ProcessedExactly` | apps/windows-agent/src/recovery_service.rs:91-114 | only a request not answered yet changes the document, and only into its answer; an answered one is never answered again |
| `RecoveryService.ProvisionedExactly` | apps/windows-agent/src/recovery_service.rs:48-66 | a missing file counts from zero, an unreadable one is left alone, and rotation never moves the counter |
| `RecoveryService.AllowedExactly` | apps/windows-agent/src/recovery_service.rs:35-43 | a key text is allowed if and only if it parses to a curve point that is not weak and is not the published one |
| `RecoveryService.ReceiptExactly` | apps/windows-agent/src/ui/lock.rs:165-172 | a receipt counts for its own request until it expires, with its own verdict |
| `RecoveryService.RecoveryDirectory.WriteState` | apps/windows-agent/src/state_store.rs:30-60 | the state is replaced whole or not at all |
| `RecoveryService.RecoveryDirectory.Provision` | apps/windows-agent/src/recovery_service.rs:48-66 | rotation carries the counter over and withdraws the receipt; any failure changes nothing |
| `RecoveryService.RecoveryDirectory.Process` | apps/windows-agent/src/recovery_service.rs:72-115 | one request gets at most one answer, with counter and receipt in one document; a failed write exposes neither |
| `RecoveryProtocol.PublishStep` | apps/windows-agent/src/recovery_service.rs:104-114 | publishing an acceptance appends one justified entry to the history |
| `RecoveryProtocol.ServiceStepKeepsInvariant` | apps/windows-agent/src/recovery_service.rs:48-115 | each step of a worker or provisioner, crash included, keeps the invariant and never lowers the counter |
| `RecoveryProtocol.ScreenStepKeepsInvariant` | apps/windows-agent/src/ui/lock.rs:109-180 | submitting, polling and giving up keep releases and acceptances one to one |
| `RecoveryProtocol.InvariantHolds` | apps/windows-agent/src/recovery_service.rs:48-115 | the protocol's invariant, and a counter that never falls, over every schedule |
| `RecoveryProtocol.CounterTheorem` | apps/windows-agent/src/recovery_service.rs:48-115 | in every interleaving with crashes, accepted counters strictly increase, acceptances number at most the growth of the counter, and no moment shows an accepted receipt without its counter |
| `RecoveryProtocol.ReleaseTheorem` | apps/windows-agent/src/ui/lock.rs:155-180 | each release by receipt has an acceptance of its own, of a token for this device, signed under the key provisioned then, unexpired then, and above all counters accepted before |
| `RecoveryProtocol.SoloRunMatchesProcess` | apps/windows-agent/src/recovery_service.rs:72-115 | undisturbed, the steps leave exactly the document `Process` leaves |
| `RecoveryProtocol.SoloRunMatchesProvision` | apps/windows-agent/src/recovery_service.rs:48-66 | undisturbed, the steps of a provisioning leave exactly the document `Provision` leaves |
| `RecoveryProtocol.CrashForgets` | apps/windows-agent/src/state_store.rs:14-60 | a crash gives up the lock and everything staged, and leaves the document alone |
| `RecoveryProtocol.ScreenStepsExactly` | apps/windows-agent/src/ui/lock.rs:109-180 | a screen waits for a request of a new id until it hears of it or gives up |
| `TokenDelivery.TokenCharacters` | apps/windows-agent/src/ui/lock.rs:218-232 | a trimmed token has only characters of the on-screen keyboard |
| `TokenDelivery.RequestTextSize` | apps/windows-agent/src/ui/lock.rs:119-142 | the exact size of a serialized request |
| `TokenDelivery.TokenArrives` | apps/windows-agent/src/recovery_service.rs:78-86 | every code that unpacks can be typed, passes the filter, fits the mailbox, is read back as submitted, and is judged as the original |
| `TokenDelivery.AcceptedUnpacks` | crates/emi-core/src/recovery.rs:149-158 | every acceptable code is one of those |
| `TokenDelivery.KeyboardExactly` | apps/windows-agent/src/ui/lock.rs:218-224 | which characters the keyboard offers |
| `TokenDelivery.SubmittableExactly` | apps/windows-agent/src/ui/lock.rs:123-127 | the filter: the prefix and at most 256 bytes |
| `TokenDelivery.RequestTextExactly` | apps/windows-agent/src/recovery_service.rs:12-16 | the mailbox text written out |
| `TokenDelivery.RequestRead` | apps/windows-agent/src/recovery_service.rs:78-86 | a mailbox the screen wrote is read back if and only if it holds at most 1024 bytes |
| `TokenDelivery.OversizedIgnored` | apps/windows-agent/src/recovery_service.rs:78-82 | a mailbox over 1024 bytes is not looked at |
| `Lockout.BackoffBounds` | apps/windows-agent/src/ui/lock.rs:184-185 | the wait lies between 5 and 160 seconds, so neither shift nor sum overflows |
| `Lockout.RefusalsTakeTime` | apps/windows-agent/src/ui/lock.rs:113-118 | refusals from the fifth on take at least the sum of the waits between them |
| `Lockout.TotalWaitClosedForm` | apps/windows-agent/src/ui/lock.rs:182-191 | that sum in closed form, doubling to the eleventh and 160 seconds each after it |
| `LockScreen.ReleaseClosedForm` | apps/windows-agent/src/ui/app.rs:173-196 | after a release, over any refreshes, the lock follows the server except while all of them saw the released state |
| `LockScreen.FreshStampsFollowServer` | apps/windows-agent/src/ui/app.rs:173-196 | with a fresh stamp per publication, a release suppresses the lock exactly while its publication is current |
| `LockScreen.TrackFollowsRefreshes` | apps/windows-agent/src/ui/app.rs:200-211 | over whole runs of frames nothing but refreshes moves the tracked lock between releases |
| `LockScreen.ReleasingFrameTrack` | apps/windows-agent/src/ui/lock.rs:193-200 | the frame that reads an accepted receipt overrides the state it can read, and may refresh once more before it ends |
| `LockScreen.ReleaseTheorem` | apps/windows-agent/src/ui/lock.rs:193-200 | from the releasing frame on, over any frames without another release, the tracked lock is the fold of all refreshes since, and follows the server except while all of them saw the released state |
| `LockScreen.ReleaseFollowsServer` | apps/windows-agent/src/ui/app.rs:173-211 | with a fresh stamp per publication, whole runs of frames stay free while the released publication is current and follow the server from the first refresh that sees another |
| `LockScreen.PollMatchesProtocol` | apps/windows-agent/src/ui/lock.rs:155-180 | the poll step of the recovery protocol settles and releases exactly as this screen does on the same file |
| `LockScreen.RefusedKeepsGate` | apps/windows-agent/src/ui/lock.rs:182-191 | a refusal keeps counter, deadline and history of refusals in agreement, saturation included |
| `LockScreen.TriedKeepsGate` | apps/windows-agent/src/ui/lock.rs:109-153 | no submission gets past a pending request or a running lockout |
| `LockScreen.HeardKeepsGate` | apps/windows-agent/src/ui/lock.rs:155-180 | nor does a refused receipt, whose request was submitted after the last lockout |
| `LockScreen.UpdateKeepsGate` | apps/windows-agent/src/ui/app.rs:200-211 | a whole frame keeps counter, deadline and spacing of refusals in agreement |
| `LockScreen.TriedExactly` | apps/windows-agent/src/ui/lock.rs:109-153 | what a click comes to, by its conditions |
| `LockScreen.RefusedExactly` | apps/windows-agent/src/ui/lock.rs:182-191 | the count, and the wait after each number of refusals |
| `LockScreen.HeardExactly` | apps/windows-agent/src/ui/lock.rs:155-180 | a verdict settles the request, and more than thirty seconds let it lapse |
| `LockScreen.SyncedExactly` | apps/windows-agent/src/ui/app.rs:173-196 | when the state file is looked at, and what it then makes of lock and override |
| `LockScreen.LoadedExactly` | apps/windows-agent/src/ui/app.rs:82-136 | what is locked at launch, and that nothing else is set |
| `LockScreen.UpdateSettles` | apps/windows-agent/src/ui/app.rs:200-211 | a frame that tears the screen down while the remote lock stands has rebuilt it by its end |
| `LockScreen.FramesKeepValid` | apps/windows-agent/src/ui/app.rs:200-211 | the invariant over every run of frames |
| `LockScreen.RunTheorem` | apps/windows-agent/src/ui/app.rs:200-211 | from loading on, each frame ends with lock screen, Task Manager and keyboard hook matching the lock sources, and refusals spaced by the lockouts |
| `LockScreen.OnlyThreeExits` | apps/windows-agent/src/ui/app.rs:200-211 | a frame leaves the restriction only by an accepted receipt for its own request, a release read from the server, or dismissal of a session that is not enforced |
| `LockScreen.SourcesLock` | apps/windows-agent/src/ui/app.rs:200-211 | a session or lock by hand that begins before a frame holds at its end unless one of the exits applies |
| `LockScreen.AcceptedReceiptFrees` | apps/windows-agent/src/ui/lock.rs:155-200 | an accepted receipt clears every lock source, side effect and refusal within the frame, and only a lock published since, read in the same frame, takes hold again |
| `LockScreen.ServerReleaseFrees` | apps/windows-agent/src/ui/app.rs:173-196 | a release by the server clears every lock source and side effect and forgives no refusal |
| `LockScreen.DeviceApp.constructor` | apps/windows-agent/src/ui/app.rs:82-136 | what is locked at launch |
| `LockScreen.DeviceApp.EndBlueScreen` | apps/windows-agent/src/ui/lock.rs:53-73 | clears every source but the remote lock, undoes the side effects and the typed input |
| `LockScreen.DeviceApp.BlueScreenActive` | apps/windows-agent/src/ui/lock.rs:93-106 | dismissal ends a session that is not enforced; the result says whether any source is left |
| `LockScreen.DeviceApp.TryRecoveryUnlock` | apps/windows-agent/src/ui/lock.rs:109-153 | never unlocks by itself; moves only the recovery gate |
| `LockScreen.DeviceApp.PollRecoveryUnlock` | apps/windows-agent/src/ui/lock.rs:155-180 | only a current receipt for the pending request releases or refuses; without one the request lapses after thirty seconds |
| `LockScreen.DeviceApp.RecoveryRefused` | apps/windows-agent/src/ui/lock.rs:182-191 | saturating count and new deadline |
| `LockScreen.DeviceApp.UnlockReleased` | apps/windows-agent/src/ui/lock.rs:193-200 | forgives refusals and overrides the state that can be read at that moment |
| `LockScreen.DeviceApp.SyncRemoteLockState` | apps/windows-agent/src/ui/app.rs:173-196 | one refresh, at most every two seconds |
| `LockScreen.DeviceApp.TickLocked` | apps/windows-agent/src/ui/lock.rs:20-52 | entering the lock happens once |
| `LockScreen.DeviceApp.Update` | apps/windows-agent/src/ui/app.rs:200-211 | a frame in the code's order; side effects match the lock at its end |
| `AgentConfiguration.FirstFreeIsLeast` | apps/windows-agent/src/agent/config.rs:76-90 | the chosen suffix is the smallest free one of 65536, or none is free |
| `AgentConfiguration.InitializeTheorem` | apps/windows-agent/src/agent/config.rs:31-70 | a successful initialization stored what it returns: paired credentials kept or half a pair dropped, invalid content under a name that was free |
| `AgentConfiguration.FailedInitializeKeepsContent` | apps/windows-agent/src/agent/config.rs:31-91 | a failed initialization loses neither the stored configuration nor invalid content nor an earlier backup |
| `AgentConfiguration.InitializeIdempotent` | apps/windows-agent/src/agent/config.rs:31-70 | initializing again changes nothing |
| `AgentConfiguration.FreshExactly` | apps/windows-agent/src/agent/config.rs:43-49 | what a fresh configuration holds |
| `AgentConfiguration.MirrorExactly` | apps/windows-agent/src/agent/config.rs:109-120 | the mirror tells whether there is a token and never which |
| `AgentConfiguration.TrustTheorem` | apps/windows-agent/src/agent/config.rs:93-107 | an id of zero or a bad key changes nothing; otherwise the normal form is stored beside the other keys and the same credentials |
| `AgentConfiguration.DataDirectory.Save` | apps/windows-agent/src/agent/config.rs:67-68 | configuration first, mirror second |
| `AgentConfiguration.DataDirectory.BackupInvalidConfig` | apps/windows-agent/src/agent/config.rs:72-91 | the loop over names finds the least free suffix and renames |
| `AgentConfiguration.DataDirectory.Initialize` | apps/windows-agent/src/agent/config.rs:31-70 | in place, the files end exactly as `InitializeTheorem` and `FailedInitializeKeepsContent` describe |
| `AgentConfiguration.DataDirectory.TrustCommandKey` | apps/windows-agent/src/agent/config.rs:93-107 | in place, the file ends exactly as `TrustTheorem` describes, and is not opened for bad input |
| `Enrollment.SuccessLeavesCredentials` | apps/windows-agent/src/agent/enrollment.rs:73-154 | a successful attempt leaves token and device id, the same in memory and on disk |
| `Enrollment.AttemptExactly` | apps/windows-agent/src/agent/enrollment.rs:58-161 | an attempt skips the backend if and only if both credentials are stored and an unfailed positive answer is less than a minute old, and then touches nothing; otherwise it records the answer and follows it, and a denied device ends well only with new credentials |
| `Enrollment.TrimSlashesExactly` | apps/windows-agent/src/agent/enrollment.rs:49 | a base loses its trailing slashes and nothing else |
| `Enrollment.DenialDropsOldCredentials` | apps/windows-agent/src/agent/enrollment.rs:143-161 | after a denial the disk holds newly issued credentials or none, unless clearing failed, which leaves it untouched |
| `Enrollment.ClearFailsExactly` | apps/windows-agent/src/agent/enrollment.rs:73-161 | which replies and failures, and no others, leave denied credentials on disk |
| `Enrollment.AttemptReadsKeys` | apps/windows-agent/src/agent/enrollment.rs:77-82 | an attempt ends with the trusted keys it read, or those in memory if it never read any |
| `Enrollment.FailureLeaves` | apps/windows-agent/src/agent/enrollment.rs:23-161 | after a failure memory and disk hold the same credentials and base, unless a write of `config.json` was what failed, and then what each holds |
| `Enrollment.AttemptKeepsPairs` | apps/windows-agent/src/agent/enrollment.rs:23-161 | paired credentials stay paired whatever fails |
| `Enrollment.ClearEnrollmentCredentials` | apps/windows-agent/src/agent/enrollment.rs:156-161 | memory is cleared before the write that may fail |
| `Enrollment.EnrollConfig` | apps/windows-agent/src/agent/enrollment.rs:23-56 | an issued pair is stored with the trimmed base, or the failing step is reported |
| `Enrollment.CheckOrEnrollConfig` | apps/windows-agent/src/agent/enrollment.rs:73-154 | in place, the files, the memory and the verdict end exactly as `AttemptExactly` describes |
| `ConfigProtocol.StepKeepsInvariant` | apps/windows-agent/src/agent/config.rs:31-107 | every step of every writer keeps credentials genuine, in the file and in each process's copy |
| `ConfigProtocol.InvariantHolds` | apps/windows-agent/src/agent/config.rs:31-107 | the same over whole schedules |
| `ConfigProtocol.PairingTheorem` | apps/windows-agent/src/agent/config.rs:61-70 | from the first written initialization on, under any interleaving and crashes, the file holds no credentials or a token with the device id issued with it |
| `ConfigProtocol.SoloInitialize` | apps/windows-agent/src/agent/config.rs:31-70 | undisturbed, the steps are those of `Initialize` |
| `ConfigProtocol.SoloDenial` | apps/windows-agent/src/agent/enrollment.rs:146-153 | undisturbed, the steps after a denial are those of the attempt |
| `ConfigProtocol.SoloRefusal` | apps/windows-agent/src/agent/enrollment.rs:146-153 | the same when the backend then refuses to enroll |
| `ConfigProtocol.SoloTrust` | apps/windows-agent/src/agent/config.rs:100-104 | undisturbed, the steps that trust a key store it beside the others |
| `ConfigProtocol.CrashForgets` | apps/windows-agent/src/agent/config.rs:31-107 | a crash loses the copy a process holds and nothing in the file |
| `Pacing.AttemptsNeedTime` | apps/windows-agent/src/agent/runner.rs:98-121 | attempts nobody forced lie a period apart |
| `Pacing.WindowBound` | apps/windows-agent/src/agent/runner.rs:98-121 | in any window: one attempt, one per period that fits, one per resume |
| `Pacing.AttemptsExactly` | apps/windows-agent/src/agent/runner.rs:98-121 | the bound counts exactly the turns that attempt |
| `Pacing.ResumesExactly` | apps/windows-agent/src/agent/runner.rs:45 | and exactly the turns a resume forced |
| `AgentLoop.RunKeepsPace` | apps/windows-agent/src/agent/runner.rs:41-135 | both timers keep their pace in every run |
| `AgentLoop.RateTheorem` | apps/windows-agent/src/agent/runner.rs:29-134 | in any stretch of T seconds with R resumes there are at most 1 + T/60 + R check-ins and 1 + T/300 + R enrollment attempts, for every clock and mix of failures |
| `AgentLoop.ScheduleTheorem` | apps/windows-agent/src/agent/runner.rs:50-51 | no attempt comes early and none is put off: each is due exactly a period after the latest one ended, or at once after a resume |
| `AgentLoop.HealthExactly` | apps/windows-agent/src/agent/runner.rs:46-49 | a health snapshot is written exactly five minutes after the last one, or after a resume |
| `AgentLoop.AdvanceExplains` | apps/windows-agent/src/agent/runner.rs:63-122 | what an iteration logs follows from the disk it read and the replies it got |
| `AgentLoop.StartedInitial` | apps/windows-agent/src/agent/runner.rs:23-40 | a successful initialization starts the loop as the theorems assume |
| `AgentLoop.Runner.Reload` | apps/windows-agent/src/agent/runner.rs:69-79 | changed credentials replace configuration and client |
| `AgentLoop.Runner.Enroll` | apps/windows-agent/src/agent/runner.rs:80-99 | success builds a client, failure drops it |
| `AgentLoop.Runner.Synchronize` | apps/windows-agent/src/agent/runner.rs:100-122 | a check-in is sent when due and everything it needs is there, and only then re-arms its timer |
| `AgentLoop.Runner.Iterate` | apps/windows-agent/src/agent/runner.rs:42-123 | one iteration in the code's order, early ends included |
| `AgentLoop.Runner.Attend` | apps/windows-agent/src/agent/runner.rs:63-122 | reload, attempt and check-in in that order, ending early where the code returns |
| `AgentLoop.Runner.Run` | apps/windows-agent/src/agent/runner.rs:41-135 | the loop, other processes writing between iterations |
| `ClientRule.StandingMeans` | apps/windows-agent/src/agent/runner.rs:80-97 | the standing of a run in terms of its latest attempt and the changes on disk since |
| `ClientRule.ReadingSettles` | apps/windows-agent/src/agent/runner.rs:65-79 | after the reload memory matches the disk, and a denied device has no client |
| `ClientRule.RunRuled` | apps/windows-agent/src/agent/runner.rs:41-123 | the loop's invariant and the rule for each iteration, over every run |
| `ClientRule.RunLogsClearing` | apps/windows-agent/src/agent/enrollment.rs:143-161 | in every run the failed clearings are exactly the attempts whose replies make them so |
| `ClientRule.RunLogsSuccess` | apps/windows-agent/src/agent/enrollment.rs:63-71 | over every run, a successful attempt rests on the backend's answer or on a positive one less than a minute old |
| `ClientRule.CheckInTheorem` | apps/windows-agent/src/agent/runner.rs:80-121 | each check-in carries the credentials the iteration left on disk and follows a successful latest attempt, a change on disk since the reload before it, or a denial whose clearing failed; other processes may write between any two readings of the file |
| `ClientRule.SilenceAfterFailure` | apps/windows-agent/src/agent/runner.rs:83-88 | with no change on disk, a check-in follows a failed attempt exactly when it is due in a later iteration, that attempt was denied and `config.json` could not be rewritten, and the disk still holds both credentials |
| `ClientRule.CheckInsAfterFailure` | apps/windows-agent/src/agent/runner.rs:69-106 | whatever other processes write, after a failed attempt a due check-in is sent exactly if an iteration since has reloaded and the disk holds both credentials |
| `ClientRule.CheckInsAfterSuccess` | apps/windows-agent/src/agent/runner.rs:100-106 | after a success, a due check-in is sent exactly when the disk holds both credentials |
| `ClientRule.StaleCheckInHappens` | apps/windows-agent/src/agent/enrollment.rs:156-161 | a run against the default API in which denied credentials are used again |
| `KeysInUse.KeysTheorem` | apps/windows-agent/src/agent/runner.rs:63-112 | every check-in of every run uses the trusted keys that were on disk at the latest reload or attempt |
| `KeysInUse.AddedKeyWaits` | apps/windows-agent/src/agent/runner.rs:69-72 | a run in which a key is on disk and the next check-in still carries none |
| `Bluescreen.TurnsBounded` | apps/windows-agent/src/bluescreen.rs:102-124 | every turn of the reader costs a byte of room or a tick before the deadline |
| `Bluescreen.ReadHeaders` | apps/windows-agent/src/bluescreen.rs:102-124 | with a deadline one second after its start the loop ends for every connection, never holds more than 8192 bytes, and returns what its first terminating turn decides |
| `Bluescreen.ReceivedExactly` | apps/windows-agent/src/bluescreen.rs:105-114 | each read takes what is offered, up to 512 bytes and up to 8192 in all |
| `Bluescreen.HeadersExactly` | apps/windows-agent/src/bluescreen.rs:107-123 | a text is returned if and only if what was read ends in a blank line and is UTF-8 |
| `Bluescreen.LinesSplit` | apps/windows-agent/src/bluescreen.rs:139 | splitting loses nothing and leaves no line break inside a line |
| `Bluescreen.FieldExactly` | apps/windows-agent/src/bluescreen.rs:146-150 | a field is what stands before the first colon and, trimmed, after it |
| `Bluescreen.OneHost` | apps/windows-agent/src/bluescreen.rs:151-154 | the count is one exactly when one line and no other names the host |
| `Bluescreen.ScanHeaders` | apps/windows-agent/src/bluescreen.rs:143-170 | the flag-updating scan decides exactly whether every line is permitted and one Host matches |
| `Bluescreen.DoneMeansDismissed` | apps/windows-agent/src/bluescreen.rs:184-202 | the flag is set exactly when some earlier request was a genuine POST to the link |
| `Bluescreen.VerbExactly` | apps/windows-agent/src/bluescreen.rs:168-169 | the two request lines of the link, word for word |
| `Bluescreen.DismissedOnce` | apps/windows-agent/src/bluescreen.rs:168-214 | over any requests, exactly the first genuine POST dismisses; genuine requests to the link succeed before it and are gone from then on |
| `Bluescreen.Session.Serve` | apps/windows-agent/src/bluescreen.rs:126-220 | a connection without complete headers changes nothing; others are answered as the history demands |
| `Bluescreen.Session.Respond` | apps/windows-agent/src/bluescreen.rs:139-214 | the order of refusals and the one write of the flag |

## Left out

- ReadHeaders: the UTF-8 decoder is a parameter, and time is assumed to advance while a read times out.
- MintedCodeVerifies: rests on the law that signing then verifying succeeds; the internals of Ed25519 are not modelled.
- RunTheorem: sessions, the manual switches and clicks are inputs of each frame; window handling, focus, fonts, copy and the keyboard's event filter are left out.
- Digests and signatures are taken over texts; their UTF-8 bytes are folded into the abstract SHA-256 and verification.
- JSON beyond the compact objects the agent writes itself: other spellings a reader accepts are only "parsed" or "not parsed".
- The Unix directory flush after a publication (`apps/windows-agent/src/state_store.rs:57-58`), which can report failure after the rename; the Windows build has no such step.
- Failures to create or take the lock files of the command and recovery transactions, which end a call before it touches anything.
- Reading errors of an existing configuration during a backup, and a race of two backups for one name.
- The reply bodies, TLS, URLs and downloads of the HTTP client: each call is an arbitrary answer.
- The activity record of the last eight calls, health probing, the QR page, BIOS tools, packaging, service control and the lock-screen launcher: no modelled state depends on them.
- The passphrase check by Argon2 and the older counter files, which the service's state supersedes.
- Access rights: assumed only so far that users write the mailbox and nothing else.
