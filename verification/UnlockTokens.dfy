// Offline unlock tokens: the byte format, minting by the owner and verification on the device
// (recovery.rs).
module UnlockTokens {
  import opened Wrappers
  import opened Text
  import opened Base64
  import opened MachineInts
  import opened Hex
  import opened Calendar

  /** Ed25519 (section 5.1 of RFC 8032), abstractly: only key derivation, signing and strict verification. */
  datatype Scheme = Scheme(
    publicKey: Bytes -> Bytes,
    sign: (Bytes, Bytes) -> Bytes,
    verify: (Bytes, Bytes, Bytes) -> bool)

  /** Signatures are 64 bytes, and what a key signs verifies under its public half. */
  ghost predicate Lawful(scheme: Scheme) {
    forall key: Bytes, message: Bytes ::
      && |scheme.sign(key, message)| == 64
      && scheme.verify(scheme.publicKey(key), message, scheme.sign(key, message))
  }

  const TOKEN_PREFIX: string := "EMIU1-"
  const PAYLOAD_LEN: nat := 32
  const SIG_LEN: nat := 64

  datatype UnlockToken = UnlockToken(deviceId: Uuid, counter: U64, expiresUnix: I64) {
    function Expires(): Option<DateTime> {
      FromTimestamp(expiresUnix)
    }
  }

  datatype UnlockError = Malformed | BadSignature | WrongDevice | Expired | Replayed

  /** Device id, counter and expiry, 32 bytes. */
  function Payload(t: UnlockToken): (r: Bytes)
    ensures |r| == PAYLOAD_LEN
  {
    t.deviceId + U64Bytes(t.counter) + I64Bytes(t.expiresUnix)
  }

  function ReadPayload(b: Bytes): UnlockToken
    requires |b| == PAYLOAD_LEN
  {
    UnlockToken(b[..16], ReadU64(b[16..24]), ReadI64(b[24..32]))
  }

  /** Payloads and tokens correspond one to one. */
  lemma PayloadInverts(t: UnlockToken, b: Bytes)
    requires |b| == PAYLOAD_LEN
    ensures b == Payload(t) <==> ReadPayload(b) == t
  {
    hide U64Bytes, ReadU64, I64Bytes, ReadI64;
    U64Inverts(t.counter, b[16..24]);
    I64Inverts(t.expiresUnix, b[24..32]);
    assert b == b[..16] + b[16..24] + b[24..32];
    if b == Payload(t) {
      assert b[..16] == t.deviceId && b[16..24] == U64Bytes(t.counter) && b[24..32] == I64Bytes(t.expiresUnix);
    }
  }

  /** A token text: the prefix and the unpadded URL-safe base64 of payload and signature. */
  function TokenText(t: UnlockToken, signature: Bytes): string {
    TOKEN_PREFIX + Encode(UrlSafeNoPad, Payload(t) + signature)
  }

  /** What `sign_to_string` mints. */
  function Mint(scheme: Scheme, key: Bytes, t: UnlockToken): string {
    TokenText(t, scheme.sign(key, Payload(t)))
  }

  /** The bytes behind a code, if it has the prefix, the encoding and the length of a token. */
  function Unpack(code: string): Option<Bytes> {
    var text := Trim(code);
    if !(TOKEN_PREFIX <= text) then None
    else
      match Decode(UrlSafeNoPad, text[|TOKEN_PREFIX|..])
      case Some(raw) => if |raw| == PAYLOAD_LEN + SIG_LEN then Some(raw) else None
      case None => None
  }

  /** The checks after the signature, in the code's order. */
  function Admit(t: UnlockToken, device: Uuid, now: DateTime, lastCounter: U64): Result<UnlockToken, UnlockError> {
    if t.deviceId != device then Err(WrongDevice)
    else if !(t.Expires().Some? && t.Expires().value.After(now)) then Err(Expired)
    else if t.counter <= lastCounter then Err(Replayed)
    else Ok(t)
  }

  function VerifyUnlock(scheme: Scheme, code: string, trusted: Bytes, device: Uuid, now: DateTime, lastCounter: U64)
    : Result<UnlockToken, UnlockError>
  {
    match Unpack(code)
    case None => Err(Malformed)
    case Some(raw) =>
      if !scheme.verify(trusted, raw[..PAYLOAD_LEN], raw[PAYLOAD_LEN..]) then Err(BadSignature)
      else Admit(ReadPayload(raw[..PAYLOAD_LEN]), device, now, lastCounter)
  }

  /** Exactly one text unpacks to given token and signature bytes, whitespace around it aside. */
  lemma UnpackInverts(code: string, t: UnlockToken, signature: Bytes)
    requires |signature| == SIG_LEN
    ensures Unpack(code) == Some(Payload(t) + signature) <==> Trim(code) == TokenText(t, signature)
  {
    hide Trim, Encode, Decode, Payload;
    var text := Trim(code);
    var raw := Payload(t) + signature;
    if TOKEN_PREFIX <= text {
      assert text == TOKEN_PREFIX + text[|TOKEN_PREFIX|..];
      DecodeInverts(UrlSafeNoPad, text[|TOKEN_PREFIX|..], raw);
    }
    if text == TokenText(t, signature) {
      assert TOKEN_PREFIX <= text && text[|TOKEN_PREFIX|..] == Encode(UrlSafeNoPad, raw);
    }
  }

  /** `signature` makes `code` acceptable as the token `t`. */
  ghost predicate Signs(scheme: Scheme, trusted: Bytes, code: string, t: UnlockToken, signature: Bytes) {
    |signature| == SIG_LEN && Trim(code) == TokenText(t, signature) && scheme.verify(trusted, Payload(t), signature)
  }

  /**
   * Acceptance is canonical: a code is accepted as `t` exactly when, trimmed, it is the text of `t`
   * with a signature that verifies, and `t` is for this device, unexpired and newer. Such a text has
   * 134 characters.
   */
  lemma AcceptanceIsCanonical(scheme: Scheme, code: string, trusted: Bytes, device: Uuid, now: DateTime,
                              lastCounter: U64, t: UnlockToken)
    ensures VerifyUnlock(scheme, code, trusted, device, now, lastCounter) == Ok(t)
            <==> && (exists signature: Bytes :: Signs(scheme, trusted, code, t, signature))
                 && t.deviceId == device
                 && -8_334_601_228_800 <= t.expiresUnix <= 8_210_266_876_799 && t.expiresUnix > now.seconds
                 && t.counter > lastCounter
    ensures VerifyUnlock(scheme, code, trusted, device, now, lastCounter).Ok? ==> |Trim(code)| == 134
  {
    hide Trim, Encode, Decode, Payload, ReadPayload, Unpack;
    match Unpack(code) {
      case Some(raw) =>
        UnpackLength(code);
        var body, signature := raw[..PAYLOAD_LEN], raw[PAYLOAD_LEN..];
        assert raw == body + signature;
        var found := ReadPayload(body);
        PayloadInverts(found, body);
        PayloadInverts(t, body);
        UnpackInverts(code, found, signature);
        EncodeLength(UrlSafeNoPad, raw);
      case None =>
    }
    forall signature: Bytes | Signs(scheme, trusted, code, t, signature)
      ensures Unpack(code) == Some(Payload(t) + signature)
      ensures (Payload(t) + signature)[..PAYLOAD_LEN] == Payload(t)
              && (Payload(t) + signature)[PAYLOAD_LEN..] == signature
    {
      UnpackInverts(code, t, signature);
    }
  }

  lemma UnpackLength(code: string)
    ensures Unpack(code).Some? ==> |Unpack(code).value| == PAYLOAD_LEN + SIG_LEN
  {
    hide Trim, Decode;
  }

  /** The other reasons, for any code: no token text at all, or one whose signature does not verify. */
  lemma RefusedUnsigned(scheme: Scheme, code: string, trusted: Bytes, device: Uuid, now: DateTime, lastCounter: U64)
    ensures var verdict := VerifyUnlock(scheme, code, trusted, device, now, lastCounter);
            && (verdict == Err(Malformed) <==>
                  forall t: UnlockToken, signature: Bytes | |signature| == 64 :: Trim(code) != TokenText(t, signature))
            && (forall t: UnlockToken, signature: Bytes | |signature| == 64 && Trim(code) == TokenText(t, signature) ::
                  verdict == Err(BadSignature) <==> !scheme.verify(trusted, Payload(t), signature))
  {
    hide Trim, Encode, Decode, Payload, ReadPayload, Unpack, Admit, TokenText;
    forall t: UnlockToken, signature: Bytes | |signature| == 64
      ensures Unpack(code) == Some(Payload(t) + signature) <==> Trim(code) == TokenText(t, signature)
      ensures (Payload(t) + signature)[..PAYLOAD_LEN] == Payload(t)
      ensures (Payload(t) + signature)[PAYLOAD_LEN..] == signature
    {
      UnpackInverts(code, t, signature);
    }
    AdmitReasons(device, now, lastCounter);
    if Unpack(code).Some? {
      UnpackLength(code);
      var raw := Unpack(code).value;
      var body, signature := raw[..PAYLOAD_LEN], raw[PAYLOAD_LEN..];
      PayloadInverts(ReadPayload(body), body);
      assert raw == Payload(ReadPayload(body)) + signature;
      assert Trim(code) == TokenText(ReadPayload(body), signature);
    }
  }

  lemma AdmitReasons(device: Uuid, now: DateTime, lastCounter: U64)
    ensures forall t: UnlockToken :: Admit(t, device, now, lastCounter) !in {Err(Malformed), Err(BadSignature)}
  {
  }

  /** The text of a token: the version prefix, then device, counter, expiry and signature in base64url. */
  lemma TokenTextExactly(t: UnlockToken, signature: Bytes)
    ensures TokenText(t, signature)
         == "EMIU1-" + Encode(UrlSafeNoPad, t.deviceId + U64Bytes(t.counter) + I64Bytes(t.expiresUnix) + signature)
    ensures |"EMIU1-"| == 6
  {
    hide Encode, U64Bytes, I64Bytes;
  }

  /** Token and signature are determined by the text they make. */
  lemma TokenTextInjective(t: UnlockToken, signature: Bytes, t': UnlockToken, signature': Bytes)
    requires |signature| == SIG_LEN && |signature'| == SIG_LEN
    requires TokenText(t, signature) == TokenText(t', signature')
    ensures t == t' && signature == signature'
  {
    hide Encode, Decode, Payload, ReadPayload;
    var a, b := Payload(t) + signature, Payload(t') + signature';
    assert TokenText(t, signature)[|TOKEN_PREFIX|..] == Encode(UrlSafeNoPad, a);
    assert TokenText(t', signature')[|TOKEN_PREFIX|..] == Encode(UrlSafeNoPad, b);
    DecodeEncode(UrlSafeNoPad, a);
    DecodeEncode(UrlSafeNoPad, b);
    assert a[..PAYLOAD_LEN] == Payload(t) && b[..PAYLOAD_LEN] == Payload(t');
    assert a[PAYLOAD_LEN..] == signature && b[PAYLOAD_LEN..] == signature';
    PayloadInverts(t, Payload(t));
    PayloadInverts(t', Payload(t'));
  }

  /**
   * Minting and verifying: whatever whitespace surrounds it, a minted code gives back its token if
   * the device matches, the expiry is representable and later than now and the counter is newer,
   * and otherwise the first of those reasons to fail.
   */
  lemma MintedCodeVerifies(scheme: Scheme, key: Bytes, t: UnlockToken, pre: string, post: string,
                           device: Uuid, now: DateTime, lastCounter: U64)
    requires Lawful(scheme) && Blank(pre) && Blank(post)
    ensures var verdict :=
              VerifyUnlock(scheme, pre + Mint(scheme, key, t) + post, scheme.publicKey(key), device, now, lastCounter);
            var current := -8_334_601_228_800 <= t.expiresUnix <= 8_210_266_876_799 && t.expiresUnix > now.seconds;
            && (verdict == Err(WrongDevice) <==> t.deviceId != device)
            && (verdict == Err(Expired) <==> t.deviceId == device && !current)
            && (verdict == Err(Replayed) <==> t.deviceId == device && current && t.counter <= lastCounter)
            && (verdict == Ok(t) <==> t.deviceId == device && current && t.counter > lastCounter)
  {
    hide Trim, Encode, Payload, ReadPayload, Unpack;
    var code := Mint(scheme, key, t);
    var signature := scheme.sign(key, Payload(t));
    TokenTextTight(t, signature);
    TrimPadded(pre, code, post);
    UnpackInverts(pre + code + post, t, signature);
    var raw := Payload(t) + signature;
    assert raw[..PAYLOAD_LEN] == Payload(t) && raw[PAYLOAD_LEN..] == signature;
    PayloadInverts(t, Payload(t));
  }

  lemma TokenTextTight(t: UnlockToken, signature: Bytes)
    requires |signature| == SIG_LEN
    ensures Tight(TokenText(t, signature))
  {
    hide Encode, Payload;
    EncodeTight(UrlSafeNoPad, Payload(t) + signature);
    EncodeLength(UrlSafeNoPad, Payload(t) + signature);
  }

  // The buffers the code fills.

  /** `UnlockToken::payload`: three copies into a 32-byte buffer. */
  method WritePayload(t: UnlockToken) returns (bytes: array<Byte>)
    ensures fresh(bytes) && bytes[..] == Payload(t)
  {
    bytes := new Byte[PAYLOAD_LEN](_ => 0);
    CopyInto(bytes, 0, t.deviceId);
    CopyInto(bytes, 16, U64Bytes(t.counter));
    CopyInto(bytes, 24, I64Bytes(t.expiresUnix));
    assert bytes[..] == bytes[..16] + bytes[16..24] + bytes[24..32];
  }

  /** `copy_from_slice` at an offset. */
  method CopyInto(target: array<Byte>, offset: nat, source: Bytes)
    requires offset + |source| <= target.Length
    modifies target
    ensures target[offset..offset + |source|] == source
    ensures target[..offset] == old(target[..offset])
    ensures target[offset + |source|..] == old(target[offset + |source|..])
  {
    for i := 0 to |source|
      invariant forall k :: 0 <= k < target.Length ==>
                  target[k] == if offset <= k < offset + i then source[k - offset] else old(target[k])
    {
      target[offset + i] := source[i];
    }
  }

  /** `sign_to_string`: payload and signature in one buffer, then the text. */
  method SignToString(scheme: Scheme, key: Bytes, t: UnlockToken) returns (code: string)
    ensures code == Mint(scheme, key, t)
  {
    var payload := WritePayload(t);
    var buffer: Bytes := payload[..];
    buffer := buffer + scheme.sign(key, payload[..]);
    code := TOKEN_PREFIX + Encode(UrlSafeNoPad, buffer);
  }

  /** One hex pair as `u8::from_str_radix` reads it: either case, and a leading `+` for one digit. */
  function ReadPair(pair: string): Option<Byte>
    requires |pair| == 2
  {
    if pair[0] == '+' then CharNibble(AsciiLower(pair[1])) else ReadByteHex(AsciiLowercase(pair))
  }

  /** The spellings of a byte: its two digits in either case, or a `+` and one digit. */
  lemma PairExactly(pair: string, b: Byte)
    requires |pair| == 2
    ensures ReadPair(pair) == Some(b) <==>
            || AsciiLowercase(pair) == [DIGITS[b / 16], DIGITS[b % 16]]
            || (pair[0] == '+' && b < 16 && AsciiLower(pair[1]) == DIGITS[b])
  {
    var low := AsciiLowercase(pair);
    assert low == [low[0], low[1]];
    DigitExactly(low[0]);
    DigitExactly(low[1]);
    assert AsciiLower('+') == '+' && CharNibble('+') == None;
    forall h: Nibble, l: Nibble | JoinNibbles(h, l) == b ensures h == b / 16 && l == b % 16 {
    }
  }

  lemma DigitExactly(c: char)
    ensures forall x: Nibble :: CharNibble(c) == Some(x) <==> c == DIGITS[x]
  {
  }

  /** The 32 bytes of a 64-character hex key, pair by pair. */
  function ReadPairs(hex: string): Option<Bytes>
    requires |hex| % 2 == 0
  {
    if hex == "" then Some([])
    else
      match (ReadPair(hex[|hex| - 2..]), ReadPairs(hex[..|hex| - 2]))
      case (Some(b), Some(before)) => Some(before + [b])
      case _ => None
  }

  /**
   * `parse_public_key_hex` before the curve check: trim, 64 bytes, then 32 pairs. A text of 64 bytes
   * but fewer characters always has a chunk that is no pair of digits.
   */
  function KeyBytes(hex: string): Option<Bytes> {
    var text := Trim(hex);
    if Utf8Len(text) != 64 || |text| != 64 then None else ReadPairs(text)
  }

  /** `parse_public_key_hex`, over an arbitrary curve-point test. */
  function ParsedKey(onCurve: Bytes -> bool, hex: string): Option<Bytes> {
    match KeyBytes(hex)
    case Some(key) => if onCurve(key) then Some(key) else None
    case None => None
  }

  method ParsePublicKeyHex(onCurve: Bytes -> bool, hex: string) returns (key: Option<array<Byte>>)
    ensures key.Some? <==> ParsedKey(onCurve, hex).Some?
    ensures key.Some? ==> fresh(key.value) && key.value[..] == ParsedKey(onCurve, hex).value
  {
    hide Trim, Utf8Len, ReadPair, ReadPairs;
    NoPairs();
    var text := Trim(hex);
    if Utf8Len(text) != 64 || |text| != 64 {
      return None;
    }
    var bytes := new Byte[32](_ => 0);
    var index := 0;
    while index < 32
      invariant 0 <= index <= 32
      invariant ReadPairs(text[..2 * index]) == Some(bytes[..index])
    {
      var pair := ReadPair(text[2 * index..2 * index + 2]);
      NextPair(text, index);
      if pair.None? {
        PrefixFails(text, index + 1);
        return None;
      }
      bytes[index] := pair.value;
      assert bytes[..index + 1] == bytes[..index] + [pair.value];
      index := index + 1;
    }
    assert text[..64] == text && bytes[..32] == bytes[..];
    if !onCurve(bytes[..]) {
      return None;
    }
    return Some(bytes);
  }

  lemma NoPairs()
    ensures ReadPairs("") == Some([])
  {
  }

  /** Reading one pair further. */
  lemma NextPair(text: string, i: nat)
    requires 2 * i + 2 <= |text|
    ensures ReadPairs(text[..2 * i + 2]) ==
            match (ReadPair(text[2 * i..2 * i + 2]), ReadPairs(text[..2 * i]))
            case (Some(b), Some(before)) => Some(before + [b])
            case _ => None
  {
    hide ReadPair;
    var longer := text[..2 * i + 2];
    assert longer[..2 * i] == text[..2 * i] && longer[2 * i..] == text[2 * i..2 * i + 2];
  }

  lemma {:induction false} PrefixFails(text: string, i: nat)
    requires 2 * i <= |text| && |text| % 2 == 0
    requires ReadPairs(text[..2 * i]).None?
    ensures ReadPairs(text).None?
    decreases |text| - 2 * i
  {
    hide ReadPairs, ReadPair;
    if 2 * i == |text| {
      assert text[..2 * i] == text;
    } else {
      NextPair(text, i);
      PrefixFails(text, i + 1);
    }
  }

  lemma {:induction false} HexTextEnds(b: Bytes)
    requires b != []
    ensures HexText(b) == HexText(b[..|b| - 1]) + ByteHex(b[|b| - 1])
  {
    if |b| > 1 {
      HexTextEnds(b[1..]);
      assert b[1..][..|b| - 2] == b[..|b| - 1][1..];
    }
  }

  lemma ReadPairInverts(b: Byte)
    ensures ReadPair(ByteHex(b)) == Some(b)
  {
    ByteHexInverts(b);
    assert AsciiLowercase(ByteHex(b)) == ByteHex(b);
  }

  lemma {:induction false} ReadPairsInvert(b: Bytes)
    ensures ReadPairs(HexText(b)) == Some(b)
  {
    if b != [] {
      hide ByteHex, ReadPair;
      var n := |b| - 1;
      HexTextEnds(b);
      ReadPairsInvert(b[..n]);
      ReadPairInverts(b[n]);
      assert HexText(b)[..2 * n] == HexText(b[..n]) && HexText(b)[2 * n..] == ByteHex(b[n]);
      assert b == b[..n] + [b[n]];
    }
  }

  /** A curve point printed as hex is read back, whitespace around it aside; other bytes are refused. */
  lemma KeyHexInverts(onCurve: Bytes -> bool, key: Bytes, pre: string, post: string)
    requires |key| == 32 && Blank(pre) && Blank(post)
    ensures ParsedKey(onCurve, pre + HexText(key) + post) == if onCurve(key) then Some(key) else None
  {
    hide ReadPairs, Trim, HexText;
    var text := HexText(key);
    HexInverts(key);
    forall i | 0 <= i < |text|
      ensures text[i] as int < 0x80 && !IsWhitespace(text[i])
    {
      assert CharNibble(text[i]).Some?;
    }
    AsciiLen(text);
    TrimPadded(pre, text, post);
    ReadPairsInvert(key);
  }
}
