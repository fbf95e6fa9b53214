// The way of a token from the lock screen to the service: on-screen keyboard, submission filter,
// mailbox text with its size bound, and parsing (ui/lock.rs and recovery_service.rs).
module TokenDelivery {
  import opened Wrappers
  import opened Text
  import opened Base64
  import opened MachineInts
  import opened Hex
  import opened Calendar
  import opened UnlockTokens
  import opened RecoveryService
  import Json

  const FIELD_LIMIT: nat := 256
  const MAILBOX_LIMIT: nat := 1024

  /** The five rows of the on-screen keyboard. */
  predicate OnKeyboard(c: char) {
    c in "ABCDEFGHIJKLM" || c in "NOPQRSTUVWXYZ" || c in "abcdefghijklm" || c in "nopqrstuvwxyz" || c in "0123456789-_"
  }

  /** The filter of `try_recovery_unlock` on a trimmed input. */
  predicate Submittable(token: string) {
    TOKEN_PREFIX <= token && Utf8Len(token) <= FIELD_LIMIT
  }

  function RequestText(request: RecoveryRequest): string {
    Json.ObjectText([Json.Member("request_id", Json.Str(UuidText(request.requestId))),
                     Json.Member("token", Json.Str(request.token))])
  }

  /** What `process` makes of the mailbox bytes: nothing beyond the bound, else the parsed request. */
  function ReadRequest(text: string): Option<RecoveryRequest> {
    if Utf8Len(text) > MAILBOX_LIMIT then None
    else
      match Json.ReadObject(text)
      case Some(o) =>
        if |o| == 2 && o[0].key == "request_id" && o[0].value.Str? && o[1].key == "token" && o[1].value.Str? then
          match ReadUuid(o[0].value.text)
          case Some(id) => if |id| == 16 then Some(RecoveryRequest(id, o[1].value.text)) else None
          case None => None
        else None
      case None => None
  }

  /** The size of an object of plain strings. */
  function MembersSize(o: Json.Object): nat
    requires forall m | m in o :: m.value.Str?
  {
    if o == [] then 1
    else |o[0].key| + |o[0].value.text| + 5 + (if |o| == 1 then 0 else 1) + MembersSize(o[1..])
  }

  lemma QuotedSize(s: string)
    requires Json.PlainText(s)
    ensures Utf8Len(Json.Quoted(s)) == |s| + 2
  {
    hide Json.Closed;
    Json.PlainClosed(s);
    AsciiLen(Json.Quoted(s));
  }

  lemma {:induction false} PlainMembers(o: Json.Object)
    requires forall m | m in o :: m.value.Str? && Json.PlainText(m.key) && Json.PlainText(m.value.text)
    ensures Utf8Len(Json.MembersText(o)) == MembersSize(o)
  {
    if o == [] {
      AsciiLen("}");
    } else {
      hide Utf8Len, Json.Quoted, Json.PlainText;
      assert o[0] in o && forall m | m in o[1..] :: m in o;
      var key, value := Json.Quoted(o[0].key), Json.ValueText(o[0].value);
      var comma := if |o| == 1 then "" else ",";
      var rest := Json.MembersText(o[1..]);
      QuotedSize(o[0].key);
      QuotedSize(o[0].value.text);
      PlainMembers(o[1..]);
      AsciiLen(":");
      AsciiLen(comma);
      Utf8LenConcat(comma, rest);
      Utf8LenConcat(value, comma + rest);
      Utf8LenConcat(":", value + (comma + rest));
      Utf8LenConcat(key, ":" + (value + (comma + rest)));
    }
  }

  /** A URL-safe base64 character is plain and on the keyboard. */
  lemma AlphabetOnKeyboard(c: char)
    requires CharSextet(UrlSafeNoPad, c).Some?
    ensures Json.Plain(c) && OnKeyboard(c)
  {
    var n := c as int;
    if 'A' <= c <= 'M' {
      assert "ABCDEFGHIJKLM"[n - 65] == c;
    } else if 'N' <= c <= 'Z' {
      assert "NOPQRSTUVWXYZ"[n - 78] == c;
    } else if 'a' <= c <= 'm' {
      assert "abcdefghijklm"[n - 97] == c;
    } else if 'n' <= c <= 'z' {
      assert "nopqrstuvwxyz"[n - 110] == c;
    } else {
      assert "0123456789-_"[if c == '-' then 10 else if c == '_' then 11 else n - 48] == c;
    }
  }

  /** The characters of anything that unpacks to a token. */
  lemma TokenCharacters(code: string)
    requires Unpack(code).Some?
    ensures TOKEN_PREFIX <= Trim(code) && |Trim(code)| == 134
    ensures forall i :: 0 <= i < 134 ==> Json.Plain(Trim(code)[i]) && OnKeyboard(Trim(code)[i])
  {
    hide Trim, CharSextet, ToSextets, OnKeyboard;
    var text := Trim(code);
    var raw := Unpack(code).value;
    var body := text[|TOKEN_PREFIX|..];
    assert text == TOKEN_PREFIX + body;
    DecodeInverts(UrlSafeNoPad, body, raw);
    EncodeLength(UrlSafeNoPad, raw);
    CharsInvert(UrlSafeNoPad, body, ToSextets(raw));
    forall i | 0 <= i < 134
      ensures Json.Plain(text[i]) && OnKeyboard(text[i])
    {
      if i < |TOKEN_PREFIX| {
        PrefixCharacters(i);
      } else {
        AlphabetOnKeyboard(body[i - |TOKEN_PREFIX|]);
      }
    }
  }

  lemma PrefixCharacters(i: nat)
    requires i < |TOKEN_PREFIX|
    ensures Json.Plain(TOKEN_PREFIX[i]) && OnKeyboard(TOKEN_PREFIX[i])
  {
    hide OnKeyboard;
    assert TOKEN_PREFIX == ['E', 'M', 'I', 'U', '1', '-'];
    PrefixCharacter(TOKEN_PREFIX[i]);
  }

  lemma PrefixCharacter(c: char)
    requires c == 'E' || c == 'M' || c == 'I' || c == 'U' || c == '1' || c == '-'
    ensures Json.Plain(c) && OnKeyboard(c)
  {
    hide OnKeyboard;
    AlphabetOnKeyboard(c);
  }

  /** The mailbox text of a plain token is all ASCII and short. */
  lemma RequestTextSize(request: RecoveryRequest)
    requires Json.PlainText(request.token)
    ensures Utf8Len(RequestText(request)) == 64 + |request.token|
  {
    hide Json.MembersText, UuidText;
    var id := UuidText(request.requestId);
    UuidInverts(request.requestId);
    forall i | 0 <= i < 36
      ensures Json.Plain(id[i])
    {
      assert id[i] == '-' || CharNibble(id[i]).Some?;
    }
    var o := [Json.Member("request_id", Json.Str(id)), Json.Member("token", Json.Str(request.token))];
    assert Json.PlainText("request_id") && Json.PlainText("token");
    PlainMembers(o);
    assert o[1..] == [Json.Member("token", Json.Str(request.token))] && o[1..][1..] == [];
    assert MembersSize(o[1..]) == 11 + |request.token|;
    AsciiLen("{");
    Utf8LenConcat("{", Json.MembersText(o));
  }

  /**
   * No acceptable token is lost on the way: trimmed, it can be typed on the on-screen keyboard,
   * passes the filter, fits the mailbox, is read back as submitted, and is judged there as the
   * original would be.
   */
  lemma TokenArrives(code: string, id: Uuid, scheme: Scheme, trusted: Bytes, device: Uuid, now: DateTime,
                     lastCounter: U64)
    requires Unpack(code).Some?
    ensures var token := Trim(code);
            && (forall i :: 0 <= i < |token| ==> OnKeyboard(token[i]))
            && Submittable(token)
            && Utf8Len(RequestText(RecoveryRequest(id, token))) <= 1024
            && ReadRequest(RequestText(RecoveryRequest(id, token))) == Some(RecoveryRequest(id, token))
            && VerifyUnlock(scheme, token, trusted, device, now, lastCounter)
               == VerifyUnlock(scheme, code, trusted, device, now, lastCounter)
  {
    hide Trim, OnKeyboard, Json.ReadObject, Json.ObjectText, UuidText, ReadUuid, Decode;
    var token := Trim(code);
    TokenCharacters(code);
    AsciiLen(token);
    TrimIdempotent(code);
    var request := RecoveryRequest(id, token);
    RequestTextSize(request);
    UuidInverts(id);
    Json.ObjectInverts([Json.Member("request_id", Json.Str(UuidText(id))), Json.Member("token", Json.Str(token))]);
  }

  /** Whatever the verifier accepts unpacks, so it arrives. */
  lemma AcceptedUnpacks(code: string, scheme: Scheme, trusted: Bytes, device: Uuid, now: DateTime, lastCounter: U64)
    requires VerifyUnlock(scheme, code, trusted, device, now, lastCounter).Ok?
    ensures Unpack(code).Some?
  {
  }

  // The texts and bounds written out.

  /** The keyboard offers the capital and small letters, the digits, the hyphen and the underscore. */
  lemma KeyboardExactly(c: char)
    ensures OnKeyboard(c) <==> 'A' <= c <= 'Z' || 'a' <= c <= 'z' || '0' <= c <= '9' || c == '-' || c == '_'
  {
    if 'A' <= c <= 'Z' || 'a' <= c <= 'z' || '0' <= c <= '9' || c == '-' || c == '_' {
      AlphabetOnKeyboard(c);
    }
  }

  /** The filter: the version prefix, and at most 256 bytes. */
  lemma SubmittableExactly(token: string)
    ensures Submittable(token) <==>
            && |token| >= 6 && token[0] == 'E' && token[1] == 'M' && token[2] == 'I' && token[3] == 'U'
            && token[4] == '1' && token[5] == '-' && Utf8Len(token) <= 256
  {
    hide Utf8Len;
    assert TOKEN_PREFIX == ['E', 'M', 'I', 'U', '1', '-'];
    if |token| >= 6 {
      assert token[..6] == [token[0], token[1], token[2], token[3], token[4], token[5]];
    }
  }

  /** The mailbox text: request id and token, by these names and in this order. */
  lemma RequestTextExactly(request: RecoveryRequest)
    ensures RequestText(request)
         == ['{'] + (Json.Name("request_id") + (Json.Quoted(UuidText(request.requestId)) + ([',']
            + (Json.Name("token") + (Json.Quoted(request.token) + ['}'])))))
  {
    hide Json.Quoted, Json.Name, UuidText;
    var o := [Json.Member("request_id", Json.Str(UuidText(request.requestId))),
              Json.Member("token", Json.Str(request.token))];
    assert Json.PlainText("request_id") && Json.PlainText("token");
    Json.MembersStart(o);
    Json.MembersStart(o[1..]);
    assert o[1..][1..] == [] && "" + ['}'] == ['}'];
  }

  /** A mailbox over 1024 bytes is not looked at. */
  lemma OversizedIgnored(text: string)
    requires Utf8Len(text) > 1024
    ensures ReadRequest(text) == None
  {
  }

  /** A mailbox the screen wrote is read back exactly if it holds at most 1024 bytes. */
  lemma RequestRead(request: RecoveryRequest)
    ensures ReadRequest(RequestText(request)) == if Utf8Len(RequestText(request)) <= 1024 then Some(request) else None
  {
    hide Json.ReadObject, Json.ObjectText, UuidText, ReadUuid, Utf8Len;
    UuidInverts(request.requestId);
    Json.ObjectInverts([Json.Member("request_id", Json.Str(UuidText(request.requestId))),
                        Json.Member("token", Json.Str(request.token))]);
  }
}
