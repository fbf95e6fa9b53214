// Keys and signatures written as base64 text: two spellings are accepted, one is stored.
module KeyText {
  import opened Wrappers
  import opened Text
  import opened Base64

  datatype KeyError = NotBase64 | WrongLength | InvalidKey | WeakKey

  /** `decode_fixed`: standard base64 first, then unpadded URL-safe, then the length. */
  function DecodeFixed(size: nat, value: string): Result<Bytes, KeyError> {
    var text := Trim(value);
    var decoded := match Decode(Standard, text)
                   case Some(b) => Some(b)
                   case None => Decode(UrlSafeNoPad, text);
    match decoded
    case None => Err(NotBase64)
    case Some(b) => if |b| == size then Ok(b) else Err(WrongLength)
  }

  /**
   * Every fixed-size value that needs padding has exactly two accepted spellings, whitespace
   * around them aside, and both give back its bytes. Keys (32) and signatures (64) qualify.
   */
  lemma DecodeFixedSpellings(size: nat, value: string, b: Bytes)
    requires size % 3 != 0
    ensures DecodeFixed(size, value) == Ok(b)
            <==> |b| == size && Trim(value) in {Encode(Standard, b), Encode(UrlSafeNoPad, b)}
    ensures |b| == size ==> Encode(Standard, b) != Encode(UrlSafeNoPad, b)
  {
    hide Encode, Decode, Trim;
    var text := Trim(value);
    DecodeInverts(Standard, text, b);
    DecodeInverts(UrlSafeNoPad, text, b);
    EncodeLength(Standard, b);
    EncodeLength(UrlSafeNoPad, b);
    match Decode(Standard, text)
    case Some(other) =>
      DecodeInverts(Standard, text, other);
      EncodeLength(Standard, other);
    case None =>
  }

  /** A spelling surrounded by whitespace decodes to the bytes it spells. */
  lemma SpellingDecodes(e: Engine, b: Bytes, pre: string, post: string)
    requires |b| % 3 != 0 && Blank(pre) && Blank(post)
    ensures DecodeFixed(|b|, pre + Encode(e, b) + post) == Ok(b)
  {
    EncodeTight(e, b);
    TrimPadded(pre, Encode(e, b), post);
    DecodeFixedSpellings(|b|, pre + Encode(e, b) + post, b);
  }

  /** `normalize_public_key`, over arbitrary curve-point tests. */
  function NormalizePublicKey(onCurve: Bytes -> bool, weak: Bytes -> bool, encoded: string): Result<string, KeyError> {
    var bytes :- DecodeFixed(32, encoded);
    if !onCurve(bytes) then Err(InvalidKey)
    else if weak(bytes) then Err(WeakKey)
    else Ok(Encode(Standard, bytes))
  }

  /** The stored form is a fixed point. */
  lemma NormalizeIdempotent(onCurve: Bytes -> bool, weak: Bytes -> bool, encoded: string)
    requires NormalizePublicKey(onCurve, weak, encoded).Ok?
    ensures NormalizePublicKey(onCurve, weak, NormalizePublicKey(onCurve, weak, encoded).value)
         == NormalizePublicKey(onCurve, weak, encoded)
  {
    hide DecodeFixed, Encode;
    var bytes := DecodeFixed(32, encoded).value;
    DecodeFixedSpellings(32, encoded, bytes);
    SpellingDecodes(Standard, bytes, [], []);
    assert [] + Encode(Standard, bytes) + [] == Encode(Standard, bytes);
  }

  /** Two texts are stored alike exactly when they spell the same key bytes. */
  lemma NormalizeIdentifiesKeys(onCurve: Bytes -> bool, weak: Bytes -> bool, a: string, b: string)
    requires NormalizePublicKey(onCurve, weak, a).Ok? && NormalizePublicKey(onCurve, weak, b).Ok?
    ensures NormalizePublicKey(onCurve, weak, a) == NormalizePublicKey(onCurve, weak, b)
            <==> DecodeFixed(32, a) == DecodeFixed(32, b)
  {
    var x, y := DecodeFixed(32, a).value, DecodeFixed(32, b).value;
    DecodeEncode(Standard, x);
    DecodeEncode(Standard, y);
  }

  /** A refused text spells no bytes at all, or, by either spelling, bytes of another length. */
  lemma DecodeFixedRefusals(size: nat, value: string)
    ensures DecodeFixed(size, value) == Err(NotBase64) <==>
            forall b: Bytes :: Trim(value) != Encode(Standard, b) && Trim(value) != Encode(UrlSafeNoPad, b)
    ensures DecodeFixed(size, value) == Err(WrongLength) ==>
            exists b: Bytes :: |b| != size && Trim(value) in {Encode(Standard, b), Encode(UrlSafeNoPad, b)}
  {
    hide Encode, Decode, Trim;
    var text := Trim(value);
    forall b: Bytes
      ensures Decode(Standard, text) == Some(b) <==> text == Encode(Standard, b)
      ensures Decode(UrlSafeNoPad, text) == Some(b) <==> text == Encode(UrlSafeNoPad, b)
    {
      DecodeInverts(Standard, text, b);
      DecodeInverts(UrlSafeNoPad, text, b);
    }
    if Decode(Standard, text).Some? {
      assert text == Encode(Standard, Decode(Standard, text).value);
    } else if Decode(UrlSafeNoPad, text).Some? {
      assert text == Encode(UrlSafeNoPad, Decode(UrlSafeNoPad, text).value);
    }
  }

  /** A key is normalized exactly if it spells a curve point that is not weak, and to its padded spelling. */
  lemma NormalizeExactly(onCurve: Bytes -> bool, weak: Bytes -> bool, encoded: string, text: string)
    ensures NormalizePublicKey(onCurve, weak, encoded) == Ok(text) <==>
            exists key: Bytes :: |key| == 32 && onCurve(key) && !weak(key) && text == Encode(Standard, key)
                              && Trim(encoded) in {Encode(Standard, key), Encode(UrlSafeNoPad, key)}
  {
    hide DecodeFixed, Encode, Trim;
    forall key: Bytes
      ensures DecodeFixed(32, encoded) == Ok(key)
              <==> |key| == 32 && Trim(encoded) in {Encode(Standard, key), Encode(UrlSafeNoPad, key)}
    {
      DecodeFixedSpellings(32, encoded, key);
    }
  }
}
