// The two strict base64 engines the agent uses (sections 3.5, 4 and 5 of RFC 4648):
// STANDARD with canonical padding, and URL_SAFE_NO_PAD without any. Both refuse non-zero
// trailing bits, so decoding is exactly the inverse of encoding.
module Base64 {
  import opened Wrappers
  import opened Text

  type Byte = b: int | 0 <= b < 256
  type Bytes = seq<Byte>
  type Sextet = x: int | 0 <= x < 64

  datatype Engine = Standard | UrlSafeNoPad

  // Three bytes as four sextets, and back.

  function Sextet0(a: Byte): Sextet { a / 4 }
  function Sextet1(a: Byte, b: Byte): Sextet { a % 4 * 16 + b / 16 }
  function Sextet2(b: Byte, c: Byte): Sextet { b % 16 * 4 + c / 64 }
  function Sextet3(c: Byte): Sextet { c % 64 }
  function Byte0(w: Sextet, x: Sextet): Byte { w * 4 + x / 16 }
  function Byte1(x: Sextet, y: Sextet): Byte { x % 16 * 16 + y / 4 }
  function Byte2(y: Sextet, z: Sextet): Byte { y % 4 * 64 + z }

  // A byte fixes the sextet bits it is made of, and a sextet the byte bits.

  lemma Byte0Splits(a: Byte, w: Sextet, x: Sextet)
    ensures a == Byte0(w, x) <==> w == a / 4 && x / 16 == a % 4
  {
  }

  lemma Byte1Splits(b: Byte, x: Sextet, y: Sextet)
    ensures b == Byte1(x, y) <==> x % 16 == b / 16 && y / 4 == b % 16
  {
  }

  lemma Byte2Splits(c: Byte, y: Sextet, z: Sextet)
    ensures c == Byte2(y, z) <==> y % 4 == c / 64 && z == c % 64
  {
  }

  lemma Sextet1Splits(a: Byte, b: Byte, x: Sextet)
    ensures x == Sextet1(a, b) <==> x / 16 == a % 4 && x % 16 == b / 16
  {
  }

  lemma Sextet2Splits(b: Byte, c: Byte, y: Sextet)
    ensures y == Sextet2(b, c) <==> y / 4 == b % 16 && y % 4 == c / 64
  {
  }

  lemma Regroup1(a: Byte, w: Sextet, x: Sextet)
    ensures a == Byte0(w, x) && Byte1(x, 0) == 0 <==> w == Sextet0(a) && x == Sextet1(a, 0)
  {
    hide Byte0, Byte1, Sextet1;
    Byte0Splits(a, w, x);
    Byte1Splits(0, x, 0);
    Sextet1Splits(a, 0, x);
  }

  lemma Regroup2(a: Byte, b: Byte, w: Sextet, x: Sextet, y: Sextet)
    ensures a == Byte0(w, x) && b == Byte1(x, y) && Byte2(y, 0) == 0
            <==> w == Sextet0(a) && x == Sextet1(a, b) && y == Sextet2(b, 0)
  {
    hide Byte0, Byte1, Byte2, Sextet1, Sextet2;
    Byte0Splits(a, w, x);
    Byte1Splits(b, x, y);
    Byte2Splits(0, y, 0);
    Sextet1Splits(a, b, x);
    Sextet2Splits(b, 0, y);
  }

  lemma Regroup3(a: Byte, b: Byte, c: Byte, w: Sextet, x: Sextet, y: Sextet, z: Sextet)
    ensures a == Byte0(w, x) && b == Byte1(x, y) && c == Byte2(y, z)
            <==> w == Sextet0(a) && x == Sextet1(a, b) && y == Sextet2(b, c) && z == Sextet3(c)
  {
    hide Byte0, Byte1, Byte2, Sextet1, Sextet2;
    Byte0Splits(a, w, x);
    Byte1Splits(b, x, y);
    Byte2Splits(c, y, z);
    Sextet1Splits(a, b, x);
    Sextet2Splits(b, c, y);
  }

  function ToSextets(b: Bytes): (r: seq<Sextet>)
    ensures |r| == |b| / 3 * 4 + (if |b| % 3 == 0 then 0 else |b| % 3 + 1)
  {
    if |b| == 0 then []
    else if |b| == 1 then [Sextet0(b[0]), Sextet1(b[0], 0)]
    else if |b| == 2 then [Sextet0(b[0]), Sextet1(b[0], b[1]), Sextet2(b[1], 0)]
    else [Sextet0(b[0]), Sextet1(b[0], b[1]), Sextet2(b[1], b[2]), Sextet3(b[2])] + ToSextets(b[3..])
  }

  /** A short last group must carry zeros beyond its final byte. */
  function FromSextets(s: seq<Sextet>): Option<Bytes> {
    if |s| == 0 then Some([])
    else if |s| == 1 then None
    else if |s| == 2 then
      if Byte1(s[1], 0) == 0 then Some([Byte0(s[0], s[1])]) else None
    else if |s| == 3 then
      if Byte2(s[2], 0) == 0 then Some([Byte0(s[0], s[1]), Byte1(s[1], s[2])]) else None
    else
      match FromSextets(s[4..])
      case Some(rest) => Some([Byte0(s[0], s[1]), Byte1(s[1], s[2]), Byte2(s[2], s[3])] + rest)
      case None => None
  }

  lemma {:induction false} ToSextetsInverts(b: Bytes)
    ensures FromSextets(ToSextets(b)) == Some(b)
  {
    hide Byte0, Byte1, Byte2, Sextet0, Sextet1, Sextet2, Sextet3;
    var s := ToSextets(b);
    if |b| == 1 {
      Regroup1(b[0], s[0], s[1]);
      assert b == [b[0]];
    } else if |b| == 2 {
      Regroup2(b[0], b[1], s[0], s[1], s[2]);
      assert b == [b[0], b[1]];
    } else if |b| >= 3 {
      Regroup3(b[0], b[1], b[2], s[0], s[1], s[2], s[3]);
      ToSextetsInverts(b[3..]);
      assert s[4..] == ToSextets(b[3..]);
      assert b == [b[0], b[1], b[2]] + b[3..];
    }
  }

  lemma {:induction false} FromSextetsInverts(s: seq<Sextet>, b: Bytes)
    requires FromSextets(s) == Some(b)
    ensures s == ToSextets(b)
  {
    hide Byte0, Byte1, Byte2, Sextet0, Sextet1, Sextet2, Sextet3;
    if |s| == 2 {
      Regroup1(b[0], s[0], s[1]);
    } else if |s| == 3 {
      Regroup2(b[0], b[1], s[0], s[1], s[2]);
    } else if |s| >= 4 {
      var rest := FromSextets(s[4..]).value;
      FromSextetsInverts(s[4..], rest);
      assert b[3..] == rest;
      assert s == [s[0], s[1], s[2], s[3]] + s[4..];
      Regroup3(b[0], b[1], b[2], s[0], s[1], s[2], s[3]);
    }
  }

  // Sextets as characters, and back.

  function SextetChar(e: Engine, x: Sextet): char {
    if x < 26 then (65 + x) as char
    else if x < 52 then (71 + x) as char
    else if x < 62 then (x - 4) as char
    else if x == 62 then (if e.Standard? then '+' else '-')
    else (if e.Standard? then '/' else '_')
  }

  function CharSextet(e: Engine, c: char): Option<Sextet> {
    if 'A' <= c <= 'Z' then Some(c as int - 65)
    else if 'a' <= c <= 'z' then Some(c as int - 71)
    else if '0' <= c <= '9' then Some(c as int + 4)
    else if c == SextetChar(e, 62) then Some(62)
    else if c == SextetChar(e, 63) then Some(63)
    else None
  }

  lemma CharSextetInverts(e: Engine, c: char, x: Sextet)
    ensures CharSextet(e, c) == Some(x) <==> c == SextetChar(e, x)
  {
  }

  lemma PadIsNoSextet(e: Engine)
    ensures CharSextet(e, '=') == None
  {
  }

  function Chars(e: Engine, s: seq<Sextet>): (r: string)
    ensures |r| == |s|
  {
    seq(|s|, i requires 0 <= i < |s| => SextetChar(e, s[i]))
  }

  /** All characters belong to the engine's alphabet. */
  predicate InAlphabet(e: Engine, t: string) {
    forall i :: 0 <= i < |t| ==> CharSextet(e, t[i]).Some?
  }

  function Sextets(e: Engine, t: string): (r: seq<Sextet>)
    requires InAlphabet(e, t)
    ensures |r| == |t|
  {
    seq(|t|, i requires 0 <= i < |t| => CharSextet(e, t[i]).value)
  }

  lemma CharsInvert(e: Engine, t: string, s: seq<Sextet>)
    ensures InAlphabet(e, t) && Sextets(e, t) == s <==> t == Chars(e, s)
    ensures InAlphabet(e, Chars(e, s))
  {
    forall i | 0 <= i < |s| {
      CharSextetInverts(e, SextetChar(e, s[i]), s[i]);
    }
    forall i, x | 0 <= i < |t| && CharSextet(e, t[i]) == Some(x)
      ensures t[i] == SextetChar(e, x)
    {
      CharSextetInverts(e, t[i], x);
    }
  }

  // The engines.

  /** The `=` characters that complete a text of `n` characters to whole quads. */
  function Padding(n: nat): string {
    if n % 4 == 2 then "==" else if n % 4 == 3 then "=" else ""
  }

  function Encode(e: Engine, b: Bytes): string {
    var text := Chars(e, ToSextets(b));
    if e.Standard? then text + Padding(|text|) else text
  }

  /** Drops the padding of a text made of whole quads. */
  function Unpad(t: string): (r: string)
    ensures |r| <= |t|
  {
    if t != "" && t[|t| - 1] == '=' then
      if |t| > 1 && t[|t| - 2] == '=' then t[..|t| - 2] else t[..|t| - 1]
    else t
  }

  function Decode(e: Engine, t: string): Option<Bytes> {
    if e.Standard? && |t| % 4 != 0 then None
    else
      var text := if e.Standard? then Unpad(t) else t;
      if InAlphabet(e, text) then FromSextets(Sextets(e, text)) else None
  }

  lemma NotPadded(text: string)
    requires InAlphabet(Standard, text) && text != ""
    ensures text[|text| - 1] != '='
  {
    hide CharSextet;
    PadIsNoSextet(Standard);
  }

  /** Padding is what `Unpad` drops from a text that does not end in `=` itself. */
  lemma UnpadInverts(t: string, text: string)
    requires |text| % 4 != 1 && (text != "" ==> text[|text| - 1] != '=')
    ensures |t| % 4 == 0 && Unpad(t) == text <==> t == text + Padding(|text|)
  {
    if |t| % 4 == 0 && Unpad(t) == text && t != text {
      assert t == text + t[|text|..];
      assert |t| == |text| + 1 ==> t[|text|..] == "=";
      assert |t| == |text| + 2 ==> t[|text|..] == "==";
    }
  }

  lemma DecodeEncode(e: Engine, b: Bytes)
    ensures Decode(e, Encode(e, b)) == Some(b)
  {
    hide Chars, Sextets, InAlphabet, ToSextets, FromSextets, Unpad, Padding;
    var s := ToSextets(b);
    var text := Chars(e, s);
    CharsInvert(e, text, s);
    ToSextetsInverts(b);
    SextetCount(b);
    if e.Standard? {
      if text != "" {
        NotPadded(text);
      }
      UnpadInverts(text + Padding(|text|), text);
    }
  }

  /** No encoding leaves a group of a single sextet. */
  lemma SextetCount(b: Bytes)
    ensures |ToSextets(b)| % 4 != 1
  {
    hide ToSextets;
    var groups, rest := |b| / 3, |b| % 3;
    assert |ToSextets(b)| == groups * 4 + (if rest == 0 then 0 else rest + 1);
  }

  lemma EncodeDecode(e: Engine, t: string, b: Bytes)
    requires Decode(e, t) == Some(b)
    ensures t == Encode(e, b)
  {
    hide Chars, Sextets, InAlphabet, ToSextets, FromSextets, Unpad, Padding;
    var text := if e.Standard? then Unpad(t) else t;
    FromSextetsInverts(Sextets(e, text), b);
    CharsInvert(e, text, ToSextets(b));
    if e.Standard? {
      if text != "" {
        NotPadded(text);
      }
      UnpadInverts(t, text);
    }
  }

  /** Decoding accepts exactly the encoder's output, and undoes it. */
  lemma DecodeInverts(e: Engine, t: string, b: Bytes)
    ensures Decode(e, t) == Some(b) <==> t == Encode(e, b)
  {
    hide Decode, Encode;
    DecodeEncode(e, b);
    if Decode(e, t) == Some(b) {
      EncodeDecode(e, t, b);
    }
  }

  lemma EncodeLength(e: Engine, b: Bytes)
    ensures |Encode(e, b)|
         == |b| / 3 * 4 + (if |b| % 3 == 0 then 0 else if e.Standard? then 4 else |b| % 3 + 1)
  {
  }

  lemma EncodeTight(e: Engine, b: Bytes)
    ensures Tight(Encode(e, b))
  {
    var t := Encode(e, b);
    CharsInvert(e, Chars(e, ToSextets(b)), ToSextets(b));
    forall i | 0 <= i < |t|
      ensures !IsWhitespace(t[i])
    {
      assert t[i] == '=' || CharSextet(e, t[i]).Some?;
    }
  }

  const LETTERS_AND_DIGITS: string :=
    "ABCDEFGHIJKLM" + "NOPQRSTUVWXYZ" + "abcdefghijklm" + "nopqrstuvwxyz" + "0123456789"
  const STANDARD_ALPHABET: string := LETTERS_AND_DIGITS + "+/"
  const URL_SAFE_ALPHABET: string := LETTERS_AND_DIGITS + "-_"

  /** The alphabets as tables 1 and 2 of RFC 4648 list them. */
  lemma Alphabets(x: Sextet)
    ensures |STANDARD_ALPHABET| == 64 && SextetChar(Standard, x) == STANDARD_ALPHABET[x]
    ensures |URL_SAFE_ALPHABET| == 64 && SextetChar(UrlSafeNoPad, x) == URL_SAFE_ALPHABET[x]
  {
  }

  /** The first sextet of a byte is its high six bits, and a single byte ends with its low two. */
  lemma SingleByte(b: Byte)
    ensures Encode(Standard, [b]) == [STANDARD_ALPHABET[b / 4], STANDARD_ALPHABET[b % 4 * 16], '=', '=']
    ensures Encode(UrlSafeNoPad, [b]) == [URL_SAFE_ALPHABET[b / 4], URL_SAFE_ALPHABET[b % 4 * 16]]
  {
    hide SextetChar;
    Alphabets(b / 4);
    Alphabets(b % 4 * 16);
  }
}
