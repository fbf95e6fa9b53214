// Lower-case hexadecimal bytes and the UUID text form (section 4 of RFC 9562).
module Hex {
  import opened Wrappers
  import opened Base64

  type Nibble = x: int | 0 <= x < 16

  function NibbleChar(x: Nibble): char {
    if x < 10 then (48 + x) as char else (87 + x) as char
  }

  function CharNibble(c: char): Option<Nibble> {
    if '0' <= c <= '9' then Some(c as int - 48)
    else if 'a' <= c <= 'f' then Some(c as int - 87)
    else None
  }

  function ByteHex(b: Byte): (r: string)
    ensures |r| == 2
  {
    [NibbleChar(b / 16), NibbleChar(b % 16)]
  }

  function JoinNibbles(h: Nibble, l: Nibble): Byte {
    16 * h + l
  }

  function ReadByteHex(t: string): Option<Byte>
    requires |t| == 2
  {
    match (CharNibble(t[0]), CharNibble(t[1]))
    case (Some(h), Some(l)) => Some(JoinNibbles(h, l))
    case _ => None
  }

  lemma ByteHexInverts(b: Byte)
    ensures ReadByteHex(ByteHex(b)) == Some(b)
    ensures forall i :: 0 <= i < 2 ==> CharNibble(ByteHex(b)[i]).Some?
  {
    assert CharNibble(NibbleChar(b / 16)) == Some(b / 16);
    assert CharNibble(NibbleChar(b % 16)) == Some(b % 16);
  }

  function HexText(b: Bytes): (r: string)
    ensures |r| == 2 * |b|
  {
    if b == [] then "" else ByteHex(b[0]) + HexText(b[1..])
  }

  function ReadHex(t: string): Option<Bytes> {
    if t == "" then Some([])
    else if |t| == 1 then None
    else
      match (ReadByteHex(t[..2]), ReadHex(t[2..]))
      case (Some(b), Some(rest)) => Some([b] + rest)
      case _ => None
  }

  predicate IsHex(t: string) {
    forall i :: 0 <= i < |t| ==> CharNibble(t[i]).Some?
  }

  lemma {:induction false} HexInverts(b: Bytes)
    ensures ReadHex(HexText(b)) == Some(b)
    ensures IsHex(HexText(b))
  {
    if b != [] {
      hide CharNibble, ByteHex, ReadByteHex;
      ByteHexInverts(b[0]);
      HexInverts(b[1..]);
      assert HexText(b)[..2] == ByteHex(b[0]) && HexText(b)[2..] == HexText(b[1..]);
      assert b == [b[0]] + b[1..];
    }
  }

  type Uuid = b: Bytes | |b| == 16 witness seq(16, _ => 0)

  function UuidText(u: Uuid): (r: string)
    ensures |r| == 36
  {
    var h := HexText(u);
    h[..8] + "-" + h[8..12] + "-" + h[12..16] + "-" + h[16..20] + "-" + h[20..]
  }

  function ReadUuid(t: string): Option<Bytes> {
    if |t| != 36 || t[8] != '-' || t[13] != '-' || t[18] != '-' || t[23] != '-' then None
    else ReadHex(t[..8] + t[9..13] + t[14..18] + t[19..23] + t[24..])
  }

  /** UUID text is hex digits and hyphens, and determines the UUID. */
  lemma UuidInverts(u: Uuid)
    ensures ReadUuid(UuidText(u)) == Some(u)
    ensures forall i :: 0 <= i < 36 ==> UuidText(u)[i] == '-' || CharNibble(UuidText(u)[i]).Some?
  {
    hide CharNibble, HexText, ReadHex;
    HexInverts(u);
    var t, h := UuidText(u), HexText(u);
    assert t[..8] == h[..8] && t[9..13] == h[8..12] && t[14..18] == h[12..16];
    assert t[19..23] == h[16..20] && t[24..] == h[20..];
    assert h[..8] + h[8..12] + h[12..16] + h[16..20] + h[20..] == h;
  }

  const DIGITS: string := "0123456789abcdef"

  /** Two lower-case digits, the high one first. */
  lemma ByteHexExactly(b: Byte)
    ensures ByteHex(b) == [DIGITS[b / 16], DIGITS[b % 16]]
  {
  }

  lemma {:induction false} HexTextAt(b: Bytes, i: nat)
    requires i < |b|
    ensures HexText(b)[2 * i..2 * i + 2] == ByteHex(b[i])
  {
    hide ByteHex;
    if i > 0 {
      HexTextAt(b[1..], i - 1);
      assert HexText(b)[2 * i..2 * i + 2] == HexText(b[1..])[2 * i - 2..2 * i];
    }
  }

  /** Bytes in order, hyphens after the fourth, sixth, eighth and tenth. */
  lemma UuidTextExactly(u: Uuid, i: nat)
    requires i < 16
    ensures var at := 2 * i + (if i < 4 then 0 else if i < 6 then 1 else if i < 8 then 2 else if i < 10 then 3 else 4);
            UuidText(u)[at..at + 2] == ByteHex(u[i])
    ensures forall k :: k in {8, 13, 18, 23} ==> UuidText(u)[k] == '-'
  {
    hide HexText, ByteHex;
    HexTextAt(u, i);
    var text, h := UuidText(u), HexText(u);
    var at := 2 * i + (if i < 4 then 0 else if i < 6 then 1 else if i < 8 then 2 else if i < 10 then 3 else 4);
    assert text[at] == h[2 * i] && text[at + 1] == h[2 * i + 1];
    assert h[2 * i..2 * i + 2] == [h[2 * i], h[2 * i + 1]] && text[at..at + 2] == [text[at], text[at + 1]];
  }
}
