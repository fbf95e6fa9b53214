// Compact JSON objects of strings and unsigned numbers as `serde_json::to_string` writes them:
// no whitespace, fields in order, strings escaped as section 7 of RFC 8259 allows.
// The reader is a left inverse of the writer.
module Json {
  import opened Wrappers
  import opened Text
  import opened Hex

  datatype Value = Str(text: string) | Num(number: nat)
  datatype Member = Member(key: string, value: Value)
  type Object = seq<Member>

  /** serde_json's escapes: the short ones, `\u00xx` for other controls, everything else verbatim. */
  function EscapeChar(c: char): (r: string)
    ensures r != "" && r[0] != '"'
  {
    if c == '"' then "\\\""
    else if c == '\\' then "\\\\"
    else if c as int >= 0x20 then [c]
    else if c as int == 0x08 then "\\b"
    else if c as int == 0x09 then "\\t"
    else if c as int == 0x0A then "\\n"
    else if c as int == 0x0C then "\\f"
    else if c as int == 0x0D then "\\r"
    else "\\u00" + ByteHex(c as int)
  }

  /** The escaped characters of `s` and the closing quote. */
  function Closed(s: string): string {
    if s == "" then "\"" else EscapeChar(s[0]) + Closed(s[1..])
  }

  function Quoted(s: string): string {
    "\"" + Closed(s)
  }

  function ValueText(v: Value): string {
    match v
    case Str(text) => Quoted(text)
    case Num(number) => Decimal(number)
  }

  function MembersText(o: Object): string {
    if o == [] then "}"
    else Quoted(o[0].key) + (":" + (ValueText(o[0].value) + ((if |o| == 1 then "" else ",") + MembersText(o[1..]))))
  }

  function ObjectText(o: Object): string {
    "{" + MembersText(o)
  }

  // Reading.

  function ReadChar(t: string): Option<(char, string)>
    requires t != ""
  {
    if t[0] != '\\' then Some((t[0], t[1..]))
    else if |t| < 2 then None
    else if t[1] == 'u' then
      if |t| < 6 || t[2..4] != "00" then None
      else
        match ReadByteHex(t[4..6])
        case Some(b) => Some((b as char, t[6..]))
        case None => None
    else
      match t[1]
      case '"' => Some(('"', t[2..]))
      case '\\' => Some(('\\', t[2..]))
      case 'b' => Some(('\U{8}', t[2..]))
      case 't' => Some(('\t', t[2..]))
      case 'n' => Some(('\n', t[2..]))
      case 'f' => Some(('\U{C}', t[2..]))
      case 'r' => Some(('\r', t[2..]))
      case _ => None
  }

  lemma ReadCharInverts(c: char, rest: string)
    ensures ReadChar(EscapeChar(c) + rest) == Some((c, rest))
  {
    var t := EscapeChar(c) + rest;
    assert t[|EscapeChar(c)|..] == rest;
    if |EscapeChar(c)| == 6 {
      ByteHexInverts(c as int);
      assert t[4..6] == ByteHex(c as int) && t[2..4] == "00";
    }
  }

  /** Reads up to the closing quote. */
  function ReadClosed(t: string): Option<(string, string)>
    decreases |t|
  {
    if t == "" then None
    else if t[0] == '"' then Some(("", t[1..]))
    else
      match ReadChar(t)
      case Some((c, rest)) =>
        (match ReadClosed(rest)
         case Some((s, after)) => Some(([c] + s, after))
         case None => None)
      case None => None
  }

  lemma {:induction false} ReadClosedInverts(s: string, rest: string)
    ensures ReadClosed(Closed(s) + rest) == Some((s, rest))
  {
    if s == "" {
      assert (Closed(s) + rest)[1..] == rest;
    } else {
      hide EscapeChar, ReadChar;
      assert Closed(s) + rest == EscapeChar(s[0]) + (Closed(s[1..]) + rest);
      ReadCharInverts(s[0], Closed(s[1..]) + rest);
      ReadClosedInverts(s[1..], rest);
      assert s == [s[0]] + s[1..];
    }
  }

  function ReadValue(t: string): Option<(Value, string)> {
    if t == "" then None
    else if t[0] == '"' then
      match ReadClosed(t[1..])
      case Some((s, rest)) => Some((Str(s), rest))
      case None => None
    else
      var (n, rest) := ReadNat(t, 0);
      Some((Num(n), rest))
  }

  lemma ReadValueInverts(v: Value, rest: string)
    requires rest != "" && !IsDigit(rest[0])
    ensures ReadValue(ValueText(v) + rest) == Some((v, rest))
  {
    hide ReadClosed, Closed;
    match v
    case Str(text) =>
      ReadClosedInverts(text, rest);
      assert (Quoted(text) + rest)[1..] == Closed(text) + rest;
    case Num(number) =>
      assert IsDigit((Decimal(number) + rest)[0]);
      ReadDecimal(number, rest);
  }

  function ReadMembers(t: string): Option<Object>
    decreases |t|
  {
    if t == "" then None
    else if t[0] == '}' then (if |t| == 1 then Some([]) else None)
    else
      match ReadValue(t)
      case Some((Str(key), rest)) =>
        if rest == "" || |rest| >= |t| then None
        else
          (match ReadValue(rest[1..])
           case Some((v, after)) =>
             if after == "" || |after| >= |rest| then None
             else
               (match ReadMembers(if after[0] == ',' then after[1..] else after)
                case Some(o) => Some([Member(key, v)] + o)
                case None => None)
           case None => None)
      case _ => None
  }

  function ReadObject(t: string): Option<Object> {
    if t == "" || t[0] != '{' then None else ReadMembers(t[1..])
  }

  lemma {:induction false} MembersInvert(o: Object)
    ensures ReadMembers(MembersText(o)) == Some(o)
  {
    if o != [] {
      hide Closed, ReadValue, ReadNat, Decimal;
      var tail := (if |o| == 1 then "" else ",") + MembersText(o[1..]);
      var rest := ":" + (ValueText(o[0].value) + tail);
      MembersInvert(o[1..]);
      assert tail != "" && !IsDigit(tail[0]);
      assert ValueText(Str(o[0].key)) == Quoted(o[0].key);
      ReadValueInverts(Str(o[0].key), rest);
      ReadValueInverts(o[0].value, tail);
      assert rest[1..] == ValueText(o[0].value) + tail;
      assert tail[0] == ',' ==> tail[1..] == MembersText(o[1..]);
      assert o == [Member(o[0].key, o[0].value)] + o[1..];
    }
  }

  /** Any object can be read back from its text, whatever its keys and strings contain. */
  lemma ObjectInverts(o: Object)
    ensures ReadObject(ObjectText(o)) == Some(o)
  {
    MembersInvert(o);
    assert ObjectText(o)[1..] == MembersText(o);
  }

  /** The escapes of section 7 of RFC 8259 that are used: the short ones, `\u00xx` for other controls, no more. */
  lemma EscapeExactly(c: char)
    ensures EscapeChar(c) ==
            match c as int
            case 0x22 => ['\\', '"']
            case 0x5C => ['\\', '\\']
            case 0x08 => ['\\', 'b']
            case 0x09 => ['\\', 't']
            case 0x0A => ['\\', 'n']
            case 0x0C => ['\\', 'f']
            case 0x0D => ['\\', 'r']
            case n => if n < 0x20 then ['\\', 'u', '0', '0', DIGITS[n / 16], DIGITS[n % 16]] else [c]
  {
    if (c as int) < 0x20 {
      ByteHexExactly(c as int);
    }
  }

  /** Quotes around the escaped characters in order. */
  lemma {:induction false} QuotedExactly(s: string, c: char)
    ensures Quoted("") == ['"', '"']
    ensures Quoted(s + [c]) == Quoted(s)[..|Quoted(s)| - 1] + EscapeChar(c) + ['"']
  {
    hide EscapeChar;
    ClosedAppends(s, c);
  }

  lemma {:induction false} ClosedAppends(s: string, c: char)
    ensures |Closed(s)| > 0 && Closed(s + [c]) == Closed(s)[..|Closed(s)| - 1] + EscapeChar(c) + ['"']
  {
    hide EscapeChar;
    if s == "" {
      assert ([c])[1..] == "";
      assert s + [c] == [c];
      assert Closed("") == ['"'];
    } else {
      ClosedAppends(s[1..], c);
      assert (s + [c])[1..] == s[1..] + [c];
    }
  }

  /** ASCII characters that need no escape. */
  predicate Plain(c: char) {
    0x20 <= c as int < 0x80 && c != '"' && c != '\\'
  }

  predicate PlainText(s: string) {
    forall i :: 0 <= i < |s| ==> Plain(s[i])
  }

  lemma {:induction false} PlainClosed(s: string)
    requires PlainText(s)
    ensures Closed(s) == s + "\""
  {
    if s != "" {
      PlainClosed(s[1..]);
      assert s == [s[0]] + s[1..];
    }
  }

  /** A plain name as a member starts with it. */
  function Name(key: string): string {
    ['"'] + key + ['"', ':']
  }

  /** The members from the first on, one after the other. */
  lemma MembersStart(o: Object)
    requires o != [] && PlainText(o[0].key)
    ensures MembersText(o)
         == Name(o[0].key) + (ValueText(o[0].value) + ((if |o| == 1 then "" else ",") + MembersText(o[1..])))
  {
    hide ValueText, Quoted, Name;
    NameStarts(o[0].key, ValueText(o[0].value) + ((if |o| == 1 then "" else ",") + MembersText(o[1..])));
  }

  lemma NameStarts(key: string, rest: string)
    requires PlainText(key)
    ensures Quoted(key) + (":" + rest) == Name(key) + rest
  {
    hide Closed;
    PlainClosed(key);
    assert Quoted(key) == ['"'] + key + ['"'];
  }
}
