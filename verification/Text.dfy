// Rust string primitives the agent relies on: `str::trim`, `to_ascii_lowercase`, UTF-8 length,
// and decimal rendering. A `string` is a sequence of Unicode scalar values.
module Text {

  /** The Unicode White_Space property, which `str::trim` strips. */
  predicate IsWhitespace(c: char) {
    || '\t' <= c <= '\r'
    || c == ' '
    || c == '\U{85}'
    || c == '\U{A0}'
    || c == '\U{1680}'
    || '\U{2000}' <= c <= '\U{200A}'
    || c == '\U{2028}'
    || c == '\U{2029}'
    || c == '\U{202F}'
    || c == '\U{205F}'
    || c == '\U{3000}'
  }

  function TrimStart(s: string): string {
    if s != [] && IsWhitespace(s[0]) then TrimStart(s[1..]) else s
  }

  function TrimEnd(s: string): string {
    if s != [] && IsWhitespace(s[|s| - 1]) then TrimEnd(s[..|s| - 1]) else s
  }

  function Trim(s: string): string {
    TrimEnd(TrimStart(s))
  }

  /** All characters are whitespace. */
  ghost predicate Blank(s: string) {
    forall i :: 0 <= i < |s| ==> IsWhitespace(s[i])
  }

  /** Nothing left to trim. */
  predicate Tight(s: string) {
    s == [] || (!IsWhitespace(s[0]) && !IsWhitespace(s[|s| - 1]))
  }

  lemma {:induction false} TrimStartDrops(pre: string, s: string)
    requires Blank(pre)
    ensures TrimStart(pre + s) == TrimStart(s)
  {
    if pre == [] {
      assert pre + s == s;
    } else {
      assert (pre + s)[1..] == pre[1..] + s;
      TrimStartDrops(pre[1..], s);
    }
  }

  lemma {:induction false} TrimEndDrops(s: string, post: string)
    requires Blank(post)
    ensures TrimEnd(s + post) == TrimEnd(s)
  {
    if post == [] {
      assert s + post == s;
    } else {
      assert (s + post)[..|s + post| - 1] == s + post[..|post| - 1];
      TrimEndDrops(s, post[..|post| - 1]);
    }
  }

  /** Trimming removes exactly the surrounding whitespace of a tight text. */
  lemma TrimPadded(pre: string, s: string, post: string)
    requires Blank(pre) && Blank(post) && Tight(s)
    ensures Trim(pre + s + post) == s
  {
    assert pre + s + post == pre + (s + post);
    TrimStartDrops(pre, s + post);
    if s == [] {
      assert s + post == post;
      assert post + [] == post;
      TrimStartDrops(post, []);
    } else {
      assert (s + post)[0] == s[0];
      TrimEndDrops(s, post);
    }
  }

  lemma {:induction false} TrimStartSplits(s: string) returns (pre: string)
    ensures Blank(pre) && s == pre + TrimStart(s)
    ensures TrimStart(s) == [] || !IsWhitespace(TrimStart(s)[0])
  {
    if s != [] && IsWhitespace(s[0]) {
      var rest := TrimStartSplits(s[1..]);
      pre := [s[0]] + rest;
      assert s == [s[0]] + s[1..];
    } else {
      pre := [];
    }
  }

  lemma {:induction false} TrimEndSplits(s: string) returns (post: string)
    ensures Blank(post) && s == TrimEnd(s) + post
    ensures TrimEnd(s) == [] || !IsWhitespace(TrimEnd(s)[|TrimEnd(s)| - 1])
  {
    if s != [] && IsWhitespace(s[|s| - 1]) {
      var rest := TrimEndSplits(s[..|s| - 1]);
      post := rest + [s[|s| - 1]];
      assert s == s[..|s| - 1] + [s[|s| - 1]];
    } else {
      post := [];
    }
  }

  /** Every text is its trimmed core between two runs of whitespace, and the core is tight. */
  lemma TrimSplits(s: string) returns (pre: string, post: string)
    ensures Blank(pre) && Blank(post) && s == pre + Trim(s) + post && Tight(Trim(s))
  {
    pre := TrimStartSplits(s);
    post := TrimEndSplits(TrimStart(s));
    assert Trim(s) != [] ==> Trim(s)[0] == TrimStart(s)[0];
  }

  lemma TrimIdempotent(s: string)
    ensures Trim(Trim(s)) == Trim(s)
  {
    var _, _ := TrimSplits(s);
    TrimPadded([], Trim(s), []);
    assert [] + Trim(s) + [] == Trim(s);
  }

  function AsciiLower(c: char): char {
    if 'A' <= c <= 'Z' then (c as int + 32) as char else c
  }

  function AsciiLowercase(s: string): (r: string)
    ensures |r| == |s|
  {
    seq(|s|, i requires 0 <= i < |s| => AsciiLower(s[i]))
  }

  /** `str::len`: bytes of the UTF-8 encoding. */
  function Utf8Len(s: string): nat {
    if s == [] then 0 else
      (if s[0] as int < 0x80 then 1
       else if s[0] as int < 0x800 then 2
       else if s[0] as int < 0x1_0000 then 3
       else 4) + Utf8Len(s[1..])
  }

  lemma {:induction false} AsciiLen(s: string)
    requires forall i :: 0 <= i < |s| ==> s[i] as int < 0x80
    ensures Utf8Len(s) == |s|
  {
    if s != [] {
      AsciiLen(s[1..]);
    }
  }

  lemma {:induction false} Utf8LenConcat(a: string, b: string)
    ensures Utf8Len(a + b) == Utf8Len(a) + Utf8Len(b)
  {
    if a == "" {
      assert a + b == b;
    } else {
      assert (a + b)[1..] == a[1..] + b;
      Utf8LenConcat(a[1..], b);
    }
  }

  predicate IsDigit(c: char) {
    '0' <= c <= '9'
  }

  function DigitChar(d: nat): (c: char)
    requires d < 10
    ensures IsDigit(c) && DigitValue(c) == d
  {
    (48 + d) as char
  }

  function DigitValue(c: char): nat
    requires IsDigit(c)
  {
    c as int - 48
  }

  function Decimal(n: nat): (s: string)
    ensures s != [] && forall i :: 0 <= i < |s| ==> IsDigit(s[i])
  {
    if n < 10 then [DigitChar(n)] else Decimal(n / 10) + [DigitChar(n % 10)]
  }

  function ZeroPad(width: nat, s: string): (r: string)
    ensures |r| >= width
    ensures s != [] && (forall i :: 0 <= i < |s| ==> IsDigit(s[i]))
            ==> r != [] && forall i :: 0 <= i < |r| ==> IsDigit(r[i])
    decreases width - |s|
  {
    if |s| >= width then s else ZeroPad(width, "0" + s)
  }

  /** Reads the longest run of digits, continuing the number `acc`. */
  function ReadNat(s: string, acc: nat): (nat, string) {
    if s != [] && IsDigit(s[0]) then ReadNat(s[1..], 10 * acc + DigitValue(s[0])) else (acc, s)
  }

  lemma {:induction false} ReadDecimal(n: nat, rest: string)
    ensures ReadNat(Decimal(n) + rest, 0) == ReadNat(rest, n)
  {
    if n >= 10 {
      var last := [DigitChar(n % 10)];
      assert Decimal(n) + rest == Decimal(n / 10) + (last + rest);
      ReadDecimal(n / 10, last + rest);
      assert (last + rest)[1..] == rest;
    } else {
      assert (Decimal(n) + rest)[1..] == rest;
    }
  }

  lemma {:induction false} ReadPadded(width: nat, s: string, rest: string)
    ensures ReadNat(ZeroPad(width, s) + rest, 0) == ReadNat(s + rest, 0)
    decreases width - |s|
  {
    if |s| < width {
      ReadPadded(width, "0" + s, rest);
      assert ("0" + s + rest)[1..] == s + rest;
    }
  }

  // The primitives by what they do to each character.

  /** The 25 code points of the White_Space property. */
  lemma WhitespaceTable(c: char)
    ensures IsWhitespace(c) <==>
            c as int in {9, 10, 11, 12, 13, 32, 0x85, 0xA0, 0x1680, 0x2000, 0x2001, 0x2002, 0x2003, 0x2004, 0x2005,
                         0x2006, 0x2007, 0x2008, 0x2009, 0x200A, 0x2028, 0x2029, 0x202F, 0x205F, 0x3000}
  {
  }

  /** Letters A to Z become their small counterparts, everything else stays. */
  lemma LowercaseExactly(s: string, i: nat)
    requires i < |s|
    ensures var r := AsciiLowercase(s)[i];
            && !('A' <= r <= 'Z')
            && (if 'A' <= s[i] <= 'Z' then 'a' <= r <= 'z' && r as int - 'a' as int == s[i] as int - 'A' as int
                else r == s[i])
  {
  }

  /** The bytes UTF-8 takes for one character (section 3 of RFC 3629). */
  lemma Utf8LenOfChar(c: char)
    ensures Utf8Len([c]) == 1 <==> c as int < 0x80
    ensures Utf8Len([c]) == 2 <==> 0x80 <= c as int < 0x800
    ensures Utf8Len([c]) == 3 <==> 0x800 <= c as int < 0x1_0000
    ensures 1 <= Utf8Len([c]) <= 4
  {
    assert Utf8Len("") == 0;
  }

  /** No leading zero. */
  lemma {:induction false} DecimalCanonical(n: nat)
    ensures Decimal(n)[0] == '0' <==> n == 0
    ensures n < 10 ==> |Decimal(n)| == 1
  {
    if n >= 10 {
      DecimalCanonical(n / 10);
    }
  }

  /** Zeros in front, up to the width and no further. */
  lemma {:induction false} ZeroPadExactly(width: nat, s: string)
    ensures var r := ZeroPad(width, s);
            && |r| == (if |s| >= width then |s| else width)
            && r[|r| - |s|..] == s && forall i :: 0 <= i < |r| - |s| ==> r[i] == '0'
    decreases width - |s|
  {
    if |s| < width {
      ZeroPadExactly(width, "0" + s);
      var r := ZeroPad(width, "0" + s);
      var k := |r| - |s|;
      assert r[k - 1..] == "0" + s;
      assert r[k..] == r[k - 1..][1..];
    }
  }
}
