// The one-time dismissal link (bluescreen.rs): the bounded header reader, the header scan, and the
// answers to a sequence of requests.
module Bluescreen {
  import opened Wrappers
  import opened Text
  import opened Clock
  import opened Base64

  const MAX_HEADERS: nat := 8192
  const CHUNK: nat := 512
  const BLANK_LINE: Bytes := [13, 10, 13, 10]

  // The header reader.

  /** What the socket has to offer when it is read. */
  datatype Arrival = Data(bytes: Bytes) | Closed | NothingYet | Failed

  /** One turn of the reading loop: the stop flag, the clock, and what the socket offers. */
  datatype Turn = Turn(stopped: bool, now: Instant, arrival: Arrival)

  /** All turns a connection could take. */
  type Connection = nat -> Turn

  /** Time never goes back, a timed-out read has waited, and data arrives in at least one byte. */
  ghost predicate Plausible(c: Connection) {
    && (forall i: nat :: c(i).arrival.Data? ==> c(i).arrival.bytes != [])
    && (forall i: nat :: if c(i).arrival.NothingYet? then c(i).now < c(i + 1).now else c(i).now <= c(i + 1).now)
  }

  predicate EndsHeaders(b: Bytes) {
    |b| >= 4 && b[|b| - 4..] == BLANK_LINE
  }

  /** A read returns what fits the chunk and the remaining room. */
  function Chunk(arrival: Arrival, held: nat): Bytes
    requires held <= MAX_HEADERS
  {
    if !arrival.Data? then []
    else arrival.bytes[..Smallest(|arrival.bytes|, CHUNK, MAX_HEADERS - held)]
  }

  function Smallest(a: nat, b: nat, c: nat): nat {
    var m := if a <= b then a else b;
    if m <= c then m else c
  }

  /** What `n` reads have collected. */
  function Received(c: Connection, n: nat): (r: Bytes)
    ensures |r| <= MAX_HEADERS
  {
    if n == 0 then []
    else
      var before := Received(c, n - 1);
      before + Chunk(c(n - 1).arrival, |before|)
  }

  /** The loop reads in turn `n` and stays in it. */
  predicate ReadsOn(c: Connection, deadline: Instant, n: nat) {
    && !EndsHeaders(Received(c, n))
    && !c(n).stopped && c(n).now < deadline && |Received(c, n)| < MAX_HEADERS
    && (c(n).arrival.Data? || c(n).arrival.NothingYet?)
  }

  /** The loop ends in turn `n`. */
  ghost predicate EndsAt(c: Connection, deadline: Instant, n: nat) {
    !ReadsOn(c, deadline, n) && forall i :: 0 <= i < n ==> ReadsOn(c, deadline, i)
  }

  /** What the reader returns when it ends in turn `n`. */
  function HeadersAt(c: Connection, deadline: Instant, utf8: Bytes -> Option<string>, n: nat)
    : Result<Option<string>, ()>
  {
    var held := Received(c, n);
    if EndsHeaders(held) then Ok(utf8(held))
    else if c(n).stopped || c(n).now >= deadline || |held| >= MAX_HEADERS || c(n).arrival.Closed? then Ok(None)
    else Err(())
  }

  /** Every turn costs a byte of room or a tick of the clock. */
  lemma {:induction false} TurnsBounded(c: Connection, deadline: Instant, n: nat)
    requires Plausible(c) && forall i :: 0 <= i < n ==> ReadsOn(c, deadline, i)
    ensures n <= |Received(c, n)| + (c(n).now - c(0).now)
    ensures n > 0 ==> n <= MAX_HEADERS + (deadline - c(0).now)
  {
    if n > 0 {
      TurnsBounded(c, deadline, n - 1);
      assert ReadsOn(c, deadline, n - 1);
      var before, arrival := Received(c, n - 1), c(n - 1).arrival;
      if arrival.Data? {
        assert |Received(c, n)| >= |before| + 1;
      }
      assert c(n - 1).now <= c((n - 1) + 1).now;
    }
  }

  /** A read takes what is offered, up to 512 bytes and up to 8192 in all. */
  lemma ReceivedExactly(c: Connection, n: nat)
    ensures |Received(c, n)| <= 8192
    ensures var held, taken := Received(c, n), |Received(c, n + 1)| - |Received(c, n)|;
            && Received(c, n + 1)[..|held|] == held
            && (!c(n).arrival.Data? ==> taken == 0)
            && (c(n).arrival.Data? ==>
                  && taken <= |c(n).arrival.bytes| && taken <= 512 && taken <= 8192 - |held|
                  && (taken == |c(n).arrival.bytes| || taken == 512 || taken == 8192 - |held|)
                  && Received(c, n + 1)[|held|..] == c(n).arrival.bytes[..taken])
  {
  }

  /** The text is returned exactly if what was read ends in a blank line and is UTF-8; a socket error is passed on. */
  lemma HeadersExactly(c: Connection, deadline: Instant, utf8: Bytes -> Option<string>, n: nat, text: string)
    requires EndsAt(c, deadline, n)
    ensures var held, r := Received(c, n), HeadersAt(c, deadline, utf8, n);
            var ended := |held| >= 4 && held[|held| - 4] == 13 && held[|held| - 3] == 10
                         && held[|held| - 2] == 13 && held[|held| - 1] == 10;
            && (r == Ok(Some(text)) <==> ended && utf8(held) == Some(text))
            && (r.Err? <==> && !ended && !c(n).stopped && c(n).now < deadline && |held| < 8192 && c(n).arrival.Failed?)
  {
    hide Received;
    var held := Received(c, n);
    if |held| >= 4 {
      assert held[|held| - 4..] == [held[|held| - 4], held[|held| - 3], held[|held| - 2], held[|held| - 1]];
    }
  }

  /** What the reader may return: the decision of the turn that ends it. */
  ghost predicate Returns(c: Connection, deadline: Instant, utf8: Bytes -> Option<string>,
                          r: Result<Option<string>, ()>) {
    exists n :: EndsAt(c, deadline, n) && r == HeadersAt(c, deadline, utf8, n)
  }

  /** `read_headers`: whatever arrives, the loop ends and returns what its last turn decides. */
  method ReadHeaders(c: Connection, start: Instant, utf8: Bytes -> Option<string>)
    returns (r: Result<Option<string>, ()>)
    requires Plausible(c)
    ensures Returns(c, start + 1_000_000_000, utf8, r)
  {
    var deadline := start + SECOND;
    assert deadline == start + 1_000_000_000;
    var bytes: Bytes := [];
    var n: nat := 0;
    while !EndsHeaders(bytes)
      invariant bytes == Received(c, n)
      invariant |bytes| <= MAX_HEADERS
      invariant forall i :: 0 <= i < n ==> ReadsOn(c, deadline, i)
      decreases deadline - c(n).now, MAX_HEADERS - |bytes|
    {
      var turn := c(n);
      if turn.stopped || turn.now >= deadline || |bytes| >= MAX_HEADERS {
        assert EndsAt(c, deadline, n);
        assert Returns(c, deadline, utf8, Ok(None));
        return Ok(None);
      }
      match turn.arrival {
        case Closed =>
          assert EndsAt(c, deadline, n);
          return Ok(None);
        case Failed =>
          assert EndsAt(c, deadline, n);
          return Err(());
        case NothingYet =>
        case Data(offered) =>
          bytes := bytes + Chunk(turn.arrival, |bytes|);
      }
      assert c(n).now <= c(n + 1).now;
      n := n + 1;
    }
    assert EndsAt(c, deadline, n);
    return Ok(utf8(bytes));
  }

  // Lines and fields.

  const CRLF: string := "\r\n"

  /** `split("\r\n")`. */
  function Lines(s: string): (r: seq<string>)
    ensures r != []
    decreases |s|
  {
    match Find(s, CRLF)
    case None => [s]
    case Some(i) => [s[..i]] + Lines(s[i + 2..])
  }

  predicate At(s: string, i: nat, pattern: string) {
    i + |pattern| <= |s| && s[i..i + |pattern|] == pattern
  }

  lemma AtShifts(s: string, pattern: string)
    requires s != []
    ensures forall i: nat :: i > 0 ==> (At(s, i, pattern) <==> At(s[1..], i - 1, pattern))
  {
    forall i: nat | i > 0
      ensures At(s, i, pattern) <==> At(s[1..], i - 1, pattern)
    {
      if i + |pattern| <= |s| {
        assert s[1..][i - 1..i - 1 + |pattern|] == s[i..i + |pattern|];
      }
    }
  }

  /** The first occurrence. */
  function Find(s: string, pattern: string): (r: Option<nat>)
    requires pattern != []
    ensures r.Some? ==> At(s, r.value, pattern)
    ensures forall i: nat :: At(s, i, pattern) ==> r.Some? && r.value <= i
  {
    if |s| < |pattern| then None
    else if s[..|pattern|] == pattern then Some(0)
    else
      AtShifts(s, pattern);
      match Find(s[1..], pattern)
      case None => None
      case Some(i) => Some(i + 1)
  }

  function Joined(lines: seq<string>): string
    requires lines != []
  {
    if |lines| == 1 then lines[0] else lines[0] + ['\r', '\n'] + Joined(lines[1..])
  }

  ghost predicate HasBreak(line: string) {
    exists i: nat :: i + 1 < |line| && line[i] == '\r' && line[i + 1] == '\n'
  }

  lemma BreakIsPair(s: string, i: nat)
    ensures At(s, i, CRLF) <==> i + 1 < |s| && s[i] == '\r' && s[i + 1] == '\n'
  {
    assert CRLF == ['\r', '\n'];
    if i + 1 < |s| {
      assert s[i..i + 2] == [s[i], s[i + 1]];
    }
  }

  /** Splitting loses nothing and leaves no break inside a line. */
  lemma {:induction false} LinesSplit(s: string)
    ensures Joined(Lines(s)) == s
    ensures forall k :: 0 <= k < |Lines(s)| ==> !HasBreak(Lines(s)[k])
    decreases |s|
  {
    hide At, HasBreak;
    var found := Find(s, CRLF);
    if found.None? {
      WholeLine(s);
    } else {
      var i := found.value;
      FirstLine(s, i);
      LinesSplit(s[i + 2..]);
      assert Lines(s)[1..] == Lines(s[i + 2..]);
      assert s == s[..i] + ['\r', '\n'] + s[i + 2..];
    }
  }

  lemma WholeLine(s: string)
    requires forall i: nat :: !At(s, i, CRLF)
    ensures !HasBreak(s)
  {
    hide At;
    if i: nat :| i + 1 < |s| && s[i] == '\r' && s[i + 1] == '\n' {
      BreakIsPair(s, i);
      assert false;
    }
  }

  lemma FirstLine(s: string, i: nat)
    requires At(s, i, CRLF) && forall j: nat :: At(s, j, CRLF) ==> i <= j
    ensures !HasBreak(s[..i]) && i + 2 <= |s| && s[i] == '\r' && s[i + 1] == '\n'
  {
    hide At;
    BreakIsPair(s, i);
    if j: nat :| j + 1 < i && s[..i][j] == '\r' && s[..i][j + 1] == '\n' {
      BreakIsPair(s, j);
      assert false;
    }
  }

  datatype Field = Field(key: string, value: string)

  /** `split_once(':')`, the value trimmed. */
  function ReadField(line: string): Option<Field> {
    match Find(line, ":")
    case None => None
    case Some(i) => Some(Field(line[..i], Trim(line[i + 1..])))
  }

  /** The key of a field, whatever its case. */
  predicate Named(line: string, name: string) {
    ReadField(line).Some? && AsciiLowercase(ReadField(line).value.key) == name
  }

  function ValueOf(line: string): string
    requires ReadField(line).Some?
  {
    ReadField(line).value.value
  }

  /** A field is what stands before the first colon, and what stands after it without its outer whitespace. */
  lemma FieldExactly(line: string)
    ensures ReadField(line).None? <==> ':' !in line
    ensures ReadField(line).Some? ==>
              var field := ReadField(line).value;
              && ':' !in field.key && |field.key| < |line| && line[..|field.key|] == field.key
              && line[|field.key|] == ':' && field.value == Trim(line[|field.key| + 1..])
  {
    hide Trim, Find;
    match Find(line, ":")
    case None =>
      assert forall i :: 0 <= i < |line| && line[i] == ':' ==> At(line, i, ":");
    case Some(k) =>
      assert line[k..k + 1] == ":" && line[k] == ':';
      assert forall i :: 0 <= i < k && line[i] == ':' ==> At(line, i, ":");
  }

  // The header scan.

  /** What a single header line may say. */
  predicate Permitted(line: string, address: string) {
    && ReadField(line).Some?
    && (Named(line, "host") ==> ValueOf(line) == address)
    && (Named(line, "origin") ==> ValueOf(line) == "http://" + address)
    && (Named(line, "content-length") ==> ValueOf(line) == "0")
    && !Named(line, "transfer-encoding")
    && (Named(line, "sec-fetch-site") ==> ValueOf(line) != "cross-site")
  }

  function HostCount(lines: seq<string>): nat {
    if lines == [] then 0
    else HostCount(lines[..|lines| - 1]) + if Named(lines[|lines| - 1], "host") then 1 else 0
  }

  /** Every non-empty line is permitted and exactly one of them names the host. */
  ghost predicate Genuine(lines: seq<string>, address: string) {
    && AllPermitted(lines, address)
    && (exists i: nat :: OnlyHost(lines, i))
  }

  ghost predicate AllPermitted(lines: seq<string>, address: string) {
    forall i :: 0 <= i < |lines| && lines[i] != [] ==> Permitted(lines[i], address)
  }

  ghost predicate OnlyHost(lines: seq<string>, i: nat) {
    && i < |lines| && Named(lines[i], "host")
    && forall j :: 0 <= j < |lines| && Named(lines[j], "host") ==> j == i
  }

  lemma {:induction false} NoHost(lines: seq<string>)
    ensures HostCount(lines) == 0 <==> forall i :: 0 <= i < |lines| ==> !Named(lines[i], "host")
  {
    if lines != [] {
      hide Named;
      var prefix := lines[..|lines| - 1];
      NoHost(prefix);
      assert lines == prefix + [lines[|lines| - 1]];
    }
  }

  lemma {:induction false} OneHost(lines: seq<string>)
    ensures HostCount(lines) == 1 <==> exists i: nat :: OnlyHost(lines, i)
  {
    if lines != [] {
      hide Named;
      var k := |lines| - 1;
      var prefix := lines[..k];
      NoHost(prefix);
      OneHost(prefix);
      if Named(lines[k], "host") {
        assert OnlyHost(lines, k) <==> HostCount(prefix) == 0;
      } else {
        assert forall i: nat :: OnlyHost(lines, i) <==> OnlyHost(prefix, i);
      }
    }
  }

  /** The flag-updating scan decides exactly whether the headers are genuine. */
  method ScanHeaders(lines: seq<string>, address: string) returns (ok: bool)
    ensures ok <==> Genuine(lines, address)
  {
    var hostCount := 0;
    var valid := true;
    for k := 0 to |lines|
      invariant hostCount == HostCount(lines[..k])
      invariant valid <==> AllPermitted(lines[..k], address)
    {
      hide Named, ReadField, AsciiLowercase, HostCount, AllPermitted;
      var line := lines[k];
      ScanStep(lines, k, address);
      if line != [] {
        var field := ReadField(line);
        if field.None? {
          valid := false;
        } else {
          NamedKey(line);
          var key, value := AsciiLowercase(field.value.key), field.value.value;
          if key == "host" {
            hostCount := hostCount + 1;
            valid := valid && value == address;
          }
          if key == "origin" {
            valid := valid && value == "http://" + address;
          }
          if key == "content-length" {
            valid := valid && value == "0";
          }
          if key == "transfer-encoding" {
            valid := false;
          }
          if key == "sec-fetch-site" {
            valid := valid && value != "cross-site";
          }
        }
      }
    }
    assert lines[..|lines|] == lines;
    OneHost(lines);
    return valid && hostCount == 1;
  }

  lemma ScanStep(lines: seq<string>, k: nat, address: string)
    requires k < |lines|
    ensures HostCount(lines[..k + 1]) == HostCount(lines[..k]) + if Named(lines[k], "host") then 1 else 0
    ensures AllPermitted(lines[..k + 1], address) <==>
            AllPermitted(lines[..k], address) && (lines[k] == [] || Permitted(lines[k], address))
    ensures ReadField(lines[k]).None? ==> !Named(lines[k], "host")
    ensures lines[k] == [] ==> !Named(lines[k], "host")
  {
    hide Permitted, AsciiLowercase;
    assert lines[..k + 1] == lines[..k] + [lines[k]];
    assert Find("", ":") == None;
  }

  lemma NamedKey(line: string)
    requires ReadField(line).Some?
    ensures forall name :: Named(line, name) <==> AsciiLowercase(ReadField(line).value.key) == name
  {
  }

  // The answers.

  datatype Status = Ok200 | Forbidden403 | NotFound404 | Gone410

  /** The request line, for the path of the current link. */
  datatype Verb = Get | Post | Other

  function ReadVerb(line: string, path: string): Verb {
    if line == "GET " + path + " HTTP/1.1" then Get
    else if line == "POST " + path + " HTTP/1.1" then Post
    else Other
  }

  /** The request lines of the link, word for word. */
  lemma VerbExactly(line: string, path: string)
    ensures ReadVerb(line, path).Get? <==> line == ['G', 'E', 'T', ' '] + path + " HTTP/1.1"
    ensures ReadVerb(line, path).Post? <==> line == ['P', 'O', 'S', 'T', ' '] + path + " HTTP/1.1"
  {
    var get, post := ['G', 'E', 'T', ' '] + path + " HTTP/1.1", ['P', 'O', 'S', 'T', ' '] + path + " HTTP/1.1";
    assert "GET " == ['G', 'E', 'T', ' '] && "POST " == ['P', 'O', 'S', 'T', ' '];
    assert get[0] != post[0];
  }

  ghost predicate GenuineRequest(headers: string, address: string) {
    Genuine(Lines(headers)[1..], address)
  }

  ghost predicate Dismisses(headers: string, address: string, path: string) {
    GenuineRequest(headers, address) && ReadVerb(Lines(headers)[0], path).Post?
  }

  /** A genuine request for the link, reading or dismissing. */
  ghost predicate Addressed(headers: string, address: string, path: string) {
    GenuineRequest(headers, address) && !ReadVerb(Lines(headers)[0], path).Other?
  }

  ghost function Answer(headers: string, address: string, path: string, done: bool): Status {
    if !GenuineRequest(headers, address) then Forbidden403
    else if ReadVerb(Lines(headers)[0], path).Other? then NotFound404
    else if done then Gone410
    else Ok200
  }

  /** The flag after serving all requests. */
  ghost function DoneAfter(requests: seq<string>, address: string, path: string): bool {
    requests != [] &&
    var last := requests[|requests| - 1];
    var before := DoneAfter(requests[..|requests| - 1], address, path);
    before || (Answer(last, address, path, before).Ok200? && ReadVerb(Lines(last)[0], path).Post?)
  }

  ghost function AnswerTo(requests: seq<string>, i: nat, address: string, path: string): Status
    requires i < |requests|
  {
    Answer(requests[i], address, path, DoneAfter(requests[..i], address, path))
  }

  lemma {:induction false} DoneMeansDismissed(requests: seq<string>, address: string, path: string)
    ensures DoneAfter(requests, address, path)
            <==> exists j :: 0 <= j < |requests| && Dismisses(requests[j], address, path)
  {
    hide Dismisses, DoneAfter;
    if requests == [] {
      NothingServed(address, path);
    } else {
      var k := |requests| - 1;
      DoneMeansDismissed(requests[..k], address, path);
      OneMoreServed(requests, address, path);
      assert requests == requests[..k] + [requests[k]];
    }
  }

  lemma NothingServed(address: string, path: string)
    ensures !DoneAfter([], address, path)
  {
  }

  /** Only a genuine POST to the link sets the flag. */
  lemma OneMoreServed(requests: seq<string>, address: string, path: string)
    requires requests != []
    ensures var k := |requests| - 1;
            DoneAfter(requests, address, path)
            <==> DoneAfter(requests[..k], address, path) || Dismisses(requests[k], address, path)
  {
    hide GenuineRequest, ReadVerb;
  }

  /**
   * Over any sequence of requests: the first genuine POST to the link dismisses and is the only POST
   * answered with success; genuine requests to the link succeed before it and are gone after it.
   */
  lemma DismissedOnce(requests: seq<string>, i: nat, address: string, path: string)
    requires i < |requests|
    ensures var dismissedBefore := exists j :: 0 <= j < i && Dismisses(requests[j], address, path);
            && (AnswerTo(requests, i, address, path).Gone410?
                <==> Addressed(requests[i], address, path) && dismissedBefore)
            && (AnswerTo(requests, i, address, path).Ok200?
                <==> Addressed(requests[i], address, path) && !dismissedBefore)
            && (DoneAfter(requests[..i + 1], address, path) != DoneAfter(requests[..i], address, path)
                <==> Dismisses(requests[i], address, path) && !dismissedBefore)
  {
    hide GenuineRequest, ReadVerb, DoneAfter;
    var before, after := requests[..i], requests[..i + 1];
    DoneMeansDismissed(before, address, path);
    DoneMeansDismissed(after, address, path);
    assert after == before + [requests[i]];
  }

  class Session {
    const address: string
    const path: string
    var done: bool
    ghost var served: seq<string>

    ghost predicate Valid()
      reads this
    {
      done == DoneAfter(served, address, path)
    }

    constructor (address: string, path: string)
      ensures Valid() && served == [] && this.address == address && this.path == path
    {
      this.address := address;
      this.path := path;
      done, served := false, [];
    }

    /** `serve`: a connection without complete headers changes nothing. The worker serves one at a time. */
    method Serve(c: Connection, start: Instant, utf8: Bytes -> Option<string>)
      returns (status: Option<Status>, ghost headers: Result<Option<string>, ()>)
      requires Valid() && Plausible(c)
      modifies this
      ensures Valid()
      ensures Returns(c, start + 1_000_000_000, utf8, headers)
      ensures match headers
              case Ok(Some(text)) =>
                served == old(served) + [text] && status == Some(AnswerTo(served, |old(served)|, address, path))
              case _ => served == old(served) && done == old(done) && status.None?
    {
      hide DoneAfter, Answer, Returns;
      var read := ReadHeaders(c, start, utf8);
      headers := read;
      if read.Err? || read.value.None? {
        status := None;
        return;
      }
      var answer := Respond(read.value.value);
      status := Some(answer);
    }

    method Respond(headers: string) returns (status: Status)
      requires Valid()
      modifies this
      ensures Valid() && served == old(served) + [headers]
      ensures status == AnswerTo(served, |old(served)|, address, path)
    {
      hide DoneAfter, Genuine, ReadVerb;
      var lines := Lines(headers);
      var genuine := ScanHeaders(lines[1..], address);
      var verb := ReadVerb(lines[0], path);
      ServedOneMore(headers);
      served := served + [headers];
      assert served[..|old(served)|] == old(served);
      if !genuine {
        return Forbidden403;
      }
      if verb.Other? {
        return NotFound404;
      }
      if done {
        return Gone410;
      }
      if verb.Post? {
        done := true;
      }
      return Ok200;
    }

    lemma ServedOneMore(headers: string)
      ensures var before := DoneAfter(served, address, path);
              DoneAfter(served + [headers], address, path) ==
              (before || (Answer(headers, address, path, before).Ok200? && ReadVerb(Lines(headers)[0], path).Post?))
    {
      assert (served + [headers])[..|served|] == served;
    }
  }
}
