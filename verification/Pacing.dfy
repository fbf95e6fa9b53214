// How often a timer that re-arms after each attempt, or a resume that overrides it, lets attempts through.
module Pacing {
  import opened Clock

  /** One turn of a loop: its time, whether a resume forced it, whether an attempt was made. */
  datatype Beat = Beat(at: Instant, resumed: bool, attempted: bool)

  /** Time moves forward, and an attempt nobody forced comes a period after every earlier one. */
  ghost predicate Paced(beats: seq<Beat>, period: nat) {
    && (forall i, j :: 0 <= i < j < |beats| ==> beats[i].at <= beats[j].at)
    && (forall i, j :: 0 <= i < j < |beats| && beats[i].attempted && beats[j].attempted && !beats[j].resumed ==>
          beats[i].at + period <= beats[j].at)
  }

  /** The timer stands a period after every attempt so far. */
  ghost predicate Armed(beats: seq<Beat>, period: nat, next: Instant, now: Instant) {
    forall i :: 0 <= i < |beats| ==> beats[i].at <= now && (beats[i].attempted ==> beats[i].at + period <= next)
  }

  function Attempts(beats: seq<Beat>): nat {
    if beats == [] then 0
    else Attempts(beats[..|beats| - 1]) + if beats[|beats| - 1].attempted then 1 else 0
  }

  function Resumes(beats: seq<Beat>): nat {
    if beats == [] then 0
    else Resumes(beats[..|beats| - 1]) + if beats[|beats| - 1].resumed then 1 else 0
  }

  /** A turn that attempts only when due or forced, and re-arms no earlier than it ends, keeps the pace. */
  lemma BeatKeepsPace(beats: seq<Beat>, period: nat, next: Instant, now: Instant, beat: Beat, armed: Instant,
                      done: Instant)
    requires Paced(beats, period) && Armed(beats, period, next, now)
    requires now <= beat.at <= done
    requires beat.attempted && !beat.resumed ==> next <= beat.at
    requires armed == if beat.attempted then done + period else next
    ensures Paced(beats + [beat], period) && Armed(beats + [beat], period, armed, done)
  {
  }

  /** Some attempt comes as many periods after the first turn as unforced attempts went before it. */
  lemma {:induction false} AttemptsNeedTime(beats: seq<Beat>, period: nat) returns (p: nat)
    requires Paced(beats, period) && period > 0 && Attempts(beats) > 0
    ensures p < |beats| && beats[p].attempted
    ensures Attempts(beats) <= 1 + Resumes(beats) + (beats[p].at - beats[0].at) / period
  {
    var n := |beats| - 1;
    var before := beats[..n];
    if Attempts(before) == 0 {
      p := n;
      DivisionGrows(0, beats[n].at - beats[0].at, period);
    } else {
      var q := AttemptsNeedTime(before, period);
      p := if beats[n].attempted then n else q;
      DivisionGrows(beats[q].at - beats[0].at, beats[p].at - beats[0].at, period);
    }
  }

  lemma DivisionGrows(x: int, y: int, d: nat)
    requires d > 0 && x <= y
    ensures x / d <= y / d
    ensures x + d <= y ==> x / d + 1 <= y / d
  {
    var a, b := x / d, y / d;
    assert x == a * d + x % d && y == b * d + y % d;
    ProductGrows(b + 1, a, d);
    ProductGrows(b, a, d);
  }

  lemma ProductGrows(a: int, b: int, d: nat)
    ensures a <= b ==> a * d <= b * d
  {
    if a <= b {
      assert (b - a) * d >= 0;
    }
  }

  /** In any window of `span`: one attempt, one for each period that fits, and one for each resume. */
  lemma WindowBound(beats: seq<Beat>, period: nat, from: nat, to: nat, span: nat)
    requires Paced(beats, period) && period > 0
    requires from < to <= |beats| && beats[to - 1].at - beats[from].at <= span
    ensures Attempts(beats[from..to]) <= 1 + span / period + Resumes(beats[from..to])
  {
    var window := beats[from..to];
    assert Paced(window, period);
    if Attempts(window) > 0 {
      var p := AttemptsNeedTime(window, period);
      assert window[p].at <= window[|window| - 1].at;
      DivisionGrows(window[p].at - window[0].at, span, period);
    } else {
      DivisionGrows(0, span, period);
    }
  }

  // The counts are those of the turns that attempt, or that a resume forced.

  lemma {:induction false} AttemptsExactly(beats: seq<Beat>)
    ensures Attempts(beats) == |set i | 0 <= i < |beats| && beats[i].attempted|
  {
    if beats != [] {
      var n := |beats| - 1;
      AttemptsExactly(beats[..n]);
      var before := set i | 0 <= i < n && beats[..n][i].attempted;
      var all := set i | 0 <= i < |beats| && beats[i].attempted;
      assert all == before + if beats[n].attempted then {n} else {};
    }
  }

  lemma {:induction false} ResumesExactly(beats: seq<Beat>)
    ensures Resumes(beats) == |set i | 0 <= i < |beats| && beats[i].resumed|
  {
    if beats != [] {
      var n := |beats| - 1;
      ResumesExactly(beats[..n]);
      var before := set i | 0 <= i < n && beats[..n][i].resumed;
      var all := set i | 0 <= i < |beats| && beats[i].resumed;
      assert all == before + if beats[n].resumed then {n} else {};
    }
  }
}
