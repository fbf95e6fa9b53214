// Which trusted keys the loop checks in with: they are re-read with the credentials, not with every iteration.
module KeysInUse {
  import opened Wrappers
  import opened MachineInts
  import opened Hex
  import opened Clock
  import opened AgentConfiguration
  import opened Enrollment
  import opened AgentLoop
  import opened ClientRule

  type Keys = map<U64, string>

  /** The attempt of an iteration got as far as reading the configuration. */
  predicate AttemptRead(e: Entry) {
    e.attempt.Some? && e.attempt.value !in {Err(LockFailed), Err(ConfigUnreadable)}
  }

  /** The keys on disk at the latest reload or attempt; before the first, those the run started with. */
  function KeysKnown(start: Keys, log: seq<Entry>): Keys {
    if log == [] then start
    else
      var e := log[|log| - 1];
      if AttemptRead(e) && e.asked.config.Stored? then e.asked.config.config.trustedKeys
      else if e.reloaded && e.seen.config.Stored? then e.seen.config.config.trustedKeys
      else KeysKnown(start, log[..|log| - 1])
  }

  /** Every check-in so far went out with the keys known in its iteration. */
  ghost predicate KeysFit(start: Keys, log: seq<Entry>) {
    forall j :: 0 <= j < |log| && log[j].checkIn.Some? ==> log[j].checkIn.value.keys == KeysKnown(start, log[..j + 1])
  }

  /** One more entry, and the keys in memory after it. */
  lemma EntryKeys(start: Keys, log: seq<Entry>, loop: Loop, d: Directory, t: Tick, e: Entry, after: Loop)
    requires Explains(loop, d, t, e, after) && loop.config.trustedKeys == KeysKnown(start, log)
    ensures after.config.trustedKeys == KeysKnown(start, log + [e])
    ensures e.checkIn.Some? ==> e.checkIn.value.keys == KeysKnown(start, log + [e])
  {
    hide CheckedOrEnrolled;
    assert (log + [e])[..|log|] == log;
    AttemptReadsKeys(e.asked, if e.reloaded then d.config.config else loop.config, None, e.exchange);
  }

  lemma KeysFitGrows(start: Keys, log: seq<Entry>, e: Entry)
    requires KeysFit(start, log) && (e.checkIn.Some? ==> e.checkIn.value.keys == KeysKnown(start, log + [e]))
    ensures KeysFit(start, log + [e])
  {
    hide KeysKnown;
    var longer := log + [e];
    assert longer[..|log| + 1] == longer;
    assert forall j :: 0 <= j < |log| ==> longer[..j + 1] == log[..j + 1] && longer[j] == log[j];
  }

  lemma AdvanceKeys(setting: Setting, start: Keys, h: History, t: Tick)
    requires h.exit.None? && h.loop.config.trustedKeys == KeysKnown(start, h.log) && KeysFit(start, h.log)
    ensures var next := Advanced(setting, h, t);
            && (next.exit.None? ==> next.loop.config.trustedKeys == KeysKnown(start, next.log))
            && KeysFit(start, next.log)
  {
    hide Advanced, KeysKnown, KeysFit, Explains;
    AdvanceExplains(setting, h, t);
    var next := Advanced(setting, h, t);
    if next.log != h.log {
      var e := next.log[|h.log|];
      assert next.log == h.log + [e];
      EntryKeys(start, h.log, h.loop, Edited(h, t).directory, t, e, next.loop);
      KeysFitGrows(start, h.log, e);
    }
  }

  /** Every check-in of every run uses the keys that were on disk at the latest reload or attempt. */
  lemma {:induction false} KeysTheorem(setting: Setting, h: History, ticks: seq<Tick>)
    requires h.log == []
    ensures var done, start := Execute(setting, h, ticks), h.loop.config.trustedKeys;
            && KeysFit(start, done.log)
            && (done.exit.None? ==> done.loop.config.trustedKeys == KeysKnown(start, done.log))
  {
    if ticks != [] {
      hide Advanced, KeysFit, KeysKnown;
      var before := Execute(setting, h, ticks[..|ticks| - 1]);
      KeysTheorem(setting, h, ticks[..|ticks| - 1]);
      if before.exit.None? {
        AdvanceKeys(setting, h.loop.config.trustedKeys, before, ticks[|ticks| - 1]);
      }
    }
  }

  /** A key added between two iterations, and nothing else, is on disk while the next check-in still carries none. */
  lemma AddedKeyWaits(device: Uuid, token: string, key: string) returns (h: History, ticks: seq<Tick>)
    ensures Initial(h) && InOrder(h.clock, ticks) && h.loop.config.trustedKeys == map[]
    ensures var log := Execute(Setting(false, true), h, ticks).log;
            && |log| == 2 && log[0].attempt == Some(Ok(()))
            && log[1].seen.config == Stored(h.loop.config.Trusting(1, key))
            && log[1].checkIn.Some? && log[1].checkIn.value.keys == map[]
  {
    var setting := Setting(false, true);
    h := EnrolledStart(device, token);
    var edited := h.directory.(config := Stored(h.loop.config.Trusting(1, key)));
    ticks := [PlainTick(0, Registered(true), None), PlainTick(60 * SECOND, NoAnswer, Some(edited))];
    assert Execute(setting, h, ticks[..1][..0]) == h;
    var first := Execute(setting, h, ticks[..1]);
    assert first == Advanced(setting, h, ticks[0]);
    assert first.log[0].attempt == Some(Ok(()));
    assert Execute(setting, h, ticks) == Advanced(setting, first, ticks[1]);
  }
}
