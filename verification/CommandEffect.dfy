// What a published command does to the screen that reads it.
module CommandEffect {
  import opened CommandSecurity
  import opened Wrappers
  import opened RemoteSync
  import opened SyncProtocol
  import LockScreen

  /**
   * Over every schedule: while a published command is on disk, a refresh of the lock screen is locked by it
   * exactly if it is a LOCK, unless a local release overrides the stamp it was published with.
   */
  lemma OnlyLockLocksScreen(crypto: Crypto, s: System, schedule: Schedule, p: Pid, track: LockScreen.Tracking)
    requires Quiescent(s) && Exec(crypto, s, schedule).PhaseOf(p).CommandSaved?
    ensures var now := Exec(crypto, s, schedule);
            var command := now.PhaseOf(p).command;
            && now.document.Saved?
            && var remote := now.document.state.remote;
               LockScreen.Refresh(track, remote).locked <==>
                 command.action.Lock? && track.overrideAt != Some(remote.checkedAt)
  {
    hide Exec, Step, Carries, VerifyPatchBinding, VerifyCommandPatch;
    VerdictsMatchDisk(crypto, s, schedule, p);
  }
}
