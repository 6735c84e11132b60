/** The resilience state machine of `system_status`: the simulated power outage and battery
    backup, the depletion poll, power restore, self-healing and the camera-fault counter.
    Each handler's effect on the status record is a function of the old record and the
    clock reading `now` (whole seconds of `time.time()`); the log entries and alerts the
    handlers write are in the hub. */
module Resilience {
  import opened Wrappers

  /** `system_status`: start time, backup flag, time of the last self-heal, fault count and
      the time the battery runs out. */
  datatype Status = Status(
    uptime: int,
    batteryBackup: bool,
    lastSelfHeal: Option<int>,
    faults: int,
    depletionTime: Option<int>)

  /** `time.time() + 300`: the battery lasts five minutes. */
  const BatteryLife: int := 300
  /** `faults >= 3` triggers the critical alert and a self-heal. */
  const FaultThreshold: int := 3

  /** The record a new session starts with. */
  function Initial(now: int): (s: Status)
    ensures Coherent(s) && s.uptime == now
    ensures !s.batteryBackup && s.faults == 0 && s.depletionTime.None? && s.lastSelfHeal.None?
  {
    Status(now, false, None, 0, None)
  }

  /** What every reachable record satisfies: a deadline only while on battery, and a fault
      count below the threshold between handlers. */
  predicate Coherent(s: Status) {
    (s.depletionTime.Some? ==> s.batteryBackup) && 0 <= s.faults < FaultThreshold
  }

  /** `simulate_power_outage`: switch to battery with a deadline five minutes out, unless
      already on battery. */
  function Outage(s: Status, now: int): Status {
    if s.batteryBackup then s
    else s.(batteryBackup := true, depletionTime := Some(now + BatteryLife))
  }

  /** `if depletion_time and time.time() >= depletion_time`, on battery: Python's truth test
      makes a missing deadline and a deadline of 0 both false. */
  predicate DepletionDue(s: Status, now: int) {
    s.batteryBackup && s.depletionTime.Some? && s.depletionTime.value != 0 && now >= s.depletionTime.value
  }

  /** `check_battery_status`: when the deadline has passed, leave battery mode and drop the
      deadline; otherwise nothing changes. */
  function Poll(s: Status, now: int): Status {
    if DepletionDue(s, now) then s.(batteryBackup := false, depletionTime := None) else s
  }

  /** The "Restore Power" button: leave battery mode and drop the deadline when on battery. */
  function Restored(s: Status): Status {
    if s.batteryBackup then s.(batteryBackup := false, depletionTime := None) else s
  }

  /** `self_heal`: clear the fault count, record the time and switch the backup flag on,
      leaving the deadline as it was. */
  function Healed(s: Status, now: int): Status {
    s.(faults := 0, lastSelfHeal := Some(now), batteryBackup := true)
  }

  /** Whether one more camera failure reaches the threshold. */
  predicate FaultTrips(s: Status) {
    s.faults + 1 >= FaultThreshold
  }

  /** `handle_camera_failure`: count the fault, and self-heal once the count reaches 3. */
  function Faulted(s: Status, now: int): Status {
    var counted := s.(faults := s.faults + 1);
    if FaultTrips(s) then Healed(counted, now) else counted
  }

  /** An outage sets the deadline `now + 300` and the poll then fires exactly from that time
      on (the clock reading of 0 is the only deadline the truth test ignores). */
  lemma OutageThenPoll(s: Status, outageTime: int, now: int)
    requires !s.batteryBackup && outageTime + BatteryLife != 0
    ensures Outage(s, outageTime).batteryBackup
    ensures Outage(s, outageTime).depletionTime == Some(outageTime + BatteryLife)
    ensures DepletionDue(Outage(s, outageTime), now) <==> now >= outageTime + BatteryLife
    ensures now >= outageTime + BatteryLife ==>
      var after := Poll(Outage(s, outageTime), now);
      !after.batteryBackup && after.depletionTime.None? && after.faults == s.faults
  {
  }

  /** A second outage while on battery changes nothing: the first deadline stands. */
  lemma OutageIdempotent(s: Status, first: int, second: int)
    ensures Outage(Outage(s, first), second) == Outage(s, first)
  {
  }

  /** Self-heal while off battery switches the flag on without a deadline, so no later poll
      ever ends that battery mode: only a restore does. */
  lemma SelfHealStrandsBackup(s: Status, healTime: int, now: int)
    requires Coherent(s) && !s.batteryBackup
    ensures Healed(s, healTime).batteryBackup && Healed(s, healTime).depletionTime.None?
    ensures !DepletionDue(Healed(s, healTime), now)
    ensures Poll(Healed(s, healTime), now) == Healed(s, healTime)
    ensures !Restored(Healed(s, healTime)).batteryBackup
  {
  }

  /** After a restore nothing is left for the poll to do. */
  lemma RestoreThenPoll(s: Status, now: int)
    ensures !Restored(s).batteryBackup && (s.batteryBackup ==> Restored(s).depletionTime.None?)
    ensures Poll(Restored(s), now) == Restored(s)
  {
  }

  /** Each handler keeps the record coherent; a self-heal needs only the deadline half,
      since it runs with the count at the threshold. */
  lemma TransitionsKeepCoherent(s: Status, now: int)
    requires Coherent(s)
    ensures Coherent(Outage(s, now)) && Coherent(Poll(s, now)) && Coherent(Restored(s))
    ensures Coherent(Faulted(s, now))
    ensures Coherent(Healed(s.(faults := FaultThreshold), now))
  {
  }

  /** The record after a run of camera failures at the given times. */
  function FailuresAt(s: Status, times: seq<int>): Status
  {
    if times == [] then s else Faulted(FailuresAt(s, times[..|times| - 1]), times[|times| - 1])
  }

  /** From a coherent record the fault count runs 0, 1, 2, 0, ...: after `n` failures it is
      `(faults + n) % 3`, and it never reaches the threshold between handlers. */
  lemma {:induction false} FaultCycle(s: Status, times: seq<int>)
    requires Coherent(s)
    ensures FailuresAt(s, times).faults == (s.faults + |times|) % FaultThreshold
    ensures Coherent(FailuresAt(s, times))
  {
    if times != [] {
      var before := FailuresAt(s, times[..|times| - 1]);
      FaultCycle(s, times[..|times| - 1]);
      TransitionsKeepCoherent(before, times[|times| - 1]);
      assert (s.faults + |times| - 1) % FaultThreshold + 1 == FaultThreshold
        ==> (s.faults + |times|) % FaultThreshold == 0;
      assert (s.faults + |times| - 1) % FaultThreshold + 1 < FaultThreshold
        ==> (s.faults + |times|) % FaultThreshold == (s.faults + |times| - 1) % FaultThreshold + 1;
    }
  }

  /** The third failure in a row from a clean record self-heals: the count is back to 0. */
  lemma ThirdFailureHeals(s: Status, t1: int, t2: int, t3: int)
    requires Coherent(s) && s.faults == 0
    ensures FailuresAt(s, [t1, t2]).faults == 2
    ensures FailuresAt(s, [t1, t2, t3]) == Healed(FailuresAt(s, [t1, t2]).(faults := 3), t3)
  {
    assert [t1][..0] == [];
    assert FailuresAt(s, [t1]) == Faulted(s, t1);
    assert [t1, t2][..1] == [t1];
    assert FailuresAt(s, [t1, t2]) == Faulted(Faulted(s, t1), t2);
    assert [t1, t2, t3][..2] == [t1, t2];
  }

  /** `get_uptime` on whole seconds: the elapsed time split into hours, minutes and seconds
      by floor division, as `divmod` does. */
  function UptimeParts(start: int, now: int): (hms: (int, int, int))
    ensures hms.0 * 3600 + hms.1 * 60 + hms.2 == now - start
    ensures 0 <= hms.1 < 60 && 0 <= hms.2 < 60
  {
    var elapsed := now - start;
    var remainder := elapsed % 3600;
    (elapsed / 3600, remainder / 60, remainder % 60)
  }
}
