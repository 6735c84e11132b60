/** The session of the security hub (`st.session_state` together with the saved face
    database) and the handlers that change it: logging and alerts, the appliance controls
    and the control-panel reconciliation, the power and fault handlers, the credential
    checks, face enrollment and authentication, and clearing the database. Every handler
    takes one clock `Reading` that all its entries and alerts share. */
module SecurityHub {
  import opened Wrappers
  import opened Ledger
  import opened Camera
  import opened FaceStore
  import opened Matching
  import opened Enrollment
  import opened Resilience

  const AdminPassword: string := "admin123"
  const FallbackPin: string := "123456"
  /** The simulated RFID database: card id to user. */
  const RfidDatabase: map<string, string> := map["card1" := "Admin", "card2" := "Guest"]
  /** `log_event`'s default user; no handler passes another. */
  const SystemUser: CommaFree := "System"
  /** The user a successful PIN check logs in. */
  const PinUser: string := "Fallback User"

  /** `st.session_state.appliances`. */
  datatype Appliances = Appliances(light: bool, security: bool, tv: bool)

  /** The line `log_event(event, details)` appends. */
  function LogLine(r: Reading, event: EventType, details: string): string {
    Entry(LogRecord(r.stamp, event.Name(), SystemUser, details))
  }

  /** The alert `send_alert(message, level)` appends. */
  function Raised(r: Reading, message: string, level: Level): Alert {
    Alert(r.clock, message, level, false)
  }

  /** `n` copies of `x`. */
  function Repeat<T>(x: T, n: nat): (copies: seq<T>)
    ensures |copies| == n && forall i :: 0 <= i < n ==> copies[i] == x
  {
    if n == 0 then [] else Repeat(x, n - 1) + [x]
  }

  function LightDetails(on: bool): string { "Light turned " + if on then "ON" else "OFF" }
  function SecurityDetails(armed: bool): string { "Security system " + if armed then "ARMED" else "DISARMED" }
  function TvDetails(on: bool): string { "TV turned " + if on then "ON" else "OFF" }

  /** The one entry `line` when `c` holds, no entry otherwise. */
  function When(c: bool, line: string): seq<string> {
    if c then [line] else []
  }

  /** The entries of the shutdown after depletion: one "off" entry per appliance that was on,
      in the order light, security, TV. */
  function ShutdownEntries(a: Appliances, r: Reading): seq<string> {
    When(a.light, LogLine(r, ApplianceControl, LightDetails(false)))
    + When(a.security, LogLine(r, ApplianceControl, SecurityDetails(false)))
    + When(a.tv, LogLine(r, ApplianceControl, TvDetails(false)))
  }

  /** The entries `check_battery_status` writes. */
  function PollEntries(s: Status, a: Appliances, r: Reading): seq<string> {
    if DepletionDue(s, r.now) then [LogLine(r, SystemEvent, "Battery depleted - system shutdown")] + ShutdownEntries(a, r)
    else []
  }

  /** The alerts `check_battery_status` raises. */
  function PollAlerts(s: Status, r: Reading): seq<Alert> {
    if DepletionDue(s, r.now) then [Raised(r, "Battery depleted! System shutting down", Critical)] else []
  }

  /** The entries `self_heal` writes. */
  function HealEntries(r: Reading): seq<string> {
    [LogLine(r, SystemEvent, "Self-healing initiated"), LogLine(r, SystemEvent, "Self-healing completed successfully")]
  }

  /** The alerts `self_heal` raises: one, when it switches the backup flag on. */
  function HealAlerts(s: Status, r: Reading): seq<Alert> {
    if s.batteryBackup then [] else [Raised(r, "System recovered from fault condition", Info)]
  }

  /** The entries `handle_camera_failure` writes, including a self-heal's. */
  function FaultEntries(s: Status, r: Reading): seq<string> {
    [LogLine(r, SystemError, "Camera failure detected")] + if FaultTrips(s) then HealEntries(r) else []
  }

  /** The alerts `handle_camera_failure` raises, including a self-heal's. */
  function FaultAlerts(s: Status, r: Reading): seq<Alert> {
    if FaultTrips(s) then [Raised(r, "Critical hardware failure detected", Critical)] + HealAlerts(s, r) else []
  }

  /** The entries the reconciliation in `home_control` writes: one per changed switch whose
      control call went through (light and TV are refused on battery). */
  function ControlEntries(before: Appliances, requested: Appliances, onBattery: bool, r: Reading): seq<string> {
    When(before.light != requested.light && !onBattery, LogLine(r, ApplianceControl, LightDetails(requested.light)))
    + When(before.security != requested.security, LogLine(r, ApplianceControl, SecurityDetails(requested.security)))
    + When(before.tv != requested.tv && !onBattery, LogLine(r, ApplianceControl, TvDetails(requested.tv)))
  }

  /** The entries of a scan that ends on a failed read: the entry naming the failure, then
      `handle_camera_failure`'s; none when the scan did not fail. */
  function FaultPath(failed: bool, details: string, s: Status, r: Reading): seq<string> {
    if failed then [LogLine(r, SystemError, details)] + FaultEntries(s, r) else []
  }

  /** The alerts of a scan that ends on a failed read. */
  function FaultPathAlerts(failed: bool, s: Status, r: Reading): seq<Alert> {
    if failed then FaultAlerts(s, r) else []
  }

  /** One entry per face labelled "Unknown". */
  function IntruderLines(count: nat, r: Reading): seq<string> {
    Repeat(LogLine(r, SecurityAlert, "Unauthorized face detected"), count)
  }

  /** One critical alert per face labelled "Unknown". */
  function IntruderAlerts(count: nat, r: Reading): seq<Alert> {
    Repeat(Raised(r, "Intruder alert! Unknown face detected", Critical), count)
  }

  /** The warning raised when a face authentication is denied. */
  function DenialAlerts(recognized: Option<string>, r: Reading): seq<Alert> {
    if recognized.Some? then [] else [Raised(r, "Authentication failed", Warning)]
  }

  /** The entry that ends a registration: the new user, or the low-quality failure. */
  function CommitLine(userName: string, encoding: Option<Encoding>, r: Reading): string {
    if encoding.Some? then LogLine(r, AdminAction, "Registered new user: " + userName)
    else LogLine(r, SystemEvent, "Face registration failed - low quality")
  }

  /** The entry that ends a face authentication: the success with the name, or the denial. */
  function OutcomeLine(recognized: Option<string>, r: Reading): string {
    if recognized.Some? then LogLine(r, Access, "Face authentication successful: " + recognized.value)
    else LogLine(r, Access, "Face authentication failed")
  }

  /** Appending three runs of entries one after the other appends their concatenation. */
  lemma AppendThree<T>(logs: seq<T>, a: seq<T>, b: seq<T>, c: seq<T>)
    ensures logs + a + b + c == logs + (a + b + c)
  {
  }

  /** `RFID_DATABASE.get(rfid_id)` followed by Python's truth test on the user. */
  function RfidUser(card: string): (user: Option<string>)
    ensures user.Some? <==> card == "card1" || card == "card2"
    ensures user.Some? ==> user.value == RfidDatabase[card] && user.value != ""
  {
    if card in RfidDatabase && RfidDatabase[card] != "" then Some(RfidDatabase[card]) else None
  }

  class Hub {
    var authenticated: bool
    var currentUser: Option<string>
    var appliances: Appliances
    var simulationMode: bool
    var accessLogs: seq<string>
    var alerts: seq<Alert>
    var status: Status
    var clearDbMode: bool
    /** The saved face database, in key order. */
    var store: Store

    /** The status record is coherent, the database has one entry per name and every log
        line splits into the four table columns. */
    ghost predicate Valid()
      reads this
    {
      Coherent(status) && UniqueLabels(store) && WellFormed(accessLogs)
    }

    /** The session-state initialisation, with the database saved so far. */
    constructor (start: int, saved: Store)
      requires UniqueLabels(saved)
      ensures Valid()
      ensures !authenticated && currentUser.None? && appliances == Appliances(false, false, false)
      ensures simulationMode && accessLogs == [] && alerts == [] && !clearDbMode
      ensures status == Initial(start) && store == saved
    {
      authenticated := false;
      currentUser := None;
      appliances := Appliances(false, false, false);
      simulationMode := true;
      accessLogs := [];
      alerts := [];
      status := Initial(start);
      clearDbMode := false;
      store := saved;
    }

    /** The rows of the "Access Logs" table: the last ten entries, each with four columns. */
    function LogTable(): (rows: seq<seq<string>>)
      reads this
      requires Valid()
      ensures |rows| <= DisplayedEntries
      ensures forall i :: 0 <= i < |rows| ==> |rows[i]| == 4
    {
      LogRowsHaveFourColumns(accessLogs);
      LogRows(accessLogs)
    }

    /** `log_event`: append one formatted entry. */
    method LogEvent(event: EventType, details: string, r: Reading)
      requires WellFormed(accessLogs)
      modifies this`accessLogs
      ensures WellFormed(accessLogs)
      ensures accessLogs == old(accessLogs) + [LogLine(r, event, details)]
    {
      WellFormedAppend(accessLogs, LogRecord(r.stamp, event.Name(), SystemUser, details));
      accessLogs := accessLogs + [LogLine(r, event, details)];
    }

    /** `send_alert`: append one unacknowledged alert. */
    method SendAlert(message: string, level: Level, r: Reading)
      modifies this`alerts
      ensures alerts == old(alerts) + [Raised(r, message, level)]
    {
      alerts := alerts + [Raised(r, message, level)];
    }

    /** `control_light`: refused on battery; otherwise one entry, in either mode. The
        appliance map is not touched. */
    method ControlLight(on: bool, r: Reading) returns (ok: bool)
      requires WellFormed(accessLogs)
      modifies this`accessLogs
      ensures WellFormed(accessLogs)
      ensures ok == !status.batteryBackup
      ensures accessLogs == old(accessLogs) + When(ok, LogLine(r, ApplianceControl, LightDetails(on)))
    {
      if status.batteryBackup {
        return false;
      }
      // Simulation and device mode write the same entry; only the on-screen note differs.
      LogEvent(ApplianceControl, LightDetails(on), r);
      return true;
    }

    /** `control_security_system`: never refused, one entry. */
    method ControlSecuritySystem(armed: bool, r: Reading) returns (ok: bool)
      requires WellFormed(accessLogs)
      modifies this`accessLogs
      ensures WellFormed(accessLogs)
      ensures ok
      ensures accessLogs == old(accessLogs) + [LogLine(r, ApplianceControl, SecurityDetails(armed))]
    {
      LogEvent(ApplianceControl, SecurityDetails(armed), r);
      return true;
    }

    /** `control_tv`: refused on battery; otherwise one entry, in either mode. */
    method ControlTv(on: bool, r: Reading) returns (ok: bool)
      requires WellFormed(accessLogs)
      modifies this`accessLogs
      ensures WellFormed(accessLogs)
      ensures ok == !status.batteryBackup
      ensures accessLogs == old(accessLogs) + When(ok, LogLine(r, ApplianceControl, TvDetails(on)))
    {
      if status.batteryBackup {
        return false;
      }
      LogEvent(ApplianceControl, TvDetails(on), r);
      return true;
    }

    /** `simulate_power_outage`. The flag is set before the TV is switched off, so that call
        is refused: the TV stays as it was and no TV entry is written, but the warning about
        non-essential devices is still raised. */
    method SimulatePowerOutage(r: Reading)
      requires Valid()
      modifies this`status, this`alerts, this`accessLogs
      ensures Valid()
      ensures status == Outage(old(status), r.now)
      ensures old(status).batteryBackup ==> accessLogs == old(accessLogs) && alerts == old(alerts)
      ensures !old(status).batteryBackup ==>
        && accessLogs == old(accessLogs) + [LogLine(r, SystemEvent, "Power failure - battery backup activated")]
        && alerts == old(alerts) + [Raised(r, "Power outage detected! Switching to battery backup", Critical)]
             + if appliances.tv then [Raised(r, "Non-essential devices disabled to conserve power", Warning)] else []
    {
      TransitionsKeepCoherent(status, r.now);
      if !status.batteryBackup {
        status := status.(batteryBackup := true, depletionTime := Some(r.now + BatteryLife));
        SendAlert("Power outage detected! Switching to battery backup", Critical, r);
        LogEvent(SystemEvent, "Power failure - battery backup activated", r);
        if appliances.tv {
          var _ := ControlTv(false, r);
          SendAlert("Non-essential devices disabled to conserve power", Warning, r);
        }
      }
    }

    /** `check_battery_status`. The flag is cleared first, so each "off" call goes through
        and logs, but the appliance map keeps its values. */
    method CheckBatteryStatus(r: Reading)
      requires Valid()
      modifies this`status, this`alerts, this`accessLogs
      ensures Valid()
      ensures status == Poll(old(status), r.now)
      ensures alerts == old(alerts) + PollAlerts(old(status), r)
      ensures accessLogs == old(accessLogs) + PollEntries(old(status), appliances, r)
    {
      TransitionsKeepCoherent(status, r.now);
      if status.batteryBackup {
        var depletionTime := status.depletionTime;
        if depletionTime.Some? && depletionTime.value != 0 && r.now >= depletionTime.value {
          status := status.(batteryBackup := false, depletionTime := None);
          SendAlert("Battery depleted! System shutting down", Critical, r);
          LogEvent(SystemEvent, "Battery depleted - system shutdown", r);
          ShutDown(r);
        }
      }
    }

    /** The shutdown after depletion: switch off each appliance that is on, off battery. */
    method ShutDown(r: Reading)
      requires WellFormed(accessLogs) && !status.batteryBackup
      modifies this`accessLogs
      ensures WellFormed(accessLogs)
      ensures accessLogs == old(accessLogs) + ShutdownEntries(appliances, r)
    {
      if appliances.light {
        var _ := ControlLight(false, r);
      }
      ghost var beforeSecurity := accessLogs;
      if appliances.security {
        var _ := ControlSecuritySystem(false, r);
      }
      assert accessLogs == beforeSecurity + When(appliances.security, LogLine(r, ApplianceControl, SecurityDetails(false)));
      ghost var beforeTv := accessLogs;
      if appliances.tv {
        var _ := ControlTv(false, r);
      }
      assert accessLogs == beforeTv + When(appliances.tv, LogLine(r, ApplianceControl, TvDetails(false)));
    }

    /** The "Restore Power" button: acts only on battery. */
    method RestorePower(r: Reading)
      requires Valid()
      modifies this`status, this`alerts, this`accessLogs
      ensures Valid()
      ensures status == Restored(old(status))
      ensures accessLogs == old(accessLogs) + if old(status).batteryBackup then [LogLine(r, SystemEvent, "Power restored")] else []
      ensures alerts == old(alerts) + if old(status).batteryBackup then [Raised(r, "Main power restored", Info)] else []
    {
      TransitionsKeepCoherent(status, r.now);
      if status.batteryBackup {
        status := status.(batteryBackup := false, depletionTime := None);
        LogEvent(SystemEvent, "Power restored", r);
        SendAlert("Main power restored", Info, r);
      }
    }

    /** `self_heal`, also run from the fault handler with the count at the threshold: two
        entries, the count cleared, and the backup flag switched on (without a deadline) with
        an info alert when it was off. */
    method SelfHeal(r: Reading)
      requires WellFormed(accessLogs) && UniqueLabels(store)
      requires status.depletionTime.Some? ==> status.batteryBackup
      modifies this`status, this`alerts, this`accessLogs
      ensures Valid()
      ensures status == Healed(old(status), r.now)
      ensures accessLogs == old(accessLogs) + HealEntries(r)
      ensures alerts == old(alerts) + HealAlerts(old(status), r)
    {
      LogEvent(SystemEvent, "Self-healing initiated", r);
      status := status.(faults := 0, lastSelfHeal := Some(r.now));
      if !status.batteryBackup {
        status := status.(batteryBackup := true);
        SendAlert("System recovered from fault condition", Info, r);
      }
      LogEvent(SystemEvent, "Self-healing completed successfully", r);
    }

    /** `handle_camera_failure`: one entry and one more fault; the third fault raises a
        critical alert and self-heals. */
    method HandleCameraFailure(r: Reading)
      requires Valid()
      modifies this`status, this`alerts, this`accessLogs
      ensures Valid()
      ensures status == Faulted(old(status), r.now)
      ensures accessLogs == old(accessLogs) + FaultEntries(old(status), r)
      ensures alerts == old(alerts) + FaultAlerts(old(status), r)
    {
      LogEvent(SystemError, "Camera failure detected", r);
      status := status.(faults := status.faults + 1);
      if status.faults >= FaultThreshold {
        SendAlert("Critical hardware failure detected", Critical, r);
        SelfHeal(r);
      }
    }

    /** The state-changing part of `home_control`: the depletion poll, then the switches
        take the requested values and a light or TV change the control refuses is put back.
        The security switch is never put back. */
    method HomeControl(requested: Appliances, r: Reading)
      requires Valid()
      modifies this`status, this`alerts, this`accessLogs, this`appliances
      ensures Valid()
      ensures status == Poll(old(status), r.now)
      ensures alerts == old(alerts) + PollAlerts(old(status), r)
      ensures appliances == Appliances(
        if status.batteryBackup then old(appliances).light else requested.light,
        requested.security,
        if status.batteryBackup then old(appliances).tv else requested.tv)
      ensures accessLogs == old(accessLogs) + PollEntries(old(status), old(appliances), r)
        + ControlEntries(old(appliances), requested, status.batteryBackup, r)
    {
      CheckBatteryStatus(r);
      Reconcile(requested, r);
    }

    /** The switches take the requested values; each change goes through its control call,
        and a refused light or TV change is put back. */
    method Reconcile(requested: Appliances, r: Reading)
      requires WellFormed(accessLogs)
      modifies this`accessLogs, this`appliances
      ensures WellFormed(accessLogs)
      ensures appliances == Appliances(
        if status.batteryBackup then old(appliances).light else requested.light,
        requested.security,
        if status.batteryBackup then old(appliances).tv else requested.tv)
      ensures accessLogs == old(accessLogs) + ControlEntries(old(appliances), requested, status.batteryBackup, r)
    {
      ghost var before := appliances;
      ghost var onBattery := status.batteryBackup;
      SwitchLight(requested.light, r);
      SwitchSecurity(requested.security, r);
      SwitchTv(requested.tv, r);
      AppendThree(old(accessLogs),
        When(before.light != requested.light && !onBattery, LogLine(r, ApplianceControl, LightDetails(requested.light))),
        When(before.security != requested.security, LogLine(r, ApplianceControl, SecurityDetails(requested.security))),
        When(before.tv != requested.tv && !onBattery, LogLine(r, ApplianceControl, TvDetails(requested.tv))));
    }

    /** The light switch of the control panel: a change goes through `control_light` and is
        put back when refused. */
    method SwitchLight(requested: bool, r: Reading)
      requires WellFormed(accessLogs)
      modifies this`accessLogs, this`appliances
      ensures WellFormed(accessLogs)
      ensures appliances == old(appliances).(light := if status.batteryBackup then old(appliances).light else requested)
      ensures accessLogs == old(accessLogs)
        + When(old(appliances).light != requested && !status.batteryBackup, LogLine(r, ApplianceControl, LightDetails(requested)))
    {
      var previous := appliances.light;
      appliances := appliances.(light := requested);
      if previous != requested {
        var ok := ControlLight(requested, r);
        if !ok {
          appliances := appliances.(light := previous);
        }
      }
    }

    /** The security switch of the control panel: a change goes through
        `control_security_system`, which never refuses. */
    method SwitchSecurity(requested: bool, r: Reading)
      requires WellFormed(accessLogs)
      modifies this`accessLogs, this`appliances
      ensures WellFormed(accessLogs)
      ensures appliances == old(appliances).(security := requested)
      ensures accessLogs == old(accessLogs)
        + When(old(appliances).security != requested, LogLine(r, ApplianceControl, SecurityDetails(requested)))
    {
      var previous := appliances.security;
      appliances := appliances.(security := requested);
      if previous != requested {
        var _ := ControlSecuritySystem(requested, r);
      }
    }

    /** The TV switch of the control panel: a change goes through `control_tv` and is put
        back when refused. */
    method SwitchTv(requested: bool, r: Reading)
      requires WellFormed(accessLogs)
      modifies this`accessLogs, this`appliances
      ensures WellFormed(accessLogs)
      ensures appliances == old(appliances).(tv := if status.batteryBackup then old(appliances).tv else requested)
      ensures accessLogs == old(accessLogs)
        + When(old(appliances).tv != requested && !status.batteryBackup, LogLine(r, ApplianceControl, TvDetails(requested)))
    {
      var previous := appliances.tv;
      appliances := appliances.(tv := requested);
      if previous != requested {
        var ok := ControlTv(requested, r);
        if !ok {
          appliances := appliances.(tv := previous);
        }
      }
    }

    /** The "Ack" button of the `i`-th active alert. */
    method AcknowledgeAlert(i: nat)
      requires Valid()
      requires i < |Unacknowledged(alerts)|
      modifies this`alerts
      ensures Valid()
      ensures alerts == AcknowledgeActive(old(alerts), i)
    {
      alerts := AcknowledgeActive(alerts, i);
    }

    /** The "Logout" button. */
    method Logout(r: Reading)
      requires Valid()
      modifies this`authenticated, this`currentUser, this`accessLogs
      ensures Valid()
      ensures !authenticated && currentUser.None?
      ensures accessLogs == old(accessLogs) + [LogLine(r, Access, "User logged out")]
    {
      LogEvent(Access, "User logged out", r);
      authenticated := false;
      currentUser := None;
    }

    /** The "Simulation Mode" toggle. */
    method SetSimulationMode(on: bool)
      requires Valid()
      modifies this`simulationMode
      ensures Valid()
      ensures simulationMode == on
    {
      simulationMode := on;
    }

    /** The "Authenticate with PIN" button. */
    method PinAuthentication(pin: string, r: Reading)
      requires Valid()
      modifies this`authenticated, this`currentUser, this`accessLogs, this`alerts
      ensures Valid()
      ensures pin == FallbackPin ==>
        && authenticated && currentUser == Some(PinUser)
        && accessLogs == old(accessLogs) + [LogLine(r, Access, "PIN authentication successful")]
        && alerts == old(alerts)
      ensures pin != FallbackPin ==>
        && authenticated == old(authenticated) && currentUser == old(currentUser)
        && accessLogs == old(accessLogs) + [LogLine(r, SecurityAlert, "Invalid PIN attempt")]
        && alerts == old(alerts) + [Raised(r, "Invalid PIN attempt detected", Warning)]
    {
      if pin == FallbackPin {
        authenticated := true;
        currentUser := Some(PinUser);
        LogEvent(Access, "PIN authentication successful", r);
      } else {
        LogEvent(SecurityAlert, "Invalid PIN attempt", r);
        SendAlert("Invalid PIN attempt detected", Warning, r);
      }
    }

    /** The "Authenticate with RFID" button. */
    method RfidAuthentication(card: string, r: Reading)
      requires Valid()
      modifies this`authenticated, this`currentUser, this`accessLogs, this`alerts
      ensures Valid()
      ensures RfidUser(card).Some? ==>
        && authenticated && currentUser == RfidUser(card)
        && accessLogs == old(accessLogs) + [LogLine(r, Access, "RFID authentication successful: " + RfidUser(card).value)]
        && alerts == old(alerts)
      ensures RfidUser(card).None? ==>
        && authenticated == old(authenticated) && currentUser == old(currentUser)
        && accessLogs == old(accessLogs) + [LogLine(r, SecurityAlert, "Invalid RFID card used")]
        && alerts == old(alerts) + [Raised(r, "Unauthorized RFID access attempt", Warning)]
    {
      var user := RfidUser(card);
      if user.Some? {
        authenticated := true;
        currentUser := user;
        LogEvent(Access, "RFID authentication successful: " + user.value, r);
      } else {
        LogEvent(SecurityAlert, "Invalid RFID card used", r);
        SendAlert("Unauthorized RFID access attempt", Warning, r);
      }
    }

    /** The fault path shared by the scans: the entry naming the failure, then
        `handle_camera_failure`. */
    method CameraFault(details: string, r: Reading)
      requires Valid()
      modifies this`status, this`alerts, this`accessLogs
      ensures Valid()
      ensures status == Faulted(old(status), r.now)
      ensures accessLogs == old(accessLogs) + FaultPath(true, details, old(status), r)
      ensures alerts == old(alerts) + FaultAlerts(old(status), r)
    {
      LogEvent(SystemError, details, r);
      HandleCameraFailure(r);
    }

    /** The fault path when a scan ended on a failed read; nothing otherwise. */
    method ScanFault(failed: bool, details: string, r: Reading)
      requires Valid()
      modifies this`status, this`alerts, this`accessLogs
      ensures Valid()
      ensures status == if failed then Faulted(old(status), r.now) else old(status)
      ensures accessLogs == old(accessLogs) + FaultPath(failed, details, old(status), r)
      ensures alerts == old(alerts) + FaultPathAlerts(failed, old(status), r)
    {
      if failed {
        CameraFault(details, r);
      }
    }

    /** `register_face`, one run of the page with the given inputs; `startScan` is the
        "Start Face Scan" button. An empty password or name stops silently, a wrong password
        is logged. A scan that ends on a failed read counts a camera fault and still commits
        the best face found; the commit writes only the entry for `userName`. */
    method RegisterFace(adminPass: string, userName: string, startScan: bool, camera: Feed, r: Reading)
      requires Valid()
      modifies this`status, this`alerts, this`accessLogs, this`store
      ensures Valid()
      ensures (adminPass == "" || (adminPass == AdminPassword && (userName == "" || !startScan))) ==>
        && status == old(status) && alerts == old(alerts) && accessLogs == old(accessLogs) && store == old(store)
      ensures adminPass != "" && adminPass != AdminPassword ==>
        && status == old(status) && alerts == old(alerts) && store == old(store)
        && accessLogs == old(accessLogs) + [LogLine(r, SecurityAlert, "Admin password verification failed")]
      ensures adminPass == AdminPassword && userName != "" && startScan && camera.Unavailable? ==>
        && status == Faulted(old(status), r.now) && store == old(store)
        && accessLogs == old(accessLogs) + FaultPath(true, "Camera access failed: Camera not available", old(status), r)
        && alerts == old(alerts) + FaultAlerts(old(status), r)
      ensures adminPass == AdminPassword && userName != "" && startScan && camera.Opened? ==>
        var scan := EnrollAll(camera.frames);
        && status == (if scan.readFailed then Faulted(old(status), r.now) else old(status))
        && alerts == old(alerts) + FaultPathAlerts(scan.readFailed, old(status), r)
        && store == (if scan.best.encoding.Some? then Upsert(old(store), userName, scan.best.encoding.value) else old(store))
        && accessLogs == old(accessLogs) + FaultPath(scan.readFailed, "Camera frame capture failed", old(status), r)
             + [CommitLine(userName, scan.best.encoding, r)]
    {
      if adminPass == "" {
        return;
      }
      if adminPass != AdminPassword {
        LogEvent(SecurityAlert, "Admin password verification failed", r);
        return;
      }
      if userName == "" || !startScan {
        return;
      }
      if camera.Unavailable? {
        CameraFault("Camera access failed: Camera not available", r);
      } else {
        EnrollUser(userName, camera.frames, r);
      }
    }

    /** The scan and commit of `register_face` on an opened camera. */
    method EnrollUser(userName: string, frames: seq<Frame>, r: Reading)
      requires Valid()
      modifies this`status, this`alerts, this`accessLogs, this`store
      ensures Valid()
      ensures var scan := EnrollAll(frames);
        && status == (if scan.readFailed then Faulted(old(status), r.now) else old(status))
        && alerts == old(alerts) + FaultPathAlerts(scan.readFailed, old(status), r)
        && store == (if scan.best.encoding.Some? then Upsert(old(store), userName, scan.best.encoding.value) else old(store))
        && accessLogs == old(accessLogs) + FaultPath(scan.readFailed, "Camera frame capture failed", old(status), r)
             + [CommitLine(userName, scan.best.encoding, r)]
    {
      var scan := EnrollmentScan(frames);
      ScanFault(scan.readFailed, "Camera frame capture failed", r);
      Commit(userName, scan.best.encoding, r);
    }

    /** The commit of `register_face`: store the best encoding under the name, or log that
        none was found. */
    method Commit(userName: string, encoding: Option<Encoding>, r: Reading)
      requires WellFormed(accessLogs) && UniqueLabels(store)
      modifies this`accessLogs, this`store
      ensures WellFormed(accessLogs) && UniqueLabels(store)
      ensures store == if encoding.Some? then Upsert(old(store), userName, encoding.value) else old(store)
      ensures accessLogs == old(accessLogs) + [CommitLine(userName, encoding, r)]
    {
      if encoding.Some? {
        UpsertKeepsUnique(store, userName, encoding.value);
        store := Upsert(store, userName, encoding.value);
        LogEvent(AdminAction, "Registered new user: " + userName, r);
      } else {
        LogEvent(SystemEvent, "Face registration failed - low quality", r);
      }
    }

    /** `authenticate_face`, after the "Start Authentication" button: one intruder entry and
        alert per face labelled "Unknown", the fault path on a failed read, then success for
        the recognized name or the denial; a failed read is followed by the denial too. */
    method AuthenticateFace(camera: Feed, matches: Comparator, r: Reading)
      requires Valid()
      modifies this`status, this`alerts, this`accessLogs, this`authenticated, this`currentUser
      ensures Valid()
      ensures camera.Unavailable? ==>
        && status == Faulted(old(status), r.now)
        && authenticated == old(authenticated) && currentUser == old(currentUser)
        && accessLogs == old(accessLogs) + FaultPath(true, "Camera access failed: Camera not available", old(status), r)
        && alerts == old(alerts) + FaultAlerts(old(status), r)
      ensures camera.Opened? ==>
        var scan := ScanAll(store, camera.frames, matches);
        && status == (if scan.readFailed then Faulted(old(status), r.now) else old(status))
        && authenticated == (scan.recognized.Some? || old(authenticated))
        && currentUser == (if scan.recognized.Some? then scan.recognized else old(currentUser))
        && accessLogs == old(accessLogs) + (IntruderLines(scan.intruders, r)
             + FaultPath(scan.readFailed, "Camera frame capture failed", old(status), r)
             + [OutcomeLine(scan.recognized, r)])
        && alerts == old(alerts) + (IntruderAlerts(scan.intruders, r)
             + FaultPathAlerts(scan.readFailed, old(status), r)
             + DenialAlerts(scan.recognized, r))
    {
      if camera.Unavailable? {
        CameraFault("Camera access failed: Camera not available", r);
        return;
      }
      var scan := AuthenticationScan(store, camera.frames, matches);
      ghost var before := status;
      ReportIntruders(scan.intruders, r);
      ScanFault(scan.readFailed, "Camera frame capture failed", r);
      Conclude(scan.recognized, r);
      AppendThree(old(accessLogs), IntruderLines(scan.intruders, r),
        FaultPath(scan.readFailed, "Camera frame capture failed", before, r), [OutcomeLine(scan.recognized, r)]);
      AppendThree(old(alerts), IntruderAlerts(scan.intruders, r),
        FaultPathAlerts(scan.readFailed, before, r), DenialAlerts(scan.recognized, r));
    }

    /** One "Unauthorized face detected" entry and one intruder alert per unknown face. */
    method ReportIntruders(count: nat, r: Reading)
      requires WellFormed(accessLogs)
      modifies this`accessLogs, this`alerts
      ensures WellFormed(accessLogs)
      ensures accessLogs == old(accessLogs) + IntruderLines(count, r)
      ensures alerts == old(alerts) + IntruderAlerts(count, r)
    {
      var i := 0;
      while i < count
        invariant i <= count
        invariant WellFormed(accessLogs)
        invariant accessLogs == old(accessLogs) + Repeat(LogLine(r, SecurityAlert, "Unauthorized face detected"), i)
        invariant alerts == old(alerts) + Repeat(Raised(r, "Intruder alert! Unknown face detected", Critical), i)
      {
        LogEvent(SecurityAlert, "Unauthorized face detected", r);
        SendAlert("Intruder alert! Unknown face detected", Critical, r);
        i := i + 1;
      }
    }

    /** The end of `authenticate_face`: log in the recognized user, or deny. */
    method Conclude(recognized: Option<string>, r: Reading)
      requires WellFormed(accessLogs)
      modifies this`authenticated, this`currentUser, this`accessLogs, this`alerts
      ensures WellFormed(accessLogs)
      ensures authenticated == (recognized.Some? || old(authenticated))
      ensures currentUser == if recognized.Some? then recognized else old(currentUser)
      ensures accessLogs == old(accessLogs) + [OutcomeLine(recognized, r)]
      ensures alerts == old(alerts) + DenialAlerts(recognized, r)
    {
      if recognized.Some? {
        authenticated := true;
        currentUser := recognized;
        LogEvent(Access, "Face authentication successful: " + recognized.value, r);
      } else {
        LogEvent(Access, "Face authentication failed", r);
        SendAlert("Authentication failed", Warning, r);
      }
    }

    /** The "Clear Database" button: ask for the admin password. */
    method RequestClear()
      requires Valid()
      modifies this`clearDbMode
      ensures Valid()
      ensures clearDbMode
    {
      clearDbMode := true;
    }

    /** The "Cancel" button of the clear prompt. */
    method CancelClear()
      requires Valid()
      modifies this`clearDbMode
      ensures Valid()
      ensures !clearDbMode
    {
      clearDbMode := false;
    }

    /** The "Confirm Clear" button, shown only while the prompt is open: the right password
        empties the database and closes the prompt, a wrong one is logged. */
    method ConfirmClear(adminPass: string, r: Reading)
      requires Valid()
      modifies this`store, this`accessLogs, this`clearDbMode
      ensures Valid()
      ensures !old(clearDbMode) ==> store == old(store) && accessLogs == old(accessLogs) && !clearDbMode
      ensures old(clearDbMode) && adminPass == AdminPassword ==>
        store == Cleared && !clearDbMode && accessLogs == old(accessLogs) + [LogLine(r, AdminAction, "Database cleared")]
      ensures old(clearDbMode) && adminPass != AdminPassword ==>
        && store == old(store) && clearDbMode
        && accessLogs == old(accessLogs) + [LogLine(r, SecurityAlert, "Failed database clear attempt")]
    {
      if clearDbMode {
        if adminPass == AdminPassword {
          store := Cleared;
          LogEvent(AdminAction, "Database cleared", r);
          clearDbMode := false;
        } else {
          LogEvent(SecurityAlert, "Failed database clear attempt", r);
        }
      }
    }
  }
}
