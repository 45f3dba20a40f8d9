/**
 * The shared brewery state store of the dashboard
 * (frontend/webapp/src/contexts/BreweryContext.tsx): the closed action union, the pure
 * reducer `breweryReducer`, the notifications it sends to the toast sink, and the PID
 * control tick that the provider runs on a timer.
 */
module BreweryContext {
  import opened Common
  import opened BreweryTypes
  import Seqs

  /** The action union dispatched to the store. */
  datatype Action =
    | UpdateDevice(device: Device)
    | UpdateVessel(vessel: Vessel)
    | UpdateProcess(process: BrewingProcess)
    | UpdatePidController(controller: PidController)
    | AddAlarm(alarm: Alarm)
    | AcknowledgeAlarm(alarmId: string)
    | SetMqttStatus(connected: bool)
    | StartProcess(processId: string, recipeId: Option<string>)
    | PauseProcess(processId: string)
    | StopProcess(processId: string)
    | SimulateData
    | ToggleEquipment(equipmentId: string, deviceId: string)
    | SetPidSetpoint(controllerId: string, setpoint: real)
    | TogglePid(controllerId: string)

  /**
   * What the reducer reads from its surroundings: the clock (`new Date()`) and the
   * values `Math.random()` returns, one per sensor (indexed by device and sensor
   * position) and one per vessel.
   */
  datatype Env = Env(now: Time, sensorDraw: (nat, nat) -> real, vesselDraw: nat -> real)

  /** `xs.map(x => hit(x) ? f(x) : x)`. */
  function MapWhere<T>(xs: seq<T>, hit: T -> bool, f: T -> T): (r: seq<T>)
    ensures |r| == |xs|
    ensures forall i :: 0 <= i < |xs| ==> r[i] == if hit(xs[i]) then f(xs[i]) else xs[i]
  {
    seq(|xs|, i requires 0 <= i < |xs| => if hit(xs[i]) then f(xs[i]) else xs[i])
  }

  /** TOGGLE_EQUIPMENT's status rule: 'on' becomes 'off', every other status becomes 'on'. */
  function ToggledStatus(st: EquipmentStatus): EquipmentStatus {
    if st == On then Off else On
  }

  /** The jitter a sensor receives from one draw `r` of `Math.random()`. */
  function SensorDelta(r: real): real { (r - 0.5) * 0.5 }

  /** The jitter a vessel temperature receives from one draw `r` of `Math.random()`. */
  function VesselDelta(r: real): real { (r - 0.5) * 0.3 }

  function DriftSensor(sn: Sensor, r: real, now: Time): Sensor {
    sn.(value := Max(0.0, sn.value + SensorDelta(r)), lastUpdate := now)
  }

  function DriftVessel(v: Vessel, r: real): Vessel {
    v.(temperature := v.temperature.(current := Max(0.0, v.temperature.current + VesselDelta(r))))
  }

  /** The SIMULATE_DATA pass: every sensor of every device, then every vessel temperature. */
  function Simulate(s: BreweryState, env: Env): BreweryState {
    s.(devices := seq(|s.devices|, i requires 0 <= i < |s.devices| =>
                    s.devices[i].(sensors := seq(|s.devices[i].sensors|, j requires 0 <= j < |s.devices[i].sensors| =>
                      DriftSensor(s.devices[i].sensors[j], env.sensorDraw(i, j), env.now)))),
       vessels := seq(|s.vessels|, k requires 0 <= k < |s.vessels| => DriftVessel(s.vessels[k], env.vesselDraw(k))))
  }

  /** `breweryReducer`: the state after dispatching `a` to `s`. */
  function Reduce(s: BreweryState, a: Action, env: Env): BreweryState {
    match a
    case UpdateDevice(d) => s.(devices := MapWhere(s.devices, (x: Device) => x.id == d.id, (x: Device) => d))
    case UpdateVessel(v) => s.(vessels := MapWhere(s.vessels, (x: Vessel) => x.id == v.id, (x: Vessel) => v))
    case UpdateProcess(p) => s.(processes := MapWhere(s.processes, (x: BrewingProcess) => x.id == p.id, (x: BrewingProcess) => p))
    case UpdatePidController(c) => s.(pidControllers := MapWhere(s.pidControllers, (x: PidController) => x.id == c.id, (x: PidController) => c))
    case ToggleEquipment(eqId, devId) =>
      s.(devices := MapWhere(s.devices, (d: Device) => d.id == devId,
                             (d: Device) => d.(equipment := MapWhere(d.equipment, (e: Equipment) => e.id == eqId,
                                                                     (e: Equipment) => e.(status := ToggledStatus(e.status))))))
    case SetPidSetpoint(cid, sp) =>
      s.(pidControllers := MapWhere(s.pidControllers, (x: PidController) => x.id == cid, (x: PidController) => x.(setpoint := sp)))
    case TogglePid(cid) =>
      s.(pidControllers := MapWhere(s.pidControllers, (x: PidController) => x.id == cid, (x: PidController) => x.(enabled := !x.enabled)))
    case StartProcess(pid, _) =>
      s.(processes := MapWhere(s.processes, (x: BrewingProcess) => x.id == pid,
                               (x: BrewingProcess) => x.(status := Running, startTime := Some(env.now), currentStepStartTime := Some(env.now))))
    case PauseProcess(pid) =>
      s.(processes := MapWhere(s.processes, (x: BrewingProcess) => x.id == pid, (x: BrewingProcess) => x.(status := Paused)))
    case StopProcess(pid) =>
      s.(processes := MapWhere(s.processes, (x: BrewingProcess) => x.id == pid, (x: BrewingProcess) => x.(status := Idle, endTime := Some(env.now))))
    case AddAlarm(al) => s.(alarms := [al] + s.alarms)
    case AcknowledgeAlarm(aid) =>
      s.(alarms := MapWhere(s.alarms, (x: Alarm) => x.id == aid, (x: Alarm) => x.(acknowledged := true)))
    case SetMqttStatus(b) => s.(mqttConnected := b)
    case SimulateData => Simulate(s, env)
  }

  // ---------------------------------------------------------------------------
  // Notifications sent to the toast sink
  // ---------------------------------------------------------------------------

  datatype ToastKind = Success | InfoToast | ErrorToast

  datatype Notice =
    | EquipmentSwitched(equipmentName: string, switchedOn: bool)
    | SetpointUpdated(setpoint: real)
    | PidSwitched(enabled: bool)
    | ProcessStarted(processName: string)
    | ProcessPaused(processName: string)
    | ProcessStopped(processName: string)
    | AlarmRaised(message: string)
    | MqttChanged(connected: bool)

  datatype Toast = Toast(kind: ToastKind, notice: Notice)

  function Each<T, U>(xs: seq<T>, f: T -> U): (r: seq<U>)
    ensures |r| == |xs|
  {
    seq(|xs|, i requires 0 <= i < |xs| => f(xs[i]))
  }

  function EquipmentToasts(ds: seq<Device>, eqId: string, devId: string): seq<Toast> {
    if ds == [] then []
    else
      (if ds[0].id == devId
       then Each(Seqs.Filter(ds[0].equipment, (e: Equipment) => e.id == eqId),
                 (e: Equipment) => Toast(Success, EquipmentSwitched(e.name, ToggledStatus(e.status) == On)))
       else [])
      + EquipmentToasts(ds[1..], eqId, devId)
  }

  /** The toasts the reducer shows while handling `a`, in order; they never affect the state. */
  function Notifications(s: BreweryState, a: Action): seq<Toast> {
    match a
    case ToggleEquipment(eqId, devId) => EquipmentToasts(s.devices, eqId, devId)
    case SetPidSetpoint(cid, sp) =>
      Each(Seqs.Filter(s.pidControllers, (c: PidController) => c.id == cid), (c: PidController) => Toast(Success, SetpointUpdated(sp)))
    case TogglePid(cid) =>
      Each(Seqs.Filter(s.pidControllers, (c: PidController) => c.id == cid), (c: PidController) => Toast(Success, PidSwitched(!c.enabled)))
    case StartProcess(pid, _) =>
      Each(Seqs.Filter(s.processes, (p: BrewingProcess) => p.id == pid), (p: BrewingProcess) => Toast(Success, ProcessStarted(p.name)))
    case PauseProcess(pid) =>
      Each(Seqs.Filter(s.processes, (p: BrewingProcess) => p.id == pid), (p: BrewingProcess) => Toast(InfoToast, ProcessPaused(p.name)))
    case StopProcess(pid) =>
      Each(Seqs.Filter(s.processes, (p: BrewingProcess) => p.id == pid), (p: BrewingProcess) => Toast(ErrorToast, ProcessStopped(p.name)))
    case AddAlarm(al) => [Toast(ErrorToast, AlarmRaised(al.message))]
    case SetMqttStatus(b) =>
      if b != s.mqttConnected then [Toast(if b then Success else ErrorToast, MqttChanged(b))] else []
    case _ => []
  }

  // ---------------------------------------------------------------------------
  // Properties of the reducer
  // ---------------------------------------------------------------------------

  /** UPDATE_DEVICE replaces exactly the devices whose id matches the payload's. */
  lemma UpdateDeviceReplaces(s: BreweryState, d: Device, env: Env)
    ensures var r := Reduce(s, UpdateDevice(d), env);
      && |r.devices| == |s.devices|
      && (forall i :: 0 <= i < |s.devices| ==> r.devices[i] == if s.devices[i].id == d.id then d else s.devices[i])
      && r.(devices := s.devices) == s
      && ((forall i :: 0 <= i < |s.devices| ==> s.devices[i].id != d.id) ==> r == s)
  {
    var r := Reduce(s, UpdateDevice(d), env);
    if forall i :: 0 <= i < |s.devices| ==> s.devices[i].id != d.id {
      assert r.devices == s.devices;
    }
  }

  /** UPDATE_VESSEL replaces exactly the vessels whose id matches the payload's. */
  lemma UpdateVesselReplaces(s: BreweryState, v: Vessel, env: Env)
    ensures var r := Reduce(s, UpdateVessel(v), env);
      && |r.vessels| == |s.vessels|
      && (forall i :: 0 <= i < |s.vessels| ==> r.vessels[i] == if s.vessels[i].id == v.id then v else s.vessels[i])
      && r.(vessels := s.vessels) == s
      && ((forall i :: 0 <= i < |s.vessels| ==> s.vessels[i].id != v.id) ==> r == s)
  {
    var r := Reduce(s, UpdateVessel(v), env);
    if forall i :: 0 <= i < |s.vessels| ==> s.vessels[i].id != v.id {
      assert r.vessels == s.vessels;
    }
  }

  /** UPDATE_PROCESS replaces exactly the processes whose id matches the payload's. */
  lemma UpdateProcessReplaces(s: BreweryState, p: BrewingProcess, env: Env)
    ensures var r := Reduce(s, UpdateProcess(p), env);
      && |r.processes| == |s.processes|
      && (forall i :: 0 <= i < |s.processes| ==> r.processes[i] == if s.processes[i].id == p.id then p else s.processes[i])
      && r.(processes := s.processes) == s
      && ((forall i :: 0 <= i < |s.processes| ==> s.processes[i].id != p.id) ==> r == s)
  {
    var r := Reduce(s, UpdateProcess(p), env);
    if forall i :: 0 <= i < |s.processes| ==> s.processes[i].id != p.id {
      assert r.processes == s.processes;
    }
  }

  /** UPDATE_PID_CONTROLLER replaces exactly the controllers whose id matches the payload's. */
  lemma UpdatePidControllerReplaces(s: BreweryState, c: PidController, env: Env)
    ensures var r := Reduce(s, UpdatePidController(c), env);
      && |r.pidControllers| == |s.pidControllers|
      && (forall i :: 0 <= i < |s.pidControllers| ==>
            r.pidControllers[i] == if s.pidControllers[i].id == c.id then c else s.pidControllers[i])
      && r.(pidControllers := s.pidControllers) == s
      && ((forall i :: 0 <= i < |s.pidControllers| ==> s.pidControllers[i].id != c.id) ==> r == s)
  {
    var r := Reduce(s, UpdatePidController(c), env);
    if forall i :: 0 <= i < |s.pidControllers| ==> s.pidControllers[i].id != c.id {
      assert r.pidControllers == s.pidControllers;
    }
  }

  /** TOGGLE_EQUIPMENT's status rule: 'on' and 'off' swap, 'auto' and 'error' become 'on'. */
  lemma ToggledStatusCases(st: EquipmentStatus)
    ensures ToggledStatus(st) == Off <==> st == On
    ensures ToggledStatus(st) == On <==> st != On
    ensures ToggledStatus(ToggledStatus(st)) == st <==> st == On || st == Off
  {
  }

  /**
   * TOGGLE_EQUIPMENT changes only the status of the equipment with the given id inside
   * the devices with the given id; every other device, equipment and field is kept.
   */
  lemma ToggleEquipmentEffect(s: BreweryState, eqId: string, devId: string, env: Env)
    ensures var r := Reduce(s, ToggleEquipment(eqId, devId), env);
      && r.(devices := s.devices) == s
      && |r.devices| == |s.devices|
      && (forall i :: 0 <= i < |s.devices| ==>
            && r.devices[i].(equipment := s.devices[i].equipment) == s.devices[i]
            && |r.devices[i].equipment| == |s.devices[i].equipment|
            && (forall j :: 0 <= j < |s.devices[i].equipment| ==>
                  var e := s.devices[i].equipment[j];
                  r.devices[i].equipment[j] ==
                    if s.devices[i].id == devId && e.id == eqId then e.(status := ToggledStatus(e.status)) else e))
  {
  }

  /** Whether every targeted equipment is 'on' or 'off'. */
  predicate TargetsOnOrOff(s: BreweryState, eqId: string, devId: string) {
    forall i, j :: (0 <= i < |s.devices| && 0 <= j < |s.devices[i].equipment| &&
                    s.devices[i].id == devId && s.devices[i].equipment[j].id == eqId) ==>
      s.devices[i].equipment[j].status == On || s.devices[i].equipment[j].status == Off
  }

  /** Toggling the same equipment twice restores the state exactly when every target was 'on' or 'off'. */
  lemma ToggleEquipmentTwice(s: BreweryState, eqId: string, devId: string, env: Env)
    ensures Reduce(Reduce(s, ToggleEquipment(eqId, devId), env), ToggleEquipment(eqId, devId), env) == s
        <==> TargetsOnOrOff(s, eqId, devId)
  {
    var a := ToggleEquipment(eqId, devId);
    var r1 := Reduce(s, a, env);
    var r2 := Reduce(r1, a, env);
    ToggleEquipmentEffect(s, eqId, devId, env);
    ToggleEquipmentEffect(r1, eqId, devId, env);
    if TargetsOnOrOff(s, eqId, devId) {
      forall i | 0 <= i < |s.devices| ensures r2.devices[i] == s.devices[i] {
        assert r2.devices[i].equipment == s.devices[i].equipment;
      }
      assert r2.devices == s.devices;
    } else {
      var i, j :| 0 <= i < |s.devices| && 0 <= j < |s.devices[i].equipment| &&
        s.devices[i].id == devId && s.devices[i].equipment[j].id == eqId &&
        !(s.devices[i].equipment[j].status == On || s.devices[i].equipment[j].status == Off);
      assert r2.devices[i].equipment[j].status == Off;
    }
  }

  /** SET_PID_SETPOINT changes only the setpoint of the matching controllers. */
  lemma SetPidSetpointEffect(s: BreweryState, cid: string, sp: real, env: Env)
    ensures var r := Reduce(s, SetPidSetpoint(cid, sp), env);
      && r.(pidControllers := s.pidControllers) == s
      && |r.pidControllers| == |s.pidControllers|
      && (forall i :: 0 <= i < |s.pidControllers| ==>
            var c := s.pidControllers[i];
            && r.pidControllers[i] == (if c.id == cid then c.(setpoint := sp) else c)
            && r.pidControllers[i].output == c.output
            && r.pidControllers[i].enabled == c.enabled
            && r.pidControllers[i].kp == c.kp && r.pidControllers[i].ki == c.ki && r.pidControllers[i].kd == c.kd)
  {
  }

  /** TOGGLE_PID negates `enabled` on the matching controllers and changes nothing else. */
  lemma TogglePidEffect(s: BreweryState, cid: string, env: Env)
    ensures var r := Reduce(s, TogglePid(cid), env);
      && r.(pidControllers := s.pidControllers) == s
      && |r.pidControllers| == |s.pidControllers|
      && (forall i :: 0 <= i < |s.pidControllers| ==>
            var c := s.pidControllers[i];
            r.pidControllers[i] == if c.id == cid then c.(enabled := !c.enabled) else c)
  {
  }

  /** TOGGLE_PID applied twice restores the whole state, `output` included. */
  lemma TogglePidTwice(s: BreweryState, cid: string, env: Env)
    ensures Reduce(Reduce(s, TogglePid(cid), env), TogglePid(cid), env) == s
  {
    var r2 := Reduce(Reduce(s, TogglePid(cid), env), TogglePid(cid), env);
    assert r2.pidControllers == s.pidControllers;
  }

  /** START_PROCESS, PAUSE_PROCESS and STOP_PROCESS set the status and the time stamps of matching processes. */
  lemma ProcessActionsEffect(s: BreweryState, pid: string, recipe: Option<string>, env: Env)
    ensures var r := Reduce(s, StartProcess(pid, recipe), env);
      && r.(processes := s.processes) == s && |r.processes| == |s.processes|
      && (forall i :: 0 <= i < |s.processes| ==>
            var p := s.processes[i];
            r.processes[i] == if p.id == pid
              then p.(status := Running, startTime := Some(env.now), currentStepStartTime := Some(env.now))
              else p)
    ensures var r := Reduce(s, PauseProcess(pid), env);
      && r.(processes := s.processes) == s && |r.processes| == |s.processes|
      && (forall i :: 0 <= i < |s.processes| ==>
            var p := s.processes[i];
            r.processes[i] == if p.id == pid then p.(status := Paused) else p)
    ensures var r := Reduce(s, StopProcess(pid), env);
      && r.(processes := s.processes) == s && |r.processes| == |s.processes|
      && (forall i :: 0 <= i < |s.processes| ==>
            var p := s.processes[i];
            && r.processes[i] == (if p.id == pid then p.(status := Idle, endTime := Some(env.now)) else p)
            && r.processes[i].startTime == p.startTime)
  {
  }

  /** Starting and then stopping a process leaves it idle, with both time stamps set and the start kept. */
  lemma StartThenStop(s: BreweryState, pid: string, startEnv: Env, stopEnv: Env)
    ensures var r := Reduce(Reduce(s, StartProcess(pid, None), startEnv), StopProcess(pid), stopEnv);
      && |r.processes| == |s.processes|
      && forall i :: 0 <= i < |s.processes| && s.processes[i].id == pid ==>
           && r.processes[i].status == Idle
           && r.processes[i].startTime == Some(startEnv.now)
           && r.processes[i].currentStepStartTime == Some(startEnv.now)
           && r.processes[i].endTime == Some(stopEnv.now)
  {
  }

  /** ADD_ALARM puts the new alarm in front of the existing ones. */
  lemma AddAlarmPrepends(s: BreweryState, al: Alarm, env: Env)
    ensures Reduce(s, AddAlarm(al), env) == s.(alarms := [al] + s.alarms)
    ensures Reduce(s, AddAlarm(al), env).alarms[0] == al
  {
  }

  /** ACKNOWLEDGE_ALARM sets `acknowledged` on matching alarms only, and is idempotent. */
  lemma AcknowledgeAlarmEffect(s: BreweryState, aid: string, env: Env)
    ensures var r := Reduce(s, AcknowledgeAlarm(aid), env);
      && r.(alarms := s.alarms) == s && |r.alarms| == |s.alarms|
      && (forall i :: 0 <= i < |s.alarms| ==>
            r.alarms[i] == if s.alarms[i].id == aid then s.alarms[i].(acknowledged := true) else s.alarms[i])
      && Reduce(r, AcknowledgeAlarm(aid), env) == r
  {
    var r := Reduce(s, AcknowledgeAlarm(aid), env);
    assert Reduce(r, AcknowledgeAlarm(aid), env).alarms == r.alarms;
  }

  /** SET_MQTT_STATUS overwrites the connectivity flag and notifies only on a change. */
  lemma SetMqttStatusEffect(s: BreweryState, b: bool, env: Env)
    ensures Reduce(s, SetMqttStatus(b), env) == s.(mqttConnected := b)
    ensures Notifications(s, SetMqttStatus(b)) == [] <==> b == s.mqttConnected
  {
  }

  /** A draw of `Math.random()` in [0, 1) gives a sensor jitter in [-0.25, 0.25) and a vessel jitter in [-0.15, 0.15). */
  lemma DeltaRanges(r: real)
    requires 0.0 <= r < 1.0
    ensures -0.25 <= SensorDelta(r) < 0.25
    ensures -0.15 <= VesselDelta(r) < 0.15
  {
  }

  /**
   * SIMULATE_DATA: every sensor value and vessel temperature is non-negative afterwards and
   * equals old value plus jitter whenever that sum is non-negative; sensors get the current
   * time; nothing else changes.
   */
  lemma SimulateDataEffect(s: BreweryState, env: Env)
    ensures var r := Reduce(s, SimulateData, env);
      && r.(devices := s.devices, vessels := s.vessels) == s
      && |r.devices| == |s.devices| && |r.vessels| == |s.vessels|
      && (forall i :: 0 <= i < |s.devices| ==>
            && r.devices[i].(sensors := s.devices[i].sensors) == s.devices[i]
            && |r.devices[i].sensors| == |s.devices[i].sensors|
            && forall j :: 0 <= j < |s.devices[i].sensors| ==>
                 var old_ := s.devices[i].sensors[j];
                 var new_ := r.devices[i].sensors[j];
                 var v := old_.value + SensorDelta(env.sensorDraw(i, j));
                 && new_.(value := old_.value, lastUpdate := old_.lastUpdate) == old_
                 && new_.value >= 0.0
                 && (v >= 0.0 ==> new_.value == v)
                 && (v < 0.0 ==> new_.value == 0.0)
                 && new_.lastUpdate == env.now)
      && (forall k :: 0 <= k < |s.vessels| ==>
            var old_ := s.vessels[k];
            var new_ := r.vessels[k];
            var t := old_.temperature.current + VesselDelta(env.vesselDraw(k));
            && new_.(temperature := old_.temperature) == old_
            && new_.temperature.target == old_.temperature.target
            && new_.temperature.sensorId == old_.temperature.sensorId
            && new_.temperature.current >= 0.0
            && (t >= 0.0 ==> new_.temperature.current == t)
            && (t < 0.0 ==> new_.temperature.current == 0.0))
  {
  }

  /** For a non-negative reading and a draw in [0, 1), a simulation tick moves a sensor by at most 0.25. */
  lemma SimulateDataStaysClose(s: BreweryState, env: Env, i: nat, j: nat)
    requires i < |s.devices| && j < |s.devices[i].sensors|
    requires s.devices[i].sensors[j].value >= 0.0
    requires 0.0 <= env.sensorDraw(i, j) < 1.0
    ensures var d := Reduce(s, SimulateData, env).devices[i].sensors[j].value - s.devices[i].sensors[j].value;
      -0.25 <= d < 0.25
  {
    SimulateDataEffect(s, env);
  }

  /** No action other than UPDATE_PID_CONTROLLER touches a controller's `currentValue`. */
  lemma CurrentValueNotRefreshed(s: BreweryState, a: Action, env: Env)
    requires !a.UpdatePidController?
    ensures var r := Reduce(s, a, env);
      && |r.pidControllers| == |s.pidControllers|
      && forall i :: 0 <= i < |s.pidControllers| ==> r.pidControllers[i].currentValue == s.pidControllers[i].currentValue
  {
  }

  // ---------------------------------------------------------------------------
  // The PID control tick run by the provider every two seconds
  // ---------------------------------------------------------------------------

  /** The new output of an enabled controller: the error, times the fixed factor 2, added and clamped to [0, 100]. */
  function TickOutput(c: PidController): (o: real)
    ensures 0.0 <= o <= 100.0
  {
    Max(0.0, Min(100.0, c.output + (c.setpoint - c.currentValue) * 2.0))
  }

  function TickController(c: PidController): PidController {
    c.(output := TickOutput(c))
  }

  /** With a positive error and an output already in [0, 100], a tick never lowers the output. */
  lemma TickRaisesOnPositiveError(c: PidController)
    requires c.setpoint > c.currentValue
    requires 0.0 <= c.output <= 100.0
    ensures c.output <= TickOutput(c)
    ensures c.output < 100.0 ==> c.output < TickOutput(c)
  {
  }

  /** The position of the last enabled controller among `cs[..n]` whose id is `id`, if any. */
  function LastEnabledWithId(cs: seq<PidController>, id: string, n: nat): (r: Option<nat>)
    requires n <= |cs|
    ensures r.Some? ==> r.value < n && cs[r.value].enabled && cs[r.value].id == id
    ensures r.None? <==> forall i :: 0 <= i < n ==> !(cs[i].enabled && cs[i].id == id)
    ensures r.Some? ==> forall i :: r.value < i < n ==> !(cs[i].enabled && cs[i].id == id)
  {
    if n == 0 then None
    else if cs[n - 1].enabled && cs[n - 1].id == id then Some(n - 1)
    else LastEnabledWithId(cs, id, n - 1)
  }

  /** What the tick leaves at a position: the tick of the last enabled controller with that id, else the old one. */
  function TickedAt(cs: seq<PidController>, j: nat, n: nat): PidController
    requires j < |cs| && n <= |cs|
  {
    match LastEnabledWithId(cs, cs[j].id, n)
    case None => cs[j]
    case Some(i) => TickController(cs[i])
  }

  predicate UniqueIds(cs: seq<PidController>) {
    forall i, j :: 0 <= i < j < |cs| ==> cs[i].id != cs[j].id
  }

  /**
   * One control tick: for every enabled controller of the snapshot, in order, dispatch
   * UPDATE_PID_CONTROLLER with its new output.
   */
  method PidTick(s: BreweryState, env: Env) returns (r: BreweryState)
    ensures r.(pidControllers := s.pidControllers) == s
    ensures |r.pidControllers| == |s.pidControllers|
    ensures forall j :: 0 <= j < |s.pidControllers| ==> r.pidControllers[j] == TickedAt(s.pidControllers, j, |s.pidControllers|)
    ensures forall j :: 0 <= j < |s.pidControllers| && !s.pidControllers[j].enabled && UniqueIds(s.pidControllers) ==>
              r.pidControllers[j] == s.pidControllers[j]
    ensures forall j :: 0 <= j < |s.pidControllers| && s.pidControllers[j].enabled && UniqueIds(s.pidControllers) ==>
              r.pidControllers[j] == TickController(s.pidControllers[j])
  {
    var cs := s.pidControllers;
    r := s;
    for k := 0 to |cs|
      invariant r.(pidControllers := cs) == s
      invariant |r.pidControllers| == |cs|
      invariant forall j :: 0 <= j < |cs| ==> r.pidControllers[j] == TickedAt(cs, j, k)
    {
      var c := cs[k];
      if c.enabled {
        r := Reduce(r, UpdatePidController(TickController(c)), env);
      }
    }
    forall j | 0 <= j < |cs| && UniqueIds(cs)
      ensures r.pidControllers[j] == if cs[j].enabled then TickController(cs[j]) else cs[j]
    {
      TickedAtUnique(cs, j);
    }
  }

  /** With unique ids, each controller is ticked exactly when it is enabled. */
  lemma TickedAtUnique(cs: seq<PidController>, j: nat)
    requires j < |cs| && UniqueIds(cs)
    ensures TickedAt(cs, j, |cs|) == if cs[j].enabled then TickController(cs[j]) else cs[j]
  {
    var last := LastEnabledWithId(cs, cs[j].id, |cs|);
    if cs[j].enabled {
      assert last == Some(j);
    } else {
      assert last.None?;
    }
  }

  /** After a tick, every enabled controller's output lies in [0, 100]; disabled ones keep theirs (unique ids). */
  lemma PidTickBounds(s: BreweryState, r: BreweryState, j: nat)
    requires |r.pidControllers| == |s.pidControllers| && j < |s.pidControllers|
    requires r.pidControllers[j] == TickedAt(s.pidControllers, j, |s.pidControllers|)
    requires UniqueIds(s.pidControllers)
    ensures s.pidControllers[j].enabled ==> 0.0 <= r.pidControllers[j].output <= 100.0
    ensures !s.pidControllers[j].enabled ==> r.pidControllers[j].output == s.pidControllers[j].output
  {
    TickedAtUnique(s.pidControllers, j);
  }
}
