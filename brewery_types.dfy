/**
 * The entities of the brewery dashboard's state store (frontend/webapp/src/types/brewery.ts).
 * Measured values are `real`; dates are instants in milliseconds since the epoch.
 */
module BreweryTypes {
  import opened Common

  /** A `Date`, as milliseconds since the epoch. */
  type Time = int

  datatype SensorKind = Temperature | Pressure | Flow | Density | Ph | Level

  datatype HealthStatus = Online | Offline | HealthError

  datatype Sensor = Sensor(
    id: string,
    name: string,
    kind: SensorKind,
    value: real,
    unit: string,
    status: HealthStatus,
    lastUpdate: Time,
    deviceId: string,
    minValue: Option<real>,
    maxValue: Option<real>,
    calibrationOffset: Option<real>)

  datatype EquipmentKind = Pump | Valve | Heater | Cooler | Stirrer | Element

  /** The run status of an actuator: 'on' | 'off' | 'auto' | 'error'. */
  datatype EquipmentStatus = On | Off | Auto | Faulted

  datatype ControlMode = Manual | AutoMode | PidMode

  datatype Position = Position(x: real, y: real)

  datatype Equipment = Equipment(
    id: string,
    name: string,
    kind: EquipmentKind,
    status: EquipmentStatus,
    power: Option<real>,
    controlMode: ControlMode,
    deviceId: string,
    position: Option<Position>,
    isOpen: Option<bool>,
    flowRate: Option<real>)

  datatype PidMode = Heating | Cooling | Both

  datatype PidController = PidController(
    id: string,
    name: string,
    enabled: bool,
    setpoint: real,
    currentValue: real,
    output: real,
    kp: real,
    ki: real,
    kd: real,
    sensorId: string,
    equipmentId: string,
    mode: PidMode)

  datatype StepKind = Mash | Sparge | Boil | Whirlpool | Chill

  datatype BrewingStep = BrewingStep(
    id: string,
    name: string,
    kind: StepKind,
    temperature: Option<real>,
    duration: real,          // minutes
    description: Option<string>,
    completed: bool)

  datatype Recipe = Recipe(
    id: string,
    name: string,
    style: string,
    batchSize: real,
    steps: seq<BrewingStep>,
    createdAt: Time,
    lastUsed: Option<Time>)

  datatype ProcessKind = MashProcess | BoilProcess | Fermentation | Conditioning

  datatype ProcessStatus = Idle | Running | Paused | Completed | ProcessError

  datatype BrewingProcess = BrewingProcess(
    id: string,
    name: string,
    recipeId: Option<string>,
    kind: ProcessKind,
    status: ProcessStatus,
    startTime: Option<Time>,
    endTime: Option<Time>,
    currentStep: int,
    totalSteps: int,
    progress: real,
    currentStepStartTime: Option<Time>,
    estimatedTimeRemaining: Option<real>)

  datatype ProfileStep = ProfileStep(temperature: real, duration: real, rampRate: Option<real>)

  datatype FermentationProfile = FermentationProfile(id: string, name: string, steps: seq<ProfileStep>)

  datatype VesselKind = MashTun | BoilKettle | Fermenter | BriteTank

  datatype VesselTemperature = VesselTemperature(current: real, target: real, sensorId: string)

  datatype HeatingElement = HeatingElement(equipmentId: string, power: real, maxPower: real)

  datatype Connection = Connection(vesselId: string, valveId: string, pumpId: Option<string>)

  datatype Vessel = Vessel(
    id: string,
    name: string,
    kind: VesselKind,
    volume: real,
    currentVolume: Option<real>,
    temperature: VesselTemperature,
    heatingElement: Option<HeatingElement>,
    position: Position,
    connections: seq<Connection>)

  datatype DeviceKind = Esp32 | Plc | Hydrometer | RaspberryPi

  datatype Device = Device(
    id: string,
    name: string,
    kind: DeviceKind,
    status: HealthStatus,
    ipAddress: Option<string>,
    mqttTopic: string,
    lastSeen: Time,
    sensors: seq<Sensor>,
    equipment: seq<Equipment>,
    firmwareVersion: Option<string>,
    batteryLevel: Option<real>)

  datatype AlarmSeverity = Warning | AlarmError | Info | Critical

  datatype AlarmCategory = TemperatureAlarm | PressureAlarm | EquipmentAlarm | ProcessAlarm | SystemAlarm

  datatype Alarm = Alarm(
    id: string,
    severity: AlarmSeverity,
    message: string,
    timestamp: Time,
    acknowledged: bool,
    source: string,
    category: AlarmCategory,
    autoAcknowledge: Option<bool>)

  datatype DataLog = DataLog(id: string, timestamp: Time, sensorId: string, value: real, processId: Option<string>)

  datatype SystemStatus = Normal | SystemWarning | SystemError

  datatype BreweryState = BreweryState(
    devices: seq<Device>,
    vessels: seq<Vessel>,
    processes: seq<BrewingProcess>,
    recipes: seq<Recipe>,
    pidControllers: seq<PidController>,
    fermentationProfiles: seq<FermentationProfile>,
    alarms: seq<Alarm>,
    dataLogs: seq<DataLog>,
    mqttConnected: bool,
    systemStatus: SystemStatus,
    currentUser: Option<string>)
}
