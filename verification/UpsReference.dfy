/**
 One pass of the UPS event state machine as a function from one state to the next.
 Each step of the pass is its own function; `Pass` puts them together.
 */
module UpsReference {
  import opened Wrappers
  import opened StatusBits

  datatype Command =
    | PowerOut | OnBattery | Failing | Timeout | LoadLimit | RunLimit | DoShutdown | MainsBack | AnnoyMe | Emergency
    | ChangeMe | RemoteDown | CommFailure | CommOk | StartSelfTest | EndSelfTest | OffBattery | BattDetach | BattAttach

  /** What a pass does to the world outside, in order. */
  datatype Effect =
    | Logged(cmd: Command)
    | Ran(cmd: Command)
    | LockDeleted
    | PowerfailFile
    | LoginsProhibited
    | LoginsAllowed
    | Hibernate
    | FilesCleared
    | TerminateSent
    | DriverCalled

  datatype LoginPolicy = Never | AfterTimeout | BelowPercent | BelowMinutes | Always

  /** What the configuration file and the driver's start-up fix. */
  datatype Config = Config(startTime: int, onbattDelay: int, killDelay: int, maxTime: int, percent: int, runtime: int,
                           annoy: int, annoyDelay: int, loginPolicy: LoginPolicy, loginTime: int,
                           hasCharge: bool, hasRuntime: bool, killOnPowerfail: bool, terminateOnPowerfail: bool,
                           driverFlags: set<Bit>)

  /** What one pass reads from the clock and from the driver. */
  datatype Input = Input(
    now: int,                       // the clock at the start of the pass
    confirmAt: int,                 // the clock when the on-battery delay is checked
    shutAt: int,                    // the clock when a shutdown starts
    annoyAt: int,                   // the clock when users were asked to log off
    flags: set<Bit>,                // the status the driver last reported
    charge: real,
    timeLeft: real,
    selfTest: Option<int>)          // set when the driver answers that this transfer is a self test

  datatype Ups = Ups(
    status: set<Bit>, prevStatus: set<Bit>,
    first: bool, requestedLogoff: bool, nologinFile: bool,
    shutDown: int, selfTest: int, lastSelfTest: int,
    lastOnBatt: int, lastOffBatt: int, lastOnLine: int, lastAnnoy: int, lastNologon: int, lastChangeMe: int,
    startLtime: int, startLoad: int, startLbatt: int,
    numXfers: int, cumTime: int, changeBattCounter: int,
    log: seq<Effect>)

  /** The local flags that belong to the driver; the one for a network client sets Slave. */
  const DRIVER_LOCAL: set<Bit> := {CommLost, Slave, SlaveDown}

  /** The state the daemon starts in. */
  function Started(cfg: Config): Ups {
    Ups({BattPresent, Plugged} + cfg.driverFlags * DRIVER_LOCAL, {}, true, false, false,
        0, 0, 0, 0, 0, 0, 0, 0, 0, 0, 0, 0, 0, 0, 0, [])
  }

  datatype Kind = PowerFailure | SelfTest | OnBatteries | BackOnMains | OnMains | Calibrating

  /** The six events that bring the system down. */
  const SHUTDOWN_CAUSES: set<Command> := {Failing, Timeout, RunLimit, LoadLimit, Emergency, RemoteDown}

  function Set(u: Ups, b: Bit): Ups {
    u.(status := u.status + {b})
  }

  function Clear(u: Ups, b: Bit): Ups {
    u.(status := u.status - {b})
  }

  function Emit(u: Ups, e: Effect): Ups {
    u.(log := u.log + [e])
  }

  predicate Changed(u: Ups, b: Bit) {
    (b in u.status) != (b in u.prevStatus)
  }

  function ProhibitLogins(u: Ups): Ups {
    if u.nologinFile then u else Emit(u.(nologinFile := true), LoginsProhibited)
  }

  function ShutDownNow(cfg: Config, u: Ups, shutAt: int): Ups {
    if Shutdown in u.status then u else
      var u := Emit(Set(u.(shutDown := shutAt), Shutdown), LockDeleted);
      var u := Emit(Set(u, FastPoll), PowerfailFile);
      var u := ProhibitLogins(u);
      var u := if Slave !in u.status && cfg.killOnPowerfail then Emit(u, Hibernate) else u;
      var u := Emit(Emit(u, Ran(DoShutdown)), FilesCleared);
      if cfg.terminateOnPowerfail then Emit(u, TerminateSent) else u
  }

  function Generate(cfg: Config, u: Ups, cmd: Command, shutAt: int): Ups {
    var u := Emit(Emit(u, Logged(cmd)), Ran(cmd));
    if cmd in SHUTDOWN_CAUSES then ShutDownNow(cfg, Emit(u, Logged(DoShutdown)), shutAt) else u
  }

  // ----- the steps of a pass

  function Begin(u: Ups, pass: Input): Ups {
    var u := u.(status := u.status * LOCAL + (pass.flags - LOCAL));
    if u.first then
      u.(first := false, lastNologon := pass.now, lastAnnoy := pass.now, lastOnLine := pass.now,
         prevStatus := {BattPresent})
    else u
  }

  function ReplaceBattery(cfg: Config, u: Ups, pass: Input): Ups {
    if ReplaceBatt !in u.status then u
    else if pass.now - cfg.startTime < 60 * 10 || u.changeBattCounter > 5 then
      Clear(u, ReplaceBatt).(changeBattCounter := 0)
    else if pass.now - u.lastChangeMe > 60 * 60 * 9 then
      var u := Generate(cfg, u, ChangeMe, pass.shutAt);
      u.(lastChangeMe := pass.now, changeBattCounter := u.changeBattCounter + 1)
    else u
  }

  function RemoteShutdown(cfg: Config, u: Ups, pass: Input): Ups {
    if Changed(u, ShutRemote) then Generate(cfg, u, RemoteDown, pass.shutAt) else u
  }

  function BatteryAttached(cfg: Config, u: Ups, pass: Input): Ups {
    if !Changed(u, BattPresent) then u
    else Generate(cfg, u, if BattPresent in u.status then BattAttach else BattDetach, pass.shutAt)
  }

  function BatteryLow(u: Ups, pass: Input): Ups {
    if Changed(u, BattLow) && BattLow in u.status then u.(startLbatt := pass.now) else u
  }

  function Classify(u: Ups): Kind {
    if OnBatt in u.status then
      if Calibration in u.status then Calibrating
      else if Changed(u, OnBatt) then PowerFailure
      else if u.selfTest != 0 then SelfTest
      else OnBatteries
    else if Changed(u, OnBatt) then BackOnMains
    else OnMains
  }

  function StayOnMains(u: Ups, pass: Input): Ups {
    Clear(u.(lastNologon := pass.now, lastAnnoy := pass.now, lastOnLine := pass.now), FastPoll)
  }

  function PowerFails(cfg: Config, u: Ups, pass: Input): Ups {
    var u := FailureEvent(cfg, Set(u, FastPoll), pass);
    Emit(u.(lastNologon := pass.now, lastAnnoy := pass.now, lastOnLine := pass.now,
            lastOnBatt := pass.now, numXfers := u.numXfers + 1), DriverCalled)
  }

  function FailureEvent(cfg: Config, u: Ups, pass: Input): Ups {
    var u := Emit(u, DriverCalled);
    var u := if pass.selfTest.Some? then u.(selfTest := pass.selfTest.value) else u;
    Generate(cfg, u, if u.selfTest != 0 then StartSelfTest else PowerOut, pass.shutAt)
  }

  function PowerReturns(cfg: Config, u: Ups, pass: Input): Ups {
    var u := if OnBattMsg in u.status then Generate(cfg, Clear(u, OnBattMsg), OffBattery, pass.shutAt) else u;
    EndInterval(ReopenLogins(ReturnEvent(cfg, u, pass)), pass.now)
  }

  function EndInterval(u: Ups, now: int): Ups {
    var began := if u.lastOnBatt <= 0 then now else u.lastOnBatt;
    u.(lastOffBatt := now, lastOnBatt := began, cumTime := u.cumTime + (now - began))
  }

  function ReturnEvent(cfg: Config, u: Ups, pass: Input): Ups {
    if u.selfTest != 0
    then Emit(Emit(u.(lastSelfTest := u.selfTest, selfTest := 0), DriverCalled), Ran(EndSelfTest))
    else Generate(cfg, u, MainsBack, pass.shutAt)
  }

  function ReopenLogins(u: Ups): Ups {
    Emit(Emit(u.(nologinFile := false, requestedLogoff := false), LoginsAllowed), DriverCalled)
  }

  /** A self test may run on battery for 40 seconds, unless the battery is low. */
  predicate SelfTestGoesOn(u: Ups, pass: Input) {
    pass.now - u.selfTest < 40 && BattLow !in u.status
  }

  predicate Announces(cfg: Config, u: Ups, pass: Input) {
    OnBattMsg !in u.status && pass.confirmAt - u.lastOnLine >= cfg.onbattDelay
  }

  function StayOnBattery(cfg: Config, u: Ups, pass: Input): Ups {
    if Announces(cfg, u, pass) then
      Generate(cfg, Set(u, OnBattMsg), OnBattery, pass.shutAt)
        .(lastNologon := pass.now, lastAnnoy := pass.now, lastOnLine := pass.now)
    else if Shutdown in u.status then KillPower(cfg, u, pass)
    else if cfg.maxTime > 0 && pass.now - u.lastOnLine > cfg.maxTime then
      Generate(cfg, Set(u, ShutBtime), Timeout, pass.shutAt)
    else CheckLimits(cfg, RuntimeTimer(cfg, ChargeTimer(cfg, u, pass), pass), pass)
  }

  function KillPower(cfg: Config, u: Ups, pass: Input): Ups {
    if cfg.killDelay != 0 && pass.now - u.shutDown >= cfg.killDelay then
      Set((if Slave in u.status then u else Emit(u, Hibernate)).(shutDown := pass.now), Shutdown)
    else u
  }

  predicate ChargeIsLow(cfg: Config, pass: Input) {
    cfg.hasCharge && pass.charge <= cfg.percent as real
  }

  predicate RuntimeIsLow(cfg: Config, pass: Input) {
    cfg.hasRuntime && pass.timeLeft <= cfg.runtime as real
  }

  function ChargeTimer(cfg: Config, u: Ups, pass: Input): Ups {
    if !ChargeIsLow(cfg, pass) then Clear(u, ShutLoad)
    else if ShutLoad in u.status then u
    else Set(u, ShutLoad).(startLoad := pass.now)
  }

  function RuntimeTimer(cfg: Config, u: Ups, pass: Input): Ups {
    if !RuntimeIsLow(cfg, pass) then Clear(u, ShutLtime)
    else if ShutLtime in u.status then u
    else Set(u, ShutLtime).(startLtime := pass.now)
  }

  function CheckLimits(cfg: Config, u: Ups, pass: Input): Ups {
    if BattLow in u.status && pass.now - u.startLbatt >= 5 then Generate(cfg, u, Failing, pass.shutAt)
    else if ShutLoad in u.status && pass.now - u.startLoad >= 5 then Generate(cfg, u, LoadLimit, pass.shutAt)
    else if ShutLtime in u.status && pass.now - u.startLtime >= 5 then Generate(cfg, u, RunLimit, pass.shutAt)
    else DelayLogins(cfg, AnnoyUsers(cfg, DeadBattery(cfg, u, pass), pass), pass)
  }

  function DeadBattery(cfg: Config, u: Ups, pass: Input): Ups {
    if BattLow in u.status && Online in u.status then Generate(cfg, Set(u, ShutEmerg), Emergency, pass.shutAt) else u
  }

  function AnnoyUsers(cfg: Config, u: Ups, pass: Input): Ups {
    if pass.now - u.lastOnLine > cfg.annoyDelay && pass.now - u.lastAnnoy > cfg.annoy && u.nologinFile then
      (if u.requestedLogoff then Emit(u, Ran(AnnoyMe)) else Generate(cfg, u, AnnoyMe, pass.shutAt))
        .(lastAnnoy := pass.annoyAt, requestedLogoff := true)
    else u
  }

  function DelayLogins(cfg: Config, u: Ups, pass: Input): Ups {
    var due := match cfg.loginPolicy
      case Never => false
      case AfterTimeout => pass.now - u.lastNologon > cfg.loginTime
      case BelowPercent => cfg.hasCharge && cfg.loginTime as real >= pass.charge
      case BelowMinutes => cfg.hasRuntime && cfg.loginTime as real >= pass.timeLeft
      case Always => true;
    if due then ProhibitLogins(u) else u
  }

  function Act(cfg: Config, u: Ups, pass: Input): Ups {
    match Classify(u)
    case OnMains => StayOnMains(u, pass)
    case PowerFailure => PowerFails(cfg, u, pass)
    case SelfTest =>
      if SelfTestGoesOn(u, pass) then u else StayOnBattery(cfg, u.(selfTest := 0), pass)
    case OnBatteries => StayOnBattery(cfg, u, pass)
    case BackOnMains => PowerReturns(cfg, u, pass)
    case Calibrating => u
  }

  function Remember(u: Ups): Ups {
    u.(prevStatus := u.status)
  }

  /** The state in which the pass is classified. */
  function Prepared(cfg: Config, u: Ups, pass: Input): Ups {
    BatteryLow(BatteryAttached(cfg, ReplaceBattery(cfg, Begin(u, pass), pass), pass), pass)
  }

  /** The state after any sequence of passes. */
  function Run(cfg: Config, passes: seq<Input>): Ups {
    if passes == [] then Started(cfg)
    else Pass(cfg, Run(cfg, passes[..|passes| - 1]), passes[|passes| - 1])
  }

  function Pass(cfg: Config, u: Ups, pass: Input): Ups {
    var begun := ReplaceBattery(cfg, Begin(u, pass), pass);
    if ShutRemote in begun.status then Remember(RemoteShutdown(cfg, begun, pass))
    else Remember(Act(cfg, BatteryLow(BatteryAttached(cfg, begun, pass), pass), pass))
  }
}
