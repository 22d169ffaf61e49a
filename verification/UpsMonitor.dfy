/**
 The UPSINFO structure and do_action, updating it field by field.
 The status is the 32-bit word of the C code; `State` reads it as a set of flags.
 */
module UpsMonitor {
  import opened StatusWord
  import opened StatusBits
  import opened UpsReference

  class UpsInfo {
    const cfg: Config
    var status: bv32
    var prevStatus: bv32
    var first: bool
    var requestedLogoff: bool
    var nologinFile: bool
    var shutDown: int
    var selfTest: int
    var lastSelfTest: int
    var lastOnBatt: int
    var lastOffBatt: int
    var lastOnLine: int
    var lastAnnoy: int
    var lastNologon: int
    var lastChangeMe: int
    var startLtime: int
    var startLoad: int
    var startLbatt: int
    var numXfers: int
    var cumTime: int
    var changeBattCounter: int
    ghost var log: seq<Effect>

    /** A zeroed structure with the battery assumed present and the computer plugged in, and a driver's flags. */
    constructor (cfg: Config)
      ensures this.cfg == cfg && State() == Started(cfg)
    {
      hide Flags, Mask, Has, Field;
      this.cfg := cfg;
      status, prevStatus := Mask(BattPresent) | Mask(Plugged), 0;
      first, requestedLogoff, nologinFile := true, false, false;
      shutDown, selfTest, lastSelfTest := 0, 0, 0;
      lastOnBatt, lastOffBatt, lastOnLine, lastAnnoy, lastNologon, lastChangeMe := 0, 0, 0, 0, 0, 0;
      startLtime, startLoad, startLbatt := 0, 0, 0;
      numXfers, cumTime, changeBattCounter := 0, 0, 0;
      log := [];
      new;
      StartedFlags();
      DriverStarts();
    }

    ghost function State(): Ups
      reads this
    {
      Ups(Flags(status), Flags(prevStatus), first, requestedLogoff, nologinFile, shutDown, selfTest, lastSelfTest,
          lastOnBatt, lastOffBatt, lastOnLine, lastAnnoy, lastNologon, lastChangeMe, startLtime, startLoad, startLbatt,
          numXfers, cumTime, changeBattCounter, log)
    }

    // ----- the setters, getters and change detectors of struct.h

    method SetBit(b: Bit)
      modifies `status
      ensures State() == Set(old(State()), b)
    {
      SetAndClear(status, b);
      status := With(status, Mask(b));
    }

    method ClearBit(b: Bit)
      modifies `status
      ensures State() == Clear(old(State()), b)
    {
      SetAndClear(status, b);
      status := Without(status, Mask(b));
    }

    /** The driver's open() sets or clears its own flags. */
    method DriverStarts()
      modifies `status
      ensures State() == old(State()).(status := old(State()).status + cfg.driverFlags * DRIVER_LOCAL)
    {
      hide Flags, With, Mask;
      SetDriverFlag(CommLost);
      SetDriverFlag(Slave);
      SetDriverFlag(SlaveDown);
    }

    method SetDriverFlag(b: Bit)
      modifies `status
      ensures State() == if b in cfg.driverFlags then Set(old(State()), b) else old(State())
    {
      hide *;
      if b in cfg.driverFlags {
        SetBit(b);
      }
    }

    predicate Is(b: Bit): (r: bool)
      reads this
      ensures r <==> b in State().status
    {
      Has(status, Mask(b))
    }

    predicate Chg(b: Bit): (r: bool)
      reads this
      ensures r <==> Changed(State(), b)
    {
      ChangedFlag(status, prevStatus, b);
      Differs(status, prevStatus, Mask(b))
    }

    // ----- events

    method Log(e: Effect)
      modifies `log
      ensures State() == Emit(old(State()), e)
    {
      log := log + [e];
    }

    method GenerateEvent(cmd: Command, shutAt: int)
      modifies this
      ensures State() == Generate(cfg, old(State()), cmd, shutAt)
    {
      Log(Logged(cmd));
      Log(Ran(cmd));
      match cmd {
        case Failing | Timeout | RunLimit | LoadLimit | Emergency | RemoteDown =>
          Log(Logged(DoShutdown));
          StartShutdown(shutAt);
        case _ =>
      }
    }

    method StartShutdown(shutAt: int)
      modifies this
      ensures State() == ShutDownNow(cfg, old(State()), shutAt)
    {
      hide Is, Chg, Flags, With, Without, Mask, Has, Field, Differs, ProhibitLogins;
      if Is(Shutdown) { return; }
      shutDown := shutAt;
      SetBit(Shutdown);
      Log(LockDeleted);
      SetBit(FastPoll);
      Log(PowerfailFile);
      Prohibit();
      if !Is(Slave) && cfg.killOnPowerfail {
        Log(Hibernate);
      }
      Log(Ran(DoShutdown));
      Log(FilesCleared);
      if cfg.terminateOnPowerfail {
        Log(TerminateSent);
      }
    }

    method Prohibit()
      modifies this
      ensures State() == ProhibitLogins(old(State()))
    {
      if nologinFile { return; }
      nologinFile := true;
      Log(LoginsProhibited);
    }

    // ----- the steps of a pass

    /** The driver reports a new status; the local bits are not its to change. */
    method BeginPass(pass: Input, reported: bv32)
      requires Flags(reported) == pass.flags
      modifies this
      ensures State() == Begin(old(State()), pass)
    {
      hide Is, Chg, Flags, With, Without, Mask, Has, Field, Differs, Merged;
      DriverUpdate(status, reported);
      status := Merged(status, reported, LOCAL_MASK);
      if first {
        StartedFlags();
        RestartTimers(pass.now);
        first := false;
        prevStatus := Mask(BattPresent);
      }
    }

    method RestartTimers(now: int)
      modifies `lastNologon, `lastAnnoy, `lastOnLine
      ensures State() == old(State()).(lastNologon := now, lastAnnoy := now, lastOnLine := now)
    {
      lastNologon := now;
      lastAnnoy := now;
      lastOnLine := now;
    }

    method CheckReplaceBattery(pass: Input)
      modifies this
      ensures State() == ReplaceBattery(cfg, old(State()), pass)
    {
      hide Is, Chg, Flags, With, Without, Mask, Has, Field, Differs,
           Set, Clear, Emit, Generate, ProhibitLogins, ShutDownNow;
      if Is(ReplaceBatt) {
        if pass.now - cfg.startTime < 60 * 10 || changeBattCounter > 5 {
          ClearBit(ReplaceBatt);
          changeBattCounter := 0;
        } else if pass.now - lastChangeMe > 60 * 60 * 9 {
          GenerateEvent(ChangeMe, pass.shutAt);
          lastChangeMe := pass.now;
          changeBattCounter := changeBattCounter + 1;
        }
      }
    }

    method GetState() returns (k: Kind)
      ensures k == Classify(State())
    {
      hide Is, Chg, Flags, With, Without, Mask, Has, Field, Differs,
           Set, Clear, Emit, Generate, ProhibitLogins, ShutDownNow;
      if Is(OnBatt) {
        if Is(Calibration) {
          k := Calibrating;
        } else if Chg(OnBatt) {
          k := PowerFailure;
        } else if selfTest != 0 {
          k := SelfTest;
        } else {
          k := OnBatteries;
        }
      } else if Chg(OnBatt) {
        k := BackOnMains;
      } else {
        k := OnMains;
      }
    }

    method HandlePowerFailure(pass: Input)
      modifies this
      ensures State() == PowerFails(cfg, old(State()), pass)
    {
      hide Is, Chg, Flags, With, Without, Mask, Has, Field, Differs, Generate, Set, Emit, FailureEvent;
      SetBit(FastPoll);
      AnnounceFailure(pass);
      RestartTimers(pass.now);
      lastOnBatt := pass.now;
      numXfers := numXfers + 1;
      Log(DriverCalled);
    }

    /** Asks the driver whether this is a self test, and announces the one or the other. */
    method AnnounceFailure(pass: Input)
      modifies this
      ensures State() == FailureEvent(cfg, old(State()), pass)
    {
      hide Is, Chg, Flags, With, Without, Mask, Has, Field, Differs, Generate;
      Log(DriverCalled);
      if pass.selfTest.Some? {
        selfTest := pass.selfTest.value;
      }
      if selfTest != 0 {
        GenerateEvent(StartSelfTest, pass.shutAt);
      } else {
        GenerateEvent(PowerOut, pass.shutAt);
      }
    }

    method HandleOnBattery(pass: Input)
      modifies this
      ensures State() == StayOnBattery(cfg, old(State()), pass)
    {
      hide Is, Chg, Flags, With, Without, Mask, Has, Field, Differs,
           Set, Clear, Emit, Generate, ProhibitLogins, ShutDownNow;
      if !Is(OnBattMsg) && pass.confirmAt - lastOnLine >= cfg.onbattDelay {
        SetBit(OnBattMsg);
        GenerateEvent(OnBattery, pass.shutAt);
        RestartTimers(pass.now);
        return;
      }
      if Is(Shutdown) {
        if cfg.killDelay != 0 && pass.now - shutDown >= cfg.killDelay {
          if !Is(Slave) {
            Log(Hibernate);
          }
          shutDown := pass.now;
          SetBit(Shutdown);
        }
        return;
      }
      if cfg.maxTime > 0 && pass.now - lastOnLine > cfg.maxTime {
        SetBit(ShutBtime);
        GenerateEvent(Timeout, pass.shutAt);
        return;
      }
      UpdateChargeTimer(pass);
      UpdateRuntimeTimer(pass);
      HandleLimits(pass);
    }

    method UpdateChargeTimer(pass: Input)
      modifies this
      ensures State() == ChargeTimer(cfg, old(State()), pass)
    {
      hide Is, Chg, Flags, With, Without, Mask, Has, Field, Differs, Clear;
      if cfg.hasCharge && pass.charge <= cfg.percent as real {
        if !Is(ShutLoad) {
          SetBit(ShutLoad);
          startLoad := pass.now;
        }
      } else {
        ClearBit(ShutLoad);
      }
    }

    method UpdateRuntimeTimer(pass: Input)
      modifies this
      ensures State() == RuntimeTimer(cfg, old(State()), pass)
    {
      hide Is, Chg, Flags, With, Without, Mask, Has, Field, Differs, Clear;
      if cfg.hasRuntime && pass.timeLeft <= cfg.runtime as real {
        if !Is(ShutLtime) {
          SetBit(ShutLtime);
          startLtime := pass.now;
        }
      } else {
        ClearBit(ShutLtime);
      }
    }

    method HandleLimits(pass: Input)
      modifies this
      ensures State() == CheckLimits(cfg, old(State()), pass)
    {
      hide Is, Chg, Flags, With, Without, Mask, Has, Field, Differs,
           Set, Clear, Emit, Generate, ProhibitLogins, ShutDownNow;
      if Is(BattLow) && pass.now - startLbatt >= 5 {
        GenerateEvent(Failing, pass.shutAt);
        return;
      }
      if Is(ShutLoad) && pass.now - startLoad >= 5 {
        GenerateEvent(LoadLimit, pass.shutAt);
        return;
      }
      if Is(ShutLtime) && pass.now - startLtime >= 5 {
        GenerateEvent(RunLimit, pass.shutAt);
        return;
      }
      if Is(BattLow) && Is(Online) {
        SetBit(ShutEmerg);
        GenerateEvent(Emergency, pass.shutAt);
      }
      HandleAnnoy(pass);
      HandleLogins(pass);
    }

    method HandleAnnoy(pass: Input)
      modifies this
      ensures State() == AnnoyUsers(cfg, old(State()), pass)
    {
      hide Is, Chg, Flags, With, Without, Mask, Has, Field, Differs, Generate;
      if pass.now - lastOnLine > cfg.annoyDelay && pass.now - lastAnnoy > cfg.annoy && nologinFile {
        if !requestedLogoff {
          GenerateEvent(AnnoyMe, pass.shutAt);
        } else {
          Log(Ran(AnnoyMe));
        }
        lastAnnoy := pass.annoyAt;
        requestedLogoff := true;
      }
    }

    method HandleLogins(pass: Input)
      modifies this
      ensures State() == DelayLogins(cfg, old(State()), pass)
    {
      hide Is, Chg, Flags, With, Without, Mask, Has, Field, Differs;
      if !nologinFile {
        match cfg.loginPolicy {
          case Never =>
          case AfterTimeout =>
            if pass.now - lastNologon > cfg.loginTime { Prohibit(); }
          case BelowPercent =>
            if cfg.hasCharge && cfg.loginTime as real >= pass.charge { Prohibit(); }
          case BelowMinutes =>
            if cfg.hasRuntime && cfg.loginTime as real >= pass.timeLeft { Prohibit(); }
          case Always =>
            Prohibit();
        }
      }
    }

    method HandleMainsBack(pass: Input)
      modifies this
      ensures State() == PowerReturns(cfg, old(State()), pass)
    {
      hide Is, Chg, Flags, With, Without, Mask, Has, Field, Differs,
           Set, Clear, Generate, Emit, ReturnEvent, ReopenLogins, EndInterval;
      if Is(OnBattMsg) {
        ClearBit(OnBattMsg);
        GenerateEvent(OffBattery, pass.shutAt);
      }
      AnnounceReturn(pass);
      AllowLogins();
      CloseInterval(pass.now);
    }

    method CloseInterval(now: int)
      modifies `lastOffBatt, `lastOnBatt, `cumTime
      ensures State() == EndInterval(old(State()), now)
    {
      lastOffBatt := now;
      if lastOnBatt <= 0 {
        lastOnBatt := lastOffBatt;
      }
      cumTime := cumTime + (lastOffBatt - lastOnBatt);
    }

    method AnnounceReturn(pass: Input)
      modifies this
      ensures State() == ReturnEvent(cfg, old(State()), pass)
    {
      hide Is, Chg, Flags, With, Without, Mask, Has, Field, Differs, Generate;
      if selfTest != 0 {
        lastSelfTest := selfTest;
        selfTest := 0;
        Log(DriverCalled);
        Log(Ran(EndSelfTest));
      } else {
        GenerateEvent(MainsBack, pass.shutAt);
      }
    }

    method AllowLogins()
      modifies `log, `nologinFile, `requestedLogoff
      ensures State() == ReopenLogins(old(State()))
    {
      hide Is, Chg, Flags, With, Without, Mask, Has, Field, Differs;
      Log(LoginsAllowed);
      nologinFile := false;
      requestedLogoff := false;
      Log(DriverCalled);
    }

    /** do_action: one pass over a status word the driver has just reported. */
    method DoAction(pass: Input, reported: bv32)
      requires Flags(reported) == pass.flags
      modifies this
      ensures State() == Pass(cfg, old(State()), pass)
    {
      hide Is, Chg, Flags, With, Without, Mask, Has, Field, Differs,
           Generate, ReplaceBattery, Act, Begin, BatteryAttached, BatteryLow;
      BeginPass(pass, reported);
      CheckReplaceBattery(pass);
      if Is(ShutRemote) {
        if Chg(ShutRemote) {
          GenerateEvent(RemoteDown, pass.shutAt);
        }
        prevStatus := status;
        return;
      }
      CheckBattery(pass);
      TakeAction(pass);
      prevStatus := status;
    }

    method CheckBattery(pass: Input)
      modifies this
      ensures State() == BatteryLow(BatteryAttached(cfg, old(State()), pass), pass)
    {
      hide Is, Chg, Flags, With, Without, Mask, Has, Field, Differs, Generate;
      if Chg(BattPresent) {
        if Is(BattPresent) {
          GenerateEvent(BattAttach, pass.shutAt);
        } else {
          GenerateEvent(BattDetach, pass.shutAt);
        }
      }
      if Chg(BattLow) {
        if Is(BattLow) {
          startLbatt := pass.now;
        }
      }
    }

    method TakeAction(pass: Input)
      modifies this
      ensures State() == Act(cfg, old(State()), pass)
    {
      hide Is, Chg, Flags, With, Without, Mask, Has, Field, Differs,
           Set, Clear, Emit, Generate, ProhibitLogins, ShutDownNow;
      var state := GetState();
      match state {
        case OnMains =>
          RestartTimers(pass.now);
          ClearBit(FastPoll);
        case PowerFailure =>
          HandlePowerFailure(pass);
        case SelfTest =>
          if pass.now - selfTest < 40 && !Is(BattLow) {
            return;
          }
          selfTest := 0;
          HandleOnBattery(pass);
        case OnBatteries =>
          HandleOnBattery(pass);
        case BackOnMains =>
          HandleMainsBack(pass);
        case Calibrating =>
      }
    }
  }

  /** The daemon's passes one after the other, on the words the driver reports. */
  method Monitor(cfg: Config, passes: seq<Input>, words: seq<bv32>) returns (m: UpsInfo)
    requires |words| == |passes| && forall k :: 0 <= k < |passes| ==> Flags(words[k]) == passes[k].flags
    ensures m.cfg == cfg && m.State() == Run(cfg, passes)
  {
    hide Flags, Pass;
    m := new UpsInfo(cfg);
    assert passes[..0] == [];
    for n := 0 to |passes|
      invariant fresh(m) && m.cfg == cfg && m.State() == Run(cfg, passes[..n])
    {
      assert passes[..n + 1][..n] == passes[..n];
      m.DoAction(passes[n], words[n]);
    }
    assert passes[..|passes|] == passes;
  }

  lemma StartedFlags()
    ensures Flags(Mask(BattPresent) | Mask(Plugged)) == {BattPresent, Plugged} && Flags(0) == {}
    ensures Flags(Mask(BattPresent)) == {BattPresent}
  {
    assert With(0, Mask(BattPresent)) == Mask(BattPresent);
    SetAndClear(0, BattPresent);
    SetAndClear(Mask(BattPresent), Plugged);
  }
}
