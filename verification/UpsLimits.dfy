/**
 The charge and runtime limits (BATTERYLEVEL and MINUTES in apcupsd.conf): what their 5-second
 debounce timers guarantee over every run, and what they do not.
 */
module UpsLimits {
  import opened Wrappers
  import opened StatusBits
  import opened UpsReference
  import opened UpsEvents
  import opened UpsPass
  import opened UpsHistory

  datatype Limit = Charge | Runtime

  function Flag(l: Limit): Bit {
    if l == Charge then ShutLoad else ShutLtime
  }

  function Cmd(l: Limit): Command {
    if l == Charge then LoadLimit else RunLimit
  }

  function Timer(u: Ups, l: Limit): int {
    if l == Charge then u.startLoad else u.startLtime
  }

  predicate Below(cfg: Config, pass: Input, l: Limit) {
    if l == Charge then ChargeIsLow(cfg, pass) else RuntimeIsLow(cfg, pass)
  }

  /** A step that leaves a limit's flag and timer alone and does not run its command. */
  ghost predicate Quiet(l: Limit, u: Ups, v: Ups) {
    && (Flag(l) in v.status <==> Flag(l) in u.status) && Timer(v, l) == Timer(u, l)
    && Runs(v.log, Cmd(l)) == Runs(u.log, Cmd(l))
  }

  lemma QuietThen(l: Limit, u: Ups, v: Ups, w: Ups)
    requires Quiet(l, u, v) && Quiet(l, v, w)
    ensures Quiet(l, u, w)
  {
  }

  /** A step that writes no log. */
  lemma QuietUpdate(l: Limit, u: Ups, v: Ups)
    requires v.log == u.log && v.startLoad == u.startLoad && v.startLtime == u.startLtime
    requires Flag(l) in v.status <==> Flag(l) in u.status
    ensures Quiet(l, u, v)
  {
  }

  lemma QuietEmit(l: Limit, u: Ups, e: Effect)
    requires e != Ran(Cmd(l))
    ensures Quiet(l, u, Emit(u, e))
  {
    hide Runs;
    EmitRuns(u, e, Cmd(l));
  }

  lemma QuietEvent(l: Limit, cfg: Config, u: Ups, cmd: Command, shutAt: int)
    requires cmd != Cmd(l)
    ensures Quiet(l, u, Generate(cfg, u, cmd, shutAt))
  {
    hide Runs, Generate;
    GenerateFrame(cfg, u, cmd, shutAt);
    GenerateRuns(cfg, u, cmd, shutAt, Cmd(l));
  }

  // ----- the steps that are quiet

  lemma QuietPrepared(l: Limit, cfg: Config, u: Ups, pass: Input)
    ensures Quiet(l, u, ReplaceBattery(cfg, Begin(u, pass), pass))
    ensures Quiet(l, u, Prepared(cfg, u, pass))
  {
    hide Quiet, Generate;
    var u1 := Begin(u, pass);
    QuietUpdate(l, u, u1);
    QuietReplaceBattery(l, cfg, u1, pass);
    var u2 := ReplaceBattery(cfg, u1, pass);
    QuietThen(l, u, u1, u2);
    QuietBatteryAttached(l, cfg, u2, pass);
    var u3 := BatteryAttached(cfg, u2, pass);
    QuietThen(l, u, u2, u3);
    QuietUpdate(l, u3, BatteryLow(u3, pass));
    QuietThen(l, u, u3, BatteryLow(u3, pass));
  }

  lemma QuietReplaceBattery(l: Limit, cfg: Config, u: Ups, pass: Input)
    ensures Quiet(l, u, ReplaceBattery(cfg, u, pass))
  {
    hide Quiet, Generate;
    QuietUpdate(l, u, u);
    QuietUpdate(l, u, Clear(u, ReplaceBatt).(changeBattCounter := 0));
    var v := Generate(cfg, u, ChangeMe, pass.shutAt);
    var w := v.(lastChangeMe := pass.now, changeBattCounter := v.changeBattCounter + 1);
    QuietEvent(l, cfg, u, ChangeMe, pass.shutAt);
    QuietUpdate(l, v, w);
    QuietThen(l, u, v, w);
  }

  lemma QuietBatteryAttached(l: Limit, cfg: Config, u: Ups, pass: Input)
    ensures Quiet(l, u, BatteryAttached(cfg, u, pass))
  {
    hide Quiet, Generate;
    QuietUpdate(l, u, u);
    QuietEvent(l, cfg, u, BattAttach, pass.shutAt);
    QuietEvent(l, cfg, u, BattDetach, pass.shutAt);
  }

  lemma QuietRemote(l: Limit, cfg: Config, u: Ups, pass: Input)
    ensures Quiet(l, u, RemoteShutdown(cfg, u, pass))
  {
    hide Quiet, Generate;
    QuietUpdate(l, u, u);
    QuietEvent(l, cfg, u, RemoteDown, pass.shutAt);
  }

  lemma QuietPowerFails(l: Limit, cfg: Config, u: Ups, pass: Input)
    ensures Quiet(l, u, PowerFails(cfg, u, pass))
  {
    hide Quiet, Generate, FailureEvent;
    var u1 := Set(u, FastPoll);
    QuietUpdate(l, u, u1);
    QuietFailureEvent(l, cfg, u1, pass);
    var u2 := FailureEvent(cfg, u1, pass);
    QuietThen(l, u, u1, u2);
    var u3 := u2.(lastNologon := pass.now, lastAnnoy := pass.now, lastOnLine := pass.now,
                  lastOnBatt := pass.now, numXfers := u2.numXfers + 1);
    QuietUpdate(l, u2, u3);
    QuietThen(l, u, u2, u3);
    QuietEmit(l, u3, DriverCalled);
    QuietThen(l, u, u3, Emit(u3, DriverCalled));
  }

  lemma QuietFailureEvent(l: Limit, cfg: Config, u: Ups, pass: Input)
    ensures Quiet(l, u, FailureEvent(cfg, u, pass))
  {
    hide Quiet, Generate;
    var u1 := Emit(u, DriverCalled);
    QuietEmit(l, u, DriverCalled);
    var u2 := if pass.selfTest.Some? then u1.(selfTest := pass.selfTest.value) else u1;
    QuietUpdate(l, u1, u2);
    QuietThen(l, u, u1, u2);
    QuietEvent(l, cfg, u2, FailureCommand(u, pass), pass.shutAt);
    QuietThen(l, u, u2, FailureEvent(cfg, u, pass));
  }

  lemma QuietPowerReturns(l: Limit, cfg: Config, u: Ups, pass: Input)
    ensures Quiet(l, u, PowerReturns(cfg, u, pass))
  {
    hide Quiet, Generate, ReturnEvent, ReopenLogins;
    var u1 := if OnBattMsg in u.status then Generate(cfg, Clear(u, OnBattMsg), OffBattery, pass.shutAt) else u;
    QuietUpdate(l, u, u);
    QuietUpdate(l, u, Clear(u, OnBattMsg));
    QuietEvent(l, cfg, Clear(u, OnBattMsg), OffBattery, pass.shutAt);
    if OnBattMsg in u.status {
      QuietThen(l, u, Clear(u, OnBattMsg), u1);
    }
    var u2 := ReturnEvent(cfg, u1, pass);
    QuietReturnEvent(l, cfg, u1, pass);
    QuietThen(l, u, u1, u2);
    QuietReopenLogins(l, u2);
    var u3 := ReopenLogins(u2);
    QuietThen(l, u, u2, u3);
    QuietUpdate(l, u3, EndInterval(u3, pass.now));
    QuietThen(l, u, u3, EndInterval(u3, pass.now));
  }

  lemma QuietReturnEvent(l: Limit, cfg: Config, u: Ups, pass: Input)
    ensures Quiet(l, u, ReturnEvent(cfg, u, pass))
  {
    hide Quiet, Generate;
    QuietEvent(l, cfg, u, MainsBack, pass.shutAt);
    var u1 := u.(lastSelfTest := u.selfTest, selfTest := 0);
    var u2 := Emit(u1, DriverCalled);
    QuietUpdate(l, u, u1);
    QuietEmit(l, u1, DriverCalled);
    QuietEmit(l, u2, Ran(EndSelfTest));
    QuietThen(l, u, u1, u2);
    QuietThen(l, u, u2, Emit(u2, Ran(EndSelfTest)));
  }

  lemma QuietReopenLogins(l: Limit, u: Ups)
    ensures Quiet(l, u, ReopenLogins(u))
  {
    hide Quiet;
    var u1 := u.(nologinFile := false, requestedLogoff := false);
    var u2 := Emit(u1, LoginsAllowed);
    QuietUpdate(l, u, u1);
    QuietEmit(l, u1, LoginsAllowed);
    QuietEmit(l, u2, DriverCalled);
    QuietThen(l, u, u1, u2);
    QuietThen(l, u, u2, Emit(u2, DriverCalled));
  }

  // ----- the on-battery step

  /** The pass is on battery and gets as far as looking at the limits. */
  predicate Examines(cfg: Config, u: Ups, pass: Input) {
    && OnBatteryKind(Classify(u)) && !(Classify(u) == SelfTest && SelfTestGoesOn(u, pass))
    && !Announces(cfg, u, pass) && Shutdown !in u.status
    && !(cfg.maxTime > 0 && pass.now - u.lastOnLine > cfg.maxTime)
  }

  /** What a pass that looks at a limit makes of its flag and timer, and when it may and must act. */
  ghost predicate LimitLaw(l: Limit, cfg: Config, u: Ups, pass: Input, v: Ups) {
    && (Flag(l) in v.status <==> Below(cfg, pass, l))
    && (Below(cfg, pass, l) ==> Timer(v, l) == if Flag(l) in u.status then Timer(u, l) else pass.now)
    && (Runs(v.log, Cmd(l)) != Runs(u.log, Cmd(l)) ==> Below(cfg, pass, l) && pass.now - Timer(v, l) >= 5)
    && (Below(cfg, pass, l) && pass.now - Timer(v, l) >= 5 ==> Shutdown in v.status)
  }

  lemma ChecksLaw(l: Limit, cfg: Config, u: Ups, pass: Input)
    requires Flag(l) in u.status <==> Below(cfg, pass, l)
    ensures var v := CheckLimits(cfg, u, pass);
      && (Flag(l) in v.status <==> Flag(l) in u.status) && Timer(v, l) == Timer(u, l)
      && (Runs(v.log, Cmd(l)) != Runs(u.log, Cmd(l)) ==> Below(cfg, pass, l) && pass.now - Timer(u, l) >= 5)
      && (Below(cfg, pass, l) && pass.now - Timer(u, l) >= 5 ==> Shutdown in v.status)
  {
    hide Runs, Generate, DeadBattery, AnnoyUsers, DelayLogins;
    CheckCommand(l, cfg, u, Failing, pass.shutAt);
    CheckCommand(l, cfg, u, LoadLimit, pass.shutAt);
    CheckCommand(l, cfg, u, RunLimit, pass.shutAt);
    QuietRest(l, cfg, u, pass);
  }

  /** One of the three debounced causes: it brings the system down, and only its own command runs. */
  lemma CheckCommand(l: Limit, cfg: Config, u: Ups, cmd: Command, shutAt: int)
    requires cmd in {Failing, LoadLimit, RunLimit}
    ensures var v := Generate(cfg, u, cmd, shutAt);
      && (Flag(l) in v.status <==> Flag(l) in u.status) && Timer(v, l) == Timer(u, l) && Shutdown in v.status
      && (cmd != Cmd(l) ==> Runs(v.log, Cmd(l)) == Runs(u.log, Cmd(l)))
  {
    hide Runs, Generate;
    GenerateFrame(cfg, u, cmd, shutAt);
    GenerateRuns(cfg, u, cmd, shutAt, Cmd(l));
  }

  lemma QuietRest(l: Limit, cfg: Config, u: Ups, pass: Input)
    ensures Quiet(l, u, DelayLogins(cfg, AnnoyUsers(cfg, DeadBattery(cfg, u, pass), pass), pass))
  {
    hide *;
    var u1 := DeadBattery(cfg, u, pass);
    var u2 := AnnoyUsers(cfg, u1, pass);
    QuietDeadBattery(l, cfg, u, pass);
    QuietAnnoyUsers(l, cfg, u1, pass);
    QuietThen(l, u, u1, u2);
    QuietDelayLogins(l, cfg, u2, pass);
    QuietThen(l, u, u2, DelayLogins(cfg, u2, pass));
  }

  lemma QuietDeadBattery(l: Limit, cfg: Config, u: Ups, pass: Input)
    ensures Quiet(l, u, DeadBattery(cfg, u, pass))
  {
    hide Quiet, Generate;
    var u1 := Set(u, ShutEmerg);
    QuietUpdate(l, u, u);
    QuietUpdate(l, u, u1);
    QuietEvent(l, cfg, u1, Emergency, pass.shutAt);
    QuietThen(l, u, u1, Generate(cfg, u1, Emergency, pass.shutAt));
  }

  lemma QuietAnnoyUsers(l: Limit, cfg: Config, u: Ups, pass: Input)
    ensures Quiet(l, u, AnnoyUsers(cfg, u, pass))
  {
    hide Quiet, Generate;
    QuietUpdate(l, u, u);
    QuietEmit(l, u, Ran(AnnoyMe));
    QuietEvent(l, cfg, u, AnnoyMe, pass.shutAt);
    var v := if u.requestedLogoff then Emit(u, Ran(AnnoyMe)) else Generate(cfg, u, AnnoyMe, pass.shutAt);
    var w := v.(lastAnnoy := pass.annoyAt, requestedLogoff := true);
    QuietUpdate(l, v, w);
    QuietThen(l, u, v, w);
  }

  lemma QuietDelayLogins(l: Limit, cfg: Config, u: Ups, pass: Input)
    ensures Quiet(l, u, DelayLogins(cfg, u, pass))
  {
    hide Quiet;
    var u1 := u.(nologinFile := true);
    QuietUpdate(l, u, u);
    QuietUpdate(l, u, u1);
    QuietEmit(l, u1, LoginsProhibited);
    QuietThen(l, u, u1, Emit(u1, LoginsProhibited));
  }

  lemma ExaminedLaw(l: Limit, cfg: Config, u: Ups, pass: Input)
    requires Examines(cfg, u, pass)
    ensures LimitLaw(l, cfg, u, pass, Act(cfg, u, pass))
  {
    hide Runs, CheckLimits;
    var w := u.(selfTest := if Classify(u) == SelfTest then 0 else u.selfTest);
    var w1 := RuntimeTimer(cfg, ChargeTimer(cfg, w, pass), pass);
    TimersSet(l, cfg, w, pass);
    ChecksLaw(l, cfg, w1, pass);
    assert Act(cfg, u, pass) == CheckLimits(cfg, w1, pass);
  }

  lemma ChargeTimerSet(cfg: Config, u: Ups, pass: Input)
    ensures var v := ChargeTimer(cfg, u, pass);
      && v.log == u.log && v.startLtime == u.startLtime && (ShutLtime in v.status <==> ShutLtime in u.status)
      && (ShutLoad in v.status <==> ChargeIsLow(cfg, pass))
      && (ChargeIsLow(cfg, pass) ==> v.startLoad == if ShutLoad in u.status then u.startLoad else pass.now)
  {
    hide ChargeIsLow;
  }

  lemma RuntimeTimerSet(cfg: Config, u: Ups, pass: Input)
    ensures var v := RuntimeTimer(cfg, u, pass);
      && v.log == u.log && v.startLoad == u.startLoad && (ShutLoad in v.status <==> ShutLoad in u.status)
      && (ShutLtime in v.status <==> RuntimeIsLow(cfg, pass))
      && (RuntimeIsLow(cfg, pass) ==> v.startLtime == if ShutLtime in u.status then u.startLtime else pass.now)
  {
    hide RuntimeIsLow;
  }

  lemma TimersSet(l: Limit, cfg: Config, u: Ups, pass: Input)
    ensures var v := RuntimeTimer(cfg, ChargeTimer(cfg, u, pass), pass);
      && v.log == u.log && (Flag(l) in v.status <==> Below(cfg, pass, l))
      && (Below(cfg, pass, l) ==> Timer(v, l) == if Flag(l) in u.status then Timer(u, l) else pass.now)
  {
    hide RuntimeTimer, ChargeTimer, ChargeIsLow, RuntimeIsLow;
    ChargeTimerSet(cfg, u, pass);
    RuntimeTimerSet(cfg, ChargeTimer(cfg, u, pass), pass);
  }

  lemma NotExaminedLaw(l: Limit, cfg: Config, u: Ups, pass: Input)
    requires !Examines(cfg, u, pass)
    ensures Quiet(l, u, Act(cfg, u, pass))
  {
    hide Quiet, Generate, PowerFails, PowerReturns, StayOnBattery;
    match Classify(u) {
      case OnMains => QuietUpdate(l, u, StayOnMains(u, pass));
      case PowerFailure => QuietPowerFails(l, cfg, u, pass);
      case BackOnMains => QuietPowerReturns(l, cfg, u, pass);
      case Calibrating => QuietUpdate(l, u, u);
      case SelfTest =>
        QuietUpdate(l, u, u);
        if !SelfTestGoesOn(u, pass) {
          var w := u.(selfTest := 0);
          QuietUpdate(l, u, w);
          CutShort(l, cfg, w, pass);
          QuietThen(l, u, w, StayOnBattery(cfg, w, pass));
        }
      case OnBatteries => CutShort(l, cfg, u, pass);
    }
  }

  /** An on-battery step that ends before the limits. */
  lemma CutShort(l: Limit, cfg: Config, u: Ups, pass: Input)
    requires Announces(cfg, u, pass) || Shutdown in u.status
      || (cfg.maxTime > 0 && pass.now - u.lastOnLine > cfg.maxTime)
    ensures Quiet(l, u, StayOnBattery(cfg, u, pass))
  {
    hide Quiet, Generate, KillPower, CheckLimits;
    if Announces(cfg, u, pass) {
      var u1 := Set(u, OnBattMsg);
      var u2 := Generate(cfg, u1, OnBattery, pass.shutAt);
      QuietUpdate(l, u, u1);
      QuietEvent(l, cfg, u1, OnBattery, pass.shutAt);
      QuietThen(l, u, u1, u2);
      QuietUpdate(l, u2, StayOnBattery(cfg, u, pass));
      QuietThen(l, u, u2, StayOnBattery(cfg, u, pass));
    } else if Shutdown in u.status {
      QuietKillPower(l, cfg, u, pass);
    } else {
      var u1 := Set(u, ShutBtime);
      QuietUpdate(l, u, u1);
      QuietEvent(l, cfg, u1, Timeout, pass.shutAt);
      QuietThen(l, u, u1, StayOnBattery(cfg, u, pass));
    }
  }

  lemma QuietKillPower(l: Limit, cfg: Config, u: Ups, pass: Input)
    ensures Quiet(l, u, KillPower(cfg, u, pass))
  {
    hide Quiet;
    QuietUpdate(l, u, u);
    QuietEmit(l, u, Hibernate);
    var u1 := if Slave in u.status then u else Emit(u, Hibernate);
    QuietUpdate(l, u1, Set(u1.(shutDown := pass.now), Shutdown));
    QuietThen(l, u, u1, Set(u1.(shutDown := pass.now), Shutdown));
  }

  // ----- a whole pass, and every run

  predicate PassExamines(cfg: Config, u: Ups, pass: Input) {
    ShutRemote !in pass.flags && Examines(cfg, Prepared(cfg, u, pass), pass)
  }

  lemma PassLimitLaw(l: Limit, cfg: Config, u: Ups, pass: Input)
    ensures var v := Pass(cfg, u, pass);
      if PassExamines(cfg, u, pass) then LimitLaw(l, cfg, u, pass, v) else Quiet(l, u, v)
  {
    hide Runs, Begin, ReplaceBattery, BatteryAttached, BatteryLow, Act, RemoteShutdown, Examines, LimitLaw, Quiet;
    QuietPrepared(l, cfg, u, pass);
    PreparedLaw(cfg, u, pass);
    assert ShutRemote !in LOCAL;
    var w := Prepared(cfg, u, pass);
    if ShutRemote in pass.flags {
      var b := ReplaceBattery(cfg, Begin(u, pass), pass);
      QuietRemote(l, cfg, b, pass);
      var v := RemoteShutdown(cfg, b, pass);
      QuietThen(l, u, b, v);
      QuietUpdate(l, v, Remember(v));
      QuietThen(l, u, v, Remember(v));
    } else if Examines(cfg, w, pass) {
      ExaminedLaw(l, cfg, w, pass);
      LawBefore(l, cfg, u, w, pass, Act(cfg, w, pass));
    } else {
      NotExaminedLaw(l, cfg, w, pass);
      var v := Act(cfg, w, pass);
      QuietThen(l, u, w, v);
      QuietUpdate(l, v, Remember(v));
      QuietThen(l, u, v, Remember(v));
    }
  }

  lemma LawBefore(l: Limit, cfg: Config, u: Ups, w: Ups, pass: Input, v: Ups)
    requires Quiet(l, u, w) && LimitLaw(l, cfg, w, pass, v)
    ensures LimitLaw(l, cfg, u, pass, Remember(v))
  {
    hide Runs, Below;
  }

  /** Pass k of the run looks at the limits. */
  predicate Examined(cfg: Config, passes: seq<Input>, k: int) {
    0 <= k < |passes| && PassExamines(cfg, Run(cfg, passes[..k]), passes[k])
  }

  /** The reading was below the limit at pass k, which looked at it, and at every later one before n that did. */
  predicate BelowSince(l: Limit, cfg: Config, passes: seq<Input>, k: int, n: int) {
    && 0 <= k < n <= |passes| && Examined(cfg, passes, k)
    && forall j :: k <= j < n && Examined(cfg, passes, j) ==> Below(cfg, passes[j], l)
  }

  ghost predicate LimitTimerRight(l: Limit, cfg: Config, u: Ups, passes: seq<Input>, n: nat)
    requires n <= |passes|
  {
    Flag(l) in u.status ==> exists k :: BelowSince(l, cfg, passes, k, n) && Timer(u, l) == passes[k].now
  }

  /** Over every run a set flag means an unbroken run of low readings since the timer was started. */
  lemma {:induction false} LimitTimerAlwaysRight(l: Limit, cfg: Config, passes: seq<Input>, n: nat)
    requires n <= |passes|
    ensures LimitTimerRight(l, cfg, Run(cfg, passes[..n]), passes, n)
  {
    hide Pass, LimitTimerRight, PassExamines;
    if n == 0 {
      LimitTimerAtStart(l, cfg, passes);
    } else {
      LimitTimerAlwaysRight(l, cfg, passes, n - 1);
      OneMorePass(cfg, passes, n - 1);
      LimitTimerStep(l, cfg, passes, n - 1);
    }
  }

  lemma LimitTimerAtStart(l: Limit, cfg: Config, passes: seq<Input>)
    ensures LimitTimerRight(l, cfg, Run(cfg, passes[..0]), passes, 0)
  {
  }

  lemma LimitTimerStep(l: Limit, cfg: Config, passes: seq<Input>, n: nat)
    requires n < |passes| && LimitTimerRight(l, cfg, Run(cfg, passes[..n]), passes, n)
    ensures LimitTimerRight(l, cfg, Pass(cfg, Run(cfg, passes[..n]), passes[n]), passes, n + 1)
  {
    hide Pass, Run, Runs, Below, PassExamines;
    var u := Run(cfg, passes[..n]);
    var v := Pass(cfg, u, passes[n]);
    PassLimitLaw(l, cfg, u, passes[n]);
    if Flag(l) in v.status {
      if Flag(l) in u.status {
        var k :| BelowSince(l, cfg, passes, k, n) && Timer(u, l) == passes[k].now;
        assert BelowSince(l, cfg, passes, k, n + 1);
      } else {
        assert BelowSince(l, cfg, passes, n, n + 1);
      }
    }
  }

  /**
   CMDLOADLIMIT and CMDRUNLIMIT are sound: they run only when every pass that looked at the reading
   over the last 5 seconds or more found it below the limit.
   */
  lemma LimitIsSound(l: Limit, cfg: Config, passes: seq<Input>, n: nat)
    requires n < |passes|
    ensures Runs(Run(cfg, passes[..n + 1]).log, Cmd(l)) != Runs(Run(cfg, passes[..n]).log, Cmd(l)) ==>
      exists k :: BelowSince(l, cfg, passes, k, n + 1) && passes[n].now - passes[k].now >= 5
  {
    hide Pass, Run, Runs, Below, PassExamines, LimitTimerRight;
    var u, v := Run(cfg, passes[..n]), Run(cfg, passes[..n + 1]);
    OneMorePass(cfg, passes, n);
    PassLimitLaw(l, cfg, u, passes[n]);
    LimitTimerAlwaysRight(l, cfg, passes, n + 1);
    if Runs(v.log, Cmd(l)) != Runs(u.log, Cmd(l)) {
      TimerWitness(l, cfg, v, passes, n + 1);
    }
  }

  lemma TimerWitness(l: Limit, cfg: Config, u: Ups, passes: seq<Input>, n: nat)
    requires n <= |passes| && LimitTimerRight(l, cfg, u, passes, n) && Flag(l) in u.status
    ensures exists k :: BelowSince(l, cfg, passes, k, n) && Timer(u, l) == passes[k].now
  {
  }

  /** While the reading stays below the limit the timer stays set, at or before pass k. */
  lemma {:induction false} TimerHeld(l: Limit, cfg: Config, passes: seq<Input>, k: nat, n: nat)
    requires n <= |passes| && ClockRuns(passes) && BelowSince(l, cfg, passes, k, n)
    ensures var u := Run(cfg, passes[..n]);
      Flag(l) in u.status && Timer(u, l) <= passes[k].now
    decreases n
  {
    hide Pass, Run, Runs, Below, PassExamines, LimitTimerRight;
    OneMorePass(cfg, passes, n - 1);
    var u, v := Run(cfg, passes[..n - 1]), Run(cfg, passes[..n]);
    PassLimitLaw(l, cfg, u, passes[n - 1]);
    if k < n - 1 {
      assert BelowSince(l, cfg, passes, k, n - 1);
      TimerHeld(l, cfg, passes, k, n - 1);
    } else if Flag(l) in u.status {
      LimitTimerAlwaysRight(l, cfg, passes, n - 1);
      TimerWitness(l, cfg, u, passes, n - 1);
    }
  }

  /**
   And prompt: a pass that looks at the reading, after at least 5 seconds in which every such pass
   found it below the limit, leaves the shutdown flag set.
   */
  lemma LimitShutsDown(l: Limit, cfg: Config, passes: seq<Input>, k: nat, n: nat)
    requires n < |passes| && ClockRuns(passes) && Examined(cfg, passes, n)
    requires BelowSince(l, cfg, passes, k, n + 1) && passes[n].now - passes[k].now >= 5
    ensures Shutdown in Run(cfg, passes[..n + 1]).status
  {
    hide Pass, Run, Runs, Below, PassExamines;
    OneMorePass(cfg, passes, n);
    PassLimitLaw(l, cfg, Run(cfg, passes[..n]), passes[n]);
    TimerHeld(l, cfg, passes, k, n + 1);
  }

  // ----- when the debounce holds inside one outage

  ghost predicate FlagSet(l: Limit, cfg: Config, passes: seq<Input>, n: int) {
    0 <= n <= |passes| && Flag(l) in Run(cfg, passes[..n]).status
  }

  /** Pass k starts the timer that is still running after n passes. */
  ghost predicate StartedAt(l: Limit, cfg: Config, passes: seq<Input>, k: int, n: int) {
    && 0 <= k < n <= |passes| && !FlagSet(l, cfg, passes, k)
    && forall m :: k < m <= n ==> FlagSet(l, cfg, passes, m)
  }

  /** Pass j looked at the reading and found it not below the limit. */
  predicate FoundAbove(l: Limit, cfg: Config, passes: seq<Input>, j: int) {
    Examined(cfg, passes, j) && !Below(cfg, passes[j], l)
  }

  /** What one pass does to the flag and the timer. */
  lemma FlagStep(l: Limit, cfg: Config, passes: seq<Input>, n: nat)
    requires n < |passes|
    ensures var u, v := Run(cfg, passes[..n]), Run(cfg, passes[..n + 1]);
      if Examined(cfg, passes, n)
      then && (FlagSet(l, cfg, passes, n + 1) <==> Below(cfg, passes[n], l))
           && (Below(cfg, passes[n], l) ==>
                 Timer(v, l) == if FlagSet(l, cfg, passes, n) then Timer(u, l) else passes[n].now)
      else (FlagSet(l, cfg, passes, n + 1) <==> FlagSet(l, cfg, passes, n)) && Timer(v, l) == Timer(u, l)
  {
    hide Pass, Run, Runs, Below, PassExamines;
    OneMorePass(cfg, passes, n);
    PassLimitLaw(l, cfg, Run(cfg, passes[..n]), passes[n]);
  }

  /** A running timer shows the pass that started it, and every pass that looked since then found the reading below. */
  lemma {:induction false} StartedTimer(l: Limit, cfg: Config, passes: seq<Input>, k: nat, n: nat)
    requires StartedAt(l, cfg, passes, k, n)
    ensures Timer(Run(cfg, passes[..n]), l) == passes[k].now && BelowSince(l, cfg, passes, k, n)
    decreases n
  {
    hide FlagSet, Run, Below, Examined, Timer;
    FlagStep(l, cfg, passes, n - 1);
    if k < n - 1 {
      assert StartedAt(l, cfg, passes, k, n - 1);
      StartedTimer(l, cfg, passes, k, n - 1);
    }
  }

  /** A set flag was set by some pass. */
  lemma {:induction false} SomeStart(l: Limit, cfg: Config, passes: seq<Input>, b: nat, n: nat) returns (k: nat)
    requires b <= n <= |passes| && !FlagSet(l, cfg, passes, b) && FlagSet(l, cfg, passes, n)
    ensures b <= k && StartedAt(l, cfg, passes, k, n)
    decreases n
  {
    hide FlagSet;
    if FlagSet(l, cfg, passes, n - 1) {
      k := SomeStart(l, cfg, passes, b, n - 1);
    } else {
      k := n - 1;
    }
  }

  /** A set flag is cleared only by a pass that finds the reading not below the limit. */
  lemma {:induction false} SomeClearing(l: Limit, cfg: Config, passes: seq<Input>, b: nat, n: nat) returns (j: nat)
    requires b <= n <= |passes| && FlagSet(l, cfg, passes, b) && !FlagSet(l, cfg, passes, n)
    ensures b <= j < n && FoundAbove(l, cfg, passes, j)
    decreases n
  {
    hide FlagSet, Run, Below, Examined, Timer;
    FlagStep(l, cfg, passes, n - 1);
    if FlagSet(l, cfg, passes, n - 1) {
      j := n - 1;
    } else {
      j := SomeClearing(l, cfg, passes, b, n - 1);
    }
  }

  /** The timer running after n passes was started at pass b or later. */
  ghost predicate StartedSince(l: Limit, cfg: Config, passes: seq<Input>, b: nat, n: nat) {
    exists k :: b <= k && StartedAt(l, cfg, passes, k, n)
  }

  /** No timer was running at pass b, or a pass since then stopped it. */
  ghost predicate NotCarriedOver(l: Limit, cfg: Config, passes: seq<Input>, b: nat, n: nat) {
    !FlagSet(l, cfg, passes, b) || exists j :: b <= j < n && FoundAbove(l, cfg, passes, j)
  }

  /**
   The timer in force was started in the outage that began at pass b if and only if none was running
   when the outage began, or a pass of this outage found the reading above the limit.
   */
  lemma StartedInOutageIff(l: Limit, cfg: Config, passes: seq<Input>, b: nat, n: nat)
    requires b <= n <= |passes| && FlagSet(l, cfg, passes, n)
    ensures StartedSince(l, cfg, passes, b, n) <==> NotCarriedOver(l, cfg, passes, b, n)
  {
    hide FlagSet, Run, Below, Examined, Timer;
    if StartedSince(l, cfg, passes, b, n) {
      var k :| b <= k && StartedAt(l, cfg, passes, k, n);
      if FlagSet(l, cfg, passes, b) {
        var j := SomeClearing(l, cfg, passes, b, k);
      }
    }
    if !FlagSet(l, cfg, passes, b) {
      var k := SomeStart(l, cfg, passes, b, n);
    } else if j :| b <= j < n && FoundAbove(l, cfg, passes, j) {
      FlagStep(l, cfg, passes, j);
      var k := SomeStart(l, cfg, passes, j + 1, n);
    }
  }

  /** Five seconds of low readings lie between pass b and pass n. */
  ghost predicate BelowWithin(l: Limit, cfg: Config, passes: seq<Input>, b: nat, n: nat)
    requires n < |passes|
  {
    exists k :: b <= k && BelowSince(l, cfg, passes, k, n + 1) && passes[n].now - passes[k].now >= 5
  }

  /** Some pass from b on looked at the reading at least five seconds before pass n. */
  ghost predicate LookedEarly(cfg: Config, passes: seq<Input>, b: nat, n: nat)
    requires n < |passes|
  {
    exists e :: b <= e <= n && Examined(cfg, passes, e) && passes[n].now - passes[e].now >= 5
  }

  /**
   When a limit's command runs in the outage that began at pass b, five seconds of low readings lie inside
   that outage if and only if no timer was carried over into it, or it had looked at the reading for five
   seconds.
   */
  lemma LimitIsSoundInOutage(l: Limit, cfg: Config, passes: seq<Input>, b: nat, n: nat)
    requires b <= n < |passes|
    ensures Runs(Run(cfg, passes[..n + 1]).log, Cmd(l)) != Runs(Run(cfg, passes[..n]).log, Cmd(l)) ==>
      (BelowWithin(l, cfg, passes, b, n)
       <==> NotCarriedOver(l, cfg, passes, b, n + 1) || LookedEarly(cfg, passes, b, n))
  {
    hide Pass, Run, Runs, Below, Examined, Timer, FlagSet, StartedAt, PassExamines, LimitLaw, Quiet;
    if Runs(Run(cfg, passes[..n + 1]).log, Cmd(l)) != Runs(Run(cfg, passes[..n]).log, Cmd(l)) {
      if NotCarriedOver(l, cfg, passes, b, n + 1) {
        RunningTimer(l, cfg, passes, n);
        StartedInOutageIff(l, cfg, passes, b, n + 1);
        var k :| b <= k && StartedAt(l, cfg, passes, k, n + 1);
        StartedTimer(l, cfg, passes, k, n + 1);
      } else if LookedEarly(cfg, passes, b, n) {
        var e :| b <= e <= n && Examined(cfg, passes, e) && passes[n].now - passes[e].now >= 5;
        forall j | e <= j < n + 1 && Examined(cfg, passes, j) ensures Below(cfg, passes[j], l) {
          assert !FoundAbove(l, cfg, passes, j);
        }
        assert BelowSince(l, cfg, passes, e, n + 1);
      }
    }
  }

  /** A command that runs has its flag set and its timer expired. */
  lemma RunningTimer(l: Limit, cfg: Config, passes: seq<Input>, n: nat)
    requires n < |passes|
    ensures Runs(Run(cfg, passes[..n + 1]).log, Cmd(l)) != Runs(Run(cfg, passes[..n]).log, Cmd(l)) ==>
      FlagSet(l, cfg, passes, n + 1) && passes[n].now - Timer(Run(cfg, passes[..n + 1]), l) >= 5
  {
    hide Pass, Run, Runs, Below, PassExamines, Timer;
    OneMorePass(cfg, passes, n);
    PassLimitLaw(l, cfg, Run(cfg, passes[..n]), passes[n]);
  }

  // ----- what the timers do not guarantee

  /** Charge limit 10 percent; the on-battery announcement waits 1000 seconds. */
  const TEN_PERCENT := Config(0, 1000, 0, 0, 10, 0, 300, 1000, Never, 0, true, false, false, false, {})

  function Reading(now: int, flags: set<Bit>, charge: real): Input {
    Input(now, now, now, now, flags + {BattPresent}, charge, 100.0, None)
  }

  /** Two outages: a low reading just before the first one ends, and one early in the second. */
  function TwoOutages(): seq<Input> {
    [Reading(10, {OnBatt}, 50.0), Reading(20, {OnBatt}, 5.0), Reading(22, {Online}, 50.0),
     Reading(30, {Online}, 100.0), Reading(40, {OnBatt}, 100.0), Reading(41, {OnBatt}, 5.0)]
  }

  /** What the two outages need to know of a state. */
  ghost predicate Follows(u: Ups, on: bool, below: bool, at: int, line: int) {
    && (OnBatt in Before(u) <==> on) && BattPresent in Before(u) && BattLow !in Before(u)
    && OnBattMsg !in u.status && Shutdown !in u.status && (ShutLoad in u.status <==> below)
    && u.selfTest == 0 && u.startLoad == at && (on ==> u.lastOnLine == line)
  }

  /** Nothing to report about the battery itself, and no request from elsewhere. */
  ghost predicate NothingToReport(w: Ups) {
    && ReplaceBatt !in w.status && ShutRemote !in w.status && BattLow !in w.status
    && BattPresent in w.status && BattPresent in w.prevStatus
  }

  lemma OnlyAction(u: Ups, pass: Input)
    requires NothingToReport(Begin(u, pass))
    ensures Prepared(TEN_PERCENT, u, pass) == Begin(u, pass)
    ensures Pass(TEN_PERCENT, u, pass) == Remember(Act(TEN_PERCENT, Begin(u, pass), pass))
  {
    hide Act, Generate, Begin;
  }

  /** With nothing to report about the battery itself, a pass is only its action. */
  lemma PlainPass(u: Ups, pass: Input, on: bool, below: bool, at: int, line: int)
    requires Follows(u, on, below, at, line) && BattPresent in pass.flags
    requires forall b :: b in pass.flags ==> b in {OnBatt, Online, BattPresent}
    ensures var w := Begin(u, pass);
      && Prepared(TEN_PERCENT, u, pass) == w && Pass(TEN_PERCENT, u, pass) == Remember(Act(TEN_PERCENT, w, pass))
      && w.status == u.status * LOCAL + (pass.flags - LOCAL) && w.prevStatus == Before(u) && !w.first
      && w.selfTest == 0 && w.startLoad == at && (on ==> w.lastOnLine == line || u.first)
      && OnBattMsg !in w.status && Shutdown !in w.status && (ShutLoad in w.status <==> below)
      && (OnBatt in w.status <==> OnBatt in pass.flags) && BattPresent in w.status && BattLow !in w.status
      && Calibration !in w.status && ShutRemote !in w.status
  {
    hide Act, Generate, Pass, Prepared;
    assert NothingToReport(Begin(u, pass));
    OnlyAction(u, pass);
  }

  /** A pass on mains. */
  lemma Goes(u: Ups, now: int, on: bool, charge: real, below: bool, at: int, line: int)
    requires Follows(u, on, below, at, line)
    ensures var v := Pass(TEN_PERCENT, u, Reading(now, {Online}, charge));
      Follows(v, false, below, at, now) && !v.first
  {
    var pass := Reading(now, {Online}, charge);
    assert pass.flags == {Online, BattPresent};
    PlainPass(u, pass, on, below, at, line);
    hide Generate, Begin, Prepared, Pass, LOCAL;
    GoesAct(Begin(u, pass), pass);
  }

  lemma GoesAct(w: Ups, pass: Input)
    requires OnBatt !in w.status && OnBattMsg !in w.status && w.selfTest == 0
    ensures var v := Act(TEN_PERCENT, w, pass);
      && v.first == w.first && v.selfTest == 0 && v.startLoad == w.startLoad
      && (Shutdown in v.status <==> Shutdown in w.status)
      && (v.status == w.status || v.status == w.status - {FastPoll})
  {
    hide Generate;
    GenerateFrame(TEN_PERCENT, w, MainsBack, pass.shutAt);
  }

  /** The first pass of an outage. */
  lemma Comes(u: Ups, now: int, charge: real, below: bool, at: int, line: int)
    requires Follows(u, false, below, at, line)
    ensures var v := Pass(TEN_PERCENT, u, Reading(now, {OnBatt}, charge));
      Follows(v, true, below, at, now) && !v.first
  {
    var pass := Reading(now, {OnBatt}, charge);
    assert pass.flags == {OnBatt, BattPresent};
    PlainPass(u, pass, false, below, at, line);
    hide Generate, Begin, Prepared, Pass, LOCAL;
    ComesAct(Begin(u, pass), pass);
  }

  lemma ComesAct(w: Ups, pass: Input)
    requires OnBatt in w.status && OnBatt !in w.prevStatus && Calibration !in w.status
    requires w.selfTest == 0 && pass.selfTest == None
    ensures var v := Act(TEN_PERCENT, w, pass);
      && v.first == w.first && v.selfTest == 0 && v.startLoad == w.startLoad && v.lastOnLine == pass.now
      && v.status == w.status + {FastPoll}
  {
    hide Generate;
    GenerateFrame(TEN_PERCENT, Emit(Set(w, FastPoll), DriverCalled), PowerOut, pass.shutAt);
  }

  /** A later pass looks at the charge. */
  lemma Stays(u: Ups, now: int, charge: real, below: bool, at: int, line: int)
    requires Follows(u, true, below, at, line) && !u.first && now - line < 1000
    ensures PassExamines(TEN_PERCENT, u, Reading(now, {OnBatt}, charge))
  {
    var pass := Reading(now, {OnBatt}, charge);
    assert pass.flags == {OnBatt, BattPresent};
    PlainPass(u, pass, true, below, at, line);
    hide Begin, Prepared;
  }

  /** The first low reading starts the timer and does nothing else. */
  lemma Starts(u: Ups, now: int, charge: real, at: int, line: int)
    requires Follows(u, true, false, at, line) && !u.first && 0 <= now - line < 1000 && charge <= 10.0
    ensures var v := Pass(TEN_PERCENT, u, Reading(now, {OnBatt}, charge));
      Follows(v, true, true, now, line) && !v.first
  {
    var pass := Reading(now, {OnBatt}, charge);
    assert pass.flags == {OnBatt, BattPresent};
    PlainPass(u, pass, true, false, at, line);
    hide Begin, Prepared, Pass, Generate;
    var w := Begin(u, pass);
    StartsTimer(w, pass);
  }

  lemma StartsTimer(w: Ups, pass: Input)
    requires OnBatt in w.status && OnBatt in w.prevStatus && Calibration !in w.status && w.selfTest == 0
    requires OnBattMsg !in w.status && Shutdown !in w.status && BattLow !in w.status && ShutLoad !in w.status
    requires pass.confirmAt == pass.now && 0 <= pass.now - w.lastOnLine < 1000 && pass.charge <= 10.0
    ensures Act(TEN_PERCENT, w, pass) == Clear(Set(w, ShutLoad).(startLoad := pass.now), ShutLtime)
  {
    hide Generate;
  }

  /**
   The timer is not cleared when mains power returns.  A system can go down one second after the
   first low reading of an outage, the reading one second before having been above the limit.
   */
  lemma StaleTimer()
    ensures var passes, cfg := TwoOutages(), TEN_PERCENT;
      && Shutdown !in Run(cfg, passes[..5]).status && Shutdown in Run(cfg, passes).status
      && !Below(cfg, passes[4], Charge) && passes[5].now - passes[4].now == 1
      && !On(passes, 3) && On(passes, 4) && On(passes, 5)
  {
    hide *;
    var passes, cfg := TwoOutages(), TEN_PERCENT;
    var last := Reading(41, {OnBatt}, 5.0);
    TwoOutagesAre();
    BeforeTheLast();
    var u := Run(cfg, passes[..5]);
    OneMorePass(cfg, passes, 5);
    assert passes[..6] == passes;
    Stays(u, 41, 5.0, true, 20, 40);
    PassLimitLaw(Charge, cfg, u, last);
    Acts(u, last);
  }

  /** A low reading with the timer 21 seconds old. */
  lemma Acts(u: Ups, pass: Input)
    requires Follows(u, true, true, 20, 40) && pass.now == 41 && pass.charge == 5.0
    requires LimitLaw(Charge, TEN_PERCENT, u, pass, Pass(TEN_PERCENT, u, pass))
    ensures Shutdown !in u.status && Shutdown in Pass(TEN_PERCENT, u, pass).status
  {
    hide Pass, Runs;
  }

  lemma TwoOutagesAre()
    ensures var s := TwoOutages();
      && |s| == 6 && s[0] == Reading(10, {OnBatt}, 50.0) && s[1] == Reading(20, {OnBatt}, 5.0)
      && s[2] == Reading(22, {Online}, 50.0) && s[3] == Reading(30, {Online}, 100.0)
      && s[4] == Reading(40, {OnBatt}, 100.0) && s[5] == Reading(41, {OnBatt}, 5.0)
      && s[4].now == 40 && s[5].now == 41 && s[5].charge == 5.0 && !Below(TEN_PERCENT, s[4], Charge)
      && !On(s, 3) && On(s, 4) && On(s, 5)
  {
  }

  lemma BeforeTheLast()
    ensures |TwoOutages()| == 6
    ensures var u := Run(TEN_PERCENT, TwoOutages()[..5]);
      Follows(u, true, true, 20, 40) && !u.first
  {
    hide *;
    var passes, cfg := TwoOutages(), TEN_PERCENT;
    TwoOutagesAre();
    StartFollows(passes);
    OneMorePass(cfg, passes, 0);
    Comes(Run(cfg, passes[..0]), 10, 50.0, false, 0, 0);
    OneMorePass(cfg, passes, 1);
    Starts(Run(cfg, passes[..1]), 20, 5.0, 0, 10);
    OneMorePass(cfg, passes, 2);
    Goes(Run(cfg, passes[..2]), 22, true, 50.0, true, 20, 10);
    OneMorePass(cfg, passes, 3);
    Goes(Run(cfg, passes[..3]), 30, false, 100.0, true, 20, 22);
    OneMorePass(cfg, passes, 4);
    Comes(Run(cfg, passes[..4]), 40, 100.0, true, 20, 30);
  }

  lemma StartFollows(passes: seq<Input>)
    ensures Follows(Run(TEN_PERCENT, passes[..0]), false, false, 0, 0)
  {
  }
}
