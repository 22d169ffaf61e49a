/** Over every run: what the announcements and the shutdown command say about the status flags. */
module UpsEvents {
  import opened StatusBits
  import opened UpsReference

  /** How often a command was run. */
  function Runs(log: seq<Effect>, cmd: Command): nat {
    multiset(log)[Ran(cmd)]
  }

  function One(b: bool): nat {
    if b then 1 else 0
  }

  lemma EmitRuns(u: Ups, e: Effect, c: Command)
    ensures Runs(Emit(u, e).log, c) == Runs(u.log, c) + One(e == Ran(c))
  {
  }

  lemma ShutDownNowRuns(cfg: Config, u: Ups, shutAt: int, c: Command)
    ensures Runs(ShutDownNow(cfg, u, shutAt).log, c)
         == Runs(u.log, c) + One(c == DoShutdown && Shutdown !in u.status)
  {
    hide Runs;
    if Shutdown !in u.status {
      var u1 := Set(u.(shutDown := shutAt), Shutdown);
      EmitRuns(u1, LockDeleted, c);
      var u2 := Set(Emit(u1, LockDeleted), FastPoll);
      EmitRuns(u2, PowerfailFile, c);
      var u3 := Emit(u2, PowerfailFile);
      EmitRuns(u3.(nologinFile := true), LoginsProhibited, c);
      var u4 := ProhibitLogins(u3);
      EmitRuns(u4, Hibernate, c);
      var u5 := if Slave !in u4.status && cfg.killOnPowerfail then Emit(u4, Hibernate) else u4;
      EmitRuns(u5, Ran(DoShutdown), c);
      EmitRuns(Emit(u5, Ran(DoShutdown)), FilesCleared, c);
      EmitRuns(Emit(Emit(u5, Ran(DoShutdown)), FilesCleared), TerminateSent, c);
    }
  }

  /** Whether this event is the one that brings the system down. */
  predicate BringsDown(u: Ups, cmd: Command) {
    cmd in SHUTDOWN_CAUSES && Shutdown !in u.status
  }

  lemma GenerateRuns(cfg: Config, u: Ups, cmd: Command, shutAt: int, c: Command)
    ensures Runs(Generate(cfg, u, cmd, shutAt).log, c)
         == Runs(u.log, c) + One(c == cmd) + One(c == DoShutdown && BringsDown(u, cmd))
  {
    hide Runs, ShutDownNow;
    EmitRuns(u, Logged(cmd), c);
    EmitRuns(Emit(u, Logged(cmd)), Ran(cmd), c);
    var u2 := Emit(Emit(u, Logged(cmd)), Ran(cmd));
    EmitRuns(u2, Logged(DoShutdown), c);
    ShutDownNowRuns(cfg, Emit(u2, Logged(DoShutdown)), shutAt, c);
  }

  lemma ShutDownNowFrame(cfg: Config, u: Ups, shutAt: int)
    ensures var v := ShutDownNow(cfg, u, shutAt);
      && v == u.(log := v.log, nologinFile := v.nologinFile, shutDown := v.shutDown, status := v.status)
      && v.status == if Shutdown in u.status then u.status else u.status + {Shutdown, FastPoll}
  {
  }

  /** What an event changes besides the log: nothing, unless it brings the system down. */
  lemma GenerateFrame(cfg: Config, u: Ups, cmd: Command, shutAt: int)
    ensures var v := Generate(cfg, u, cmd, shutAt);
      && v == u.(log := v.log, nologinFile := v.nologinFile, shutDown := v.shutDown, status := v.status)
      && v.status == if BringsDown(u, cmd) then u.status + {Shutdown, FastPoll} else u.status
  {
    hide ShutDownNow;
    var u2 := Emit(Emit(u, Logged(cmd)), Ran(cmd));
    ShutDownNowFrame(cfg, Emit(u2, Logged(DoShutdown)), shutAt);
  }

  // ----- what the steps of a pass keep

  /** The books kept in the status word agree with the commands that were run. */
  ghost predicate Agrees(u: Ups) {
    && Runs(u.log, OnBattery) == Runs(u.log, OffBattery) + One(OnBattMsg in u.status)
    && Runs(u.log, DoShutdown) == One(Shutdown in u.status)
    && (Shutdown in u.status <==> exists c :: c in SHUTDOWN_CAUSES && Runs(u.log, c) > 0)
  }

  /** The commands that mark the two edges of an outage. */
  const EDGES: set<Command> := {PowerOut, StartSelfTest, MainsBack, EndSelfTest}

  /** What every step leaves as it was: the remembered status, the battery timer, the driver's flags. */
  ghost predicate Base(u: Ups, v: Ups) {
    && v.prevStatus == u.prevStatus && v.first == u.first && v.startLbatt == u.startLbatt
    && (Shutdown in u.status ==> Shutdown in v.status)
    && (forall b :: b !in LOCAL && b != ReplaceBatt ==> (b in v.status <==> b in u.status))
  }

  /** What most steps leave as it was: the outage accounting too. */
  ghost predicate Frame(u: Ups, v: Ups) {
    && Base(u, v)
    && v.numXfers == u.numXfers && v.cumTime == u.cumTime && v.lastOnBatt == u.lastOnBatt
    && (forall c :: c in EDGES ==> Runs(v.log, c) == Runs(u.log, c))
  }

  /** A step keeps the books, and never runs CMDFAILING or brings the system down by itself. */
  ghost predicate Mild(u: Ups, v: Ups) {
    && (Agrees(u) ==> Agrees(v))
    && Runs(v.log, Failing) == Runs(u.log, Failing)
    && (Shutdown in v.status <==> Shutdown in u.status)
  }

  /** An event that is no announcement keeps the books. */
  lemma GenerateAgrees(cfg: Config, u: Ups, cmd: Command, shutAt: int)
    requires cmd != OnBattery && cmd != OffBattery && cmd != DoShutdown && Agrees(u)
    ensures Agrees(Generate(cfg, u, cmd, shutAt))
  {
    hide Runs, Generate;
    GenerateFrame(cfg, u, cmd, shutAt);
    forall c {
      GenerateRuns(cfg, u, cmd, shutAt, c);
    }
  }

  lemma GenerateKeeps(cfg: Config, u: Ups, cmd: Command, shutAt: int)
    requires cmd != OnBattery && cmd != OffBattery && cmd != DoShutdown
    ensures var v := Generate(cfg, u, cmd, shutAt);
      && (cmd !in EDGES ==> Frame(u, v)) && (Agrees(u) ==> Agrees(v))
      && (cmd !in SHUTDOWN_CAUSES ==> Mild(u, v))
      && (cmd in SHUTDOWN_CAUSES ==> Shutdown in v.status)
      && (cmd != Failing ==> Runs(v.log, Failing) == Runs(u.log, Failing))
  {
    hide Runs, Generate, Agrees;
    GenerateFrame(cfg, u, cmd, shutAt);
    if Agrees(u) {
      GenerateAgrees(cfg, u, cmd, shutAt);
    }
    forall c {
      GenerateRuns(cfg, u, cmd, shutAt, c);
    }
  }

  lemma BeginKeeps(u: Ups, pass: Input)
    ensures var v := Begin(u, pass);
      && (Agrees(u) ==> Agrees(v)) && v.log == u.log && (Shutdown in v.status <==> Shutdown in u.status)
      && (forall b :: b !in LOCAL ==> (b in v.status <==> b in pass.flags))
      && v == u.(status := v.status, first := false, prevStatus := if u.first then {BattPresent} else u.prevStatus,
                 lastNologon := v.lastNologon, lastAnnoy := v.lastAnnoy, lastOnLine := v.lastOnLine)
  {
    hide Runs;
  }

  /** The books are read off the log and two flags. */
  lemma SameBooks(u: Ups, v: Ups)
    requires v.log == u.log && (OnBattMsg in v.status <==> OnBattMsg in u.status)
    requires Shutdown in v.status <==> Shutdown in u.status
    ensures Agrees(u) <==> Agrees(v)
  {
  }

  lemma ReplaceBatteryKeeps(cfg: Config, u: Ups, pass: Input)
    ensures Frame(u, ReplaceBattery(cfg, u, pass)) && Mild(u, ReplaceBattery(cfg, u, pass))
  {
    hide Runs, Generate, Agrees;
    GenerateKeeps(cfg, u, ChangeMe, pass.shutAt);
    if ReplaceBatt in u.status {
      var w := Generate(cfg, u, ChangeMe, pass.shutAt);
      SameBooks(w, w.(lastChangeMe := pass.now, changeBattCounter := w.changeBattCounter + 1));
      SameBooks(u, Clear(u, ReplaceBatt).(changeBattCounter := 0));
    }
  }

  lemma RemoteShutdownKeeps(cfg: Config, u: Ups, pass: Input)
    ensures var v := RemoteShutdown(cfg, u, pass);
      && Frame(u, v) && (Agrees(u) ==> Agrees(v)) && Runs(v.log, Failing) == Runs(u.log, Failing)
      && (UpsReference.Changed(u, ShutRemote) ==> Shutdown in v.status)
  {
    hide Runs, Generate;
    GenerateKeeps(cfg, u, RemoteDown, pass.shutAt);
  }

  lemma BatteryAttachedKeeps(cfg: Config, u: Ups, pass: Input)
    ensures Frame(u, BatteryAttached(cfg, u, pass)) && Mild(u, BatteryAttached(cfg, u, pass))
  {
    hide Runs, Generate, Agrees;
    GenerateKeeps(cfg, u, BattAttach, pass.shutAt);
    GenerateKeeps(cfg, u, BattDetach, pass.shutAt);
  }

  // ----- the steps taken on battery

  /** A step that keeps everything but may bring the system down. */
  ghost predicate Keeps(u: Ups, v: Ups) {
    Frame(u, v) && (Agrees(u) ==> Agrees(v))
  }

  lemma KeepsTransitive(u: Ups, v: Ups, w: Ups)
    requires Keeps(u, v) && Keeps(v, w)
    ensures Keeps(u, w)
  {
    hide Runs, Agrees;
  }

  lemma DeadBatteryKeeps(cfg: Config, u: Ups, pass: Input)
    ensures var v := DeadBattery(cfg, u, pass);
      Keeps(u, v) && Runs(v.log, Failing) == Runs(u.log, Failing)
  {
    hide Runs, Generate;
    GenerateKeeps(cfg, Set(u, ShutEmerg), Emergency, pass.shutAt);
  }

  lemma AnnoyUsersKeeps(cfg: Config, u: Ups, pass: Input)
    ensures var v := AnnoyUsers(cfg, u, pass);
      Keeps(u, v) && Runs(v.log, Failing) == Runs(u.log, Failing)
  {
    hide Runs, Generate;
    GenerateKeeps(cfg, u, AnnoyMe, pass.shutAt);
    forall c {
      EmitRuns(u, Ran(AnnoyMe), c);
    }
  }

  lemma DelayLoginsKeeps(cfg: Config, u: Ups, pass: Input)
    ensures var v := DelayLogins(cfg, u, pass);
      Keeps(u, v) && Runs(v.log, Failing) == Runs(u.log, Failing)
  {
    hide Runs;
    forall c {
      EmitRuns(u.(nologinFile := true), LoginsProhibited, c);
    }
  }

  lemma ChargeTimerKeeps(cfg: Config, u: Ups, pass: Input)
    ensures var v := ChargeTimer(cfg, u, pass);
      Keeps(u, v) && v.log == u.log && (Shutdown in v.status ==> Shutdown in u.status)
  {
    hide Runs;
  }

  lemma RuntimeTimerKeeps(cfg: Config, u: Ups, pass: Input)
    ensures var v := RuntimeTimer(cfg, u, pass);
      Keeps(u, v) && v.log == u.log && (Shutdown in v.status ==> Shutdown in u.status)
  {
    hide Runs;
  }

  /** CMDFAILING is due: the battery is low and has been since the timer was started. */
  predicate FailingDue(u: Ups, pass: Input) {
    BattLow in u.status && pass.now - u.startLbatt >= 5
  }

  lemma CheckLimitsKeeps(cfg: Config, u: Ups, pass: Input)
    ensures var v := CheckLimits(cfg, u, pass);
      && Keeps(u, v)
      && (FailingDue(u, pass) ==> Shutdown in v.status)
      && (!FailingDue(u, pass) ==> Runs(v.log, Failing) == Runs(u.log, Failing))
  {
    hide Runs, Generate, Agrees, DeadBattery, AnnoyUsers, DelayLogins, Frame;
    GenerateKeeps(cfg, u, Failing, pass.shutAt);
    GenerateKeeps(cfg, u, LoadLimit, pass.shutAt);
    GenerateKeeps(cfg, u, RunLimit, pass.shutAt);
    var u1 := DeadBattery(cfg, u, pass);
    var u2 := AnnoyUsers(cfg, u1, pass);
    var u3 := DelayLogins(cfg, u2, pass);
    DeadBatteryKeeps(cfg, u, pass);
    AnnoyUsersKeeps(cfg, u1, pass);
    DelayLoginsKeeps(cfg, u2, pass);
    KeepsTransitive(u, u1, u2);
    KeepsTransitive(u, u2, u3);
  }

  lemma AnnounceKeeps(cfg: Config, u: Ups, pass: Input)
    requires OnBattMsg !in u.status
    ensures var v := Generate(cfg, Set(u, OnBattMsg), OnBattery, pass.shutAt);
      && Keeps(u, v) && OnBattMsg in v.status && Runs(v.log, Failing) == Runs(u.log, Failing)
  {
    hide Runs, Generate;
    GenerateFrame(cfg, Set(u, OnBattMsg), OnBattery, pass.shutAt);
    forall c {
      GenerateRuns(cfg, Set(u, OnBattMsg), OnBattery, pass.shutAt, c);
    }
  }

  lemma KillPowerKeeps(cfg: Config, u: Ups, pass: Input)
    requires Shutdown in u.status
    ensures var v := KillPower(cfg, u, pass);
      && Keeps(u, v) && Runs(v.log, Failing) == Runs(u.log, Failing)
  {
    hide Runs;
    forall c {
      EmitRuns(u, Hibernate, c);
    }
  }

  /** The whole on-battery step: when it can run CMDFAILING and when it must have shut down. */
  lemma StayOnBatteryKeeps(cfg: Config, u: Ups, pass: Input)
    ensures var v := StayOnBattery(cfg, u, pass);
      && Keeps(u, v)
      && (Runs(v.log, Failing) != Runs(u.log, Failing) ==> Shutdown !in u.status && FailingDue(u, pass))
      && (FailingDue(u, pass) ==> Shutdown in v.status || (Announces(cfg, u, pass) && OnBattMsg in v.status))
  {
    hide Runs, Generate, Agrees, CheckLimits, RuntimeTimer, ChargeTimer, KillPower, Frame;
    if Announces(cfg, u, pass) {
      AnnounceKeeps(cfg, u, pass);
      var v := Generate(cfg, Set(u, OnBattMsg), OnBattery, pass.shutAt);
      RestartKeeps(v, pass);
      KeepsTransitive(u, v, StayOnBattery(cfg, u, pass));
    } else if Shutdown in u.status {
      KillPowerKeeps(cfg, u, pass);
      ShutdownStays(u, StayOnBattery(cfg, u, pass));
    } else if cfg.maxTime > 0 && pass.now - u.lastOnLine > cfg.maxTime {
      SetKeeps(u, ShutBtime);
      GenerateKeeps(cfg, Set(u, ShutBtime), Timeout, pass.shutAt);
      KeepsTransitive(u, Set(u, ShutBtime), StayOnBattery(cfg, u, pass));
    } else {
      var u1 := RuntimeTimer(cfg, ChargeTimer(cfg, u, pass), pass);
      ChargeTimerKeeps(cfg, u, pass);
      RuntimeTimerKeeps(cfg, ChargeTimer(cfg, u, pass), pass);
      KeepsTransitive(u, ChargeTimer(cfg, u, pass), u1);
      CheckLimitsKeeps(cfg, u1, pass);
      KeepsTransitive(u, u1, CheckLimits(cfg, u1, pass));
      SameDue(u, u1, pass);
    }
  }

  lemma RestartKeeps(u: Ups, pass: Input)
    ensures Keeps(u, u.(lastNologon := pass.now, lastAnnoy := pass.now, lastOnLine := pass.now))
  {
  }

  lemma ShutdownStays(u: Ups, v: Ups)
    requires Frame(u, v) && Shutdown in u.status
    ensures Shutdown in v.status
  {
  }

  lemma SetKeeps(u: Ups, b: Bit)
    requires b in {ShutBtime, ShutEmerg}
    ensures Keeps(u, Set(u, b)) && Set(u, b).log == u.log
  {
    hide Runs;
  }

  lemma SameDue(u: Ups, v: Ups, pass: Input)
    requires Frame(u, v)
    ensures FailingDue(u, pass) == FailingDue(v, pass)
  {
  }
}
