/** The law of one whole pass, in terms of the edges of the driver's flags. */
module UpsPass {
  import opened StatusBits
  import opened UpsReference
  import opened UpsEvents

  /** Announcements that an outage (or self test) began, and that one ended. */
  function Failures(log: seq<Effect>): nat {
    Runs(log, PowerOut) + Runs(log, StartSelfTest)
  }

  function Returns(log: seq<Effect>): nat {
    Runs(log, MainsBack) + Runs(log, EndSelfTest)
  }

  ghost predicate SameLedger(u: Ups, v: Ups) {
    && v.numXfers == u.numXfers && v.cumTime == u.cumTime && v.lastOnBatt == u.lastOnBatt
    && Failures(v.log) == Failures(u.log) && Returns(v.log) == Returns(u.log)
  }

  /** An outage begins: it is counted and its start is noted. */
  ghost predicate LedgerOpens(u: Ups, v: Ups, now: int) {
    && v.numXfers == u.numXfers + 1 && v.cumTime == u.cumTime && v.lastOnBatt == now
    && Failures(v.log) == Failures(u.log) + 1 && Returns(v.log) == Returns(u.log)
  }

  /** An outage ends: its length is added. */
  ghost predicate LedgerCloses(u: Ups, v: Ups, now: int) {
    && v.numXfers == u.numXfers
    && v.lastOnBatt == (if u.lastOnBatt <= 0 then now else u.lastOnBatt)
    && v.cumTime == u.cumTime + (now - v.lastOnBatt)
    && Failures(v.log) == Failures(u.log) && Returns(v.log) == Returns(u.log) + 1
  }

  /** The flags the pass compares with. */
  function Before(u: Ups): set<Bit> {
    if u.first then {BattPresent} else u.prevStatus
  }

  /** A step that runs one harmless command is mild. */
  lemma OneCommand(u: Ups, v: Ups, cmd: Command)
    requires cmd in EDGES
    requires forall c :: Runs(v.log, c) == Runs(u.log, c) + One(c == cmd)
    requires (OnBattMsg in v.status <==> OnBattMsg in u.status) && (Shutdown in v.status <==> Shutdown in u.status)
    ensures Mild(u, v)
  {
    hide Runs;
  }

  /** The announcement a power failure makes: the kind of transfer is asked of the driver first. */
  function FailureCommand(u: Ups, pass: Input): Command {
    if (if pass.selfTest.Some? then pass.selfTest.value else u.selfTest) != 0 then StartSelfTest else PowerOut
  }

  lemma FailureEventRuns(cfg: Config, u: Ups, pass: Input, c: Command)
    ensures Runs(FailureEvent(cfg, u, pass).log, c) == Runs(u.log, c) + One(c == FailureCommand(u, pass))
  {
    hide Runs, Generate;
    var u1 := Emit(u, DriverCalled);
    var u2 := if pass.selfTest.Some? then u1.(selfTest := pass.selfTest.value) else u1;
    EmitRuns(u, DriverCalled, c);
    GenerateRuns(cfg, u2, FailureCommand(u, pass), pass.shutAt, c);
  }

  lemma FailureEventFrame(cfg: Config, u: Ups, pass: Input)
    ensures var v := FailureEvent(cfg, u, pass);
      && Base(u, v) && v.numXfers == u.numXfers && v.cumTime == u.cumTime && v.status == u.status
  {
    hide Runs, Generate;
    var u1 := Emit(u, DriverCalled);
    var u2 := if pass.selfTest.Some? then u1.(selfTest := pass.selfTest.value) else u1;
    GenerateFrame(cfg, u2, FailureCommand(u, pass), pass.shutAt);
  }

  lemma FailureEventLaw(cfg: Config, u: Ups, pass: Input)
    ensures var v := FailureEvent(cfg, u, pass);
      && Base(u, v) && Mild(u, v)
      && v.numXfers == u.numXfers && v.cumTime == u.cumTime
      && Failures(v.log) == Failures(u.log) + 1 && Returns(v.log) == Returns(u.log)
  {
    hide Runs, FailureEvent, Mild, Agrees, Base;
    FailureEventFrame(cfg, u, pass);
    forall c {
      FailureEventRuns(cfg, u, pass, c);
    }
    OneCommand(u, FailureEvent(cfg, u, pass), FailureCommand(u, pass));
  }

  lemma PowerFailsLaw(cfg: Config, u: Ups, pass: Input)
    ensures var v := PowerFails(cfg, u, pass);
      && Base(u, v) && Mild(u, v) && LedgerOpens(u, v, pass.now)
  {
    hide Runs, FailureEvent;
    var u1 := FailureEvent(cfg, Set(u, FastPoll), pass);
    FailureEventLaw(cfg, Set(u, FastPoll), pass);
    forall c {
      EmitRuns(u1.(lastNologon := pass.now, lastAnnoy := pass.now, lastOnLine := pass.now,
                   lastOnBatt := pass.now, numXfers := u1.numXfers + 1), DriverCalled, c);
    }
  }

  lemma OffBatteryAgrees(u: Ups, v: Ups)
    requires OnBattMsg in u.status && Agrees(u)
    requires forall c :: Runs(v.log, c) == Runs(u.log, c) + One(c == OffBattery)
    requires v.status == u.status - {OnBattMsg}
    ensures Agrees(v)
  {
    hide Runs;
  }

  lemma OffBatteryLaw(cfg: Config, u: Ups, pass: Input)
    requires OnBattMsg in u.status
    ensures var v := Generate(cfg, Clear(u, OnBattMsg), OffBattery, pass.shutAt);
      Frame(u, v) && Mild(u, v)
  {
    hide Runs, Generate, Agrees;
    var u1 := Clear(u, OnBattMsg);
    var v := Generate(cfg, u1, OffBattery, pass.shutAt);
    GenerateFrame(cfg, u1, OffBattery, pass.shutAt);
    forall c ensures Runs(v.log, c) == Runs(u.log, c) + One(c == OffBattery) {
      GenerateRuns(cfg, u1, OffBattery, pass.shutAt, c);
    }
    if Agrees(u) {
      OffBatteryAgrees(u, v);
    }
  }

  lemma ReturnEventLaw(cfg: Config, u: Ups, pass: Input)
    ensures var v := ReturnEvent(cfg, u, pass);
      && Base(u, v) && Mild(u, v)
      && v.numXfers == u.numXfers && v.cumTime == u.cumTime && v.lastOnBatt == u.lastOnBatt
      && Failures(v.log) == Failures(u.log) && Returns(v.log) == Returns(u.log) + 1
  {
    hide Runs, Generate, Mild, Agrees;
    var v, cmd := ReturnEvent(cfg, u, pass), if u.selfTest != 0 then EndSelfTest else MainsBack;
    GenerateFrame(cfg, u, MainsBack, pass.shutAt);
    forall c
      ensures Runs(v.log, c) == Runs(u.log, c) + One(c == cmd)
    {
      var u1 := u.(lastSelfTest := u.selfTest, selfTest := 0);
      EmitRuns(u1, DriverCalled, c);
      EmitRuns(Emit(u1, DriverCalled), Ran(EndSelfTest), c);
      GenerateRuns(cfg, u, MainsBack, pass.shutAt, c);
    }
    OneCommand(u, v, cmd);
  }

  lemma ReopenLoginsLaw(u: Ups)
    ensures Frame(u, ReopenLogins(u)) && Mild(u, ReopenLogins(u))
  {
    hide Runs;
    var u1 := u.(nologinFile := false, requestedLogoff := false);
    forall c
      ensures Runs(ReopenLogins(u).log, c) == Runs(u.log, c)
    {
      EmitRuns(u1, LoginsAllowed, c);
      EmitRuns(Emit(u1, LoginsAllowed), DriverCalled, c);
    }
  }

  lemma PowerReturnsLaw(cfg: Config, u: Ups, pass: Input)
    ensures var v := PowerReturns(cfg, u, pass);
      && Base(u, v) && Mild(u, v) && LedgerCloses(u, v, pass.now)
  {
    hide Runs, Generate, ReturnEvent, ReopenLogins, Agrees;
    var u1 := if OnBattMsg in u.status then Generate(cfg, Clear(u, OnBattMsg), OffBattery, pass.shutAt) else u;
    if OnBattMsg in u.status {
      OffBatteryLaw(cfg, u, pass);
    }
    var u2 := ReturnEvent(cfg, u1, pass);
    ReturnEventLaw(cfg, u1, pass);
    ReopenLoginsLaw(u2);
    EndIntervalLaw(ReopenLogins(u2), pass.now);
  }

  lemma EndIntervalLaw(u: Ups, now: int)
    ensures var v := EndInterval(u, now);
      && Base(u, v) && Mild(u, v) && v.log == u.log && v.numXfers == u.numXfers
      && v.lastOnBatt == (if u.lastOnBatt <= 0 then now else u.lastOnBatt)
      && v.cumTime == u.cumTime + (now - v.lastOnBatt)
  {
    hide Runs;
  }

  lemma StayOnMainsLaw(u: Ups, pass: Input)
    ensures Frame(u, StayOnMains(u, pass)) && Mild(u, StayOnMains(u, pass))
  {
    hide Runs;
  }

  // ----- the action taken in a prepared state

  ghost predicate LedgerMoves(k: Kind, u: Ups, v: Ups, now: int) {
    match k
    case PowerFailure => LedgerOpens(u, v, now)
    case BackOnMains => LedgerCloses(u, v, now)
    case _ => SameLedger(u, v)
  }

  predicate OnBatteryKind(k: Kind) {
    k == SelfTest || k == OnBatteries
  }

  /** When CMDFAILING may run, when the system may go down, and when it must. */
  ghost predicate ShutdownLaw(k: Kind, u: Ups, v: Ups, pass: Input) {
    && (Runs(v.log, Failing) != Runs(u.log, Failing) ==> Shutdown !in u.status && FailingDue(u, pass))
    && (Shutdown in v.status && Shutdown !in u.status ==> OnBatteryKind(k))
    && (OnBatteryKind(k) && FailingDue(u, pass) ==>
          Shutdown in v.status || (OnBattMsg !in u.status && OnBattMsg in v.status))
  }

  lemma FrameKeepsLedger(u: Ups, v: Ups)
    requires Frame(u, v)
    ensures SameLedger(u, v) && Base(u, v)
  {
    hide Runs;
    assert PowerOut in EDGES && StartSelfTest in EDGES && MainsBack in EDGES && EndSelfTest in EDGES;
  }

  lemma MildIsLawful(k: Kind, u: Ups, v: Ups, pass: Input)
    requires Mild(u, v) && !OnBatteryKind(k)
    ensures ShutdownLaw(k, u, v, pass) && (Agrees(u) ==> Agrees(v))
  {
    hide Runs, Agrees;
  }

  lemma BatteryLaw(cfg: Config, k: Kind, u: Ups, w: Ups, pass: Input)
    requires OnBatteryKind(k) && w == u.(selfTest := w.selfTest)
    ensures var v := StayOnBattery(cfg, w, pass);
      && Base(u, v) && SameLedger(u, v) && (Agrees(u) ==> Agrees(v)) && ShutdownLaw(k, u, v, pass)
  {
    hide Runs, StayOnBattery, Frame;
    StayOnBatteryKeeps(cfg, w, pass);
    FrameKeepsLedger(w, StayOnBattery(cfg, w, pass));
  }

  lemma ActLaw(cfg: Config, u: Ups, pass: Input)
    ensures var k, v := Classify(u), Act(cfg, u, pass);
      && Base(u, v) && (Agrees(u) ==> Agrees(v))
      && LedgerMoves(k, u, v, pass.now) && ShutdownLaw(k, u, v, pass)
  {
    hide Runs, Agrees, StayOnBattery, PowerFails, PowerReturns, StayOnMains, ShutdownLaw, LedgerOpens, LedgerCloses,
         SameLedger, Base, Mild;
    var k := Classify(u);
    match k {
      case OnMains =>
        StayOnMainsLaw(u, pass);
        FrameKeepsLedger(u, StayOnMains(u, pass));
        MildIsLawful(k, u, StayOnMains(u, pass), pass);
      case PowerFailure =>
        PowerFailsLaw(cfg, u, pass);
        MildIsLawful(k, u, PowerFails(cfg, u, pass), pass);
      case BackOnMains =>
        PowerReturnsLaw(cfg, u, pass);
        MildIsLawful(k, u, PowerReturns(cfg, u, pass), pass);
      case Calibrating =>
        NothingDone(k, u, pass);
      case SelfTest =>
        if SelfTestGoesOn(u, pass) {
          NothingDone(k, u, pass);
        } else {
          BatteryLaw(cfg, k, u, u.(selfTest := 0), pass);
        }
      case OnBatteries =>
        BatteryLaw(cfg, k, u, u, pass);
    }
  }

  lemma NothingDone(k: Kind, u: Ups, pass: Input)
    requires !OnBatteryKind(k) || SelfTestGoesOn(u, pass)
    ensures Base(u, u) && SameLedger(u, u) && ShutdownLaw(k, u, u, pass)
  {
  }

  // ----- the whole pass

  /** What the flags of a pass say of its kind; a self test is told from an outage by the driver's answer. */
  ghost predicate KindMatches(k: Kind, before: set<Bit>, flags: set<Bit>) {
    && (k == PowerFailure <==> OnBatt in flags && OnBatt !in before && Calibration !in flags)
    && (k == BackOnMains <==> OnBatt !in flags && OnBatt in before)
    && (OnBatteryKind(k) <==> OnBatt in flags && OnBatt in before && Calibration !in flags)
  }

  function TimerAfter(u: Ups, pass: Input): int {
    if BattLow in pass.flags && BattLow !in Before(u) then pass.now else u.startLbatt
  }

  ghost predicate PassCommon(u: Ups, pass: Input, v: Ups) {
    && !v.first && v.prevStatus == v.status
    && (forall b :: b !in LOCAL && b != ReplaceBatt ==> (b in v.status <==> b in pass.flags))
    && (Shutdown in u.status ==> Shutdown in v.status)
    && (Agrees(u) ==> Agrees(v))
  }

  /** A remote shutdown cuts the pass short: only its first pass acts. */
  ghost predicate RemoteLaw(u: Ups, pass: Input, v: Ups) {
    && SameLedger(u, v) && Runs(v.log, Failing) == Runs(u.log, Failing) && v.startLbatt == u.startLbatt
    && (ShutRemote !in Before(u) ==> Shutdown in v.status)
  }

  ghost predicate LocalLaw(u: Ups, pass: Input, v: Ups) {
    && v.startLbatt == TimerAfter(u, pass)
    && exists k :: KindMatches(k, Before(u), pass.flags) && LedgerMoves(k, u, v, pass.now)
         && LocalShutdown(k, u, pass, v)
  }

  ghost predicate LocalShutdown(k: Kind, u: Ups, pass: Input, v: Ups) {
    var due := BattLow in pass.flags && pass.now - v.startLbatt >= 5;
    && (Runs(v.log, Failing) != Runs(u.log, Failing) ==> Shutdown !in u.status && due)
    && (Shutdown in v.status && Shutdown !in u.status ==> OnBatteryKind(k))
    && (OnBatteryKind(k) && due ==> Shutdown in v.status || (OnBattMsg !in u.status && OnBattMsg in v.status))
  }

  /** The state after the steps that come before the action. */
  lemma PreparedLaw(cfg: Config, u: Ups, pass: Input)
    ensures var w := ReplaceBattery(cfg, Begin(u, pass), pass);
      && SameLedger(u, w) && (Agrees(u) ==> Agrees(w)) && !w.first && w.prevStatus == Before(u)
      && w.startLbatt == u.startLbatt && Runs(w.log, Failing) == Runs(u.log, Failing)
      && (Shutdown in w.status <==> Shutdown in u.status)
      && (forall b :: b !in LOCAL && b != ReplaceBatt ==> (b in w.status <==> b in pass.flags))
  {
    hide Runs, Agrees, Begin, ReplaceBattery;
    BeginKeeps(u, pass);
    ReplaceBatteryKeeps(cfg, Begin(u, pass), pass);
    FrameKeepsLedger(Begin(u, pass), ReplaceBattery(cfg, Begin(u, pass), pass));
  }

  lemma AnnouncementKept(cfg: Config, u: Ups, pass: Input)
    ensures OnBattMsg in Prepared(cfg, u, pass).status <==> OnBattMsg in u.status
  {
    hide Begin, ReplaceBattery, BatteryAttached;
    var u1 := Begin(u, pass);
    BeginAnnouncement(u, pass);
    ReplaceAnnouncement(cfg, u1, pass);
    AttachedAnnouncement(cfg, ReplaceBattery(cfg, u1, pass), pass);
  }

  lemma BeginAnnouncement(u: Ups, pass: Input)
    ensures OnBattMsg in Begin(u, pass).status <==> OnBattMsg in u.status
  {
  }

  lemma ReplaceAnnouncement(cfg: Config, u: Ups, pass: Input)
    ensures OnBattMsg in ReplaceBattery(cfg, u, pass).status <==> OnBattMsg in u.status
  {
    hide Generate;
    GenerateFrame(cfg, u, ChangeMe, pass.shutAt);
  }

  lemma AttachedAnnouncement(cfg: Config, u: Ups, pass: Input)
    ensures OnBattMsg in BatteryAttached(cfg, u, pass).status <==> OnBattMsg in u.status
  {
    hide Generate;
    GenerateFrame(cfg, u, BattAttach, pass.shutAt);
    GenerateFrame(cfg, u, BattDetach, pass.shutAt);
  }

  /** The remote branch, from the prepared state on. */
  lemma RemoteStepLaw(cfg: Config, w: Ups, pass: Input)
    ensures var v := RemoteShutdown(cfg, w, pass);
      && SameLedger(w, v) && Base(w, v) && (Agrees(w) ==> Agrees(v)) && Runs(v.log, Failing) == Runs(w.log, Failing)
      && (UpsReference.Changed(w, ShutRemote) ==> Shutdown in v.status)
  {
    hide Runs, Agrees, RemoteShutdown, Frame, SameLedger, Base;
    RemoteShutdownKeeps(cfg, w, pass);
    FrameKeepsLedger(w, RemoteShutdown(cfg, w, pass));
  }

  lemma RemotePassLaw(cfg: Config, u: Ups, pass: Input)
    requires ShutRemote in pass.flags
    ensures var v := Pass(cfg, u, pass);
      PassCommon(u, pass, v) && RemoteLaw(u, pass, v)
  {
    hide Runs, Agrees, Begin, ReplaceBattery, RemoteShutdown, Failures, Returns, BatteryLow, BatteryAttached, Act;
    var w := ReplaceBattery(cfg, Begin(u, pass), pass);
    PreparedLaw(cfg, u, pass);
    assert ShutRemote !in LOCAL;
    RemoteStepLaw(cfg, w, pass);
    RememberKeeps(RemoteShutdown(cfg, w, pass));
  }

  lemma RememberKeeps(u: Ups)
    ensures Agrees(u) ==> Agrees(Remember(u))
  {
  }

  lemma FullyPreparedLaw(cfg: Config, u: Ups, pass: Input)
    ensures var w := Prepared(cfg, u, pass);
      && SameLedger(u, w) && (Agrees(u) ==> Agrees(w)) && !w.first && w.prevStatus == Before(u)
      && w.startLbatt == TimerAfter(u, pass) && Runs(w.log, Failing) == Runs(u.log, Failing)
      && (Shutdown in w.status <==> Shutdown in u.status)
      && (forall b :: b !in LOCAL && b != ReplaceBatt ==> (b in w.status <==> b in pass.flags))
  {
    hide Runs, Begin, ReplaceBattery, BatteryAttached, Failures, Returns, Agrees, Frame;
    var w1 := ReplaceBattery(cfg, Begin(u, pass), pass);
    PreparedLaw(cfg, u, pass);
    BatteryAttachedKeeps(cfg, w1, pass);
    var w2 := BatteryAttached(cfg, w1, pass);
    FrameKeepsLedger(w1, w2);
    TimerStartKeeps(w2, pass);
  }

  lemma TimerStartKeeps(u: Ups, pass: Input)
    ensures Agrees(u) ==> Agrees(BatteryLow(u, pass))
  {
  }

  lemma ClassifyMatches(w: Ups, before: set<Bit>, flags: set<Bit>)
    requires w.prevStatus == before
    requires forall b :: b !in LOCAL && b != ReplaceBatt ==> (b in w.status <==> b in flags)
    ensures KindMatches(Classify(w), before, flags)
  {
    assert OnBatt !in LOCAL && Calibration !in LOCAL;
  }

  lemma LocalPassLaw(cfg: Config, u: Ups, pass: Input)
    requires ShutRemote !in pass.flags
    ensures var v := Pass(cfg, u, pass);
      PassCommon(u, pass, v) && LocalLaw(u, pass, v)
  {
    hide Runs, Agrees, Begin, ReplaceBattery, BatteryAttached, BatteryLow, Act, Failures, Returns, Classify,
         KindMatches;
    var w := Prepared(cfg, u, pass);
    PreparedLaw(cfg, u, pass);
    FullyPreparedLaw(cfg, u, pass);
    AnnouncementKept(cfg, u, pass);
    ClassifyMatches(w, Before(u), pass.flags);
    ActLaw(cfg, w, pass);
    RememberKeeps(Act(cfg, w, pass));
    var k := Classify(w);
    var v := Pass(cfg, u, pass);
    assert v == Remember(Act(cfg, w, pass));
    assert LedgerMoves(k, u, v, pass.now);
    assert LocalShutdown(k, u, pass, v);
  }
}
