/** History theorems: what holds after every run of passes, whatever the clock and the driver do. */
module UpsHistory {
  import opened StatusBits
  import opened UpsReference
  import opened UpsEvents
  import opened UpsPass

  lemma OneMorePass(cfg: Config, passes: seq<Input>, n: nat)
    requires n < |passes|
    ensures Run(cfg, passes[..n + 1]) == Pass(cfg, Run(cfg, passes[..n]), passes[n])
  {
    assert passes[..n + 1][..n] == passes[..n];
  }

  /** Facts about the state after the first n passes that every later argument uses. */
  ghost predicate Remembered(cfg: Config, u: Ups, passes: seq<Input>, n: nat)
    requires n <= |passes|
  {
    && (n == 0 ==> u == Started(cfg))
    && (n > 0 ==> !u.first && u.prevStatus == u.status)
    && (n > 0 ==> forall b :: b !in LOCAL && b != ReplaceBatt ==> (b in u.status <==> b in passes[n - 1].flags))
    && (ShutRemote in Before(u) ==> Shutdown in u.status)
    && Agrees(u)
  }

  lemma {:induction false} AlwaysRemembered(cfg: Config, passes: seq<Input>, n: nat)
    requires n <= |passes|
    ensures Remembered(cfg, Run(cfg, passes[..n]), passes, n)
  {
    hide Pass, Agrees, Runs, LocalLaw, RemoteLaw;
    if n == 0 {
      StartedAgrees(cfg);
    } else {
      AlwaysRemembered(cfg, passes, n - 1);
      OneMorePass(cfg, passes, n - 1);
      var u := Run(cfg, passes[..n - 1]);
      if ShutRemote in passes[n - 1].flags {
        RemotePassLaw(cfg, u, passes[n - 1]);
        RemoteMeansShutdown(cfg, u, passes[n - 1]);
      } else {
        LocalPassLaw(cfg, u, passes[n - 1]);
      }
      assert ShutRemote !in LOCAL;
    }
  }

  lemma StartedAgrees(cfg: Config)
    ensures Agrees(Started(cfg)) && ShutRemote !in Before(Started(cfg))
  {
  }

  lemma RemoteMeansShutdown(cfg: Config, u: Ups, pass: Input)
    requires ShutRemote in pass.flags && (ShutRemote in Before(u) ==> Shutdown in u.status)
    ensures Shutdown in Pass(cfg, u, pass).status
  {
    hide Pass, Agrees, Runs;
    RemotePassLaw(cfg, u, pass);
  }

  /**
   Over every run: announcements of going on and off battery differ by the onbatt_msg flag; the
   shutdown command has run once if the shutdown flag is set and never otherwise; and the flag is
   set exactly when one of the six causes has been announced.
   */
  lemma AnnouncementsAndShutdown(cfg: Config, passes: seq<Input>)
    ensures var u := Run(cfg, passes);
      && Runs(u.log, OnBattery) - Runs(u.log, OffBattery) == One(OnBattMsg in u.status)
      && Runs(u.log, DoShutdown) == One(Shutdown in u.status)
      && (Shutdown in u.status <==> exists c :: c in SHUTDOWN_CAUSES && Runs(u.log, c) > 0)
  {
    AlwaysRemembered(cfg, passes, |passes|);
    assert passes[..|passes|] == passes;
  }

  /** A shutdown, once begun, is never taken back. */
  lemma {:induction false} ShutdownIsFinal(cfg: Config, passes: seq<Input>, m: nat, n: nat)
    requires m <= n <= |passes| && Shutdown in Run(cfg, passes[..m]).status
    ensures Shutdown in Run(cfg, passes[..n]).status
    decreases n
  {
    hide Pass, Agrees, Runs, LocalLaw, RemoteLaw;
    if m < n {
      ShutdownIsFinal(cfg, passes, m, n - 1);
      OneMorePass(cfg, passes, n - 1);
      var u := Run(cfg, passes[..n - 1]);
      if ShutRemote in passes[n - 1].flags {
        RemotePassLaw(cfg, u, passes[n - 1]);
      } else {
        LocalPassLaw(cfg, u, passes[n - 1]);
      }
    }
  }

  // ----- what the flags of a run say by themselves

  predicate On(passes: seq<Input>, k: int) {
    0 <= k < |passes| && OnBatt in passes[k].flags
  }

  predicate Low(passes: seq<Input>, k: int) {
    0 <= k < |passes| && BattLow in passes[k].flags
  }

  predicate Remote(passes: seq<Input>, k: int) {
    0 <= k < |passes| && ShutRemote in passes[k].flags
  }

  predicate Calibrates(passes: seq<Input>, k: int) {
    0 <= k < |passes| && Calibration in passes[k].flags
  }

  /** Pass k is on battery, was so at the pass before, and is not calibrating. */
  predicate PlainlyOnBattery(passes: seq<Input>, k: int) {
    On(passes, k - 1) && On(passes, k) && !Calibrates(passes, k)
  }

  predicate ClockRuns(passes: seq<Input>) {
    forall j, k :: 0 <= j <= k < |passes| ==> passes[j].now <= passes[k].now
  }

  /** The battery is reported low at every pass from k up to, not including, n. */
  predicate LowSince(passes: seq<Input>, k: int, n: int) {
    0 <= k < n <= |passes| && forall j :: k <= j < n ==> Low(passes, j)
  }

  // ----- the system goes down only when it should

  lemma DownInOnePass(cfg: Config, passes: seq<Input>, n: nat)
    requires n < |passes|
    requires Shutdown !in Run(cfg, passes[..n]).status && Shutdown in Run(cfg, passes[..n + 1]).status
    ensures Remote(passes, n) || PlainlyOnBattery(passes, n)
  {
    hide Pass, Agrees, Runs, LedgerMoves;
    AlwaysRemembered(cfg, passes, n);
    OneMorePass(cfg, passes, n);
    if ShutRemote !in passes[n].flags {
      LocalPassLaw(cfg, Run(cfg, passes[..n]), passes[n]);
      assert OnBatt !in LOCAL;
    }
  }

  lemma NotDownAtStart(cfg: Config, passes: seq<Input>)
    ensures Shutdown !in Run(cfg, passes[..0]).status
  {
    hide Pass;
  }

  /** A system that was shut down saw a remote request, or two passes on battery in a row. */
  lemma {:induction false} NoShutdownOnMains(cfg: Config, passes: seq<Input>, n: nat)
    requires n <= |passes| && Shutdown in Run(cfg, passes[..n]).status
    ensures exists k :: 0 <= k < n && (Remote(passes, k) || PlainlyOnBattery(passes, k))
  {
    hide Run, PlainlyOnBattery, Remote;
    NotDownAtStart(cfg, passes);
    if n == 0 {
      assert false;
    } else if Shutdown in Run(cfg, passes[..n - 1]).status {
      NoShutdownOnMains(cfg, passes, n - 1);
    } else {
      DownInOnePass(cfg, passes, n - 1);
    }
  }

  // ----- the low-battery timer

  /** The timer shows when the current stretch of low-battery reports began. */
  ghost predicate TimerRight(u: Ups, passes: seq<Input>, n: nat)
    requires n <= |passes|
  {
    Low(passes, n - 1) && Shutdown !in u.status ==>
      exists k :: LowSince(passes, k, n) && u.startLbatt == passes[k].now && !Low(passes, k - 1)
  }

  lemma {:induction false} TimerAlwaysRight(cfg: Config, passes: seq<Input>, n: nat)
    requires n <= |passes|
    ensures TimerRight(Run(cfg, passes[..n]), passes, n)
  {
    hide Pass, Agrees, Runs, Remembered, TimerRight;
    if n == 0 {
      TimerAtStart(cfg, passes);
    } else {
      TimerAlwaysRight(cfg, passes, n - 1);
      AlwaysRemembered(cfg, passes, n - 1);
      OneMorePass(cfg, passes, n - 1);
      TimerStep(cfg, Run(cfg, passes[..n - 1]), passes, n - 1);
    }
  }

  lemma TimerAtStart(cfg: Config, passes: seq<Input>)
    ensures TimerRight(Run(cfg, passes[..0]), passes, 0)
  {
  }

  lemma TimerStep(cfg: Config, u: Ups, passes: seq<Input>, n: nat)
    requires n < |passes| && Remembered(cfg, u, passes, n) && TimerRight(u, passes, n)
    ensures TimerRight(Pass(cfg, u, passes[n]), passes, n + 1)
  {
    hide Pass, Agrees, Runs, LedgerMoves, LocalShutdown;
    var v := Pass(cfg, u, passes[n]);
    if ShutRemote in passes[n].flags {
      RemoteMeansShutdown(cfg, u, passes[n]);
    } else if Low(passes, n) && Shutdown !in v.status {
      LocalPassLaw(cfg, u, passes[n]);
      assert BattLow !in LOCAL;
      if Low(passes, n - 1) {
        var k :| LowSince(passes, k, n) && u.startLbatt == passes[k].now && !Low(passes, k - 1);
        assert LowSince(passes, k, n + 1);
      } else {
        assert LowSince(passes, n, n + 1);
      }
    }
  }

  /** CMDFAILING is sound: it runs only when every pass of the last 5 seconds or more reported a low battery. */
  lemma FailingIsSound(cfg: Config, passes: seq<Input>, n: nat)
    requires n < |passes|
    ensures Runs(Run(cfg, passes[..n + 1]).log, Failing) != Runs(Run(cfg, passes[..n]).log, Failing) ==>
      exists k :: LowSince(passes, k, n + 1) && passes[n].now - passes[k].now >= 5
  {
    hide Pass, Agrees, Runs, LedgerMoves, Remembered;
    var u := Run(cfg, passes[..n]);
    AlwaysRemembered(cfg, passes, n);
    OneMorePass(cfg, passes, n);
    if ShutRemote in passes[n].flags {
      RemotePassLaw(cfg, u, passes[n]);
    } else {
      LocalPassLaw(cfg, u, passes[n]);
      TimerAlwaysRight(cfg, passes, n);
      if Runs(Run(cfg, passes[..n + 1]).log, Failing) != Runs(u.log, Failing) {
        FailingTimer(cfg, u, passes, n);
      }
    }
  }

  lemma FailingTimer(cfg: Config, u: Ups, passes: seq<Input>, n: nat)
    requires n < |passes| && Remembered(cfg, u, passes, n) && TimerRight(u, passes, n)
    requires BattLow in passes[n].flags && Shutdown !in u.status
    requires passes[n].now - TimerAfter(u, passes[n]) >= 5
    ensures exists k :: LowSince(passes, k, n + 1) && passes[n].now - passes[k].now >= 5
  {
    hide Agrees, Runs;
    assert BattLow !in LOCAL;
    if Low(passes, n - 1) {
      var k :| LowSince(passes, k, n) && u.startLbatt == passes[k].now && !Low(passes, k - 1);
      assert LowSince(passes, k, n + 1);
    }
  }

  /** Every pass that finds the battery low long enough shuts down, or else makes the on-battery announcement. */
  lemma LowBatteryStep(cfg: Config, passes: seq<Input>, k: nat, n: nat)
    requires n < |passes| && ClockRuns(passes) && LowSince(passes, k, n + 1)
    requires passes[n].now - passes[k].now >= 5 && PlainlyOnBattery(passes, n) && !Remote(passes, n)
    ensures var u, v := Run(cfg, passes[..n]), Run(cfg, passes[..n + 1]);
      Shutdown in v.status || (OnBattMsg !in u.status && OnBattMsg in v.status)
  {
    hide Pass, Run, Agrees, Runs, TimerRight, LocalLaw, PassCommon;
    var u, v := Run(cfg, passes[..n]), Run(cfg, passes[..n + 1]);
    AlwaysRemembered(cfg, passes, n);
    OneMorePass(cfg, passes, n);
    LocalPassLaw(cfg, u, passes[n]);
    if Shutdown !in v.status {
      TimerAlwaysRight(cfg, passes, n + 1);
      TimerIsOld(v, passes, k, n);
      DueStep(cfg, u, passes, n, v);
    }
  }

  /** The timer was started no later than the pass from which on the battery was low. */
  lemma TimerIsOld(v: Ups, passes: seq<Input>, k: nat, n: nat)
    requires n < |passes| && ClockRuns(passes) && LowSince(passes, k, n + 1)
    requires TimerRight(v, passes, n + 1) && Shutdown !in v.status
    ensures v.startLbatt <= passes[k].now
  {
    var r :| LowSince(passes, r, n + 1) && v.startLbatt == passes[r].now && !Low(passes, r - 1);
    assert k < r ==> Low(passes, r - 1);
  }

  /** With the timer expired the law of the pass leaves no choice. */
  lemma DueStep(cfg: Config, u: Ups, passes: seq<Input>, n: nat, v: Ups)
    requires n < |passes| && Remembered(cfg, u, passes, n) && LocalLaw(u, passes[n], v)
    requires PlainlyOnBattery(passes, n) && Low(passes, n) && passes[n].now - v.startLbatt >= 5
    ensures Shutdown in v.status || (OnBattMsg !in u.status && OnBattMsg in v.status)
  {
    hide Runs, Agrees, LedgerMoves;
    assert OnBatt !in LOCAL;
  }

  /**
   CMDFAILING's promptness: once the battery has been low for 5 seconds, two passes in a row on
   battery leave the shutdown flag set, whatever the self test, the delays and the limits are.
   */
  lemma LowBatteryShutsDown(cfg: Config, passes: seq<Input>, k: nat, n: nat)
    requires n + 1 < |passes| && ClockRuns(passes) && LowSince(passes, k, n + 2)
    requires passes[n].now - passes[k].now >= 5
    requires PlainlyOnBattery(passes, n) && PlainlyOnBattery(passes, n + 1)
    ensures Shutdown in Run(cfg, passes[..n + 2]).status
  {
    hide Run;
    assert LowSince(passes, k, n + 1);
    if Remote(passes, n) {
      RemoteShutsDown(cfg, passes, n);
    } else {
      LowBatteryStep(cfg, passes, k, n);
    }
    if Shutdown in Run(cfg, passes[..n + 1]).status {
      ShutdownIsFinal(cfg, passes, n + 1, n + 2);
    } else if Remote(passes, n + 1) {
      RemoteShutsDown(cfg, passes, n + 1);
    } else {
      LowBatteryStep(cfg, passes, k, n + 1);
    }
  }

  /** Every pass with the remote-shutdown flag leaves the shutdown flag set. */
  lemma RemoteShutsDown(cfg: Config, passes: seq<Input>, n: nat)
    requires Remote(passes, n)
    ensures Shutdown in Run(cfg, passes[..n + 1]).status
  {
    hide Pass, Run;
    AlwaysRemembered(cfg, passes, n);
    OneMorePass(cfg, passes, n);
    RemoteMeansShutdown(cfg, Run(cfg, passes[..n]), passes[n]);
  }
}
