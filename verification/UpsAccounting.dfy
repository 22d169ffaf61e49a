/**
 The on-battery accounting against the flags of the run alone: how often power failed, and for how
 long the system ran on battery.
 */
module UpsAccounting {
  import opened Wrappers
  import opened StatusBits
  import opened UpsReference
  import opened UpsEvents
  import opened UpsPass
  import opened UpsHistory

  predicate Begins(passes: seq<Input>, k: int) {
    On(passes, k) && !On(passes, k - 1)
  }

  predicate Ends(passes: seq<Input>, k: int) {
    0 <= k < |passes| && !On(passes, k) && On(passes, k - 1)
  }

  /** When the stretch on battery that pass k belongs to began. */
  function Since(passes: seq<Input>, k: nat): int
    requires On(passes, k)
  {
    if Begins(passes, k) then passes[k].now else Since(passes, k - 1)
  }

  /** How many stretches begin among the first n passes, not counting those that begin calibrating. */
  function Outages(passes: seq<Input>, n: nat): nat
    requires n <= |passes|
  {
    if n == 0 then 0
    else Outages(passes, n - 1) + One(Begins(passes, n - 1) && !Calibrates(passes, n - 1))
  }

  function CalibrationStarts(passes: seq<Input>, n: nat): nat
    requires n <= |passes|
  {
    if n == 0 then 0
    else CalibrationStarts(passes, n - 1) + One(Begins(passes, n - 1) && Calibrates(passes, n - 1))
  }

  function Endings(passes: seq<Input>, n: nat): nat
    requires n <= |passes|
  {
    if n == 0 then 0 else Endings(passes, n - 1) + One(Ends(passes, n - 1))
  }

  /** The lengths of the stretches that have ended among the first n passes. */
  function EndedTime(passes: seq<Input>, n: nat): int
    requires n <= |passes|
  {
    if n == 0 then 0
    else EndedTime(passes, n - 1) + (if Ends(passes, n - 1) then passes[n - 1].now - Since(passes, n - 2) else 0)
  }

  /** The length so far of the stretch that pass n - 1 belongs to. */
  function OpenTime(passes: seq<Input>, n: nat): int
    requires n <= |passes|
  {
    if On(passes, n - 1) then passes[n - 1].now - Since(passes, n - 1) else 0
  }

  /** The time between each pass on battery and the next pass, added up. */
  function BatteryGaps(passes: seq<Input>, n: nat): int
    requires n <= |passes|
  {
    if n <= 1 then 0
    else BatteryGaps(passes, n - 1) + if On(passes, n - 2) then passes[n - 1].now - passes[n - 2].now else 0
  }

  predicate NoRemote(passes: seq<Input>) {
    forall k :: 0 <= k < |passes| ==> !Remote(passes, k)
  }

  predicate ClockPositive(passes: seq<Input>) {
    forall k :: 0 <= k < |passes| ==> passes[k].now > 0
  }

  /** No stretch on battery begins as a calibration; calibrating later in a stretch is harmless. */
  predicate NoCalibrationStart(passes: seq<Input>) {
    forall k :: 0 <= k < |passes| && Begins(passes, k) ==> !Calibrates(passes, k)
  }

  /** What one pass adds to the counters, told by its flags. */
  lemma CountersStep(cfg: Config, passes: seq<Input>, n: nat)
    requires n < |passes| && !Remote(passes, n)
    ensures var u, v := Run(cfg, passes[..n]), Run(cfg, passes[..n + 1]);
      && v.numXfers == u.numXfers + One(Begins(passes, n) && !Calibrates(passes, n))
      && Failures(v.log) == Failures(u.log) + One(Begins(passes, n) && !Calibrates(passes, n))
      && Returns(v.log) == Returns(u.log) + One(Ends(passes, n))
      && (Begins(passes, n) && !Calibrates(passes, n) ==> LedgerOpens(u, v, passes[n].now))
      && (Ends(passes, n) ==> LedgerCloses(u, v, passes[n].now))
      && (!Ends(passes, n) && !(Begins(passes, n) && !Calibrates(passes, n)) ==> SameLedger(u, v))
  {
    hide Pass, Agrees, Runs, Failures, Returns, LocalShutdown;
    var u := Run(cfg, passes[..n]);
    AlwaysRemembered(cfg, passes, n);
    OneMorePass(cfg, passes, n);
    LocalPassLaw(cfg, u, passes[n]);
    assert OnBatt !in LOCAL && OnBatt in Before(u) <==> On(passes, n - 1);
  }

  /** The counters of the run are the counts of the edges of its flags. */
  ghost predicate Counted(u: Ups, passes: seq<Input>, n: nat)
    requires n <= |passes|
  {
    u.numXfers == Failures(u.log) == Outages(passes, n) && Returns(u.log) == Endings(passes, n)
  }

  lemma {:induction false} Counters(cfg: Config, passes: seq<Input>, n: nat)
    requires n <= |passes| && NoRemote(passes)
    ensures Counted(Run(cfg, passes[..n]), passes, n)
  {
    hide *;
    if n == 0 {
      CountersAtStart(cfg, passes);
    } else {
      Counters(cfg, passes, n - 1);
      NotRemote(passes, n - 1);
      CountersStep(cfg, passes, n - 1);
      CountedStep(Run(cfg, passes[..n - 1]), Run(cfg, passes[..n]), passes, n - 1);
    }
  }

  lemma NotRemote(passes: seq<Input>, k: nat)
    requires k < |passes| && NoRemote(passes)
    ensures !Remote(passes, k)
  {
  }

  lemma CountedStep(u: Ups, v: Ups, passes: seq<Input>, n: nat)
    requires n < |passes| && Counted(u, passes, n)
    requires v.numXfers == u.numXfers + One(Begins(passes, n) && !Calibrates(passes, n))
    requires Failures(v.log) == Failures(u.log) + One(Begins(passes, n) && !Calibrates(passes, n))
    requires Returns(v.log) == Returns(u.log) + One(Ends(passes, n))
    ensures Counted(v, passes, n + 1)
  {
    hide Failures, Returns, Begins, Ends, Calibrates, One;
  }

  lemma CountersAtStart(cfg: Config, passes: seq<Input>)
    ensures Counted(Run(cfg, passes[..0]), passes, 0)
  {
    hide Failures, Returns, Run, Started;
    StartOfRun(cfg, passes);
    NothingRunYet(Run(cfg, passes[..0]));
  }

  lemma NothingRunYet(u: Ups)
    requires u.log == []
    ensures Failures(u.log) == 0 && Returns(u.log) == 0
  {
  }

  /** Edges alternate, so beginnings and endings differ by the stretch that is open. */
  lemma {:induction false} EdgesAlternate(passes: seq<Input>, n: nat)
    requires n <= |passes|
    ensures Outages(passes, n) + CalibrationStarts(passes, n) == Endings(passes, n) + One(On(passes, n - 1))
  {
    if n > 0 {
      EdgesAlternate(passes, n - 1);
    }
  }

  lemma {:induction false} CalibrationFree(passes: seq<Input>, n: nat)
    requires n <= |passes|
    ensures CalibrationStarts(passes, n) == 0
      <==> forall k :: 0 <= k < n && Begins(passes, k) ==> !Calibrates(passes, k)
  {
    if n > 0 {
      CalibrationFree(passes, n - 1);
    }
  }

  /**
   Power-failure passes and mains-back passes pair up, the difference being the outage in progress,
   exactly when no stretch on battery began as a calibration.
   */
  lemma FailuresMatchReturns(cfg: Config, passes: seq<Input>)
    requires NoRemote(passes)
    ensures var u := Run(cfg, passes);
      u.numXfers == Returns(u.log) + One(On(passes, |passes| - 1)) <==> NoCalibrationStart(passes)
  {
    assert passes[..|passes|] == passes;
    Counters(cfg, passes, |passes|);
    EdgesAlternate(passes, |passes|);
    CalibrationFree(passes, |passes|);
  }

  /** The run has recorded the stretches that ended, and when the open one began. */
  lemma {:induction false} TimeRecorded(cfg: Config, passes: seq<Input>, n: nat)
    requires n <= |passes| && NoRemote(passes) && ClockPositive(passes) && NoCalibrationStart(passes)
    ensures var u := Run(cfg, passes[..n]);
      && u.cumTime == EndedTime(passes, n)
      && (On(passes, n - 1) ==> u.lastOnBatt == Since(passes, n - 1) > 0)
  {
    hide Pass, Runs, Failures, Returns;
    if n == 0 {
      assert Run(cfg, passes[..0]) == Started(cfg);
    } else {
      TimeRecorded(cfg, passes, n - 1);
      CountersStep(cfg, passes, n - 1);
    }
  }

  /** Ended stretches and the open one together cover exactly the gaps that started on battery. */
  lemma {:induction false} StretchesCoverGaps(passes: seq<Input>, n: nat)
    requires n <= |passes|
    ensures EndedTime(passes, n) + OpenTime(passes, n) == BatteryGaps(passes, n)
  {
    if n > 0 {
      StretchesCoverGaps(passes, n - 1);
    }
  }

  lemma {:induction false} GapsWithinElapsed(passes: seq<Input>, n: nat)
    requires 0 < n <= |passes| && ClockRuns(passes)
    ensures 0 <= BatteryGaps(passes, n) <= passes[n - 1].now - passes[0].now
    ensures OpenTime(passes, n) >= 0
  {
    if n > 1 {
      GapsWithinElapsed(passes, n - 1);
    }
    if On(passes, n - 1) {
      SinceIsPast(passes, n - 1);
    }
  }

  lemma {:induction false} SinceIsPast(passes: seq<Input>, k: nat)
    requires On(passes, k) && ClockRuns(passes)
    ensures Since(passes, k) <= passes[k].now
  {
    if !Begins(passes, k) {
      SinceIsPast(passes, k - 1);
    }
  }

  /**
   The accumulated time is exactly the time spent in stretches on battery that have ended: what is
   left of the time since the first pass is the open stretch and the time on mains.
   */
  lemma TimeOnBattery(cfg: Config, passes: seq<Input>)
    requires passes != []
    requires NoRemote(passes) && ClockPositive(passes) && ClockRuns(passes) && NoCalibrationStart(passes)
    ensures var u, n := Run(cfg, passes), |passes|;
      && u.cumTime == EndedTime(passes, n) == BatteryGaps(passes, n) - OpenTime(passes, n)
      && u.cumTime + OpenTime(passes, n) <= passes[n - 1].now - passes[0].now
  {
    assert passes[..|passes|] == passes;
    TimeRecorded(cfg, passes, |passes|);
    StretchesCoverGaps(passes, |passes|);
    GapsWithinElapsed(passes, |passes|);
  }

  lemma EndedTimeGrows(passes: seq<Input>, m: nat, n: nat)
    requires m <= n <= |passes| && ClockRuns(passes)
    ensures EndedTime(passes, m) <= EndedTime(passes, n)
    decreases n
  {
    if m < n {
      EndedTimeGrows(passes, m, n - 1);
      if Ends(passes, n - 1) {
        SinceIsPast(passes, n - 2);
      }
    }
  }

  /** The accumulated time never shrinks. */
  lemma TimeNeverShrinks(cfg: Config, passes: seq<Input>, m: nat, n: nat)
    requires m <= n <= |passes|
    requires NoRemote(passes) && ClockPositive(passes) && ClockRuns(passes) && NoCalibrationStart(passes)
    ensures Run(cfg, passes[..m]).cumTime <= Run(cfg, passes[..n]).cumTime
  {
    TimeRecorded(cfg, passes, m);
    TimeRecorded(cfg, passes, n);
    EndedTimeGrows(passes, m, n);
  }

  // ----- what is recorded in every run

  /** The time the code subtracts from when a stretch ends, after n passes. */
  function Recorded(passes: seq<Input>, n: nat): int
    requires n <= |passes|
  {
    if n == 0 then 0
    else
      var before := Recorded(passes, n - 1);
      if Remote(passes, n - 1) then before
      else if Begins(passes, n - 1) && !Calibrates(passes, n - 1) then passes[n - 1].now
      else if Ends(passes, n - 1) && before <= 0 then passes[n - 1].now
      else before
  }

  /** The time added up after n passes. */
  function Booked(passes: seq<Input>, n: nat): int
    requires n <= |passes|
  {
    if n == 0 then 0
    else
      var added := if Ends(passes, n - 1) && !Remote(passes, n - 1) then passes[n - 1].now - Recorded(passes, n) else 0;
      Booked(passes, n - 1) + added
  }

  /** A pass with the remote-shutdown flag leaves the accounts alone. */
  lemma RemoteBooksNothing(cfg: Config, passes: seq<Input>, n: nat)
    requires n < |passes| && Remote(passes, n)
    ensures SameLedger(Run(cfg, passes[..n]), Run(cfg, passes[..n + 1]))
  {
    hide Pass, Agrees, Runs, Failures, Returns;
    OneMorePass(cfg, passes, n);
    RemotePassLaw(cfg, Run(cfg, passes[..n]), passes[n]);
  }

  /** In every run whatever, the books are what the flags and the clock say they are. */
  lemma {:induction false} BookedExactly(cfg: Config, passes: seq<Input>, n: nat)
    requires n <= |passes|
    ensures var u := Run(cfg, passes[..n]);
      u.cumTime == Booked(passes, n) && u.lastOnBatt == Recorded(passes, n)
  {
    hide Pass, Runs, Failures, Returns;
    if n == 0 {
      assert Run(cfg, passes[..0]) == Started(cfg);
    } else {
      BookedExactly(cfg, passes, n - 1);
      if Remote(passes, n - 1) {
        RemoteBooksNothing(cfg, passes, n - 1);
      } else {
        CountersStep(cfg, passes, n - 1);
      }
    }
  }

  /** The pass at which the stretch that pass k belongs to began. */
  function BeganAt(passes: seq<Input>, k: nat): (b: nat)
    requires On(passes, k)
    ensures b <= k && Begins(passes, b) && passes[b].now == Since(passes, k)
  {
    if Begins(passes, k) then k else BeganAt(passes, k - 1)
  }

  /** The pass counts a beginning: it is neither calibrating nor cut short by a remote shutdown. */
  predicate Noted(passes: seq<Input>, b: int) {
    !Calibrates(passes, b) && !Remote(passes, b)
  }

  /** During a stretch the record is its beginning, or, if that was not noted, what it was before. */
  lemma {:induction false} RecordedInStretch(passes: seq<Input>, k: nat)
    requires On(passes, k)
    ensures var b := BeganAt(passes, k);
      Recorded(passes, k + 1) == if Noted(passes, b) then passes[b].now else Recorded(passes, b)
  {
    if !Begins(passes, k) {
      RecordedInStretch(passes, k - 1);
    }
  }

  /** The excess when pass n ends a stretch: what is added, less the length of the stretch. */
  function Excess(passes: seq<Input>, n: nat): int
    requires n < |passes| && Ends(passes, n)
  {
    Booked(passes, n + 1) - Booked(passes, n) - (passes[n].now - Since(passes, n - 1))
  }

  /**
   In every run: a stretch that ends is counted from its beginning if that was noted, otherwise from the
   beginning recorded before it; and not at all if no time is recorded, or its end is cut short by a
   remote shutdown.
   */
  lemma EachStretch(passes: seq<Input>, n: nat)
    requires n < |passes| && Ends(passes, n)
    ensures var b := BeganAt(passes, n - 1);
      var from := if Noted(passes, b) then passes[b].now else Recorded(passes, b);
      Excess(passes, n) == passes[b].now - if Remote(passes, n) || from <= 0 then passes[n].now else from
  {
    RecordedInStretch(passes, n - 1);
  }

  predicate ClockAdvances(passes: seq<Input>) {
    forall j, k :: 0 <= j < k < |passes| ==> passes[j].now < passes[k].now
  }

  lemma {:induction false} RecordedIsPast(passes: seq<Input>, n: nat)
    requires n < |passes| && ClockAdvances(passes) && ClockPositive(passes)
    ensures Recorded(passes, n) < passes[n].now
  {
    if n > 0 {
      RecordedIsPast(passes, n - 1);
      assert passes[n - 1].now < passes[n].now;
    }
  }

  /**
   On an advancing clock a stretch is recorded exactly if and only if it did not begin as a calibration
   and neither its first pass nor the one that ends it was cut short by a remote shutdown.
   */
  lemma StretchExactIff(passes: seq<Input>, n: nat)
    requires n < |passes| && Ends(passes, n) && ClockPositive(passes) && ClockAdvances(passes)
    ensures Excess(passes, n) == 0 <==> Noted(passes, BeganAt(passes, n - 1)) && !Remote(passes, n)
  {
    EachStretch(passes, n);
    RecordedIsPast(passes, BeganAt(passes, n - 1));
  }

  /** Every stretch that the first n passes end was noted when it began, and its end was too. */
  predicate AllNoted(passes: seq<Input>, n: nat)
    requires n <= |passes|
  {
    forall k :: 0 < k < n && Ends(passes, k) ==> Noted(passes, BeganAt(passes, k - 1)) && !Remote(passes, k)
  }

  /** The accumulated time is right after every one of the first n passes. */
  ghost predicate TimeAlwaysRight(cfg: Config, passes: seq<Input>, n: nat)
    requires n <= |passes|
  {
    forall m: nat :: m <= n ==> Run(cfg, passes[..m]).cumTime == EndedTime(passes, m)
  }

  /**
   On an advancing clock the accumulated time is right throughout a run if and only if no stretch that
   has ended began as a calibration, or began or ended at a pass cut short by a remote shutdown.
   */
  lemma {:induction false} TimeAlwaysRightIff(cfg: Config, passes: seq<Input>, n: nat)
    requires n <= |passes| && ClockPositive(passes) && ClockAdvances(passes)
    ensures TimeAlwaysRight(cfg, passes, n) <==> AllNoted(passes, n)
  {
    hide *;
    if n == 0 {
      NothingEnded(cfg, passes);
    } else {
      TimeAlwaysRightIff(cfg, passes, n - 1);
      RightOnce(cfg, passes, n);
      NotedOnce(passes, n);
      BookedExactly(cfg, passes, n);
      BookedExactly(cfg, passes, n - 1);
      OneMoreEnding(passes, n);
      if Ends(passes, n - 1) {
        EndsAfterFirst(passes, n - 1);
        StretchExactIff(passes, n - 1);
      }
    }
  }

  lemma NothingEnded(cfg: Config, passes: seq<Input>)
    ensures TimeAlwaysRight(cfg, passes, 0) && AllNoted(passes, 0)
  {
    hide Run, Pass;
    BookedExactly(cfg, passes, 0);
  }

  lemma EndsAfterFirst(passes: seq<Input>, k: nat)
    requires Ends(passes, k)
    ensures 0 < k < |passes| && On(passes, k - 1)
  {
  }

  lemma RightOnce(cfg: Config, passes: seq<Input>, n: nat)
    requires 0 < n <= |passes|
    ensures var right := Run(cfg, passes[..n]).cumTime == EndedTime(passes, n);
      && (TimeAlwaysRight(cfg, passes, n) <==> TimeAlwaysRight(cfg, passes, n - 1) && right)
      && (TimeAlwaysRight(cfg, passes, n - 1) ==> Run(cfg, passes[..n - 1]).cumTime == EndedTime(passes, n - 1))
  {
    hide Run, EndedTime;
  }

  lemma NotedOnce(passes: seq<Input>, n: nat)
    requires 0 < n <= |passes|
    ensures AllNoted(passes, n)
      <==> (AllNoted(passes, n - 1)
            && (Ends(passes, n - 1) ==>
                  n > 1 && On(passes, n - 2) && Noted(passes, BeganAt(passes, n - 2)) && !Remote(passes, n - 1)))
  {
    hide BeganAt, Noted, Remote;
  }

  /** What the last of n passes adds, in the books and in truth. */
  lemma OneMoreEnding(passes: seq<Input>, n: nat)
    requires 0 < n <= |passes|
    ensures if Ends(passes, n - 1) then
              Booked(passes, n) - EndedTime(passes, n)
              == Booked(passes, n - 1) - EndedTime(passes, n - 1) + Excess(passes, n - 1)
            else
              Booked(passes, n) == Booked(passes, n - 1) && EndedTime(passes, n) == EndedTime(passes, n - 1)
  {
    hide Since, Recorded;
  }

  function Report(now: int, flags: set<Bit>): Input {
    Input(now, now, now, now, flags, 100.0, 100.0, None)
  }

  /** An outage of 10 seconds and a calibration of 10 seconds, 10 seconds apart. */
  function OutageThenCalibration(): seq<Input> {
    [Report(10, {OnBatt}), Report(20, {Online}), Report(30, {OnBatt, Calibration}), Report(40, {Online})]
  }

  /** The premise matters: with a calibration in it a run of 30 seconds can record 40 seconds on battery. */
  lemma CalibrationOvercounts(cfg: Config)
    ensures var passes := OutageThenCalibration();
      && NoRemote(passes) && ClockPositive(passes) && ClockRuns(passes) && !NoCalibrationStart(passes)
      && Run(cfg, passes).cumTime == 40 > passes[3].now - passes[0].now
  {
    hide Pass, Runs, Failures, Returns, Run;
    var passes := OutageThenCalibration();
    assert Run(cfg, passes[..0]) == Started(cfg) by { StartOfRun(cfg, passes); }
    CountersStep(cfg, passes, 0);
    CountersStep(cfg, passes, 1);
    CountersStep(cfg, passes, 2);
    CountersStep(cfg, passes, 3);
    assert passes[..4] == passes;
    assert Begins(passes, 2) && Calibrates(passes, 2);
  }

  /** And a first stretch that begins as a calibration is not recorded at all. */
  lemma CalibrationUndercounts(cfg: Config)
    ensures var passes := [Report(10, {OnBatt, Calibration}), Report(20, {Online})];
      Run(cfg, passes).cumTime == 0 && EndedTime(passes, 2) == 10
  {
    hide Pass, Runs, Failures, Returns, Run;
    var passes := [Report(10, {OnBatt, Calibration}), Report(20, {Online})];
    BookedExactly(cfg, passes, 2);
    assert passes[..2] == passes;
    assert Begins(passes, 0) && Calibrates(passes, 0) && Ends(passes, 1);
    assert Since(passes, 0) == 10 && Recorded(passes, 1) == 0;
  }

  lemma StartOfRun(cfg: Config, passes: seq<Input>)
    ensures Run(cfg, passes[..0]) == Started(cfg) && Started(cfg).log == [] && Started(cfg).numXfers == 0
  {
  }
}
