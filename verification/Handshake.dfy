/**
 The shutdown handshake between the signal thread, which runs apcupsd_terminate, and the device
 thread, which runs do_device: two flags, interleaved one shared access at a time.
 */
module Handshake {
  const WAIT_MS: nat := 30000
  const POLL_MS: nat := 100

  /** Where the device thread is; it is inside the driver at the places `InDriver` names. */
  datatype DevicePc =
    | Opening | FirstFill | Entering | Checking
    | FirstAction | Filling | SecondAction | Reporting | CheckingState
    | Stopping | Returned | MainRequests | MainTests | MainPassed

  datatype SignalPc = Idle | Testing | Sleeping | Passed

  datatype State = State(
    shutdownRequested: bool, deviceThreadStopped: bool,
    device: DevicePc, signal: SignalPc,
    waited: nat, polls: nat,
    entered: bool,             // device_thread_stopped has been cleared by do_device
    readEarly: bool)           // the signal thread first read the flag before that

  function Initial(): State {
    State(false, true, Opening, Idle, 0, 0, false, false)
  }

  predicate InDriver(pc: DevicePc) {
    pc in {Opening, FirstFill, FirstAction, Filling, SecondAction, CheckingState}
  }

  /** One step of the device thread, which is the main thread and calls apcupsd_terminate itself at the end. */
  function DeviceStep(s: State): State {
    match s.device
    case Opening => s.(device := FirstFill)
    case FirstFill => s.(device := Entering)
    case Entering => s.(deviceThreadStopped := false, entered := true, device := Checking)
    case Checking => s.(device := if s.shutdownRequested then Stopping else FirstAction)
    case FirstAction => s.(device := Filling)
    case Filling => s.(device := SecondAction)
    case SecondAction => s.(device := Reporting)
    case Reporting => s.(device := CheckingState)
    case CheckingState => s.(device := Checking)
    case Stopping => s.(deviceThreadStopped := true, device := Returned)
    case Returned => s.(device := MainRequests)
    case MainRequests => s.(shutdownRequested := true, device := MainTests)
    case MainTests => if s.deviceThreadStopped then s.(device := MainPassed) else s
    case MainPassed => s
  }

  /** The loop test reads the flag, and the clock only if the flag is clear. */
  function Test(s: State): State {
    var s := s.(readEarly := s.readEarly || !s.entered);
    if !s.deviceThreadStopped && s.waited < WAIT_MS then s.(signal := Sleeping) else s.(signal := Passed)
  }

  function SignalStep(s: State): State {
    match s.signal
    case Idle => s.(shutdownRequested := true, signal := Testing)
    case Testing => Test(s)
    case Sleeping => s.(waited := s.waited + POLL_MS, polls := s.polls + 1, signal := Testing)
    case Passed => s
  }

  predicate Next(s: State, t: State) {
    t == DeviceStep(s) || t == SignalStep(s) || t == s
  }

  ghost predicate IsRun(run: seq<State>) {
    run != [] && run[0] == Initial() && forall i :: 0 < i < |run| ==> Next(run[i - 1], run[i])
  }

  /** The device loop has been left for good. */
  predicate LoopLeft(pc: DevicePc) {
    pc in {Returned, MainRequests, MainTests, MainPassed}
  }

  predicate TimedOut(s: State) {
    s.waited >= WAIT_MS
  }

  ghost predicate Inv(s: State) {
    && (s.entered <==> s.device !in {Opening, FirstFill, Entering})
    && (s.entered ==> (s.deviceThreadStopped <==> LoopLeft(s.device)))
    && (!s.entered ==> s.deviceThreadStopped)
    && s.waited == POLL_MS * s.polls && s.waited <= WAIT_MS
    && (s.signal == Sleeping ==> s.waited < WAIT_MS)
    && (s.signal == Sleeping || s.waited > 0 ==> s.entered)
    && (s.signal != Idle ==> s.shutdownRequested)
    && (s.signal == Idle ==> !s.readEarly && s.waited == 0)
    && (s.signal == Passed ==> TimedOut(s) || s.readEarly || LoopLeft(s.device))
    && (s.readEarly ==> s.signal == Passed && !TimedOut(s))
    && (s.device in {Stopping, Returned} ==> s.shutdownRequested)
  }

  lemma InvStep(s: State, t: State)
    requires Inv(s) && Next(s, t)
    ensures Inv(t)
  {
  }

  lemma {:induction false} InvHolds(run: seq<State>, i: nat)
    requires IsRun(run) && i < |run|
    ensures Inv(run[i])
  {
    hide Next, Inv;
    if i > 0 {
      InvHolds(run, i - 1);
      InvStep(run[i - 1], run[i]);
    } else {
      InvInitially();
    }
  }

  lemma InvInitially()
    ensures Inv(Initial())
  {
  }

  lemma LeftStep(s: State, t: State)
    requires LoopLeft(s.device) && Next(s, t)
    ensures LoopLeft(t.device)
  {
  }

  lemma RequestStep(s: State, t: State)
    requires s.shutdownRequested && Next(s, t)
    ensures t.shutdownRequested
  {
  }

  /** Leaving the loop is for good, and there is no driver call after it. */
  lemma {:induction false} LeftForGood(run: seq<State>, i: nat, j: nat)
    requires IsRun(run) && i <= j < |run| && LoopLeft(run[i].device)
    ensures LoopLeft(run[j].device) && !InDriver(run[j].device)
    decreases j
  {
    hide Next;
    if i < j {
      LeftForGood(run, i, j - 1);
      LeftStep(run[j - 1], run[j]);
    }
  }

  /**
   The point of the handshake.  If the signal thread gets past its wait without timing out, and the
   device loop had been entered when it first read the flag, no driver call is made from then on.
   */
  lemma NoDriverCallAfterWait(run: seq<State>, i: nat, j: nat)
    requires IsRun(run) && i <= j < |run|
    requires run[i].signal == Passed && !TimedOut(run[i]) && !run[i].readEarly
    ensures !InDriver(run[j].device)
  {
    InvHolds(run, i);
    LeftForGood(run, i, j);
  }

  /** The step at which the signal thread gets past its wait. */
  ghost predicate PassesAt(run: seq<State>, i: nat)
    requires i < |run|
  {
    i > 0 && run[i - 1].signal == Testing && run[i].signal == Passed
  }

  /**
   Exactly when the guarantee is had: at the step that passes without timing out, the loop has been
   left if and only if it had been entered before the flag was read.
   */
  lemma GuaranteeIffEntered(run: seq<State>, i: nat)
    requires IsRun(run) && i < |run| && PassesAt(run, i) && !TimedOut(run[i])
    ensures LoopLeft(run[i].device) <==> run[i - 1].entered
  {
    hide Next, Inv, LoopLeft;
    InvHolds(run, i - 1);
    PassStep(run[i - 1], run[i]);
  }

  lemma PassStep(s: State, t: State)
    requires Inv(s) && Next(s, t) && s.signal == Testing && t.signal == Passed && !TimedOut(t)
    ensures LoopLeft(t.device) <==> s.entered
  {
  }

  /** A signal during start-up: the flag still says stopped, the wait passes, and the device is opened afterwards. */
  lemma StartupRace() returns (run: seq<State>)
    ensures IsRun(run) && |run| == 4 && run[2].signal == Passed && !TimedOut(run[2])
    ensures InDriver(run[2].device) && InDriver(run[3].device) && run[3].device != run[2].device
  {
    var s0 := Initial();
    var s1 := SignalStep(s0);
    var s2 := SignalStep(s1);
    run := [s0, s1, s2, DeviceStep(s2)];
    assert Next(s0, s1) && Next(s1, s2) && Next(s2, DeviceStep(s2));
  }

  // ----- bounds

  /** At most 300 polls, and giving up means having polled 300 times. */
  lemma PollsBounded(run: seq<State>, i: nat)
    requires IsRun(run) && i < |run|
    ensures run[i].polls <= 300
    ensures TimedOut(run[i]) <==> run[i].polls == 300
  {
    InvHolds(run, i);
  }

  /** Steps the device thread can still take before it has left the loop, once shutdown is requested. */
  function Remaining(pc: DevicePc): nat {
    match pc
    case Opening => 5
    case FirstFill => 4
    case Entering => 3
    case FirstAction => 7
    case Filling => 6
    case SecondAction => 5
    case Reporting => 4
    case CheckingState => 3
    case Checking => 2
    case Stopping => 1
    case _ => 0
  }

  lemma {:induction false} RequestStays(run: seq<State>, i: nat, j: nat)
    requires IsRun(run) && i <= j < |run| && run[i].shutdownRequested
    ensures run[j].shutdownRequested
    decreases j
  {
    hide Next;
    if i < j {
      RequestStays(run, i, j - 1);
      RequestStep(run[j - 1], run[j]);
    }
  }

  /** No cycle begins once the request is visible: at most the one in progress is completed. */
  lemma NoNewCycle(run: seq<State>, i: nat, j: nat)
    requires IsRun(run) && i <= j && j + 1 < |run| && run[i].shutdownRequested
    ensures !(run[j].device == Checking && run[j + 1].device == FirstAction)
  {
    RequestStays(run, i, j);
    assert Next(run[j], run[j + 1]);
  }

  /** How many of the steps from i to j the device thread moved in, before leaving the loop. */
  function DeviceMoves(run: seq<State>, i: nat, j: nat): nat
    requires i <= j < |run|
    decreases j
  {
    if i == j then 0 else
      DeviceMoves(run, i, j - 1) + if run[j - 1].device != run[j].device && !LoopLeft(run[j - 1].device) then 1 else 0
  }

  /** A move of the device thread uses up one of the remaining ones. */
  lemma MoveStep(s: State, t: State)
    requires s.shutdownRequested && Next(s, t)
    ensures Remaining(t.device)
         == if s.device != t.device && !LoopLeft(s.device) then Remaining(s.device) - 1 else Remaining(s.device)
    ensures Remaining(t.device) == 0 <==> LoopLeft(t.device)
  {
  }

  lemma AtMostSeven(pc: DevicePc)
    ensures Remaining(pc) <= 7 && (Remaining(pc) == 0 <==> LoopLeft(pc))
  {
  }

  /**
   After the request the device thread moves a bounded number of times before it has left the loop:
   seven from the start of a cycle, and fewer from anywhere else.
   */
  lemma {:induction false} BoundedAfterRequest(run: seq<State>, i: nat, j: nat)
    requires IsRun(run) && i <= j < |run| && run[i].shutdownRequested
    ensures DeviceMoves(run, i, j) + Remaining(run[j].device) <= Remaining(run[i].device) <= 7
    ensures DeviceMoves(run, i, j) == Remaining(run[i].device) ==> LoopLeft(run[j].device)
    decreases j
  {
    hide Next, Remaining, LoopLeft;
    AtMostSeven(run[i].device);
    if i < j {
      BoundedAfterRequest(run, i, j - 1);
      RequestStays(run, i, j - 1);
      MoveStep(run[j - 1], run[j]);
    }
  }

  /** The main thread's own call of apcupsd_terminate never has to wait. */
  lemma MainNeverWaits(run: seq<State>, i: nat)
    requires IsRun(run) && i < |run| && run[i].device == MainTests
    ensures DeviceStep(run[i]).device == MainPassed
  {
    InvHolds(run, i);
  }

  /** The wait loop itself, against what the flag reads at each test. */
  method AwaitStopped(flags: seq<bool>) returns (waited: nat)
    requires |flags| == WAIT_MS / POLL_MS + 1
    ensures waited <= WAIT_MS && waited % POLL_MS == 0
    ensures waited < WAIT_MS ==> flags[waited / POLL_MS]
    ensures forall k :: 0 <= k < waited / POLL_MS ==> !flags[k]
  {
    waited := 0;
    while !flags[waited / POLL_MS] && waited < WAIT_MS
      invariant waited <= WAIT_MS && waited % POLL_MS == 0
      invariant forall k :: 0 <= k < waited / POLL_MS ==> !flags[k]
    {
      waited := waited + POLL_MS;
    }
  }
}
