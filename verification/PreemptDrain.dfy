/** No reachable state is a dead end: all submitted work can still be executed. */
module PreemptDrain {
  import opened Basics
  import opened PreemptProtocol
  import opened PreemptInvariant
  import opened PreemptRuns
  import opened PreemptQuiet
  import opened PreemptAlone

  // ---------- The two completion paths run alone ----------

  /** The state once next_rb has been made current and the state is back to NONE. */
  function Swapped(s: State, t: nat): State
    requires t < |s.pcs| && s.next.Some? && s.next.value < |s.rings|
  {
    s.(pcs := s.pcs[t := TryTrigger], st := NONE, owner := NOBODY,
       prev := s.cur, cur := s.next.value, next := None, inFlight := false,
       hw := s.hw.(wptr := s.rings[s.next.value].wptr))
  }

  lemma CallbackSteps(s: State, t: nat)
    requires t < |s.pcs| && s.cur < |s.rings| && s.next.Some? && s.next.value < |s.rings|
    requires s.pcs[t] == CbCheck && !s.hw.cntl
    ensures var s1 := CallbackStep(s, t);
      && s1.pcs[t] == CbSwap
      && var s2 := CallbackStep(s1, t);
      && s2.pcs[t] == CbWptr
      && var s3 := CallbackStep(s2, t);
      && s3.pcs[t] == CbRelease
      && CallbackStep(s3, t) == Swapped(s, t)
  {
    var s4 := CallbackStep(CallbackStep(CallbackStep(CallbackStep(s, t), t), t), t);
    assert s4.pcs == s.pcs[t := TryTrigger];
  }

  lemma CallbackAlone(s: State, t: nat)
    requires t < |s.pcs| && s.cur < |s.rings| && s.next.Some? && s.next.value < |s.rings|
    requires s.pcs[t] == CbCheck && !s.hw.cntl
    ensures RunAlone(s, t, true) == RunAlone(Swapped(s, t), t, true)
  {
    CallbackSteps(s, t);
    hide RunAlone, CallbackStep;
    RunAloneCallback(s, t, true);
    var s1 := CallbackStep(s, t);
    RunAloneCallback(s1, t, true);
    var s2 := CallbackStep(s1, t);
    RunAloneCallback(s2, t, true);
    RunAloneCallback(CallbackStep(s2, t), t, true);
  }

  lemma DoneSteps(s: State, t: nat)
    requires t < |s.pcs| && s.cur < |s.rings| && s.next.Some? && s.next.value < |s.rings|
    requires s.pcs[t] == DoneCheck && !s.hw.cntl
    ensures var s1 := MutexStep(s, t, true);
      && s1.pcs[t] == DoneSwap
      && var s2 := MutexStep(s1, t, true);
      && s2.pcs[t] == DoneWptr
      && var s3 := MutexStep(s2, t, true);
      && s3.pcs[t] == DoneRelease
      && MutexStep(s3, t, true) == Swapped(s, t).(owner := s.owner)
  {
    var s4 := MutexStep(MutexStep(MutexStep(MutexStep(s, t, true), t, true), t, true), t, true);
    assert s4.pcs == s.pcs[t := TryTrigger];
  }

  lemma DoneAlone(s: State, t: nat)
    requires t < |s.pcs| && s.cur < |s.rings| && s.next.Some? && s.next.value < |s.rings|
    requires s.pcs[t] == DoneCheck && !s.hw.cntl && s.owner == NOBODY
    ensures RunAlone(s, t, true) == RunAlone(Swapped(s, t), t, true)
  {
    DoneSteps(s, t);
    hide RunAlone, MutexStep;
    RunAloneMutex(s, t, true);
    var s1 := MutexStep(s, t, true);
    RunAloneMutex(s1, t, true);
    var s2 := MutexStep(s1, t, true);
    RunAloneMutex(s2, t, true);
    RunAloneMutex(MutexStep(s2, t, true), t, true);
  }

  lemma FaultSteps(s: State, t: nat)
    requires t < |s.pcs| && s.cur < |s.rings|
    requires s.pcs[t] == FaultCheck && s.st == FAULTED && !s.hw.cntl
    ensures var s1 := MutexStep(s, t, true);
      && s1.pcs[t] == FaultRead
      && var s2 := MutexStep(s1, t, true);
      && s2.pcs[t] == FaultComplete
      && MutexStep(s2, t, true) == Finish(s, t).(st := COMPLETE)
  {
    var s3 := MutexStep(MutexStep(MutexStep(s, t, true), t, true), t, true);
    assert s3.pcs == s.pcs[t := Idle];
  }

  lemma FaultAlone(s: State, t: nat)
    requires t < |s.pcs| && s.cur < |s.rings|
    requires s.pcs[t] == FaultCheck && s.st == FAULTED && !s.hw.cntl
    ensures RunAlone(s, t, true) == Finish(s, t).(st := COMPLETE)
  {
    FaultSteps(s, t);
    hide RunAlone, MutexStep;
    RunAloneMutex(s, t, true);
    var s1 := MutexStep(s, t, true);
    RunAloneMutex(s1, t, true);
    RunAloneMutex(MutexStep(s1, t, true), t, true);
    Returned(Finish(s, t).(st := COMPLETE), t, true);
  }

  // ---------- One round of progress ----------

  /** Some thread exists and none is inside the driver. */
  ghost predicate Calm(s: State) {
    Inv(s) && Resting(s) && |s.pcs| > 0
  }

  lemma CalmStates(s: State)
    requires Calm(s)
    ensures s.owner == NOBODY && s.st != START && s.st != PENDING
    ensures s.inFlight <==> s.st != NONE
    ensures s.inFlight ==> s.next.Some? && s.next.value < |s.rings|
  {
  }

  /** How far a calm state is from its next execution. */
  function Stage(s: State): nat {
    if !s.inFlight then 6
    else if s.hw.cntl then (if s.hw.atYield then 4 else 1)
    else (if s.hw.atYield then 5 else 2) + One(s.st == FAULTED)
  }

  /** Running a thread that has just been started, up to its return. */
  lemma StartAndFinish(s: State, e: Event) returns (es: seq<Event>)
    requires Inv(s) && Enabled(s, e) && IsQuiet(e)
    requires e.BeginTrigger? || e.BeginCallback? || e.BeginSchedule? || e.BeginFaultWork?
    ensures ValidRun(s, es) && Quiet(es)
    ensures Apply(s, e).cur < |Apply(s, e).rings| && e.t < |Apply(s, e).pcs|
    ensures Final(s, es) == RunAlone(Apply(s, e), e.t, true)
    ensures Inv(Final(s, es)) && Outstanding(Final(s, es)) <= Outstanding(s)
  {
    StepKeepsInv(s, e);
    var s1 := Apply(s, e);
    RunAloneIsARun(s1, e.t, true);
    var rest := AloneEvents(s1, e.t, true);
    RunCons(s, e, rest);
    es := [e] + rest;
    RunKeepsInv(s, es);
    RunConservesWork(s, es);
  }

  lemma BusyRingExists(s: State)
    requires Inv(s) && Outstanding(s) > 0
    ensures FirstBusy(s.rings, 0) < |s.rings|
  {
    OutstandingNonNegative(s);
  }

  /** What a trigger leaves behind in a calm state with work: a switch under way or work to run. */
  lemma AfterTrigger(s: State, s': State)
    requires Inv(s) && Inv(s') && s.st == NONE && Outstanding(s) > 0
    requires 0 < |s.pcs| && s.pcs[0] == TryTrigger && s' == Triggered(s, 0, FirstBusy(s.rings, 0))
    requires (s.mutex == 0 || s.mutex == NOBODY) && forall t :: 1 <= t < |s.pcs| ==> s.pcs[t] == Idle
    ensures Resting(s')
    ensures (s'.st == NONE && Enabled(s', Execute))
            || (s'.st == TRIGGERED && s'.hw.cntl && s'.hw.atYield == s.hw.atYield)
  {
    BusyRingExists(s);
    assert RingOk(s, FirstBusy(s.rings, 0));
  }

  lemma RunExecute(s: State, es: seq<Event>) returns (fs: seq<Event>)
    requires Inv(s) && ValidRun(s, es) && Quiet(es) && Inv(Final(s, es)) && Enabled(Final(s, es), Execute)
    requires Resting(Final(s, es))
    ensures ValidRun(s, fs) && Quiet(fs) && Inv(Final(s, fs)) && Resting(Final(s, fs))
    ensures Outstanding(Final(s, fs)) < Outstanding(s)
  {
    hide Advance;
    var m := Final(s, es);
    RunOne(m, Execute);
    RunAppend(s, es, [Execute]);
    fs := es + [Execute];
    RunConservesWork(s, es);
    StepConservesWork(m, Execute);
    StepKeepsInv(m, Execute);
    assert Final(s, fs).pcs == m.pcs && Final(s, fs).mutex == m.mutex;
  }

  /** The intermediate state of a completion satisfies the invariant and keeps the work. */
  lemma SwappedIsFine(s: State, s1: State)
    requires Calm(s) && s.inFlight && !s.hw.cntl && Inv(s1)
    requires |s1.pcs| == |s.pcs| && s1.pcs == s.pcs[0 := s1.pcs[0]] && (s1.pcs[0] == CbCheck || s1.pcs[0] == DoneCheck)
    requires s1.rings == s.rings && s1.hw == s.hw && s1.next == s.next && s1.inFlight == s.inFlight
    requires s1.mutex == 0 || s1.mutex == NOBODY
    ensures s1.next.Some? && s1.next.value < |s1.rings|
    ensures var w := Swapped(s1, 0);
      Inv(w) && Outstanding(w) == Outstanding(s) && w.st == NONE && w.hw.atYield == s.hw.atYield
  {
    var w := Swapped(s1, 0);
    forall r | 0 <= r < |w.rings| ensures RingOk(w, r) {
      assert RingOk(s1, r);
    }
    forall t | 0 <= t < |w.pcs| ensures PlaceOk(w, t) {
      assert PlaceOk(s1, t);
    }
  }

  /** The calm state after a completed switch and the trigger that follows it. */
  ghost predicate Resolved(s: State, s': State) {
    && Calm(s') && Outstanding(s') <= Outstanding(s)
    && (|| (s'.st == NONE && Enabled(s', Execute))
        || (s'.st == TRIGGERED && s'.hw.cntl && s'.hw.atYield == s.hw.atYield))
  }

  lemma TriggerAfterSwap(s: State, s1: State, s': State)
    requires Calm(s) && s.inFlight && !s.hw.cntl && Outstanding(s) > 0 && Inv(s1) && Inv(s')
    requires |s1.pcs| == |s.pcs| && s1.pcs == s.pcs[0 := s1.pcs[0]]
    requires s1.pcs[0] == CbCheck || s1.pcs[0] == DoneCheck
    requires s1.rings == s.rings && s1.hw == s.hw && s1.next == s.next && s1.inFlight == s.inFlight
    requires s1.mutex == 0 || s1.mutex == NOBODY
    requires s1.next.Some? && s1.next.value < |s1.rings|
    requires s' == RunAlone(Swapped(s1, 0), 0, true) && Outstanding(s') <= Outstanding(s)
    ensures Resolved(s, s')
  {
    hide Advance;
    SwappedIsFine(s, s1);
    TriggerAlone(Swapped(s1, 0), 0, true);
    AfterTrigger(Swapped(s1, 0), s');
  }

  /** A finished hardware switch completed by the CP_SW interrupt. */
  lemma ResolveByInterrupt(s: State) returns (es: seq<Event>)
    requires Calm(s) && s.st == TRIGGERED && !s.hw.cntl && Outstanding(s) > 0
    ensures ValidRun(s, es) && Quiet(es) && Resolved(s, Final(s, es))
  {
    CalmStates(s);
    es := StartAndFinish(s, BeginCallback(0));
    var s1 := Apply(s, BeginCallback(0));
    StepKeepsInv(s, BeginCallback(0));
    CallbackAlone(s1, 0);
    TriggerAfterSwap(s, s1, Final(s, es));
  }

  lemma ScheduleAlone(s: State)
    requires Calm(s) && s.st == COMPLETE && !s.hw.cntl && s.inFlight
    requires s.next.Some? && s.next.value < |s.rings|
    ensures var s1 := SetPc(s, 0, DoneCheck).(mutex := 0);
      && Inv(s1)
      && RunAlone(Apply(s, BeginSchedule(0)), 0, true) == RunAlone(Swapped(s1, 0), 0, true)
  {
    hide RunAlone;
    CalmStates(s);
    StepKeepsInv(s, BeginSchedule(0));
    var s0 := Apply(s, BeginSchedule(0));
    var s1 := SetPc(s, 0, DoneCheck).(mutex := 0);
    assert s0.pcs[0 := DoneCheck] == s1.pcs;
    assert MutexStep(s0, 0, true) == s1;
    ContinueKeepsInv(s0, 0, true);
    RunAloneMutex(s0, 0, true);
    DoneAlone(s1, 0);
  }

  /** A finished hardware switch completed by the scheduler. */
  lemma ResolveByScheduler(s: State) returns (es: seq<Event>)
    requires Calm(s) && s.st == COMPLETE && !s.hw.cntl && s.inFlight && Outstanding(s) > 0
    ensures ValidRun(s, es) && Quiet(es) && Resolved(s, Final(s, es))
  {
    CalmStates(s);
    es := StartAndFinish(s, BeginSchedule(0));
    ScheduleAlone(s);
    TriggerAfterSwap(s, SetPc(s, 0, DoneCheck).(mutex := 0), Final(s, es));
  }

  /** The run brings the machine closer to its next execution. */
  ghost predicate Closer(s: State, s': State) {
    && Calm(s')
    && (|| Outstanding(s') < Outstanding(s)
        || (Outstanding(s') == Outstanding(s) && Stage(s') < Stage(s)))
  }

  lemma ProgressWhenIdle(s: State) returns (es: seq<Event>)
    requires Calm(s) && !s.inFlight && Outstanding(s) > 0
    ensures ValidRun(s, es) && Quiet(es) && Closer(s, Final(s, es))
  {
    CalmStates(s);
    es := StartAndFinish(s, BeginTrigger(0));
    var s1 := Apply(s, BeginTrigger(0));
    StepKeepsInv(s, BeginTrigger(0));
    TriggerAlone(s1, 0, true);
    AfterTrigger(s1, Final(s, es));
    RunKeepsMode(s, es);
    CalmStates(Final(s, es));
    if Final(s, es).st == NONE {
      es := RunExecute(s, es);
      RunKeepsMode(s, es);
    }
  }

  lemma ProgressOnHardware(s: State) returns (es: seq<Event>)
    requires Calm(s) && s.inFlight && s.hw.cntl
    ensures ValidRun(s, es) && Quiet(es) && Closer(s, Final(s, es))
  {
    assert RingOk(s, s.hw.ring);
    if s.hw.atYield {
      es := [CompleteSwitch];
      RunOne(s, CompleteSwitch);
      StepKeepsInv(s, CompleteSwitch);
      StepConservesWork(s, CompleteSwitch);
    } else {
      assert ValidRun(s, []) && Final(s, []) == s;
      es := RunExecute(s, []);
      RunKeepsMode(s, es);
    }
  }

  lemma ProgressAfterTimeout(s: State) returns (es: seq<Event>)
    requires Calm(s) && s.st == FAULTED && !s.hw.cntl
    ensures ValidRun(s, es) && Quiet(es) && Closer(s, Final(s, es))
  {
    hide RunAlone, Advance;
    es := StartAndFinish(s, BeginFaultWork(0));
    var s1 := Apply(s, BeginFaultWork(0));
    FaultAlone(s1, 0);
    assert Final(s, es) == Finish(s1, 0).(st := COMPLETE);
    assert Final(s, es).rings == s.rings;
  }

  /** Any calm state with work left has a quiet continuation that brings an execution closer. */
  lemma Progress(s: State) returns (es: seq<Event>)
    requires Calm(s) && Outstanding(s) > 0
    ensures ValidRun(s, es) && Quiet(es) && Closer(s, Final(s, es))
  {
    CalmStates(s);
    if !s.inFlight {
      es := ProgressWhenIdle(s);
    } else if s.hw.cntl {
      es := ProgressOnHardware(s);
    } else if s.st == FAULTED {
      es := ProgressAfterTimeout(s);
    } else {
      if s.st == TRIGGERED {
        es := ResolveByInterrupt(s);
      } else {
        es := ResolveByScheduler(s);
      }
      CalmStates(Final(s, es));
      if Final(s, es).st == NONE {
        es := RunExecute(s, es);
        RunKeepsMode(s, es);
      }
    }
  }

  lemma {:induction false} DrainFrom(s: State) returns (es: seq<Event>)
    requires Calm(s)
    ensures ValidRun(s, es) && Quiet(es) && Calm(Final(s, es)) && Outstanding(Final(s, es)) == 0
    decreases Outstanding(s), Stage(s)
  {
    hide Apply;
    OutstandingNonNegative(s);
    if Outstanding(s) == 0 {
      es := [];
    } else {
      var fs := Progress(s);
      OutstandingNonNegative(Final(s, fs));
      var gs := DrainFrom(Final(s, fs));
      RunAppend(s, fs, gs);
      es := fs + gs;
    }
  }

  /** Every ring has executed everything the events gave it, in order. */
  predicate AllExecuted(s: State, es: seq<Event>) {
    forall r :: 0 <= r < |s.rings| ==>
      && s.rings[r].executed == Sequential(s.defaultTable, Given(r, es, []))
      && |s.rings[r].executed| == |Given(r, es, [])|
      && RanInOrder(s.defaultTable, Given(r, es, []), s.rings[r].executed)
  }

  lemma {:induction false} QuietGivesNothing(r: nat, fs: seq<Event>, before: seq<Submission>)
    requires Quiet(fs)
    ensures Given(r, fs, before) == before
    decreases |fs|
  {
    if fs != [] {
      assert IsQuiet(fs[0]);
      QuietGivesNothing(r, fs[1..], before);
    }
  }

  /**
   From every reachable state in which no thread is inside the driver - a switch in progress, a
   timed-out one and one handed to the scheduler included - there is a run without submissions or
   restarts after which every ring has executed everything the run so far gave it, in order.
   */
  lemma EverythingCanBeExecuted(s: State, es: seq<Event>)
    requires Initial(s) && ValidRun(s, es) && Resting(Final(s, es)) && |s.pcs| > 0
    ensures exists fs :: Quiet(fs) && ValidRun(s, es + fs) && AllExecuted(Final(s, es + fs), es)
  {
    InitialInv(s);
    RunKeepsInv(s, es);
    RunKeepsMode(s, es);
    var m := Final(s, es);
    var fs := DrainFrom(m);
    RunAppend(s, es, fs);
    RunKeepsMode(m, fs);
    DrainedIsAllExecuted(s, es, fs);
  }

  lemma DrainedIsAllExecuted(s: State, es: seq<Event>, fs: seq<Event>)
    requires Initial(s) && ValidRun(s, es + fs) && Quiet(fs)
    requires Inv(Final(s, es + fs)) && Outstanding(Final(s, es + fs)) == 0
    ensures AllExecuted(Final(s, es + fs), es)
  {
    hide ValidRun, Final, Initial;
    var s' := Final(s, es + fs);
    OutstandingNonNegative(s');
    RunKeepsMode(s, es + fs);
    forall r | 0 <= r < |s'.rings|
      ensures s'.rings[r].executed == Sequential(s'.defaultTable, Given(r, es, []))
      ensures |s'.rings[r].executed| == |Given(r, es, [])|
      ensures RanInOrder(s'.defaultTable, Given(r, es, []), s'.rings[r].executed)
    {
      FifoPerRing(s, es + fs, r);
      GivenAppend(r, es, fs, []);
      QuietGivesNothing(r, fs, Given(r, es, []));
      assert RingOk(s', r) && IsEmpty(s'.rings[r]);
    }
  }
}
