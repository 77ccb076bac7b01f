/**
 The driver's preemption entry points as they update the device structure, each proved to do
 what the protocol's thread does when nothing interleaves.
 */
module PreemptDevice {
  import opened Basics
  import opened PreemptProtocol
  import opened PreemptInvariant
  import opened PreemptRuns
  import opened PreemptQuiet
  import opened PreemptAlone
  import opened PreemptDrain

  class AdrenoDevice {
    const perProcess: bool
    const defaultTable: PageTable
    var state: PreemptState
    var curRb: nat
    var nextRb: Option<nat>
    var prevRb: nat
    var rings: seq<Ring>
    var smmuInfo: PageTable
    var faultQueued: bool
    var hw: Hardware

    /** The device as a protocol state with one thread, which is outside the driver. */
    function Abs(): State
      reads this
    {
      State(perProcess, defaultTable, state, curRb, nextRb, prevRb, rings, smmuInfo, faultQueued, hw,
        NOBODY, [Idle], NOBODY, state == TRIGGERED || state == FAULTED || state == COMPLETE)
    }

    ghost predicate Valid()
      reads this
    {
      Sole(Abs())
    }

    /** a5xx_preemption_start and a5xx_rb_start on an awake, quiet device. */
    constructor (perProcess: bool, ringCount: nat, defaultTable: PageTable)
      requires 0 < ringCount
      ensures Valid() && Initial(Abs()) && |rings| == ringCount && curRb == 0
      ensures this.perProcess == perProcess && this.defaultTable == defaultTable
    {
      this.perProcess := perProcess;
      this.defaultTable := defaultTable;
      state := NONE;
      curRb, nextRb, prevRb := 0, None, 0;
      rings := seq(ringCount, _ => FreshRing(defaultTable));
      smmuInfo := defaultTable;
      faultQueued := false;
      hw := Hardware(0, 0, 0, defaultTable, 0, 0, false, true);
      new;
      assert Abs().rings == RestartOn(Abs(), 0).rings;
      InitialInv(Abs());
    }

    /** a5xx_next_ringbuffer */
    method NextRingbuffer() returns (next: Option<nat>)
      ensures next == None <==> forall r :: 0 <= r < |rings| ==> IsEmpty(rings[r])
      ensures next.Some? ==> next.value < |rings| && !IsEmpty(rings[next.value])
      ensures next.Some? ==> forall r :: 0 <= r < next.value ==> IsEmpty(rings[r])
    {
      var i := 0;
      while i < |rings|
        invariant i <= |rings|
        invariant forall r :: 0 <= r < i ==> IsEmpty(rings[r])
      {
        var empty := rings[i].rptr == rings[i].wptr;
        if !empty {
          return Some(i);
        }
        i := i + 1;
      }
      return None;
    }

    /** _update_wptr */
    method UpdateWritePointer()
      requires curRb < |rings|
      modifies this`hw
      ensures hw == old(hw).(wptr := rings[curRb].wptr)
    {
      var wptr := hw.wptr;
      if wptr != rings[curRb].wptr {
        hw := hw.(wptr := rings[curRb].wptr);
      }
    }

    /** adreno_move_preempt_state */
    method MoveState(from: PreemptState, to: PreemptState) returns (moved: bool)
      modifies this`state
      ensures moved <==> old(state) == from
      ensures state == if moved then to else old(state)
    {
      moved := state == from;
      if moved {
        state := to;
      }
    }

    /**
     What a trigger leaves behind: from NONE, nothing if no ring has work; the register brought up
     to date if the first ring that has work is the current one; otherwise a switch to that ring.
     */
    ghost predicate Outcome(st: PreemptState, next: Option<nat>, rs: seq<Ring>, smmu: PageTable, h: Hardware)
      reads this
    {
      st == NONE && curRb < |rs| ==>
        && ((forall i :: 0 <= i < |rs| ==> rs[i].rptr == rs[i].wptr) ==>
              state == NONE && nextRb == next && rings == rs && smmuInfo == smmu && hw == h)
        && forall r :: 0 <= r < |rs| && rs[r].rptr != rs[r].wptr && (forall i :: 0 <= i < r ==> rs[i].rptr == rs[i].wptr) ==>
             if r == curRb then
               state == NONE && nextRb == next && rings == rs && smmuInfo == smmu && hw == h.(wptr := rs[r].wptr)
             else
               && state == TRIGGERED && nextRb == Some(r) && hw == h.(restoreAddr := r, cntl := true)
               && smmuInfo == (if perProcess then rs[r].table else smmu)
               && rings == rs[r := rs[r].(record := Record(rs[r].record.rptr, rs[r].wptr))]
    }

    /** The outcome as the protocol's lone thread leaves it. */
    lemma OutcomeIs(s: State)
      requires Sole(s) && s.perProcess == perProcess
      requires Abs() == if s.st == NONE then Triggered(s, 0, FirstBusy(s.rings, 0)) else s
      ensures Outcome(s.st, s.next, s.rings, s.smmu, s.hw)
    {
      if s.st == NONE {
        TriggeredSole(s);
        var f := FirstBusy(s.rings, 0);
        hide FirstBusy, Triggered, Inv, Finish;
        forall r | 0 <= r < |s.rings| && s.rings[r].rptr != s.rings[r].wptr
                   && (forall i :: 0 <= i < r ==> s.rings[i].rptr == s.rings[i].wptr)
          ensures f == r {
          assert !IsEmpty(s.rings[r]);
          assert f < |s.rings| ==> !IsEmpty(s.rings[f]);
        }
      }
    }

    /** a5xx_preemption_trigger */
    method Trigger()
      requires Valid()
      modifies this`state, this`nextRb, this`rings, this`smmuInfo, this`hw
      ensures Valid()
      ensures Abs() == RunAlone(Apply(old(Abs()), BeginTrigger(0)), 0, true)
      ensures old(state) != NONE ==> unchanged(this)
      ensures Outcome(old(state), old(nextRb), old(rings), old(smmuInfo), old(hw))
    {
      ghost var s := Abs();
      TriggerIsProtocol(s);
      SoleStates(s);
      assert s.cur < |s.rings|;
      hide RunAlone, Apply, Inv, Sole, FirstBusy, Outcome, Triggered;
      var moved := MoveState(NONE, START);
      if moved {
        ScanAndSwitch(s);
      }
      OutcomeIs(s);
    }

    /** The rest of the trigger once the state is START. */
    method ScanAndSwitch(ghost s: State)
      requires s.pcs == [Idle] && s.cur < |s.rings| && s.mutex == NOBODY && s.owner == NOBODY && !s.inFlight
      requires Abs() == s.(st := START) && s.st == NONE
      modifies this`state, this`nextRb, this`rings, this`smmuInfo, this`hw
      ensures Abs() == Triggered(s, 0, FirstBusy(s.rings, 0))
    {
      assert [Idle][0 := Idle] == [Idle];
      hide FirstBusy;
      var next := NextRingbuffer();
      ghost var r := if next.Some? then next.value else |rings|;
      FirstBusyIs(s.rings, r);
      hide IsEmpty;
      if next == None || next == Some(curRb) {
        if next != None {
          UpdateWritePointer();
        }
        state := NONE;
        return;
      }
      ProgramSwitch(next.value);
    }

    /** The critical section of the trigger, up to starting the hardware. */
    method ProgramSwitch(nx: nat)
      requires nx < |rings|
      modifies this`rings, this`smmuInfo, this`hw, this`nextRb, this`state
      ensures rings == old(rings)[nx := old(rings)[nx].(record := Record(old(rings)[nx].record.rptr, old(rings)[nx].wptr))]
      ensures smmuInfo == if perProcess then old(rings)[nx].table else old(smmuInfo)
      ensures hw == old(hw).(restoreAddr := nx, cntl := true)
      ensures nextRb == Some(nx) && state == TRIGGERED
    {
      var table := rings[nx].table;
      rings := rings[nx := rings[nx].(record := rings[nx].record.(wptr := rings[nx].wptr))];
      if perProcess {
        smmuInfo := table;
      }
      hw := hw.(restoreAddr := nx);
      nextRb := Some(nx);
      state := TRIGGERED;
      hw := hw.(cntl := true);
    }

    /** prev_rb = cur_rb; cur_rb = next_rb; next_rb = NULL; then _update_wptr and NONE. */
    method FinishSwitch()
      requires nextRb.Some? && nextRb.value < |rings|
      modifies this`state, this`curRb, this`nextRb, this`prevRb, this`hw
      ensures Abs() == Switched(old(Abs()))
      ensures prevRb == old(curRb) && curRb == old(nextRb).value && nextRb == None && state == NONE
      ensures hw == old(hw).(wptr := rings[curRb].wptr)
    {
      prevRb := curRb;
      curRb := nextRb.value;
      nextRb := None;
      UpdateWritePointer();
      state := NONE;
      assert [Idle][0 := TryTrigger] == [TryTrigger];
    }

    /** a5xx_preempt_callback */
    method PreemptCallback()
      requires Valid()
      modifies this`state, this`curRb, this`nextRb, this`prevRb, this`rings, this`smmuInfo, this`hw
      ensures Valid()
      ensures Abs() == RunAlone(Apply(old(Abs()), BeginCallback(0)), 0, true)
      ensures old(state) != TRIGGERED ==> unchanged(this)
      ensures old(state) == TRIGGERED && old(hw).cntl ==>
                state == COMPLETE && unchanged(`curRb, `nextRb, `prevRb, `rings, `smmuInfo, `hw)
      ensures old(state) == TRIGGERED && !old(hw).cntl ==>
                && prevRb == old(curRb) && Some(curRb) == old(nextRb) && curRb < |old(rings)|
                && Outcome(NONE, None, old(rings), old(smmuInfo), old(hw).(wptr := old(rings)[curRb].wptr))
    {
      ghost var s := Abs();
      CallbackIsProtocol(s);
      hide RunAlone, Apply, Inv, Sole, Switched, Outcome;
      var moved := MoveState(TRIGGERED, PENDING);
      if !moved {
        return;
      }
      var status := hw.cntl;
      if status {
        state := COMPLETE;
        assert Abs() == s.(st := COMPLETE);
        return;
      }
      SwapAndTrigger(s);
    }

    /** The rest of the callback once CNTL has been read as zero. */
    method SwapAndTrigger(ghost s: State)
      requires 0 < |s.pcs| && s.next.Some? && s.next.value < |s.rings| && Sole(Switched(s))
      requires Abs() == s.(st := PENDING, inFlight := false)
      modifies this`state, this`curRb, this`nextRb, this`prevRb, this`rings, this`smmuInfo, this`hw
      ensures Valid() && Abs() == RunAlone(Apply(Switched(s), BeginTrigger(0)), 0, true)
      ensures prevRb == old(curRb) && Some(curRb) == old(nextRb) && curRb < |old(rings)|
      ensures Outcome(NONE, None, old(rings), old(smmuInfo), old(hw).(wptr := old(rings)[curRb].wptr))
    {
      hide RunAlone, Apply, Inv, Sole, Switched, Outcome;
      SwitchedIgnoresState(s, Abs());
      FinishSwitch();
      Trigger();
    }

    /** _a5xx_preemption_done */
    method PreemptionDone(awake: bool)
      requires Valid() && state == COMPLETE
      modifies this`state, this`curRb, this`nextRb, this`prevRb, this`hw, this`faultQueued
      ensures Valid()
      ensures old(nextRb).Some? && old(nextRb).value < |old(rings)|
      ensures Abs() == Done(old(Abs()), awake)
      ensures !awake ==> unchanged(this)
      ensures awake && old(hw).cntl ==> faultQueued && unchanged(`state, `curRb, `nextRb, `prevRb, `hw)
      ensures awake && !old(hw).cntl ==>
                && state == NONE && prevRb == old(curRb) && Some(curRb) == old(nextRb) && nextRb == None
                && hw == old(hw).(wptr := rings[curRb].wptr) && unchanged(`faultQueued)
    {
      DoneIsSole(Abs(), awake);
      if !awake {
        return;
      }
      var status := hw.cntl;
      if status {
        faultQueued := true;
        return;
      }
      FinishSwitch();
    }

    /** a5xx_preemption_schedule, with preemption enabled */
    method PreemptionSchedule(awake: bool)
      requires Valid()
      modifies this
      ensures Valid()
      ensures Abs() == RunAlone(Apply(old(Abs()), BeginSchedule(0)), 0, awake)
      ensures old(state) != COMPLETE ==>
                Outcome(old(state), old(nextRb), old(rings), old(smmuInfo), old(hw)) && unchanged(`curRb, `prevRb, `faultQueued)
      ensures old(state) == COMPLETE && !awake ==> unchanged(this)
      ensures old(state) == COMPLETE && awake && old(hw).cntl ==>
                faultQueued && unchanged(`state, `curRb, `nextRb, `prevRb, `rings, `smmuInfo, `hw)
      ensures old(state) == COMPLETE && awake && !old(hw).cntl ==>
                && prevRb == old(curRb) && Some(curRb) == old(nextRb) && curRb < |old(rings)| && unchanged(`faultQueued)
                && Outcome(NONE, None, old(rings), old(smmuInfo), old(hw).(wptr := old(rings)[curRb].wptr))
    {
      ScheduleIsProtocol(Abs(), awake);
      hide RunAlone, Apply, Inv, Outcome;
      if state == COMPLETE {
        PreemptionDone(awake);
      }
      Trigger();
    }

    /** _a5xx_preemption_worker and _a5xx_preemption_fault */
    method FaultWorker(awake: bool)
      requires Valid()
      modifies this`state, this`faultQueued
      ensures Valid()
      ensures Abs() == RunAlone(Apply(old(Abs()), BeginFaultWork(0)), 0, awake)
      ensures state == if old(state) == FAULTED && awake && !hw.cntl then COMPLETE else old(state)
      ensures faultQueued == (old(faultQueued) || (old(state) == FAULTED && !(awake && !hw.cntl)))
    {
      FaultIsProtocol(Abs(), awake);
      hide RunAlone, Apply, Inv;
      if state == FAULTED {
        if awake {
          var status := hw.cntl;
          if !status {
            state := COMPLETE;
            return;
          }
        }
        faultQueued := true;
      }
    }

    /** adreno_preemption_timer */
    method PreemptionTimer()
      requires Valid()
      modifies this`state
      ensures Valid() && Abs() == Apply(old(Abs()), TimerFires)
      ensures state == if old(state) == TRIGGERED then FAULTED else old(state)
    {
      StepKeepsInv(Abs(), TimerFires);
      var moved := MoveState(TRIGGERED, FAULTED);
    }

    /** The section of a5xx_ringbuffer_submit under the ring's preempt_lock. */
    method RingbufferSubmit(r: nat, cmd: Submission)
      requires Valid() && r < |rings| && (perProcess || cmd.tableSwitch == None)
      modifies this`rings, this`hw
      ensures Valid() && Abs() == Apply(old(Abs()), Submit(r, cmd))
      // the ring holds one submission more, its write pointer is one further, and nothing else of it moves
      ensures |rings| == |old(rings)|
      ensures rings[r].submitted == old(rings[r].submitted) + [cmd] && rings[r].wptr == old(rings[r].wptr) + 1
      ensures rings[r].executed == old(rings[r].executed) && rings[r].rptr == old(rings[r].rptr)
      ensures rings[r].table == old(rings[r].table) && rings[r].record == old(rings[r].record)
      ensures forall i :: 0 <= i < |rings| && i != r ==> rings[i] == old(rings[i])
      // only the ring the CP is known to run has its register written
      ensures hw == if state == NONE && curRb == r then old(hw).(wptr := rings[r].wptr) else old(hw)
    {
      StepKeepsInv(Abs(), Submit(r, cmd));
      hide Inv;
      var pending := rings[r].wptr + 1;
      if state == NONE {
        if curRb == r {
          hw := hw.(wptr := pending);
        }
      }
      rings := rings[r := rings[r].(submitted := rings[r].submitted + [cmd], wptr := pending)];
    }
  }

  // ---------- One thread alone is the class's sequential code ----------

  /** A protocol state with one thread, which is outside the driver. */
  ghost predicate Sole(s: State) {
    Inv(s) && s.pcs == [Idle] && s.mutex == NOBODY
  }

  lemma SoleStates(s: State)
    requires Sole(s)
    ensures s.owner == NOBODY && s.st != START && s.st != PENDING
    ensures s.inFlight <==> s.st != NONE
    ensures s.inFlight ==> s.next.Some? && s.next.value < |s.rings|
  {
    CalmStates(s);
  }

  lemma AloneKeepsInv(s: State, t: nat, awake: bool)
    requires Inv(s) && t < |s.pcs|
    ensures Inv(RunAlone(s, t, awake))
  {
    hide RunAlone, Advance;
    RunAloneIsARun(s, t, awake);
    RunKeepsInv(s, AloneEvents(s, t, awake));
  }

  lemma FirstBusyIs(rings: seq<Ring>, r: nat)
    requires r <= |rings| && (r < |rings| ==> !IsEmpty(rings[r]))
    requires forall i :: 0 <= i < r ==> IsEmpty(rings[i])
    ensures FirstBusy(rings, 0) == r
  {
  }

  /** What TriggerAlone says when the thread is the only one, with or without the mutex. */
  lemma SoleTrigger(s: State, m: int, awake: bool)
    requires Sole(s) && (m == 0 || m == NOBODY)
    ensures var s1 := s.(pcs := [TryTrigger], mutex := m);
      RunAlone(s1, 0, awake) ==
        if s.st == NONE then Triggered(s, 0, FirstBusy(s.rings, 0)) else s
  {
    hide RunAlone;
    var s1 := s.(pcs := [TryTrigger], mutex := m);
    TriggerAlone(s1, 0, awake);
    assert [TryTrigger][0 := Idle] == [Idle] && [Idle][0 := Idle] == [Idle];
  }

  lemma TriggeredSole(s: State)
    requires Sole(s) && s.st == NONE
    ensures Triggered(s, 0, |s.rings|) == s
    ensures Triggered(s, 0, s.cur) == s.(hw := s.hw.(wptr := s.rings[s.cur].wptr))
    ensures forall r :: 0 <= r < |s.rings| && r != s.cur ==>
              Triggered(s, 0, r) == s.(
                st := TRIGGERED, inFlight := true, next := Some(r),
                rings := s.rings[r := s.rings[r].(record := Record(s.rings[r].record.rptr, s.rings[r].wptr))],
                smmu := if s.perProcess then s.rings[r].table else s.smmu,
                hw := s.hw.(restoreAddr := r, cntl := true))
  {
    SoleStates(s);
    assert [Idle][0 := Idle] == [Idle];
  }

  lemma TriggerIsProtocol(s: State)
    requires Sole(s)
    ensures var s' := RunAlone(Apply(s, BeginTrigger(0)), 0, true);
      && Sole(s')
      && s' == if s.st == NONE then Triggered(s, 0, FirstBusy(s.rings, 0)) else s
  {
    hide RunAlone;
    StepKeepsInv(s, BeginTrigger(0));
    assert [Idle][0 := TryTrigger] == [TryTrigger] && [Idle][0 := Idle] == [Idle];
    assert Apply(s, BeginTrigger(0)) == s.(pcs := [TryTrigger], mutex := NOBODY);
    SoleTrigger(s, NOBODY, true);
    AloneKeepsInv(Apply(s, BeginTrigger(0)), 0, true);
  }

  /** The state after FinishSwitch, seen from outside the driver. */
  function Switched(s: State): State
    requires 0 < |s.pcs| && s.next.Some? && s.next.value < |s.rings|
  {
    Swapped(s, 0).(pcs := [Idle])
  }

  lemma SwitchedIgnoresState(s: State, s': State)
    requires 0 < |s.pcs| && s.next.Some? && s.next.value < |s.rings|
    requires s' == s.(st := PENDING, inFlight := false)
    ensures Switched(s') == Switched(s)
  {
  }

  lemma SwitchedIsSole(s: State)
    requires Sole(s) && s.inFlight && !s.hw.cntl
    ensures s.next.Some? && s.next.value < |s.rings| && Sole(Switched(s))
  {
    SoleStates(s);
    var w := Switched(s);
    forall r | 0 <= r < |w.rings| ensures RingOk(w, r) {
      assert RingOk(s, r);
    }
  }

  lemma CallbackIsProtocol(s: State)
    requires Sole(s)
    ensures var s' := RunAlone(Apply(s, BeginCallback(0)), 0, true);
      && Sole(s')
      && (s.st != TRIGGERED ==> s' == s)
      && (s.st == TRIGGERED && s.hw.cntl ==> s' == s.(st := COMPLETE))
      && (s.st == TRIGGERED && !s.hw.cntl ==>
           && s.next.Some? && s.next.value < |s.rings| && Sole(Switched(s))
           && s' == RunAlone(Apply(Switched(s), BeginTrigger(0)), 0, true))
  {
    hide RunAlone;
    SoleStates(s);
    StepKeepsInv(s, BeginCallback(0));
    var s1 := Apply(s, BeginCallback(0));
    AloneKeepsInv(s1, 0, true);
    if s.st != TRIGGERED {
      Returned(s1, 0, true);
    } else {
      assert [Idle][0 := CbCheck] == [CbCheck];
      if s.hw.cntl {
        RunAloneCallback(s1, 0, true);
        var s2 := s1.(pcs := [CbGiveUp]);
        assert [CbCheck][0 := CbGiveUp] == [CbGiveUp] && [CbGiveUp][0 := Idle] == [Idle];
        assert CallbackStep(s1, 0) == s2;
        RunAloneCallback(s2, 0, true);
        Returned(s.(st := COMPLETE), 0, true);
      } else {
        CallbackAlone(s1, 0);
        SwitchedIsSole(s);
        assert [CbCheck][0 := TryTrigger] == [TryTrigger];
        SoleTrigger(Switched(s), NOBODY, true);
        TriggerIsProtocol(Switched(s));
      }
    }
  }

  /** What PreemptionDone makes of a COMPLETE state. */
  function Done(s: State, awake: bool): State
    requires 0 < |s.pcs| && s.next.Some? && s.next.value < |s.rings|
  {
    if !awake then s
    else if s.hw.cntl then s.(faultQueued := true)
    else Switched(s)
  }

  lemma DoneIsSole(s: State, awake: bool)
    requires Sole(s) && s.st == COMPLETE
    ensures s.next.Some? && s.next.value < |s.rings| && Sole(Done(s, awake))
  {
    SoleStates(s);
    if awake && !s.hw.cntl {
      SwitchedIsSole(s);
    } else {
      forall r | 0 <= r < |s.rings| ensures RingOk(Done(s, awake), r) {
        assert RingOk(s, r);
      }
      assert PlaceOk(s, 0);
    }
  }

  lemma DoneAloneAny(s: State, awake: bool)
    requires Sole(s) && s.st == COMPLETE
    ensures s.next.Some? && s.next.value < |s.rings|
    ensures RunAlone(s.(pcs := [DoneCheck], mutex := 0), 0, awake) ==
      RunAlone(Done(s, awake).(pcs := [TryTrigger], mutex := 0), 0, awake)
  {
    hide RunAlone;
    SoleStates(s);
    var s1 := s.(pcs := [DoneCheck], mutex := 0);
    assert [DoneCheck][0 := TryTrigger] == [TryTrigger];
    if awake && !s.hw.cntl {
      DoneAlone(s1, 0);
    } else {
      RunAloneMutex(s1, 0, awake);
    }
  }

  lemma ScheduleIsProtocol(s: State, awake: bool)
    requires Sole(s)
    ensures s.st == COMPLETE ==> s.next.Some? && s.next.value < |s.rings|
    ensures var s1 := if s.st == COMPLETE then Done(s, awake) else s;
      && Sole(s1)
      && RunAlone(Apply(s, BeginSchedule(0)), 0, awake) == RunAlone(Apply(s1, BeginTrigger(0)), 0, true)
  {
    hide RunAlone;
    SoleStates(s);
    var s0 := s.(pcs := [SchedCheck], mutex := 0);
    assert [Idle][0 := SchedCheck] == [SchedCheck];
    assert Apply(s, BeginSchedule(0)) == s0;
    RunAloneMutex(s0, 0, awake);
    if s.st == COMPLETE {
      assert [SchedCheck][0 := DoneCheck] == [DoneCheck];
      DoneAloneAny(s, awake);
      DoneIsSole(s, awake);
    } else {
      assert [SchedCheck][0 := TryTrigger] == [TryTrigger];
    }
    var s1 := if s.st == COMPLETE then Done(s, awake) else s;
    SoleTrigger(s1, 0, awake);
    TriggerIsProtocol(s1);
  }

  lemma FaultNotOver(s: State, awake: bool)
    requires 0 < |s.pcs| && s.cur < |s.rings| && s.pcs == [Idle] && s.mutex == NOBODY
    requires s.st == FAULTED && !(awake && !s.hw.cntl)
    ensures RunAlone(s.(pcs := [FaultCheck], mutex := 0), 0, awake) == s.(faultQueued := true)
  {
    hide RunAlone;
    var s0 := s.(pcs := [FaultCheck], mutex := 0);
    var s1 := s0.(pcs := [FaultRead]);
    assert [FaultCheck][0 := FaultRead] == [FaultRead] && [FaultRead][0 := Idle] == [Idle];
    RunAloneMutex(s0, 0, awake);
    RunAloneMutex(s1, 0, awake);
    Returned(s.(faultQueued := true), 0, awake);
  }

  lemma NotFaulted(s: State, awake: bool)
    requires 0 < |s.pcs| && s.cur < |s.rings| && s.pcs == [Idle] && s.mutex == NOBODY && s.st != FAULTED
    ensures RunAlone(s.(pcs := [FaultCheck], mutex := 0), 0, awake) == s
  {
    hide RunAlone;
    assert [FaultCheck][0 := Idle] == [Idle];
    RunAloneMutex(s.(pcs := [FaultCheck], mutex := 0), 0, awake);
    Returned(s, 0, awake);
  }

  lemma FaultIsProtocol(s: State, awake: bool)
    requires Sole(s)
    ensures var s' := RunAlone(Apply(s, BeginFaultWork(0)), 0, awake);
      && Sole(s')
      && s' == if s.st != FAULTED then s
               else if awake && !s.hw.cntl then s.(st := COMPLETE)
               else s.(faultQueued := true)
  {
    assert s.cur < |s.rings|;
    hide RunAlone, Inv;
    var s0 := s.(pcs := [FaultCheck], mutex := 0);
    assert [Idle][0 := FaultCheck] == [FaultCheck] && [FaultCheck][0 := Idle] == [Idle];
    assert Apply(s, BeginFaultWork(0)) == s0;
    StepKeepsInv(s, BeginFaultWork(0));
    AloneKeepsInv(s0, 0, awake);
    if s.st != FAULTED {
      NotFaulted(s, awake);
    } else if awake && !s.hw.cntl {
      FaultAlone(s0, 0);
    } else {
      FaultNotOver(s, awake);
    }
  }
}
