/** What one driver thread does when nothing runs in between. */
module PreemptAlone {
  import opened Basics
  import opened PreemptProtocol
  import opened PreemptInvariant
  import opened PreemptRuns
  import opened PreemptQuiet

  /** An upper bound on the steps left before the thread returns. */
  function Rank(s: State, t: nat): nat
    requires t < |s.pcs|
  {
    var n := |s.rings|;
    match s.pcs[t]
    case Idle => 0
    case Release => 1 case Fire => 1 case CbGiveUp => 1 case FaultComplete => 1
    case Rescue => 2 case Program(_, _) => 2 case FaultRead => 2
    case Prepare(_) => 3 case FaultCheck => 3
    case Scan(i) => 4 + if i < n then n - i else 0
    case TryTrigger => 5 + n
    case CbRelease => 6 + n case DoneRelease => 6 + n
    case CbWptr => 7 + n case DoneWptr => 7 + n
    case CbSwap => 8 + n case DoneSwap => 8 + n
    case CbCheck => 9 + n case DoneCheck => 9 + n
    case SchedCheck => 10 + n
  }

  lemma TriggerLowersRank(s: State, t: nat)
    requires t < |s.pcs| && s.cur < |s.rings| && InTrigger(s.pcs[t])
    ensures Rank(TriggerStep(s, t), t) < Rank(s, t)
  {
  }

  lemma CallbackLowersRank(s: State, t: nat)
    requires t < |s.pcs| && s.cur < |s.rings| && InCallback(s.pcs[t])
    ensures Rank(CallbackStep(s, t), t) < Rank(s, t)
  {
  }

  lemma MutexLowersRank(s: State, t: nat, awake: bool)
    requires t < |s.pcs| && s.cur < |s.rings| && UnderMutex(s.pcs[t])
    ensures Rank(MutexStep(s, t, awake), t) < Rank(s, t)
  {
  }

  lemma AdvanceLowersRank(s: State, t: nat, awake: bool)
    requires t < |s.pcs| && s.cur < |s.rings| && s.pcs[t] != Idle
    ensures Rank(Advance(s, t, awake), t) < Rank(s, t)
  {
    if InTrigger(s.pcs[t]) {
      TriggerLowersRank(s, t);
    } else if InCallback(s.pcs[t]) {
      CallbackLowersRank(s, t);
    } else if UnderMutex(s.pcs[t]) {
      MutexLowersRank(s, t, awake);
    }
  }

  /** The state when thread t has returned, nothing else having run. */
  function RunAlone(s: State, t: nat, awake: bool): (s': State)
    requires t < |s.pcs| && s.cur < |s.rings|
    ensures SameMode(s, s') && s'.cur < |s'.rings| && s'.pcs[t] == Idle
    decreases Rank(s, t)
  {
    if s.pcs[t] == Idle then s
    else
      AdvanceLowersRank(s, t, awake);
      RunAlone(Advance(s, t, awake), t, awake)
  }

  function AloneEvents(s: State, t: nat, awake: bool): (es: seq<Event>)
    requires t < |s.pcs| && s.cur < |s.rings|
    decreases Rank(s, t)
  {
    if s.pcs[t] == Idle then []
    else
      AdvanceLowersRank(s, t, awake);
      [Continue(t, awake)] + AloneEvents(Advance(s, t, awake), t, awake)
  }

  /** Running alone is one of the runs of the machine, without submissions or restarts. */
  lemma {:induction false} RunAloneIsARun(s: State, t: nat, awake: bool)
    requires t < |s.pcs| && s.cur < |s.rings|
    ensures var es := AloneEvents(s, t, awake);
      ValidRun(s, es) && Final(s, es) == RunAlone(s, t, awake) && Quiet(es)
    decreases Rank(s, t)
  {
    hide Advance;
    if s.pcs[t] != Idle {
      AdvanceLowersRank(s, t, awake);
      var s1 := Advance(s, t, awake);
      RunAloneIsARun(s1, t, awake);
      RunCons(s, Continue(t, awake), AloneEvents(s1, t, awake));
    }
  }

  lemma RunAloneTrigger(s: State, t: nat, awake: bool)
    requires t < |s.pcs| && s.cur < |s.rings| && InTrigger(s.pcs[t])
    ensures RunAlone(s, t, awake) == RunAlone(TriggerStep(s, t), t, awake)
  {
    hide TriggerStep, CallbackStep, MutexStep;
  }

  lemma RunAloneCallback(s: State, t: nat, awake: bool)
    requires t < |s.pcs| && s.cur < |s.rings| && InCallback(s.pcs[t])
    ensures RunAlone(s, t, awake) == RunAlone(CallbackStep(s, t), t, awake)
  {
    hide TriggerStep, CallbackStep, MutexStep;
  }

  lemma RunAloneMutex(s: State, t: nat, awake: bool)
    requires t < |s.pcs| && s.cur < |s.rings| && UnderMutex(s.pcs[t])
    ensures RunAlone(s, t, awake) == RunAlone(MutexStep(s, t, awake), t, awake)
  {
    hide TriggerStep, CallbackStep, MutexStep;
  }

  // ---------- A trigger run alone ----------

  /** The most urgent ring with work at or after i, or the number of rings. */
  function FirstBusy(rings: seq<Ring>, i: nat): (r: nat)
    requires i <= |rings|
    ensures i <= r <= |rings|
    ensures forall j :: i <= j < r ==> IsEmpty(rings[j])
    ensures r < |rings| ==> !IsEmpty(rings[r])
    decreases |rings| - i
  {
    if i == |rings| || !IsEmpty(rings[i]) then i else FirstBusy(rings, i + 1)
  }

  /** The state a trigger leaves when it finds ring r busiest and nothing interferes. */
  function Triggered(s: State, t: nat, r: nat): State
    requires t < |s.pcs| && s.cur < |s.rings| && r <= |s.rings|
  {
    var back := Finish(s, t).(st := NONE, owner := NOBODY);
    if r == |s.rings| then back
    else if r == s.cur then back.(hw := s.hw.(wptr := s.rings[r].wptr))
    else
      var ring := s.rings[r];
      back.(
        st := TRIGGERED, inFlight := true, next := Some(r),
        rings := s.rings[r := ring.(record := ring.record.(wptr := ring.wptr))],
        smmu := if s.perProcess then ring.table else s.smmu,
        hw := s.hw.(restoreAddr := r, cntl := true))
  }

  lemma SetPcTwice(s: State, t: nat, pc: Pc, r: nat)
    requires t < |s.pcs| && s.cur < |s.rings| && r <= |s.rings|
    ensures Triggered(SetPc(s, t, pc), t, r) == Triggered(s, t, r)
  {
    assert s.pcs[t := pc][t := Idle] == s.pcs[t := Idle];
  }

  lemma Returned(s: State, t: nat, awake: bool)
    requires t < |s.pcs| && s.cur < |s.rings| && s.pcs[t] == Idle
    ensures RunAlone(s, t, awake) == s
  {
    hide Advance;
  }

  lemma SwitchSteps(s: State, t: nat, r: nat)
    requires t < |s.pcs| && s.cur < |s.rings| && r < |s.rings| && r != s.cur && s.pcs[t] == Prepare(r)
    ensures var s1 := TriggerStep(s, t);
      && s1.pcs[t] == Program(r, s.rings[r].table)
      && var s2 := TriggerStep(s1, t);
      && s2.pcs[t] == Fire
      && TriggerStep(s2, t) == Triggered(s, t, r)
  {
    var s3 := TriggerStep(TriggerStep(TriggerStep(s, t), t), t);
    assert s3.pcs == s.pcs[t := Idle];
  }

  lemma SwitchAlone(s: State, t: nat, awake: bool)
    requires t < |s.pcs| && s.cur < |s.rings| && s.pcs[t].Prepare? && s.pcs[t].next < |s.rings| && s.pcs[t].next != s.cur
    ensures RunAlone(s, t, awake) == Triggered(s, t, s.pcs[t].next)
  {
    SwitchSteps(s, t, s.pcs[t].next);
    hide RunAlone, TriggerStep;
    RunAloneTrigger(s, t, awake);
    var s1 := TriggerStep(s, t);
    RunAloneTrigger(s1, t, awake);
    RunAloneTrigger(TriggerStep(s1, t), t, awake);
    Returned(Triggered(s, t, s.pcs[t].next), t, awake);
  }

  lemma RescueSteps(s: State, t: nat)
    requires t < |s.pcs| && s.cur < |s.rings| && s.pcs[t] == Rescue
    ensures var s1 := TriggerStep(s, t);
      s1.pcs[t] == Release && TriggerStep(s1, t) == Triggered(s, t, s.cur)
  {
    assert TriggerStep(TriggerStep(s, t), t).pcs == s.pcs[t := Idle];
  }

  lemma RescueAlone(s: State, t: nat, awake: bool)
    requires t < |s.pcs| && s.cur < |s.rings| && s.pcs[t] == Rescue
    ensures RunAlone(s, t, awake) == Triggered(s, t, s.cur)
  {
    RescueSteps(s, t);
    hide RunAlone, TriggerStep;
    RunAloneTrigger(s, t, awake);
    RunAloneTrigger(TriggerStep(s, t), t, awake);
    Returned(Triggered(s, t, s.cur), t, awake);
  }

  lemma ScanAtEndAlone(s: State, t: nat, awake: bool)
    requires t < |s.pcs| && s.cur < |s.rings| && s.pcs[t] == Scan(|s.rings|)
    ensures RunAlone(s, t, awake) == Triggered(s, t, |s.rings|)
  {
    hide RunAlone;
    RunAloneTrigger(s, t, awake);
    var s1 := SetPc(s, t, Release);
    RunAloneTrigger(s1, t, awake);
    SetPcTwice(s, t, Release, |s.rings|);
    Returned(Triggered(s1, t, |s.rings|), t, awake);
  }

  /** Where the scan goes after looking at ring i. */
  function AfterScan(s: State, i: nat): Pc
    requires i < |s.rings|
  {
    if IsEmpty(s.rings[i]) then Scan(i + 1) else if i == s.cur then Rescue else Prepare(i)
  }

  lemma ScanOnce(s: State, t: nat, awake: bool, i: nat)
    requires t < |s.pcs| && s.cur < |s.rings| && i < |s.rings| && s.pcs[t] == Scan(i)
    ensures RunAlone(s, t, awake) == RunAlone(SetPc(s, t, AfterScan(s, i)), t, awake)
  {
    hide RunAlone;
    RunAloneTrigger(s, t, awake);
  }

  lemma {:induction false} ScanAlone(s: State, t: nat, awake: bool, i: nat)
    requires t < |s.pcs| && s.cur < |s.rings| && i <= |s.rings| && s.pcs[t] == Scan(i)
    ensures RunAlone(s, t, awake) == Triggered(s, t, FirstBusy(s.rings, i))
    decreases |s.rings| - i
  {
    hide RunAlone;
    if i == |s.rings| {
      ScanAtEndAlone(s, t, awake);
    } else {
      ScanOnce(s, t, awake, i);
      var s1 := SetPc(s, t, AfterScan(s, i));
      SetPcTwice(s, t, AfterScan(s, i), FirstBusy(s.rings, i));
      if IsEmpty(s.rings[i]) {
        ScanAlone(s1, t, awake, i + 1);
      } else if i == s.cur {
        RescueAlone(s1, t, awake);
      } else {
        SwitchAlone(s1, t, awake);
      }
    }
  }

  /** The whole trigger, from the compare-and-exchange to its return. */
  lemma TriggerAlone(s: State, t: nat, awake: bool)
    requires t < |s.pcs| && s.cur < |s.rings| && s.pcs[t] == TryTrigger
    ensures s.st == NONE ==> RunAlone(s, t, awake) == Triggered(s, t, FirstBusy(s.rings, 0))
    ensures s.st != NONE ==> RunAlone(s, t, awake) == Finish(s, t)
  {
    hide TriggerStep, CallbackStep, MutexStep;
    if s.st == NONE {
      var s1 := TryTriggerStep(s, t);
      assert RunAlone(s, t, awake) == RunAlone(s1, t, awake);
      ScanAlone(s1, t, awake, 0);
      assert s.pcs[t := Scan(0)][t := Idle] == s.pcs[t := Idle];
    }
  }

  /**
   No work is stranded by a trigger that runs undisturbed from NONE: it either leaves the CP on
   the most urgent busy ring with an up-to-date write pointer, or has triggered a switch to that
   ring with its record and page table prepared; with no work anywhere it changes nothing.
   */
  lemma NoStrandedWork(s: State, t: nat, awake: bool, r: nat)
    requires Inv(s) && s.st == NONE && Enabled(s, BeginTrigger(t))
    requires r <= |s.rings| && EmptyBelow(s, r) && (r < |s.rings| ==> !IsEmpty(s.rings[r]))
    ensures var s' := RunAlone(Apply(s, BeginTrigger(t)), t, awake);
      && s'.cur == s.cur
      && (r == |s.rings| ==> s'.st == NONE && s'.rings == s.rings && s'.hw == s.hw && s'.next == s.next)
      && (r < |s.rings| && r == s.cur ==>
           s'.st == NONE && s'.hw.ring == r && s'.hw.wptr == s'.rings[r].wptr && s'.rings == s.rings)
      && (r < |s.rings| && r != s.cur ==>
           && s'.st == TRIGGERED && s'.next == Some(r) && s'.hw.cntl && s'.hw.restoreAddr == r
           && s'.rings[r].record == Record(s.rings[r].rptr, s.rings[r].wptr)
           && (s.perProcess ==> s'.smmu == s.rings[r].table))
  {
    StepKeepsInv(s, BeginTrigger(t));
    var s1 := Apply(s, BeginTrigger(t));
    TriggerAlone(s1, t, awake);
    assert FirstBusy(s1.rings, 0) == r;
    assert PlaceOk(s, t);
    if r < |s.rings| {
      assert RingOk(s, r);
    }
  }
}
