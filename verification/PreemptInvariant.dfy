/** The inductive invariant of the preemption protocol and its preservation by every step. */
module PreemptInvariant {
  import opened Basics
  import opened PreemptProtocol

  // ---------- The invariant ----------

  /** A ring has run a prefix of what was submitted to it, exactly as it would alone. */
  predicate RingOk(s: State, r: nat)
    requires r < |s.rings|
  {
    var ring := s.rings[r];
    && ring.wptr == |ring.submitted|
    && |ring.executed| <= ring.wptr
    && ring.executed == Sequential(s.defaultTable, ring.submitted[..|ring.executed|])
    && ring.rptr == |ring.executed|
    && ring.table == TableAfter(s.defaultTable, ring.submitted[..|ring.executed|])
    && (!s.perProcess ==> NoSwitches(ring.submitted))
    && (r != s.hw.ring ==>
         ring.record.rptr == |ring.executed| <= ring.record.wptr <= ring.wptr)
  }

  predicate HardwareOk(s: State)
    requires s.hw.ring < |s.rings|
  {
    var ring := s.rings[s.hw.ring];
    && s.hw.rptr == |ring.executed|
    && s.hw.rptr <= s.hw.wptr <= ring.wptr
    && s.hw.table == ring.table
    && (s.hw.atYield ==> s.hw.saveAddr == s.hw.ring)
    && (!s.hw.atYield ==> s.hw.rptr < s.hw.wptr)
  }

  /** Ring nx can be switched in: it has work and its table has been handed to the SMMU. */
  predicate Programmed(s: State, nx: nat) {
    && nx < |s.rings|
    && s.hw.restoreAddr == nx
    && |s.rings[nx].executed| < s.rings[nx].record.wptr
    && (s.perProcess ==> s.smmu == s.rings[nx].table)
  }

  /** Software and hardware agree on which ring runs. */
  predicate PhaseOk(s: State) {
    if s.inFlight then
      && s.next.Some? && s.next.value < |s.rings| && s.next.value != s.cur
      && (if s.hw.cntl then s.hw.ring == s.cur && Programmed(s, s.next.value)
          else s.hw.ring == s.next.value)
    else
      s.hw.ring == s.cur && !s.hw.cntl
  }

  /** Only the owner is inside the trigger or callback sections, only the holder under the mutex. */
  predicate PlaceOk(s: State, t: nat)
    requires t < |s.pcs|
  {
    && (InTrigger(s.pcs[t]) ==> s.st == START && s.owner == t)
    && (InCallback(s.pcs[t]) ==> s.st == PENDING && s.owner == t)
    && (UnderMutex(s.pcs[t]) ==> s.mutex == t)
    && (s.mutex == t ==> s.pcs[t] != Idle)
  }

  /** What the owner of START knows inside the trigger. */
  predicate TriggerKnows(s: State, pc: Pc) {
    && (pc.Prepare? ==>
         && pc.next < |s.rings| && pc.next != s.cur
         && |s.rings[pc.next].executed| < s.rings[pc.next].wptr)
    && (pc.Program? ==>
         && pc.next < |s.rings| && pc.next != s.cur
         && pc.table == s.rings[pc.next].table
         && |s.rings[pc.next].executed| < s.rings[pc.next].record.wptr)
    && (pc.Fire? ==>
         s.next.Some? && s.next.value != s.cur && Programmed(s, s.next.value))
  }

  /** What the owner of PENDING knows inside the interrupt callback. */
  predicate CallbackKnows(s: State, pc: Pc) {
    && (pc.CbCheck? || pc.CbGiveUp? || pc.CbSwap? ==> s.inFlight)
    && (pc.CbSwap? ==> !s.hw.cntl)
    && (pc.CbWptr? || pc.CbRelease? ==> !s.inFlight)
  }

  /** What the holder of the device mutex knows. */
  predicate HolderKnows(s: State, pc: Pc) {
    && (pc.DoneCheck? || pc.DoneSwap? || pc.DoneWptr? || pc.DoneRelease? ==> s.st == COMPLETE)
    && (pc.DoneCheck? || pc.DoneSwap? ==> s.inFlight)
    && (pc.DoneWptr? || pc.DoneRelease? ==> !s.inFlight)
    && (pc.FaultRead? || pc.FaultComplete? ==> s.st == FAULTED)
    && (pc.DoneSwap? || pc.FaultComplete? ==> !s.hw.cntl)
  }

  predicate ControlOk(s: State) {
    && (s.owner != NOBODY <==> s.st == START || s.st == PENDING)
    && (s.owner != NOBODY ==>
         && 0 <= s.owner < |s.pcs|
         && (s.st == START ==>
              InTrigger(s.pcs[s.owner]) && TriggerKnows(s, s.pcs[s.owner]))
         && (s.st == PENDING ==>
              InCallback(s.pcs[s.owner]) && CallbackKnows(s, s.pcs[s.owner])))
    && (s.mutex != NOBODY ==> 0 <= s.mutex < |s.pcs| && HolderKnows(s, s.pcs[s.mutex]))
    && (s.st == NONE || s.st == START ==> !s.inFlight)
    && (s.st == TRIGGERED || s.st == FAULTED ==> s.inFlight)
    && (s.st == PENDING && !s.inFlight ==> s.next == None)
    && (s.st == COMPLETE && !s.inFlight ==>
         s.next == None && s.mutex != NOBODY && (s.pcs[s.mutex].DoneWptr? || s.pcs[s.mutex].DoneRelease?))
  }

  predicate Bounds(s: State) {
    s.cur < |s.rings| && s.hw.ring < |s.rings| && s.hw.restoreAddr < |s.rings|
  }

  /** What the rings and the hardware hold, whatever the threads are doing. */
  ghost predicate DataOk(s: State) {
    && Bounds(s)
    && (forall r :: 0 <= r < |s.rings| ==> RingOk(s, r))
    && HardwareOk(s)
    && (!s.perProcess ==> s.smmu == s.defaultTable)
  }

  /** Where the threads are and what they rely on. */
  ghost predicate ThreadsOk(s: State) {
    && PhaseOk(s)
    && ControlOk(s)
    && (forall t :: 0 <= t < |s.pcs| ==> PlaceOk(s, t))
  }

  ghost predicate Inv(s: State) {
    DataOk(s) && ThreadsOk(s)
  }

  // ---------- Facts about the sequential meaning ----------

  /** Without page-table switches the table never changes. */
  lemma {:induction false} NoSwitchesKeepTable(d: PageTable, subs: seq<Submission>)
    requires NoSwitches(subs)
    ensures TableAfter(d, subs) == d
  {
    if subs != [] {
      NoSwitchesKeepTable(d, subs[..|subs| - 1]);
    }
  }

  // ---------- Preservation ----------

  lemma InitialInv(s: State)
    requires Initial(s)
    ensures Inv(s)
  {
    forall r | 0 <= r < |s.rings| ensures RingOk(s, r) {
      assert s.rings[r] == FreshRing(s.defaultTable);
    }
  }

  /** The step moved program counters, the state word, the mutex and history only. */
  predicate SameData(s: State, s': State) {
    && s'.rings == s.rings && s'.hw == s.hw && s'.smmu == s.smmu && s'.cur == s.cur
    && s'.perProcess == s.perProcess && s'.defaultTable == s.defaultTable
  }

  lemma DataFrame(s: State, s': State)
    requires DataOk(s) && SameData(s, s')
    ensures DataOk(s')
  {
    forall r | 0 <= r < |s'.rings| ensures RingOk(s', r) {
      assert RingOk(s, r);
    }
  }

  lemma PhaseFrame(s: State, s': State)
    requires PhaseOk(s)
    requires s'.rings == s.rings && s'.hw == s.hw && s'.smmu == s.smmu && s'.perProcess == s.perProcess
    requires s'.inFlight == s.inFlight && s'.next == s.next && s'.cur == s.cur
    ensures PhaseOk(s')
  {
  }

  /** A step of thread t disturbs no other thread's place. */
  lemma PlacesKept(s: State, s': State, t: nat)
    requires forall u :: 0 <= u < |s.pcs| ==> PlaceOk(s, u)
    requires t < |s.pcs| && |s'.pcs| == |s.pcs|
    requires forall u :: 0 <= u < |s.pcs| && u != t ==> s'.pcs[u] == s.pcs[u]
    requires (s'.st == s.st && s'.owner == s.owner) || s.owner == t || s.owner == NOBODY
    requires s'.mutex == s.mutex
             || ((s.mutex == t || s.mutex == NOBODY) && (s'.mutex == t || s'.mutex == NOBODY))
    requires PlaceOk(s', t)
    ensures forall u :: 0 <= u < |s'.pcs| ==> PlaceOk(s', u)
  {
    forall u | 0 <= u < |s'.pcs| ensures PlaceOk(s', u) {
      assert PlaceOk(s, u);
    }
  }

  /** A thread that owns nothing but perhaps the mutex may return at any time. */
  lemma FinishKeepsThreads(s: State, t: nat)
    requires ThreadsOk(s) && t < |s.pcs|
    requires !InTrigger(s.pcs[t]) && !InCallback(s.pcs[t])
    requires !s.pcs[t].DoneWptr? && !s.pcs[t].DoneRelease?
    ensures ThreadsOk(Finish(s, t)) && SameData(s, Finish(s, t))
  {
    var s' := Finish(s, t);
    PhaseFrame(s, s');
    assert PlaceOk(s, t);
    PlacesKept(s, s', t);
  }

  lemma BeginKeepsThreads(s: State, e: Event)
    requires ThreadsOk(s) && Enabled(s, e)
    requires e.BeginTrigger? || e.BeginSchedule? || e.BeginFaultWork?
    ensures ThreadsOk(Apply(s, e)) && SameData(s, Apply(s, e))
  {
    var s' := Apply(s, e);
    PhaseFrame(s, s');
    assert PlaceOk(s, e.t);
    PlacesKept(s, s', e.t);
  }

  lemma BeginCallbackKeepsThreads(s: State, t: nat)
    requires ThreadsOk(s) && Enabled(s, BeginCallback(t))
    ensures ThreadsOk(Apply(s, BeginCallback(t))) && SameData(s, Apply(s, BeginCallback(t)))
  {
    var s' := Apply(s, BeginCallback(t));
    PhaseFrame(s, s');
    assert PlaceOk(s, t);
    PlacesKept(s, s', t);
  }

  lemma TimerKeepsThreads(s: State)
    requires ThreadsOk(s)
    ensures ThreadsOk(Apply(s, TimerFires)) && SameData(s, Apply(s, TimerFires))
  {
    var s' := Apply(s, TimerFires);
    PhaseFrame(s, s');
    forall u | 0 <= u < |s'.pcs| ensures PlaceOk(s', u) {
      assert PlaceOk(s, u);
    }
  }

  lemma RestartKeepsInv(s: State, r: nat)
    requires Inv(s) && Enabled(s, Restart(r))
    ensures Inv(Apply(s, Restart(r)))
    ensures var s' := Apply(s, Restart(r));
      && s'.st == NONE && s'.cur == r && s'.next == s.next && !s'.hw.cntl && s'.hw.ring == r
      && (s.perProcess ==> s'.smmu == s.defaultTable)
      && forall i :: 0 <= i < |s'.rings| ==>
           && s'.rings[i].submitted == [] && s'.rings[i].executed == [] && s'.rings[i].rptr == s'.rings[i].wptr == 0
           && s'.rings[i].table == s.defaultTable && s'.rings[i].record == Record(0, 0)
  {
    var s' := Apply(s, Restart(r));
    forall i | 0 <= i < |s'.rings| ensures RingOk(s', i) {
      assert s'.rings[i] == FreshRing(s.defaultTable);
    }
  }

  lemma SubmitKeepsData(s: State, r: nat, cmd: Submission)
    requires Inv(s) && Enabled(s, Submit(r, cmd))
    ensures DataOk(SubmitTo(s, r, cmd))
  {
    var s' := SubmitTo(s, r, cmd);
    forall i | 0 <= i < |s'.rings| ensures RingOk(s', i) {
      assert RingOk(s, i);
      var k := |s.rings[i].executed|;
      assert s'.rings[i].submitted[..k] == s.rings[i].submitted[..k];
    }
    assert RingOk(s, r);
  }

  lemma SubmitKeepsThreads(s: State, r: nat, cmd: Submission)
    requires ThreadsOk(s) && r < |s.rings|
    ensures ThreadsOk(SubmitTo(s, r, cmd))
  {
    var s' := SubmitTo(s, r, cmd);
    forall t | 0 <= t < |s'.pcs| ensures PlaceOk(s', t) {
      assert PlaceOk(s, t);
    }
  }

  lemma ExecuteKeepsInv(s: State)
    requires Inv(s) && Enabled(s, Execute)
    ensures Inv(Apply(s, Execute))
  {
    var s' := Apply(s, Execute);
    var h, k := s.hw.ring, s.hw.rptr;
    assert RingOk(s, h);
    var subs := s.rings[h].submitted;
    assert subs[..k + 1][..k] == subs[..k];
    forall i | 0 <= i < |s'.rings| ensures RingOk(s', i) {
      assert RingOk(s, i);
    }
    forall t | 0 <= t < |s'.pcs| ensures PlaceOk(s', t) {
      assert PlaceOk(s, t);
    }
  }

  lemma CompleteSwitchKeepsInv(s: State)
    requires Inv(s) && Enabled(s, CompleteSwitch)
    ensures Inv(Apply(s, CompleteSwitch))
  {
    var s' := Apply(s, CompleteSwitch);
    assert RingOk(s, s.hw.ring) && RingOk(s, s.hw.restoreAddr);
    if !s.perProcess {
      NoSwitchesKeepTable(s.defaultTable, s.rings[s.hw.ring].submitted[..s.hw.rptr]);
      var nx := s.rings[s.hw.restoreAddr];
      NoSwitchesKeepTable(s.defaultTable, nx.submitted[..|nx.executed|]);
    }
    forall i | 0 <= i < |s'.rings| ensures RingOk(s', i) {
      assert RingOk(s, i);
    }
    forall t | 0 <= t < |s'.pcs| ensures PlaceOk(s', t) {
      assert PlaceOk(s, t);
    }
  }

  /** Steps of the trigger path that touch neither rings nor hardware. */
  lemma TryTriggerKeepsThreads(s: State, t: nat)
    requires ThreadsOk(s) && Bounds(s) && t < |s.pcs|
    requires s.pcs[t].TryTrigger?
    ensures ThreadsOk(TryTriggerStep(s, t)) && SameData(s, TryTriggerStep(s, t))
  {
    var s' := TryTriggerStep(s, t);
    PhaseFrame(s, s');
    assert PlaceOk(s, t);
    if s.st != NONE {
      FinishKeepsThreads(s, t);
      return;
    }
    PlacesKept(s, s', t);
  }

  lemma ScanKeepsThreads(s: State, t: nat)
    requires ThreadsOk(s) && Bounds(s) && t < |s.pcs|
    requires s.pcs[t].Scan?
    requires s.pcs[t].Scan? && s.pcs[t].i < |s.rings| ==>
      var ring := s.rings[s.pcs[t].i]; ring.rptr == |ring.executed| <= ring.wptr
    ensures ThreadsOk(TriggerStep(s, t)) && SameData(s, TriggerStep(s, t))
  {
    var s' := TriggerStep(s, t);
    PhaseFrame(s, s');
    assert PlaceOk(s, t);
    PlacesKept(s, s', t);
  }

  lemma ReleaseKeepsThreads(s: State, t: nat)
    requires ThreadsOk(s) && Bounds(s) && t < |s.pcs|
    requires s.pcs[t].Release?
    ensures ThreadsOk(TriggerStep(s, t)) && SameData(s, TriggerStep(s, t))
  {
    var s' := TriggerStep(s, t);
    PhaseFrame(s, s');
    assert PlaceOk(s, t);
    PlacesKept(s, s', t);
  }

  lemma PrepareKeepsInv(s: State, t: nat)
    requires Inv(s) && t < |s.pcs|
    requires s.pcs[t].Prepare?
    ensures Inv(TriggerStep(s, t))
  {
    var s' := TriggerStep(s, t);
    assert PlaceOk(s, t);
    forall r | 0 <= r < |s'.rings| ensures RingOk(s', r) {
      assert RingOk(s, r);
    }
    PlacesKept(s, s', t);
  }

  lemma ProgramKeepsInv(s: State, t: nat)
    requires Inv(s) && t < |s.pcs|
    requires s.pcs[t].Program? || s.pcs[t].Fire?
    ensures Inv(TriggerStep(s, t))
  {
    var s' := TriggerStep(s, t);
    assert PlaceOk(s, t);
    forall r | 0 <= r < |s'.rings| ensures RingOk(s', r) {
      assert RingOk(s, r);
    }
    PlacesKept(s, s', t);
  }

  /** The three places that bring the write pointer register up to date. */
  lemma RescueKeepsInv(s: State, t: nat)
    requires Inv(s) && t < |s.pcs|
    requires s.pcs[t].Rescue?
    ensures Inv(TriggerStep(s, t))
  {
    var s' := TriggerStep(s, t);
    assert PlaceOk(s, t);
    assert RingOk(s, s.cur);
    forall r | 0 <= r < |s'.rings| ensures RingOk(s', r) {
      assert RingOk(s, r);
    }
    PlacesKept(s, s', t);
  }

  lemma CbWptrKeepsInv(s: State, t: nat)
    requires Inv(s) && t < |s.pcs|
    requires s.pcs[t].CbWptr?
    ensures Inv(CallbackStep(s, t))
  {
    var s' := CallbackStep(s, t);
    assert PlaceOk(s, t);
    assert RingOk(s, s.cur);
    forall r | 0 <= r < |s'.rings| ensures RingOk(s', r) {
      assert RingOk(s, r);
    }
    PlacesKept(s, s', t);
  }

  lemma DoneWptrKeepsInv(s: State, t: nat, awake: bool)
    requires Inv(s) && t < |s.pcs|
    requires s.pcs[t].DoneWptr?
    ensures Inv(MutexStep(s, t, awake))
  {
    var s' := MutexStep(s, t, awake);
    assert PlaceOk(s, t);
    assert RingOk(s, s.cur);
    forall r | 0 <= r < |s'.rings| ensures RingOk(s', r) {
      assert RingOk(s, r);
    }
    PlacesKept(s, s', t);
  }

  lemma CbSwapKeepsInv(s: State, t: nat)
    requires Inv(s) && t < |s.pcs|
    requires s.pcs[t].CbSwap?
    ensures Inv(CallbackStep(s, t))
  {
    var s' := CallbackStep(s, t);
    assert PlaceOk(s, t);
    forall r | 0 <= r < |s'.rings| ensures RingOk(s', r) {
      assert RingOk(s, r);
    }
    PlacesKept(s, s', t);
  }

  lemma DoneSwapKeepsInv(s: State, t: nat, awake: bool)
    requires Inv(s) && t < |s.pcs|
    requires s.pcs[t].DoneSwap?
    ensures Inv(MutexStep(s, t, awake))
  {
    var s' := MutexStep(s, t, awake);
    assert PlaceOk(s, t);
    forall r | 0 <= r < |s'.rings| ensures RingOk(s', r) {
      assert RingOk(s, r);
    }
    PlacesKept(s, s', t);
  }

  lemma CallbackControlKeepsThreads(s: State, t: nat)
    requires ThreadsOk(s) && t < |s.pcs| && s.cur < |s.rings|
    requires var pc := s.pcs[t]; pc.CbCheck? || pc.CbGiveUp? || pc.CbRelease?
    ensures ThreadsOk(CallbackStep(s, t)) && SameData(s, CallbackStep(s, t))
  {
    var s' := CallbackStep(s, t);
    PhaseFrame(s, s');
    assert PlaceOk(s, t);
    PlacesKept(s, s', t);
  }

  lemma MutexControlKeepsThreads(s: State, t: nat, awake: bool)
    requires ThreadsOk(s) && t < |s.pcs| && s.cur < |s.rings|
    requires var pc := s.pcs[t]; pc.SchedCheck? || pc.DoneCheck? || pc.DoneRelease?
    ensures ThreadsOk(MutexStep(s, t, awake)) && SameData(s, MutexStep(s, t, awake))
  {
    var s' := MutexStep(s, t, awake);
    PhaseFrame(s, s');
    assert PlaceOk(s, t);
    PlacesKept(s, s', t);
  }

  lemma FaultCheckKeepsThreads(s: State, t: nat, awake: bool)
    requires ThreadsOk(s) && t < |s.pcs| && s.cur < |s.rings|
    requires s.pcs[t].FaultCheck?
    ensures ThreadsOk(MutexStep(s, t, awake)) && SameData(s, MutexStep(s, t, awake))
  {
    var s' := MutexStep(s, t, awake);
    PhaseFrame(s, s');
    assert PlaceOk(s, t);
    if s.st != FAULTED {
      FinishKeepsThreads(s, t);
      return;
    }
    PlacesKept(s, s', t);
  }

  lemma FaultReadKeepsThreads(s: State, t: nat, awake: bool)
    requires ThreadsOk(s) && t < |s.pcs| && s.cur < |s.rings|
    requires s.pcs[t].FaultRead?
    ensures ThreadsOk(MutexStep(s, t, awake)) && SameData(s, MutexStep(s, t, awake))
  {
    var s' := MutexStep(s, t, awake);
    PhaseFrame(s, s');
    assert PlaceOk(s, t);
    PlacesKept(s, s', t);
  }

  lemma FaultCompleteKeepsThreads(s: State, t: nat, awake: bool)
    requires ThreadsOk(s) && t < |s.pcs| && s.cur < |s.rings|
    requires s.pcs[t].FaultComplete?
    ensures ThreadsOk(MutexStep(s, t, awake)) && SameData(s, MutexStep(s, t, awake))
  {
    var s' := MutexStep(s, t, awake);
    PhaseFrame(s, s');
    assert PlaceOk(s, t);
    PlacesKept(s, s', t);
  }

  lemma TriggerKeepsInv(s: State, t: nat)
    requires Inv(s) && t < |s.pcs| && InTrigger(s.pcs[t])
    ensures Inv(TriggerStep(s, t))
  {
    var pc := s.pcs[t];
    if pc.Rescue? {
      RescueKeepsInv(s, t);
    } else if pc.Prepare? {
      PrepareKeepsInv(s, t);
    } else if pc.Program? || pc.Fire? {
      ProgramKeepsInv(s, t);
    } else {
      if pc.Scan? {
        assert pc.i < |s.rings| ==> RingOk(s, pc.i);
        ScanKeepsThreads(s, t);
      } else {
        ReleaseKeepsThreads(s, t);
      }
      DataFrame(s, TriggerStep(s, t));
    }
  }

  lemma CallbackKeepsInv(s: State, t: nat)
    requires Inv(s) && t < |s.pcs| && InCallback(s.pcs[t])
    ensures Inv(CallbackStep(s, t))
  {
    var pc := s.pcs[t];
    if pc.CbSwap? {
      CbSwapKeepsInv(s, t);
    } else if pc.CbWptr? {
      CbWptrKeepsInv(s, t);
    } else {
      CallbackControlKeepsThreads(s, t);
      DataFrame(s, CallbackStep(s, t));
    }
  }

  lemma MutexKeepsInv(s: State, t: nat, awake: bool)
    requires Inv(s) && t < |s.pcs| && UnderMutex(s.pcs[t])
    ensures Inv(MutexStep(s, t, awake))
  {
    var pc := s.pcs[t];
    if pc.DoneSwap? {
      DoneSwapKeepsInv(s, t, awake);
    } else if pc.DoneWptr? {
      DoneWptrKeepsInv(s, t, awake);
    } else {
      if pc.FaultCheck? {
        FaultCheckKeepsThreads(s, t, awake);
      } else if pc.FaultRead? {
        FaultReadKeepsThreads(s, t, awake);
      } else if pc.FaultComplete? {
        FaultCompleteKeepsThreads(s, t, awake);
      } else {
        MutexControlKeepsThreads(s, t, awake);
      }
      DataFrame(s, MutexStep(s, t, awake));
    }
  }

  lemma ContinueKeepsInv(s: State, t: nat, awake: bool)
    requires Inv(s) && t < |s.pcs|
    ensures Inv(Advance(s, t, awake))
  {
    if s.pcs[t] == TryTrigger {
      TryTriggerKeepsThreads(s, t);
      DataFrame(s, TryTriggerStep(s, t));
    } else if InTrigger(s.pcs[t]) {
      TriggerKeepsInv(s, t);
    } else if InCallback(s.pcs[t]) {
      CallbackKeepsInv(s, t);
    } else if UnderMutex(s.pcs[t]) {
      MutexKeepsInv(s, t, awake);
    }
  }

  /** Every step of every thread and of the hardware keeps the invariant. */
  lemma StepKeepsInv(s: State, e: Event)
    requires Inv(s) && Enabled(s, e)
    ensures Inv(Apply(s, e))
  {
    match e
    case Continue(t, awake) => ContinueKeepsInv(s, t, awake);
    case Submit(r, cmd) => SubmitKeepsData(s, r, cmd); SubmitKeepsThreads(s, r, cmd);
    case Execute => ExecuteKeepsInv(s);
    case CompleteSwitch => CompleteSwitchKeepsInv(s);
    case Restart(r) => RestartKeepsInv(s, r);
    case BeginCallback(t) => BeginCallbackKeepsThreads(s, t); DataFrame(s, Apply(s, e));
    case TimerFires => TimerKeepsThreads(s); DataFrame(s, Apply(s, e));
    case _ => BeginKeepsThreads(s, e); DataFrame(s, Apply(s, e));
  }
}
