/**
 Once submissions stop: the rings switched to have strictly decreasing priority, so the number
 of switches is bounded by the number of rings and the work done by the work outstanding.
 */
module PreemptQuiet {
  import opened Basics
  import opened PreemptProtocol
  import opened PreemptInvariant
  import opened PreemptRuns

  predicate IsQuiet(e: Event) { !e.Submit? && !e.Restart? }

  predicate Quiet(es: seq<Event>) {
    forall i :: 0 <= i < |es| ==> IsQuiet(es[i])
  }

  predicate EmptyBelow(s: State, k: int) {
    forall r :: 0 <= r < k && r < |s.rings| ==> IsEmpty(s.rings[r])
  }

  // ---------- Work is conserved ----------

  function Work(ring: Ring): int { ring.wptr - |ring.executed| }

  function TotalWork(rings: seq<Ring>): int {
    if rings == [] then 0 else TotalWork(rings[..|rings| - 1]) + Work(rings[|rings| - 1])
  }

  lemma {:induction false} TotalWorkFrame(a: seq<Ring>, b: seq<Ring>)
    requires |a| == |b| && forall r :: 0 <= r < |a| ==> Work(a[r]) == Work(b[r])
    ensures TotalWork(a) == TotalWork(b)
  {
    if a != [] {
      TotalWorkFrame(a[..|a| - 1], b[..|b| - 1]);
    }
  }

  lemma {:induction false} TotalWorkUpdate(a: seq<Ring>, r: nat, ring: Ring)
    requires r < |a|
    ensures TotalWork(a[r := ring]) == TotalWork(a) - Work(a[r]) + Work(ring)
  {
    var b := a[r := ring];
    if r == |a| - 1 {
      assert b[..|b| - 1] == a[..|a| - 1];
    } else {
      TotalWorkUpdate(a[..|a| - 1], r, ring);
      assert b[..|b| - 1] == a[..|a| - 1][r := ring];
    }
  }

  lemma {:induction false} TotalWorkNonNegative(a: seq<Ring>)
    requires forall r :: 0 <= r < |a| ==> Work(a[r]) >= 0
    ensures TotalWork(a) >= 0
    ensures TotalWork(a) == 0 <==> forall r :: 0 <= r < |a| ==> Work(a[r]) == 0
  {
    if a != [] {
      var init := a[..|a| - 1];
      TotalWorkNonNegative(init);
      if TotalWork(a) == 0 {
        forall r | 0 <= r < |a| ensures Work(a[r]) == 0 {
          if r < |a| - 1 {
            assert a[r] == init[r];
          }
        }
      }
    }
  }

  function Outstanding(s: State): int { TotalWork(s.rings) }

  lemma OutstandingNonNegative(s: State)
    requires Inv(s)
    ensures Outstanding(s) >= 0
    ensures Outstanding(s) == 0 <==> EmptyBelow(s, |s.rings|)
  {
    forall r | 0 <= r < |s.rings|
      ensures Work(s.rings[r]) >= 0 && (Work(s.rings[r]) == 0 <==> IsEmpty(s.rings[r]))
    {
      assert RingOk(s, r);
    }
    TotalWorkNonNegative(s.rings);
  }

  /** A step of a driver thread leaves what was submitted and what was run alone. */
  lemma AdvanceKeepsQueues(s: State, t: nat, awake: bool, r: nat)
    requires t < |s.pcs| && s.cur < |s.rings| && r < |s.rings|
    ensures var ring := Advance(s, t, awake).rings[r];
      ring.wptr == s.rings[r].wptr && ring.rptr == s.rings[r].rptr && ring.executed == s.rings[r].executed
  {
    var s' := Advance(s, t, awake);
    if InTrigger(s.pcs[t]) {
      assert s' == TriggerStep(s, t);
      assert s.pcs[t].Prepare? || s'.rings == s.rings;
    }
  }

  lemma StepConservesWork(s: State, e: Event)
    requires Inv(s) && Enabled(s, e) && IsQuiet(e)
    ensures Outstanding(Apply(s, e)) + One(e.Execute?) == Outstanding(s)
  {
    var s' := Apply(s, e);
    if e.Execute? {
      assert RingOk(s, s.hw.ring);
      TotalWorkUpdate(s.rings, s.hw.ring, s'.rings[s.hw.ring]);
    } else {
      forall r | 0 <= r < |s.rings| ensures Work(s'.rings[r]) == Work(s.rings[r]) {
        if e.Continue? {
          AdvanceKeepsQueues(s, e.t, e.awake, r);
        }
      }
      TotalWorkFrame(s'.rings, s.rings);
    }
  }

  function CountExecutes(es: seq<Event>): nat {
    if es == [] then 0 else One(es[0].Execute?) + CountExecutes(es[1..])
  }

  lemma {:induction false} RunConservesWork(s: State, es: seq<Event>)
    requires Inv(s) && ValidRun(s, es) && Quiet(es)
    ensures Outstanding(Final(s, es)) + CountExecutes(es) == Outstanding(s)
    decreases |es|
  {
    hide Apply;
    if es != [] {
      StepConservesWork(s, es[0]);
      StepKeepsInv(s, es[0]);
      RunConservesWork(Apply(s, es[0]), es[1..]);
    }
  }

  // ---------- Switch targets only get less urgent ----------

  /** An empty ring stays empty while nothing is submitted. */
  lemma EmptyStays(s: State, e: Event, r: nat)
    requires Inv(s) && Enabled(s, e) && IsQuiet(e)
    requires r < |s.rings| && IsEmpty(s.rings[r])
    ensures IsEmpty(Apply(s, e).rings[r])
  {
    assert RingOk(s, r);
    if e.Continue? {
      AdvanceKeepsQueues(s, e.t, e.awake, r);
    }
  }

  lemma EmptyBelowStays(s: State, e: Event, k: int)
    requires Inv(s) && Enabled(s, e) && IsQuiet(e) && EmptyBelow(s, k)
    ensures EmptyBelow(Apply(s, e), k)
  {
    var s' := Apply(s, e);
    forall r | 0 <= r < k && r < |s'.rings| ensures IsEmpty(s'.rings[r]) {
      EmptyStays(s, e, r);
    }
  }

  /** The ring a trigger in progress is heading for: all rings above it have been seen empty. */
  function Heading(s: State, pc: Pc): int {
    match pc
    case Scan(i) => i
    case Prepare(nx) => nx
    case Program(nx, _) => nx
    case Fire => if s.next.Some? then s.next.value else 0
    case _ => -1
  }

  /** f is the ring most recently fired at, or -1. */
  predicate QuietOk(s: State, f: int) {
    && EmptyBelow(s, f)
    && (f >= 0 ==> if s.inFlight then s.next == Some(f) else s.cur == f)
    && (s.st == START && 0 <= s.owner < |s.pcs| ==>
         && EmptyBelow(s, Heading(s, s.pcs[s.owner]))
         && (s.pcs[s.owner].Prepare? || s.pcs[s.owner].Program? || s.pcs[s.owner].Fire? ==>
              f < Heading(s, s.pcs[s.owner])))
  }

  function Target(s: State): int { if s.next.Some? then s.next.value else -1 }

  lemma FireKeepsQuiet(s: State, t: nat, f: int)
    requires Inv(s) && t < |s.pcs| && s.pcs[t].Fire? && QuietOk(s, f)
    requires EmptyBelow(TriggerStep(s, t), Heading(s, s.pcs[t]))
    ensures f < Target(s) < |s.rings| && QuietOk(TriggerStep(s, t), Target(s))
  {
    assert PlaceOk(s, t);
  }

  /** A scan that stops at ring i has found it less urgent than the last target. */
  lemma ScanKeepsQuiet(s: State, t: nat, f: int)
    requires t < |s.pcs| && s.cur < |s.rings| && s.pcs[t].Scan? && QuietOk(s, f)
    requires s.st == START && s.owner == t && !s.inFlight
    ensures QuietOk(TriggerStep(s, t), f)
  {
    assert TriggerStep(s, t).rings == s.rings;
  }

  lemma TriggerStepKeepsQuiet(s: State, t: nat, f: int)
    requires t < |s.pcs| && s.cur < |s.rings| && QuietOk(s, f)
    requires InTrigger(s.pcs[t]) && !s.pcs[t].Scan? && !s.pcs[t].Fire?
    requires s.st == START && s.owner == t && !s.inFlight
    requires EmptyBelow(TriggerStep(s, t), f)
    requires EmptyBelow(TriggerStep(s, t), Heading(s, s.pcs[t]))
    ensures QuietOk(TriggerStep(s, t), f)
  {
    var s' := TriggerStep(s, t);
    assert !s'.inFlight && s'.cur == s.cur;
  }

  lemma CallbackStepKeepsQuiet(s: State, t: nat, f: int)
    requires Inv(s) && t < |s.pcs| && InCallback(s.pcs[t]) && QuietOk(s, f)
    requires EmptyBelow(CallbackStep(s, t), f)
    ensures QuietOk(CallbackStep(s, t), f)
  {
    assert PlaceOk(s, t);
  }

  lemma MutexStepKeepsQuiet(s: State, t: nat, awake: bool, f: int)
    requires Inv(s) && t < |s.pcs| && UnderMutex(s.pcs[t]) && QuietOk(s, f)
    requires forall k :: EmptyBelow(s, k) ==> EmptyBelow(MutexStep(s, t, awake), k)
    ensures QuietOk(MutexStep(s, t, awake), f)
  {
    assert PlaceOk(s, t);
  }

  lemma TryTriggerStepKeepsQuiet(s: State, t: nat, f: int)
    requires Inv(s) && t < |s.pcs| && s.pcs[t] == TryTrigger && QuietOk(s, f)
    ensures QuietOk(TryTriggerStep(s, t), f)
  {
    assert PlaceOk(s, t);
  }

  lemma ContinueKeepsQuiet(s: State, t: nat, awake: bool, f: int)
    requires Inv(s) && t < |s.pcs| && s.pcs[t] != Idle && QuietOk(s, f)
    requires forall k :: EmptyBelow(s, k) ==> EmptyBelow(Advance(s, t, awake), k)
    ensures s.pcs[t].Fire? ==> f < Target(s) < |s.rings| && QuietOk(Advance(s, t, awake), Target(s))
    ensures !s.pcs[t].Fire? ==> QuietOk(Advance(s, t, awake), f)
  {
    var s' := Advance(s, t, awake);
    assert EmptyBelow(s', f);
    if s.pcs[t] == TryTrigger {
      TryTriggerStepKeepsQuiet(s, t, f);
    } else if InTrigger(s.pcs[t]) {
      assert PlaceOk(s, t);
      assert EmptyBelow(s, Heading(s, s.pcs[t]));
      if s.pcs[t].Fire? {
        FireKeepsQuiet(s, t, f);
      } else if s.pcs[t].Scan? {
        ScanKeepsQuiet(s, t, f);
      } else {
        TriggerStepKeepsQuiet(s, t, f);
      }
    } else if InCallback(s.pcs[t]) {
      CallbackStepKeepsQuiet(s, t, f);
    } else if UnderMutex(s.pcs[t]) {
      MutexStepKeepsQuiet(s, t, awake, f);
    }
  }

  lemma StepKeepsQuiet(s: State, e: Event, f: int)
    requires Inv(s) && Enabled(s, e) && IsQuiet(e) && QuietOk(s, f)
    ensures Fires(s, e) ==> f < Target(s) < |s.rings| && QuietOk(Apply(s, e), Target(s))
    ensures !Fires(s, e) ==> QuietOk(Apply(s, e), f)
  {
    var s' := Apply(s, e);
    forall k | EmptyBelow(s, k) ensures EmptyBelow(s', k) {
      EmptyBelowStays(s, e, k);
    }
    if e.Continue? {
      assert PlaceOk(s, e.t);
      ContinueKeepsQuiet(s, e.t, e.awake, f);
    } else if e.BeginTrigger? || e.BeginSchedule? || e.BeginFaultWork? {
      assert PlaceOk(s, e.t);
    }
  }

  /** The rings fired at during a run, in order. */
  function Targets(s: State, es: seq<Event>): seq<int>
    requires ValidRun(s, es)
    decreases |es|
  {
    if es == [] then []
    else (if Fires(s, es[0]) then [Target(s)] else []) + Targets(Apply(s, es[0]), es[1..])
  }

  predicate Increasing(xs: seq<int>) {
    forall i, j :: 0 <= i < j < |xs| ==> xs[i] < xs[j]
  }

  lemma {:induction false} TargetsIncreaseFrom(s: State, es: seq<Event>, f: int)
    requires Inv(s) && ValidRun(s, es) && Quiet(es) && QuietOk(s, f)
    ensures Increasing(Targets(s, es))
    ensures forall i :: 0 <= i < |Targets(s, es)| ==> f < Targets(s, es)[i] < |s.rings|
    decreases |es|
  {
    hide Apply;
    if es != [] {
      StepKeepsQuiet(s, es[0], f);
      StepKeepsInv(s, es[0]);
      TargetsIncreaseFrom(Apply(s, es[0]), es[1..], if Fires(s, es[0]) then Target(s) else f);
    }
  }

  /** After submissions stop, each ring is switched to at most once, most urgent first. */
  lemma SwitchesGetLessUrgent(s: State, es: seq<Event>)
    requires Inv(s) && s.st == NONE && ValidRun(s, es) && Quiet(es)
    ensures Increasing(Targets(s, es))
    ensures forall i :: 0 <= i < |Targets(s, es)| ==> 0 <= Targets(s, es)[i] < |s.rings|
  {
    hide Apply;
    TargetsIncreaseFrom(s, es, -1);
  }

  lemma {:induction false} IncreasingIsShort(xs: seq<int>, n: nat)
    requires Increasing(xs) && forall i :: 0 <= i < |xs| ==> 0 <= xs[i] < n
    ensures |xs| <= n
  {
    if xs != [] {
      IncreasingIsShort(xs[..|xs| - 1], xs[|xs| - 1]);
    }
  }

  lemma {:induction false} TargetsAreFires(s: State, es: seq<Event>)
    requires ValidRun(s, es)
    ensures |Targets(s, es)| == CountFires(s, es)
    decreases |es|
  {
    hide Apply;
    if es != [] {
      TargetsAreFires(Apply(s, es[0]), es[1..]);
    }
  }

  /**
   A run without submissions, however long, does a bounded amount of useful work: at most one
   trigger, one hardware switch and one swap per ring, and one execution per submission.
   */
  lemma QuietRunIsBounded(s: State, es: seq<Event>)
    requires Inv(s) && s.st == NONE && ValidRun(s, es) && Quiet(es)
    ensures CountFires(s, es) <= |s.rings|
    ensures CountSwitches(s, es) <= CountFires(s, es) && CountSwaps(s, es) <= CountFires(s, es)
    ensures CountExecutes(es) <= Outstanding(s)
  {
    hide Apply;
    SwitchesGetLessUrgent(s, es);
    IncreasingIsShort(Targets(s, es), |s.rings|);
    TargetsAreFires(s, es);
    TriggersBalance(s, es);
    RunConservesWork(s, es);
    RunKeepsInv(s, es);
    OutstandingNonNegative(Final(s, es));
  }
}
