/**
 When the write pointer register is up to date: exactly which submissions the CP sees at once and
 which have to wait for the next trigger.
 */
module PreemptFresh {
  import opened Basics
  import opened PreemptProtocol
  import opened PreemptInvariant
  import opened PreemptRuns
  import opened PreemptAlone

  // ---------- The exact condition ----------

  /** The step is an _update_wptr of cur_rb. */
  predicate UpdatesRegister(s: State, e: Event) {
    e.Continue? && e.t < |s.pcs| && (s.pcs[e.t].Rescue? || s.pcs[e.t].CbWptr? || s.pcs[e.t].DoneWptr?)
  }

  /**
   Whether the register is fresh after a step: a submission to cur_rb makes it so exactly if it
   finds NONE, an _update_wptr and a restart always do, and nothing else matters.
   */
  function Refresh(s: State, e: Event, f: bool): bool {
    if e.Submit? && e.r == s.cur then s.st == NONE
    else f || e.Restart? || UpdatesRegister(s, e)
  }

  /** Refresh along a run. */
  function Fresh(s: State, es: seq<Event>, f: bool): bool
    requires ValidRun(s, es)
    decreases |es|
  {
    if es == [] then f else Fresh(Apply(s, es[0]), es[1..], Refresh(s, es[0], f))
  }

  /** No switch is under way, nor the update that ends one still to come. */
  predicate Settled(s: State) {
    && !s.inFlight
    && !(0 <= s.owner < |s.pcs| && s.pcs[s.owner].CbWptr?)
    && !(0 <= s.mutex < |s.pcs| && s.pcs[s.mutex].DoneWptr?)
  }

  predicate FreshOk(s: State, f: bool) {
    s.cur < |s.rings| && (Settled(s) ==> (s.hw.wptr == s.rings[s.cur].wptr <==> f))
  }

  lemma BeginKeepsFresh(s: State, e: Event, f: bool)
    requires Inv(s) && Enabled(s, e) && FreshOk(s, f)
    requires !e.Continue? && !e.Submit? && !e.Restart?
    ensures FreshOk(Apply(s, e), f)
  {
    assert e.BeginSchedule? || e.BeginFaultWork? ==> s.pcs[e.t] == Idle;
    if e.BeginTrigger? || e.BeginCallback? || e.BeginSchedule? || e.BeginFaultWork? {
      assert PlaceOk(s, e.t);
    }
  }

  lemma SubmitKeepsFresh(s: State, r: nat, cmd: Submission, f: bool)
    requires Inv(s) && Enabled(s, Submit(r, cmd)) && FreshOk(s, f)
    ensures FreshOk(SubmitTo(s, r, cmd), Refresh(s, Submit(r, cmd), f))
  {
    assert RingOk(s, r);
  }

  lemma TriggerKeepsFresh(s: State, t: nat, f: bool)
    requires Inv(s) && FreshOk(s, f) && t < |s.pcs| && InTrigger(s.pcs[t])
    ensures FreshOk(TriggerStep(s, t), f || s.pcs[t].Rescue?)
  {
    assert PlaceOk(s, t);
  }

  lemma CallbackKeepsFresh(s: State, t: nat, f: bool)
    requires Inv(s) && FreshOk(s, f) && t < |s.pcs| && InCallback(s.pcs[t])
    ensures FreshOk(CallbackStep(s, t), f || s.pcs[t].CbWptr?)
  {
    assert PlaceOk(s, t);
  }

  lemma MutexKeepsFresh(s: State, t: nat, awake: bool, f: bool)
    requires Inv(s) && FreshOk(s, f) && t < |s.pcs| && UnderMutex(s.pcs[t])
    ensures FreshOk(MutexStep(s, t, awake), f || s.pcs[t].DoneWptr?)
  {
    assert PlaceOk(s, t);
  }

  lemma StepKeepsFresh(s: State, e: Event, f: bool)
    requires Inv(s) && Enabled(s, e) && FreshOk(s, f)
    ensures FreshOk(Apply(s, e), Refresh(s, e, f))
  {
    match e
    case Submit(r, cmd) => SubmitKeepsFresh(s, r, cmd, f);
    case Continue(t, awake) =>
      var pc := s.pcs[t];
      hide Inv, FreshOk;
      if InTrigger(pc) {
        TriggerKeepsFresh(s, t, f);
      } else if InCallback(pc) {
        CallbackKeepsFresh(s, t, f);
      } else if UnderMutex(pc) {
        MutexKeepsFresh(s, t, awake, f);
      } else {
        TryKeepsFresh(s, t, f);
      }
    case Restart(r) =>
    case _ => BeginKeepsFresh(s, e, f);
  }

  lemma TryKeepsFresh(s: State, t: nat, f: bool)
    requires Inv(s) && FreshOk(s, f) && t < |s.pcs| && s.pcs[t] == TryTrigger
    ensures FreshOk(TryTriggerStep(s, t), f)
  {
    assert PlaceOk(s, t);
  }

  lemma {:induction false} RunKeepsFresh(s: State, es: seq<Event>, f: bool)
    requires Inv(s) && ValidRun(s, es) && FreshOk(s, f)
    ensures Inv(Final(s, es)) && FreshOk(Final(s, es), Fresh(s, es, f))
    decreases |es|
  {
    hide Inv, FreshOk, Apply, Refresh;
    if es != [] {
      StepKeepsInv(s, es[0]);
      StepKeepsFresh(s, es[0], f);
      RunKeepsFresh(Apply(s, es[0]), es[1..], Refresh(s, es[0], f));
    }
  }

  /**
   In every reachable NONE state the register holds cur_rb's write pointer if and only if the last
   step that could matter to it left it fresh, that is, unless a submission to cur_rb found another
   state and no _update_wptr, no submission in NONE and no restart has come since. Otherwise it is
   behind.
   */
  lemma RegisterIsFreshIff(s: State, es: seq<Event>)
    requires Initial(s) && ValidRun(s, es) && Final(s, es).st == NONE
    ensures var s' := Final(s, es);
      && s'.cur < |s'.rings| && s'.hw.wptr <= s'.rings[s'.cur].wptr
      && (s'.hw.wptr == s'.rings[s'.cur].wptr <==> Fresh(s, es, true))
  {
    InitialInv(s);
    RunKeepsFresh(s, es, true);
    NoneIsSettled(Final(s, es));
  }

  lemma NoneIsSettled(s: State)
    requires Inv(s) && s.st == NONE
    ensures Settled(s) && s.hw.ring == s.cur && s.hw.wptr <= s.rings[s.cur].wptr
  {
  }

  // ---------- The windows ----------

  /**
   A submission to the current ring that lands after the last register update and before the
   state returns to NONE leaves the register behind the ring, whatever the run before it.
   */
  lemma LateSubmissionIsNotSeen(s: State, t: nat, cmd: Submission, awake: bool)
    requires Inv(s) && t < |s.pcs| && (s.pcs[t].Release? || s.pcs[t].CbRelease? || s.pcs[t].DoneRelease?)
    requires Enabled(s, Submit(s.cur, cmd))
    ensures var es := [Submit(s.cur, cmd)] + [Continue(t, awake)];
      && ValidRun(s, es)
      && var s' := Final(s, es);
      && s'.cur < |s'.rings|
      && s'.st == NONE && s'.hw.ring == s'.cur && s'.hw.wptr < s'.rings[s'.cur].wptr
  {
    assert PlaceOk(s, t) && RingOk(s, s.cur);
    var s1 := SubmitTo(s, s.cur, cmd);
    assert s1.hw == s.hw && s1.pcs == s.pcs && s1.cur == s.cur;
    assert s.hw.ring == s.cur;
    RunOne(s1, Continue(t, awake));
    RunCons(s, Submit(s.cur, cmd), [Continue(t, awake)]);
  }

  /**
   The same for a scan that has already passed the current ring and finds no other ring with work:
   it ends without touching the register.
   */
  lemma SubmissionBehindTheScanIsNotSeen(s: State, t: nat, i: nat, cmd: Submission, awake: bool)
    requires Inv(s) && t < |s.pcs| && s.pcs[t] == Scan(i) && s.cur < i <= |s.rings|
    requires FirstBusy(s.rings, i) == |s.rings| && Enabled(s, Submit(s.cur, cmd))
    ensures var s' := RunAlone(Apply(s, Submit(s.cur, cmd)), t, awake);
      s'.cur == s.cur && s'.st == NONE && s'.hw.ring == s'.cur && s'.hw.wptr < s'.rings[s'.cur].wptr
  {
    assert PlaceOk(s, t) && RingOk(s, s.cur);
    var s1 := SubmitTo(s, s.cur, cmd);
    SameBusy(s.rings, s1.rings, i);
    hide RunAlone;
    ScanAlone(s1, t, awake, i);
  }

  lemma {:induction false} SameBusy(a: seq<Ring>, b: seq<Ring>, i: nat)
    requires i <= |a| == |b| && forall r :: i <= r < |a| ==> a[r] == b[r]
    ensures FirstBusy(a, i) == FirstBusy(b, i)
    decreases |a| - i
  {
    if i < |a| {
      SameBusy(a, b, i + 1);
    }
  }
}
