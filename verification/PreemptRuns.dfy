/** Safety of the preemption protocol over whole runs of any number of threads. */
module PreemptRuns {
  import opened Basics
  import opened PreemptProtocol
  import opened PreemptInvariant

  predicate ValidRun(s: State, es: seq<Event>)
    decreases |es|
  {
    es == [] || (Enabled(s, es[0]) && ValidRun(Apply(s, es[0]), es[1..]))
  }

  function Final(s: State, es: seq<Event>): State
    requires ValidRun(s, es)
    decreases |es|
  {
    if es == [] then s else Final(Apply(s, es[0]), es[1..])
  }

  lemma {:induction false} RunKeepsInv(s: State, es: seq<Event>)
    requires Inv(s) && ValidRun(s, es)
    ensures Inv(Final(s, es))
    decreases |es|
  {
    hide Apply;
    if es != [] {
      StepKeepsInv(s, es[0]);
      RunKeepsInv(Apply(s, es[0]), es[1..]);
    }
  }

  lemma RunOne(s: State, e: Event)
    requires Enabled(s, e)
    ensures ValidRun(s, [e]) && Final(s, [e]) == Apply(s, e)
  {
    assert [e][1..] == [];
    assert ValidRun(Apply(s, e), []) && Final(Apply(s, e), []) == Apply(s, e);
  }

  lemma RunCons(s: State, e: Event, es: seq<Event>)
    requires Enabled(s, e) && ValidRun(Apply(s, e), es)
    ensures ValidRun(s, [e] + es) && Final(s, [e] + es) == Final(Apply(s, e), es)
  {
    hide Apply;
    assert ([e] + es)[1..] == es;
  }

  /** Runs compose. */
  lemma {:induction false} RunAppend(s: State, es: seq<Event>, fs: seq<Event>)
    requires ValidRun(s, es) && ValidRun(Final(s, es), fs)
    ensures ValidRun(s, es + fs)
    ensures Final(s, es + fs) == Final(Final(s, es), fs)
    decreases |es|
  {
    hide Apply;
    if es == [] {
      assert es + fs == fs;
    } else {
      RunAppend(Apply(s, es[0]), es[1..], fs);
      assert (es + fs)[1..] == es[1..] + fs;
    }
  }

  // ---------- The hardware runs what the driver believes it runs ----------

  /** Which ring the CP fetches from, told from the driver's own fields and CNTL. */
  predicate Agrees(s: State) {
    && s.cur < |s.rings| && s.hw.ring < |s.rings|
    && match s.st
       case NONE => s.hw.ring == s.cur && !s.hw.cntl
       case START => s.hw.ring == s.cur && !s.hw.cntl
       case TRIGGERED => s.next.Some? && SwitchAgrees(s)
       case FAULTED => s.next.Some? && SwitchAgrees(s)
       case PENDING => SwitchAgrees(s)
       case COMPLETE => SwitchAgrees(s)
  }

  /** With next_rb set the CP runs cur_rb until CNTL reads zero and next_rb after. */
  predicate SwitchAgrees(s: State) {
    match s.next
    case None => s.hw.ring == s.cur && !s.hw.cntl
    case Some(nx) =>
      nx < |s.rings| && nx != s.cur && s.hw.ring == (if s.hw.cntl then s.cur else nx)
  }

  /** In every reachable state the hardware agrees with the driver and never overruns a ring. */
  lemma HardwareAgrees(s: State, es: seq<Event>)
    requires Initial(s) && ValidRun(s, es)
    ensures var s' := Final(s, es);
      Agrees(s') && s'.hw.rptr <= s'.hw.wptr <= s'.rings[s'.hw.ring].wptr
  {
    InitialInv(s);
    RunKeepsInv(s, es);
    assert ControlOk(Final(s, es));
  }

  /** A submission that writes the register writes it for the ring the CP is running. */
  lemma SubmitWritesItsOwnRing(s: State, es: seq<Event>, r: nat, cmd: Submission)
    requires Initial(s) && ValidRun(s, es)
    requires Enabled(Final(s, es), Submit(r, cmd))
    ensures var s' := Final(s, es); var s'' := Apply(s', Submit(r, cmd));
      && (s''.hw != s'.hw ==> s'.hw.ring == r && s''.hw.wptr == s''.rings[r].wptr)
      && (s'.st == NONE && s'.cur == r ==> s''.hw.wptr == s''.rings[r].wptr)
  {
    InitialInv(s);
    RunKeepsInv(s, es);
    assert ControlOk(Final(s, es));
  }

  // ---------- One FIFO per ring ----------

  lemma {:induction false} SequentialPrefix(d: PageTable, subs: seq<Submission>, k: nat)
    requires k <= |subs|
    ensures Sequential(d, subs)[..k] == Sequential(d, subs[..k])
  {
    if k < |subs| {
      SequentialPrefix(d, subs[..|subs| - 1], k);
      assert subs[..|subs| - 1][..k] == subs[..k];
      assert Sequential(d, subs)[..k] == Sequential(d, subs[..|subs| - 1])[..k];
    } else {
      assert subs[..k] == subs;
    }
  }

  lemma {:induction false} RunKeepsMode(s: State, es: seq<Event>)
    requires ValidRun(s, es)
    ensures SameMode(s, Final(s, es))
    decreases |es|
  {
    hide Apply;
    if es != [] {
      RunKeepsMode(Apply(s, es[0]), es[1..]);
    }
  }

  // ---------- What was submitted, told from the events alone ----------

  /** A submission to ring r adds itself, a restart forgets all, nothing else matters. */
  function GiveOne(r: nat, e: Event, before: seq<Submission>): seq<Submission> {
    match e
    case Submit(q, cmd) => if q == r then before + [cmd] else before
    case Restart(_) => []
    case _ => before
  }

  /** The submissions given to ring r, in order, since the last restart; `before` came first. */
  function Given(r: nat, es: seq<Event>, before: seq<Submission>): seq<Submission>
    decreases |es|
  {
    if es == [] then before else Given(r, es[1..], GiveOne(r, es[0], before))
  }

  lemma {:induction false} GivenAppend(r: nat, es: seq<Event>, fs: seq<Event>, before: seq<Submission>)
    ensures Given(r, es + fs, before) == Given(r, fs, Given(r, es, before))
    decreases |es|
  {
    hide GiveOne;
    if es == [] {
      assert es + fs == fs;
    } else {
      assert (es + fs)[1..] == es[1..] + fs && (es + fs)[0] == es[0];
      GivenAppend(r, es[1..], fs, GiveOne(r, es[0], before));
    }
  }

  lemma AdvanceKeepsSubmitted(s: State, t: nat, awake: bool, r: nat)
    requires t < |s.pcs| && s.cur < |s.rings| && r < |s.rings|
    ensures Advance(s, t, awake).rings[r].submitted == s.rings[r].submitted
  {
    var s' := Advance(s, t, awake);
    if InTrigger(s.pcs[t]) {
      assert s' == TriggerStep(s, t);
      assert s.pcs[t].Prepare? || s'.rings == s.rings;
    }
  }

  /** A submission appends itself to its own ring, a restart empties all, nothing else matters. */
  lemma StepSubmits(s: State, e: Event, r: nat)
    requires Enabled(s, e) && r < |s.rings|
    ensures Apply(s, e).rings[r].submitted == GiveOne(r, e, s.rings[r].submitted)
  {
    if e.Continue? {
      AdvanceKeepsSubmitted(s, e.t, e.awake, r);
    }
  }

  /** Every ring holds exactly what the run gave it. */
  lemma {:induction false} RingsHoldWhatWasGiven(s: State, es: seq<Event>, r: nat)
    requires ValidRun(s, es) && r < |s.rings|
    ensures |Final(s, es).rings| == |s.rings|
    ensures Final(s, es).rings[r].submitted == Given(r, es, s.rings[r].submitted)
    decreases |es|
  {
    hide Apply, Enabled;
    if es != [] {
      StepSubmits(s, es[0], r);
      RingsHoldWhatWasGiven(Apply(s, es[0]), es[1..], r);
    }
  }

  /**
   The list was run from its start, one by one, and each entry under the last page table switched
   to up to and including it, or the default if there was none.
   */
  predicate RanInOrder(d: PageTable, subs: seq<Submission>, executed: seq<Exec>) {
    && |executed| <= |subs|
    && (forall k :: 0 <= k < |executed| ==> executed[k].cmd == subs[k])
    && (forall k, j :: 0 <= j <= k < |executed| && subs[j].tableSwitch.Some?
                       && (forall i :: j < i <= k ==> subs[i].tableSwitch == None)
                       ==> executed[k].table == subs[j].tableSwitch.value)
    && (forall k :: 0 <= k < |executed| && (forall i :: 0 <= i <= k ==> subs[i].tableSwitch == None)
                    ==> executed[k].table == d)
  }

  lemma {:induction false} TableOfLastSwitch(d: PageTable, subs: seq<Submission>)
    ensures forall j :: 0 <= j < |subs| && subs[j].tableSwitch.Some?
                        && (forall i :: j < i < |subs| ==> subs[i].tableSwitch == None)
                        ==> TableAfter(d, subs) == subs[j].tableSwitch.value
    ensures (forall i :: 0 <= i < |subs| ==> subs[i].tableSwitch == None) ==> TableAfter(d, subs) == d
  {
    if subs != [] {
      TableOfLastSwitch(d, subs[..|subs| - 1]);
    }
  }

  lemma {:induction false} SequentialAt(d: PageTable, subs: seq<Submission>, k: nat)
    requires k < |subs|
    ensures Sequential(d, subs)[k] == Exec(subs[k], TableAfter(d, subs[..k + 1]))
  {
    if k < |subs| - 1 {
      SequentialAt(d, subs[..|subs| - 1], k);
      assert subs[..|subs| - 1][..k + 1] == subs[..k + 1];
    } else {
      assert subs[..k + 1] == subs;
    }
  }

  lemma PrefixRanInOrder(d: PageTable, subs: seq<Submission>, executed: seq<Exec>)
    requires executed <= Sequential(d, subs)
    ensures RanInOrder(d, subs, executed)
  {
    forall k | 0 <= k < |executed| ensures executed[k] == Exec(subs[k], TableAfter(d, subs[..k + 1])) {
      SequentialAt(d, subs, k);
    }
    hide Sequential, TableAfter;
    forall k, j | 0 <= j <= k < |executed| && subs[j].tableSwitch.Some?
                  && (forall i :: j < i <= k ==> subs[i].tableSwitch == None)
      ensures executed[k].table == subs[j].tableSwitch.value
    {
      TableOfLastSwitch(d, subs[..k + 1]);
      assert subs[..k + 1][j] == subs[j];
    }
    forall k | 0 <= k < |executed| && (forall i :: 0 <= i <= k ==> subs[i].tableSwitch == None)
      ensures executed[k].table == d
    {
      TableOfLastSwitch(d, subs[..k + 1]);
    }
  }

  /**
   The multi-ring machine refines one FIFO per ring: a ring holds exactly the submissions the run
   gave it, and what the CP ran from it, and the page table it ran each submission under, is a
   prefix of what a lone ring given that list would do.
   */
  lemma FifoPerRing(s: State, es: seq<Event>, r: nat)
    requires Initial(s) && ValidRun(s, es) && r < |s.rings|
    ensures |Final(s, es).rings| == |s.rings|
    ensures var ring := Final(s, es).rings[r]; var given := Given(r, es, []);
      && ring.submitted == given && ring.wptr == |given|
      && ring.executed <= Sequential(s.defaultTable, given)
      && RanInOrder(s.defaultTable, given, ring.executed)
  {
    InitialInv(s);
    RunKeepsInv(s, es);
    RunKeepsMode(s, es);
    RingsHoldWhatWasGiven(s, es, r);
    var s' := Final(s, es);
    assert RingOk(s', r);
    assert s.rings[r] == FreshRing(s.defaultTable);
    SequentialPrefix(s'.defaultTable, s'.rings[r].submitted, |s'.rings[r].executed|);
    PrefixRanInOrder(s'.defaultTable, s'.rings[r].submitted, s'.rings[r].executed);
  }

  /**
   The table in force, the running ring's scratch slot and, once a switch is triggered, the
   SMMU info block are the tables their rings last switched to, or the default.
   */
  lemma PageTablesAgree(s: State, es: seq<Event>)
    requires Initial(s) && ValidRun(s, es) && s.perProcess
    ensures var s' := Final(s, es); var d := s'.defaultTable;
      && s'.hw.ring < |s'.rings|
      && s'.hw.rptr <= |s'.rings[s'.hw.ring].submitted|
      && s'.hw.table == TableAfter(d, s'.rings[s'.hw.ring].submitted[..s'.hw.rptr])
      && s'.rings[s'.hw.ring].table == s'.hw.table
      && (s'.hw.cntl ==>
           && s'.next.Some? && s'.next.value < |s'.rings|
           && s'.rings[s'.next.value].rptr <= |s'.rings[s'.next.value].submitted|
           && s'.smmu == TableAfter(d, s'.rings[s'.next.value].submitted[..s'.rings[s'.next.value].rptr]))
  {
    InitialInv(s);
    RunKeepsInv(s, es);
    RunKeepsMode(s, es);
    var s' := Final(s, es);
    assert RingOk(s', s'.hw.ring);
    if s'.hw.cntl {
      assert RingOk(s', s'.next.value);
    }
  }

  /** Every switch saves the outgoing ring's pointers in that ring's own record. */
  lemma SwitchSavesTheOutgoingRing(s: State, es: seq<Event>)
    requires Initial(s) && ValidRun(s, es) && Enabled(Final(s, es), CompleteSwitch)
    ensures var s' := Final(s, es); var s'' := Apply(s', CompleteSwitch);
      && s'.hw.ring < |s'.rings| && |s''.rings| == |s'.rings|
      && s''.rings[s'.hw.ring].record == Record(s'.hw.rptr, s'.hw.wptr)
      && s''.hw.ring != s'.hw.ring && s'.next == Some(s''.hw.ring)
      && (forall r :: 0 <= r < |s'.rings| && r != s'.hw.ring ==> s''.rings[r] == s'.rings[r])
  {
    InitialInv(s);
    RunKeepsInv(s, es);
  }

  /** While CNTL is set the CP can always either reach a yield or switch: it never wedges. */
  lemma PendingSwitchNeverWedges(s: State, es: seq<Event>)
    requires Initial(s) && ValidRun(s, es) && Final(s, es).hw.cntl
    ensures Enabled(Final(s, es), Execute) || Enabled(Final(s, es), CompleteSwitch)
  {
    InitialInv(s);
    RunKeepsInv(s, es);
    var s' := Final(s, es);
    assert RingOk(s', s'.hw.ring);
  }

  // ---------- Ownership: every triggered preemption is completed at most once ----------

  /** START and PENDING have exactly one owner; the two places that swap exclude each other. */
  lemma OneOwner(s: State, es: seq<Event>)
    requires Initial(s) && ValidRun(s, es)
    ensures var s' := Final(s, es);
      && (s'.st == START <==> exists t :: 0 <= t < |s'.pcs| && InTrigger(s'.pcs[t]))
      && (s'.st == PENDING <==> exists t :: 0 <= t < |s'.pcs| && InCallback(s'.pcs[t]))
      && (forall t, u :: 0 <= t < |s'.pcs| && 0 <= u < |s'.pcs|
           && (InTrigger(s'.pcs[t]) || InCallback(s'.pcs[t]))
           && (InTrigger(s'.pcs[u]) || InCallback(s'.pcs[u]))
           ==> t == u)
      && (forall t, u :: 0 <= t < |s'.pcs| && 0 <= u < |s'.pcs|
           && AtSwap(s'.pcs[t]) && AtSwap(s'.pcs[u])
           ==> t == u)
  {
    InitialInv(s);
    RunKeepsInv(s, es);
    var s' := Final(s, es);
    forall t | 0 <= t < |s'.pcs|
      ensures (InTrigger(s'.pcs[t]) ==> s'.st == START && s'.owner == t)
              && (InCallback(s'.pcs[t]) ==> s'.st == PENDING && s'.owner == t)
              && (UnderMutex(s'.pcs[t]) ==> s'.mutex == t)
              && (s'.pcs[t].DoneSwap? ==> s'.st == COMPLETE)
    {
      assert PlaceOk(s', t);
    }
  }

  predicate AtSwap(pc: Pc) { pc.CbSwap? || pc.DoneSwap? }

  function One(b: bool): nat { if b then 1 else 0 }

  /** The step stores TRIGGERED and starts the hardware. */
  predicate Fires(s: State, e: Event) {
    e.Continue? && e.t < |s.pcs| && s.pcs[e.t].Fire?
  }

  /** The step makes next_rb the current ring. */
  predicate Swaps(s: State, e: Event) {
    e.Continue? && e.t < |s.pcs| && AtSwap(s.pcs[e.t])
  }

  predicate NoRestart(es: seq<Event>) {
    forall i :: 0 <= i < |es| ==> !es[i].Restart?
  }

  function CountFires(s: State, es: seq<Event>): nat
    requires ValidRun(s, es)
    decreases |es|
  {
    if es == [] then 0 else One(Fires(s, es[0])) + CountFires(Apply(s, es[0]), es[1..])
  }

  function CountSwaps(s: State, es: seq<Event>): nat
    requires ValidRun(s, es)
    decreases |es|
  {
    if es == [] then 0 else One(Swaps(s, es[0])) + CountSwaps(Apply(s, es[0]), es[1..])
  }

  function CountSwitches(s: State, es: seq<Event>): nat
    requires ValidRun(s, es)
    decreases |es|
  {
    if es == [] then 0 else One(es[0].CompleteSwitch?) + CountSwitches(Apply(s, es[0]), es[1..])
  }

  lemma ContinueBalances(s: State, t: nat, awake: bool)
    requires Inv(s) && t < |s.pcs|
    ensures var s' := Advance(s, t, awake);
      && One(s'.inFlight) + One(AtSwap(s.pcs[t])) == One(s.inFlight) + One(s.pcs[t].Fire?)
      && One(s'.hw.cntl) == One(s.hw.cntl) + One(s.pcs[t].Fire?)
  {
    assert PlaceOk(s, t);
    var pc := s.pcs[t];
    if pc == TryTrigger {
      assert Advance(s, t, awake) == TryTriggerStep(s, t);
    } else if InTrigger(pc) {
      assert Advance(s, t, awake) == TriggerStep(s, t);
    } else if InCallback(pc) {
      assert Advance(s, t, awake) == CallbackStep(s, t);
    } else if UnderMutex(pc) {
      assert Advance(s, t, awake) == MutexStep(s, t, awake);
    }
  }

  lemma StepBalances(s: State, e: Event)
    requires Inv(s) && Enabled(s, e) && !e.Restart?
    ensures var s' := Apply(s, e);
      && One(s'.inFlight) + One(Swaps(s, e)) == One(s.inFlight) + One(Fires(s, e))
      && One(s'.hw.cntl) + One(e.CompleteSwitch?) == One(s.hw.cntl) + One(Fires(s, e))
  {
    if e.Continue? {
      ContinueBalances(s, e.t, e.awake);
    }
  }

  /**
   Between restarts, triggers, hardware switches and swaps of cur_rb alternate: what was fired
   is what was swapped plus the one in flight, and what the hardware has still to do is CNTL.
   */
  lemma {:induction false} TriggersBalance(s: State, es: seq<Event>)
    requires Inv(s) && ValidRun(s, es) && NoRestart(es)
    ensures var s' := Final(s, es);
      && CountSwaps(s, es) + One(s'.inFlight) == CountFires(s, es) + One(s.inFlight)
      && CountSwitches(s, es) + One(s'.hw.cntl) == CountFires(s, es) + One(s.hw.cntl)
      && One(s'.hw.cntl) <= One(s'.inFlight)
    decreases |es|
  {
    hide Apply;
    if es != [] {
      StepBalances(s, es[0]);
      StepKeepsInv(s, es[0]);
      TriggersBalance(Apply(s, es[0]), es[1..]);
    }
  }

  /** From a fresh start, nothing is swapped that was not fired and switched by the hardware. */
  lemma CompletedAtMostOnce(s: State, es: seq<Event>)
    requires Initial(s) && ValidRun(s, es) && NoRestart(es)
    ensures CountSwaps(s, es) <= CountSwitches(s, es) <= CountFires(s, es) <= CountSwaps(s, es) + 1
  {
    hide Apply;
    InitialInv(s);
    TriggersBalance(s, es);
  }

  // ---------- Limits of the protocol ----------

  /** TRIGGERED has been stored but CNTL has not been written yet. */
  function HalfFire(s: State, t: nat): State
    requires t < |s.pcs|
  {
    Finish(s, t).(st := TRIGGERED, owner := NOBODY, inFlight := true)
  }

  /**
   Why firing has to be one step: a CP_SW interrupt delivered between the two stores makes the
   callback swap rings although the CP has not switched, from every state about to fire.
   */
  lemma InterruptInsideFireBreaksAgreement(s: State, t: nat)
    requires Inv(s) && t < |s.pcs| && s.pcs[t].Fire?
    ensures var h := HalfFire(s, t);
      var es := [BeginCallback(t)] + ([Continue(t, true)] + [Continue(t, true)]);
      ValidRun(h, es) && Final(h, es).cur != Final(h, es).hw.ring
  {
    assert PlaceOk(s, t);
    var h := HalfFire(s, t);
    var h1 := Apply(h, BeginCallback(t));
    var h2 := CallbackStep(h1, t);
    RunOne(h2, Continue(t, true));
    RunCons(h1, Continue(t, true), [Continue(t, true)]);
    RunCons(h, BeginCallback(t), [Continue(t, true)] + [Continue(t, true)]);
  }
}
