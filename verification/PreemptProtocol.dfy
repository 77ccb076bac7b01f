/**
 The ring-buffer preemption protocol of the A5xx driver as a state machine.

 One step of the machine is one atomic action of the driver or of the command
 processor (CP): a compare-and-exchange or a store of the preemption state, one
 region under a ring's `preempt_lock`, one register access that matters to the
 protocol, or one action of the hardware. Any number of threads run the driver's
 entry points concurrently; each has a program counter.

 Assumptions about the environment, all of them visible in `Apply`:
  - the critical section of a submission is one step;
  - storing TRIGGERED and writing CONTEXT_SWITCH_CNTL is one step (`Fire`);
  - a CP_SW interrupt may be delivered at any other time, requested or not;
  - the CP saves rptr/wptr to the record named by its save address and loads them
    from the record named by its restore address;
  - the CP switches only at the yield that ends a submission.

 Positions in a ring are counted in submissions since the last restart.
 */
module PreemptProtocol {
  import opened Basics

  const NOBODY: int := -1

  /** What a ring's scratch slot and the SMMU info block hold: TTBR0 and CONTEXTIDR. */
  datatype PageTable = PageTable(ttbr0: nat, contextidr: nat)

  /** One submission; a context switch submission may carry a page-table update. */
  datatype Submission = Submission(id: nat, tableSwitch: Option<PageTable>)

  /** A submission the CP has run, with the page table that was in force. */
  datatype Exec = Exec(cmd: Submission, table: PageTable)

  /** The rptr and wptr words of a ring's preemption record. */
  datatype Record = Record(rptr: nat, wptr: nat)

  datatype Ring = Ring(
    submitted: seq<Submission>,  // the ring's contents
    wptr: nat,                   // rb->wptr
    executed: seq<Exec>,         // history: what the CP ran from this ring
    rptr: nat,                   // the rptr shadow in the scratch page
    table: PageTable,            // ttbr0/contextidr of the ring's scratch slot
    record: Record)              // preemption_desc

  datatype Hardware = Hardware(
    ring: nat,         // the ring the CP is fetching from
    rptr: nat,
    wptr: nat,         // CP_RB_WPTR
    table: PageTable,  // the page table in force
    saveAddr: nat,     // ring whose record CONTEXT_SWITCH_SAVE_ADDR points to
    restoreAddr: nat,  // ring whose record CONTEXT_SWITCH_RESTORE_ADDR points to
    cntl: bool,        // CONTEXT_SWITCH_CNTL is non-zero
    atYield: bool)     // the CP has passed a yield since it was switched in

  datatype PreemptState =
    | NONE | START | TRIGGERED | FAULTED | PENDING | COMPLETE

  /** Where a driver thread is. */
  datatype Pc =
    | Idle
    // a5xx_preemption_trigger
    | TryTrigger                                // about to move NONE to START
    | Scan(i: nat)                              // rings below i were seen empty
    | Rescue                                    // _update_wptr(false)
    | Release                                   // about to store NONE
    | Prepare(next: nat)                        // section under next->preempt_lock
    | Program(next: nat, table: PageTable)      // smmu_info, restore address, next_rb
    | Fire                                      // TRIGGERED and CNTL = 1
    // a5xx_preempt_callback
    | CbCheck | CbGiveUp | CbSwap | CbWptr | CbRelease
    // a5xx_preemption_schedule and _a5xx_preemption_done
    | SchedCheck | DoneCheck | DoneSwap | DoneWptr | DoneRelease
    // _a5xx_preemption_worker and _a5xx_preemption_fault
    | FaultCheck | FaultRead | FaultComplete

  datatype State = State(
    perProcess: bool,          // kgsl_mmu_is_perprocess
    defaultTable: PageTable,   // the default page table, context 0
    st: PreemptState,
    cur: nat,
    next: Option<nat>,
    prev: nat,
    rings: seq<Ring>,
    smmu: PageTable,           // iommu->smmu_info
    faultQueued: bool,         // adreno_scheduler_fault was called
    hw: Hardware,
    mutex: int,                // holder of device->mutex, or NOBODY
    pcs: seq<Pc>,
    owner: int,                // history: thread that moved the state to START or PENDING
    inFlight: bool)            // history: triggered and not yet swapped

  datatype Event =
    | BeginTrigger(t: nat)     // a CACHE_FLUSH_TS interrupt
    | BeginCallback(t: nat)    // a CP_SW interrupt
    | BeginSchedule(t: nat)
    | BeginFaultWork(t: nat)
    | Continue(t: nat, awake: bool)
    | TimerFires
    | Submit(r: nat, cmd: Submission)
    | Execute
    | CompleteSwitch
    | Restart(r: nat)

  // ---------- Sequential meaning of one ring ----------

  /** The page table in force after running `subs` in order from `d`. */
  function TableAfter(d: PageTable, subs: seq<Submission>): PageTable {
    if subs == [] then d
    else match subs[|subs| - 1].tableSwitch
         case Some(table) => table
         case None => TableAfter(d, subs[..|subs| - 1])
  }

  /** What a single ring, never preempted, would execute. */
  function Sequential(d: PageTable, subs: seq<Submission>): (es: seq<Exec>)
    ensures |es| == |subs|
  {
    if subs == [] then []
    else Sequential(d, subs[..|subs| - 1]) + [Exec(subs[|subs| - 1], TableAfter(d, subs))]
  }

  predicate NoSwitches(subs: seq<Submission>) {
    forall i :: 0 <= i < |subs| ==> subs[i].tableSwitch == None
  }

  // ---------- Steps ----------

  /** Steps never change the configuration: page-table mode, rings and threads. */
  predicate SameMode(s: State, s': State) {
    && s'.perProcess == s.perProcess && s'.defaultTable == s.defaultTable
    && |s'.rings| == |s.rings| && |s'.pcs| == |s.pcs|
  }

  predicate IsEmpty(ring: Ring) { ring.rptr == ring.wptr }

  function SetPc(s: State, t: nat, pc: Pc): State
    requires t < |s.pcs|
  {
    s.(pcs := s.pcs[t := pc])
  }

  /** The thread returns to its caller, dropping the device mutex if it holds it. */
  function Finish(s: State, t: nat): State
    requires t < |s.pcs|
  {
    if s.mutex == t then s.(pcs := s.pcs[t := Idle], mutex := NOBODY)
    else s.(pcs := s.pcs[t := Idle])
  }

  /** prev_rb = cur_rb; cur_rb = next_rb; next_rb = NULL. */
  function Swap(s: State): State {
    s.(prev := s.cur,
       cur := if s.next.Some? && s.next.value < |s.rings| then s.next.value else s.cur,
       next := None,
       inFlight := false)
  }

  /** The register write of _update_wptr for the current ring. */
  function UpdateWptr(s: State): State
    requires s.cur < |s.rings|
  {
    if s.hw.wptr != s.rings[s.cur].wptr then s.(hw := s.hw.(wptr := s.rings[s.cur].wptr)) else s
  }

  predicate InTrigger(pc: Pc) {
    pc.Scan? || pc.Rescue? || pc.Release? || pc.Prepare? || pc.Program? || pc.Fire?
  }

  predicate InCallback(pc: Pc) {
    pc.CbCheck? || pc.CbGiveUp? || pc.CbSwap? || pc.CbWptr? || pc.CbRelease?
  }

  predicate UnderMutex(pc: Pc) {
    || pc.SchedCheck? || pc.DoneCheck? || pc.DoneSwap? || pc.DoneWptr? || pc.DoneRelease?
    || pc.FaultCheck? || pc.FaultRead? || pc.FaultComplete?
  }

  /** The compare-and-exchange that opens a trigger. */
  function TryTriggerStep(s: State, t: nat): (s': State)
    requires t < |s.pcs|
    ensures SameMode(s, s')
  {
    if s.st == NONE then s.(pcs := s.pcs[t := Scan(0)], st := START, owner := t)
    else Finish(s, t)
  }

  /** a5xx_preemption_trigger after it has moved the state to START. */
  function TriggerStep(s: State, t: nat): (s': State)
    requires t < |s.pcs| && InTrigger(s.pcs[t]) && s.cur < |s.rings|
    ensures SameMode(s, s') && s'.cur < |s'.rings|
  {
    match s.pcs[t]
    case Scan(i) =>
      if i >= |s.rings| then SetPc(s, t, Release)
      else if IsEmpty(s.rings[i]) then SetPc(s, t, Scan(i + 1))
      else if i == s.cur then SetPc(s, t, Rescue)
      else SetPc(s, t, Prepare(i))
    case Rescue => SetPc(UpdateWptr(s), t, Release)
    case Release => Finish(s, t).(st := NONE, owner := NOBODY)
    case Prepare(nx) =>
      if nx >= |s.rings| then SetPc(s, t, Release)
      else
        var ring := s.rings[nx];
        s.(pcs := s.pcs[t := Program(nx, ring.table)],
           rings := s.rings[nx := ring.(record := ring.record.(wptr := ring.wptr))])
    case Program(nx, table) =>
      s.(pcs := s.pcs[t := Fire],
         smmu := if s.perProcess then table else s.smmu,
         hw := s.hw.(restoreAddr := nx),
         next := Some(nx))
    case Fire =>
      Finish(s, t).(st := TRIGGERED, owner := NOBODY, inFlight := true, hw := s.hw.(cntl := true))
  }

  /** a5xx_preempt_callback after it has moved the state to PENDING. */
  function CallbackStep(s: State, t: nat): (s': State)
    requires t < |s.pcs| && InCallback(s.pcs[t]) && s.cur < |s.rings|
    ensures SameMode(s, s') && s'.cur < |s'.rings|
  {
    match s.pcs[t]
    case CbCheck => SetPc(s, t, if s.hw.cntl then CbGiveUp else CbSwap)
    case CbGiveUp => Finish(s, t).(st := COMPLETE, owner := NOBODY)
    case CbSwap => SetPc(Swap(s), t, CbWptr)
    case CbWptr => SetPc(UpdateWptr(s), t, CbRelease)
    case CbRelease => s.(pcs := s.pcs[t := TryTrigger], st := NONE, owner := NOBODY)
  }

  /** The scheduler and the fault worker, which run under the device mutex. */
  function MutexStep(s: State, t: nat, awake: bool): (s': State)
    requires t < |s.pcs| && UnderMutex(s.pcs[t]) && s.cur < |s.rings|
    ensures SameMode(s, s') && s'.cur < |s'.rings|
  {
    match s.pcs[t]
    case SchedCheck => SetPc(s, t, if s.st == COMPLETE then DoneCheck else TryTrigger)
    case DoneCheck =>
      if !awake then SetPc(s, t, TryTrigger)
      else if s.hw.cntl then s.(pcs := s.pcs[t := TryTrigger], faultQueued := true)
      else SetPc(s, t, DoneSwap)
    case DoneSwap => SetPc(Swap(s), t, DoneWptr)
    case DoneWptr => SetPc(UpdateWptr(s), t, DoneRelease)
    case DoneRelease => s.(pcs := s.pcs[t := TryTrigger], st := NONE)
    case FaultCheck => if s.st == FAULTED then SetPc(s, t, FaultRead) else Finish(s, t)
    case FaultRead =>
      if awake && !s.hw.cntl then SetPc(s, t, FaultComplete) else Finish(s, t).(faultQueued := true)
    case FaultComplete => Finish(s, t).(st := COMPLETE)
  }

  /** One step of thread t. */
  function Advance(s: State, t: nat, awake: bool): (s': State)
    requires t < |s.pcs| && s.cur < |s.rings|
    ensures SameMode(s, s') && s'.cur < |s'.rings|
  {
    var pc := s.pcs[t];
    if pc == TryTrigger then TryTriggerStep(s, t)
    else if InTrigger(pc) then TriggerStep(s, t)
    else if InCallback(pc) then CallbackStep(s, t)
    else if UnderMutex(pc) then MutexStep(s, t, awake)
    else s
  }

  /** a5xx_ringbuffer_submit: the section under the ring's preempt_lock. */
  function SubmitTo(s: State, r: nat, cmd: Submission): State
    requires r < |s.rings|
  {
    var ring := s.rings[r];
    s.(hw := if s.st == NONE && s.cur == r then s.hw.(wptr := ring.wptr + 1) else s.hw,
       rings := s.rings[r := ring.(submitted := ring.submitted + [cmd], wptr := ring.wptr + 1)])
  }

  /**
   The CP runs the submission at its read pointer. Every submission starts by pointing the
   save address at its own ring's record and ends with a yield; one that switches the page
   table also writes the new table to its ring's scratch slot.
   */
  function ExecuteOne(s: State): State
    requires s.hw.ring < |s.rings| && s.hw.rptr < |s.rings[s.hw.ring].submitted|
  {
    var ring := s.rings[s.hw.ring];
    var cmd := ring.submitted[s.hw.rptr];
    var table := match cmd.tableSwitch case Some(tb) => tb case None => s.hw.table;
    var slot := match cmd.tableSwitch case Some(tb) => tb case None => ring.table;
    s.(hw := s.hw.(rptr := s.hw.rptr + 1, table := table, saveAddr := s.hw.ring, atYield := true),
       rings := s.rings[s.hw.ring :=
         ring.(executed := ring.executed + [Exec(cmd, table)], rptr := s.hw.rptr + 1, table := slot)])
  }

  /** The CP saves the running ring's pointers and loads those of the ring to restore. */
  function SwitchRing(s: State): State
    requires s.hw.saveAddr < |s.rings| && s.hw.restoreAddr < |s.rings|
  {
    var saved := s.rings[s.hw.saveAddr].(record := Record(s.hw.rptr, s.hw.wptr));
    var rings := s.rings[s.hw.saveAddr := saved];
    var record := rings[s.hw.restoreAddr].record;
    s.(rings := rings,
       hw := s.hw.(ring := s.hw.restoreAddr, rptr := record.rptr, wptr := record.wptr,
         table := if s.perProcess then s.smmu else s.hw.table, cntl := false, atYield := false))
  }

  function FreshRing(d: PageTable): Ring { Ring([], 0, [], 0, d, Record(0, 0)) }

  /** A start of the GPU on ring r; next_rb is deliberately left as it was. */
  function RestartOn(s: State, r: nat): State {
    s.(st := NONE, cur := r, prev := s.cur,
       rings := seq(|s.rings|, _ => FreshRing(s.defaultTable)),
       smmu := if s.perProcess then s.defaultTable else s.smmu,
       faultQueued := false,
       hw := s.hw.(ring := r, rptr := 0, wptr := 0, table := s.defaultTable,
         saveAddr := r, cntl := false, atYield := true),
       owner := NOBODY, inFlight := false)
  }

  predicate Resting(s: State) {
    s.mutex == NOBODY && forall t :: 0 <= t < |s.pcs| ==> s.pcs[t] == Idle
  }

  predicate Enabled(s: State, e: Event) {
    match e
    case BeginTrigger(t) => t < |s.pcs| && s.pcs[t] == Idle
    case BeginCallback(t) => t < |s.pcs| && s.pcs[t] == Idle
    case BeginSchedule(t) => t < |s.pcs| && s.pcs[t] == Idle && s.mutex == NOBODY
    case BeginFaultWork(t) => t < |s.pcs| && s.pcs[t] == Idle && s.mutex == NOBODY
    case Continue(t, _) => t < |s.pcs| && s.pcs[t] != Idle && s.cur < |s.rings|
    case TimerFires => true
    case Submit(r, cmd) => r < |s.rings| && (s.perProcess || cmd.tableSwitch == None)
    case Execute =>
      s.hw.ring < |s.rings| && s.hw.rptr < s.hw.wptr <= |s.rings[s.hw.ring].submitted|
    case CompleteSwitch =>
      s.hw.cntl && s.hw.atYield && s.hw.saveAddr < |s.rings| && s.hw.restoreAddr < |s.rings|
    case Restart(r) => r < |s.rings| && Resting(s)
  }

  function Apply(s: State, e: Event): (s': State)
    requires Enabled(s, e)
    ensures SameMode(s, s')
  {
    match e
    case BeginTrigger(t) => SetPc(s, t, TryTrigger)
    case BeginCallback(t) =>
      if s.st == TRIGGERED then SetPc(s, t, CbCheck).(st := PENDING, owner := t) else s
    case BeginSchedule(t) => SetPc(s, t, SchedCheck).(mutex := t)
    case BeginFaultWork(t) => SetPc(s, t, FaultCheck).(mutex := t)
    case Continue(t, awake) => Advance(s, t, awake)
    case TimerFires => if s.st == TRIGGERED then s.(st := FAULTED) else s
    case Submit(r, cmd) => SubmitTo(s, r, cmd)
    case Execute => ExecuteOne(s)
    case CompleteSwitch => SwitchRing(s)
    case Restart(r) => RestartOn(s, r)
  }

  /** A state right after the first start of the GPU. */
  predicate Initial(s: State) {
    && s.cur < |s.rings|
    && s == RestartOn(s, s.cur)
    && s.hw.restoreAddr < |s.rings|
    && s.next == None
    && (!s.perProcess ==> s.smmu == s.defaultTable)
    && Resting(s)
  }
}
