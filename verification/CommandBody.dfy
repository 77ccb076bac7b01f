/**
 The command body a5xx_ringbuffer_submitcmd builds from a list of indirect buffers (IBs), and
 what the CP does when it runs it.
 */
module CommandBody {
  import opened Basics
  import opened Pm4
  import opened Pm4Machine
  import opened Pm4Commands
  import opened Pm4Emit
  import opened Pm4Meaning

  const START_IB_IDENTIFIER: u32 := 0x2EAD_EABE
  const END_IB_IDENTIFIER: u32 := 0x2ABE_DEAD
  const COMMAND_DWORDS := 32
  const ALWAYSON_COUNTER_LO := 0x4D2
  const REV_A530 := 530
  const IB_SIZE_MASK := 0xF_FFFF

  // ---------- Checking an IB ----------

  /** A node of the command list. */
  datatype IbNode = IbNode(gpuaddr: u64, size: u64, skip: bool, preamble: bool)

  /** A range of GPU addresses. */
  datatype Window = Window(start: u64, end: u64)

  /** The windows of a page table: its own, the 32-bit one and the shared-memory one. */
  datatype Space = Space(va: Window, compat: Window, svm: Window)

  predicate Inside(w: Window, start: nat, end: nat) { w.start <= start && end <= w.end }

  /** kgsl_iommu_addr_in_range; the sum is the kernel's 64-bit one. */
  predicate InRange(space: Space, gpuaddr: u64, size: u64) {
    var end := (gpuaddr + size) % 0x1_0000_0000_0000_0000;
    && gpuaddr != 0 && end >= gpuaddr
    && (Inside(space.va, gpuaddr, end) || Inside(space.compat, gpuaddr, end) || Inside(space.svm, gpuaddr, end))
  }

  /** _verify_ib */
  predicate VerifyIb(space: Space, ib: IbNode) {
    && ib.size != 0 && ib.size / 4 <= IB_SIZE_MASK
    && InRange(space, ib.gpuaddr, ib.size) && ib.gpuaddr % 4 == 0
  }

  /** [start, start + size) lies in one of the windows, as unbounded numbers. */
  predicate Covered(space: Space, start: nat, size: nat) {
    || (space.va.start <= start && start + size <= space.va.end)
    || (space.compat.start <= start && start + size <= space.compat.end)
    || (space.svm.start <= start && start + size <= space.svm.end)
  }

  /** The 64-bit check accepts a word-aligned, non-empty IB of at most 0xFFFFF words inside a window. */
  lemma VerifyIbIs(space: Space, ib: IbNode)
    ensures VerifyIb(space, ib) <==>
      && 0 < ib.size < 4 * 0x10_0000 && ib.gpuaddr != 0 && ib.gpuaddr % 4 == 0
      && ib.gpuaddr + ib.size < TWO_64 && Covered(space, ib.gpuaddr, ib.size)
  {
    assert ib.gpuaddr + ib.size < TWO_64 ==> (ib.gpuaddr + ib.size) % TWO_64 == ib.gpuaddr + ib.size;
    assert ib.gpuaddr + ib.size >= TWO_64 ==> (ib.gpuaddr + ib.size) % TWO_64 == ib.gpuaddr + ib.size - TWO_64;
  }

  /** adreno_verify_cmdobj over one command's list: the first bad IB rejects it. */
  method VerifyIbs(space: Space, ibs: seq<IbNode>) returns (ok: bool)
    ensures ok <==> forall i :: 0 <= i < |ibs| ==>
      && 0 < ibs[i].size < 4 * 0x10_0000 && ibs[i].gpuaddr != 0 && ibs[i].gpuaddr % 4 == 0
      && ibs[i].gpuaddr + ibs[i].size < TWO_64 && Covered(space, ibs[i].gpuaddr, ibs[i].size)
  {
    var i := 0;
    while i < |ibs|
      invariant 0 <= i <= |ibs|
      invariant forall j :: 0 <= j < i ==> VerifyIb(space, ibs[j])
    {
      VerifyIbIs(space, ibs[i]);
      if !VerifyIb(space, ibs[i]) {
        return false;
      }
      i := i + 1;
    }
    forall j | 0 <= j < |ibs| {
      VerifyIbIs(space, ibs[j]);
    }
    ok := true;
  }

  /** The dword count put in the call: (size >> 2) & 0xfffff. */
  function IbDwords(ib: IbNode): u32 { ib.size / 4 % (IB_SIZE_MASK + 1) }

  /** The mask loses nothing exactly when the size passes the size check of _verify_ib. */
  lemma MaskIsLossless(ib: IbNode)
    ensures IbDwords(ib) == ib.size / 4 <==> ib.size / 4 <= IB_SIZE_MASK
  {
  }

  /** What the CP fetches for an accepted IB: all its whole words, inside one window, no wrap. */
  lemma VerifiedIbStaysInside(space: Space, ib: IbNode)
    requires VerifyIb(space, ib)
    ensures ib.size - 3 <= 4 * IbDwords(ib) <= ib.size
    ensures Inside(space.va, ib.gpuaddr, ib.gpuaddr + 4 * IbDwords(ib))
            || Inside(space.compat, ib.gpuaddr, ib.gpuaddr + 4 * IbDwords(ib))
            || Inside(space.svm, ib.gpuaddr, ib.gpuaddr + 4 * IbDwords(ib))
  {
    var end := (ib.gpuaddr + ib.size) % 0x1_0000_0000_0000_0000;
    assert end == ib.gpuaddr + ib.size;
  }

  // ---------- The body ----------

  datatype Command = Command(
    ibs: seq<IbNode>,
    skipAll: bool, kernelProfile: bool, userProfile: bool, wantPreamble: bool,  // flags
    kernelStarted: u64, kernelRetired: u64,  // entries of the kernel's profile buffer
    userBuffer: u64)                         // the user's profiling buffer

  /** Reads the always-on counter into memory; later parts have to be told to read 64 bits. */
  function AlwaysOn(rev: nat, target: u64): Packet {
    Pkt7(CP_REG_TO_MEM,
         [if rev > REV_A530 then ALWAYSON_COUNTER_LO + 0x4000_0000 + 0x8_0000 else ALWAYSON_COUNTER_LO,
          Lo(target), Hi(target)])
  }

  /** An IB that must not run: marked so, or a preamble nobody asked for. */
  predicate Skipped(c: Command, ib: IbNode) { ib.skip || (ib.preamble && !c.wantPreamble) }

  function CallOf(ib: IbNode): Packet { Call(Ib(ib.gpuaddr, IbDwords(ib))) }

  /** A skipped IB's call becomes the payload of a NOP. */
  function IbPacket(c: Command, ib: IbNode): (p: Packet)
    ensures Fits(p)
  {
    if Skipped(c, ib) then Pkt7(CP_NOP, Encode(CallOf(ib))) else CallOf(ib)
  }

  function IbPackets(c: Command, ibs: seq<IbNode>): seq<Packet> {
    if ibs == [] then [] else [IbPacket(c, ibs[0])] + IbPackets(c, ibs[1..])
  }

  /** The IBs of a submission; none are looked at when everything is skipped. */
  function Listed(c: Command): seq<IbNode> { if c.skipAll then [] else c.ibs }

  /** `first` is the user-profiling IB of the start, if any. */
  function BodyHead(c: Command, rev: nat, first: Option<Ib>): seq<Packet> {
    [Nop(START_IB_IDENTIFIER)] + If(c.kernelProfile, AlwaysOn(rev, c.kernelStarted)) + CallIfAny(first)
    + IbPackets(c, Listed(c))
  }

  /** `last` is the user-profiling IB of the end, if any. */
  function BodyTail(c: Command, rev: nat, last: Option<Ib>): seq<Packet> {
    [Pkt7(CP_SET_RENDER_MODE, [0, 0, 0, 0, 0]), Pkt7(CP_YIELD_ENABLE, [1])]
    + If(c.kernelProfile, AlwaysOn(rev, c.kernelRetired)) + CallIfAny(last) + [Nop(END_IB_IDENTIFIER)]
  }

  function BodyPackets(c: Command, rev: nat, first: Option<Ib>, last: Option<Ib>): seq<Packet> {
    BodyHead(c, rev, first) + BodyTail(c, rev, last)
  }

  /** The calls the user asked for: unskipped IBs in list order, with their own address and size. */
  function WantedCalls(c: Command, ibs: seq<IbNode>): seq<Effect> {
    if ibs == [] then []
    else (if Skipped(c, ibs[0]) then [] else [CallIb(ibs[0].gpuaddr, IbDwords(ibs[0]))]) + WantedCalls(c, ibs[1..])
  }

  /** `picks` lists, in increasing order, the nodes that are to run, and no other node. */
  ghost predicate PicksWanted(c: Command, picks: seq<nat>) {
    && (forall j, k :: 0 <= j < k < |picks| ==> picks[j] < picks[k])
    && (forall k :: 0 <= k < |picks| ==> picks[k] < |c.ibs|)
    && (forall i :: 0 <= i < |c.ibs| ==>
          (i in picks <==> !c.skipAll && !c.ibs[i].skip && (!c.ibs[i].preamble || c.wantPreamble)))
  }

  /** A call of each picked node: its address, and its size in words in the twenty bits of the packet. */
  ghost function CallPicked(c: Command, picks: seq<nat>): seq<Effect>
    requires forall k :: 0 <= k < |picks| ==> picks[k] < |c.ibs|
  {
    seq(|picks|, k requires 0 <= k < |picks| => CallIb(c.ibs[picks[k]].gpuaddr, c.ibs[picks[k]].size / 4 % 0x10_0000))
  }

  predicate Wanted(c: Command, ib: IbNode) { !ib.skip && (!ib.preamble || c.wantPreamble) }

  /** The wanted nodes at or after `from`. */
  ghost predicate PicksAfter(c: Command, from: nat, picks: seq<nat>) {
    && (forall j, k :: 0 <= j < k < |picks| ==> picks[j] < picks[k])
    && (forall k :: 0 <= k < |picks| ==> from <= picks[k] < |c.ibs|)
    && (forall i :: from <= i < |c.ibs| ==> (i in picks <==> Wanted(c, c.ibs[i])))
  }

  lemma PicksCons(c: Command, i: nat, later: seq<nat>)
    requires i < |c.ibs| && PicksAfter(c, i + 1, later)
    ensures Wanted(c, c.ibs[i]) ==> PicksAfter(c, i, [i] + later)
    ensures !Wanted(c, c.ibs[i]) ==> PicksAfter(c, i, later)
  {
    hide Wanted;
    var picks := [i] + later;
    assert i in picks && (forall j :: j in later ==> j in picks);
  }

  lemma CallPickedCons(c: Command, i: nat, later: seq<nat>)
    requires i < |c.ibs| && forall k :: 0 <= k < |later| ==> later[k] < |c.ibs|
    ensures CallPicked(c, [i] + later) == [CallIb(c.ibs[i].gpuaddr, c.ibs[i].size / 4 % 0x10_0000)] + CallPicked(c, later)
  {
  }

  lemma {:induction false} PicksFrom(c: Command, i: nat) returns (picks: seq<nat>)
    requires i <= |c.ibs|
    ensures PicksAfter(c, i, picks) && WantedCalls(c, c.ibs[i..]) == CallPicked(c, picks)
    decreases |c.ibs| - i
  {
    if i == |c.ibs| {
      picks := [];
    } else {
      var later := PicksFrom(c, i + 1);
      assert c.ibs[i..][1..] == c.ibs[i + 1..];
      PicksCons(c, i, later);
      CallPickedCons(c, i, later);
      picks := if Wanted(c, c.ibs[i]) then [i] + later else later;
    }
  }

  /** The wanted calls are those of the picked nodes. */
  lemma PickWanted(c: Command) returns (picks: seq<nat>)
    ensures PicksWanted(c, picks) && WantedCalls(c, Listed(c)) == CallPicked(c, picks)
  {
    if c.skipAll {
      picks := [];
    } else {
      picks := PicksFrom(c, 0);
      assert c.ibs[0..] == c.ibs;
    }
  }

  function CallEffects(ib: Option<Ib>): seq<Effect> {
    match ib case None => [] case Some(i) => [CallIb(i.addr, i.dwords)]
  }

  /** The effects, all in one mode. */
  function DidAll(m: Mode, effects: seq<Effect>): seq<Did> {
    if effects == [] then [] else [Did(effects[0], m)] + DidAll(m, effects[1..])
  }

  /** The always-on counter, register 0x4D2, read into memory: as 64 bits on parts after the 530. */
  function CounterLog(m: Mode, on: bool, rev: nat, target: u64): seq<Did> {
    if on then [Did(RegToMem(if rev > 530 then 0x4008_04D2 else 0x4D2, target), m)] else []
  }

  lemma IbPacketIsNeutral(c: Command, ib: IbNode)
    ensures !SetsMode(IbPacket(c, ib))
  {
    hide Encode;
  }

  lemma {:induction false} IbPacketsFit(c: Command, ibs: seq<IbNode>)
    ensures AllFit(IbPackets(c, ibs)) && Neutral(IbPackets(c, ibs)) && |IbPackets(c, ibs)| == |ibs|
  {
    hide IbPacket, Fits, SetsMode;
    if ibs != [] {
      IbPacketIsNeutral(c, ibs[0]);
      IbPacketsFit(c, ibs[1..]);
    }
  }

  lemma BodyFits(c: Command, rev: nat, first: Option<Ib>, last: Option<Ib>)
    ensures AllFit(BodyPackets(c, rev, first, last)) && Neutral(BodyPackets(c, rev, first, last))
  {
    hide IbPackets;
    IbPacketsFit(c, Listed(c));
  }

  lemma DidAllCons(m: Mode, skipped: bool, e: Effect, later: seq<Effect>)
    ensures DidAll(m, (if skipped then [] else [e]) + later) == (if skipped then [] else [Did(e, m)]) + DidAll(m, later)
  {
    if skipped {
      assert [] + later == later;
    } else {
      assert ([e] + later)[1..] == later;
    }
  }

  lemma LogCons(m: Mode, p: Packet, rest: seq<Packet>)
    requires ModeStep(m, p) == m
    ensures Log(m, [p] + rest) == LogStep(m, p) + Log(m, rest) && ModeAfter(m, [p] + rest) == ModeAfter(m, rest)
  {
    hide LogStep, ModeStep;
    assert ([p] + rest)[1..] == rest;
  }

  lemma {:induction false} IbPacketsCall(m: Mode, c: Command, ibs: seq<IbNode>)
    ensures CallsOf(Log(m, IbPackets(c, ibs))) == WantedCalls(c, ibs)
    ensures Log(m, IbPackets(c, ibs)) == DidAll(m, WantedCalls(c, ibs))
    ensures ModeAfter(m, IbPackets(c, ibs)) == m
  {
    if ibs != [] {
      var p, e := IbPacket(c, ibs[0]), CallIb(ibs[0].gpuaddr, IbDwords(ibs[0]));
      IbPacketsCall(m, c, ibs[1..]);
      OneCall(m, c, ibs[0]);
      DidAllCons(m, Skipped(c, ibs[0]), e, WantedCalls(c, ibs[1..]));
      hide LogStep, ModeStep, IbPacket, Skipped, CallsOf, Log, ModeAfter, DidAll, IbDwords;
      LogCons(m, p, IbPackets(c, ibs[1..]));
      CallsConcat(LogStep(m, p), Log(m, IbPackets(c, ibs[1..])));
    }
  }

  lemma OneCall(m: Mode, c: Command, ib: IbNode)
    ensures CallsOf(LogStep(m, IbPacket(c, ib))) ==
      if Skipped(c, ib) then [] else [CallIb(ib.gpuaddr, IbDwords(ib))]
    ensures LogStep(m, IbPacket(c, ib)) == if Skipped(c, ib) then [] else [Did(CallIb(ib.gpuaddr, IbDwords(ib)), m)]
    ensures ModeStep(m, IbPacket(c, ib)) == m
  {
    AddrSplit(ib.gpuaddr);
    var log := LogStep(m, IbPacket(c, ib));
    if !Skipped(c, ib) {
      assert log == [Did(CallIb(ib.gpuaddr, IbDwords(ib)), m)];
      assert log[1..] == [];
    }
  }

  lemma PlainCalls(m: Mode, p: Packet)
    requires !SetsMode(p) && !EffectOf(p).CallIb?
    ensures ModeAfter(m, [p]) == m && CallsOf(Log(m, [p])) == []
  {
    RunOne(m, p);
    assert LogStep(m, p) != [] ==> LogStep(m, p)[1..] == [];
  }

  lemma OptionalCall(m: Mode, ib: Option<Ib>)
    ensures ModeAfter(m, CallIfAny(ib)) == m && CallsOf(Log(m, CallIfAny(ib))) == CallEffects(ib)
    ensures Log(m, CallIfAny(ib)) == DidAll(m, CallEffects(ib))
  {
    CallRuns(ib, m);
    if ib.Some? {
      assert Log(m, CallIfAny(ib))[1..] == [];
      assert CallEffects(ib)[1..] == [];
    }
  }

  /** Two pieces that keep the mode call what each of them calls. */
  lemma Then(m: Mode, ps: seq<Packet>, qs: seq<Packet>)
    requires ModeAfter(m, ps) == m && ModeAfter(m, qs) == m
    ensures ModeAfter(m, ps + qs) == m
    ensures Log(m, ps + qs) == Log(m, ps) + Log(m, qs)
    ensures CallsOf(Log(m, ps + qs)) == CallsOf(Log(m, ps)) + CallsOf(Log(m, qs))
  {
    hide ModeAfter, Log, CallsOf;
    RunConcat(m, ps, qs);
    CallsConcat(Log(m, ps), Log(m, qs));
  }

  lemma ThenFour(m: Mode, a: seq<Packet>, b: seq<Packet>, c: seq<Packet>, d: seq<Packet>)
    requires ModeAfter(m, a) == m && ModeAfter(m, b) == m && ModeAfter(m, c) == m && ModeAfter(m, d) == m
    ensures ModeAfter(m, a + b + c + d) == m
    ensures Log(m, a + b + c + d) == Log(m, a) + Log(m, b) + Log(m, c) + Log(m, d)
    ensures CallsOf(Log(m, a + b + c + d)) ==
      CallsOf(Log(m, a)) + CallsOf(Log(m, b)) + CallsOf(Log(m, c)) + CallsOf(Log(m, d))
  {
    hide ModeAfter, Log, CallsOf;
    Then(m, a, b);
    Then(m, a + b, c);
    Then(m, a + b + c, d);
  }

  /** A packet other than a NOP that keeps the mode leaves one effect. */
  lemma PlainRuns(m: Mode, p: Packet)
    requires !SetsMode(p) && !(p.Pkt7? && p.op == CP_NOP)
    ensures Log(m, [p]) == [Did(EffectOf(p), m)]
  {
    RunOne(m, p);
  }

  lemma NopRuns(m: Mode, word: u32)
    ensures Log(m, [Nop(word)]) == []
  {
    RunOne(m, Nop(word));
  }

  lemma CounterRuns(m: Mode, on: bool, rev: nat, target: u64)
    ensures Log(m, If(on, AlwaysOn(rev, target))) == CounterLog(m, on, rev, target)
  {
    AddrSplit(target);
    PlainRuns(m, AlwaysOn(rev, target));
  }

  /** The fixed packets of the body call nothing. */
  lemma FixedCalls(m: Mode, word: u32, rev: nat, target: u64, b: bool)
    ensures ModeAfter(m, [Nop(word)]) == m && CallsOf(Log(m, [Nop(word)])) == []
    ensures ModeAfter(m, If(b, AlwaysOn(rev, target))) == m && CallsOf(Log(m, If(b, AlwaysOn(rev, target)))) == []
  {
    PlainCalls(m, Nop(word));
    if b {
      PlainCalls(m, AlwaysOn(rev, target));
    }
  }

  /** The end of binning and the yield point: any later command may be preempted. */
  function RenderLog(m: Mode): seq<Did> {
    [Did(Other(CP_SET_RENDER_MODE, [0, 0, 0, 0, 0]), m), Did(Other(CP_YIELD_ENABLE, [1]), m)]
  }

  lemma RenderCalls(m: Mode)
    ensures var ps := [Pkt7(CP_SET_RENDER_MODE, [0, 0, 0, 0, 0]), Pkt7(CP_YIELD_ENABLE, [1])];
      ModeAfter(m, ps) == m && CallsOf(Log(m, ps)) == [] && Log(m, ps) == RenderLog(m)
  {
    var render, yld := Pkt7(CP_SET_RENDER_MODE, [0, 0, 0, 0, 0]), Pkt7(CP_YIELD_ENABLE, [1]);
    PlainCalls(m, render);
    PlainCalls(m, yld);
    PlainRuns(m, render);
    PlainRuns(m, yld);
    hide ModeAfter, Log, CallsOf;
    Then(m, [render], [yld]);
    assert [render] + [yld] == [render, yld];
  }

  lemma HeadCalls(m: Mode, c: Command, rev: nat, first: Option<Ib>)
    ensures CallsOf(Log(m, BodyHead(c, rev, first))) == CallEffects(first) + WantedCalls(c, Listed(c))
    ensures Log(m, BodyHead(c, rev, first)) ==
      CounterLog(m, c.kernelProfile, rev, c.kernelStarted) + DidAll(m, CallEffects(first))
      + DidAll(m, WantedCalls(c, Listed(c)))
    ensures ModeAfter(m, BodyHead(c, rev, first)) == m
  {
    NopRuns(m, START_IB_IDENTIFIER);
    hide ModeAfter, Log, CallsOf, IbPackets, If, CallIfAny, Nop, AlwaysOn, WantedCalls, CallEffects, DidAll, CounterLog;
    CounterRuns(m, c.kernelProfile, rev, c.kernelStarted);
    FixedCalls(m, START_IB_IDENTIFIER, rev, c.kernelStarted, c.kernelProfile);
    OptionalCall(m, first);
    IbPacketsCall(m, c, Listed(c));
    ThenFour(m, [Nop(START_IB_IDENTIFIER)], If(c.kernelProfile, AlwaysOn(rev, c.kernelStarted)), CallIfAny(first),
             IbPackets(c, Listed(c)));
  }

  lemma TailCalls(m: Mode, c: Command, rev: nat, last: Option<Ib>)
    ensures CallsOf(Log(m, BodyTail(c, rev, last))) == CallEffects(last)
    ensures Log(m, BodyTail(c, rev, last)) ==
      RenderLog(m) + CounterLog(m, c.kernelProfile, rev, c.kernelRetired) + DidAll(m, CallEffects(last))
    ensures ModeAfter(m, BodyTail(c, rev, last)) == m
  {
    NopRuns(m, END_IB_IDENTIFIER);
    hide ModeAfter, Log, CallsOf, If, CallIfAny, Nop, AlwaysOn, CallEffects, DidAll, CounterLog, RenderLog;
    CounterRuns(m, c.kernelProfile, rev, c.kernelRetired);
    RenderCalls(m);
    FixedCalls(m, END_IB_IDENTIFIER, rev, c.kernelRetired, c.kernelProfile);
    OptionalCall(m, last);
    ThenFour(m, [Pkt7(CP_SET_RENDER_MODE, [0, 0, 0, 0, 0]), Pkt7(CP_YIELD_ENABLE, [1])],
             If(c.kernelProfile, AlwaysOn(rev, c.kernelRetired)), CallIfAny(last), [Nop(END_IB_IDENTIFIER)]);
  }

  /**
   Everything a body does, in any mode: the kernel's start counter, the first profiling call, the
   picked nodes, the end of rendering, the kernel's end counter and the last profiling call. The
   picked nodes are exactly those neither skipped nor unwanted preambles, in list order.
   */
  lemma BodyRuns(m: Mode, c: Command, rev: nat, first: Option<Ib>, last: Option<Ib>) returns (picks: seq<nat>)
    ensures PicksWanted(c, picks) && WantedCalls(c, Listed(c)) == CallPicked(c, picks)
    ensures Log(m, BodyPackets(c, rev, first, last)) ==
      CounterLog(m, c.kernelProfile, rev, c.kernelStarted) + DidAll(m, CallEffects(first))
      + DidAll(m, CallPicked(c, picks))
      + RenderLog(m) + CounterLog(m, c.kernelProfile, rev, c.kernelRetired) + DidAll(m, CallEffects(last))
    ensures ModeAfter(m, BodyPackets(c, rev, first, last)) == m
  {
    hide ModeAfter, Log, CallsOf, BodyHead, BodyTail, WantedCalls, CallPicked, PicksWanted, DidAll, CounterLog, RenderLog,
         CallEffects;
    HeadCalls(m, c, rev, first);
    TailCalls(m, c, rev, last);
    Then(m, BodyHead(c, rev, first), BodyTail(c, rev, last));
    picks := PickWanted(c);
  }

  /**
   The meaning of a submission: in any mode, running the body calls exactly the IBs that are
   neither skipped nor unwanted preambles, in list order, between the profiling calls.
   */
  lemma BodyCalls(m: Mode, c: Command, rev: nat, first: Option<Ib>, last: Option<Ib>) returns (picks: seq<nat>)
    ensures PicksWanted(c, picks)
    ensures CallsOf(Log(m, BodyPackets(c, rev, first, last))) ==
      CallEffects(first) + CallPicked(c, picks) + CallEffects(last)
    ensures ModeAfter(m, BodyPackets(c, rev, first, last)) == m
  {
    hide ModeAfter, Log, CallsOf, BodyHead, BodyTail, WantedCalls, CallPicked, PicksWanted, CallEffects;
    HeadCalls(m, c, rev, first);
    TailCalls(m, c, rev, last);
    Then(m, BodyHead(c, rev, first), BodyTail(c, rev, last));
    picks := PickWanted(c);
  }

  /** The four words of a skipped call are exactly the payload of the NOP before it. */
  lemma SkippedIbIsCovered(c: Command, ib: IbNode, rest: seq<u32>)
    requires Skipped(c, ib)
    ensures Parse([Type7(CP_NOP, 4)] + Encode(CallOf(ib)) + rest) ==
      Prepend(Pkt7(CP_NOP, Encode(CallOf(ib))), Parse(rest))
  {
    hide Parse, Type7, Type4;
    var p := IbPacket(c, ib);
    ParseOne(p, rest);
    assert Encode(p) + rest == [Type7(CP_NOP, 4)] + Encode(CallOf(ib)) + rest;
  }

  // ---------- Timestamps and yields of a whole submission ----------

  /** Neither a timestamp event, nor a yield, nor a plain memory write. */
  predicate PlainEffect(e: Effect) { !e.Stamp? && !e.Yield? && !e.MemWrite? }

  predicate PlainPackets(ps: seq<Packet>) {
    forall i :: 0 <= i < |ps| ==> PlainEffect(EffectOf(ps[i]))
  }

  lemma {:induction false} PlainLog(m: Mode, ps: seq<Packet>, d: Did)
    requires PlainPackets(ps) && d in Log(m, ps)
    ensures PlainEffect(d.effect)
    decreases |ps|
  {
    hide EffectOf;
    if d in LogStep(m, ps[0]) {
      assert d.effect == EffectOf(ps[0]);
    } else {
      PlainLog(ModeStep(m, ps[0]), ps[1..], d);
    }
  }

  lemma {:induction false} IbsArePlain(c: Command, ibs: seq<IbNode>)
    ensures PlainPackets(IbPackets(c, ibs))
  {
    hide EffectOf, IbPacket, PlainEffect;
    if ibs != [] {
      IbsArePlain(c, ibs[1..]);
      IbIsPlain(c, ibs[0]);
    }
  }

  lemma IbIsPlain(c: Command, ib: IbNode)
    ensures PlainEffect(EffectOf(IbPacket(c, ib)))
  {
    hide Encode;
  }

  lemma FixedArePlain(word: u32, b: bool, rev: nat, target: u64, ib: Option<Ib>)
    ensures PlainPackets([Nop(word)]) && PlainPackets(If(b, AlwaysOn(rev, target))) && PlainPackets(CallIfAny(ib))
    ensures PlainPackets([Pkt7(CP_SET_RENDER_MODE, [0, 0, 0, 0, 0]), Pkt7(CP_YIELD_ENABLE, [1])])
  {
  }

  lemma PlainFour(a: seq<Packet>, b: seq<Packet>, c: seq<Packet>, d: seq<Packet>)
    requires PlainPackets(a) && PlainPackets(b) && PlainPackets(c) && PlainPackets(d)
    ensures PlainPackets(a + b + c + d) && PlainPackets(a + b)
  {
    hide EffectOf, PlainEffect;
  }

  lemma BodyIsPlain(c: Command, rev: nat, first: Option<Ib>, last: Option<Ib>)
    ensures PlainPackets(BodyPackets(c, rev, first, last))
  {
    hide PlainPackets, If, CallIfAny, IbPackets, AlwaysOn, Nop;
    var started := If(c.kernelProfile, AlwaysOn(rev, c.kernelStarted));
    var retired := If(c.kernelProfile, AlwaysOn(rev, c.kernelRetired));
    FixedArePlain(START_IB_IDENTIFIER, c.kernelProfile, rev, c.kernelStarted, first);
    FixedArePlain(END_IB_IDENTIFIER, c.kernelProfile, rev, c.kernelRetired, last);
    IbsArePlain(c, Listed(c));
    PlainFour([Nop(START_IB_IDENTIFIER)], started, CallIfAny(first), IbPackets(c, Listed(c)));
    PlainFour([Pkt7(CP_SET_RENDER_MODE, [0, 0, 0, 0, 0]), Pkt7(CP_YIELD_ENABLE, [1])], retired, CallIfAny(last),
              [Nop(END_IB_IDENTIFIER)]);
    var head, tail := BodyHead(c, rev, first), BodyTail(c, rev, last);
    PlainFour(head, tail, head, tail);
  }

  /**
   A whole submission falls into three parts: the start timestamps are written in the first, and
   neither of the other two writes memory except for the interrupt-storm marker; the end
   timestamps are written in the last, and there is no timestamp event in the other two.
   */
  lemma StampsFrameTheSubmission(s: Submit, c: Command, rev: nat, first: Option<Ib>, last: Option<Ib>)
    returns (before: seq<Did>, during: seq<Did>, after: seq<Did>)
    ensures Log(KERNEL_MODE, Wrapped(s, BodyPackets(c, rev, first, last))) == before + during + after
    ensures during == Log(BodyMode(s), BodyPackets(c, rev, first, last))
    ensures Did(MemWrite(s.rbSoptimestamp, [s.rbTimestamp]), KERNEL_MODE) in before
    ensures s.context.Some? ==>
      && Did(MemWrite(s.context.value.soptimestamp, [s.timestamp]), KERNEL_MODE) in before
      && Did(Stamp(0x8000_0004, s.context.value.eoptimestamp, s.timestamp), Mode(true, s.secure)) in after
    ensures Did(Stamp(if s.context.Some? then 4 else 0x8000_0004, s.rbEoptimestamp, s.rbTimestamp), Mode(true, s.secure)) in after
    ensures forall d :: d in before + during ==> !d.effect.Stamp?
    ensures forall d :: d in during + after && d.effect.MemWrite? ==> d.effect.addr == s.refWaitTs
  {
    var body := BodyPackets(c, rev, first, last);
    BodyFits(c, rev, first, last);
    BodyIsPlain(c, rev, first, last);
    hide BodyPackets, Log, Concat, LogsBefore, LogsAfter, PlainPackets, Neutral, Wrapped;
    WrappedRuns(s, body);
    StampsFrameTheBody(s);
    before, during, after := Concat(LogsBefore(s)), Log(BodyMode(s), body), Concat(LogsAfter(s));
    forall d | d in during ensures PlainEffect(d.effect) {
      PlainLog(BodyMode(s), body, d);
    }
  }

  /** With preemption the yield is the last thing a submission does and its only one; else it has none. */
  lemma YieldEndsTheSubmission(s: Submit, c: Command, rev: nat, first: Option<Ib>, last: Option<Ib>)
    ensures var log := Log(KERNEL_MODE, Wrapped(s, BodyPackets(c, rev, first, last)));
      && (s.preemption ==> |log| > 0 && log[|log| - 1] == Did(Yield(0, 1, true), KERNEL_MODE))
      && (forall i :: 0 <= i < |log| - One(s.preemption) ==> !log[i].effect.Yield?)
  {
    var body := BodyPackets(c, rev, first, last);
    BodyFits(c, rev, first, last);
    BodyIsPlain(c, rev, first, last);
    hide BodyPackets, Log, Concat, LogsBefore, LogsAfter, PlainPackets, Neutral, Wrapped;
    WrappedRuns(s, body);
    YieldIsLast(s);
    var during := Log(BodyMode(s), body);
    forall d | d in during ensures PlainEffect(d.effect) {
      PlainLog(BodyMode(s), body, d);
    }
    YieldsIn(Concat(LogsBefore(s)), during, Concat(LogsAfter(s)), One(s.preemption));
  }

  function One(b: bool): nat { if b then 1 else 0 }

  lemma YieldsIn(a: seq<Did>, b: seq<Did>, c: seq<Did>, n: nat)
    requires forall d :: d in a ==> !d.effect.Yield?
    requires forall d :: d in b ==> PlainEffect(d.effect)
    requires forall i :: 0 <= i < |c| - n ==> !c[i].effect.Yield?
    requires n <= |c|
    ensures var log := a + b + c;
      && (forall i :: 0 <= i < |log| - n ==> !log[i].effect.Yield?)
      && (|c| > 0 ==> log[|log| - 1] == c[|c| - 1])
  {
    var log := a + b + c;
    forall i | 0 <= i < |log| - n ensures !log[i].effect.Yield? {
      if i < |a| {
        assert log[i] == a[i];
      } else if i < |a| + |b| {
        assert log[i] == b[i - |a|];
      } else {
        assert log[i] == c[i - |a| - |b|];
      }
    }
  }

  // ---------- Building it ----------

  const PROFILE_IB_DWORDS := 4
  const PROFILE_IB_SLOTS := 256
  const TICKS_SUBMITTED := 24  // offset of gpu_ticks_submitted in the user's profiling buffer
  const TICKS_RETIRED := 32    // offset of gpu_ticks_retired

  function Plus(a: u64, b: nat): u64 { (a + b) % 0x1_0000_0000_0000_0000 }

  /** The ring's page of one-packet IBs for user profiling; it may have failed to be allocated. */
  class ProfilePage {
    const present: bool
    const gpuaddr: u64
    const mem: array<u32>
    var index: nat  // profile_index

    ghost predicate Valid()
      reads this
    {
      mem.Length == PROFILE_IB_SLOTS * PROFILE_IB_DWORDS && index < PROFILE_IB_SLOTS
    }

    constructor (present: bool, gpuaddr: u64)
      ensures Valid() && fresh(mem) && index == 0 && this.present == present && this.gpuaddr == gpuaddr
    {
      this.present, this.gpuaddr, index := present, gpuaddr, 0;
      mem := new u32[PROFILE_IB_SLOTS * PROFILE_IB_DWORDS];
    }

    /** The words of one slot. */
    function Slot(i: nat): seq<u32>
      requires mem.Length == PROFILE_IB_SLOTS * PROFILE_IB_DWORDS && i < PROFILE_IB_SLOTS
      reads mem
    {
      mem[4 * i..4 * i + 4]
    }

    function SlotIb(i: nat): Ib { Ib(Plus(gpuaddr, 16 * i), 4) }

    /** a5xx_get_user_profiling_ib: fills the next slot and calls it. */
    method UserProfilingIb(cmds: array<u32>, ghost start: nat, at: nat, ghost done: seq<Packet>,
                           rev: nat, target: u64)
      returns (next: nat, ghost ib: Option<Ib>)
      requires Valid() && AllFit(done) && start <= at && at + 4 <= cmds.Length && cmds != mem
      requires cmds[start..at] == EncodeAll(done)
      modifies this, mem, cmds
      ensures Valid() && at <= next <= at + 4 && AllFit(done + CallIfAny(ib))
      ensures cmds[start..next] == EncodeAll(done + CallIfAny(ib))
      ensures ib == if present then Some(SlotIb(old(index))) else None
      ensures index == if present then (old(index) + 1) % PROFILE_IB_SLOTS else old(index)
      ensures present ==> Slot(old(index)) == Encode(AlwaysOn(rev, target))
      ensures forall i :: 0 <= i < PROFILE_IB_SLOTS && !(present && i == old(index)) ==> Slot(i) == old(Slot(i))
      // the IB starts at the byte address of the first of the four words written
      ensures present ==> ib == Some(Ib((gpuaddr + 4 * (4 * old(index))) % TWO_64, 4))
      ensures present ==> mem[4 * old(index)..4 * old(index) + 4] == Encode(AlwaysOn(rev, target))
    {
      hide EncodeAll, Encode, HeaderOf;
      next, ib := at, None;
      if !present {
        assert done + CallIfAny(ib) == done;
        return;
      }
      var offset := index * PROFILE_IB_DWORDS;
      var end := Put(mem, offset, offset, AlwaysOn(rev, target));
      assert mem[offset..offset] == [];
      var slot := SlotIb(index);
      ib := Some(slot);
      index := (index + 1) % PROFILE_IB_SLOTS;
      next := EmitCall(cmds, start, at, done, Some(slot));
    }
  }

  /** What stands before the call of an IB. */
  function SkipHeader(c: Command, ib: IbNode): seq<u32> { if Skipped(c, ib) then [Type7(CP_NOP, 4)] else [] }

  lemma IbEncoding(c: Command, ib: IbNode)
    ensures Fits(CallOf(ib)) && |CallOf(ib).payload| == 3 && |SkipHeader(c, ib)| <= 1
    ensures Encode(IbPacket(c, ib)) == SkipHeader(c, ib) + Encode(CallOf(ib))
  {
    hide Type7;
  }

  /** One IB of the list; a skipped one only gets a NOP header put before its call. */
  method EmitIb(cmds: array<u32>, at: nat, ghost done: seq<Packet>, c: Command, ib: IbNode)
    returns (next: nat)
    requires AllFit(done) && at + 5 <= cmds.Length && cmds[..at] == EncodeAll(done)
    modifies cmds
    ensures at <= next <= at + 5 && AllFit(done + [IbPacket(c, ib)])
    ensures cmds[..next] == EncodeAll(done + [IbPacket(c, ib)])
  {
    hide EncodeAll, Encode, Type7, IbPacket, CallOf, Skipped;
    IbEncoding(c, ib);
    next := at;
    if Skipped(c, ib) {
      cmds[next] := Type7(CP_NOP, 4);
      next := next + 1;
    }
    assert cmds[..next] == EncodeAll(done) + SkipHeader(c, ib);
    next := Put(cmds, 0, next, CallOf(ib));
    assert cmds[0..next] == cmds[..next];
    EncodeConcat(done, [IbPacket(c, ib)]);
    EncodeSingle(IbPacket(c, ib));
  }

  lemma EncodeSingle(p: Packet)
    requires Fits(p)
    ensures EncodeAll([p]) == Encode(p)
  {
    assert EncodeAll([p]) == Encode(p) + EncodeAll([p][1..]);
  }

  lemma {:induction false} IbPacketsSnoc(c: Command, ibs: seq<IbNode>, ib: IbNode)
    ensures IbPackets(c, ibs + [ib]) == IbPackets(c, ibs) + [IbPacket(c, ib)]
  {
    hide IbPacket;
    if ibs == [] {
      assert [ib][1..] == [];
    } else {
      IbPacketsSnoc(c, ibs[1..], ib);
      assert (ibs + [ib])[1..] == ibs[1..] + [ib];
    }
  }

  /** The list of IBs, in order. */
  method EmitIbs(cmds: array<u32>, at: nat, ghost done: seq<Packet>, c: Command) returns (next: nat)
    requires AllFit(done) && at + 5 * |Listed(c)| <= cmds.Length && cmds[..at] == EncodeAll(done)
    modifies cmds
    ensures at <= next <= at + 5 * |Listed(c)| && AllFit(done + IbPackets(c, Listed(c)))
    ensures cmds[..next] == EncodeAll(done + IbPackets(c, Listed(c)))
  {
    hide EncodeAll, IbPacket;
    var ibs := Listed(c);
    next := at;
    var i := 0;
    assert done + IbPackets(c, ibs[..0]) == done;
    while i < |ibs|
      invariant 0 <= i <= |ibs| && at <= next <= at + 5 * i
      invariant AllFit(done + IbPackets(c, ibs[..i]))
      invariant cmds[..next] == EncodeAll(done + IbPackets(c, ibs[..i]))
    {
      next := EmitIb(cmds, next, done + IbPackets(c, ibs[..i]), c, ibs[i]);
      IbPacketsSnoc(c, ibs[..i], ibs[i]);
      assert ibs[..i] + [ibs[i]] == ibs[..i + 1];
      assert done + IbPackets(c, ibs[..i]) + [IbPacket(c, ibs[i])] == done + IbPackets(c, ibs[..i + 1]);
      i := i + 1;
    }
    assert ibs[..i] == ibs;
  }

  /** The first half of the body. */
  method EmitHead(cmds: array<u32>, c: Command, rev: nat, page: ProfilePage)
    returns (next: nat, ghost first: Option<Ib>)
    requires page.Valid() && cmds != page.mem && 10 + 5 * |Listed(c)| <= cmds.Length
    modifies cmds, page, page.mem
    ensures page.Valid() && next <= 10 + 5 * |Listed(c)| && AllFit(BodyHead(c, rev, first))
    ensures cmds[..next] == EncodeAll(BodyHead(c, rev, first))
    ensures first == if c.userProfile && page.present then Some(page.SlotIb(old(page.index))) else None
    ensures page.index == (if first.Some? then (old(page.index) + 1) % PROFILE_IB_SLOTS else old(page.index))
    ensures first.Some? ==>
              page.Slot(old(page.index)) == Encode(AlwaysOn(rev, Plus(c.userBuffer, TICKS_SUBMITTED)))
    ensures forall i :: 0 <= i < PROFILE_IB_SLOTS && !(first.Some? && i == old(page.index)) ==>
                          page.Slot(i) == old(page.Slot(i))
  {
    hide EncodeAll, Encode, AlwaysOn, Nop, IbPackets, If, CallIfAny;
    EncodeNothing();
    NopFits(START_IB_IDENTIFIER);
    next := Emit(cmds, 0, 0, [], Nop(START_IB_IDENTIFIER));
    ghost var done := [Nop(START_IB_IDENTIFIER)];
    assert [] + done == done;
    AlwaysOnFits(rev, c.kernelStarted);
    next := EmitIf(cmds, 0, next, done, c.kernelProfile, AlwaysOn(rev, c.kernelStarted));
    done := done + If(c.kernelProfile, AlwaysOn(rev, c.kernelStarted));
    first := None;
    NoCall(done);
    if c.userProfile {
      next, first := page.UserProfilingIb(cmds, 0, next, done, rev, Plus(c.userBuffer, TICKS_SUBMITTED));
    }
    done := done + CallIfAny(first);
    assert cmds[0..next] == cmds[..next];
    next := EmitIbs(cmds, next, done, c);
  }

  lemma NopFits(word: u32)
    ensures Fits(Nop(word)) && |Nop(word).payload| == 1
  {
  }

  lemma AlwaysOnFits(rev: nat, target: u64)
    ensures Fits(AlwaysOn(rev, target)) && |AlwaysOn(rev, target).payload| == 3
  {
  }

  lemma NoCall(done: seq<Packet>)
    ensures done + CallIfAny(None) == done
  {
  }

  /** The second half. */
  method EmitTail(cmds: array<u32>, at: nat, ghost head: seq<Packet>, c: Command, rev: nat, page: ProfilePage)
    returns (next: nat, ghost last: Option<Ib>)
    requires page.Valid() && cmds != page.mem && at + 18 <= cmds.Length
    requires AllFit(head) && cmds[..at] == EncodeAll(head)
    modifies cmds, page, page.mem
    ensures page.Valid() && at <= next <= at + 18 && AllFit(head + BodyTail(c, rev, last))
    ensures cmds[..next] == EncodeAll(head + BodyTail(c, rev, last))
    ensures last == if c.userProfile && page.present then Some(page.SlotIb(old(page.index))) else None
    ensures page.index == (if last.Some? then (old(page.index) + 1) % PROFILE_IB_SLOTS else old(page.index))
    ensures last.Some? ==>
              page.Slot(old(page.index)) == Encode(AlwaysOn(rev, Plus(c.userBuffer, TICKS_RETIRED)))
    ensures forall i :: 0 <= i < PROFILE_IB_SLOTS && !(last.Some? && i == old(page.index)) ==>
                          page.Slot(i) == old(page.Slot(i))
  {
    hide EncodeAll, Encode, AlwaysOn, Nop, If, CallIfAny;
    var render, yld := Pkt7(CP_SET_RENDER_MODE, [0, 0, 0, 0, 0]), Pkt7(CP_YIELD_ENABLE, [1]);
    assert cmds[0..at] == cmds[..at];
    next := Emit(cmds, 0, at, head, render);
    next := Emit(cmds, 0, next, head + [render], yld);
    ghost var done := head + [render] + [yld];
    AlwaysOnFits(rev, c.kernelRetired);
    next := EmitIf(cmds, 0, next, done, c.kernelProfile, AlwaysOn(rev, c.kernelRetired));
    done := done + If(c.kernelProfile, AlwaysOn(rev, c.kernelRetired));
    last := None;
    NoCall(done);
    if c.userProfile {
      next, last := page.UserProfilingIb(cmds, 0, next, done, rev, Plus(c.userBuffer, TICKS_RETIRED));
    }
    done := done + CallIfAny(last);
    NopFits(END_IB_IDENTIFIER);
    next := Emit(cmds, 0, next, done, Nop(END_IB_IDENTIFIER));
    assert cmds[0..next] == cmds[..next];
    assert done + [Nop(END_IB_IDENTIFIER)] == head + BodyTail(c, rev, last);
  }

  /**
   The command-building part of a5xx_ringbuffer_submitcmd. The buffer it allocates always
   suffices, and the slots it fills for user profiling are the ones it calls; the two it may use
   in one submission are different slots.
   */
  method BuildBody(c: Command, rev: nat, page: ProfilePage)
    returns (cmds: array<u32>, index: nat, ghost first: Option<Ib>, ghost last: Option<Ib>)
    requires page.Valid()
    modifies page, page.mem
    ensures page.Valid() && fresh(cmds) && index <= cmds.Length == COMMAND_DWORDS + 5 * |Listed(c)|
    ensures AllFit(BodyPackets(c, rev, first, last))
    ensures cmds[..index] == EncodeAll(BodyPackets(c, rev, first, last))
    ensures var i := old(page.index); var j := (i + 1) % PROFILE_IB_SLOTS;
            if c.userProfile && page.present then
              && first == Some(page.SlotIb(i)) && last == Some(page.SlotIb(j)) && i != j
              && page.index == (i + 2) % 256
              && page.Slot(i) == Encode(AlwaysOn(rev, (c.userBuffer + 24) % TWO_64))
              && page.Slot(j) == Encode(AlwaysOn(rev, (c.userBuffer + 32) % TWO_64))
            else first == last == None && page.index == i
  {
    hide EncodeAll, Encode, AlwaysOn, BodyHead, BodyTail;
    var numibs := 0;
    if !c.skipAll {
      while numibs < |c.ibs|
        invariant 0 <= numibs <= |c.ibs|
      {
        numibs := numibs + 1;
      }
    }
    cmds := new u32[COMMAND_DWORDS + numibs * 5];
    index, first := EmitHead(cmds, c, rev, page);
    index, last := EmitTail(cmds, index, BodyHead(c, rev, first), c, rev, page);
  }
}
