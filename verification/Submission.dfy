/**
 a5xx_ringbuffer_submitcmd from end to end: build the body, switch the draw context, queue the
 body; and which indirect buffers the ring's stream calls, under which page table.
 */
module Submission {
  import opened Basics
  import opened Pm4
  import opened Pm4Machine
  import opened Pm4Commands
  import opened Pm4Meaning
  import opened Pm4Emit
  import opened Ringbuffer
  import opened CommandBody
  import opened PageTables

  // ---------- Calls and the page table they run under ----------

  /** An indirect buffer the CP ran and the translation in force. */
  datatype Ran = Ran(call: Effect, table: Translation)

  function RanBy(d: Translation, ps: seq<Packet>): seq<Ran>
    decreases |ps|
  {
    if ps == [] then []
    else (if EffectOf(ps[0]).CallIb? then [Ran(EffectOf(ps[0]), d)] else []) + RanBy(TableStep(d, ps[0]), ps[1..])
  }

  function Under(calls: seq<Effect>, d: Translation): seq<Ran> {
    if calls == [] then [] else [Ran(calls[0], d)] + Under(calls[1..], d)
  }

  lemma {:induction false} UnderConcat(a: seq<Effect>, b: seq<Effect>, d: Translation)
    ensures Under(a + b, d) == Under(a, d) + Under(b, d)
  {
    if a == [] {
      assert a + b == b;
    } else {
      UnderConcat(a[1..], b, d);
      assert (a + b)[1..] == a[1..] + b;
    }
  }

  lemma {:induction false} RanConcat(d: Translation, ps: seq<Packet>, qs: seq<Packet>)
    ensures RanBy(d, ps + qs) == RanBy(d, ps) + RanBy(TableOf(d, ps), qs)
    decreases |ps|
  {
    hide EffectOf, TableStep;
    if ps == [] {
      assert ps + qs == qs;
    } else {
      var here := if EffectOf(ps[0]).CallIb? then [Ran(EffectOf(ps[0]), d)] else [];
      RanConcat(TableStep(d, ps[0]), ps[1..], qs);
      assert (ps + qs)[1..] == ps[1..] + qs && (ps + qs)[0] == ps[0];
      assert RanBy(d, ps + qs) == here + RanBy(TableStep(d, ps[0]), ps[1..] + qs);
    }
  }

  /** What one packet calls does not depend on the mode. */
  lemma StepCalls(m: Mode, p: Packet, rest: seq<Did>)
    ensures CallsOf(LogStep(m, p) + rest) ==
      (if EffectOf(p).CallIb? then [EffectOf(p)] else []) + CallsOf(rest)
  {
    var step := LogStep(m, p);
    if step == [] {
      assert step + rest == rest;
    } else {
      assert (step + rest)[1..] == rest;
    }
  }

  /** A stream that leaves the table alone runs all its calls under the table it found. */
  lemma {:induction false} QuietRan(slot: u64, m: Mode, d: Translation, ps: seq<Packet>)
    requires Quiet(slot, ps)
    ensures RanBy(d, ps) == Under(CallsOf(Log(m, ps)), d)
    decreases |ps|
  {
    if ps != [] {
      var m' := ModeStep(m, ps[0]);
      assert QuietPacket(slot, ps[0]);
      assert TableStep(d, ps[0]) == d;
      QuietRan(slot, m', d, ps[1..]);
      StepCalls(m, ps[0], Log(m', ps[1..]));
      hide EffectOf, ModeStep, LogStep, TableStep, QuietPacket;
      var e := EffectOf(ps[0]);
      var later := CallsOf(Log(m', ps[1..]));
      assert [e][1..] == [];
      assert Under([e], d) == [Ran(e, d)];
      UnderConcat([e], later, d);
      assert [] + later == later && [] + RanBy(d, ps[1..]) == RanBy(d, ps[1..]);
    }
  }

  /** A stream without calls runs nothing, whatever it does to the table. */
  lemma {:induction false} NoCallsNoRuns(m: Mode, d: Translation, ps: seq<Packet>)
    requires CallsOf(Log(m, ps)) == []
    ensures RanBy(d, ps) == []
    decreases |ps|
  {
    if ps != [] {
      StepCalls(m, ps[0], Log(ModeStep(m, ps[0]), ps[1..]));
      hide EffectOf, ModeStep, LogStep, TableStep;
      NoCallsNoRuns(ModeStep(m, ps[0]), TableStep(d, ps[0]), ps[1..]);
    }
  }

  // ---------- Calls of the wrapper ----------

  lemma CallsBefore(s: Submit)
    ensures CallsOf(Concat(LogsBefore(s))) == CallEffects(s.profilePre)
  {
    var logs := LogsBefore(s);
    ConcatSix(logs[0], logs[1], logs[2], logs[3], logs[4], logs[5]);
    NoCallsIn(PreemptLog(s));
    NoCallsIn(StartLog(s));
    CallLogCalls(s.profilePre, KERNEL_MODE);
    hide PreemptLog, StartLog, CallLog, CallEffects, CallsOf;
    CallsConcat(PreemptLog(s), CallLog(s.profilePre, KERNEL_MODE));
    CallsConcat(PreemptLog(s) + CallLog(s.profilePre, KERNEL_MODE), StartLog(s));
    assert [] + PreemptLog(s) + CallLog(s.profilePre, KERNEL_MODE) + StartLog(s) + [] + []
        == PreemptLog(s) + CallLog(s.profilePre, KERNEL_MODE) + StartLog(s);
  }

  lemma ConcatSix(a: seq<Did>, b: seq<Did>, c: seq<Did>, d: seq<Did>, e: seq<Did>, f: seq<Did>)
    ensures Concat([a, b, c, d, e, f]) == a + b + c + d + e + f
  {
    ConcatCons(f, []);
    ConcatCons(e, [f]);
    ConcatCons(d, [e, f]);
    ConcatCons(c, [d, e, f]);
    ConcatCons(b, [c, d, e, f]);
    ConcatCons(a, [b, c, d, e, f]);
    hide Concat;
    assert [e] + [f] == [e, f];
    assert [d] + [e, f] == [d, e, f];
    assert [c] + [d, e, f] == [c, d, e, f];
    assert [b] + [c, d, e, f] == [b, c, d, e, f];
    assert [a] + [b, c, d, e, f] == [a, b, c, d, e, f];
    assert a + (b + (c + (d + (e + f)))) == a + b + c + d + e + f;
  }

  lemma ConcatCons(a: seq<Did>, rest: seq<seq<Did>>)
    ensures Concat([a] + rest) == a + Concat(rest)
    ensures rest == [] ==> Concat([a]) == a
  {
    assert ([a] + rest)[1..] == rest;
    assert rest == [] ==> [a] + rest == [a];
  }

  lemma {:induction false} NoCallsIn(log: seq<Did>)
    requires forall i :: 0 <= i < |log| ==> !log[i].effect.CallIb?
    ensures CallsOf(log) == []
  {
    if log != [] {
      NoCallsIn(log[1..]);
    }
  }

  lemma CallLogCalls(ib: Option<Ib>, m: Mode)
    ensures CallsOf(CallLog(ib, m)) == CallEffects(ib)
  {
    if ib.Some? {
      assert CallLog(ib, m)[1..] == [];
    }
  }

  lemma CallsAfter(s: Submit)
    ensures CallsOf(Concat(LogsAfter(s))) == CallEffects(s.profilePost)
  {
    var logs := LogsAfter(s);
    var rest := logs[2..];
    forall d | d in Concat(rest) ensures !d.effect.CallIb? {
      var i := ConcatOrigin(rest, d);
      NoCallLater(s, i, d);
    }
    hide LogsAfter, CallsOf;
    NoCallsIn(Concat(rest));
    CallLogCalls(s.profilePost, Mode(true, s.secure));
    AfterSplit(s);
    CallsConcat(CallLog(s.profilePost, Mode(true, s.secure)), Concat(rest));
  }

  lemma NoCallLater(s: Submit, i: nat, d: Did)
    requires i < |LogsAfter(s)[2..]| && d in LogsAfter(s)[2..][i]
    ensures !d.effect.CallIb?
  {
  }

  lemma AfterSplit(s: Submit)
    ensures Concat(LogsAfter(s)) == CallLog(s.profilePost, Mode(true, s.secure)) + Concat(LogsAfter(s)[2..])
  {
    var logs := LogsAfter(s);
    assert logs[1..][1..] == logs[2..];
    assert [] + Concat(logs[1..]) == Concat(logs[1..]);
  }

  /** A wrapped body calls the profiling buffers around what the body calls. */
  lemma WrappedCalls(s: Submit, body: seq<Packet>)
    requires Neutral(body)
    ensures CallsOf(Log(KERNEL_MODE, Wrapped(s, body))) ==
      CallEffects(s.profilePre) + CallsOf(Log(BodyMode(s), body)) + CallEffects(s.profilePost)
  {
    WrappedRuns(s, body);
    CallsBefore(s);
    CallsAfter(s);
    hide CallsOf, Log, Concat, CallEffects;
    CallsConcat(Concat(LogsBefore(s)), Log(BodyMode(s), body));
    CallsConcat(Concat(LogsBefore(s)) + Log(BodyMode(s), body), Concat(LogsAfter(s)));
  }

  // ---------- What a ring's whole history amounts to ----------

  /** The table in force, the ring's scratch slot, and every indirect buffer run so far. */
  datatype View = View(table: Translation, slot: Translation, ran: seq<Ran>)

  function Extend(v: View, slot: u64, ps: seq<Packet>): View {
    View(TableOf(v.table, ps), SlotOf(slot, v.slot, ps), v.ran + RanBy(v.table, ps))
  }

  lemma ExtendConcat(v: View, slot: u64, ps: seq<Packet>, qs: seq<Packet>)
    ensures Extend(v, slot, ps + qs) == Extend(Extend(v, slot, ps), slot, qs)
  {
    Follow(slot, v.table, v.slot, ps, qs);
    RanConcat(v.table, ps, qs);
    hide TableOf, SlotOf, RanBy;
    assert v.ran + RanBy(v.table, ps) + RanBy(TableOf(v.table, ps), qs)
        == v.ran + (RanBy(v.table, ps) + RanBy(TableOf(v.table, ps), qs));
  }

  /** A quiet stream only adds its calls, under the table in force. */
  lemma ExtendQuiet(v: View, slot: u64, m: Mode, ps: seq<Packet>)
    requires Quiet(slot, ps)
    ensures Extend(v, slot, ps) == v.(ran := v.ran + Under(CallsOf(Log(m, ps)), v.table))
  {
    QuietKeeps(slot, v.table, v.slot, ps);
    QuietRan(slot, m, v.table, ps);
  }

  lemma NopsSilent(v: View, slot: u64, nops: seq<Packet>)
    requires Nops(nops)
    ensures Extend(v, slot, nops) == v
  {
    NopsRun(KERNEL_MODE, nops);
    assert Quiet(slot, nops);
    hide Extend, Quiet, Log;
    ExtendQuiet(v, slot, KERNEL_MODE, nops);
    assert v.ran + Under([], v.table) == v.ran;
  }

  lemma WhereAmISilent(v: View, slot: u64, addr: u64)
    ensures Extend(v, slot, [WhereAmI(addr)]) == v
  {
    PlainCalls(KERNEL_MODE, WhereAmI(addr));
    assert Quiet(slot, [WhereAmI(addr)]);
    hide Extend, Quiet, Log, WhereAmI;
    ExtendQuiet(v, slot, KERNEL_MODE, [WhereAmI(addr)]);
    assert v.ran + Under([], v.table) == v.ran;
  }

  lemma PadSilent(v: View, slot: u64, pad: seq<u32>, head: nat)
    requires head < RB_DWORDS && IsPad(pad, pad != [], head)
    ensures Sane(pad) && Extend(v, slot, Parse(pad).value) == v
  {
    hide Parse, Extend, Sane;
    PadIsNop(pad, pad != [], head);
    PadMeansNothing(pad, pad != [], head);
    NopsSilent(v, slot, Parse(pad).value);
  }

  lemma ReportSilent(v: View, slot: u64, report: seq<u32>, sync: bool, addr: u64)
    requires IsReport(report, sync, addr)
    ensures Sane(report) && Extend(v, slot, Parse(report).value) == v
  {
    ReportMeaning(report, sync, addr);
    hide Extend;
    if sync {
      var nops :| Nops(nops) && Parse(report) == Some(nops + [WhereAmI(addr)]);
      ExtendConcat(v, slot, nops, [WhereAmI(addr)]);
      NopsSilent(v, slot, nops);
      WhereAmISilent(v, slot, addr);
    } else {
      NopsSilent(v, slot, []);
    }
  }

  lemma ExtendWords(v: View, slot: u64, h: seq<u32>, w: seq<u32>)
    requires Sane(h) && Sane(w)
    ensures Sane(h + w)
    ensures Extend(v, slot, Parse(h + w).value) == Extend(Extend(v, slot, Parse(h).value), slot, Parse(w).value)
  {
    SaneConcat(h, w);
    hide Parse, Extend;
    ParseConcat(h, w);
    ExtendConcat(v, slot, Parse(h).value, Parse(w).value);
  }

  /** One successful AddCmds extends the ring's view by the wrapped body and by nothing else. */
  lemma AppendedView(v: View, slot: u64, h: seq<u32>, pad: seq<u32>, head: nat, s: Submit, input: seq<u32>,
                     report: seq<u32>, sync: bool, addr: u64)
    requires Sane(h) && head < RB_DWORDS && IsPad(pad, pad != [], head) && IsReport(report, sync, addr)
    requires Parse(input).Some? && Neutral(Parse(input).value)
    ensures var h' := h + pad + WrappedWords(s, input) + report;
      && Sane(h')
      && Extend(v, slot, Parse(h').value)
         == Extend(Extend(v, slot, Parse(h).value), slot, Wrapped(s, Parse(input).value))
  {
    hide ModeAfter, IsPad, IsReport, Parse, WrappedWords, Extend, Wrapped;
    var v1 := Extend(v, slot, Parse(h).value);
    var v2 := Extend(v1, slot, Wrapped(s, Parse(input).value));
    PadSilent(v1, slot, pad, head);
    ExtendWords(v, slot, h, pad);
    WrappedMeaning(s, input);
    ExtendWords(v, slot, h + pad, WrappedWords(s, input));
    ReportSilent(v2, slot, report, sync, addr);
    ExtendWords(v, slot, h + pad + WrappedWords(s, input), report);
  }

  /** A body that leaves tables alone runs all its calls under the table in force before it. */
  lemma SubmissionView(v: View, slot: u64, s: Submit, body: seq<Packet>)
    requires WrapperApart(slot, s) && Quiet(slot, body) && Neutral(body)
    ensures Extend(v, slot, Wrapped(s, body)) == v.(ran := v.ran + Under(
      CallEffects(s.profilePre) + CallsOf(Log(BodyMode(s), body)) + CallEffects(s.profilePost), v.table))
  {
    WrapperQuiet(slot, s);
    assert Quiet(slot, Wrapped(s, body));
    hide Extend, Quiet, Wrapped, Log, CallsOf;
    ExtendQuiet(v, slot, KERNEL_MODE, Wrapped(s, body));
    WrappedCalls(s, body);
  }

  lemma SwitchCallsNothing(m: Mode, places: Places, update: bool, ttbr0: u64, id: u32)
    ensures CallsOf(Log(m, SwitchPackets(places, update, ttbr0, id))) == []
  {
    var ps := SwitchPackets(places, update, ttbr0, id);
    forall i | 0 <= i < |ps| ensures !EffectOf(ps[i]).CallIb? {
    }
    hide SwitchPackets, EffectOf;
    PacketsCallNothing(m, ps);
  }

  lemma {:induction false} PacketsCallNothing(m: Mode, ps: seq<Packet>)
    requires forall i :: 0 <= i < |ps| ==> !EffectOf(ps[i]).CallIb?
    ensures CallsOf(Log(m, ps)) == []
    decreases |ps|
  {
    if ps != [] {
      StepCalls(m, ps[0], Log(ModeStep(m, ps[0]), ps[1..]));
      hide EffectOf, ModeStep, LogStep;
      PacketsCallNothing(ModeStep(m, ps[0]), ps[1..]);
    }
  }

  /** A context switch moves the table and the slot together, or neither, and runs nothing. */
  lemma SwitchView(v: View, places: Places, s: Submit, update: bool, ttbr0: u64, id: u32)
    requires PlacesApart(places) && WrapperApart(places.slot, s) && s.profilePre == s.profilePost == None
    ensures Extend(v, places.slot, Wrapped(s, SwitchPackets(places, update, ttbr0, id))) ==
      if update then v.(table := Translation(ttbr0, id), slot := Translation(ttbr0, id)) else v
  {
    var ps := SwitchPackets(places, update, ttbr0, id);
    SwitchFits(places, update, ttbr0, id);
    SwitchMovesBoth(places, v.table, v.slot, update, ttbr0, id);
    SwitchCallsNothing(BodyMode(s), places, update, ttbr0, id);
    hide SwitchPackets, Wrapped, Log, CallsOf, TableOf, SlotOf, WrapperApart;
    WrappedTables(places.slot, v.table, v.slot, s, ps);
    WrappedCalls(s, ps);
    NoCallsNoRuns(KERNEL_MODE, v.table, Wrapped(s, ps));
  }

  lemma QuietFour(slot: u64, a: seq<Packet>, b: seq<Packet>, c: seq<Packet>, d: seq<Packet>)
    requires Quiet(slot, a) && Quiet(slot, b) && Quiet(slot, c) && Quiet(slot, d)
    ensures Quiet(slot, a + b + c + d)
  {
    hide QuietPacket;
  }

  lemma FixedQuiet(slot: u64, word: u32, b: bool, rev: nat, target: u64, ib: Option<Ib>)
    requires target != slot
    ensures Quiet(slot, [Nop(word)]) && Quiet(slot, If(b, AlwaysOn(rev, target))) && Quiet(slot, CallIfAny(ib))
    ensures Quiet(slot, [Pkt7(CP_SET_RENDER_MODE, [0, 0, 0, 0, 0]), Pkt7(CP_YIELD_ENABLE, [1])])
  {
    AddrSplit(target);
  }

  /** The body leaves page tables alone: its only writes are the kernel's profile entries. */
  lemma BodyQuiet(slot: u64, c: Command, rev: nat, first: Option<Ib>, last: Option<Ib>)
    requires c.kernelStarted != slot && c.kernelRetired != slot
    ensures Quiet(slot, BodyPackets(c, rev, first, last))
  {
    hide Quiet, If, CallIfAny, IbPackets, AlwaysOn, Nop;
    var started := If(c.kernelProfile, AlwaysOn(rev, c.kernelStarted));
    var retired := If(c.kernelProfile, AlwaysOn(rev, c.kernelRetired));
    FixedQuiet(slot, START_IB_IDENTIFIER, c.kernelProfile, rev, c.kernelStarted, first);
    FixedQuiet(slot, END_IB_IDENTIFIER, c.kernelProfile, rev, c.kernelRetired, last);
    IbsQuiet(slot, c, Listed(c));
    QuietFour(slot, [Nop(START_IB_IDENTIFIER)], started, CallIfAny(first), IbPackets(c, Listed(c)));
    QuietFour(slot, [Pkt7(CP_SET_RENDER_MODE, [0, 0, 0, 0, 0]), Pkt7(CP_YIELD_ENABLE, [1])], retired, CallIfAny(last),
              [Nop(END_IB_IDENTIFIER)]);
    QuietTwo(slot, BodyHead(c, rev, first), BodyTail(c, rev, last));
  }

  lemma QuietTwo(slot: u64, a: seq<Packet>, b: seq<Packet>)
    requires Quiet(slot, a) && Quiet(slot, b)
    ensures Quiet(slot, a + b)
  {
    hide QuietPacket;
  }

  lemma IbQuiet(slot: u64, c: Command, ib: IbNode)
    ensures QuietPacket(slot, IbPacket(c, ib))
  {
    hide Encode;
    AddrSplit(ib.gpuaddr);
  }

  lemma {:induction false} IbsQuiet(slot: u64, c: Command, ibs: seq<IbNode>)
    ensures Quiet(slot, IbPackets(c, ibs))
  {
    hide QuietPacket, IbPacket;
    if ibs != [] {
      IbsQuiet(slot, c, ibs[1..]);
      IbQuiet(slot, c, ibs[0]);
    }
  }

  // ---------- The driver's side ----------

  datatype Pagetable = Pagetable(name: nat, ttbr0: u64)

  datatype DrawContext = DrawContext(base: Context, pagetable: Pagetable)

  /** drawctxt_active: the context the ring was last switched to. */
  datatype Active = Active(id: u32, pagetable: Pagetable)

  /** A context switch needs a table update when the tables differ, unless the new one is the default. */
  predicate NeedsUpdate(active: Option<Active>, table: Pagetable, fallback: Pagetable) {
    (active.None? || active.value.pagetable != table) && table != fallback
  }

  /** The call of addcmds made for a context switch: no context, F_NOTPROTECTED, no profiling. */
  function SwitchRequest(s: Submit): Submit {
    s.(context := None, notProtected := true, wfi := false, secure := false, timestamp := 0,
       profilePre := None, profilePost := None)
  }

  function SwitchWords(update: bool): nat { if update then 30 else 12 }

  /** The command-building part of a5xx_rb_context_switch; its 32-word buffer suffices. */
  method BuildSwitch(places: Places, update: bool, ttbr0: u64, id: u32) returns (cmds: array<u32>, count: nat)
    ensures fresh(cmds) && cmds.Length == 32 && count == SwitchWords(update)
    ensures AllFit(SwitchPackets(places, update, ttbr0, id))
    ensures cmds[..count] == EncodeAll(SwitchPackets(places, update, ttbr0, id))
  {
    hide EncodeAll, TableSwitch;
    cmds := new u32[32];
    count := 0;
    ghost var done := [];
    EncodeNothing();
    if update {
      count := EmitTableSwitch(cmds, places, ttbr0, id);
      done := TableSwitch(places, ttbr0, id);
    }
    assert cmds[0..count] == cmds[..count];
    count := Emit(cmds, 0, count, done, Nop(CONTEXT_TO_MEM_IDENTIFIER));
    done := done + [Nop(CONTEXT_TO_MEM_IDENTIFIER)];
    count := Emit(cmds, 0, count, done, WriteMem(places.rbContext, id));
    done := done + [WriteMem(places.rbContext, id)];
    count := Emit(cmds, 0, count, done, WriteMem(places.globalContext, id));
    done := done + [WriteMem(places.globalContext, id)];
    count := Emit(cmds, 0, count, done, Pkt4(UCHE_INVALIDATE0, [0x12]));
    assert done + [Pkt4(UCHE_INVALIDATE0, [0x12])] == SwitchPackets(places, update, ttbr0, id);
    assert cmds[0..count] == cmds[..count];
  }

  /** a5xx_rb_pagetable_switch */
  method EmitTableSwitch(cmds: array<u32>, places: Places, ttbr0: u64, id: u32) returns (count: nat)
    requires cmds.Length >= 18
    modifies cmds
    ensures count == 18 && AllFit(TableSwitch(places, ttbr0, id))
    ensures cmds[..count] == EncodeAll(TableSwitch(places, ttbr0, id))
  {
    hide EncodeAll;
    EncodeNothing();
    ghost var ps := TableSwitch(places, ttbr0, id);
    count := Emit(cmds, 0, 0, [], Pkt7(CP_SMMU_TABLE_UPDATE, [Lo(ttbr0), Hi(ttbr0), id]));
    assert [] + [ps[0]] == ps[..1];
    count := Emit(cmds, 0, count, ps[..1], Pkt7(CP_WAIT_FOR_IDLE, []));
    assert ps[..1] + [ps[1]] == ps[..2];
    count := Emit(cmds, 0, count, ps[..2], Pkt7(CP_WAIT_FOR_ME, []));
    assert ps[..2] + [ps[2]] == ps[..3];
    count := Emit(cmds, 0, count, ps[..3], Pkt4(CP_CNTL, [1]));
    assert ps[..3] + [ps[3]] == ps[..4];
    count := Emit(cmds, 0, count, ps[..4],
                  Pkt7(CP_MEM_WRITE, [Lo(places.slot), Hi(places.slot), Lo(ttbr0), Hi(ttbr0), id]));
    assert ps[..4] + [ps[4]] == ps[..5];
    count := Emit(cmds, 0, count, ps[..5], Pkt7(CP_WAIT_FOR_IDLE, []));
    assert ps[..5] + [ps[5]] == ps[..6];
    count := Emit(cmds, 0, count, ps[..6], Pkt7(CP_WAIT_FOR_ME, []));
    assert ps[..6] + [ps[6]] == ps[..7];
    count := Emit(cmds, 0, count, ps[..7], Pkt4(CP_CNTL, [0]));
    assert ps[..7] + [ps[7]] == ps;
    assert cmds[0..count] == cmds[..count];
  }

  lemma BodyParses(input: seq<u32>, ps: seq<Packet>)
    requires AllFit(ps) && input == EncodeAll(ps)
    ensures Parse(input) == Some(ps)
  {
    RoundTrip(ps);
  }

  /** The number n draws after `x`. */
  function After(x: u32, n: nat): u32 { (x + n) % TWO_32 }

  lemma AfterOne(x: u32)
    ensures After(x, 1) == if x == 0xFFFF_FFFF then 0 else x + 1
  {
  }

  /** The numbers a stamped request is drawn are not part of where it stores them. */
  lemma NumberedAs(before: seq<Did>, after: seq<Did>, s: Submit, timestamp: u32, sequence: u32)
    requires Numbered(before, after, Stamped(s, timestamp, sequence), timestamp, sequence)
    ensures Numbered(before, after, s, timestamp, sequence)
  {
  }

  /**
   After everything in `was` the CP runs the submission's profiling IB, the picked IBs between the
   user's profiling IBs, and the profiling IB again, all of them under the table of `now`.
   */
  ghost predicate RanPicked(was: seq<Ran>, now: View, s: Submit, c: Command, first: Option<Ib>, last: Option<Ib>,
                            picks: seq<nat>) {
    && PicksWanted(c, picks)
    && now.ran == was + Under(CallEffects(s.profilePre)
                              + (CallEffects(first) + CallPicked(c, picks) + CallEffects(last))
                              + CallEffects(s.profilePost), now.table)
  }

  /** All that a successful AddCmds means. */
  lemma Appended(v: View, slot: u64, h: seq<u32>, pad: seq<u32>, head: nat, request: Submit, timestamp: u32, sequence: u32,
                 input: seq<u32>, report: seq<u32>, addr: u64)
    returns (pre: seq<Did>, post: seq<Did>)
    requires Sane(h) && head < RB_DWORDS && IsPad(pad, pad != [], head) && IsReport(report, !request.preemption, addr)
    requires Parse(input).Some? && Neutral(Parse(input).value)
    ensures var s := Stamped(request, timestamp, sequence); var h' := h + pad + WrappedWords(s, input) + report;
      var body := Parse(input).value;
      && Sane(h')
      && Extend(v, slot, Parse(h').value) == Extend(Extend(v, slot, Parse(h).value), slot, Wrapped(s, body))
      && Numbered(Meaning(h), Meaning(h'), request, timestamp, sequence)
      && Meaning(h') == Meaning(h) + pre + Log(Mode(!request.notProtected, request.secure), body) + post
  {
    var s := Stamped(request, timestamp, sequence);
    var h' := h + pad + WrappedWords(s, input) + report;
    var sync := !request.preemption;
    hide Sane, Parse, Extend, Wrapped, WrappedWords, IsPad, IsReport, Neutral, Meaning, Numbered, Log, Concat, LogsBefore,
         LogsAfter, IfDid;
    AppendedView(v, slot, h, pad, head, s, input, report, sync, addr);
    AppendedNumbers(h, pad, head, s, input, report, sync, addr);
    NumberedAs(Meaning(h), Meaning(h'), request, timestamp, sequence);
    AppendedMeaning(h, pad, head, s, input, report, sync, addr);
    pre := Concat(LogsBefore(s));
    post := Concat(LogsAfter(s)) + IfDid(sync, Did(Other(CP_WHERE_AM_I, [Lo(addr), Hi(addr)]), KERNEL_MODE));
  }

  /** One ring with its profiling page and its active context. */
  class Submitter {
    const rb: Ringbuffer
    const page: ProfilePage
    const places: Places
    const origin: Translation    // what the ring starts with
    const fallback: Pagetable    // the default page table
    var active: Option<Active>

    /** What the CP has done, or will have done, at the end of everything queued. */
    ghost function Now(): View
      reads this, rb
    {
      Extend(View(origin, origin, []), places.slot, if Sane(rb.history) then Parse(rb.history).value else [])
    }

    /** Among other things: the scratch slot holds the table in force. */
    ghost predicate Valid()
      reads this, rb, rb.buffer, page
    {
      && rb.Valid() && page.Valid() && rb.buffer != page.mem && PlacesApart(places)
      && Sane(rb.history) && Now().slot == Now().table
    }

    /** The table in force is that of the context the driver believes active. */
    ghost predicate Tracked()
      reads this, rb
    {
      active.Some? ==> Now().table.ttbr0 == active.value.pagetable.ttbr0
    }

    /** A ring as it is started: the scratch slot holds the default table, as the SMMU does. */
    constructor (whereAmI: u64, profiling: bool, profileAddr: u64, places: Places, origin: Translation,
                 fallback: Pagetable)
      requires PlacesApart(places)
      ensures Valid() && fresh(rb) && fresh(rb.buffer) && fresh(page) && fresh(page.mem)
      ensures active == None && Now() == View(origin, origin, []) && rb.rptr == 0 && rb.pending == 0
      ensures page.present == profiling && page.index == 0
      ensures this.places == places && this.origin == origin && this.fallback == fallback
    {
      rb := new Ringbuffer(whereAmI);
      page := new ProfilePage(profiling, profileAddr);
      this.places, this.origin, this.fallback, active := places, origin, fallback, None;
      new;
      ParseNothing([]);
    }

    /** One addcmds, seen through what the CP makes of it. */
    method Queue(request: Submit, fault: bool, input: seq<u32>, ghost body: seq<Packet>, sequence: u32, running: bool)
      returns (err: Option<Errno>, sequence': u32, ghost pre: seq<Did>, ghost post: seq<Did>)
      requires rb.Valid() && Sane(rb.history) && |input| <= MAX_REQUEST - SUBMIT_MAX
      requires Parse(input) == Some(body) && Neutral(body)
      modifies rb, rb.buffer
      ensures rb.Valid() && Sane(rb.history)
      ensures err == (if request.context.Some? && request.context.value.detached then Some(ENOENT)
                      else if fault then Some(EPROTO)
                      else if old(Room(rb.rptr, rb.pending, SUBMIT_MAX + |input|)) then None else Some(ENOSPC))
      ensures err.Some? ==> Now() == old(Now()) && rb.pending == old(rb.pending) && rb.wptr == old(rb.wptr)
      ensures err.None? ==>
                && Now() == Extend(old(Now()), places.slot, Wrapped(Stamped(request, rb.timestamp, sequence'), body))
                && rb.wptr == rb.pending
                && (old(Free(rb.rptr, rb.pending, SUBMIT_MAX + |input|)) ==>
                      rb.pending == old(rb.pending) + |WrappedWords(Stamped(request, rb.timestamp, sequence'), input)|
                                    + if request.preemption then 0 else 3)
      ensures rb.rptr == old(rb.rptr)
      // a number is drawn even when there is no room, and each call draws the next one
      ensures rb.timestamp == if err == Some(ENOENT) || err == Some(EPROTO) then old(rb.timestamp)
                              else After(old(rb.timestamp), 1)
      ensures sequence' == if err.None? then After(sequence, 1) else sequence
      ensures err.None? ==> Numbered(Meaning(old(rb.history)), Meaning(rb.history), request, rb.timestamp, sequence')
      // the body runs in the mode the request asks for
      ensures err.None? ==>
                Meaning(rb.history) ==
                  Meaning(old(rb.history)) + pre + Log(Mode(!request.notProtected, request.secure), body) + post
      ensures err.Some? ==> Meaning(rb.history) == Meaning(old(rb.history))
    {
      NoReportIfAsync(rb.whereAmIAddr);
      AfterOne(rb.timestamp);
      AfterOne(sequence);
      hide Sane, Parse, Extend, Wrapped, WrappedWords, IsPad, IsReport, Room, Neutral, Meaning, Numbered, Log, Concat,
           LogsBefore, LogsAfter, IfDid, After, Free, OnTheWay, Between;
      var register;
      pre, post := [], [];
      ghost var pad, report;
      ghost var h, head := rb.history, rb.pending;
      err, sequence', register, pad, report := rb.AddCmds(request, fault, input, sequence, running);
      if err.None? {
        var s := Stamped(request, rb.timestamp, sequence');
        pre, post := Appended(View(origin, origin, []), places.slot, h, pad, head, request, rb.timestamp, sequence', input,
                              report, rb.whereAmIAddr);
      }
    }

    /** The ring has room for a body of n words. */
    predicate HasRoom(n: nat)
      reads this, rb
    {
      Room(rb.rptr, rb.pending, 64 + n)
    }

    /** a5xx_rb_context_switch: queued, it moves the table and the slot together, or neither. */
    method SwitchContext(ctx: DrawContext, request: Submit, fault: bool, sequence: u32, running: bool)
      returns (err: Option<Errno>, sequence': u32, ghost pre: seq<Did>, ghost post: seq<Did>)
      requires Valid() && WrapperApart(places.slot, request)
      modifies rb, rb.buffer
      ensures Valid()
      ensures rb.rptr == old(rb.rptr) && (err.Some? ==> rb.pending == old(rb.pending))
      // the table and the slot move for a table that is neither the active context's nor the default
      // one; this takes 30 words, anything else 12; the commands run unprotected
      ensures var needs := (active.None? || active.value.pagetable != ctx.pagetable) && ctx.pagetable != fallback;
        var to := Translation(ctx.pagetable.ttbr0, ctx.base.id);
        && (err == None <==> !fault && old(Room(rb.rptr, rb.pending, 64 + if needs then 30 else 12)))
        && Now() == (if err == None && needs then old(Now()).(table := to, slot := to) else old(Now()))
        && (err.None? ==>
              Meaning(rb.history) == Meaning(old(rb.history)) + pre
                + SwitchLog(Mode(false, false), places, needs, ctx.pagetable.ttbr0, ctx.base.id) + post)
      ensures err.Some? ==> Meaning(rb.history) == Meaning(old(rb.history))
      ensures rb.timestamp == if fault then old(rb.timestamp) else After(old(rb.timestamp), 1)
      ensures sequence' == if err.None? then After(sequence, 1) else sequence
    {
      hide Sane, Extend, Wrapped, Room, SwitchPackets, Parse, EncodeAll, WrapperApart, Neutral, Meaning, SwitchLog, Log,
           Numbered;
      var update := NeedsUpdate(active, ctx.pagetable, fallback);
      var cmds, count := BuildSwitch(places, update, ctx.pagetable.ttbr0, ctx.base.id);
      ghost var ps := SwitchPackets(places, update, ctx.pagetable.ttbr0, ctx.base.id);
      SwitchFits(places, update, ctx.pagetable.ttbr0, ctx.base.id);
      BodyParses(cmds[..count], ps);
      ghost var before := Now();
      var input := cmds[..count];
      SwitchRuns(Mode(false, false), places, update, ctx.pagetable.ttbr0, ctx.base.id);
      err, sequence', pre, post := Queue(SwitchRequest(request), fault, input, ps, sequence, running);
      if err.None? {
        var s := Stamped(SwitchRequest(request), rb.timestamp, sequence');
        SwitchApart(places.slot, request, rb.timestamp, sequence');
        SwitchView(before, places, s, update, ctx.pagetable.ttbr0, ctx.base.id);
      }
    }

    /**
     a5xx_drawctxt_switch. Its caller never learns whether the context switch was queued: an
     addcmds that finds no room, or a faulted GPU, still makes the new context the active one.
     */
    method SwitchTo(ctx: DrawContext, alive: bool, request: Submit, fault: bool, sequence: u32, running: bool)
      returns (err: Option<Errno>, sequence': u32)
      requires Valid() && WrapperApart(places.slot, request)
      modifies this`active, rb, rb.buffer
      ensures Valid()
      ensures var same := old(active).Some? && old(active).value.id == ctx.base.id;
        var needs := (old(active).None? || old(active).value.pagetable != ctx.pagetable) && ctx.pagetable != fallback;
        var to := Translation(ctx.pagetable.ttbr0, ctx.base.id);
        var tried := !same && !ctx.base.detached && alive && !fault;
        var room := old(Room(rb.rptr, rb.pending, 64 + if needs then 30 else 12));
        && err == (if !same && (ctx.base.detached || !alive) then Some(ENOENT) else None)
        && active == (if same || err.Some? then old(active) else Some(Active(ctx.base.id, ctx.pagetable)))
        && Now() == (if tried && needs && room then old(Now()).(table := to, slot := to) else old(Now()))
        && rb.rptr == old(rb.rptr) && (!(tried && room) ==> rb.pending == old(rb.pending))
        && rb.timestamp == (if tried then After(old(rb.timestamp), 1) else old(rb.timestamp))
        && sequence' == (if tried && room then After(sequence, 1) else sequence)
      ensures Meaning(old(rb.history)) <= Meaning(rb.history)
    {
      hide Sane, Extend, Room, WrapperApart, Meaning, SwitchLog;
      sequence' := sequence;
      if active.Some? && active.value.id == ctx.base.id {
        return None, sequence;
      }
      if ctx.base.detached || !alive {
        return Some(ENOENT), sequence;
      }
      var ignored;
      ghost var pre, post;
      ignored, sequence', pre, post := SwitchContext(ctx, request, fault, sequence, running);
      active := Some(Active(ctx.base.id, ctx.pagetable));
      err := None;
    }

    /** The addcmds of a submission: the CP will run its IBs under the table in force. */
    method QueueBody(request: Submit, fault: bool, input: seq<u32>, ghost c: Command, ghost rev: nat,
                     ghost first: Option<Ib>, ghost last: Option<Ib>, sequence: u32, running: bool)
      returns (err: Option<Errno>, sequence': u32, ghost picks: seq<nat>)
      requires Valid() && |input| <= MAX_REQUEST - SUBMIT_MAX && WrapperApart(places.slot, request)
      requires c.kernelStarted != places.slot && c.kernelRetired != places.slot
      requires AllFit(BodyPackets(c, rev, first, last)) && input == EncodeAll(BodyPackets(c, rev, first, last))
      modifies rb, rb.buffer
      ensures Valid() && Now().table == old(Now()).table
      ensures err == (if request.context.Some? && request.context.value.detached then Some(ENOENT)
                      else if fault then Some(EPROTO)
                      else if old(Room(rb.rptr, rb.pending, SUBMIT_MAX + |input|)) then None else Some(ENOSPC))
      ensures err.Some? ==> Now().ran == old(Now()).ran
      ensures err.None? ==>
                RanPicked(old(Now()).ran, Now(), request, c, first, last, picks)
      ensures rb.timestamp == if err == Some(ENOENT) || err == Some(EPROTO) then old(rb.timestamp)
                              else After(old(rb.timestamp), 1)
      ensures err.None? ==> Numbered(Meaning(old(rb.history)), Meaning(rb.history), request, rb.timestamp, sequence')
    {
      hide Sane, Extend, Wrapped, Room, BodyPackets, Under, WrapperApart, Quiet, Neutral, CallsOf, Log,
           Parse, EncodeAll, CallEffects, AllFit, BodyMode, PicksWanted, CallPicked, Numbered, Meaning;
      ghost var ps := BodyPackets(c, rev, first, last);
      BodyFits(c, rev, first, last);
      BodyParses(input, ps);
      ghost var before := Now();
      ghost var pre, post;
      err, sequence', pre, post := Queue(request, fault, input, ps, sequence, running);
      picks := [];
      if err.None? {
        BodyQuiet(places.slot, c, rev, first, last);
        var s := Stamped(request, rb.timestamp, sequence');
        StampedApart(places.slot, request, rb.timestamp, sequence');
        SubmissionView(before, places.slot, s, ps);
        picks := BodyCalls(BodyMode(s), c, rev, first, last);
      }
    }

    /**
     a5xx_ringbuffer_submitcmd. When it succeeds, the CP runs, after everything queued before, the
     profiling IB, the wanted IBs in order and the profiling IB again, all under one page table:
     the context's, if a table update was needed and there was room for it, and otherwise the one
     in force before. When it fails, the CP runs nothing new, but the table may have moved.
     */
    method SubmitCmd(ctx: DrawContext, alive: bool, c: Command, rev: nat, request: Submit, fault: bool,
                     sequence: u32, running: bool)
      returns (err: Option<Errno>, sequence': u32, ghost first: Option<Ib>, ghost last: Option<Ib>,
               ghost picks: seq<nat>)
      requires Valid() && request.context == Some(ctx.base) && |c.ibs| <= KGSL_MAX_NUMIBS
      requires WrapperApart(places.slot, request)
      requires c.kernelStarted != places.slot && c.kernelRetired != places.slot
      modifies this`active, rb, rb.buffer, page, page.mem
      ensures Valid()
      ensures var same := old(active).Some? && old(active).value.id == ctx.base.id;
        && (err == Some(ENOENT) <==> ctx.base.detached || (!same && !alive))
        && (err == Some(EPROTO) <==> err != Some(ENOENT) && fault)
        && active == (if same || err == Some(ENOENT) then old(active) else Some(Active(ctx.base.id, ctx.pagetable)))
        // the switch draws a number whenever it is tried, the body draws the next one
        && rb.timestamp == (if err == Some(ENOENT) || fault then old(rb.timestamp)
                            else After(old(rb.timestamp), if same then 1 else 2))
      // the table moves for a new context whose table is neither the active one's nor the default one,
      // given room for 64 + 30 words; the ring runs the active context's table exactly when it moved,
      // when there was no switch, or when the tables agree
      ensures var same := old(active).Some? && old(active).value.id == ctx.base.id;
        var needs := (old(active).None? || old(active).value.pagetable != ctx.pagetable) && ctx.pagetable != fallback;
        var moved := !same && err != Some(ENOENT) && !fault && needs && old(Room(rb.rptr, rb.pending, 64 + 30));
        && Now().table == Now().slot
           == (if moved then Translation(ctx.pagetable.ttbr0, ctx.base.id) else old(Now()).table)
        && (old(Tracked()) && err != Some(ENOENT) ==>
              (Tracked() <==> same || ctx.pagetable.ttbr0 == old(Now()).table.ttbr0 || moved))
      // with no switch queued, it succeeds exactly when the body itself finds room
      ensures var same := old(active).Some? && old(active).value.id == ctx.base.id;
        var needs := (old(active).None? || old(active).value.pagetable != ctx.pagetable) && ctx.pagetable != fallback;
        var words := BodyWords(c, rev, first, last);
        err != Some(ENOENT) && !fault && (same || !old(HasRoom(if needs then 30 else 12))) ==>
          (err == None <==> old(HasRoom(words)))
      ensures err.Some? ==> Now().ran == old(Now()).ran
      ensures err.None? ==>
                RanPicked(old(Now()).ran, Now(), request, c, first, last, picks)
      ensures err.None? ==> Numbered(Meaning(old(rb.history)), Meaning(rb.history), request, rb.timestamp, sequence')
      ensures first == (if c.userProfile && page.present then Some(page.SlotIb(old(page.index))) else None)
      ensures last == (if c.userProfile && page.present
                       then Some(page.SlotIb((old(page.index) + 1) % PROFILE_IB_SLOTS)) else None)
    {
      hide Sane, Extend, Room, BodyPackets, NeedsUpdate, Under, WrapperApart, EncodeAll, CallEffects, AllFit,
           BodyWords, SwitchWords, RanPicked, Numbered, Meaning;
      picks := [];
      var cmds, index;
      cmds, index, first, last := BuildBody(c, rev, page);
      var input := cmds[..index];
      BodyWordsAre(c, rev, first, last);
      err, sequence' := SwitchTo(ctx, alive, request, fault, sequence, running);
      if err.Some? {
        return;
      }
      ghost var switched := rb.history;
      err, sequence', picks := QueueBody(request, fault, input, c, rev, first, last, sequence', running);
      if err.None? {
        NumberedLater(Meaning(old(rb.history)), Meaning(switched), Meaning(rb.history), request, rb.timestamp, sequence');
      }
    }
  }

  const KGSL_MAX_NUMIBS := 2000

  /** The words of a body. */
  function BodyWords(c: Command, rev: nat, first: Option<Ib>, last: Option<Ib>): nat {
    Size(BodyPackets(c, rev, first, last))
  }

  lemma BodyWordsAre(c: Command, rev: nat, first: Option<Ib>, last: Option<Ib>)
    ensures AllFit(BodyPackets(c, rev, first, last))
    ensures |EncodeAll(BodyPackets(c, rev, first, last))| == BodyWords(c, rev, first, last)
  {
    BodyFits(c, rev, first, last);
    SizeOfEncoding(BodyPackets(c, rev, first, last));
  }

  lemma NoReportIfAsync(addr: u64)
    ensures forall report :: IsReport(report, false, addr) ==> report == []
  {
  }

  lemma SwitchApart(slot: u64, s: Submit, timestamp: u32, sequence: u32)
    requires WrapperApart(slot, s)
    ensures WrapperApart(slot, Stamped(SwitchRequest(s), timestamp, sequence))
  {
  }

  lemma StampedApart(slot: u64, s: Submit, timestamp: u32, sequence: u32)
    requires WrapperApart(slot, s)
    ensures WrapperApart(slot, Stamped(s, timestamp, sequence))
  {
  }
}
