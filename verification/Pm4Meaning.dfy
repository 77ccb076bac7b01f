/** What the CP does when it runs a wrapped command body, for every flag combination. */
module Pm4Meaning {
  import opened Basics
  import opened Pm4
  import opened Pm4Machine
  import opened Pm4Commands

  // ---------- Running a stream given as parts ----------

  function Concat(logs: seq<seq<Did>>): seq<Did> {
    if logs == [] then [] else logs[0] + Concat(logs[1..])
  }

  /** modes[i] is the mode part i starts in. */
  lemma {:induction false} RunFlatten(parts: seq<seq<Packet>>, modes: seq<Mode>, logs: seq<seq<Did>>)
    requires |modes| == |parts| + 1 && |logs| == |parts|
    requires forall i :: 0 <= i < |parts| ==> ModeAfter(modes[i], parts[i]) == modes[i + 1]
    requires forall i :: 0 <= i < |parts| ==> Log(modes[i], parts[i]) == logs[i]
    ensures ModeAfter(modes[0], Flatten(parts)) == modes[|parts|]
    ensures Log(modes[0], Flatten(parts)) == Concat(logs)
  {
    if parts != [] {
      RunFlatten(parts[1..], modes[1..], logs[1..]);
      RunConcat(modes[0], parts[0], Flatten(parts[1..]));
    }
  }

  lemma RunOne(m: Mode, p: Packet)
    ensures ModeAfter(m, [p]) == ModeStep(m, p) && Log(m, [p]) == LogStep(m, p)
  {
    hide ModeStep, LogStep;
    assert [p][1..] == [];
    assert LogStep(m, p) + [] == LogStep(m, p);
  }

  lemma RunTwo(m: Mode, p: Packet, q: Packet)
    ensures ModeAfter(m, [p, q]) == ModeStep(ModeStep(m, p), q)
    ensures Log(m, [p, q]) == LogStep(m, p) + LogStep(ModeStep(m, p), q)
  {
    hide ModeStep, LogStep;
    RunOne(ModeStep(m, p), q);
    assert [p, q][1..] == [q];
  }

  // ---------- What the wrapper does ----------

  const UNPROTECTED := Mode(false, false)

  /** The mode the body runs in. */
  function BodyMode(s: Submit): Mode { Mode(!s.notProtected, s.secure) }

  function CallLog(ib: Option<Ib>, m: Mode): seq<Did> {
    match ib case None => [] case Some(i) => [Did(CallIb(i.addr, i.dwords), m)]
  }

  /**
   Preemption set-up: the save address is written unprotected, the rest protected. Preemption inside
   a submission is only enabled for a context that asked for it, style 2, and is not secure.
   */
  function PreemptLog(s: Submit): seq<Did> {
    var fine := s.context.Some? && !s.context.value.secure && s.context.value.style == 2;
    if !s.preemption then [] else [
      Did(Other(CP_PREEMPT_ENABLE_GLOBAL, [if fine then 2 else 0]), Mode(true, false)),
      Did(RegWrite(0x83E, [s.recordAddr % 0x1_0000_0000]), Mode(false, false)),
      Did(RegWrite(0x83F, [s.recordAddr / 0x1_0000_0000]), Mode(false, false)),
      Did(Other(CP_PREEMPT_ENABLE_LOCAL, [if fine then 1 else 0]), Mode(true, false)),
      Did(Other(CP_YIELD_ENABLE, [2]), Mode(true, false))]
  }

  function StartLog(s: Submit): seq<Did> {
    (match s.context
     case None => []
     case Some(c) => [Did(MemWrite(c.soptimestamp, [s.timestamp]), KERNEL_MODE)])
    + [Did(MemWrite(s.rbSoptimestamp, [s.rbTimestamp]), KERNEL_MODE)]
  }

  /** One interrupt per submission, raised by the context's stamp if there is a context. */
  function EndLog(s: Submit): seq<Did> {
    var m := Mode(true, s.secure);
    match s.context
    case None => [Did(Stamp(0x8000_0004, s.rbEoptimestamp, s.rbTimestamp), m)]
    case Some(c) =>
      [Did(Stamp(0x8000_0004, c.eoptimestamp, s.timestamp), m),
       Did(Stamp(4, s.rbEoptimestamp, s.rbTimestamp), m)]
  }

  function IfDid(b: bool, d: Did): seq<Did> { if b then [d] else [] }

  function LogsBefore(s: Submit): seq<seq<Did>> {
    [[], PreemptLog(s), CallLog(s.profilePre, KERNEL_MODE), StartLog(s), [], []]
  }

  function LogsAfter(s: Submit): seq<seq<Did>> {
    var m := Mode(true, s.secure);
    [[], CallLog(s.profilePost, m),
     IfDid(s.waitMemWrites, Did(Other(CP_WAIT_MEM_WRITES, []), m)),
     [Did(MemWrite(s.refWaitTs, [s.sequence]), m)],
     EndLog(s),
     IfDid(s.wfi, Did(Other(CP_WAIT_FOR_IDLE, []), m)),
     [],
     IfDid(s.preemption, Did(Yield(0, 1, true), KERNEL_MODE))]
  }

  /** Two pieces in a row. */
  lemma RunBoth(m: Mode, n: Mode, ps: seq<Packet>, qs: seq<Packet>, a: seq<Did>, b: seq<Did>)
    requires ModeAfter(m, ps) == n && Log(m, ps) == a && Log(n, qs) == b
    ensures ModeAfter(m, ps + qs) == ModeAfter(n, qs) && Log(m, ps + qs) == a + b
  {
    RunConcat(m, ps, qs);
  }

  lemma PreIbSubmitRuns(s: Submit)
    ensures ModeAfter(KERNEL_MODE, PreIbSubmit(s)) == KERNEL_MODE
    ensures Log(KERNEL_MODE, PreIbSubmit(s)) == PreemptLog(s)
  {
    if s.preemption {
      var ps, log := PreIbSubmit(s), PreemptLog(s);
      RunTwo(KERNEL_MODE, ps[0], ps[1]);
      RunTwo(UNPROTECTED, ps[2], ps[3]);
      RunTwo(UNPROTECTED, ps[4], ps[5]);
      RunOne(KERNEL_MODE, ps[6]);
      assert ps == [ps[0], ps[1]] + [ps[2], ps[3]] + [ps[4], ps[5]] + [ps[6]];
      assert log == [log[0]] + [log[1], log[2]] + [log[3]] + [log[4]];
      hide ModeAfter, Log, PreIbSubmit, PreemptLog, ModeStep, LogStep;
      RunBoth(KERNEL_MODE, UNPROTECTED, [ps[0], ps[1]], [ps[2], ps[3]], [log[0]], [log[1], log[2]]);
      RunBoth(KERNEL_MODE, UNPROTECTED, [ps[0], ps[1]] + [ps[2], ps[3]], [ps[4], ps[5]],
              [log[0]] + [log[1], log[2]], [log[3]]);
      RunBoth(KERNEL_MODE, KERNEL_MODE, [ps[0], ps[1]] + [ps[2], ps[3]] + [ps[4], ps[5]], [ps[6]],
              [log[0]] + [log[1], log[2]] + [log[3]], [log[4]]);
    }
  }

  lemma CallRuns(ib: Option<Ib>, m: Mode)
    ensures ModeAfter(m, CallIfAny(ib)) == m && Log(m, CallIfAny(ib)) == CallLog(ib, m)
  {
    match ib {
      case None =>
      case Some(i) =>
        RunOne(m, Call(i));
        AddrSplit(i.addr);
    }
  }

  lemma WriteMemRuns(m: Mode, addr: u64, value: u32)
    ensures ModeStep(m, WriteMem(addr, value)) == m
    ensures LogStep(m, WriteMem(addr, value)) == [Did(MemWrite(addr, [value]), m)]
  {
    AddrSplit(addr);
    assert [Lo(addr), Hi(addr), value][2..] == [value];
  }

  lemma StampsRun(s: Submit)
    ensures ModeAfter(KERNEL_MODE, StartStamps(s)) == KERNEL_MODE
    ensures Log(KERNEL_MODE, StartStamps(s)) == StartLog(s)
  {
    var rb := WriteMem(s.rbSoptimestamp, s.rbTimestamp);
    WriteMemRuns(KERNEL_MODE, s.rbSoptimestamp, s.rbTimestamp);
    match s.context {
      case None =>
        assert StartStamps(s) == [rb];
        RunOne(KERNEL_MODE, rb);
      case Some(c) =>
        assert StartStamps(s) == [WriteMem(c.soptimestamp, s.timestamp), rb];
        WriteMemRuns(KERNEL_MODE, c.soptimestamp, s.timestamp);
        RunTwo(KERNEL_MODE, WriteMem(c.soptimestamp, s.timestamp), rb);
    }
  }

  lemma EndStampsRun(s: Submit)
    ensures ModeAfter(Mode(true, s.secure), EndStamps(s)) == Mode(true, s.secure)
    ensures Log(Mode(true, s.secure), EndStamps(s)) == EndLog(s)
  {
    var m := Mode(true, s.secure);
    AddrSplit(s.rbEoptimestamp);
    match s.context {
      case None => RunOne(m, EndStamps(s)[0]);
      case Some(c) =>
        AddrSplit(c.eoptimestamp);
        RunTwo(m, EndStamps(s)[0], EndStamps(s)[1]);
    }
  }

  lemma PrologueModes(s: Submit, word: u32)
    ensures var k, m := KERNEL_MODE, Mode(true, s.secure);
      && ModeAfter(k, [Nop(word)]) == k && Log(k, [Nop(word)]) == []
      && ModeAfter(k, If(s.secure, SetSecure(true))) == m && Log(k, If(s.secure, SetSecure(true))) == []
      && ModeAfter(m, If(s.notProtected, SetProtected(false))) == BodyMode(s)
      && Log(m, If(s.notProtected, SetProtected(false))) == []
  {
    RunOne(KERNEL_MODE, Nop(word));
    RunOne(KERNEL_MODE, SetSecure(true));
    RunOne(Mode(true, s.secure), SetProtected(false));
  }

  /** Before the body: the listed effects, ending in the body's mode. */
  lemma PrologueRuns(s: Submit)
    ensures ModeAfter(KERNEL_MODE, Prologue(s)) == BodyMode(s)
    ensures Log(KERNEL_MODE, Prologue(s)) == Concat(LogsBefore(s))
  {
    hide Log, ModeAfter, CallIfAny, CallLog, PreIbSubmit, PreemptLog, StartStamps, StartLog, If, BodyMode, Flatten, Concat;
    var k, m := KERNEL_MODE, Mode(true, s.secure);
    PrologueModes(s, if s.context.Some? then CMD_IDENTIFIER else CMD_INTERNAL_IDENTIFIER);
    PreIbSubmitRuns(s);
    CallRuns(s.profilePre, k);
    StampsRun(s);
    RunFlatten(PrologueParts(s), [k, k, k, k, k, m, BodyMode(s)], LogsBefore(s));
  }

  lemma EpilogueRunsFirst(s: Submit)
    ensures var b, m := BodyMode(s), Mode(true, s.secure);
      && ModeAfter(b, If(s.notProtected, SetProtected(true))) == m
      && Log(b, If(s.notProtected, SetProtected(true))) == []
      && ModeAfter(m, If(s.waitMemWrites, Pkt7(CP_WAIT_MEM_WRITES, []))) == m
      && Log(m, If(s.waitMemWrites, Pkt7(CP_WAIT_MEM_WRITES, [])))
         == IfDid(s.waitMemWrites, Did(Other(CP_WAIT_MEM_WRITES, []), m))
      && ModeAfter(m, [WriteMem(s.refWaitTs, s.sequence)]) == m
      && Log(m, [WriteMem(s.refWaitTs, s.sequence)]) == [Did(MemWrite(s.refWaitTs, [s.sequence]), m)]
  {
    var b, m := BodyMode(s), Mode(true, s.secure);
    RunOne(b, SetProtected(true));
    RunOne(m, Pkt7(CP_WAIT_MEM_WRITES, []));
    WriteMemRuns(m, s.refWaitTs, s.sequence);
    RunOne(m, WriteMem(s.refWaitTs, s.sequence));
  }

  lemma EpilogueRunsLast(s: Submit)
    ensures var m, k := Mode(true, s.secure), KERNEL_MODE;
      && ModeAfter(m, If(s.wfi, Pkt7(CP_WAIT_FOR_IDLE, []))) == m
      && Log(m, If(s.wfi, Pkt7(CP_WAIT_FOR_IDLE, []))) == IfDid(s.wfi, Did(Other(CP_WAIT_FOR_IDLE, []), m))
      && ModeAfter(m, If(s.secure, SetSecure(false))) == k
      && Log(m, If(s.secure, SetSecure(false))) == []
      && ModeAfter(k, PostIbSubmit(s)) == k
      && Log(k, PostIbSubmit(s)) == IfDid(s.preemption, Did(Yield(0, 1, true), k))
  {
    var m, k := Mode(true, s.secure), KERNEL_MODE;
    RunOne(m, Pkt7(CP_WAIT_FOR_IDLE, []));
    RunOne(m, SetSecure(false));
    RunOne(k, Pkt7(CP_CONTEXT_SWITCH_YIELD, [0, 0, 1, 1]));
  }

  /** After the body: the listed effects, ending protected and not secure. */
  lemma EpilogueRuns(s: Submit)
    ensures ModeAfter(BodyMode(s), Epilogue(s)) == KERNEL_MODE
    ensures Log(BodyMode(s), Epilogue(s)) == Concat(LogsAfter(s))
  {
    hide Log, ModeAfter, CallIfAny, CallLog, EndStamps, EndLog, PostIbSubmit, If, IfDid, BodyMode, Flatten, Concat;
    var b, m, k := BodyMode(s), Mode(true, s.secure), KERNEL_MODE;
    EpilogueRunsFirst(s);
    CallRuns(s.profilePost, m);
    EndStampsRun(s);
    EpilogueRunsLast(s);
    RunFlatten(EpilogueParts(s), [b, m, m, m, m, m, m, k, k], LogsAfter(s));
  }

  /**
   The meaning of a submission. For every flag, context, profiling and preemption combination, a
   body that does not switch modes itself runs unprotected exactly when NOTPROTECTED is set and
   secure exactly when SECURE is set; the start timestamps are written before it and the end
   timestamps after it; and the CP ends in protected, non-secure mode.
   */
  lemma WrappedRuns(s: Submit, body: seq<Packet>)
    requires Neutral(body)
    ensures ModeAfter(KERNEL_MODE, Wrapped(s, body)) == KERNEL_MODE
    ensures Log(KERNEL_MODE, Wrapped(s, body)) ==
      Concat(LogsBefore(s)) + Log(BodyMode(s), body) + Concat(LogsAfter(s))
    ensures forall i :: 0 <= i < |Log(BodyMode(s), body)| ==>
      Log(BodyMode(s), body)[i].mode == Mode(!s.notProtected, s.secure)
  {
    hide Log, ModeAfter;
    PrologueRuns(s);
    NeutralKeepsMode(BodyMode(s), body);
    NeutralLogsOneMode(BodyMode(s), body);
    EpilogueRuns(s);
    RunConcat(KERNEL_MODE, Prologue(s), body);
    RunConcat(KERNEL_MODE, Prologue(s) + body, Epilogue(s));
  }

  lemma {:induction false} ConcatContains(logs: seq<seq<Did>>, i: nat, d: Did)
    requires i < |logs| && d in logs[i]
    ensures d in Concat(logs)
  {
    if i > 0 {
      ConcatContains(logs[1..], i - 1, d);
    }
  }

  lemma {:induction false} ConcatOrigin(logs: seq<seq<Did>>, d: Did) returns (i: nat)
    requires d in Concat(logs)
    ensures i < |logs| && d in logs[i]
  {
    if d in logs[0] {
      i := 0;
    } else {
      var j := ConcatOrigin(logs[1..], d);
      i := j + 1;
    }
  }

  lemma EndStampsArePresent(s: Submit)
    ensures s.context.Some? ==>
      Did(Stamp(0x8000_0004, s.context.value.eoptimestamp, s.timestamp), Mode(true, s.secure)) in EndLog(s)
    ensures Did(Stamp(if s.context.Some? then 4 else 0x8000_0004, s.rbEoptimestamp, s.rbTimestamp), Mode(true, s.secure)) in EndLog(s)
  {
    var last := EndLog(s)[|EndLog(s)| - 1];
    assert last.effect.addr == s.rbEoptimestamp;
    if s.context.Some? {
      assert EndLog(s)[0].effect.addr == s.context.value.eoptimestamp;
    }
  }

  lemma NoStampBefore(s: Submit, d: Did)
    requires d in Concat(LogsBefore(s))
    ensures !d.effect.Stamp?
  {
    var i := ConcatOrigin(LogsBefore(s), d);
  }

  lemma OneWriteAfter(s: Submit, d: Did)
    requires d in Concat(LogsAfter(s)) && d.effect.MemWrite?
    ensures d.effect.addr == s.refWaitTs
  {
    var i := ConcatOrigin(LogsAfter(s), d);
  }

  /** Timestamps: start stamps only before the body, end stamps only after it. */
  lemma StampsFrameTheBody(s: Submit)
    ensures Did(MemWrite(s.rbSoptimestamp, [s.rbTimestamp]), KERNEL_MODE) in Concat(LogsBefore(s))
    ensures s.context.Some? ==>
      && Did(MemWrite(s.context.value.soptimestamp, [s.timestamp]), KERNEL_MODE) in Concat(LogsBefore(s))
      && Did(Stamp(0x8000_0004, s.context.value.eoptimestamp, s.timestamp), Mode(true, s.secure))
         in Concat(LogsAfter(s))
    ensures Did(Stamp(if s.context.Some? then 4 else 0x8000_0004, s.rbEoptimestamp, s.rbTimestamp), Mode(true, s.secure)) in Concat(LogsAfter(s))
    ensures forall d :: d in Concat(LogsBefore(s)) ==> !d.effect.Stamp?
    ensures Did(MemWrite(s.refWaitTs, [s.sequence]), Mode(true, s.secure)) in Concat(LogsAfter(s))
    ensures forall d :: d in Concat(LogsAfter(s)) && d.effect.MemWrite? ==> d.effect.addr == s.refWaitTs
  {
    var m := Mode(true, s.secure);
    ConcatContains(LogsAfter(s), 3, Did(MemWrite(s.refWaitTs, [s.sequence]), m));
    ConcatContains(LogsBefore(s), 3, Did(MemWrite(s.rbSoptimestamp, [s.rbTimestamp]), KERNEL_MODE));
    if s.context.Some? {
      var ctxStart := Did(MemWrite(s.context.value.soptimestamp, [s.timestamp]), KERNEL_MODE);
      assert ctxStart == StartLog(s)[0];
      ConcatContains(LogsBefore(s), 3, ctxStart);
    }
    EndStampsArePresent(s);
    forall d | d in EndLog(s) ensures d in Concat(LogsAfter(s)) {
      ConcatContains(LogsAfter(s), 4, d);
    }
    forall d | d in Concat(LogsBefore(s)) ensures !d.effect.Stamp? {
      NoStampBefore(s, d);
    }
    forall d | d in Concat(LogsAfter(s)) && d.effect.MemWrite? ensures d.effect.addr == s.refWaitTs {
      OneWriteAfter(s, d);
    }
  }

  /** Every register the wrapper writes, it writes unprotected; it writes only the save address. */
  lemma WrapperWritesOnlyTheSaveAddress(s: Submit, d: Did)
    requires d in Concat(LogsBefore(s)) || d in Concat(LogsAfter(s))
    requires d.effect.RegWrite?
    ensures s.preemption && !d.mode.prot
    ensures (d.effect.reg == 0x83E && d.effect.values == [s.recordAddr % 0x1_0000_0000])
            || (d.effect.reg == 0x83F && d.effect.values == [s.recordAddr / 0x1_0000_0000])
  {
    if d in Concat(LogsBefore(s)) {
      var i := ConcatOrigin(LogsBefore(s), d);
    } else {
      var i := ConcatOrigin(LogsAfter(s), d);
      assert false;
    }
  }

  /** With preemption on the wrapper ends with a yield; it contains no other. */
  lemma YieldIsLast(s: Submit)
    ensures var log := Concat(LogsAfter(s)); var n := if s.preemption then 1 else 0;
      && n <= |log| && (s.preemption ==> log[|log| - 1] == Did(Yield(0, 1, true), KERNEL_MODE))
      && (forall i :: 0 <= i < |log| - n ==> !log[i].effect.Yield?)
    ensures forall d :: d in Concat(LogsBefore(s)) ==> !d.effect.Yield?
  {
    var logs := LogsAfter(s);
    var init := logs[..7];
    ConcatSplit(init, [logs[7]]);
    assert logs == init + [logs[7]];
    LastPart(s);
    forall d | d in Concat(init) ensures !d.effect.Yield? {
      var i := ConcatOrigin(init, d);
    }
    forall d | d in Concat(LogsBefore(s)) ensures !d.effect.Yield? {
      var i := ConcatOrigin(LogsBefore(s), d);
    }
  }

  lemma LastPart(s: Submit)
    ensures Concat([LogsAfter(s)[7]]) == IfDid(s.preemption, Did(Yield(0, 1, true), KERNEL_MODE))
  {
    var last := LogsAfter(s)[7];
    assert [last][1..] == [];
    assert Concat([last]) == last + [];
  }

  lemma {:induction false} ConcatSplit(a: seq<seq<Did>>, b: seq<seq<Did>>)
    ensures Concat(a + b) == Concat(a) + Concat(b)
  {
    if a == [] {
      assert a + b == b;
    } else {
      ConcatSplit(a[1..], b);
      assert (a + b)[1..] == a[1..] + b;
    }
  }
}
