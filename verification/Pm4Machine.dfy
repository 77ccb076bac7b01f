/** An interpreter for the packets the driver emits: what the CP does when it runs a stream. */
module Pm4Machine {
  import opened Basics
  import opened Pm4

  /** The protected and secure modes of the CP. */
  datatype Mode = Mode(prot: bool, secure: bool)

  /** Kernel streams start and end here. */
  const KERNEL_MODE := Mode(true, false)

  datatype Effect =
    | MemWrite(addr: u64, data: seq<u32>)
    | CallIb(addr: u64, dwords: u32)
    | RegWrite(reg: nat, values: seq<u32>)
    | RegToMem(source: u32, addr: u64)
    | TableUpdate(ttbr0: u64, id: u32)
    | Stamp(event: u32, addr: u64, value: u32)
    | Yield(addr: u64, value: u32, interrupt: bool)
    | Other(op: nat, args: seq<u32>)

  /** An effect and the mode it happened in. */
  datatype Did = Did(effect: Effect, mode: Mode)

  function ModeStep(m: Mode, p: Packet): Mode {
    if p.Pkt7? && |p.payload| == 1 then
      if p.op == CP_SET_PROTECTED_MODE then m.(prot := p.payload[0] != 0)
      else if p.op == CP_SET_SECURE_MODE then m.(secure := p.payload[0] != 0)
      else m
    else m
  }

  predicate SetsMode(p: Packet) {
    p.Pkt7? && (p.op == CP_SET_PROTECTED_MODE || p.op == CP_SET_SECURE_MODE)
  }

  function EffectOf(p: Packet): Effect {
    match p
    case Pkt4(reg, values) => RegWrite(reg, values)
    case Pkt7(op, a) =>
      if op == CP_MEM_WRITE && |a| >= 2 then MemWrite(Addr(a[0], a[1]), a[2..])
      else if op == CP_INDIRECT_BUFFER_PFE && |a| == 3 then CallIb(Addr(a[0], a[1]), a[2])
      else if op == CP_REG_TO_MEM && |a| == 3 then RegToMem(a[0], Addr(a[1], a[2]))
      else if op == CP_SMMU_TABLE_UPDATE && |a| == 3 then TableUpdate(Addr(a[0], a[1]), a[2])
      else if op == CP_EVENT_WRITE && |a| == 4 then Stamp(a[0], Addr(a[1], a[2]), a[3])
      else if op == CP_CONTEXT_SWITCH_YIELD && |a| == 4 then Yield(Addr(a[0], a[1]), a[2], a[3] != 0)
      else Other(op, a)
  }

  /** NOPs and mode switches leave no trace of their own. */
  function LogStep(m: Mode, p: Packet): seq<Did> {
    if SetsMode(p) || (p.Pkt7? && p.op == CP_NOP) then [] else [Did(EffectOf(p), m)]
  }

  function ModeAfter(m: Mode, ps: seq<Packet>): Mode
    decreases |ps|
  {
    if ps == [] then m else ModeAfter(ModeStep(m, ps[0]), ps[1..])
  }

  function Log(m: Mode, ps: seq<Packet>): seq<Did>
    decreases |ps|
  {
    if ps == [] then [] else LogStep(m, ps[0]) + Log(ModeStep(m, ps[0]), ps[1..])
  }

  lemma {:induction false} RunConcat(m: Mode, ps: seq<Packet>, qs: seq<Packet>)
    ensures ModeAfter(m, ps + qs) == ModeAfter(ModeAfter(m, ps), qs)
    ensures Log(m, ps + qs) == Log(m, ps) + Log(ModeAfter(m, ps), qs)
    decreases |ps|
  {
    hide ModeStep, LogStep;
    if ps == [] {
      assert ps + qs == qs;
    } else {
      RunConcat(ModeStep(m, ps[0]), ps[1..], qs);
      assert (ps + qs)[1..] == ps[1..] + qs;
    }
  }

  /** A stream that never switches modes. */
  predicate Neutral(ps: seq<Packet>) {
    forall i :: 0 <= i < |ps| ==> !SetsMode(ps[i])
  }

  lemma {:induction false} NeutralKeepsMode(m: Mode, ps: seq<Packet>)
    requires Neutral(ps)
    ensures ModeAfter(m, ps) == m
  {
    if ps != [] {
      NeutralKeepsMode(m, ps[1..]);
    }
  }

  /** Everything a neutral stream does, it does in the mode it was entered in. */
  lemma {:induction false} NeutralLogsOneMode(m: Mode, ps: seq<Packet>)
    requires Neutral(ps)
    ensures forall i :: 0 <= i < |Log(m, ps)| ==> Log(m, ps)[i].mode == m
  {
    if ps != [] {
      NeutralLogsOneMode(m, ps[1..]);
    }
  }

  /** The indirect buffers called, in order. */
  function CallsOf(log: seq<Did>): seq<Effect> {
    if log == [] then []
    else (if log[0].effect.CallIb? then [log[0].effect] else []) + CallsOf(log[1..])
  }

  lemma {:induction false} CallsConcat(a: seq<Did>, b: seq<Did>)
    ensures CallsOf(a + b) == CallsOf(a) + CallsOf(b)
  {
    if a == [] {
      assert a + b == b;
    } else {
      CallsConcat(a[1..], b);
      assert (a + b)[1..] == a[1..] + b;
      assert CallsOf(a + b) == (if a[0].effect.CallIb? then [a[0].effect] else []) + CallsOf(a[1..] + b);
    }
  }

  lemma AddrSplit(a: u64)
    ensures Addr(Lo(a), Hi(a)) == a
  {
  }
}
