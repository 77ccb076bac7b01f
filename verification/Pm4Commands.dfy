/**
 The packets a5xx_ringbuffer_addcmds wraps around a command body, and what the CP does with them.
 */
module Pm4Commands {
  import opened Basics
  import opened Pm4
  import opened Pm4Machine

  const SUBMIT_MAX := 64
  const CMD_IDENTIFIER: u32 := 0x2EED_FACE
  const CMD_INTERNAL_IDENTIFIER: u32 := 0x2EED_D00D
  const CACHE_FLUSH_TS: u32 := 4
  const CACHE_FLUSH_TS_IRQ: u32 := 0x8000_0004
  const SAVE_ADDR_LO := 0x83E
  const SAVE_ADDR_HI := 0x83F
  const PREEMPT_STYLE_RINGBUFFER := 1
  const PREEMPT_STYLE_FINEGRAIN := 2

  datatype Ib = Ib(addr: u64, dwords: u32)

  /** What addcmds reads from a draw context. */
  datatype Context = Context(id: u32, detached: bool, secure: bool, style: nat,
                             soptimestamp: u64, eoptimestamp: u64)

  /** The inputs of one call of addcmds, apart from the body. */
  datatype Submit = Submit(
    preemption: bool,          // adreno_is_preemption_enabled
    recordAddr: u64,           // rb->preemption_desc->gpuaddr
    context: Option<Context>,
    notProtected: bool, wfi: bool, secure: bool,  // flags
    timestamp: u32,            // the context's timestamp
    rbTimestamp: u32,          // rb->timestamp after its increment
    sequence: u32,
    rbSoptimestamp: u64, rbEoptimestamp: u64, refWaitTs: u64,
    profilePre: Option<Ib>, profilePost: Option<Ib>,
    waitMemWrites: bool)       // page fault halt policy, not on a510

  // ---------- Packets ----------

  function Word(b: bool): u32 { if b then 1 else 0 }

  function SetProtected(on: bool): Packet { Pkt7(CP_SET_PROTECTED_MODE, [Word(on)]) }

  function SetSecure(on: bool): Packet { Pkt7(CP_SET_SECURE_MODE, [Word(on)]) }

  function WriteMem(addr: u64, value: u32): Packet { Pkt7(CP_MEM_WRITE, [Lo(addr), Hi(addr), value]) }

  function Call(ib: Ib): Packet { Pkt7(CP_INDIRECT_BUFFER_PFE, [Lo(ib.addr), Hi(ib.addr), ib.dwords]) }

  function EventStamp(event: u32, addr: u64, value: u32): Packet {
    Pkt7(CP_EVENT_WRITE, [event, Lo(addr), Hi(addr), value])
  }

  function Nop(word: u32): Packet { Pkt7(CP_NOP, [word]) }

  /** The style preemption uses: secure contexts are only preempted at ring level. */
  function PreemptStyle(context: Option<Context>): nat {
    match context
    case None => 0
    case Some(c) => if c.secure then PREEMPT_STYLE_RINGBUFFER else c.style
  }

  predicate Finegrain(s: Submit) { PreemptStyle(s.context) == PREEMPT_STYLE_FINEGRAIN }

  /** a5xx_preemption_pre_ibsubmit */
  function PreIbSubmit(s: Submit): seq<Packet> {
    if !s.preemption then [] else [
      Pkt7(CP_PREEMPT_ENABLE_GLOBAL, [if Finegrain(s) then 2 else 0]),
      SetProtected(false),
      Pkt4(SAVE_ADDR_LO, [Lo(s.recordAddr)]),
      Pkt4(SAVE_ADDR_HI, [Hi(s.recordAddr)]),
      SetProtected(true),
      Pkt7(CP_PREEMPT_ENABLE_LOCAL, [Word(Finegrain(s))]),
      Pkt7(CP_YIELD_ENABLE, [2])]
  }

  function CallIfAny(ib: Option<Ib>): seq<Packet> {
    match ib case None => [] case Some(i) => [Call(i)]
  }

  function If(b: bool, p: Packet): seq<Packet> { if b then [p] else [] }

  function StartStamps(s: Submit): seq<Packet> {
    (match s.context case None => [] case Some(c) => [WriteMem(c.soptimestamp, s.timestamp)])
    + [WriteMem(s.rbSoptimestamp, s.rbTimestamp)]
  }

  function EndStamps(s: Submit): seq<Packet> {
    match s.context
    case None => [EventStamp(CACHE_FLUSH_TS_IRQ, s.rbEoptimestamp, s.rbTimestamp)]
    case Some(c) =>
      [EventStamp(CACHE_FLUSH_TS_IRQ, c.eoptimestamp, s.timestamp),
       EventStamp(CACHE_FLUSH_TS, s.rbEoptimestamp, s.rbTimestamp)]
  }

  /** a5xx_preemption_post_ibsubmit */
  function PostIbSubmit(s: Submit): seq<Packet> {
    If(s.preemption, Pkt7(CP_CONTEXT_SWITCH_YIELD, [0, 0, 1, 1]))
  }

  function Flatten(parts: seq<seq<Packet>>): seq<Packet> {
    if parts == [] then [] else parts[0] + Flatten(parts[1..])
  }

  function PrologueParts(s: Submit): seq<seq<Packet>> {
    [[Nop(if s.context.Some? then CMD_IDENTIFIER else CMD_INTERNAL_IDENTIFIER)],
     PreIbSubmit(s),
     CallIfAny(s.profilePre),
     StartStamps(s),
     If(s.secure, SetSecure(true)),
     If(s.notProtected, SetProtected(false))]
  }

  function EpilogueParts(s: Submit): seq<seq<Packet>> {
    [If(s.notProtected, SetProtected(true)),
     CallIfAny(s.profilePost),
     If(s.waitMemWrites, Pkt7(CP_WAIT_MEM_WRITES, [])),
     [WriteMem(s.refWaitTs, s.sequence)],
     EndStamps(s),
     If(s.wfi, Pkt7(CP_WAIT_FOR_IDLE, [])),
     If(s.secure, SetSecure(false)),
     PostIbSubmit(s)]
  }

  function Prologue(s: Submit): seq<Packet> { Flatten(PrologueParts(s)) }

  function Epilogue(s: Submit): seq<Packet> { Flatten(EpilogueParts(s)) }

  function Wrapped(s: Submit, body: seq<Packet>): seq<Packet> {
    Prologue(s) + body + Epilogue(s)
  }

  lemma {:induction false} FlattenFits(parts: seq<seq<Packet>>)
    requires forall i :: 0 <= i < |parts| ==> AllFit(parts[i])
    ensures AllFit(Flatten(parts))
  {
    if parts != [] {
      FlattenFits(parts[1..]);
    }
  }

  lemma WrapperFits(s: Submit)
    ensures AllFit(Prologue(s)) && AllFit(Epilogue(s))
  {
    FlattenFits(PrologueParts(s));
    FlattenFits(EpilogueParts(s));
  }

  /** Words of a stream: a header and the payload of each packet. */
  function Size(ps: seq<Packet>): nat {
    if ps == [] then 0 else 1 + |ps[0].payload| + Size(ps[1..])
  }

  lemma {:induction false} SizeConcat(ps: seq<Packet>, qs: seq<Packet>)
    ensures Size(ps + qs) == Size(ps) + Size(qs)
  {
    if ps == [] {
      assert ps + qs == qs;
    } else {
      SizeConcat(ps[1..], qs);
      assert (ps + qs)[1..] == ps[1..] + qs;
    }
  }

  lemma {:induction false} SizeOfEncoding(ps: seq<Packet>)
    requires AllFit(ps)
    ensures |EncodeAll(ps)| == Size(ps)
  {
    hide HeaderOf;
    if ps != [] {
      SizeOfEncoding(ps[1..]);
    }
  }

  /** Total of the bounds. */
  function Sum(bounds: seq<nat>): nat {
    if bounds == [] then 0 else bounds[0] + Sum(bounds[1..])
  }

  lemma {:induction false} FlattenSize(parts: seq<seq<Packet>>, bounds: seq<nat>)
    requires |parts| == |bounds| && forall i :: 0 <= i < |parts| ==> Size(parts[i]) <= bounds[i]
    ensures Size(Flatten(parts)) <= Sum(bounds)
  {
    if parts != [] {
      FlattenSize(parts[1..], bounds[1..]);
      SizeConcat(parts[0], Flatten(parts[1..]));
    }
  }

  lemma {:induction false} SizeOfOne(p: Packet)
    ensures Size([p]) == 1 + |p.payload|
  {
    assert [p][1..] == [];
  }

  lemma SizeOfPreIbSubmit(s: Submit)
    ensures Size(PreIbSubmit(s)) <= 14
  {
    if s.preemption {
      var ps := PreIbSubmit(s);
      assert ps[6..][1..] == [];
      assert Size(ps[6..]) == 2 && ps[5..][1..] == ps[6..];
      assert Size(ps[5..]) == 4 && ps[4..][1..] == ps[5..];
      assert Size(ps[4..]) == 6 && ps[3..][1..] == ps[4..];
      assert Size(ps[3..]) == 8 && ps[2..][1..] == ps[3..];
      assert Size(ps[2..]) == 10 && ps[1..][1..] == ps[2..];
    }
  }

  lemma SizeOfStamps(s: Submit)
    ensures Size(StartStamps(s)) <= 8 && Size(EndStamps(s)) <= 10
  {
    match s.context {
      case None =>
        SizeOfOne(WriteMem(s.rbSoptimestamp, s.rbTimestamp));
        SizeOfOne(EndStamps(s)[0]);
        assert StartStamps(s) == [WriteMem(s.rbSoptimestamp, s.rbTimestamp)];
      case Some(c) =>
        SizeOfOne(WriteMem(s.rbSoptimestamp, s.rbTimestamp));
        SizeOfOne(EndStamps(s)[1]);
        assert StartStamps(s)[1..] == [WriteMem(s.rbSoptimestamp, s.rbTimestamp)];
        assert EndStamps(s)[1..] == [EndStamps(s)[1]];
    }
  }

  lemma SizeOfOptional(b: bool, p: Packet, ib: Option<Ib>)
    ensures Size(If(b, p)) <= 1 + |p.payload| && Size(CallIfAny(ib)) <= 4
  {
    SizeOfOne(p);
    if ib.Some? {
      SizeOfOne(Call(ib.value));
    }
  }

  lemma SizeOfPrologue(s: Submit)
    ensures Size(Prologue(s)) <= 32
  {
    SizeOfPreIbSubmit(s);
    SizeOfStamps(s);
    var parts := PrologueParts(s);
    SizeOfOne(parts[0][0]);
    SizeOfOptional(s.secure, SetSecure(true), s.profilePre);
    SizeOfOptional(s.notProtected, SetProtected(false), None);
    hide Size;
    FlattenSize(parts, [2, 14, 4, 8, 2, 2]);
    SumLiterals();
  }

  lemma SizeOfEpilogue(s: Submit)
    ensures Size(Epilogue(s)) <= 29
  {
    SizeOfStamps(s);
    var parts := EpilogueParts(s);
    SizeOfOptional(s.notProtected, SetProtected(true), s.profilePost);
    SizeOfOptional(s.waitMemWrites, Pkt7(CP_WAIT_MEM_WRITES, []), None);
    SizeOfOne(WriteMem(s.refWaitTs, s.sequence));
    SizeOfOptional(s.wfi, Pkt7(CP_WAIT_FOR_IDLE, []), None);
    SizeOfOptional(s.secure, SetSecure(false), None);
    SizeOfOptional(s.preemption, Pkt7(CP_CONTEXT_SWITCH_YIELD, [0, 0, 1, 1]), None);
    hide Size;
    FlattenSize(parts, [2, 4, 1, 4, 10, 1, 2, 5]);
    SumLiterals();
  }

  /** The wrapper never needs more than the words reserved for it, whatever the flags. */
  lemma WrapperIsSmall(s: Submit)
    ensures Size(Prologue(s)) + Size(Epilogue(s)) <= SUBMIT_MAX
  {
    SizeOfPrologue(s);
    SizeOfEpilogue(s);
  }

  lemma SumLiterals()
    ensures Sum([2, 14, 4, 8, 2, 2]) == 32 && Sum([2, 4, 1, 4, 10, 1, 2, 5]) == 29
  {
    assert Sum([8, 2, 2]) == 12;
    assert Sum([14, 4, 8, 2, 2]) == 30;
    assert Sum([1, 2, 5]) == 8;
    assert Sum([4, 10, 1, 2, 5]) == 22;
    assert Sum([4, 1, 4, 10, 1, 2, 5]) == 27;
  }
}
