/** Writing the packets of a submission word by word into a buffer, as addcmds does. */
module Pm4Emit {
  import opened Basics
  import opened Pm4
  import opened Pm4Commands

  /** Appends one packet to the packets already written at `start`. */
  method Emit(cmds: array<u32>, ghost start: nat, at: nat, ghost done: seq<Packet>, p: Packet)
    returns (next: nat)
    requires Fits(p) && AllFit(done) && start <= at && at + 1 + |p.payload| <= cmds.Length
    requires cmds[start..at] == EncodeAll(done)
    modifies cmds
    ensures next == at + 1 + |p.payload| && AllFit(done + [p])
    ensures cmds[start..next] == EncodeAll(done + [p])
    ensures forall i :: 0 <= i < cmds.Length && !(at <= i < next) ==> cmds[i] == old(cmds[i])
  {
    hide HeaderOf, Encode;
    next := Put(cmds, start, at, p);
    EncodeConcat(done, [p]);
    assert EncodeAll([p]) == Encode(p) + [] == Encode(p);
  }

  /** a5xx_preemption_pre_ibsubmit */
  method EmitPreIbSubmit(cmds: array<u32>, ghost start: nat, at: nat, ghost done: seq<Packet>, s: Submit)
    returns (next: nat)
    requires AllFit(done) && start <= at && at + 14 <= cmds.Length
    requires cmds[start..at] == EncodeAll(done)
    modifies cmds
    ensures at <= next <= at + 14 && AllFit(done + PreIbSubmit(s))
    ensures cmds[start..next] == EncodeAll(done + PreIbSubmit(s))
    ensures forall i :: 0 <= i < cmds.Length && !(at <= i < next) ==> cmds[i] == old(cmds[i])
  {
    hide EncodeAll;
    next := at;
    if s.preemption {
      var fine := Finegrain(s);
      var p0 := Pkt7(CP_PREEMPT_ENABLE_GLOBAL, [if fine then 2 else 0]);
      next := Emit(cmds, start, next, done, p0);
      next := Emit(cmds, start, next, done + [p0], SetProtected(false));
      ghost var done2 := done + [p0] + [SetProtected(false)];
      var p2 := Pkt4(SAVE_ADDR_LO, [Lo(s.recordAddr)]);
      next := Emit(cmds, start, next, done2, p2);
      var p3 := Pkt4(SAVE_ADDR_HI, [Hi(s.recordAddr)]);
      next := Emit(cmds, start, next, done2 + [p2], p3);
      next := Emit(cmds, start, next, done2 + [p2] + [p3], SetProtected(true));
      ghost var done5 := done2 + [p2] + [p3] + [SetProtected(true)];
      var p5 := Pkt7(CP_PREEMPT_ENABLE_LOCAL, [Word(fine)]);
      next := Emit(cmds, start, next, done5, p5);
      next := Emit(cmds, start, next, done5 + [p5], Pkt7(CP_YIELD_ENABLE, [2]));
      assert done5 + [p5] + [Pkt7(CP_YIELD_ENABLE, [2])] == done + PreIbSubmit(s);
    } else {
      assert done + PreIbSubmit(s) == done;
    }
  }

  method EmitCall(cmds: array<u32>, ghost start: nat, at: nat, ghost done: seq<Packet>, ib: Option<Ib>)
    returns (next: nat)
    requires AllFit(done) && start <= at && at + 4 <= cmds.Length
    requires cmds[start..at] == EncodeAll(done)
    modifies cmds
    ensures at <= next <= at + 4 && AllFit(done + CallIfAny(ib))
    ensures cmds[start..next] == EncodeAll(done + CallIfAny(ib))
    ensures forall i :: 0 <= i < cmds.Length && !(at <= i < next) ==> cmds[i] == old(cmds[i])
  {
    hide EncodeAll;
    next := at;
    if ib.Some? {
      next := Emit(cmds, start, next, done, Call(ib.value));
    } else {
      assert done + CallIfAny(ib) == done;
    }
  }

  method EmitIf(cmds: array<u32>, ghost start: nat, at: nat, ghost done: seq<Packet>, b: bool, p: Packet)
    returns (next: nat)
    requires Fits(p) && AllFit(done) && start <= at && at + 1 + |p.payload| <= cmds.Length
    requires cmds[start..at] == EncodeAll(done)
    modifies cmds
    ensures at <= next <= at + 1 + |p.payload| && AllFit(done + If(b, p))
    ensures cmds[start..next] == EncodeAll(done + If(b, p))
    ensures forall i :: 0 <= i < cmds.Length && !(at <= i < next) ==> cmds[i] == old(cmds[i])
  {
    hide EncodeAll;
    next := at;
    if b {
      next := Emit(cmds, start, next, done, p);
    } else {
      assert done + If(b, p) == done;
    }
  }

  method EmitStartStamps(cmds: array<u32>, ghost start: nat, at: nat, ghost done: seq<Packet>, s: Submit)
    returns (next: nat)
    requires AllFit(done) && start <= at && at + 8 <= cmds.Length
    requires cmds[start..at] == EncodeAll(done)
    modifies cmds
    ensures at <= next <= at + 8 && AllFit(done + StartStamps(s))
    ensures cmds[start..next] == EncodeAll(done + StartStamps(s))
    ensures forall i :: 0 <= i < cmds.Length && !(at <= i < next) ==> cmds[i] == old(cmds[i])
  {
    hide EncodeAll;
    next := at;
    ghost var sofar := done;
    if s.context.Some? {
      var p := WriteMem(s.context.value.soptimestamp, s.timestamp);
      next := Emit(cmds, start, next, sofar, p);
      sofar := sofar + [p];
    }
    var q := WriteMem(s.rbSoptimestamp, s.rbTimestamp);
    next := Emit(cmds, start, next, sofar, q);
    assert sofar + [q] == done + StartStamps(s);
  }

  method EmitEndStamps(cmds: array<u32>, ghost start: nat, at: nat, ghost done: seq<Packet>, s: Submit)
    returns (next: nat)
    requires AllFit(done) && start <= at && at + 10 <= cmds.Length
    requires cmds[start..at] == EncodeAll(done)
    modifies cmds
    ensures at <= next <= at + 10 && AllFit(done + EndStamps(s))
    ensures cmds[start..next] == EncodeAll(done + EndStamps(s))
    ensures forall i :: 0 <= i < cmds.Length && !(at <= i < next) ==> cmds[i] == old(cmds[i])
  {
    hide EncodeAll;
    if s.context.None? {
      next := Emit(cmds, start, at, done, EventStamp(CACHE_FLUSH_TS_IRQ, s.rbEoptimestamp, s.rbTimestamp));
    } else {
      var p := EventStamp(CACHE_FLUSH_TS_IRQ, s.context.value.eoptimestamp, s.timestamp);
      var q := EventStamp(CACHE_FLUSH_TS, s.rbEoptimestamp, s.rbTimestamp);
      next := Emit(cmds, start, at, done, p);
      next := Emit(cmds, start, next, done + [p], q);
      assert done + [p] + [q] == done + EndStamps(s);
    }
  }

  lemma FlattenSix(a: seq<Packet>, b: seq<Packet>, c: seq<Packet>, d: seq<Packet>, e: seq<Packet>, f: seq<Packet>)
    ensures Flatten([a, b, c, d, e, f]) == a + b + c + d + e + f
  {
    FlattenCons(f, []);
    FlattenCons(e, [f]);
    FlattenCons(d, [e, f]);
    FlattenCons(c, [d, e, f]);
    FlattenCons(b, [c, d, e, f]);
    FlattenCons(a, [b, c, d, e, f]);
    hide Flatten;
    assert [e] + [f] == [e, f];
    assert [d] + [e, f] == [d, e, f];
    assert [c] + [d, e, f] == [c, d, e, f];
    assert [b] + [c, d, e, f] == [b, c, d, e, f];
    assert [a] + [b, c, d, e, f] == [a, b, c, d, e, f];
    assert a + (b + (c + (d + (e + f)))) == a + b + c + d + e + f;
  }

  lemma FlattenCons(a: seq<Packet>, rest: seq<seq<Packet>>)
    ensures Flatten([a] + rest) == a + Flatten(rest)
    ensures rest == [] ==> Flatten([a]) == a
  {
    assert ([a] + rest)[1..] == rest;
    assert rest == [] ==> [a] + rest == [a];
  }

  /** Everything addcmds writes before the body. */
  method EmitPrologue(cmds: array<u32>, at: nat, s: Submit) returns (next: nat)
    requires at + 32 <= cmds.Length
    modifies cmds
    ensures at <= next <= at + 32 && AllFit(Prologue(s))
    ensures cmds[at..next] == EncodeAll(Prologue(s))
    ensures forall i :: 0 <= i < cmds.Length && !(at <= i < next) ==> cmds[i] == old(cmds[i])
  {
    hide EncodeAll, PreIbSubmit, StartStamps, CallIfAny, If, Flatten;
    var nop := Nop(if s.context.Some? then CMD_IDENTIFIER else CMD_INTERNAL_IDENTIFIER);
    EncodeNothing();
    next := Emit(cmds, at, at, [], nop);
    ghost var done := [nop];
    assert [] + [nop] == done;
    next := EmitPreIbSubmit(cmds, at, next, done, s);
    done := done + PreIbSubmit(s);
    next := EmitCall(cmds, at, next, done, s.profilePre);
    done := done + CallIfAny(s.profilePre);
    next := EmitStartStamps(cmds, at, next, done, s);
    done := done + StartStamps(s);
    next := EmitIf(cmds, at, next, done, s.secure, SetSecure(true));
    done := done + If(s.secure, SetSecure(true));
    next := EmitIf(cmds, at, next, done, s.notProtected, SetProtected(false));
    FlattenSix([nop], PreIbSubmit(s), CallIfAny(s.profilePre), StartStamps(s), If(s.secure, SetSecure(true)),
               If(s.notProtected, SetProtected(false)));
  }

  lemma EncodeNothing()
    ensures EncodeAll([]) == []
  {
  }

  lemma FlattenEight(a: seq<Packet>, b: seq<Packet>, c: seq<Packet>, d: seq<Packet>,
                     e: seq<Packet>, f: seq<Packet>, g: seq<Packet>, h: seq<Packet>)
    ensures Flatten([a, b, c, d, e, f, g, h]) == a + b + c + d + e + f + g + h
  {
    FlattenSix(c, d, e, f, g, h);
    assert [b, c, d, e, f, g, h][1..] == [c, d, e, f, g, h];
    assert [a, b, c, d, e, f, g, h][1..] == [b, c, d, e, f, g, h];
    assert a + (b + (c + d + e + f + g + h)) == a + b + c + d + e + f + g + h;
  }

  /** Everything addcmds writes after the body. */
  method EmitEpilogue(cmds: array<u32>, at: nat, s: Submit) returns (next: nat)
    requires at + 29 <= cmds.Length
    modifies cmds
    ensures at <= next <= at + 29 && AllFit(Epilogue(s))
    ensures cmds[at..next] == EncodeAll(Epilogue(s))
    ensures forall i :: 0 <= i < cmds.Length && !(at <= i < next) ==> cmds[i] == old(cmds[i])
  {
    hide EncodeAll, EndStamps, CallIfAny, If, Flatten;
    EncodeNothing();
    next := EmitIf(cmds, at, at, [], s.notProtected, SetProtected(true));
    ghost var done := If(s.notProtected, SetProtected(true));
    assert [] + done == done;
    next := EmitCall(cmds, at, next, done, s.profilePost);
    done := done + CallIfAny(s.profilePost);
    next := EmitIf(cmds, at, next, done, s.waitMemWrites, Pkt7(CP_WAIT_MEM_WRITES, []));
    done := done + If(s.waitMemWrites, Pkt7(CP_WAIT_MEM_WRITES, []));
    next := Emit(cmds, at, next, done, WriteMem(s.refWaitTs, s.sequence));
    done := done + [WriteMem(s.refWaitTs, s.sequence)];
    next := EmitEndStamps(cmds, at, next, done, s);
    done := done + EndStamps(s);
    next := EmitIf(cmds, at, next, done, s.wfi, Pkt7(CP_WAIT_FOR_IDLE, []));
    done := done + If(s.wfi, Pkt7(CP_WAIT_FOR_IDLE, []));
    next := EmitIf(cmds, at, next, done, s.secure, SetSecure(false));
    done := done + If(s.secure, SetSecure(false));
    next := EmitIf(cmds, at, next, done, s.preemption, Pkt7(CP_CONTEXT_SWITCH_YIELD, [0, 0, 1, 1]));
    FlattenEight(If(s.notProtected, SetProtected(true)), CallIfAny(s.profilePost),
                 If(s.waitMemWrites, Pkt7(CP_WAIT_MEM_WRITES, [])), [WriteMem(s.refWaitTs, s.sequence)],
                 EndStamps(s), If(s.wfi, Pkt7(CP_WAIT_FOR_IDLE, [])), If(s.secure, SetSecure(false)),
                 If(s.preemption, Pkt7(CP_CONTEXT_SWITCH_YIELD, [0, 0, 1, 1])));
  }

  /** memcpy of the body. */
  method CopyWords(cmds: array<u32>, at: nat, words: seq<u32>) returns (next: nat)
    requires at + |words| <= cmds.Length
    modifies cmds
    ensures next == at + |words| && cmds[at..next] == words
    ensures forall i :: 0 <= i < cmds.Length && !(at <= i < next) ==> cmds[i] == old(cmds[i])
  {
    var k := 0;
    while k < |words|
      invariant 0 <= k <= |words|
      invariant forall j :: 0 <= j < k ==> cmds[at + j] == words[j]
      invariant forall i :: 0 <= i < cmds.Length && !(at <= i < at + k) ==> cmds[i] == old(cmds[i])
    {
      cmds[at + k] := words[k];
      k := k + 1;
    }
    next := at + k;
  }

  /** The words of one wrapped body. */
  function WrappedWords(s: Submit, input: seq<u32>): seq<u32> {
    WrapperFits(s);
    EncodeAll(Prologue(s)) + input + EncodeAll(Epilogue(s))
  }

  method EmitWrapped(cmds: array<u32>, at: nat, s: Submit, input: seq<u32>) returns (next: nat)
    requires at + SUBMIT_MAX + |input| <= cmds.Length
    modifies cmds
    ensures at <= next <= at + SUBMIT_MAX + |input|
    ensures cmds[at..next] == WrappedWords(s, input)
    ensures forall i :: 0 <= i < cmds.Length && !(at <= i < next) ==> cmds[i] == old(cmds[i])
  {
    hide EncodeAll, Prologue, Epilogue;
    var p := EmitPrologue(cmds, at, s);
    ghost var first := cmds[at..p];
    var q := CopyWords(cmds, p, input);
    assert cmds[at..p] == first;
    ghost var second := cmds[p..q];
    next := EmitEpilogue(cmds, q, s);
    assert cmds[at..p] == first && cmds[p..q] == second;
    assert cmds[at..next] == cmds[at..p] + cmds[p..q] + cmds[q..next];
  }
}
