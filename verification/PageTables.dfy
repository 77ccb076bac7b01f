/**
 Page tables along a ring's command stream: the context-switch commands, the table in force and
 the ring's scratch slot, which the preemption code reads when it switches to the ring.
 */
module PageTables {
  import opened Basics
  import opened Pm4
  import opened Pm4Machine
  import opened Pm4Commands
  import opened CommandBody
  import opened Ringbuffer

  const CONTEXT_TO_MEM_IDENTIFIER: u32 := 0x2EAD_BEEF
  const CP_CNTL := 0x831
  const UCHE_INVALIDATE0 := 0xE95

  /** TTBR0 and CONTEXTIDR. */
  datatype Translation = Translation(ttbr0: u64, contextidr: u32)

  /** The addresses of one ring: its scratch slot and the two current_context words. */
  datatype Places = Places(slot: u64, rbContext: u64, globalContext: u64)

  // ---------- Following a stream ----------

  /** The translation the CP uses after a packet. */
  function TableStep(d: Translation, p: Packet): Translation {
    var e := EffectOf(p);
    if e.TableUpdate? then Translation(e.ttbr0, e.id) else d
  }

  /** The contents of the scratch slot after a packet. */
  function SlotStep(slot: u64, d: Translation, p: Packet): Translation {
    var e := EffectOf(p);
    if e.MemWrite? && e.addr == slot && |e.data| == 3 then Translation(Addr(e.data[0], e.data[1]), e.data[2])
    else d
  }

  function TableOf(d: Translation, ps: seq<Packet>): Translation
    decreases |ps|
  {
    if ps == [] then d else TableOf(TableStep(d, ps[0]), ps[1..])
  }

  function SlotOf(slot: u64, d: Translation, ps: seq<Packet>): Translation
    decreases |ps|
  {
    if ps == [] then d else SlotOf(slot, SlotStep(slot, d, ps[0]), ps[1..])
  }

  lemma {:induction false} TableConcat(d: Translation, ps: seq<Packet>, qs: seq<Packet>)
    ensures TableOf(d, ps + qs) == TableOf(TableOf(d, ps), qs)
    decreases |ps|
  {
    hide TableStep;
    if ps == [] {
      assert ps + qs == qs;
    } else {
      TableConcat(TableStep(d, ps[0]), ps[1..], qs);
      assert (ps + qs)[1..] == ps[1..] + qs;
    }
  }

  lemma {:induction false} SlotConcat(slot: u64, d: Translation, ps: seq<Packet>, qs: seq<Packet>)
    ensures SlotOf(slot, d, ps + qs) == SlotOf(slot, SlotOf(slot, d, ps), qs)
    decreases |ps|
  {
    hide SlotStep;
    if ps == [] {
      assert ps + qs == qs;
    } else {
      SlotConcat(slot, SlotStep(slot, d, ps[0]), ps[1..], qs);
      assert (ps + qs)[1..] == ps[1..] + qs;
    }
  }

  /** A packet that touches neither the translation nor the scratch slot. */
  predicate QuietPacket(slot: u64, p: Packet) {
    match EffectOf(p)
    case TableUpdate(_, _) => false
    case MemWrite(addr, _) => addr != slot
    case Stamp(_, addr, _) => addr != slot
    case RegToMem(_, addr) => addr != slot
    case _ => true
  }

  predicate Quiet(slot: u64, ps: seq<Packet>) {
    forall i :: 0 <= i < |ps| ==> QuietPacket(slot, ps[i])
  }

  lemma {:induction false} QuietKeeps(slot: u64, d: Translation, e: Translation, ps: seq<Packet>)
    requires Quiet(slot, ps)
    ensures TableOf(d, ps) == d && SlotOf(slot, e, ps) == e
    decreases |ps|
  {
    if ps != [] {
      QuietKeeps(slot, TableStep(d, ps[0]), SlotStep(slot, e, ps[0]), ps[1..]);
      assert QuietPacket(slot, ps[0]);
    }
  }

  // ---------- The context switch ----------

  /** a5xx_rb_pagetable_switch */
  function TableSwitch(places: Places, ttbr0: u64, id: u32): seq<Packet> {
    [Pkt7(CP_SMMU_TABLE_UPDATE, [Lo(ttbr0), Hi(ttbr0), id]),
     Pkt7(CP_WAIT_FOR_IDLE, []), Pkt7(CP_WAIT_FOR_ME, []), Pkt4(CP_CNTL, [1]),
     Pkt7(CP_MEM_WRITE, [Lo(places.slot), Hi(places.slot), Lo(ttbr0), Hi(ttbr0), id]),
     Pkt7(CP_WAIT_FOR_IDLE, []), Pkt7(CP_WAIT_FOR_ME, []), Pkt4(CP_CNTL, [0])]
  }

  /** The rest of a5xx_rb_context_switch. */
  function ContextNote(places: Places, id: u32): seq<Packet> {
    [Nop(CONTEXT_TO_MEM_IDENTIFIER), WriteMem(places.rbContext, id), WriteMem(places.globalContext, id),
     Pkt4(UCHE_INVALIDATE0, [0x12])]
  }

  function SwitchPackets(places: Places, update: bool, ttbr0: u64, id: u32): seq<Packet> {
    (if update then TableSwitch(places, ttbr0, id) else []) + ContextNote(places, id)
  }

  lemma SwitchFits(places: Places, update: bool, ttbr0: u64, id: u32)
    ensures AllFit(SwitchPackets(places, update, ttbr0, id)) && Neutral(SwitchPackets(places, update, ttbr0, id))
  {
  }

  /**
   What a context switch does: with an update, the translation, and with register 0x831 set around
   it the scratch slot; in either case the two current-context words and a cache invalidation.
   */
  function SwitchLog(m: Mode, places: Places, update: bool, ttbr0: u64, id: u32): seq<Did> {
    (if update then
       [Did(TableUpdate(ttbr0, id), m), Did(Other(CP_WAIT_FOR_IDLE, []), m), Did(Other(CP_WAIT_FOR_ME, []), m),
        Did(RegWrite(0x831, [1]), m),
        Did(MemWrite(places.slot, [ttbr0 % 0x1_0000_0000, ttbr0 / 0x1_0000_0000, id]), m),
        Did(Other(CP_WAIT_FOR_IDLE, []), m), Did(Other(CP_WAIT_FOR_ME, []), m), Did(RegWrite(0x831, [0]), m)]
     else [])
    + [Did(MemWrite(places.rbContext, [id]), m), Did(MemWrite(places.globalContext, [id]), m),
       Did(RegWrite(0xE95, [0x12]), m)]
  }

  lemma {:induction false} PlainStream(m: Mode, ps: seq<Packet>)
    requires forall i :: 0 <= i < |ps| ==> !SetsMode(ps[i]) && !(ps[i].Pkt7? && ps[i].op == CP_NOP)
    ensures ModeAfter(m, ps) == m && Log(m, ps) == seq(|ps|, i requires 0 <= i < |ps| => Did(EffectOf(ps[i]), m))
    decreases |ps|
  {
    if ps != [] {
      PlainStream(m, ps[1..]);
    }
  }

  lemma TableSwitchRuns(m: Mode, places: Places, ttbr0: u64, id: u32)
    ensures var ps := TableSwitch(places, ttbr0, id);
      ModeAfter(m, ps) == m && Log(m, ps) + SwitchLog(m, places, false, ttbr0, id) == SwitchLog(m, places, true, ttbr0, id)
  {
    var ps := TableSwitch(places, ttbr0, id);
    AddrSplit(ttbr0);
    AddrSplit(places.slot);
    assert ps[4].payload[2..] == [Lo(ttbr0), Hi(ttbr0), id];
    PlainStream(m, ps);
  }

  lemma ContextNoteRuns(m: Mode, places: Places, ttbr0: u64, id: u32)
    ensures Log(m, ContextNote(places, id)) == SwitchLog(m, places, false, ttbr0, id)
  {
    var note := ContextNote(places, id);
    AddrSplit(places.rbContext);
    AddrSplit(places.globalContext);
    assert note[1].payload[2..] == [id] && note[2].payload[2..] == [id];
    PlainStream(m, note[1..]);
    assert ModeStep(m, note[0]) == m && LogStep(m, note[0]) == [];
    assert [] + Log(m, note[1..]) == Log(m, note[1..]);
  }

  lemma SwitchRuns(m: Mode, places: Places, update: bool, ttbr0: u64, id: u32)
    ensures Log(m, SwitchPackets(places, update, ttbr0, id)) == SwitchLog(m, places, update, ttbr0, id)
  {
    hide Log, ModeAfter, TableSwitch, ContextNote, SwitchLog;
    ContextNoteRuns(m, places, ttbr0, id);
    if update {
      TableSwitchRuns(m, places, ttbr0, id);
      RunConcat(m, TableSwitch(places, ttbr0, id), ContextNote(places, id));
    } else {
      assert [] + ContextNote(places, id) == ContextNote(places, id);
    }
  }

  lemma TableSwitchSets(places: Places, d: Translation, e: Translation, ttbr0: u64, id: u32)
    ensures TableOf(d, TableSwitch(places, ttbr0, id)) == Translation(ttbr0, id)
    ensures SlotOf(places.slot, e, TableSwitch(places, ttbr0, id)) == Translation(ttbr0, id)
  {
    var ps := TableSwitch(places, ttbr0, id);
    var slot := places.slot;
    AddrSplit(ttbr0);
    AddrSplit(slot);
    var t := Translation(ttbr0, id);
    assert EffectOf(ps[4]) == MemWrite(slot, [Lo(ttbr0), Hi(ttbr0), id]) by {
      assert ps[4].payload[2..] == [Lo(ttbr0), Hi(ttbr0), id];
    }
    assert Quiet(slot, ps[1..4]) && Quiet(slot, ps[5..]);
    hide QuietPacket;
    QuietKeeps(slot, t, e, ps[1..4]);
    QuietKeeps(slot, t, t, ps[5..]);
    OnePacket(slot, d, e, ps[0]);
    OnePacket(slot, t, e, ps[4]);
    hide TableOf, SlotOf;
    Follow(slot, d, e, ps[..1], ps[1..4]);
    Follow(slot, d, e, ps[..4], ps[4..5]);
    Follow(slot, d, e, ps[..5], ps[5..]);
    assert ps[..1] == [ps[0]] && ps[4..5] == [ps[4]];
    assert ps[..1] + ps[1..4] == ps[..4] && ps[..4] + ps[4..5] == ps[..5] && ps[..5] + ps[5..] == ps;
  }

  lemma Follow(slot: u64, d: Translation, e: Translation, ps: seq<Packet>, qs: seq<Packet>)
    ensures TableOf(d, ps + qs) == TableOf(TableOf(d, ps), qs)
    ensures SlotOf(slot, e, ps + qs) == SlotOf(slot, SlotOf(slot, e, ps), qs)
  {
    TableConcat(d, ps, qs);
    SlotConcat(slot, e, ps, qs);
  }

  lemma OnePacket(slot: u64, d: Translation, e: Translation, p: Packet)
    ensures TableOf(d, [p]) == TableStep(d, p) && SlotOf(slot, e, [p]) == SlotStep(slot, e, p)
  {
    assert [p][1..] == [];
  }

  /** The words the driver writes lie elsewhere than the slot. */
  predicate PlacesApart(places: Places) {
    places.slot != places.rbContext && places.slot != places.globalContext
  }

  /**
   The context switch moves the table in force and the scratch slot together: both to the new
   table when there is an update, neither otherwise.
   */
  lemma SwitchMovesBoth(places: Places, d: Translation, e: Translation, update: bool, ttbr0: u64, id: u32)
    requires PlacesApart(places)
    ensures var ps := SwitchPackets(places, update, ttbr0, id);
      && TableOf(d, ps) == (if update then Translation(ttbr0, id) else d)
      && SlotOf(places.slot, e, ps) == (if update then Translation(ttbr0, id) else e)
  {
    var note := ContextNote(places, id);
    AddrSplit(places.rbContext);
    AddrSplit(places.globalContext);
    assert Quiet(places.slot, note);
    hide Quiet, ContextNote, TableSwitch;
    if update {
      TableSwitchSets(places, d, e, ttbr0, id);
      Follow(places.slot, d, e, TableSwitch(places, ttbr0, id), note);
      QuietKeeps(places.slot, Translation(ttbr0, id), Translation(ttbr0, id), note);
    } else {
      assert [] + note == note;
      QuietKeeps(places.slot, d, e, note);
    }
  }

  // ---------- Ordinary submissions ----------

  /** Nothing the wrapper writes is the slot. */
  predicate WrapperApart(slot: u64, s: Submit) {
    && s.rbSoptimestamp != slot && s.rbEoptimestamp != slot && s.refWaitTs != slot
    && (s.context.Some? ==> s.context.value.soptimestamp != slot && s.context.value.eoptimestamp != slot)
  }

  lemma {:induction false} FlattenQuiet(slot: u64, parts: seq<seq<Packet>>)
    requires forall i :: 0 <= i < |parts| ==> Quiet(slot, parts[i])
    ensures Quiet(slot, Flatten(parts))
  {
    hide QuietPacket;
    if parts != [] {
      FlattenQuiet(slot, parts[1..]);
    }
  }

  lemma StampsQuiet(slot: u64, s: Submit)
    requires WrapperApart(slot, s)
    ensures Quiet(slot, StartStamps(s)) && Quiet(slot, EndStamps(s))
    ensures Quiet(slot, [WriteMem(s.refWaitTs, s.sequence)])
  {
    AddrSplit(s.rbSoptimestamp);
    AddrSplit(s.rbEoptimestamp);
    AddrSplit(s.refWaitTs);
    if s.context.Some? {
      AddrSplit(s.context.value.soptimestamp);
      AddrSplit(s.context.value.eoptimestamp);
    }
  }

  lemma WrapperQuiet(slot: u64, s: Submit)
    requires WrapperApart(slot, s)
    ensures Quiet(slot, Prologue(s)) && Quiet(slot, Epilogue(s))
  {
    StampsQuiet(slot, s);
    hide StartStamps, EndStamps, WrapperApart;
    FlattenQuiet(slot, PrologueParts(s));
    FlattenQuiet(slot, EpilogueParts(s));
  }

  /** Running a wrapped body moves the table and the slot exactly as the body alone does. */
  lemma WrappedTables(slot: u64, d: Translation, e: Translation, s: Submit, body: seq<Packet>)
    requires WrapperApart(slot, s)
    ensures TableOf(d, Wrapped(s, body)) == TableOf(d, body)
    ensures SlotOf(slot, e, Wrapped(s, body)) == SlotOf(slot, e, body)
  {
    WrapperQuiet(slot, s);
    hide Quiet, Prologue, Epilogue, TableOf, SlotOf;
    QuietKeeps(slot, d, e, Prologue(s));
    Follow(slot, d, e, Prologue(s), body);
    QuietKeeps(slot, TableOf(d, body), SlotOf(slot, e, body), Epilogue(s));
    Follow(slot, d, e, Prologue(s) + body, Epilogue(s));
  }
}
