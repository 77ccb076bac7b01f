/** Concrete submissions after which a ring does not run its active context's page table. */
module LostSwitch {
  import opened Basics
  import opened Pm4
  import opened Pm4Machine
  import opened Pm4Commands
  import opened Pm4Meaning
  import opened Pm4Emit
  import opened Ringbuffer
  import opened CommandBody
  import opened PageTables
  import opened Submission

  const PLACES := Places(0x100, 0x200, 0x300)
  const ORIGIN := Translation(0x3000, 0)
  const FALLBACK := Pagetable(0, 0x3000)
  const OTHER := Pagetable(1, 0x2000)

  /** An internal command: no context, no flags, preemption off. */
  const PLAIN := Submit(false, 0, None, false, false, false, 0, 0, 0, 0x500, 0x600, 0x700, None, None, false)

  function ContextOf(id: u32): Context { Context(id, false, false, 0, 0x800, 0x900) }

  function RequestOf(id: u32): Submit { PLAIN.(context := Some(ContextOf(id))) }

  /** One four-word IB, no flags. */
  const ONE_IB := Command([IbNode(0x1000, 16, false, false)], false, false, false, false, 0xA00, 0xB00, 0xC00)

  const FILLER_WORDS := 8091

  function Filler(): (p: Packet)
    ensures Fits(p) && p.Pkt7? && p.op == CP_NOP && |p.payload| == FILLER_WORDS
  {
    Pkt7(CP_NOP, seq(FILLER_WORDS, i requires 0 <= i < FILLER_WORDS => 0))
  }

  // ---------- Sizes ----------

  lemma {:induction false} FlattenSizeIs(parts: seq<seq<Packet>>, sizes: seq<nat>)
    requires |parts| == |sizes| && forall i :: 0 <= i < |parts| ==> Size(parts[i]) == sizes[i]
    ensures Size(Flatten(parts)) == Sum(sizes)
  {
    if parts != [] {
      FlattenSizeIs(parts[1..], sizes[1..]);
      SizeConcat(parts[0], Flatten(parts[1..]));
    }
  }

  lemma PlainPrologue(s: Submit)
    requires !s.preemption && s.context == None && !s.secure && !s.notProtected && s.profilePre == None
    ensures Size(Prologue(s)) == 6
  {
    var stamp := WriteMem(s.rbSoptimestamp, s.rbTimestamp);
    SizeOfOne(Nop(CMD_INTERNAL_IDENTIFIER));
    SizeOfOne(stamp);
    assert StartStamps(s) == [stamp];
    assert Sum([2, 0, 0, 4, 0, 0]) == 6 by {
      assert Sum([0, 4, 0, 0]) == 4;
    }
    hide Flatten, Sum;
    FlattenSizeIs(PrologueParts(s), [2, 0, 0, 4, 0, 0]);
  }

  lemma NineWords()
    ensures Sum([0, 0, 0, 4, 5, 0, 0, 0]) == 9
  {
    assert Sum([0, 0]) == 0;
    assert Sum([5, 0, 0, 0]) == 5;
    assert Sum([0, 4, 5, 0, 0, 0]) == 9;
  }

  lemma PlainEpilogue(s: Submit)
    requires !s.preemption && s.context == None && !s.secure && !s.notProtected && !s.wfi && !s.waitMemWrites
    requires s.profilePost == None
    ensures Size(Epilogue(s)) == 9
  {
    var marker, stamp := WriteMem(s.refWaitTs, s.sequence), EndStamps(s)[0];
    SizeOfOne(marker);
    SizeOfOne(stamp);
    assert EndStamps(s) == [stamp] && Size([]) == 0;
    assert EpilogueParts(s) == [[], [], [], [marker], [stamp], [], [], []];
    NineWords();
    hide Flatten, Sum, Size, EpilogueParts;
    FlattenSizeIs(EpilogueParts(s), [0, 0, 0, 4, 5, 0, 0, 0]);
  }

  lemma FillerFills(timestamp: u32, sequence: u32)
    ensures |WrappedWords(Stamped(PLAIN, timestamp, sequence), Encode(Filler()))| == 8107
  {
    var s := Stamped(PLAIN, timestamp, sequence);
    PlainPrologue(s);
    PlainEpilogue(s);
    WrapperFits(s);
    SizeOfEncoding(Prologue(s));
    SizeOfEncoding(Epilogue(s));
  }

  lemma OneIbWords(rev: nat)
    ensures BodyWords(ONE_IB, rev, None, None) == 16
  {
    var ib := IbPacket(ONE_IB, ONE_IB.ibs[0]);
    var render, yld := Pkt7(CP_SET_RENDER_MODE, [0, 0, 0, 0, 0]), Pkt7(CP_YIELD_ENABLE, [1]);
    assert ONE_IB.ibs[1..] == [];
    assert IbPackets(ONE_IB, ONE_IB.ibs) == [ib] + IbPackets(ONE_IB, ONE_IB.ibs[1..]);
    assert BodyHead(ONE_IB, rev, None) == [Nop(START_IB_IDENTIFIER)] + [ib];
    assert BodyTail(ONE_IB, rev, None) == [render] + ([yld] + [Nop(END_IB_IDENTIFIER)]);
    SizeOfOne(ib);
    SizeOfOne(render);
    SizeOfOne(yld);
    SizeOfOne(Nop(START_IB_IDENTIFIER));
    SizeOfOne(Nop(END_IB_IDENTIFIER));
    SizeConcat([Nop(START_IB_IDENTIFIER)], [ib]);
    SizeConcat([yld], [Nop(END_IB_IDENTIFIER)]);
    SizeConcat([render], [yld] + [Nop(END_IB_IDENTIFIER)]);
    SizeConcat(BodyHead(ONE_IB, rev, None), BodyTail(ONE_IB, rev, None));
  }

  // ---------- A ring without room for a switch ----------

  /** A fresh ring and one large internal command. */
  method FillRing() returns (sub: Submitter)
    ensures sub.Valid() && fresh(sub) && fresh(sub.rb) && fresh(sub.rb.buffer) && fresh(sub.page) && fresh(sub.page.mem)
    ensures sub.rb.rptr == 0 && sub.rb.pending == 8110 && sub.active == None && !sub.page.present
    ensures sub.places == PLACES && sub.fallback == FALLBACK && sub.Now() == View(ORIGIN, ORIGIN, [])
  {
    hide Sane, Extend;
    sub := new Submitter(0x400, false, 0, PLACES, ORIGIN, FALLBACK);
    Fill(sub);
  }

  method Fill(sub: Submitter)
    requires sub.Valid() && sub.rb.rptr == 0 && sub.rb.pending == 0 && sub.places == PLACES
    requires sub.Now() == View(ORIGIN, ORIGIN, [])
    modifies sub.rb, sub.rb.buffer
    ensures sub.Valid() && sub.rb.rptr == 0 && sub.rb.pending == 8110 && sub.Now() == View(ORIGIN, ORIGIN, [])
  {
    hide Encode, EncodeAll, Parse, Extend, Sane, Wrapped, WrappedWords, Neutral, Quiet, Filler;
    FillerBody();
    var input := Encode(Filler());
    FillerRoom(|input|);
    ghost var before := sub.Now();
    var err, sequence, pre, post := sub.Queue(PLAIN, false, input, [Filler()], 0, false);
    FillerFills(sub.rb.timestamp, sequence);
    FillerView(Stamped(PLAIN, sub.rb.timestamp, sequence));
  }

  lemma FillerRoom(n: nat)
    requires n == FILLER_WORDS + 1
    ensures Room(0, 0, SUBMIT_MAX + n) && Free(0, 0, SUBMIT_MAX + n)
  {
  }

  lemma FillerBody()
    ensures Fits(Filler()) && Parse(Encode(Filler())) == Some([Filler()]) && Neutral([Filler()]) && Quiet(PLACES.slot, [Filler()])
    ensures |Encode(Filler())| == FILLER_WORDS + 1
  {
    hide Filler, Parse, EncodeAll, HeaderOf;
    var p := Filler();
    EncodeSingle(p);
    RoundTrip([p]);
  }

  lemma FillerView(s: Submit)
    requires s == Stamped(PLAIN, s.rbTimestamp, s.sequence)
    ensures Extend(View(ORIGIN, ORIGIN, []), PLACES.slot, Wrapped(s, [Filler()])) == View(ORIGIN, ORIGIN, [])
  {
    FillerBody();
    PlainCalls(BodyMode(s), Filler());
    hide Extend, Wrapped, Neutral, Quiet, Log, CallsOf;
    SubmissionView(View(ORIGIN, ORIGIN, []), PLACES.slot, s, [Filler()]);
  }

  /**
   The switch needs 94 words and finds no room, the body needs 80 and finds them: the call
   succeeds, the new context is active, and its IB runs under the table in force before.
   */
  method SwitchWithoutRoom() returns (sub: Submitter, err: Option<Errno>)
    ensures sub.Valid() && err == None && sub.active == Some(Active(1, OTHER)) && !sub.Tracked()
    ensures sub.Now().ran == [Ran(CallIb(0x1000, 4), ORIGIN)] && ORIGIN.ttbr0 != OTHER.ttbr0
  {
    sub := FillRing();
    OneIbWords(530);
    hide BodyWords, Sane, RanPicked, Numbered, Meaning;
    var sequence;
    ghost var first, last, picks;
    err, sequence, first, last, picks :=
      sub.SubmitCmd(DrawContext(ContextOf(1), OTHER), true, ONE_IB, 530, RequestOf(1), false, 1, false);
    OneIbCalls(sub.Now(), picks);
  }

  lemma OnlyZero(picks: seq<nat>)
    requires 0 in picks
    requires forall j, k :: 0 <= j < k < |picks| ==> picks[j] < picks[k]
    requires forall k :: 0 <= k < |picks| ==> picks[k] < 1
    ensures picks == [0]
  {
    assert picks[0] == picks[|picks| - 1] == 0;
  }

  lemma OneIbCalls(now: View, picks: seq<nat>)
    requires RanPicked([], now, RequestOf(1), ONE_IB, None, None, picks)
    ensures now.ran == [Ran(CallIb(0x1000, 4), now.table)]
  {
    assert 0 in picks;
    OnlyZero(picks);
    var calls := CallPicked(ONE_IB, picks);
    assert calls == [CallIb(0x1000, 4)];
    assert [] + ([] + calls + []) + [] == calls;
    assert Under(calls, now.table) == [Ran(calls[0], now.table)] + Under(calls[1..], now.table) && calls[1..] == [];
    assert [] + [Ran(calls[0], now.table)] == [Ran(calls[0], now.table)];
  }

  /** A ring that has been switched to another table than the default. */
  method SwitchAway() returns (sub: Submitter, sequence: u32)
    ensures sub.Valid() && fresh(sub) && fresh(sub.rb) && fresh(sub.rb.buffer) && fresh(sub.page) && fresh(sub.page.mem)
    ensures sub.active == Some(Active(1, OTHER)) && sub.places == PLACES && sub.fallback == FALLBACK
    ensures sub.Now().table == Translation(OTHER.ttbr0, 1)
  {
    sub := new Submitter(0x400, false, 0, PLACES, ORIGIN, FALLBACK);
    hide BodyWords, Sane, Extend, RanPicked, Numbered, Meaning;
    var err;
    ghost var first, last, picks;
    err, sequence, first, last, picks :=
      sub.SubmitCmd(DrawContext(ContextOf(1), OTHER), true, ONE_IB, 530, RequestOf(1), false, 0, false);
  }

  /** A context with the default page table gets no update, so after another table that one stays. */
  method DefaultTableIsNotRestored() returns (sub: Submitter)
    ensures sub.Valid() && sub.active == Some(Active(2, FALLBACK)) && !sub.Tracked()
    ensures sub.Now().table == Translation(OTHER.ttbr0, 1)
  {
    hide BodyWords, Sane, Extend, RanPicked, Numbered, Meaning;
    var sequence, err;
    ghost var first, last, picks;
    sub, sequence := SwitchAway();
    err, sequence, first, last, picks :=
      sub.SubmitCmd(DrawContext(ContextOf(2), FALLBACK), true, ONE_IB, 530, RequestOf(2), false, sequence, false);
  }
}
