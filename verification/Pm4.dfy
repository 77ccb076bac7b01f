/** PM4 packets: header encodings, framing of a command stream, and emission into a buffer. */
module Pm4 {
  import opened Basics

  // ---------- Opcodes and registers ----------

  const CP_NOP := 0x10
  const CP_WAIT_MEM_WRITES := 0x12
  const CP_WAIT_FOR_ME := 0x13
  const CP_YIELD_ENABLE := 0x1C
  const CP_WAIT_FOR_IDLE := 0x26
  const CP_MEM_WRITE := 0x3D
  const CP_REG_TO_MEM := 0x3E
  const CP_INDIRECT_BUFFER_PFE := 0x3F
  const CP_EVENT_WRITE := 0x46
  const CP_SMMU_TABLE_UPDATE := 0x53
  const CP_SET_PROTECTED_MODE := 0x5F
  const CP_WHERE_AM_I := 0x62
  const CP_SET_SECURE_MODE := 0x66
  const CP_PREEMPT_ENABLE_GLOBAL := 0x69
  const CP_PREEMPT_ENABLE_LOCAL := 0x6A
  const CP_CONTEXT_SWITCH_YIELD := 0x6B
  const CP_SET_RENDER_MODE := 0x6C

  // ---------- Parity ----------

  function Bit(v: nat, i: nat): (b: nat)
    ensures b < 2
  {
    Pow2Positive(i);
    v / Pow2(i) % 2
  }

  function FoldSum(v: nat, j: nat): nat {
    Bit(v, j) + Bit(v, j + 4) + Bit(v, j + 8) + Bit(v, j + 12)
    + Bit(v, j + 16) + Bit(v, j + 20) + Bit(v, j + 24) + Bit(v, j + 28)
  }

  /** Bit j of v ^ (v >> 4) ^ ... ^ (v >> 28); exclusive or is addition modulo two. */
  function FoldBit(v: nat, j: nat): (b: nat)
    ensures b < 2
  {
    FoldSum(v, j) % 2
  }

  /** pm4_calc_odd_parity_bit: look the folded nibble up in the constant 0x9669. */
  function OddParityBit(v: u32): (b: nat)
    ensures b < 2
  {
    Bit(0x9669, FoldBit(v, 0) + 2 * FoldBit(v, 1) + 4 * FoldBit(v, 2) + 8 * FoldBit(v, 3))
  }

  /** The number of ones among the lowest n bits. */
  function Ones(v: nat, n: nat): nat {
    if n == 0 then 0 else Ones(v, n - 1) + Bit(v, n - 1)
  }

  lemma OnesOfFour(v: nat, k: nat)
    ensures Ones(v, k + 4) == Ones(v, k) + Bit(v, k) + Bit(v, k + 1) + Bit(v, k + 2) + Bit(v, k + 3)
    ensures Ones(v, 0) == 0
  {
    hide Bit;
    assert Ones(v, k + 4) == Ones(v, k + 3) + Bit(v, k + 3);
    assert Ones(v, k + 3) == Ones(v, k + 2) + Bit(v, k + 2);
    assert Ones(v, k + 2) == Ones(v, k + 1) + Bit(v, k + 1);
  }

  /** Bits of the constant, by position. */
  lemma LowTable(n: nat)
    requires n < 8
    ensures Bit(0x9669, n) == (if n == 0 || n == 3 || n == 5 || n == 6 then 1 else 0)
  {
    assert Pow2(2) == 4 && Pow2(3) == 8;
    assert Pow2(4) == 16 && Pow2(5) == 32;
    assert Pow2(6) == 64 && Pow2(7) == 128;
  }

  lemma HighTable(n: nat)
    requires 8 <= n < 16
    ensures Bit(0x9669, n) == (if n == 9 || n == 10 || n == 12 || n == 15 then 1 else 0)
  {
    assert Pow2(3) == 8 && Pow2(6) == 64 && Pow2(8) == 256;
    assert Pow2(9) == 512 && Pow2(10) == 1024;
    assert Pow2(11) == 2048 && Pow2(12) == 4096;
    assert Pow2(13) == 8192 && Pow2(14) == 16384 && Pow2(15) == 32768;
  }

  lemma ParityTable(a: nat, b: nat, c: nat, d: nat)
    requires a < 2 && b < 2 && c < 2 && d < 2
    ensures Bit(0x9669, a + 2 * b + 4 * c + 8 * d) == (a + b + c + d + 1) % 2
  {
    hide Bit;
    if d == 0 {
      LowTable(a + 2 * b + 4 * c);
    } else {
      HighTable(a + 2 * b + 4 * c + 8);
    }
  }

  lemma OnesByNibble(v: u32)
    ensures Ones(v, 32) == FoldSum(v, 0) + FoldSum(v, 1) + FoldSum(v, 2) + FoldSum(v, 3)
  {
    hide Bit, Ones;
    OnesOfFour(v, 0);
    OnesOfFour(v, 4);
    OnesOfFour(v, 8);
    OnesOfFour(v, 12);
    OnesOfFour(v, 16);
    OnesOfFour(v, 20);
    OnesOfFour(v, 24);
    OnesOfFour(v, 28);
  }

  lemma SumParity(a: nat, b: nat, c: nat, d: nat)
    ensures (a + b + c + d) % 2 == (a % 2 + b % 2 + c % 2 + d % 2) % 2
  {
  }

  /** A word and its parity bit always hold an odd number of ones. */
  lemma ParityIsOdd(v: u32)
    ensures (Ones(v, 32) + OddParityBit(v)) % 2 == 1
  {
    hide Bit, FoldSum, Ones;
    OnesByNibble(v);
    SumParity(FoldSum(v, 0), FoldSum(v, 1), FoldSum(v, 2), FoldSum(v, 3));
    ParityTable(FoldBit(v, 0), FoldBit(v, 1), FoldBit(v, 2), FoldBit(v, 3));
  }

  // ---------- Headers ----------

  /** cp_type7_packet */
  function Type7(op: nat, cnt: nat): u32
    requires op < 0x80 && cnt < 0x4000
  {
    0x7000_0000 + OddParityBit(op) * 0x80_0000 + op * 0x1_0000 + OddParityBit(cnt) * 0x8000 + cnt
  }

  /** cp_type4_packet */
  function Type4(reg: nat, cnt: nat): u32
    requires reg < 0x4_0000 && cnt < 0x80
  {
    0x4000_0000 + OddParityBit(reg) * 0x800_0000 + reg * 0x100 + OddParityBit(cnt) * 0x80 + cnt
  }

  datatype Header = Header7(op: nat, cnt: nat) | Header4(reg: nat, cnt: nat) | BadHeader

  /** pkt_is_type7 and pkt_is_type4 with their field extractors. */
  function ParseHeader(w: u32): Header {
    if w / 0x100_0000 == 0x70
       && w / 0x80_0000 % 2 == OddParityBit(w / 0x1_0000 % 0x80)
       && w / 0x8000 % 2 == OddParityBit(w % 0x4000)
    then Header7(w / 0x1_0000 % 0x80, w % 0x4000)
    else if w / 0x1000_0000 == 4
            && w / 0x800_0000 % 2 == OddParityBit(w / 0x100 % 0x8_0000)
            && w / 0x80 % 2 == OddParityBit(w % 0x80)
    then Header4(w / 0x100 % 0x8_0000, w % 0x80)
    else BadHeader
  }

  /** The fields of a type 7 header do not overlap. */
  lemma Fields7(p: nat, op: nat, q: nat, cnt: nat)
    requires p < 2 && q < 2 && op < 0x80 && cnt < 0x4000
    ensures var w := 0x7000_0000 + p * 0x80_0000 + op * 0x1_0000 + q * 0x8000 + cnt;
      && w / 0x100_0000 == 0x70 && w / 0x80_0000 % 2 == p && w / 0x1_0000 % 0x80 == op
      && w / 0x8000 % 2 == q && w % 0x4000 == cnt
  {
  }

  lemma Fields4(p: nat, reg: nat, q: nat, cnt: nat)
    requires p < 2 && q < 2 && reg < 0x4_0000 && cnt < 0x80
    ensures var w := 0x4000_0000 + p * 0x800_0000 + reg * 0x100 + q * 0x80 + cnt;
      && w / 0x100_0000 != 0x70 && w / 0x1000_0000 == 4 && w / 0x800_0000 % 2 == p
      && w / 0x100 % 0x8_0000 == reg && w / 0x80 % 2 == q && w % 0x80 == cnt
  {
    var low := q * 0x80 + cnt;
    var mid := reg * 0x100 + low;
    LowFields4(p * 0x8_0000 + reg, q, cnt);
    HighFields4(p, mid);
  }

  lemma LowFields4(high: nat, q: nat, cnt: nat)
    requires q < 2 && cnt < 0x80 && high < 0x10_0000
    ensures var w := 0x4000_0000 + high * 0x100 + q * 0x80 + cnt;
      w / 0x80 % 2 == q && w % 0x80 == cnt && w / 0x100 == 0x40_0000 + high
  {
    var t := 2 * (0x40_0000 + high) + q;
    var w := 0x80 * t + cnt;
    assert w / 0x80 == t;
    assert w / 0x100 == t / 2;
  }

  lemma HighFields4(p: nat, mid: nat)
    requires p < 2 && mid < 0x400_0000
    ensures var w := 0x4000_0000 + p * 0x800_0000 + mid;
      w / 0x100_0000 != 0x70 && w / 0x1000_0000 == 4 && w / 0x800_0000 % 2 == p
  {
  }

  lemma Header7RoundTrip(op: nat, cnt: nat)
    requires op < 0x80 && cnt < 0x4000
    ensures ParseHeader(Type7(op, cnt)) == Header7(op, cnt)
  {
    hide OddParityBit;
    Fields7(OddParityBit(op), op, OddParityBit(cnt), cnt);
  }

  /** A bit that makes the ones of a field odd. */
  predicate OddWith(v: u32, bit: nat) { (Ones(v, 32) + bit) % 2 == 1 }

  lemma ParityBitIsOdd(v: u32)
    ensures OddWith(v, OddParityBit(v))
  {
    hide Ones, OddParityBit;
    ParityIsOdd(v);
  }

  /** Where the fields of a type 7 header stand; bits 23 and 15 are their odd parity bits. */
  lemma Header7Layout(op: nat, cnt: nat)
    requires op < 0x80 && cnt < 0x4000
    ensures var w := Type7(op, cnt);
      && w / 0x100_0000 == 0x70 && w / 0x1_0000 % 0x80 == op && w % 0x4000 == cnt
      && OddWith(op, w / 0x80_0000 % 2) && OddWith(cnt, w / 0x8000 % 2)
  {
    hide OddParityBit, Ones, OddWith;
    ParityBitIsOdd(op);
    ParityBitIsOdd(cnt);
    Fields7(OddParityBit(op), op, OddParityBit(cnt), cnt);
  }

  /** Where the fields of a type 4 header stand; bits 27 and 7 are their odd parity bits. */
  lemma Header4Layout(reg: nat, cnt: nat)
    requires reg < 0x4_0000 && cnt < 0x80
    ensures var w := Type4(reg, cnt);
      && w / 0x1000_0000 == 4 && w / 0x100 % 0x8_0000 == reg && w % 0x80 == cnt
      && OddWith(reg, w / 0x800_0000 % 2) && OddWith(cnt, w / 0x80 % 2)
  {
    hide OddParityBit, Ones, OddWith;
    ParityBitIsOdd(reg);
    ParityBitIsOdd(cnt);
    Fields4(OddParityBit(reg), reg, OddParityBit(cnt), cnt);
  }

  lemma Header4RoundTrip(reg: nat, cnt: nat)
    requires reg < 0x4_0000 && cnt < 0x80
    ensures ParseHeader(Type4(reg, cnt)) == Header4(reg, cnt)
  {
    hide OddParityBit;
    Fields4(OddParityBit(reg), reg, OddParityBit(cnt), cnt);
  }

  // ---------- Packets and streams ----------

  datatype Packet = Pkt7(op: nat, payload: seq<u32>) | Pkt4(reg: nat, payload: seq<u32>)

  predicate Fits(p: Packet) {
    match p
    case Pkt7(op, payload) => op < 0x80 && |payload| < 0x4000
    case Pkt4(reg, payload) => reg < 0x4_0000 && |payload| < 0x80
  }

  predicate AllFit(ps: seq<Packet>) {
    forall i :: 0 <= i < |ps| ==> Fits(ps[i])
  }

  function HeaderOf(p: Packet): u32
    requires Fits(p)
  {
    match p
    case Pkt7(op, payload) => Type7(op, |payload|)
    case Pkt4(reg, payload) => Type4(reg, |payload|)
  }

  function Encode(p: Packet): seq<u32>
    requires Fits(p)
  {
    [HeaderOf(p)] + p.payload
  }

  function EncodeAll(ps: seq<Packet>): seq<u32>
    requires AllFit(ps)
  {
    if ps == [] then [] else Encode(ps[0]) + EncodeAll(ps[1..])
  }

  /** How the CP frames a stream: header, then as many payload words as the header says. */
  function Parse(ws: seq<u32>): Option<seq<Packet>>
    decreases |ws|
  {
    if ws == [] then Some([])
    else
      match ParseHeader(ws[0])
      case BadHeader => None
      case Header7(op, cnt) =>
        if 1 + cnt > |ws| then None else Prepend(Pkt7(op, ws[1..1 + cnt]), Parse(ws[1 + cnt..]))
      case Header4(reg, cnt) =>
        if 1 + cnt > |ws| then None else Prepend(Pkt4(reg, ws[1..1 + cnt]), Parse(ws[1 + cnt..]))
  }

  function Prepend(p: Packet, rest: Option<seq<Packet>>): Option<seq<Packet>> {
    match rest case None => None case Some(ps) => Some([p] + ps)
  }

  lemma ParseOne(p: Packet, rest: seq<u32>)
    requires Fits(p)
    ensures Parse(Encode(p) + rest) == Prepend(p, Parse(rest))
  {
    hide OddParityBit, Type7, Type4, ParseHeader;
    var ws := Encode(p) + rest;
    var k := 1 + |p.payload|;
    assert ws[0] == HeaderOf(p);
    assert ws[1..k] == p.payload && ws[k..] == rest;
    match p
    case Pkt7(op, payload) => Header7RoundTrip(op, |payload|);
    case Pkt4(reg, payload) => Header4RoundTrip(reg, |payload|);
  }

  /** Decoding an encoded stream followed by anything that decodes gives both, in order. */
  lemma {:induction false} ParseEncoded(ps: seq<Packet>, rest: seq<u32>)
    requires AllFit(ps)
    ensures Parse(EncodeAll(ps) + rest) ==
      match Parse(rest) case None => None case Some(qs) => Some(ps + qs)
  {
    hide ParseHeader, HeaderOf, Encode;
    if ps == [] {
      assert EncodeAll(ps) + rest == rest;
      if Parse(rest).Some? {
        assert ps + Parse(rest).value == Parse(rest).value;
      }
    } else {
      ParseEncoded(ps[1..], rest);
      assert EncodeAll(ps) + rest == Encode(ps[0]) + (EncodeAll(ps[1..]) + rest);
      ParseOne(ps[0], EncodeAll(ps[1..]) + rest);
      if Parse(rest).Some? {
        assert [ps[0]] + (ps[1..] + Parse(rest).value) == ps + Parse(rest).value;
      }
    }
  }

  lemma RoundTrip(ps: seq<Packet>)
    requires AllFit(ps)
    ensures Parse(EncodeAll(ps)) == Some(ps)
  {
    hide ParseHeader, HeaderOf, Encode;
    ParseEncoded(ps, []);
    assert EncodeAll(ps) + [] == EncodeAll(ps);
    assert ps + [] == ps;
  }

  /** The packet a framed stream starts with. */
  function First(ws: seq<u32>): Packet
    requires ws != [] && Parse(ws).Some?
  {
    Parse(ws).value[0]
  }

  lemma ParseFirst(ws: seq<u32>, vs: seq<u32>) returns (k: nat)
    requires ws != [] && Parse(ws).Some?
    ensures 0 < k <= |ws| && Parse(ws) == Prepend(First(ws), Parse(ws[k..]))
    ensures Parse(ws + vs) == Prepend(First(ws), Parse(ws[k..] + vs))
  {
    hide ParseHeader;
    k := 1 + ParseHeader(ws[0]).cnt;
    assert (ws + vs)[0] == ws[0];
    assert (ws + vs)[1..k] == ws[1..k];
    assert (ws + vs)[k..] == ws[k..] + vs;
  }

  /** A framed stream stays framed when framed words are added to it. */
  lemma {:induction false} ParseConcat(ws: seq<u32>, vs: seq<u32>)
    requires Parse(ws).Some?
    ensures Parse(ws + vs) ==
      match Parse(vs) case None => None case Some(qs) => Some(Parse(ws).value + qs)
    decreases |ws|
  {
    hide Parse, First;
    if ws == [] {
      ParseNothing(vs);
    } else {
      var k := ParseFirst(ws, vs);
      ParseConcat(ws[k..], vs);
      if Parse(vs).Some? {
        var p, ps, qs := First(ws), Parse(ws[k..]).value, Parse(vs).value;
        assert [p] + (ps + qs) == [p] + ps + qs;
      }
    }
  }

  lemma ParseNothing(vs: seq<u32>)
    ensures Parse([]) == Some([]) && [] + vs == vs
    ensures Parse(vs).Some? ==> [] + Parse(vs).value == Parse(vs).value
  {
  }

  lemma EncodeCons(p: Packet, ps: seq<Packet>)
    requires Fits(p) && AllFit(ps)
    ensures AllFit([p] + ps) && EncodeAll([p] + ps) == Encode(p) + EncodeAll(ps)
  {
    hide HeaderOf, Encode, Fits;
    assert ([p] + ps)[1..] == ps;
  }

  lemma {:induction false} EncodeConcat(ps: seq<Packet>, qs: seq<Packet>)
    requires AllFit(ps) && AllFit(qs)
    ensures AllFit(ps + qs) && EncodeAll(ps + qs) == EncodeAll(ps) + EncodeAll(qs)
  {
    hide HeaderOf, Encode, Fits;
    if ps == [] {
      assert ps + qs == qs;
    } else {
      EncodeConcat(ps[1..], qs);
      EncodeCons(ps[0], ps[1..] + qs);
      EncodeCons(ps[0], ps[1..]);
      assert ps == [ps[0]] + ps[1..] && ps + qs == [ps[0]] + (ps[1..] + qs);
    }
  }

  // ---------- Addresses ----------

  function Lo(a: u64): u32 { a % 0x1_0000_0000 }

  function Hi(a: u64): u32 { a / 0x1_0000_0000 }

  function Addr(lo: u32, hi: u32): u64 { hi * 0x1_0000_0000 + lo }

  // ---------- Emission ----------

  /** Writes one packet at `at`, as the driver's `cmds[index++] = ...` lines do. */
  method Put(cmds: array<u32>, ghost start: nat, at: nat, p: Packet) returns (next: nat)
    requires Fits(p) && start <= at && at + 1 + |p.payload| <= cmds.Length
    modifies cmds
    ensures next == at + 1 + |p.payload|
    ensures cmds[at] == HeaderOf(p) && forall j :: 0 <= j < |p.payload| ==> cmds[at + 1 + j] == p.payload[j]
    ensures cmds[start..next] == old(cmds[start..at]) + Encode(p)
    ensures forall i :: 0 <= i < cmds.Length && !(at <= i < next) ==> cmds[i] == old(cmds[i])
  {
    hide HeaderOf;
    cmds[at] := HeaderOf(p);
    next := at + 1;
    var k := 0;
    while k < |p.payload|
      invariant 0 <= k <= |p.payload| && next == at + 1 + k
      invariant cmds[at] == HeaderOf(p)
      invariant forall j :: 0 <= j < k ==> cmds[at + 1 + j] == p.payload[j]
      invariant forall i :: 0 <= i < cmds.Length && !(at <= i < next) ==> cmds[i] == old(cmds[i])
    {
      cmds[next] := p.payload[k];
      next := next + 1;
      k := k + 1;
    }
    assert cmds[start..at] == old(cmds[start..at]);
    assert cmds[at..next] == Encode(p);
    assert cmds[start..next] == cmds[start..at] + cmds[at..next];
  }
}
