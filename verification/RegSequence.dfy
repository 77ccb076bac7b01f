/** The interpreter of register sequences found in the LM block of the register file. */
module RegSequence {
  import opened Basics

  datatype Op =
    | Write32(target: u64, value: u32)
    | Write64(target: u64, wide: u64)
    | Delay(usec: u32)

  /** What the driver does for an operation; register writes take 32 bits of each argument. */
  datatype Act = RegWrite(reg: u32, value: u32) | Udelay(usec: u32)

  function Low(x: u64): u32 { x % 0x1_0000_0000 }

  function Join(low: u32, high: u32): u64 { high * 0x1_0000_0000 + low }

  function EncodeOp(op: Op): (ws: seq<u32>)
    ensures |ws| > 0
  {
    match op
    case Write32(target, value) => [1, target % 0x1_0000_0000, target / 0x1_0000_0000, value]
    case Write64(target, wide) =>
      [2, target % 0x1_0000_0000, target / 0x1_0000_0000, wide % 0x1_0000_0000, wide / 0x1_0000_0000]
    case Delay(usec) => [3, usec]
  }

  function EncodeOps(ops: seq<Op>): seq<u32> {
    if ops == [] then [] else EncodeOp(ops[0]) + EncodeOps(ops[1..])
  }

  function ActOf(op: Op): Act {
    match op
    case Write32(target, value) => RegWrite(Low(target), value)
    case Write64(target, wide) => RegWrite(Low(target), Low(wide))
    case Delay(usec) => Udelay(usec)
  }

  function Acts(ops: seq<Op>): seq<Act> {
    if ops == [] then [] else [ActOf(ops[0])] + Acts(ops[1..])
  }

  /** Some valid operation starts here. */
  ghost predicate StartsWithOp(ws: seq<u32>) {
    exists op: Op :: EncodeOp(op) <= ws
  }

  /** A write takes the lower halves of its register and its value; a delay takes its microseconds. */
  predicate Performs(op: Op, act: Act) {
    && (op.Write32? ==> act == RegWrite(op.target % 0x1_0000_0000, op.value))
    && (op.Write64? ==> act == RegWrite(op.target % 0x1_0000_0000, op.wide % 0x1_0000_0000))
    && (op.Delay? ==> act == Udelay(op.usec))
  }

  /** Every operation is performed once, in order. */
  lemma {:induction false} ActsPerform(ops: seq<Op>)
    ensures |Acts(ops)| == |ops| && forall i :: 0 <= i < |ops| ==> Performs(ops[i], Acts(ops)[i])
  {
    if ops != [] {
      ActsPerform(ops[1..]);
    }
  }

  lemma JoinSplit(x: u64, low: u32, high: u32)
    ensures Join(x % 0x1_0000_0000, x / 0x1_0000_0000) == x
    ensures Join(low, high) % 0x1_0000_0000 == low && Join(low, high) / 0x1_0000_0000 == high
  {
  }

  /** The encoding is a prefix code: at most one operation starts anywhere. */
  lemma OneOp(a: Op, b: Op, ws: seq<u32>)
    requires EncodeOp(a) <= ws && EncodeOp(b) <= ws
    ensures a == b
  {
    var ea, eb := EncodeOp(a), EncodeOp(b);
    assert ws[0] == ea[0] == eb[0];
    assert ws[1] == ea[1] == eb[1];
    if a.Write32? || a.Write64? {
      JoinSplit(a.target, 0, 0);
      JoinSplit(b.target, 0, 0);
      assert ws[2] == ea[2] == eb[2] && ws[3] == ea[3] == eb[3];
    }
    if a.Write64? {
      JoinSplit(a.wide, 0, 0);
      JoinSplit(b.wide, 0, 0);
      assert ws[4] == ea[4] == eb[4];
    }
  }

  /** A list that stops where no operation starts extends every other list of operations. */
  lemma {:induction false} Longest(ops: seq<Op>, rest: seq<u32>, other: seq<Op>)
    requires !StartsWithOp(rest) && EncodeOps(other) <= EncodeOps(ops) + rest
    ensures other <= ops
  {
    hide EncodeOp;
    if other != [] {
      var ws := EncodeOps(ops) + rest;
      var head := EncodeOp(other[0]);
      assert head <= EncodeOps(other);
      assert head <= ws;
      if ops == [] {
        assert false;
      } else {
        assert ws == EncodeOp(ops[0]) + (EncodeOps(ops[1..]) + rest);
        OneOp(other[0], ops[0], ws);
        assert EncodeOps(other)[|head|..] == EncodeOps(other[1..]);
        assert ws[|head|..] == EncodeOps(ops[1..]) + rest;
        Longest(ops[1..], rest, other[1..]);
      }
    }
  }

  lemma {:induction false} EncodeSnoc(ops: seq<Op>, op: Op)
    ensures EncodeOps(ops + [op]) == EncodeOps(ops) + EncodeOp(op)
    ensures Acts(ops + [op]) == Acts(ops) + [ActOf(op)]
  {
    hide EncodeOp, ActOf;
    if ops == [] {
      assert [op][1..] == [];
    } else {
      EncodeSnoc(ops[1..], op);
      assert (ops + [op])[1..] == ops[1..] + [op];
    }
  }

  /**
   _execute_reg_sequence. It performs the longest list of operations the words start with, and
   reports success exactly when nothing is left over.
   */
  method ExecuteRegSequence(opcode: seq<u32>) returns (ok: bool, acts: seq<Act>, ghost ops: seq<Op>)
    ensures |acts| == |ops| && forall i :: 0 <= i < |ops| ==> Performs(ops[i], acts[i])
    ensures acts == Acts(ops) && EncodeOps(ops) <= opcode
    ensures forall other :: EncodeOps(other) <= opcode ==> other <= ops
    ensures ok <==> exists all :: EncodeOps(all) == opcode
    ensures ok ==> EncodeOps(ops) == opcode
  {
    var cur := 0;
    acts, ops, ok := [], [], true;
    while cur < |opcode| && ok
      invariant 0 <= cur <= |opcode|
      invariant opcode[..cur] == EncodeOps(ops) && acts == Acts(ops)
      invariant !ok ==> cur < |opcode| && !StartsWithOp(opcode[cur..])
      decreases ok, |opcode| - cur
    {
      var op := OpAt(opcode, cur);
      if op.None? {
        ok := false;
      } else {
        EncodeSnoc(ops, op.value);
        acts := acts + [ActOf(op.value)];
        ops := ops + [op.value];
        assert opcode[..cur + |EncodeOp(op.value)|] == opcode[..cur] + EncodeOp(op.value);
        cur := cur + |EncodeOp(op.value)|;
      }
    }
    Finish(opcode, cur, ops, ok);
    ActsPerform(ops);
  }

  /** The branch taken at one position, and how far it moves. */
  method OpAt(opcode: seq<u32>, cur: nat) returns (op: Option<Op>)
    requires cur < |opcode|
    ensures op.Some? ==> EncodeOp(op.value) <= opcode[cur..]
    ensures op.None? ==> !StartsWithOp(opcode[cur..])
  {
    hide EncodeOp, Join, StartsWithOp;
    ghost var ws := opcode[cur..];
    OpWords(ws);
    var left := |opcode| - cur;
    if opcode[cur] == 1 && left >= 4 {
      op := Some(Write32(Join(opcode[cur + 1], opcode[cur + 2]), opcode[cur + 3]));
    } else if opcode[cur] == 2 && left >= 5 {
      op := Some(Write64(Join(opcode[cur + 1], opcode[cur + 2]), Join(opcode[cur + 3], opcode[cur + 4])));
    } else if opcode[cur] == 3 && left >= 2 {
      op := Some(Delay(opcode[cur + 1]));
    } else {
      op := None;
      NoOp(ws);
    }
  }

  lemma NoOp(ws: seq<u32>)
    requires ws != []
    requires !(ws[0] == 1 && |ws| >= 4) && !(ws[0] == 2 && |ws| >= 5) && !(ws[0] == 3 && |ws| >= 2)
    ensures !StartsWithOp(ws)
  {
    forall op: Op ensures !(EncodeOp(op) <= ws) {
      var e := EncodeOp(op);
      if e <= ws {
        assert false;
      }
    }
  }

  /** The words of each operation, read back where they stand. */
  lemma OpWords(ws: seq<u32>)
    requires ws != []
    ensures |ws| >= 4 && ws[0] == 1 ==> EncodeOp(Write32(Join(ws[1], ws[2]), ws[3])) == ws[..4]
    ensures |ws| >= 5 && ws[0] == 2 ==> EncodeOp(Write64(Join(ws[1], ws[2]), Join(ws[3], ws[4]))) == ws[..5]
    ensures |ws| >= 2 && ws[0] == 3 ==> EncodeOp(Delay(ws[1])) == ws[..2]
  {
    hide Join;
    if |ws| >= 4 && ws[0] == 1 {
      JoinSplit(0, ws[1], ws[2]);
      assert EncodeOp(Write32(Join(ws[1], ws[2]), ws[3])) == [1, ws[1], ws[2], ws[3]];
    } else if |ws| >= 5 && ws[0] == 2 {
      JoinSplit(0, ws[1], ws[2]);
      JoinSplit(0, ws[3], ws[4]);
      assert EncodeOp(Write64(Join(ws[1], ws[2]), Join(ws[3], ws[4]))) == [2, ws[1], ws[2], ws[3], ws[4]];
    }
  }

  lemma Finish(opcode: seq<u32>, cur: nat, ops: seq<Op>, ok: bool)
    requires cur <= |opcode| && opcode[..cur] == EncodeOps(ops)
    requires if ok then cur == |opcode| else cur < |opcode| && !StartsWithOp(opcode[cur..])
    ensures forall other :: EncodeOps(other) <= opcode ==> other <= ops
    ensures ok <==> exists all :: EncodeOps(all) == opcode
  {
    hide EncodeOp, EncodeOps;
    var rest := opcode[cur..];
    assert opcode == EncodeOps(ops) + rest;
    NothingStartsNothing();
    forall other | EncodeOps(other) <= opcode ensures other <= ops {
      Longest(ops, rest, other);
    }
    if all :| EncodeOps(all) == opcode {
      Longest(ops, rest, all);
      PrefixEncodes(all, ops);
    }
  }

  lemma NothingStartsNothing()
    ensures !StartsWithOp([])
  {
  }

  lemma {:induction false} PrefixEncodes(a: seq<Op>, b: seq<Op>)
    requires a <= b
    ensures |EncodeOps(a)| <= |EncodeOps(b)|
  {
    hide EncodeOp;
    if a != [] {
      PrefixEncodes(a[1..], b[1..]);
    }
  }

  /** Executing an encoded list performs exactly that list. */
  lemma EncodingIsUnique(a: seq<Op>, b: seq<Op>)
    requires EncodeOps(a) == EncodeOps(b)
    ensures a == b
  {
    hide EncodeOp, EncodeOps;
    NothingStartsNothing();
    assert EncodeOps(a) + [] == EncodeOps(a) && EncodeOps(b) + [] == EncodeOps(b);
    Longest(a, [], b);
    Longest(b, [], a);
  }

  /** A write reaches the register it names with the value it carries iff both fit in 32 bits. */
  lemma WritesAreTruncated(op: Op)
    requires !op.Delay?
    ensures var value := if op.Write32? then op.value else op.wide;
      (ActOf(op).reg == op.target && ActOf(op).value == value)
      <==> op.target < 0x1_0000_0000 && value < 0x1_0000_0000
  {
  }

  /** Two writes that lose their upper halves: of the register, and of the value. */
  lemma UpperHalvesAreLost()
    ensures ActOf(Write32(TWO_32, 5)) == RegWrite(0, 5) && ActOf(Write64(1, TWO_32 + 7)) == RegWrite(1, 7)
  {
  }
}
