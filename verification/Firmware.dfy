/** Readers of the A5xx firmware files: block headers, the register file and the GPMU image. */
module Firmware {
  import opened Basics

  const FIRMWARE_ID: u32 := 2
  const SEQUENCE_ID: u32 := 3
  const LM_SEQUENCE_ID: u32 := 1
  const MAX_SEQUENCE_ID: u32 := 3
  const MAX_HEADER_SIZE: u32 := 10
  const HEADER_MAJOR: u32 := 1
  const HEADER_SEQUENCE: u32 := 5
  const INST_RAM_SIZE := 0xFFF

  // ---------- Block headers ----------

  /** The major version field at k, if there is one, is not older than wanted; 0 means any. */
  predicate MajorOk(h: seq<u32>, k: nat, major: u32)
    requires k + 1 < |h|
  {
    h[k] == HEADER_MAJOR ==> h[k + 1] == 0 || major <= h[k + 1]
  }

  /** A header accepted for a block with `remain` words after its first two. */
  predicate HeaderOk(h: seq<u32>, remain: nat, id: u32, major: u32)
    requires remain < |h|
  {
    && 0 < h[0] <= MAX_HEADER_SIZE && h[0] < remain && h[0] % 2 == 0
    && (id == SEQUENCE_ID ==> h[1] == HEADER_SEQUENCE && h[2] < MAX_SEQUENCE_ID)
    && (forall k :: (if id == SEQUENCE_ID then 1 else 0) <= k < h[0] / 2 ==> MajorOk(h, 2 * k + 1, major))
  }

  /**
   The header words in plain numbers: an even size of at most ten words inside the block, a sequence
   block's own field 5 first, and no version field 1 that is set and older than wanted.
   */
  lemma HeaderIs(h: seq<u32>, remain: nat, id: u32, major: u32)
    requires remain < |h|
    ensures HeaderOk(h, remain, id, major) <==>
      && 0 < h[0] <= 10 && h[0] < remain && h[0] % 2 == 0
      && (id == 3 ==> h[1] == 5 && h[2] < 3)
      && (forall i :: (if id == 3 then 3 else 1) <= i < h[0] && i % 2 == 1 && h[i] == 1 ==>
            h[i + 1] == 0 || major <= h[i + 1])
  {
    if 0 < h[0] <= 10 && h[0] < remain && h[0] % 2 == 0 && HeaderOk(h, remain, id, major) {
      forall i | (if id == 3 then 3 else 1) <= i < h[0] && i % 2 == 1 && h[i] == 1
        ensures h[i + 1] == 0 || major <= h[i + 1]
      {
        assert MajorOk(h, 2 * (i / 2) + 1, major);
      }
    }
  }

  /**
   _read_fw2_block_header. Old minor versions and unknown fields are only logged. No word past
   the header's own size is read.
   */
  method ReadFw2BlockHeader(h: seq<u32>, remain: nat, id: u32, major: u32) returns (ok: bool)
    requires remain < |h|
    ensures ok <==> HeaderOk(h, remain, id, major)
    ensures ok <==>
      && 0 < h[0] <= 10 && h[0] < remain && h[0] % 2 == 0
      && (id == 3 ==> h[1] == 5 && h[2] < 3)
      && (forall i :: (if id == 3 then 3 else 1) <= i < h[0] && i % 2 == 1 && h[i] == 1 ==>
            h[i + 1] == 0 || major <= h[i + 1])
  {
    HeaderIs(h, remain, id, major);
    var size := h[0];
    if size > MAX_HEADER_SIZE || size >= remain || size % 2 != 0 || size == 0 {
      return false;
    }
    var i := 1;
    if id == SEQUENCE_ID {
      if h[i] != HEADER_SEQUENCE || h[i + 1] >= MAX_SEQUENCE_ID {
        return false;
      }
      i := i + 2;
    }
    ghost var j := i / 2;
    while i < size
      invariant i == 2 * j + 1 && j <= size / 2
      invariant forall k :: (if id == SEQUENCE_ID then 1 else 0) <= k < j ==> MajorOk(h, 2 * k + 1, major)
    {
      if h[i] == HEADER_MAJOR && major > h[i + 1] && h[i + 1] != 0 {
        assert !MajorOk(h, 2 * j + 1, major);
        return false;
      }
      i := i + 2;
      j := j + 1;
    }
    ok := true;
  }

  // ---------- The register file ----------

  /** A run of words of a file. */
  datatype Slice = Slice(start: nat, size: nat)

  /** The words of a block after its length word: type, header size, sequence field, ... */
  predicate BlockOk(b: seq<u32>, major: u32) {
    && 5 <= |b| < 0x1_0000_0000 && b[0] == SEQUENCE_ID
    && (b[3] == LM_SEQUENCE_ID ==> HeaderOk(b[1..], |b| - 2, SEQUENCE_ID, major))
  }

  predicate Sized(bs: seq<seq<u32>>) {
    forall i :: 0 <= i < |bs| ==> |bs[i]| < 0x1_0000_0000
  }

  predicate AllOk(bs: seq<seq<u32>>, major: u32) {
    Sized(bs) && forall i :: 0 <= i < |bs| ==> BlockOk(bs[i], major)
  }

  /** A file tiled by blocks: each block's length, then its words. */
  function EncodeBlocks(bs: seq<seq<u32>>): seq<u32>
    requires Sized(bs)
  {
    if bs == [] then [] else [|bs[0]|] + bs[0] + EncodeBlocks(bs[1..])
  }

  /** An acceptable block starts here and ends within the words. */
  predicate BlockStarts(ws: seq<u32>, major: u32) {
    ws != [] && ws[0] < |ws| && BlockOk(ws[1..1 + ws[0]], major)
  }

  /** The opcode section of a block: what follows its header. */
  function OpcodesAt(b: seq<u32>, at: nat): Slice
    requires |b| >= 2 && b[1] + 2 <= |b|
  {
    Slice(at + 3 + b[1], |b| - 2 - b[1])
  }

  /** The LM slice after visiting blocks: that of the last LM block, else what was set before. */
  function LmAfter(bs: seq<seq<u32>>, lm: Option<Slice>, major: u32): Option<Slice>
    requires AllOk(bs, major)
  {
    if bs == [] then lm
    else
      var n := |bs| - 1;
      if bs[n][3] == LM_SEQUENCE_ID then Some(OpcodesAt(bs[n], |EncodeBlocks(bs[..n])|))
      else LmAfter(bs[..n], lm, major)
  }

  lemma SizedSnoc(bs: seq<seq<u32>>, b: seq<u32>)
    ensures Sized(bs + [b]) <==> Sized(bs) && |b| < 0x1_0000_0000
  {
    assert (bs + [b])[|bs|] == b;
    assert forall i :: 0 <= i < |bs| ==> bs[i] == (bs + [b])[i];
  }

  lemma EncodeCons(b: seq<u32>, bs: seq<seq<u32>>)
    requires |b| < 0x1_0000_0000 && Sized(bs)
    ensures Sized([b] + bs) && EncodeBlocks([b] + bs) == [|b|] + b + EncodeBlocks(bs)
  {
    assert ([b] + bs)[1..] == bs;
  }

  lemma {:induction false} EncodeSnoc(bs: seq<seq<u32>>, b: seq<u32>)
    requires Sized(bs) && |b| < 0x1_0000_0000
    ensures Sized(bs + [b]) && EncodeBlocks(bs + [b]) == EncodeBlocks(bs) + [|b|] + b
  {
    SizedSnoc(bs, b);
    if bs == [] {
      EncodeCons(b, []);
      assert [b] + [] == [] + [b];
    } else {
      EncodeSnoc(bs[1..], b);
      EncodeCons(bs[0], bs[1..] + [b]);
      EncodeCons(bs[0], bs[1..]);
      hide EncodeBlocks;
      assert bs == [bs[0]] + bs[1..] && bs + [b] == [bs[0]] + (bs[1..] + [b]);
    }
  }

  lemma AfterFirst(bs: seq<seq<u32>>)
    requires Sized(bs) && bs != []
    ensures Sized(bs[1..]) && 1 + |bs[0]| <= |EncodeBlocks(bs)|
    ensures EncodeBlocks(bs)[1 + |bs[0]|..] == EncodeBlocks(bs[1..])
  {
  }

  lemma DropPrefix(a: seq<u32>, b: seq<u32>, k: nat)
    requires b <= a && k <= |b|
    ensures b[k..] <= a[k..] && a[|b|..] == a[k..][|b[k..]|..]
  {
  }

  /** Files tiled by acceptable blocks are visited block by block, whatever the tiling's length. */
  lemma {:induction false} TiledFileIsVisitedExactly(all: seq<seq<u32>>, bs: seq<seq<u32>>, major: u32)
    requires AllOk(all, major) && AllOk(bs, major)
    requires EncodeBlocks(bs) <= EncodeBlocks(all)
    requires var rest := EncodeBlocks(all)[|EncodeBlocks(bs)|..]; rest == [] || !BlockStarts(rest, major)
    ensures bs == all
  {
    hide BlockOk, BlockStarts;
    if all == [] {
      assert bs == [];
    } else if bs == [] {
      StartsWithFirst(all, major);
    } else {
      hide EncodeBlocks;
      SameFirst(all, bs, major);
      AfterFirst(all);
      AfterFirst(bs);
      DropPrefix(EncodeBlocks(all), EncodeBlocks(bs), 1 + |bs[0]|);
      TiledFileIsVisitedExactly(all[1..], bs[1..], major);
    }
  }

  lemma StartsWithFirst(all: seq<seq<u32>>, major: u32)
    requires AllOk(all, major) && all != []
    ensures BlockStarts(EncodeBlocks(all), major)
  {
    var ws := EncodeBlocks(all);
    assert ws[1..1 + ws[0]] == all[0];
  }

  lemma SameFirst(all: seq<seq<u32>>, bs: seq<seq<u32>>, major: u32)
    requires AllOk(all, major) && AllOk(bs, major) && all != [] && bs != []
    requires EncodeBlocks(bs) <= EncodeBlocks(all)
    ensures bs[0] == all[0]
  {
    var a, b := EncodeBlocks(all), EncodeBlocks(bs);
    assert a[0] == b[0];
    assert a[1..1 + |bs[0]|] == b[1..1 + |bs[0]|];
    assert bs[0] == b[1..1 + |bs[0]|] && all[0] == a[1..1 + |all[0]|];
  }

  /** The whole file is a list of acceptable blocks. */
  predicate Tiled(fw: seq<u32>, all: seq<seq<u32>>, major: u32) {
    AllOk(all, major) && EncodeBlocks(all) == fw
  }

  /** The blocks visited decide what every tiling of the file says. */
  lemma VisitedDecides(fw: seq<u32>, bs: seq<seq<u32>>, major: u32)
    requires AllOk(bs, major) && EncodeBlocks(bs) <= fw
    requires EncodeBlocks(bs) == fw || !BlockStarts(fw[|EncodeBlocks(bs)|..], major)
    ensures forall all :: Tiled(fw, all, major) ==> all == bs
    ensures EncodeBlocks(bs) == fw <==> exists all :: Tiled(fw, all, major)
    ensures EncodeBlocks(bs) == fw ==> Tiled(fw, bs, major)
  {
    forall all | Tiled(fw, all, major) ensures all == bs {
      hide EncodeBlocks, BlockOk, BlockStarts;
      assert fw[|fw|..] == [];
      TiledFileIsVisitedExactly(all, bs, major);
    }
    if EncodeBlocks(bs) == fw {
      assert Tiled(fw, bs, major);
    }
  }

  /**
   _load_regfile after the file has been read. It visits the blocks the file starts with, up to
   the first bad one; it succeeds exactly when these are the whole file and an LM slice is known.
   On failure the slice of an LM block already visited stays set.
   */
  method LoadRegfile(fw: seq<u32>, major: u32, lm0: Option<Slice>)
    returns (ok: bool, lm: Option<Slice>, ghost bs: seq<seq<u32>>)
    ensures AllOk(bs, major) && EncodeBlocks(bs) <= fw
    ensures lm == LmAfter(bs, lm0, major)
    ensures EncodeBlocks(bs) == fw || |fw| < 6 || !BlockStarts(fw[|EncodeBlocks(bs)|..], major)
    ensures ok <==> |fw| >= 6 && EncodeBlocks(bs) == fw && lm.Some?
    ensures |fw| < 6 ==> bs == []
    ensures ok <==> |fw| >= 6 && exists all :: Tiled(fw, all, major) && LmAfter(all, lm0, major).Some?
    ensures forall all :: Tiled(fw, all, major) && |fw| >= 6 ==> lm == LmAfter(all, lm0, major)
  {
    hide HeaderOk, BlockOk, BlockStarts;
    lm, bs := lm0, [];
    if |fw| < 6 {
      return false, lm, bs;
    }
    var total: nat := 0;
    while total < |fw|
      invariant total <= |fw| && AllOk(bs, major) && fw[..total] == EncodeBlocks(bs)
      invariant lm == LmAfter(bs, lm0, major)
    {
      var b := ReadBlock(fw, total, major);
      if b.None? {
        VisitedDecides(fw, bs, major);
        return false, lm, bs;
      }
      var block := b.value;
      LmHeader(block, major);
      if block[3] == LM_SEQUENCE_ID {
        lm := Some(Slice(total + 3 + block[1], |block| - block[1] - 2));
      }
      AppendBlock(bs, block, lm0, major);
      assert fw[..total + 1 + |block|] == fw[..total] + ([|block|] + block);
      bs := bs + [block];
      total := total + (|block| + 1);
    }
    assert fw[..total] == fw;
    VisitedDecides(fw, bs, major);
    ok := lm.Some?;
  }

  /** The checks on one block; the block is its words without the length. */
  method ReadBlock(fw: seq<u32>, total: nat, major: u32) returns (b: Option<seq<u32>>)
    requires total < |fw|
    ensures b.Some? <==> BlockStarts(fw[total..], major)
    ensures b.Some? <==>
      && 5 <= fw[total] && total + fw[total] < |fw| && fw[total + 1] == 3
      && (fw[total + 4] == 1 ==> HeaderOk(fw[total + 2..total + 1 + fw[total]], fw[total] - 2, 3, major))
    ensures b.Some? ==> BlockOk(b.value, major) && [|b.value|] + b.value <= fw[total..]
  {
    hide HeaderOk;
    var size: nat := fw[total];
    ghost var ws := fw[total..];
    if total + size >= |fw| || size < 5 {
      return None;
    }
    var block := fw[total + 1..total + 1 + size];
    assert block == ws[1..1 + ws[0]];
    assert block[1..] == fw[total + 2..total + 1 + fw[total]];
    if block[0] != SEQUENCE_ID {
      return None;
    }
    if block[3] == LM_SEQUENCE_ID {
      var good := ReadFw2BlockHeader(block[1..], size - 2, SEQUENCE_ID, major);
      if !good {
        return None;
      }
    }
    b := Some(block);
  }

  /** An LM block's header ends inside the block. */
  lemma LmHeader(b: seq<u32>, major: u32)
    requires BlockOk(b, major)
    ensures |b| >= 5 && (b[3] == LM_SEQUENCE_ID ==> b[1] + 2 < |b|)
  {
    if b[3] == LM_SEQUENCE_ID {
      HeaderEnds(b[1..], |b| - 2, SEQUENCE_ID, major);
    }
  }

  lemma AppendBlock(bs: seq<seq<u32>>, b: seq<u32>, lm: Option<Slice>, major: u32)
    requires AllOk(bs, major) && BlockOk(b, major)
    ensures AllOk(bs + [b], major) && |b| < 0x1_0000_0000
    ensures EncodeBlocks(bs + [b]) == EncodeBlocks(bs) + ([|b|] + b)
    ensures |b| >= 5 && (b[3] == LM_SEQUENCE_ID ==> b[1] + 2 <= |b|)
    ensures LmAfter(bs + [b], lm, major) ==
      if b[3] == LM_SEQUENCE_ID then Some(OpcodesAt(b, |EncodeBlocks(bs)|)) else LmAfter(bs, lm, major)
  {
    LmHeader(b, major);
    EncodeSnoc(bs, b);
    hide BlockOk, EncodeBlocks;
    assert (bs + [b])[..|bs|] == bs;
    assert EncodeBlocks(bs) + [|b|] + b == EncodeBlocks(bs) + ([|b|] + b);
  }

  lemma HeaderEnds(h: seq<u32>, remain: nat, id: u32, major: u32)
    requires remain < |h| && HeaderOk(h, remain, id, major)
    ensures h[0] < remain
  {
  }

  /**
   A slice found in the file is the opcode section of the last LM block, and ends where that
   block ends.
   */
  lemma {:induction false} LmSliceIsTheOpcodes(bs: seq<seq<u32>>, major: u32) returns (i: nat)
    requires AllOk(bs, major) && LmAfter(bs, None, major).Some?
    ensures i < |bs| && bs[i][3] == LM_SEQUENCE_ID && bs[i][1] + 2 <= |bs[i]|
    ensures forall k :: i < k < |bs| ==> bs[k][3] != LM_SEQUENCE_ID
    ensures var s := LmAfter(bs, None, major).value; var file := EncodeBlocks(bs);
      && s.start + s.size <= |file| && s.start + s.size == |EncodeBlocks(bs[..i + 1])|
      && file[s.start..s.start + s.size] == bs[i][bs[i][1] + 2..]
  {
    var n := |bs| - 1;
    var b := bs[n];
    LmHeader(b, major);
    assert bs == bs[..n] + [b];
    AppendBlock(bs[..n], b, None, major);
    if b[3] == LM_SEQUENCE_ID {
      i := n;
      assert bs[..n + 1] == bs;
      SectionOf(EncodeBlocks(bs[..n]), b);
    } else {
      i := LmSliceIsTheOpcodes(bs[..n], major);
      hide EncodeBlocks;
      assert bs[..n][..i + 1] == bs[..i + 1];
    }
  }

  lemma SectionOf(before: seq<u32>, b: seq<u32>)
    requires 2 <= |b| < 0x1_0000_0000 && b[1] + 2 <= |b|
    ensures var s := OpcodesAt(b, |before|); var file := before + ([|b|] + b);
      s.start + s.size == |file| && file[s.start..] == b[b[1] + 2..]
  {
  }

  /** A whole file of one LM block, type 3, with a two-word header and the opcodes [3, 100]. */
  lemma SmallestLmFile(major: u32)
    ensures var block := [3, 2, 5, 1, 3, 100];
      && Tiled([6] + block, [block], major)
      && LmAfter([block], None, major) == Some(Slice(5, 2))
  {
    var block: seq<u32> := [3, 2, 5, 1, 3, 100];
    assert block[1..] == [2, 5, 1, 3, 100];
    assert BlockOk(block, major);
    assert [block][1..] == [] && [block][..0] == [];
    assert EncodeBlocks([block]) == [6] + block + EncodeBlocks([]);
  }
}
