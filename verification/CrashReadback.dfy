/** Reading the crash dumper's buffer back into a snapshot. */
module CrashReadback {
  import opened Basics
  import opened CrashScript
  import opened CrashDumper

  /** A snapshot entry: a register and its value. */
  datatype Entry = Entry(reg: nat, value: u32)

  /** The registers of some ranges, in order. */
  function RegsFrom(start: nat, n: nat): (s: seq<nat>)
    ensures |s| == n
  {
    seq(n, i requires 0 <= i < n => start + i)
  }

  function FlatRegs(rs: seq<Range>): (s: seq<nat>)
    requires RangesOk(rs)
    ensures |s| == TotalWords(RangeItems(rs))
  {
    if rs == [] then [] else RegsFrom(rs[0].start, PairCount(rs[0])) + FlatRegs(rs[1..])
  }

  lemma FlatCons(r: Range, rs: seq<Range>)
    requires RangeOk(r) && RangesOk(rs)
    ensures RangesOk([r] + rs) && FlatRegs([r] + rs) == RegsFrom(r.start, PairCount(r)) + FlatRegs(rs)
  {
    assert ([r] + rs)[1..] == rs;
    hide RegsFrom;
  }

  lemma Assoc(p: seq<nat>, x: seq<nat>, y: seq<nat>)
    ensures p + (x + y) == p + x + y
  {
  }

  lemma {:induction false} FlatConcat(a: seq<Range>, b: seq<Range>)
    requires RangesOk(a) && RangesOk(b)
    ensures RangesOk(a + b) && FlatRegs(a + b) == FlatRegs(a) + FlatRegs(b)
  {
    if a == [] {
      assert a + b == b;
    } else {
      FlatConcat(a[1..], b);
      hide FlatRegs, RegsFrom, RangeItems, PairCount;
      FlatCons(a[0], a[1..] + b);
      FlatCons(a[0], a[1..]);
      Assoc(RegsFrom(a[0].start, PairCount(a[0])), FlatRegs(a[1..]), FlatRegs(b));
      assert a == [a[0]] + a[1..];
      assert a + b == [a[0]] + (a[1..] + b);
    }
  }

  lemma {:induction false} FlatLength(rs: seq<Range>, n: nat)
    requires RangesOk(rs) && n <= |rs|
    ensures |FlatRegs(rs[..n])| == Before(rs, n)
  {
    if n > 0 {
      SplitFlat(rs, n - 1);
      FlatLength(rs, n - 1);
    }
  }

  /** Every register of every one of the first n ranges is listed, in order. */
  lemma {:induction false} FlatLists(rs: seq<Range>, n: nat, j: nat, k: nat)
    requires RangesOk(rs) && j < n <= |rs| && rs[j].start <= k <= rs[j].end
    ensures Place(rs, j, k) < |FlatRegs(rs[..n])| && FlatRegs(rs[..n])[Place(rs, j, k)] == k
  {
    SplitFlat(rs, n - 1);
    FlatLength(rs, n - 1);
    if j < n - 1 {
      FlatLists(rs, n - 1, j, k);
    }
  }

  /** Every position belongs to a register of a range. */
  lemma {:induction false} PlacesCover(rs: seq<Range>, n: nat, i: nat) returns (j: nat, k: nat)
    requires RangesOk(rs) && n <= |rs| && i < Before(rs, n)
    ensures j < n && rs[j].start <= k <= rs[j].end && Place(rs, j, k) == i
  {
    if i < Before(rs, n - 1) {
      j, k := PlacesCover(rs, n - 1, i);
    } else {
      j, k := n - 1, rs[n - 1].start + (i - Before(rs, n - 1));
    }
  }

  function FlatSize(rs: seq<Range>): nat
    requires RangesOk(rs)
  {
    |FlatRegs(rs)|
  }

  /** How many of the ranges fit a section of `room` bytes, eight for each register. */
  function Fitting(rs: seq<Range>, room: nat): (n: nat)
    requires RangesOk(rs)
    ensures n <= |rs|
  {
    if rs == [] || room < 8 * PairCount(rs[0]) then 0 else 1 + Fitting(rs[1..], room - 8 * PairCount(rs[0]))
  }

  lemma {:induction false} BeforeFront(rs: seq<Range>, n: nat)
    requires RangesOk(rs) && 0 < n <= |rs|
    ensures RangesOk(rs[1..]) && Before(rs, n) == rs[0].end - rs[0].start + 1 + Before(rs[1..], n - 1)
  {
    if n > 1 {
      BeforeFront(rs, n - 1);
    } else {
      assert Before(rs, 0) == 0;
    }
  }

  /** Ranges are taken as long as eight bytes for each of their registers fit, and not longer. */
  lemma {:induction false} FittingFits(rs: seq<Range>, room: nat)
    requires RangesOk(rs)
    ensures var n := Fitting(rs, room);
      8 * Before(rs, n) <= room && (n < |rs| ==> room < 8 * Before(rs, n + 1))
  {
    if rs != [] {
      BeforeFront(rs, 1);
      if room >= 8 * (rs[0].end - rs[0].start + 1) {
        var left := room - 8 * (rs[0].end - rs[0].start + 1);
        FittingFits(rs[1..], left);
        var n := Fitting(rs[1..], left);
        BeforeFront(rs, n + 1);
        if n + 1 < |rs| {
          BeforeFront(rs, n + 2);
        }
      }
    }
  }

  /** Registers paired with the words of the buffer from `src` on. */
  function Paired(regs: seq<nat>, mem: seq<u32>, src: nat): (es: seq<Entry>)
    requires src + |regs| <= |mem|
    ensures |es| == |regs|
  {
    seq(|regs|, i requires 0 <= i < |regs| => Entry(regs[i], mem[src + i]))
  }

  /**
   a5xx_snapshot_registers with a valid dump: whole ranges are paired with the buffer's words from
   its start, as long as they fit the section; the result is the section's size in bytes.
   */
  method SnapshotRegisters(mem: seq<u32>, remain: nat, rs: seq<Range>) returns (entries: seq<Entry>, size: nat)
    requires RangesOk(rs) && FlatSize(rs) <= |mem|
    ensures remain < 4 ==> entries == [] && size == 0
    ensures remain >= 4 ==>
              var n := Fitting(rs, remain - 4);
              FlatSize(rs[..n]) <= |mem| && entries == Paired(FlatRegs(rs[..n]), mem, 0) && size == 8 * |entries| + 4
    ensures size <= remain
  {
    hide RegsFrom, FlatRegs, Fitting, Paired, RangeItems;
    entries := [];
    if remain < 4 {
      return [], 0;
    }
    var left: nat := remain - 4;
    var j := 0;
    NothingYet(rs, mem);
    while j < |rs|
      invariant 0 <= j <= |rs| && 0 <= left && left + 8 * |entries| + 4 == remain
      invariant FlatSize(rs[..j]) <= |mem| && entries == Paired(FlatRegs(rs[..j]), mem, 0)
      invariant Fitting(rs, remain - 4) == j + Fitting(rs[j..], left)
    {
      SplitAt(rs, j, left);
      if left < 8 * PairCount(rs[j]) {
        break;
      }
      left := left - 8 * PairCount(rs[j]);
      var more := CopyRange(mem, |entries|, rs[j]);
      PairedConcat(FlatRegs(rs[..j]), RegsFrom(rs[j].start, PairCount(rs[j])), mem, 0);
      entries := entries + more;
      j := j + 1;
    }
    NoneFit(rs, j, left);
    size := 8 * |entries| + 4;
  }

  lemma NothingYet(rs: seq<Range>, mem: seq<u32>)
    requires RangesOk(rs)
    ensures rs[..0] == [] && rs[0..] == rs && FlatRegs([]) == [] && Paired([], mem, 0) == []
  {
  }

  /** The inner loop: one range, the source pointer running on. */
  method CopyRange(mem: seq<u32>, src: nat, r: Range) returns (es: seq<Entry>)
    requires RangeOk(r) && src + PairCount(r) <= |mem|
    ensures es == Paired(RegsFrom(r.start, PairCount(r)), mem, src)
  {
    es := [];
    var k: nat := r.start;
    while k <= r.end
      invariant r.start <= k <= r.end + 1
      invariant es == Paired(RegsFrom(r.start, k - r.start), mem, src)
    {
      es := es + [Entry(k, mem[src + (k - r.start)])];
      k := k + 1;
    }
  }

  lemma SplitAt(rs: seq<Range>, j: nat, left: nat)
    requires RangesOk(rs) && j < |rs|
    ensures RangesOk(rs[..j]) && RangesOk(rs[..j + 1]) && RangesOk(rs[j..]) && RangesOk(rs[j + 1..])
    ensures FlatRegs(rs[..j + 1]) == FlatRegs(rs[..j]) + RegsFrom(rs[j].start, PairCount(rs[j]))
    ensures FlatSize(rs[..j + 1]) <= FlatSize(rs)
    ensures Fitting(rs[j..], left) ==
      if left < 8 * PairCount(rs[j]) then 0 else 1 + Fitting(rs[j + 1..], left - 8 * PairCount(rs[j]))
  {
    assert rs[j..][0] == rs[j] && rs[j..][1..] == rs[j + 1..];
    SplitFlat(rs, j);
  }

  lemma SplitFlat(rs: seq<Range>, j: nat)
    requires RangesOk(rs) && j < |rs|
    ensures RangesOk(rs[..j]) && RangesOk(rs[..j + 1])
    ensures FlatRegs(rs[..j + 1]) == FlatRegs(rs[..j]) + RegsFrom(rs[j].start, PairCount(rs[j]))
    ensures FlatSize(rs[..j + 1]) <= FlatSize(rs)
  {
    var one := RegsFrom(rs[j].start, PairCount(rs[j]));
    assert [rs[j]][1..] == [];
    assert FlatRegs([rs[j]]) == one + FlatRegs([]);
    hide FlatRegs, RegsFrom, RangeItems;
    assert rs[..j + 1] == rs[..j] + [rs[j]];
    FlatConcat(rs[..j], [rs[j]]);
    assert rs == rs[..j + 1] + rs[j + 1..];
    FlatConcat(rs[..j + 1], rs[j + 1..]);
  }

  lemma NoneFit(rs: seq<Range>, j: nat, left: nat)
    requires RangesOk(rs) && j <= |rs| && (j < |rs| ==> left < 8 * PairCount(rs[j]))
    ensures Fitting(rs[j..], left) == 0
  {
  }

  lemma PairedConcat(a: seq<nat>, b: seq<nat>, mem: seq<u32>, src: nat)
    requires src + |a| + |b| <= |mem|
    ensures Paired(a + b, mem, src) == Paired(a, mem, src) + Paired(b, mem, src + |a|)
  {
  }

  /** get_hlsq_registers: the block's own registers, from its recorded byte offset. */
  method HlsqRegisters(mem: seq<u32>, h: Hlsq) returns (es: seq<Entry>)
    requires h.offset % 4 == 0 && h.offset / 4 + h.size <= |mem|
    ensures es == Paired(RegsFrom(h.ahbaddr, h.size), mem, h.offset / 4)
  {
    es := [];
    var i := 0;
    while i < h.size
      invariant 0 <= i <= h.size && es == Paired(RegsFrom(h.ahbaddr, i), mem, h.offset / 4)
    {
      es := es + [Entry(h.ahbaddr + i, mem[h.offset / 4 + i])];
      i := i + 1;
    }
  }

  // ---------- Round trips ----------

  /** Running a finished script on a buffer of data_size bytes leaves exactly the image in it. */
  lemma DumpIsTheImage(items: seq<Item>, r: RegisterFile, select: nat, base: nat, mem: seq<u32>)
    requires ItemsOk(items) && base > 0 && base + 4 * TotalWords(items) < TWO_64 && |mem| == TotalWords(items)
    ensures RunScript(Script(items, base) + [0, 0], r, select, base, mem) == Image(items, r, select)
  {
    hide RunScript, Script, Image, TotalWords, ItemsOk;
    ScriptFillsTheBuffer(items, r, select, base, [], mem);
    assert [] + mem == mem && [] + Image(items, r, select) == Image(items, r, select);
  }

  lemma {:induction false} RangeImage(rs: seq<Range>, r: RegisterFile, select: nat)
    requires RangesOk(rs)
    ensures SelectedAfter(RangeItems(rs), select) == select
    ensures forall i :: 0 <= i < FlatSize(rs) ==> Image(RangeItems(rs), r, select)[i] == r(select, FlatRegs(rs)[i])
  {
    if rs != [] {
      RangeImage(rs[1..], r, select);
      var n := PairCount(rs[0]);
      var image := Image(RangeItems(rs), r, select);
      assert RangeItems(rs)[1..] == RangeItems(rs[1..]);
      forall i | 0 <= i < FlatSize(rs) ensures image[i] == r(select, FlatRegs(rs)[i]) {
        if i >= n {
          assert image[i] == Image(RangeItems(rs[1..]), r, select)[i - n];
          assert FlatRegs(rs)[i] == FlatRegs(rs[1..])[i - n];
        }
      }
    }
  }

  /** The image starts with the values of the main registers and then of the GPMU registers. */
  lemma ImageStarts(main: seq<Range>, gpmu: seq<Range>, rest: seq<Item>, r: RegisterFile, select: nat)
    requires RangesOk(main) && RangesOk(gpmu)
    ensures var regs := FlatRegs(main) + FlatRegs(gpmu);
      var image := Image(RangeItems(main) + RangeItems(gpmu) + rest, r, select);
      |regs| <= |image| && forall i :: 0 <= i < |regs| ==> image[i] == r(select, regs[i])
  {
    hide RangeItems, Image, FlatRegs;
    RangeImage(main, r, select);
    RangeImage(gpmu, r, select);
    ImageConcat(RangeItems(main), RangeItems(gpmu), r, select);
    ImageConcat(RangeItems(main) + RangeItems(gpmu), rest, r, select);
  }

  lemma ItemsSplit(main: seq<Range>, gpmu: seq<Range>, ss: seq<Shader>, hs: seq<Hlsq>)
    requires RangesOk(main) && RangesOk(gpmu)
    ensures AllItems(main, gpmu, ss, hs) == RangeItems(main) + RangeItems(gpmu) + (ShaderItems(ss) + HlsqItems(hs))
  {
  }

  /** Every entry pairs a register with its value. */
  predicate Right(regs: seq<nat>, mem: seq<u32>, r: RegisterFile, select: nat)
    requires |regs| <= |mem|
  {
    forall i :: 0 <= i < |regs| ==> Paired(regs, mem, 0)[i] == Entry(regs[i], r(select, regs[i]))
  }

  /** Main registers: what the snapshot reads back is what the dumper read, for any tables. */
  lemma MainRoundTrip(main: seq<Range>, gpmu: seq<Range>, ss: seq<Shader>, hs: seq<Hlsq>, n: nat,
                      r: RegisterFile, select: nat)
    requires RangesOk(main) && RangesOk(gpmu) && n <= |main|
    ensures var mem := Image(AllItems(main, gpmu, ss, hs), r, select);
      FlatSize(main[..n]) <= |mem| && Right(FlatRegs(main[..n]), mem, r, select)
  {
    ItemsSplit(main, gpmu, ss, hs);
    ImageStarts(main, gpmu, ShaderItems(ss) + HlsqItems(hs), r, select);
    assert main == main[..n] + main[n..];
    FlatConcat(main[..n], main[n..]);
  }

  /** Where register set k's words stand. */
  lemma HlsqSlice(main: seq<Range>, gpmu: seq<Range>, ss: seq<Shader>, hs: seq<Hlsq>, k: nat,
                  r: RegisterFile, select: nat)
    requires RangesOk(main) && RangesOk(gpmu) && k < |hs|
    ensures var mem := Image(AllItems(main, gpmu, ss, hs), r, select); var o := HlsqOffset(main, gpmu, ss, hs, k);
      && o + hs[k].size <= |mem|
      && mem[o..o + hs[k].size] == Block(r, hs[k].statetype * 0x100, READ_APERTURE, hs[k].size)
  {
    var pre := RangeItems(main) + RangeItems(gpmu) + ShaderItems(ss);
    var before, after := pre + HlsqItems(hs[..k]), HlsqItems(hs[k + 1..]);
    HlsqSplit(hs, k);
    hide RangeItems, ShaderItems, HlsqItems, Image, TotalWords, Block;
    TotalsConcat(pre, HlsqItems(hs[..k]));
    assert AllItems(main, gpmu, ss, hs) == before + [HlsqItem(hs[k])] + after;
    ImageAt(before, HlsqItem(hs[k]), after, r, select);
  }

  /** Where the words of bank j of block k stand: the aperture under the block's selector plus j. */
  lemma BankSlice(main: seq<Range>, gpmu: seq<Range>, ss: seq<Shader>, hs: seq<Hlsq>, k: nat, j: nat,
                  r: RegisterFile, select: nat)
    requires RangesOk(main) && RangesOk(gpmu) && k < |ss| && j < 4
    ensures var mem := Image(AllItems(main, gpmu, ss, hs), r, select);
      var o := Before(main, |main|) + Before(gpmu, |gpmu|) + BankWords(ss, k) + j * ss[k].sz;
      && o + ss[k].sz <= |mem|
      && mem[o..o + ss[k].sz] == Block(r, ss[k].statetype * 0x100 + j, 0xA000, ss[k].sz)
  {
    hide AllItems, Image, TotalWords, Block, Before, BankWords;
    var item := Bank(ss[k].statetype * 0x100 + j, ss[k].sz);
    var before, after := BankPlace(main, gpmu, ss, hs, k, j);
    ImageAt(before, item, after, r, select);
  }

  /** What stands before and after a bank among all reads, and how many words the former are. */
  lemma BankPlace(main: seq<Range>, gpmu: seq<Range>, ss: seq<Shader>, hs: seq<Hlsq>, k: nat, j: nat)
    returns (before: seq<Item>, after: seq<Item>)
    requires RangesOk(main) && RangesOk(gpmu) && k < |ss| && j < 4
    ensures AllItems(main, gpmu, ss, hs) == before + [Bank(ss[k].statetype * 0x100 + j, ss[k].sz)] + after
    ensures TotalWords(before) ==
      Before(main, |main|) + Before(gpmu, |gpmu|) + BankWords(ss, k) + j * ss[k].sz
  {
    var ranges, banks := RangeItems(main) + RangeItems(gpmu), BankItems(ss[k], j);
    var item := Bank(ss[k].statetype * 0x100 + j, ss[k].sz);
    var rest := BanksSplit(ss[k], j);
    var others := ShadersSplit(ss, k);
    hide RangeItems, ShaderItems, HlsqItems, BankItems, TotalWords, Before, BankWords;
    before, after := ranges + ShaderItems(ss[..k]) + banks, rest + others + HlsqItems(hs);
    Regroup(ranges, ShaderItems(ss[..k]), banks, [item], rest, others, HlsqItems(hs));
    TotalsConcat(ranges, ShaderItems(ss[..k]));
    TotalsConcat(ranges + ShaderItems(ss[..k]), banks);
    BankTotals(ss[k], j);
    Layout(main, gpmu, ss, hs);
    assert ShaderOffset(main, gpmu, ss, k) == Before(main, |main|) + Before(gpmu, |gpmu|) + BankWords(ss, k);
  }

  lemma Regroup(a: seq<Item>, b: seq<Item>, c: seq<Item>, d: seq<Item>, e: seq<Item>, f: seq<Item>, g: seq<Item>)
    ensures a + (b + (c + d + e) + f) + g == (a + b + c) + d + (e + f + g)
  {
  }

  lemma BanksSplit(s: Shader, j: nat) returns (after: seq<Item>)
    requires j < 4
    ensures BankItems(s, 4) == BankItems(s, j) + [Bank(s.statetype * 0x100 + j, s.sz)] + after
  {
    var all := BankItems(s, 4);
    BanksAt(s, 4);
    BanksAt(s, j);
    after := all[j + 1..];
    assert all[..j] == BankItems(s, j);
  }

  lemma {:induction false} BanksAt(s: Shader, n: nat)
    ensures |BankItems(s, n)| == n
    ensures forall i :: 0 <= i < n ==> BankItems(s, n)[i] == Bank(s.statetype * 0x100 + i, s.sz)
  {
    if n > 0 {
      BanksAt(s, n - 1);
    }
  }

  lemma {:induction false} ShadersSplit(ss: seq<Shader>, k: nat) returns (after: seq<Item>)
    requires k < |ss|
    ensures ShaderItems(ss) == ShaderItems(ss[..k]) + BankItems(ss[k], 4) + after
  {
    hide BankItems;
    if k == 0 {
      after := ShaderItems(ss[1..]);
      assert ss[..0] == [];
      assert [] + BankItems(ss[0], 4) == BankItems(ss[0], 4);
    } else {
      after := ShadersSplit(ss[1..], k - 1);
      assert ss[..k][1..] == ss[1..][..k - 1] && ss[..k][0] == ss[0];
    }
  }

  /** HLSQ, SP and TP registers: set k reads back what the aperture showed under its selector. */
  lemma HlsqRoundTrip(main: seq<Range>, gpmu: seq<Range>, ss: seq<Shader>, hs: seq<Hlsq>, k: nat,
                      r: RegisterFile, select: nat)
    requires RangesOk(main) && RangesOk(gpmu) && k < |hs|
    ensures var mem := Image(AllItems(main, gpmu, ss, hs), r, select);
      var o := HlsqOffset(main, gpmu, ss, hs, k); var h := hs[k];
      && o + h.size <= |mem|
      && forall i :: 0 <= i < h.size ==>
           Paired(RegsFrom(h.ahbaddr, h.size), mem, o)[i]
           == Entry(h.ahbaddr + i, r(h.statetype * 0x100, READ_APERTURE + i))
  {
    hide AllItems, Image, HlsqOffset;
    HlsqSlice(main, gpmu, ss, hs, k, r, select);
    var mem, o := Image(AllItems(main, gpmu, ss, hs), r, select), HlsqOffset(main, gpmu, ss, hs, k);
    forall i | 0 <= i < hs[k].size
      ensures Paired(RegsFrom(hs[k].ahbaddr, hs[k].size), mem, o)[i]
              == Entry(hs[k].ahbaddr + i, r(hs[k].statetype * 0x100, READ_APERTURE + i))
    {
      assert mem[o + i] == mem[o..o + hs[k].size][i];
    }
  }

  lemma {:induction false} HlsqSplit(hs: seq<Hlsq>, k: nat)
    requires k < |hs|
    ensures HlsqItems(hs) == HlsqItems(hs[..k]) + [HlsqItem(hs[k])] + HlsqItems(hs[k + 1..])
  {
    hide HlsqItem;
    if k == 0 {
      assert hs[..0] == [];
      assert [] + [HlsqItem(hs[0])] == [HlsqItem(hs[0])];
    } else {
      HlsqSplit(hs[1..], k - 1);
      assert hs[..k][1..] == hs[1..][..k - 1] && hs[..k][0] == hs[0];
      assert hs[1..][k..] == hs[k + 1..];
    }
  }

  /** A register file in which every register holds its own number. */
  function Numbered(select: nat, reg: nat): u32 { reg % 0x1_0000_0000 }

  /**
   GPMU registers: the reader starts over at the buffer's first word. Its entries are right for
   every register file exactly when the GPMU's register list is a prefix of the main list followed
   by itself.
   */
  lemma GpmuReadbackIff(main: seq<Range>, gpmu: seq<Range>, ss: seq<Shader>, hs: seq<Hlsq>,
                        r: RegisterFile, select: nat)
    requires RangesOk(main) && RangesOk(gpmu)
    ensures var items := AllItems(main, gpmu, ss, hs);
      && FlatSize(gpmu) <= TotalWords(items)
      && (FlatRegs(gpmu) <= FlatRegs(main) + FlatRegs(gpmu) ==>
            Right(FlatRegs(gpmu), Image(items, r, select), r, select))
      && (Right(FlatRegs(gpmu), Image(items, Numbered, select), Numbered, select) ==>
            FlatRegs(gpmu) <= FlatRegs(main) + FlatRegs(gpmu))
  {
    ItemsSplit(main, gpmu, ss, hs);
    hide AllItems, FlatRegs, Image, RangeItems, Right;
    var rest := ShaderItems(ss) + HlsqItems(hs);
    ImageStarts(main, gpmu, rest, r, select);
    ImageStarts(main, gpmu, rest, Numbered, select);
    SmallRegs(main);
    SmallRegs(gpmu);
    var regs, g := FlatRegs(main) + FlatRegs(gpmu), FlatRegs(gpmu);
    StartsIff(regs, g, Image(RangeItems(main) + RangeItems(gpmu) + rest, r, select), r, select);
    StartsIff(regs, g, Image(RangeItems(main) + RangeItems(gpmu) + rest, Numbered, select), Numbered, select);
  }

  /** A buffer that starts with the values of `regs`, read as those of `g`. */
  lemma StartsIff(regs: seq<nat>, g: seq<nat>, mem: seq<u32>, r: RegisterFile, select: nat)
    requires |g| <= |regs| <= |mem| && (forall i :: 0 <= i < |regs| ==> mem[i] == r(select, regs[i]))
    ensures g <= regs ==> Right(g, mem, r, select)
    ensures r == Numbered && Small(regs) && Small(g) && Right(g, mem, r, select) ==> g <= regs
  {
    if r == Numbered && Small(regs) && Small(g) && Right(g, mem, r, select) {
      forall i | 0 <= i < |g| ensures g[i] == regs[i] {
        assert Paired(g, mem, 0)[i] == Entry(g[i], r(select, g[i]));
        assert r(select, g[i]) == g[i] && r(select, regs[i]) == regs[i];
      }
    }
  }

  /** Register numbers fit the script's twenty bits. */
  predicate Small(regs: seq<nat>) { forall i :: 0 <= i < |regs| ==> regs[i] < 0x10_0000 }

  lemma {:induction false} SmallRegs(rs: seq<Range>)
    requires RangesOk(rs)
    ensures Small(FlatRegs(rs))
  {
    if rs != [] {
      SmallRegs(rs[1..]);
      var n := PairCount(rs[0]);
      forall i | 0 <= i < FlatSize(rs) ensures FlatRegs(rs)[i] < 0x10_0000 {
        assert i >= n ==> FlatRegs(rs)[i] == FlatRegs(rs[1..])[i - n];
      }
    }
  }

  /** Tables that start with different registers, as the driver's do, are read back wrongly. */
  lemma GpmuReadbackWrong(main: seq<Range>, gpmu: seq<Range>, ss: seq<Shader>, hs: seq<Hlsq>, select: nat)
    requires RangesOk(main) && RangesOk(gpmu) && main != [] && gpmu != [] && main[0].start != gpmu[0].start
    ensures FlatSize(gpmu) <= TotalWords(AllItems(main, gpmu, ss, hs))
    ensures !Right(FlatRegs(gpmu), Image(AllItems(main, gpmu, ss, hs), Numbered, select), Numbered, select)
  {
    GpmuReadbackIff(main, gpmu, ss, hs, Numbered, select);
    assert FlatRegs(main)[0] == main[0].start && FlatRegs(gpmu)[0] == gpmu[0].start;
  }

  /** The byte at which the data of bank j of a block starts. */
  function BankByte(s: Shader, j: nat): nat { s.offset + 4 * TotalWords(BankItems(s, j)) }

  /** The byte from which a5xx_snapshot_shader copies bank j: the bank index counts bytes. */
  function CopiedByte(s: Shader, j: nat): nat { s.offset + j * s.sz }

  /** Shader banks are copied from where they are exactly for the first bank and for empty blocks. */
  lemma BankReadbackIff(s: Shader, j: nat)
    ensures CopiedByte(s, j) == BankByte(s, j) <==> j == 0 || s.sz == 0
  {
    BankTotals(s, j);
    if j > 0 && s.sz > 0 {
      assert j * s.sz > 0;
    }
  }

  // ---------- From the tables to the snapshot ----------

  /** Registers paired with their own values. */
  function Values(regs: seq<nat>, r: RegisterFile, select: nat): (es: seq<Entry>)
    ensures |es| == |regs|
  {
    seq(|regs|, i requires 0 <= i < |regs| => Entry(regs[i], r(select, regs[i])))
  }

  /** The registers of one aperture set with the words the aperture shows under its selector. */
  function SetValues(h: Hlsq, r: RegisterFile): (es: seq<Entry>)
    ensures |es| == h.size
  {
    seq(h.size, i requires 0 <= i < h.size => Entry(h.ahbaddr + i, r(h.statetype * 0x100, 0xA000 + i)))
  }

  function AllSetValues(hs: seq<Hlsq>, r: RegisterFile): seq<Entry> {
    if hs == [] then [] else AllSetValues(hs[..|hs| - 1], r) + SetValues(hs[|hs| - 1], r)
  }

  /** Total number of registers of some sets. */
  function SetSizes(hs: seq<Hlsq>): nat {
    if hs == [] then 0 else SetSizes(hs[..|hs| - 1]) + hs[|hs| - 1].size
  }

  /** The set's words stand in the buffer at its recorded offset. */
  predicate Placed(h: Hlsq, mem: seq<u32>, r: RegisterFile) {
    && h.offset % 4 == 0 && h.offset / 4 + h.size <= |mem|
    && Paired(RegsFrom(h.ahbaddr, h.size), mem, h.offset / 4) == SetValues(h, r)
  }

  /** a5xx_snapshot_dump_hlsq_sp_tp_regs: all sets or, if they do not fit, nothing. */
  method DumpHlsqSpTp(mem: seq<u32>, remain: nat, hlsqs: array<Hlsq>, ghost r: RegisterFile)
    returns (entries: seq<Entry>, size: nat)
    requires forall k :: 0 <= k < hlsqs.Length ==> Placed(hlsqs[k], mem, r)
    ensures if remain < 8 * SetSizes(hlsqs[..]) + 4 then entries == [] && size == 0
            else entries == AllSetValues(hlsqs[..], r) && size == 8 * |entries| + 4
  {
    hide Paired, RegsFrom, SetValues;
    var count, i := 0, 0;
    while i < hlsqs.Length
      invariant 0 <= i <= hlsqs.Length && count == SetSizes(hlsqs[..i])
    {
      assert hlsqs[..i + 1][..i] == hlsqs[..i];
      count := count + hlsqs[i].size;
      i := i + 1;
    }
    assert hlsqs[..i] == hlsqs[..];
    entries, size := [], 0;
    if remain < count * 8 + 4 {
      return;
    }
    i := 0;
    while i < hlsqs.Length
      invariant 0 <= i <= hlsqs.Length && entries == AllSetValues(hlsqs[..i], r) && |entries| == SetSizes(hlsqs[..i])
    {
      assert hlsqs[..i + 1][..i] == hlsqs[..i];
      assert Placed(hlsqs[i], mem, r);
      var more := HlsqRegisters(mem, hlsqs[i]);
      entries := entries + more;
      i := i + 1;
    }
    assert hlsqs[..i] == hlsqs[..];
    size := 8 * |entries| + 4;
  }

  lemma {:induction false} SameSets(a: seq<Hlsq>, b: seq<Hlsq>, r: RegisterFile)
    requires |a| == |b| && forall k :: 0 <= k < |a| ==> b[k] == a[k].(offset := b[k].offset)
    ensures AllSetValues(a, r) == AllSetValues(b, r) && SetSizes(a) == SetSizes(b)
  {
    if a != [] {
      SameSets(a[..|a| - 1], b[..|b| - 1], r);
    }
  }

  lemma RightIsValues(regs: seq<nat>, mem: seq<u32>, r: RegisterFile, select: nat)
    requires |regs| <= |mem| && Right(regs, mem, r, select)
    ensures Paired(regs, mem, 0) == Values(regs, r, select)
  {
  }

  lemma SetIsPlaced(main: seq<Range>, gpmu: seq<Range>, ss: seq<Shader>, hs: seq<Hlsq>, k: nat,
                    r: RegisterFile, select: nat)
    requires RangesOk(main) && RangesOk(gpmu) && k < |hs|
    ensures Placed(hs[k].(offset := 4 * HlsqOffset(main, gpmu, ss, hs, k)),
                   Image(AllItems(main, gpmu, ss, hs), r, select), r)
  {
    hide AllItems, Image, HlsqOffset;
    HlsqRoundTrip(main, gpmu, ss, hs, k, r, select);
    var mem, o := Image(AllItems(main, gpmu, ss, hs), r, select), HlsqOffset(main, gpmu, ss, hs, k);
    assert Paired(RegsFrom(hs[k].ahbaddr, hs[k].size), mem, o) == SetValues(hs[k], r);
  }

  /** The values of the first n ranges, register by register. */
  lemma PrefixValues(rs: seq<Range>, n: nat, r: RegisterFile, select: nat)
    requires RangesOk(rs) && n <= |rs|
    ensures var es := Values(FlatRegs(rs[..n]), r, select);
      && |es| == Before(rs, n)
      && forall j, k :: 0 <= j < n && rs[j].start <= k <= rs[j].end ==>
           Place(rs, j, k) < |es| && es[Place(rs, j, k)] == Entry(k, r(select, k))
  {
    FlatLength(rs, n);
    hide FlatRegs, RangeItems, Place, Before;
    forall j, k | 0 <= j < n && rs[j].start <= k <= rs[j].end
      ensures Place(rs, j, k) < |FlatRegs(rs[..n])| && FlatRegs(rs[..n])[Place(rs, j, k)] == k
    {
      FlatLists(rs, n, j, k);
    }
  }

  /** What the section of the main registers holds, register by register. */
  lemma MainReadBack(main: seq<Range>, gpmu: seq<Range>, ss: seq<Shader>, hs: seq<Hlsq>, r: RegisterFile, select: nat,
                     room: nat)
    returns (n: nat)
    requires RangesOk(main) && RangesOk(gpmu) && room >= 4
    ensures n == Fitting(main, room - 4)
    ensures var mem := Image(AllItems(main, gpmu, ss, hs), r, select);
      FlatSize(main[..n]) <= |mem|
      && var es := Paired(FlatRegs(main[..n]), mem, 0);
         && n <= |main| && 8 * Before(main, n) <= room - 4
         && (n < |main| ==> room - 4 < 8 * Before(main, n + 1))
         && |es| == Before(main, n)
         && forall j, k :: 0 <= j < n && main[j].start <= k <= main[j].end ==>
              Place(main, j, k) < |es| && es[Place(main, j, k)] == Entry(k, r(select, k))
  {
    hide AllItems, Image, FlatRegs, Fitting, Right, Before, Place, Paired, Values, RangeItems;
    n := Fitting(main, room - 4);
    var mem := Image(AllItems(main, gpmu, ss, hs), r, select);
    MainRoundTrip(main, gpmu, ss, hs, n, r, select);
    RightIsValues(FlatRegs(main[..n]), mem, r, select);
    FittingFits(main, room - 4);
    PrefixValues(main, n, r, select);
  }

  /**
   The whole way, for any tables and any register file: build the script, let the dumper run it on
   any buffer of the size asked for, and read the snapshot's sections back. Every main register that
   fits its section and, if they fit theirs, all HLSQ, SP and TP registers come out with their own
   values.
   */
  method DumpAndReadBack(main: seq<Range>, gpmu: seq<Range>, shaders: array<Shader>, hlsqs: array<Hlsq>,
                         base: nat, r: RegisterFile, select: nat, word: u32, room: nat, setRoom: nat)
    returns (registers: seq<Entry>, sets: seq<Entry>, ghost n: nat)
    requires RangesOk(main) && RangesOk(gpmu) && ShadersOk(shaders[..]) && HlsqsOk(hlsqs[..])
    requires base > 0 && base + 4 * TotalWords(AllItems(main, gpmu, shaders[..], hlsqs[..])) < TWO_64
    modifies shaders, hlsqs
    // the first n ranges fit, the next one does not, and exactly their registers are there, in order
    ensures room < 4 ==> registers == []
    ensures room >= 4 ==>
              && n <= |main| && 8 * Before(main, n) <= room - 4
              && (n < |main| ==> room - 4 < 8 * Before(main, n + 1))
              && |registers| == Before(main, n)
              && forall j, k :: 0 <= j < n && main[j].start <= k <= main[j].end ==>
                   Place(main, j, k) < |registers| && registers[Place(main, j, k)] == Entry(k, r(select, k))
    ensures sets == if setRoom < 8 * SetSizes(old(hlsqs[..])) + 4 then [] else AllSetValues(old(hlsqs[..]), r)
  {
    hide AllItems, Image, Script, RunScript, TotalWords, ItemsOk, FlatRegs, HlsqOffset, ShaderOffset, Right, Placed,
         AllSetValues, SetSizes, RangeItems, Before, Place, Fitting, Paired, BankWords, SetWords;
    ghost var ss, hs := shaders[..], hlsqs[..];
    var script, scriptSize, dataSize, offset := CrashdumpInit(main, gpmu, shaders, hlsqs, base);
    var buffer := seq(dataSize / 4, _ => word);
    var mem := RunScript(script[..], r, select, base, buffer);
    DumpIsTheImage(AllItems(main, gpmu, ss, hs), r, select, base, buffer);
    MainRoundTrip(main, gpmu, ss, hs, |main|, r, select);
    assert main[..|main|] == main;
    var size;
    registers, size := SnapshotRegisters(mem, room, main);
    n := 0;
    if room >= 4 {
      n := MainReadBack(main, gpmu, ss, hs, r, select, room);
    }
    forall k | 0 <= k < hlsqs.Length ensures Placed(hlsqs[k], mem, r) {
      SetIsPlaced(main, gpmu, ss, hs, k, r, select);
    }
    sets, size := DumpHlsqSpTp(mem, setRoom, hlsqs, r);
    SameSets(hs, hlsqs[..], r);
  }
}
