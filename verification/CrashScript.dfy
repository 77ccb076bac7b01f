/** The crash dumper's script: its encoding, its layout and what running it leaves in memory. */
module CrashScript {
  import opened Basics

  const NUM_SHADER_BANKS := 4
  const READ_SEL := 0xBC00
  const READ_APERTURE := 0xA000
  const WRITE_FLAG := 0x20_0000           // bit 21
  const REG_UNIT := 0x1000_0000_0000      // registers start at bit 44

  /** A register range, both ends included. */
  datatype Range = Range(start: u32, end: u32)

  /** A shader block: bank k holds sz words. */
  datatype Shader = Shader(statetype: u32, sz: u32, offset: nat)

  /** A set of registers read through the aperture. */
  datatype Hlsq = Hlsq(statetype: u32, ahbaddr: u32, size: u32, offset: nat)

  /** One read of the script: a register range, or `size` words of the aperture under a selector. */
  datatype Item = Regs(start: nat, count: nat) | Bank(select: nat, size: nat)

  // ---------- From tables to reads ----------

  predicate RangeOk(r: Range) { r.start <= r.end < 0x10_0000 }

  predicate RangesOk(rs: seq<Range>) { forall i :: 0 <= i < |rs| ==> RangeOk(rs[i]) }

  /** REG_PAIR_COUNT */
  function PairCount(r: Range): nat
    requires RangeOk(r)
  {
    r.end - r.start + 1
  }

  /** How many registers the first n ranges hold: both ends of a range belong to it. */
  ghost function Before(rs: seq<Range>, n: nat): nat
    requires RangesOk(rs) && n <= |rs|
  {
    if n == 0 then 0 else Before(rs, n - 1) + (rs[n - 1].end - rs[n - 1].start + 1)
  }

  /** The position of register k of range j among all registers. */
  ghost function Place(rs: seq<Range>, j: nat, k: nat): nat
    requires RangesOk(rs) && j < |rs| && rs[j].start <= k
  {
    Before(rs, j) + (k - rs[j].start)
  }

  function RangeItems(rs: seq<Range>): seq<Item>
    requires RangesOk(rs)
  {
    if rs == [] then [] else [Regs(rs[0].start, PairCount(rs[0]))] + RangeItems(rs[1..])
  }

  /** The reads of the first n banks of a block. */
  function BankItems(s: Shader, n: nat): seq<Item> {
    if n == 0 then [] else BankItems(s, n - 1) + [Bank(s.statetype * 0x100 + (n - 1), s.sz)]
  }

  function ShaderItems(ss: seq<Shader>): seq<Item> {
    if ss == [] then [] else BankItems(ss[0], NUM_SHADER_BANKS) + ShaderItems(ss[1..])
  }

  function HlsqItem(h: Hlsq): Item { Bank(h.statetype * 0x100, h.size) }

  function HlsqItems(hs: seq<Hlsq>): seq<Item> {
    if hs == [] then [] else [HlsqItem(hs[0])] + HlsqItems(hs[1..])
  }

  // ---------- Encoding and sizes ----------

  function Words(i: Item): nat { match i case Regs(_, count) => count case Bank(_, size) => size }

  function Qwords(i: Item): nat { if i.Regs? then 2 else 4 }

  function TotalWords(items: seq<Item>): nat {
    if items == [] then 0 else Words(items[0]) + TotalWords(items[1..])
  }

  function TotalQwords(items: seq<Item>): nat {
    if items == [] then 0 else Qwords(items[0]) + TotalQwords(items[1..])
  }

  /** The fields of the script's qwords do not run into each other. */
  predicate ItemOk(i: Item) {
    match i
    case Regs(start, count) => start < 0x10_0000 && 0 < count < WRITE_FLAG
    case Bank(select, size) => select < 0x1_0000_0000 && size < WRITE_FLAG
  }

  predicate ItemsOk(items: seq<Item>) { forall i :: 0 <= i < |items| ==> ItemOk(items[i]) }

  /** The qwords of one read to `addr`. */
  function Emitted(i: Item, addr: nat): seq<u64>
    requires ItemOk(i) && addr < TWO_64
  {
    match i
    case Regs(start, count) => [addr, start * REG_UNIT + count]
    case Bank(select, size) =>
      [select, READ_SEL * REG_UNIT + WRITE_FLAG + 1, addr, READ_APERTURE * REG_UNIT + size]
  }

  /** The script of some reads, laid out from `addr` on. */
  function Script(items: seq<Item>, addr: nat): seq<u64>
    requires ItemsOk(items) && addr + 4 * TotalWords(items) < TWO_64
  {
    if items == [] then [] else Emitted(items[0], addr) + Script(items[1..], addr + 4 * Words(items[0]))
  }

  lemma {:induction false} TotalsSnoc(items: seq<Item>, i: Item)
    ensures TotalWords(items + [i]) == TotalWords(items) + Words(i)
    ensures TotalQwords(items + [i]) == TotalQwords(items) + Qwords(i)
  {
    if items == [] {
      assert [i][1..] == [];
    } else {
      TotalsSnoc(items[1..], i);
      assert (items + [i])[1..] == items[1..] + [i];
    }
  }

  lemma {:induction false} TotalsConcat(a: seq<Item>, b: seq<Item>)
    ensures TotalWords(a + b) == TotalWords(a) + TotalWords(b)
    ensures TotalQwords(a + b) == TotalQwords(a) + TotalQwords(b)
  {
    if a == [] {
      assert a + b == b;
    } else {
      TotalsConcat(a[1..], b);
      assert (a + b)[1..] == a[1..] + b;
    }
  }

  lemma OkSnoc(items: seq<Item>, i: Item)
    ensures ItemsOk(items + [i]) <==> ItemsOk(items) && ItemOk(i)
  {
    hide ItemOk;
    assert (items + [i])[|items|] == i;
    assert forall k :: 0 <= k < |items| ==> items[k] == (items + [i])[k];
  }

  lemma {:induction false} ScriptSnoc(items: seq<Item>, i: Item, addr: nat)
    requires ItemsOk(items) && ItemOk(i) && addr + 4 * TotalWords(items) + 4 * Words(i) < TWO_64
    ensures ItemsOk(items + [i]) && addr + 4 * TotalWords(items + [i]) < TWO_64
    ensures Script(items + [i], addr) == Script(items, addr) + Emitted(i, addr + 4 * TotalWords(items))
  {
    hide ItemOk, Emitted, Words;
    OkSnoc(items, i);
    TotalsSnoc(items, i);
    if items == [] {
      assert [i][1..] == [];
      assert Script([i], addr) == Emitted(i, addr) + Script([i][1..], addr + 4 * Words(i));
    } else {
      assert (items + [i])[1..] == items[1..] + [i] && (items + [i])[0] == items[0];
      ScriptSnoc(items[1..], i, addr + 4 * Words(items[0]));
      assert Script(items + [i], addr)
          == Emitted(items[0], addr) + Script(items[1..] + [i], addr + 4 * Words(items[0]));
    }
  }

  lemma {:induction false} ScriptLength(items: seq<Item>, addr: nat)
    requires ItemsOk(items) && addr + 4 * TotalWords(items) < TWO_64
    ensures |Script(items, addr)| == TotalQwords(items)
  {
    if items != [] {
      ScriptLength(items[1..], addr + 4 * Words(items[0]));
    }
  }

  // ---------- Layout ----------

  /** The word at which item k's data starts. */
  function Offset(items: seq<Item>, k: nat): nat
    requires k <= |items|
  {
    TotalWords(items[..k])
  }

  lemma OffsetStep(items: seq<Item>, k: nat)
    requires k < |items|
    ensures Offset(items, k + 1) == Offset(items, k) + Words(items[k])
    ensures Offset(items, 0) == 0 && Offset(items, |items|) == TotalWords(items)
  {
    TotalsSnoc(items[..k], items[k]);
    assert items[..k + 1] == items[..k] + [items[k]];
    assert items[..|items|] == items;
  }

  /** Word w is where read k puts some of its data. */
  predicate InRegion(items: seq<Item>, k: nat, w: nat)
    requires k < |items|
  {
    Offset(items, k) <= w < Offset(items, k + 1)
  }

  /** The destination regions tile the data buffer: every word belongs to exactly one read. */
  lemma {:induction false} RegionsTile(items: seq<Item>, w: nat, n: nat) returns (k: nat)
    requires n <= |items| && w < Offset(items, n)
    ensures k < n && InRegion(items, k, w)
    ensures forall j :: 0 <= j < n && InRegion(items, j, w) ==> j == k
  {
    OffsetStep(items, n - 1);
    if w >= Offset(items, n - 1) {
      k := n - 1;
      forall j | 0 <= j < n - 1 ensures !InRegion(items, j, w) {
        OffsetsGrow(items, j + 1, n - 1);
      }
    } else {
      k := RegionsTile(items, w, n - 1);
    }
  }

  lemma {:induction false} OffsetsGrow(items: seq<Item>, j: nat, k: nat)
    requires j <= k <= |items|
    ensures Offset(items, j) <= Offset(items, k)
  {
    if j < k {
      OffsetStep(items, k - 1);
      OffsetsGrow(items, j, k - 1);
    }
  }

  // ---------- Running it ----------

  /** A register read under a selector. */
  type RegisterFile = (nat, nat) -> u32

  /** The count consecutive words the dumper reads. */
  function Block(r: RegisterFile, select: nat, start: nat, count: nat): (ws: seq<u32>)
    ensures |ws| == count
  {
    seq(count, i requires 0 <= i < count => r(select, start + i))
  }

  /** Memory after words are stored at a byte address; outside the buffer nothing is modelled. */
  function Store(mem: seq<u32>, base: nat, addr: nat, words: seq<u32>): (m: seq<u32>)
    ensures |m| == |mem|
  {
    if base <= addr && (addr - base) % 4 == 0 && (addr - base) / 4 + |words| <= |mem|
    then mem[..(addr - base) / 4] + words + mem[(addr - base) / 4 + |words|..]
    else mem
  }

  /** How the dumper runs a script: pairs of qwords up to a pair of zeroes. */
  function RunScript(qs: seq<u64>, r: RegisterFile, select: nat, base: nat, mem: seq<u32>): seq<u32>
    decreases |qs|
  {
    if |qs| < 2 || (qs[0] == 0 && qs[1] == 0) then mem
    else
      var reg := qs[1] / 0x1000_0000_0000;
      if qs[1] / 0x20_0000 % 2 == 1
      then RunScript(qs[2..], r, if reg == 0xBC00 then qs[0] else select, base, mem)
      else RunScript(qs[2..], r, select, base,
                     Store(mem, base, qs[0], Block(r, select, reg, qs[1] % 0x20_0000)))
  }

  /** The selector after a read. */
  function Selected(i: Item, select: nat): nat { if i.Bank? then i.select else select }

  /** The words of a read. */
  function Data(i: Item, r: RegisterFile, select: nat): (ws: seq<u32>)
    ensures |ws| == Words(i)
  {
    match i
    case Regs(start, count) => Block(r, select, start, count)
    case Bank(s, size) => Block(r, s, 0xA000, size)
  }

  /** The data buffer the reads are meant to fill. */
  function Image(items: seq<Item>, r: RegisterFile, select: nat): (ws: seq<u32>)
    ensures |ws| == TotalWords(items)
  {
    if items == [] then []
    else Data(items[0], r, select) + Image(items[1..], r, Selected(items[0], select))
  }

  lemma FieldsOfRead(reg: nat, count: nat)
    requires count < WRITE_FLAG
    ensures var q := reg * REG_UNIT + count;
      q / REG_UNIT == reg && q / WRITE_FLAG % 2 == 0 && q % WRITE_FLAG == count
  {
    var q := reg * REG_UNIT + count;
    assert q == (reg * 0x80_0000) * WRITE_FLAG + count;
    assert q / WRITE_FLAG == reg * 0x80_0000;
  }

  lemma FieldsOfSelect()
    ensures var q := READ_SEL * REG_UNIT + WRITE_FLAG + 1;
      q / REG_UNIT == READ_SEL && q / WRITE_FLAG % 2 == 1
  {
  }

  /** One pair of qwords that reads. */
  lemma RunRead(addr: nat, reg: nat, count: nat, rest: seq<u64>, r: RegisterFile, select: nat, base: nat, mem: seq<u32>)
    requires addr < TWO_64 && reg < 0x10_0000 && count < WRITE_FLAG && (addr > 0 || reg > 0 || count > 0)
    ensures RunScript([addr, reg * REG_UNIT + count] + rest, r, select, base, mem) ==
      RunScript(rest, r, select, base, Store(mem, base, addr, Block(r, select, reg, count)))
  {
    FieldsOfRead(reg, count);
    var q: u64 := reg * REG_UNIT + count;
    var qs := [addr, q] + rest;
    assert qs[2..] == rest && qs[0] == addr && qs[1] == q;
    assert q > 0 || addr > 0;
    hide Store, Block;
  }

  /** The pair that selects. */
  lemma RunSelect(s: nat, rest: seq<u64>, r: RegisterFile, select: nat, base: nat, mem: seq<u32>)
    requires s < TWO_64
    ensures RunScript([s, READ_SEL * REG_UNIT + WRITE_FLAG + 1] + rest, r, select, base, mem) ==
      RunScript(rest, r, s, base, mem)
  {
    FieldsOfSelect();
    var qs := [s, READ_SEL * REG_UNIT + WRITE_FLAG + 1] + rest;
    assert qs[2..] == rest;
    hide Store, Block;
  }

  /** One read stores its words at its place and leaves the dumper at the next. */
  lemma RunOneRead(i: Item, rest: seq<u64>, r: RegisterFile, select: nat, base: nat, done: seq<u32>, todo: seq<u32>)
    requires ItemOk(i) && base > 0 && base + 4 * |done| < TWO_64 && |todo| >= Words(i)
    ensures RunScript(Emitted(i, base + 4 * |done|) + rest, r, select, base, done + todo) ==
      RunScript(rest, r, Selected(i, select), base, done + Data(i, r, select) + todo[Words(i)..])
  {
    hide RunScript, Store, Block;
    var addr := base + 4 * |done|;
    StoreAt(base, done, todo, Data(i, r, select));
    match i {
      case Regs(start, count) =>
        RunRead(addr, start, count, rest, r, select, base, done + todo);
      case Bank(s, size) =>
        var read := [addr, READ_APERTURE * REG_UNIT + size];
        assert Emitted(i, addr) + rest == [s, READ_SEL * REG_UNIT + WRITE_FLAG + 1] + (read + rest);
        RunSelect(s, read + rest, r, select, base, done + todo);
        RunRead(addr, READ_APERTURE, size, rest, r, s, base, done + todo);
    }
  }

  lemma StoreAt(base: nat, done: seq<u32>, todo: seq<u32>, words: seq<u32>)
    requires |words| <= |todo|
    ensures Store(done + todo, base, base + 4 * |done|, words) == done + words + todo[|words|..]
  {
    assert (done + todo)[..|done|] == done;
    assert (done + todo)[|done| + |words|..] == todo[|words|..];
  }

  /** For arbitrary tables: running the script fills the buffer with exactly the intended image. */
  lemma {:induction false} ScriptFillsTheBuffer(items: seq<Item>, r: RegisterFile, select: nat, base: nat,
                                                done: seq<u32>, todo: seq<u32>)
    requires ItemsOk(items) && base > 0 && |todo| == TotalWords(items)
    requires base + 4 * |done| + 4 * TotalWords(items) < TWO_64
    ensures RunScript(Script(items, base + 4 * |done|) + [0, 0], r, select, base, done + todo)
            == done + Image(items, r, select)
  {
    hide ItemOk, Emitted, Data, RunScript;
    if items == [] {
      EndOfScript(r, select, base, done + todo);
      assert [] + [0, 0] == [0, 0];
    } else {
      var i := items[0];
      var rest := Script(items[1..], base + 4 * |done| + 4 * Words(i)) + [0, 0];
      var done' := done + Data(i, r, select);
      assert Script(items, base + 4 * |done|) + [0, 0] == Emitted(i, base + 4 * |done|) + rest;
      RunOneRead(i, rest, r, select, base, done, todo);
      ScriptFillsTheBuffer(items[1..], r, Selected(i, select), base, done', todo[Words(i)..]);
      assert done' + Image(items[1..], r, Selected(i, select)) == done + Image(items, r, select);
    }
  }

  lemma EndOfScript(r: RegisterFile, select: nat, base: nat, mem: seq<u32>)
    ensures RunScript([0, 0], r, select, base, mem) == mem
  {
  }

  /** The selector after some reads. */
  function SelectedAfter(items: seq<Item>, select: nat): nat
    decreases |items|
  {
    if items == [] then select else SelectedAfter(items[1..], Selected(items[0], select))
  }

  lemma {:induction false} ImageConcat(a: seq<Item>, b: seq<Item>, r: RegisterFile, select: nat)
    ensures Image(a + b, r, select) == Image(a, r, select) + Image(b, r, SelectedAfter(a, select))
    decreases |a|
  {
    hide Data, Selected;
    if a == [] {
      assert a + b == b;
    } else {
      ImageConcat(a[1..], b, r, Selected(a[0], select));
      assert (a + b)[1..] == a[1..] + b && (a + b)[0] == a[0];
      assert Image(a + b, r, select) == Data(a[0], r, select) + Image(a[1..] + b, r, Selected(a[0], select));
    }
  }

  /** A read's words stand where the reads before it end. */
  lemma ImageAt(before: seq<Item>, item: Item, after: seq<Item>, r: RegisterFile, select: nat)
    ensures var o := TotalWords(before); var image := Image(before + [item] + after, r, select);
      && o + Words(item) <= |image|
      && image[o..o + Words(item)] == Data(item, r, SelectedAfter(before, select))
  {
    ImageConcat(before + [item], after, r, select);
    ImageConcat(before, [item], r, select);
    assert [item][1..] == [];
    var s := SelectedAfter(before, select);
    assert Image([item], r, s) == Data(item, r, s) + Image([], r, Selected(item, s));
    hide Image, Data, SelectedAfter;
    assert Image([item], r, s) == Data(item, r, s);
  }
}
