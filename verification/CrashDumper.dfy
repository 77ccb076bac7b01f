/** Building the crash dumper's script in two passes, and reading its buffer back. */
module CrashDumper {
  import opened Basics
  import opened CrashScript

  // ---------- The tables as a list of reads ----------

  predicate ShaderOk(s: Shader) { s.statetype < 0x100_0000 && s.sz < WRITE_FLAG }

  predicate HlsqOk(h: Hlsq) { h.statetype < 0x100_0000 && h.size < WRITE_FLAG }

  predicate ShadersOk(ss: seq<Shader>) { forall i :: 0 <= i < |ss| ==> ShaderOk(ss[i]) }

  predicate HlsqsOk(hs: seq<Hlsq>) { forall i :: 0 <= i < |hs| ==> HlsqOk(hs[i]) }

  function AllItems(main: seq<Range>, gpmu: seq<Range>, ss: seq<Shader>, hs: seq<Hlsq>): seq<Item>
    requires RangesOk(main) && RangesOk(gpmu)
  {
    RangeItems(main) + RangeItems(gpmu) + ShaderItems(ss) + HlsqItems(hs)
  }

  lemma {:induction false} RangeItemsSnoc(rs: seq<Range>, r: Range)
    requires RangesOk(rs) && RangeOk(r)
    ensures RangesOk(rs + [r]) && RangeItems(rs + [r]) == RangeItems(rs) + [Regs(r.start, PairCount(r))]
  {
    if rs == [] {
      assert [r][1..] == [];
    } else {
      RangeItemsSnoc(rs[1..], r);
      assert (rs + [r])[1..] == rs[1..] + [r] && (rs + [r])[0] == rs[0];
      assert RangeItems(rs + [r]) == [Regs(rs[0].start, PairCount(rs[0]))] + RangeItems(rs[1..] + [r]);
    }
  }

  lemma {:induction false} ShaderItemsSnoc(ss: seq<Shader>, s: Shader)
    ensures ShaderItems(ss + [s]) == ShaderItems(ss) + BankItems(s, NUM_SHADER_BANKS)
  {
    hide BankItems;
    if ss == [] {
      assert [s][1..] == [];
      assert ShaderItems([s]) == BankItems(s, NUM_SHADER_BANKS) + ShaderItems([s][1..]);
    } else {
      ShaderItemsSnoc(ss[1..], s);
      assert (ss + [s])[1..] == ss[1..] + [s] && (ss + [s])[0] == ss[0];
      assert ShaderItems(ss + [s]) == BankItems(ss[0], NUM_SHADER_BANKS) + ShaderItems(ss[1..] + [s]);
    }
  }

  lemma {:induction false} HlsqItemsSnoc(hs: seq<Hlsq>, h: Hlsq)
    ensures HlsqItems(hs + [h]) == HlsqItems(hs) + [HlsqItem(h)]
  {
    hide HlsqItem;
    if hs == [] {
      assert [h][1..] == [];
    } else {
      HlsqItemsSnoc(hs[1..], h);
      assert (hs + [h])[1..] == hs[1..] + [h] && (hs + [h])[0] == hs[0];
      assert HlsqItems(hs + [h]) == [HlsqItem(hs[0])] + HlsqItems(hs[1..] + [h]);
    }
  }

  lemma {:induction false} BankTotals(s: Shader, n: nat)
    ensures |BankItems(s, n)| == n
    ensures TotalWords(BankItems(s, n)) == n * s.sz && TotalQwords(BankItems(s, n)) == 4 * n
  {
    if n > 0 {
      BankTotals(s, n - 1);
      TotalsSnoc(BankItems(s, n - 1), Bank(s.statetype * 0x100 + (n - 1), s.sz));
    }
  }

  lemma {:induction false} RangesAreOk(rs: seq<Range>)
    requires RangesOk(rs)
    ensures ItemsOk(RangeItems(rs)) && |RangeItems(rs)| == |rs|
    ensures forall k :: 0 <= k < |rs| ==> RangeItems(rs)[k] == Regs(rs[k].start, PairCount(rs[k]))
  {
    if rs != [] {
      RangesAreOk(rs[1..]);
      forall k | 0 <= k < |rs| ensures RangeItems(rs)[k] == Regs(rs[k].start, PairCount(rs[k])) {
        if k > 0 {
          assert RangeItems(rs)[k] == RangeItems(rs[1..])[k - 1];
        }
      }
    }
  }

  // ---------- First pass: sizes ----------

  method RangeSizes(rs: seq<Range>) returns (script: nat, data: nat)
    requires RangesOk(rs)
    ensures script == 8 * TotalQwords(RangeItems(rs)) && data == 4 * TotalWords(RangeItems(rs))
  {
    script, data := |rs| * 16, 0;
    var j := 0;
    while j < |rs|
      invariant 0 <= j <= |rs|
      invariant data == 4 * TotalWords(RangeItems(rs[..j]))
      invariant TotalQwords(RangeItems(rs[..j])) == 2 * j
    {
      data := data + PairCount(rs[j]) * 4;
      RangeItemsSnoc(rs[..j], rs[j]);
      TotalsSnoc(RangeItems(rs[..j]), Regs(rs[j].start, PairCount(rs[j])));
      assert rs[..j] + [rs[j]] == rs[..j + 1];
      j := j + 1;
    }
    assert rs[..j] == rs;
  }

  method ShaderSizes(shaders: array<Shader>) returns (script: nat, data: nat)
    ensures script == 8 * TotalQwords(ShaderItems(shaders[..])) && data == 4 * TotalWords(ShaderItems(shaders[..]))
  {
    hide BankItems;
    script, data := 0, 0;
    var i := 0;
    while i < shaders.Length
      invariant 0 <= i <= shaders.Length
      invariant script == 8 * TotalQwords(ShaderItems(shaders[..i])) && data == 4 * TotalWords(ShaderItems(shaders[..i]))
    {
      script := script + 32 * NUM_SHADER_BANKS;
      data := data + shaders[i].sz * 4 * NUM_SHADER_BANKS;
      BankTotals(shaders[i], NUM_SHADER_BANKS);
      ShaderItemsSnoc(shaders[..i], shaders[i]);
      TotalsConcat(ShaderItems(shaders[..i]), BankItems(shaders[i], NUM_SHADER_BANKS));
      assert shaders[..i] + [shaders[i]] == shaders[..i + 1];
      i := i + 1;
    }
    assert shaders[..i] == shaders[..];
  }

  method HlsqSizes(hlsqs: array<Hlsq>) returns (script: nat, data: nat)
    ensures script == 8 * TotalQwords(HlsqItems(hlsqs[..])) && data == 4 * TotalWords(HlsqItems(hlsqs[..]))
  {
    script, data := 0, 0;
    var i := 0;
    while i < hlsqs.Length
      invariant 0 <= i <= hlsqs.Length
      invariant script == 8 * TotalQwords(HlsqItems(hlsqs[..i])) && data == 4 * TotalWords(HlsqItems(hlsqs[..i]))
    {
      script := script + 32;
      data := data + hlsqs[i].size * 4;
      HlsqItemsSnoc(hlsqs[..i], hlsqs[i]);
      TotalsSnoc(HlsqItems(hlsqs[..i]), HlsqItem(hlsqs[i]));
      assert hlsqs[..i] + [hlsqs[i]] == hlsqs[..i + 1];
      i := i + 1;
    }
    assert hlsqs[..i] == hlsqs[..];
  }

  // ---------- Second pass: the script ----------

  /** `done` has been written from the start of the script, and its data ends at `offset`. */
  ghost predicate Written(script: array<u64>, at: nat, done: seq<Item>, base: nat, offset: nat)
    reads script
  {
    && at <= script.Length && ItemsOk(done)
    && offset == 4 * TotalWords(done) && base + offset < TWO_64
    && script[..at] == Script(done, base)
  }

  method WriteQwords(script: array<u64>, at: nat, qs: seq<u64>) returns (next: nat)
    requires at + |qs| <= script.Length
    modifies script
    ensures next == at + |qs| && script[..next] == old(script[..at]) + qs
  {
    next := at;
    while next < at + |qs|
      invariant at <= next <= at + |qs|
      invariant script[..next] == old(script[..at]) + qs[..next - at]
    {
      script[next] := qs[next - at];
      next := next + 1;
    }
  }

  /** One read: its qwords, and the next offset. */
  method Emit(script: array<u64>, at: nat, ghost done: seq<Item>, item: Item, base: nat, offset: nat)
    returns (next: nat, offset': nat)
    requires Written(script, at, done, base, offset) && ItemOk(item)
    requires at + Qwords(item) <= script.Length && base + offset + 4 * Words(item) < TWO_64
    modifies script
    ensures Written(script, next, done + [item], base, offset')
    ensures next == at + Qwords(item) && offset' == offset + 4 * Words(item)
  {
    var qs := Emitted(item, base + offset);
    hide Emitted, ItemsOk, Script, ItemOk;
    OkSnoc(done, item);
    TotalsSnoc(done, item);
    ScriptSnoc(done, item, base);
    next := WriteQwords(script, at, qs);
    offset' := offset + 4 * Words(item);
  }

  method BuildRanges(script: array<u64>, at: nat, ghost done: seq<Item>, rs: seq<Range>, base: nat, offset: nat)
    returns (next: nat, offset': nat)
    requires Written(script, at, done, base, offset) && RangesOk(rs)
    requires at + 2 * |rs| <= script.Length && base + offset + 4 * TotalWords(RangeItems(rs)) < TWO_64
    modifies script
    ensures Written(script, next, done + RangeItems(rs), base, offset')
    ensures next == at + 2 * |rs|
  {
    hide Written, ItemOk;
    next, offset' := at, offset;
    var j := 0;
    assert done + RangeItems(rs[..0]) == done;
    while j < |rs|
      invariant 0 <= j <= |rs| && next == at + 2 * j
      invariant Written(script, next, done + RangeItems(rs[..j]), base, offset')
      invariant offset' == offset + 4 * TotalWords(RangeItems(rs[..j]))
    {
      var item := Regs(rs[j].start, PairCount(rs[j]));
      RangeIsOk(rs[j]);
      RangeItemsSnoc(rs[..j], rs[j]);
      TotalsSnoc(RangeItems(rs[..j]), item);
      assert rs[..j] + [rs[j]] == rs[..j + 1];
      RangePrefix(rs, j + 1);
      next, offset' := Emit(script, next, done + RangeItems(rs[..j]), item, base, offset');
      assert done + RangeItems(rs[..j]) + [item] == done + RangeItems(rs[..j + 1]);
      j := j + 1;
    }
    assert rs[..j] == rs;
  }

  lemma RangeIsOk(r: Range)
    requires RangeOk(r)
    ensures ItemOk(Regs(r.start, PairCount(r)))
  {
  }

  lemma {:induction false} RangePrefix(rs: seq<Range>, j: nat)
    requires RangesOk(rs) && j <= |rs|
    ensures TotalWords(RangeItems(rs[..j])) <= TotalWords(RangeItems(rs))
    decreases |rs|
  {
    if j > 0 {
      assert rs[..j][1..] == rs[1..][..j - 1];
      RangePrefix(rs[1..], j - 1);
    }
  }

  /** _a5xx_crashdump_init_shader: all banks of a block; the block remembers where the first starts. */
  method InitShader(script: array<u64>, at: nat, ghost done: seq<Item>, shaders: array<Shader>, i: nat,
                    base: nat, offset: nat)
    returns (next: nat, offset': nat)
    requires Written(script, at, done, base, offset) && i < shaders.Length && ShaderOk(shaders[i])
    requires at + 16 <= script.Length && base + offset + 4 * (4 * shaders[i].sz) < TWO_64
    modifies script, shaders
    ensures shaders[..] == old(shaders[..])[i := old(shaders[i]).(offset := offset)]
    ensures Written(script, next, done + BankItems(old(shaders[i]), NUM_SHADER_BANKS), base, offset')
    ensures next == at + 16 && offset' == offset + 4 * TotalWords(BankItems(old(shaders[i]), NUM_SHADER_BANKS))
  {
    hide Written, TotalWords, BankItems;
    ghost var block, all := shaders[i], shaders[..];
    next, offset' := at, offset;
    NoBanks(block);
    assert done + [] == done;
    var j := 0;
    while j < NUM_SHADER_BANKS
      invariant 0 <= j <= NUM_SHADER_BANKS && next == at + 4 * j && offset' == offset + 4 * (j * block.sz)
      invariant Written(script, next, done + BankItems(block, j), base, offset')
      invariant shaders[..] == if j == 0 then all else all[i := block.(offset := offset)]
    {
      BankStep(block, j, offset, offset', base);
      ghost var sofar := done + BankItems(block, j);
      if j == 0 {
        shaders[i] := shaders[i].(offset := offset');
        assert shaders[..] == all[i := block.(offset := offset)];
      }
      assert shaders[i].statetype == block.statetype && shaders[i].sz == block.sz;
      next, offset' := Emit(script, next, sofar, Bank(shaders[i].statetype * 0x100 + j, shaders[i].sz), base, offset');
      assert done + BankItems(block, j + 1) == sofar + [Bank(block.statetype * 0x100 + j, block.sz)];
      j := j + 1;
    }
    BankTotals(block, NUM_SHADER_BANKS);
  }

  lemma NoBanks(s: Shader)
    ensures BankItems(s, 0) == []
  {
  }

  lemma BankStep(s: Shader, j: nat, offset: nat, now: nat, base: nat)
    requires ShaderOk(s) && j < NUM_SHADER_BANKS && now == offset + 4 * (j * s.sz)
    requires base + offset + 4 * (4 * s.sz) < TWO_64
    ensures var item := Bank(s.statetype * 0x100 + j, s.sz);
      && ItemOk(item) && Words(item) == s.sz && Qwords(item) == 4
      && BankItems(s, j + 1) == BankItems(s, j) + [item]
      && base + now + 4 * s.sz < TWO_64 && now + 4 * s.sz == offset + 4 * ((j + 1) * s.sz)
  {
    if j == 0 {
    } else if j == 1 {
    } else if j == 2 {
    }
  }

  /** _a5xx_crashdump_init_hlsq */
  method InitHlsq(script: array<u64>, at: nat, ghost done: seq<Item>, hlsqs: array<Hlsq>, i: nat, base: nat, offset: nat)
    returns (next: nat, offset': nat)
    requires Written(script, at, done, base, offset) && i < hlsqs.Length && HlsqOk(hlsqs[i])
    requires at + 4 <= script.Length && base + offset + 4 * hlsqs[i].size < TWO_64
    modifies script, hlsqs
    ensures hlsqs[..] == old(hlsqs[..])[i := old(hlsqs[i]).(offset := offset)]
    ensures Written(script, next, done + [HlsqItem(old(hlsqs[i]))], base, offset')
    ensures next == at + 4 && offset' == offset + 4 * old(hlsqs[i]).size
  {
    hide Written;
    var item := HlsqItem(hlsqs[i]);
    next, offset' := Emit(script, at, done, item, base, offset);
    hlsqs[i] := hlsqs[i].(offset := offset);
    assert hlsqs[..] == old(hlsqs[..])[i := old(hlsqs[i]).(offset := offset)];
  }

  lemma {:induction false} ShaderPrefix(ss: seq<Shader>, i: nat)
    requires i <= |ss|
    ensures TotalWords(ShaderItems(ss[..i])) <= TotalWords(ShaderItems(ss))
    ensures TotalQwords(ShaderItems(ss[..i])) == 16 * i
    decreases |ss|
  {
    hide BankItems;
    if i > 0 {
      assert ss[..i][1..] == ss[1..][..i - 1] && ss[..i][0] == ss[0];
      ShaderPrefix(ss[1..], i - 1);
      BankTotals(ss[0], NUM_SHADER_BANKS);
      TotalsConcat(BankItems(ss[0], NUM_SHADER_BANKS), ShaderItems(ss[1..]));
      TotalsConcat(BankItems(ss[0], NUM_SHADER_BANKS), ShaderItems(ss[1..][..i - 1]));
    }
  }

  lemma {:induction false} HlsqPrefix(hs: seq<Hlsq>, i: nat)
    requires i <= |hs|
    ensures TotalWords(HlsqItems(hs[..i])) <= TotalWords(HlsqItems(hs))
    ensures TotalQwords(HlsqItems(hs[..i])) == 4 * i
    decreases |hs|
  {
    if i > 0 {
      assert hs[..i][1..] == hs[1..][..i - 1];
      HlsqPrefix(hs[1..], i - 1);
    }
  }

  lemma TakeSnoc<T>(s: seq<T>, i: nat)
    requires i < |s|
    ensures s[..i + 1] == s[..i] + [s[i]]
  {
  }

  /** What one more block adds. */
  lemma NextShader(ss: seq<Shader>, i: nat)
    requires i < |ss|
    ensures ShaderItems(ss[..i + 1]) == ShaderItems(ss[..i]) + BankItems(ss[i], NUM_SHADER_BANKS)
    ensures TotalWords(ShaderItems(ss[..i + 1])) ==
      TotalWords(ShaderItems(ss[..i])) + TotalWords(BankItems(ss[i], NUM_SHADER_BANKS))
    ensures TotalWords(BankItems(ss[i], NUM_SHADER_BANKS)) == 4 * ss[i].sz
    ensures TotalWords(ShaderItems(ss[..i + 1])) <= TotalWords(ShaderItems(ss))
  {
    hide BankItems, TotalWords, TotalQwords, ShaderItems;
    TakeSnoc(ss, i);
    ShaderItemsSnoc(ss[..i], ss[i]);
    TotalsConcat(ShaderItems(ss[..i]), BankItems(ss[i], NUM_SHADER_BANKS));
    BankTotals(ss[i], NUM_SHADER_BANKS);
    ShaderPrefix(ss, i + 1);
  }

  lemma NextHlsq(hs: seq<Hlsq>, i: nat)
    requires i < |hs|
    ensures HlsqItems(hs[..i + 1]) == HlsqItems(hs[..i]) + [HlsqItem(hs[i])]
    ensures TotalWords(HlsqItems(hs[..i + 1])) == TotalWords(HlsqItems(hs[..i])) + hs[i].size
    ensures TotalWords(HlsqItems(hs[..i + 1])) <= TotalWords(HlsqItems(hs))
  {
    assert Words(HlsqItem(hs[i])) == hs[i].size;
    hide *;
    TakeSnoc(hs, i);
    var before := HlsqItems(hs[..i]);
    HlsqItemsSnoc(hs[..i], hs[i]);
    TotalsSnoc(before, HlsqItem(hs[i]));
    HlsqPrefix(hs, i + 1);
  }

  method BuildShaders(script: array<u64>, at: nat, ghost done: seq<Item>, shaders: array<Shader>, base: nat, offset: nat)
    returns (next: nat, offset': nat)
    requires Written(script, at, done, base, offset) && ShadersOk(shaders[..])
    requires at + 16 * shaders.Length <= script.Length
    requires base + offset + 4 * TotalWords(ShaderItems(shaders[..])) < TWO_64
    modifies script, shaders
    ensures Written(script, next, done + ShaderItems(old(shaders[..])), base, offset')
    ensures next == at + 16 * shaders.Length
    ensures forall k :: 0 <= k < shaders.Length ==>
      shaders[k] == old(shaders[k]).(offset := offset + 4 * TotalWords(ShaderItems(old(shaders[..])[..k])))
  {
    hide Written, TotalWords, BankItems, ShaderItems;
    ghost var ss := shaders[..];
    next, offset' := at, offset;
    NoShaders();
    var i := 0;
    assert ss[..0] == [] && done + [] == done;
    while i < shaders.Length
      invariant 0 <= i <= shaders.Length && next == at + 16 * i
      invariant offset' == offset + 4 * TotalWords(ShaderItems(ss[..i]))
      invariant Written(script, next, done + ShaderItems(ss[..i]), base, offset')
      invariant forall k :: 0 <= k < shaders.Length ==>
        shaders[k] == if k < i then ss[k].(offset := offset + 4 * TotalWords(ShaderItems(ss[..k]))) else ss[k]
    {
      NextShader(ss, i);
      assert shaders[i] == ss[i] && ShaderOk(ss[i]);
      ghost var before, sofar := shaders[..], done + ShaderItems(ss[..i]);
      next, offset' := InitShader(script, next, sofar, shaders, i, base, offset');
      assert sofar + BankItems(ss[i], NUM_SHADER_BANKS) == done + ShaderItems(ss[..i + 1]);
      assert forall k :: 0 <= k < shaders.Length ==> shaders[k] == shaders[..][k];
      i := i + 1;
    }
    assert ss[..i] == ss;
  }

  lemma NoShaders()
    ensures ShaderItems([]) == [] && HlsqItems([]) == [] && TotalWords([]) == 0
  {
  }

  method BuildHlsqs(script: array<u64>, at: nat, ghost done: seq<Item>, hlsqs: array<Hlsq>, base: nat, offset: nat)
    returns (next: nat, offset': nat)
    requires Written(script, at, done, base, offset) && HlsqsOk(hlsqs[..])
    requires at + 4 * hlsqs.Length <= script.Length
    requires base + offset + 4 * TotalWords(HlsqItems(hlsqs[..])) < TWO_64
    modifies script, hlsqs
    ensures Written(script, next, done + HlsqItems(old(hlsqs[..])), base, offset')
    ensures next == at + 4 * hlsqs.Length
    ensures forall k :: 0 <= k < hlsqs.Length ==>
      hlsqs[k] == old(hlsqs[k]).(offset := offset + 4 * TotalWords(HlsqItems(old(hlsqs[..])[..k])))
  {
    hide Written, TotalWords, HlsqItems;
    ghost var hs := hlsqs[..];
    next, offset' := at, offset;
    NoShaders();
    var i := 0;
    assert hs[..0] == [] && done + [] == done;
    while i < hlsqs.Length
      invariant 0 <= i <= hlsqs.Length && next == at + 4 * i
      invariant offset' == offset + 4 * TotalWords(HlsqItems(hs[..i]))
      invariant Written(script, next, done + HlsqItems(hs[..i]), base, offset')
      invariant forall k :: 0 <= k < hlsqs.Length ==>
        hlsqs[k] == if k < i then hs[k].(offset := offset + 4 * TotalWords(HlsqItems(hs[..k]))) else hs[k]
    {
      NextHlsq(hs, i);
      assert hlsqs[i] == hs[i] && HlsqOk(hs[i]);
      ghost var sofar := done + HlsqItems(hs[..i]);
      next, offset' := InitHlsq(script, next, sofar, hlsqs, i, base, offset');
      assert sofar + [HlsqItem(hs[i])] == done + HlsqItems(hs[..i + 1]);
      assert forall k :: 0 <= k < hlsqs.Length ==> hlsqs[k] == hlsqs[..][k];
      i := i + 1;
    }
    assert hs[..i] == hs;
  }

  /** The first word of the first bank of block k. */
  function ShaderOffset(main: seq<Range>, gpmu: seq<Range>, ss: seq<Shader>, k: nat): nat
    requires RangesOk(main) && RangesOk(gpmu) && k <= |ss|
  {
    TotalWords(RangeItems(main) + RangeItems(gpmu)) + TotalWords(ShaderItems(ss[..k]))
  }

  /** The first word of register set k. */
  function HlsqOffset(main: seq<Range>, gpmu: seq<Range>, ss: seq<Shader>, hs: seq<Hlsq>, k: nat): nat
    requires RangesOk(main) && RangesOk(gpmu) && k <= |hs|
  {
    TotalWords(RangeItems(main) + RangeItems(gpmu) + ShaderItems(ss)) + TotalWords(HlsqItems(hs[..k]))
  }

  lemma AllTotals(main: seq<Range>, gpmu: seq<Range>, ss: seq<Shader>, hs: seq<Hlsq>)
    requires RangesOk(main) && RangesOk(gpmu)
    ensures var a, b, c, d := RangeItems(main), RangeItems(gpmu), ShaderItems(ss), HlsqItems(hs);
      && TotalWords(a + b) == TotalWords(a) + TotalWords(b)
      && TotalWords(a + b + c) == TotalWords(a) + TotalWords(b) + TotalWords(c)
      && TotalWords(a + b + c + d) == TotalWords(a) + TotalWords(b) + TotalWords(c) + TotalWords(d)
      && TotalQwords(a + b + c + d) == TotalQwords(a) + TotalQwords(b) + TotalQwords(c) + TotalQwords(d)
  {
    var a, b, c, d := RangeItems(main), RangeItems(gpmu), ShaderItems(ss), HlsqItems(hs);
    hide RangeItems, ShaderItems, HlsqItems, TotalWords, TotalQwords;
    TotalsConcat(a, b);
    TotalsConcat(a + b, c);
    TotalsConcat(a + b + c, d);
  }

  /** The words of the first n blocks, four banks each, and of the first n sets. */
  ghost function BankWords(ss: seq<Shader>, n: nat): nat
    requires n <= |ss|
  {
    if n == 0 then 0 else BankWords(ss, n - 1) + 4 * ss[n - 1].sz
  }

  ghost function SetWords(hs: seq<Hlsq>, n: nat): nat
    requires n <= |hs|
  {
    if n == 0 then 0 else SetWords(hs, n - 1) + hs[n - 1].size
  }

  lemma {:induction false} RangeWords(rs: seq<Range>, n: nat)
    requires RangesOk(rs) && n <= |rs|
    ensures TotalWords(RangeItems(rs[..n])) == Before(rs, n)
  {
    if n > 0 {
      RangeWords(rs, n - 1);
      TakeSnoc(rs, n - 1);
      RangeItemsSnoc(rs[..n - 1], rs[n - 1]);
      TotalsSnoc(RangeItems(rs[..n - 1]), Regs(rs[n - 1].start, PairCount(rs[n - 1])));
    }
  }

  lemma {:induction false} ShaderWords(ss: seq<Shader>, n: nat)
    requires n <= |ss|
    ensures TotalWords(ShaderItems(ss[..n])) == BankWords(ss, n)
  {
    hide BankItems;
    if n > 0 {
      ShaderWords(ss, n - 1);
      NextShader(ss, n - 1);
    }
  }

  lemma {:induction false} HlsqWords(hs: seq<Hlsq>, n: nat)
    requires n <= |hs|
    ensures TotalWords(HlsqItems(hs[..n])) == SetWords(hs, n)
  {
    if n > 0 {
      HlsqWords(hs, n - 1);
      NextHlsq(hs, n - 1);
    }
  }

  /** Offsets and size of the data buffer, counted from the tables. */
  lemma Layout(main: seq<Range>, gpmu: seq<Range>, ss: seq<Shader>, hs: seq<Hlsq>)
    requires RangesOk(main) && RangesOk(gpmu)
    ensures var regs := Before(main, |main|) + Before(gpmu, |gpmu|);
      && (forall k :: 0 <= k <= |ss| ==> ShaderOffset(main, gpmu, ss, k) == regs + BankWords(ss, k))
      && (forall k :: 0 <= k <= |hs| ==>
            HlsqOffset(main, gpmu, ss, hs, k) == regs + BankWords(ss, |ss|) + SetWords(hs, k))
      && TotalWords(AllItems(main, gpmu, ss, hs)) == regs + BankWords(ss, |ss|) + SetWords(hs, |hs|)
  {
    hide RangeItems, ShaderItems, HlsqItems, TotalWords, Before, BankWords, SetWords;
    assert main[..|main|] == main && gpmu[..|gpmu|] == gpmu && ss[..|ss|] == ss && hs[..|hs|] == hs;
    AllTotals(main, gpmu, ss, hs);
    RangeWords(main, |main|);
    RangeWords(gpmu, |gpmu|);
    forall k | 0 <= k <= |ss| ensures TotalWords(ShaderItems(ss[..k])) == BankWords(ss, k) {
      ShaderWords(ss, k);
    }
    forall k | 0 <= k <= |hs| ensures TotalWords(HlsqItems(hs[..k])) == SetWords(hs, k) {
      HlsqWords(hs, k);
    }
  }

  /**
   a5xx_crashdump_init with its two allocations, the data buffer at `base`. The second pass writes
   exactly the size the first one computed plus two closing qwords, ends at offset data_size, and
   records where each block's data starts. `gpmu` is empty on parts without a GPMU.
   */
  method CrashdumpInit(main: seq<Range>, gpmu: seq<Range>, shaders: array<Shader>, hlsqs: array<Hlsq>, base: nat)
    returns (script: array<u64>, scriptSize: nat, dataSize: nat, offset: nat)
    requires RangesOk(main) && RangesOk(gpmu) && ShadersOk(shaders[..]) && HlsqsOk(hlsqs[..])
    requires base + 4 * TotalWords(AllItems(main, gpmu, shaders[..], hlsqs[..])) < TWO_64
    modifies shaders, hlsqs
    ensures fresh(script) && 8 * script.Length == scriptSize + 16
    // two qwords a range, sixteen a block, four a set; a word a register, four banks a block
    ensures scriptSize == 8 * (2 * |main| + 2 * |gpmu| + 16 * shaders.Length + 4 * hlsqs.Length)
    ensures var ss, hs := old(shaders[..]), old(hlsqs[..]); var regs := Before(main, |main|) + Before(gpmu, |gpmu|);
      && dataSize == 4 * (regs + BankWords(ss, |ss|) + SetWords(hs, |hs|))
      && (forall k :: 0 <= k < shaders.Length ==> shaders[k].offset == 4 * (regs + BankWords(ss, k)))
      && (forall k :: 0 <= k < hlsqs.Length ==> hlsqs[k].offset == 4 * (regs + BankWords(ss, |ss|) + SetWords(hs, k)))
    ensures var ss, hs := old(shaders[..]), old(hlsqs[..]); var items := AllItems(main, gpmu, ss, hs);
      && ItemsOk(items) && dataSize == 4 * TotalWords(items) == offset
      && script[..] == Script(items, base) + [0, 0]
      && (forall k :: 0 <= k < shaders.Length ==>
            shaders[k] == ss[k].(offset := 4 * ShaderOffset(main, gpmu, ss, k)))
      && (forall k :: 0 <= k < hlsqs.Length ==>
            hlsqs[k] == hs[k].(offset := 4 * HlsqOffset(main, gpmu, ss, hs, k)))
  {
    hide RangeItems, ShaderItems, HlsqItems, TotalWords, TotalQwords, ItemsOk, ItemOk, Script, ShaderOffset, HlsqOffset,
         Before, BankWords, SetWords;
    Layout(main, gpmu, shaders[..], hlsqs[..]);
    var s0, d0 := RangeSizes(main);
    var s1, d1 := RangeSizes(gpmu);
    var s2, d2 := ShaderSizes(shaders);
    var s3, d3 := HlsqSizes(hlsqs);
    scriptSize, dataSize := s0 + s1 + s2 + s3, d0 + d1 + d2 + d3;
    ghost var ss, hs := shaders[..], hlsqs[..];
    AllTotals(main, gpmu, ss, hs);
    Counts(main, gpmu, ss, hs);
    script := new u64[(scriptSize + 16) / 8];
    var at;
    at, offset := BuildAll(script, main, gpmu, shaders, hlsqs, base);
    script[at] := 0;
    at := at + 1;
    script[at] := 0;
    assert script[..] == script[..script.Length - 2] + [0, 0];
  }

  lemma Counts(main: seq<Range>, gpmu: seq<Range>, ss: seq<Shader>, hs: seq<Hlsq>)
    requires RangesOk(main) && RangesOk(gpmu)
    ensures TotalQwords(RangeItems(main)) == 2 * |main| && TotalQwords(RangeItems(gpmu)) == 2 * |gpmu|
    ensures TotalQwords(ShaderItems(ss)) == 16 * |ss| && TotalQwords(HlsqItems(hs)) == 4 * |hs|
  {
    hide *;
    assert ss[..|ss|] == ss && hs[..|hs|] == hs;
    RangeQwords(main);
    RangeQwords(gpmu);
    ShaderPrefix(ss, |ss|);
    HlsqPrefix(hs, |hs|);
  }

  lemma {:induction false} RangeQwords(rs: seq<Range>)
    requires RangesOk(rs)
    ensures TotalQwords(RangeItems(rs)) == 2 * |rs|
  {
    if rs != [] {
      RangeQwords(rs[1..]);
    }
  }

  /** The four loops of the second pass. */
  method BuildAll(script: array<u64>, main: seq<Range>, gpmu: seq<Range>, shaders: array<Shader>, hlsqs: array<Hlsq>,
                  base: nat)
    returns (at: nat, offset: nat)
    requires RangesOk(main) && RangesOk(gpmu) && ShadersOk(shaders[..]) && HlsqsOk(hlsqs[..])
    requires base + 4 * TotalWords(AllItems(main, gpmu, shaders[..], hlsqs[..])) < TWO_64
    requires script.Length == 2 * |main| + 2 * |gpmu| + 16 * shaders.Length + 4 * hlsqs.Length + 2
    modifies script, shaders, hlsqs
    ensures at == script.Length - 2
    ensures var ss, hs := old(shaders[..]), old(hlsqs[..]); var items := AllItems(main, gpmu, ss, hs);
      && Written(script, at, items, base, offset)
      && (forall k :: 0 <= k < shaders.Length ==>
            shaders[k] == ss[k].(offset := 4 * ShaderOffset(main, gpmu, ss, k)))
      && (forall k :: 0 <= k < hlsqs.Length ==>
            hlsqs[k] == hs[k].(offset := 4 * HlsqOffset(main, gpmu, ss, hs, k)))
  {
    ghost var ss, hs := shaders[..], hlsqs[..];
    AllTotals(main, gpmu, ss, hs);
    assert Written(script, 0, [], base, 0);
    hide Written, RangeItems, ShaderItems, HlsqItems, TotalWords;
    assert [] + RangeItems(main) == RangeItems(main);
    at, offset := BuildRanges(script, 0, [], main, base, 0);
    WrittenEndsAt(script, at, RangeItems(main), base, offset);
    at, offset := BuildRanges(script, at, RangeItems(main), gpmu, base, offset);
    ghost var first := RangeItems(main) + RangeItems(gpmu);
    WrittenEndsAt(script, at, first, base, offset);
    at, offset := BuildShaders(script, at, first, shaders, base, offset);
    WrittenEndsAt(script, at, first + ShaderItems(ss), base, offset);
    at, offset := BuildHlsqs(script, at, first + ShaderItems(ss), hlsqs, base, offset);
  }

  lemma WrittenEndsAt(script: array<u64>, at: nat, done: seq<Item>, base: nat, offset: nat)
    requires Written(script, at, done, base, offset)
    ensures offset == 4 * TotalWords(done)
  {
  }
}
