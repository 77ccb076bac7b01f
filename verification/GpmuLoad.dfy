/** Loading the GPMU's microcode: reading its image and building the packets that write it. */
module GpmuLoad {
  import opened Basics
  import opened Pm4
  import opened Pm4Machine
  import opened Pm4Commands
  import opened Pm4Meaning
  import opened Pm4Emit
  import opened Firmware

  const INST_RAM_BASE := 0x8800
  const TYPE4_MAX_PAYLOAD := 127

  // ---------- Reading the image ----------

  /** The checks before the header; an empty file fails them whatever is read beyond its end. */
  predicate LooksLikeAnImage(data: seq<u32>) {
    data != [] && 2 <= data[0] < |data| && data[1] == FIRMWARE_ID
  }

  predicate ImageHeaderOk(data: seq<u32>, major: u32)
    requires LooksLikeAnImage(data)
  {
    HeaderOk(data[2..], data[0] - 2, FIRMWARE_ID, major)
  }

  /** An image that leads to load commands. */
  predicate ImageOk(data: seq<u32>, major: u32) {
    LooksLikeAnImage(data) && ImageHeaderOk(data, major) && data[0] - data[2] - 2 <= INST_RAM_SIZE
  }

  /** What the return value reports. */
  predicate Reported(data: seq<u32>, major: u32) {
    LooksLikeAnImage(data) && !ImageHeaderOk(data, major)
  }

  /**
   _load_gpmu_firmware after the file has been read. A bad length, a wrong type and an oversized
   image all end in the error path with a zero return value: only a bad header is reported.
   */
  method LoadGpmuFirmware(data: seq<u32>, major: u32) returns (failed: bool, image: Option<Slice>)
    ensures image.Some? <==> ImageOk(data, major)
    ensures image.Some? <==>
      && |data| > 0 && 2 <= data[0] < |data| && data[1] == 2
      && HeaderOk(data[2..], data[0] - 2, 2, major) && data[0] - data[2] - 2 <= 4095
    ensures image.Some? ==>
              && image.value == Slice(data[2] + 3, data[0] - data[2] - 2)
              && image.value.start + image.value.size == 1 + data[0] <= |data|
    ensures failed <==> Reported(data, major)
    ensures failed <==>
      && |data| > 0 && 2 <= data[0] < |data| && data[1] == 2
      && !HeaderOk(data[2..], data[0] - 2, 2, major)
  {
    hide HeaderOk;
    if |data| == 0 || data[0] >= |data| || data[0] < 2 {
      return false, None;
    }
    if data[1] != FIRMWARE_ID {
      return false, None;
    }
    var good := ReadFw2BlockHeader(data[2..], data[0] - 2, FIRMWARE_ID, major);
    if !good {
      return true, None;
    }
    HeaderEnds(data[2..], data[0] - 2, FIRMWARE_ID, major);
    var size := data[0] - data[2] - 2;
    if size > INST_RAM_SIZE {
      return false, None;
    }
    return false, Some(Slice(data[2] + 3, size));
  }

  /** Exactly the images that are neither loaded nor reported: no image at all, or one too large. */
  lemma SilentlyNotLoadedIff(data: seq<u32>, major: u32)
    ensures !ImageOk(data, major) && !Reported(data, major) <==>
      || !LooksLikeAnImage(data)
      || (ImageHeaderOk(data, major) && data[0] - data[2] - 2 > INST_RAM_SIZE)
  {
  }

  /** A length word beyond the end of the file, and a type that is not the GPMU's. */
  lemma BadLengthIsSilent(major: u32)
    ensures !ImageOk([9, FIRMWARE_ID], major) && !Reported([9, FIRMWARE_ID], major)
    ensures !ImageOk([2, SEQUENCE_ID, 0], major) && !Reported([2, SEQUENCE_ID, 0], major)
  {
  }

  // ---------- Building the packets ----------

  /** The type 4 packets for ucode[offset..], at most `limit` words each. */
  function Chunks(ucode: seq<u32>, offset: nat, limit: nat): seq<Packet>
    requires limit > 0 && offset <= |ucode|
    decreases |ucode| - offset
  {
    if offset == |ucode| then []
    else
      var n := if |ucode| - offset >= limit then limit else |ucode| - offset;
      [Pkt4(INST_RAM_BASE + offset, ucode[offset..offset + n])] + Chunks(ucode, offset + n, limit)
  }

  function LoadPackets(ucode: seq<u32>, limit: nat): seq<Packet>
    requires limit > 0
  {
    [SetProtected(false)] + Chunks(ucode, 0, limit) + [SetProtected(true)]
  }

  /** The loop of _gpmu_create_load_cmds. */
  method EmitChunks(cmds: array<u32>, at: nat, ghost before: seq<Packet>, ucode: seq<u32>, limit: nat, ghost most: nat)
    returns (next: nat)
    requires 0 < limit <= TYPE4_MAX_PAYLOAD && |ucode| <= INST_RAM_SIZE
    requires |ucode| < Times(most + 1, limit) && at + |ucode| + most + 1 <= cmds.Length
    requires AllFit(before) && cmds[0..at] == EncodeAll(before)
    modifies cmds
    ensures at <= next <= at + |ucode| + most + 1
    ensures AllFit(before + Chunks(ucode, 0, limit))
    ensures cmds[0..next] == EncodeAll(before + Chunks(ucode, 0, limit))
  {
    hide EncodeAll, Chunks, Times;
    TimesZero(limit);
    next := at;
    var offset := 0;
    ghost var done := before;
    ghost var packets := 0;
    while offset < |ucode|
      invariant 0 <= offset <= |ucode| && packets <= most + 1 && next == at + offset + packets
      invariant offset < |ucode| ==> offset == Times(packets, limit)
      invariant AllFit(done) && cmds[0..next] == EncodeAll(done)
      invariant done + Chunks(ucode, offset, limit) == before + Chunks(ucode, 0, limit)
    {
      var size := if |ucode| - offset >= limit then limit else |ucode| - offset;
      TimesMono(packets, most + 1, limit);
      TimesStep(packets, limit);
      NextChunk(ucode, offset, limit, size);
      var p := Pkt4(INST_RAM_BASE + offset, ucode[offset..offset + size]);
      Regroup(done, p, Chunks(ucode, offset + size, limit));
      next := Emit(cmds, 0, next, done, p);
      done := done + [p];
      offset := offset + size;
      packets := packets + 1;
    }
    NoChunks(ucode, limit);
    assert done + [] == done;
  }

  /**
   _gpmu_create_load_cmds, for any packet limit a header can hold. The buffer is sized before the
   packets are counted; it is always large enough.
   */
  method CreateLoadCmds(ucode: seq<u32>, limit: nat) returns (cmds: array<u32>, count: nat)
    requires 0 < limit <= TYPE4_MAX_PAYLOAD && |ucode| <= INST_RAM_SIZE
    ensures fresh(cmds) && count <= cmds.Length == |ucode| + |ucode| / limit + 1 + 4
    ensures AllFit(LoadPackets(ucode, limit)) && cmds[..count] == EncodeAll(LoadPackets(ucode, limit))
  {
    hide EncodeAll, SetProtected, Chunks, Times, Full;
    FullPackets(|ucode|, limit);
    var most := Full(|ucode|, limit);
    cmds := new u32[|ucode| + most + 1 + 4];
    EncodeNothing();
    ModeFits();
    count := Emit(cmds, 0, 0, [], SetProtected(false));
    assert [] + [SetProtected(false)] == [SetProtected(false)];
    count := EmitChunks(cmds, count, [SetProtected(false)], ucode, limit, most);
    count := Emit(cmds, 0, count, [SetProtected(false)] + Chunks(ucode, 0, limit), SetProtected(true));
    assert cmds[0..count] == cmds[..count];
  }

  lemma ModeFits()
    ensures forall on :: Fits(SetProtected(on)) && |SetProtected(on).payload| == 1
  {
  }

  function Times(k: nat, d: nat): nat { k * d }

  lemma TimesZero(d: nat)
    ensures Times(0, d) == 0
  {
  }

  lemma TimesStep(k: nat, d: nat)
    ensures Times(k + 1, d) == Times(k, d) + d
  {
  }

  lemma TimesMono(j: nat, k: nat, d: nat)
    ensures k <= j ==> Times(k, d) <= Times(j, d)
  {
    if k <= j {
      assert (j - k) * d >= 0;
    }
  }

  /** The number of full packets. */
  function Full(size: nat, limit: nat): nat
    requires limit > 0
  {
    size / limit
  }

  lemma FullPackets(size: nat, limit: nat)
    requires limit > 0
    ensures size < Times(Full(size, limit) + 1, limit)
    ensures Full(size, limit) == size / limit
  {
    assert size == size / limit * limit + size % limit;
  }

  lemma NoChunks(ucode: seq<u32>, limit: nat)
    requires limit > 0
    ensures Chunks(ucode, |ucode|, limit) == []
  {
  }

  /** The next chunk and the rest. */
  lemma NextChunk(ucode: seq<u32>, offset: nat, limit: nat, n: nat)
    requires limit > 0 && offset < |ucode|
    requires n == if |ucode| - offset >= limit then limit else |ucode| - offset
    ensures Chunks(ucode, offset, limit) ==
      [Pkt4(INST_RAM_BASE + offset, ucode[offset..offset + n])] + Chunks(ucode, offset + n, limit)
  {
  }

  lemma Regroup(done: seq<Packet>, p: Packet, rest: seq<Packet>)
    ensures done + ([p] + rest) == done + [p] + rest
  {
  }

  // ---------- What they do ----------

  /** The register file after writing values at consecutive registers. */
  function Poke(regs: map<nat, u32>, reg: nat, values: seq<u32>): map<nat, u32>
    decreases |values|
  {
    if values == [] then regs else Poke(regs[reg := values[0]], reg + 1, values[1..])
  }

  /** The register file after a log. */
  function Registers(regs: map<nat, u32>, log: seq<Did>): map<nat, u32>
    decreases |log|
  {
    if log == [] then regs
    else Registers(if log[0].effect.RegWrite? then Poke(regs, log[0].effect.reg, log[0].effect.values) else regs,
                   log[1..])
  }

  lemma {:induction false} PokeConcat(regs: map<nat, u32>, reg: nat, a: seq<u32>, b: seq<u32>)
    ensures Poke(regs, reg, a + b) == Poke(Poke(regs, reg, a), reg + |a|, b)
    decreases |a|
  {
    if a == [] {
      assert a + b == b;
    } else {
      assert (a + b)[1..] == a[1..] + b;
      PokeConcat(regs[reg := a[0]], reg + 1, a[1..], b);
    }
  }

  lemma {:induction false} PokeHolds(regs: map<nat, u32>, reg: nat, values: seq<u32>, k: nat)
    ensures reg <= k < reg + |values| ==> k in Poke(regs, reg, values) && Poke(regs, reg, values)[k] == values[k - reg]
    ensures !(reg <= k < reg + |values|) ==>
              (k in Poke(regs, reg, values) <==> k in regs) && (k in regs ==> Poke(regs, reg, values)[k] == regs[k])
    decreases |values|
  {
    if values != [] {
      PokeHolds(regs[reg := values[0]], reg + 1, values[1..], k);
    }
  }

  lemma RunFirst(regs: map<nat, u32>, m: Mode, p: Packet, rest: seq<Packet>)
    requires p.Pkt4?
    ensures ModeAfter(m, [p] + rest) == ModeAfter(m, rest)
    ensures Registers(regs, Log(m, [p] + rest)) == Registers(Poke(regs, p.reg, p.payload), Log(m, rest))
  {
    var did := Did(RegWrite(p.reg, p.payload), m);
    assert ([p] + rest)[1..] == rest;
    assert Log(m, [p] + rest) == [did] + Log(m, rest);
    hide Log, Poke;
    assert ([did] + Log(m, rest))[1..] == Log(m, rest);
  }

  lemma NothingPoked(regs: map<nat, u32>, m: Mode, ucode: seq<u32>, limit: nat)
    requires limit > 0
    ensures Registers(regs, Log(m, Chunks(ucode, |ucode|, limit))) == regs
    ensures ModeAfter(m, Chunks(ucode, |ucode|, limit)) == m
    ensures Poke(regs, INST_RAM_BASE + |ucode|, []) == regs
  {
  }

  /** However the image is cut up, running the chunks stores it word by word. */
  lemma {:induction false} ChunksPoke(regs: map<nat, u32>, m: Mode, ucode: seq<u32>, offset: nat, limit: nat)
    requires limit > 0 && offset <= |ucode|
    ensures Registers(regs, Log(m, Chunks(ucode, offset, limit))) == Poke(regs, INST_RAM_BASE + offset, ucode[offset..])
    ensures ModeAfter(m, Chunks(ucode, offset, limit)) == m
    decreases |ucode| - offset
  {
    hide Log, ModeAfter, Registers, Chunks, Poke;
    if offset == |ucode| {
      NothingPoked(regs, m, ucode, limit);
      assert ucode[offset..] == [];
    } else {
      var n := if |ucode| - offset >= limit then limit else |ucode| - offset;
      var piece, rest := ucode[offset..offset + n], Chunks(ucode, offset + n, limit);
      NextChunk(ucode, offset, limit, n);
      RunFirst(regs, m, Pkt4(INST_RAM_BASE + offset, piece), rest);
      ChunksPoke(Poke(regs, INST_RAM_BASE + offset, piece), m, ucode, offset + n, limit);
      PokeConcat(regs, INST_RAM_BASE + offset, piece, ucode[offset + n..]);
      assert ucode[offset..] == piece + ucode[offset + n..];
    }
  }

  /**
   The round trip: for every image and every packet limit, running the packets leaves the image
   in the instruction RAM, every other register as it was, and the CP protected.
   */
  lemma LoadRoundTrip(regs: map<nat, u32>, ucode: seq<u32>, limit: nat)
    requires limit > 0
    ensures ModeAfter(KERNEL_MODE, LoadPackets(ucode, limit)) == KERNEL_MODE
    ensures var after := Registers(regs, Log(KERNEL_MODE, LoadPackets(ucode, limit)));
      && (forall i :: 0 <= i < |ucode| ==> 0x8800 + i in after && after[0x8800 + i] == ucode[i])
      && (forall k: nat :: !(0x8800 <= k < 0x8800 + |ucode|) ==>
            (k in after <==> k in regs) && (k in regs ==> after[k] == regs[k]))
  {
    var chunks := Chunks(ucode, 0, limit);
    RunOne(KERNEL_MODE, SetProtected(false));
    RunOne(UNPROTECTED, SetProtected(true));
    ChunksPoke(regs, UNPROTECTED, ucode, 0, limit);
    hide Log, ModeAfter, Chunks, SetProtected, Registers, Poke;
    RunConcat(KERNEL_MODE, [SetProtected(false)], chunks);
    RunConcat(KERNEL_MODE, [SetProtected(false)] + chunks, [SetProtected(true)]);
    assert [] + Log(UNPROTECTED, chunks) + [] == Log(UNPROTECTED, chunks);
    assert ucode[0..] == ucode;
    forall k: nat ensures
      var after := Poke(regs, INST_RAM_BASE, ucode);
      && (INST_RAM_BASE <= k < INST_RAM_BASE + |ucode| ==> k in after && after[k] == ucode[k - INST_RAM_BASE])
      && (!(INST_RAM_BASE <= k < INST_RAM_BASE + |ucode|) ==>
            (k in after <==> k in regs) && (k in regs ==> after[k] == regs[k]))
    {
      PokeHolds(regs, INST_RAM_BASE, ucode, k);
    }
  }
}
