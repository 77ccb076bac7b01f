/**
 A ring buffer of the A5xx driver: reserving contiguous space in the circular buffer,
 wrapping a command body, and publishing the write pointer.
 */
module Ringbuffer {
  import opened Basics
  import opened Pm4
  import opened Pm4Machine
  import opened Pm4Commands
  import opened Pm4Meaning
  import opened Pm4Emit

  /** KGSL_RB_DWORDS: 32 KiB of words. */
  const RB_DWORDS := 8192

  /** Callers of addcmds ask for far fewer words than would overflow the driver's 32-bit sums. */
  const MAX_REQUEST := 0x4000_0000

  datatype Errno = ENOENT | EPROTO | ENOSPC

  // ---------- Positions ----------

  /** The words between the read pointer and `head`, in the order the CP fetches them. */
  function Between(b: seq<u32>, rptr: nat, head: nat): seq<u32>
    requires |b| == RB_DWORDS && rptr < RB_DWORDS && head < RB_DWORDS
  {
    if rptr <= head then b[rptr..head] else b[rptr..] + b[..head]
  }

  /** `mid` is met on the way from `rptr` to `head`. */
  predicate OnTheWay(rptr: nat, mid: nat, head: nat) {
    if rptr <= head then rptr <= mid <= head else rptr <= mid < RB_DWORDS || mid <= head
  }

  /** n words at `at` are clear of everything unread, and the head cannot catch the read pointer. */
  predicate Free(rptr: nat, at: nat, n: nat) {
    (rptr <= at && at + n <= RB_DWORDS - 2) || at + n < rptr
  }

  /** There is a free run of n words at the head or, after a wrap, at the start of the buffer. */
  predicate Room(rptr: nat, head: nat, n: nat) {
    Free(rptr, head, n) || n < rptr <= head
  }

  /** What a wrap leaves behind: a NOP over the rest of the buffer; nothing without a wrap. */
  predicate IsPad(pad: seq<u32>, wrapped: bool, head: nat)
    requires head < RB_DWORDS
  {
    if wrapped then |pad| == RB_DWORDS - head && pad[0] == Type7(CP_NOP, RB_DWORDS - head - 1)
    else pad == []
  }

  /** A pad is one framed NOP, whatever stale words it covers. */
  lemma PadIsNop(pad: seq<u32>, wrapped: bool, head: nat)
    requires head < RB_DWORDS && IsPad(pad, wrapped, head)
    ensures Parse(pad) == Some(if wrapped then [Pkt7(CP_NOP, pad[1..])] else [])
  {
    if wrapped {
      var p := Pkt7(CP_NOP, pad[1..]);
      assert pad == Encode(p) + [];
      ParseOne(p, []);
      assert [p] + [] == [p];
    }
  }

  /** Writing into a free run leaves the unread words alone and appends to them. */
  lemma AppendIntoFree(b: seq<u32>, b': seq<u32>, rptr: nat, at: nat, n: nat, k: nat)
    requires |b| == |b'| == RB_DWORDS && rptr < RB_DWORDS && k <= n && Free(rptr, at, n)
    requires forall i :: 0 <= i < RB_DWORDS && !(at <= i < at + n) ==> b'[i] == b[i]
    ensures Between(b', rptr, at + k) == Between(b, rptr, at) + b'[at..at + k]
  {
    if rptr <= at {
      assert b'[rptr..at + k] == b'[rptr..at] + b'[at..at + k];
      assert b'[rptr..at] == b[rptr..at];
    } else {
      assert b'[rptr..] == b[rptr..];
      assert b'[..at + k] == b'[..at] + b'[at..at + k];
      assert b'[..at] == b[..at];
      assert b[rptr..] + (b[..at] + b'[at..at + k]) == b[rptr..] + b[..at] + b'[at..at + k];
    }
  }

  /** What lies before a point on the way is a prefix of what lies before the head. */
  lemma OnTheWayIsPrefix(b: seq<u32>, rptr: nat, mid: nat, head: nat)
    requires |b| == RB_DWORDS && rptr < RB_DWORDS && mid < RB_DWORDS && head < RB_DWORDS
    requires OnTheWay(rptr, mid, head)
    ensures Between(b, rptr, mid) <= Between(b, rptr, head)
  {
  }

  // ---------- The ring ----------

  class Ringbuffer {
    const buffer: array<u32>
    const whereAmIAddr: u64   // where the CP reports its read pointer
    var rptr: nat             // the read pointer last reported by the CP
    var pending: nat          // _wptr: end of the words written
    var wptr: nat             // end of the words published
    var timestamp: u32
    ghost var history: seq<u32>  // every word ever written, in order
    ghost var fetched: nat       // how many of them the CP has reported fetched

    ghost predicate Valid()
      reads this, buffer
    {
      && buffer.Length == RB_DWORDS
      && rptr < RB_DWORDS && wptr < RB_DWORDS && pending <= RB_DWORDS - 2
      && OnTheWay(rptr, wptr, pending)
      && fetched <= |history|
      && Between(buffer[..], rptr, pending) == history[fetched..]
    }

    /** The words written and not yet fetched. */
    ghost function Unread(): seq<u32>
      reads this, buffer
      requires Valid()
    {
      Between(buffer[..], rptr, pending)
    }

    /** Those of them that the write pointer covers. */
    ghost function Visible(): (v: seq<u32>)
      reads this, buffer
      requires Valid()
      ensures v <= Unread()
    {
      OnTheWayIsPrefix(buffer[..], rptr, wptr, pending);
      Between(buffer[..], rptr, wptr)
    }

    constructor (whereAmI: u64)
      ensures Valid() && fresh(buffer)
      ensures rptr == 0 && pending == 0 && wptr == 0 && timestamp == 0
      ensures history == [] && fetched == 0 && whereAmIAddr == whereAmI
    {
      buffer := new u32[RB_DWORDS];
      whereAmIAddr := whereAmI;
      rptr, pending, wptr, timestamp := 0, 0, 0, 0;
      history, fetched := [], 0;
    }

    /**
     adreno_ringbuffer_allocspace. On success the caller owns `dwords` words at the returned
     offset: writing them cannot touch anything unread. On failure nothing changes, and it fails
     exactly when there is no free run. All this holds exactly as long as the 32-bit sum of the
     head and the request does not wrap; if it wraps, the call always succeeds and moves the head
     backwards.
     */
    method AllocSpace(dwords: u32) returns (at: Result<nat, Errno>, ghost pad: seq<u32>)
      requires Valid()
      modifies this`pending, this`history, buffer
      ensures old(pending) + dwords < TWO_32 ==> at.Success? == old(Room(rptr, pending, dwords))
      // a run at the head that ends two words short of the buffer's end or before the read pointer,
      // or else one at the start that ends before the read pointer
      ensures old(pending) + dwords < TWO_32 ==>
                (at.Success? <==>
                  || (rptr <= old(pending) && old(pending) + dwords <= 8190)
                  || old(pending) + dwords < rptr
                  || dwords < rptr <= old(pending))
      ensures at.Failure? ==> at.error == ENOSPC && Valid() && unchanged(this) && unchanged(buffer) && pad == []
      ensures at.Success? && old(pending) + dwords < TWO_32 ==>
                && Free(rptr, at.value, dwords) && at.value + dwords <= RB_DWORDS - 2
                && pending == at.value + dwords && wptr < RB_DWORDS && OnTheWay(rptr, wptr, at.value)
                && at.value == (if pad == [] then old(pending) else 0) && IsPad(pad, pad != [], old(pending))
                && (old(Free(rptr, pending, dwords)) ==> pad == [])
                && history == old(history) + pad
                && Between(buffer[..], rptr, at.value) == history[fetched..]
      ensures old(pending) + dwords >= TWO_32 ==>
                && at == Success(old(pending)) && pending == old(pending) + dwords - TWO_32 < old(pending)
                && history == old(history) && unchanged(buffer) && pad == []
    {
      hide Type7;
      pad := [];
      var end := (pending + dwords) % TWO_32;
      if rptr <= pending {
        if end <= RB_DWORDS - 2 {
          at := Success(pending);
          pending := end % RB_DWORDS;
          return;
        }
        if dwords < rptr {
          pad := PadToEnd();
          pending := dwords;
          at := Success(0);
          return;
        }
      }
      if end < rptr {
        at := Success(pending);
        pending := end % RB_DWORDS;
        return;
      }
      at := Failure(ENOSPC);
    }

    /** Covers the rest of the buffer with a NOP, so that the CP skips to its start. */
    method PadToEnd() returns (ghost pad: seq<u32>)
      requires Valid() && 0 < rptr <= pending
      modifies this`history, buffer
      ensures IsPad(pad, true, pending) && history == old(history) + pad
      ensures Between(buffer[..], rptr, 0) == history[fetched..] && fetched <= |history|
    {
      hide Type7;
      ghost var before := buffer[..];
      buffer[pending] := Type7(CP_NOP, RB_DWORDS - pending - 1);
      pad := buffer[pending..];
      history := history + pad;
      assert buffer[..][rptr..] == before[rptr..pending] + pad;
      assert history[fetched..] == old(history)[fetched..] + pad;
    }

    /** The words at [at, pending) have been written: they join the history. */
    ghost method Record(before: seq<u32>, at: nat, n: nat)
      requires buffer.Length == RB_DWORDS == |before| && rptr < RB_DWORDS && wptr < RB_DWORDS
      requires Free(rptr, at, n) && at <= pending <= at + n <= RB_DWORDS - 2 && OnTheWay(rptr, wptr, at)
      requires forall i :: 0 <= i < RB_DWORDS && !(at <= i < at + n) ==> buffer[i] == before[i]
      requires fetched <= |history| && Between(before, rptr, at) == history[fetched..]
      modifies this`history
      ensures Valid() && history == old(history) + buffer[at..pending]
    {
      AppendIntoFree(before, buffer[..], rptr, at, n, pending - at);
      assert buffer[..][at..pending] == buffer[at..pending];
      history := history + buffer[at..pending];
    }

    /** Environment: the CP reports that it has fetched n more of the published words. */
    method Fetched(n: nat)
      requires Valid() && n <= |Visible()|
      modifies this`rptr, this`fetched
      ensures Valid() && fetched == old(fetched) + n
      ensures Unread() == old(Unread())[n..] && Visible() == old(Visible())[n..]
    {
      ghost var words := Unread();
      FetchAdvances(buffer[..], rptr, wptr, pending, n);
      rptr := (rptr + n) % RB_DWORDS;
      fetched := fetched + n;
      assert history[fetched..] == words[n..];
    }

    /**
     a5xx_ringbuffer_submit. `running` says that the preemption state is NONE and this is the
     current ring; `register` is what is written to CP_RB_WPTR.
     */
    method Submit(sync: bool, running: bool)
      returns (err: Option<Errno>, register: Option<nat>, ghost report: seq<u32>)
      requires Valid()
      modifies this`pending, this`wptr, this`history, buffer
      ensures Valid()
      ensures err.Some? == (sync && !old(Room(rptr, pending, 3)))
      ensures err.Some? ==> err == Some(ENOSPC) && register == None && report == []
                            && unchanged(this) && unchanged(buffer)
      ensures err.None? ==> wptr == pending && Visible() == Unread() == history[fetched..]
                            && register == (if running then Some(pending) else None)
      ensures history == old(history) + report
      ensures err.None? ==> IsReport(report, sync, whereAmIAddr)
      ensures old(Free(rptr, pending, 3)) ==> pending == old(pending) + |report| && (!sync || |report| == 3)
    {
      hide IsReport, Free, Room;
      err, register, report := None, None, [];
      if sync {
        err, report := QueueReport();
        if err.Some? {
          return;
        }
      } else {
        NoReport(whereAmIAddr);
      }
      if running {
        register := Some(pending);
      }
      wptr := pending;
    }

    /** Asks the CP to report its read pointer once it gets here. */
    method QueueReport() returns (err: Option<Errno>, ghost report: seq<u32>)
      requires Valid()
      modifies this`pending, this`history, buffer
      ensures Valid() && history == old(history) + report
      ensures err.Some? == !old(Room(rptr, pending, 3))
      ensures err.Some? ==> err == Some(ENOSPC) && unchanged(this) && unchanged(buffer) && report == []
      ensures err.None? ==> IsReport(report, true, whereAmIAddr)
      ensures old(Free(rptr, pending, 3)) ==> pending == old(pending) + |report| && |report| == 3
    {
      hide Encode, IsReport, Parse, IsPad, Between, OnTheWay, Free, Room, Type7;
      RoomIfFree(rptr, pending, 3);
      var at, pad := AllocSpace(3);
      if at.Failure? {
        return Some(at.error), [];
      }
      ghost var words := WriteReport(at.value, pad, old(pending));
      report := pad + words;
      err := None;
    }

    /** The report's packet, in the words reserved for it. */
    method WriteReport(at: nat, ghost pad: seq<u32>, ghost head: nat) returns (ghost words: seq<u32>)
      requires buffer.Length == RB_DWORDS && rptr < RB_DWORDS && wptr < RB_DWORDS && head < RB_DWORDS
      requires Free(rptr, at, 3) && pending == at + 3 <= RB_DWORDS - 2 && OnTheWay(rptr, wptr, at)
      requires fetched <= |history| && Between(buffer[..], rptr, at) == history[fetched..]
      requires IsPad(pad, pad != [], head)
      modifies this`history, buffer
      ensures Valid() && history == old(history) + words && |words| == 3
      ensures IsReport(pad + words, true, whereAmIAddr)
    {
      hide Encode, IsReport, Parse, IsPad, Between, OnTheWay, Free, Type7;
      ghost var before := buffer[..];
      var end := Put(buffer, at, at, WhereAmI(whereAmIAddr));
      Record(before, at, 3);
      words := buffer[at..end];
      ReportIs(pad, pad != [], head, words, whereAmIAddr);
    }

    /**
     a5xx_ringbuffer_addcmds. The timestamp is consumed even when there is no room. A call that
     succeeds always publishes everything: the wrapper leaves at least three of the words reserved
     for it unused, so the read-pointer report that follows always finds room.
     */
    method AddCmds(request: Submit, fault: bool, input: seq<u32>, sequence: u32, running: bool)
      returns (err: Option<Errno>, sequence': u32, register: Option<nat>, ghost pad: seq<u32>, ghost report: seq<u32>)
      requires Valid() && |input| <= MAX_REQUEST - SUBMIT_MAX
      modifies this`pending, this`wptr, this`history, this`timestamp, buffer
      ensures Valid()
      ensures err == (if request.context.Some? && request.context.value.detached then Some(ENOENT)
                      else if fault then Some(EPROTO)
                      else if old(Room(rptr, pending, SUBMIT_MAX + |input|)) then None else Some(ENOSPC))
      ensures timestamp == if err == Some(ENOENT) || err == Some(EPROTO) then old(timestamp)
                           else if old(timestamp) == 0xFFFF_FFFF then 0 else old(timestamp) + 1
      ensures err.Some? ==> history == old(history) && pending == old(pending) && wptr == old(wptr)
                            && unchanged(buffer) && sequence' == sequence && register == None
      ensures err.None? ==>
                && sequence' == (if sequence == 0xFFFF_FFFF then 0 else sequence + 1)
                && IsPad(pad, pad != [], old(pending)) && IsReport(report, !request.preemption, whereAmIAddr)
                && history == old(history) + pad + WrappedWords(Stamped(request, timestamp, sequence'), input) + report
                && pending == (if pad == [] then old(pending) else 0)
                              + |WrappedWords(Stamped(request, timestamp, sequence'), input)| + |report|
                && (old(Free(rptr, pending, SUBMIT_MAX + |input|)) ==> pad == [])
                && (request.preemption || |report| == 3)
                && wptr == pending && Visible() == Unread() == history[fetched..]
                && register == (if running then Some(pending) else None)
    {
      hide EncodeAll, Type7, IsReport, Between, WrappedWords, IsPad, OnTheWay, Free, Room;
      pad, report, sequence', register := [], [], sequence, None;
      if request.context.Some? && request.context.value.detached {
        err := Some(ENOENT);
        return;
      }
      if fault {
        err := Some(EPROTO);
        return;
      }
      timestamp := Next(timestamp);
      var size := SUBMIT_MAX + |input|;
      var at, filler := AllocSpace(size);
      if at.Failure? {
        err := Some(at.error);
        return;
      }
      pad := filler;
      sequence' := Next(sequence);
      ghost var before := buffer[..];
      var s := Stamped(request, timestamp, sequence');
      var next := EmitWrapped(buffer, at.value, s, input);
      pending := pending - (size - (next - at.value));
      Record(before, at.value, size);
      WrappedIsSmall(s, input);
      FreeBehind(rptr, at.value, size, pending);
      var status;
      status, register, report := Submit(!request.preemption, running);
      err := None;
    }
  }

  lemma RoomIfFree(rptr: nat, head: nat, n: nat)
    ensures Free(rptr, head, n) ==> Room(rptr, head, n)
  {
  }

  /** What is handed back of a free run is free behind what was used of it. */
  lemma FreeBehind(rptr: nat, at: nat, size: nat, end: nat)
    requires Free(rptr, at, size) && at <= end && end + 3 <= at + size
    ensures Free(rptr, end, 3) && Room(rptr, end, 3)
  {
  }

  /** The wrapper takes three words less than the driver reserves for it. */
  lemma WrappedIsSmall(s: Submit, input: seq<u32>)
    ensures |WrappedWords(s, input)| <= SUBMIT_MAX - 3 + |input|
  {
    hide EncodeAll, Prologue, Epilogue, Size;
    WrapperFits(s);
    SizeOfEncoding(Prologue(s));
    SizeOfEncoding(Epilogue(s));
    SizeOfPrologue(s);
    SizeOfEpilogue(s);
  }

  function Next(x: u32): u32 { (x + 1) % 0x1_0000_0000 }

  /** The request with the numbers addcmds draws for it. */
  function Stamped(s: Submit, timestamp: u32, sequence: u32): Submit {
    s.(rbTimestamp := timestamp, sequence := sequence)
  }

  function WhereAmI(addr: u64): Packet { Pkt7(CP_WHERE_AM_I, [Lo(addr), Hi(addr)]) }

  /** What submit appends: nothing, or a request to report the read pointer, maybe after a NOP. */
  ghost predicate IsReport(report: seq<u32>, sync: bool, addr: u64) {
    if sync then
      exists nops: seq<Packet> {:trigger Parse(report) == Some(nops + [WhereAmI(addr)])} ::
        Nops(nops) && Parse(report) == Some(nops + [WhereAmI(addr)])
    else report == []
  }

  lemma NoReport(addr: u64)
    ensures IsReport([], false, addr)
  {
  }

  predicate Nops(ps: seq<Packet>) {
    forall i :: 0 <= i < |ps| ==> ps[i].Pkt7? && ps[i].op == CP_NOP
  }

  lemma ReportIs(pad: seq<u32>, wrapped: bool, head: nat, words: seq<u32>, addr: u64)
    requires head < RB_DWORDS && IsPad(pad, wrapped, head)
    requires words == Encode(WhereAmI(addr))
    ensures IsReport(pad + words, true, addr)
  {
    hide Parse, Encode;
    var p := WhereAmI(addr);
    PadIsNop(pad, wrapped, head);
    ParseOne(p, []);
    assert Encode(p) + [] == Encode(p);
    ParseNothing([]);
    assert [p] + [] == [p];
    ParseConcat(pad, words);
    var nops := Parse(pad).value;
    assert Nops(nops) && Parse(pad + words) == Some(nops + [p]);
  }

  lemma BetweenAdvances(b: seq<u32>, rptr: nat, head: nat, n: nat)
    requires |b| == RB_DWORDS && rptr < RB_DWORDS && head < RB_DWORDS && n <= |Between(b, rptr, head)|
    ensures Between(b, (rptr + n) % RB_DWORDS, head) == Between(b, rptr, head)[n..]
  {
    if rptr > head && n >= RB_DWORDS - rptr {
      assert (rptr + n) % RB_DWORDS == rptr + n - RB_DWORDS;
    } else {
      assert (rptr + n) % RB_DWORDS == rptr + n;
    }
  }

  /** Fetching within the published words moves the read pointer along the same path. */
  lemma FetchAdvances(b: seq<u32>, rptr: nat, wptr: nat, head: nat, n: nat)
    requires |b| == RB_DWORDS && rptr < RB_DWORDS && wptr < RB_DWORDS && head < RB_DWORDS
    requires OnTheWay(rptr, wptr, head) && n <= |Between(b, rptr, wptr)|
    ensures var r := (rptr + n) % RB_DWORDS;
      && OnTheWay(r, wptr, head)
      && Between(b, r, head) == Between(b, rptr, head)[n..]
      && Between(b, r, wptr) == Between(b, rptr, wptr)[n..]
  {
    BetweenAdvances(b, rptr, wptr, n);
    OnTheWayIsPrefix(b, rptr, wptr, head);
    BetweenAdvances(b, rptr, head, n);
  }

  // ---------- What the CP makes of everything a ring was ever given ----------

  /** The ring's whole history is framed and leaves the CP in kernel mode. */
  predicate Sane(h: seq<u32>) {
    Parse(h).Some? && ModeAfter(KERNEL_MODE, Parse(h).value) == KERNEL_MODE
  }

  /** What the CP does when it runs a sane history. */
  function Meaning(h: seq<u32>): seq<Did> {
    if Sane(h) then Log(KERNEL_MODE, Parse(h).value) else []
  }

  lemma SaneConcat(a: seq<u32>, b: seq<u32>)
    requires Sane(a) && Sane(b)
    ensures Sane(a + b) && Meaning(a + b) == Meaning(a) + Meaning(b)
  {
    hide Parse, ModeAfter, Log;
    ParseConcat(a, b);
    RunConcat(KERNEL_MODE, Parse(a).value, Parse(b).value);
  }

  lemma {:induction false} NopsRun(m: Mode, ps: seq<Packet>)
    requires Nops(ps)
    ensures ModeAfter(m, ps) == m && Log(m, ps) == []
  {
    if ps != [] {
      NopsRun(m, ps[1..]);
    }
  }

  lemma PadMeansNothing(pad: seq<u32>, wrapped: bool, head: nat)
    requires head < RB_DWORDS && IsPad(pad, wrapped, head)
    ensures Sane(pad) && Meaning(pad) == []
  {
    hide Parse, ModeAfter, Log;
    PadIsNop(pad, wrapped, head);
    NopsRun(KERNEL_MODE, Parse(pad).value);
  }

  lemma ReportMeaning(report: seq<u32>, sync: bool, addr: u64)
    requires IsReport(report, sync, addr)
    ensures Sane(report)
    ensures Meaning(report) == IfDid(sync, Did(Other(CP_WHERE_AM_I, [Lo(addr), Hi(addr)]), KERNEL_MODE))
  {
    if sync {
      var w := WhereAmI(addr);
      var nops :| Nops(nops) && Parse(report) == Some(nops + [w]);
      RunOne(KERNEL_MODE, w);
      hide Parse, ModeAfter, Log;
      NopsRun(KERNEL_MODE, nops);
      RunConcat(KERNEL_MODE, nops, [w]);
    }
  }

  /** A wrapped body is framed whenever the body is, and means what WrappedRuns says. */
  lemma WrappedMeaning(s: Submit, input: seq<u32>)
    requires Parse(input).Some? && Neutral(Parse(input).value)
    ensures Sane(WrappedWords(s, input))
    ensures Parse(WrappedWords(s, input)) == Some(Wrapped(s, Parse(input).value))
    ensures Meaning(WrappedWords(s, input)) ==
      Concat(LogsBefore(s)) + Log(BodyMode(s), Parse(input).value) + Concat(LogsAfter(s))
  {
    hide Parse, ModeAfter, Log, EncodeAll, Prologue, Epilogue;
    var body := Parse(input).value;
    WrapperFits(s);
    RoundTrip(Prologue(s));
    RoundTrip(Epilogue(s));
    ParseConcat(EncodeAll(Prologue(s)), input);
    ParseConcat(EncodeAll(Prologue(s)) + input, EncodeAll(Epilogue(s)));
    WrappedRuns(s, body);
  }

  /**
   One successful call of AddCmds, read together with everything before it: the ring stays framed,
   the CP is back in kernel mode at its end, and what it did meanwhile is exactly the wrapper
   around the body, whether or not the ring wrapped around.
   */
  lemma AppendedMeaning(h: seq<u32>, pad: seq<u32>, head: nat, s: Submit, input: seq<u32>,
                        report: seq<u32>, sync: bool, addr: u64)
    requires Sane(h) && head < RB_DWORDS && IsPad(pad, pad != [], head)
    requires Parse(input).Some? && Neutral(Parse(input).value) && IsReport(report, sync, addr)
    ensures Sane(h + pad + WrappedWords(s, input) + report)
    ensures Meaning(h + pad + WrappedWords(s, input) + report) ==
      Meaning(h)
      + (Concat(LogsBefore(s)) + Log(BodyMode(s), Parse(input).value) + Concat(LogsAfter(s)))
      + IfDid(sync, Did(Other(CP_WHERE_AM_I, [Lo(addr), Hi(addr)]), KERNEL_MODE))
  {
    hide Sane, Meaning, IsPad, IsReport, Parse, Log, WrappedWords, Concat;
    PadMeansNothing(pad, pad != [], head);
    WrappedMeaning(s, input);
    ReportMeaning(report, sync, addr);
    SaneConcat(h, pad);
    SaneConcat(h + pad, WrappedWords(s, input));
    SaneConcat(h + pad + WrappedWords(s, input), report);
  }

  /**
   Between `before` and `after` the CP was given one submission numbered `timestamp` and `sequence`:
   it stores the number when it starts, signals it when it is done, and stores the marker.
   */
  ghost predicate Numbered(before: seq<Did>, after: seq<Did>, s: Submit, timestamp: u32, sequence: u32) {
    && before <= after
    && var added := after[|before|..];
    && Did(MemWrite(s.rbSoptimestamp, [timestamp]), Mode(true, false)) in added
    && Did(Stamp(if s.context.Some? then 4 else 0x8000_0004, s.rbEoptimestamp, timestamp), Mode(true, s.secure)) in added
    && Did(MemWrite(s.refWaitTs, [sequence]), Mode(true, s.secure)) in added
  }

  lemma AddedIn(h: seq<Did>, before: seq<Did>, during: seq<Did>, after: seq<Did>, report: seq<Did>)
    ensures var h' := h + (before + during + after) + report;
      && h <= h'
      && (forall d :: d in before || d in after ==> d in h'[|h|..])
  {
    var h' := h + (before + during + after) + report;
    assert h'[|h|..] == before + during + after + report;
  }

  /** A successful call of AddCmds numbers its submission with the request's own numbers. */
  lemma AppendedNumbers(h: seq<u32>, pad: seq<u32>, head: nat, s: Submit, input: seq<u32>,
                        report: seq<u32>, sync: bool, addr: u64)
    requires Sane(h) && head < RB_DWORDS && IsPad(pad, pad != [], head)
    requires Parse(input).Some? && Neutral(Parse(input).value) && IsReport(report, sync, addr)
    ensures var h' := h + pad + WrappedWords(s, input) + report;
      Sane(h') && Numbered(Meaning(h), Meaning(h'), s, s.rbTimestamp, s.sequence)
  {
    hide Sane, Meaning, IsPad, IsReport, Parse, Log, WrappedWords, Concat, LogsBefore, LogsAfter, Neutral, IfDid;
    AppendedMeaning(h, pad, head, s, input, report, sync, addr);
    StampsFrameTheBody(s);
    AddedIn(Meaning(h), Concat(LogsBefore(s)), Log(BodyMode(s), Parse(input).value), Concat(LogsAfter(s)),
            IfDid(sync, Did(Other(CP_WHERE_AM_I, [Lo(addr), Hi(addr)]), KERNEL_MODE)));
  }

  /** Numbering in a later part of what was given is numbering in all of it. */
  lemma NumberedLater(a: seq<Did>, b: seq<Did>, c: seq<Did>, s: Submit, timestamp: u32, sequence: u32)
    requires a <= b && Numbered(b, c, s, timestamp, sequence)
    ensures Numbered(a, c, s, timestamp, sequence)
  {
    forall d | d in c[|b|..] ensures d in c[|a|..] {
      assert c[|a|..] == c[|a|..|b|] + c[|b|..];
    }
  }
}
