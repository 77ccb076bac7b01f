/** The table of the processes with the most GPU faults, kept sorted by add_proc_fault_list. */
module FaultTable {
  import opened Basics

  const SLOTS := 10
  const U32_MAX := 0xFFFF_FFFF

  datatype Entry = Entry(comm: string, count: u32)

  type Table = t: seq<Entry> | |t| == SLOTS witness seq(SLOTS, _ => Entry("", 0))

  const EMPTY: Table := seq(SLOTS, _ => Entry("", 0))

  /** The count after one more fault; it wraps around. */
  function Inc(x: u32): (y: u32)
    ensures x < U32_MAX ==> y == x + 1
    ensures x == U32_MAX ==> y == 0
  {
    (x + 1) % 0x1_0000_0000
  }

  // ---------- One fault ----------

  /** The rightmost entry below n with this name, or -1. */
  function RightmostMatch(t: Table, comm: string, n: nat): (i: int)
    requires n <= SLOTS
    ensures -1 <= i < n
    ensures i >= 0 ==> t[i].comm == comm
    ensures forall k :: i < k < n ==> t[k].comm != comm
  {
    if n == 0 then -1 else if t[n - 1].comm == comm then n - 1 else RightmostMatch(t, comm, n - 1)
  }

  /** The leftmost entry at i or later, but before n, with a lower count; n if there is none. */
  function LeftmostBelow(t: Table, count: u32, i: nat, n: nat): (j: nat)
    requires i <= n <= SLOTS
    ensures i <= j <= n
    ensures j < n ==> t[j].count < count
    ensures forall k :: i <= k < j ==> t[k].count >= count
    decreases n - i
  {
    if i == n || t[i].count < count then i else LeftmostBelow(t, count, i + 1, n)
  }

  /** The table and the process's own count after one more fault of a process. */
  function AfterFault(t: Table, comm: string, own: u32): (r: (Table, u32)) {
    var i := RightmostMatch(t, comm, SLOTS);
    if i >= 0 then
      var count := Inc(t[i].count);
      var j := LeftmostBelow(t, count, 0, i);
      (if j == i then t[i := Entry(comm, count)] else t[i := t[j]][j := Entry(comm, count)], count)
    else
      var j := LeftmostBelow(t, Inc(own), 0, SLOTS);
      (if j < SLOTS then t[j := Entry(comm, Inc(own))] else t, Inc(own))
  }

  class Process {
    const comm: string
    var faultCount: u32

    constructor (comm: string)
      ensures this.comm == comm && faultCount == 0
    {
      this.comm, faultCount := comm, 0;
    }
  }

  class FaultStats {
    const procs: array<Entry>

    ghost predicate Valid() { procs.Length == SLOTS }

    constructor ()
      ensures Valid() && fresh(procs) && procs[..] == EMPTY
    {
      procs := new Entry[SLOTS](_ => Entry("", 0));
    }

    /** The downward scan: stops at the first match, else remembers the leftmost lower count. */
    method Scan(comm: string, own: u32) returns (cur: int, lower: int)
      requires Valid()
      ensures cur == RightmostMatch(procs[..], comm, SLOTS)
      ensures cur < 0 ==> -1 <= lower < SLOTS
      ensures cur < 0 ==> (if lower < 0 then forall k :: 0 <= k < SLOTS ==> procs[k].count >= own
                           else procs[lower].count < own && forall k :: 0 <= k < lower ==> procs[k].count >= own)
    {
      cur, lower := -1, -1;
      var i := SLOTS - 1;
      while i >= 0
        invariant -1 <= i < SLOTS && cur == -1
        invariant RightmostMatch(procs[..], comm, SLOTS) == RightmostMatch(procs[..], comm, i + 1)
        invariant -1 <= lower < SLOTS && (lower >= 0 ==> i < lower && procs[lower].count < own)
        invariant forall k :: i < k < (if lower < 0 then SLOTS else lower) ==> procs[k].count >= own
      {
        if procs[i].comm == comm {
          cur := i;
          return;
        }
        if procs[i].count < own {
          lower := i;
        }
        i := i - 1;
      }
    }

    /** add_proc_fault_list */
    method AddProcFault(p: Process)
      requires Valid()
      modifies p`faultCount, procs
      ensures (procs[..], p.faultCount) == AfterFault(old(procs[..]), p.comm, old(p.faultCount))
    {
      ghost var before: Table := procs[..];
      ghost var own := p.faultCount;
      p.faultCount := Inc(p.faultCount);
      var cur, at := Scan(p.comm, p.faultCount);
      if cur < 0 {
        LeftmostIs(before, Inc(own), SLOTS, if at < 0 then SLOTS else at);
        if at >= 0 {
          procs[at] := Entry(p.comm, p.faultCount);
          assert procs[..] == before[at := Entry(p.comm, p.faultCount)];
        }
        return;
      }
      procs[cur] := Entry(procs[cur].comm, Inc(procs[cur].count));
      p.faultCount := procs[cur].count;
      at := 0;
      while at < cur && procs[at].count >= p.faultCount
        invariant 0 <= at <= cur
        invariant forall k :: 0 <= k < at ==> before[k].count >= p.faultCount
      {
        at := at + 1;
      }
      LeftmostIs(before, p.faultCount, cur, at);
      if at == cur {
        assert procs[..] == before[cur := Entry(p.comm, p.faultCount)];
        return;
      }
      procs[cur] := procs[at];
      procs[at] := Entry(p.comm, p.faultCount);
      assert procs[..] == before[cur := before[at]][at := Entry(p.comm, p.faultCount)];
    }
  }

  lemma LeftmostIs(t: Table, count: u32, n: nat, j: nat)
    requires j <= n <= SLOTS && (j < n ==> t[j].count < count)
    requires forall k :: 0 <= k < j ==> t[k].count >= count
    ensures LeftmostBelow(t, count, 0, n) == j
  {
  }

  // ---------- What one fault keeps ----------

  predicate Sorted(t: Table) {
    forall i, j :: 0 <= i < j < SLOTS ==> t[i].count >= t[j].count
  }

  /** Free entries have no name. */
  predicate FreeAreNameless(t: Table) {
    forall i :: 0 <= i < SLOTS && t[i].count == 0 ==> t[i].comm == ""
  }

  predicate Distinct(t: Table) {
    forall i, j :: 0 <= i < j < SLOTS && t[i].count > 0 && t[j].count > 0 ==> t[i].comm != t[j].comm
  }

  predicate Tracked(t: Table, comm: string) {
    exists i :: 0 <= i < SLOTS && t[i].count > 0 && t[i].comm == comm
  }

  /** No count is about to wrap around. */
  predicate NoWrap(t: Table, own: u32) {
    own < U32_MAX && forall i :: 0 <= i < SLOTS ==> t[i].count < U32_MAX
  }

  /** Entries at least as high come first, and swapping equals keeps the order. */
  lemma TrackedShape(t: Table, comm: string, own: u32)
    requires Sorted(t) && NoWrap(t, own) && RightmostMatch(t, comm, SLOTS) >= 0
    ensures var i := RightmostMatch(t, comm, SLOTS); var c := t[i].count;
            var j := LeftmostBelow(t, Inc(c), 0, i);
      && j <= i && t[j].count == c && (forall k :: 0 <= k < j ==> t[k].count > c)
      && AfterFault(t, comm, own) == (t[i := t[j]][j := Entry(comm, c + 1)], c + 1)
  {
    var i := RightmostMatch(t, comm, SLOTS);
    var j := LeftmostBelow(t, Inc(t[i].count), 0, i);
    assert j == i ==> t[i := Entry(comm, t[i].count + 1)] == t[i := t[j]][j := Entry(comm, t[i].count + 1)];
  }

  /** Replacing the leftmost lower entry, or raising one entry among its equals. */
  predicate Raised(t: Table, t': Table, j: nat, count: u32) {
    && j < SLOTS && t'[j].count == count > t[j].count
    && (forall k :: 0 <= k < SLOTS && k != j ==> t'[k].count == t[k].count)
    && (forall k :: 0 <= k < j ==> t[k].count >= count)
  }

  lemma RaisedKeepsOrder(t: Table, t': Table, j: nat, count: u32)
    requires Sorted(t) && Raised(t, t', j, count)
    ensures Sorted(t') && t'[0].count >= count
  {
  }

  lemma FaultRaises(t: Table, comm: string, own: u32) returns (j: nat)
    requires Sorted(t) && NoWrap(t, own)
    ensures var (t', own') := AfterFault(t, comm, own);
      if j < SLOTS then Raised(t, t', j, own') else t' == t && forall k :: 0 <= k < SLOTS ==> t[k].count >= own'
    ensures RightmostMatch(t, comm, SLOTS) >= 0 ==> j < SLOTS && AfterFault(t, comm, own).1 == t[j].count + 1
  {
    var i := RightmostMatch(t, comm, SLOTS);
    if i >= 0 {
      TrackedShape(t, comm, own);
      j := LeftmostBelow(t, Inc(t[i].count), 0, i);
    } else {
      j := LeftmostBelow(t, Inc(own), 0, SLOTS);
    }
  }

  /**
   A fault keeps the table sorted and raises one count at most, by exactly one if the process is
   tracked; no count falls; the head ends up at least as high as the process's own count.
   */
  lemma FaultKeepsOrder(t: Table, comm: string, own: u32)
    requires Sorted(t) && NoWrap(t, own)
    ensures var (t', own') := AfterFault(t, comm, own);
      && Sorted(t') && t'[0].count >= own'
      && (forall k :: 0 <= k < SLOTS ==> t[k].count <= t'[k].count)
      && (forall k, l :: 0 <= k < l < SLOTS ==> t'[k].count == t[k].count || t'[l].count == t[l].count)
      && (RightmostMatch(t, comm, SLOTS) >= 0 ==>
            forall k :: 0 <= k < SLOTS ==> t'[k].count <= t[k].count + 1)
  {
    hide AfterFault, NoWrap;
    var j := FaultRaises(t, comm, own);
    if j < SLOTS {
      RaisedKeepsOrder(t, AfterFault(t, comm, own).0, j, AfterFault(t, comm, own).1);
    }
  }

  lemma FaultKeepsFreeNameless(t: Table, comm: string, own: u32)
    requires Sorted(t) && FreeAreNameless(t) && NoWrap(t, own)
    ensures FreeAreNameless(AfterFault(t, comm, own).0)
  {
    if RightmostMatch(t, comm, SLOTS) >= 0 {
      TrackedShape(t, comm, own);
    }
  }

  /**
   Names stay distinct unless the process's name is empty, an entry with the empty name is already
   occupied and the last entry is still free: a free entry is then mistaken for the process's own.
   */
  lemma DistinctIff(t: Table, comm: string, own: u32)
    requires Sorted(t) && FreeAreNameless(t) && Distinct(t) && NoWrap(t, own)
    ensures Distinct(AfterFault(t, comm, own).0) <==>
      !(comm == "" && t[SLOTS - 1].count == 0 && Tracked(t, ""))
  {
    if comm == "" && t[SLOTS - 1].count == 0 {
      FreeMatch(t, own);
    } else {
      OtherMatch(t, comm, own);
    }
  }

  lemma FreeMatch(t: Table, own: u32)
    requires Sorted(t) && FreeAreNameless(t) && Distinct(t) && NoWrap(t, own) && t[SLOTS - 1].count == 0
    ensures Distinct(AfterFault(t, "", own).0) <==> !Tracked(t, "")
  {
    var t' := AfterFault(t, "", own).0;
    TrackedShape(t, "", own);
    var i := SLOTS - 1;
    assert RightmostMatch(t, "", SLOTS) == i;
    var j := LeftmostBelow(t, Inc(t[i].count), 0, i);
    assert forall k :: 0 <= k < j ==> t'[k] == t[k] && t[k].count > 0;
    assert forall k :: j < k < SLOTS ==> t'[k].count == 0;
    if Tracked(t, "") {
      var k :| 0 <= k < SLOTS && t[k].count > 0 && t[k].comm == "";
      assert k < j && t'[k] == t[k] && t'[j].comm == "";
    }
  }

  lemma OtherMatch(t: Table, comm: string, own: u32)
    requires Sorted(t) && FreeAreNameless(t) && Distinct(t) && NoWrap(t, own)
    requires comm != "" || t[SLOTS - 1].count > 0
    ensures Distinct(AfterFault(t, comm, own).0)
  {
    var i := RightmostMatch(t, comm, SLOTS);
    if i >= 0 {
      TrackedShape(t, comm, own);
      assert t[i].count > 0;
    }
  }

  /** The condition is met: with an empty name, two faults already leave two entries for it. */
  lemma TwoEntriesForTheEmptyName()
    ensures var (t, own) := AfterFault(EMPTY, "", 0); var (t', own') := AfterFault(t, "", own);
      && t'[0] == Entry("", 1) && t'[1] == Entry("", 1) && own' == 1
  {
    var (t, own) := AfterFault(EMPTY, "", 0);
    TrackedShape(EMPTY, "", 0);
    assert t[0] == Entry("", 1) && t[1] == Entry("", 0);
    TrackedShape(t, "", own);
  }

  // ---------- Whole histories ----------

  /** The table and every process's own count. */
  datatype Stats = Stats(table: Table, own: seq<u32>)

  predicate Known(names: seq<string>, faults: seq<nat>) {
    forall i :: 0 <= i < |faults| ==> faults[i] < |names|
  }

  /** names[p] is the name of process p; faults lists the faulting processes in order. */
  function StatsAfter(names: seq<string>, faults: seq<nat>): (s: Stats)
    requires Known(names, faults)
    ensures |s.own| == |names|
  {
    if faults == [] then Stats(EMPTY, seq(|names|, _ => 0))
    else
      var s := StatsAfter(names, faults[..|faults| - 1]);
      var p := faults[|faults| - 1];
      var (t, own) := AfterFault(s.table, names[p], s.own[p]);
      Stats(t, s.own[p := own])
  }

  /** The true number of faults of all processes with a name. */
  function Total(names: seq<string>, faults: seq<nat>, name: string): (n: nat)
    requires Known(names, faults)
    ensures n <= |faults|
  {
    if faults == [] then 0
    else Total(names, faults[..|faults| - 1], name) + (if names[faults[|faults| - 1]] == name then 1 else 0)
  }

  predicate Sound(names: seq<string>, faults: seq<nat>, s: Stats)
    requires Known(names, faults)
  {
    && Sorted(s.table) && FreeAreNameless(s.table) && |s.own| == |names|
    && (forall k :: 0 <= k < SLOTS ==> s.table[k].count <= Total(names, faults, s.table[k].comm))
    && (forall p :: 0 <= p < |names| ==> s.own[p] <= Total(names, faults, names[p]) && s.own[p] <= s.table[0].count)
  }

  /** Where an entry of the new table comes from. */
  lemma EntryOrigin(t: Table, comm: string, own: u32, k: nat)
    requires Sorted(t) && NoWrap(t, own) && k < SLOTS
    ensures var (t', own') := AfterFault(t, comm, own);
      t'[k] == Entry(comm, own') || (exists l :: 0 <= l < SLOTS && t[l] == t'[k])
    ensures AfterFault(t, comm, own).1 == own + 1
            || (exists l :: 0 <= l < SLOTS && t[l].comm == comm && AfterFault(t, comm, own).1 == t[l].count + 1)
  {
    var i := RightmostMatch(t, comm, SLOTS);
    if i >= 0 {
      TrackedShape(t, comm, own);
    }
  }

  lemma NoWrapYet(names: seq<string>, faults: seq<nat>, s: Stats, p: nat)
    requires Known(names, faults) && Sound(names, faults, s) && p < |names| && |faults| < U32_MAX
    ensures NoWrap(s.table, s.own[p])
  {
  }

  lemma OneMore(names: seq<string>, faults: seq<nat>, p: nat, name: string)
    requires Known(names, faults) && p < |names|
    ensures Known(names, faults + [p])
    ensures Total(names, faults + [p], name) == Total(names, faults, name) + (if names[p] == name then 1 else 0)
  {
    assert (faults + [p])[..|faults|] == faults;
  }

  lemma CountsStayTrue(names: seq<string>, faults: seq<nat>, s: Stats, p: nat, k: nat)
    requires Known(names, faults) && Sound(names, faults, s) && p < |names| && |faults| < U32_MAX && k < SLOTS
    ensures Known(names, faults + [p])
    ensures var (t, own) := AfterFault(s.table, names[p], s.own[p]);
      t[k].count <= Total(names, faults + [p], t[k].comm) && own <= Total(names, faults + [p], names[p])
  {
    NoWrapYet(names, faults, s, p);
    EntryOrigin(s.table, names[p], s.own[p], k);
    OneMore(names, faults, p, names[p]);
    hide AfterFault, Total, NoWrap, Sorted, FreeAreNameless;
    var t := AfterFault(s.table, names[p], s.own[p]).0;
    OneMore(names, faults, p, t[k].comm);
  }

  lemma FaultKeepsSound(names: seq<string>, faults: seq<nat>, s: Stats, p: nat)
    requires Known(names, faults) && Sound(names, faults, s) && p < |names| && |faults| < U32_MAX
    ensures Known(names, faults + [p])
    ensures var (t, own) := AfterFault(s.table, names[p], s.own[p]);
      Sound(names, faults + [p], Stats(t, s.own[p := own]))
  {
    NoWrapYet(names, faults, s, p);
    FaultKeepsOrder(s.table, names[p], s.own[p]);
    FaultKeepsFreeNameless(s.table, names[p], s.own[p]);
    hide AfterFault, Total, NoWrap, Sorted, FreeAreNameless;
    var (t, own) := AfterFault(s.table, names[p], s.own[p]);
    forall k | 0 <= k < SLOTS
      ensures t[k].count <= Total(names, faults + [p], t[k].comm) && own <= Total(names, faults + [p], names[p])
    {
      CountsStayTrue(names, faults, s, p, k);
    }
    forall q | 0 <= q < |names| ensures Total(names, faults, names[q]) <= Total(names, faults + [p], names[q]) {
      OneMore(names, faults, p, names[q]);
    }
    assert t[0].count >= s.table[0].count && own <= Total(names, faults + [p], names[p]);
  }

  /**
   Every history: the table is sorted, no entry exceeds the true number of faults of its name, and
   neither does any process's own count, which the head of the table always reaches.
   */
  lemma {:induction false} EveryHistoryIsSound(names: seq<string>, faults: seq<nat>)
    requires Known(names, faults) && |faults| <= U32_MAX
    ensures Sound(names, faults, StatsAfter(names, faults))
  {
    if faults != [] {
      var earlier := faults[..|faults| - 1];
      EveryHistoryIsSound(names, earlier);
      FaultKeepsSound(names, earlier, StatsAfter(names, earlier), faults[|faults| - 1]);
      assert earlier + [faults[|faults| - 1]] == faults;
    }
  }

  /** When no process has an empty name, the occupied entries always have distinct names. */
  lemma {:induction false} EveryHistoryIsDistinct(names: seq<string>, faults: seq<nat>)
    requires Known(names, faults) && |faults| <= U32_MAX && "" !in names
    ensures Distinct(StatsAfter(names, faults).table)
  {
    if faults != [] {
      var earlier, p := faults[..|faults| - 1], faults[|faults| - 1];
      var s := StatsAfter(names, earlier);
      EveryHistoryIsDistinct(names, earlier);
      EveryHistoryIsSound(names, earlier);
      NoWrapYet(names, earlier, s, p);
      assert names[p] in names;
      DistinctIff(s.table, names[p], s.own[p]);
    }
  }

  // ---------- Small populations are counted exactly ----------

  /** The names that have faulted. */
  function Faulted(names: seq<string>, faults: seq<nat>): set<string>
    requires Known(names, faults)
  {
    set i | 0 <= i < |faults| :: names[faults[i]]
  }

  /** Every name that faulted has an entry, with its true count. */
  predicate Exact(names: seq<string>, faults: seq<nat>, t: Table)
    requires Known(names, faults)
  {
    && (forall k :: 0 <= k < SLOTS && t[k].count > 0 ==>
          t[k].count == Total(names, faults, t[k].comm) && t[k].comm in Faulted(names, faults))
    && (forall n :: n in Faulted(names, faults) ==> Tracked(t, n))
  }

  /** The names of the first n entries. */
  function Names(t: Table, n: nat): set<string>
    requires n <= SLOTS
  {
    if n == 0 then {} else Names(t, n - 1) + {t[n - 1].comm}
  }

  lemma {:induction false} NamesAre(t: Table, n: nat, name: string)
    requires n <= SLOTS
    ensures name in Names(t, n) <==> exists k :: 0 <= k < n && t[k].comm == name
  {
    if n > 0 {
      NamesAre(t, n - 1, name);
    }
  }

  lemma {:induction false} DistinctNamesCount(t: Table, n: nat)
    requires n <= SLOTS && Distinct(t) && forall k :: 0 <= k < n ==> t[k].count > 0
    ensures |Names(t, n)| == n
  {
    if n > 0 {
      DistinctNamesCount(t, n - 1);
      NamesAre(t, n - 1, t[n - 1].comm);
    }
  }

  /** A name without an entry finds a free one while no more than ten names have faulted. */
  lemma RoomForOneMore(names: seq<string>, faults: seq<nat>, t: Table, name: string)
    requires Known(names, faults) && Exact(names, faults, t) && Distinct(t) && Sorted(t)
    requires !Tracked(t, name) && |Faulted(names, faults) + {name}| <= SLOTS
    ensures t[SLOTS - 1].count == 0
  {
    if t[SLOTS - 1].count > 0 {
      DistinctNamesCount(t, SLOTS);
      forall x | x in Names(t, SLOTS) ensures x in Faulted(names, faults) {
        NamesAre(t, SLOTS, x);
      }
      assert name !in Faulted(names, faults);
      CardinalityOfSubset(Names(t, SLOTS), Faulted(names, faults));
    }
  }

  lemma {:induction false} CardinalityOfSubset<T>(a: set<T>, b: set<T>)
    requires a <= b
    ensures |a| <= |b|
    decreases |a|
  {
    if x :| x in a {
      CardinalityOfSubset(a - {x}, b - {x});
    }
  }

  lemma TrackedIsOccupied(t: Table, comm: string)
    requires FreeAreNameless(t) && comm != ""
    ensures Tracked(t, comm) <==> RightmostMatch(t, comm, SLOTS) >= 0
    ensures Tracked(t, comm) ==> t[RightmostMatch(t, comm, SLOTS)].count > 0
  {
    var i := RightmostMatch(t, comm, SLOTS);
    if i >= 0 {
      assert t[i].count > 0 && t[i].comm == comm;
    }
  }

  /** A first fault of a name takes a free entry and gives it the count one. */
  lemma FirstFault(t: Table, comm: string)
    requires FreeAreNameless(t) && comm != "" && !Tracked(t, comm) && t[SLOTS - 1].count == 0
    ensures var (t', own') := AfterFault(t, comm, 0); var j := LeftmostBelow(t, 1, 0, SLOTS);
      j < SLOTS && t[j].count == 0 && t' == t[j := Entry(comm, 1)] && own' == 1
  {
    TrackedIsOccupied(t, comm);
    hide FreeAreNameless, Tracked, LeftmostBelow, RightmostMatch;
  }

  lemma {:induction false} NeverFaulted(names: seq<string>, faults: seq<nat>, name: string)
    requires Known(names, faults) && name !in Faulted(names, faults)
    ensures Total(names, faults, name) == 0
  {
    if faults != [] {
      var earlier := faults[..|faults| - 1];
      assert forall i :: 0 <= i < |earlier| ==> earlier[i] == faults[i];
      NeverFaulted(names, earlier, name);
    }
  }

  lemma FaultedSnoc(names: seq<string>, faults: seq<nat>, p: nat)
    requires Known(names, faults) && p < |names|
    ensures Known(names, faults + [p]) && Faulted(names, faults + [p]) == Faulted(names, faults) + {names[p]}
  {
    var later := faults + [p];
    assert later[|faults|] == p;
    forall n | n in Faulted(names, faults) ensures n in Faulted(names, later) {
      var i :| 0 <= i < |faults| && names[faults[i]] == n;
      assert later[i] == faults[i];
    }
  }

  lemma TrackedKeepsExact(names: seq<string>, faults: seq<nat>, s: Stats, p: nat)
    requires Known(names, faults) && Sound(names, faults, s) && p < |names| && |faults| < U32_MAX
    requires Distinct(s.table) && Exact(names, faults, s.table) && names[p] != "" && Tracked(s.table, names[p])
    ensures Known(names, faults + [p])
    ensures Exact(names, faults + [p], AfterFault(s.table, names[p], s.own[p]).0)
  {
    hide AfterFault, Total, LeftmostBelow, RightmostMatch, Sorted, FreeAreNameless, Exact, Distinct, Tracked;
    var t, name := s.table, names[p];
    NoWrapYet(names, faults, s, p);
    TrackedIsOccupied(t, name);
    TrackedShape(t, name, s.own[p]);
    var i := RightmostMatch(t, name, SLOTS);
    ExactAfterRaise(names, faults, p, t, AfterFault(t, name, s.own[p]).0, i, LeftmostBelow(t, Inc(t[i].count), 0, i));
  }

  /** A name without an entry has never faulted, and there is a free entry for it. */
  lemma UntrackedIsNew(names: seq<string>, faults: seq<nat>, s: Stats, p: nat)
    requires Known(names, faults) && Sound(names, faults, s) && p < |names|
    requires Distinct(s.table) && Exact(names, faults, s.table) && !Tracked(s.table, names[p])
    requires |Faulted(names, faults) + {names[p]}| <= SLOTS
    ensures Total(names, faults, names[p]) == 0 && s.own[p] == 0
    ensures FreeAreNameless(s.table) && s.table[SLOTS - 1].count == 0
  {
    hide Total, Sorted, FreeAreNameless, Distinct, Tracked, Faulted;
    NeverFaulted(names, faults, names[p]);
    RoomForOneMore(names, faults, s.table, names[p]);
  }

  lemma FirstKeepsExact(names: seq<string>, faults: seq<nat>, s: Stats, p: nat)
    requires Known(names, faults) && Sound(names, faults, s) && p < |names|
    requires Distinct(s.table) && Exact(names, faults, s.table) && names[p] != "" && !Tracked(s.table, names[p])
    requires |Faulted(names, faults) + {names[p]}| <= SLOTS
    ensures Known(names, faults + [p])
    ensures Exact(names, faults + [p], AfterFault(s.table, names[p], s.own[p]).0)
  {
    UntrackedIsNew(names, faults, s, p);
    hide *;
    FirstFault(s.table, names[p]);
    ExactAfterInsert(names, faults, p, s.table, AfterFault(s.table, names[p], 0).0,
                     LeftmostBelow(s.table, 1, 0, SLOTS));
  }

  lemma ExactAfterRaise(names: seq<string>, faults: seq<nat>, p: nat, t: Table, t': Table, i: nat, j: nat)
    requires Known(names, faults) && p < |names| && Distinct(t) && Exact(names, faults, t)
    requires j <= i < SLOTS && t[i].comm == names[p] && t[i].count > 0 && t[j].count == t[i].count < U32_MAX
    requires t' == t[i := t[j]][j := Entry(names[p], t[i].count + 1)]
    ensures Known(names, faults + [p]) && Exact(names, faults + [p], t')
  {
    FaultedSnoc(names, faults, p);
    forall k | 0 <= k < SLOTS && t'[k].count > 0
      ensures t'[k].count == Total(names, faults + [p], t'[k].comm) && t'[k].comm in Faulted(names, faults + [p])
    {
      OneMore(names, faults, p, t'[k].comm);
      if k == i && i != j {
        assert t'[k] == t[j];
      }
    }
    forall n | n in Faulted(names, faults + [p]) ensures Tracked(t', n) {
      if n == names[p] {
        assert t'[j].comm == n;
      } else {
        var k :| 0 <= k < SLOTS && t[k].count > 0 && t[k].comm == n;
        assert if k == j then t'[i] == t[k] else t'[k] == t[k];
      }
    }
  }

  lemma ExactAfterInsert(names: seq<string>, faults: seq<nat>, p: nat, t: Table, t': Table, j: nat)
    requires Known(names, faults) && p < |names| && Exact(names, faults, t) && !Tracked(t, names[p])
    requires j < SLOTS && t[j].count == 0 && t' == t[j := Entry(names[p], 1)]
    requires Total(names, faults, names[p]) == 0
    ensures Known(names, faults + [p]) && Exact(names, faults + [p], t')
  {
    FaultedSnoc(names, faults, p);
    forall k | 0 <= k < SLOTS && t'[k].count > 0
      ensures t'[k].count == Total(names, faults + [p], t'[k].comm) && t'[k].comm in Faulted(names, faults + [p])
    {
      OneMore(names, faults, p, t'[k].comm);
    }
    forall n | n in Faulted(names, faults + [p]) ensures Tracked(t', n) {
      if n == names[p] {
        assert t'[j].comm == n;
      } else {
        var k :| 0 <= k < SLOTS && t[k].count > 0 && t[k].comm == n;
        assert t'[k] == t[k];
      }
    }
  }

  lemma SubsetFaulted(names: seq<string>, faults: seq<nat>)
    requires Known(names, faults) && faults != []
    ensures var earlier, p := faults[..|faults| - 1], faults[|faults| - 1];
      && Known(names, earlier) && p < |names| && earlier + [p] == faults
      && Faulted(names, faults) == Faulted(names, earlier) + {names[p]}
  {
    var earlier, p := faults[..|faults| - 1], faults[|faults| - 1];
    assert earlier + [p] == faults;
    FaultedSnoc(names, earlier, p);
  }

  /**
   As long as no more than ten names have faulted, none of them empty, nobody is evicted: the
   table lists exactly the names that faulted, each with its true number of faults.
   */
  lemma {:induction false} SmallHistoriesAreExact(names: seq<string>, faults: seq<nat>)
    requires Known(names, faults) && |faults| <= U32_MAX && "" !in names && |Faulted(names, faults)| <= SLOTS
    ensures Exact(names, faults, StatsAfter(names, faults).table)
  {
    if faults != [] {
      var earlier, p := faults[..|faults| - 1], faults[|faults| - 1];
      SubsetFaulted(names, faults);
      CardinalityOfSubset(Faulted(names, earlier), Faulted(names, faults));
      SmallHistoriesAreExact(names, earlier);
      EveryHistoryIsSound(names, earlier);
      EveryHistoryIsDistinct(names, earlier);
      var s := StatsAfter(names, earlier);
      assert names[p] in names;
      hide AfterFault, Faulted, Exact, Distinct, Sound, Tracked;
      if Tracked(s.table, names[p]) {
        TrackedKeepsExact(names, earlier, s, p);
      } else {
        FirstKeepsExact(names, earlier, s, p);
      }
    }
  }
}
