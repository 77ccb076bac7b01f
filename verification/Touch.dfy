/** The multi-touch slot state machine of the fingerprint handler. */
module Touch {
  import opened Basics

  const MAX_FINGERS := 10
  const MAX_FW_EVENTS := 128

  datatype Contact = Contact(x: int, y: int, id: int, updated: bool)

  datatype Finger = UP | DOWN | MOVE

  datatype Event = Event(slot: nat, state: Finger, x: int, y: int)

  /** The configuration; radii are compared as the unsigned numbers they convert to. */
  datatype Config = Config(fdEnable: bool, intr2Enable: bool, gpioValid: bool, radFilter: bool,
                           left: int, top: int, right: int, bottom: int, radX: int, radY: int)

  /** What the driver keeps per slot: last_events, delta_X, delta_Y and current_slot_state. */
  datatype Slot = Slot(last: Contact, dx: int, dy: int, state: Finger)

  const NO_CONTACT := Contact(0, 0, -1, false)
  const FRESH_SLOT := Slot(NO_CONTACT, 0, 0, UP)

  // ---------- One slot ----------

  function Abs(x: int): nat { if x < 0 then -x else x }

  function AsUnsigned(x: int): nat { x % 0x1_0000_0000 }

  /** qbt_touch_filter_aoi_region */
  predicate InAoi(c: Config, t: Contact) {
    !(t.x < c.left || t.x > c.right || t.y < c.top || t.y > c.bottom)
  }

  /** A finger on the area of interest. */
  predicate On(c: Config, t: Contact) { t.id >= 0 && InAoi(c, t) }

  /** The kind of event, or none if both contacts are outside. */
  function Classify(c: Config, current: Contact, last: Contact): Option<Finger> {
    var kind := if current.id < 0 then UP else if last.id < 0 then DOWN
                else if last.id == current.id then MOVE else DOWN;
    if !InAoi(c, current) then (if InAoi(c, last) && last.id >= 0 then Some(UP) else None)
    else if !InAoi(c, last) && current.id >= 0 then Some(DOWN)
    else Some(kind)
  }

  /** Which event a pair of contacts makes, told from ids and the area alone. */
  lemma EventKind(c: Config, current: Contact, last: Contact)
    ensures var e := Classify(c, current, last);
      var here := c.left <= current.x <= c.right && c.top <= current.y <= c.bottom;
      var there := c.left <= last.x <= c.right && c.top <= last.y <= c.bottom;
      && (e == Some(MOVE) <==> here && there && current.id >= 0 && current.id == last.id)
      && (e == Some(DOWN) <==> here && current.id >= 0 && !(there && current.id == last.id))
      && (e == Some(UP) <==> (here && current.id < 0) || (!here && there && last.id >= 0))
  {
  }

  /** The accumulated movement is worth reporting. */
  predicate Far(c: Config, dx: int, dy: int) {
    !c.radFilter || Abs(dx) > AsUnsigned(c.radX) || Abs(dy) > AsUnsigned(c.radY)
  }

  /** Movement counts when it leaves the box of the radii, each taken as an unsigned 32-bit number. */
  lemma FarMeansOutside(c: Config, dx: int, dy: int)
    ensures Far(c, dx, dy) <==>
      !c.radFilter || !(-(c.radX % TWO_32) <= dx <= c.radX % TWO_32 && -(c.radY % TWO_32) <= dy <= c.radY % TWO_32)
  {
  }

  /** One slot's turn in the work function: its new state and the event it produces. */
  function Step(c: Config, s: Slot, current: Contact): (Slot, Option<Finger>) {
    if !current.updated then (s, None)
    else
      var s' := s.(last := current);
      match Classify(c, current, s.last)
      case None => (s', None)
      case Some(MOVE) =>
        var dx, dy := s.dx + (current.x - s.last.x), s.dy + (current.y - s.last.y);
        if Far(c, dx, dy) then (s'.(dx := 0, dy := 0), Some(MOVE)) else (s'.(dx := dx, dy := dy), None)
      case Some(f) => (s'.(state := f), Some(f))
  }

  // ---------- One pass over all slots ----------

  predicate AnyDown(slots: seq<Slot>) { exists i :: 0 <= i < |slots| && slots[i].state == DOWN }

  /** slots and the INTR2 line, the sticky flag of this pass, and the events produced. */
  datatype Pass = Pass(slots: seq<Slot>, intr2: bool, sticky: bool, events: seq<Event>)

  /** The turn of slot k. */
  function Turn(c: Config, p: Pass, k: nat, current: Contact): Pass
    requires k < |p.slots|
  {
    var (s, e) := Step(c, p.slots[k], current);
    var slots := p.slots[k := s];
    match e
    case None => p.(slots := slots)
    case Some(f) =>
      var events := p.events + [Event(k, f, current.x, current.y)];
      if f == MOVE then p.(slots := slots, events := events)
      else
        var sticky := p.sticky || AnyDown(slots);
        Pass(slots, if c.intr2Enable && c.gpioValid then sticky else p.intr2, sticky, events)
  }

  /** The pass after the turns of the slots below k. */
  function PassTo(c: Config, slots: seq<Slot>, intr2: bool, current: seq<Contact>, k: nat): (p: Pass)
    requires |slots| == |current| == MAX_FINGERS && k <= MAX_FINGERS
    ensures |p.slots| == MAX_FINGERS
  {
    if k == 0 then Pass(slots, intr2, false, [])
    else Turn(c, PassTo(c, slots, intr2, current, k - 1), k - 1, current[k - 1])
  }

  class TouchHandler {
    const config: Config
    const current: array<Contact>
    const slots: array<Slot>
    var intr2: bool               // the INTR2 line
    var fifo: seq<Event>          // fd_events
    ghost var produced: seq<Event>  // every event offered to the fifo
    ghost var dropped: bool         // the fifo has been full when one was offered
    ghost var taken: nat            // events handed to user space

    /** Until an event has been dropped, user space gets exactly what was produced, in order. */
    ghost predicate Valid()
      reads this
    {
      && current.Length == MAX_FINGERS && slots.Length == MAX_FINGERS
      && |fifo| <= MAX_FW_EVENTS
      && (!dropped ==> taken <= |produced| && fifo == produced[taken..])
    }

    constructor (config: Config)
      ensures Valid() && fresh(current) && fresh(slots) && this.config == config
      ensures slots[..] == seq(MAX_FINGERS, _ => FRESH_SLOT) && !intr2 && fifo == [] && produced == [] && !dropped
    {
      this.config := config;
      current := new Contact[MAX_FINGERS](_ => NO_CONTACT);
      slots := new Slot[MAX_FINGERS](_ => FRESH_SLOT);
      intr2, fifo, produced, dropped, taken := false, [], [], false, 0;
    }

    /** qbt_fd_report_event: a full fifo drops the event. */
    method ReportEvent(e: Event)
      requires Valid()
      modifies this`fifo, this`produced, this`dropped
      ensures Valid() && produced == old(produced) + [e]
      ensures fifo == if |old(fifo)| < MAX_FW_EVENTS then old(fifo) + [e] else old(fifo)
      ensures dropped == (old(dropped) || |old(fifo)| == MAX_FW_EVENTS)
    {
      produced := produced + [e];
      if |fifo| < MAX_FW_EVENTS {
        fifo := fifo + [e];
      } else {
        dropped := true;
      }
    }

    /** The draining part of qbt_read. */
    method ReadAll() returns (events: seq<Event>)
      requires Valid()
      modifies this`fifo, this`taken
      ensures Valid() && events == old(fifo) && fifo == [] && taken == old(taken) + |events|
      ensures !dropped ==> events == produced[old(taken)..taken]
    {
      events := [];
      var n := |fifo|;
      var i := 0;
      while i < n
        invariant 0 <= i <= n && events == old(fifo)[..i] && fifo == old(fifo)[i..] && taken == old(taken)
      {
        events := events + [fifo[0]];
        fifo := fifo[1..];
        i := i + 1;
      }
      taken := taken + |events|;
    }

    /** The inner scan for a finger that is down. */
    method ScanDown() returns (down: bool)
      requires Valid()
      ensures down == AnyDown(slots[..])
    {
      var i := 0;
      while i < MAX_FINGERS
        invariant 0 <= i <= MAX_FINGERS && forall j :: 0 <= j < i ==> slots[j].state != DOWN
      {
        if slots[i].state == DOWN {
          assert slots[..][i].state == DOWN;
          return true;
        }
        i := i + 1;
      }
      down := false;
    }

    /** The body of the work function's loop for one slot. */
    method TurnOf(k: nat, sticky: bool) returns (sticky': bool)
      requires Valid() && k < MAX_FINGERS
      modifies this`intr2, this`fifo, this`produced, this`dropped, current, slots
      ensures Valid()
      ensures forall i :: 0 <= i < MAX_FINGERS && i != k ==> current[i] == old(current[i])
      ensures current[k] == old(current[k]).(updated := false)
      ensures var p := Turn(config, Pass(old(slots[..]), old(intr2), sticky, []), k, old(current[k]));
        && slots[..] == p.slots && intr2 == p.intr2 && sticky' == p.sticky
        && produced == old(produced) + if config.fdEnable then p.events else []
    {
      hide AnyDown, Far, Classify;
      var event := current[k];
      current[k] := event.(updated := false);
      sticky' := sticky;
      if !event.updated {
        assert slots[..] == old(slots[..])[k := slots[k]];
        return;
      }
      var last := slots[k].last;
      slots[k] := slots[k].(last := event);
      var kind := Classify(config, event, last);
      if kind.None? {
        assert slots[..] == old(slots[..])[k := slots[k]];
        return;
      }
      if kind.value == MOVE {
        var far := FilterByRadius(k, event, last);
        if !far {
          return;
        }
      } else {
        slots[k] := slots[k].(state := kind.value);
        assert slots[..] == old(slots[..])[k := slots[k]];
        var down := ScanDown();
        sticky' := sticky || down;
        if config.intr2Enable && config.gpioValid {
          intr2 := sticky';
        }
      }
      if config.fdEnable {
        ReportEvent(Event(k, kind.value, event.x, event.y));
      }
    }

    /** qbt_touch_filter_by_radius */
    method FilterByRadius(k: nat, event: Contact, last: Contact) returns (far: bool)
      requires Valid() && k < MAX_FINGERS
      modifies slots
      ensures var dx, dy := old(slots[k]).dx + (event.x - last.x), old(slots[k]).dy + (event.y - last.y);
        && far == Far(config, dx, dy)
        && slots[..] == old(slots[..])[k := old(slots[k]).(dx := if far then 0 else dx, dy := if far then 0 else dy)]
    {
      slots[k] := slots[k].(dx := slots[k].dx + (event.x - last.x), dy := slots[k].dy + (event.y - last.y));
      far := Far(config, slots[k].dx, slots[k].dy);
      if far {
        slots[k] := slots[k].(dx := 0, dy := 0);
      }
      assert slots[..] == old(slots[..])[k := slots[k]];
    }

    /** qbt_touch_work_func */
    method Work()
      requires Valid()
      modifies this`intr2, this`fifo, this`produced, this`dropped, current, slots
      ensures Valid()
      ensures forall i :: 0 <= i < MAX_FINGERS ==> current[i] == old(current[i]).(updated := false)
      ensures var p := PassTo(config, old(slots[..]), old(intr2), old(current[..]), MAX_FINGERS);
        && slots[..] == p.slots && intr2 == p.intr2
        && produced == old(produced) + if config.fdEnable then p.events else []
    {
      hide Turn;
      ghost var slots0, intr20, current0, produced0 := slots[..], intr2, current[..], produced;
      var k, sticky := 0, false;
      while k < MAX_FINGERS
        invariant 0 <= k <= MAX_FINGERS && Valid()
        invariant forall i :: 0 <= i < MAX_FINGERS ==>
                                current[i] == if i < k then current0[i].(updated := false) else current0[i]
        invariant var p := PassTo(config, slots0, intr20, current0, k);
          && slots[..] == p.slots && intr2 == p.intr2 && sticky == p.sticky
          && produced == produced0 + if config.fdEnable then p.events else []
      {
        ghost var p := PassTo(config, slots0, intr20, current0, k);
        TurnAppends(config, p, k, current0[k]);
        sticky := TurnOf(k, sticky);
        k := k + 1;
      }
    }
  }

  /** A turn adds its events after those before. */
  lemma TurnAppends(c: Config, p: Pass, k: nat, current: Contact)
    requires k < |p.slots|
    ensures var q := Turn(c, p.(events := []), k, current);
      Turn(c, p, k, current) == q.(events := p.events + q.events)
  {
  }

  /**
   Each event is of the kind its slot's new and last contact make, at the position of the new one;
   one event a slot, in slot order.
   */
  predicate Reports(c: Config, slots: seq<Slot>, events: seq<Event>, current: seq<Contact>, k: nat) {
    && (forall i :: 0 <= i < |events| ==>
          var e := events[i];
          && e.slot < k && e.slot < |current| && e.slot < |slots| && current[e.slot].updated
          && e.x == current[e.slot].x && e.y == current[e.slot].y
          && Classify(c, current[e.slot], slots[e.slot].last) == Some(e.state))
    && (forall i, j :: 0 <= i < j < |events| ==> events[i].slot < events[j].slot)
  }

  lemma ReportsOneMore(c: Config, slots: seq<Slot>, p: Pass, current: seq<Contact>, k: nat)
    requires k < |slots| == |current| == |p.slots| && p.slots[k] == slots[k]
    requires Reports(c, slots, p.events, current, k)
    ensures Reports(c, slots, Turn(c, p, k, current[k]).events, current, k + 1)
    ensures forall i :: k < i < |slots| ==> Turn(c, p, k, current[k]).slots[i] == p.slots[i]
  {
    hide Classify, Far, AnyDown;
  }

  lemma {:induction false} PassReports(c: Config, slots: seq<Slot>, intr2: bool, current: seq<Contact>, k: nat)
    requires |slots| == |current| == MAX_FINGERS && k <= MAX_FINGERS
    ensures var p := PassTo(c, slots, intr2, current, k);
      Reports(c, slots, p.events, current, k) && forall i :: k <= i < MAX_FINGERS ==> p.slots[i] == slots[i]
  {
    hide Turn, Reports;
    if k == 0 {
      NothingReported(c, slots, current);
    } else {
      PassReports(c, slots, intr2, current, k - 1);
      ReportsOneMore(c, slots, PassTo(c, slots, intr2, current, k - 1), current, k - 1);
    }
  }

  lemma NothingReported(c: Config, slots: seq<Slot>, current: seq<Contact>)
    ensures Reports(c, slots, [], current, 0)
  {
  }

  // ---------- What a slot's state means ----------

  /** DOWN exactly while the last contact is a finger on the area; leftover movement is within the radius. */
  predicate Good(c: Config, s: Slot) {
    && s.state != MOVE && (s.state == DOWN <==> On(c, s.last))
    && (if c.radFilter then Abs(s.dx) <= AsUnsigned(c.radX) && Abs(s.dy) <= AsUnsigned(c.radY) else s.dx == s.dy == 0)
  }

  predicate AllGood(c: Config, slots: seq<Slot>) { forall i :: 0 <= i < |slots| ==> Good(c, slots[i]) }

  /** A turn keeps the meaning; a MOVE is only produced while the finger is down. */
  lemma StepKeepsGood(c: Config, s: Slot, current: Contact)
    requires Good(c, s)
    ensures var (s', e) := Step(c, s, current);
      && Good(c, s') && s'.last == (if current.updated then current else s.last)
      && (e == None || e == Some(MOVE) ==> s'.state == s.state)
      && (e == Some(MOVE) ==> s.state == DOWN)
      && (e.Some? && e.value != MOVE ==> s'.state == e.value)
  {
  }

  /** The last finger event of a slot in a log; before any, the finger is up. */
  function SlotAfter(log: seq<Event>, slot: nat): Finger {
    if log == [] then UP
    else
      var e := log[|log| - 1];
      if e.slot == slot && e.state != MOVE then e.state else SlotAfter(log[..|log| - 1], slot)
  }

  /** Every MOVE comes after a DOWN of its slot and before the next UP. */
  predicate MovesInside(log: seq<Event>) {
    forall i :: 0 <= i < |log| && log[i].state == MOVE ==> SlotAfter(log[..i], log[i].slot) == DOWN
  }

  predicate LogAgrees(log: seq<Event>, slots: seq<Slot>) {
    MovesInside(log) && forall k :: 0 <= k < |slots| ==> SlotAfter(log, k) == slots[k].state
  }

  lemma AppendEvent(log: seq<Event>, slots: seq<Slot>, e: Event)
    requires LogAgrees(log, slots) && e.slot < |slots|
    requires e.state == MOVE ==> slots[e.slot].state == DOWN
    ensures MovesInside(log + [e])
    ensures forall k :: 0 <= k < |slots| ==>
      SlotAfter(log + [e], k) == if k == e.slot && e.state != MOVE then e.state else slots[k].state
  {
    var later := log + [e];
    assert later[..|log|] == log;
    forall i | 0 <= i < |later| && later[i].state == MOVE ensures SlotAfter(later[..i], later[i].slot) == DOWN {
      assert later[..i] == log[..i];
    }
  }

  lemma TurnKeeps(c: Config, p: Pass, k: nat, current: Contact, before: seq<Event>)
    requires k < |p.slots| && AllGood(c, p.slots) && LogAgrees(before + p.events, p.slots)
    ensures var q := Turn(c, p, k, current);
      && AllGood(c, q.slots) && LogAgrees(before + q.events, q.slots)
      && q.slots == p.slots[k := q.slots[k]]
      && q.slots[k].last == (if current.updated then current else p.slots[k].last)
  {
    StepKeepsGood(c, p.slots[k], current);
    var (s, e) := Step(c, p.slots[k], current);
    hide Good, Step, AnyDown, LogAgrees;
    if e.Some? {
      var event := Event(k, e.value, current.x, current.y);
      assert (before + p.events) + [event] == before + (p.events + [event]);
      AgreeAfter(before + p.events, p.slots, event, s);
    } else {
      AgreeSilently(before + p.events, p.slots, k, s);
    }
  }

  lemma AgreeAfter(log: seq<Event>, slots: seq<Slot>, e: Event, s: Slot)
    requires LogAgrees(log, slots) && e.slot < |slots|
    requires if e.state == MOVE then slots[e.slot].state == DOWN == s.state else s.state == e.state
    ensures LogAgrees(log + [e], slots[e.slot := s])
  {
    hide MovesInside;
    AppendEvent(log, slots, e);
  }

  lemma AgreeSilently(log: seq<Event>, slots: seq<Slot>, k: nat, s: Slot)
    requires LogAgrees(log, slots) && k < |slots| && s.state == slots[k].state
    ensures LogAgrees(log, slots[k := s])
  {
  }

  lemma {:induction false} PassKeeps(c: Config, slots: seq<Slot>, intr2: bool, current: seq<Contact>, k: nat,
                                     before: seq<Event>)
    requires |slots| == |current| == MAX_FINGERS && k <= MAX_FINGERS
    requires AllGood(c, slots) && LogAgrees(before, slots)
    ensures var p := PassTo(c, slots, intr2, current, k);
      && AllGood(c, p.slots) && LogAgrees(before + p.events, p.slots)
      && (forall i :: 0 <= i < MAX_FINGERS ==>
            p.slots[i].last == if i < k && current[i].updated then current[i] else slots[i].last)
  {
    hide AllGood, LogAgrees, Turn;
    if k == 0 {
      assert before + [] == before;
    } else {
      PassKeeps(c, slots, intr2, current, k - 1, before);
      TurnKeeps(c, PassTo(c, slots, intr2, current, k - 1), k - 1, current[k - 1], before);
    }
  }

  // ---------- Whole histories ----------

  /** Everything after a history of updates under one configuration. */
  datatype Trace = Trace(slots: seq<Slot>, intr2: bool, log: seq<Event>)

  predicate Shaped(updates: seq<seq<Contact>>) {
    forall i :: 0 <= i < |updates| ==> |updates[i]| == MAX_FINGERS
  }

  function Run(c: Config, updates: seq<seq<Contact>>): (t: Trace)
    requires Shaped(updates)
    ensures |t.slots| == MAX_FINGERS
  {
    if updates == [] then Trace(seq(MAX_FINGERS, _ => FRESH_SLOT), false, [])
    else
      var t := Run(c, updates[..|updates| - 1]);
      var p := PassTo(c, t.slots, t.intr2, updates[|updates| - 1], MAX_FINGERS);
      Trace(p.slots, p.intr2, t.log + p.events)
  }

  /** The last contact reported for a slot. */
  function LastContact(updates: seq<seq<Contact>>, slot: nat): Contact
    requires Shaped(updates) && slot < MAX_FINGERS
  {
    if updates == [] then NO_CONTACT
    else
      var now := updates[|updates| - 1][slot];
      if now.updated then now else LastContact(updates[..|updates| - 1], slot)
  }

  lemma {:induction false} RunKeeps(c: Config, updates: seq<seq<Contact>>)
    requires Shaped(updates)
    ensures var t := Run(c, updates);
      && AllGood(c, t.slots) && LogAgrees(t.log, t.slots)
      && (forall k :: 0 <= k < MAX_FINGERS ==> t.slots[k].last == LastContact(updates, k))
  {
    if updates == [] {
      assert forall k :: 0 <= k < MAX_FINGERS ==> Run(c, updates).slots[k] == FRESH_SLOT;
    } else {
      var n := |updates| - 1;
      var t := Run(c, updates[..n]);
      RunKeeps(c, updates[..n]);
      hide AllGood, LogAgrees, PassTo;
      PassKeeps(c, t.slots, t.intr2, updates[n], MAX_FINGERS, t.log);
    }
  }

  /**
   After any history: a slot is DOWN exactly when its last contact is a finger on the area of
   interest; every MOVE produced falls between a DOWN of its slot and the next UP; and movement
   not yet reported stays within the radius.
   */
  lemma SlotsFollowContacts(c: Config, updates: seq<seq<Contact>>, k: nat)
    requires Shaped(updates) && k < MAX_FINGERS
    ensures var t := Run(c, updates);
      var last := LastContact(updates, k);
      && t.slots[k].state == (if last.id >= 0 && c.left <= last.x <= c.right && c.top <= last.y <= c.bottom
                              then DOWN else UP)
      && SlotAfter(t.log, k) == t.slots[k].state && MovesInside(t.log)
      && (c.radFilter ==>
            && -(c.radX % TWO_32) <= t.slots[k].dx <= c.radX % TWO_32
            && -(c.radY % TWO_32) <= t.slots[k].dy <= c.radY % TWO_32)
  {
    hide Run, LastContact, MovesInside, SlotAfter;
    RunKeeps(c, updates);
    assert Good(c, Run(c, updates).slots[k]);
  }

  // ---------- The INTR2 line ----------

  /** The turn of slot j produces a DOWN or an UP. */
  predicate Switches(c: Config, slots: seq<Slot>, current: seq<Contact>, j: nat)
    requires j < |slots| && j < |current|
  {
    var e := Step(c, slots[j], current[j]).1;
    e.Some? && e.value != MOVE
  }

  /** The slots after the turns below k. */
  function SlotsTo(c: Config, slots: seq<Slot>, current: seq<Contact>, k: nat): seq<Slot>
    requires |slots| == |current| == MAX_FINGERS && k <= MAX_FINGERS
  {
    seq(MAX_FINGERS, i requires 0 <= i < MAX_FINGERS => if i < k then Step(c, slots[i], current[i]).0 else slots[i])
  }

  /** Some finger is down right after a turn below k that switched one. */
  predicate SeenDown(c: Config, slots: seq<Slot>, current: seq<Contact>, k: nat)
    requires |slots| == |current| == MAX_FINGERS && k <= MAX_FINGERS
  {
    exists j :: 0 <= j < k && Switches(c, slots, current, j) && AnyDown(SlotsTo(c, slots, current, j + 1))
  }

  predicate Switched(c: Config, slots: seq<Slot>, current: seq<Contact>, k: nat)
    requires |slots| == |current| == MAX_FINGERS && k <= MAX_FINGERS
  {
    exists j :: 0 <= j < k && Switches(c, slots, current, j)
  }

  lemma SeenStep(c: Config, slots: seq<Slot>, current: seq<Contact>, k: nat)
    requires |slots| == |current| == MAX_FINGERS && 0 < k <= MAX_FINGERS
    ensures SeenDown(c, slots, current, k) ==
      (SeenDown(c, slots, current, k - 1)
       || (Switches(c, slots, current, k - 1) && AnyDown(SlotsTo(c, slots, current, k))))
    ensures Switched(c, slots, current, k) == (Switched(c, slots, current, k - 1) || Switches(c, slots, current, k - 1))
  {
    hide Switches, AnyDown, SlotsTo;
    if Switches(c, slots, current, k - 1) {
      assert Switched(c, slots, current, k);
      if AnyDown(SlotsTo(c, slots, current, k - 1 + 1)) {
        assert SeenDown(c, slots, current, k);
      }
    }
    if SeenDown(c, slots, current, k) {
      var j :| 0 <= j < k && Switches(c, slots, current, j) && AnyDown(SlotsTo(c, slots, current, j + 1));
      assert j < k - 1 ==> SeenDown(c, slots, current, k - 1);
    }
    if SeenDown(c, slots, current, k - 1) {
      var j :| 0 <= j < k - 1 && Switches(c, slots, current, j) && AnyDown(SlotsTo(c, slots, current, j + 1));
      assert SeenDown(c, slots, current, k);
    }
  }

  lemma {:induction false} PassLine(c: Config, slots: seq<Slot>, intr2: bool, current: seq<Contact>, k: nat)
    requires |slots| == |current| == MAX_FINGERS && k <= MAX_FINGERS
    ensures var p := PassTo(c, slots, intr2, current, k);
      && p.slots == SlotsTo(c, slots, current, k)
      && p.sticky == SeenDown(c, slots, current, k)
      && p.intr2 == (if c.intr2Enable && c.gpioValid && Switched(c, slots, current, k)
                     then SeenDown(c, slots, current, k) else intr2)
  {
    hide Step, AnyDown, SeenDown, Switched;
    if k == 0 {
      NothingSeen(c, slots, current);
      assert SlotsTo(c, slots, current, 0) == slots;
    } else {
      PassLine(c, slots, intr2, current, k - 1);
      SeenStep(c, slots, current, k);
      var p, q := PassTo(c, slots, intr2, current, k - 1), PassTo(c, slots, intr2, current, k);
      assert p.slots[k - 1] == slots[k - 1];
      assert p.slots[k - 1 := Step(c, slots[k - 1], current[k - 1]).0] == SlotsTo(c, slots, current, k);
    }
  }

  lemma NothingSeen(c: Config, slots: seq<Slot>, current: seq<Contact>)
    requires |slots| == |current| == MAX_FINGERS
    ensures !SeenDown(c, slots, current, 0) && !Switched(c, slots, current, 0)
  {
  }

  /** Turns that switch nothing do not change who is down. */
  lemma {:induction false} QuietTurns(c: Config, slots: seq<Slot>, current: seq<Contact>, j: nat, k: nat)
    requires |slots| == |current| == MAX_FINGERS && j <= k <= MAX_FINGERS && AllGood(c, slots)
    requires forall i :: j <= i < k ==> !Switches(c, slots, current, i)
    ensures AnyDown(SlotsTo(c, slots, current, j)) == AnyDown(SlotsTo(c, slots, current, k))
  {
    var a, b := SlotsTo(c, slots, current, j), SlotsTo(c, slots, current, k);
    forall i | 0 <= i < MAX_FINGERS ensures a[i].state == b[i].state {
      assert Good(c, slots[i]);
      StepKeepsGood(c, slots[i], current[i]);
      assert j <= i < k ==> !Switches(c, slots, current, i);
    }
    hide Step, Good, Switches, SlotsTo;
    if AnyDown(a) {
      var i :| 0 <= i < |a| && a[i].state == DOWN;
      assert b[i].state == DOWN;
    }
    if AnyDown(b) {
      var i :| 0 <= i < |b| && b[i].state == DOWN;
      assert a[i].state == DOWN;
    }
  }

  /** The last turn of a pass that switches a finger. */
  lemma {:induction false} LastSwitch(c: Config, slots: seq<Slot>, current: seq<Contact>, k: nat) returns (j: nat)
    requires |slots| == |current| == MAX_FINGERS && k <= MAX_FINGERS && Switched(c, slots, current, k)
    ensures j < k && Switches(c, slots, current, j)
    ensures forall i :: j < i < k ==> !Switches(c, slots, current, i)
  {
    hide Switches;
    if Switches(c, slots, current, k - 1) {
      j := k - 1;
    } else {
      j := LastSwitch(c, slots, current, k - 1);
    }
  }

  // ---------- When the line is right, told from the inputs ----------

  /** The slot's finger is down after the update: read off the update and the state before it. */
  predicate StaysDown(c: Config, s: Slot, current: Contact) {
    if current.updated then On(c, current) else s.state == DOWN
  }

  predicate SomeStaysDown(c: Config, slots: seq<Slot>, current: seq<Contact>)
    requires |slots| == |current| == MAX_FINGERS
  {
    exists i :: 0 <= i < MAX_FINGERS && StaysDown(c, slots[i], current[i])
  }

  /** A turn reports a finger while a later slot, not yet looked at, was down before the update. */
  predicate SeenTooEarly(c: Config, slots: seq<Slot>, current: seq<Contact>)
    requires |slots| == |current| == MAX_FINGERS
  {
    exists j, i :: 0 <= j < i < MAX_FINGERS && Switches(c, slots, current, j) && slots[i].state == DOWN
  }

  lemma StepStaysDown(c: Config, s: Slot, current: Contact)
    requires Good(c, s)
    ensures Step(c, s, current).0.state == DOWN <==> StaysDown(c, s, current)
  {
  }

  lemma FinallyDown(c: Config, slots: seq<Slot>, current: seq<Contact>)
    requires |slots| == |current| == MAX_FINGERS && AllGood(c, slots)
    ensures AnyDown(SlotsTo(c, slots, current, MAX_FINGERS)) <==> SomeStaysDown(c, slots, current)
  {
    var after := SlotsTo(c, slots, current, MAX_FINGERS);
    forall i | 0 <= i < MAX_FINGERS ensures after[i].state == DOWN <==> StaysDown(c, slots[i], current[i]) {
      StepStaysDown(c, slots[i], current[i]);
    }
    hide Step, StaysDown, SlotsTo, Good;
    if AnyDown(after) {
      var i :| 0 <= i < |after| && after[i].state == DOWN;
      assert StaysDown(c, slots[i], current[i]);
    }
    if SomeStaysDown(c, slots, current) {
      var i :| 0 <= i < MAX_FINGERS && StaysDown(c, slots[i], current[i]);
      assert after[i].state == DOWN;
    }
  }

  /** With no finger left, one is seen down exactly when a later slot still was. */
  lemma SeenDownIff(c: Config, slots: seq<Slot>, current: seq<Contact>)
    requires |slots| == |current| == MAX_FINGERS && AllGood(c, slots) && !SomeStaysDown(c, slots, current)
    ensures SeenDown(c, slots, current, MAX_FINGERS) <==> SeenTooEarly(c, slots, current)
  {
    if SeenDown(c, slots, current, MAX_FINGERS) {
      var j :| 0 <= j < MAX_FINGERS && Switches(c, slots, current, j) && AnyDown(SlotsTo(c, slots, current, j + 1));
      LaterIsDown(c, slots, current, j);
    }
    if SeenTooEarly(c, slots, current) {
      var j, i :| 0 <= j < i < MAX_FINGERS && Switches(c, slots, current, j) && slots[i].state == DOWN;
      assert SlotsTo(c, slots, current, j + 1)[i].state == DOWN;
      assert AnyDown(SlotsTo(c, slots, current, j + 1));
    }
  }

  lemma LaterIsDown(c: Config, slots: seq<Slot>, current: seq<Contact>, j: nat)
    requires |slots| == |current| == MAX_FINGERS && AllGood(c, slots) && !SomeStaysDown(c, slots, current)
    requires j < MAX_FINGERS && AnyDown(SlotsTo(c, slots, current, j + 1))
    ensures exists i :: j < i < MAX_FINGERS && slots[i].state == DOWN
  {
    var now := SlotsTo(c, slots, current, j + 1);
    var i :| 0 <= i < |now| && now[i].state == DOWN;
    StepStaysDown(c, slots[i], current[i]);
    assert !StaysDown(c, slots[i], current[i]);
  }

  /**
   The line after a pass that switched a finger, whatever it was before: it is driven low only if
   no finger is down, and it is wrong, that is high with all fingers up, exactly when no finger
   stays down and some slot switched before a later slot that was down had its turn.
   */
  lemma LineAfterPass(c: Config, slots: seq<Slot>, intr2: bool, current: seq<Contact>)
    requires |slots| == |current| == MAX_FINGERS && AllGood(c, slots)
    requires c.intr2Enable && c.gpioValid && Switched(c, slots, current, MAX_FINGERS)
    ensures var p := PassTo(c, slots, intr2, current, MAX_FINGERS);
      && (!p.intr2 ==> !AnyDown(p.slots))
      && (p.intr2 != AnyDown(p.slots) <==>
            !SomeStaysDown(c, slots, current) && SeenTooEarly(c, slots, current))
  {
    hide Switches, AnyDown, SlotsTo, PassTo, AllGood, StaysDown, SeenDown, SeenTooEarly, SomeStaysDown;
    PassLine(c, slots, intr2, current, MAX_FINGERS);
    var j := LastSwitch(c, slots, current, MAX_FINGERS);
    QuietTurns(c, slots, current, j + 1, MAX_FINGERS);
    SwitchSeesDown(c, slots, current, j);
    FinallyDown(c, slots, current);
    if !SomeStaysDown(c, slots, current) {
      SeenDownIff(c, slots, current);
    }
  }

  lemma SwitchSeesDown(c: Config, slots: seq<Slot>, current: seq<Contact>, j: nat)
    requires |slots| == |current| == MAX_FINGERS && j < MAX_FINGERS && Switches(c, slots, current, j)
    ensures AnyDown(SlotsTo(c, slots, current, j + 1)) ==> SeenDown(c, slots, current, MAX_FINGERS)
  {
  }

  /** A pass that switches no finger leaves the line and the fingers that are down alone. */
  lemma QuietPassKeepsTheLine(c: Config, slots: seq<Slot>, intr2: bool, current: seq<Contact>)
    requires |slots| == |current| == MAX_FINGERS && AllGood(c, slots) && !Switched(c, slots, current, MAX_FINGERS)
    ensures var p := PassTo(c, slots, intr2, current, MAX_FINGERS);
      p.intr2 == intr2 && AnyDown(p.slots) == AnyDown(slots)
  {
    hide Switches, AnyDown, PassTo, AllGood;
    PassLine(c, slots, intr2, current, MAX_FINGERS);
    QuietTurns(c, slots, current, 0, MAX_FINGERS);
    assert SlotsTo(c, slots, current, 0) == slots;
  }

  /** Two fingers lifted in one update leave the line high although both are up. */
  lemma LiftingTwoAtOnceLeavesTheLineHigh()
    ensures exists c: Config, slots: seq<Slot>, current: seq<Contact> ::
      && |slots| == |current| == MAX_FINGERS && AllGood(c, slots)
      && PassTo(c, slots, true, current, MAX_FINGERS).intr2
      && !AnyDown(PassTo(c, slots, true, current, MAX_FINGERS).slots)
  {
    var c := Config(true, true, true, false, 0, 0, 9, 9, 0, 0);
    var down := Slot(Contact(1, 1, 5, true), 0, 0, DOWN);
    var slots := seq(MAX_FINGERS, i => if i < 2 then down else FRESH_SLOT);
    var up := Contact(1, 1, -1, true);
    var current := seq(MAX_FINGERS, i => if i < 2 then up else NO_CONTACT);
    assert On(c, down.last) && AllGood(c, slots);
    assert Step(c, down, up) == (Slot(up, 0, 0, UP), Some(UP));
    assert SlotsTo(c, slots, current, 1)[1] == down;
    assert AnyDown(SlotsTo(c, slots, current, 0 + 1)) && Switches(c, slots, current, 0);
    PassLine(c, slots, true, current, MAX_FINGERS);
    var after := SlotsTo(c, slots, current, MAX_FINGERS);
    assert forall i :: 0 <= i < MAX_FINGERS ==> after[i].state == UP;
  }
}
