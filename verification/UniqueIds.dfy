/** Asset identifiers (participant, second, counter) packed in 128 bits, and their reservation. */
module UniqueIds {
  import opened Wrappers

  const TWO_32 := 0x1_0000_0000
  const TWO_64 := 0x1_0000_0000_0000_0000
  const TWO_96 := 0x1_0000_0000_0000_0000_0000_0000
  const TWO_128 := 0x1_0000_0000_0000_0000_0000_0000_0000_0000

  type u32 = n: nat | n < TWO_32
  type u64 = n: nat | n < TWO_64
  type u128 = n: nat | n < TWO_128

  datatype UniqueId = UniqueId(raw: u128) {
    function Participant(): u32 { raw / TWO_96 }
    function Timestamp(): u64 { raw / TWO_32 % TWO_64 }
    function Counter(): u32 { raw % TWO_32 }

    /** The derived order on identifiers is the order of the packed number. */
    predicate Less(other: UniqueId) { raw < other.raw }

    /** The next identifier at time `now`; `None` is the overflow panic of a checked build. */
    function PickNewAfter(now: u64): Option<UniqueId> {
      if now > Timestamp() then Some(New(Participant(), now, 0))
      else if Counter() + 1 < TWO_32 then Some(New(Participant(), Timestamp(), Counter() + 1))
      else None
    }

    /** The same in a build without overflow checks, where the counter wraps to zero. */
    function PickNewAfterUnchecked(now: u64): UniqueId {
      if now > Timestamp() then New(Participant(), now, 0)
      else New(Participant(), Timestamp(), (Counter() + 1) % TWO_32)
    }

    function AddToCounter(delta: u32): Option<UniqueId> {
      if Counter() + delta < TWO_32 then Some(New(Participant(), Timestamp(), Counter() + delta))
      else None
    }
  }

  function New(participant: u32, timestamp: u64, counter: u32): UniqueId {
    UniqueId(participant * TWO_96 + timestamp * TWO_32 + counter)
  }

  /** The packed number is participant, second and counter in 32, 64 and 32 bits; the fields read back each. */
  lemma FieldsOfNew(p: u32, t: u64, c: u32)
    ensures New(p, t, c).Participant() == p
    ensures New(p, t, c).Timestamp() == t
    ensures New(p, t, c).Counter() == c
    ensures New(p, t, c).raw == (p * 0x1_0000_0000_0000_0000 + t) * 0x1_0000_0000 + c
  {
    var raw := New(p, t, c).raw;
    assert raw / TWO_32 == p * TWO_64 + t;
  }

  /** Every identifier is determined by its three fields. */
  lemma NewOfFields(id: UniqueId)
    ensures New(id.Participant(), id.Timestamp(), id.Counter()) == id
  {
    assert id.raw / TWO_32 / TWO_64 == id.raw / TWO_96;
  }

  /** The packed order is the order by participant, then time, then counter. */
  lemma LessIsFieldwise(a: UniqueId, b: UniqueId)
    ensures a.Less(b) <==>
            a.Participant() < b.Participant() ||
            (a.Participant() == b.Participant() &&
             (a.Timestamp() < b.Timestamp() ||
              (a.Timestamp() == b.Timestamp() && a.Counter() < b.Counter())))
  {
    NewOfFields(a);
    NewOfFields(b);
  }

  /** A new pick keeps the owner, is strictly later, and never lags the clock. */
  lemma PickNewAfterIsLater(id: UniqueId, now: u64)
    requires id.PickNewAfter(now).Some?
    ensures var next := id.PickNewAfter(now).value;
            id.Less(next) && next.Participant() == id.Participant() &&
            now <= next.Timestamp() &&
            next.Timestamp() == (if now > id.Timestamp() then now else id.Timestamp())
  {
    var next := id.PickNewAfter(now).value;
    NewOfFields(id);
    FieldsOfNew(id.Participant(), next.Timestamp(), next.Counter());
    if now > id.Timestamp() {
      FieldsOfNew(id.Participant(), now, 0);
    } else {
      FieldsOfNew(id.Participant(), id.Timestamp(), id.Counter() + 1);
    }
    LessIsFieldwise(id, next);
  }

  /** Without overflow checks the pick is later exactly when the clock moved on or the counter has room. */
  lemma UncheckedPickIsLaterIff(id: UniqueId, now: u64)
    ensures id.Less(id.PickNewAfterUnchecked(now)) <==>
            now > id.Timestamp() || id.Counter() != 0xFFFF_FFFF
    ensures !(now > id.Timestamp() || id.Counter() != 0xFFFF_FFFF) ==>
            id.PickNewAfterUnchecked(now) == New(id.Participant(), id.Timestamp(), 0)
    ensures id.PickNewAfter(now).Some? ==> id.PickNewAfter(now).value == id.PickNewAfterUnchecked(now)
  {
    NewOfFields(id);
  }

  /** A reserved range of identifiers, both ends included. */
  datatype Range = Range(first: UniqueId, last: UniqueId) {
    predicate Contains(id: UniqueId) { first.raw <= id.raw <= last.raw }
  }

  /** `generate_and_reserve_id_range`; `None` is a panic (no identifiers asked, or a counter overflow). */
  function ReserveRange(lastId: Option<UniqueId>, me: u32, now: u64, count: u32): Option<Range> {
    if count == 0 then None else
      var start := if lastId.Some? then lastId.value.PickNewAfter(now) else Some(New(me, now, 0));
      if start.None? then None else
        var end := start.value.AddToCounter(count - 1);
        if end.None? then None else Some(Range(start.value, end.value))
  }

  /** The second and the first counter that a reservation after the identifier `loaded` uses. */
  function NextSecond(loaded: Option<UniqueId>, now: u64): u64 {
    if loaded.Some? && loaded.value.Timestamp() > now then loaded.value.Timestamp() else now
  }

  function NextCounter(loaded: Option<UniqueId>, now: u64): nat {
    if loaded.Some? && loaded.value.Timestamp() >= now then loaded.value.Counter() + 1 else 0
  }

  /**
   * A reservation succeeds exactly when the counters of its second have room for all of it, and then takes the
   * first `count` of them.
   */
  lemma ReservesIff(lastId: Option<UniqueId>, me: u32, now: u64, count: u32)
    ensures ReserveRange(lastId, me, now, count).Some? <==>
            count > 0 && NextCounter(lastId, now) + count <= 0x1_0000_0000
    ensures ReserveRange(lastId, me, now, count).Some? ==>
              TakesNext(ReserveRange(lastId, me, now, count).value, lastId, now, count)
  {
    if lastId.None? {
      FieldsOfNew(me, now, 0);
    } else if now > lastId.value.Timestamp() {
      FieldsOfNew(lastId.value.Participant(), now, 0);
    } else if lastId.value.Counter() + 1 < TWO_32 {
      FieldsOfNew(lastId.value.Participant(), lastId.value.Timestamp(), lastId.value.Counter() + 1);
    }
  }

  /** `count` identifiers in a row, from the next free second and counter. */
  predicate TakesNext(r: Range, lastId: Option<UniqueId>, now: u64, count: u32) {
    && r.first.Timestamp() == NextSecond(lastId, now) && r.first.Counter() == NextCounter(lastId, now)
    && r.last.raw == r.first.raw + count - 1
  }

  /** A reservation is exactly `count` consecutive identifiers of one owner and one second, all after the last one. */
  lemma ReserveRangeMeaning(lastId: Option<UniqueId>, me: u32, now: u64, count: u32)
    requires lastId.Some? ==> lastId.value.Participant() == me
    requires ReserveRange(lastId, me, now, count).Some?
    ensures var r := ReserveRange(lastId, me, now, count).value;
            && r.last.raw == r.first.raw + count - 1
            && r.first.Participant() == r.last.Participant() == me
            && r.first.Timestamp() == r.last.Timestamp()
            && r.first.Timestamp() ==
               (if lastId.Some? && lastId.value.Timestamp() > now then lastId.value.Timestamp() else now)
            && (lastId.Some? ==> lastId.value.Less(r.first))
  {
    var r := ReserveRange(lastId, me, now, count).value;
    if lastId.Some? {
      PickNewAfterIsLater(lastId.value, now);
    } else {
      FieldsOfNew(me, now, 0);
    }
    NewOfFields(r.first);
    FieldsOfNew(r.first.Participant(), r.first.Timestamp(), r.first.Counter() + count - 1);
  }

  // ----- Whole runs, with restarts -----

  /** A node reserves ranges, and may restart with the greatest identifier its database still holds. */
  datatype Event = Reserve(now: u64, count: u32) | Restart(loaded: Option<UniqueId>)

  /**
   * What a run has produced: the identifier in memory, all ranges so far, and the clock reading of each.
   * `restarted` tells that nothing was reserved since the last restart. An overflow panics while the last
   * identifier is locked: the lock is then `poisoned` and every later reservation of the process fails.
   */
  datatype Ids = Ids(lastId: Option<UniqueId>, ranges: seq<Range>, clocks: seq<u64>, restarted: bool, poisoned: bool)

  function Apply(s: Ids, me: u32, e: Event): Ids {
    match e
    case Reserve(now, count) =>
      if count == 0 || s.poisoned then s else
        var r := ReserveRange(s.lastId, me, now, count);
        if r.None? then s.(poisoned := true)
        else Ids(Some(r.value.last), s.ranges + [r.value], s.clocks + [now], false, false)
    case Restart(loaded) => s.(lastId := loaded, restarted := true, poisoned := false)
  }

  function RunEvents(s: Ids, me: u32, events: seq<Event>): Ids
    decreases |events|
  {
    if events == [] then s else RunEvents(Apply(s, me, events[0]), me, events[1..])
  }

  /** The database only holds identifiers that were reserved earlier. */
  predicate Reserved(ranges: seq<Range>, id: UniqueId) {
    exists i :: 0 <= i < |ranges| && ranges[i].Contains(id)
  }

  /**
   * The documented assumption on restarts: what is loaded was reserved before, and the clock reads
   * later than every reading of an earlier process.
   */
  predicate ClockAdvances(s: Ids, me: u32, events: seq<Event>)
    decreases |events|
  {
    events == [] ||
    (&& (match events[0]
         case Restart(loaded) => loaded.Some? ==> Reserved(s.ranges, loaded.value)
         case Reserve(now, count) => s.restarted ==> forall i :: 0 <= i < |s.clocks| ==> s.clocks[i] < now)
     && ClockAdvances(Apply(s, me, events[0]), me, events[1..]))
  }

  predicate Increasing(ranges: seq<Range>) {
    && (forall i :: 0 <= i < |ranges| ==> ranges[i].first.raw <= ranges[i].last.raw)
    && (forall i, j :: 0 <= i < j < |ranges| ==> ranges[i].last.Less(ranges[j].first))
  }

  /** No range runs ahead of the clock readings. */
  predicate Timely(ranges: seq<Range>, clocks: seq<u64>) {
    forall i :: 0 <= i < |ranges| ==> Read(clocks, ranges[i].last.Timestamp())
  }

  predicate Read(clocks: seq<u64>, t: u64) {
    exists j :: 0 <= j < |clocks| && t <= clocks[j]
  }

  /** The invariant: ranges grow, belong to one owner and never run ahead of the clock readings. */
  predicate IdsInvariant(s: Ids, me: u32) {
    && Increasing(s.ranges)
    && |s.ranges| == |s.clocks|
    && (forall i :: 0 <= i < |s.ranges| ==>
          s.ranges[i].first.Participant() == s.ranges[i].last.Participant() == me)
    && (forall i :: 0 <= i < |s.ranges| ==>
          s.ranges[i].first.Timestamp() == s.ranges[i].last.Timestamp())
    && Timely(s.ranges, s.clocks)
    && (if s.restarted then (s.lastId.Some? ==> Reserved(s.ranges, s.lastId.value))
        else if s.ranges == [] then s.lastId.None?
        else s.lastId == Some(s.ranges[|s.ranges| - 1].last))
  }

  /** An identifier inside a range has the range's owner and second. */
  lemma InsideRange(r: Range, id: UniqueId)
    requires r.Contains(id)
    requires r.first.Participant() == r.last.Participant() && r.first.Timestamp() == r.last.Timestamp()
    ensures id.Participant() == r.first.Participant() && id.Timestamp() == r.first.Timestamp()
  {
    NewOfFields(id);
    NewOfFields(r.first);
    NewOfFields(r.last);
  }

  lemma LastOwner(s: Ids, me: u32)
    requires IdsInvariant(s, me)
    ensures s.lastId.Some? ==> s.lastId.value.Participant() == me
    ensures s.lastId.Some? ==> Read(s.clocks, s.lastId.value.Timestamp())
  {
    if s.lastId.Some? && s.restarted {
      var i :| 0 <= i < |s.ranges| && s.ranges[i].Contains(s.lastId.value);
      InsideRange(s.ranges[i], s.lastId.value);
    }
  }

  /** A reservation lies strictly after every earlier range, in this process or a previous one. */
  lemma ReserveAfterAll(s: Ids, me: u32, now: u64, count: u32)
    requires IdsInvariant(s, me)
    requires s.restarted ==> forall i :: 0 <= i < |s.clocks| ==> s.clocks[i] < now
    requires ReserveRange(s.lastId, me, now, count).Some?
    ensures var r := ReserveRange(s.lastId, me, now, count).value;
            forall i :: 0 <= i < |s.ranges| ==> s.ranges[i].last.Less(r.first)
  {
    var r := ReserveRange(s.lastId, me, now, count).value;
    LastOwner(s, me);
    ReserveRangeMeaning(s.lastId, me, now, count);
    forall i | 0 <= i < |s.ranges| ensures s.ranges[i].last.Less(r.first) {
      if s.restarted {
        LessIsFieldwise(s.ranges[i].last, r.first);
      }
    }
  }

  lemma ReadMore(clocks: seq<u64>, t: u64, now: u64)
    ensures Read(clocks, t) || t <= now ==> Read(clocks + [now], t)
  {
    if t <= now {
      assert (clocks + [now])[|clocks|] == now;
    } else if j :| 0 <= j < |clocks| && t <= clocks[j] {
      assert (clocks + [now])[j] == clocks[j];
    }
  }

  lemma ReserveStaysTimely(s: Ids, me: u32, now: u64, count: u32)
    requires IdsInvariant(s, me) && ReserveRange(s.lastId, me, now, count).Some?
    ensures Timely(s.ranges + [ReserveRange(s.lastId, me, now, count).value], s.clocks + [now])
  {
    LastOwner(s, me);
    ReserveRangeMeaning(s.lastId, me, now, count);
    var r := ReserveRange(s.lastId, me, now, count).value;
    ReadMore(s.clocks, r.last.Timestamp(), now);
    forall i | 0 <= i < |s.ranges| ensures Read(s.clocks + [now], s.ranges[i].last.Timestamp()) {
      ReadMore(s.clocks, s.ranges[i].last.Timestamp(), now);
    }
  }

  lemma ReserveKeepsInvariant(s: Ids, me: u32, now: u64, count: u32)
    requires IdsInvariant(s, me) && !s.poisoned
    requires s.restarted ==> forall i :: 0 <= i < |s.clocks| ==> s.clocks[i] < now
    requires ReserveRange(s.lastId, me, now, count).Some?
    ensures IdsInvariant(Apply(s, me, Reserve(now, count)), me)
  {
    LastOwner(s, me);
    ReserveRangeMeaning(s.lastId, me, now, count);
    ReserveAfterAll(s, me, now, count);
    ReserveStaysTimely(s, me, now, count);
  }

  lemma ApplyKeepsInvariant(s: Ids, me: u32, events: seq<Event>)
    requires IdsInvariant(s, me)
    requires events != [] && ClockAdvances(s, me, events)
    ensures IdsInvariant(Apply(s, me, events[0]), me)
  {
    var e := events[0];
    if e.Reserve? && !s.poisoned && ReserveRange(s.lastId, me, e.now, e.count).Some? {
      ReserveKeepsInvariant(s, me, e.now, e.count);
    }
  }

  /**
   * Over every run with any number of restarts and failed reservations, under the documented clock
   * assumption, all reserved ranges are increasing, so no identifier is ever reserved twice.
   */
  lemma {:induction false} RangesNeverRepeat(s: Ids, me: u32, events: seq<Event>)
    requires IdsInvariant(s, me)
    requires ClockAdvances(s, me, events)
    ensures var ranges := RunEvents(s, me, events).ranges;
            && Increasing(ranges)
            && forall i, j, id ::
               0 <= i < |ranges| && 0 <= j < |ranges| && ranges[i].Contains(id) && ranges[j].Contains(id) ==>
                                    i == j
    decreases |events|
  {
    if events != [] {
      ApplyKeepsInvariant(s, me, events);
      RangesNeverRepeat(Apply(s, me, events[0]), me, events[1..]);
    }
  }

  /** So it is from the first start on. */
  lemma NeverReservedTwice(me: u32, events: seq<Event>)
    requires ClockAdvances(Ids(None, [], [], false, false), me, events)
    ensures var ranges := RunEvents(Ids(None, [], [], false, false), me, events).ranges;
            forall i, j, id :: 0 <= i < j < |ranges| && ranges[i].Contains(id) ==> !ranges[j].Contains(id)
  {
    RangesNeverRepeat(Ids(None, [], [], false, false), me, events);
  }

  /** The ranges increase, all after what was loaded, and the last identifier ends the last of them. */
  predicate AllAfter(loaded: UniqueId, s: Ids, me: u32) {
    && s.lastId.Some? && s.lastId.value.Participant() == me && loaded.raw <= s.lastId.value.raw
    && Increasing(s.ranges) && (s.ranges != [] ==> s.lastId == Some(s.ranges[|s.ranges| - 1].last))
    && forall i :: 0 <= i < |s.ranges| ==> loaded.Less(s.ranges[i].first)
  }

  lemma ReserveStaysAfter(loaded: UniqueId, s: Ids, me: u32, e: Event)
    requires AllAfter(loaded, s, me) && e.Reserve?
    ensures AllAfter(loaded, Apply(s, me, e), me)
  {
    if ReserveRange(s.lastId, me, e.now, e.count).Some? {
      ReserveRangeMeaning(s.lastId, me, e.now, e.count);
    }
  }

  /**
   * In one process, whatever the clock says, the ranges are increasing and all after the greatest identifier loaded
   * from the database.
   */
  lemma {:induction false} RangesAfterLoaded(loaded: UniqueId, s: Ids, me: u32, events: seq<Event>)
    requires AllAfter(loaded, s, me)
    requires forall i :: 0 <= i < |events| ==> events[i].Reserve?
    ensures AllAfter(loaded, RunEvents(s, me, events), me)
    decreases |events|
  {
    if events != [] {
      var next := Apply(s, me, events[0]);
      ReserveStaysAfter(loaded, s, me, events[0]);
      RangesAfterLoaded(loaded, next, me, events[1..]);
      assert RunEvents(s, me, events) == RunEvents(next, me, events[1..]);
    }
  }

  /** So it is for every process, from what it loads on. */
  lemma ReservedAfterLoaded(loaded: UniqueId, events: seq<Event>)
    requires forall i :: 0 <= i < |events| ==> events[i].Reserve?
    ensures var ranges := RunEvents(Ids(Some(loaded), [], [], true, false), loaded.Participant(), events).ranges;
            && (forall i :: 0 <= i < |ranges| ==> loaded.raw < ranges[i].first.raw <= ranges[i].last.raw)
            && (forall i, j :: 0 <= i < j < |ranges| ==> ranges[i].last.Less(ranges[j].first))
  {
    RangesAfterLoaded(loaded, Ids(Some(loaded), [], [], true, false), loaded.Participant(), events);
  }

  /** After an overflow a process reserves nothing more, whatever the clock says. */
  lemma {:induction false} PoisonedReservesNothing(s: Ids, me: u32, events: seq<Event>)
    requires s.poisoned && forall i :: 0 <= i < |events| ==> events[i].Reserve?
    ensures RunEvents(s, me, events) == s
    decreases |events|
  {
    if events != [] { PoisonedReservesNothing(s, me, events[1..]); }
  }

  /** A restart makes reservations possible again, exactly where the counters after what it loads have room. */
  lemma RestartReservesAgain(s: Ids, me: u32, loaded: Option<UniqueId>, now: u64, count: u32)
    ensures var s' := Apply(Apply(s, me, Restart(loaded)), me, Reserve(now, count));
            if count > 0 && NextCounter(loaded, now) + count <= 0x1_0000_0000
            then |s'.ranges| == |s.ranges| + 1 && TakesNext(s'.ranges[|s.ranges|], loaded, now, count)
            else s'.ranges == s.ranges
  {
    ReservesIff(loaded, me, now, count);
  }

  // ----- Restarts without the clock assumption -----

  /** What a process can load after it reserved up to `last`: nothing, or an identifier of its own up to there. */
  predicate CanLoad(loaded: Option<UniqueId>, me: u32, last: UniqueId) {
    loaded.Some? ==> loaded.value.Participant() == me && loaded.value.raw <= last.raw
  }

  /**
   * Whatever a restart loads, the next identifier is after all earlier ones exactly when the clock has left the
   * last one's second, or the last one is itself what was loaded.
   */
  lemma RestartIsLaterIff(me: u32, last: UniqueId, loaded: Option<UniqueId>, now: u64, count: u32)
    requires last.Participant() == me && CanLoad(loaded, me, last)
    requires ReserveRange(loaded, me, now, count).Some?
    ensures last.Less(ReserveRange(loaded, me, now, count).value.first) <==>
            now > last.Timestamp() || loaded == Some(last)
  {
    var first := ReserveRange(loaded, me, now, count).value.first;
    NewOfFields(last);
    LessIsFieldwise(last, first);
    if loaded.None? {
      FieldsOfNew(me, now, 0);
    } else {
      NewOfFields(loaded.value);
      PickNewAfterIsLater(loaded.value, now);
      LessIsFieldwise(loaded.value, last);
      if now <= loaded.value.Timestamp() {
        FieldsOfNew(me, loaded.value.Timestamp(), loaded.value.Counter() + 1);
      } else {
        FieldsOfNew(me, now, 0);
      }
    }
  }

  /**
   * Whatever a restart loads, the next range repeats an identifier of an earlier range exactly when it falls into
   * the same second and the counters overlap.
   */
  lemma RestartRepeatsIff(me: u32, earlier: Range, loaded: Option<UniqueId>, now: u64, count: u32)
    requires earlier.first.raw <= earlier.last.raw
    requires earlier.first.Participant() == earlier.last.Participant() == me
    requires earlier.first.Timestamp() == earlier.last.Timestamp()
    requires loaded.Some? ==> loaded.value.Participant() == me
    requires ReserveRange(loaded, me, now, count).Some?
    ensures var r := ReserveRange(loaded, me, now, count).value;
            (exists id :: r.Contains(id) && earlier.Contains(id)) <==>
            && NextSecond(loaded, now) == earlier.first.Timestamp()
            && NextCounter(loaded, now) <= earlier.last.Counter()
            && earlier.first.Counter() < NextCounter(loaded, now) + count
  {
    var r := ReserveRange(loaded, me, now, count).value;
    ReserveRangeMeaning(loaded, me, now, count);
    ReservesIff(loaded, me, now, count);
    OverlapIff(r, earlier);
    NewOfFields(r.first);
    NewOfFields(r.last);
  }

  lemma OverlapIff(a: Range, b: Range)
    requires a.first.raw <= a.last.raw && b.first.raw <= b.last.raw
    requires a.first.Participant() == a.last.Participant() == b.first.Participant() == b.last.Participant()
    requires a.first.Timestamp() == a.last.Timestamp() && b.first.Timestamp() == b.last.Timestamp()
    ensures (exists id :: a.Contains(id) && b.Contains(id)) <==>
            && a.first.Timestamp() == b.first.Timestamp()
            && a.first.Counter() <= b.last.Counter() && b.first.Counter() <= a.last.Counter()
  {
    LessIsFieldwise(b.last, a.first);
    LessIsFieldwise(a.last, b.first);
    if !b.last.Less(a.first) && !a.last.Less(b.first) {
      var id := if a.first.raw <= b.first.raw then b.first else a.first;
      assert a.Contains(id) && b.Contains(id);
    }
  }

  /** Restarting within the same second with an empty database hands out the same identifier twice. */
  lemma RestartInTheSameSecondRepeats(me: u32, now: u64)
    ensures var ranges := RunEvents(Ids(None, [], [], false, false), me,
            [Reserve(now, 1), Restart(None), Reserve(now, 1)]).ranges;
            |ranges| == 2 && ranges[0] == ranges[1]
  {
    FieldsOfNew(me, now, 0);
    ThreeEvents(Ids(None, [], [], false, false), me, Reserve(now, 1), Restart(None), Reserve(now, 1));
  }

  /** So does a restart that loads the first of two identifiers reserved in the same second. */
  lemma LoadedRestartRepeats(me: u32, now: u64)
    ensures var events := [Reserve(now, 2), Restart(Some(New(me, now, 0))), Reserve(now, 1)];
            var ranges := RunEvents(Ids(None, [], [], false, false), me, events).ranges;
            |ranges| == 2 && ranges[0].Contains(ranges[1].first)
  {
    FieldsOfNew(me, now, 0);
    FieldsOfNew(me, now, 1);
    ThreeEvents(Ids(None, [], [], false, false), me, Reserve(now, 2), Restart(Some(New(me, now, 0))), Reserve(now, 1));
  }

  lemma ThreeEvents(s: Ids, me: u32, e: Event, f: Event, g: Event)
    ensures RunEvents(s, me, [e, f, g]) == Apply(Apply(Apply(s, me, e), me, f), me, g)
  {
    var s1, s2 := Apply(s, me, e), Apply(Apply(s, me, e), me, f);
    assert [e, f, g][1..] == [f, g] && [f, g][1..] == [g] && [g][1..] == [];
    assert RunEvents(s2, me, [g]) == Apply(s2, me, g);
    assert RunEvents(s1, me, [f, g]) == RunEvents(s2, me, [g]);
  }
}
