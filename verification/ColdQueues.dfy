/**
 * The cold queue: assets known to satisfy the condition, then unknown ones, then known failures,
 * kept apart by two moving barriers.
 */
module ColdQueues {
  import opened UniqueIds

  datatype Asset<T> = Asset(id: UniqueId, value: T)

  /** One second, in the clock's nanoseconds. */
  const CONDITION_REFRESH_INTERVAL: int := 1_000_000_000

  /** The queue as a value. `due` is the time of the next fetch of the condition value. */
  datatype Cold<T, C> = Cold(ready: nat, available: nat, queue: seq<Asset<T>>, last: C, due: int) {
    ghost predicate Barriers() { ready <= available <= |queue| }

    /** Everything before `ready` satisfies the last fetched condition, everything from `available` on fails it. */
    ghost predicate Sorted(cond: (C, T) -> bool) {
      && Barriers()
      && (forall i :: 0 <= i < ready ==> cond(last, queue[i].value))
      && (forall i :: available <= i < |queue| ==> !cond(last, queue[i].value))
    }

    ghost function Unknown(): int { available - ready }

    ghost function Bag(): multiset<Asset<T>> { multiset(queue) }
  }

  datatype TakeResult<T> = Taken(asset: Asset<T>) | SomeMayBeAvailable | NoneAvailable
  datatype DiscardResult<T> = Discarded(asset: Asset<T>) | SomeMayRemain | NoneRemain
  datatype AddResult<T> = Enqueued | Returned(value: T)

  /** A call's new state, its answer and how often it evaluated the condition. */
  datatype Outcome<T, C, R> = Outcome(cold: Cold<T, C>, result: R, evaluations: nat)

  function Refresh<T, C(==)>(c: Cold<T, C>, now: int, fetched: C): Cold<T, C> {
    var c := c.(due := now + CONDITION_REFRESH_INTERVAL);
    if fetched != c.last then c.(last := fetched, ready := 0, available := |c.queue|) else c
  }

  function RefreshIfDue<T, C(==)>(c: Cold<T, C>, now: int, fetched: C): Cold<T, C> {
    if now < c.due then c else Refresh(c, now, fetched)
  }

  ghost function Take<T, C>(c0: Cold<T, C>, cond: (C, T) -> bool, now: int, fetched: C): Outcome<T, C, TakeResult<T>>
    requires c0.Barriers()
  {
    var c := RefreshIfDue(c0, now, fetched);
    if c.available == 0 then Outcome(c, NoneAvailable, 0) else
      var a := c.queue[0];
      var popped := c.(queue := c.queue[1..], available := c.available - 1);
      if c.ready > 0 then Outcome(popped.(ready := c.ready - 1), Taken(a), 0)
      else if cond(c.last, a.value) then Outcome(popped, Taken(a), 1)
      else Outcome(popped.(queue := c.queue[1..] + [a]), SomeMayBeAvailable, 1)
  }

  /** `discard` after its refresh. */
  ghost function DiscardLast<T, C>(c: Cold<T, C>, cond: (C, T) -> bool): Outcome<T, C, DiscardResult<T>>
    requires c.Barriers()
  {
    var n := |c.queue|;
    if c.ready == n then Outcome(c, NoneRemain, 0) else
      var a := c.queue[n - 1];
      var popped := c.(queue := c.queue[..n - 1]);
      if c.available < n then Outcome(popped, Discarded(a), 0)
      else if !cond(c.last, a.value) then Outcome(popped.(available := n - 1), Discarded(a), 1)
      else Outcome(popped.(queue := [a] + c.queue[..n - 1], ready := c.ready + 1), SomeMayRemain, 1)
  }

  ghost function Discard<T, C>(c: Cold<T, C>, cond: (C, T) -> bool, now: int,
        fetched: C): Outcome<T, C, DiscardResult<T>>
    requires c.Barriers()
  {
    DiscardLast(RefreshIfDue(c, now, fetched), cond)
  }

  ghost function AddIfSatisfied<T, C>(c0: Cold<T, C>, a: Asset<T>, cond: (C, T) -> bool, now: int, fetched: C)
    : Outcome<T, C, AddResult<T>>
  {
    var c := RefreshIfDue(c0, now, fetched);
    if cond(c.last, a.value)
    then Outcome(c.(queue := [a] + c.queue, ready := c.ready + 1, available := c.available + 1), Enqueued, 1)
    else Outcome(c, Returned(a.value), 1)
  }

  ghost function AddIfNotSatisfied<T, C>(c0: Cold<T, C>, a: Asset<T>, cond: (C, T) -> bool, now: int, fetched: C)
    : Outcome<T, C, AddResult<T>>
  {
    var c := RefreshIfDue(c0, now, fetched);
    if cond(c.last, a.value) then Outcome(c, Returned(a.value), 1)
    else Outcome(c.(queue := c.queue + [a]), Enqueued, 1)
  }

  /**
   * A call at `now` goes by a condition value that is at most a second old: it fetches a new one exactly when the last
   * fetch is a second or more ago, and a new value makes every asset unknown again.
   */
  lemma RefreshMeaning<T, C>(c: Cold<T, C>, now: int, fetched: C)
    ensures Refresh(c, now, fetched).last == fetched && Refresh(c, now, fetched).due == now + 1_000_000_000
    ensures Refresh(c, now, fetched).Unknown() == if fetched == c.last then c.Unknown() else |c.queue|
    ensures Refresh(c, now, fetched).queue == c.queue &&
            (fetched == c.last ==> Refresh(c, now, fetched).ready == c.ready)
    ensures RefreshIfDue(c, now, fetched).due > now
    ensures RefreshIfDue(c, now, fetched) == if c.due > now then c else Refresh(c, now, fetched)
  {}

  // ----- What the operations mean for the contents -----

  lemma PopFront<X>(q: seq<X>)
    requires q != []
    ensures multiset(q) == multiset{q[0]} + multiset(q[1..])
  {
    assert q == [q[0]] + q[1..];
  }

  lemma PopBack<X>(q: seq<X>)
    requires q != []
    ensures multiset(q) == multiset(q[..|q| - 1]) + multiset{q[|q| - 1]}
  {
    assert q == q[..|q| - 1] + [q[|q| - 1]];
  }

  lemma RefreshKeepsSorted<T, C>(c: Cold<T, C>, cond: (C, T) -> bool, now: int, fetched: C)
    requires c.Sorted(cond)
    ensures RefreshIfDue(c, now, fetched).Sorted(cond) && RefreshIfDue(c, now, fetched).queue == c.queue
    ensures Refresh(c, now, fetched).Sorted(cond) && Refresh(c, now, fetched).queue == c.queue
  {}

  /**
   * `take` hands out a satisfying asset that was in the queue, or moves one failing asset out of reach,
   * or finds that no asset in the queue satisfies the condition. The barriers stay truthful throughout.
   */
  lemma TakeMeaning<T, C>(c: Cold<T, C>, cond: (C, T) -> bool, now: int, fetched: C)
    requires c.Sorted(cond)
    ensures var o := Take(c, cond, now, fetched);
            var c1 := RefreshIfDue(c, now, fetched);
            && o.cold.Sorted(cond) && o.cold.last == c1.last
            && match o.result
               case Taken(a) => cond(c1.last, a.value) && c.Bag() == multiset{a} + o.cold.Bag()
               case SomeMayBeAvailable => o.cold.Bag() == c.Bag() && o.cold.available + 1 == c1.available
               case NoneAvailable => o.cold == c1 && (forall a :: a in c.queue ==> !cond(c1.last, a.value))
  {
    var c1 := RefreshIfDue(c, now, fetched);
    RefreshKeepsSorted(c, cond, now, fetched);
    if c1.available > 0 {
      PopFront(c1.queue);
    }
  }

  lemma BackToFront<X>(q: seq<X>)
    requires q != []
    ensures multiset([q[|q| - 1]] + q[..|q| - 1]) == multiset(q)
  {
    PopBack(q);
  }

  lemma DiscardKeepsSorted<T, C>(c: Cold<T, C>, cond: (C, T) -> bool)
    requires c.Sorted(cond)
    ensures DiscardLast(c, cond).cold.Sorted(cond) && DiscardLast(c, cond).cold.last == c.last
  {}

  lemma DiscardContents<T, C>(c: Cold<T, C>, cond: (C, T) -> bool)
    requires c.Sorted(cond)
    ensures var o := DiscardLast(c, cond);
            match o.result
            case Discarded(a) => !cond(c.last, a.value) && c.Bag() == multiset{a} + o.cold.Bag() &&
                o.cold.ready == c.ready
            case SomeMayRemain => o.cold.Bag() == c.Bag() && o.cold.ready == c.ready + 1
            case NoneRemain => o.cold == c && (forall a :: a in c.queue ==> cond(c.last, a.value))
  {
    if c.ready < |c.queue| {
      PopBack(c.queue);
      BackToFront(c.queue);
    }
  }

  /**
   * `discard` removes a failing asset that was in the queue, or confirms one satisfying asset,
   * or finds that every asset in the queue satisfies the condition.
   */
  lemma DiscardMeaning<T, C>(c: Cold<T, C>, cond: (C, T) -> bool, now: int, fetched: C)
    requires c.Sorted(cond)
    ensures var o := Discard(c, cond, now, fetched);
            var c1 := RefreshIfDue(c, now, fetched);
            && o.cold.Sorted(cond) && o.cold.last == c1.last
            && match o.result
               case Discarded(a) =>
                 !cond(c1.last, a.value) && c.Bag() == multiset{a} + o.cold.Bag() && o.cold.ready == c1.ready
               case SomeMayRemain => o.cold.Bag() == c.Bag() && o.cold.ready == c1.ready + 1
               case NoneRemain => o.cold == c1 && (forall a :: a in c.queue ==> cond(c1.last, a.value))
  {
    var c1 := RefreshIfDue(c, now, fetched);
    RefreshKeepsSorted(c, cond, now, fetched);
    DiscardKeepsSorted(c1, cond);
    DiscardContents(c1, cond);
  }

  /** `add_if_condition_satisfied` keeps exactly the satisfying asset, in the ready section. */
  lemma AddIfSatisfiedMeaning<T, C>(c: Cold<T, C>, a: Asset<T>, cond: (C, T) -> bool, now: int, fetched: C)
    requires c.Sorted(cond)
    ensures var o := AddIfSatisfied(c, a, cond, now, fetched);
            var c1 := RefreshIfDue(c, now, fetched);
            && o.cold.Sorted(cond) && o.cold.last == c1.last
            && o.evaluations == 1
            && (o.result.Enqueued? <==> cond(c1.last, a.value))
            && (o.result.Enqueued? ==> o.cold.Bag() == multiset{a} + c.Bag() && o.cold.ready == c1.ready + 1)
            && (!o.result.Enqueued? ==> o.cold == c1 && o.result.value == a.value)
  {}

  /** `add_if_condition_not_satisfied` keeps exactly the failing asset, out of the takers' reach. */
  lemma AddIfNotSatisfiedMeaning<T, C>(c: Cold<T, C>, a: Asset<T>, cond: (C, T) -> bool, now: int, fetched: C)
    requires c.Sorted(cond)
    ensures var o := AddIfNotSatisfied(c, a, cond, now, fetched);
            var c1 := RefreshIfDue(c, now, fetched);
            && o.cold.Sorted(cond) && o.cold.last == c1.last
            && o.evaluations == 1
            && (o.result.Enqueued? <==> !cond(c1.last, a.value))
            && (o.result.Enqueued? ==> o.cold.Bag() == multiset{a} + c.Bag() && o.cold.available == c1.available)
            && (!o.result.Enqueued? ==> o.cold == c1 && o.result.value == a.value)
  {}

  // ----- Cost over whole runs -----

  datatype Op<T, C> =
    | OpTake(now: int, fetched: C)
    | OpDiscard(now: int, fetched: C)
    | OpAddIfSatisfied(asset: Asset<T>, now: int, fetched: C)
    | OpAddIfNotSatisfied(asset: Asset<T>, now: int, fetched: C)
    | OpRefresh(now: int, fetched: C)

  ghost function After<T, C>(c: Cold<T, C>, cond: (C, T) -> bool, op: Op<T, C>): Cold<T, C>
    requires c.Barriers()
    ensures After(c, cond, op).Barriers()
  {
    match op
    case OpTake(now, v) => Take(c, cond, now, v).cold
    case OpDiscard(now, v) => Discard(c, cond, now, v).cold
    case OpAddIfSatisfied(a, now, v) => AddIfSatisfied(c, a, cond, now, v).cold
    case OpAddIfNotSatisfied(a, now, v) => AddIfNotSatisfied(c, a, cond, now, v).cold
    case OpRefresh(now, v) => Refresh(c, now, v)
  }

  /** Evaluations of the condition made while scanning, that is by `take` and `discard`. */
  ghost function ScanCost<T, C>(c: Cold<T, C>, cond: (C, T) -> bool, op: Op<T, C>): nat
    requires c.Barriers()
  {
    match op
    case OpTake(now, v) => Take(c, cond, now, v).evaluations
    case OpDiscard(now, v) => Discard(c, cond, now, v).evaluations
    case _ => 0
  }

  /** What a changed condition value adds to the unknown section: every asset known so far. */
  ghost function Reset<T, C>(c: Cold<T, C>, op: Op<T, C>): int {
    var changes := op.fetched != c.last && (op.OpRefresh? || op.now >= c.due);
    if changes then |c.queue| - c.Unknown() else 0
  }

  ghost function RunOps<T, C>(c: Cold<T, C>, cond: (C, T) -> bool, ops: seq<Op<T, C>>): Cold<T, C>
    requires c.Barriers()
    decreases |ops|
  {
    if ops == [] then c else RunOps(After(c, cond, ops[0]), cond, ops[1..])
  }

  ghost function TotalScanCost<T, C>(c: Cold<T, C>, cond: (C, T) -> bool, ops: seq<Op<T, C>>): nat
    requires c.Barriers()
    decreases |ops|
  {
    if ops == [] then 0
    else ScanCost(c, cond, ops[0]) + TotalScanCost(After(c, cond, ops[0]), cond, ops[1..])
  }

  ghost function TotalReset<T, C>(c: Cold<T, C>, cond: (C, T) -> bool, ops: seq<Op<T, C>>): int
    requires c.Barriers()
    decreases |ops|
  {
    if ops == [] then 0
    else Reset(c, ops[0]) + TotalReset(After(c, cond, ops[0]), cond, ops[1..])
  }

  /** One step: the unknown section shrinks by exactly the evaluations made, and grows only by a reset. */
  lemma ScanPotential<T, C>(c: Cold<T, C>, cond: (C, T) -> bool, op: Op<T, C>)
    requires c.Barriers()
    ensures ScanCost(c, cond, op) + After(c, cond, op).Unknown() == c.Unknown() + Reset(c, op)
  {}

  /** Over every run: scanning evaluations are paid for exactly by the unknown section and its resets. */
  lemma {:induction false} AmortisedScanCost<T, C>(c: Cold<T, C>, cond: (C, T) -> bool, ops: seq<Op<T, C>>)
    requires c.Barriers()
    ensures TotalScanCost(c, cond, ops) + RunOps(c, cond, ops).Unknown() == c.Unknown() + TotalReset(c, cond, ops)
    decreases |ops|
  {
    if ops != [] {
      ScanPotential(c, cond, ops[0]);
      AmortisedScanCost(After(c, cond, ops[0]), cond, ops[1..]);
    }
  }

  ghost predicate Stable<T, C>(ops: seq<Op<T, C>>, v: C) {
    forall i :: 0 <= i < |ops| ==> ops[i].fetched == v
  }

  lemma {:induction false} StableMeansNoReset<T, C>(c: Cold<T, C>, cond: (C, T) -> bool, ops: seq<Op<T, C>>)
    requires c.Barriers() && Stable(ops, c.last)
    ensures TotalReset(c, cond, ops) == 0
    decreases |ops|
  {
    if ops != [] {
      assert ops[0].fetched == c.last;
      assert After(c, cond, ops[0]).last == c.last;
      StableMeansNoReset(After(c, cond, ops[0]), cond, ops[1..]);
    }
  }

  /** Between two changes of the condition value, scanning evaluates at most the unknown assets it started with. */
  lemma ScanCostBetweenChanges<T, C>(c: Cold<T, C>, cond: (C, T) -> bool, ops: seq<Op<T, C>>)
    requires c.Barriers() && Stable(ops, c.last)
    ensures TotalScanCost(c, cond, ops) <= c.available - c.ready
  {
    AmortisedScanCost(c, cond, ops);
    StableMeansNoReset(c, cond, ops);
    assert RunOps(c, cond, ops).Barriers() by { RunKeepsBarriers(c, cond, ops); }
  }

  lemma {:induction false} RunKeepsBarriers<T, C>(c: Cold<T, C>, cond: (C, T) -> bool, ops: seq<Op<T, C>>)
    requires c.Barriers()
    ensures RunOps(c, cond, ops).Barriers()
    decreases |ops|
  {
    if ops != [] { RunKeepsBarriers(After(c, cond, ops[0]), cond, ops[1..]); }
  }

  lemma StepKeepsSorted<T, C>(c: Cold<T, C>, cond: (C, T) -> bool, op: Op<T, C>)
    requires c.Sorted(cond)
    ensures After(c, cond, op).Sorted(cond)
  {
    match op {
      case OpTake(now, v) => TakeMeaning(c, cond, now, v);
      case OpDiscard(now, v) => DiscardMeaning(c, cond, now, v);
      case OpAddIfSatisfied(a, now, v) => AddIfSatisfiedMeaning(c, a, cond, now, v);
      case OpAddIfNotSatisfied(a, now, v) => AddIfNotSatisfiedMeaning(c, a, cond, now, v);
      case OpRefresh(now, v) => RefreshKeepsSorted(c, cond, now, v);
    }
  }

  /** After every run of operations the barriers still tell the truth about the last fetched condition. */
  lemma {:induction false} RunKeepsSorted<T, C>(c: Cold<T, C>, cond: (C, T) -> bool, ops: seq<Op<T, C>>)
    requires c.Sorted(cond)
    ensures RunOps(c, cond, ops).Sorted(cond)
    decreases |ops|
  {
    if ops != [] {
      StepKeepsSorted(c, cond, ops[0]);
      RunKeepsSorted(After(c, cond, ops[0]), cond, ops[1..]);
    }
  }

  // ----- The queue as the object the node uses -----

  class ColdQueue<T, C(==)> {
    var coldReady: nat
    var coldAvailable: nat
    var coldQueue: seq<Asset<T>>
    var lastConditionValue: C
    var nextFetchDue: int
    const condition: (C, T) -> bool
    /** How often the condition has been evaluated. */
    ghost var evaluations: nat

    ghost function View(): Cold<T, C>
      reads this
    {
      Cold(coldReady, coldAvailable, coldQueue, lastConditionValue, nextFetchDue)
    }

    ghost predicate Valid()
      reads this
    {
      View().Sorted(condition)
    }

    constructor (now: int, condition: (C, T) -> bool, default: C)
      ensures Valid()
      ensures View() == Cold(0, 0, [], default, now) && this.condition == condition && evaluations == 0
    {
      coldReady, coldAvailable, coldQueue := 0, 0, [];
      lastConditionValue := default;
      nextFetchDue := now;
      this.condition := condition;
      evaluations := 0;
    }

    /** Evaluates the condition once. */
    method Check(value: T) returns (ok: bool)
      modifies this`evaluations
      ensures ok == condition(lastConditionValue, value)
      ensures evaluations == old(evaluations) + 1
    {
      ok := condition(lastConditionValue, value);
      evaluations := evaluations + 1;
    }

    method UpdateConditionValue(now: int, fetched: C)
      requires Valid()
      modifies this
      ensures Valid() && View() == Refresh(old(View()), now, fetched) && evaluations == old(evaluations)
    {
      nextFetchDue := now + CONDITION_REFRESH_INTERVAL;
      if fetched != lastConditionValue {
        lastConditionValue := fetched;
        coldReady := 0;
        coldAvailable := |coldQueue|;
      }
    }

    method UpdateConditionValueIfDue(now: int, fetched: C)
      requires Valid()
      modifies this
      ensures Valid() && View() == RefreshIfDue(old(View()), now, fetched) && evaluations == old(evaluations)
    {
      if now < nextFetchDue {
        return;
      }
      UpdateConditionValue(now, fetched);
    }

    method TakeOne(now: int, fetched: C) returns (r: TakeResult<T>)
      requires Valid()
      modifies this
      ensures Valid()
      ensures var o := Take(old(View()), condition, now, fetched);
              View() == o.cold && r == o.result && evaluations == old(evaluations) + o.evaluations
    {
      TakeMeaning(View(), condition, now, fetched);
      UpdateConditionValueIfDue(now, fetched);
      if coldAvailable == 0 {
        return NoneAvailable;
      }
      var asset := coldQueue[0];
      coldQueue := coldQueue[1..];
      coldAvailable := coldAvailable - 1;
      if coldReady > 0 {
        coldReady := coldReady - 1;
        return Taken(asset);
      }
      var ok := Check(asset.value);
      if ok {
        return Taken(asset);
      }
      coldQueue := coldQueue + [asset];
      return SomeMayBeAvailable;
    }

    method DiscardOne(now: int, fetched: C) returns (r: DiscardResult<T>)
      requires Valid()
      modifies this
      ensures Valid()
      ensures var o := Discard(old(View()), condition, now, fetched);
              View() == o.cold && r == o.result && evaluations == old(evaluations) + o.evaluations
    {
      DiscardMeaning(View(), condition, now, fetched);
      UpdateConditionValueIfDue(now, fetched);
      if coldReady == |coldQueue| {
        return NoneRemain;
      }
      var asset := coldQueue[|coldQueue| - 1];
      coldQueue := coldQueue[..|coldQueue| - 1];
      var satisfied := false;
      if coldAvailable > |coldQueue| {
        coldAvailable := coldAvailable - 1;
        satisfied := Check(asset.value);
      }
      if !satisfied {
        return Discarded(asset);
      }
      coldQueue := [asset] + coldQueue;
      coldReady := coldReady + 1;
      coldAvailable := coldAvailable + 1;
      return SomeMayRemain;
    }

    method AddIfConditionSatisfied(asset: Asset<T>, now: int, fetched: C) returns (r: AddResult<T>)
      requires Valid()
      modifies this
      ensures Valid()
      ensures var o := AddIfSatisfied(old(View()), asset, condition, now, fetched);
              View() == o.cold && r == o.result && evaluations == old(evaluations) + o.evaluations
    {
      AddIfSatisfiedMeaning(View(), asset, condition, now, fetched);
      UpdateConditionValueIfDue(now, fetched);
      var ok := Check(asset.value);
      if ok {
        coldQueue := [asset] + coldQueue;
        coldReady := coldReady + 1;
        coldAvailable := coldAvailable + 1;
        return Enqueued;
      }
      return Returned(asset.value);
    }

    method AddIfConditionNotSatisfied(asset: Asset<T>, now: int, fetched: C) returns (r: AddResult<T>)
      requires Valid()
      modifies this
      ensures Valid()
      ensures var o := AddIfNotSatisfied(old(View()), asset, condition, now, fetched);
              View() == o.cold && r == o.result && evaluations == old(evaluations) + o.evaluations
    {
      AddIfNotSatisfiedMeaning(View(), asset, condition, now, fetched);
      UpdateConditionValueIfDue(now, fetched);
      var ok := Check(asset.value);
      if ok {
        return Returned(asset.value);
      }
      coldQueue := coldQueue + [asset];
      return Enqueued;
    }
  }
}
