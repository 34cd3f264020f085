/** The double queue: a hot FIFO of fresh assets in front of the cold queue. */
module DoubleQueues {
  import opened Wrappers
  import opened UniqueIds
  import opened ColdQueues

  /** Those of the first `k` assets that fail the condition, in order. */
  ghost function Failing<T, C>(assets: seq<Asset<T>>, k: nat, condition: (C, T) -> bool, v: C): seq<Asset<T>>
    requires k <= |assets|
  {
    if k == 0 then [] else
      Failing(assets, k - 1, condition, v) + if condition(v, assets[k - 1].value) then [] else [assets[k - 1]]
  }

  ghost predicate FirstSatisfy<T, C>(assets: seq<Asset<T>>, k: nat, condition: (C, T) -> bool, v: C)
    requires k <= |assets|
  {
    forall i :: 0 <= i < k ==> condition(v, assets[i].value)
  }

  /** They are exactly the failing ones among the first `k`. */
  lemma {:induction false} FailingMeaning<T, C>(assets: seq<Asset<T>>, k: nat, condition: (C, T) -> bool, v: C)
    requires k <= |assets|
    ensures forall a :: a in Failing(assets, k, condition, v) <==> a in assets[..k] && !condition(v, a.value)
  {
    if k > 0 {
      FailingMeaning(assets, k - 1, condition, v);
      assert assets[..k] == assets[..k - 1] + [assets[k - 1]];
    }
  }

  /** Nothing fails among the first `k` assets exactly when each of them satisfies. */
  lemma {:induction false} NoneFailing<T, C>(assets: seq<Asset<T>>, k: nat, condition: (C, T) -> bool, v: C)
    requires k <= |assets|
    ensures Failing(assets, k, condition, v) == [] <==> FirstSatisfy(assets, k, condition, v)
  {
    if k > 0 { NoneFailing(assets, k - 1, condition, v); }
  }

  ghost predicate AllFail<T, C>(assets: seq<Asset<T>>, condition: (C, T) -> bool, v: C) {
    forall i :: 0 <= i < |assets| ==> !condition(v, assets[i].value)
  }

  ghost predicate IdsOf<T>(ids: seq<UniqueId>, assets: seq<Asset<T>>) {
    |ids| == |assets| && forall i :: 0 <= i < |ids| ==> ids[i] == assets[i].id
  }

  /** The assets `dropped` are what was there and is there no more. */
  ghost predicate Dropped<T>(before: multiset<Asset<T>>, dropped: seq<Asset<T>>, after: multiset<Asset<T>>) {
    before == multiset(dropped) + after
  }

  /** The same for what was dropped in two rounds. */
  ghost predicate DroppedBoth<T>(before: multiset<Asset<T>>, d: seq<Asset<T>>, e: seq<Asset<T>>,
        after: multiset<Asset<T>>) {
    before == multiset(d) + multiset(e) + after
  }

  /** No satisfying asset was lost. */
  ghost predicate SatisfyingKept<T, C>(before: multiset<Asset<T>>, after: multiset<Asset<T>>,
        condition: (C, T) -> bool, v: C) {
    forall a :: a in before + after && condition(v, a.value) ==> after[a] == before[a]
  }

  /** Exactly the satisfying assets are left. */
  ghost predicate SatisfyingLeft<T, C>(before: multiset<Asset<T>>, after: multiset<Asset<T>>,
        condition: (C, T) -> bool, v: C) {
    forall a :: a in before + after ==> after[a] == if condition(v, a.value) then before[a] else 0
  }

  class DoubleQueue<T, C(==)> {
    var hot: seq<Asset<T>>
    const cold: ColdQueue<T, C>

    ghost predicate Valid()
      reads this, cold
    {
      cold.Valid()
    }

    /** The queue seen as a plain bag of assets. */
    ghost function Bag(): multiset<Asset<T>>
      reads this, cold
    {
      multiset(hot) + multiset(cold.coldQueue)
    }

    constructor (now: int, condition: (C, T) -> bool, default: C)
      ensures Valid() && fresh(cold) && cold.condition == condition
      ensures hot == [] && cold.View() == Cold(0, 0, [], default, now)
    {
      hot := [];
      cold := new ColdQueue<T, C>(now, condition, default);
    }

    method AddOwned(asset: Asset<T>)
      requires Valid()
      modifies this
      ensures Valid() && hot == old(hot) + [asset] && Bag() == old(Bag()) + multiset{asset}
    {
      hot := hot + [asset];
    }

    function Available(): nat
      reads this, cold
    {
      |hot| + cold.coldAvailable
    }

    function Ready(): nat
      reads this, cold
    {
      cold.coldReady
    }

    function Offline(): nat
      requires Valid()
      reads this, cold
    {
      |cold.coldQueue| - cold.coldAvailable
    }

    /**
     * Available and offline assets together are all assets, and the ready ones are among the available. The cold queue
     * is its ready, its unknown and its offline assets: ready ones satisfy the last condition, offline ones fail it.
     */
    lemma CountsAddUp()
      requires Valid()
      ensures Available() + Offline() == |Bag()|
      ensures Ready() <= Available()
      ensures |cold.coldQueue| == Ready() + cold.View().Unknown() + Offline()
      ensures forall i :: 0 <= i < Ready() ==> cold.condition(cold.lastConditionValue, cold.coldQueue[i].value)
      ensures forall i :: |cold.coldQueue| - Offline() <= i < |cold.coldQueue| ==>
                !cold.condition(cold.lastConditionValue, cold.coldQueue[i].value)
    {}

    /** One locked call of `take` on the cold queue. */
    method TakeCold(now: int, v: C) returns (r: TakeResult<T>)
      requires Valid() && cold.lastConditionValue == v
      modifies cold
      ensures Valid() && cold.lastConditionValue == v
      ensures r.Taken? ==> cold.condition(v, r.asset.value) && old(Bag()) == multiset{r.asset} + Bag()
      ensures r.SomeMayBeAvailable? ==> Bag() == old(Bag()) && cold.coldAvailable == old(cold.coldAvailable) - 1
      ensures r.NoneAvailable? ==>
              cold.coldQueue == old(cold.coldQueue) && cold.coldAvailable == old(cold.coldAvailable) == 0
    {
      TakeMeaning(cold.View(), cold.condition, now, v);
      r := cold.TakeOne(now, v);
    }

    /** Receiving one asset from the hot queue; a failing one goes to the back of the cold queue. */
    method TakeHot(now: int, v: C) returns (r: Option<Asset<T>>)
      requires Valid() && cold.lastConditionValue == v && hot != []
      modifies this, cold
      ensures Valid() && cold.lastConditionValue == v && hot == old(hot[1..])
      ensures r.Some? ==> cold.condition(v, r.value.value) && old(Bag()) == multiset{r.value} + Bag()
      ensures r.None? ==> Bag() == old(Bag()) && cold.coldAvailable == old(cold.coldAvailable)
    {
      var asset := hot[0];
      PopFront(hot);
      hot := hot[1..];
      AddIfNotSatisfiedMeaning(cold.View(), asset, cold.condition, now, v);
      var added := cold.AddIfConditionNotSatisfied(asset, now, v);
      return if added.Returned? then Some(Asset(asset.id, added.value)) else None;
    }

    /** Receiving one asset from the hot queue to confirm it; a failing one (`kept` false) is dropped. */
    method ConfirmHot(now: int, v: C) returns (kept: bool)
      requires Valid() && cold.lastConditionValue == v && hot != []
      modifies this, cold
      ensures Valid() && cold.lastConditionValue == v && hot == old(hot[1..])
      ensures kept == cold.condition(v, old(hot[0]).value)
      ensures old(Bag()) == if kept then Bag() else multiset{old(hot[0])} + Bag()
      ensures |cold.coldQueue| - cold.coldReady == old(|cold.coldQueue| - cold.coldReady)
    {
      var asset := hot[0];
      ghost var before, received := cold.View(), hot;
      hot := hot[1..];
      AddIfSatisfiedMeaning(before, asset, cold.condition, now, v);
      var added := cold.AddIfConditionSatisfied(asset, now, v);
      kept := added.Enqueued?;
      ReceivedOne(received, before.queue, cold.coldQueue, kept);
    }

    static lemma ReceivedOne(hot: seq<Asset<T>>, q: seq<Asset<T>>, q': seq<Asset<T>>, kept: bool)
      requires hot != []
      requires multiset(q') == if kept then multiset{hot[0]} + multiset(q) else multiset(q)
      ensures var after := multiset(hot[1..]) + multiset(q');
              multiset(hot) + multiset(q) == if kept then after else multiset{hot[0]} + after
    {
      PopFront(hot);
    }

    /** After `k` of the hot assets `h` were examined: the failing ones are dropped, everything else is still there. */
    ghost predicate Drained(start: multiset<Asset<T>>, h: seq<Asset<T>>, k: nat, dropped: seq<Asset<T>>, v: C)
      reads this, cold
    {
      && k <= |h| && hot == h[k..]
      && dropped == Failing(h, k, cold.condition, v) && AllFail(dropped, cold.condition, v)
      && Dropped(start, dropped, Bag())
    }

    /** One pass of the second loop of `maybe_discard_owned`; `dropped` collects what fails. */
    method DrainOne(now: int, v: C, ghost start: multiset<Asset<T>>, ghost h: seq<Asset<T>>, ghost k: nat,
                    ghost dropped: seq<Asset<T>>)
      returns (ghost dropped': seq<Asset<T>>)
      requires Valid() && cold.lastConditionValue == v && hot != [] && Drained(start, h, k, dropped, v)
      modifies this, cold
      ensures Valid() && cold.lastConditionValue == v && |hot| == old(|hot|) - 1
      ensures Drained(start, h, k + 1, dropped', v)
      ensures |cold.coldQueue| - cold.coldReady == old(|cold.coldQueue| - cold.coldReady)
    {
      ghost var asset, before := hot[0], Bag();
      assert asset == h[k] && hot[1..] == h[k + 1..];
      var kept := ConfirmHot(now, v);
      dropped' := dropped;
      if kept {
        assert dropped + [] == dropped;
      } else {
        DropOne(start, before, Bag(), dropped, asset);
        dropped' := dropped + [asset];
      }
    }

    /**
     * `take_owned` while the condition value `v` is stable and nobody else steps. `clock` gives the
     * time of each locked call; `None` means that the call is now waiting for the hot queue.
     * It is a search in a bag: it answers exactly when some asset satisfies the condition, removes
     * that asset and nothing else, and needs no more passes than there are candidates.
     */
    method TakeOwned(clock: nat -> int, v: C) returns (r: Option<Asset<T>>, passes: nat)
      requires Valid()
      modifies this, cold
      ensures Valid() && cold.lastConditionValue == v
      ensures r.Some? <==> exists a :: a in old(Bag()) && cold.condition(v, a.value)
      ensures r.Some? ==> cold.condition(v, r.value.value) && old(Bag()) == multiset{r.value} + Bag()
      ensures r.None? ==> Bag() == old(Bag()) && hot == [] && cold.coldAvailable == 0
      ensures var candidates := old(|hot|) + Refresh(old(cold.View()), clock(0), v).available;
              if r.Some? then 1 <= passes <= candidates else passes == candidates + 1
    {
      cold.UpdateConditionValue(clock(0), v);
      passes := 0;
      ghost var candidates := |hot| + cold.coldAvailable;
      assert Bag() == old(Bag());
      while true
        invariant Valid() && cold.lastConditionValue == v
        invariant Bag() == old(Bag())
        invariant passes + |hot| + cold.coldAvailable == candidates
        decreases |hot| + cold.coldAvailable
      {
        passes := passes + 1;
        var taken := TakeCold(clock(2 * passes), v);
        match taken {
          case Taken(asset) =>
            assert asset in old(Bag());
            return Some(asset), passes;
          case SomeMayBeAvailable =>
          case NoneAvailable =>
            if hot == [] {
              assert forall a :: a in Bag() ==> a in cold.coldQueue;
              return None, passes;
            }
            r := TakeHot(clock(2 * passes + 1), v);
            if r.Some? {
              assert r.value in old(Bag());
              return r, passes;
            }
        }
      }
    }

    /** One locked call of `discard` on the cold queue. */
    method DiscardColdOnce(now: int, v: C) returns (r: DiscardResult<T>)
      requires Valid() && cold.lastConditionValue == v
      modifies cold
      ensures Valid() && cold.lastConditionValue == v
      ensures r.Discarded? ==> !cold.condition(v, r.asset.value)
      ensures old(multiset(cold.coldQueue))
              == if r.Discarded? then multiset{r.asset} + multiset(cold.coldQueue) else multiset(cold.coldQueue)
      ensures old(|cold.coldQueue| - cold.coldReady)
              == |cold.coldQueue| - cold.coldReady + if r.NoneRemain? then 0 else 1
      ensures r.NoneRemain? ==> cold.coldReady == |cold.coldQueue|
    {
      ghost var before := cold.View();
      DiscardMeaning(before, cold.condition, now, v);
      r := cold.DiscardOne(now, v);
    }

    /** The first loop of `maybe_discard_owned`: scan the cold queue from the back. */
    method DiscardCold(n: nat, clock: nat -> int, v: C)
      returns (removed: seq<UniqueId>, left: nat, ghost dropped: seq<Asset<T>>)
      requires Valid() && cold.lastConditionValue == v
      modifies cold
      ensures Valid() && cold.lastConditionValue == v && hot == old(hot)
      ensures IdsOf(removed, dropped) && AllFail(dropped, cold.condition, v)
      ensures Dropped(old(multiset(cold.coldQueue)), dropped, multiset(cold.coldQueue))
      ensures n - left == Min(n, old(|cold.coldQueue| - cold.coldReady))
      ensures |cold.coldQueue| - cold.coldReady + (n - left) == old(|cold.coldQueue| - cold.coldReady)
    {
      ghost var start, unconfirmed := multiset(cold.coldQueue), |cold.coldQueue| - cold.coldReady;
      removed, left, dropped := [], n, [];
      while left > 0
        invariant Valid() && cold.lastConditionValue == v && left <= n
        invariant IdsOf(removed, dropped) && AllFail(dropped, cold.condition, v)
        invariant Dropped(start, dropped, multiset(cold.coldQueue))
        invariant |cold.coldQueue| - cold.coldReady + (n - left) == unconfirmed
      {
        ghost var before := multiset(cold.coldQueue);
        var discarded := DiscardColdOnce(clock(left), v);
        match discarded {
          case Discarded(asset) =>
            DropOne(start, before, multiset(cold.coldQueue), dropped, asset);
            removed := removed + [asset.id];
            dropped := dropped + [asset];
            left := left - 1;
          case SomeMayRemain =>
            left := left - 1;
          case NoneRemain =>
            break;
        }
      }
    }

    /** The second loop of `maybe_discard_owned`: drain the hot queue, silently dropping what fails. */
    method DrainHot(n: nat, clock: nat -> int, v: C) returns (left: nat, ghost dropped: seq<Asset<T>>)
      requires Valid() && cold.lastConditionValue == v
      modifies this, cold
      ensures Valid() && cold.lastConditionValue == v
      ensures n - left == Min(n, old(|hot|)) && Drained(old(Bag()), old(hot), n - left, dropped, v)
      ensures |cold.coldQueue| - cold.coldReady == old(|cold.coldQueue| - cold.coldReady)
    {
      ghost var start, h, unconfirmed, k: nat := Bag(), hot, |cold.coldQueue| - cold.coldReady, 0;
      left, dropped := n, [];
      DrainedNone(start, v);
      while left > 0
        invariant Valid() && cold.lastConditionValue == v && k + left == n && |hot| + k == |h|
        invariant Drained(start, h, k, dropped, v)
        invariant |cold.coldQueue| - cold.coldReady == unconfirmed
      {
        if hot == [] {
          break;
        }
        left := left - 1;
        dropped := DrainOne(clock(left), v, start, h, k, dropped);
        k := k + 1;
      }
    }

    lemma DrainedNone(start: multiset<Asset<T>>, v: C)
      requires start == Bag()
      ensures Drained(start, hot, 0, [], v)
    {
      assert hot[0..] == hot;
    }

    /** How many cold assets are not confirmed, once the condition value `v` is fetched. */
    ghost function Unconfirmed(now: int, v: C): nat
      requires Valid()
      reads this, cold
    {
      |cold.coldQueue| - Refresh(cold.View(), now, v).ready
    }

    /** How many hot assets a discard of up to `n` examines, after `unconfirmed` cold ones. */
    static function HotExamined(n: nat, unconfirmed: int, hot: nat): (k: nat)
      ensures k <= hot
    {
      if n <= unconfirmed then 0 else Min(n - unconfirmed, hot)
    }

    /** Both loops of `maybe_discard_owned`, once the condition value is fetched. */
    method RunBothLoops(n: nat, clock: nat -> int, v: C, ghost h: seq<Asset<T>>, ghost unconfirmed: nat, ghost k: nat)
      returns (removed: seq<UniqueId>, ghost examined: nat, ghost fromCold: seq<Asset<T>>, ghost fromHot: seq<Asset<T>>,
               ghost all: multiset<Asset<T>>, ghost q: multiset<Asset<T>>)
      requires Valid() && cold.lastConditionValue == v
      requires h == hot && unconfirmed == |cold.coldQueue| - cold.coldReady && k == HotExamined(n, unconfirmed, |h|)
      modifies this, cold
      ensures Valid() && cold.lastConditionValue == v
      ensures IdsOf(removed, fromCold) && AllFail(fromCold, cold.condition, v)
      ensures Dropped(old(multiset(cold.coldQueue)), fromCold, q) && all == multiset(h) + q
      ensures examined == Min(n, unconfirmed + |h|) && Drained(all, h, k, fromHot, v)
      ensures n >= unconfirmed + |h| ==> k == |h| && cold.coldReady == |cold.coldQueue|
    {
      var left, left';
      removed, left, fromCold := DiscardCold(n, clock, v);
      all, q := Bag(), multiset(cold.coldQueue);
      left', fromHot := DrainHot(left, clock, v);
      ExaminedCounts(n, left, left', unconfirmed, |h|);
      assert left - left' == k;
      examined := n - left';
    }

    lemma DrainedMeaning(start: multiset<Asset<T>>, h: seq<Asset<T>>, k: nat, dropped: seq<Asset<T>>, v: C)
      requires Drained(start, h, k, dropped, v)
      ensures dropped == Failing(h, k, cold.condition, v) && AllFail(dropped, cold.condition, v)
      ensures Dropped(start, dropped, Bag()) && (k == |h| ==> hot == [])
    {}

    /** What the two loops drop and leave. */
    method DiscardBoth(n: nat, clock: nat -> int, v: C, ghost bag: multiset<Asset<T>>, ghost h: seq<Asset<T>>,
                       ghost unconfirmed: nat)
      returns (removed: seq<UniqueId>, ghost examined: nat, ghost fromCold: seq<Asset<T>>, ghost fromHot: seq<Asset<T>>)
      requires Valid() && cold.lastConditionValue == v
      requires bag == Bag() && h == hot && unconfirmed == |cold.coldQueue| - cold.coldReady
      modifies this, cold
      ensures Valid() && cold.lastConditionValue == v
      ensures IdsOf(removed, fromCold) && AllFail(fromCold, cold.condition, v) && AllFail(fromHot, cold.condition, v)
      ensures DroppedBoth(bag, fromCold, fromHot, Bag())
      ensures examined == Min(n, unconfirmed + |h|)
      ensures fromHot == Failing(h, HotExamined(n, unconfirmed, |h|), cold.condition, v)
      ensures n >= unconfirmed + |h| ==> hot == [] && cold.coldReady == |cold.coldQueue|
    {
      ghost var k := HotExamined(n, unconfirmed, |h|);
      ghost var all, q, q' := bag, multiset(cold.coldQueue), multiset(cold.coldQueue);
      removed, examined, fromCold, fromHot, all, q' := RunBothLoops(n, clock, v, h, unconfirmed, k);
      DrainedMeaning(all, h, k, fromHot, v);
      DroppedTwice(multiset(h), q, q', Bag(), fromCold, fromHot);
    }

    /** No satisfying asset is dropped, and none but satisfying ones is left when every asset is examined. */
    method DiscardFailing(n: nat, clock: nat -> int, v: C, ghost bag: multiset<Asset<T>>, ghost h: seq<Asset<T>>,
                          ghost unconfirmed: nat)
      returns (removed: seq<UniqueId>, ghost examined: nat, ghost fromCold: seq<Asset<T>>, ghost fromHot: seq<Asset<T>>)
      requires Valid() && cold.lastConditionValue == v
      requires bag == Bag() && h == hot && unconfirmed == |cold.coldQueue| - cold.coldReady
      modifies this, cold
      ensures Valid() && cold.lastConditionValue == v
      ensures IdsOf(removed, fromCold) && DroppedBoth(bag, fromCold, fromHot, Bag())
      ensures SatisfyingKept(bag, Bag(), cold.condition, v)
      ensures examined == Min(n, unconfirmed + |h|)
      ensures fromHot == Failing(h, HotExamined(n, unconfirmed, |h|), cold.condition, v)
      ensures n >= unconfirmed + |h| ==>
                hot == [] && cold.coldReady == |cold.coldQueue| && SatisfyingLeft(bag, Bag(), cold.condition, v)
    {
      removed, examined, fromCold, fromHot := DiscardBoth(n, clock, v, bag, h, unconfirmed);
      ghost var end := Bag();
      OnlyFailingDropped(bag, end, fromCold, fromHot, cold.condition, v);
      if n >= unconfirmed + |h| {
        Survivors(bag, end, cold.coldQueue, cold.condition, v);
      }
    }

    /**
     * `maybe_discard_owned` under a stable condition value. It examines exactly as many assets as asked
     * or as there are unconfirmed ones, reports the identifiers dropped from the cold queue (`fromCold`)
     * but not those dropped from the hot one (`fromHot`), and drops failing assets only. Unreported drops
     * are exactly the failing ones among the hot assets examined.
     */
    method MaybeDiscardOwned(n: nat, clock: nat -> int, v: C)
      returns (removed: seq<UniqueId>, ghost examined: nat, ghost fromCold: seq<Asset<T>>, ghost fromHot: seq<Asset<T>>)
      requires Valid()
      modifies this, cold
      ensures Valid() && cold.lastConditionValue == v
      ensures IdsOf(removed, fromCold) && DroppedBoth(old(Bag()), fromCold, fromHot, Bag())
      ensures SatisfyingKept(old(Bag()), Bag(), cold.condition, v)
      ensures var unconfirmed := old(Unconfirmed(clock(0), v));
              && examined == Min(n, unconfirmed + old(|hot|))
              && fromHot == Failing(old(hot), HotExamined(n, unconfirmed, old(|hot|)), cold.condition, v)
              && (n >= unconfirmed + old(|hot|) ==>
                    && hot == [] && cold.coldReady == |cold.coldQueue|
                    && SatisfyingLeft(old(Bag()), Bag(), cold.condition, v))
    {
      ghost var bag, h, unconfirmed := Bag(), hot, Unconfirmed(clock(0), v);
      cold.UpdateConditionValue(clock(0), v);
      removed, examined, fromCold, fromHot := DiscardFailing(n, clock, v, bag, h, unconfirmed);
    }

    /** The two loops share the examined assets: first the unconfirmed cold ones, then hot ones. */
    static lemma ExaminedCounts(n: nat, left: nat, left': nat, unconfirmed: nat, hot: nat)
      requires left <= n && n - left == Min(n, unconfirmed)
      requires left' <= left && left - left' == Min(left, hot)
      ensures n - left' == Min(n, unconfirmed + hot) && left - left' == HotExamined(n, unconfirmed, hot)
      ensures n >= unconfirmed + hot ==> n - left == unconfirmed && left - left' == hot
    {}

    static lemma DroppedTwice(hot: multiset<Asset<T>>, q: multiset<Asset<T>>, q': multiset<Asset<T>>,
                              end: multiset<Asset<T>>, d: seq<Asset<T>>, e: seq<Asset<T>>)
      requires Dropped(q, d, q') && Dropped(hot + q', e, end)
      ensures DroppedBoth(hot + q, d, e, end)
    {
      assert hot + (multiset(d) + q') == multiset(d) + (hot + q');
    }

    /** Where everything left satisfies the condition, exactly the satisfying assets are left. */
    static lemma Survivors(start: multiset<Asset<T>>, end: multiset<Asset<T>>, q: seq<Asset<T>>,
          condition: (C, T) -> bool, v: C)
      requires end == multiset(q) && forall i :: 0 <= i < |q| ==> condition(v, q[i].value)
      requires SatisfyingKept(start, end, condition, v)
      ensures SatisfyingLeft(start, end, condition, v)
    {
      forall a | a in start + end && !condition(v, a.value) ensures end[a] == 0 {
        assert a !in q;
      }
    }

    static lemma DropOne(start: multiset<Asset<T>>, before: multiset<Asset<T>>, after: multiset<Asset<T>>,
          dropped: seq<Asset<T>>, a: Asset<T>)
      requires Dropped(start, dropped, before) && before == multiset{a} + after
      ensures Dropped(start, dropped + [a], after)
    {}

    static lemma OnlyFailingDropped(start: multiset<Asset<T>>, end: multiset<Asset<T>>, d: seq<Asset<T>>,
          e: seq<Asset<T>>, condition: (C, T) -> bool, v: C)
      requires DroppedBoth(start, d, e, end) && AllFail(d, condition, v) && AllFail(e, condition, v)
      ensures SatisfyingKept(start, end, condition, v)
    {
      forall a | a in start + end && condition(v, a.value) ensures end[a] == start[a] {
        assert a !in d && a !in e;
      }
    }
  }
}
