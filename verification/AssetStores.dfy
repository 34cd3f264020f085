/** The asset storage object: the double queue in memory, mirrored to its database column. */
module AssetStores {
  import opened Wrappers
  import opened UniqueIds
  import opened AssetKeys
  import opened AssetColumns
  import opened ColdQueues
  import opened DoubleQueues

  class AssetStore<T, C(==)> {
    var col: Column<T>
    var lastId: Option<UniqueId>
    /** A panic while `lastId` was locked: every later lock of it panics too. */
    var poisoned: bool
    const domain: Option<u64>
    const me: u32
    const queue: DoubleQueue<T, C>

    ghost predicate Valid()
      reads this, queue, queue.cold
    {
      queue.Valid()
    }

    constructor (now: int, col: Column<T>, domain: Option<u64>, me: u32,
                 hot: seq<Asset<T>>, lastId: Option<UniqueId>, condition: (C, T) -> bool, default: C)
      ensures Valid() && fresh(queue) && fresh(queue.cold)
      ensures this.col == col && this.lastId == lastId && !poisoned && this.domain == domain && this.me == me
      ensures queue.hot == hot && queue.cold.condition == condition
      ensures queue.cold.View() == Cold(0, 0, [], default, now)
    {
      this.col, this.domain, this.me, this.lastId, this.poisoned := col, domain, me, lastId, false;
      queue := new DoubleQueue<T, C>(now, condition, default);
      new;
      for n := 0 to |hot|
        invariant Valid() && fresh(queue) && fresh(queue.cold)
        invariant this.col == col && this.lastId == lastId && !poisoned
        invariant queue.hot == hot[..n] && queue.cold.condition == condition
        invariant queue.cold.View() == Cold(0, 0, [], default, now)
      {
        queue.AddOwned(hot[n]);
      }
    }

    /**
     * Opening a store on an existing column: it starts with the given condition, its default value and nothing in
     * the cold queue. On a column of one key shape it always succeeds, holds exactly this participant's assets in
     * increasing order of identifier, and its last identifier is the greatest of them.
     */
    static method Open(now: int, col: Column<T>, items: seq<(Key, T)>, domain: Option<u64>, me: u32,
                       condition: (C, T) -> bool, default: C, ghost db: map<UniqueId, T>)
      returns (r: Option<AssetStore<T, C>>)
      requires PrefixRange(me, domain).Some? && Represents(col, domain, db)
      requires var (start, end) := PrefixRange(me, domain).value; IsScan(items, col, start, end)
      ensures r.Some? <==> forall i :: 0 <= i < |items| ==> DecodeKey(items[i].0, domain).Some?
      ensures r.Some? ==>
                && fresh(r.value) && fresh(r.value.queue) && fresh(r.value.queue.cold) && r.value.Valid()
                && r.value.col == col && r.value.domain == domain && r.value.me == me && !r.value.poisoned
                && r.value.queue.cold.condition == condition
                && r.value.queue.cold.View() == Cold(0, 0, [], default, now)
      ensures OneShape(col, domain.Some?) ==>
                r.Some? && LoadedFrom(r.value.queue.hot, db, me) && IsGreatest(r.value.lastId, db, me)
    {
      var loaded := Load(items, domain);
      ScanDecodes(col, domain, me, items);
      if loaded.None? {
        return None;
      }
      var (hot, lastId) := loaded.value;
      if OneShape(col, domain.Some?) {
        ReloadIsExact(col, domain, me, db, items, hot, lastId);
      }
      var store := new AssetStore<T, C>(now, col, domain, me, hot, lastId, condition, default);
      return Some(store);
    }

    /**
     * Opening a store on a column of one key shape and taking: it hands out an asset exactly when some stored asset
     * of this participant satisfies the condition, and that asset leaves the column.
     */
    static method OpenThenTake(now: int, col: Column<T>, items: seq<(Key, T)>, domain: Option<u64>, me: u32,
                               condition: (C, T) -> bool, default: C, clock: nat -> int, v: C,
                               ghost db: map<UniqueId, T>)
      returns (store: Option<AssetStore<T, C>>, r: Option<Asset<T>>)
      requires PrefixRange(me, domain).Some? && Represents(col, domain, db) && OneShape(col, domain.Some?)
      requires var (start, end) := PrefixRange(me, domain).value; IsScan(items, col, start, end)
      ensures r.Some? <==> exists id :: id in db && id.Participant() == me && condition(v, db[id])
      ensures r.Some? ==> Owned(r.value, db, me) && condition(v, r.value.value)
      ensures store.Some? && store.value.Valid()
      ensures store.value.col == if r.Some? then col - {MakeKey(domain, r.value.id)} else col
    {
      store := Open(now, col, items, domain, me, condition, default, db);
      assert LoadedBag(store.value.queue.Bag(), db, me) by {
        LoadedIsBag(store.value.queue.hot, db, me);
        assert store.value.queue.Bag() == multiset(store.value.queue.hot);
      }
      r := store.value.TakeOwned(clock, v);
    }

    /** The bag holds exactly the assets that this participant owns in the database. */
    static ghost predicate LoadedBag(bag: multiset<Asset<T>>, db: map<UniqueId, T>, me: u32) {
      && (forall a :: a in bag ==> Owned(a, db, me))
      && forall id :: id in db && id.Participant() == me ==> Asset(id, db[id]) in bag
    }

    static lemma LoadedIsBag(hot: seq<Asset<T>>, db: map<UniqueId, T>, me: u32)
      requires LoadedFrom(hot, db, me)
      ensures LoadedBag(multiset(hot), db, me)
    {
      forall id | id in db && id.Participant() == me ensures Asset(id, db[id]) in multiset(hot) {
        var i :| 0 <= i < |hot| && hot[i].id == id;
        assert hot[i] == Asset(id, db[id]);
      }
    }

    /**
     * The step `Reserve` of `UniqueIds`. `None` is a panic: an empty reservation panics before taking the lock
     * and changes nothing; an overflow panics under the lock, so this call and all later ones fail.
     */
    method GenerateAndReserveIdRange(now: u64, count: u32, ghost ids: Ids) returns (r: Option<UniqueId>)
      requires ids.lastId == lastId && ids.poisoned == poisoned
      modifies this`lastId, this`poisoned
      ensures var after := Apply(ids, me, Reserve(now, count));
              && lastId == after.lastId && poisoned == after.poisoned
              && (r.Some? <==> |after.ranges| > |ids.ranges|)
              && (r.Some? ==> r.value == after.ranges[|ids.ranges|].first)
      ensures r.Some? <==> !old(poisoned) && count > 0 && NextCounter(old(lastId), now) + count <= 0x1_0000_0000
      ensures r.Some? ==> lastId.Some? && TakesNext(Range(r.value, lastId.value), old(lastId), now, count)
      ensures r.None? ==> lastId == old(lastId) && (poisoned || count == 0)
    {
      if count == 0 || poisoned {
        return None;
      }
      ReservesIff(lastId, me, now, count);
      var start := if lastId.Some? then lastId.value.PickNewAfter(now) else Some(New(me, now, 0));
      if start.None? {
        poisoned := true;
        return None;
      }
      var end := start.value.AddToCounter(count - 1);
      if end.None? {
        poisoned := true;
        return None;
      }
      lastId := end;
      return start;
    }

    /**
     * The asset is stored under its identifier in this store's domain, and memory grows by exactly this asset, at the
     * end of the hot queue. Other domains see no change.
     */
    method AddOwned(id: UniqueId, value: T, ghost db: map<UniqueId, T>)
      requires Valid() && Represents(col, domain, db)
      modifies this`col, queue
      ensures Valid() && col == old(col)[MakeKey(domain, id) := value] && Represents(col, domain, db[id := value])
      ensures forall d: Option<u64>, db': map<UniqueId, T> :: d != domain && Represents(old(col), d, db') ==>
              Represents(col, d, db')
      ensures queue.hot == old(queue.hot) + [Asset(id, value)]
      ensures queue.Bag() == old(queue.Bag()) + multiset{Asset(id, value)}
    {
      WritesById(col, domain, db, domain, id, value);
      forall d: Option<u64>, db': map<UniqueId, T> | d != domain && Represents(col, d, db')
        ensures Represents(col[MakeKey(domain, id) := value], d, db')
      {
        WritesById(col, d, db', domain, id, value);
      }
      col := col[MakeKey(domain, id) := value];
      queue.AddOwned(Asset(id, value));
    }

    /** What is returned is gone from memory and from the database; a waiting call changes neither. */
    method TakeOwned(clock: nat -> int, v: C) returns (r: Option<Asset<T>>)
      requires Valid()
      modifies this`col, queue, queue.cold
      ensures Valid()
      ensures r.Some? <==> exists a :: a in old(queue.Bag()) && queue.cold.condition(v, a.value)
      ensures r.Some? ==> queue.cold.condition(v, r.value.value) && old(queue.Bag()) == multiset{r.value} + queue.Bag()
      ensures r.None? ==> queue.Bag() == old(queue.Bag())
      ensures col == if r.Some? then old(col) - {MakeKey(domain, r.value.id)} else old(col)
    {
      var passes;
      r, passes := queue.TakeOwned(clock, v);
      if r.Some? {
        col := col - {MakeKey(domain, r.value.id)};
      }
    }

    /**
     * The identifiers dropped from the cold queue leave the database too. Assets dropped from the hot queue
     * (`fromHot`) stay in the database until the next restart brings them back.
     */
    method MaybeDiscardOwned(n: nat, clock: nat -> int, v: C)
      returns (ghost fromCold: seq<Asset<T>>, ghost fromHot: seq<Asset<T>>)
      requires Valid()
      modifies this`col, queue, queue.cold
      ensures Valid()
      ensures DroppedBoth(old(queue.Bag()), fromCold, fromHot, queue.Bag())
      ensures SatisfyingKept(old(queue.Bag()), queue.Bag(), queue.cold.condition, v)
      ensures var unconfirmed := old(queue.Unconfirmed(clock(0), v));
              var k := DoubleQueue<T, C>.HotExamined(n, unconfirmed, old(|queue.hot|));
              && fromHot == Failing(old(queue.hot), k, queue.cold.condition, v)
              && (fromHot == [] <==> FirstSatisfy(old(queue.hot), k, queue.cold.condition, v))
              && (n >= unconfirmed + old(|queue.hot|) ==>
                    SatisfyingLeft(old(queue.Bag()), queue.Bag(), queue.cold.condition, v))
      ensures col == old(col) - set a | a in fromCold :: MakeKey(domain, a.id)
    {
      ghost var h, unconfirmed := queue.hot, queue.Unconfirmed(clock(0), v);
      var removed;
      ghost var examined;
      removed, examined, fromCold, fromHot := queue.MaybeDiscardOwned(n, clock, v);
      NoneFailing(h, DoubleQueue<T, C>.HotExamined(n, unconfirmed, |h|), queue.cold.condition, v);
      DeleteAll(removed, fromCold);
    }

    /** Deletes the reported identifiers together. */
    method DeleteAll(removed: seq<UniqueId>, ghost assets: seq<Asset<T>>)
      requires IdsOf(removed, assets)
      modifies this`col
      ensures col == old(col) - set a | a in assets :: MakeKey(domain, a.id)
    {
      SameKeys(removed, assets, domain);
      col := col - set id | id in removed :: MakeKey(domain, id);
    }

    static lemma SameKeys(ids: seq<UniqueId>, assets: seq<Asset<T>>, domain: Option<u64>)
      requires IdsOf(ids, assets)
      ensures (set id | id in ids :: MakeKey(domain, id)) == set a | a in assets :: MakeKey(domain, a.id)
    {
      forall id | id in ids ensures exists a :: a in assets && a.id == id {
        var i :| 0 <= i < |ids| && ids[i] == id;
        assert assets[i] in assets;
      }
      forall a | a in assets ensures a.id in ids {
        var i :| 0 <= i < |assets| && assets[i] == a;
        assert ids[i] in ids;
      }
    }

    /**
     * The asset is stored under its identifier in this store's domain. Nothing else in the column changes, and
     * another participant's asset leaves what this participant owns, and would reload, as it was.
     */
    method AddUnowned(id: UniqueId, value: T, ghost db: map<UniqueId, T>)
      requires Represents(col, domain, db)
      modifies this`col
      ensures col == old(col)[MakeKey(domain, id) := value] && Represents(col, domain, db[id := value])
      ensures forall d: Option<u64>, db': map<UniqueId, T> :: d != domain && Represents(old(col), d, db') ==>
              Represents(col, d, db')
      ensures id.Participant() != me ==> forall hot :: LoadedFrom(hot, db[id := value], me) <==> LoadedFrom(hot, db, me)
    {
      WritesById(col, domain, db, domain, id, value);
      forall d: Option<u64>, db': map<UniqueId, T> | d != domain && Represents(col, d, db')
        ensures Represents(col[MakeKey(domain, id) := value], d, db')
      {
        WritesById(col, d, db', domain, id, value);
      }
      col := col[MakeKey(domain, id) := value];
    }

    /**
     * Hands out an unowned asset once: it is `None` exactly when the asset is not there, and afterwards it is not.
     * Another participant's asset leaves what this participant owns as it was.
     */
    method TakeUnowned(id: UniqueId, ghost db: map<UniqueId, T>) returns (r: Option<T>)
      requires Represents(col, domain, db)
      modifies this`col
      ensures r == if id in db then Some(db[id]) else None
      ensures col == old(col) - {MakeKey(domain, id)} && Represents(col, domain, db - {id})
      ensures id.Participant() != me ==> forall hot :: LoadedFrom(hot, db - {id}, me) <==> LoadedFrom(hot, db, me)
    {
      var key := MakeKey(domain, id);
      if key !in col {
        assert db == db - {id};
        return None;
      }
      r := Some(col[key]);
      WritesById(col, domain, db, domain, id, col[key]);
      col := col - {key};
    }
  }
}
