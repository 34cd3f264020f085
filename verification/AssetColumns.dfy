/** A database column of assets: range scans, reloading after a restart, and cleaning. */
module AssetColumns {
  import opened Wrappers
  import opened Bytes
  import opened UniqueIds
  import opened AssetKeys
  import opened ColdQueues

  type Column<T> = map<Key, T>

  /** What a bounded iterator yields: the entries in range, each once, in key order. */
  ghost predicate IsScan<T>(items: seq<(Key, T)>, col: Column<T>, start: Key, end: Key) {
    && (forall i :: 0 <= i < |items| ==>
          items[i].0 in col && InRange(items[i].0, start, end) && items[i].1 == col[items[i].0])
    && (forall i, j :: 0 <= i < j < |items| ==> Before(items[i].0, items[j].0))
    && (forall k :: k in col && InRange(k, start, end) ==> exists i :: 0 <= i < |items| && items[i].0 == k)
  }

  /** Every set of keys has a first one. */
  lemma {:induction false} FirstKey(keys: set<Key>) returns (first: Key)
    requires keys != {}
    ensures first in keys && forall k :: k in keys && k != first ==> Before(first, k)
  {
    var k0 :| k0 in keys;
    if keys == {k0} {
      first := k0;
    } else {
      var rest := FirstKey(keys - {k0});
      BeforeTotal(k0, rest);
      first := if Before(k0, rest) then k0 else rest;
      forall k | k in keys && k != first ensures Before(first, k) {
        if k != k0 && k != rest && first == k0 { BeforeTransitive(k0, rest, k); }
      }
    }
  }

  /** Every column can be scanned. */
  lemma {:induction false} ScanExists<T>(col: Column<T>, start: Key, end: Key) returns (items: seq<(Key, T)>)
    ensures IsScan(items, col, start, end)
    decreases |col|
  {
    var keys := set k | k in col && InRange(k, start, end);
    if keys == {} {
      items := [];
      assert forall k :: k in col && InRange(k, start, end) ==> k in keys;
    } else {
      var first := FirstKey(keys);
      var less := col - {first};
      assert col == less[first := col[first]];
      var rest := ScanExists(less, start, end);
      items := [(first, col[first])] + rest;
      forall i | 0 <= i < |rest| ensures Before(first, rest[i].0) {
        assert rest[i].0 in keys;
      }
      ScanExtends(col, start, end, first, rest);
    }
  }

  /** An entry that is found in the rest is found in the whole. */
  lemma FoundLater<T>(e: (Key, T), rest: seq<(Key, T)>, k: Key)
    requires k == e.0 || exists i :: 0 <= i < |rest| && rest[i].0 == k
    ensures exists i :: 0 <= i < |[e] + rest| && ([e] + rest)[i].0 == k
  {
    if k == e.0 {
      assert ([e] + rest)[0].0 == k;
    } else {
      var i :| 0 <= i < |rest| && rest[i].0 == k;
      assert ([e] + rest)[i + 1].0 == k;
    }
  }

  /** The first entry in range, then a scan of the other entries. */
  lemma ScanExtends<T>(col: Column<T>, start: Key, end: Key, first: Key, rest: seq<(Key, T)>)
    requires first in col && InRange(first, start, end) && IsScan(rest, col - {first}, start, end)
    requires forall i :: 0 <= i < |rest| ==> Before(first, rest[i].0)
    ensures IsScan([(first, col[first])] + rest, col, start, end)
  {
    var items := [(first, col[first])] + rest;
    forall i | 0 < i < |items| ensures items[i] == rest[i - 1] {}
    forall k | k in col && InRange(k, start, end) ensures exists i :: 0 <= i < |items| && items[i].0 == k {
      assert k != first ==> k in col - {first};
      FoundLater((first, col[first]), rest, k);
    }
  }

  /** All keys of the column were made with a domain, or all without: columns do not mix the two. */
  ghost predicate OneShape<T>(col: Column<T>, withDomain: bool) {
    forall k :: k in col ==> MadeKey(k, withDomain)
  }

  ghost predicate MadeKey(k: Key, withDomain: bool) {
    exists d: Option<u64>, id :: d.Some? == withDomain && k == MakeKey(d, id)
  }

  /** The column seen by one storage: `db` holds the assets of its own domain by identifier. */
  ghost predicate Represents<T>(col: Column<T>, domain: Option<u64>, db: map<UniqueId, T>) {
    forall id :: (id in db <==> MakeKey(domain, id) in col) && (id in db ==> db[id] == col[MakeKey(domain, id)])
  }

  /** Writing and deleting through keys is writing and deleting by identifier; other domains do not interfere. */
  lemma WritesById<T>(col: Column<T>, domain: Option<u64>, db: map<UniqueId, T>, keyDomain: Option<u64>, id: UniqueId,
        value: T)
    requires Represents(col, domain, db)
    ensures Represents(col[MakeKey(keyDomain, id) := value], domain,
                       if keyDomain == domain then db[id := value] else db)
    ensures Represents(col - {MakeKey(keyDomain, id)}, domain, if keyDomain == domain then db - {id} else db)
  {
    forall other | MakeKey(domain, other) == MakeKey(keyDomain, id) ensures domain == keyDomain && other == id {
      MakeKeyInjective(domain, other, keyDomain, id);
    }
  }

  /** The assets a restart brings back: this participant's, in increasing order of identifier. */
  ghost predicate LoadedFrom<T>(hot: seq<Asset<T>>, db: map<UniqueId, T>, me: u32) {
    && (forall i :: 0 <= i < |hot| ==> Owned(hot[i], db, me))
    && (forall i, j :: 0 <= i < j < |hot| ==> hot[i].id.Less(hot[j].id))
    && (forall id :: id in db && id.Participant() == me ==> exists i :: 0 <= i < |hot| && hot[i].id == id)
  }

  ghost predicate Owned<T>(a: Asset<T>, db: map<UniqueId, T>, me: u32) {
    a.id.Participant() == me && a.id in db && db[a.id] == a.value
  }

  /** The greatest identifier that this participant owns in the database, `None` when it owns nothing. */
  ghost predicate IsGreatest<T>(lastId: Option<UniqueId>, db: map<UniqueId, T>, me: u32) {
    && (lastId.Some? ==> lastId.value in db && lastId.value.Participant() == me)
    && forall id :: id in db && id.Participant() == me ==> lastId.Some? && id.raw <= lastId.value.raw
  }

  /** In a one-shape column, a scan of the range visits exactly the keys of this participant and domain. */
  lemma ScannedKey<T>(col: Column<T>, domain: Option<u64>, me: u32, k: Key)
    requires OneShape(col, domain.Some?) && k in col && PrefixRange(me, domain).Some?
    ensures var (start, end) := PrefixRange(me, domain).value;
            InRange(k, start, end) ==>
              exists id :: k == MakeKey(domain, id) && id.Participant() == me && DecodeKey(k, domain) == Some(id)
  {
    assert MadeKey(k, domain.Some?);
    var d: Option<u64>, id :| d.Some? == domain.Some? && k == MakeKey(d, id);
    KeyInRangeIff(me, domain, d, id);
    if d == domain { DecodeInvertsMake(domain, id); }
  }

  lemma ScanDecodes<T>(col: Column<T>, domain: Option<u64>, me: u32, items: seq<(Key, T)>)
    requires PrefixRange(me, domain).Some?
    requires var (start, end) := PrefixRange(me, domain).value; IsScan(items, col, start, end)
    ensures OneShape(col, domain.Some?) ==> forall i :: 0 <= i < |items| ==> DecodeKey(items[i].0, domain).Some?
  {}

  /**
   * `DistributedAssetStorage::new`: turn the scanned entries into the hot queue and the last identifier.
   * `None` is the error for an entry whose key does not decode.
   */
  method Load<T>(items: seq<(Key, T)>, domain: Option<u64>) returns (r: Option<(seq<Asset<T>>, Option<UniqueId>)>)
    ensures r.Some? <==> forall i :: 0 <= i < |items| ==> DecodeKey(items[i].0, domain).Some?
    ensures r.Some? ==> |r.value.0| == |items| &&
                        forall i :: 0 <= i < |items| ==>
                                      DecodeKey(items[i].0, domain) == Some(r.value.0[i].id) &&
                                          items[i].1 == r.value.0[i].value
    ensures r.Some? ==> r.value.1 == if items == [] then None else Some(r.value.0[|items| - 1].id)
  {
    var hot: seq<Asset<T>> := [];
    var lastId: Option<UniqueId> := None;
    for n := 0 to |items|
      invariant |hot| == n
      invariant forall i :: 0 <= i < n ==>
                DecodeKey(items[i].0, domain) == Some(hot[i].id) && items[i].1 == hot[i].value
      invariant lastId == if n == 0 then None else Some(hot[n - 1].id)
    {
      var id := DecodeKey(items[n].0, domain);
      if id.None? {
        return None;
      }
      hot := hot + [Asset(id.value, items[n].1)];
      lastId := id;
    }
    return Some((hot, lastId));
  }

  /**
   * A reload never fails on a one-shape column; it brings back exactly the owned assets in increasing
   * order of identifier, and the last identifier is their maximum.
   */
  lemma ReloadIsExact<T>(col: Column<T>, domain: Option<u64>, me: u32, db: map<UniqueId, T>,
                         items: seq<(Key, T)>, hot: seq<Asset<T>>, lastId: Option<UniqueId>)
    requires PrefixRange(me, domain).Some? && OneShape(col, domain.Some?) && Represents(col, domain, db)
    requires var (start, end) := PrefixRange(me, domain).value; IsScan(items, col, start, end)
    requires |hot| == |items|
    requires forall i :: 0 <= i < |items| && DecodeKey(items[i].0, domain).Some? ==>
               hot[i] == Asset(DecodeKey(items[i].0, domain).value, items[i].1)
    requires lastId == if items == [] then None else Some(hot[|items| - 1].id)
    ensures forall i :: 0 <= i < |items| ==> DecodeKey(items[i].0, domain).Some?
    ensures LoadedFrom(hot, db, me)
    ensures IsGreatest(lastId, db, me)
  {
    ReloadDecodes(col, domain, me, db, items, hot);
    ScanInOrder(domain, items, hot);
    forall id | id in db && id.Participant() == me ensures exists i :: 0 <= i < |hot| && hot[i].id == id {
      ScanComplete(col, domain, me, items, hot, id);
    }
    LastIsGreatest(hot, db, me);
  }

  /** The last asset of a reload has the greatest identifier. */
  lemma LastIsGreatest<T>(hot: seq<Asset<T>>, db: map<UniqueId, T>, me: u32)
    requires LoadedFrom(hot, db, me)
    ensures IsGreatest(if hot == [] then None else Some(hot[|hot| - 1].id), db, me)
  {
    forall id | id in db && id.Participant() == me ensures hot != [] && id.raw <= hot[|hot| - 1].id.raw {
      var i :| 0 <= i < |hot| && hot[i].id == id;
      assert i < |hot| - 1 ==> hot[i].id.Less(hot[|hot| - 1].id);
    }
  }

  lemma ReloadDecodes<T>(col: Column<T>, domain: Option<u64>, me: u32, db: map<UniqueId, T>,
                         items: seq<(Key, T)>, hot: seq<Asset<T>>)
    requires PrefixRange(me, domain).Some? && OneShape(col, domain.Some?) && Represents(col, domain, db)
    requires var (start, end) := PrefixRange(me, domain).value; IsScan(items, col, start, end)
    requires |hot| == |items|
    requires forall i :: 0 <= i < |items| && DecodeKey(items[i].0, domain).Some? ==>
               hot[i] == Asset(DecodeKey(items[i].0, domain).value, items[i].1)
    ensures forall i :: 0 <= i < |items| ==>
              DecodeKey(items[i].0, domain).Some? && items[i].0 == MakeKey(domain, hot[i].id) && Owned(hot[i], db, me)
  {
    forall i | 0 <= i < |items|
      ensures DecodeKey(items[i].0, domain).Some? && items[i].0 == MakeKey(domain, hot[i].id) && Owned(hot[i], db, me)
    {
      ScannedIsOwned(col, domain, me, db, items[i].0);
    }
  }

  lemma ScannedIsOwned<T>(col: Column<T>, domain: Option<u64>, me: u32, db: map<UniqueId, T>, k: Key)
    requires PrefixRange(me, domain).Some? && OneShape(col, domain.Some?) && Represents(col, domain, db) && k in col
    requires var (start, end) := PrefixRange(me, domain).value; InRange(k, start, end)
    ensures DecodeKey(k, domain).Some?
    ensures var id := DecodeKey(k, domain).value; k == MakeKey(domain, id) && Owned(Asset(id, col[k]), db, me)
  {
    ScannedKey(col, domain, me, k);
  }

  lemma ScanInOrder<T>(domain: Option<u64>, items: seq<(Key, T)>, hot: seq<Asset<T>>)
    requires |hot| == |items| && forall i :: 0 <= i < |items| ==> items[i].0 == MakeKey(domain, hot[i].id)
    requires forall i, j :: 0 <= i < j < |items| ==> Before(items[i].0, items[j].0)
    ensures forall i, j :: 0 <= i < j < |hot| ==> hot[i].id.Less(hot[j].id)
  {
    forall i, j | 0 <= i < j < |hot| ensures hot[i].id.Less(hot[j].id) {
      KeyOrder(domain, hot[i].id, hot[j].id);
    }
  }

  lemma ScanComplete<T>(col: Column<T>, domain: Option<u64>, me: u32, items: seq<(Key, T)>, hot: seq<Asset<T>>,
        id: UniqueId)
    requires PrefixRange(me, domain).Some? && MakeKey(domain, id) in col && id.Participant() == me
    requires var (start, end) := PrefixRange(me, domain).value; IsScan(items, col, start, end)
    requires |hot| == |items| && forall i :: 0 <= i < |items| ==> items[i].0 == MakeKey(domain, hot[i].id)
    ensures exists i :: 0 <= i < |hot| && hot[i].id == id
  {
    KeyInRangeIff(me, domain, domain, id);
    var i :| 0 <= i < |items| && items[i].0 == MakeKey(domain, id);
    MakeKeyInjective(domain, hot[i].id, domain, id);
  }

  // ----- Cleaning -----

  /** What cleaning leaves: in the range, only assets all of whose participants are kept. */
  ghost function Cleaned<T>(col: Column<T>, start: Key, end: Key, participantsOf: T -> set<u32>,
        kept: set<u32>): Column<T> {
    map k | k in col && (InRange(k, start, end) ==> participantsOf(col[k]) <= kept) :: col[k]
  }

  /** `clean_db`: collect the deletions over a scan, then commit them together. */
  method CleanDb<T>(col: Column<T>, items: seq<(Key, T)>, ghost start: Key, ghost end: Key,
                    participantsOf: T -> set<u32>, kept: set<u32>) returns (r: Column<T>)
    requires IsScan(items, col, start, end)
    ensures r == Cleaned(col, start, end, participantsOf, kept)
  {
    var deletions: set<Key> := {};
    for n := 0 to |items|
      invariant forall k :: k in deletions <==>
                exists i :: 0 <= i < n && items[i].0 == k && !(participantsOf(items[i].1) <= kept)
    {
      if !(participantsOf(items[n].1) <= kept) {
        deletions := deletions + {items[n].0};
      }
    }
    r := col - deletions;
    forall k | k in col ensures k in deletions <==> InRange(k, start, end) && !(participantsOf(col[k]) <= kept) {
      if InRange(k, start, end) {
        var i :| 0 <= i < |items| && items[i].0 == k;
        assert items[i].1 == col[k];
      }
    }
  }

  /** Cleaning touches exactly this owner's and domain's assets with a participant that is not kept. */
  lemma CleanTouchesOnlyOwn<T>(col: Column<T>, domain: Option<u64>, me: u32, participantsOf: T -> set<u32>,
        kept: set<u32>,
                               keyDomain: Option<u64>, id: UniqueId)
    requires PrefixRange(me, domain).Some? && keyDomain.Some? == domain.Some?
    ensures var (start, end) := PrefixRange(me, domain).value;
            var key := MakeKey(keyDomain, id);
            key in Cleaned(col, start, end, participantsOf, kept) <==>
              key in col && (keyDomain == domain && id.Participant() == me ==> participantsOf(col[key]) <= kept)
  {
    KeyInRangeIff(me, domain, keyDomain, id);
  }

  /** Cleaning twice is cleaning with the intersection; in particular cleaning is idempotent. */
  lemma CleanTwice<T>(col: Column<T>, start: Key, end: Key, participantsOf: T -> set<u32>, a: set<u32>, b: set<u32>)
    ensures Cleaned(Cleaned(col, start, end, participantsOf, a), start, end, participantsOf, b)
            == Cleaned(col, start, end, participantsOf, a * b)
    ensures Cleaned(Cleaned(col, start, end, participantsOf, a), start, end, participantsOf, a)
            == Cleaned(col, start, end, participantsOf, a)
  {}

  /** A reload after cleaning brings back exactly the survivors. */
  lemma ReloadAfterClean<T>(col: Column<T>, domain: Option<u64>, me: u32, db: map<UniqueId, T>, db': map<UniqueId, T>,
                            participantsOf: T -> set<u32>, kept: set<u32>, before: seq<Asset<T>>, after: seq<Asset<T>>)
    requires PrefixRange(me, domain).Some? && Represents(col, domain, db)
    requires var (start, end) := PrefixRange(me, domain).value;
             Represents(Cleaned(col, start, end, participantsOf, kept), domain, db')
    requires LoadedFrom(before, db, me) && LoadedFrom(after, db', me)
    ensures forall a :: a in after <==> a in before && participantsOf(a.value) <= kept
  {
    forall a | a in after || a in before ensures a in after <==> a in before && participantsOf(a.value) <= kept {
      CleanTouchesOnlyOwn(col, domain, me, participantsOf, kept, domain, a.id);
      LoadedIff(before, db, me, a);
      LoadedIff(after, db', me, a);
    }
  }

  lemma LoadedIff<T>(hot: seq<Asset<T>>, db: map<UniqueId, T>, me: u32, a: Asset<T>)
    requires LoadedFrom(hot, db, me)
    ensures a in hot <==> Owned(a, db, me)
  {}
}
