/**
 * The asset store as a ledger: a plain bag of assets in memory next to a database. Every interleaving of
 * the real store is a run of this ledger (see AssetRuns), so what is proved here holds of all of them.
 */
module AssetLedgers {
  import opened Wrappers
  import opened UniqueIds
  import opened ColdQueues
  import opened AssetColumns

  /**
   * `mem` is everything the process holds, queued or in the hands of a task; `pend` are identifiers dropped
   * from memory whose deletion is not committed yet; `leaked` are those dropped without any deletion to come.
   * `added` and `returned` are the histories of `add_owned` and `take_owned`, kept across restarts;
   * `entered`, `taken` and `discarded` count assets of the current process.
   */
  datatype Ledger<T(==)> = Ledger(
    up: bool, db: map<UniqueId, T>, mem: multiset<Asset<T>>, pend: set<UniqueId>, leaked: set<UniqueId>,
    added: set<UniqueId>, returned: seq<Asset<T>>,
    entered: multiset<Asset<T>>, taken: multiset<Asset<T>>, discarded: multiset<Asset<T>>)

  ghost predicate InMemory<T>(mem: multiset<Asset<T>>, id: UniqueId) {
    exists a :: a in mem && a.id == id
  }

  /** Memory mirrors the database: every asset held is stored with the same value, and is held once. */
  ghost predicate Mirrors<T>(l: Ledger<T>) {
    && (forall a :: a in l.mem ==> a.id in l.db && l.db[a.id] == a.value && a.id in l.added)
    && (forall a :: a in l.mem ==> l.mem[a] == 1)
    && (forall id :: id in l.pend ==> id in l.added && !InMemory(l.mem, id))
  }

  /** No identifier is returned twice, and what was returned is in the database no more. */
  ghost predicate ReturnedOnce<T>(l: Ledger<T>) {
    && (forall i :: 0 <= i < |l.returned| ==> l.returned[i].id in l.added && l.returned[i].id !in l.db)
    && (forall i, j :: 0 <= i < j < |l.returned| ==> l.returned[i].id != l.returned[j].id)
  }

  /** While the process is up, every owned asset in the database is held, about to be deleted, or leaked. */
  ghost predicate Accounted<T>(l: Ledger<T>, me: u32) {
    && (forall id :: id in l.db && id.Participant() == me ==> id in l.added)
    && (if l.up then
          forall id :: id in l.db && id.Participant() == me ==> InMemory(l.mem, id) || id in l.pend || id in l.leaked
        else l.mem == multiset{} && l.pend == {} && l.leaked == {})
  }

  /** What leaked is still stored, but neither held nor about to be deleted. */
  ghost predicate LeaksStored<T>(l: Ledger<T>) {
    forall id :: id in l.leaked ==> id in l.added && id in l.db && !InMemory(l.mem, id) && id !in l.pend
  }

  /** Within one process nothing appears or vanishes. */
  ghost predicate Conserved<T>(l: Ledger<T>) {
    l.entered == l.mem + l.taken + l.discarded
  }

  ghost predicate Sound<T>(l: Ledger<T>, me: u32) {
    Mirrors(l) && ReturnedOnce(l) && Accounted(l, me) && LeaksStored(l) && Conserved(l)
  }

  /** Every identifier is held once, and none that was returned. */
  ghost predicate HeldOnce<T>(l: Ledger<T>) {
    && (forall a :: a in l.mem ==> l.mem[a] == 1 && a.id in l.added)
    && (forall a, b :: a in l.mem && b in l.mem && a.id == b.id ==> a == b)
    && (forall a, i :: a in l.mem && 0 <= i < |l.returned| ==> a.id != l.returned[i].id)
  }

  /** No identifier was returned twice, and none of this participant's can be loaded again. */
  ghost predicate ReturnedForGood<T>(l: Ledger<T>, me: u32) {
    && (forall i :: 0 <= i < |l.returned| ==> l.returned[i].id in l.added)
    && (forall i :: 0 <= i < |l.returned| && l.returned[i].id.Participant() == me ==> l.returned[i].id !in l.db)
    && (forall i, j :: 0 <= i < j < |l.returned| ==> l.returned[i].id != l.returned[j].id)
  }

  /** What holds even when unowned assets are stored and taken without regard to what is owned. */
  ghost predicate Safe<T>(l: Ledger<T>, me: u32) {
    && HeldOnce(l) && ReturnedForGood(l, me) && Conserved(l)
    && (forall id :: id in l.db && id.Participant() == me ==> id in l.added)
  }

  // ----- The moves of the ledger -----

  ghost predicate Add<T>(l: Ledger<T>, l': Ledger<T>, a: Asset<T>) {
    && l.up && a.id !in l.added
    && l' == l.(db := l.db[a.id := a.value], mem := l.mem + multiset{a}, added := l.added + {a.id},
                entered := l.entered + multiset{a})
  }

  ghost predicate Return<T>(l: Ledger<T>, l': Ledger<T>, a: Asset<T>) {
    && l.up && a in l.mem
    && l' == l.(db := l.db - {a.id}, mem := l.mem - multiset{a}, returned := l.returned + [a],
                taken := l.taken + multiset{a})
  }

  ghost predicate Drop<T>(l: Ledger<T>, l': Ledger<T>, a: Asset<T>) {
    && l.up && a in l.mem
    && l' == l.(mem := l.mem - multiset{a}, pend := l.pend + {a.id}, discarded := l.discarded + multiset{a})
  }

  ghost predicate Leak<T>(l: Ledger<T>, l': Ledger<T>, a: Asset<T>) {
    && l.up && a in l.mem
    && l' == l.(mem := l.mem - multiset{a}, leaked := l.leaked + {a.id}, discarded := l.discarded + multiset{a})
  }

  ghost predicate Delete<T>(l: Ledger<T>, l': Ledger<T>, ids: set<UniqueId>) {
    && l.up && ids <= l.pend && l.pend - ids <= l'.pend <= l.pend
    && l' == l.(db := l.db - ids, pend := l'.pend)
  }

  /** Another participant's asset is stored with this value, or any asset is taken as unowned. */
  ghost predicate Unowned<T>(l: Ledger<T>, l': Ledger<T>, me: u32, id: UniqueId, value: Option<T>) {
    && (value.Some? ==> id.Participant() != me)
    && l' == l.(db := if value.Some? then l.db[id := value.value] else l.db - {id})
  }

  ghost predicate Crash<T>(l: Ledger<T>, l': Ledger<T>) {
    l' == l.(up := false, mem := multiset{}, pend := {}, leaked := {},
             entered := multiset{}, taken := multiset{}, discarded := multiset{})
  }

  ghost predicate Clean<T>(l: Ledger<T>, l': Ledger<T>, ids: set<UniqueId>) {
    !l.up && l' == l.(db := l.db - ids)
  }

  ghost predicate Load<T>(l: Ledger<T>, l': Ledger<T>, me: u32, hot: seq<Asset<T>>) {
    && !l.up && LoadedFrom(hot, l.db, me)
    && l' == l.(up := true, mem := multiset(hot), entered := multiset(hot), taken := multiset{},
       discarded := multiset{})
  }

  datatype Move<T> =
    | Stay
    | MAdd(a: Asset<T>)
    | MReturn(a: Asset<T>)
    | MDrop(a: Asset<T>)
    | MLeak(a: Asset<T>)
    | MDelete(ids: set<UniqueId>)
    | MUnowned(id: UniqueId, value: Option<T>)
    | MCrash
    | MClean(ids: set<UniqueId>)
    | MLoad(hot: seq<Asset<T>>)

  ghost predicate Moves<T>(l: Ledger<T>, l': Ledger<T>, me: u32, m: Move<T>) {
    match m
    case Stay => l' == l
    case MAdd(a) => Add(l, l', a)
    case MReturn(a) => Return(l, l', a)
    case MDrop(a) => Drop(l, l', a)
    case MLeak(a) => Leak(l, l', a)
    case MDelete(ids) => Delete(l, l', ids)
    case MUnowned(id, value) => Unowned(l, l', me, id, value)
    case MCrash => Crash(l, l')
    case MClean(ids) => Clean(l, l', ids)
    case MLoad(hot) => Load(l, l', me, hot)
  }

  // ----- Every move keeps the ledger sound -----

  /** Adding an asset adds its identifier to memory, and no other. */
  lemma AddHolds<T>(mem: multiset<Asset<T>>, a: Asset<T>)
    ensures forall id :: InMemory(mem + multiset{a}, id) <==> InMemory(mem, id) || id == a.id
  {
    forall id | InMemory(mem, id) ensures InMemory(mem + multiset{a}, id) {
      var b :| b in mem && b.id == id;
      assert b in mem + multiset{a};
    }
    assert a in mem + multiset{a};
  }

  lemma AddMirrors<T>(l: Ledger<T>, l': Ledger<T>, a: Asset<T>)
    requires Mirrors(l) && Add(l, l', a)
    ensures Mirrors(l')
  {
    AddHolds(l.mem, a);
    assert a !in l.mem;
  }

  lemma AddKeeps<T>(l: Ledger<T>, l': Ledger<T>, me: u32, a: Asset<T>)
    requires Sound(l, me) && Add(l, l', a)
    ensures Sound(l', me)
  {
    AddMirrors(l, l', a);
    AddHolds(l.mem, a);
  }

  /** Taking an asset out of memory takes its identifier out: no other held asset has it. */
  lemma OnlyHolder<T>(l: Ledger<T>, a: Asset<T>)
    requires Mirrors(l) && a in l.mem
    ensures !InMemory(l.mem - multiset{a}, a.id)
    ensures forall id :: id != a.id && InMemory(l.mem, id) ==> InMemory(l.mem - multiset{a}, id)
    ensures forall id :: InMemory(l.mem - multiset{a}, id) ==> InMemory(l.mem, id)
  {}

  lemma ReturnKeepsMirror<T>(l: Ledger<T>, l': Ledger<T>, a: Asset<T>)
    requires Mirrors(l) && Return(l, l', a)
    ensures Mirrors(l')
  {}

  lemma ReturnKeepsAccounts<T>(l: Ledger<T>, l': Ledger<T>, me: u32, a: Asset<T>)
    requires Mirrors(l) && Accounted(l, me) && Return(l, l', a)
    ensures Accounted(l', me)
  {}

  lemma ReturnKeepsLeaks<T>(l: Ledger<T>, l': Ledger<T>, a: Asset<T>)
    requires Mirrors(l) && LeaksStored(l) && Return(l, l', a)
    ensures LeaksStored(l')
  {
    OnlyHolder(l, a);
    assert InMemory(l.mem, a.id);
  }

  lemma ReturnKeeps<T>(l: Ledger<T>, l': Ledger<T>, me: u32, a: Asset<T>)
    requires Sound(l, me) && Return(l, l', a)
    ensures Sound(l', me)
  {
    ReturnKeepsMirror(l, l', a);
    ReturnKeepsAccounts(l, l', me, a);
    ReturnKeepsLeaks(l, l', a);
  }

  lemma DropMirrors<T>(l: Ledger<T>, l': Ledger<T>, a: Asset<T>)
    requires Mirrors(l) && (Drop(l, l', a) || Leak(l, l', a))
    ensures Mirrors(l')
  {
    OnlyHolder(l, a);
    assert forall b :: b in l'.mem ==> b in l.mem && l'.mem[b] == l.mem[b];
  }

  lemma DropAccounts<T>(l: Ledger<T>, l': Ledger<T>, me: u32, a: Asset<T>)
    requires Mirrors(l) && Accounted(l, me) && (Drop(l, l', a) || Leak(l, l', a))
    ensures Accounted(l', me)
  {
    OnlyHolder(l, a);
  }

  lemma DropLeaks<T>(l: Ledger<T>, l': Ledger<T>, a: Asset<T>)
    requires Mirrors(l) && LeaksStored(l) && (Drop(l, l', a) || Leak(l, l', a))
    ensures LeaksStored(l')
  {
    OnlyHolder(l, a);
    assert InMemory(l.mem, a.id);
  }

  lemma DropKeeps<T>(l: Ledger<T>, l': Ledger<T>, me: u32, a: Asset<T>)
    requires Sound(l, me) && (Drop(l, l', a) || Leak(l, l', a))
    ensures Sound(l', me)
  {
    DropMirrors(l, l', a);
    DropAccounts(l, l', me, a);
    DropLeaks(l, l', a);
  }

  lemma DeleteKeeps<T>(l: Ledger<T>, l': Ledger<T>, me: u32, ids: set<UniqueId>)
    requires Sound(l, me) && Delete(l, l', ids)
    ensures Sound(l', me)
  {}

  lemma UnownedKeeps<T>(l: Ledger<T>, l': Ledger<T>, me: u32, id: UniqueId, value: Option<T>)
    requires Sound(l, me) && Unowned(l, l', me, id, value) && id !in l.added
    ensures Sound(l', me)
  {}

  lemma {:induction false} OneOfEach<T>(hot: seq<Asset<T>>)
    requires forall i, j :: 0 <= i < j < |hot| ==> hot[i].id.Less(hot[j].id)
    ensures forall a :: a in hot ==> multiset(hot)[a] == 1
  {
    if hot != [] {
      OneOfEach(hot[1..]);
      PopFront(hot);
      assert hot[0] !in hot[1..];
      forall a | a in hot ensures multiset(hot)[a] == 1 {
        if a != hot[0] { assert a in hot[1..]; }
      }
    }
  }

  lemma LoadMirrors<T>(l: Ledger<T>, l': Ledger<T>, me: u32, hot: seq<Asset<T>>)
    requires Sound(l, me) && Load(l, l', me, hot)
    ensures Mirrors(l')
  {
    OneOfEach(hot);
    forall a | a in l'.mem ensures Owned(a, l.db, me) {
      LoadedIff(hot, l.db, me, a);
    }
  }

  lemma LoadAccounts<T>(l: Ledger<T>, l': Ledger<T>, me: u32, hot: seq<Asset<T>>)
    requires Accounted(l, me) && Load(l, l', me, hot)
    ensures Accounted(l', me)
  {}

  lemma LoadKeeps<T>(l: Ledger<T>, l': Ledger<T>, me: u32, hot: seq<Asset<T>>)
    requires Sound(l, me) && Load(l, l', me, hot)
    ensures Sound(l', me)
  {
    LoadMirrors(l, l', me, hot);
    LoadAccounts(l, l', me, hot);
  }

  /** The move does not store or take as unowned what was passed to `add_owned`. */
  ghost predicate Apart<T>(l: Ledger<T>, m: Move<T>) {
    m.MUnowned? ==> m.id !in l.added
  }

  lemma MovesKeepSound<T>(l: Ledger<T>, l': Ledger<T>, me: u32, m: Move<T>)
    requires Sound(l, me) && Moves(l, l', me, m) && Apart(l, m)
    ensures Sound(l', me)
  {
    match m {
      case Stay =>
      case MAdd(a) => AddKeeps(l, l', me, a);
      case MReturn(a) => ReturnKeeps(l, l', me, a);
      case MDrop(a) => DropKeeps(l, l', me, a);
      case MLeak(a) => DropKeeps(l, l', me, a);
      case MDelete(ids) => DeleteKeeps(l, l', me, ids);
      case MUnowned(id, value) => UnownedKeeps(l, l', me, id, value);
      case MCrash =>
      case MClean(ids) =>
      case MLoad(hot) => LoadKeeps(l, l', me, hot);
    }
  }

  // ----- Every move at all keeps the ledger safe -----

  lemma AddStaysSafe<T>(l: Ledger<T>, l': Ledger<T>, me: u32, a: Asset<T>)
    requires Safe(l, me) && Add(l, l', a)
    ensures Safe(l', me)
  {
    assert a !in l.mem;
  }

  /** Holding one asset less. */
  lemma LessStaysHeldOnce<T>(l: Ledger<T>, l': Ledger<T>, a: Asset<T>)
    requires HeldOnce(l) && a in l.mem && l'.mem == l.mem - multiset{a} && l'.added == l.added
    requires l'.returned == l.returned || l'.returned == l.returned + [a]
    ensures HeldOnce(l')
  {
    assert forall b :: b in l'.mem ==> b in l.mem && b != a && l'.mem[b] == l.mem[b];
  }

  lemma ReturnStaysForGood<T>(l: Ledger<T>, l': Ledger<T>, me: u32, a: Asset<T>)
    requires HeldOnce(l) && ReturnedForGood(l, me) && Return(l, l', a)
    ensures ReturnedForGood(l', me)
  {}

  lemma ReturnStaysSafe<T>(l: Ledger<T>, l': Ledger<T>, me: u32, a: Asset<T>)
    requires Safe(l, me) && Return(l, l', a)
    ensures Safe(l', me)
  {
    LessStaysHeldOnce(l, l', a);
    ReturnStaysForGood(l, l', me, a);
  }

  lemma LetGoStaysSafe<T>(l: Ledger<T>, l': Ledger<T>, me: u32, a: Asset<T>)
    requires Safe(l, me) && (Drop(l, l', a) || Leak(l, l', a))
    ensures Safe(l', me)
  {
    LessStaysHeldOnce(l, l', a);
  }

  lemma LoadStaysHeldOnce<T>(l: Ledger<T>, l': Ledger<T>, me: u32, hot: seq<Asset<T>>)
    requires Safe(l, me) && Load(l, l', me, hot)
    ensures HeldOnce(l')
  {
    OneOfEach(hot);
    forall a ensures a in l'.mem <==> Owned(a, l.db, me) {
      LoadedIff(hot, l.db, me, a);
    }
  }

  lemma LoadStaysSafe<T>(l: Ledger<T>, l': Ledger<T>, me: u32, hot: seq<Asset<T>>)
    requires Safe(l, me) && Load(l, l', me, hot)
    ensures Safe(l', me)
  {
    LoadStaysHeldOnce(l, l', me, hot);
  }

  /** A change of the database alone that adds none of this participant's assets. */
  lemma WriteStaysSafe<T>(l: Ledger<T>, l': Ledger<T>, me: u32)
    requires Safe(l, me) && l' == l.(db := l'.db, pend := l'.pend)
    requires forall id :: id in l'.db && id.Participant() == me ==> id in l.db
    ensures Safe(l', me)
  {}

  lemma CrashStaysSafe<T>(l: Ledger<T>, l': Ledger<T>, me: u32)
    requires Safe(l, me) && Crash(l, l')
    ensures Safe(l', me)
  {}

  lemma MovesKeepSafe<T>(l: Ledger<T>, l': Ledger<T>, me: u32, m: Move<T>)
    requires Safe(l, me) && Moves(l, l', me, m)
    ensures Safe(l', me)
  {
    match m {
      case Stay =>
      case MAdd(a) => AddStaysSafe(l, l', me, a);
      case MReturn(a) => ReturnStaysSafe(l, l', me, a);
      case MDrop(a) => LetGoStaysSafe(l, l', me, a);
      case MLeak(a) => LetGoStaysSafe(l, l', me, a);
      case MDelete(ids) => WriteStaysSafe(l, l', me);
      case MUnowned(id, value) => WriteStaysSafe(l, l', me);
      case MCrash => CrashStaysSafe(l, l', me);
      case MClean(ids) => WriteStaysSafe(l, l', me);
      case MLoad(hot) => LoadStaysSafe(l, l', me, hot);
    }
  }

  /** The move stores or takes something else as unowned, and cleans something else. */
  ghost predicate Spares<T>(m: Move<T>, id: UniqueId) {
    (m.MUnowned? ==> m.id != id) && (m.MClean? ==> id !in m.ids)
  }

  /** The same stands in both databases for this identifier. */
  ghost predicate SameAt<T>(db: map<UniqueId, T>, db': map<UniqueId, T>, id: UniqueId) {
    (id in db' <==> id in db) && (id in db ==> db'[id] == db[id])
  }

  /** Everything held or about to be deleted was passed to `add_owned`. */
  ghost predicate Recorded<T>(l: Ledger<T>) {
    (forall a :: a in l.mem ==> a.id in l.added) && l.pend <= l.added
  }

  lemma MirrorsAreRecorded<T>(l: Ledger<T>)
    requires Mirrors(l)
    ensures Recorded(l)
  {}

  /** What was never passed to `add_owned` is stored as before, unless the move is about it. */
  lemma MovesKeepUnowned<T>(l: Ledger<T>, l': Ledger<T>, me: u32, m: Move<T>, id: UniqueId)
    requires Recorded(l) && Moves(l, l', me, m) && Spares(m, id)
    ensures l.added <= l'.added && (id !in l'.added ==> SameAt(l.db, l'.db, id))
  {
    match m {
      case MReturn(a) => assert a.id in l.added;
      case MDelete(ids) => assert ids <= l.added;
      case _ =>
    }
  }
}
