/**
 * Every interleaving of the tasks that share an asset store, with crashes and restarts. One step is one
 * locked call on the cold queue, one channel operation or one database commit.
 */
module AssetRuns {
  import opened Wrappers
  import opened UniqueIds
  import opened ColdQueues
  import opened AssetColumns
  import opened AssetLedgers

  ghost function IdSet(ids: seq<UniqueId>): set<UniqueId> {
    set id | id in ids
  }

  /** Where a task is, and what it carries between two steps. */
  datatype Task<T> =
    | Idle
    | Adding(asset: Asset<T>)                                           // stored, not yet sent to the hot queue
    | Taking                                                            // about to try the cold queue
    | Waiting                                                           // cold queue exhausted: sleep or receive
    | Received(asset: Asset<T>)                                         // from the hot queue, not yet checked
    | Holding(asset: Asset<T>)                                          // taken, deletion not yet committed
    | Scanning(left: nat, removed: seq<UniqueId>)                       // discarding from the cold queue
    | Draining(left: nat, removed: seq<UniqueId>)                       // confirming the hot queue
    | Settling(removed: seq<UniqueId>)                                  // done draining, deletions not yet committed
    | Confirming(left: nat, removed: seq<UniqueId>, asset: Asset<T>)    // received, not yet checked
  {
    ghost function Held(): multiset<Asset<T>> {
      if Adding? || Received? || Holding? || Confirming? then multiset{asset} else multiset{}
    }

    ghost function Pending(): set<UniqueId> {
      if Scanning? || Draining? || Confirming? || Settling? then IdSet(removed) else {}
    }
  }

  datatype Sys<T(==), C> = Sys(
    up: bool, db: map<UniqueId, T>, hot: seq<Asset<T>>, cold: Cold<T, C>, tasks: seq<Task<T>>,
    leaked: set<UniqueId>, added: set<UniqueId>, returned: seq<Asset<T>>,
    entered: multiset<Asset<T>>, taken: multiset<Asset<T>>, discarded: multiset<Asset<T>>)

  ghost function HeldBy<T>(tasks: seq<Task<T>>): multiset<Asset<T>> {
    if tasks == [] then multiset{} else tasks[0].Held() + HeldBy(tasks[1..])
  }

  ghost function PendingOf<T>(tasks: seq<Task<T>>): set<UniqueId> {
    set i, id | 0 <= i < |tasks| && id in tasks[i].Pending() :: id
  }

  ghost function Queued<T>(hot: seq<Asset<T>>, cold: seq<Asset<T>>): multiset<Asset<T>> {
    multiset(hot) + multiset(cold)
  }

  ghost function Memory<T, C>(s: Sys<T, C>): multiset<Asset<T>> {
    Queued(s.hot, s.cold.queue) + HeldBy(s.tasks)
  }

  ghost function View<T, C>(s: Sys<T, C>): Ledger<T> {
    Ledger(s.up, s.db, Memory(s), PendingOf(s.tasks), s.leaked, s.added, s.returned, s.entered, s.taken, s.discarded)
  }

  /** `i` is the task that steps; `now` and `fetched` are what the clock and the condition fetcher answer. */
  datatype Step<T, C> =
    | StoreAsset(i: nat, asset: Asset<T>)
    | SendHot(i: nat)
    | StartTake(i: nat, now: int, fetched: C)
    | TryCold(i: nat, now: int, fetched: C)
    | Wake(i: nat)
    | Abandon(i: nat)
    | Receive(i: nat)
    | CheckReceived(i: nat, now: int, fetched: C)
    | CommitTake(i: nat)
    | StartDiscard(i: nat, n: nat, now: int, fetched: C)
    | ScanCold(i: nat, now: int, fetched: C)
    | ReceiveToConfirm(i: nat)
    | ConfirmReceived(i: nat, now: int, fetched: C)
    | StopDraining(i: nat)
    | CommitDiscard(i: nat)
    | StoreUnowned(id: UniqueId, value: T)
    | TakeUnowned(id: UniqueId)
    | CrashNow
    | CleanWhileDown(ids: set<UniqueId>)
    | Restart(hot: seq<Asset<T>>, now: int, default: C)

  ghost predicate IsTaskStep<T, C>(step: Step<T, C>) {
    !step.StoreUnowned? && !step.TakeUnowned? && !step.CrashNow? && !step.CleanWhileDown? && !step.Restart?
  }

  /**
   * When a step can happen. `add_owned` gets each identifier at most once, `add_unowned` only those of other
   * participants; a restart loads what the database holds.
   */
  ghost predicate Enabled<T, C>(s: Sys<T, C>, step: Step<T, C>, me: u32) {
    if IsTaskStep(step) then
      && s.up && step.i < |s.tasks|
      && var t := s.tasks[step.i];
         match step
         case StoreAsset(i, a) => t.Idle? && a.id !in s.added
         case SendHot(i) => t.Adding?
         case StartTake(i, now, v) => t.Idle?
         case TryCold(i, now, v) => t.Taking?
         case Wake(i) => t.Waiting?
         case Abandon(i) => t.Waiting?
         case Receive(i) => t.Waiting? && s.hot != []
         case CheckReceived(i, now, v) => t.Received?
         case CommitTake(i) => t.Holding?
         case StartDiscard(i, n, now, v) => t.Idle?
         case ScanCold(i, now, v) => t.Scanning?
         case ReceiveToConfirm(i) => t.Draining? && t.left > 0 && s.hot != []
         case ConfirmReceived(i, now, v) => t.Confirming?
         case StopDraining(i) => t.Draining? && (t.left == 0 || s.hot == [])
         case CommitDiscard(i) => t.Settling?
         case _ => false
    else
      match step
      case StoreUnowned(id, value) => s.up && id.Participant() != me
      case TakeUnowned(id) => s.up
      case CrashNow => s.up
      case CleanWhileDown(ids) => !s.up
      case Restart(hot, now, default) => !s.up && LoadedFrom(hot, s.db, me)
      case _ => false
  }

  ghost function Set<T, C>(s: Sys<T, C>, i: nat, t: Task<T>): Sys<T, C>
    requires i < |s.tasks|
  {
    s.(tasks := s.tasks[i := t])
  }

  ghost function AfterTryCold<T, C>(s: Sys<T, C>, i: nat, o: Outcome<T, C, TakeResult<T>>): Sys<T, C>
    requires i < |s.tasks|
  {
    match o.result
    case Taken(a) => Set(s, i, Holding(a)).(cold := o.cold)
    case SomeMayBeAvailable => Set(s, i, Taking).(cold := o.cold)
    case NoneAvailable => Set(s, i, Waiting).(cold := o.cold)
  }

  ghost function AfterReceive<T, C>(s: Sys<T, C>, i: nat, t: Task<T>): Sys<T, C>
    requires i < |s.tasks| && s.hot != []
  {
    Set(s, i, t).(hot := s.hot[1..])
  }

  ghost function AfterCheckReceived<T, C>(s: Sys<T, C>, i: nat, o: Outcome<T, C, AddResult<T>>): Sys<T, C>
    requires i < |s.tasks| && s.tasks[i].Received?
  {
    if o.result.Enqueued? then Set(s, i, Taking).(cold := o.cold)
    else Set(s, i, Holding(Asset(s.tasks[i].asset.id, o.result.value))).(cold := o.cold)
  }

  ghost function AfterScan<T, C>(s: Sys<T, C>, i: nat, o: Outcome<T, C, DiscardResult<T>>): Sys<T, C>
    requires i < |s.tasks| && s.tasks[i].Scanning?
  {
    var t := s.tasks[i];
    if t.left == 0 then Set(s, i, Draining(0, t.removed)) else
      match o.result
      case Discarded(a) =>
        Set(s, i, Scanning(t.left - 1, t.removed + [a.id])).(cold := o.cold, discarded := s.discarded + multiset{a})
      case SomeMayRemain => Set(s, i, Scanning(t.left - 1, t.removed)).(cold := o.cold)
      case NoneRemain => Set(s, i, Draining(t.left, t.removed)).(cold := o.cold)
  }

  ghost function AfterConfirm<T, C>(s: Sys<T, C>, i: nat, o: Outcome<T, C, AddResult<T>>): Sys<T, C>
    requires i < |s.tasks| && s.tasks[i].Confirming?
  {
    var t := s.tasks[i];
    var s' := Set(s, i, Draining(t.left, t.removed)).(cold := o.cold);
    if o.result.Enqueued? then s'
    else s'.(leaked := s.leaked + {t.asset.id}, discarded := s.discarded + multiset{t.asset})
  }

  ghost function Next<T, C>(s: Sys<T, C>, step: Step<T, C>, cond: (C, T) -> bool, me: u32): Sys<T, C>
    requires Enabled(s, step, me) && s.cold.Barriers()
  {
    match step
    case StoreAsset(i, a) =>
      Set(s, i, Adding(a)).(db := s.db[a.id := a.value], added := s.added + {a.id}, entered := s.entered + multiset{a})
    case SendHot(i) => Set(s, i, Idle).(hot := s.hot + [s.tasks[i].asset])
    case StartTake(i, now, v) => Set(s, i, Taking).(cold := Refresh(s.cold, now, v))
    case TryCold(i, now, v) => AfterTryCold(s, i, Take(s.cold, cond, now, v))
    case Wake(i) => Set(s, i, Taking)
    case Abandon(i) => Set(s, i, Idle)
    case Receive(i) => AfterReceive(s, i, Received(s.hot[0]))
    case CheckReceived(i, now, v) =>
      AfterCheckReceived(s, i, AddIfNotSatisfied(s.cold, s.tasks[i].asset, cond, now, v))
    case CommitTake(i) =>
      var a := s.tasks[i].asset;
      Set(s, i, Idle).(db := s.db - {a.id}, returned := s.returned + [a], taken := s.taken + multiset{a})
    case StartDiscard(i, n, now, v) => Set(s, i, Scanning(n, [])).(cold := Refresh(s.cold, now, v))
    case ScanCold(i, now, v) => AfterScan(s, i, Discard(s.cold, cond, now, v))
    case ReceiveToConfirm(i) => AfterReceive(s, i, Confirming(s.tasks[i].left - 1, s.tasks[i].removed, s.hot[0]))
    case ConfirmReceived(i, now, v) => AfterConfirm(s, i, AddIfSatisfied(s.cold, s.tasks[i].asset, cond, now, v))
    case StopDraining(i) => Set(s, i, Settling(s.tasks[i].removed))
    case CommitDiscard(i) => Set(s, i, Idle).(db := s.db - s.tasks[i].Pending())
    case StoreUnowned(id, value) => s.(db := s.db[id := value])
    case TakeUnowned(id) => s.(db := s.db - {id})
    case CrashNow =>
      s.(up := false, hot := [], cold := s.cold.(ready := 0, available := 0, queue := []),
         tasks := seq(|s.tasks|, _ => Idle), leaked := {},
         entered := multiset{}, taken := multiset{}, discarded := multiset{})
    case CleanWhileDown(ids) => s.(db := s.db - ids)
    case Restart(hot, now, default) =>
      s.(up := true, hot := hot, cold := Cold(0, 0, [], default, now),
         entered := multiset(hot), taken := multiset{}, discarded := multiset{})
  }

  ghost function ScanMove<T>(t: Task<T>, r: DiscardResult<T>): Move<T>
    requires t.Scanning?
  {
    if t.left > 0 && r.Discarded? then MDrop(r.asset) else Stay
  }

  ghost function ConfirmMove<T>(t: Task<T>, r: AddResult<T>): Move<T>
    requires t.Confirming?
  {
    if r.Enqueued? then Stay else MLeak(t.asset)
  }

  /** The ledger move behind each step. */
  ghost function MoveOf<T, C>(s: Sys<T, C>, step: Step<T, C>, cond: (C, T) -> bool, me: u32): Move<T>
    requires Enabled(s, step, me) && s.cold.Barriers()
  {
    match step
    case StoreAsset(i, a) => MAdd(a)
    case CommitTake(i) => MReturn(s.tasks[i].asset)
    case ScanCold(i, now, v) => ScanMove(s.tasks[i], Discard(s.cold, cond, now, v).result)
    case ConfirmReceived(i, now, v) =>
      ConfirmMove(s.tasks[i], AddIfSatisfied(s.cold, s.tasks[i].asset, cond, now, v).result)
    case CommitDiscard(i) => MDelete(s.tasks[i].Pending())
    case StoreUnowned(id, value) => MUnowned(id, Some(value))
    case TakeUnowned(id) => MUnowned(id, None)
    case CrashNow => MCrash
    case CleanWhileDown(ids) => MClean(ids)
    case Restart(hot, now, default) => MLoad(hot)
    case _ => Stay
  }

  // ----- Bookkeeping over the tasks -----

  /** What a task holds is on top of what the others hold. */
  lemma {:induction false} HeldOnTop<T>(tasks: seq<Task<T>>, others: seq<Task<T>>, i: nat)
    requires i < |tasks| && others == tasks[i := Idle]
    ensures HeldBy(tasks) == HeldBy(others) + tasks[i].Held()
  {
    if i == 0 {
      assert others[1..] == tasks[1..];
    } else {
      HeldOnTop(tasks[1..], others[1..], i - 1);
      var first, mine := tasks[0].Held(), tasks[i].Held();
      assert HeldBy(others) == first + HeldBy(others[1..]);
      OnTop(first, HeldBy(others[1..]), mine);
    }
  }

  lemma OnTop<X>(q: multiset<X>, r: multiset<X>, t: multiset<X>)
    ensures q + (r + t) == (q + r) + t
  {}

  lemma SameSum<X>(q: multiset<X>, t: multiset<X>, q': multiset<X>, t': multiset<X>, rest: multiset<X>)
    requires q' + t' == q + t
    ensures q' + (rest + t') == q + (rest + t)
  {
    assert q' + (rest + t') == rest + (q' + t');
    assert q + (rest + t) == rest + (q + t);
  }

  lemma LessSum<X>(q: multiset<X>, t: multiset<X>, q': multiset<X>, t': multiset<X>, rest: multiset<X>, a: X)
    requires q' + t' + multiset{a} == q + t
    ensures q' + (rest + t') == (q + (rest + t)) - multiset{a} && a in q + (rest + t)
  {
    assert (q' + (rest + t')) + multiset{a} == rest + (q' + t' + multiset{a});
    assert q + (rest + t) == rest + (q + t);
  }

  lemma MemorySame<T>(q: multiset<Asset<T>>, q': multiset<Asset<T>>, tasks: seq<Task<T>>, i: nat, t: Task<T>)
    requires i < |tasks| && q' + t.Held() == q + tasks[i].Held()
    ensures q' + HeldBy(tasks[i := t]) == q + HeldBy(tasks)
  {
    var others := tasks[i := Idle];
    HeldOnTop(tasks, others, i);
    HeldOnTop(tasks[i := t], others, i);
    SameSum(q, tasks[i].Held(), q', t.Held(), HeldBy(others));
  }

  lemma MemoryLess<T>(q: multiset<Asset<T>>, q': multiset<Asset<T>>, tasks: seq<Task<T>>, i: nat, t: Task<T>,
        a: Asset<T>)
    requires i < |tasks| && q' + t.Held() + multiset{a} == q + tasks[i].Held()
    ensures q' + HeldBy(tasks[i := t]) == (q + HeldBy(tasks)) - multiset{a} && a in q + HeldBy(tasks)
  {
    var others := tasks[i := Idle];
    LessSum(q, tasks[i].Held(), q', t.Held(), HeldBy(others), a);
    HeldOnTop(tasks, others, i);
    HeldOnTop(tasks[i := t], others, i);
  }

  lemma {:induction false} IdleHoldsNothing<T>(tasks: seq<Task<T>>)
    requires forall i :: 0 <= i < |tasks| ==> tasks[i].Idle?
    ensures HeldBy(tasks) == multiset{} && PendingOf(tasks) == {}
  {
    if tasks != [] { IdleHoldsNothing(tasks[1..]); }
  }

  lemma PendingAfter<T>(tasks: seq<Task<T>>, i: nat, t: Task<T>)
    requires i < |tasks|
    ensures PendingOf(tasks) + t.Pending() == PendingOf(tasks[i := t]) + tasks[i].Pending()
    ensures tasks[i].Pending() <= t.Pending() ==> PendingOf(tasks[i := t]) == PendingOf(tasks) + t.Pending()
    ensures t.Pending() <= tasks[i].Pending() ==> PendingOf(tasks[i := t]) <= PendingOf(tasks)
  {
    var after := tasks[i := t];
    forall id | id in PendingOf(tasks) ensures id in PendingOf(after) || id in tasks[i].Pending() {
      var j :| 0 <= j < |tasks| && id in tasks[j].Pending();
      assert j != i ==> after[j] == tasks[j];
    }
    forall id | id in PendingOf(after) ensures id in PendingOf(tasks) || id in t.Pending() {
      var j :| 0 <= j < |after| && id in after[j].Pending();
      assert j != i ==> after[j] == tasks[j];
    }
    forall id | id in t.Pending() ensures id in PendingOf(after) {
      assert after[i] == t;
    }
    forall id | id in tasks[i].Pending() ensures id in PendingOf(tasks) {}
  }

  lemma PendingSame<T>(tasks: seq<Task<T>>, i: nat, t: Task<T>)
    requires i < |tasks| && t.Pending() == tasks[i].Pending()
    ensures PendingOf(tasks[i := t]) == PendingOf(tasks)
  {
    PendingAfter(tasks, i, t);
  }

  /** What every reachable state satisfies beyond the ledger. */
  ghost predicate SysValid<T, C>(s: Sys<T, C>, cond: (C, T) -> bool) {
    && s.cold.Sorted(cond)
    && (!s.up ==> s.hot == [] && s.cold.queue == [] && forall i :: 0 <= i < |s.tasks| ==> s.tasks[i].Idle?)
  }

  // ----- Each step is a move of the ledger -----

  /** Only task `i` and the queues differ. */
  ghost predicate OnlyMoved<T, C>(s: Sys<T, C>, s': Sys<T, C>, i: nat) {
    && i < |s.tasks| && |s'.tasks| == |s.tasks|
    && s' == s.(hot := s'.hot, cold := s'.cold, tasks := s.tasks[i := s'.tasks[i]])
  }

  /** Task `i` and the queues pass assets among themselves; pending deletions stay. */
  lemma PassesStays<T, C>(s: Sys<T, C>, s': Sys<T, C>, i: nat)
    requires OnlyMoved(s, s', i) && s'.tasks[i].Pending() == s.tasks[i].Pending()
    requires Queued(s'.hot, s'.cold.queue) + s'.tasks[i].Held() == Queued(s.hot, s.cold.queue) + s.tasks[i].Held()
    ensures View(s') == View(s)
  {
    MemorySame(Queued(s.hot, s.cold.queue), Queued(s'.hot, s'.cold.queue), s.tasks, i, s'.tasks[i]);
    PendingSame(s.tasks, i, s'.tasks[i]);
  }

  lemma Nothing<X>(q: multiset<X>, a: X)
    ensures q + multiset{} + multiset{a} == q + multiset{a}
  {}

  /** Task `i` lets go of what it holds. */
  lemma LetsGo<T, C>(s: Sys<T, C>, i: nat, t: Task<T>, a: Asset<T>)
    requires i < |s.tasks| && s.tasks[i].Held() == multiset{a} && t.Held() == multiset{} &&
             t.Pending() == s.tasks[i].Pending()
    ensures View(Set(s, i, t)) == View(s).(mem := Memory(s) - multiset{a}) && a in Memory(s)
  {
    var q := Queued(s.hot, s.cold.queue);
    Nothing(q, a);
    MemoryLess(q, q, s.tasks, i, t, a);
    PendingSame(s.tasks, i, t);
  }

  lemma QueueToTask<T>(hot: seq<Asset<T>>, cold: seq<Asset<T>>, hot': seq<Asset<T>>, cold': seq<Asset<T>>, a: Asset<T>)
    requires (cold' == cold && multiset(hot) == multiset{a} + multiset(hot')) ||
             (hot' == hot && multiset(cold) == multiset{a} + multiset(cold'))
    ensures Queued(hot', cold') + multiset{a} == Queued(hot, cold) + multiset{}
    ensures Queued(hot', cold') + multiset{} + multiset{a} == Queued(hot, cold) + multiset{}
    ensures Queued(hot', cold') + multiset{} == Queued(hot', cold')
  {}

  lemma StoreView<T, C>(s: Sys<T, C>, i: nat, a: Asset<T>)
    requires i < |s.tasks| && s.tasks[i].Idle?
    ensures View(Set(s, i, Adding(a))) == View(s).(mem := Memory(s) + multiset{a})
  {
    var after := s.tasks[i := Adding(a)];
    HeldOnTop(after, s.tasks, i);
    OnTop(Queued(s.hot, s.cold.queue), HeldBy(s.tasks), multiset{a});
    PendingAfter(s.tasks, i, Adding(a));
  }

  lemma DropView<T, C>(s: Sys<T, C>, s': Sys<T, C>, i: nat, a: Asset<T>)
    requires OnlyMoved(s, s', i) && s'.tasks[i].Pending() == s.tasks[i].Pending() + {a.id}
    requires Queued(s'.hot, s'.cold.queue) + s'.tasks[i].Held() + multiset{a}
             == Queued(s.hot, s.cold.queue) + s.tasks[i].Held()
    ensures View(s') == View(s).(mem := Memory(s) - multiset{a}, pend := PendingOf(s.tasks) + {a.id}) && a in Memory(s)
  {
    MemoryLess(Queued(s.hot, s.cold.queue), Queued(s'.hot, s'.cold.queue), s.tasks, i, s'.tasks[i], a);
    PendingAfter(s.tasks, i, s'.tasks[i]);
  }

  lemma SettleView<T, C>(s: Sys<T, C>, i: nat)
    requires i < |s.tasks| && s.tasks[i].Settling?
    ensures View(Set(s, i, Idle)) == View(s).(pend := PendingOf(s.tasks[i := Idle]))
    ensures s.tasks[i].Pending() <= PendingOf(s.tasks)
    ensures PendingOf(s.tasks) - s.tasks[i].Pending() <= PendingOf(s.tasks[i := Idle]) <= PendingOf(s.tasks)
  {
    HeldOnTop(s.tasks, s.tasks[i := Idle], i);
    assert HeldBy(s.tasks[i := Idle]) + multiset{} == HeldBy(s.tasks[i := Idle]);
    PendingAfter(s.tasks, i, Idle);
  }

  lemma StoreRefines<T, C>(s: Sys<T, C>, i: nat, a: Asset<T>, me: u32)
    requires s.up && i < |s.tasks| && s.tasks[i].Idle? && a.id !in s.added
    ensures var s' := Set(s, i, Adding(a)).(
              db := s.db[a.id := a.value], added := s.added + {a.id}, entered := s.entered + multiset{a});
            Moves(View(s), View(s'), me, MAdd(a))
  {
    StoreView(s, i, a);
  }

  lemma SendStays<T, C>(s: Sys<T, C>, i: nat)
    requires i < |s.tasks| && s.tasks[i].Adding?
    ensures View(Set(s, i, Idle).(hot := s.hot + [s.tasks[i].asset])) == View(s)
  {
    var a, s' := s.tasks[i].asset, Set(s, i, Idle).(hot := s.hot + [s.tasks[i].asset]);
    assert multiset(s'.hot) == multiset{a} + multiset(s.hot);
    QueueToTask(s'.hot, s.cold.queue, s.hot, s.cold.queue, a);
    PassesStays(s, s', i);
  }

  /** Taking one asset from the hot queue into a task. */
  lemma ReceiveStays<T, C>(s: Sys<T, C>, i: nat, t: Task<T>)
    requires i < |s.tasks| && s.hot != [] && s.tasks[i].Held() == multiset{}
    requires t.Held() == multiset{s.hot[0]} && t.Pending() == s.tasks[i].Pending()
    ensures View(AfterReceive(s, i, t)) == View(s)
  {
    PopFront(s.hot);
    QueueToTask(s.hot, s.cold.queue, s.hot[1..], s.cold.queue, s.hot[0]);
    PassesStays(s, AfterReceive(s, i, t), i);
  }

  /** Steps of a task that holds nothing before or after, with the same assets in the cold queue. */
  lemma TurnStays<T, C>(s: Sys<T, C>, i: nat, t: Task<T>, c: Cold<T, C>)
    requires i < |s.tasks| && s.tasks[i].Held() == t.Held() == multiset{} && t.Pending() == s.tasks[i].Pending()
    requires c.Bag() == s.cold.Bag()
    ensures View(Set(s, i, t).(cold := c)) == View(s)
  {
    PassesStays(s, Set(s, i, t).(cold := c), i);
  }

  lemma WaitStays<T, C>(s: Sys<T, C>, i: nat, t: Task<T>)
    requires i < |s.tasks| && s.tasks[i].Waiting? && (t.Taking? || t.Idle?)
    ensures View(Set(s, i, t)) == View(s)
  {
    PassesStays(s, Set(s, i, t), i);
  }

  lemma StopStays<T, C>(s: Sys<T, C>, i: nat)
    requires i < |s.tasks| && s.tasks[i].Draining?
    ensures View(Set(s, i, Settling(s.tasks[i].removed))) == View(s)
  {
    PassesStays(s, Set(s, i, Settling(s.tasks[i].removed)), i);
  }

  lemma StartStays<T, C>(s: Sys<T, C>, i: nat, t: Task<T>, now: int, v: C)
    requires i < |s.tasks| && s.tasks[i].Idle? && (t.Taking? || (t.Scanning? && t.removed == []))
    ensures View(Set(s, i, t).(cold := Refresh(s.cold, now, v))) == View(s)
  {
    assert t.Pending() == {};
    TurnStays(s, i, t, Refresh(s.cold, now, v));
  }

  lemma ScanStays<T, C>(s: Sys<T, C>, i: nat, t: Task<T>, c: Cold<T, C>)
    requires i < |s.tasks| && s.tasks[i].Scanning? && (t.Scanning? || t.Draining?) && t.removed == s.tasks[i].removed
    requires c.Bag() == s.cold.Bag()
    ensures View(Set(s, i, t).(cold := c)) == View(s)
  {
    TurnStays(s, i, t, c);
  }

  /** Taking one asset from the cold queue into a task. */
  lemma TakenStays<T, C>(s: Sys<T, C>, i: nat, c: Cold<T, C>, a: Asset<T>)
    requires i < |s.tasks| && s.tasks[i].Taking? && s.cold.Bag() == multiset{a} + c.Bag()
    ensures View(Set(s, i, Holding(a)).(cold := c)) == View(s)
  {
    QueueToTask(s.hot, s.cold.queue, s.hot, c.queue, a);
    PassesStays(s, Set(s, i, Holding(a)).(cold := c), i);
  }

  lemma TryColdStays<T, C>(s: Sys<T, C>, i: nat, cond: (C, T) -> bool, now: int, v: C)
    requires s.cold.Sorted(cond) && i < |s.tasks| && s.tasks[i].Taking?
    ensures View(AfterTryCold(s, i, Take(s.cold, cond, now, v))) == View(s)
  {
    TakeMeaning(s.cold, cond, now, v);
    var o := Take(s.cold, cond, now, v);
    match o.result {
      case Taken(a) => TakenStays(s, i, o.cold, a);
      case SomeMayBeAvailable => TurnStays(s, i, Taking, o.cold);
      case NoneAvailable => TurnStays(s, i, Waiting, o.cold);
    }
  }

  lemma CheckReceivedStays<T, C>(s: Sys<T, C>, i: nat, cond: (C, T) -> bool, now: int, v: C)
    requires s.cold.Sorted(cond) && i < |s.tasks| && s.tasks[i].Received?
    ensures View(AfterCheckReceived(s, i, AddIfNotSatisfied(s.cold, s.tasks[i].asset, cond, now, v))) == View(s)
  {
    var a := s.tasks[i].asset;
    var o := AddIfNotSatisfied(s.cold, a, cond, now, v);
    AddIfNotSatisfiedMeaning(s.cold, a, cond, now, v);
    if o.result.Enqueued? {
      QueueToTask(s.hot, o.cold.queue, s.hot, s.cold.queue, a);
      PassesStays(s, Set(s, i, Taking).(cold := o.cold), i);
    } else {
      PassesStays(s, Set(s, i, Holding(a)).(cold := o.cold), i);
    }
  }

  lemma CommitTakeRefines<T, C>(s: Sys<T, C>, i: nat, me: u32)
    requires s.up && i < |s.tasks| && s.tasks[i].Holding?
    ensures var a := s.tasks[i].asset;
            var s' := Set(s, i, Idle).(
              db := s.db - {a.id}, returned := s.returned + [a], taken := s.taken + multiset{a});
            Moves(View(s), View(s'), me, MReturn(a))
  {
    LetsGo(s, i, Idle, s.tasks[i].asset);
  }

  lemma PendingGrows<T>(left: nat, removed: seq<UniqueId>, id: UniqueId)
    ensures Task<T>.Scanning(left, removed + [id]).Pending() == Task<T>.Scanning(left + 1, removed).Pending() + {id}
  {}

  lemma ScanDrops<T, C>(s: Sys<T, C>, i: nat, c: Cold<T, C>, a: Asset<T>, me: u32)
    requires s.up && i < |s.tasks| && s.tasks[i].Scanning? && s.tasks[i].left > 0
    requires s.cold.Bag() == multiset{a} + c.Bag()
    ensures var t := Scanning(s.tasks[i].left - 1, s.tasks[i].removed + [a.id]);
            var s' := Set(s, i, t).(cold := c, discarded := s.discarded + multiset{a});
            Moves(View(s), View(s'), me, MDrop(a))
  {
    var t := Scanning(s.tasks[i].left - 1, s.tasks[i].removed + [a.id]);
    PendingGrows<T>(s.tasks[i].left - 1, s.tasks[i].removed, a.id);
    QueueToTask(s.hot, s.cold.queue, s.hot, c.queue, a);
    DropView(s, Set(s, i, t).(cold := c), i, a);
  }

  lemma ScanRefines<T, C>(s: Sys<T, C>, i: nat, cond: (C, T) -> bool, now: int, v: C, me: u32)
    requires s.up && s.cold.Sorted(cond) && i < |s.tasks| && s.tasks[i].Scanning?
    ensures var o := Discard(s.cold, cond, now, v);
            Moves(View(s), View(AfterScan(s, i, o)), me, ScanMove(s.tasks[i], o.result))
  {
    DiscardMeaning(s.cold, cond, now, v);
    RefreshKeepsSorted(s.cold, cond, now, v);
    AfterScanRefines(s, i, Discard(s.cold, cond, now, v), me);
  }

  lemma AfterScanStays<T, C>(s: Sys<T, C>, i: nat, o: Outcome<T, C, DiscardResult<T>>)
    requires i < |s.tasks| && s.tasks[i].Scanning? && (s.tasks[i].left > 0 ==> !o.result.Discarded?)
    requires s.tasks[i].left > 0 ==> o.cold.Bag() == s.cold.Bag()
    ensures View(AfterScan(s, i, o)) == View(s)
  {
    var t := s.tasks[i];
    if t.left == 0 {
      ScanStays(s, i, Draining(0, t.removed), s.cold);
      assert AfterScan(s, i, o) == Set(s, i, Draining(0, t.removed)).(cold := s.cold);
    } else if o.result.NoneRemain? {
      ScanStays(s, i, Draining(t.left, t.removed), o.cold);
      assert AfterScan(s, i, o) == Set(s, i, Draining(t.left, t.removed)).(cold := o.cold);
    } else {
      ScanStays(s, i, Scanning(t.left - 1, t.removed), o.cold);
      assert AfterScan(s, i, o) == Set(s, i, Scanning(t.left - 1, t.removed)).(cold := o.cold);
    }
  }

  lemma AfterScanRefines<T, C>(s: Sys<T, C>, i: nat, o: Outcome<T, C, DiscardResult<T>>, me: u32)
    requires s.up && i < |s.tasks| && s.tasks[i].Scanning?
    requires s.cold.Bag() == if o.result.Discarded? then multiset{o.result.asset} + o.cold.Bag() else o.cold.Bag()
    ensures Moves(View(s), View(AfterScan(s, i, o)), me, ScanMove(s.tasks[i], o.result))
  {
    if s.tasks[i].left > 0 && o.result.Discarded? {
      ScanDrops(s, i, o.cold, o.result.asset, me);
    } else {
      AfterScanStays(s, i, o);
    }
  }

  lemma ConfirmKeeps<T, C>(s: Sys<T, C>, i: nat, c: Cold<T, C>)
    requires i < |s.tasks| && s.tasks[i].Confirming? && c.Bag() == multiset{s.tasks[i].asset} + s.cold.Bag()
    ensures View(Set(s, i, Draining(s.tasks[i].left, s.tasks[i].removed)).(cold := c)) == View(s)
  {
    var t := s.tasks[i];
    QueueToTask(s.hot, c.queue, s.hot, s.cold.queue, t.asset);
    PassesStays(s, Set(s, i, Draining(t.left, t.removed)).(cold := c), i);
  }

  lemma ConfirmLeaks<T, C>(s: Sys<T, C>, i: nat, c: Cold<T, C>, me: u32)
    requires s.up && i < |s.tasks| && s.tasks[i].Confirming? && c.queue == s.cold.queue
    ensures var t := s.tasks[i];
            var s' := Set(s, i, Draining(t.left, t.removed)).(
              cold := c, leaked := s.leaked + {t.asset.id}, discarded := s.discarded + multiset{t.asset});
            Moves(View(s), View(s'), me, MLeak(t.asset))
  {
    LetsGo(s, i, Draining(s.tasks[i].left, s.tasks[i].removed), s.tasks[i].asset);
  }

  lemma ConfirmRefines<T, C>(s: Sys<T, C>, i: nat, cond: (C, T) -> bool, now: int, v: C, me: u32)
    requires s.up && s.cold.Sorted(cond) && i < |s.tasks| && s.tasks[i].Confirming?
    ensures var o := AddIfSatisfied(s.cold, s.tasks[i].asset, cond, now, v);
            Moves(View(s), View(AfterConfirm(s, i, o)), me, ConfirmMove(s.tasks[i], o.result))
  {
    var o := AddIfSatisfied(s.cold, s.tasks[i].asset, cond, now, v);
    AddIfSatisfiedMeaning(s.cold, s.tasks[i].asset, cond, now, v);
    if o.result.Enqueued? {
      ConfirmKeeps(s, i, o.cold);
    } else {
      RefreshKeepsSorted(s.cold, cond, now, v);
      ConfirmLeaks(s, i, o.cold, me);
    }
  }

  lemma CommitDiscardRefines<T, C>(s: Sys<T, C>, i: nat, me: u32)
    requires s.up && i < |s.tasks| && s.tasks[i].Settling?
    ensures Moves(View(s), View(Set(s, i, Idle).(db := s.db - s.tasks[i].Pending())), me, MDelete(s.tasks[i].Pending()))
  {
    SettleView(s, i);
  }

  lemma CrashRefines<T, C>(s: Sys<T, C>, s': Sys<T, C>, me: u32)
    requires s' == s.(up := false, hot := [], cold := s'.cold, tasks := s'.tasks, leaked := {},
                      entered := multiset{}, taken := multiset{}, discarded := multiset{})
    requires s'.cold.queue == [] && forall i :: 0 <= i < |s'.tasks| ==> s'.tasks[i].Idle?
    ensures Moves(View(s), View(s'), me, MCrash)
  {
    IdleHoldsNothing(s'.tasks);
  }

  lemma RestartRefines<T, C>(s: Sys<T, C>, hot: seq<Asset<T>>, c: Cold<T, C>, me: u32)
    requires !s.up && LoadedFrom(hot, s.db, me) && c.queue == []
    requires forall i :: 0 <= i < |s.tasks| ==> s.tasks[i].Idle?
    ensures var s' := s.(
              up := true, hot := hot, cold := c,
              entered := multiset(hot), taken := multiset{}, discarded := multiset{});
            Moves(View(s), View(s'), me, MLoad(hot))
  {
    IdleHoldsNothing(s.tasks);
  }

  ghost predicate IsQueueStep<T, C>(step: Step<T, C>) {
    step.TryCold? || step.CheckReceived? || step.ScanCold? || step.ConfirmReceived? || step.StartTake? ||
        step.StartDiscard?
  }

  ghost predicate IsCommit<T, C>(step: Step<T, C>) {
    step.StoreAsset? || step.CommitTake? || step.CommitDiscard?
  }

  lemma RefinesQueueStep<T, C>(s: Sys<T, C>, step: Step<T, C>, cond: (C, T) -> bool, me: u32)
    requires SysValid(s, cond) && Enabled(s, step, me) && IsQueueStep(step)
    ensures Moves(View(s), View(Next(s, step, cond, me)), me, MoveOf(s, step, cond, me))
  {
    match step {
      case StartTake(i, now, v) => StartStays(s, i, Taking, now, v);
      case StartDiscard(i, n, now, v) => StartStays(s, i, Scanning(n, []), now, v);
      case TryCold(i, now, v) => TryColdStays(s, i, cond, now, v);
      case CheckReceived(i, now, v) => CheckReceivedStays(s, i, cond, now, v);
      case ScanCold(i, now, v) => ScanRefines(s, i, cond, now, v, me);
      case ConfirmReceived(i, now, v) => ConfirmRefines(s, i, cond, now, v, me);
    }
  }

  lemma RefinesCommit<T, C>(s: Sys<T, C>, step: Step<T, C>, cond: (C, T) -> bool, me: u32)
    requires SysValid(s, cond) && Enabled(s, step, me) && IsCommit(step)
    ensures Moves(View(s), View(Next(s, step, cond, me)), me, MoveOf(s, step, cond, me))
  {
    match step {
      case StoreAsset(i, a) => StoreRefines(s, i, a, me);
      case CommitTake(i) => CommitTakeRefines(s, i, me);
      case CommitDiscard(i) => CommitDiscardRefines(s, i, me);
    }
  }

  lemma ReceiveRefines<T, C>(s: Sys<T, C>, i: nat, cond: (C, T) -> bool, me: u32)
    requires SysValid(s, cond) && Enabled(s, Receive(i), me)
    ensures View(Next(s, Receive(i), cond, me)) == View(s)
  {
    ReceiveStays(s, i, Received(s.hot[0]));
  }

  lemma ReceiveToConfirmStays<T, C>(s: Sys<T, C>, i: nat)
    requires i < |s.tasks| && s.hot != [] && s.tasks[i].Draining? && s.tasks[i].left > 0
    ensures View(AfterReceive(s, i, Confirming(s.tasks[i].left - 1, s.tasks[i].removed, s.hot[0]))) == View(s)
  {
    ReceiveStays(s, i, Confirming(s.tasks[i].left - 1, s.tasks[i].removed, s.hot[0]));
  }

  lemma ReceiveToConfirmRefines<T, C>(s: Sys<T, C>, i: nat, cond: (C, T) -> bool, me: u32)
    requires SysValid(s, cond) && Enabled(s, ReceiveToConfirm(i), me)
    ensures View(Next(s, ReceiveToConfirm(i), cond, me)) == View(s)
  {
    ReceiveToConfirmStays(s, i);
    var t := Confirming(s.tasks[i].left - 1, s.tasks[i].removed, s.hot[0]);
    assert Next(s, ReceiveToConfirm(i), cond, me) == AfterReceive(s, i, t);
  }

  lemma TurnStepStays<T, C>(s: Sys<T, C>, step: Step<T, C>, cond: (C, T) -> bool, me: u32)
    requires SysValid(s, cond) && Enabled(s, step, me) && (step.Wake? || step.Abandon? || step.StopDraining?)
    ensures View(Next(s, step, cond, me)) == View(s)
  {
    if step.StopDraining? {
      StopStays(s, step.i);
    } else {
      WaitStays(s, step.i, if step.Wake? then Taking else Idle);
    }
  }

  lemma RefinesHandOver<T, C>(s: Sys<T, C>, step: Step<T, C>, cond: (C, T) -> bool, me: u32)
    requires SysValid(s, cond) && Enabled(s, step, me) && IsTaskStep(step) && !IsCommit(step) && !IsQueueStep(step)
    ensures Moves(View(s), View(Next(s, step, cond, me)), me, MoveOf(s, step, cond, me))
  {
    if step.Receive? {
      ReceiveRefines(s, step.i, cond, me);
    } else if step.ReceiveToConfirm? {
      ReceiveToConfirmRefines(s, step.i, cond, me);
    } else if step.SendHot? {
      SendStays(s, step.i);
    } else {
      TurnStepStays(s, step, cond, me);
    }
  }

  lemma RefinesProcessStep<T, C>(s: Sys<T, C>, step: Step<T, C>, cond: (C, T) -> bool, me: u32)
    requires SysValid(s, cond) && Enabled(s, step, me) && !IsTaskStep(step)
    ensures Moves(View(s), View(Next(s, step, cond, me)), me, MoveOf(s, step, cond, me))
  {
    match step {
      case StoreUnowned(id, value) =>
      case TakeUnowned(id) =>
      case CrashNow => CrashRefines(s, Next(s, step, cond, me), me);
      case CleanWhileDown(ids) =>
      case Restart(hot, now, default) => RestartRefines(s, hot, Cold(0, 0, [], default, now), me);
    }
  }

  /** Every step of every task is one move of the ledger. */
  lemma Refines<T, C>(s: Sys<T, C>, step: Step<T, C>, cond: (C, T) -> bool, me: u32)
    requires SysValid(s, cond) && Enabled(s, step, me)
    ensures Moves(View(s), View(Next(s, step, cond, me)), me, MoveOf(s, step, cond, me))
  {
    if !IsTaskStep(step) {
      RefinesProcessStep(s, step, cond, me);
    } else if IsCommit(step) {
      RefinesCommit(s, step, cond, me);
    } else if IsQueueStep(step) {
      RefinesQueueStep(s, step, cond, me);
    } else {
      RefinesHandOver(s, step, cond, me);
    }
  }

  lemma StepKeepsValid<T, C>(s: Sys<T, C>, step: Step<T, C>, cond: (C, T) -> bool, me: u32)
    requires SysValid(s, cond) && Enabled(s, step, me)
    ensures SysValid(Next(s, step, cond, me), cond)
  {
    match step {
      case TryCold(i, now, v) => TakeMeaning(s.cold, cond, now, v);
      case CheckReceived(i, now, v) => AddIfNotSatisfiedMeaning(s.cold, s.tasks[i].asset, cond, now, v);
      case ScanCold(i, now, v) => DiscardMeaning(s.cold, cond, now, v);
      case ConfirmReceived(i, now, v) => AddIfSatisfiedMeaning(s.cold, s.tasks[i].asset, cond, now, v);
      case _ =>
    }
  }

  // ----- Whole runs -----

  /** Before the first start: a database with some owned assets, all of them counted as added. */
  ghost predicate Initial<T, C>(s: Sys<T, C>, me: u32) {
    && !s.up && s.hot == [] && s.cold.queue == [] && s.cold.ready == s.cold.available == 0
    && (forall i :: 0 <= i < |s.tasks| ==> s.tasks[i].Idle?)
    && s.leaked == {} && s.returned == []
    && (forall id :: id in s.db && id.Participant() == me ==> id in s.added)
    && s.entered == s.taken == s.discarded == multiset{}
  }

  /** Any database can be the first, with any number of tasks. */
  lemma AnyDatabaseCanStart<T, C>(db: map<UniqueId, T>, n: nat, v: C, me: u32)
    ensures Initial(Sys(false, db, [], Cold(0, 0, [], v, 0), seq(n, _ => Idle), {}, db.Keys, [],
                        multiset{}, multiset{}, multiset{}), me)
  {}

  /** The state after a run of steps, or `None` when some step was not possible. */
  ghost function Run<T, C>(s: Sys<T, C>, steps: seq<Step<T, C>>, cond: (C, T) -> bool, me: u32): Option<Sys<T, C>>
    requires SysValid(s, cond)
    decreases |steps|
  {
    if steps == [] then Some(s)
    else if !Enabled(s, steps[0], me) then None
    else StepKeepsValid(s, steps[0], cond, me); Run(Next(s, steps[0], cond, me), steps[1..], cond, me)
  }

  /** The step does not store or take as unowned what was passed to `add_owned`. */
  ghost predicate ApartStep<T, C>(s: Sys<T, C>, step: Step<T, C>) {
    step.StoreUnowned? || step.TakeUnowned? ==> step.id !in s.added
  }

  /** Along the run, nothing passed to `add_owned` is stored or taken as unowned. */
  ghost predicate KeepsApart<T, C>(s: Sys<T, C>, steps: seq<Step<T, C>>, cond: (C, T) -> bool, me: u32)
    requires SysValid(s, cond)
    decreases |steps|
  {
    steps == [] || !Enabled(s, steps[0], me)
    || (&& ApartStep(s, steps[0])
        && (StepKeepsValid(s, steps[0], cond, me); KeepsApart(Next(s, steps[0], cond, me), steps[1..], cond, me)))
  }

  lemma InitialIsSound<T, C>(s: Sys<T, C>, cond: (C, T) -> bool, me: u32)
    requires Initial(s, me)
    ensures SysValid(s, cond) && Sound(View(s), me) && Safe(View(s), me)
  {
    IdleHoldsNothing(s.tasks);
  }

  lemma {:induction false} RunIsSafe<T, C>(s: Sys<T, C>, steps: seq<Step<T, C>>, cond: (C, T) -> bool, me: u32)
    requires SysValid(s, cond) && Safe(View(s), me) && Run(s, steps, cond, me).Some?
    ensures SysValid(Run(s, steps, cond, me).value, cond) && Safe(View(Run(s, steps, cond, me).value), me)
    decreases |steps|
  {
    if steps != [] {
      Refines(s, steps[0], cond, me);
      MovesKeepSafe(View(s), View(Next(s, steps[0], cond, me)), me, MoveOf(s, steps[0], cond, me));
      StepKeepsValid(s, steps[0], cond, me);
      RunIsSafe(Next(s, steps[0], cond, me), steps[1..], cond, me);
    }
  }

  lemma ApartMoves<T, C>(s: Sys<T, C>, step: Step<T, C>, cond: (C, T) -> bool, me: u32)
    requires Enabled(s, step, me) && s.cold.Barriers() && ApartStep(s, step)
    ensures Apart(View(s), MoveOf(s, step, cond, me))
  {}

  lemma StepKeepsSound<T, C>(s: Sys<T, C>, step: Step<T, C>, cond: (C, T) -> bool, me: u32)
    requires SysValid(s, cond) && Sound(View(s), me) && Enabled(s, step, me) && ApartStep(s, step)
    ensures Sound(View(Next(s, step, cond, me)), me)
  {
    Refines(s, step, cond, me);
    ApartMoves(s, step, cond, me);
    MovesKeepSound(View(s), View(Next(s, step, cond, me)), me, MoveOf(s, step, cond, me));
  }

  lemma {:induction false} RunIsSound<T, C>(s: Sys<T, C>, steps: seq<Step<T, C>>, cond: (C, T) -> bool, me: u32)
    requires SysValid(s, cond) && Sound(View(s), me) && Run(s, steps, cond, me).Some? && KeepsApart(s, steps, cond, me)
    ensures SysValid(Run(s, steps, cond, me).value, cond) && Sound(View(Run(s, steps, cond, me).value), me)
    decreases |steps|
  {
    if steps != [] {
      StepKeepsSound(s, steps[0], cond, me);
      StepKeepsValid(s, steps[0], cond, me);
      RunIsSound(Next(s, steps[0], cond, me), steps[1..], cond, me);
    }
  }

  /** A property of everything in memory is one of everything queued or carried by a task. */
  lemma AllOfMemory<T, C>(s: Sys<T, C>)
    ensures forall a :: a in s.hot || a in s.cold.queue ==> a in Memory(s)
    ensures forall i, a :: 0 <= i < |s.tasks| && a in s.tasks[i].Held() ==> a in Memory(s)
  {
    forall i, a | 0 <= i < |s.tasks| && a in s.tasks[i].Held() ensures a in Memory(s) {
      HeldOnTop(s.tasks, s.tasks[i := Idle], i);
    }
  }

  /**
   * Over every run of any tasks with any crashes, cleanings and restarts, whatever is stored or taken as unowned:
   * no owned asset is returned twice, none that was returned is queued or carried by a task, and none of this
   * participant's is still stored.
   */
  lemma AtMostOnce<T, C>(s: Sys<T, C>, steps: seq<Step<T, C>>, cond: (C, T) -> bool, me: u32)
    requires Initial(s, me)
    requires Run(s, steps, cond, me).Some?
    ensures var s' := Run(s, steps, cond, me).value;
            && (forall i, j :: 0 <= i < j < |s'.returned| ==> s'.returned[i].id != s'.returned[j].id)
            && (forall i :: 0 <= i < |s'.returned| && s'.returned[i].id.Participant() == me ==>
               s'.returned[i].id !in s'.db)
            && (forall i, a :: 0 <= i < |s'.returned| && (a in s'.hot || a in s'.cold.queue) ==>
               a.id != s'.returned[i].id)
            && (forall i, j, a :: 0 <= i < |s'.returned| && 0 <= j < |s'.tasks| && a in s'.tasks[j].Held() ==>
                                    a.id != s'.returned[i].id)
  {
    InitialIsSound(s, cond, me);
    RunIsSafe(s, steps, cond, me);
    var s' := Run(s, steps, cond, me).value;
    AllOfMemory(s');
  }

  /**
   * While owned and unowned identifiers are kept apart, nothing returned is stored at all, and everything queued or
   * carried by a task is stored with the same value.
   */
  lemma HeldIsStored<T, C>(s: Sys<T, C>, steps: seq<Step<T, C>>, cond: (C, T) -> bool, me: u32)
    requires Initial(s, me)
    requires Run(s, steps, cond, me).Some? && KeepsApart(s, steps, cond, me)
    ensures var s' := Run(s, steps, cond, me).value;
            && (forall i :: 0 <= i < |s'.returned| ==> s'.returned[i].id !in s'.db)
            && (forall a :: a in s'.hot || a in s'.cold.queue ==> a.id in s'.db && s'.db[a.id] == a.value)
            && (forall j, a :: 0 <= j < |s'.tasks| && a in s'.tasks[j].Held() ==>
               a.id in s'.db && s'.db[a.id] == a.value)
  {
    InitialIsSound(s, cond, me);
    RunIsSound(s, steps, cond, me);
    var s' := Run(s, steps, cond, me).value;
    AllOfMemory(s');
  }

  /** The step stores or takes something else as unowned, and cleans something else. */
  ghost predicate SparesStep<T, C>(step: Step<T, C>, id: UniqueId) {
    (step.StoreUnowned? || step.TakeUnowned? ==> step.id != id) && (step.CleanWhileDown? ==> id !in step.ids)
  }

  lemma MovesSpare<T, C>(s: Sys<T, C>, step: Step<T, C>, cond: (C, T) -> bool, me: u32, id: UniqueId)
    requires Enabled(s, step, me) && s.cold.Barriers() && SparesStep(step, id)
    ensures Spares(MoveOf(s, step, cond, me), id)
  {}

  lemma StepKeepsUnowned<T, C>(s: Sys<T, C>, step: Step<T, C>, cond: (C, T) -> bool, me: u32, id: UniqueId)
    requires SysValid(s, cond) && Mirrors(View(s)) && Enabled(s, step, me) && SparesStep(step, id)
    ensures var s' := Next(s, step, cond, me);
            s.added <= s'.added && (id !in s'.added ==> SameAt(s.db, s'.db, id))
  {
    var s' := Next(s, step, cond, me);
    Refines(s, step, cond, me);
    MovesSpare(s, step, cond, me, id);
    MirrorsAreRecorded(View(s));
    MovesKeepUnowned(View(s), View(s'), me, MoveOf(s, step, cond, me), id);
  }

  lemma FirstStepOfRun<T, C>(s: Sys<T, C>, steps: seq<Step<T, C>>, cond: (C, T) -> bool, me: u32)
    requires SysValid(s, cond) && Sound(View(s), me) && Run(s, steps, cond, me).Some? && KeepsApart(s, steps, cond, me)
    requires steps != []
    ensures Enabled(s, steps[0], me)
    ensures var s1 := Next(s, steps[0], cond, me);
            && SysValid(s1, cond) && Sound(View(s1), me)
            && Run(s1, steps[1..], cond, me) == Run(s, steps, cond, me) && KeepsApart(s1, steps[1..], cond, me)
  {
    StepKeepsSound(s, steps[0], cond, me);
    StepKeepsValid(s, steps[0], cond, me);
  }

  lemma SameAtTwice<T>(db: map<UniqueId, T>, db': map<UniqueId, T>, db'': map<UniqueId, T>, id: UniqueId)
    requires SameAt(db, db', id) && SameAt(db', db'', id)
    ensures SameAt(db, db'', id)
  {}

  /**
   * Over every run that keeps owned and unowned apart: what another participant's asset was stored as stays stored,
   * through crashes and restarts, until it is taken, stored anew or cleaned.
   */
  lemma {:induction false} UnownedIsKept<T, C>(s: Sys<T, C>, steps: seq<Step<T, C>>, cond: (C, T) -> bool, me: u32,
        id: UniqueId)
    requires SysValid(s, cond) && Sound(View(s), me) && Run(s, steps, cond, me).Some? && KeepsApart(s, steps, cond, me)
    requires forall k :: 0 <= k < |steps| ==> SparesStep(steps[k], id)
    ensures var s' := Run(s, steps, cond, me).value;
            s.added <= s'.added && (id !in s'.added ==> SameAt(s.db, s'.db, id))
    decreases |steps|
  {
    if steps != [] {
      FirstStepOfRun(s, steps, cond, me);
      StepKeepsUnowned(s, steps[0], cond, me, id);
      var s1, s' := Next(s, steps[0], cond, me), Run(s, steps, cond, me).value;
      UnownedIsKept(s1, steps[1..], cond, me, id);
      if id !in s'.added { SameAtTwice(s.db, s1.db, s'.db, id); }
    }
  }

  /**
   * In every reachable state of every interleaving: the barriers are in order and tell the truth about the last
   * fetched condition, and what entered the process is in memory, returned or discarded, nothing else.
   */
  lemma AlwaysConserved<T, C>(s: Sys<T, C>, steps: seq<Step<T, C>>, cond: (C, T) -> bool, me: u32)
    requires Initial(s, me)
    requires Run(s, steps, cond, me).Some?
    ensures var s' := Run(s, steps, cond, me).value;
            && s'.cold.Sorted(cond)
            && s'.entered == multiset(s'.hot) + multiset(s'.cold.queue) + HeldBy(s'.tasks) + s'.taken + s'.discarded
  {
    InitialIsSound(s, cond, me);
    RunIsSafe(s, steps, cond, me);
  }

  /**
   * While the process is up, an owned identifier is in memory exactly when it is stored, not about to be deleted, and
   * was not dropped silently by the draining of the hot queue.
   */
  lemma DatabaseIsMemoryPlusLeaks<T, C>(s: Sys<T, C>, steps: seq<Step<T, C>>, cond: (C, T) -> bool, me: u32,
        id: UniqueId)
    requires Initial(s, me)
    requires Run(s, steps, cond, me).Some? && KeepsApart(s, steps, cond, me)
    requires id.Participant() == me
    ensures var s' := Run(s, steps, cond, me).value;
            && (s'.up ==> (InMemory(Memory(s'), id) <==> id in s'.db && id !in PendingOf(s'.tasks) && id !in s'.leaked))
            && (id in s'.leaked ==> id in s'.db)
  {
    InitialIsSound(s, cond, me);
    RunIsSound(s, steps, cond, me);
  }

  /** What one attempt on the cold queue can do to a task. */
  ghost predicate Answers<T, C>(s: Sys<T, C>, s': Sys<T, C>, i: nat, cond: (C, T) -> bool)
    requires i < |s'.tasks|
  {
    match s'.tasks[i]
    case Holding(a) => a in s.cold.queue && cond(s'.cold.last, a.value)
    case Taking => s'.cold.Bag() == s.cold.Bag()
    case Waiting => s'.cold.queue == s.cold.queue && forall a :: a in s'.cold.queue ==> !cond(s'.cold.last, a.value)
    case _ => false
  }

  lemma TryColdAnswers<T, C>(s: Sys<T, C>, cond: (C, T) -> bool, i: nat, now: int, v: C)
    requires s.cold.Sorted(cond) && i < |s.tasks| && s.tasks[i].Taking?
    ensures Answers(s, AfterTryCold(s, i, Take(s.cold, cond, now, v)), i, cond)
  {
    TakeMeaning(s.cold, cond, now, v);
    var o := Take(s.cold, cond, now, v);
    if o.result.Taken? {
      assert o.result.asset in s.cold.Bag();
    }
  }

  lemma TryColdStepAnswers<T, C>(s: Sys<T, C>, cond: (C, T) -> bool, me: u32, i: nat, now: int, v: C)
    requires SysValid(s, cond) && Enabled(s, TryCold(i, now, v), me)
    ensures var s' := Next(s, TryCold(i, now, v), cond, me); i < |s'.tasks| && Answers(s, s', i, cond)
  {
    TryColdAnswers(s, cond, i, now, v);
  }

  /**
   * After every run, one attempt on the cold queue hands a task a queued asset that satisfies the condition, or lets
   * it try again, or sends it waiting; it waits only if nothing in the cold queue satisfies the condition.
   */
  lemma WaitingIsJustified<T, C>(s: Sys<T, C>, steps: seq<Step<T, C>>, cond: (C, T) -> bool, me: u32, i: nat, now: int,
        v: C)
    requires Initial(s, me) && Run(s, steps + [TryCold(i, now, v)], cond, me).Some?
    ensures Run(s, steps, cond, me).Some?
    ensures var s' := Run(s, steps, cond, me).value;
            var s'' := Run(s, steps + [TryCold(i, now, v)], cond, me).value;
            i < |s''.tasks| && Answers(s', s'', i, cond)
  {
    InitialIsSound(s, cond, me);
    RunAppends(s, steps, TryCold(i, now, v), cond, me);
    RunIsSafe(s, steps, cond, me);
    TryColdStepAnswers(Run(s, steps, cond, me).value, cond, me, i, now, v);
  }

  /** A longer run is a run with one more possible step. */
  lemma {:induction false} RunAppends<T, C>(s: Sys<T, C>, steps: seq<Step<T, C>>, step: Step<T, C>,
        cond: (C, T) -> bool, me: u32)
    requires SysValid(s, cond)
    ensures Run(s, steps, cond, me).Some? ==> SysValid(Run(s, steps, cond, me).value, cond)
    ensures Run(s, steps + [step], cond, me)
            == if Run(s, steps, cond, me).Some? && Enabled(Run(s, steps, cond, me).value, step, me)
               then Some(Next(Run(s, steps, cond, me).value, step, cond, me)) else None
    decreases |steps|
  {
    if steps == [] {
      assert [step][1..] == [] && steps + [step] == [step];
      if Enabled(s, step, me) { StepKeepsValid(s, step, cond, me); }
    } else {
      assert (steps + [step])[1..] == steps[1..] + [step];
      if Enabled(s, steps[0], me) {
        StepKeepsValid(s, steps[0], cond, me);
        RunAppends(Next(s, steps[0], cond, me), steps[1..], step, cond, me);
      }
    }
  }
}
