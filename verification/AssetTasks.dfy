/**
 * What tasks can rely on in every interleaving: the hot queue is first in, first out, the condition is fresh, a discard
 * examines no more than it was asked to, scanning costs what the queue operations cost, and a taker gets an answer.
 */
module AssetTasks {
  import opened Wrappers
  import opened ColdQueues
  import opened UniqueIds
  import opened AssetRuns

  /** No crash and no restart. */
  ghost predicate KeepsUp<T, C>(steps: seq<Step<T, C>>) {
    forall k :: 0 <= k < |steps| ==> !steps[k].CrashNow? && !steps[k].Restart?
  }

  // ----- The hot queue -----

  ghost function SentBy<T, C>(s: Sys<T, C>, step: Step<T, C>, me: u32): seq<Asset<T>>
    requires Enabled(s, step, me)
  {
    if step.SendHot? then [s.tasks[step.i].asset] else []
  }

  /** The asset that the step hands to its task. */
  ghost function ReceivedBy<T, C>(s: Sys<T, C>, step: Step<T, C>, cond: (C, T) -> bool, me: u32): seq<Asset<T>>
    requires Enabled(s, step, me) && s.cold.Barriers()
  {
    if step.Receive? || step.ReceiveToConfirm? then [Next(s, step, cond, me).tasks[step.i].asset] else []
  }

  ghost function AllSent<T, C>(s: Sys<T, C>, steps: seq<Step<T, C>>, cond: (C, T) -> bool, me: u32): seq<Asset<T>>
    requires SysValid(s, cond) && Run(s, steps, cond, me).Some?
    decreases |steps|
  {
    if steps == [] then [] else
      StepKeepsValid(s, steps[0], cond, me);
      SentBy(s, steps[0], me) + AllSent(Next(s, steps[0], cond, me), steps[1..], cond, me)
  }

  ghost function AllReceived<T, C>(s: Sys<T, C>, steps: seq<Step<T, C>>, cond: (C, T) -> bool, me: u32): seq<Asset<T>>
    requires SysValid(s, cond) && Run(s, steps, cond, me).Some?
    decreases |steps|
  {
    if steps == [] then [] else
      StepKeepsValid(s, steps[0], cond, me);
      ReceivedBy(s, steps[0], cond, me) + AllReceived(Next(s, steps[0], cond, me), steps[1..], cond, me)
  }

  lemma HotReceives<T, C>(s: Sys<T, C>, step: Step<T, C>, cond: (C, T) -> bool, me: u32)
    requires SysValid(s, cond) && Enabled(s, step, me) && (step.Receive? || step.ReceiveToConfirm?)
    ensures s.hot == ReceivedBy(s, step, cond, me) + Next(s, step, cond, me).hot
  {
    assert s.hot == [s.hot[0]] + s.hot[1..];
  }

  lemma HotKeeps<T, C>(s: Sys<T, C>, step: Step<T, C>, cond: (C, T) -> bool, me: u32)
    requires SysValid(s, cond) && Enabled(s, step, me) && !step.CrashNow? && !step.Restart?
    requires !step.Receive? && !step.ReceiveToConfirm?
    ensures Next(s, step, cond, me).hot == s.hot + SentBy(s, step, me)
  {
    assert s.hot + [] == s.hot;
  }

  lemma HotStep<T, C>(s: Sys<T, C>, step: Step<T, C>, cond: (C, T) -> bool, me: u32)
    requires SysValid(s, cond) && Enabled(s, step, me) && !step.CrashNow? && !step.Restart?
    ensures s.hot + SentBy(s, step, me) == ReceivedBy(s, step, cond, me) + Next(s, step, cond, me).hot
  {
    if step.Receive? || step.ReceiveToConfirm? {
      HotReceives(s, step, cond, me);
      assert s.hot + [] == s.hot;
    } else {
      HotKeeps(s, step, cond, me);
      assert [] + Next(s, step, cond, me).hot == Next(s, step, cond, me).hot;
    }
  }

  lemma Regroup<X>(h: seq<X>, a: seq<X>, b: seq<X>, c: seq<X>, d: seq<X>, h1: seq<X>, h2: seq<X>)
    requires h + a == c + h1 && h1 + b == d + h2
    ensures h + (a + b) == (c + d) + h2
  {
    assert h + (a + b) == (h + a) + b;
    assert (c + h1) + b == c + (h1 + b);
    assert c + (d + h2) == (c + d) + h2;
  }

  /** Over every run: what was queued and then sent is received in exactly that order, and the rest is still queued. */
  lemma {:induction false} HotIsFifo<T, C>(s: Sys<T, C>, steps: seq<Step<T, C>>, cond: (C, T) -> bool, me: u32)
    requires SysValid(s, cond) && Run(s, steps, cond, me).Some? && KeepsUp(steps)
    ensures s.hot + AllSent(s, steps, cond, me) == AllReceived(s, steps, cond, me) + Run(s, steps, cond, me).value.hot
    decreases |steps|
  {
    if steps == [] {
      assert s.hot + [] == [] + s.hot;
    } else {
      var step, rest := steps[0], steps[1..];
      var s' := Next(s, step, cond, me);
      StepKeepsValid(s, step, cond, me);
      HotStep(s, step, cond, me);
      HotIsFifo(s', rest, cond, me);
      Regroup(s.hot, SentBy(s, step, me), AllSent(s', rest, cond, me), ReceivedBy(s, step, cond, me),
              AllReceived(s', rest, cond, me), s'.hot, Run(s', rest, cond, me).value.hot);
    }
  }

  // ----- The cold queue -----

  /** The operation on the cold queue behind a step, if there is one. */
  ghost function OpsOf<T, C>(s: Sys<T, C>, step: Step<T, C>, me: u32): seq<Op<T, C>>
    requires Enabled(s, step, me)
  {
    match step
    case StartTake(i, now, v) => [OpRefresh(now, v)]
    case StartDiscard(i, n, now, v) => [OpRefresh(now, v)]
    case TryCold(i, now, v) => [OpTake(now, v)]
    case CheckReceived(i, now, v) => [OpAddIfNotSatisfied(s.tasks[i].asset, now, v)]
    case ScanCold(i, now, v) => if s.tasks[i].left == 0 then [] else [OpDiscard(now, v)]
    case ConfirmReceived(i, now, v) => [OpAddIfSatisfied(s.tasks[i].asset, now, v)]
    case _ => []
  }

  ghost function AllOps<T, C>(s: Sys<T, C>, steps: seq<Step<T, C>>, cond: (C, T) -> bool, me: u32): seq<Op<T, C>>
    requires SysValid(s, cond) && Run(s, steps, cond, me).Some?
    decreases |steps|
  {
    if steps == [] then [] else
      StepKeepsValid(s, steps[0], cond, me);
      OpsOf(s, steps[0], me) + AllOps(Next(s, steps[0], cond, me), steps[1..], cond, me)
  }

  lemma ColdStep<T, C>(s: Sys<T, C>, step: Step<T, C>, cond: (C, T) -> bool, me: u32)
    requires SysValid(s, cond) && Enabled(s, step, me) && !step.CrashNow? && !step.Restart?
    ensures Next(s, step, cond, me).cold ==
            if OpsOf(s, step, me) == [] then s.cold else After(s.cold, cond, OpsOf(s, step, me)[0])
  {}

  /** Over every run: the cold queue is what its operations, in the order of the steps, make of it. */
  lemma {:induction false} ColdFollowsOps<T, C>(s: Sys<T, C>, steps: seq<Step<T, C>>, cond: (C, T) -> bool, me: u32)
    requires SysValid(s, cond) && Run(s, steps, cond, me).Some? && KeepsUp(steps)
    ensures Run(s, steps, cond, me).value.cold == RunOps(s.cold, cond, AllOps(s, steps, cond, me))
    decreases |steps|
  {
    if steps != [] {
      var s' := Next(s, steps[0], cond, me);
      StepKeepsValid(s, steps[0], cond, me);
      ColdStep(s, steps[0], cond, me);
      ColdFollowsOps(s', steps[1..], cond, me);
      var first, rest := OpsOf(s, steps[0], me), AllOps(s', steps[1..], cond, me);
      if first == [] {
        assert first + rest == rest;
      } else {
        assert first + rest == [first[0]] + rest && ([first[0]] + rest)[1..] == rest;
      }
    }
  }

  /**
   * In every interleaving: the evaluations of the condition that scanning makes are paid for exactly by the assets
   * unknown at the start and those that changes of the condition value make unknown again.
   */
  lemma InterleavedScanCost<T, C>(s: Sys<T, C>, steps: seq<Step<T, C>>, cond: (C, T) -> bool, me: u32)
    requires SysValid(s, cond) && Run(s, steps, cond, me).Some? && KeepsUp(steps)
    ensures var ops := AllOps(s, steps, cond, me);
            TotalScanCost(s.cold, cond, ops) + Run(s, steps, cond, me).value.cold.Unknown()
            == s.cold.Unknown() + TotalReset(s.cold, cond, ops)
  {
    ColdFollowsOps(s, steps, cond, me);
    AmortisedScanCost(s.cold, cond, AllOps(s, steps, cond, me));
  }

  /** At `now` the queue kept its value, not due yet, or fetched a new one. */
  ghost predicate Checked<T, C>(c: Cold<T, C>, c': Cold<T, C>, now: int, fetched: C) {
    if c.due > now then c'.last == c.last && c'.due == c.due else c'.last == fetched && c'.due == now + 1_000_000_000
  }

  /** A task that starts to take or to discard fetches the condition value; after a restart a fetch is due at once. */
  lemma StartsFresh<T, C>(s: Sys<T, C>, step: Step<T, C>, cond: (C, T) -> bool, me: u32)
    requires SysValid(s, cond) && Enabled(s, step, me) && (step.StartTake? || step.StartDiscard? || step.Restart?)
    ensures var c := Next(s, step, cond, me).cold;
            if step.Restart? then c.last == step.default && c.due == step.now && c.queue == []
            else c.last == step.fetched && c.due == step.now + 1_000_000_000
  {}

  lemma OpChecksFresh<T, C>(c: Cold<T, C>, cond: (C, T) -> bool, op: Op<T, C>)
    requires c.Barriers() && !op.OpRefresh?
    ensures Checked(c, After(c, cond, op), op.now, op.fetched)
  {
    RefreshMeaning(c, op.now, op.fetched);
  }

  /** Every check of an asset goes by a condition value that is at most a second old. */
  lemma ChecksFresh<T, C>(s: Sys<T, C>, step: Step<T, C>, cond: (C, T) -> bool, me: u32)
    requires SysValid(s, cond) && Enabled(s, step, me)
    requires step.TryCold? || step.CheckReceived? || step.ConfirmReceived? ||
             (step.ScanCold? && s.tasks[step.i].left > 0)
    ensures Checked(s.cold, Next(s, step, cond, me).cold, step.now, step.fetched)
  {
    ColdStep(s, step, cond, me);
    OpChecksFresh(s.cold, cond, OpsOf(s, step, me)[0]);
  }

  // ----- How much a discard examines -----

  ghost predicate Discarding<T>(t: Task<T>) {
    t.Scanning? || t.Draining? || t.Confirming?
  }

  ghost function Left<T>(t: Task<T>): nat {
    if Discarding(t) then t.left else 0
  }

  /** Task `i` examines one asset: it takes one out of the hot queue, or looks at one of the cold queue. */
  ghost predicate Examines<T, C>(s: Sys<T, C>, step: Step<T, C>, cond: (C, T) -> bool, me: u32, i: nat)
    requires SysValid(s, cond) && Enabled(s, step, me)
  {
    && IsTaskStep(step) && step.i == i
    && (step.ReceiveToConfirm?
        || (step.ScanCold? && s.tasks[i].left > 0 && !Discard(s.cold, cond, step.now, step.fetched).result.NoneRemain?))
  }

  ghost function Examined<T, C>(s: Sys<T, C>, steps: seq<Step<T, C>>, cond: (C, T) -> bool, me: u32, i: nat): nat
    requires SysValid(s, cond) && Run(s, steps, cond, me).Some?
    decreases |steps|
  {
    if steps == [] then 0 else
      StepKeepsValid(s, steps[0], cond, me);
      (if Examines(s, steps[0], cond, me, i) then 1 else 0)
      + Examined(Next(s, steps[0], cond, me), steps[1..], cond, me, i)
  }

  /** Task `i` starts no other discard, and the process stays up. */
  ghost predicate OneDiscard<T, C>(steps: seq<Step<T, C>>, i: nat) {
    KeepsUp(steps) && forall k :: 0 <= k < |steps| && steps[k].StartDiscard? ==> steps[k].i != i
  }

  /** The two states have the same tasks but for task `j`. */
  ghost predicate SameOthers<T, C>(s: Sys<T, C>, s': Sys<T, C>, j: nat) {
    |s'.tasks| == |s.tasks| && forall i :: 0 <= i < |s.tasks| && i != j ==> s'.tasks[i] == s.tasks[i]
  }

  lemma TryOthers<T, C>(s: Sys<T, C>, j: nat, o: Outcome<T, C, TakeResult<T>>)
    requires j < |s.tasks|
    ensures SameOthers(s, AfterTryCold(s, j, o), j)
  {}

  lemma CheckOthers<T, C>(s: Sys<T, C>, j: nat, o: Outcome<T, C, AddResult<T>>)
    requires j < |s.tasks|
    ensures s.tasks[j].Received? ==> SameOthers(s, AfterCheckReceived(s, j, o), j)
    ensures s.tasks[j].Confirming? ==> SameOthers(s, AfterConfirm(s, j, o), j)
  {}

  lemma ScanOthers<T, C>(s: Sys<T, C>, j: nat, o: Outcome<T, C, DiscardResult<T>>)
    requires j < |s.tasks| && s.tasks[j].Scanning?
    ensures SameOthers(s, AfterScan(s, j, o), j)
  {}

  /** A step changes no task but its own. */
  lemma OthersUntouched<T, C>(s: Sys<T, C>, step: Step<T, C>, cond: (C, T) -> bool, me: u32)
    requires SysValid(s, cond) && Enabled(s, step, me) && !step.CrashNow? && !step.Restart?
    ensures if IsTaskStep(step) then SameOthers(s, Next(s, step, cond, me), step.i)
            else Next(s, step, cond, me).tasks == s.tasks
  {
    match step {
      case TryCold(j, now, v) => TryOthers(s, j, Take(s.cold, cond, now, v));
      case CheckReceived(j, now, v) => CheckOthers(s, j, AddIfNotSatisfied(s.cold, s.tasks[j].asset, cond, now, v));
      case ConfirmReceived(j, now, v) => CheckOthers(s, j, AddIfSatisfied(s.cold, s.tasks[j].asset, cond, now, v));
      case ScanCold(j, now, v) => ScanOthers(s, j, Discard(s.cold, cond, now, v));
      case _ =>
    }
  }

  /** What a step of task `i` does to what its discard has left. */
  ghost predicate Spends<T, C>(s: Sys<T, C>, s': Sys<T, C>, i: nat, examined: bool)
    requires i < |s.tasks| && |s'.tasks| == |s.tasks|
  {
    var t, t', one := s.tasks[i], s'.tasks[i], if examined then 1 else 0;
    && Left(t') + one <= Left(t)
    && (Discarding(t') ==> Discarding(t) && Left(t') + one == Left(t))
  }

  lemma ScanSpends<T, C>(s: Sys<T, C>, i: nat, o: Outcome<T, C, DiscardResult<T>>)
    requires i < |s.tasks| && s.tasks[i].Scanning?
    ensures Spends(s, AfterScan(s, i, o), i, s.tasks[i].left > 0 && !o.result.NoneRemain?)
  {}

  lemma DrainSpends<T, C>(s: Sys<T, C>, step: Step<T, C>, cond: (C, T) -> bool, me: u32)
    requires SysValid(s, cond) && Enabled(s, step, me)
    requires step.ReceiveToConfirm? || step.ConfirmReceived? || step.StopDraining?
    ensures Spends(s, Next(s, step, cond, me), step.i, step.ReceiveToConfirm?)
  {}

  lemma OtherSpendsNothing<T, C>(s: Sys<T, C>, step: Step<T, C>, cond: (C, T) -> bool, me: u32)
    requires SysValid(s, cond) && Enabled(s, step, me) && IsTaskStep(step) && !step.StartDiscard?
    requires !step.ScanCold? && !step.ReceiveToConfirm? && !step.ConfirmReceived? && !step.StopDraining?
    ensures !Discarding(s.tasks[step.i]) && !Discarding(Next(s, step, cond, me).tasks[step.i])
  {}

  lemma DiscardStep<T, C>(s: Sys<T, C>, step: Step<T, C>, cond: (C, T) -> bool, me: u32, i: nat)
    requires SysValid(s, cond) && Enabled(s, step, me) && i < |s.tasks| && !step.CrashNow? && !step.Restart?
    requires step.StartDiscard? ==> step.i != i
    ensures |Next(s, step, cond, me).tasks| == |s.tasks|
    ensures Spends(s, Next(s, step, cond, me), i, Examines(s, step, cond, me, i))
  {
    OthersUntouched(s, step, cond, me);
    if IsTaskStep(step) && step.i == i {
      if step.ScanCold? {
        ScanSpends(s, i, Discard(s.cold, cond, step.now, step.fetched));
      } else if step.ReceiveToConfirm? || step.ConfirmReceived? || step.StopDraining? {
        DrainSpends(s, step, cond, me);
      } else {
        OtherSpendsNothing(s, step, cond, me);
      }
    }
  }

  /**
   * Over every run of all tasks: a discard examines no more assets than it has left, and as long as it goes on what
   * it has left is what it had less what it examined.
   */
  lemma {:induction false} DiscardStaysInBudget<T, C>(s: Sys<T, C>, steps: seq<Step<T, C>>, cond: (C, T) -> bool,
        me: u32, i: nat)
    requires SysValid(s, cond) && Run(s, steps, cond, me).Some? && i < |s.tasks| && OneDiscard(steps, i)
    ensures var s' := Run(s, steps, cond, me).value;
            && |s'.tasks| == |s.tasks|
            && Examined(s, steps, cond, me, i) <= Left(s.tasks[i])
            && (Discarding(s'.tasks[i]) ==>
                  Left(s'.tasks[i]) + Examined(s, steps, cond, me, i) == Left(s.tasks[i]))
    decreases |steps|
  {
    if steps != [] {
      StepKeepsValid(s, steps[0], cond, me);
      DiscardStep(s, steps[0], cond, me, i);
      DiscardStaysInBudget(Next(s, steps[0], cond, me), steps[1..], cond, me, i);
      BudgetStays(Next(s, steps[0], cond, me), steps[1..], cond, me, i);
    }
  }

  /** A task that is not discarding does not get to without starting a discard. */
  lemma {:induction false} BudgetStays<T, C>(s: Sys<T, C>, steps: seq<Step<T, C>>, cond: (C, T) -> bool, me: u32,
        i: nat)
    requires SysValid(s, cond) && Run(s, steps, cond, me).Some? && i < |s.tasks| && OneDiscard(steps, i)
    ensures var s' := Run(s, steps, cond, me).value;
            |s'.tasks| == |s.tasks| && (Discarding(s'.tasks[i]) ==> Discarding(s.tasks[i]))
    decreases |steps|
  {
    if steps != [] {
      StepKeepsValid(s, steps[0], cond, me);
      DiscardStep(s, steps[0], cond, me, i);
      BudgetStays(Next(s, steps[0], cond, me), steps[1..], cond, me, i);
    }
  }

  /**
   * A discard starts with what it was asked for. It goes on to the hot queue exactly when it has nothing left or the
   * whole cold queue is confirmed, and then every asset there satisfies the condition.
   */
  lemma DiscardLeavesColdIff<T, C>(s: Sys<T, C>, step: Step<T, C>, cond: (C, T) -> bool, me: u32)
    requires SysValid(s, cond) && Enabled(s, step, me) && (step.StartDiscard? || step.ScanCold?)
    ensures var s' := Next(s, step, cond, me);
            step.StartDiscard? ==> s'.tasks[step.i] == Scanning(step.n, [])
    ensures var s' := Next(s, step, cond, me);
            step.ScanCold? ==>
              && (s'.tasks[step.i].Draining? <==>
                  s.tasks[step.i].left == 0 || RefreshIfDue(s.cold, step.now, step.fetched).ready == |s.cold.queue|)
              && (s'.tasks[step.i].Draining? && s.tasks[step.i].left > 0 ==>
                    forall a :: a in s'.cold.queue ==> cond(s'.cold.last, a.value))
  {
    if step.ScanCold? {
      DiscardMeaning(s.cold, cond, step.now, step.fetched);
      RefreshKeepsSorted(s.cold, cond, step.now, step.fetched);
    }
  }

  /** A discard that stops has examined all it was to examine, or found the hot queue empty. */
  lemma DiscardStopsWhenDone<T, C>(s: Sys<T, C>, steps: seq<Step<T, C>>, cond: (C, T) -> bool, me: u32, i: nat)
    requires SysValid(s, cond) && Run(s, steps, cond, me).Some? && i < |s.tasks| && OneDiscard(steps, i)
    requires Enabled(Run(s, steps, cond, me).value, StopDraining(i), me)
    ensures Examined(s, steps, cond, me, i) == Left(s.tasks[i]) || Run(s, steps, cond, me).value.hot == []
  {
    DiscardStaysInBudget(s, steps, cond, me, i);
  }

  /** A task that has sent, given up or committed is idle again, and one that wakes tries again. */
  lemma TasksComeBack<T, C>(s: Sys<T, C>, step: Step<T, C>, cond: (C, T) -> bool, me: u32)
    requires SysValid(s, cond) && Enabled(s, step, me)
    requires step.SendHot? || step.Abandon? || step.CommitTake? || step.CommitDiscard? || step.Wake?
    ensures Next(s, step, cond, me).tasks[step.i] == if step.Wake? then Taking else Idle
  {}

  // ----- A taker gets an answer -----

  ghost function InQueues<T, C>(s: Sys<T, C>): multiset<Asset<T>> {
    Queued(s.hot, s.cold.queue)
  }

  /** Some queued asset satisfies the condition. */
  ghost predicate Offers<T, C>(s: Sys<T, C>, cond: (C, T) -> bool, v: C) {
    exists a :: a in InQueues(s) && cond(v, a.value)
  }

  /** The task holds a queued asset that satisfies the condition, or it waits because there is none. */
  ghost predicate Served<T, C>(s: Sys<T, C>, s': Sys<T, C>, i: nat, cond: (C, T) -> bool, v: C)
    requires i < |s'.tasks|
  {
    if Offers(s, cond, v)
    then s'.tasks[i].Holding? && s'.tasks[i].asset in InQueues(s) && cond(v, s'.tasks[i].asset.value)
    else s'.tasks[i].Waiting? && s'.hot == []
  }

  /** A step of task `i` that is part of taking, or else of discarding, and fetches `v`. */
  ghost predicate Belongs<T, C>(step: Step<T, C>, i: nat, v: C, taking: bool) {
    match step
    case StartTake(j, _, w) => taking && j == i && w == v
    case TryCold(j, _, w) => taking && j == i && w == v
    case Receive(j) => taking && j == i
    case CheckReceived(j, _, w) => taking && j == i && w == v
    case ScanCold(j, _, w) => !taking && j == i && w == v
    case ReceiveToConfirm(j) => !taking && j == i
    case ConfirmReceived(j, _, w) => !taking && j == i && w == v
    case _ => false
  }

  /** These steps of task `i` alone are possible from `s` and lead to `s'`. */
  ghost predicate Leads<T, C>(s: Sys<T, C>, steps: seq<Step<T, C>>, s': Sys<T, C>, cond: (C, T) -> bool, me: u32,
        i: nat, v: C, taking: bool) {
    && SysValid(s, cond) && SysValid(s', cond) && Run(s, steps, cond, me) == Some(s')
    && forall k :: 0 <= k < |steps| ==> Belongs(steps[k], i, v, taking)
  }

  lemma LeadsOneStep<T, C>(s: Sys<T, C>, steps: seq<Step<T, C>>, s1: Sys<T, C>, step: Step<T, C>, s2: Sys<T, C>,
        cond: (C, T) -> bool, me: u32, i: nat, v: C, taking: bool)
    requires Leads(s, steps, s1, cond, me, i, v, taking) && Belongs(step, i, v, taking)
    requires Enabled(s1, step, me) && s2 == Next(s1, step, cond, me)
    ensures Leads(s, steps + [step], s2, cond, me, i, v, taking)
  {
    RunAppends(s, steps, step, cond, me);
    StepKeepsValid(s1, step, cond, me);
    assert forall k :: 0 <= k < |steps| ==> (steps + [step])[k] == steps[k];
    assert (steps + [step])[|steps|] == step;
  }

  lemma LeadsNowhere<T, C>(s: Sys<T, C>, cond: (C, T) -> bool, me: u32, i: nat, v: C, taking: bool)
    requires SysValid(s, cond)
    ensures Leads(s, [], s, cond, me, i, v, taking)
  {}

  /** The task is about to try the cold queue, whose condition value is `v`. */
  ghost predicate Tries<T, C>(s: Sys<T, C>, cond: (C, T) -> bool, i: nat, v: C) {
    SysValid(s, cond) && s.up && i < |s.tasks| && s.tasks[i].Taking? && s.cold.last == v
  }

  /** One attempt: the task holds a satisfying asset, or tries again with one candidate less, or waits. */
  ghost predicate Tried<T, C>(s: Sys<T, C>, s': Sys<T, C>, cond: (C, T) -> bool, i: nat, v: C)
    requires i < |s'.tasks|
  {
    match s'.tasks[i]
    case Holding(a) => a in InQueues(s) && cond(v, a.value)
    case Taking => Tries(s', cond, i, v) && InQueues(s') == InQueues(s) &&
                   |s'.hot| + s'.cold.available < |s.hot| + s.cold.available
    case Waiting => s'.hot == s.hot && s'.cold.queue == s.cold.queue && s'.cold.last == v &&
                    s'.cold.available == s.cold.available && forall a :: a in s.cold.queue ==> !cond(v, a.value)
    case _ => false
  }

  lemma TryOnce<T, C>(s: Sys<T, C>, cond: (C, T) -> bool, me: u32, i: nat, now: int, v: C)
    requires Tries(s, cond, i, v)
    ensures var s' := Next(s, TryCold(i, now, v), cond, me);
            SysValid(s', cond) && s'.up && |s'.tasks| == |s.tasks| && Tried(s, s', cond, i, v)
  {
    TakeMeaning(s.cold, cond, now, v);
    StepKeepsValid(s, TryCold(i, now, v), cond, me);
    var o := Take(s.cold, cond, now, v);
    assert o.result.Taken? ==> o.result.asset in s.cold.Bag();
  }

  /** The same for an asset received from the hot queue; `s` is the state before it was received. */
  lemma CheckOnce<T, C>(s: Sys<T, C>, s1: Sys<T, C>, cond: (C, T) -> bool, me: u32, i: nat, now: int, v: C)
    requires s.hot != [] && s.cold.last == v && i < |s.tasks| && s1 == AfterReceive(s, i, Received(s.hot[0]))
    requires SysValid(s1, cond) && s.up
    ensures var s2 := Next(s1, CheckReceived(i, now, v), cond, me);
            SysValid(s2, cond) && s2.up && |s2.tasks| == |s.tasks| && !s2.tasks[i].Waiting? && Tried(s, s2, cond, i, v)
  {
    var a := s.hot[0];
    StepKeepsValid(s1, CheckReceived(i, now, v), cond, me);
    AddIfNotSatisfiedMeaning(s1.cold, a, cond, now, v);
    PopFront(s.hot);
    assert InQueues(s) == multiset{a} + multiset(s1.hot) + multiset(s1.cold.queue);
    assert a in InQueues(s);
  }

  /** A waiting task receives an asset and checks it. */
  lemma ReceiveLeads<T, C>(s: Sys<T, C>, cond: (C, T) -> bool, me: u32, i: nat, now: int, v: C)
    returns (steps: seq<Step<T, C>>, s': Sys<T, C>)
    requires SysValid(s, cond) && s.up && i < |s.tasks| && s.tasks[i].Waiting? && s.hot != [] && s.cold.last == v
    ensures Leads(s, steps, s', cond, me, i, v, true) && |s'.tasks| == |s.tasks|
    ensures !s'.tasks[i].Waiting? && Tried(s, s', cond, i, v)
  {
    var s1 := Next(s, Receive(i), cond, me);
    StepKeepsValid(s, Receive(i), cond, me);
    CheckOnce(s, s1, cond, me, i, now, v);
    s' := Next(s1, CheckReceived(i, now, v), cond, me);
    LeadsNowhere(s, cond, me, i, v, true);
    LeadsOneStep(s, [], s, Receive(i), s1, cond, me, i, v, true);
    LeadsOneStep(s, [] + [Receive(i)], s1, CheckReceived(i, now, v), s', cond, me, i, v, true);
    steps := [] + [Receive(i)] + [CheckReceived(i, now, v)];
  }

  lemma TriedAgain<T, C>(s: Sys<T, C>, s1: Sys<T, C>, s2: Sys<T, C>, cond: (C, T) -> bool, i: nat, v: C)
    requires i < |s1.tasks| && s1.tasks[i].Waiting? && Tried(s, s1, cond, i, v)
    requires i < |s2.tasks| && !s2.tasks[i].Waiting? && Tried(s1, s2, cond, i, v)
    ensures Tried(s, s2, cond, i, v)
  {
    assert InQueues(s1) == InQueues(s);
  }

  /** One attempt, on the cold queue and then on the hot one, serves the task or leaves fewer candidates. */
  lemma TryBoth<T, C>(s: Sys<T, C>, cond: (C, T) -> bool, me: u32, i: nat, now: int, v: C)
    returns (steps: seq<Step<T, C>>, s': Sys<T, C>)
    requires Tries(s, cond, i, v)
    ensures Leads(s, steps, s', cond, me, i, v, true) && |s'.tasks| == |s.tasks| && Tried(s, s', cond, i, v)
    ensures s'.tasks[i].Waiting? ==> s'.hot == []
  {
    LeadsNowhere(s, cond, me, i, v, true);
    TryOnce(s, cond, me, i, now, v);
    var s1 := Next(s, TryCold(i, now, v), cond, me);
    LeadsOneStep(s, [], s, TryCold(i, now, v), s1, cond, me, i, v, true);
    steps, s' := [] + [TryCold(i, now, v)], s1;
    if s1.tasks[i].Waiting? && s1.hot != [] {
      var more, s2 := ReceiveLeads(s1, cond, me, i, now, v);
      LeadsOn(s, steps, s1, more, s2, cond, me, i, v, true);
      TriedAgain(s, s1, s2, cond, i, v);
      steps, s' := steps + more, s2;
    }
  }

  lemma {:induction false} RunConcat<T, C>(s: Sys<T, C>, a: seq<Step<T, C>>, b: seq<Step<T, C>>, s1: Sys<T, C>,
        cond: (C, T) -> bool, me: u32)
    requires SysValid(s, cond) && SysValid(s1, cond) && Run(s, a, cond, me) == Some(s1)
    ensures Run(s, a + b, cond, me) == Run(s1, b, cond, me)
    decreases |a|
  {
    if a == [] {
      assert a + b == b;
    } else {
      assert (a + b)[1..] == a[1..] + b && (a + b)[0] == a[0];
      StepKeepsValid(s, a[0], cond, me);
      RunConcat(Next(s, a[0], cond, me), a[1..], b, s1, cond, me);
    }
  }

  lemma LeadsOn<T, C>(s: Sys<T, C>, steps: seq<Step<T, C>>, s1: Sys<T, C>, more: seq<Step<T, C>>, s2: Sys<T, C>,
        cond: (C, T) -> bool, me: u32, i: nat, v: C, taking: bool)
    requires Leads(s, steps, s1, cond, me, i, v, taking) && Leads(s1, more, s2, cond, me, i, v, taking)
    ensures Leads(s, steps + more, s2, cond, me, i, v, taking)
  {
    RunConcat(s, steps, more, s1, cond, me);
  }

  lemma NoneOffered<T, C>(s: Sys<T, C>, s': Sys<T, C>, cond: (C, T) -> bool, i: nat, v: C)
    requires i < |s'.tasks| && Tried(s, s', cond, i, v) && s'.tasks[i].Waiting? && s'.hot == []
    ensures !Offers(s, cond, v)
  {
    forall a | a in InQueues(s) ensures !cond(v, a.value) {
      assert a in s.cold.queue;
    }
  }

  lemma {:induction false} TakerIsServed<T, C>(s: Sys<T, C>, cond: (C, T) -> bool, me: u32, i: nat, now: int, v: C)
    returns (steps: seq<Step<T, C>>, s': Sys<T, C>)
    requires Tries(s, cond, i, v)
    ensures Leads(s, steps, s', cond, me, i, v, true) && |s'.tasks| == |s.tasks| && Served(s, s', i, cond, v)
    decreases |s.hot| + s.cold.available
  {
    var first, s1 := TryBoth(s, cond, me, i, now, v);
    if s1.tasks[i].Taking? {
      var more, s2 := TakerIsServed(s1, cond, me, i, now, v);
      LeadsOn(s, first, s1, more, s2, cond, me, i, v, true);
      steps, s' := first + more, s2;
    } else {
      steps, s' := first, s1;
      if s1.tasks[i].Waiting? { NoneOffered(s, s1, cond, i, v); }
    }
  }

  /**
   * From every state of every interleaving, an idle task that takes alone, while the condition value is `v`, ends up
   * holding a queued asset that satisfies the condition if there is one, and waits on empty hands only if there is
   * none.
   */
  lemma TakeIsAnswered<T, C>(s: Sys<T, C>, cond: (C, T) -> bool, me: u32, i: nat, now: int, v: C)
    returns (steps: seq<Step<T, C>>, s': Sys<T, C>)
    requires SysValid(s, cond) && s.up && i < |s.tasks| && s.tasks[i].Idle?
    ensures Leads(s, steps, s', cond, me, i, v, true) && |s'.tasks| == |s.tasks| && Served(s, s', i, cond, v)
  {
    var s1 := Next(s, StartTake(i, now, v), cond, me);
    StepKeepsValid(s, StartTake(i, now, v), cond, me);
    LeadsNowhere(s, cond, me, i, v, true);
    LeadsOneStep(s, [], s, StartTake(i, now, v), s1, cond, me, i, v, true);
    var more, s2 := TakerIsServed(s1, cond, me, i, now, v);
    LeadsOn(s, [] + [StartTake(i, now, v)], s1, more, s2, cond, me, i, v, true);
    assert InQueues(s1) == InQueues(s);
    steps, s' := [] + [StartTake(i, now, v)] + more, s2;
  }

  // ----- A discard comes to an end -----

  /** Task `i` scans the cold queue, or drains the hot one, and the condition value is `v`. */
  ghost predicate Works<T, C>(s: Sys<T, C>, cond: (C, T) -> bool, i: nat, v: C) {
    SysValid(s, cond) && s.up && i < |s.tasks| && (s.tasks[i].Scanning? || s.tasks[i].Draining?) && s.cold.last == v
  }

  ghost function Unconfirmed<T, C>(s: Sys<T, C>): int {
    |s.cold.queue| - s.cold.ready
  }

  /** One scan goes on to the hot queue, or examines one cold asset. */
  lemma ScanOnce<T, C>(s: Sys<T, C>, cond: (C, T) -> bool, me: u32, i: nat, now: int, v: C)
    requires Works(s, cond, i, v) && s.tasks[i].Scanning?
    ensures var s', left := Next(s, ScanCold(i, now, v), cond, me), s.tasks[i].left;
            && Works(s', cond, i, v) && |s'.tasks| == |s.tasks| && s'.hot == s.hot
            && (if left == 0 || Unconfirmed(s) == 0 then s'.tasks[i].Draining? && s'.tasks[i].left == left
                else && s'.tasks[i].Scanning? && s'.tasks[i].left == left - 1
                     && Unconfirmed(s') == Unconfirmed(s) - 1)
  {
    StepKeepsValid(s, ScanCold(i, now, v), cond, me);
    DiscardMeaning(s.cold, cond, now, v);
    var o := Discard(s.cold, cond, now, v);
    assert |o.cold.Bag()| == |o.cold.queue| && |s.cold.Bag()| == |s.cold.queue|;
  }

  /** Scanning alone ends after as many cold assets as it has left, or as are unconfirmed. */
  lemma {:induction false} ScanEnds<T, C>(s: Sys<T, C>, cond: (C, T) -> bool, me: u32, i: nat, now: int, v: C)
    returns (steps: seq<Step<T, C>>, s': Sys<T, C>)
    requires Works(s, cond, i, v) && s.tasks[i].Scanning?
    ensures Leads(s, steps, s', cond, me, i, v, false) && |s'.tasks| == |s.tasks| && Works(s', cond, i, v)
    ensures s'.tasks[i].Draining? && s'.hot == s.hot
    ensures s'.tasks[i].left == s.tasks[i].left - Min(s.tasks[i].left, Unconfirmed(s))
    decreases s.tasks[i].left
  {
    var step := ScanCold(i, now, v);
    ScanOnce(s, cond, me, i, now, v);
    var s1 := Next(s, step, cond, me);
    LeadsNowhere(s, cond, me, i, v, false);
    LeadsOneStep(s, [], s, step, s1, cond, me, i, v, false);
    steps, s' := [] + [step], s1;
    if s1.tasks[i].Scanning? {
      var more, s2 := ScanEnds(s1, cond, me, i, now, v);
      LeadsOn(s, steps, s1, more, s2, cond, me, i, v, false);
      steps, s' := steps + more, s2;
    }
  }

  /** A draining task takes one asset out of the hot queue and checks it. */
  lemma DrainOnce<T, C>(s: Sys<T, C>, cond: (C, T) -> bool, me: u32, i: nat, now: int, v: C)
    returns (steps: seq<Step<T, C>>, s': Sys<T, C>)
    requires Works(s, cond, i, v) && s.tasks[i].Draining? && s.tasks[i].left > 0 && s.hot != []
    ensures Leads(s, steps, s', cond, me, i, v, false) && |s'.tasks| == |s.tasks| && Works(s', cond, i, v)
    ensures s'.tasks[i].Draining? && s'.tasks[i].left == s.tasks[i].left - 1 && s'.hot == s.hot[1..]
  {
    var s1 := Next(s, ReceiveToConfirm(i), cond, me);
    StepKeepsValid(s, ReceiveToConfirm(i), cond, me);
    s' := Next(s1, ConfirmReceived(i, now, v), cond, me);
    AddIfSatisfiedMeaning(s1.cold, s1.tasks[i].asset, cond, now, v);
    StepKeepsValid(s1, ConfirmReceived(i, now, v), cond, me);
    LeadsNowhere(s, cond, me, i, v, false);
    LeadsOneStep(s, [], s, ReceiveToConfirm(i), s1, cond, me, i, v, false);
    LeadsOneStep(s, [] + [ReceiveToConfirm(i)], s1, ConfirmReceived(i, now, v), s', cond, me, i, v, false);
    steps := [] + [ReceiveToConfirm(i)] + [ConfirmReceived(i, now, v)];
  }

  lemma {:induction false} DrainEnds<T, C>(s: Sys<T, C>, cond: (C, T) -> bool, me: u32, i: nat, now: int, v: C)
    returns (steps: seq<Step<T, C>>, s': Sys<T, C>)
    requires Works(s, cond, i, v) && s.tasks[i].Draining?
    ensures Leads(s, steps, s', cond, me, i, v, false) && |s'.tasks| == |s.tasks| && Works(s', cond, i, v)
    ensures s'.tasks[i].Draining? && (s'.tasks[i].left == 0 || s'.hot == [])
    ensures s'.tasks[i].left == s.tasks[i].left - Min(s.tasks[i].left, |s.hot|)
    decreases s.tasks[i].left
  {
    if s.tasks[i].left == 0 || s.hot == [] {
      LeadsNowhere(s, cond, me, i, v, false);
      steps, s' := [], s;
    } else {
      var first, s1 := DrainOnce(s, cond, me, i, now, v);
      var more, s2 := DrainEnds(s1, cond, me, i, now, v);
      LeadsOn(s, first, s1, more, s2, cond, me, i, v, false);
      steps, s' := first + more, s2;
    }
  }

  /**
   * From every state of every interleaving, a task that discards up to `n` assets alone, while the condition value is
   * `v`, can stop after it has examined exactly the smaller of `n` and the assets not confirmed under `v`.
   */
  lemma DiscardIsCompleted<T, C>(s: Sys<T, C>, cond: (C, T) -> bool, me: u32, i: nat, n: nat, now: int, v: C)
    returns (s1: Sys<T, C>, steps: seq<Step<T, C>>, s2: Sys<T, C>)
    requires SysValid(s, cond) && s.up && i < |s.tasks| && s.tasks[i].Idle?
    ensures s1 == Next(s, StartDiscard(i, n, now, v), cond, me) && Leads(s1, steps, s2, cond, me, i, v, false)
    ensures Enabled(s2, StopDraining(i), me)
    ensures Examined(s1, steps, cond, me, i) == Min(n, |s.cold.queue| - Refresh(s.cold, now, v).ready + |s.hot|)
  {
    s1 := Next(s, StartDiscard(i, n, now, v), cond, me);
    StepKeepsValid(s, StartDiscard(i, n, now, v), cond, me);
    var scan, t := ScanEnds(s1, cond, me, i, now, v);
    var drain, t' := DrainEnds(t, cond, me, i, now, v);
    LeadsOn(s1, scan, t, drain, t', cond, me, i, v, false);
    steps, s2 := scan + drain, t';
    assert OneDiscard(steps, i) by {
      assert forall k :: 0 <= k < |steps| ==> Belongs(steps[k], i, v, false);
    }
    DiscardStaysInBudget(s1, steps, cond, me, i);
  }
}
