/** A run in which draining the hot queue leaves an asset in the database that no task holds or will delete. */
module AssetLeaks {
  import opened Wrappers
  import opened ColdQueues
  import opened UniqueIds
  import opened AssetColumns
  import opened AssetLedgers
  import opened AssetRuns

  /** One task, an empty database, and the process not started yet. */
  ghost function Fresh<T, C>(v: C): Sys<T, C> {
    Sys(false, map[], [], Cold(0, 0, [], v, 0), [Idle], {}, {}, [], multiset{}, multiset{}, multiset{})
  }

  /** Start, add one asset, and discard up to one asset. */
  ghost function LeakSteps<T, C>(a: Asset<T>, v: C): seq<Step<T, C>> {
    [Step.Restart([], 0, v), StoreAsset(0, a), SendHot(0), StartDiscard(0, 1, 0, v), ScanCold(0, 0, v),
     ReceiveToConfirm(0), ConfirmReceived(0, 0, v), StopDraining(0), CommitDiscard(0)]
  }

  /** The state with the asset stored, given the hot queue and where the task is. */
  ghost function Stored<T, C>(a: Asset<T>, v: C, due: int, hot: seq<Asset<T>>, task: Task<T>): Sys<T, C> {
    Sys(true, map[a.id := a.value], hot, Cold(0, 0, [], v, due), [task], {}, {a.id}, [],
        multiset{a}, multiset{}, multiset{})
  }

  ghost function Leaked<T, C>(a: Asset<T>, v: C, task: Task<T>): Sys<T, C> {
    Stored(a, v, CONDITION_REFRESH_INTERVAL, [], task).(leaked := {a.id}, discarded := multiset{a})
  }

  /** The first `k` steps of the leaking run lead to `t`. */
  ghost predicate At<T, C>(a: Asset<T>, v: C, cond: (C, T) -> bool, me: u32, k: nat, t: Sys<T, C>)
    requires k <= 9
  {
    SysValid(Fresh(v), cond) && SysValid(t, cond) && Run(Fresh(v), LeakSteps(a, v)[..k], cond, me) == Some(t)
  }

  lemma Then<T, C>(a: Asset<T>, v: C, cond: (C, T) -> bool, me: u32, k: nat, t: Sys<T, C>,
                   step: Step<T, C>, t': Sys<T, C>)
    requires k < 9 && At(a, v, cond, me, k, t) && LeakSteps(a, v)[k] == step
    requires Enabled(t, step, me) && Next(t, step, cond, me) == t'
    ensures At(a, v, cond, me, k + 1, t')
  {
    var steps := LeakSteps(a, v);
    RunAppends(Fresh(v), steps[..k], step, cond, me);
    StepKeepsValid(t, step, cond, me);
    assert steps[..k + 1] == steps[..k] + [step];
  }

  lemma Starts<T, C>(a: Asset<T>, v: C, cond: (C, T) -> bool, me: u32)
    ensures At(a, v, cond, me, 1, Fresh(v).(up := true))
  {
    assert LeakSteps(a, v)[..0] == [];
    assert At(a, v, cond, me, 0, Fresh(v));
    Then(a, v, cond, me, 0, Fresh(v),
         Step.Restart([], 0, v), Fresh(v).(up := true));
  }

  lemma Stores<T, C>(a: Asset<T>, v: C, cond: (C, T) -> bool, me: u32)
    ensures At(a, v, cond, me, 2, Stored(a, v, 0, [], Adding(a)))
  {
    Starts(a, v, cond, me);
    Then(a, v, cond, me, 1, Fresh(v).(up := true),
         StoreAsset(0, a), Stored(a, v, 0, [], Adding(a)));
  }

  lemma Sends<T, C>(a: Asset<T>, v: C, cond: (C, T) -> bool, me: u32)
    ensures At(a, v, cond, me, 3, Stored(a, v, 0, [a], Idle))
  {
    Stores(a, v, cond, me);
    Then(a, v, cond, me, 2, Stored(a, v, 0, [], Adding(a)),
         SendHot(0), Stored(a, v, 0, [a], Idle));
  }

  lemma StartsDiscard<T, C>(a: Asset<T>, v: C, cond: (C, T) -> bool, me: u32)
    ensures At(a, v, cond, me, 4, Stored(a, v, CONDITION_REFRESH_INTERVAL, [a], Scanning(1, [])))
  {
    Sends(a, v, cond, me);
    Then(a, v, cond, me, 3, Stored(a, v, 0, [a], Idle),
         StartDiscard(0, 1, 0, v), Stored(a, v, CONDITION_REFRESH_INTERVAL, [a], Scanning(1, [])));
  }

  /** The cold queue is empty. */
  lemma Scans<T, C>(a: Asset<T>, v: C, cond: (C, T) -> bool, me: u32)
    ensures At(a, v, cond, me, 5, Stored(a, v, CONDITION_REFRESH_INTERVAL, [a], Draining(1, [])))
  {
    StartsDiscard(a, v, cond, me);
    Then(a, v, cond, me, 4, Stored(a, v, CONDITION_REFRESH_INTERVAL, [a], Scanning(1, [])),
         ScanCold(0, 0, v), Stored(a, v, CONDITION_REFRESH_INTERVAL, [a], Draining(1, [])));
  }

  lemma Receives<T, C>(a: Asset<T>, v: C, cond: (C, T) -> bool, me: u32)
    ensures At(a, v, cond, me, 6, Stored(a, v, CONDITION_REFRESH_INTERVAL, [], Confirming(0, [], a)))
  {
    Scans(a, v, cond, me);
    Then(a, v, cond, me, 5, Stored(a, v, CONDITION_REFRESH_INTERVAL, [a], Draining(1, [])),
         ReceiveToConfirm(0), Stored(a, v, CONDITION_REFRESH_INTERVAL, [], Confirming(0, [], a)));
  }

  /** The asset fails the check and is dropped. */
  lemma Drops<T, C>(a: Asset<T>, v: C, cond: (C, T) -> bool, me: u32)
    requires !cond(v, a.value)
    ensures At(a, v, cond, me, 7, Leaked(a, v, Draining(0, [])))
  {
    Receives(a, v, cond, me);
    Then(a, v, cond, me, 6, Stored(a, v, CONDITION_REFRESH_INTERVAL, [], Confirming(0, [], a)),
         ConfirmReceived(0, 0, v), Leaked(a, v, Draining(0, [])));
  }

  lemma Stops<T, C>(a: Asset<T>, v: C, cond: (C, T) -> bool, me: u32)
    requires !cond(v, a.value)
    ensures At(a, v, cond, me, 8, Leaked(a, v, Settling([])))
  {
    Drops(a, v, cond, me);
    Then(a, v, cond, me, 7, Leaked(a, v, Draining(0, [])),
         StopDraining(0), Leaked(a, v, Settling([])));
  }

  /** There is nothing to delete. */
  lemma Commits<T, C>(a: Asset<T>, v: C, cond: (C, T) -> bool, me: u32)
    requires !cond(v, a.value)
    ensures At(a, v, cond, me, 9, Leaked(a, v, Idle))
  {
    Stops(a, v, cond, me);
    Then(a, v, cond, me, 8, Leaked(a, v, Settling([])),
         CommitDiscard(0), Leaked(a, v, Idle));
  }

  lemma NothingHeld<T, C>(a: Asset<T>, v: C)
    ensures Memory(Leaked<T, C>(a, v, Idle)) == multiset{} && PendingOf([Task<T>.Idle]) == {}
  {
    IdleHoldsNothing([Task<T>.Idle]);
  }

  /**
   * For every asset that fails the condition there is a run from an empty database after which the asset is stored,
   * queued nowhere, carried by no task and not about to be deleted.
   */
  lemma DrainingLeaks<T, C>(a: Asset<T>, v: C, cond: (C, T) -> bool, me: u32)
    requires !cond(v, a.value)
    ensures Initial(Fresh<T, C>(v), me) && SysValid(Fresh<T, C>(v), cond)
    ensures var r := Run(Fresh(v), LeakSteps(a, v), cond, me);
            && r == Some(Leaked(a, v, Idle))
            && r.value.up && a.id in r.value.db && !InMemory(Memory(r.value), a.id) && PendingOf(r.value.tasks) == {}
  {
    Commits(a, v, cond, me);
    assert LeakSteps(a, v)[..9] == LeakSteps(a, v);
    NothingHeld<T, C>(a, v);
  }

  /** A restart brings the leaked asset back. */
  lemma RestartRecovers<T, C>(a: Asset<T>, v: C, cond: (C, T) -> bool, me: u32)
    requires !cond(v, a.value) && a.id.Participant() == me
    ensures SysValid(Fresh<T, C>(v), cond)
    ensures var r := Run(Fresh(v), LeakSteps(a, v) + [CrashNow] + [Step.Restart([a], 0, v)], cond, me);
            r.Some? && r.value.up && r.value.hot == [a]
  {
    DrainingLeaks(a, v, cond, me);
    RunAppends(Fresh(v), LeakSteps(a, v), CrashNow, cond, me);
    RunAppends(Fresh(v), LeakSteps(a, v) + [CrashNow], Step.Restart([a], 0, v), cond, me);
    assert LoadedFrom([a], map[a.id := a.value], me) by {
      assert [a][0].id == a.id;
    }
  }
}
