/** Splitting requested balances over limited funding accounts (the devnet funding loop). */
module Funding {
  import opened Wrappers
  import opened Accounts

  const ONE_NEAR: nat := 1_000_000_000_000_000_000_000_000
  const MINIMUM: nat := ONE_NEAR / 10
  const PERCENT_TO_REFILL: nat := 70

  datatype Request =
    | NewAccount(initialBalance: nat, prefix: string)
    | ExistingAccount(accountId: AccountId, desiredBalance: nat, doNotRefillAbove: nat)

  function FromExisting(accountId: AccountId, desiredBalance: nat): Request {
    ExistingAccount(accountId, desiredBalance, desiredBalance * PERCENT_TO_REFILL / 100)
  }

  /** What a request needs given its account's balance; `None` is the underflow panic. */
  function Need(r: Request, balance: nat): Option<nat> {
    match r
    case NewAccount(initial, _) => Some(initial)
    case ExistingAccount(_, desired, above) =>
      if balance >= above then Some(0)
      else if desired < balance then None
      else Some(desired - balance)
  }

  /**
   * A refill never fails; it tops up to the desired balance exactly, or is skipped from 70 percent, rounded down, on.
   */
  lemma RefillReachesDesired(accountId: AccountId, desired: nat, balance: nat)
    ensures var need := Need(FromExisting(accountId, desired), balance);
            && need.Some?
            && (need.value == 0 <==> 100 * (balance + 1) > desired * 70)
            && (need.value > 0 ==> balance + need.value == desired)
  {}

  /** The saturating subtraction that keeps the reserve out of reach. */
  function Usable(balance: nat): nat {
    if balance < MINIMUM then 0 else balance - MINIMUM
  }

  /**
   * A chain call: money leaves `from` for `to`, which it may create. `request` is the position of the request
   * it serves, `load` the position of the funding account it draws on, in order of loading.
   */
  datatype Transfer = Transfer(from: AccountId, to: AccountId, amount: nat, creates: bool, request: nat, load: nat)

  datatype Waiting = Waiting(request: Request, need: nat)
  datatype Funder = Funder(account: AccountId, balance: nat)

  /**
   * The outside world: the `k`-th replenishment, when `sent` has been sent so far, yields this account with this
   * balance (from the configuration or the faucet); new accounts get these names.
   */
  datatype World = World(replenish: (nat, nat) -> (AccountId, nat), newName: nat -> AccountId)

  /** The loop's variables, with the calls made and the funding accounts loaded so far. */
  datatype State = State(funders: seq<Funder>, waiting: seq<Waiting>, funded: seq<AccountId>, toDelete: seq<AccountId>,
                         transfers: seq<Transfer>, loads: seq<Funder>, replenished: nat)

  // ----- Sums over the calls -----

  function Total(ts: seq<Transfer>): nat {
    if ts == [] then 0 else Total(ts[..|ts| - 1]) + ts[|ts| - 1].amount
  }

  function Received(ts: seq<Transfer>, request: nat): nat {
    if ts == [] then 0
    else Received(ts[..|ts| - 1], request) + if ts[|ts| - 1].request == request then ts[|ts| - 1].amount else 0
  }

  function Creations(ts: seq<Transfer>, request: nat): nat {
    if ts == [] then 0
    else Creations(ts[..|ts| - 1], request) + if ts[|ts| - 1].request == request && ts[|ts| - 1].creates then 1 else 0
  }

  function Drawn(ts: seq<Transfer>, load: nat): nat {
    if ts == [] then 0
    else Drawn(ts[..|ts| - 1], load) + if ts[|ts| - 1].load == load then ts[|ts| - 1].amount else 0
  }

  function NeedLeft(ws: seq<Waiting>): nat {
    if ws == [] then 0 else ws[0].need + NeedLeft(ws[1..])
  }

  lemma AppendTotal(ts: seq<Transfer>, t: Transfer)
    ensures Total(ts + [t]) == Total(ts) + t.amount
  {
    assert (ts + [t])[..|ts|] == ts;
  }

  lemma AppendDrawn(ts: seq<Transfer>, t: Transfer, l: nat)
    ensures Drawn(ts + [t], l) == Drawn(ts, l) + if t.load == l then t.amount else 0
  {
    assert (ts + [t])[..|ts|] == ts;
  }

  lemma AppendRequest(ts: seq<Transfer>, t: Transfer, r: nat)
    ensures Received(ts + [t], r) == Received(ts, r) + if t.request == r then t.amount else 0
    ensures Creations(ts + [t], r) == Creations(ts, r) + if t.request == r && t.creates then 1 else 0
  {
    assert (ts + [t])[..|ts|] == ts;
  }

  // ----- One pass of the loop -----

  function Replenished(s: State, w: World): State {
    if s.funders != [] then s else
      var (account, balance) := w.replenish(s.replenished, Total(s.transfers));
      var f := Funder(account, Usable(balance));
      s.(funders := [f], loads := s.loads + [f], replenished := s.replenished + 1)
  }

  function Pass(s0: State, w: World): State
    requires s0.waiting != []
  {
    var s := Replenished(s0, w);
    var f := s.funders[0];
    if f.balance < MINIMUM then s.(funders := s.funders[1..], toDelete := s.toDelete + [f.account])
    else Fund(s, w)
  }

  /** The call a pass makes, if it makes one. */
  function Call(s: State, w: World): Transfer
    requires s.waiting != [] && s.funders != []
  {
    var f, next := s.funders[0], s.waiting[0];
    Transfer(f.account,
             if next.request.NewAccount? then w.newName(|s.transfers|) else next.request.accountId,
             if f.balance < next.need then f.balance else next.need,
             next.request.NewAccount?, |s.funded|, |s.toDelete|)
  }

  /** Use the first funding account for the first waiting request, as far as it goes. */
  function Fund(s: State, w: World): State
    requires s.waiting != [] && s.funders != []
  {
    var f, next, t := s.funders[0], s.waiting[0], Call(s, w);
    var s1 := if f.balance - t.amount > 0
              then s.(funders := [Funder(f.account, f.balance - t.amount)] + s.funders[1..])
              else s.(funders := s.funders[1..], toDelete := s.toDelete + [f.account]);
    var s2 := if t.creates || t.amount > 0 then s1.(transfers := s.transfers + [t]) else s1;
    if next.need - t.amount > 0
    then s2.(waiting := [Waiting(ExistingAccount(t.to, 0, 0), next.need - t.amount)] + s.waiting[1..])
    else s2.(waiting := s.waiting[1..], funded := s.funded + [t.to])
  }

  function Iter(s: State, w: World, n: nat): State
    decreases n
  {
    if n == 0 || s.waiting == [] then s else Iter(Pass(s, w), w, n - 1)
  }

  ghost predicate Terminates(s: State, w: World) {
    exists n: nat :: Iter(s, w, n).waiting == []
  }

  // ----- What holds before every pass -----

  /** Transfers so far: each serves a request up to the current one and draws on a loaded account. */
  ghost predicate Ordered(s: State) {
    forall i :: 0 <= i < |s.transfers| ==> s.transfers[i].request <= |s.funded| && s.transfers[i].load <= |s.toDelete|
  }

  /** Request `j` is done: paid its need exactly, created exactly once if new, and listed under the account paid. */
  ghost predicate Done(ts: seq<Transfer>, j: nat, r: Request, need: nat, id: AccountId) {
    && Received(ts, j) == need
    && Creations(ts, j) == (if r.NewAccount? then 1 else 0)
    && (r.ExistingAccount? ==> id == r.accountId)
    && PaidTo(ts, j, id)
  }

  ghost predicate PaidTo(ts: seq<Transfer>, j: nat, id: AccountId) {
    forall i :: 0 <= i < |ts| && ts[i].request == j ==> ts[i].to == id
  }

  /** The first waiting request, possibly served in part. */
  ghost predicate Underway(ts: seq<Transfer>, j: nat, r: Request, need: nat, next: Waiting) {
    && Received(ts, j) + next.need == need
    && (if next.request.NewAccount? then next.request == r && Creations(ts, j) == 0 && Untouched(ts, j)
        else Creations(ts, j) == (if r.NewAccount? then 1 else 0) &&
             (r.ExistingAccount? ==> next.request.accountId == r.accountId) &&
             PaidTo(ts, j, next.request.accountId))
  }

  ghost predicate Untouched(ts: seq<Transfer>, j: nat) {
    forall i :: 0 <= i < |ts| ==> ts[i].request != j
  }

  /** Done requests, the current one and the untouched rest are together the requested list, in order. */
  ghost predicate InOrder(s: State, plan: seq<Waiting>) {
    && |s.funded| + |s.waiting| == |plan|
    && (forall j :: 0 <= j < |s.funded| ==> Done(s.transfers, j, plan[j].request, plan[j].need, s.funded[j]))
    && (s.waiting != [] ==>
          && Underway(s.transfers, |s.funded|, plan[|s.funded|].request, plan[|s.funded|].need, s.waiting[0])
          && s.waiting[1..] == plan[|s.funded| + 1..])
  }

  /** Loaded accounts are used up in order: first those to delete, then those still held. */
  ghost predicate LoadedInOrder(s: State) {
    && |s.toDelete| + |s.funders| == |s.loads|
    && (forall l :: 0 <= l < |s.toDelete| ==> s.toDelete[l] == s.loads[l].account)
    && (forall l :: |s.toDelete| <= l < |s.loads| ==> s.funders[l - |s.toDelete|].account == s.loads[l].account)
  }

  /** Every loaded account pays out of its usable balance only, and what is left of it is what the loop believes. */
  ghost predicate Covered(s: State) {
    && LoadedInOrder(s)
    && (forall l :: 0 <= l < |s.loads| ==> Drawn(s.transfers, l) <= s.loads[l].balance)
    && (forall l :: |s.toDelete| <= l < |s.loads| ==>
          s.funders[l - |s.toDelete|].balance + Drawn(s.transfers, l) == s.loads[l].balance)
  }

  /** The accounts to delete are the first ones loaded, each left with less than 0.1 NEAR above its reserve. */
  ghost predicate Exhausted(toDelete: seq<AccountId>, loads: seq<Funder>, ts: seq<Transfer>) {
    && |toDelete| <= |loads|
    && forall l :: 0 <= l < |toDelete| ==>
         toDelete[l] == loads[l].account && loads[l].balance < Drawn(ts, l) + 100_000_000_000_000_000_000_000
  }

  /** Each transfer comes from the account it is booked on. */
  ghost predicate Sourced(s: State) {
    forall i :: 0 <= i < |s.transfers| ==>
      s.transfers[i].load < |s.loads| && s.transfers[i].from == s.loads[s.transfers[i].load].account
  }

  ghost predicate Invariant(s: State, plan: seq<Waiting>) {
    Ordered(s) && InOrder(s, plan) && Covered(s) && Sourced(s) && Exhausted(s.toDelete, s.loads, s.transfers) &&
        Total(s.transfers) + NeedLeft(s.waiting) == NeedLeft(plan)
  }

  lemma {:induction false} NothingBeyond(ts: seq<Transfer>, l: nat, r: nat)
    ensures (forall i :: 0 <= i < |ts| ==> ts[i].load < l) ==> Drawn(ts, l) == 0
    ensures Untouched(ts, r) ==> Received(ts, r) == 0 && Creations(ts, r) == 0
  {
    if ts != [] {
      NothingBeyond(ts[..|ts| - 1], l, r);
    }
  }

  /** A newly loaded account has paid nothing yet. */
  lemma LoadKeepsCover(s: State, s': State, f: Funder)
    requires Covered(s) && Sourced(s) && s.funders == []
    requires s'.funders == [f] && s'.loads == s.loads + [f] && s'.transfers == s.transfers && s'.toDelete == s.toDelete
    ensures Covered(s') && Sourced(s')
  {
    NothingBeyond(s.transfers, |s.loads|, 0);
    forall l | 0 <= l < |s.loads| ensures s'.loads[l] == s.loads[l] {}
    assert s'.loads[|s.loads|] == f;
    assert LoadedInOrder(s');
  }

  lemma ReplenishKeeps(s: State, w: World, plan: seq<Waiting>)
    requires Invariant(s, plan)
    ensures Invariant(Replenished(s, w), plan)
  {
    if s.funders == [] {
      var s' := Replenished(s, w);
      LoadKeepsCover(s, s', s'.funders[0]);
    }
  }

  /** A pass makes its call, unless it would send nothing to an existing account. */
  lemma CallMade(s: State, w: World)
    requires s.waiting != [] && s.funders != []
    ensures var t, ts := Call(s, w), Fund(s, w).transfers;
            ts == s.transfers + [t] || (ts == s.transfers && t.amount == 0 && !t.creates)
  {}

  lemma BookedRequest(s: State, w: World, r: nat)
    requires s.waiting != [] && s.funders != []
    ensures var t, ts := Call(s, w), Fund(s, w).transfers;
            && Received(ts, r) == Received(s.transfers, r) + (if t.request == r then t.amount else 0)
            && Creations(ts, r) == Creations(s.transfers, r) + (if t.request == r && t.creates then 1 else 0)
  {
    CallMade(s, w);
    AppendRequest(s.transfers, Call(s, w), r);
  }

  lemma BookedLoad(s: State, w: World, l: nat)
    requires s.waiting != [] && s.funders != []
    ensures var t, ts := Call(s, w), Fund(s, w).transfers;
            Drawn(ts, l) == Drawn(s.transfers, l) + if t.load == l then t.amount else 0
  {
    CallMade(s, w);
    AppendDrawn(s.transfers, Call(s, w), l);
  }

  /** Value is conserved: what is sent is exactly the drop in the need, and in the funding account's balance. */
  lemma FundConserves(s: State, w: World)
    requires s.waiting != [] && s.funders != []
    ensures var s', t := Fund(s, w), Call(s, w);
            && Total(s'.transfers) == Total(s.transfers) + t.amount
            && NeedLeft(s'.waiting) == NeedLeft(s.waiting) - t.amount
            && (if t.amount < s.funders[0].balance
                then s'.funders == [Funder(t.from, s.funders[0].balance - t.amount)] + s.funders[1..]
                else s'.funders == s.funders[1..])
  {
    CallMade(s, w);
    var t := Call(s, w);
    AppendTotal(s.transfers, t);
    if s.waiting[0].need > t.amount {
      var again := Waiting(ExistingAccount(t.to, 0, 0), s.waiting[0].need - t.amount);
      assert ([again] + s.waiting[1..])[1..] == s.waiting[1..];
    }
  }

  lemma FundKeepsCover(s: State, w: World)
    requires s.waiting != [] && s.funders != [] && Covered(s)
    ensures Covered(Fund(s, w))
  {
    var s', amount := Fund(s, w), Call(s, w).amount;
    forall l: nat ensures Drawn(s'.transfers, l) == Drawn(s.transfers, l) + if l == |s.toDelete| then amount else 0 {
      BookedLoad(s, w, l);
    }
    if amount < s.funders[0].balance {
      KeptFunder(s, s', amount);
    } else {
      SpentFunder(s, s', amount);
    }
  }

  lemma KeptFunder(s: State, s': State, amount: nat)
    requires s.funders != [] && Covered(s) && amount < s.funders[0].balance
    requires s'.loads == s.loads && s'.toDelete == s.toDelete
    requires s'.funders == [Funder(s.funders[0].account, s.funders[0].balance - amount)] + s.funders[1..]
    requires forall l: nat :: Drawn(s'.transfers, l) == Drawn(s.transfers, l) + if l == |s.toDelete| then amount else 0
    ensures Covered(s')
  {
    assert s.funders[|s.toDelete| - |s.toDelete|] == s.funders[0];
    assert forall k :: 0 < k < |s.funders| ==> s'.funders[k] == s.funders[k];
  }

  lemma SpentFunder(s: State, s': State, amount: nat)
    requires s.funders != [] && Covered(s) && amount == s.funders[0].balance
    requires s'.loads == s.loads && s'.toDelete == s.toDelete + [s.funders[0].account] && s'.funders == s.funders[1..]
    requires forall l: nat :: Drawn(s'.transfers, l) == Drawn(s.transfers, l) + if l == |s.toDelete| then amount else 0
    ensures Covered(s')
  {
    assert s.funders[|s.toDelete| - |s.toDelete|] == s.funders[0];
    assert forall k :: 0 < k < |s.funders| ==> s'.funders[k - 1] == s.funders[k];
  }

  /** The account in use joins those to delete only when nothing usable is left of it. */
  lemma FundKeepsExhausted(s: State, w: World)
    requires s.waiting != [] && s.funders != [] && Covered(s) && Exhausted(s.toDelete, s.loads, s.transfers)
    ensures var s' := Fund(s, w); Exhausted(s'.toDelete, s'.loads, s'.transfers)
  {
    var s', d := Fund(s, w), |s.toDelete|;
    forall l | 0 <= l < |s'.toDelete|
      ensures s'.toDelete[l] == s.loads[l].account
      ensures s.loads[l].balance < Drawn(s'.transfers, l) + 100_000_000_000_000_000_000_000
    {
      BookedLoad(s, w, l);
      assert l == d ==> s.funders[l - d] == s.funders[0];
    }
  }

  lemma FundKeepsSources(s: State, w: World)
    requires s.waiting != [] && s.funders != [] && LoadedInOrder(s) && Sourced(s) && Ordered(s)
    ensures Sourced(Fund(s, w)) && Ordered(Fund(s, w))
  {
    var s', t, d := Fund(s, w), Call(s, w), |s.toDelete|;
    assert s.funders[d - d].account == s.loads[d].account;
    assert s'.loads == s.loads && |s'.toDelete| >= d && |s'.funded| >= |s.funded|;
    assert s'.transfers == s.transfers + [t] || s'.transfers == s.transfers;
    forall i | 0 <= i < |s'.transfers|
      ensures s'.transfers[i].load < |s.loads| && s'.transfers[i].from == s.loads[s'.transfers[i].load].account
      ensures s'.transfers[i].request <= |s.funded| && s'.transfers[i].load <= d
    {
      assert i < |s.transfers| ==> s'.transfers[i] == s.transfers[i];
    }
  }

  /** A request already done stays done; the current call is booked on a later one. */
  lemma DoneStays(s: State, w: World, j: nat, r: Request, need: nat, id: AccountId)
    requires s.waiting != [] && s.funders != [] && j < |s.funded|
    requires Done(s.transfers, j, r, need, id)
    ensures Done(Fund(s, w).transfers, j, r, need, id)
  {
    CallMade(s, w);
    BookedRequest(s, w, j);
  }

  lemma StillPaidTo(s: State, w: World)
    requires s.waiting != [] && s.funders != []
    requires if s.waiting[0].request.NewAccount? then Untouched(s.transfers, |s.funded|)
             else PaidTo(s.transfers, |s.funded|, s.waiting[0].request.accountId)
    ensures PaidTo(Fund(s, w).transfers, |s.funded|, Call(s, w).to)
  {
    CallMade(s, w);
  }

  /** The current request moves on: served in part it waits again under its account, served in full it is done. */
  lemma CurrentMovesOn(s: State, w: World, r: Request, need: nat)
    requires s.waiting != [] && s.funders != []
    requires Underway(s.transfers, |s.funded|, r, need, s.waiting[0])
    ensures var s', t, j := Fund(s, w), Call(s, w), |s.funded|;
            if t.amount < s.waiting[0].need then s'.waiting != [] && Underway(s'.transfers, j, r, need, s'.waiting[0])
            else Done(s'.transfers, j, r, need, t.to)
  {
    var s', t, j := Fund(s, w), Call(s, w), |s.funded|;
    BookedRequest(s, w, j);
    StillPaidTo(s, w);
    if t.amount < s.waiting[0].need {
      assert s'.waiting[0] == Waiting(ExistingAccount(t.to, 0, 0), s.waiting[0].need - t.amount);
    }
  }

  lemma FundKeepsOrder(s: State, w: World, plan: seq<Waiting>)
    requires s.waiting != [] && s.funders != [] && Ordered(s) && InOrder(s, plan)
    ensures InOrder(Fund(s, w), plan)
  {
    var s', t, j := Fund(s, w), Call(s, w), |s.funded|;
    CurrentMovesOn(s, w, plan[j].request, plan[j].need);
    forall k | 0 <= k < j ensures Done(s'.transfers, k, plan[k].request, plan[k].need, s.funded[k]) {
      DoneStays(s, w, k, plan[k].request, plan[k].need, s.funded[k]);
    }
    if t.amount < s.waiting[0].need {
      assert s'.waiting[1..] == s.waiting[1..];
    } else if s'.waiting != [] {
      assert s'.waiting == plan[j + 1..];
      assert s'.waiting[0] == plan[j + 1] && s'.waiting[1..] == plan[j + 2..];
      NextIsUntouched(s, w);
    }
  }

  lemma NextIsUntouched(s: State, w: World)
    requires s.waiting != [] && s.funders != [] && Ordered(s)
    ensures var ts, j := Fund(s, w).transfers, |s.funded| + 1;
            Untouched(ts, j) && Received(ts, j) == 0 && Creations(ts, j) == 0
  {
    CallMade(s, w);
    NothingBeyond(Fund(s, w).transfers, 0, |s.funded| + 1);
  }

  /** Every pass keeps the books: order, exact payment, single creation, coverage and conservation. */
  lemma PassKeeps(s: State, w: World, plan: seq<Waiting>)
    requires s.waiting != [] && Invariant(s, plan)
    ensures Invariant(Pass(s, w), plan)
  {
    ReplenishKeeps(s, w, plan);
    var s1 := Replenished(s, w);
    if s1.funders[0].balance >= MINIMUM {
      FundConserves(s1, w);
      FundKeepsCover(s1, w);
      FundKeepsExhausted(s1, w);
      FundKeepsSources(s1, w);
      FundKeepsOrder(s1, w, plan);
    } else {
      DiscardKeeps(s1, plan);
    }
  }

  lemma DiscardKeeps(s: State, plan: seq<Waiting>)
    requires s.funders != [] && s.funders[0].balance < MINIMUM && Invariant(s, plan)
    ensures Invariant(s.(funders := s.funders[1..], toDelete := s.toDelete + [s.funders[0].account]), plan)
  {
    var s' := s.(funders := s.funders[1..], toDelete := s.toDelete + [s.funders[0].account]);
    assert s.funders[|s.toDelete| - |s.toDelete|] == s.funders[0];
    assert forall k :: 0 < k < |s.funders| ==> s'.funders[k - 1] == s.funders[k];
    assert LoadedInOrder(s');
  }

  // ----- When the loop ends -----

  /** The `k`-th replenishment, after `sent` was sent, gives an account the loop can use: 0.2 NEAR or more. */
  predicate UsableAt(w: World, k: nat, sent: nat) {
    w.replenish(k, sent).1 >= 200_000_000_000_000_000_000_000
  }

  lemma OnePassMore(s: State, w: World)
    requires s.waiting != []
    ensures Terminates(s, w) <==> Terminates(Pass(s, w), w)
  {
    if Terminates(s, w) {
      var n: nat :| Iter(s, w, n).waiting == [];
      assert Iter(Pass(s, w), w, n - 1).waiting == [];
    }
    if Terminates(Pass(s, w), w) {
      var n: nat :| Iter(Pass(s, w), w, n).waiting == [];
      assert Iter(s, w, n + 1).waiting == [];
    }
  }

  /** A pass that finds a usable account leaves less to do: less need, or fewer waiting requests. */
  lemma FundProgresses(s: State, w: World)
    requires s.waiting != [] && s.funders != [] && s.funders[0].balance >= MINIMUM
    ensures NeedLeft(Fund(s, w).waiting) + |Fund(s, w).waiting| < NeedLeft(s.waiting) + |s.waiting|
  {
    FundConserves(s, w);
  }

  /** If every replenished account is usable, the loop ends on every input. */
  lemma {:induction false} EndsWhenReplenished(s: State, w: World)
    requires forall k: nat, sent: nat :: UsableAt(w, k, sent)
    ensures Terminates(s, w)
    decreases NeedLeft(s.waiting) + |s.waiting|, |s.funders|
  {
    if s.waiting == [] {
      assert Iter(s, w, 0).waiting == [];
    } else {
      assert UsableAt(w, s.replenished, Total(s.transfers));
      var s1 := Replenished(s, w);
      if s1.funders[0].balance >= MINIMUM { FundProgresses(s1, w); }
      EndsWhenReplenished(Pass(s, w), w);
      OnePassMore(s, w);
    }
  }

  /** Without funding accounts, replenishments below the minimum leave the loop where it is, pass after pass. */
  lemma {:induction false} StuckFor(s: State, w: World, n: nat)
    requires s.waiting != [] && s.funders == []
    requires forall k :: s.replenished <= k < s.replenished + n ==> !UsableAt(w, k, Total(s.transfers))
    ensures var s' := Iter(s, w, n);
            s'.waiting == s.waiting && s'.funders == [] && s'.transfers == s.transfers &&
                s'.replenished == s.replenished + n
    decreases n
  {
    if n > 0 {
      assert !UsableAt(w, s.replenished, Total(s.transfers));
      StuckFor(Pass(s, w), w, n - 1);
    }
  }

  lemma {:induction false} IterAdds(s: State, w: World, m: nat, n: nat)
    ensures Iter(Iter(s, w, m), w, n) == Iter(s, w, m + n)
    decreases m
  {
    if m > 0 && s.waiting != [] { IterAdds(Pass(s, w), w, m - 1, n); }
  }

  lemma {:induction false} FirstUsable(w: World, from: nat, k: nat, sent: nat) returns (first: nat)
    requires from <= k && UsableAt(w, k, sent)
    ensures from <= first <= k && UsableAt(w, first, sent)
    ensures forall i :: from <= i < first ==> !UsableAt(w, i, sent)
    decreases k
  {
    if i: nat :| from <= i < k && UsableAt(w, i, sent) {
      first := FirstUsable(w, from, i, sent);
    } else {
      first := k;
    }
  }

  lemma MovesOnAt(s: State, w: World, n: nat)
    requires s.waiting != [] && s.funders == [] && UsableAt(w, s.replenished + n, Total(s.transfers))
    requires forall k :: s.replenished <= k < s.replenished + n ==> !UsableAt(w, k, Total(s.transfers))
    ensures Iter(s, w, n + 1).waiting != s.waiting
  {
    StuckFor(s, w, n);
    var s1 := Iter(s, w, n);
    FundProgresses(Replenished(s1, w), w);
    IterAdds(s, w, n, 1);
    assert Iter(s1, w, 1) == Iter(Pass(s1, w), w, 0);
  }

  /** Exactly when a loop without funding accounts ever gets on: when some later replenishment is usable. */
  lemma MovesOnIff(s: State, w: World)
    requires s.waiting != [] && s.funders == []
    ensures (exists n: nat :: Iter(s, w, n).waiting != s.waiting) <==>
            (exists k: nat :: k >= s.replenished && UsableAt(w, k, Total(s.transfers)))
  {
    if k: nat :| k >= s.replenished && UsableAt(w, k, Total(s.transfers)) {
      var first := FirstUsable(w, s.replenished, k, Total(s.transfers));
      MovesOnAt(s, w, first - s.replenished);
    }
    if n: nat :| Iter(s, w, n).waiting != s.waiting {
      if forall k :: s.replenished <= k < s.replenished + n ==> !UsableAt(w, k, Total(s.transfers)) {
        StuckFor(s, w, n);
      }
    }
  }

  // ----- Stored accounts first, then one configured account with balance `b` -----

  function Amounts(ws: seq<Waiting>): (needs: seq<nat>)
    ensures |needs| == |ws| && forall i :: 0 <= i < |ws| ==> needs[i] == ws[i].need
  {
    if ws == [] then [] else [ws[0].need] + Amounts(ws[1..])
  }

  /**
   * What the stored accounts with these usable balances leave unpaid of these needs. An account below the minimum is
   * skipped; every other one pays as far as it goes.
   */
  function Unpaid(balances: seq<nat>, needs: seq<nat>): seq<nat>
    decreases |balances| + |needs|
  {
    if balances == [] || needs == [] then needs
    else if balances[0] < MINIMUM then Unpaid(balances[1..], needs)
    else if balances[0] < needs[0] then Unpaid(balances[1..], [needs[0] - balances[0]] + needs[1..])
    else Unpaid((if balances[0] > needs[0] then [balances[0] - needs[0]] else []) + balances[1..], needs[1..])
  }

  function Balances(fs: seq<Funder>): (bs: seq<nat>)
    ensures |bs| == |fs| && forall i :: 0 <= i < |fs| ==> bs[i] == fs[i].balance
  {
    if fs == [] then [] else [fs[0].balance] + Balances(fs[1..])
  }

  /** The loop's state when the stored accounts are used up, or everything is paid. */
  ghost function UsedUp(s: State, w: World): State
    decreases |s.funders| + |s.waiting|
  {
    if s.funders == [] || s.waiting == [] then s
    else StoredPass(s, w); UsedUp(Pass(s, w), w)
  }

  /** A pass on a stored account loads nothing and leaves fewer accounts or fewer requests. */
  lemma StoredPass(s: State, w: World)
    requires s.funders != [] && s.waiting != []
    ensures var s' := Pass(s, w);
            && |s'.funders| + |s'.waiting| < |s.funders| + |s.waiting|
            && s'.replenished == s.replenished && s'.loads == s.loads
            && Total(s.transfers) <= Total(s'.transfers)
  {
    if s.funders[0].balance >= MINIMUM { FundConserves(s, w); }
  }

  lemma UnpaidPass(s: State, w: World)
    requires s.funders != [] && s.waiting != []
    ensures var s' := Pass(s, w);
            Unpaid(Balances(s'.funders), Amounts(s'.waiting)) == Unpaid(Balances(s.funders), Amounts(s.waiting))
  {
    var s', bs, needs := Pass(s, w), Balances(s.funders), Amounts(s.waiting);
    assert bs[1..] == Balances(s.funders[1..]) && needs[1..] == Amounts(s.waiting[1..]);
    if bs[0] < MINIMUM {
      assert Balances(s'.funders) == bs[1..];
    } else if bs[0] < needs[0] {
      assert Balances(s'.funders) == bs[1..] && Amounts(s'.waiting) == [needs[0] - bs[0]] + needs[1..];
    } else {
      assert Amounts(s'.waiting) == needs[1..];
      assert Balances(s'.funders) == (if bs[0] > needs[0] then [bs[0] - needs[0]] else []) + bs[1..];
    }
  }

  /** The stored accounts are used up after finitely many passes, and leave unpaid what `Unpaid` says. */
  lemma {:induction false} StoredAreUsedUp(s: State, w: World)
    ensures var e := UsedUp(s, w);
            && (e.funders == [] || e.waiting == [])
            && Amounts(e.waiting) == Unpaid(Balances(s.funders), Amounts(s.waiting))
            && (Terminates(s, w) <==> Terminates(e, w))
    decreases |s.funders| + |s.waiting|
  {
    if s.funders != [] && s.waiting != [] {
      StoredPass(s, w);
      UnpaidPass(s, w);
      OnePassMore(s, w);
      StoredAreUsedUp(Pass(s, w), w);
    }
  }

  /**
   * The configured account has balance `b` when `base` has been sent, and still has on the chain what was not sent
   * since. Until then it is not asked for.
   */
  ghost predicate Configured(w: World, account: AccountId, b: nat, base: nat) {
    forall k: nat, sent: nat :: sent >= base ==>
        w.replenish(k, sent) == (account, if sent - base <= b then b - (sent - base) else 0)
  }

  /** Every request in turn finds the minimum and its whole need still usable. */
  predicate Enough(left: nat, needs: seq<nat>) {
    needs == [] || (left >= MINIMUM && left >= needs[0] && Enough(left - needs[0], needs[1..]))
  }

  /** Only the configured account is left, with `left` usable. */
  ghost predicate Alone(s: State, account: AccountId, b: nat, base: nat, left: nat) {
    && left + (Total(s.transfers) - base) == Usable(b) && base <= Total(s.transfers)
    && (s.funders == [] || (left > 0 && s.funders == [Funder(account, left)]))
  }

  lemma StuckForever(s: State, w: World, account: AccountId, b: nat, base: nat, left: nat)
    requires Configured(w, account, b, base) && Alone(s, account, b, base, left) && left < MINIMUM
    requires s.waiting != [] && s.funders == []
    ensures !Terminates(s, w)
  {
    forall n: nat ensures Iter(s, w, n).waiting != [] {
      assert forall k :: s.replenished <= k < s.replenished + n ==> !UsableAt(w, k, Total(s.transfers));
      StuckFor(s, w, n);
    }
  }

  /** Without funders the configured account is loaded with what it has left. */
  lemma AloneLoads(s: State, w: World, account: AccountId, b: nat, base: nat, left: nat)
    requires Configured(w, account, b, base) && Alone(s, account, b, base, left)
    ensures var s1 := Replenished(s, w);
            s1.funders == [Funder(account, left)] && s1.waiting == s.waiting && s1.transfers == s.transfers
  {}

  lemma AlonePartly(s: State, w: World, account: AccountId, b: nat, base: nat, left: nat)
    requires left + (Total(s.transfers) - base) == Usable(b) && base <= Total(s.transfers)
    requires s.funders == [Funder(account, left)] && s.waiting != [] && left < s.waiting[0].need
    ensures var next := Fund(s, w); Alone(next, account, b, base, 0) && next.funders == [] && next.waiting != []
  {
    FundConserves(s, w);
    assert Call(s, w).amount == left && s.funders[1..] == [];
  }

  lemma AloneWholly(s: State, w: World, account: AccountId, b: nat, base: nat, left: nat)
    requires left + (Total(s.transfers) - base) == Usable(b) && base <= Total(s.transfers)
    requires s.funders == [Funder(account, left)] && s.waiting != [] && left >= s.waiting[0].need
    ensures var next, need := Fund(s, w), s.waiting[0].need;
            Alone(next, account, b, base, left - need) && next.waiting == s.waiting[1..]
  {
    FundConserves(s, w);
    assert Call(s, w).amount == s.waiting[0].need && s.funders[1..] == [];
  }

  /** One pass with only the configured account. */
  lemma AlonePass(s: State, w: World, account: AccountId, b: nat, base: nat, left: nat)
    requires Configured(w, account, b, base) && Alone(s, account, b, base, left) && s.waiting != []
    ensures var next, need := Pass(s, w), s.waiting[0].need;
            if left < MINIMUM
                then Alone(next, account, b, base, left) && next.funders == [] && next.waiting == s.waiting
            else if left < need then Alone(next, account, b, base, 0) && next.funders == [] && next.waiting != []
            else Alone(next, account, b, base, left - need) && next.waiting == s.waiting[1..]
  {
    AloneLoads(s, w, account, b, base, left);
    if left >= MINIMUM {
      if left < s.waiting[0].need {
        AlonePartly(Replenished(s, w), w, account, b, base, left);
      } else {
        AloneWholly(Replenished(s, w), w, account, b, base, left);
      }
    }
  }

  lemma EnoughStep(left: nat, ws: seq<Waiting>)
    requires ws != []
    ensures Enough(left, Amounts(ws)) <==>
            left >= MINIMUM && left >= ws[0].need && Enough(left - ws[0].need, Amounts(ws[1..]))
  {
    assert Amounts(ws)[1..] == Amounts(ws[1..]);
  }

  /** Too little for the next request: the loop goes on forever. */
  lemma AloneStuck(s: State, w: World, account: AccountId, b: nat, base: nat, left: nat)
    requires Configured(w, account, b, base) && Alone(s, account, b, base, left) && s.waiting != []
    requires left < MINIMUM || left < s.waiting[0].need
    ensures !Terminates(s, w)
  {
    AlonePass(s, w, account, b, base, left);
    StuckForever(Pass(s, w), w, account, b, base, if left < MINIMUM then left else 0);
    OnePassMore(s, w);
  }

  /** With the configured account alone the loop ends exactly when that account is enough. */
  lemma {:induction false} AloneEndsIff(s: State, w: World, account: AccountId, b: nat, base: nat, left: nat)
    requires Configured(w, account, b, base) && Alone(s, account, b, base, left)
    ensures Terminates(s, w) <==> Enough(left, Amounts(s.waiting))
    decreases |s.waiting|
  {
    if s.waiting == [] {
      assert Iter(s, w, 0).waiting == [];
    } else {
      EnoughStep(left, s.waiting);
      if left < MINIMUM || left < s.waiting[0].need {
        AloneStuck(s, w, account, b, base, left);
      } else {
        OnePassMore(s, w);
        AlonePass(s, w, account, b, base, left);
        AloneEndsIff(Pass(s, w), w, account, b, base, left - s.waiting[0].need);
      }
    }
  }

  /**
   * Starting with any stored accounts and one configured account, the loop ends exactly when the usable balance of the
   * configured account is enough for what the stored accounts leave unpaid. Otherwise it discards the configured
   * account and loads it again forever.
   */
  lemma ConfiguredEndsIff(s: State, w: World, account: AccountId, b: nat)
    requires Configured(w, account, b, Total(UsedUp(s, w).transfers))
    ensures var left := if b < 100_000_000_000_000_000_000_000 then 0 else b - 100_000_000_000_000_000_000_000;
            Terminates(s, w) <==> Enough(left, Unpaid(Balances(s.funders), Amounts(s.waiting)))
  {
    var e := UsedUp(s, w);
    StoredAreUsedUp(s, w);
    if e.waiting == [] {
      assert Iter(e, w, 0).waiting == [];
    } else {
      AloneEndsIff(e, w, account, b, Total(e.transfers), Usable(b));
    }
  }

  // ----- The whole call -----

  /** What a request is owed: a new account its initial balance, an existing one below its limit what it lacks. */
  ghost function Owed(r: Request, balanceOf: AccountId -> nat): int {
    match r
    case NewAccount(initial, _) => initial
    case ExistingAccount(id, desired, limit) => if balanceOf(id) < limit then desired - balanceOf(id) else 0
  }

  ghost function TotalOwed(requests: seq<Request>, balanceOf: AccountId -> nat): int {
    if requests == [] then 0 else Owed(requests[0], balanceOf) + TotalOwed(requests[1..], balanceOf)
  }

  /** No account lacks a negative amount. */
  ghost predicate NoneOver(requests: seq<Request>, balanceOf: AccountId -> nat) {
    forall j :: 0 <= j < |requests| ==> Owed(requests[j], balanceOf) >= 0
  }

  /** No account lacks a negative amount, and together they lack at most 100 NEAR. */
  ghost predicate Accepted(requests: seq<Request>, balanceOf: AccountId -> nat) {
    NoneOver(requests, balanceOf) && TotalOwed(requests, balanceOf) <= 100_000_000_000_000_000_000_000_000
  }

  ghost predicate PlanOf(requests: seq<Request>, balanceOf: AccountId -> nat, plan: seq<Waiting>) {
    |plan| == |requests| && forall j :: 0 <= j < |plan| ==>
      plan[j].request == requests[j] && plan[j].need == Owed(requests[j], balanceOf)
  }

  ghost function Plan(requests: seq<Request>, balanceOf: AccountId -> nat): (plan: seq<Waiting>)
    requires NoneOver(requests, balanceOf)
    ensures PlanOf(requests, balanceOf, plan)
  {
    seq(|requests|, j requires 0 <= j < |requests| => Waiting(requests[j], Owed(requests[j], balanceOf)))
  }

  lemma {:induction false} PlanTotal(requests: seq<Request>, balanceOf: AccountId -> nat, plan: seq<Waiting>)
    requires PlanOf(requests, balanceOf, plan)
    ensures NeedLeft(plan) == TotalOwed(requests, balanceOf)
  {
    if plan != [] { PlanTotal(requests[1..], balanceOf, plan[1..]); }
  }

  ghost function Start(balances: seq<Funder>, plan: seq<Waiting>): State {
    var funders := seq(|balances|,
        i requires 0 <= i < |balances| => Funder(balances[i].account, Usable(balances[i].balance)));
    State(funders, plan, [], [], [], funders, 0)
  }

  lemma UnusedInOrder(s: State)
    requires s.toDelete == [] && s.loads == s.funders
    ensures LoadedInOrder(s)
  {}

  lemma UnusedIsCovered(s: State)
    requires s.transfers == [] && s.toDelete == [] && s.loads == s.funders
    ensures Covered(s)
  {
    UnusedInOrder(s);
    forall l | 0 <= l < |s.loads| ensures Drawn(s.transfers, l) == 0 {}
  }

  lemma UnservedIsInOrder(s: State, plan: seq<Waiting>)
    requires s.transfers == [] && s.funded == [] && s.waiting == plan
    ensures InOrder(s, plan)
  {
    if plan != [] {
      assert Received([], 0) == 0 && Creations([], 0) == 0;
      assert Underway([], 0, plan[0].request, plan[0].need, plan[0]);
    }
  }

  lemma StartIsSound(balances: seq<Funder>, plan: seq<Waiting>)
    ensures Invariant(Start(balances, plan), plan)
  {
    var s := Start(balances, plan);
    assert Ordered(s) && Sourced(s);
    UnusedIsCovered(s);
    UnservedIsInOrder(s, plan);
  }

  /** What the caller gets: every request done, in the order asked. */
  ghost predicate Fulfilled(requests: seq<Request>, balanceOf: AccountId -> nat, funded: seq<AccountId>,
        transfers: seq<Transfer>) {
    && |funded| == |requests|
    && (forall j :: 0 <= j < |requests| ==>
          && Received(transfers, j) == Owed(requests[j], balanceOf)
          && Creations(transfers, j) == (if requests[j].NewAccount? then 1 else 0)
          && (requests[j].ExistingAccount? ==> funded[j] == requests[j].accountId)
          && PaidTo(transfers, j, funded[j]))
    && Total(transfers) == TotalOwed(requests, balanceOf)
  }

  lemma FulfilledMeaning(requests: seq<Request>, balanceOf: AccountId -> nat, plan: seq<Waiting>, s: State)
    requires PlanOf(requests, balanceOf, plan) && Invariant(s, plan) && s.waiting == []
    ensures Fulfilled(requests, balanceOf, s.funded, s.transfers)
  {
    PlanTotal(requests, balanceOf, plan);
    forall j | 0 <= j < |requests| ensures Done(s.transfers, j, requests[j], plan[j].need, s.funded[j]) {}
  }

  /** The collection of needs at the start of `fund_accounts`; `None` is a panic. */
  method CollectNeeds(requests: seq<Request>, balanceOf: AccountId -> nat) returns (r: Option<seq<Waiting>>)
    ensures r.Some? <==> NoneOver(requests, balanceOf)
    ensures r.Some? ==> PlanOf(requests, balanceOf, r.value)
  {
    var plan := [];
    for n := 0 to |requests|
      invariant PlanOf(requests[..n], balanceOf, plan)
    {
      var request := requests[n];
      var need := Need(request, if request.ExistingAccount? then balanceOf(request.accountId) else 0);
      if need.None? {
        assert Owed(requests[n], balanceOf) < 0;
        return None;
      }
      plan := plan + [Waiting(request, need.value)];
    }
    assert requests[..|requests|] == requests;
    return Some(plan);
  }

  lemma {:induction false} IterKeeps(s: State, w: World, n: nat, plan: seq<Waiting>)
    requires Invariant(s, plan)
    ensures Invariant(Iter(s, w, n), plan)
    decreases n
  {
    if n > 0 && s.waiting != [] {
      PassKeeps(s, w, plan);
      IterKeeps(Pass(s, w), w, n - 1, plan);
    }
  }

  /** The account and usable balance that the `k`-th replenishment brings. */
  ghost predicate Brought(w: World, k: nat, f: Funder) {
    exists sent: nat :: var (account, balance) := w.replenish(k, sent); f == Funder(account, Usable(balance))
  }

  /** The accounts loaded are the first ones, then one per replenishment. */
  ghost predicate Loaded(w: World, first: seq<Funder>, loads: seq<Funder>) {
    first <= loads && forall l :: |first| <= l < |loads| ==> Brought(w, l - |first|, loads[l])
  }

  lemma {:induction false} LoadsAreBrought(s: State, w: World, n: nat, first: seq<Funder>)
    requires Loaded(w, first, s.loads) && |s.loads| == |first| + s.replenished
    ensures Loaded(w, first, Iter(s, w, n).loads)
    decreases n
  {
    if n > 0 && s.waiting != [] {
      if s.funders == [] {
        assert Brought(w, s.replenished, Replenished(s, w).funders[0]);
      }
      LoadsAreBrought(Pass(s, w), w, n - 1, first);
    }
  }

  /** One pass once a usable funding account is at hand; `s` is the state as a value. */
  method Serve(funders: seq<Funder>, waiting: seq<Waiting>, funded: seq<AccountId>, toDelete: seq<AccountId>,
               transfers: seq<Transfer>, w: World, ghost s: State)
    returns (funders': seq<Funder>, waiting': seq<Waiting>, funded': seq<AccountId>, toDelete': seq<AccountId>,
             transfers': seq<Transfer>, amount: nat)
    requires funders != [] && waiting != []
    requires s.funders == funders && s.waiting == waiting && s.funded == funded && s.toDelete == toDelete &&
             s.transfers == transfers
    ensures Fund(s, w) == s.(funders := funders', waiting := waiting', funded := funded', toDelete := toDelete',
            transfers := transfers')
    ensures Total(transfers') == Total(transfers) + amount
  {
    var f, next := funders[0], waiting[0];
    funders', waiting', funded', toDelete', transfers' := funders[1..], waiting[1..], funded, toDelete, transfers;
    amount := if f.balance < next.need then f.balance else next.need;
    if f.balance - amount > 0 {
      funders' := [Funder(f.account, f.balance - amount)] + funders';
    } else {
      toDelete' := toDelete + [f.account];
    }
    var id := if next.request.NewAccount? then w.newName(|transfers|) else next.request.accountId;
    if next.request.NewAccount? || amount > 0 {
      var t := Transfer(f.account, id, amount, next.request.NewAccount?, |funded|, |toDelete|);
      AppendTotal(transfers, t);
      transfers' := transfers + [t];
    }
    if next.need - amount > 0 {
      waiting' := [Waiting(ExistingAccount(id, 0, 0), next.need - amount)] + waiting';
    } else {
      funded' := funded + [id];
    }
  }

  /** The loop itself: `n` passes, ending with nothing waiting. */
  method FundLoop(initial: seq<Funder>, plan: seq<Waiting>, w: World, ghost n: nat)
    returns (funded: seq<AccountId>, transfers: seq<Transfer>, toDelete: seq<AccountId>)
    requires Iter(State(initial, plan, [], [], [], initial, 0), w, n).waiting == []
    ensures var end := Iter(State(initial, plan, [], [], [], initial, 0), w, n);
            funded == end.funded && transfers == end.transfers && toDelete == end.toDelete
  {
    var funders, waiting, replenished, sent := initial, plan, 0, 0;
    funded, transfers, toDelete := [], [], [];
    ghost var s := State(initial, plan, [], [], [], initial, 0);
    ghost var left, end := n, Iter(s, w, n);
    while waiting != []
      invariant s == State(funders, waiting, funded, toDelete, transfers, s.loads, replenished)
      invariant sent == Total(transfers)
      invariant Iter(s, w, left) == end && end.waiting == []
      decreases left
    {
      ghost var s1 := Replenished(s, w);
      s := Pass(s, w);
      left := left - 1;
      if funders == [] {
        var (account, balance) := w.replenish(replenished, sent);
        funders := [Funder(account, Usable(balance))];
        replenished := replenished + 1;
      }
      if funders[0].balance < MINIMUM {
        toDelete := toDelete + [funders[0].account];
        funders := funders[1..];
      } else {
        var amount;
        funders, waiting, funded, toDelete, transfers, amount :=
          Serve(funders, waiting, funded, toDelete, transfers, w, s1);
        sent := sent + amount;
      }
    }
  }

  method SumNeeds(plan: seq<Waiting>) returns (total: nat)
    ensures total == NeedLeft(plan)
  {
    total := 0;
    var rest := plan;
    while rest != []
      invariant total + NeedLeft(rest) == NeedLeft(plan)
      decreases |rest|
    {
      total := total + rest[0].need;
      rest := rest[1..];
    }
  }

  /** An account that had `balance` keeps 0.1 NEAR of it after paying out `drawn`, unless it paid nothing. */
  ghost predicate KeepsReserve(drawn: nat, balance: nat) {
    drawn == 0 || drawn + 100_000_000_000_000_000_000_000 <= balance
  }

  /** Load `l` is the account that the `k`-th replenishment brought, and keeps its reserve. */
  ghost predicate BroughtPays(w: World, k: nat, ts: seq<Transfer>, l: nat, account: AccountId) {
    exists sent: nat :: w.replenish(k, sent).0 == account && KeepsReserve(Drawn(ts, l), w.replenish(k, sent).1)
  }

  /** The first loads are the stored accounts, the others come from replenishments, and all of them keep a reserve. */
  ghost predicate PaidFrom(w: World, balances: seq<Funder>, loads: seq<Funder>, ts: seq<Transfer>) {
    && |balances| <= |loads|
    && (forall l :: 0 <= l < |balances| ==>
          loads[l].account == balances[l].account && KeepsReserve(Drawn(ts, l), balances[l].balance))
    && (forall l :: |balances| <= l < |loads| ==> BroughtPays(w, l - |balances|, ts, l, loads[l].account))
    && (forall i :: 0 <= i < |ts| ==> ts[i].load < |loads| && ts[i].from == loads[ts[i].load].account)
  }

  lemma PaidFromMeaning(w: World, balances: seq<Funder>, plan: seq<Waiting>, s: State)
    requires Invariant(s, plan) && Loaded(w, Start(balances, plan).loads, s.loads)
    ensures PaidFrom(w, balances, s.loads, s.transfers)
  {
    var first := Start(balances, plan).loads;
    forall l | 0 <= l < |balances|
      ensures s.loads[l].account == balances[l].account && KeepsReserve(Drawn(s.transfers, l), balances[l].balance)
    {
      assert s.loads[l] == first[l];
    }
    forall l | |balances| <= l < |s.loads|
      ensures BroughtPays(w, l - |balances|, s.transfers, l, s.loads[l].account)
    {
      assert Brought(w, l - |balances|, s.loads[l]);
      var sent: nat :| var (account, balance) := w.replenish(l - |balances|, sent);
                       s.loads[l] == Funder(account, Usable(balance));
      assert KeepsReserve(Drawn(s.transfers, l), w.replenish(l - |balances|, sent).1);
    }
  }

  /**
   * `fund_accounts`, for inputs on which its loop ends (see `EndsWhenReplenished`, `MovesOnIff` and
   * `ConfiguredEndsIff`). It refuses exactly the requests that underflow or ask for more than 100 NEAR; otherwise
   * every request receives what it is owed, in order, and every funding account that pays keeps its reserve.
   */
  method FundAccounts(balances: seq<Funder>, requests: seq<Request>, balanceOf: AccountId -> nat, w: World)
    returns (r: Option<(seq<AccountId>, seq<Transfer>, seq<AccountId>)>, ghost loads: seq<Funder>)
    requires Accepted(requests, balanceOf) ==> Terminates(Start(balances, Plan(requests, balanceOf)), w)
    ensures r.Some? <==> Accepted(requests, balanceOf)
    ensures r.Some? ==> Fulfilled(requests, balanceOf, r.value.0, r.value.1)
    ensures r.Some? ==> PaidFrom(w, balances, loads, r.value.1)
    ensures r.Some? ==> Exhausted(r.value.2, loads, r.value.1)
  {
    loads := [];
    var plan := CollectNeeds(requests, balanceOf);
    if plan.None? {
      return None, loads;
    }
    PlanTotal(requests, balanceOf, plan.value);
    var total := SumNeeds(plan.value);
    if total > 100 * ONE_NEAR {
      return None, loads;
    }
    assert plan.value == Plan(requests, balanceOf);
    var funders := seq(|balances|,
        i requires 0 <= i < |balances| => Funder(balances[i].account, Usable(balances[i].balance)));
    ghost var start := Start(balances, plan.value);
    ghost var n: nat :| Iter(start, w, n).waiting == [];
    ghost var end := Iter(start, w, n);
    StartIsSound(balances, plan.value);
    IterKeeps(start, w, n, plan.value);
    LoadsAreBrought(start, w, n, start.loads);
    FulfilledMeaning(requests, balanceOf, plan.value, end);
    PaidFromMeaning(w, balances, plan.value, end);
    loads := end.loads;
    var funded, transfers, toDelete := FundLoop(funders, plan.value, w, n);
    return Some((funded, transfers, toDelete)), loads;
  }
}
