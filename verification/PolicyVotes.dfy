/** The foreign chain policy: applied when every current participant votes for the very same policy. */
module PolicyVotes {
  import opened Wrappers
  import opened Accounts

  datatype Table<P> = Table(votes: map<AccountId, P>, policy: P)

  predicate VotesFor<P(==)>(votes: map<AccountId, P>, a: AccountId, policy: P) {
    a in votes && votes[a] == policy
  }

  ghost predicate Unanimous<P>(participants: seq<AccountId>, votes: map<AccountId, P>, policy: P) {
    forall a :: a in participants ==> VotesFor(votes, a, policy)
  }

  /** A call by `caller`; `running` lists the participants if the protocol runs. */
  datatype Ballot<P> = Ballot(running: Option<seq<AccountId>>, caller: AccountId, proposal: P)

  predicate Admitted<P>(b: Ballot<P>) {
    b.running.Some? && b.caller in b.running.value
  }

  /** The specification of one call: replace the caller's vote; apply and clear once all participants agree. */
  ghost function Voted<P>(t: Table<P>, b: Ballot<P>): Table<P> {
    if !Admitted(b) then t else
      var votes := t.votes[b.caller := b.proposal];
      if Unanimous(b.running.value, votes, b.proposal) then Table(map[], b.proposal) else t.(votes := votes)
  }

  class ForeignChainPolicy<P(==)> {
    var proposalByAccount: map<AccountId, P>
    var policy: P

    ghost function View(): Table<P>
      reads this
    {
      Table(proposalByAccount, policy)
    }

    constructor (initial: P)
      ensures View() == Table(map[], initial)
    {
      proposalByAccount, policy := map[], initial;
    }

    /** Counts the agreeing participants and compares with their number. */
    method VoteForeignChainPolicy(running: Option<seq<AccountId>>, caller: AccountId, proposal: P) returns (ok: bool)
      modifies this
      ensures ok == Admitted(Ballot(running, caller, proposal))
      ensures View() == Voted(old(View()), Ballot(running, caller, proposal))
    {
      if running.None? || caller !in running.value {
        return false;
      }
      proposalByAccount := proposalByAccount[caller := proposal];
      var participants := running.value;
      var total := 0;
      for n := 0 to |participants|
        invariant total <= n
        invariant total == n <==> Unanimous(participants[..n], proposalByAccount, proposal)
      {
        assert participants[..n + 1] == participants[..n] + [participants[n]];
        if VotesFor(proposalByAccount, participants[n], proposal) {
          total := total + 1;
        }
      }
      assert participants[..|participants|] == participants;
      if total == |participants| {
        policy := proposal;
        proposalByAccount := map[];
      }
      return true;
    }
  }

  // ----- Whole runs -----

  datatype Event<P> = Cast(voter: AccountId, proposal: P) | Applied(policy: P)

  ghost function Events<P>(t: Table<P>, b: Ballot<P>): seq<Event<P>> {
    if !Admitted(b) then []
    else if Unanimous(b.running.value, t.votes[b.caller := b.proposal], b.proposal)
        then [Cast(b.caller, b.proposal), Applied(b.proposal)]
    else [Cast(b.caller, b.proposal)]
  }

  ghost function After<P>(t: Table<P>, ballots: seq<Ballot<P>>): Table<P> {
    if ballots == [] then t else Voted(After(t, ballots[..|ballots| - 1]), ballots[|ballots| - 1])
  }

  ghost function Log<P>(t: Table<P>, ballots: seq<Ballot<P>>): seq<Event<P>> {
    if ballots == [] then [] else
      var before := ballots[..|ballots| - 1];
      Log(t, before) + Events(After(t, before), ballots[|ballots| - 1])
  }

  /** An account's latest vote since the last application. */
  ghost function Standing<P>(log: seq<Event<P>>, a: AccountId): Option<P> {
    if log == [] then None else
      match log[|log| - 1]
      case Cast(voter, proposal) => if voter == a then Some(proposal) else Standing(log[..|log| - 1], a)
      case Applied(_) => None
  }

  /** The latest policy applied, or the first one. */
  ghost function Current<P>(first: P, log: seq<Event<P>>): P {
    if log == [] then first
    else if log[|log| - 1].Applied? then log[|log| - 1].policy
    else Current(first, log[..|log| - 1])
  }

  /** The table is exactly what the log says. */
  ghost predicate Explained<P>(first: P, t: Table<P>, log: seq<Event<P>>) {
    && t.policy == Current(first, log)
    && forall a :: Standing(log, a) == if a in t.votes then Some(t.votes[a]) else None
  }

  lemma CastExplained<P>(first: P, t: Table<P>, log: seq<Event<P>>, caller: AccountId, proposal: P)
    requires Explained(first, t, log)
    ensures Explained(first, t.(votes := t.votes[caller := proposal]), log + [Cast(caller, proposal)])
  {}

  lemma {:induction false} AlwaysExplained<P>(first: P, ballots: seq<Ballot<P>>)
    ensures Explained(first, After(Table(map[], first), ballots), Log(Table(map[], first), ballots))
  {
    if ballots != [] {
      var before, b := ballots[..|ballots| - 1], ballots[|ballots| - 1];
      AlwaysExplained(first, before);
      var t, log := After(Table(map[], first), before), Log(Table(map[], first), before);
      if Admitted(b) {
        CastExplained(first, t, log, b.caller, b.proposal);
        assert log + [Cast(b.caller, b.proposal)] + [Applied(b.proposal)]
               == log + [Cast(b.caller, b.proposal), Applied(b.proposal)];
      } else {
        assert log + [] == log;
      }
    }
  }

  /**
   * After any run, a ballot applies a policy exactly when the caller is a participant of the running protocol and,
   * with this vote, every current participant's vote since the previous application is for that policy.
   */
  lemma AppliedOnlyWhenAllAgree<P>(first: P, ballots: seq<Ballot<P>>, b: Ballot<P>)
    ensures var t := After(Table(map[], first), ballots);
            var log := Log(Table(map[], first), ballots);
            var applies := Admitted(b) && forall a :: a in b.running.value ==>
                Standing(log + [Cast(b.caller, b.proposal)], a) == Some(b.proposal);
            && (applies <==> Applied(b.proposal) in Events(t, b))
            && (applies ==> Voted(t, b) == Table(map[], b.proposal))
            && (!applies ==> Voted(t, b) == if Admitted(b) then t.(votes := t.votes[b.caller := b.proposal]) else t)
  {
    AlwaysExplained(first, ballots);
    if Admitted(b) {
      var t := After(Table(map[], first), ballots);
      var log := Log(Table(map[], first), ballots);
      var votes := t.votes[b.caller := b.proposal];
      CastExplained(first, t, log, b.caller, b.proposal);
      assert Unanimous(b.running.value, votes, b.proposal) <==>
        forall a :: a in b.running.value ==> Standing(log + [Cast(b.caller, b.proposal)], a) == Some(b.proposal);
    }
  }
}
