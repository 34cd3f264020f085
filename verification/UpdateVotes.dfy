/** Contract updates: proposals, one vote per account, execution at the threshold, and cleaning of stale votes. */
module UpdateVotes {
  import opened Wrappers
  import opened Accounts

  type UpdateId = nat

  const MAX_ID: nat := 0xFFFF_FFFF_FFFF_FFFF

  datatype Proposals<U> = Proposals(votes: map<AccountId, UpdateId>, entries: map<UpdateId, U>, nextId: UpdateId) {
    /** Every vote is for an existing entry and every entry was numbered by the counter. */
    ghost predicate Valid() {
      && (forall a :: a in votes ==> votes[a] in entries)
      && (forall id :: id in entries ==> id < nextId)
    }
  }

  /** The votes of participants only. */
  function Kept(votes: map<AccountId, UpdateId>, participants: seq<AccountId>): map<AccountId, UpdateId> {
    map a | a in votes && a in participants :: votes[a]
  }

  /** The table of proposed updates, changed in place. */
  class ProposedUpdates<U> {
    var voteByParticipant: map<AccountId, UpdateId>
    var entries: map<UpdateId, U>
    var id: UpdateId

    ghost function View(): Proposals<U>
      reads this
    {
      Proposals(voteByParticipant, entries, id)
    }

    constructor ()
      ensures View() == Proposals(map[], map[], 0)
    {
      voteByParticipant, entries, id := map[], map[], 0;
    }

    /** `None` is the overflow panic of the counter. A proposal brings no vote. */
    method Propose(update: U) returns (r: Option<UpdateId>)
      modifies this
      ensures if old(id) == MAX_ID then r.None? && View() == old(View())
              else && r == Some(old(id))
                   && View() == Proposals(old(voteByParticipant), old(entries)[old(id) := update], old(id) + 1)
      ensures old(View()).Valid() ==> View().Valid() && (r.Some? ==> r.value !in old(entries))
    {
      if id == MAX_ID {
        return None;
      }
      r := Some(id);
      entries := entries[id := update];
      id := id + 1;
    }

    /** A failed vote still withdraws the previous one; only the caller's rollback undoes that. */
    method Vote(target: UpdateId, voter: AccountId) returns (ok: bool)
      modifies this`voteByParticipant
      ensures ok == (target in entries)
      ensures voteByParticipant == if ok then old(voteByParticipant)[voter := target]
              else old(voteByParticipant) - {voter}
      ensures old(View()).Valid() ==> View().Valid()
    {
      RemoveVote(voter);
      if target !in entries {
        return false;
      }
      voteByParticipant := voteByParticipant[voter := target];
      return true;
    }

    /** Executing an update clears every proposal and every vote; the counter stays. */
    method DoUpdate(target: UpdateId) returns (r: Option<U>)
      modifies this
      ensures r == if target in old(entries) then Some(old(entries)[target]) else None
      ensures View() == if r.Some? then Proposals(map[], map[], old(id)) else old(View())
    {
      if target !in entries {
        return None;
      }
      r := Some(entries[target]);
      entries := map[];
      voteByParticipant := map[];
    }

    method RemoveVote(voter: AccountId)
      modifies this`voteByParticipant
      ensures voteByParticipant == old(voteByParticipant) - {voter}
    {
      voteByParticipant := voteByParticipant - {voter};
    }

    method RemoveVotes(accounts: seq<AccountId>)
      modifies this`voteByParticipant
      ensures voteByParticipant == old(voteByParticipant) - set a | a in accounts
    {
      for n := 0 to |accounts|
        invariant voteByParticipant == old(voteByParticipant) - set a | a in accounts[..n]
      {
        RemoveVote(accounts[n]);
        assert accounts[..n + 1] == accounts[..n] + [accounts[n]];
      }
      assert accounts[..|accounts|] == accounts;
    }

    /** Keeps exactly the votes of participants. */
    method RemoveNonParticipantVotes(participants: seq<AccountId>)
      modifies this`voteByParticipant
      ensures voteByParticipant == Kept(old(voteByParticipant), participants)
    {
      var left := voteByParticipant.Keys;
      var nonParticipants: seq<AccountId> := [];
      while left != {}
        invariant left <= voteByParticipant.Keys && voteByParticipant == old(voteByParticipant)
        invariant forall a :: a in nonParticipants <==> a in voteByParticipant && a !in left && a !in participants
        decreases left
      {
        var voter :| voter in left;
        left := left - {voter};
        if voter !in participants {
          nonParticipants := nonParticipants + [voter];
        }
      }
      RemoveVotes(nonParticipants);
    }
  }

  // ----- Counting -----

  predicate VotesFor(votes: map<AccountId, UpdateId>, a: AccountId, id: UpdateId) {
    a in votes && votes[a] == id
  }

  /** The filter-and-count over the participant list. */
  function Tally(participants: seq<AccountId>, votes: map<AccountId, UpdateId>, id: UpdateId): nat {
    if participants == [] then 0
    else Tally(participants[..|participants| - 1], votes, id)
         + if VotesFor(votes, participants[|participants| - 1], id) then 1 else 0
  }

  ghost predicate Distinct(participants: seq<AccountId>) {
    forall i, j :: 0 <= i < j < |participants| ==> participants[i] != participants[j]
  }

  ghost function Supporters(participants: seq<AccountId>, votes: map<AccountId, UpdateId>,
        id: UpdateId): set<AccountId> {
    set a | a in participants && VotesFor(votes, a, id)
  }

  /** The count is the number of distinct current participants that vote for the update. */
  lemma {:induction false} TallyCountsSupporters(participants: seq<AccountId>, votes: map<AccountId, UpdateId>,
        id: UpdateId)
    requires Distinct(participants)
    ensures Tally(participants, votes, id) == |Supporters(participants, votes, id)|
  {
    if participants == [] {
      assert Supporters(participants, votes, id) == {};
    } else {
      var before, last := participants[..|participants| - 1], participants[|participants| - 1];
      TallyCountsSupporters(before, votes, id);
      assert last !in before;
      assert Supporters(participants, votes, id)
             == Supporters(before, votes, id) + if VotesFor(votes, last, id) then {last} else {};
    }
  }

  /** Only the participants' own votes matter to the count. */
  lemma {:induction false} TallyDependsOnParticipants(participants: seq<AccountId>, v: map<AccountId, UpdateId>,
        w: map<AccountId, UpdateId>, id: UpdateId)
    requires forall a :: a in participants ==> VotesFor(v, a, id) == VotesFor(w, a, id)
    ensures Tally(participants, v, id) == Tally(participants, w, id)
  {
    if participants != [] { TallyDependsOnParticipants(participants[..|participants| - 1], v, w, id); }
  }

  method CountVotes(participants: seq<AccountId>, votes: map<AccountId, UpdateId>, id: UpdateId) returns (count: nat)
    ensures count == Tally(participants, votes, id)
  {
    count := 0;
    for n := 0 to |participants|
      invariant count == Tally(participants[..n], votes, id)
    {
      assert participants[..n + 1][..n] == participants[..n];
      if participants[n] in votes && votes[participants[n]] == id {
        count := count + 1;
      }
    }
    assert participants[..|participants|] == participants;
  }

  // ----- The contract calls -----

  /** `Running` is the running protocol; otherwise updates can be proposed but not voted on. */
  datatype Phase = Running(participants: seq<AccountId>, threshold: nat) | Paused(voters: seq<AccountId>)

  datatype Gov<U> = Gov(p: Proposals<U>, phase: Phase)

  datatype Call<U> =
    | ProposeUpdate(caller: AccountId, update: U, paid: bool)
    | VoteUpdate(caller: AccountId, id: UpdateId)
    | RemoveUpdateVote(caller: AccountId)
    | RemoveNonParticipantUpdateVotes
    | ChangePhase(phase: Phase)

  datatype Response<U> = ProposedAs(id: UpdateId) | Waiting | Executed(update: U) | Done | Failed

  /** A call that panics or returns an error leaves the contract as it was. */
  function Vote<U>(p: Proposals<U>, participants: seq<AccountId>, threshold: nat, caller: AccountId, id: UpdateId)
    : (Proposals<U>, Response<U>)
  {
    if caller !in participants || id !in p.entries then (p, Failed) else
      var votes := p.votes[caller := id];
      if Tally(participants, votes, id) < threshold then (p.(votes := votes), Waiting)
      else (Proposals(map[], map[], p.nextId), Executed(p.entries[id]))
  }

  function Step<U>(g: Gov<U>, c: Call<U>): (Gov<U>, Response<U>) {
    match c
    case ProposeUpdate(caller, update, paid) =>
      var voters := if g.phase.Running? then g.phase.participants else g.phase.voters;
      if caller !in voters || !paid || g.p.nextId == MAX_ID then (g, Failed)
      else (g.(p := g.p.(entries := g.p.entries[g.p.nextId := update], nextId := g.p.nextId + 1)),
          ProposedAs(g.p.nextId))
    case VoteUpdate(caller, id) =>
      if g.phase.Paused? then (g, Failed) else
        var (p, r) := Vote(g.p, g.phase.participants, g.phase.threshold, caller, id);
        (g.(p := p), r)
    case RemoveUpdateVote(caller) =>
      if g.phase.Paused? || caller !in g.phase.participants then (g, Failed)
      else (g.(p := g.p.(votes := g.p.votes - {caller})), Done)
    case RemoveNonParticipantUpdateVotes =>
      if g.phase.Paused? then (g, Failed)
      else (g.(p := g.p.(votes := Kept(g.p.votes, g.phase.participants))), Done)
    case ChangePhase(phase) => (g.(phase := phase), Done)
  }

  /** The accounts that may propose: the participants of the running protocol, or the voters of another phase. */
  ghost predicate IsVoter(phase: Phase, a: AccountId) {
    (phase.Running? && a in phase.participants) || (phase.Paused? && a in phase.voters)
  }

  /** A proposal from `g` to `g'` answered with `r`. */
  ghost predicate Proposes<U>(g: Gov<U>, g': Gov<U>, caller: AccountId, update: U, paid: bool, r: Response<U>) {
    if IsVoter(g.phase, caller) && paid && g.p.nextId != 0xFFFF_FFFF_FFFF_FFFF then
      && r.ProposedAs? && (g.p.Valid() ==> r.id !in g.p.entries && g'.p.Valid())
      && g'.p.entries == g.p.entries[r.id := update] && g'.p.votes == g.p.votes && g'.phase == g.phase
      && r.id == g.p.nextId && g'.p.nextId == r.id + 1
    else
      r == Failed && g' == g
  }

  /**
   * A proposal is numbered exactly when a voter pays for it and the counter has room. Its number is a new one, it is
   * the only entry that changes, and it brings no vote. Otherwise it fails and changes nothing.
   */
  lemma ProposalAnswered<U>(g: Gov<U>, caller: AccountId, update: U, paid: bool)
    ensures var (g', r) := Step(g, ProposeUpdate(caller, update, paid)); Proposes(g, g', caller, update, paid, r)
  {}

  /** `propose_update` on the object. */
  method ProposeUpdateCall<U>(updates: ProposedUpdates<U>, phase: Phase, caller: AccountId, update: U, paid: bool)
    returns (r: Response<U>)
    modifies updates
    ensures (Gov(updates.View(), phase), r)
            == Step(Gov(old(updates.View()), phase), ProposeUpdate(caller, update, paid))
    ensures Proposes(Gov(old(updates.View()), phase), Gov(updates.View(), phase), caller, update, paid, r)
  {
    var voters := if phase.Running? then phase.participants else phase.voters;
    if caller !in voters || !paid {
      return Failed;
    }
    var id := updates.Propose(update);
    return if id.Some? then ProposedAs(id.value) else Failed;
  }

  /** `vote_update` on the object: vote, count the current participants, execute at the threshold. */
  method VoteUpdateCall<U>(updates: ProposedUpdates<U>, phase: Phase, caller: AccountId, id: UpdateId)
    returns (r: Response<U>)
    modifies updates
    ensures (Gov(updates.View(), phase), r) == Step(Gov(old(updates.View()), phase), VoteUpdate(caller, id))
  {
    var before := updates.voteByParticipant;
    if phase.Paused? || caller !in phase.participants {
      return Failed;
    }
    var ok := updates.Vote(id, caller);
    if !ok {
      updates.voteByParticipant := before;
      return Failed;
    }
    var count := CountVotes(phase.participants, updates.voteByParticipant, id);
    if count < phase.threshold {
      return Waiting;
    }
    var done := updates.DoUpdate(id);
    return Executed(done.value);
  }

  /** `remove_update_vote` on the object: exactly a participant of the running protocol withdraws its own vote. */
  method RemoveUpdateVoteCall<U>(updates: ProposedUpdates<U>, phase: Phase, caller: AccountId)
    returns (r: Response<U>)
    modifies updates
    ensures (Gov(updates.View(), phase), r) == Step(Gov(old(updates.View()), phase), RemoveUpdateVote(caller))
    ensures r == if phase.Running? && caller in phase.participants then Done else Failed
    ensures updates.View() == if r == Done then old(updates.View()).(votes := old(updates.View()).votes - {caller})
            else old(updates.View())
  {
    if phase.Paused? || caller !in phase.participants {
      return Failed;
    }
    updates.RemoveVote(caller);
    return Done;
  }

  /** `remove_non_participant_update_votes` on the object: exactly the votes of participants are left. */
  method RemoveNonParticipantVotesCall<U>(updates: ProposedUpdates<U>, phase: Phase) returns (r: Response<U>)
    modifies updates
    ensures (Gov(updates.View(), phase), r) == Step(Gov(old(updates.View()), phase), RemoveNonParticipantUpdateVotes)
    ensures r == if phase.Running? then Done else Failed
    ensures forall a :: a in updates.voteByParticipant <==>
            a in old(updates.voteByParticipant) && (phase.Running? ==> a in phase.participants)
    ensures forall a :: a in updates.voteByParticipant ==>
              updates.voteByParticipant[a] == old(updates.voteByParticipant)[a]
    ensures updates.entries == old(updates.entries) && updates.id == old(updates.id)
  {
    if phase.Paused? {
      return Failed;
    }
    updates.RemoveNonParticipantVotes(phase.participants);
    return Done;
  }

  // ----- Whole runs -----

  /** What happened, in order. */
  datatype Event = Proposed(id: UpdateId) | Cast(voter: AccountId, id: UpdateId) | Withdrawn(voter: AccountId)
      | Ran(id: UpdateId)

  ghost function Events<U>(g: Gov<U>, c: Call<U>): seq<Event> {
    var r := Step(g, c).1;
    if r.Failed? then [] else
      match c
      case ProposeUpdate(caller, update, paid) => [Proposed(r.id)]
      case VoteUpdate(caller, id) => if r.Executed? then [Cast(caller, id), Ran(id)] else [Cast(caller, id)]
      case RemoveUpdateVote(caller) => [Withdrawn(caller)]
      case _ => []
  }

  /** An account's vote that still stands: its latest one, unless withdrawn or followed by an execution. */
  ghost function Standing(log: seq<Event>, a: AccountId): Option<UpdateId> {
    if log == [] then None else
      match log[|log| - 1]
      case Cast(voter, id) => if voter == a then Some(id) else Standing(log[..|log| - 1], a)
      case Withdrawn(voter) => if voter == a then None else Standing(log[..|log| - 1], a)
      case Ran(_) => None
      case Proposed(_) => Standing(log[..|log| - 1], a)
  }

  /** Recorded votes stand; identifiers proposed or run are below the counter; what can still run has not run. */
  ghost predicate Explained<U>(g: Gov<U>, log: seq<Event>) {
    && g.p.Valid()
    && (forall a :: a in g.p.votes ==> Standing(log, a) == Some(g.p.votes[a]))
    && (forall i :: 0 <= i < |log| && (log[i].Proposed? || log[i].Ran?) ==> log[i].id < g.p.nextId)
    && (forall i, j :: 0 <= i < j < |log| && log[i].Proposed? && log[j].Proposed? ==> log[i].id < log[j].id)
    && (forall i :: 0 <= i < |log| && log[i].Ran? ==> log[i].id !in g.p.entries)
    && (forall i, j :: 0 <= i < j < |log| && log[i].Ran? && log[j].Ran? ==> log[i].id != log[j].id)
  }

  ghost function After<U>(g: Gov<U>, calls: seq<Call<U>>): Gov<U> {
    if calls == [] then g else Step(After(g, calls[..|calls| - 1]), calls[|calls| - 1]).0
  }

  ghost function Log<U>(g: Gov<U>, calls: seq<Call<U>>): seq<Event> {
    if calls == [] then [] else
      var before := calls[..|calls| - 1];
      Log(g, before) + Events(After(g, before), calls[|calls| - 1])
  }

  lemma ProposeExplained<U>(g: Gov<U>, log: seq<Event>, u: U)
    requires Explained(g, log)
    ensures Explained(g.(p := g.p.(entries := g.p.entries[g.p.nextId := u], nextId := g.p.nextId + 1)),
                      log + [Proposed(g.p.nextId)])
  {}

  lemma CastExplained<U>(g: Gov<U>, log: seq<Event>, caller: AccountId, id: UpdateId)
    requires Explained(g, log) && id in g.p.entries
    ensures Explained(g.(p := g.p.(votes := g.p.votes[caller := id])), log + [Cast(caller, id)])
  {}

  lemma RunExplained<U>(g: Gov<U>, log: seq<Event>, id: UpdateId)
    requires Explained(g, log) && id in g.p.entries
    ensures Explained(g.(p := Proposals(map[], map[], g.p.nextId)), log + [Ran(id)])
  {}

  lemma RemovalExplained<U>(g: Gov<U>, log: seq<Event>, votes: map<AccountId, UpdateId>)
    requires Explained(g, log) && forall a :: a in votes ==> a in g.p.votes && votes[a] == g.p.votes[a]
    ensures Explained(g.(p := g.p.(votes := votes)), log)
  {}

  lemma WithdrawExplained<U>(g: Gov<U>, log: seq<Event>, caller: AccountId)
    requires Explained(g, log)
    ensures Explained(g.(p := g.p.(votes := g.p.votes - {caller})), log + [Withdrawn(caller)])
  {}

  lemma VoteExplained<U>(g: Gov<U>, log: seq<Event>, caller: AccountId, id: UpdateId)
    requires Explained(g, log) && !Step(g, VoteUpdate(caller, id)).1.Failed?
    ensures Explained(Step(g, VoteUpdate(caller, id)).0, log + Events(g, VoteUpdate(caller, id)))
  {
    CastExplained(g, log, caller, id);
    if Step(g, VoteUpdate(caller, id)).1.Executed? {
      RunExplained(g.(p := g.p.(votes := g.p.votes[caller := id])), log + [Cast(caller, id)], id);
      assert log + [Cast(caller, id)] + [Ran(id)] == log + [Cast(caller, id), Ran(id)];
    }
  }

  lemma StepExplained<U>(g: Gov<U>, log: seq<Event>, c: Call<U>)
    requires Explained(g, log)
    ensures Explained(Step(g, c).0, log + Events(g, c))
  {
    var (g', r) := Step(g, c);
    if r.Failed? {
      assert log + [] == log;
    } else {
      match c {
        case ProposeUpdate(caller, update, paid) => ProposeExplained(g, log, update);
        case VoteUpdate(caller, id) => VoteExplained(g, log, caller, id);
        case RemoveUpdateVote(caller) => WithdrawExplained(g, log, caller);
        case RemoveNonParticipantUpdateVotes =>
          RemovalExplained(g, log, g'.p.votes);
          assert log + [] == log;
        case ChangePhase(phase) => assert log + [] == log;
      }
    }
  }

  /**
   * In every reachable state: every vote is its account's standing vote, cast since the last execution, for an
   * existing entry; identifiers only grow; and no update runs twice.
   */
  lemma {:induction false} AlwaysExplained<U>(g: Gov<U>, calls: seq<Call<U>>)
    requires g.p == Proposals(map[], map[], g.p.nextId)
    ensures Explained(After(g, calls), Log(g, calls))
  {
    if calls != [] {
      AlwaysExplained(g, calls[..|calls| - 1]);
      StepExplained(After(g, calls[..|calls| - 1]), Log(g, calls[..|calls| - 1]), calls[|calls| - 1]);
    }
  }

  /**
   * After any run, a vote executes an update exactly when the caller is a participant, the update is proposed and
   * enough participants then vote for it; those are distinct current participants whose standing vote is for it.
   */
  lemma ExecutionNeedsQuorum<U>(g: Gov<U>, calls: seq<Call<U>>, caller: AccountId, id: UpdateId)
    requires g.p == Proposals(map[], map[], g.p.nextId)
    requires After(g, calls).phase.Running? && Distinct(After(g, calls).phase.participants)
    ensures var s := After(g, calls);
            var (s', r) := Step(s, VoteUpdate(caller, id));
            var supporters := Supporters(s.phase.participants, s.p.votes[caller := id], id);
            && (r.Executed? <==>
               caller in s.phase.participants && id in s.p.entries && |supporters| >= s.phase.threshold)
            && (r.Executed? ==> r.update == s.p.entries[id] && s' == s.(p := Proposals(map[], map[], s.p.nextId)))
            && (r.Failed? <==> !(caller in s.phase.participants && id in s.p.entries)) && (r.Failed? ==> s' == s)
            && (r.Executed? || r.Failed? || (r.Waiting? && s' == s.(p := s.p.(votes := s.p.votes[caller := id]))))
            && (caller in s.phase.participants && id in s.p.entries ==>
                  forall a :: a in supporters ==>
                                a in s.phase.participants &&
                                    Standing(Log(g, calls) + [Cast(caller, id)], a) == Some(id))
  {
    AlwaysExplained(g, calls);
    var s := After(g, calls);
    TallyCountsSupporters(s.phase.participants, s.p.votes[caller := id], id);
    if caller in s.phase.participants && id in s.p.entries {
      CastExplained(s, Log(g, calls), caller, id);
    }
  }

  // ----- Cleaning stale votes is unobservable -----

  /** `h` is `g` with some votes of non-participants cleaned away; `k` are the accounts that count. */
  ghost predicate Cleaner<U>(g: Gov<U>, h: Gov<U>, k: set<AccountId>) {
    && h.phase == g.phase && h.p.entries == g.p.entries && h.p.nextId == g.p.nextId
    && (forall a :: a in h.p.votes ==> a in g.p.votes && h.p.votes[a] == g.p.votes[a])
    && (forall a :: a in k && a in g.p.votes ==> a in h.p.votes)
    && (g.phase.Running? ==> forall a :: a in g.phase.participants ==> a in k)
  }

  /** The accounts that count after a call, and the one condition: no newcomer brings an old vote along. */
  ghost function Counting<U>(k: set<AccountId>, c: Call<U>): set<AccountId> {
    if c.ChangePhase? && c.phase.Running? then set a | a in c.phase.participants else k
  }

  ghost predicate NoOldVote<U>(g: Gov<U>, k: set<AccountId>, c: Call<U>) {
    c.ChangePhase? && c.phase.Running? ==> forall a :: a in c.phase.participants && a !in k ==> a !in g.p.votes
  }

  /** The same call on both sides gives the same answer and keeps the sides related. */
  lemma CleanerStep<U>(g: Gov<U>, h: Gov<U>, k: set<AccountId>, c: Call<U>)
    requires Cleaner(g, h, k) && NoOldVote(g, k, c) && !c.RemoveNonParticipantUpdateVotes?
    ensures Step(g, c).1 == Step(h, c).1
    ensures Cleaner(Step(g, c).0, Step(h, c).0, Counting(k, c))
  {
    if c.VoteUpdate? && g.phase.Running? && c.caller in g.phase.participants {
      TallyDependsOnParticipants(g.phase.participants, g.p.votes[c.caller := c.id], h.p.votes[c.caller := c.id], c.id);
    }
  }

  /** A cleanup on one side only keeps the sides related. */
  lemma CleanupKeepsCleaner<U>(g: Gov<U>, h: Gov<U>, k: set<AccountId>)
    requires Cleaner(g, h, k) && (g.phase.Running? ==> k == set a | a in g.phase.participants)
    ensures Cleaner(g, Step(h, RemoveNonParticipantUpdateVotes).0, k)
  {}

  ghost function Strip<U>(calls: seq<Call<U>>): seq<Call<U>> {
    if calls == [] then [] else
      var last := calls[|calls| - 1];
      Strip(calls[..|calls| - 1]) + if last.RemoveNonParticipantUpdateVotes? then [] else [last]
  }

  /** The answers to all calls other than cleanups. */
  ghost function Answers<U>(g: Gov<U>, calls: seq<Call<U>>): seq<Response<U>> {
    if calls == [] then [] else
      var before, last := calls[..|calls| - 1], calls[|calls| - 1];
      Answers(g, before) + if last.RemoveNonParticipantUpdateVotes? then [] else [Step(After(g, before), last).1]
  }

  ghost function Counted<U>(g: Gov<U>, calls: seq<Call<U>>): set<AccountId> {
    if calls == [] then if g.phase.Running? then set a | a in g.phase.participants else g.p.votes.Keys
    else Counting(Counted(g, calls[..|calls| - 1]), calls[|calls| - 1])
  }

  /** Whenever the participants change, no newcomer has a vote left from before. */
  ghost predicate NoReturningVotes<U>(g: Gov<U>, calls: seq<Call<U>>) {
    calls == []
    || (var before := calls[..|calls| - 1];
        && NoReturningVotes(g, before)
        && NoOldVote(After(g, Strip(before)), Counted(g, before), calls[|calls| - 1]))
  }

  lemma {:induction false} CountedAreParticipants<U>(g: Gov<U>, calls: seq<Call<U>>)
    ensures var s := After(g, calls); s.phase.Running? ==> Counted(g, calls) == set a | a in s.phase.participants
  {
    if calls != [] { CountedAreParticipants(g, calls[..|calls| - 1]); }
  }

  lemma AppendCall<U>(g: Gov<U>, calls: seq<Call<U>>, c: Call<U>)
    ensures After(g, calls + [c]) == Step(After(g, calls), c).0
    ensures !c.RemoveNonParticipantUpdateVotes? ==>
            Answers(g, calls + [c]) == Answers(g, calls) + [Step(After(g, calls), c).1]
  {}

  /** Cleaning at any points, or never, changes no answer and no state but the votes that do not count. */
  lemma {:induction false} CleanupsAreUnobservable<U>(g: Gov<U>, calls: seq<Call<U>>)
    requires NoReturningVotes(g, calls)
    ensures Answers(g, calls) == Answers(g, Strip(calls))
    ensures Cleaner(After(g, Strip(calls)), After(g, calls), Counted(g, calls))
  {
    if calls != [] {
      var before, last := calls[..|calls| - 1], calls[|calls| - 1];
      CleanupsAreUnobservable(g, before);
      var s, h, k := After(g, Strip(before)), After(g, before), Counted(g, before);
      if last.RemoveNonParticipantUpdateVotes? {
        CountedAreParticipants(g, before);
        CleanupKeepsCleaner(s, h, k);
        assert Strip(calls) == Strip(before);
      } else {
        CleanerStep(s, h, k, last);
        AppendCall(g, Strip(before), last);
        assert Strip(calls) == Strip(before) + [last];
      }
    }
  }

  /** The participants are the same set whenever the protocol runs. */
  ghost predicate FixedParticipants<U>(ps: set<AccountId>, g: Gov<U>, calls: seq<Call<U>>) {
    && (g.phase.Running? ==> (set a | a in g.phase.participants) == ps)
    && forall i :: 0 <= i < |calls| && calls[i].ChangePhase? && calls[i].phase.Running? ==>
                     (set a | a in calls[i].phase.participants) == ps
  }

  lemma {:induction false} FixedMeansNoneReturns<U>(ps: set<AccountId>, g: Gov<U>, calls: seq<Call<U>>)
    requires FixedParticipants(ps, g, calls) && g.phase.Running?
    ensures NoReturningVotes(g, calls) && Counted(g, calls) == ps
  {
    if calls != [] {
      var last := calls[|calls| - 1];
      FixedMeansNoneReturns(ps, g, calls[..|calls| - 1]);
      if last.ChangePhase? && last.phase.Running? {
        forall a | a in last.phase.participants ensures a in ps {
          assert a in set b | b in last.phase.participants;
        }
      }
    }
  }

  /** For a fixed participant set the cleanup is unobservable: same answers, same tallies. */
  lemma FixedParticipantsNeverNotice<U>(ps: set<AccountId>, g: Gov<U>, calls: seq<Call<U>>, id: UpdateId)
    requires FixedParticipants(ps, g, calls) && g.phase.Running?
    ensures Answers(g, calls) == Answers(g, Strip(calls))
    ensures var (s, h) := (After(g, Strip(calls)), After(g, calls));
            && h.phase == s.phase && h.p.entries == s.p.entries
            && (h.phase.Running? ==>
               Tally(h.phase.participants, h.p.votes, id) == Tally(s.phase.participants, s.p.votes, id))
  {
    FixedMeansNoneReturns(ps, g, calls);
    CleanupsAreUnobservable(g, calls);
    var s, h := After(g, Strip(calls)), After(g, calls);
    if h.phase.Running? {
      TallyDependsOnParticipants(h.phase.participants, h.p.votes, s.p.votes, id);
    }
  }

  /**
   * Cleaning among the participants `before` leaves all tallies among the participants `after` alone exactly when
   * nobody who joins has a vote already.
   */
  lemma CleanupKeepsTalliesIff(votes: map<AccountId, UpdateId>, before: seq<AccountId>, after: seq<AccountId>)
    requires Distinct(after)
    ensures var cleaned := Kept(votes, before);
            (forall id :: Tally(after, votes, id) == Tally(after, cleaned, id)) <==>
            (forall a :: a in after && a !in before ==> a !in votes)
  {
    var cleaned := Kept(votes, before);
    if a :| a in after && a !in before && a in votes {
      var id := votes[a];
      TallyCountsSupporters(after, votes, id);
      TallyCountsSupporters(after, cleaned, id);
      FewerSupporters(Supporters(after, cleaned, id), Supporters(after, votes, id), a);
      assert Tally(after, votes, id) != Tally(after, cleaned, id);
    } else {
      forall id ensures Tally(after, votes, id) == Tally(after, cleaned, id) {
        TallyDependsOnParticipants(after, votes, cleaned, id);
      }
    }
  }

  lemma {:induction false} FewerSupporters(x: set<AccountId>, y: set<AccountId>, a: AccountId)
    requires x <= y && a in y && a !in x
    ensures |x| < |y|
  {
    assert y == (y - x) + x && a in y - x;
  }

  /** The thresholds the contract accepts: at least two, at most everyone, and at least 60 percent. */
  predicate ValidThreshold(participants: nat, k: nat) {
    2 <= k <= participants && 5 * k >= 3 * participants
  }

  /** `validate_threshold`. */
  method ValidateThreshold(participants: nat, k: nat) returns (ok: bool)
    ensures ok <==> ValidThreshold(participants, k)
  {
    if k > participants || k < 2 {
      return false;
    }
    var bound := (3 * participants + 4) / 5;
    return k >= bound;
  }

  /** `a` proposes, votes and leaves in a resharing. */
  ghost function Leave<U>(a: AccountId, b: AccountId, c: AccountId, u: U): seq<Call<U>> {
    [ProposeUpdate(a, u, true), VoteUpdate(a, 0), ChangePhase(Paused([a, b, c])), ChangePhase(Running([b, c], 2))]
  }

  /** `a` proposes and votes, leaves in one resharing and returns in another; `cleanup` are the calls in between. */
  ghost function LeaveAndReturn<U>(a: AccountId, b: AccountId, c: AccountId, u: U,
        cleanup: seq<Call<U>>): seq<Call<U>> {
    Leave(a, b, c, u) + cleanup + [ChangePhase(Paused([b, c])), ChangePhase(Running([a, b, c], 2))]
  }

  lemma {:induction false} AfterConcat<U>(g: Gov<U>, x: seq<Call<U>>, y: seq<Call<U>>)
    ensures After(g, x + y) == After(After(g, x), y)
  {
    if y == [] {
      assert x + y == x;
    } else {
      var before, last := y[..|y| - 1], y[|y| - 1];
      AfterConcat(g, x, before);
      AppendCall(g, x + before, last);
      AppendCall(After(g, x), before, last);
      assert x + y == (x + before) + [last] && y == before + [last];
    }
  }

  lemma TwoCalls<U>(g: Gov<U>, c: Call<U>, d: Call<U>)
    ensures After(g, [c, d]) == Step(Step(g, c).0, d).0
  {
    AppendCall(g, [], c);
    AppendCall(g, [c], d);
    assert [] + [c] == [c] && [c] + [d] == [c, d];
  }

  lemma ThreeVotes(a: AccountId, b: AccountId, c: AccountId, votes: map<AccountId, UpdateId>, id: UpdateId)
    ensures Tally([a, b, c], votes, id) == (if VotesFor(votes, a, id) then 1 else 0)
                                           + (if VotesFor(votes, b, id) then 1 else 0)
                                           + (if VotesFor(votes, c, id) then 1 else 0)
  {
    assert [a, b, c][..2] == [a, b] && [a, b][..1] == [a];
    assert Tally([a], votes, id) == if VotesFor(votes, a, id) then 1 else 0;
    assert Tally([a, b], votes, id) == Tally([a], votes, id) + if VotesFor(votes, b, id) then 1 else 0;
  }

  /** The table when `a` has left: its vote is still there. */
  lemma VoteOutlivesVoter<U>(a: AccountId, b: AccountId, c: AccountId, u: U)
    requires a != b && b != c && a != c
    ensures var g := Gov(Proposals(map[], map[], 0), Running([a, b, c], 2));
            After(g, Leave(a, b, c, u)) == Gov(Proposals(map[a := 0], map[0 := u], 1), Running([b, c], 2))
  {
    var g: Gov<U> := Gov(Proposals(map[], map[], 0), Running([a, b, c], 2));
    var voted := [ProposeUpdate(a, u, true), VoteUpdate(a, 0)];
    var moved := [ChangePhase(Paused([a, b, c])), ChangePhase(Running([b, c], 2))];
    ThreeVotes(a, b, c, map[a := 0], 0);
    TwoCalls(g, ProposeUpdate(a, u, true), VoteUpdate(a, 0));
    TwoCalls(After(g, voted), moved[0], moved[1]);
    AfterConcat(g, voted, moved);
    assert voted + moved == [ProposeUpdate(a, u, true), VoteUpdate(a, 0), moved[0], moved[1]];
  }

  /** `a` returns; the table is what it was when `a` had left. */
  lemma ReturnKeepsTable<U>(g: Gov<U>, gone: Gov<U>, calls: seq<Call<U>>, a: AccountId, b: AccountId, c: AccountId)
    requires After(g, calls) == gone
    ensures After(g, calls + [ChangePhase(Paused([b, c])), ChangePhase(Running([a, b, c], 2))])
            == Gov(gone.p, Running([a, b, c], 2))
  {
    var back: seq<Call<U>> := [ChangePhase(Paused([b, c])), ChangePhase(Running([a, b, c], 2))];
    TwoCalls(gone, back[0], back[1]);
    AfterConcat(g, calls, back);
  }

  lemma KeepsNone(votes: map<AccountId, UpdateId>, participants: seq<AccountId>)
    requires forall a :: a in votes ==> a !in participants
    ensures Kept(votes, participants) == map[]
  {
    assert forall a :: a in Kept(votes, participants) ==> a in votes && a in participants;
  }

  /** The cleanup while `a` is gone removes its vote. */
  lemma CleanupForgets<U>(g: Gov<U>, calls: seq<Call<U>>, a: AccountId, b: AccountId, c: AccountId, u: U)
    requires a != b && a != c
    requires After(g, calls) == Gov(Proposals(map[a := 0], map[0 := u], 1), Running([b, c], 2))
    ensures After(g, calls + [RemoveNonParticipantUpdateVotes])
            == Gov(Proposals(map[], map[0 := u], 1), Running([b, c], 2))
  {
    AppendCall(g, calls, RemoveNonParticipantUpdateVotes);
    KeepsNone(map[a := 0], [b, c]);
  }

  /** `b` votes after the return of `a`, whose vote is still there or not. */
  lemma SecondVote<U>(votes: map<AccountId, UpdateId>, a: AccountId, b: AccountId, c: AccountId, u: U)
    requires a != b && b != c && a != c && (votes == map[a := 0] || votes == map[])
    ensures Step(Gov(Proposals(votes, map[0 := u], 1), Running([a, b, c], 2)), VoteUpdate(b, 0)).1
            == if a in votes then Executed(u) else Waiting
  {
    ThreeVotes(a, b, c, votes[b := 0], 0);
  }

  /**
   * From an empty table, with accepted thresholds throughout: when `a` proposes, votes, leaves and returns, the vote of
   * `b` executes the update if no cleanup ran while `a` was gone, and has to wait if one did.
   */
  lemma ReturningVoteIsNoticed<U>(a: AccountId, b: AccountId, c: AccountId, u: U)
    requires a != b && b != c && a != c
    ensures ValidThreshold(|[a, b, c]|, 2) && ValidThreshold(|[b, c]|, 2)
    ensures var g := Gov(Proposals(map[], map[], 0), Running([a, b, c], 2));
            && Step(After(g, LeaveAndReturn(a, b, c, u, [])), VoteUpdate(b, 0)).1 == Executed(u)
            && Step(After(g, LeaveAndReturn(a, b, c, u, [RemoveNonParticipantUpdateVotes])), VoteUpdate(b, 0)).1
               == Waiting
  {
    var g: Gov<U> := Gov(Proposals(map[], map[], 0), Running([a, b, c], 2));
    var left := Leave(a, b, c, u);
    VoteOutlivesVoter(a, b, c, u);
    ReturnKeepsTable(g, After(g, left), left, a, b, c);
    assert left + [] == left;
    SecondVote(map[a := 0], a, b, c, u);
    CleanupForgets(g, left, a, b, c, u);
    var cleaned := left + [RemoveNonParticipantUpdateVotes];
    ReturnKeepsTable(g, After(g, cleaned), cleaned, a, b, c);
    SecondVote(map[], a, b, c, u);
  }
}
