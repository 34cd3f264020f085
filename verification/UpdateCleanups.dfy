/** When a cleanup of stale update votes can be told from its absence by the answers of later calls. */
module UpdateCleanups {
  import opened Wrappers
  import opened Accounts
  import opened UpdateVotes

  /** Calls of participants only: no change of phase and no further cleanup. */
  ghost predicate Plain<U>(calls: seq<Call<U>>) {
    forall i :: 0 <= i < |calls| ==> !calls[i].ChangePhase? && !calls[i].RemoveNonParticipantUpdateVotes?
  }

  /** The calls are answered differently from the two states. */
  ghost predicate TellsApart<U>(g: Gov<U>, h: Gov<U>, calls: seq<Call<U>>) {
    Plain(calls) && Answers(g, calls) != Answers(h, calls)
  }

  lemma {:induction false} PlainAnswers<U>(g: Gov<U>, calls: seq<Call<U>>)
    requires Plain(calls)
    ensures |Answers(g, calls)| == |calls|
  {
    if calls != [] { PlainAnswers(g, calls[..|calls| - 1]); }
  }

  lemma LastDiffers<R>(x: seq<R>, y: seq<R>, r: R, q: R)
    requires |x| == |y| && r != q
    ensures x + [r] != y + [q]
  {
    assert (x + [r])[|x|] == r && (y + [q])[|y|] == q;
  }

  /** Different answers to the last call are enough. */
  lemma LastTellsApart<U>(g: Gov<U>, h: Gov<U>, calls: seq<Call<U>>, c: Call<U>)
    requires Plain(calls + [c]) && Step(After(g, calls), c).1 != Step(After(h, calls), c).1
    ensures TellsApart(g, h, calls + [c])
  {
    assert forall i :: 0 <= i < |calls| ==> (calls + [c])[i] == calls[i];
    assert (calls + [c])[|calls|] == c;
    PlainAnswers(g, calls);
    PlainAnswers(h, calls);
    AppendCall(g, calls, c);
    AppendCall(h, calls, c);
    LastDiffers(Answers(g, calls), Answers(h, calls), Step(After(g, calls), c).1, Step(After(h, calls), c).1);
  }

  // ----- Nobody with an old vote joins: nothing is noticed -----

  lemma {:induction false} CleanerAnswers<U>(g: Gov<U>, h: Gov<U>, k: set<AccountId>, calls: seq<Call<U>>)
    requires Cleaner(g, h, k) && Plain(calls)
    ensures Answers(g, calls) == Answers(h, calls) && Cleaner(After(g, calls), After(h, calls), k)
  {
    if calls != [] {
      CleanerAnswers(g, h, k, calls[..|calls| - 1]);
      CleanerStep(After(g, calls[..|calls| - 1]), After(h, calls[..|calls| - 1]), k, calls[|calls| - 1]);
    }
  }

  // ----- Somebody with an old vote joins: the others withdraw, then vote with the newcomer -----

  ghost function Withdrawals<U>(voters: seq<AccountId>): seq<Call<U>> {
    seq(|voters|, i requires 0 <= i < |voters| => RemoveUpdateVote(voters[i]))
  }

  ghost function Ballots<U>(voters: seq<AccountId>, id: UpdateId): seq<Call<U>> {
    seq(|voters|, i requires 0 <= i < |voters| => VoteUpdate(voters[i], id))
  }

  ghost function SetOf(s: seq<AccountId>): set<AccountId> {
    set a | a in s
  }

  lemma {:induction false} SizeOfDistinct(s: seq<AccountId>)
    requires Distinct(s)
    ensures |SetOf(s)| == |s|
  {
    if s != [] {
      var before, last := s[..|s| - 1], s[|s| - 1];
      SizeOfDistinct(before);
      assert last !in before;
      assert SetOf(s) == SetOf(before) + {last};
    }
  }

  lemma {:induction false} WithdrawalsRemove<U>(g: Gov<U>, voters: seq<AccountId>)
    requires g.phase.Running? && forall a :: a in voters ==> a in g.phase.participants
    ensures After(g, Withdrawals(voters)) == g.(p := g.p.(votes := g.p.votes - SetOf(voters)))
  {
    var calls: seq<Call<U>> := Withdrawals(voters);
    if voters == [] {
      assert g.p.votes - {} == g.p.votes;
    } else {
      var before, last := voters[..|voters| - 1], voters[|voters| - 1];
      WithdrawalsRemove(g, before);
      assert calls[..|calls| - 1] == Withdrawals(before);
      assert SetOf(voters) == SetOf(before) + {last};
      assert g.p.votes - SetOf(voters) == (g.p.votes - SetOf(before)) - {last};
    }
  }

  ghost function WithVotes(votes: map<AccountId, UpdateId>, voters: seq<AccountId>, id: UpdateId)
    : map<AccountId, UpdateId>
  {
    map a | a in votes.Keys + SetOf(voters) :: if a in voters then id else votes[a]
  }

  lemma SupportersWith(ps: seq<AccountId>, votes: map<AccountId, UpdateId>, voters: seq<AccountId>, id: UpdateId)
    requires forall a :: a in voters ==> a in ps
    ensures Supporters(ps, WithVotes(votes, voters, id), id) == Supporters(ps, votes, id) + SetOf(voters)
  {}

  /** One more ballot on top of others. */
  lemma OneMore(votes: map<AccountId, UpdateId>, voters: seq<AccountId>, a: AccountId, id: UpdateId)
    ensures WithVotes(votes, voters, id)[a := id] == WithVotes(votes, voters + [a], id)
  {}

  lemma SubsetSize(x: set<AccountId>, y: set<AccountId>)
    requires x <= y
    ensures |x| <= |y|
  {
    assert y == x + (y - x);
  }

  ghost function Recorded<U>(g: Gov<U>, voters: seq<AccountId>, id: UpdateId): Gov<U> {
    g.(p := g.p.(votes := WithVotes(g.p.votes, voters, id)))
  }

  /** Everyone who supports `id` once `voters` have voted for it. */
  ghost function Backing<U>(g: Gov<U>, voters: seq<AccountId>, id: UpdateId): set<AccountId>
    requires g.phase.Running?
  {
    Supporters(g.phase.participants, g.p.votes, id) + SetOf(voters)
  }

  lemma BackingIsTally<U>(g: Gov<U>, voters: seq<AccountId>, id: UpdateId)
    requires g.phase.Running? && Distinct(g.phase.participants)
    requires forall a :: a in voters ==> a in g.phase.participants
    ensures Tally(g.phase.participants, WithVotes(g.p.votes, voters, id), id) == |Backing(g, voters, id)|
  {
    SupportersWith(g.phase.participants, g.p.votes, voters, id);
    TallyCountsSupporters(g.phase.participants, WithVotes(g.p.votes, voters, id), id);
  }

  /** One more ballot is recorded or executes the update, by the number of supporters it makes. */
  lemma NextBallot<U>(g: Gov<U>, voters: seq<AccountId>, last: AccountId, id: UpdateId)
    requires g.phase.Running? && Distinct(g.phase.participants) && id in g.p.entries
    requires forall a :: a in voters + [last] ==> a in g.phase.participants
    ensures Step(Recorded(g, voters, id), VoteUpdate(last, id))
            == if |Backing(g, voters + [last], id)| < g.phase.threshold then (Recorded(g, voters + [last], id), Waiting)
               else (g.(p := Proposals(map[], map[], g.p.nextId)), Executed(g.p.entries[id]))
  {
    assert (voters + [last])[|voters|] == last;
    OneMore(g.p.votes, voters, last, id);
    BackingIsTally(g, voters + [last], id);
  }

  lemma BackingGrows<U>(g: Gov<U>, voters: seq<AccountId>, last: AccountId, id: UpdateId)
    requires g.phase.Running?
    ensures |Backing(g, voters, id)| <= |Backing(g, voters + [last], id)|
  {
    SubsetSize(Backing(g, voters, id), Backing(g, voters + [last], id));
  }

  lemma BallotAppended<U>(g: Gov<U>, calls: seq<Call<U>>, voters: seq<AccountId>, last: AccountId, id: UpdateId)
    requires g.phase.Running? && Distinct(g.phase.participants) && id in g.p.entries
    requires forall a :: a in voters + [last] ==> a in g.phase.participants
    requires |Backing(g, voters + [last], id)| < g.phase.threshold
    requires After(g, calls) == Recorded(g, voters, id)
    ensures After(g, calls + [VoteUpdate(last, id)]) == Recorded(g, voters + [last], id)
  {
    NextBallot(g, voters, last, id);
    AppendCall(g, calls, VoteUpdate(last, id));
  }

  lemma BallotsAppend<U>(voters: seq<AccountId>, last: AccountId, id: UpdateId)
    ensures Ballots<U>(voters + [last], id) == Ballots(voters, id) + [VoteUpdate(last, id)]
  {}

  /** Ballots for `id` are only recorded while all supporters together are below the threshold. */
  lemma {:induction false} BallotsRecorded<U>(g: Gov<U>, voters: seq<AccountId>, id: UpdateId, calls: seq<Call<U>>)
    requires g.phase.Running? && Distinct(g.phase.participants) && id in g.p.entries
    requires forall a :: a in voters ==> a in g.phase.participants
    requires |Backing(g, voters, id)| < g.phase.threshold && calls == Ballots(voters, id)
    ensures After(g, calls) == Recorded(g, voters, id)
    decreases |voters|
  {
    if voters == [] {
      assert WithVotes(g.p.votes, voters, id) == g.p.votes;
    } else {
      var before, last := voters[..|voters| - 1], voters[|voters| - 1];
      assert voters == before + [last];
      BackingGrows(g, before, last, id);
      BallotsRecorded(g, before, id, Ballots(before, id));
      BallotsAppend<U>(before, last, id);
      BallotAppended(g, Ballots(before, id), before, last, id);
    }
  }

  lemma BallotsThenOne<U>(g: Gov<U>, voters: seq<AccountId>, last: AccountId, id: UpdateId)
    requires g.phase.Running? && Distinct(g.phase.participants) && id in g.p.entries
    requires forall a :: a in voters + [last] ==> a in g.phase.participants
    requires |Backing(g, voters, id)| < g.phase.threshold
    ensures Step(After(g, Ballots(voters, id)), VoteUpdate(last, id)).1
            == if |Backing(g, voters + [last], id)| < g.phase.threshold then Waiting else Executed(g.p.entries[id])
  {
    assert forall i :: 0 <= i < |voters| ==> (voters + [last])[i] == voters[i];
    BallotsRecorded(g, voters, id, Ballots(voters, id));
    NextBallot(g, voters, last, id);
  }

  /** Everyone but the participant at `i`. */
  ghost function Others(ps: seq<AccountId>, i: nat): seq<AccountId>
    requires i < |ps|
  {
    ps[..i] + ps[i + 1..]
  }

  lemma OthersMeaning(ps: seq<AccountId>, i: nat)
    requires i < |ps| && Distinct(ps)
    ensures Distinct(Others(ps, i)) && |Others(ps, i)| == |ps| - 1 && ps[i] !in Others(ps, i)
    ensures forall a :: a in ps <==> a == ps[i] || a in Others(ps, i)
  {
    var others := Others(ps, i);
    forall j, k | 0 <= j < k < |others| ensures others[j] != others[k] {
      assert others[j] == ps[if j < i then j else j + 1] && others[k] == ps[if k < i then k else k + 1];
    }
    forall a | a in ps && a != ps[i] ensures a in others {
      var j :| 0 <= j < |ps| && ps[j] == a;
      assert others[if j < i then j else j - 1] == a;
    }
  }

  /** Once the others have withdrawn, the only possible supporter is the participant at `i`. */
  lemma OnlyNewcomer(ps: seq<AccountId>, i: nat, votes: map<AccountId, UpdateId>, id: UpdateId)
    requires i < |ps| && Distinct(ps)
    ensures Supporters(ps, votes - SetOf(Others(ps, i)), id) == if VotesFor(votes, ps[i], id) then {ps[i]} else {}
  {
    OthersMeaning(ps, i);
  }

  /** The others withdraw, then as many vote as are needed together with the one at `i`. */
  ghost function Probe<U>(ps: seq<AccountId>, i: nat, threshold: nat, id: UpdateId): seq<Call<U>>
    requires i < |ps| && 2 <= threshold <= |ps|
  {
    Withdrawals(Others(ps, i)) + Ballots(Others(ps, i)[..threshold - 2], id)
  }

  lemma OneLarger(x: set<AccountId>, a: AccountId)
    requires a !in x
    ensures |{a} + x| == |x| + 1
  {}

  /** How many supporters the first `n` of the others make, with or without the one at `i`. */
  lemma BackingSize(ps: seq<AccountId>, i: nat, n: nat, first: set<AccountId>)
    requires i < |ps| && Distinct(ps) && n < |ps| && (first == {} || first == {ps[i]})
    ensures |first + SetOf(Others(ps, i)[..n])| == n + |first|
  {
    OthersMeaning(ps, i);
    var voters := Others(ps, i)[..n];
    SizeOfDistinct(voters);
    if first == {} {
      assert first + SetOf(voters) == SetOf(voters);
    } else {
      OneLarger(SetOf(voters), ps[i]);
    }
  }

  lemma OthersTake(ps: seq<AccountId>, i: nat, n: nat)
    requires i < |ps| && Distinct(ps) && n + 1 < |ps|
    ensures Others(ps, i)[..n] + [Others(ps, i)[n]] == Others(ps, i)[..n + 1]
    ensures forall a :: a in Others(ps, i)[..n + 1] ==> a in ps
  {
    OthersMeaning(ps, i);
  }

  lemma BackingIs<U>(g: Gov<U>, i: nat, id: UpdateId, first: set<AccountId>, voters: seq<AccountId>, n: nat)
    requires g.phase.Running? && Distinct(g.phase.participants) && i < |g.phase.participants|
    requires first == Supporters(g.phase.participants, g.p.votes, id)
    requires first == {} || first == {g.phase.participants[i]}
    requires n < |g.phase.participants| && voters == Others(g.phase.participants, i)[..n]
    ensures |Backing(g, voters, id)| == n + if first == {} then 0 else 1
  {
    BackingSize(g.phase.participants, i, n, first);
  }

  /** After the withdrawals: the ballots of the first others and of one more. */
  lemma LastBallot<U>(g: Gov<U>, i: nat, id: UpdateId, first: set<AccountId>, voters: seq<AccountId>, last: AccountId)
    requires g.phase.Running? && Distinct(g.phase.participants) && id in g.p.entries
    requires i < |g.phase.participants| && 2 <= g.phase.threshold <= |g.phase.participants|
    requires first == Supporters(g.phase.participants, g.p.votes, id)
    requires first == {} || first == {g.phase.participants[i]}
    requires voters == Others(g.phase.participants, i)[..g.phase.threshold - 2]
    requires last == Others(g.phase.participants, i)[g.phase.threshold - 2]
    ensures Step(After(g, Ballots(voters, id)), VoteUpdate(last, id)).1
            == if first == {} then Waiting else Executed(g.p.entries[id])
  {
    var ps, t := g.phase.participants, g.phase.threshold;
    OthersTake(ps, i, t - 2);
    BackingIs(g, i, id, first, voters, t - 2);
    BackingIs(g, i, id, first, voters + [last], t - 1);
    BallotsThenOne(g, voters, last, id);
  }

  /** The probe's last ballot executes the update exactly if the participant at `i` already votes for it. */
  lemma ProbeAnswer<U>(g: Gov<U>, i: nat, id: UpdateId)
    requires g.phase.Running? && Distinct(g.phase.participants) && id in g.p.entries
    requires i < |g.phase.participants| && 2 <= g.phase.threshold <= |g.phase.participants|
    ensures var ps, t := g.phase.participants, g.phase.threshold;
            Step(After(g, Probe(ps, i, t, id)), VoteUpdate(Others(ps, i)[t - 2], id)).1
            == if VotesFor(g.p.votes, ps[i], id) then Executed(g.p.entries[id]) else Waiting
  {
    var ps, t := g.phase.participants, g.phase.threshold;
    var others := Others(ps, i);
    OthersMeaning(ps, i);
    WithdrawalsRemove(g, others);
    OnlyNewcomer(ps, i, g.p.votes, id);
    var alone := g.(p := g.p.(votes := g.p.votes - SetOf(others)));
    LastBallot(alone, i, id, Supporters(ps, alone.p.votes, id), others[..t - 2], others[t - 2]);
    AfterConcat(g, Withdrawals(others), Ballots(others[..t - 2], id));
  }

  lemma ProbeIsPlain<U>(ps: seq<AccountId>, i: nat, threshold: nat, id: UpdateId, last: AccountId)
    requires i < |ps| && 2 <= threshold <= |ps|
    ensures Plain(Probe<U>(ps, i, threshold, id) + [VoteUpdate(last, id)])
  {}

  // ----- Exactly when a cleanup is noticed -----

  /** The participants become `after`, with or without a cleanup among the present ones first. */
  ghost function Uncleaned<U>(g: Gov<U>, after: seq<AccountId>, threshold: nat): Gov<U> {
    Step(g, ChangePhase(Running(after, threshold))).0
  }

  ghost function Cleaned<U>(g: Gov<U>, after: seq<AccountId>, threshold: nat): Gov<U> {
    Step(Step(g, RemoveNonParticipantUpdateVotes).0, ChangePhase(Running(after, threshold))).0
  }

  lemma OldVoteIsNoticed<U>(g: Gov<U>, after: seq<AccountId>, threshold: nat, i: nat) returns (calls: seq<Call<U>>)
    requires g.phase.Running? && g.p.Valid() && Distinct(after) && ValidThreshold(|after|, threshold)
    requires i < |after| && after[i] !in g.phase.participants && after[i] in g.p.votes
    ensures TellsApart(Uncleaned(g, after, threshold), Cleaned(g, after, threshold), calls)
  {
    var x, y, id := Uncleaned(g, after, threshold), Cleaned(g, after, threshold), g.p.votes[after[i]];
    var last := Others(after, i)[threshold - 2];
    ProbeAnswer(x, i, id);
    ProbeAnswer(y, i, id);
    ProbeIsPlain<U>(after, i, threshold, id, last);
    LastTellsApart(x, y, Probe(after, i, threshold, id), VoteUpdate(last, id));
    calls := Probe(after, i, threshold, id) + [VoteUpdate(last, id)];
  }

  lemma NoOldVoteIsCleaner<U>(g: Gov<U>, after: seq<AccountId>, threshold: nat)
    requires g.phase.Running? && forall a :: a in after && a !in g.phase.participants ==> a !in g.p.votes
    ensures Cleaner(Uncleaned(g, after, threshold), Cleaned(g, after, threshold), SetOf(after))
  {}

  /**
   * When the participants change to `after`, some later calls of participants are answered differently with and without
   * a cleanup just before if and only if somebody who joins has a vote already.
   */
  lemma CleanupIsNoticedIff<U(!new)>(g: Gov<U>, after: seq<AccountId>, threshold: nat)
    requires g.phase.Running? && g.p.Valid() && Distinct(after) && ValidThreshold(|after|, threshold)
    ensures (exists calls: seq<Call<U>> ::
               TellsApart(Uncleaned(g, after, threshold), Cleaned(g, after, threshold), calls)) <==>
            (exists a :: a in after && a !in g.phase.participants && a in g.p.votes)
  {
    if a :| a in after && a !in g.phase.participants && a in g.p.votes {
      var i: nat :| i < |after| && after[i] == a;
      var calls := OldVoteIsNoticed(g, after, threshold, i);
    } else {
      NoOldVoteIsCleaner(g, after, threshold);
      var x, y := Uncleaned(g, after, threshold), Cleaned(g, after, threshold);
      forall calls: seq<Call<U>> ensures !TellsApart(x, y, calls) {
        if Plain(calls) { CleanerAnswers(x, y, SetOf(after), calls); }
      }
    }
  }
}
