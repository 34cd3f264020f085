/** Adding access keys to an account by doubling: every key adds at most one more in each round. */
module AccessKeys {
  import opened Wrappers
  import opened Accounts

  function Pow2(i: nat): (p: nat)
    ensures p >= 1
  {
    if i == 0 then 1 else 2 * Pow2(i - 1)
  }

  /** The number of keys after one more round. */
  function Round(k: nat, n: nat): nat {
    if k < n then k + Min(n - k, k) else k
  }

  function Rounds(k: nat, n: nat, i: nat): nat {
    if i == 0 then k else Round(Rounds(k, n, i - 1), n)
  }

  /** `r` is the least number of doublings of `k` that reaches `n`. */
  ghost predicate LeastDoublings(k: nat, n: nat, r: nat) {
    k * Pow2(r) >= n && forall i: nat :: i < r ==> k * Pow2(i) < n
  }

  lemma PowDoubles(k: nat, i: nat)
    requires i > 0
    ensures k * Pow2(i) == k * Pow2(i - 1) + k * Pow2(i - 1)
  {}

  lemma {:induction false} PowMonotone(k: nat, i: nat, j: nat)
    requires i <= j
    ensures k * Pow2(i) <= k * Pow2(j)
  {
    if i < j {
      PowMonotone(k, i, j - 1);
      PowDoubles(k, j);
    }
  }

  lemma RoundGrows(k: nat, n: nat)
    requires 1 <= k < n
    ensures k < Round(k, n) <= n
  {}

  lemma RoundDoubles(x: nat, n: nat)
    ensures Round(Min(n, x), n) == Min(n, x + x)
  {}

  /** The rounds double the keys, capped at the target, and never touch an account that has enough. */
  lemma {:induction false} RoundsDouble(k: nat, n: nat, i: nat)
    ensures Rounds(k, n, i) == if k >= n then k else Min(n, k * Pow2(i))
  {
    if i > 0 {
      RoundsDouble(k, n, i - 1);
      PowDoubles(k, i);
      RoundDoubles(k * Pow2(i - 1), n);
    }
  }

  /** A loop that takes its last round below the target took exactly the least number of doublings. */
  lemma LastRoundIsLeast(k: nat, n: nat, r: nat)
    requires Rounds(k, n, r) >= n
    requires r > 0 ==> Rounds(k, n, r - 1) < n
    ensures LeastDoublings(k, n, r)
  {
    RoundsDouble(k, n, r);
    PowMonotone(k, 0, r);
    if r > 0 {
      RoundsDouble(k, n, r - 1);
      forall i: nat | i < r ensures k * Pow2(i) < n {
        PowMonotone(k, i, r - 1);
      }
    }
  }

  lemma {:induction false} PowExceeds(n: nat)
    ensures Pow2(n) >= n
  {
    if n > 0 { PowExceeds(n - 1); }
  }

  ghost predicate Reaches(k: nat, n: nat) {
    exists i: nat :: Rounds(k, n, i) >= n
  }

  /** The rounds reach the target exactly when there is a key to start from, or nothing to add. */
  lemma ReachesIff(k: nat, n: nat)
    ensures Reaches(k, n) <==> k >= 1 || n == 0
  {
    if k >= 1 {
      PowExceeds(n);
      assert k * Pow2(n) >= Pow2(n);
      RoundsDouble(k, n, n);
    } else if n == 0 {
      assert Rounds(k, n, 0) >= n;
    } else {
      forall i: nat ensures Rounds(k, n, i) == 0 {
        RoundsDouble(k, n, i);
      }
    }
  }

  /** A key in use: the account it acts for and its secret. */
  datatype OperatingAccessKey<Key> = OperatingAccessKey(account: AccountId, key: Key)

  /** The keys that a round adds to `k` keys, one by each of the first ones. */
  function Added<Key>(k: nat, n: nat, round: nat, generate: (nat, nat) -> Key): (added: seq<Key>)
    ensures k + |added| == Round(k, n)
    ensures forall i :: 0 <= i < |added| ==> added[i] == generate(round, i)
  {
    var keysToAdd := if k < n then Min(n - k, k) else 0;
    seq(keysToAdd, i requires 0 <= i < keysToAdd => generate(round, i))
  }

  ghost function Stored<Key>(stored: seq<Key>, n: nat, i: nat, generate: (nat, nat) -> Key): (after: seq<Key>)
    ensures |after| == Rounds(|stored|, n, i)
    ensures stored <= after
  {
    if i == 0 then stored else
      var before := Stored(stored, n, i - 1, generate);
      before + Added(|before|, n, i - 1, generate)
  }

  /** The key that key `j` adds in round `r` stands where the keys of the earlier rounds end, `j` places on. */
  ghost predicate GrownFrom<Key>(keys: seq<Key>, k: nat, r: nat, j: nat, generate: (nat, nat) -> Key) {
    k * Pow2(r) + j < |keys| && keys[k * Pow2(r) + j] == generate(r, j)
  }

  /** So it is for every key added in the first `rounds` rounds. */
  ghost predicate Grown<Key>(keys: seq<Key>, k: nat, n: nat, rounds: nat, generate: (nat, nat) -> Key) {
    forall r: nat, j: nat :: r < rounds && j < k * Pow2(r) && k * Pow2(r) + j < n ==> GrownFrom(keys, k, r, j, generate)
  }

  /** The last round adds from where the earlier ones end. */
  lemma LastRoundAdds(k: nat, n: nat, r: nat, j: nat)
    requires j < k * Pow2(r) && k * Pow2(r) + j < n
    ensures Rounds(k, n, r) == k * Pow2(r) && k * Pow2(r) + j < Rounds(k, n, r + 1)
  {
    PowDoubles(k, r + 1);
    PowMonotone(k, 0, r);
    RoundsDouble(k, n, r);
    RoundsDouble(k, n, r + 1);
  }

  lemma {:induction false} StoredAt<Key>(stored: seq<Key>, n: nat, i: nat, generate: (nat, nat) -> Key, r: nat, j: nat)
    requires r < i && j < |stored| * Pow2(r) && |stored| * Pow2(r) + j < n
    ensures GrownFrom(Stored(stored, n, i, generate), |stored|, r, j, generate)
  {
    if r < i - 1 {
      StoredAt(stored, n, i - 1, generate, r, j);
    } else {
      LastRoundAdds(|stored|, n, r, j);
    }
  }

  lemma StoredIsGrown<Key>(stored: seq<Key>, n: nat, rounds: nat, generate: (nat, nat) -> Key)
    ensures Grown(Stored(stored, n, rounds, generate), |stored|, n, rounds, generate)
  {
    forall r: nat, j: nat | r < rounds && j < |stored| * Pow2(r) && |stored| * Pow2(r) + j < n
      ensures GrownFrom(Stored(stored, n, rounds, generate), |stored|, r, j, generate)
    {
      StoredAt(stored, n, rounds, generate, r, j);
    }
  }

  class OperatingAccount<Key> {
    const accountId: AccountId
    var accessKeys: seq<Key>
    var keys: seq<OperatingAccessKey<Key>>

    /** The live keys are the stored keys, in order. */
    ghost predicate Valid()
      reads this
    {
      && |keys| == |accessKeys|
      && forall i :: 0 <= i < |keys| ==> keys[i] == OperatingAccessKey(accountId, accessKeys[i])
    }

    constructor (account: AccountId, stored: seq<Key>)
      ensures Valid() && accountId == account && accessKeys == stored
    {
      accountId, accessKeys := account, stored;
      keys := seq(|stored|, i requires 0 <= i < |stored| => OperatingAccessKey(account, stored[i]));
    }

    method PushKeys(newKeys: seq<Key>)
      requires Valid()
      modifies this
      ensures Valid() && accessKeys == old(accessKeys) + newKeys
    {
      for n := 0 to |newKeys|
        invariant Valid() && accessKeys == old(accessKeys) + newKeys[..n]
      {
        accessKeys := accessKeys + [newKeys[n]];
        keys := keys + [OperatingAccessKey(accountId, newKeys[n])];
        assert newKeys[..n + 1] == newKeys[..n] + [newKeys[n]];
      }
      assert newKeys[..|newKeys|] == newKeys;
    }

    /** The rounds, each one pass of the loop; `generate(round, i)` is the key that key `i` adds in that round. */
    method AddInRounds(desired: nat, generate: (nat, nat) -> Key, ghost k: nat, ghost stored: seq<Key>)
      returns (rounds: nat)
      requires Valid() && k == |keys| && stored == accessKeys && (k >= 1 || desired == 0)
      modifies this
      ensures Valid() && accessKeys == Stored(stored, desired, rounds, generate)
      ensures |keys| == if k >= desired then k else desired
      ensures rounds > 0 ==> Rounds(k, desired, rounds - 1) < desired
    {
      rounds := 0;
      while |keys| < desired
        invariant Valid() && accessKeys == Stored(stored, desired, rounds, generate)
        invariant rounds > 0 ==> Rounds(k, desired, rounds - 1) < desired
        invariant k <= |keys| && (|keys| <= desired || rounds == 0)
        decreases desired - |keys|
      {
        RoundGrows(|keys|, desired);
        var newKeys := Added(|keys|, desired, rounds, generate);
        PushKeys(newKeys);
        rounds := rounds + 1;
      }
    }

    /** It always reaches the number asked for, in the least number of doublings, each new key from a known one. */
    method EnsureHaveNAccessKeys(desired: nat, generate: (nat, nat) -> Key) returns (rounds: nat)
      requires Valid()
      requires Reaches(|keys|, desired)
      modifies this
      ensures Valid()
      ensures |keys| == if old(|keys|) >= desired then old(|keys|) else desired
      ensures accessKeys == Stored(old(accessKeys), desired, rounds, generate) && old(accessKeys) <= accessKeys
      ensures LeastDoublings(old(|keys|), desired, rounds)
      ensures Grown(accessKeys, old(|keys|), desired, rounds, generate)
    {
      ghost var k, stored := |keys|, accessKeys;
      ReachesIff(k, desired);
      rounds := AddInRounds(desired, generate, k, stored);
      LastRoundIsLeast(k, desired, rounds);
      StoredIsGrown(stored, desired, rounds, generate);
    }
  }
}
