/**
  The goal ledger as values: the catalog entries, the record stored per user in
  the goals table, and the list operations that `add_goals`, `remove_goal` and
  `get_goal` perform on a user's goal list. Rewards are integer cents, so the
  source's `round(total, 2)` leaves every sum unchanged.
*/
module Goals {
  import opened Wrappers

  /** A catalog entry: the goal's name (the `goal` key) and its reward in cents. */
  datatype Goal = Goal(name: string, reward: int)

  /** The record stored under a username: `{value, amount, goals}`. */
  datatype Ledger = Ledger(value: int, amount: int, goals: seq<Goal>)

  function Min(a: int, b: int): int { if a <= b then a else b }

  function Max(a: int, b: int): int { if a <= b then b else a }

  /** Sum of the rewards of a goal list, added left to right. */
  function SumRewards(gs: seq<Goal>): int
  {
    if gs == [] then 0 else SumRewards(gs[..|gs| - 1]) + gs[|gs| - 1].reward
  }

  /** A record whose `amount` is its list length and whose `value` is its reward sum. */
  predicate Consistent(l: Ledger)
  {
    l.amount == |l.goals| && l.value == SumRewards(l.goals)
  }

  /** Names are unique within the list. */
  predicate UniqueNames(gs: seq<Goal>)
  {
    forall i, j :: 0 <= i < j < |gs| ==> gs[i].name != gs[j].name
  }

  /** Python's slice `s[:n]`: a negative `n` counts from the end. */
  function Prefix(s: seq<Goal>, n: int): (r: seq<Goal>)
    ensures |r| == if n >= 0 then Min(n, |s|) else Max(0, |s| + n)
    ensures r == s[..|r|]
  {
    if n >= |s| then s
    else if n >= 0 then s[..n]
    else if |s| + n >= 0 then s[..|s| + n]
    else []
  }

  /** Index of the first goal named `name`, the position a first-match scan stops at. */
  function FirstIndex(gs: seq<Goal>, name: string): (r: Option<nat>)
    ensures r.Some? ==> r.value < |gs| && gs[r.value].name == name
    ensures r.Some? ==> forall j :: 0 <= j < r.value ==> gs[j].name != name
    ensures r.None? <==> forall j :: 0 <= j < |gs| ==> gs[j].name != name
  {
    if gs == [] then None
    else if gs[0].name == name then Some(0)
    else match FirstIndex(gs[1..], name)
      case None => None
      case Some(i) => Some(i + 1)
  }

  /** `goals` with its first entry named `name` dropped; unchanged when none has that name. */
  function RemoveFirstNamed(gs: seq<Goal>, name: string): seq<Goal>
  {
    match FirstIndex(gs, name)
    case None => gs
    case Some(i) => gs[..i] + gs[i + 1..]
  }

  /** The record `remove_goal` stores: the remaining list with its count and total recomputed. */
  function Removed(l: Ledger, name: string): (r: Ledger)
    ensures Consistent(r)
    ensures r.goals == RemoveFirstNamed(l.goals, name)
  {
    var rest := RemoveFirstNamed(l.goals, name);
    Ledger(SumRewards(rest), |rest|, rest)
  }

  /** Python's `list.remove(x)`: drops the first element equal to `x`. */
  function ListRemove(s: seq<Goal>, x: Goal): (r: seq<Goal>)
    requires x in s
    ensures |r| == |s| - 1
  {
    if s[0] == x then s[1..] else [s[0]] + ListRemove(s[1..], x)
  }

  // ---------------------------------------------------------------------------
  // The loops of `add_goals` and `remove_goal`

  /** The accumulator loop of `add_goals` and `remove_goal` (`total_reward += reward`). */
  method TotalReward(goals: seq<Goal>) returns (total: int)
    ensures total == SumRewards(goals)
  {
    total := 0;
    var i := 0;
    while i < |goals|
      invariant 0 <= i <= |goals|
      invariant total == SumRewards(goals[..i])
    {
      assert goals[..i + 1][..i] == goals[..i];
      total := total + goals[i].reward;
      i := i + 1;
    }
    assert goals[..|goals|] == goals;
  }

  /**
    The search loop of `remove_goal`: scan for the first goal named `name`,
    `list.remove` it and stop.
  */
  method RemoveFirstMatch(goals: seq<Goal>, name: string) returns (rest: seq<Goal>)
    ensures rest == RemoveFirstNamed(goals, name)
  {
    var i := 0;
    while i < |goals|
      invariant 0 <= i <= |goals|
      invariant forall j :: 0 <= j < i ==> goals[j].name != name
    {
      if goals[i].name == name {
        FirstIndexAt(goals, name, i);
        ListRemoveAt(goals, i);
        return ListRemove(goals, goals[i]);
      }
      i := i + 1;
    }
    rest := goals;
  }

  // ---------------------------------------------------------------------------
  // Lemmas

  /** A match with no earlier match is the one `FirstIndex` finds. */
  lemma FirstIndexAt(gs: seq<Goal>, name: string, i: nat)
    requires i < |gs| && gs[i].name == name
    requires forall j :: 0 <= j < i ==> gs[j].name != name
    ensures FirstIndex(gs, name) == Some(i)
  {
  }

  /**
    `list.remove(x)` deletes the first position holding `x`: when no earlier
    element equals `s[i]`, it deletes exactly position `i`.
  */
  lemma {:induction false} ListRemoveAt(s: seq<Goal>, i: nat)
    requires i < |s|
    requires forall j :: 0 <= j < i ==> s[j] != s[i]
    ensures s[i] in s
    ensures ListRemove(s, s[i]) == s[..i] + s[i + 1..]
  {
    if i == 0 {
      assert s[..0] + s[1..] == s[1..];
    } else {
      var tail := s[1..];
      assert tail[i - 1] == s[i];
      ListRemoveAt(tail, i - 1);
      assert [s[0]] + tail[..i - 1] == s[..i] by {
        forall k | 0 <= k < i ensures ([s[0]] + tail[..i - 1])[k] == s[k] {
          if k > 0 { assert tail[k - 1] == s[k]; }
        }
      }
      assert tail[i..] == s[i + 1..];
    }
  }

  /** `list.remove(x)` takes exactly one copy of `x` out and keeps everything else. */
  lemma {:induction false} ListRemoveContents(s: seq<Goal>, x: Goal)
    requires x in s
    ensures multiset(ListRemove(s, x)) + multiset{x} == multiset(s)
  {
    assert s == [s[0]] + s[1..];
    if s[0] != x {
      ListRemoveContents(s[1..], x);
    }
  }

  lemma {:induction false} SumRewardsAppend(a: seq<Goal>, b: seq<Goal>)
    ensures SumRewards(a + b) == SumRewards(a) + SumRewards(b)
  {
    if b != [] {
      assert (a + b)[..|a + b| - 1] == a + b[..|b| - 1];
      SumRewardsAppend(a, b[..|b| - 1]);
    } else {
      assert a + b == a;
    }
  }

  /**
    Removing a present goal drops the list length by exactly one, lowers the
    total by exactly that goal's reward and keeps the other goals in order; an
    absent name leaves the list as it was.
  */
  lemma RemoveFirstNamedEffect(gs: seq<Goal>, name: string)
    ensures FirstIndex(gs, name).None? ==> RemoveFirstNamed(gs, name) == gs
    ensures FirstIndex(gs, name).Some? ==>
      var i := FirstIndex(gs, name).value;
      && RemoveFirstNamed(gs, name) == gs[..i] + gs[i + 1..]
      && |RemoveFirstNamed(gs, name)| == |gs| - 1
      && SumRewards(RemoveFirstNamed(gs, name)) == SumRewards(gs) - gs[i].reward
      && multiset(RemoveFirstNamed(gs, name)) + multiset{gs[i]} == multiset(gs)
  {
    match FirstIndex(gs, name)
    case None =>
    case Some(i) =>
      assert gs == gs[..i] + [gs[i]] + gs[i + 1..];
      SumRewardsAppend(gs[..i], [gs[i]]);
      SumRewardsAppend(gs[..i] + [gs[i]], gs[i + 1..]);
      SumRewardsAppend(gs[..i], gs[i + 1..]);
      assert SumRewards([gs[i]]) == gs[i].reward by {
        assert [gs[i]][..0] == [];
      }
  }

  /**
    On a consistent record holding the goal, removal lowers `amount` by one
    and `value` by that goal's reward.
  */
  lemma RemovedFromConsistent(l: Ledger, name: string)
    requires Consistent(l)
    requires FirstIndex(l.goals, name).Some?
    ensures Removed(l, name).amount == l.amount - 1
    ensures Removed(l, name).value == l.value - l.goals[FirstIndex(l.goals, name).value].reward
  {
    RemoveFirstNamedEffect(l.goals, name);
  }

  /** With unique names, once a goal is removed no goal of that name is left. */
  lemma RemovedGoalIsGone(gs: seq<Goal>, name: string)
    requires UniqueNames(gs)
    ensures FirstIndex(RemoveFirstNamed(gs, name), name).None?
  {
    match FirstIndex(gs, name)
    case None =>
    case Some(i) =>
      var rest := gs[..i] + gs[i + 1..];
      forall j | 0 <= j < |rest| ensures rest[j].name != name {
        if j < i {
          assert rest[j] == gs[j];
        } else {
          assert rest[j] == gs[j + 1];
          assert gs[i].name != gs[j + 1].name;
        }
      }
  }

  /** Removing a goal keeps the remaining names unique, so repeated claims stay covered. */
  lemma RemovedKeepsUnique(gs: seq<Goal>, name: string)
    requires UniqueNames(gs)
    ensures UniqueNames(RemoveFirstNamed(gs, name))
  {
    match FirstIndex(gs, name)
    case None =>
    case Some(i) =>
      var rest := gs[..i] + gs[i + 1..];
      forall a, b | 0 <= a < b < |rest| ensures rest[a].name != rest[b].name {
        var a' := if a < i then a else a + 1;
        var b' := if b < i then b else b + 1;
        assert rest[a] == gs[a'] && rest[b] == gs[b'];
        assert a' < b';
      }
  }

  /** A unique-named list holds each goal at most once. */
  lemma {:induction false} UniqueCountAtMostOne(gs: seq<Goal>, x: Goal)
    requires UniqueNames(gs)
    ensures multiset(gs)[x] <= 1
  {
    if gs != [] {
      var tail := gs[1..];
      assert gs == [gs[0]] + tail;
      assert UniqueNames(tail) by {
        forall i, j | 0 <= i < j < |tail| ensures tail[i].name != tail[j].name {
          assert tail[i] == gs[i + 1] && tail[j] == gs[j + 1];
        }
      }
      UniqueCountAtMostOne(tail, x);
      if x == gs[0] {
        forall k | 0 <= k < |tail| ensures tail[k] != x {
          assert tail[k] == gs[k + 1];
          assert gs[0].name != gs[k + 1].name;
        }
        assert x !in tail;
      }
    }
  }

  /** Two positions holding the same goal make it occur at least twice. */
  lemma TwiceCounted(s: seq<Goal>, i: nat, j: nat)
    requires i < j < |s| && s[i] == s[j]
    ensures multiset(s)[s[i]] >= 2
  {
    assert s == s[..i] + [s[i]] + s[i + 1..j] + [s[j]] + s[j + 1..];
    assert multiset(s) == multiset(s[..i]) + multiset{s[i]} + multiset(s[i + 1..j])
                          + multiset{s[j]} + multiset(s[j + 1..]);
  }

  /** A permutation of a unique-named catalog is unique-named. */
  lemma UniqueUnderPermutation(catalog: seq<Goal>, shuffled: seq<Goal>)
    requires multiset(shuffled) == multiset(catalog)
    requires UniqueNames(catalog)
    ensures UniqueNames(shuffled)
  {
    forall i, j | 0 <= i < j < |shuffled| ensures shuffled[i].name != shuffled[j].name {
      if shuffled[i] == shuffled[j] {
        TwiceCounted(shuffled, i, j);
        UniqueCountAtMostOne(catalog, shuffled[i]);
      } else {
        assert shuffled[i] in multiset(catalog) && shuffled[j] in multiset(catalog);
        var p :| 0 <= p < |catalog| && catalog[p] == shuffled[i];
        var q :| 0 <= q < |catalog| && catalog[q] == shuffled[j];
        assert p != q;
      }
    }
  }

  /**
    What `add_goals` stores, given the shuffled catalog: the goals are a prefix
    of a permutation of the catalog, drawn without replacement; for `n >= 0`
    there are `min(n, |catalog|)` of them; the stored `amount` (the requested
    `n`) agrees with the list length exactly when `0 <= n <= |catalog|`; and a
    catalog with unique names yields a list with unique names.
  */
  lemma AssignedLedger(catalog: seq<Goal>, shuffled: seq<Goal>, n: int)
    requires multiset(shuffled) == multiset(catalog)
    ensures var gs := Prefix(shuffled, n);
      && multiset(gs) <= multiset(catalog)
      && (n >= 0 ==> |gs| == Min(n, |catalog|))
      && (Consistent(Ledger(SumRewards(gs), n, gs)) <==> 0 <= n <= |catalog|)
      && (UniqueNames(catalog) ==> UniqueNames(gs))
  {
    var gs := Prefix(shuffled, n);
    assert |shuffled| == |catalog| by {
      assert |multiset(shuffled)| == |multiset(catalog)|;
    }
    assert shuffled == gs + shuffled[|gs|..];
    assert multiset(shuffled) == multiset(gs) + multiset(shuffled[|gs|..]);
    if UniqueNames(catalog) {
      UniqueUnderPermutation(catalog, shuffled);
      assert forall i :: 0 <= i < |gs| ==> gs[i] == shuffled[i];
    }
  }
}
