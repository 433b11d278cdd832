/** The ballot box of one voting round: a count per roster name, keyed by
    the normalised name and kept in roster order, votes that count only
    for known names, and the choice of the name with the most votes
    (the first such name in roster order when several tie). */
module Ballot {
  import opened GameTypes
  import opened Names

  /** Why no name can be eliminated: the roster is empty. */
  datatype VoteError = EmptyRoster

  predicate Distinct(xs: seq<string>)
  {
    forall i, j :: 0 <= i < j < |xs| ==> xs[i] != xs[j]
  }

  /** The first position of x in xs. */
  function IndexOf(xs: seq<string>, x: string): (i: nat)
    requires x in xs
    ensures i < |xs| && xs[i] == x
    ensures x !in xs[..i]
  {
    if xs[0] == x then 0
    else
      var j := IndexOf(xs[1..], x);
      assert xs[..1 + j] == [xs[0]] + xs[1..][..j];
      1 + j
  }

  /** IndexOf is the only position holding x with no x before it. */
  lemma IndexOfUnique(xs: seq<string>, x: string, i: nat)
    requires i < |xs| && xs[i] == x && x !in xs[..i]
    ensures IndexOf(xs, x) == i
  {
  }

  lemma IndexOfInPrefix(xs: seq<string>, n: nat, x: string)
    requires n <= |xs| && x in xs[..n]
    ensures IndexOf(xs, x) == IndexOf(xs[..n], x)
  {
  }

  /** xs without repeats, each element kept at its first occurrence. */
  function Dedup(xs: seq<string>): (d: seq<string>)
    ensures Distinct(d)
    ensures forall x :: x in d <==> x in xs
    ensures |d| <= |xs|
  {
    if xs == [] then []
    else
      var n := |xs| - 1;
      var init := Dedup(xs[..n]);
      assert forall x :: x in xs <==> x in xs[..n] || x == xs[n] by {
        assert xs == xs[..n] + [xs[n]];
      }
      if xs[n] in init then init else init + [xs[n]]
  }

  /** Dedup lists the distinct elements in the order of their first
      occurrence in xs. */
  lemma {:induction false} DedupFirstOccurrenceOrder(xs: seq<string>)
    ensures forall i, j :: 0 <= i < j < |Dedup(xs)| ==> IndexOf(xs, Dedup(xs)[i]) < IndexOf(xs, Dedup(xs)[j])
  {
    if xs != [] {
      var n := |xs| - 1;
      var init := Dedup(xs[..n]);
      DedupFirstOccurrenceOrder(xs[..n]);
      forall x | x in init
        ensures IndexOf(xs, x) == IndexOf(xs[..n], x) && IndexOf(xs, x) < n
      {
        IndexOfInPrefix(xs, n, x);
      }
      if xs[n] !in init {
        assert xs[..|xs|][..n] == xs[..n];
        IndexOfUnique(xs, xs[n], n);
      }
    }
  }

  /** A list without repeats is its own deduplication. */
  lemma {:induction false} DedupOfDistinct(xs: seq<string>)
    requires Distinct(xs)
    ensures Dedup(xs) == xs
  {
    if xs != [] {
      var n := |xs| - 1;
      DedupOfDistinct(xs[..n]);
      assert xs[n] !in xs[..n];
    }
  }

  function Normalised(agents: seq<string>): seq<string>
  {
    seq(|agents|, i requires 0 <= i < |agents| => Normalise(agents[i]))
  }

  /** The keys of the vote dictionary built from a roster, in insertion
      order: the normalised names, a repeated normalised name once, at
      its first occurrence. */
  function RosterKeys(agents: seq<string>): (keys: seq<string>)
    ensures Distinct(keys)
    ensures |keys| <= |agents|
    ensures forall k :: k in keys <==> k in Normalised(agents)
  {
    Dedup(Normalised(agents))
  }

  /** The roster keys are distinct normal forms, one per distinct
      normalised roster name, in first-occurrence order. */
  lemma RosterKeysSpec(agents: seq<string>)
    ensures Distinct(RosterKeys(agents))
    ensures |RosterKeys(agents)| <= |agents|
    ensures forall i :: 0 <= i < |agents| ==> Normalise(agents[i]) in RosterKeys(agents)
    ensures forall k :: k in RosterKeys(agents) ==> Normalise(k) == k
    ensures forall i, j :: 0 <= i < j < |RosterKeys(agents)| ==>
              IndexOf(Normalised(agents), RosterKeys(agents)[i]) < IndexOf(Normalised(agents), RosterKeys(agents)[j])
  {
    var ns := Normalised(agents);
    DedupFirstOccurrenceOrder(ns);
    forall i | 0 <= i < |agents|
      ensures Normalise(agents[i]) in RosterKeys(agents)
    {
      assert ns[i] in ns;
    }
    forall k | k in RosterKeys(agents)
      ensures Normalise(k) == k
    {
      var i := IndexOf(ns, k);
      NormaliseIdempotent(agents[i]);
    }
  }

  /** When no two roster names share a normal form, there is one key per
      roster name, in roster order. */
  lemma RosterKeysNoCollision(agents: seq<string>)
    requires Distinct(Normalised(agents))
    ensures RosterKeys(agents) == Normalised(agents)
  {
    DedupOfDistinct(Normalised(agents));
  }

  /** The fresh tally: every key at zero. */
  function ZeroCounts(keys: seq<string>): (c: map<string, int>)
    ensures forall k :: k in c <==> k in keys
    ensures forall k :: k in c ==> c[k] == 0
  {
    map k | k in keys :: 0
  }

  /** The tally after one vote for agent: the normalised name gains one
      vote if it is a key; nothing else changes. */
  function Tally(votes: map<string, int>, agent: string): (r: map<string, int>)
    ensures r.Keys == votes.Keys
    ensures forall k :: k in r ==> r[k] == votes[k] + (if k == Normalise(agent) then 1 else 0)
  {
    var name := Normalise(agent);
    if name in votes then votes[name := votes[name] + 1] else votes
  }

  /** The tally after a sequence of votes, cast in order. */
  function TallyAll(votes: map<string, int>, ballots: seq<string>): (r: map<string, int>)
    ensures r.Keys == votes.Keys
  {
    if ballots == [] then votes
    else Tally(TallyAll(votes, ballots[..|ballots| - 1]), ballots[|ballots| - 1])
  }

  /** How many of the ballots name (after normalisation) one of keys. */
  function Accepted(keys: seq<string>, ballots: seq<string>): nat
  {
    if ballots == [] then 0
    else
      Accepted(keys, ballots[..|ballots| - 1])
      + (if Normalise(ballots[|ballots| - 1]) in keys then 1 else 0)
  }

  /** The sum of the counts of keys. */
  function Total(keys: seq<string>, votes: map<string, int>): int
    requires forall k :: k in keys ==> k in votes
  {
    if keys == [] then 0 else votes[keys[0]] + Total(keys[1..], votes)
  }

  lemma {:induction false} TotalZero(keys: seq<string>, all: seq<string>)
    requires forall k :: k in keys ==> k in all
    ensures Total(keys, ZeroCounts(all)) == 0
  {
    if keys != [] {
      assert keys[0] in keys;
      TotalZero(keys[1..], all);
    }
  }

  /** One vote raises the sum of the counts by one when it names a key and
      leaves it unchanged otherwise. */
  lemma {:induction false} TallyTotal(keys: seq<string>, votes: map<string, int>, agent: string)
    requires Distinct(keys)
    requires forall k :: k in keys ==> k in votes
    ensures Total(keys, Tally(votes, agent)) == Total(keys, votes) + (if Normalise(agent) in keys then 1 else 0)
  {
    if keys != [] {
      assert keys[0] in keys;
      assert forall k :: k in keys[1..] ==> k in keys;
      assert Normalise(agent) in keys <==> Normalise(agent) == keys[0] || Normalise(agent) in keys[1..] by {
        assert keys == [keys[0]] + keys[1..];
      }
      assert forall j :: 0 <= j < |keys| - 1 ==> keys[1..][j] == keys[j + 1] != keys[0];
      TallyTotal(keys[1..], votes, agent);
    }
  }

  /** Starting from a fresh tally, the sum of the counts is the number of
      accepted votes: each vote for a roster name adds exactly one, and
      each vote for an unknown name adds nothing. */
  lemma {:induction false} TotalIsAcceptedVotes(agents: seq<string>, ballots: seq<string>)
    ensures var keys := RosterKeys(agents);
            Total(keys, TallyAll(ZeroCounts(keys), ballots)) == Accepted(keys, ballots)
  {
    var keys := RosterKeys(agents);
    if ballots == [] {
      TotalZero(keys, keys);
    } else {
      var n := |ballots| - 1;
      TotalIsAcceptedVotes(agents, ballots[..n]);
      TallyTotal(keys, TallyAll(ZeroCounts(keys), ballots[..n]), ballots[n]);
    }
  }

  /** Python's max(keys, key=votes.get): scanning in order, a later key
      replaces the current best only with a strictly higher count. The
      result is the position of a maximal count, and every earlier key
      has a strictly lower count. */
  function MaxIndex(keys: seq<string>, votes: map<string, int>): (j: nat)
    requires keys != []
    requires forall k :: k in keys ==> k in votes
    ensures j < |keys|
    ensures forall i :: 0 <= i < |keys| ==> votes[keys[i]] <= votes[keys[j]]
    ensures forall i :: 0 <= i < j ==> votes[keys[i]] < votes[keys[j]]
  {
    if |keys| == 1 then 0
    else
      var n := |keys| - 1;
      assert forall k :: k in keys[..n] ==> k in keys;
      var best := MaxIndex(keys[..n], votes);
      assert keys[..n][best] == keys[best];
      if votes[keys[n]] > votes[keys[best]] then n else best
  }

  /** The name to eliminate: a key with the highest count, the earliest in
      roster order among those that tie; an error on an empty roster. */
  function Eliminated(keys: seq<string>, votes: map<string, int>): (r: Result<string, VoteError>)
    requires forall k :: k in keys ==> k in votes
    ensures r.Err? <==> keys == []
    ensures r.Ok? ==> r.value in keys && forall k :: k in keys ==> votes[k] <= votes[r.value]
    ensures r.Ok? ==> forall i :: 0 <= i < |keys| && votes[keys[i]] == votes[r.value] ==> r.value in keys[..i + 1]
  {
    if keys == [] then Err(EmptyRoster)
    else
      var j := MaxIndex(keys, votes);
      assert forall i :: 0 <= i < |keys| && votes[keys[i]] == votes[keys[j]] ==> keys[j] in keys[..i + 1] by {
        forall i | 0 <= i < |keys| && votes[keys[i]] == votes[keys[j]]
          ensures keys[j] in keys[..i + 1]
        {
          assert keys[..i + 1][j] == keys[j];
        }
      }
      Ok(keys[j])
  }

  /** A single vote for a roster name on a fresh tally eliminates that
      name. */
  lemma SingleVoteElects(agents: seq<string>, agent: string)
    requires Normalise(agent) in RosterKeys(agents)
    ensures var keys := RosterKeys(agents);
            Eliminated(keys, Tally(ZeroCounts(keys), agent)) == Ok(Normalise(agent))
  {
  }

  /** When no name is ahead (for instance when no vote was cast), the first
      roster key is eliminated. */
  lemma AllTiedElectsFirst(keys: seq<string>, votes: map<string, int>)
    requires keys != []
    requires forall k :: k in keys ==> k in votes
    requires forall k :: k in keys ==> votes[k] == votes[keys[0]]
    ensures Eliminated(keys, votes) == Ok(keys[0])
  {
  }

  /** The ballot box of one round. `order` is the key order of the vote
      dictionary and `votes` its counts; the ghost field `accepted` counts
      the votes that named a key. */
  class VoteManager {
    var order: seq<string>
    var votes: map<string, int>
    ghost var accepted: nat

    ghost predicate Valid()
      reads this
    {
      && Distinct(order)
      && (forall k :: k in votes <==> k in order)
      && (forall k :: k in votes ==> votes[k] >= 0)
      && Total(order, votes) == accepted
    }

    /** One zero count per distinct normalised roster name, in
        first-occurrence order. */
    constructor (agents: seq<string>)
      ensures Valid()
      ensures order == RosterKeys(agents)
      ensures votes == ZeroCounts(order)
      ensures accepted == 0
    {
      order := RosterKeys(agents);
      votes := ZeroCounts(RosterKeys(agents));
      accepted := 0;
      new;
      TotalZero(order, order);
    }

    /** Counts a vote for agent's normalised name when it is a key; drops
        it silently otherwise. */
    method AddVote(agent: string)
      requires Valid()
      modifies this
      ensures Valid()
      ensures order == old(order)
      ensures votes == Tally(old(votes), agent)
      ensures accepted == old(accepted) + (if Normalise(agent) in old(votes) then 1 else 0)
    {
      var name := Normalise(agent);
      TallyTotal(order, votes, agent);
      if name in votes {
        votes := votes[name := votes[name] + 1];
        accepted := accepted + 1;
      }
    }

    /** The name with the most votes, the first in roster order on a tie;
        an error when the roster is empty. */
    function GetEliminatedAgent(): (r: Result<string, VoteError>)
      reads this
      requires Valid()
      ensures r.Err? <==> order == []
      ensures r.Ok? ==> r.value in votes && forall k :: k in votes ==> votes[k] <= votes[r.value]
      ensures r.Ok? ==> forall i :: 0 <= i < |order| && votes[order[i]] == votes[r.value] ==> r.value in order[..i + 1]
    {
      Eliminated(order, votes)
    }
  }
}
