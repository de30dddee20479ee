/** The per-player counters the scheduler keeps between slots, and counting helpers. */
module Tally {

  /** played[p] and rested[p] are the two per-player dictionaries of the scheduler
      (slots on court so far, and the current run of slots on the bench),
      indexed by roster position. */
  datatype Tally = Tally(played: seq<nat>, rested: seq<nat>) {
    predicate Valid() { |played| == |rested| }
    function Size(): nat { |played| }
  }

  function Zeros(n: nat): seq<nat> { seq(n, _ => 0) }

  /** Both counters start at zero for every player. */
  function Initial(n: nat): Tally { Tally(Zeros(n), Zeros(n)) }

  /** One more slot played for every member of court, the others unchanged. */
  function Bump(played: seq<nat>, court: seq<nat>): (r: seq<nat>)
    ensures |r| == |played|
  {
    seq(|played|, p requires 0 <= p < |played| => if p in court then played[p] + 1 else played[p])
  }

  /** The update after a slot: on-court players play one more slot and their rest
      run restarts at zero; benched players rest one slot longer. */
  function Advance(t: Tally, court: seq<nat>): (r: Tally)
    requires t.Valid()
    ensures r.Valid() && r.Size() == t.Size()
  {
    Tally(Bump(t.played, court),
          seq(|t.rested|, p requires 0 <= p < |t.rested| => if p in court then 0 else t.rested[p] + 1))
  }

  /** One player's counters after a slot: on court, one more slot played and no rest;
      on the bench, one more slot of rest. */
  lemma AdvanceAt(t: Tally, court: seq<nat>, p: nat)
    requires t.Valid() && p < t.Size()
    ensures Advance(t, court).Valid() && Advance(t, court).Size() == t.Size()
    ensures Advance(t, court).played[p] == t.played[p] + (if p in court then 1 else 0)
    ensures Advance(t, court).rested[p] == if p in court then 0 else t.rested[p] + 1
  {
  }

  function Sum(s: seq<nat>): nat
  {
    if s == [] then 0 else Sum(s[..|s| - 1]) + s[|s| - 1]
  }

  /** How many of the roster positions 0..k-1 occur in court. */
  function InCount(court: seq<nat>, k: nat): nat
  {
    if k == 0 then 0 else InCount(court, k - 1) + (if k - 1 in court then 1 else 0)
  }

  predicate Distinct(s: seq<nat>)
  {
    forall i, j :: 0 <= i < j < |s| ==> s[i] != s[j]
  }

  predicate InRoster(s: seq<nat>, n: nat)
  {
    forall i :: 0 <= i < |s| ==> s[i] < n
  }

  /** No slot has been played yet: the total is zero. */
  lemma {:induction false} SumZeros(n: nat)
    ensures Sum(Zeros(n)) == 0
  {
    if n > 0 {
      assert Zeros(n)[..n - 1] == Zeros(n - 1);
      SumZeros(n - 1);
    }
  }

  lemma {:induction false} InCountEmpty(k: nat)
    ensures InCount([], k) == 0
  {
    if k > 0 {
      InCountEmpty(k - 1);
    }
  }

  lemma {:induction false} InCountAppend(court: seq<nat>, x: nat, k: nat)
    requires x !in court
    ensures InCount(court + [x], k) == InCount(court, k) + (if x < k then 1 else 0)
  {
    if k > 0 {
      InCountAppend(court, x, k - 1);
      assert (k - 1 in court + [x]) <==> (k - 1 in court || k - 1 == x);
    }
  }

  /** A lineup of distinct roster players covers exactly as many roster positions as it has members. */
  lemma {:induction false} InCountOfDistinct(court: seq<nat>, n: nat)
    requires Distinct(court) && InRoster(court, n)
    ensures InCount(court, n) == |court|
  {
    if court == [] {
      InCountEmpty(n);
    } else {
      var init, x := court[..|court| - 1], court[|court| - 1];
      assert court == init + [x];
      assert x !in init;
      InCountOfDistinct(init, n);
      InCountAppend(init, x, n);
    }
  }

  /** Bumping the members of court adds, to the total, the number of roster positions court covers. */
  lemma {:induction false} SumBump(played: seq<nat>, court: seq<nat>)
    ensures Sum(Bump(played, court)) == Sum(played) + InCount(court, |played|)
  {
    if played != [] {
      var k := |played| - 1;
      assert Bump(played, court)[..k] == Bump(played[..k], court);
      SumBump(played[..k], court);
    }
  }
}
