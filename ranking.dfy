/** The ranking the scheduler sorts the roster by before every slot, and the lineup it takes from it. */
module Ranking {
  import opened Game
  import opened Tally

  /** The sort key (slots played ascending, rested streak descending, roster index ascending),
      as a strict order on roster positions. The index makes every two keys differ. */
  predicate KeyLess(t: Tally, p: nat, q: nat)
    requires t.Valid() && p < t.Size() && q < t.Size()
    ensures KeyLess(t, p, q) ==> p != q && t.played[p] <= t.played[q]
  {
    || t.played[p] < t.played[q]
    || (t.played[p] == t.played[q] && t.rested[p] > t.rested[q])
    || (t.played[p] == t.played[q] && t.rested[p] == t.rested[q] && p < q)
  }

  predicate SortedByKey(t: Tally, s: seq<nat>)
    requires t.Valid() && InRoster(s, t.Size())
  {
    forall i, j :: 0 <= i < j < |s| ==> KeyLess(t, s[i], s[j])
  }

  /** Places x into s before the first element whose key is larger. */
  function Insert(t: Tally, x: nat, s: seq<nat>): (r: seq<nat>)
    requires t.Valid() && x < t.Size() && InRoster(s, t.Size())
    ensures |r| == |s| + 1 && InRoster(r, t.Size())
  {
    if s == [] then [x]
    else if KeyLess(t, x, s[0]) then [x] + s
    else
      assert s == [s[0]] + s[1..];
      [s[0]] + Insert(t, x, s[1..])
  }

  /** The players 0..k-1 sorted by key: for k = n, the list Python's sorted() returns. */
  function Ranked(t: Tally, k: nat): (r: seq<nat>)
    requires t.Valid() && k <= t.Size()
    ensures |r| == k && InRoster(r, t.Size())
  {
    if k == 0 then [] else Insert(t, k - 1, Ranked(t, k - 1))
  }

  lemma {:induction false} InsertMembers(t: Tally, x: nat, s: seq<nat>)
    requires t.Valid() && x < t.Size() && InRoster(s, t.Size())
    ensures forall y :: y in Insert(t, x, s) <==> y in s || y == x
  {
    if s != [] && !KeyLess(t, x, s[0]) {
      InsertMembers(t, x, s[1..]);
      assert s == [s[0]] + s[1..];
    }
  }

  lemma {:induction false} InsertKeepsOrder(t: Tally, x: nat, s: seq<nat>)
    requires t.Valid() && x < t.Size() && InRoster(s, t.Size())
    requires SortedByKey(t, s) && x !in s
    ensures SortedByKey(t, Insert(t, x, s))
  {
    if s != [] && !KeyLess(t, x, s[0]) {
      var rest := Insert(t, x, s[1..]);
      InsertKeepsOrder(t, x, s[1..]);
      InsertMembers(t, x, s[1..]);
      assert KeyLess(t, s[0], x);
      forall j | 0 <= j < |rest|
        ensures KeyLess(t, s[0], rest[j])
      {
        assert rest[j] in rest;
        if rest[j] != x {
          var k :| 0 <= k < |s[1..]| && s[1..][k] == rest[j];
          assert s[k + 1] == rest[j];
        }
      }
    }
  }

  /** The ranking holds every player 0..k-1 once, in strictly ascending key order. */
  lemma {:induction false} RankedOrders(t: Tally, k: nat)
    requires t.Valid() && k <= t.Size()
    ensures SortedByKey(t, Ranked(t, k))
    ensures forall p :: p in Ranked(t, k) <==> 0 <= p < k
  {
    if k > 0 {
      RankedOrders(t, k - 1);
      InsertMembers(t, k - 1, Ranked(t, k - 1));
      InsertKeepsOrder(t, k - 1, Ranked(t, k - 1));
    }
  }

  /** The players put on court: the first five of the ranked roster. */
  function Lineup(t: Tally): (court: seq<nat>)
    requires t.Valid() && t.Size() >= PlayersOnCourt
    ensures |court| == PlayersOnCourt && InRoster(court, t.Size())
  {
    Ranked(t, t.Size())[..PlayersOnCourt]
  }

  /** The lineup holds distinct roster players in ascending key order, and each one's key
      is smaller than the key of every player left on the bench. */
  lemma LineupRanks(t: Tally)
    requires t.Valid() && t.Size() >= PlayersOnCourt
    ensures Distinct(Lineup(t)) && SortedByKey(t, Lineup(t))
    ensures forall i, b :: 0 <= i < PlayersOnCourt && 0 <= b < t.Size() && b !in Lineup(t) ==>
      KeyLess(t, Lineup(t)[i], b)
  {
    var ranked := Ranked(t, t.Size());
    RankedOrders(t, t.Size());
    forall i, b | 0 <= i < PlayersOnCourt && 0 <= b < t.Size() && b !in ranked[..PlayersOnCourt]
      ensures KeyLess(t, ranked[i], b)
    {
      assert b in ranked;
      var j :| 0 <= j < |ranked| && ranked[j] == b;
    }
  }

  /** With exactly five players, every player is in the lineup. */
  lemma FiveMakeFullLineup(t: Tally)
    requires t.Valid() && t.Size() == PlayersOnCourt
    ensures forall p :: 0 <= p < PlayersOnCourt ==> p in Lineup(t)
  {
    RankedOrders(t, t.Size());
    assert Ranked(t, t.Size())[..PlayersOnCourt] == Ranked(t, t.Size());
  }

  /** No two players' slot counts differ by more than one. */
  predicate Balanced(played: seq<nat>)
  {
    forall p, q :: 0 <= p < |played| && 0 <= q < |played| ==> played[p] <= played[q] + 1
  }

  /** Putting the lineup on court keeps the slot counts within one of each other:
      the lineup never holds a player who has played more than a benched one. */
  lemma LineupKeepsBalance(t: Tally)
    requires t.Valid() && t.Size() >= PlayersOnCourt && Balanced(t.played)
    ensures Balanced(Bump(t.played, Lineup(t)))
  {
    var court := Lineup(t);
    var after := Bump(t.played, court);
    LineupRanks(t);
    forall p, q | 0 <= p < |after| && 0 <= q < |after|
      ensures after[p] <= after[q] + 1
    {
      if p in court && q !in court {
        var i :| 0 <= i < |court| && court[i] == p;
        assert KeyLess(t, court[i], q);
      }
    }
  }
}
