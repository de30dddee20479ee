/** The greedy rotation scheduler: the slot-count search and the slot-by-slot selection loop. */
module Scheduler {
  import opened Game
  import opened Tally
  import opened Ranking

  // ---------------------------------------------------------------------------
  // Specification of the selection loop

  /** The counters after the first k slots of a game with n players. */
  function TallyAfter(n: nat, k: nat): (t: Tally)
    requires n >= PlayersOnCourt
    ensures t.Valid() && t.Size() == n
  {
    if k == 0 then Initial(n)
    else
      var prev := TallyAfter(n, k - 1);
      Advance(prev, Lineup(prev))
  }

  /** The lineups of the first k slots of a game with n players: slot j holds the
      lineup ranked from the counters after the j slots before it. */
  function ScheduleOf(n: nat, k: nat): (schedule: seq<seq<nat>>)
    requires n >= PlayersOnCourt
    ensures |schedule| == k
  {
    seq(k, j requires 0 <= j < k => Lineup(TallyAfter(n, j)))
  }

  /** Every slot holds exactly five distinct roster players. */
  predicate WellFormed(schedule: seq<seq<nat>>, n: nat)
  {
    forall j :: 0 <= j < |schedule| ==>
      |schedule[j]| == PlayersOnCourt && Distinct(schedule[j]) && InRoster(schedule[j], n)
  }

  /** Number of slots of schedule in which p is on court. */
  function SlotsOn(schedule: seq<seq<nat>>, p: nat): nat
  {
    if schedule == [] then 0
    else SlotsOn(schedule[..|schedule| - 1], p) + (if p in schedule[|schedule| - 1] then 1 else 0)
  }

  /** Number of slots at the end of schedule in which p has sat on the bench without a break. */
  function BenchStreak(schedule: seq<seq<nat>>, p: nat): nat
  {
    if schedule == [] || p in schedule[|schedule| - 1] then 0
    else BenchStreak(schedule[..|schedule| - 1], p) + 1
  }

  /** Every slot of a schedule holds five distinct players of the roster. */
  lemma ScheduleWellFormed(n: nat, k: nat)
    requires n >= PlayersOnCourt
    ensures WellFormed(ScheduleOf(n, k), n)
  {
    forall j | 0 <= j < k
      ensures |ScheduleOf(n, k)[j]| == PlayersOnCourt && Distinct(ScheduleOf(n, k)[j])
      ensures InRoster(ScheduleOf(n, k)[j], n)
    {
      LineupRanks(TallyAfter(n, j));
    }
  }

  /** Slot j puts on court the five best-ranked players under the counters of the slots before it. */
  lemma SlotFollowsRanking(n: nat, k: nat, j: nat)
    requires n >= PlayersOnCourt && j < k
    ensures forall i, b :: 0 <= i < PlayersOnCourt && 0 <= b < n && b !in ScheduleOf(n, k)[j] ==>
      KeyLess(TallyAfter(n, j), ScheduleOf(n, k)[j][i], b)
  {
    LineupRanks(TallyAfter(n, j));
  }

  /** The counters say what the schedule did: played[p] is the number of slots p was on
      court, rested[p] the number of slots p has sat on the bench since last playing. */
  lemma {:induction false} CountersMatchSchedule(n: nat, k: nat)
    requires n >= PlayersOnCourt
    ensures forall p :: 0 <= p < n ==>
      TallyAfter(n, k).played[p] == SlotsOn(ScheduleOf(n, k), p)
      && TallyAfter(n, k).rested[p] == BenchStreak(ScheduleOf(n, k), p)
  {
    if k > 0 {
      CountersMatchSchedule(n, k - 1);
      forall p | 0 <= p < n
        ensures TallyAfter(n, k).played[p] == SlotsOn(ScheduleOf(n, k), p)
        ensures TallyAfter(n, k).rested[p] == BenchStreak(ScheduleOf(n, k), p)
      {
        CountersStep(n, k - 1, p);
      }
    }
  }

  /** If p's counters match the first k slots, they match the first k + 1. */
  lemma CountersStep(n: nat, k: nat, p: nat)
    requires n >= PlayersOnCourt && p < n
    requires TallyAfter(n, k).played[p] == SlotsOn(ScheduleOf(n, k), p)
    requires TallyAfter(n, k).rested[p] == BenchStreak(ScheduleOf(n, k), p)
    ensures TallyAfter(n, k + 1).played[p] == SlotsOn(ScheduleOf(n, k + 1), p)
    ensures TallyAfter(n, k + 1).rested[p] == BenchStreak(ScheduleOf(n, k + 1), p)
  {
    var court := Lineup(TallyAfter(n, k));
    TallyStep(n, k);
    ScheduleStep(n, k);
    AdvanceAt(TallyAfter(n, k), court, p);
    CountsAppend(ScheduleOf(n, k), court, p);
  }

  /** Appending a slot adds one to p's slot count when p is in it; it extends p's bench
      streak by one when p is not, and ends it otherwise. */
  lemma CountsAppend(schedule: seq<seq<nat>>, court: seq<nat>, p: nat)
    ensures SlotsOn(schedule + [court], p) == SlotsOn(schedule, p) + (if p in court then 1 else 0)
    ensures BenchStreak(schedule + [court], p) == if p in court then 0 else BenchStreak(schedule, p) + 1
  {
    assert (schedule + [court])[..|schedule|] == schedule;
  }

  /** After k slots the slot counts add up to the five seats of each slot. */
  lemma {:induction false} SeatsFilled(n: nat, k: nat)
    requires n >= PlayersOnCourt
    ensures Sum(TallyAfter(n, k).played) == PlayersOnCourt * k
  {
    if k == 0 {
      SumZeros(n);
    } else {
      var prev := TallyAfter(n, k - 1);
      SeatsFilled(n, k - 1);
      SumBump(prev.played, Lineup(prev));
      LineupRanks(prev);
      InCountOfDistinct(Lineup(prev), n);
    }
  }

  /** After every slot, no two players' slot counts differ by more than one. */
  lemma {:induction false} PlayingTimeBalanced(n: nat, k: nat)
    requires n >= PlayersOnCourt
    ensures Balanced(TallyAfter(n, k).played)
  {
    if k > 0 {
      PlayingTimeBalanced(n, k - 1);
      LineupKeepsBalance(TallyAfter(n, k - 1));
    }
  }

  /** With exactly five players every slot holds the whole roster and everyone plays every slot. */
  lemma {:induction false} FivePlayersAlwaysOnCourt(n: nat, k: nat)
    requires n == PlayersOnCourt
    ensures forall j, p :: 0 <= j < k && 0 <= p < n ==> p in ScheduleOf(n, k)[j]
    ensures forall p :: 0 <= p < n ==> TallyAfter(n, k).played[p] == k
  {
    if k > 0 {
      FivePlayersAlwaysOnCourt(n, k - 1);
      FiveMakeFullLineup(TallyAfter(n, k - 1));
      forall j, p | 0 <= j < k && 0 <= p < n
        ensures p in ScheduleOf(n, k)[j]
      {
        FiveMakeFullLineup(TallyAfter(n, j));
      }
    }
  }

  // ---------------------------------------------------------------------------
  // The selection loop

  /** One more slot extends the counters by the lineup they rank first. */
  lemma TallyStep(n: nat, k: nat)
    requires n >= PlayersOnCourt
    ensures TallyAfter(n, k + 1) == Advance(TallyAfter(n, k), Lineup(TallyAfter(n, k)))
  {
  }

  /** One more slot appends that lineup to the schedule. */
  lemma ScheduleStep(n: nat, k: nat)
    requires n >= PlayersOnCourt
    ensures ScheduleOf(n, k + 1) == ScheduleOf(n, k) + [Lineup(TallyAfter(n, k))]
  {
    assert ScheduleOf(n, k + 1)[..k] == ScheduleOf(n, k);
    AppendLast(ScheduleOf(n, k + 1), k);
  }

  /** A sequence is its prefix followed by its last element (stated for any element
      type, so that the proof never looks inside the elements). */
  lemma AppendLast<T>(s: seq<T>, k: nat)
    requires |s| == k + 1
    ensures s == s[..k] + [s[k]]
  {
  }

  /** The counter update of one slot: each player on court gains a slot played and
      has the rest counter reset, every other player rests one more slot. */
  method UpdateCounters(played: array<nat>, rested: array<nat>, court: seq<nat>)
    requires played.Length == rested.Length && played != rested
    modifies played, rested
    ensures Tally(played[..], rested[..]) == Advance(old(Tally(played[..], rested[..])), court)
  {
    ghost var before := Tally(played[..], rested[..]);
    ghost var after := Advance(before, court);
    for p := 0 to played.Length
      invariant forall q :: 0 <= q < p ==> played[q] == after.played[q] && rested[q] == after.rested[q]
      invariant forall q :: p <= q < played.Length ==> played[q] == before.played[q] && rested[q] == before.rested[q]
    {
      if p in court {
        played[p] := played[p] + 1;
        rested[p] := 0;
      } else {
        rested[p] := rested[p] + 1;
      }
    }
    assert played[..] == after.played && rested[..] == after.rested;
  }

  /** The slot-by-slot loop: rank the roster, put the first five on court, update
      both counters of every player, record the lineup. */
  method Rotate(n: nat, numSlots: nat) returns (schedule: seq<seq<nat>>)
    requires n >= PlayersOnCourt
    ensures schedule == ScheduleOf(n, numSlots)
  {
    var played := new nat[n](_ => 0);
    var rested := new nat[n](_ => 0);
    assert Tally(played[..], rested[..]) == TallyAfter(n, 0);
    schedule := [];
    for slot := 0 to numSlots
      invariant Tally(played[..], rested[..]) == TallyAfter(n, slot)
      invariant schedule == ScheduleOf(n, slot)
    {
      var court := Lineup(Tally(played[..], rested[..]));
      UpdateCounters(played, rested, court);
      TallyStep(n, slot);
      ScheduleStep(n, slot);
      schedule := schedule + [court];
    }
  }

  // ---------------------------------------------------------------------------
  // The slot-count search

  /** Slot counts after k slots of the search's simulation, which ranks by
      (slots played, index) only: the ranking above with every rest counter at zero. */
  function SimPlayed(n: nat, k: nat): (played: seq<nat>)
    requires n >= PlayersOnCourt
    ensures |played| == n
  {
    if k == 0 then Zeros(n)
    else
      var prev := SimPlayed(n, k - 1);
      Bump(prev, Lineup(Tally(prev, Zeros(n))))
  }

  /** With every rest counter at zero the key orders by slots played, then by roster index. */
  lemma SimKeyIsPlayedThenIndex(played: seq<nat>, p: nat, q: nat)
    requires p < |played| && q < |played|
    ensures KeyLess(Tally(played, Zeros(|played|)), p, q)
      <==> (played[p] < played[q] || (played[p] == played[q] && p < q))
  {
  }

  /** The simulation, too, keeps every two slot counts within one of each other. */
  lemma {:induction false} SimBalanced(n: nat, k: nat)
    requires n >= PlayersOnCourt
    ensures Balanced(SimPlayed(n, k))
  {
    if k > 0 {
      SimBalanced(n, k - 1);
      LineupKeepsBalance(Tally(SimPlayed(n, k - 1), Zeros(n)));
    }
  }

  /** The simulation fills five seats per slot. */
  lemma {:induction false} SimSeatsFilled(n: nat, k: nat)
    requires n >= PlayersOnCourt
    ensures Sum(SimPlayed(n, k)) == PlayersOnCourt * k
  {
    if k == 0 {
      SumZeros(n);
    } else {
      var prev := SimPlayed(n, k - 1);
      SimSeatsFilled(n, k - 1);
      SumBump(prev, Lineup(Tally(prev, Zeros(n))));
      LineupRanks(Tally(prev, Zeros(n)));
      InCountOfDistinct(Lineup(Tally(prev, Zeros(n))), n);
    }
  }

  /** With five players the simulation, too, puts everyone on court in every slot. */
  lemma {:induction false} SimFiveAllPlay(n: nat, k: nat)
    requires n == PlayersOnCourt
    ensures forall p :: 0 <= p < n ==> SimPlayed(n, k)[p] == k
  {
    if k > 0 {
      SimFiveAllPlay(n, k - 1);
      FiveMakeFullLineup(Tally(SimPlayed(n, k - 1), Zeros(n)));
    }
  }

  /** One more simulated slot bumps the counts of the lineup ranked first. */
  lemma SimStep(n: nat, k: nat)
    requires n >= PlayersOnCourt
    ensures SimPlayed(n, k + 1) == Bump(SimPlayed(n, k), Lineup(Tally(SimPlayed(n, k), Zeros(n))))
  {
  }

  /** The simulation's counter update: each player on court gains a slot played. */
  method SeatLineup(testPlayed: array<nat>, onCourt: seq<nat>)
    requires Distinct(onCourt) && InRoster(onCourt, testPlayed.Length)
    modifies testPlayed
    ensures testPlayed[..] == Bump(old(testPlayed[..]), onCourt)
  {
    ghost var before := testPlayed[..];
    for i := 0 to |onCourt|
      invariant forall q :: 0 <= q < testPlayed.Length ==>
        testPlayed[q] == before[q] + (if q in onCourt[..i] then 1 else 0)
    {
      assert onCourt[..i + 1] == onCourt[..i] + [onCourt[i]];
      assert onCourt[i] !in onCourt[..i];
      testPlayed[onCourt[i]] := testPlayed[onCourt[i]] + 1;
    }
    assert onCourt[..|onCourt|] == onCourt;
  }

  /** The simulation of one slot count: the search's inner loop. */
  method Simulate(n: nat, slots: nat) returns (played: seq<nat>)
    requires n >= PlayersOnCourt
    ensures played == SimPlayed(n, slots)
  {
    var testPlayed := new nat[n](_ => 0);
    assert testPlayed[..] == Zeros(n);
    for s := 0 to slots
      invariant testPlayed[..] == SimPlayed(n, s)
    {
      var onCourt := Lineup(Tally(testPlayed[..], Zeros(n)));
      LineupRanks(Tally(testPlayed[..], Zeros(n)));
      SeatLineup(testPlayed, onCourt);
      SimStep(n, s);
    }
    played := testPlayed[..];
  }

  function RealSum(s: seq<real>): real
  {
    if s == [] then 0.0 else RealSum(s[..|s| - 1]) + s[|s| - 1]
  }

  /** Population variance of the players' minutes when each slot lasts
      GameDurationMinutes / slots, in exact arithmetic. */
  function Variance(played: seq<nat>, slots: nat): (v: real)
    requires |played| > 0 && slots > 0
    ensures v >= 0.0
  {
    var slotDuration := GameDurationMinutes as real / slots as real;
    var times := seq(|played|, p requires 0 <= p < |played| => played[p] as real * slotDuration);
    var avg := RealSum(times) / |times| as real;
    SquaredDeviationsNonNegative(times, avg);
    RealSum(SquaredDeviations(times, avg)) / |times| as real
  }

  /** (x - avg)^2 for every x in times. */
  function SquaredDeviations(times: seq<real>, avg: real): (squares: seq<real>)
  {
    seq(|times|, p requires 0 <= p < |times| => (times[p] - avg) * (times[p] - avg))
  }

  /** A sum of squares is never negative. */
  lemma SquaredDeviationsNonNegative(times: seq<real>, avg: real)
    ensures RealSum(SquaredDeviations(times, avg)) >= 0.0
  {
    var squares := SquaredDeviations(times, avg);
    forall i | 0 <= i < |squares|
      ensures squares[i] >= 0.0
    {
      var d := times[i] - avg;
      assert squares[i] == d * d;
      if d < 0.0 {
        assert d * d == (-d) * (-d);
      }
    }
    RealSumNonNegative(squares);
  }

  /** The variance the search computes for a slot count. */
  function SlotVariance(n: nat, slots: nat): real
    requires n >= PlayersOnCourt && slots > 0
  {
    Variance(SimPlayed(n, slots), slots)
  }

  /** The search state after trying the first `tried` variances: the position of the
      best one so far and its variance (None stands for the initial float('inf')).
      A candidate replaces the best only when its variance is strictly smaller. */
  function KeepFirstMinimum(variances: seq<real>, tried: nat): (r: (nat, Option<real>))
    requires tried <= |variances|
    ensures r.1.None? <==> tried == 0
    ensures tried > 0 ==> r.0 < tried
  {
    if tried == 0 then (0, None)
    else
      var (best, bestVariance) := KeepFirstMinimum(variances, tried - 1);
      if bestVariance.None? || variances[tried - 1] < bestVariance.value then (tried - 1, Some(variances[tried - 1]))
      else (best, bestVariance)
  }

  /** The search keeps the first position whose variance is smallest among those tried. */
  lemma {:induction false} FirstMinimumKept(variances: seq<real>, tried: nat)
    requires 0 < tried <= |variances|
    ensures KeepFirstMinimum(variances, tried).1 == Some(variances[KeepFirstMinimum(variances, tried).0])
    ensures forall i :: 0 <= i < tried ==> variances[KeepFirstMinimum(variances, tried).0] <= variances[i]
    ensures forall i :: 0 <= i < KeepFirstMinimum(variances, tried).0 ==>
      variances[KeepFirstMinimum(variances, tried).0] < variances[i]
  {
    if tried > 1 {
      FirstMinimumKept(variances, tried - 1);
    }
  }

  /** The variances of the slot counts MinSlots..MaxSlots, in the order the search tries them. */
  function SlotVariances(n: nat): (variances: seq<real>)
    requires n >= PlayersOnCourt
  {
    seq(MaxSlots - MinSlots + 1, i requires 0 <= i <= MaxSlots - MinSlots => SlotVariance(n, MinSlots + i))
  }

  /** The slot count the search keeps. */
  function BestSlots(n: nat): (slots: nat)
    requires n >= PlayersOnCourt
    ensures MinSlots <= slots <= MaxSlots
  {
    MinSlots + KeepFirstMinimum(SlotVariances(n), MaxSlots - MinSlots + 1).0
  }

  /** The search keeps the first slot count in MinSlots..MaxSlots whose variance is smallest. */
  lemma BestSlotsIsFirstMinimum(n: nat)
    requires n >= PlayersOnCourt
    ensures MinSlots <= BestSlots(n) <= MaxSlots
    ensures forall slots :: MinSlots <= slots <= MaxSlots ==> SlotVariance(n, BestSlots(n)) <= SlotVariance(n, slots)
    ensures forall slots :: MinSlots <= slots < BestSlots(n) ==> SlotVariance(n, BestSlots(n)) < SlotVariance(n, slots)
  {
    var variances := SlotVariances(n);
    FirstMinimumKept(variances, |variances|);
    var best := KeepFirstMinimum(variances, |variances|).0;
    assert variances[best] == SlotVariance(n, BestSlots(n));
    forall slots | MinSlots <= slots <= MaxSlots
      ensures SlotVariance(n, BestSlots(n)) <= SlotVariance(n, slots)
      ensures slots < BestSlots(n) ==> SlotVariance(n, BestSlots(n)) < SlotVariance(n, slots)
    {
      assert variances[slots - MinSlots] == SlotVariance(n, slots);
    }
  }

  lemma {:induction false} RealSumNonNegative(s: seq<real>)
    requires forall i :: 0 <= i < |s| ==> s[i] >= 0.0
    ensures RealSum(s) >= 0.0
  {
    if s != [] {
      RealSumNonNegative(s[..|s| - 1]);
    }
  }

  lemma {:induction false} RealSumConstant(s: seq<real>, c: real)
    requires forall i :: 0 <= i < |s| ==> s[i] == c
    ensures RealSum(s) == |s| as real * c
  {
    if s != [] {
      RealSumConstant(s[..|s| - 1], c);
    }
  }

  /** When every player plays the same number of slots the variance is zero. */
  lemma VarianceOfEqualCounts(played: seq<nat>, slots: nat)
    requires |played| > 0 && slots > 0
    requires forall p :: 0 <= p < |played| ==> played[p] == played[0]
    ensures Variance(played, slots) == 0.0
  {
    var slotDuration := GameDurationMinutes as real / slots as real;
    var times := seq(|played|, p requires 0 <= p < |played| => played[p] as real * slotDuration);
    var c := played[0] as real * slotDuration;
    assert forall p :: 0 <= p < |times| ==> times[p] == c;
    RealSumConstant(times, c);
    var size := |times| as real;
    assert RealSum(times) == size * c;
    var avg := RealSum(times) / size;
    assert avg == c;
    var squares := SquaredDeviations(times, avg);
    assert forall p :: 0 <= p < |squares| ==> squares[p] == 0.0;
    RealSumConstant(squares, 0.0);
  }

  /** With five players every count gives a variance of zero, so the search keeps the first, four. */
  lemma FivePlayersKeepFourSlots(n: nat)
    requires n == PlayersOnCourt
    ensures BestSlots(n) == MinSlots
  {
    BestSlotsIsFirstMinimum(n);
    FiveEvenAtEveryCount(n, MinSlots);
  }

  /** With five players every slot count spreads the minutes evenly. */
  lemma FiveEvenAtEveryCount(n: nat, slots: nat)
    requires n == PlayersOnCourt && slots > 0
    ensures SlotVariance(n, slots) == 0.0
  {
    SimFiveAllPlay(n, slots);
    VarianceOfEqualCounts(SimPlayed(n, slots), slots);
  }

  /** The search loop: simulate each count MinSlots..MaxSlots and keep the first one
      with strictly smallest variance. */
  method SearchSlots(n: nat) returns (best: nat)
    requires n >= PlayersOnCourt
    ensures best == BestSlots(n)
    ensures MinSlots <= best <= MaxSlots
    ensures forall slots :: MinSlots <= slots <= MaxSlots ==> SlotVariance(n, best) <= SlotVariance(n, slots)
    ensures forall slots :: MinSlots <= slots < best ==> SlotVariance(n, best) < SlotVariance(n, slots)
  {
    best := MinSlots;
    var bestVariance: Option<real> := None;
    ghost var variances := SlotVariances(n);
    for testSlots := MinSlots to MaxSlots + 1
      invariant MinSlots <= best
      invariant (best - MinSlots, bestVariance) == KeepFirstMinimum(variances, testSlots - MinSlots)
    {
      var played := Simulate(n, testSlots);
      var variance := Variance(played, testSlots);
      assert variances[testSlots - MinSlots] == SlotVariance(n, MinSlots + (testSlots - MinSlots));
      assert variance == variances[testSlots - MinSlots];
      if bestVariance.None? || variance < bestVariance.value {
        bestVariance := Some(variance);
        best := testSlots;
      }
    }
    BestSlotsIsFirstMinimum(n);
  }

  // ---------------------------------------------------------------------------
  // The entry point

  lemma DivideThenMultiply(x: real, k: nat)
    requires k > 0
    ensures x / k as real * k as real == x
  {
  }

  /** The schedule with the fair share of minutes and the slot length, as exact rationals. */
  datatype Rotation = Rotation(schedule: seq<seq<nat>>, minutesPerPlayer: real, slotDuration: real)

  function RotationFor(n: nat): (r: Rotation)
    requires n >= PlayersOnCourt
    ensures MinSlots <= |r.schedule| <= MaxSlots
    ensures r.slotDuration * |r.schedule| as real == GameDurationMinutes as real
    ensures r.minutesPerPlayer * n as real == (GameDurationMinutes * PlayersOnCourt) as real
  {
    var slots := BestSlots(n);
    DivideThenMultiply(GameDurationMinutes as real, slots);
    DivideThenMultiply((GameDurationMinutes * PlayersOnCourt) as real, n);
    Rotation(ScheduleOf(n, slots),
             (GameDurationMinutes * PlayersOnCourt) as real / n as real,
             GameDurationMinutes as real / slots as real)
  }

  /** The rotation covers the game: between MinSlots and MaxSlots slots of five distinct
      roster players each, slots that together last the whole game, and a fair share of
      minutes that adds up to the five seats over the whole game. */
  lemma RotationCoversGame(n: nat)
    requires n >= PlayersOnCourt
    ensures MinSlots <= |RotationFor(n).schedule| <= MaxSlots
    ensures WellFormed(RotationFor(n).schedule, n)
    ensures RotationFor(n).slotDuration * |RotationFor(n).schedule| as real == GameDurationMinutes as real
    ensures RotationFor(n).minutesPerPlayer * n as real == (GameDurationMinutes * PlayersOnCourt) as real
  {
    var slots := BestSlots(n);
    RotationParts(n);
    ScheduleWellFormed(n, slots);
  }

  /** The three fields of the rotation. */
  lemma RotationParts(n: nat)
    requires n >= PlayersOnCourt
    ensures MinSlots <= BestSlots(n) <= MaxSlots
    ensures RotationFor(n).schedule == ScheduleOf(n, BestSlots(n)) && |RotationFor(n).schedule| == BestSlots(n)
    ensures RotationFor(n).slotDuration == GameDurationMinutes as real / BestSlots(n) as real
    ensures RotationFor(n).minutesPerPlayer == (GameDurationMinutes * PlayersOnCourt) as real / n as real
  {
  }

  /** Rejects fewer than five players; otherwise searches the slot count and runs the
      selection loop. */
  method CalculateRotationSchedule(numPlayers: int) returns (r: Result<Rotation>)
    ensures r.Err? <==> numPlayers < PlayersOnCourt
    ensures r.Err? ==> r.error == NotEnoughPlayers(PlayersOnCourt)
    ensures r.Ok? ==> r.value == RotationFor(numPlayers)
  {
    if numPlayers < PlayersOnCourt {
      return Err(NotEnoughPlayers(PlayersOnCourt));
    }
    var n := numPlayers as nat;
    var minutesPerPlayer := (GameDurationMinutes * PlayersOnCourt) as real / n as real;
    var numSlots := SearchSlots(n);
    var slotDuration := GameDurationMinutes as real / numSlots as real;
    var schedule := Rotate(n, numSlots);
    r := Ok(Rotation(schedule, minutesPerPlayer, slotDuration));
  }
}
