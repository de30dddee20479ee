/** The integer views the reports derive from a schedule: the detailed slot list with
    quarters, times and bench, the CSV occupancy row, the stint counter of the Markdown
    summary, and the minutes/seconds split of the time format. */
module Reports {
  import opened Game
  import opened Tally
  import opened Ranking
  import opened Scheduler

  // ---------------------------------------------------------------------------
  // Quarters

  /** The quarter a slot starting at startTime minutes belongs to: its start, in whole
      quarters, plus one. */
  function QuarterOf(startTime: real): (q: int)
    ensures (q - 1) as real <= startTime / QuarterDuration as real < q as real
  {
    (startTime / QuarterDuration as real).Floor + 1
  }

  /** Slot idx of slots equal slots that fill the game falls in quarter
      floor(4 * idx / slots) + 1, one of 1..4. */
  lemma SlotQuarter(idx: nat, slots: nat, slotDuration: real)
    requires idx < slots && slotDuration * slots as real == GameDurationMinutes as real
    ensures QuarterOf(idx as real * slotDuration) == Quarters * idx / slots + 1
    ensures 1 <= QuarterOf(idx as real * slotDuration) <= Quarters
  {
    assert GameDurationMinutes == 40 && Quarters == 4 && QuarterDuration == 10;
    var x := idx as real * slotDuration / 10.0;
    assert x * slots as real == idx as real * (slotDuration * slots as real) / 10.0;
    assert x == (4 * idx) as real / slots as real;
    FloorOfRatio(Quarters * idx, slots);
    assert Quarters * idx < Quarters * slots;
  }

  /** The floor of a ratio of naturals is their integer quotient. */
  lemma FloorOfRatio(a: nat, b: nat)
    requires b > 0
    ensures (a as real / b as real).Floor == a / b
  {
    var q, r := a / b, a % b;
    var x := a as real / b as real;
    assert a == q * b + r;
    var frac := r as real / b as real;
    assert x == q as real + frac;
    assert 0.0 <= frac < 1.0;
  }

  /** Later slots never fall in an earlier quarter. */
  lemma QuarterNonDecreasing(i: nat, j: nat, slots: nat)
    requires i <= j < slots
    ensures Quarters * i / slots + 1 <= Quarters * j / slots + 1
  {
    var qi, ri := Quarters * i / slots, Quarters * i % slots;
    var qj, rj := Quarters * j / slots, Quarters * j % slots;
    assert qi * slots <= Quarters * i <= Quarters * j < (qj + 1) * slots;
    assert qi * slots < (qj + 1) * slots;
  }

  // ---------------------------------------------------------------------------
  // The bench

  /** The players among 0..k-1 that court leaves out, in roster order. */
  function Bench(court: seq<nat>, k: nat): (bench: seq<nat>)
    ensures |bench| <= k
    ensures forall i :: 0 <= i < |bench| ==> bench[i] < k
  {
    if k == 0 then []
    else Bench(court, k - 1) + (if k - 1 in court then [] else [k - 1])
  }

  /** The bench is the roster minus the court, in roster order, and has one member
      for each roster position the court does not cover. */
  lemma {:induction false} BenchIsComplement(court: seq<nat>, k: nat)
    ensures forall p :: p in Bench(court, k) <==> 0 <= p < k && p !in court
    ensures forall i, j :: 0 <= i < j < |Bench(court, k)| ==> Bench(court, k)[i] < Bench(court, k)[j]
    ensures |Bench(court, k)| == k - InCount(court, k)
  {
    if k > 0 {
      BenchIsComplement(court, k - 1);
      var shorter := Bench(court, k - 1);
      if k - 1 !in court {
        var longer := shorter + [k - 1];
        forall i, j | 0 <= i < j < |longer|
          ensures longer[i] < longer[j]
        {
          if j == |shorter| {
            assert shorter[i] in shorter;
          }
        }
      }
    }
  }

  /** Next to a lineup of five distinct roster players sit the other n - 5. */
  lemma BenchOfLineup(court: seq<nat>, n: nat)
    requires |court| == PlayersOnCourt && Distinct(court) && InRoster(court, n)
    ensures |Bench(court, n)| == n - PlayersOnCourt
  {
    BenchIsComplement(court, n);
    InCountOfDistinct(court, n);
  }

  // ---------------------------------------------------------------------------
  // The detailed schedule

  /** One row of the detailed schedule: 1-based slot number, quarter, start and end
      minute, slot length, the players on court and on the bench. */
  datatype SlotEntry = SlotEntry(slot: nat, quarter: int, startTime: real, endTime: real,
                                 duration: real, players: seq<nat>, onBench: seq<nat>)

  /** The detailed row of slot idx of schedule when each slot lasts slotDuration. */
  function EntryAt(schedule: seq<seq<nat>>, idx: nat, slotDuration: real, n: nat): (e: SlotEntry)
    requires idx < |schedule|
    ensures e.slot == idx + 1 && e.players == schedule[idx] && e.duration == slotDuration
  {
    var startTime := idx as real * slotDuration;
    SlotEntry(idx + 1, QuarterOf(startTime), startTime, (idx + 1) as real * slotDuration,
              slotDuration, schedule[idx], Bench(schedule[idx], n))
  }

  /** The detailed schedule: one row per slot, in slot order. */
  function Detailed(schedule: seq<seq<nat>>, slotDuration: real, n: nat): (d: seq<SlotEntry>)
    ensures |d| == |schedule|
  {
    seq(|schedule|, idx requires 0 <= idx < |schedule| => EntryAt(schedule, idx, slotDuration, n))
  }

  /** The detailed schedule of the rotation for n players. */
  function DetailedFor(n: nat): seq<SlotEntry>
    requires n >= PlayersOnCourt
  {
    Detailed(RotationFor(n).schedule, RotationFor(n).slotDuration, n)
  }

  /** Builds the rotation, rejecting fewer than five players, and lists its slots with
      their numbers, quarters, times and benches. */
  method DetailedSchedule(numPlayers: int) returns (r: Result<seq<SlotEntry>>)
    ensures r.Err? <==> numPlayers < PlayersOnCourt
    ensures r.Err? ==> r.error == NotEnoughPlayers(PlayersOnCourt)
    ensures r.Ok? ==> r.value == DetailedFor(numPlayers)
  {
    var rotation := CalculateRotationSchedule(numPlayers);
    if rotation.Err? {
      return Err(rotation.error);
    }
    var n := numPlayers as nat;
    var schedule, slotDuration := rotation.value.schedule, rotation.value.slotDuration;
    var detailed := ListSlots(schedule, slotDuration, n);
    r := Ok(detailed);
  }

  /** The loop of the detailed schedule: one row per slot, appended in slot order. */
  method ListSlots(schedule: seq<seq<nat>>, slotDuration: real, n: nat) returns (detailed: seq<SlotEntry>)
    ensures detailed == Detailed(schedule, slotDuration, n)
  {
    detailed := [];
    for idx := 0 to |schedule|
      invariant |detailed| == idx
      invariant forall i :: 0 <= i < idx ==> detailed[i] == EntryAt(schedule, i, slotDuration, n)
    {
      var startTime := idx as real * slotDuration;
      var endTime := (idx + 1) as real * slotDuration;
      var quarter := QuarterOf(startTime);
      var onBench := Bench(schedule[idx], n);
      var entry := SlotEntry(idx + 1, quarter, startTime, endTime, slotDuration, schedule[idx], onBench);
      assert entry == EntryAt(schedule, idx, slotDuration, n);
      detailed := detailed + [entry];
    }
  }

  /** The rows are numbered 1, 2, ... and laid end to end from minute 0, each as long
      as a slot. */
  lemma DetailedTimes(schedule: seq<seq<nat>>, slotDuration: real, n: nat)
    requires schedule != []
    ensures var d := Detailed(schedule, slotDuration, n);
      d[0].startTime == 0.0
      && d[|d| - 1].endTime == |d| as real * slotDuration
      && (forall i :: 0 <= i < |d| ==> d[i].slot == i + 1 && d[i].duration == slotDuration)
      && (forall i :: 0 <= i < |d| - 1 ==> d[i].endTime == d[i + 1].startTime)
  {
  }

  /** When the slots share the game evenly, row idx is in quarter floor(4 * idx / slots) + 1,
      one of 1..4, and the quarters never go back. */
  lemma DetailedQuarters(schedule: seq<seq<nat>>, slotDuration: real, n: nat)
    requires schedule != [] && slotDuration * |schedule| as real == GameDurationMinutes as real
    ensures var d := Detailed(schedule, slotDuration, n);
      (forall i :: 0 <= i < |d| ==> d[i].quarter == Quarters * i / |d| + 1 && 1 <= d[i].quarter <= Quarters)
      && (forall i, j :: 0 <= i <= j < |d| ==> d[i].quarter <= d[j].quarter)
  {
    var d := Detailed(schedule, slotDuration, n);
    forall i | 0 <= i < |d|
      ensures d[i].quarter == Quarters * i / |d| + 1 && 1 <= d[i].quarter <= Quarters
    {
      SlotQuarter(i, |d|, slotDuration);
    }
    forall i, j | 0 <= i <= j < |d|
      ensures d[i].quarter <= d[j].quarter
    {
      QuarterNonDecreasing(i, j, |d|);
    }
  }

  /** Each row benches exactly the n - 5 roster players not on court. */
  lemma DetailedBench(schedule: seq<seq<nat>>, slotDuration: real, n: nat)
    requires WellFormed(schedule, n)
    ensures var d := Detailed(schedule, slotDuration, n);
      (forall i :: 0 <= i < |d| ==> |d[i].onBench| == n - PlayersOnCourt)
      && (forall i, p :: 0 <= i < |d| ==> (p in d[i].onBench <==> 0 <= p < n && p !in d[i].players))
  {
    var d := Detailed(schedule, slotDuration, n);
    forall i | 0 <= i < |d|
      ensures |d[i].onBench| == n - PlayersOnCourt
      ensures forall p :: p in d[i].onBench <==> 0 <= p < n && p !in d[i].players
    {
      BenchOfLineup(schedule[i], n);
      BenchIsComplement(schedule[i], n);
    }
  }

  /** A detailed schedule of between MinSlots and MaxSlots well-formed slots that share
      the game evenly numbers its slots 1, 2, ..., lays them end to end from minute 0 to
      minute 40, puts slot idx in quarter floor(4 * idx / slots) + 1, and benches exactly
      the n - 5 players not on court. */
  lemma DetailedCoversGame(schedule: seq<seq<nat>>, slotDuration: real, n: nat)
    requires MinSlots <= |schedule| <= MaxSlots && WellFormed(schedule, n)
    requires slotDuration * |schedule| as real == GameDurationMinutes as real
    ensures var d := Detailed(schedule, slotDuration, n);
      d[0].startTime == 0.0
      && d[|d| - 1].endTime == GameDurationMinutes as real
      && (forall i :: 0 <= i < |d| - 1 ==> d[i].endTime == d[i + 1].startTime)
      && (forall i :: 0 <= i < |d| ==> d[i].quarter == Quarters * i / |d| + 1 && 1 <= d[i].quarter <= Quarters)
      && (forall i :: 0 <= i < |d| ==> |d[i].onBench| == n - PlayersOnCourt)
  {
    DetailedTimes(schedule, slotDuration, n);
    DetailedQuarters(schedule, slotDuration, n);
    DetailedBench(schedule, slotDuration, n);
  }

  /** The rotation's detailed schedule meets all of the above. */
  lemma DetailedForCoversGame(n: nat)
    requires n >= PlayersOnCourt
    ensures var d := DetailedFor(n);
      MinSlots <= |d| <= MaxSlots
      && d[0].startTime == 0.0
      && d[|d| - 1].endTime == GameDurationMinutes as real
      && (forall i :: 0 <= i < |d| ==> d[i].quarter == Quarters * i / |d| + 1 && 1 <= d[i].quarter <= Quarters)
      && (forall i :: 0 <= i < |d| ==> |d[i].onBench| == n - PlayersOnCourt)
  {
    RotationCoversGame(n);
    DetailedCoversGame(RotationFor(n).schedule, RotationFor(n).slotDuration, n);
  }

  // ---------------------------------------------------------------------------
  // The CSV occupancy row

  /** One CSV row's player cells: 1 for each of players 0..n-1 on court, 0 otherwise. */
  function Occupancy(players: seq<nat>, n: nat): (row: seq<nat>)
    ensures |row| == n
    ensures forall i :: 0 <= i < n ==> row[i] <= 1 && (row[i] == 1 <==> i in players)
  {
    seq(n, i requires 0 <= i < n => if i in players then 1 else 0)
  }

  /** The cells add up to the number of roster positions the slot covers. */
  lemma {:induction false} OccupancyCountsCourt(players: seq<nat>, n: nat)
    ensures Sum(Occupancy(players, n)) == InCount(players, n)
  {
    if n > 0 {
      assert Occupancy(players, n)[..n - 1] == Occupancy(players, n - 1);
      OccupancyCountsCourt(players, n - 1);
    }
  }

  /** Every occupancy row of the rotation has exactly five 1s. */
  lemma OccupancyHasFiveOnes(n: nat, idx: nat)
    requires n >= PlayersOnCourt && idx < |RotationFor(n).schedule|
    ensures Sum(Occupancy(RotationFor(n).schedule[idx], n)) == PlayersOnCourt
    ensures forall i :: 0 <= i < n ==> Occupancy(RotationFor(n).schedule[idx], n)[i] <= 1
  {
    RotationCoversGame(n);
    OccupancyCountsCourt(RotationFor(n).schedule[idx], n);
    InCountOfDistinct(RotationFor(n).schedule[idx], n);
  }

  // ---------------------------------------------------------------------------
  // Stints

  /** How many times p is counted entering court in slot j: once per listing of p in
      the slot, unless p was on court in the slot before. */
  function Entered(schedule: seq<seq<nat>>, j: nat, p: nat): (entries: nat)
    requires j < |schedule|
    ensures entries > 0 ==> p in schedule[j] && (j == 0 || p !in schedule[j - 1])
  {
    if j > 0 && p in schedule[j - 1] then 0 else multiset(schedule[j])[p]
  }

  /** The stints of p over a schedule: the entries onto court from the bench. */
  function StintsOf(schedule: seq<seq<nat>>, p: nat): (stints: nat)
    ensures stints > 0 ==> SlotsOn(schedule, p) > 0
  {
    if schedule == [] then 0
    else StintsOf(schedule[..|schedule| - 1], p) + Entered(schedule, |schedule| - 1, p)
  }

  /** Stints over one more slot: those before plus the entries in that slot. */
  lemma StintsStep(schedule: seq<seq<nat>>, j: nat, p: nat)
    requires j < |schedule|
    ensures StintsOf(schedule[..j + 1], p) == StintsOf(schedule[..j], p) + Entered(schedule, j, p)
  {
    assert schedule[..j + 1][..j] == schedule[..j];
  }

  /** The stint counter: walk the slots, and credit each listed player who was not on
      court in the slot before. */
  method CountStints(schedule: seq<seq<nat>>, n: nat) returns (stints: seq<nat>)
    requires forall j :: 0 <= j < |schedule| ==> InRoster(schedule[j], n)
    ensures |stints| == n
    ensures forall p :: 0 <= p < n ==> stints[p] == StintsOf(schedule, p)
  {
    var counts := new nat[n](_ => 0);
    var prevOnCourt: set<nat> := {};
    for j := 0 to |schedule|
      invariant forall p :: 0 <= p < n ==> counts[p] == StintsOf(schedule[..j], p)
      invariant forall p :: p in prevOnCourt <==> j > 0 && p in schedule[j - 1]
    {
      CreditEntries(counts, schedule[j], prevOnCourt);
      forall p | 0 <= p < n
        ensures counts[p] == StintsOf(schedule[..j + 1], p)
      {
        StintsStep(schedule, j, p);
      }
      prevOnCourt := set p | p in schedule[j];
    }
    assert schedule[..|schedule|] == schedule;
    stints := counts[..];
  }

  /** One slot of the stint counter: credit each listed player not in prevOnCourt. */
  method CreditEntries(counts: array<nat>, slot: seq<nat>, prevOnCourt: set<nat>)
    requires InRoster(slot, counts.Length)
    modifies counts
    ensures forall p :: 0 <= p < counts.Length ==>
      counts[p] == old(counts[p]) + (if p in prevOnCourt then 0 else multiset(slot)[p])
  {
    for i := 0 to |slot|
      invariant forall p :: 0 <= p < counts.Length ==>
        counts[p] == old(counts[p]) + (if p in prevOnCourt then 0 else multiset(slot[..i])[p])
    {
      assert slot[..i + 1] == slot[..i] + [slot[i]];
      if slot[i] !in prevOnCourt {
        counts[slot[i]] := counts[slot[i]] + 1;
      }
    }
    assert slot[..|slot|] == slot;
  }

  /** A player who ever plays has at least one stint. */
  lemma {:induction false} PlayingMeansAStint(schedule: seq<seq<nat>>, p: nat)
    ensures SlotsOn(schedule, p) >= 1 ==> StintsOf(schedule, p) >= 1
  {
    if schedule != [] {
      var k := |schedule| - 1;
      var prefix := schedule[..k];
      PlayingMeansAStint(prefix, p);
      if SlotsOn(prefix, p) == 0 && p in schedule[k] && k > 0 {
        assert prefix[k - 1] == schedule[k - 1];
        NotOnWhenNoSlots(prefix, p);
      }
    }
  }

  /** With no player listed twice in a slot, a player has no more stints than slots played. */
  lemma {:induction false} StintsAtMostSlots(schedule: seq<seq<nat>>, p: nat)
    requires forall j :: 0 <= j < |schedule| ==> Distinct(schedule[j])
    ensures StintsOf(schedule, p) <= SlotsOn(schedule, p)
  {
    if schedule != [] {
      var k := |schedule| - 1;
      StintsAtMostSlots(schedule[..k], p);
      DistinctCount(schedule[k], p);
    }
  }

  /** A player listed in a slot of distinct players is listed there exactly once. */
  lemma DistinctCount(slot: seq<nat>, p: nat)
    requires Distinct(slot)
    ensures multiset(slot)[p] == if p in slot then 1 else 0
  {
    if p in slot {
      var i :| 0 <= i < |slot| && slot[i] == p;
      assert slot == slot[..i] + [p] + slot[i + 1..];
      assert p !in slot[..i];
      assert p !in slot[i + 1..];
    }
  }

  /** A player with no slots played is in none of the slots. */
  lemma {:induction false} NotOnWhenNoSlots(schedule: seq<seq<nat>>, p: nat)
    requires SlotsOn(schedule, p) == 0 && schedule != []
    ensures p !in schedule[|schedule| - 1]
  {
  }

  // ---------------------------------------------------------------------------
  // Time format

  /** Python's int() on a real: truncation toward zero. */
  function Truncate(x: real): (i: int)
    ensures 0.0 <= x ==> i as real <= x < i as real + 1.0
    ensures x < 0.0 ==> i as real - 1.0 < x <= i as real
  {
    if x >= 0.0 then x.Floor else -((-x).Floor)
  }

  /** The two fields of an MM:SS time. */
  datatype Clock = Clock(mins: int, secs: int)

  /** Whole minutes and leftover seconds of a number of seconds (Python's // and %,
      which agree with Dafny's for a positive divisor). */
  function SplitSeconds(totalSeconds: int): (c: Clock)
    ensures 0 <= c.secs < 60 && c.mins * 60 + c.secs == totalSeconds
  {
    Clock(totalSeconds / 60, totalSeconds % 60)
  }

  /** The split is the unique one with seconds below a minute. */
  lemma SplitSecondsRoundTrip(totalSeconds: int, mins: int, secs: int)
    ensures 0 <= SplitSeconds(totalSeconds).secs < 60
    ensures SplitSeconds(totalSeconds).mins * 60 + SplitSeconds(totalSeconds).secs == totalSeconds
    ensures 0 <= secs < 60 && mins * 60 + secs == totalSeconds ==> SplitSeconds(totalSeconds) == Clock(mins, secs)
  {
  }

  /** The minutes and seconds fields of the time format for a time given in minutes. */
  function FormatTime(minutes: real): (c: Clock)
    ensures 0 <= c.secs < 60
    ensures minutes >= 0.0 ==> c.mins >= 0
    ensures minutes >= 0.0 ==> (c.mins * 60 + c.secs) as real <= minutes * 60.0 < (c.mins * 60 + c.secs + 1) as real
  {
    SplitSeconds(Truncate(minutes * 60.0))
  }

  /** A time that is a whole number of seconds shows those seconds. */
  lemma FormatTimeOfWholeSeconds(seconds: nat)
    ensures FormatTime(seconds as real / 60.0).mins * 60 + FormatTime(seconds as real / 60.0).secs == seconds
    ensures 0 <= FormatTime(seconds as real / 60.0).secs < 60
  {
    assert seconds as real / 60.0 * 60.0 == seconds as real;
    SplitSecondsRoundTrip(seconds, 0, 0);
  }
}
