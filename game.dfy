/** Game constants of the rotation generator and the outcome of its entry points. */
module Game {

  /** Length of a game in minutes: four quarters of ten minutes. */
  const GameDurationMinutes: nat := 40
  const Quarters: nat := 4
  const QuarterDuration: nat := GameDurationMinutes / Quarters
  /** Players on court in every slot. */
  const PlayersOnCourt: nat := 5
  /** Shortest slot the search accepts, in minutes. */
  const MinStintDuration: real := 2.5
  /** The slot-count search starts at one slot per quarter ... */
  const MinSlots: nat := 4
  /** ... and ends at int(GameDurationMinutes / MinStintDuration). */
  const MaxSlots: nat := 16

  /** The ValueError raised when fewer players than PlayersOnCourt attend. */
  datatype Error = NotEnoughPlayers(needed: nat)

  datatype Result<T> = Ok(value: T) | Err(error: Error)

  /** None stands for the search's initial best variance, float('inf'). */
  datatype Option<T> = None | Some(value: T)

  /** MaxSlots is the longest game split into slots of MinStintDuration. */
  lemma MaxSlotsFromMinStint()
    ensures MaxSlots == (GameDurationMinutes as real / MinStintDuration).Floor
  {
  }

  /** No slot count the search tries gives a slot shorter than MinStintDuration,
      so the search never leaves its loop early. */
  lemma NoEarlyBreak(slots: nat)
    requires MinSlots <= slots <= MaxSlots
    ensures GameDurationMinutes as real / slots as real >= MinStintDuration
  {
  }
}
