/**
 * The time-window choices of the placement form in app.js: `generateHalfHourOptions`
 * and the default start/end selection. A slot is its start time in minutes; the clock
 * (today's midnight and the current time) is passed in.
 */
module TimeSlots {
  import opened Wrappers
  import opened Seqs

  const SLOT_MINUTES := 30
  const SLOTS_PER_DAY := 24 * 2
  const DEFAULT_DAYS := 7

  /** Slot `i` starts `i` half hours after `dayStart`. */
  ghost predicate IsSlotGrid(options: seq<int>, dayStart: int) {
    forall i :: 0 <= i < |options| ==> options[i] == dayStart + i * SLOT_MINUTES
  }

  /** `generateHalfHourOptions(days)`: `days * 48` half-hour slots from `dayStart` on. */
  method GenerateHalfHourOptions(dayStart: int, days: int := DEFAULT_DAYS) returns (options: seq<int>)
    ensures |options| == if days > 0 then days * SLOTS_PER_DAY else 0
    ensures IsSlotGrid(options, dayStart)
    ensures forall i, j :: 0 <= i < j < |options| ==> options[i] < options[j]
  {
    options := [];
    var totalSlots := days * 24 * 2;
    assert totalSlots == days * SLOTS_PER_DAY;
    var i := 0;
    while i < totalSlots
      invariant 0 <= i <= if totalSlots > 0 then totalSlots else 0
      invariant |options| == i
      invariant forall k :: 0 <= k < i ==> options[k] == dayStart + k * SLOT_MINUTES
    {
      var slot := dayStart + i * SLOT_MINUTES;
      options := options + [slot];
      i := i + 1;
    }
  }

  /** The nearest half-hour boundary not before `now`. */
  function RoundUpToSlot(now: int): (r: int)
    ensures r % SLOT_MINUTES == 0
    ensures now <= r < now + SLOT_MINUTES
  {
    if now % SLOT_MINUTES == 0 then now else now + (SLOT_MINUTES - now % SLOT_MINUTES)
  }

  datatype Selection = Selection(start: nat, end: nat)

  /**
   * The preselected indices: the first slot not before the rounded current time,
   * and the slot after it (or the last slot). `None` leaves both selects untouched.
   */
  function DefaultSelection(options: seq<int>, now: int): (r: Option<Selection>)
    ensures r.None? <==> forall k :: 0 <= k < |options| ==> options[k] < RoundUpToSlot(now)
    ensures r.Some? ==>
      && r.value.start < |options|
      && options[r.value.start] >= RoundUpToSlot(now)
      && (forall k :: 0 <= k < r.value.start ==> options[k] < RoundUpToSlot(now))
      && r.value.end == (if r.value.start + 1 < |options| - 1 then r.value.start + 1 else |options| - 1)
      && r.value.end < |options|
  {
    var rounded := RoundUpToSlot(now);
    match FirstIndex(options, (o: int) => o >= rounded)
    case None => None
    case Some(s) =>
      Some(Selection(s, if s + 1 < |options| - 1 then s + 1 else |options| - 1))
  }

  /**
   * On a grid that starts on a slot boundary and reaches the rounded time, the default
   * start is exactly the slot that begins at the rounded time.
   */
  lemma DefaultStartIsNextSlot(options: seq<int>, dayStart: int, now: int)
    requires IsSlotGrid(options, dayStart) && |options| > 0
    requires dayStart % SLOT_MINUTES == 0
    requires dayStart <= RoundUpToSlot(now) <= options[|options| - 1]
    ensures DefaultSelection(options, now).Some?
    ensures var k := (RoundUpToSlot(now) - dayStart) / SLOT_MINUTES;
            k < |options| && DefaultSelection(options, now).value.start == k &&
            options[k] == RoundUpToSlot(now)
  {
    var rounded := RoundUpToSlot(now);
    assert (rounded - dayStart) % SLOT_MINUTES == 0;
    var k := (rounded - dayStart) / SLOT_MINUTES;
    assert k * SLOT_MINUTES == rounded - dayStart;
    assert options[|options| - 1] == dayStart + (|options| - 1) * SLOT_MINUTES;
    assert k < |options|;
    assert options[k] == rounded;
    forall j | 0 <= j < k ensures options[j] < rounded {
      assert options[j] == dayStart + j * SLOT_MINUTES;
    }
  }
}
