/**
 The clock of a boot timeline: instants are monotonic, wall times are what a span
 carries. Both count nanoseconds in an unbounded integer; where the program checks
 for underflow or saturates, so does the model.
 */
module BootClock {
  import opened Options

  const NANOS_PER_MILLI: nat := 1_000_000
  const U64_MAX: nat := 0xFFFF_FFFF_FFFF_FFFF

  // The earliest representable instant and wall time: the least signed 64-bit second.
  const EARLIEST: int := -0x8000_0000_0000_0000 * 1_000_000_000

  datatype Origin = ProcessStart | FirstUse

  // The fields of a timeline that never change.
  datatype Clock = Clock(origin: int, source: Origin, originWall: int)

  function SaturatingSince(later: int, earlier: int): nat {
    if later >= earlier then later - earlier else 0
  }

  function CheckedSub(from: int, amount: nat): Option<int> {
    if from - amount >= EARLIEST then Some(from - amount) else None
  }

  // A clock counting from `origin`. `now` and `wallNow` are the two clocks read on
  // construction; `wallAgain` is read only when the subtraction underflows.
  function StartingAt(origin: int, source: Origin, now: int, wallNow: int, wallAgain: int): Clock {
    var wall := CheckedSub(wallNow, SaturatingSince(now, origin));
    Clock(origin, source, if wall.Some? then wall.value else wallAgain)
  }

  // The process-wide clock: `age` is how long ago the process started, if known.
  function Global(age: Option<nat>, first: int, now: int, wallNow: int, wallAgain: int): Clock {
    var start := if age.Some? then CheckedSub(first, age.value) else None;
    if start.Some? then StartingAt(start.value, ProcessStart, now, wallNow, wallAgain)
    else StartingAt(first, FirstUse, now, wallNow, wallAgain)
  }

  function Wall(clock: Clock, at: int): int {
    clock.originWall + SaturatingSince(at, clock.origin)
  }

  function Millis(duration: nat): nat {
    var ms := duration / NANOS_PER_MILLI;
    if ms <= U64_MAX then ms else U64_MAX
  }

  // Wall times are calibrated: an instant read after construction maps to the wall
  // clock read at construction plus the time elapsed between the two.
  lemma GlobalClockIsCalibrated(age: Option<nat>, first: int, now: int, wallNow: int, wallAgain: int, at: int)
    requires first <= now <= at
    ensures var clock := Global(age, first, now, wallNow, wallAgain);
            && (clock.source.ProcessStart? <==> age.Some? && first - age.value >= EARLIEST)
            && first - clock.origin == (if clock.source.ProcessStart? then age.value else 0)
            && Wall(clock, at) ==
               if wallNow - (now - clock.origin) >= EARLIEST then wallNow + (at - now)
               else wallAgain + (at - clock.origin)
  {
  }

  lemma WallIsMonotone(clock: Clock, earlier: int, later: int)
    requires earlier <= later
    ensures clock.originWall <= Wall(clock, earlier) <= Wall(clock, later)
    ensures Wall(clock, later) - Wall(clock, earlier) <= later - earlier
  {
  }

  // The wall extent of a phase never exceeds its own duration, and falls short
  // of it exactly when the phase started before the origin and took any time.
  lemma WallExtent(clock: Clock, start: int, end: int)
    ensures Wall(clock, end) - Wall(clock, start) <= SaturatingSince(end, start)
    ensures start <= end ==>
              (Wall(clock, end) - Wall(clock, start) == SaturatingSince(end, start)
               <==> start >= clock.origin || start == end)
  {
  }

  // The reading is the floor in milliseconds, or the greatest 64-bit number past it.
  lemma MillisIsFloor(duration: nat)
    ensures Millis(duration) <= 18_446_744_073_709_551_615
    ensures Millis(duration) * 1_000_000 <= duration
    ensures Millis(duration) < 18_446_744_073_709_551_615 ==> duration < (Millis(duration) + 1) * 1_000_000
  {
  }

  // Below saturation, the two numbers on a line place the start of the phase to
  // within a millisecond: at_ms - took_ms is its floored offset, or one more.
  lemma MillisPlaceTheStart(clock: Clock, start: int, end: int)
    requires clock.origin <= start <= end
    requires (end - clock.origin) / NANOS_PER_MILLI <= U64_MAX
    ensures var offset := (start - clock.origin) / NANOS_PER_MILLI;
            var read := Millis(SaturatingSince(end, clock.origin)) - Millis(SaturatingSince(end, start));
            read == offset || read == offset + 1
  {
    var offset, took := start - clock.origin, end - start;
    assert end - clock.origin == offset + took;
    assert offset / 1_000_000 + took / 1_000_000 <= (offset + took) / 1_000_000
           <= offset / 1_000_000 + took / 1_000_000 + 1;
  }
}
