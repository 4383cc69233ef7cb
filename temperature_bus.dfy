/**
 * The temperature sampler (ESP32-Firmware/src/TemperatureBus.cpp,
 * ESP32-Firmware/include/TemperatureBus.h): two one-wire buses, intake and exhaust,
 * with up to three sensors each, driven by a non-blocking three-phase schedule
 *
 *   IDLE --(first sample, or 5000 ms since the last one)--> REQUESTED
 *   REQUESTED --(750 ms conversion time)--> READ_READY
 *   READ_READY --(next tick: read, flag a new sample)--> IDLE
 *
 * A temperature reading is abstracted to `Option<T>`: `None` stands for NAN, whether
 * the slot has no device or the sensor reported its -120 degree failure value.
 */
module Sampling {
  import opened TimeUtil

  datatype Option<T> = None | Some(value: T)

  /** `SENSORS_PER_BUS`. */
  const SENSORS_PER_BUS: nat := 3
  /** Worst-case DS18B20 conversion time at 12-bit resolution. */
  const CONVERSION_MS: Millis := 750
  /** The sampling period. */
  const SAMPLE_PERIOD_MS: Millis := 5000

  /** `enum State`. */
  datatype Phase = Idle | Requested | ReadReady

  /** The scheduling registers `tick` reads and writes. */
  datatype Schedule = Schedule(phase: Phase, lastSampleMs: Millis, lastRequestMs: Millis, newSample: bool)

  /** The schedule `begin` resets to. */
  function Reset(): Schedule {
    Schedule(Idle, 0, 0, false)
  }

  /** Whether IDLE starts a conversion: nothing sampled yet (`lastSampleMs == 0`) or the period elapsed. */
  function SampleDue(s: Schedule, now: Millis): (due: bool)
    ensures due <==> s.lastSampleMs == 0 || (now - s.lastSampleMs) % WRAP >= SAMPLE_PERIOD_MS
  {
    s.lastSampleMs == 0 || Elapsed(now, s.lastSampleMs, SAMPLE_PERIOD_MS)
  }

  /**
   * The `switch (_state)` of `tick`. Each timestamp moves only with its own transition:
   * the request time when IDLE starts a conversion, the sample time (with the flag
   * raised) when READ_READY delivers.
   */
  function Next(s: Schedule, now: Millis): (r: Schedule)
    ensures r.lastRequestMs != s.lastRequestMs ==> s.phase == Idle && r.phase == Requested && r.lastRequestMs == now
    ensures r.lastSampleMs != s.lastSampleMs ==> s.phase == ReadReady && r.phase == Idle && r.newSample && r.lastSampleMs == now
  {
    match s.phase
    case Idle => if SampleDue(s, now) then s.(phase := Requested, lastRequestMs := now) else s
    case Requested => if Elapsed(now, s.lastRequestMs, CONVERSION_MS) then s.(phase := ReadReady) else s
    case ReadReady => s.(phase := Idle, lastSampleMs := now, newSample := true)
  }

  /** The phase that follows `p` in the cycle. */
  function Successor(p: Phase): Phase {
    match p
    case Idle => Requested
    case Requested => ReadReady
    case ReadReady => Idle
  }

  /** The ticks of a run, at the given clock readings. */
  function Run(s: Schedule, times: seq<Millis>): Schedule
    decreases |times|
  {
    if times == [] then s else Run(Next(s, times[0]), times[1..])
  }

  /**
   * The slot rule of `readTemperatures`: slot `i` holds the sensor's reading when the
   * bus reported more than `i` devices, and is missing otherwise.
   */
  function Slot<T>(count: bv8, probe: nat -> Option<T>, i: nat): (r: Option<T>)
    ensures r != None ==> i < count as int && r == probe(i)
    ensures i < count as int ==> r == probe(i)
    ensures count as int <= i ==> r == None
  {
    if i < count as int then probe(i) else None
  }

  /** Every slot of one bus, by the slot rule. */
  function Slots<T>(count: bv8, probe: nat -> Option<T>): (r: seq<Option<T>>)
    ensures |r| == SENSORS_PER_BUS
    ensures forall i: nat :: i < SENSORS_PER_BUS ==> r[i] == Slot(count, probe, i)
  {
    [Slot(count, probe, 0), Slot(count, probe, 1), Slot(count, probe, 2)]
  }

  // ---------------------------------------------------------------------------
  // One tick

  /**
   * IDLE requests a conversion exactly when the sample is due, stamping the request
   * time and moving to REQUESTED; otherwise the tick changes nothing.
   */
  lemma IdleRequestsWhenDue(s: Schedule, now: Millis)
    requires s.phase == Idle
    ensures Next(s, now).phase == Requested <==> SampleDue(s, now)
    ensures SampleDue(s, now) ==> Next(s, now) == s.(phase := Requested, lastRequestMs := now)
    ensures !SampleDue(s, now) ==> Next(s, now) == s
  {
  }

  /** After a sample at a nonzero time, the next request comes exactly when `d >= 5000` ms have passed. */
  lemma SamplePeriod(s: Schedule, d: Millis)
    requires s.phase == Idle && s.lastSampleMs != 0
    ensures Next(s, Add(s.lastSampleMs, d)).phase == Requested <==> d >= SAMPLE_PERIOD_MS
  {
    ElapsedAfter(s.lastSampleMs, d, SAMPLE_PERIOD_MS);
  }

  /** A sample taken exactly at clock reading 0 looks like no sample at all: the next tick requests again. */
  lemma SampleAtZeroResamples(s: Schedule, now: Millis)
    requires s.phase == Idle && s.lastSampleMs == 0
    ensures Next(s, now).phase == Requested
  {
  }

  /** REQUESTED waits out the conversion time: `d` ms after the request it moves on iff `d >= 750`. */
  lemma RequestedWaitsForConversion(s: Schedule, d: Millis)
    requires s.phase == Requested
    ensures Next(s, Add(s.lastRequestMs, d)).phase == ReadReady <==> d >= CONVERSION_MS
    ensures Next(s, Add(s.lastRequestMs, d)) == s.(phase := Next(s, Add(s.lastRequestMs, d)).phase)
  {
    ElapsedAfter(s.lastRequestMs, d, CONVERSION_MS);
  }

  /** READ_READY always completes on the next tick: back to IDLE with a fresh sample stamped `now`. */
  lemma ReadReadyCompletes(s: Schedule, now: Millis)
    requires s.phase == ReadReady
    ensures Next(s, now) == Schedule(Idle, now, s.lastRequestMs, true)
  {
  }

  /** The only transitions are IDLE -> REQUESTED -> READ_READY -> IDLE (or staying put). */
  lemma OnlyCycleTransitions(s: Schedule, now: Millis)
    ensures Next(s, now).phase == s.phase || Next(s, now).phase == Successor(s.phase)
    ensures s.phase == ReadReady ==> Next(s, now).phase == Idle
  {
  }

  /** Only the READ_READY step raises the new-sample flag; no tick lowers it. */
  lemma NewSampleOnlyFromReadReady(s: Schedule, now: Millis)
    ensures !s.newSample && Next(s, now).newSample ==> s.phase == ReadReady
    ensures s.newSample ==> Next(s, now).newSample
  {
  }

  // ---------------------------------------------------------------------------
  // Many ticks

  /**
   * Lifted to runs: if the flag was down and is up at the end, some tick of the run
   * started in READ_READY.
   */
  lemma {:induction false} NewSampleNeedsReadReady(s: Schedule, times: seq<Millis>)
    requires !s.newSample && Run(s, times).newSample
    ensures exists i :: 0 <= i < |times| && Run(s, times[..i]).phase == ReadReady
    decreases |times|
  {
    if times != [] {
      var t := Next(s, times[0]);
      if s.phase == ReadReady {
        assert Run(s, times[..0]) == s;
      } else {
        NewSampleOnlyFromReadReady(s, times[0]);
        NeverLowered(t, times[1..]);
        var j :| 0 <= j < |times[1..]| && Run(t, times[1..][..j]).phase == ReadReady by {
          NewSampleNeedsReadReady(t, times[1..]);
        }
        assert times[..j + 1][1..] == times[1..][..j];
        assert Run(s, times[..j + 1]) == Run(t, times[1..][..j]);
      }
    }
  }

  /** Once raised, the flag stays up across any run of ticks (only `clearNewSampleFlag` lowers it). */
  lemma {:induction false} NeverLowered(s: Schedule, times: seq<Millis>)
    ensures s.newSample ==> Run(s, times).newSample
    decreases |times|
  {
    if times != [] {
      NewSampleOnlyFromReadReady(s, times[0]);
      NeverLowered(Next(s, times[0]), times[1..]);
    }
  }

  /**
   * A whole sampling cycle from reset: the first tick requests, a tick 750 ms or more
   * later sees the conversion ready, and the tick after that delivers the sample.
   */
  lemma FirstSampleCycle(t0: Millis, wait: Millis, t2: Millis)
    requires wait >= CONVERSION_MS
    ensures var t1 := Add(t0, wait);
      Run(Reset(), [t0, t1, t2]) == Schedule(Idle, t2, t0, true)
  {
    var t1 := Add(t0, wait);
    var s1 := Next(Reset(), t0);
    assert s1 == Schedule(Requested, 0, t0, false);
    RequestedWaitsForConversion(s1, wait);
    var s2 := Next(s1, t1);
    assert s2 == Schedule(ReadReady, 0, t0, false);
    assert Run(Reset(), [t0, t1, t2]) == Run(s1, [t1, t2]) by {
      assert [t0, t1, t2][1..] == [t1, t2];
    }
    assert Run(s1, [t1, t2]) == Run(s2, [t2]) by {
      assert [t1, t2][1..] == [t2];
    }
    assert Run(s2, [t2]) == Next(s2, t2) by {
      assert [t2][1..] == [];
    }
  }

  // ---------------------------------------------------------------------------
  // Slots

  /** Slot `i` is missing whenever the device count is at most `i`, and holds the sensor's reading otherwise. */
  lemma SlotRule<T>(count: bv8, probe: nat -> Option<T>, i: nat)
    requires i < SENSORS_PER_BUS
    ensures count as int <= i ==> Slots(count, probe)[i] == None
    ensures count as int > i ==> Slots(count, probe)[i] == probe(i)
  {
  }

  /**
   * After a read, both primaries are present exactly when both buses reported a
   * device and both index-0 sensors delivered a reading.
   */
  lemma ReadyAfterRead<T>(intakeCount: bv8, exhaustCount: bv8, intakeProbe: nat -> Option<T>, exhaustProbe: nat -> Option<T>)
    ensures (Slots(intakeCount, intakeProbe)[0].Some? && Slots(exhaustCount, exhaustProbe)[0].Some?)
        <==> (intakeCount != 0 && intakeProbe(0).Some? && exhaustCount != 0 && exhaustProbe(0).Some?)
  {
  }

  /**
   * `class TemperatureBus`: the per-bus device counts and readings, the primary
   * (index 0) readings kept for older callers, and the schedule.
   */
  class TemperatureBus<T> {
    var intakePin: int
    var exhaustPin: int
    var intakeCount: bv8
    var exhaustCount: bv8
    const intakeC: array<Option<T>>
    const exhaustC: array<Option<T>>
    var intakePrimary: Option<T>
    var exhaustPrimary: Option<T>
    var phase: Phase
    var lastRequestMs: Millis
    var lastSampleMs: Millis
    var newSample: bool

    /** Three slots per bus, and each primary reading mirrors its bus's slot 0. */
    ghost predicate Valid()
      reads this, intakeC, exhaustC
    {
      && intakeC.Length == SENSORS_PER_BUS
      && exhaustC.Length == SENSORS_PER_BUS
      && intakeC != exhaustC
      && intakePrimary == intakeC[0]
      && exhaustPrimary == exhaustC[0]
    }

    /** The scheduling registers as a `Schedule` value. */
    function Sched(): Schedule
      reads this
    {
      Schedule(phase, lastSampleMs, lastRequestMs, newSample)
    }

    /** The member initialisers: no readings, no devices, IDLE. */
    constructor ()
      ensures Valid() && fresh(intakeC) && fresh(exhaustC)
      ensures Sched() == Reset() && intakeCount == 0 && exhaustCount == 0
      ensures forall i :: 0 <= i < SENSORS_PER_BUS ==> intakeC[i] == None && exhaustC[i] == None
    {
      intakePin, exhaustPin := 0, 0;
      intakeCount, exhaustCount := 0, 0;
      intakeC := new Option<T>[SENSORS_PER_BUS](_ => None);
      exhaustC := new Option<T>[SENSORS_PER_BUS](_ => None);
      intakePrimary, exhaustPrimary := None, None;
      phase := Idle;
      lastRequestMs, lastSampleMs := 0, 0;
      newSample := false;
    }

    /**
     * `begin`: record the pins, count the devices (`intakeCount`/`exhaustCount` are what
     * the buses report), and reset the schedule and every reading. It always succeeds.
     */
    method Begin(intakePin: int, exhaustPin: int, intakeCount: bv8, exhaustCount: bv8) returns (ok: bool)
      requires Valid()
      modifies this, intakeC, exhaustC
      ensures Valid() && ok
      ensures Sched() == Reset()
      ensures this.intakePin == intakePin && this.exhaustPin == exhaustPin
      ensures this.intakeCount == intakeCount && this.exhaustCount == exhaustCount
      ensures forall i :: 0 <= i < SENSORS_PER_BUS ==> intakeC[i] == None && exhaustC[i] == None
      ensures intakePrimary == None && exhaustPrimary == None
    {
      this.intakePin := intakePin;
      this.exhaustPin := exhaustPin;
      var scanned := ScanBuses(intakeCount, exhaustCount);
      if !scanned {
        return false;
      }
      phase := Idle;
      lastSampleMs := 0;
      lastRequestMs := 0;
      newSample := false;
      for i := 0 to SENSORS_PER_BUS
        modifies intakeC, exhaustC
        invariant forall k :: 0 <= k < i ==> intakeC[k] == None && exhaustC[k] == None
      {
        intakeC[i] := None;
        exhaustC[i] := None;
      }
      intakePrimary := None;
      exhaustPrimary := None;
      return true;
    }

    /** `scanBuses`: store the device counts the buses report; it always reports success. */
    method ScanBuses(intakeCount: bv8, exhaustCount: bv8) returns (ok: bool)
      modifies this`intakeCount, this`exhaustCount
      ensures ok
      ensures this.intakeCount == intakeCount && this.exhaustCount == exhaustCount
    {
      this.intakeCount := intakeCount;
      this.exhaustCount := exhaustCount;
      return true;
    }

    /**
     * `tick` at clock reading `now`. `intakeCount`/`exhaustCount` are what a rescan of
     * the buses would report (used only when IDLE starts a conversion), and
     * `intakeProbe`/`exhaustProbe` give each sensor index's reading (used only in READ_READY).
     */
    method Tick(now: Millis, intakeCount: bv8, exhaustCount: bv8,
                intakeProbe: nat -> Option<T>, exhaustProbe: nat -> Option<T>)
      requires Valid()
      modifies this`intakeCount, this`exhaustCount, this`intakePrimary, this`exhaustPrimary
      modifies this`phase, this`lastRequestMs, this`lastSampleMs, this`newSample, intakeC, exhaustC
      ensures Valid()
      ensures intakePin == old(intakePin) && exhaustPin == old(exhaustPin)
      ensures Sched() == Next(old(Sched()), now)
      ensures var rescan := old(phase) == Idle && SampleDue(old(Sched()), now);
        && (rescan ==> this.intakeCount == intakeCount && this.exhaustCount == exhaustCount)
        && (!rescan ==> this.intakeCount == old(this.intakeCount) && this.exhaustCount == old(this.exhaustCount))
      ensures old(phase) == ReadReady ==>
        intakeC[..] == Slots(old(this.intakeCount), intakeProbe) && exhaustC[..] == Slots(old(this.exhaustCount), exhaustProbe)
      ensures old(phase) != ReadReady ==>
        intakeC[..] == old(intakeC[..]) && exhaustC[..] == old(exhaustC[..])
        && intakePrimary == old(intakePrimary) && exhaustPrimary == old(exhaustPrimary)
    {
      match phase {
        case Idle =>
          if lastSampleMs == 0 || Elapsed(now, lastSampleMs, SAMPLE_PERIOD_MS) {
            var _ := ScanBuses(intakeCount, exhaustCount);
            // The conversion request itself is bus I/O and is not modelled.
            lastRequestMs := now;
            phase := Requested;
          }
        case Requested =>
          if Elapsed(now, lastRequestMs, CONVERSION_MS) {
            phase := ReadReady;
          }
        case ReadReady =>
          ReadTemperatures(intakeProbe, exhaustProbe);
          lastSampleMs := now;
          newSample := true;
          phase := Idle;
      }
    }

    /**
     * `readTemperatures`: fill every slot of both buses by the slot rule, then copy
     * slot 0 of each bus into its primary reading.
     */
    method ReadTemperatures(intakeProbe: nat -> Option<T>, exhaustProbe: nat -> Option<T>)
      requires Valid()
      modifies this`intakePrimary, this`exhaustPrimary, intakeC, exhaustC
      ensures Valid()
      ensures intakeC[..] == Slots(intakeCount, intakeProbe)
      ensures exhaustC[..] == Slots(exhaustCount, exhaustProbe)
      ensures Ready() <==> intakeCount != 0 && intakeProbe(0).Some? && exhaustCount != 0 && exhaustProbe(0).Some?
    {
      for i := 0 to SENSORS_PER_BUS
        modifies intakeC, exhaustC
        invariant forall k: nat :: k < i ==> intakeC[k] == Slot(intakeCount, intakeProbe, k)
        invariant forall k: nat :: k < i ==> exhaustC[k] == Slot(exhaustCount, exhaustProbe, k)
      {
        var tI: Option<T> := None;
        var tE: Option<T> := None;
        if intakeCount as int > i {
          tI := intakeProbe(i);
        }
        if exhaustCount as int > i {
          tE := exhaustProbe(i);
        }
        intakeC[i] := tI;
        exhaustC[i] := tE;
      }
      assert intakeC[..] == Slots(intakeCount, intakeProbe);
      assert exhaustC[..] == Slots(exhaustCount, exhaustProbe);
      intakePrimary := intakeC[0];
      exhaustPrimary := exhaustC[0];
      ReadyAfterRead(intakeCount, exhaustCount, intakeProbe, exhaustProbe);
    }

    /** `ready`: both primary readings are present. */
    function Ready(): (r: bool)
      reads this
      ensures r <==> intakePrimary != None && exhaustPrimary != None
    {
      intakePrimary.Some? && exhaustPrimary.Some?
    }

    /** `hasNewSample`. */
    function HasNewSample(): (r: bool)
      reads this
      ensures r == Sched().newSample
    {
      newSample
    }

    /** `clearNewSampleFlag`: lower the flag, touching nothing else. */
    method ClearNewSampleFlag()
      modifies this`newSample
      ensures !newSample && !HasNewSample()
    {
      newSample := false;
    }

    /** `intakeC(idx)`: the reading in slot `idx`, missing for an index past the last slot. */
    function IntakeAt(idx: bv8): (r: Option<T>)
      requires Valid()
      reads this, intakeC, exhaustC
      ensures idx as int >= SENSORS_PER_BUS ==> r == None
      ensures idx as int < SENSORS_PER_BUS ==> r == intakeC[idx]
    {
      if (idx as int) < SENSORS_PER_BUS then intakeC[idx] else None
    }

    /** `exhaustC(idx)`: the reading in slot `idx`, missing for an index past the last slot. */
    function ExhaustAt(idx: bv8): (r: Option<T>)
      requires Valid()
      reads this, intakeC, exhaustC
      ensures idx as int >= SENSORS_PER_BUS ==> r == None
      ensures idx as int < SENSORS_PER_BUS ==> r == exhaustC[idx]
    {
      if (idx as int) < SENSORS_PER_BUS then exhaustC[idx] else None
    }
  }
}
