/**
 * Exclusive ownership of the shared bus (src/RelayControl.cpp, include/RelayControl.h).
 * Two relays, one per possible owner, are driven through GPIO pins; changing owner
 * de-energises both, waits, and then energises at most the new owner's relay.
 *
 * The hardware is modelled by an append-only trace of what the controller does to it:
 * each `digitalWrite` is a `Write` event (pin, whether the relay is switched on, and the
 * electrical level), each `delay` a `Delay` event. A relay is energised when the last
 * write to its pin switched it on.
 */
module BusArbitration {

  /** `enum class BusOwner {NONE, A, B}`. */
  datatype BusOwner = NoOwner | A | B

  datatype Event =
    | Write(pin: int, on: bool, high: bool)
    | Delay(ms: nat)

  /** Whether the relay on `pin` is energised after `trace`: the last write to `pin` switched it on. */
  function IsOn(trace: seq<Event>, pin: int): bool
    decreases |trace|
  {
    if trace == [] then false
    else
      var e := trace[|trace| - 1];
      if e.Write? && e.pin == pin then e.on else IsOn(trace[..|trace| - 1], pin)
  }

  /** At most one relay is energised at the end of `trace`. */
  ghost predicate AtMostOneOn(trace: seq<Event>) {
    forall p, q :: IsOn(trace, p) && IsOn(trace, q) ==> p == q
  }

  /** At most one relay is energised after every event of `trace`, and at the start. */
  ghost predicate Exclusive(trace: seq<Event>)
    decreases |trace|
  {
    trace == [] || (Exclusive(trace[..|trace| - 1]) && AtMostOneOn(trace))
  }

  /** The `digitalWrite` level for switching a relay on or off: LOW means on for active-low relays. */
  function Level(activeLow: bool, on: bool): (high: bool)
    ensures high != on <==> activeLow
  {
    if activeLow then !on else on
  }

  /** `writeRelay(pin, on)` as events: nothing for an unconfigured pin (`pin < 0`), else one write. */
  function WriteIf(pin: int, on: bool, activeLow: bool): (r: seq<Event>)
    ensures |r| == (if pin < 0 then 0 else 1)
    ensures forall e :: e in r ==> e.Write? && e.pin == pin && e.on == on && (e.high != on <==> activeLow)
  {
    if pin < 0 then [] else [Write(pin, on, Level(activeLow, on))]
  }

  /** The pin of `owner`'s relay (negative when nobody owns the bus). */
  function OwnerPin(owner: BusOwner, pinA: int, pinB: int): int {
    match owner
    case NoOwner => -1
    case A => pinA
    case B => pinB
  }

  /** Both configured relays switched off, A's first. */
  function Release(pinA: int, pinB: int, activeLow: bool): (r: seq<Event>)
    ensures |r| == (if pinA < 0 then 0 else 1) + (if pinB < 0 then 0 else 1)
    ensures forall e :: e in r ==> e.Write? && !e.on && 0 <= e.pin && (e.pin == pinA || e.pin == pinB)
    ensures pinA >= 0 ==> r[0].pin == pinA
    ensures pinB >= 0 ==> r[|r| - 1].pin == pinB
  {
    WriteIf(pinA, false, activeLow) + WriteIf(pinB, false, activeLow)
  }

  /** The new owner's relay switched on, if the new owner is A or B and its pin is configured. */
  function Make(pinA: int, pinB: int, activeLow: bool, newOwner: BusOwner): (r: seq<Event>)
    ensures |r| == (if OwnerPin(newOwner, pinA, pinB) < 0 then 0 else 1)
    ensures forall e :: e in r ==> e.Write? && e.on && e.pin == OwnerPin(newOwner, pinA, pinB)
  {
    (if newOwner == A then WriteIf(pinA, true, activeLow) else [])
      + (if newOwner == B then WriteIf(pinB, true, activeLow) else [])
  }

  /** What `setOwner(newOwner)` does to the hardware when the owner changes: break, wait, make. */
  function Switch(pinA: int, pinB: int, activeLow: bool, settleMs: nat, newOwner: BusOwner): (r: seq<Event>)
    ensures |r| == |Release(pinA, pinB, activeLow)| + 1 + |Make(pinA, pinB, activeLow, newOwner)|
    ensures r[|Release(pinA, pinB, activeLow)|] == Delay(settleMs)
    ensures forall k :: 0 <= k < |Release(pinA, pinB, activeLow)| ==> r[k].Write? && !r[k].on
    ensures forall k :: |Release(pinA, pinB, activeLow)| < k < |r| ==>
      r[k].Write? && r[k].on && r[k].pin == OwnerPin(newOwner, pinA, pinB)
  {
    Release(pinA, pinB, activeLow) + [Delay(settleMs)] + Make(pinA, pinB, activeLow, newOwner)
  }

  // ---------------------------------------------------------------------------
  // Facts about traces

  /** Appending an event changes at most the relay it writes. */
  lemma IsOnAppend(trace: seq<Event>, e: Event, pin: int)
    ensures IsOn(trace + [e], pin) == if e.Write? && e.pin == pin then e.on else IsOn(trace, pin)
  {
    assert (trace + [e])[..|trace|] == trace;
  }

  /** The definition of `Exclusive`, unfolded: every prefix of the trace has at most one relay energised. */
  lemma {:induction false} ExclusiveEveryPrefix(trace: seq<Event>, k: nat)
    requires Exclusive(trace) && k <= |trace|
    ensures AtMostOneOn(trace[..k])
    decreases |trace|
  {
    if k < |trace| {
      var shorter := trace[..|trace| - 1];
      assert shorter[..k] == trace[..k];
      ExclusiveEveryPrefix(shorter, k);
    } else {
      assert trace[..k] == trace;
      if trace == [] {
        assert forall p :: !IsOn(trace, p);
      }
    }
  }

  /** Extending an exclusive trace by an event that leaves at most one relay energised keeps it exclusive. */
  lemma ExclusiveAppend(trace: seq<Event>, e: Event)
    requires Exclusive(trace) && AtMostOneOn(trace + [e])
    ensures Exclusive(trace + [e])
  {
    assert (trace + [e])[..|trace|] == trace;
  }

  /** Switching a relay off, or a delay, keeps an exclusive trace exclusive and energises nothing new. */
  lemma AppendOffOrDelay(trace: seq<Event>, e: Event)
    requires Exclusive(trace)
    requires e.Delay? || !e.on
    ensures Exclusive(trace + [e])
    ensures forall p :: IsOn(trace + [e], p) ==> IsOn(trace, p) && !(e.Write? && e.pin == p)
  {
    forall p
      ensures IsOn(trace + [e], p) == (IsOn(trace, p) && !(e.Write? && e.pin == p))
    {
      IsOnAppend(trace, e, p);
    }
    ExclusiveAppend(trace, e);
  }

  /** Switching a relay on when nothing is energised keeps the trace exclusive; exactly that relay is on. */
  lemma AppendOnWhenAllOff(trace: seq<Event>, e: Event)
    requires Exclusive(trace) && forall p :: !IsOn(trace, p)
    requires e.Write? && e.on
    ensures Exclusive(trace + [e])
    ensures forall p :: IsOn(trace + [e], p) <==> p == e.pin
  {
    forall p
      ensures IsOn(trace + [e], p) <==> p == e.pin
    {
      IsOnAppend(trace, e, p);
    }
    ExclusiveAppend(trace, e);
  }

  /** Releasing both relays (the first half of `begin` and of an owner change) from a state where only they can be on. */
  lemma ReleaseBoth(trace: seq<Event>, pinA: int, pinB: int, activeLow: bool)
    requires Exclusive(trace)
    requires forall p :: IsOn(trace, p) ==> 0 <= p && (p == pinA || p == pinB)
    ensures var t := trace + Release(pinA, pinB, activeLow);
      Exclusive(t) && forall p :: !IsOn(t, p)
  {
    assert trace + Release(pinA, pinB, activeLow) == trace + WriteIf(pinA, false, activeLow) + WriteIf(pinB, false, activeLow);
    var t1 := trace + WriteIf(pinA, false, activeLow);
    if pinA >= 0 {
      AppendOffOrDelay(trace, Write(pinA, false, Level(activeLow, false)));
    } else {
      assert t1 == trace;
    }
    assert forall p :: IsOn(t1, p) ==> p == pinB && pinB >= 0;
    var t2 := t1 + WriteIf(pinB, false, activeLow);
    if pinB >= 0 {
      AppendOffOrDelay(t1, Write(pinB, false, Level(activeLow, false)));
    } else {
      assert t2 == t1;
    }
  }

  /**
   * Break before make: from a state where at most the configured relays are energised,
   * an owner change keeps "at most one relay energised" after every single event, and
   * ends with exactly the new owner's relay energised (none for `NoOwner` or an
   * unconfigured pin).
   */
  lemma SwitchKeepsExclusive(trace: seq<Event>, pinA: int, pinB: int, activeLow: bool, settleMs: nat, newOwner: BusOwner)
    requires Exclusive(trace)
    requires forall p :: IsOn(trace, p) ==> 0 <= p && (p == pinA || p == pinB)
    ensures var t := trace + Release(pinA, pinB, activeLow) + [Delay(settleMs)] + Make(pinA, pinB, activeLow, newOwner);
      && Exclusive(t)
      && forall p :: IsOn(t, p) <==> 0 <= p && p == OwnerPin(newOwner, pinA, pinB)
  {
    var released := trace + Release(pinA, pinB, activeLow);
    ReleaseBoth(trace, pinA, pinB, activeLow);
    AppendOffOrDelay(released, Delay(settleMs));
    MakeOwner(released + [Delay(settleMs)], pinA, pinB, activeLow, newOwner);
  }

  /** The second half of an owner change: from all relays off, energise the new owner's relay, if configured. */
  lemma MakeOwner(trace: seq<Event>, pinA: int, pinB: int, activeLow: bool, newOwner: BusOwner)
    requires Exclusive(trace) && forall p :: !IsOn(trace, p)
    ensures var t := trace + Make(pinA, pinB, activeLow, newOwner);
      && Exclusive(t)
      && forall p :: IsOn(t, p) <==> 0 <= p && p == OwnerPin(newOwner, pinA, pinB)
  {
    var pin := OwnerPin(newOwner, pinA, pinB);
    var made := Make(pinA, pinB, activeLow, newOwner);
    if pin >= 0 {
      var on := Write(pin, true, Level(activeLow, true));
      assert made == [on];
      AppendOnWhenAllOff(trace, on);
    } else {
      assert made == [];
      assert trace + made == trace;
    }
  }

  /**
   * In the switching sequence every write before the delay switches a relay off, the
   * delay has the configured length, and the only write after it switches on the new
   * owner's relay.
   */
  lemma SwitchBreaksBeforeMake(pinA: int, pinB: int, activeLow: bool, settleMs: nat, newOwner: BusOwner)
    ensures var s := Switch(pinA, pinB, activeLow, settleMs, newOwner);
      exists d :: 0 <= d < |s| && s[d] == Delay(settleMs)
        && (forall i :: 0 <= i < d ==> s[i].Write? && !s[i].on)
        && (forall i :: d < i < |s| ==> s[i].Write? && s[i].on && s[i].pin == OwnerPin(newOwner, pinA, pinB))
  {
    var offs := Release(pinA, pinB, activeLow);
    var s := Switch(pinA, pinB, activeLow, settleMs, newOwner);
    var d := |offs|;
    assert s[d] == Delay(settleMs);
  }

  /** A relay that is on stays on through events that do not write its pin. */
  lemma {:induction false} StaysOn(trace: seq<Event>, more: seq<Event>, pin: int)
    requires IsOn(trace, pin)
    requires forall k :: 0 <= k < |more| ==> !(more[k].Write? && more[k].pin == pin)
    ensures IsOn(trace + more, pin)
    decreases |more|
  {
    if more != [] {
      var init := more[..|more| - 1];
      StaysOn(trace, init, pin);
      IsOnAppend(trace + init, more[|more| - 1], pin);
      assert trace + more == (trace + init) + [more[|more| - 1]];
    } else {
      assert trace + more == trace;
    }
  }

  /**
   * Why `RelayControl.Begin` must keep the energised relay configured: reconfiguring
   * while relay 25 is on to pins 27 and 28, then handing the bus to B, leaves 25 and 28
   * both energised.
   */
  lemma ReconfigureCanOrphanRelay()
    ensures var t := [Write(25, true, false)] + Release(27, 28, true) + Switch(27, 28, true, 30, B);
      IsOn(t, 25) && IsOn(t, 28) && !AtMostOneOn(t)
  {
    var t1: seq<Event> := [Write(25, true, false)];
    IsOnAppend([], Write(25, true, false), 25);
    assert [] + [Write(25, true, false)] == t1;
    var events := [Write(27, false, true), Write(28, false, true), Write(27, false, true),
                   Write(28, false, true), Delay(30), Write(28, true, false)];
    var t := t1 + events;
    var offs := [Write(27, false, true), Write(28, false, true)];
    assert Release(27, 28, true) == offs;
    assert Make(27, 28, true, B) == [Write(28, true, false)];
    assert Switch(27, 28, true, 30, B) == offs + [Delay(30)] + [Write(28, true, false)];
    assert t == [Write(25, true, false)] + Release(27, 28, true) + Switch(27, 28, true, 30, B);
    StaysOn(t1, events, 25);
    IsOnAppend(t1 + events[..5], events[5], 28);
    assert t == (t1 + events[..5]) + [events[5]];
    assert IsOn(t, 25) && IsOn(t, 28);
  }

  /**
   * `class RelayControl`: the configured pins and polarity, the current owner, and the
   * trace of hardware events so far. `settleMs` is the build-time constant
   * `BREAK_BEFORE_MAKE_MS`.
   */
  class RelayControl {
    var pinA: int
    var pinB: int
    var activeLow: bool
    var owner: BusOwner
    var trace: seq<Event>
    const settleMs: nat

    /** Never two relays energised at any point of the trace, and now exactly the owner's relay. */
    ghost predicate Valid()
      reads this
    {
      && Exclusive(trace)
      && forall p :: IsOn(trace, p) <==> 0 <= p && p == OwnerPin(owner, pinA, pinB)
    }

    /** The member initialisers: no pins, active-low, no owner, nothing written yet. */
    constructor (settleMs: nat)
      ensures Valid()
      ensures pinA == -1 && pinB == -1 && activeLow && owner == NoOwner && trace == []
      ensures this.settleMs == settleMs
    {
      pinA, pinB := -1, -1;
      activeLow := true;
      owner := NoOwner;
      trace := [];
      this.settleMs := settleMs;
    }

    /** `writeRelay(pin, on)`: no-op for an unconfigured pin, else drive the level for `on` under the polarity. */
    method WriteRelay(pin: int, on: bool)
      modifies this`trace
      ensures trace == old(trace) + WriteIf(pin, on, activeLow)
      ensures pin >= 0 ==> trace[|trace| - 1].high == (if activeLow then !on else on)
    {
      if pin < 0 {
        return;
      }
      if activeLow {
        trace := trace + [Write(pin, on, !on)];
      } else {
        trace := trace + [Write(pin, on, on)];
      }
    }

    /**
     * `begin`: configure pins and polarity, de-energise both relays, owner NONE.
     * The relay energised before the call, if any, must be one of the new pins.
     */
    method Begin(relayAPin: int, relayBPin: int, activeLow: bool)
      requires Valid()
      requires OwnerPin(owner, pinA, pinB) < 0 || OwnerPin(owner, pinA, pinB) in {relayAPin, relayBPin}
      modifies this
      ensures Valid()
      ensures pinA == relayAPin && pinB == relayBPin && this.activeLow == activeLow && owner == NoOwner
      ensures trace == old(trace) + Release(relayAPin, relayBPin, activeLow)
      ensures forall p :: !IsOn(trace, p)
    {
      ghost var t0 := trace;
      pinA := relayAPin;
      pinB := relayBPin;
      this.activeLow := activeLow;
      ReleaseRelays();
      owner := NoOwner;
      ReleaseBoth(t0, relayAPin, relayBPin, activeLow);
    }

    /**
     * `setOwner(newOwner)`: nothing at all when the owner is unchanged; otherwise both
     * relays off, the settle delay, then the new owner's relay on.
     */
    method SetOwner(newOwner: BusOwner)
      requires Valid()
      modifies this`trace, this`owner
      ensures Valid()
      ensures owner == newOwner
      ensures newOwner == old(owner) ==> trace == old(trace)
      ensures newOwner != old(owner) ==>
        trace == old(trace) + Release(pinA, pinB, activeLow) + [Delay(settleMs)] + Make(pinA, pinB, activeLow, newOwner)
      ensures forall p :: IsOn(trace, p) <==> 0 <= p && p == OwnerPin(newOwner, pinA, pinB)
    {
      if newOwner == owner {
        return;
      }
      ghost var t0 := trace;
      ReleaseRelays();
      trace := trace + [Delay(settleMs)];
      EnergiseOwner(newOwner);
      owner := newOwner;
      SwitchKeepsExclusive(t0, pinA, pinB, activeLow, settleMs, newOwner);
    }

    /** The two guarded `writeRelay(.., false)` calls that open `begin` and an owner change. */
    method ReleaseRelays()
      modifies this`trace
      ensures trace == old(trace) + Release(pinA, pinB, activeLow)
    {
      if pinA >= 0 {
        WriteRelay(pinA, false);
      }
      if pinB >= 0 {
        WriteRelay(pinB, false);
      }
    }

    /** The two guarded `writeRelay(.., true)` calls that close an owner change. */
    method EnergiseOwner(newOwner: BusOwner)
      modifies this`trace
      ensures trace == old(trace) + Make(pinA, pinB, activeLow, newOwner)
    {
      if newOwner == A && pinA >= 0 {
        WriteRelay(pinA, true);
      }
      if newOwner == B && pinB >= 0 {
        WriteRelay(pinB, true);
      }
    }

    /** `owner()`. */
    function Owner(): (o: BusOwner)
      reads this
      requires Valid()
      ensures forall p :: IsOn(trace, p) ==> p == OwnerPin(o, pinA, pinB)
    {
      owner
    }
  }
}
