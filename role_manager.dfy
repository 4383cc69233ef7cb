/**
 * The failover role state machine (ESP32-Firmware/src/RoleManager.cpp,
 * include/RoleManager.h). Each tick drains the heartbeat link, sends this node's own
 * heartbeat when the send period has elapsed, evaluates the peer's liveness and then
 * advances the role:
 *
 *   PRIMARY_ACTIVE          stays put (absorbing)
 *   STANDBY_PASSIVE         -> TAKING_OVER as soon as the peer is not alive, claiming the bus
 *   TAKING_OVER             -> ACTIVE_AFTER_TAKEOVER once 200 ms have elapsed
 *   ACTIVE_AFTER_TAKEOVER   stays put (its "future policies" branch is empty)
 *
 * The build-time constants HB_SEND_MS, HB_TIMEOUT_MS and HB_TAKEOVER_HOLD_MS are
 * constructor parameters here.
 */
module Failover {
  import opened TimeUtil
  import opened HeartbeatLink
  import opened BusArbitration

  /** `enum class RoleState`. */
  datatype RoleState = PrimaryActive | StandbyPassive | TakingOver | ActiveAfterTakeover

  /** The node identity 'A', the preferred primary. */
  const ID_A: bv8 := 0x41
  /** How long TAKING_OVER lets the bus settle, hard-coded in `tick`. */
  const SETTLE_MS: Millis := 200

  /** The bus this node claims: A for identity 'A', B for any other identity. */
  function OwnBus(myId: bv8): (o: BusOwner)
    ensures o != NoOwner
    ensures o == A <==> myId == ID_A
  {
    if myId == ID_A then A else B
  }

  /** The role and the takeover timestamp: what the role switch of `tick` reads and writes. */
  datatype Control = Control(role: RoleState, takeOverStartMs: Millis)

  /**
   * The `switch (_state)` of `tick`, given this tick's liveness verdict: the primary
   * role is never entered or left, standby is kept exactly while the peer is alive, and
   * every change of role restamps the takeover time with `now`.
   */
  function Decide(c: Control, peerAlive: bool, now: Millis): (r: Control)
    ensures r.role == PrimaryActive <==> c.role == PrimaryActive
    ensures r.role == StandbyPassive <==> c.role == StandbyPassive && peerAlive
    ensures r.role != c.role ==> r.takeOverStartMs == now
    ensures r.role == c.role ==> r == c
  {
    match c.role
    case PrimaryActive => c
    case StandbyPassive => if !peerAlive then Control(TakingOver, now) else c
    case TakingOver => if Elapsed(now, c.takeOverStartMs, SETTLE_MS) then Control(ActiveAfterTakeover, now) else c
    case ActiveAfterTakeover => c
  }

  /** Whether this tick's role switch calls `setOwner` (always with the node's own bus). */
  predicate Claims(c: Control, peerAlive: bool) {
    c.role == StandbyPassive && !peerAlive
  }

  /**
   * What `setOwner(newOwner)` leaves in the relay trace: nothing new when the owner is
   * unchanged, otherwise both relays released, the settle delay, and the new owner's
   * relay energised.
   */
  ghost predicate HandedOver(before: seq<Event>, after: seq<Event>, oldOwner: BusOwner, newOwner: BusOwner,
                             pinA: int, pinB: int, activeLow: bool, settleMs: nat)
  {
    && (newOwner == oldOwner ==> after == before)
    && (newOwner != oldOwner ==>
          after == before + Release(pinA, pinB, activeLow) + [Delay(settleMs)] + Make(pinA, pinB, activeLow, newOwner))
  }

  /** A sequence of ticks, each given its liveness verdict and clock reading. */
  function Run(c: Control, ticks: seq<(bool, Millis)>): Control
    decreases |ticks|
  {
    if ticks == [] then c else Run(Decide(c, ticks[0].0, ticks[0].1), ticks[1..])
  }

  /** The role and bus owner `begin` establishes: 'A' starts primary and owns bus A, anyone else starts in standby owning nothing. */
  function Boot(myId: bv8): (r: (RoleState, BusOwner))
    ensures r.0 == PrimaryActive <==> myId == ID_A
    ensures r.0 == StandbyPassive <==> myId != ID_A
    ensures r.1 == (if myId == ID_A then A else NoOwner)
  {
    if myId == ID_A then (PrimaryActive, OwnBus(myId)) else (StandbyPassive, NoOwner)
  }

  // ---------------------------------------------------------------------------
  // One tick

  /** PRIMARY_ACTIVE is absorbing and never touches the relays. */
  lemma PrimaryAbsorbing(c: Control, peerAlive: bool, now: Millis)
    requires c.role == PrimaryActive
    ensures Decide(c, peerAlive, now) == c && !Claims(c, peerAlive)
  {
  }

  /**
   * STANDBY_PASSIVE moves to TAKING_OVER exactly when the peer is not alive, stamping
   * the takeover start with `now` and claiming the bus in the same tick.
   */
  lemma StandbyTakeover(c: Control, peerAlive: bool, now: Millis)
    requires c.role == StandbyPassive
    ensures Decide(c, peerAlive, now).role == TakingOver <==> !peerAlive
    ensures Claims(c, peerAlive) <==> !peerAlive
    ensures !peerAlive ==> Decide(c, peerAlive, now).takeOverStartMs == now
    ensures peerAlive ==> Decide(c, peerAlive, now) == c
  {
  }

  /**
   * TAKING_OVER moves to ACTIVE_AFTER_TAKEOVER once 200 ms have passed since the
   * takeover started (wrap-safe), restamping the start; it never claims the bus.
   */
  lemma TakingOverSettles(c: Control, peerAlive: bool, d: Millis)
    requires c.role == TakingOver
    ensures var r := Decide(c, peerAlive, Add(c.takeOverStartMs, d));
      (r.role == ActiveAfterTakeover <==> d >= SETTLE_MS)
      && (r.role == ActiveAfterTakeover ==> r.takeOverStartMs == Add(c.takeOverStartMs, d))
      && (r.role != ActiveAfterTakeover ==> r == c)
    ensures !Claims(c, peerAlive)
  {
    ElapsedAfter(c.takeOverStartMs, d, SETTLE_MS);
  }

  /** ACTIVE_AFTER_TAKEOVER is absorbing: the hold interval leads to no policy yet. */
  lemma ActiveAfterTakeoverAbsorbing(c: Control, peerAlive: bool, now: Millis)
    requires c.role == ActiveAfterTakeover
    ensures Decide(c, peerAlive, now) == c && !Claims(c, peerAlive)
  {
  }

  // ---------------------------------------------------------------------------
  // Many ticks

  /**
   * No flapping: once a node has left STANDBY_PASSIVE, no sequence of ticks brings it
   * back, and no tick of such a sequence calls `setOwner` again; a primary stays exactly as it is.
   */
  lemma {:induction false} NeverBackToStandby(c: Control, ticks: seq<(bool, Millis)>)
    requires c.role != StandbyPassive
    ensures Run(c, ticks).role != StandbyPassive
    ensures c.role == PrimaryActive ==> Run(c, ticks) == c
    ensures c.role != PrimaryActive ==> Run(c, ticks).role != PrimaryActive
    ensures forall i :: 0 <= i < |ticks| ==> !Claims(Run(c, ticks[..i]), ticks[i].0)
    decreases |ticks|
  {
    if ticks != [] {
      var next := Decide(c, ticks[0].0, ticks[0].1);
      NeverBackToStandby(next, ticks[1..]);
      forall i | 0 <= i < |ticks|
        ensures !Claims(Run(c, ticks[..i]), ticks[i].0)
      {
        if i > 0 {
          assert ticks[..i][1..] == ticks[1..][..i - 1];
          assert Run(c, ticks[..i]) == Run(next, ticks[1..][..i - 1]);
          assert ticks[i] == ticks[1..][i - 1];
        } else {
          assert Run(c, ticks[..0]) == c;
        }
      }
    }
  }

  /**
   * Takeover after silence: a standby node whose last valid heartbeat arrived at
   * `lastRxMs != 0`, ticking more than `timeout` ms later (across a clock wrap or not),
   * enters TAKING_OVER and claims its bus; one more tick at least 200 ms after that
   * makes it ACTIVE_AFTER_TAKEOVER, where it then stays whatever the link reports.
   */
  lemma TakeoverAfterSilence(c: Control, lastRxMs: Millis, silence: Millis, timeout: Millis,
                             settle: Millis, later: seq<(bool, Millis)>)
    requires c.role == StandbyPassive && lastRxMs != NEVER
    requires silence > timeout && settle >= SETTLE_MS
    ensures var now := Add(lastRxMs, silence);
      var alive := PeerAlive(lastRxMs, now, timeout);
      var taking := Decide(c, alive, now);
      && taking == Control(TakingOver, now)
      && Claims(c, alive)
      && Decide(taking, false, Add(now, settle)).role == ActiveAfterTakeover
      && Run(Decide(taking, false, Add(now, settle)), later).role == ActiveAfterTakeover
  {
    var now := Add(lastRxMs, silence);
    PeerAliveAfter(lastRxMs, silence, timeout);
    var taking := Decide(c, false, now);
    TakingOverSettles(taking, false, settle);
    var active := Decide(taking, false, Add(now, settle));
    NeverBackToStandby(active, later);
  }

  /**
   * A standby node that has never received a valid frame (`lastRxMs == 0`) treats the
   * peer as dead and starts taking over on its very first tick.
   */
  lemma StandbyWithoutFramesTakesOverAtOnce(c: Control, now: Millis, timeout: Millis)
    requires c.role == StandbyPassive
    ensures Decide(c, PeerAlive(NEVER, now, timeout), now) == Control(TakingOver, now)
  {
  }

  /**
   * `tick` reads the clock once at its start, but `parseByte` stamps an accepted frame
   * with a fresh `millis()` reading. A frame stamped even 1 ms after the tick's `now`
   * makes `now - lastRxMs` wrap to nearly 2^32, so a standby node judges the peer dead
   * in the very tick its heartbeat arrived, claims the bus, and (by
   * `NeverBackToStandby`) never gives it back.
   */
  lemma FrameStampedAfterNowLooksDead(c: Control, l: Link, id: bv8, counter: bv8, now: Millis, lag: Millis, timeout: Millis)
    requires c.role == StandbyPassive
    requires WellFormed(l) && l.state == 0
    requires 0 < lag && timeout < WRAP - lag
    ensures var rx := Feed(l, Frame(id, counter), Add(now, lag));
      var alive := PeerAlive(rx.lastRxMs, now, timeout);
      && rx.peerId == id
      && !alive
      && Claims(c, alive)
      && Decide(c, alive, now) == Control(TakingOver, now)
  {
    var stamp := Add(now, lag);
    FrameAccepted(l, id, counter, stamp);
    assert Sub(now, stamp) == WRAP - lag;
  }

  /**
   * `class RoleManager`: the heartbeat link and relay arbitrator it drives, the node
   * identity, the configured periods, and the role state.
   */
  class RoleManager {
    const hb: Heartbeat
    const relays: RelayControl
    const myId: bv8
    const sendMs: Millis
    const timeoutMs: Millis
    const holdMs: Millis

    var state: RoleState
    var lastSendMs: Millis
    var takeOverStartMs: Millis

    /** Both collaborators are consistent, and outside standby this node owns its bus. */
    ghost predicate Valid()
      reads this, hb, hb.buf, relays
    {
      && hb.Valid()
      && relays.Valid()
      && (state != StandbyPassive ==> relays.owner == OwnBus(myId))
    }

    function Ctl(): Control
      reads this
    {
      Control(state, takeOverStartMs)
    }

    constructor (hb: Heartbeat, relays: RelayControl, myId: bv8, sendMs: Millis, timeoutMs: Millis, holdMs: Millis)
      requires hb.Valid() && relays.Valid()
      ensures Valid()
      ensures this.hb == hb && this.relays == relays && this.myId == myId
      ensures this.sendMs == sendMs && this.timeoutMs == timeoutMs && this.holdMs == holdMs
      ensures state == StandbyPassive && lastSendMs == 0 && takeOverStartMs == 0
    {
      this.hb := hb;
      this.relays := relays;
      this.myId := myId;
      this.sendMs := sendMs;
      this.timeoutMs := timeoutMs;
      this.holdMs := holdMs;
      state := StandbyPassive;
      lastSendMs := 0;
      takeOverStartMs := 0;
    }

    /** `begin`: deterministic start-up from the node identity. */
    method Begin()
      requires Valid()
      modifies this, relays`trace, relays`owner
      ensures Valid()
      ensures (state, relays.owner) == Boot(myId)
      ensures HandedOver(old(relays.trace), relays.trace, old(relays.owner), Boot(myId).1,
                         relays.pinA, relays.pinB, relays.activeLow, relays.settleMs)
      ensures relays.pinA == old(relays.pinA) && relays.pinB == old(relays.pinB) && relays.activeLow == old(relays.activeLow)
      ensures lastSendMs == old(lastSendMs) && takeOverStartMs == old(takeOverStartMs)
    {
      if myId == ID_A {
        BecomeActive();
      } else {
        BecomeStandby();
      }
    }

    /** `becomeActive`: PRIMARY_ACTIVE, owning this node's bus. */
    method BecomeActive()
      requires Valid()
      modifies this, relays`trace, relays`owner
      ensures Valid()
      ensures state == PrimaryActive && relays.owner == OwnBus(myId)
      ensures HandedOver(old(relays.trace), relays.trace, old(relays.owner), OwnBus(myId),
                         relays.pinA, relays.pinB, relays.activeLow, relays.settleMs)
      ensures relays.pinA == old(relays.pinA) && relays.pinB == old(relays.pinB) && relays.activeLow == old(relays.activeLow)
      ensures lastSendMs == old(lastSendMs) && takeOverStartMs == old(takeOverStartMs)
    {
      state := PrimaryActive;
      relays.SetOwner(if myId == ID_A then A else B);
    }

    /** `becomeStandby`: STANDBY_PASSIVE, owning nothing. */
    method BecomeStandby()
      requires Valid()
      modifies this, relays`trace, relays`owner
      ensures Valid()
      ensures state == StandbyPassive && relays.owner == NoOwner
      ensures HandedOver(old(relays.trace), relays.trace, old(relays.owner), NoOwner,
                         relays.pinA, relays.pinB, relays.activeLow, relays.settleMs)
      ensures relays.pinA == old(relays.pinA) && relays.pinB == old(relays.pinB) && relays.activeLow == old(relays.activeLow)
      ensures lastSendMs == old(lastSendMs) && takeOverStartMs == old(takeOverStartMs)
    {
      state := StandbyPassive;
      relays.SetOwner(NoOwner);
    }

    /**
     * `tick` with `now` the clock reading taken at its start, `input` the bytes waiting
     * on the heartbeat port, and `rxMs` the later `millis()` reading that `parseByte`
     * stamps accepted frames with: parse all bytes, send a heartbeat if the send period
     * has elapsed, then run the role switch on the liveness verdict computed after
     * parsing, measured from `now`.
     */
    method Tick(now: Millis, input: seq<bv8>, rxMs: Millis)
      requires Valid()
      modifies this, hb, hb.buf, relays`trace, relays`owner
      ensures Valid()
      ensures hb.Abs() == Feed(old(hb.Abs()), input, rxMs)
      ensures Elapsed(now, old(lastSendMs), sendMs) ==>
        lastSendMs == now && hb.sent == old(hb.sent) + Frame(myId, old(hb.counter)) && hb.counter == old(hb.counter) + 1
      ensures !Elapsed(now, old(lastSendMs), sendMs) ==>
        lastSendMs == old(lastSendMs) && hb.sent == old(hb.sent) && hb.counter == old(hb.counter)
      ensures var alive := PeerAlive(Feed(old(hb.Abs()), input, rxMs).lastRxMs, now, timeoutMs);
        && Ctl() == Decide(old(Ctl()), alive, now)
        && (Claims(old(Ctl()), alive) ==> relays.owner == OwnBus(myId) && HandedOver(old(relays.trace), relays.trace, old(relays.owner), OwnBus(myId),
                         relays.pinA, relays.pinB, relays.activeLow, relays.settleMs))
        && (!Claims(old(Ctl()), alive) ==> relays.owner == old(relays.owner) && relays.trace == old(relays.trace))
      ensures relays.pinA == old(relays.pinA) && relays.pinB == old(relays.pinB) && relays.activeLow == old(relays.activeLow)
    {
      ServiceLink(now, input, rxMs);
      var peerAlive := hb.Alive(now, timeoutMs);
      Advance(peerAlive, now);
    }

    /**
     * The first half of `tick`: drain the heartbeat port (accepted frames stamped
     * `rxMs`), then send when the send period has elapsed since `now`.
     */
    method ServiceLink(now: Millis, input: seq<bv8>, rxMs: Millis)
      requires Valid()
      modifies this`lastSendMs, hb, hb.buf
      ensures Valid()
      ensures hb.Abs() == Feed(old(hb.Abs()), input, rxMs)
      ensures Elapsed(now, old(lastSendMs), sendMs) ==>
        lastSendMs == now && hb.sent == old(hb.sent) + Frame(myId, old(hb.counter)) && hb.counter == old(hb.counter) + 1
      ensures !Elapsed(now, old(lastSendMs), sendMs) ==>
        lastSendMs == old(lastSendMs) && hb.sent == old(hb.sent) && hb.counter == old(hb.counter)
    {
      hb.Tick(input, rxMs);
      if Elapsed(now, lastSendMs, sendMs) {
        lastSendMs := now;
        hb.Send(myId);
      }
    }

    /** The second half of `tick`: the role switch on this tick's liveness verdict. */
    method Advance(peerAlive: bool, now: Millis)
      requires Valid()
      modifies this`state, this`takeOverStartMs, relays`trace, relays`owner
      ensures Valid()
      ensures Ctl() == Decide(old(Ctl()), peerAlive, now)
      ensures Claims(old(Ctl()), peerAlive) ==> relays.owner == OwnBus(myId) && HandedOver(old(relays.trace), relays.trace, old(relays.owner), OwnBus(myId),
                         relays.pinA, relays.pinB, relays.activeLow, relays.settleMs)
      ensures !Claims(old(Ctl()), peerAlive) ==> relays.owner == old(relays.owner) && relays.trace == old(relays.trace)
      ensures relays.pinA == old(relays.pinA) && relays.pinB == old(relays.pinB) && relays.activeLow == old(relays.activeLow)
    {
      match state {
        case PrimaryActive =>
        case StandbyPassive =>
          if !peerAlive {
            state := TakingOver;
            takeOverStartMs := now;
            relays.SetOwner(if myId == ID_A then A else B);
          }
        case TakingOver =>
          if Elapsed(now, takeOverStartMs, SETTLE_MS) {
            state := ActiveAfterTakeover;
            takeOverStartMs := now;
          }
        case ActiveAfterTakeover =>
          if Elapsed(now, takeOverStartMs, holdMs) {
            // The reintegration policy is left open here: nothing happens.
          }
      }
    }
  }
}
