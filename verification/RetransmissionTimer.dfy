/** The retransmission timer (section 5 of RFC 6298). */
module RetransmissionTimers {
  import opened Types

  datatype Timer = Timer(running: bool, initial: nat, elapsed: nat, rto: nat, consecutive: nat) {
    function Start(): Timer { Timer(true, initial, 0, initial, 0) }

    function Close(): Timer { this.(running := false, consecutive := 0) }

    predicate Expires(ms: nat) { elapsed + ms >= rto }

    /** The back-off is a 32-bit left shift; a closed peer window suspends it. */
    function Reset(window: nat): Timer {
      if !running then this
      else this.(elapsed := 0, consecutive := consecutive + 1,
                 rto := if window > 0 then rto * 2 % TWO32 else rto)
    }
  }

  function NewTimer(initial: nat): Timer {
    Timer(false, initial, 0, initial, 0)
  }

  class RetransmissionTimer {
    var running: bool
    const initRto: nat
    var msSinceRunning: nat
    var rto: nat
    var consecutiveRetransmissions: nat

    constructor (retxTimeout: nat)
      ensures Model() == NewTimer(retxTimeout)
    {
      running, initRto, msSinceRunning := false, retxTimeout, 0;
      rto, consecutiveRetransmissions := retxTimeout, 0;
    }

    ghost function Model(): Timer
      reads this
    {
      Timer(running, initRto, msSinceRunning, rto, consecutiveRetransmissions)
    }

    method Timeout(ms: nat) returns (expired: bool)
      modifies this
      ensures expired <==> old(msSinceRunning) + ms >= old(rto)
      ensures expired <==> old(Model()).Expires(ms)
      ensures Model() == if expired then old(Model()) else old(Model().(elapsed := Model().elapsed + ms))
    {
      if msSinceRunning + ms >= rto {
        return true;
      }
      msSinceRunning := msSinceRunning + ms;
      return false;
    }

    method ResetTimer(windowSize: nat)
      modifies this
      ensures Model() == old(Model()).Reset(windowSize)
    {
      if !running {
        return;
      }
      msSinceRunning := 0;
      consecutiveRetransmissions := consecutiveRetransmissions + 1;
      if windowSize > 0 {
        rto := rto * 2 % TWO32;
      }
    }

    method Start()
      modifies this
      ensures Model() == old(Model()).Start()
    {
      running := true;
      msSinceRunning := 0;
      rto := initRto;
      consecutiveRetransmissions := 0;
    }

    method Close()
      modifies this
      ensures Model() == old(Model()).Close()
    {
      running := false;
      consecutiveRetransmissions := 0;
    }
  }

  /** What can happen to a timer, with the peer window seen at an expiry. */
  datatype TimerEvent = Started | Closed | Elapsed(ms: nat) | Expired(window: nat)

  function After(t: Timer, e: TimerEvent): Timer {
    match e
    case Started => t.Start()
    case Closed => t.Close()
    case Elapsed(ms) => if t.running && !t.Expires(ms) then t.(elapsed := t.elapsed + ms) else t
    case Expired(window) => t.Reset(window)
  }

  function AfterAll(t: Timer, events: seq<TimerEvent>): Timer {
    if events == [] then t
    else After(AfterAll(t, events[..|events| - 1]), events[|events| - 1])
  }

  lemma {:induction false} AfterAllAppend(t: Timer, a: seq<TimerEvent>, b: seq<TimerEvent>)
    ensures AfterAll(t, a + b) == AfterAll(AfterAll(t, a), b)
    decreases |b|
  {
    if b == [] {
      assert a + b == a;
    } else {
      assert (a + b)[..|a + b| - 1] == a + b[..|b| - 1];
      AfterAllAppend(t, a, b[..|b| - 1]);
    }
  }

  lemma {:induction false} AfterOne(t: Timer, e: TimerEvent)
    ensures AfterAll(t, [e]) == After(t, e)
  {
    assert [e][..0] == [];
  }

  /** Expiries since the timer was last started or closed, and those of them that
      found the peer's window open. */
  function Expiries(events: seq<TimerEvent>, openOnly: bool): nat {
    if events == [] then 0
    else
      var before, last := events[..|events| - 1], events[|events| - 1];
      match last
      case Started => 0
      case Closed => 0
      case Elapsed(_) => Expiries(before, openOnly)
      case Expired(window) => Expiries(before, openOnly) + if window > 0 || !openOnly then 1 else 0
  }

  /** `initial` times 2^k in 32 bits. */
  function BackedOff(initial: nat, k: nat): nat {
    initial * Pow2(k) % TWO32
  }

  lemma {:induction false} DoubleModulo(x: nat)
    ensures x % TWO32 * 2 % TWO32 == 2 * x % TWO32
  {
    var q := x / TWO32;
    assert 2 * x == x % TWO32 * 2 + 2 * q * TWO32;
  }

  lemma {:induction false} MoveFactor(x: nat, y: nat)
    ensures x * (2 * y) == 2 * (x * y)
  {
  }

  lemma {:induction false} BackedOffTwice(initial: nat, k: nat)
    ensures BackedOff(initial, k) * 2 % TWO32 == BackedOff(initial, k + 1)
  {
    MoveFactor(initial, Pow2(k));
    DoubleModulo(initial * Pow2(k));
  }

  /** Over any history of a timer that is now running, the timeout is the initial one
      doubled once per expiry with an open window since the last start, in 32 bits,
      and every expiry since then is counted. */
  lemma {:induction false} BackoffOverHistory(initial: nat, events: seq<TimerEvent>)
    requires initial < TWO32
    ensures AfterAll(NewTimer(initial), events).initial == initial
    ensures AfterAll(NewTimer(initial), events).running ==>
      && AfterAll(NewTimer(initial), events).rto == BackedOff(initial, Expiries(events, true))
      && AfterAll(NewTimer(initial), events).consecutive == Expiries(events, false)
    ensures !AfterAll(NewTimer(initial), events).running ==> AfterAll(NewTimer(initial), events).consecutive == 0
    ensures Expiries(events, true) <= Expiries(events, false)
  {
    assert BackedOff(initial, 0) == initial;
    if events != [] {
      var before := events[..|events| - 1];
      BackoffOverHistory(initial, before);
      BackedOffTwice(initial, Expiries(before, true));
    }
  }

  lemma {:induction false} Pow2Grows(j: nat, k: nat)
    requires j <= k
    ensures Pow2(j) <= Pow2(k)
  {
    if j < k {
      Pow2Grows(j, k - 1);
    }
  }

  /** Up to nine expiries of a 16-bit timeout do not overflow. */
  lemma {:induction false} NoOverflow(initial: nat, k: nat)
    requires initial < TWO16 && k <= 9
    ensures initial * Pow2(k) < TWO32
  {
    assert Pow2(k) <= 512 by {
      Pow2Grows(k, 9);
      assert Pow2(9) == 512 by { assert Pow2(5) == 32; }
    }
    assert initial * Pow2(k) <= initial * 512;
  }
}
