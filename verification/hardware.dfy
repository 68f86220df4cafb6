/**
 Output pins as the LED driver sees them: the level last written to each pin,
 and the ordered trace of everything the appliance does to the outside world.
 Sleeping is not timed; it is an event carrying its duration in milliseconds.
 */
module Hardware {

  /** One observable step: a pin write, a pause, a text sent to the panel, a console line. */
  datatype Event =
    | Write(pin: int, level: bool)
    | Pause(ms: nat)
    | ShowText(text: string)
    | Console(line: string)

  /** Pin levels (absent = never written) together with the trace so far. */
  datatype Hw = Hw(pins: map<int, bool>, trace: seq<Event>)

  /** Drive `pin` to `level` (high = true): the GPIO output call. */
  function Output(h: Hw, pin: int, level: bool): (h': Hw)
  {
    Hw(h.pins[pin := level], h.trace + [Write(pin, level)])
  }

  /** Block for `ms` milliseconds; pin levels do not change. */
  function Sleep(h: Hw, ms: nat): (h': Hw)
  {
    Hw(h.pins, h.trace + [Pause(ms)])
  }

  /** Record an event that does not touch any pin. */
  function Emit(h: Hw, e: Event): (h': Hw)
    requires !e.Write?
  {
    Hw(h.pins, h.trace + [e])
  }

  /** The pin writes of a trace, in order. */
  function Writes(t: seq<Event>): (w: seq<Event>)
    ensures |w| <= |t|
    ensures forall k :: 0 <= k < |w| ==> w[k].Write?
  {
    if |t| == 0 then []
    else (if t[0].Write? then [t[0]] else []) + Writes(t[1..])
  }

  /** Total time a trace spends sleeping, in milliseconds. */
  function SleptMs(t: seq<Event>): (ms: nat)
  {
    if |t| == 0 then 0
    else (if t[0].Pause? then t[0].ms else 0) + SleptMs(t[1..])
  }

  lemma {:induction false} WritesAppend(a: seq<Event>, b: seq<Event>)
    ensures Writes(a + b) == Writes(a) + Writes(b)
    decreases |a|
  {
    if |a| == 0 {
      assert a + b == b;
    } else {
      assert (a + b)[1..] == a[1..] + b;
      WritesAppend(a[1..], b);
    }
  }

  lemma {:induction false} SleptAppend(a: seq<Event>, b: seq<Event>)
    ensures SleptMs(a + b) == SleptMs(a) + SleptMs(b)
    decreases |a|
  {
    if |a| == 0 {
      assert a + b == b;
    } else {
      assert (a + b)[1..] == a[1..] + b;
      SleptAppend(a[1..], b);
    }
  }

  /** A trace of writes only keeps all of its events as writes and never sleeps. */
  lemma {:induction false} OnlyWrites(t: seq<Event>)
    requires forall k :: 0 <= k < |t| ==> t[k].Write?
    ensures Writes(t) == t
    ensures SleptMs(t) == 0
    decreases |t|
  {
    if |t| > 0 {
      OnlyWrites(t[1..]);
    }
  }
}
