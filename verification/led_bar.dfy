/**
 The `led_display` driver: six LEDs on fixed GPIO pins, `display(number)`
 lighting the first `number` of them, and the `interlude` busy animation.

 The driver is modelled over its pin list `lp`, as the class reads it through
 `self.lp`; `BAR` is the one instance both programs build.
 */
module LedBar {

  import opened Hardware

  /** LED pins in LED order: LED 1 is on pin 13, LED 6 on pin 21. */
  const LP: seq<int> := [13, 16, 19, 20, 26, 21]

  /** Pause after the initial clear of the interlude, in milliseconds (0.100 s). */
  const CLEAR_PAUSE_MS: nat := 100

  /** Pause after each LED step of the interlude, in milliseconds (0.020 s). */
  const STEP_PAUSE_MS: nat := 20

  /** What `display` returns to its caller: `False`, or Python's implicit `None`. */
  datatype Returned = ReturnedFalse | ReturnedNone

  /** An `led_display` object: the GPIO pin of each LED, in LED order. */
  datatype LedDisplay = LedDisplay(lp: seq<int>)
  {
    /** No pin serves two LEDs, so a write to one LED never changes another. */
    predicate Distinct()
    {
      forall i, j :: 0 <= i < j < |lp| ==> lp[i] != lp[j]
    }
  }

  /** The driver as both programs construct it. */
  const BAR: LedDisplay := LedDisplay(LP)

  /** The pin list has six distinct entries in LED order. */
  lemma BarWiring()
    ensures |BAR.lp| == 6
    ensures BAR.lp[0] == 13 && BAR.lp[5] == 21
    ensures BAR.Distinct()
  {
  }

  function Min(a: int, b: int): (m: int)
  {
    if a <= b then a else b
  }

  lemma MapsAgree(x: map<int, bool>, y: map<int, bool>)
    requires forall p :: p in x ==> p in y && x[p] == y[p]
    requires forall p :: p in y ==> p in x
    ensures x == y
  {
    assert forall p :: p in x.Keys <==> p in y.Keys;
    assert x.Keys == y.Keys;
    assert forall p :: p in x ==> x[p] == y[p];
  }

  /** Overriding with `a` and then with `b` over the same keys is overriding with `b` alone. */
  lemma OverrideSameKeys(m: map<int, bool>, a: map<int, bool>, b: map<int, bool>)
    requires a.Keys == b.Keys
    ensures (m + a) + b == m + b
  {
    MapsAgree((m + a) + b, m + b);
  }

  // ---------------------------------------------------------------------------
  // Reading the bar

  /** Every LED pin has been driven at least once. */
  predicate Driven(d: LedDisplay, pins: map<int, bool>)
  {
    forall k :: 0 <= k < |d.lp| ==> d.lp[k] in pins
  }

  /** The bar as its levels in LED order. */
  function Levels(d: LedDisplay, pins: map<int, bool>): (s: seq<bool>)
    requires Driven(d, pins)
    ensures |s| == |d.lp|
  {
    seq(|d.lp|, k requires 0 <= k < |d.lp| => pins[d.lp[k]])
  }

  /** Number of lit LEDs. */
  function CountLit(s: seq<bool>): (n: nat)
  {
    if |s| == 0 then 0 else (if s[0] then 1 else 0) + CountLit(s[1..])
  }

  /** The lit LEDs are a prefix of the bar: an LED is lit only if all before it are. */
  predicate IsPrefixLit(s: seq<bool>)
  {
    forall i, j :: 0 <= i < j < |s| && s[j] ==> s[i]
  }

  /** The first `n` of `len` LEDs lit, the rest dark (all dark when `n <= 0`). */
  function Threshold(n: int, len: nat): (s: seq<bool>)
    ensures |s| == len
  {
    seq(len, k => k < n)
  }

  lemma {:induction false} CountThreshold(n: int, len: nat)
    ensures CountLit(Threshold(n, len)) == if n <= 0 then 0 else Min(n, len)
    decreases len
  {
    if len > 0 {
      assert Threshold(n, len)[1..] == Threshold(n - 1, len - 1);
      CountThreshold(n - 1, len - 1);
    }
  }

  /** A prefix-lit bar is determined by how many LEDs are lit. */
  lemma {:induction false} PrefixDeterminedByCount(s: seq<bool>)
    requires IsPrefixLit(s)
    ensures s == Threshold(CountLit(s), |s|)
    decreases |s|
  {
    if |s| > 0 {
      var t := s[1..];
      assert IsPrefixLit(t) by {
        forall i, j | 0 <= i < j < |t| && t[j]
          ensures t[i]
        {
          assert s[j + 1];
        }
      }
      PrefixDeterminedByCount(t);
      if !s[0] {
        assert forall j :: 0 < j < |s| ==> !s[j];
        assert forall k :: 0 <= k < |t| ==> !t[k];
        assert CountLit(t) == 0 by {
          CountThreshold(0, |t|);
          assert t == Threshold(0, |t|);
        }
      }
    }
  }

  // ---------------------------------------------------------------------------
  // Painting: the pin levels a pass over the LEDs leaves behind

  /** The level a pass gives LED index `k`: lit up to `number` (display), or one level for all (interlude). */
  datatype Pattern = UpTo(number: int) | Uniform(level: bool)
  {
    predicate LevelAt(k: nat)
    {
      match this
      case UpTo(number) => k + 1 <= number
      case Uniform(level) => level
    }
  }

  /** The levels a pass from LED index `i` on leaves on the LED pins, keyed by pin. */
  function Painted(d: LedDisplay, i: nat, pat: Pattern): (m: map<int, bool>)
    requires d.Distinct() && i <= |d.lp|
    ensures forall k :: i <= k < |d.lp| ==> d.lp[k] in m && m[d.lp[k]] == pat.LevelAt(k)
    ensures forall p :: p in m ==> p in d.lp[i..]
  {
    map k | i <= k < |d.lp| :: d.lp[k] := pat.LevelAt(k)
  }

  lemma PaintStepAgrees(d: LedDisplay, m: map<int, bool>, i: nat, pat: Pattern, p: int)
    requires d.Distinct() && i < |d.lp|
    requires p in m[d.lp[i] := pat.LevelAt(i)] + Painted(d, i + 1, pat)
    ensures p in m + Painted(d, i, pat)
    ensures (m[d.lp[i] := pat.LevelAt(i)] + Painted(d, i + 1, pat))[p] == (m + Painted(d, i, pat))[p]
  {
    var later, here := Painted(d, i + 1, pat), Painted(d, i, pat);
    if p in later {
      var k :| i + 1 <= k < |d.lp| && d.lp[k] == p;
      assert here[d.lp[k]] == pat.LevelAt(k);
    } else if p == d.lp[i] {
      assert here[d.lp[i]] == pat.LevelAt(i);
    } else {
      assert p !in here;
    }
  }

  lemma PaintStepCovers(d: LedDisplay, m: map<int, bool>, i: nat, pat: Pattern, p: int)
    requires d.Distinct() && i < |d.lp|
    requires p in m + Painted(d, i, pat)
    ensures p in m[d.lp[i] := pat.LevelAt(i)] + Painted(d, i + 1, pat)
  {
    if p in Painted(d, i, pat) && p != d.lp[i] {
      var k :| i <= k < |d.lp| && d.lp[k] == p;
      assert p in Painted(d, i + 1, pat);
    }
  }

  /** Writing LED `i` and then painting from `i + 1` is painting from `i`. */
  lemma PaintStep(d: LedDisplay, m: map<int, bool>, i: nat, pat: Pattern)
    requires d.Distinct() && i < |d.lp|
    ensures m[d.lp[i] := pat.LevelAt(i)] + Painted(d, i + 1, pat) == m + Painted(d, i, pat)
  {
    var lhs, rhs := m[d.lp[i] := pat.LevelAt(i)] + Painted(d, i + 1, pat), m + Painted(d, i, pat);
    forall p | p in lhs
      ensures p in rhs && lhs[p] == rhs[p]
    {
      PaintStepAgrees(d, m, i, pat, p);
    }
    forall p | p in rhs
      ensures p in lhs
    {
      PaintStepCovers(d, m, i, pat, p);
    }
    MapsAgree(lhs, rhs);
  }

  // ---------------------------------------------------------------------------
  // display(number)

  /** The writes `display(number)` performs: each LED once, in LED order, high iff its 1-based index is at most `number`. */
  function DisplayWrites(d: LedDisplay, number: int): (w: seq<Event>)
    ensures |w| == |d.lp|
  {
    seq(|d.lp|, k requires 0 <= k < |d.lp| => Write(d.lp[k], k + 1 <= number))
  }

  /** The `for i in range(0, len(self.lp))` loop of `display`, from index `i` on. */
  function DisplayLoop(d: LedDisplay, h: Hw, number: int, i: nat): (h': Hw)
    requires i <= |d.lp|
    ensures h'.trace == h.trace + DisplayWrites(d, number)[i..]
    decreases |d.lp| - i
  {
    if i == |d.lp| then h
    else
      var n := i + 1;
      assert DisplayWrites(d, number)[i..] == [Write(d.lp[i], n <= number)] + DisplayWrites(d, number)[i + 1..];
      DisplayLoop(d, Output(h, d.lp[i], n <= number), number, i + 1)
  }

  lemma {:induction false} DisplayLoopPins(d: LedDisplay, h: Hw, number: int, i: nat)
    requires d.Distinct() && i <= |d.lp|
    ensures DisplayLoop(d, h, number, i).pins == h.pins + Painted(d, i, UpTo(number))
    decreases |d.lp| - i
  {
    if i == |d.lp| {
      assert Painted(d, i, UpTo(number)) == map[];
      assert h.pins + map[] == h.pins;
    } else {
      var h1 := Output(h, d.lp[i], i + 1 <= number);
      DisplayLoopPins(d, h1, number, i + 1);
      PaintStep(d, h.pins, i, UpTo(number));
    }
  }

  /**
   `display(number)`: a negative number is refused with `False` and nothing is
   written; otherwise each LED is written once, in LED order, and Python
   returns `None`.
   */
  function Display(d: LedDisplay, h: Hw, number: int): (r: (Returned, Hw))
    ensures number < 0 <==> r.0 == ReturnedFalse
    ensures number < 0 ==> r.1 == h
    ensures number >= 0 ==> r.1.trace == h.trace + DisplayWrites(d, number)
  {
    if number < 0 then
      (ReturnedFalse, h)
    else
      assert DisplayWrites(d, number)[0..] == DisplayWrites(d, number);
      (ReturnedNone, DisplayLoop(d, h, number, 0))
  }

  /** A non-negative `display(number)` drives exactly the LED pins, LED `k + 1` high iff `k + 1 <= number`; no other pin changes. */
  lemma DisplayPins(d: LedDisplay, h: Hw, number: int)
    requires d.Distinct() && number >= 0
    ensures Display(d, h, number).1.pins == h.pins + Painted(d, 0, UpTo(number))
    ensures Driven(d, Display(d, h, number).1.pins)
    ensures forall k :: 0 <= k < |d.lp| ==> (Display(d, h, number).1.pins[d.lp[k]] <==> k + 1 <= number)
    ensures forall p :: p !in d.lp ==> (p in h.pins <==> p in Display(d, h, number).1.pins)
    ensures forall p :: p in h.pins && p !in d.lp ==> Display(d, h, number).1.pins[p] == h.pins[p]
  {
    DisplayLoopPins(d, h, number, 0);
    assert d.lp[0..] == d.lp;
  }

  /** A threshold bar is prefix-lit and lights `min(n, len)` LEDs. */
  lemma ThresholdShape(n: int, len: nat)
    requires n >= 0
    ensures IsPrefixLit(Threshold(n, len))
    ensures CountLit(Threshold(n, len)) == Min(n, len)
  {
    CountThreshold(n, len);
  }

  /** A non-negative `display(number)` leaves the first `min(number, 6)` LEDs lit, as a prefix. */
  lemma DisplayLightsPrefix(d: LedDisplay, h: Hw, number: int)
    requires d.Distinct() && number >= 0
    ensures Driven(d, Display(d, h, number).1.pins)
    ensures Levels(d, Display(d, h, number).1.pins) == Threshold(number, |d.lp|)
    ensures IsPrefixLit(Levels(d, Display(d, h, number).1.pins))
    ensures CountLit(Levels(d, Display(d, h, number).1.pins)) == Min(number, |d.lp|)
  {
    var pins := Display(d, h, number).1.pins;
    DisplayPins(d, h, number);
    var levels := Levels(d, pins);
    assert levels == Threshold(number, |d.lp|);
    ThresholdShape(number, |d.lp|);
  }

  /** Two patterns that agree on every LED from `i` on paint the same levels. */
  lemma PatternsAgree(d: LedDisplay, i: nat, a: Pattern, b: Pattern)
    requires d.Distinct() && i <= |d.lp|
    requires forall k :: i <= k < |d.lp| ==> a.LevelAt(k) == b.LevelAt(k)
    ensures Painted(d, i, a) == Painted(d, i, b)
  {
    var x, y := Painted(d, i, a), Painted(d, i, b);
    forall p | p in x
      ensures p in y && x[p] == y[p]
    {
      var k :| i <= k < |d.lp| && d.lp[k] == p;
    }
    forall p | p in y
      ensures p in x
    {
      var k :| i <= k < |d.lp| && d.lp[k] == p;
    }
    MapsAgree(x, y);
  }

  /** There is no upper bound: every number from 6 up lights all six, and 0 lights none. */
  lemma DisplayExtremes(d: LedDisplay, h: Hw, number: int)
    requires d.Distinct() && (number == 0 || number >= |d.lp|)
    ensures number == 0 ==> Display(d, h, number).1.pins == h.pins + Painted(d, 0, Uniform(false))
    ensures number >= |d.lp| ==> Display(d, h, number).1.pins == h.pins + Painted(d, 0, Uniform(true))
    ensures number >= |d.lp| ==> Display(d, h, number).1 == Display(d, h, |d.lp|).1
  {
    DisplayPins(d, h, number);
    if number == 0 {
      PatternsAgree(d, 0, UpTo(number), Uniform(false));
    } else {
      PatternsAgree(d, 0, UpTo(number), Uniform(true));
      PatternsAgree(d, 0, UpTo(|d.lp|), Uniform(true));
      DisplayPins(d, h, |d.lp|);
      assert DisplayWrites(d, number) == DisplayWrites(d, |d.lp|);
    }
  }

  /** The bar after `display(number)` depends on `number` only, and so do the writes. */
  lemma DisplayIgnoresPriorState(d: LedDisplay, h1: Hw, h2: Hw, number: int)
    requires d.Distinct() && number >= 0
    ensures Driven(d, Display(d, h1, number).1.pins) && Driven(d, Display(d, h2, number).1.pins)
    ensures Levels(d, Display(d, h1, number).1.pins) == Levels(d, Display(d, h2, number).1.pins)
    ensures Display(d, h1, number).1.trace[|h1.trace|..] == Display(d, h2, number).1.trace[|h2.trace|..]
  {
    var a, b := Display(d, h1, number).1, Display(d, h2, number).1;
    assert a.trace[|h1.trace|..] == DisplayWrites(d, number);
    assert b.trace[|h2.trace|..] == DisplayWrites(d, number);
    DisplayLightsPrefix(d, h1, number);
    DisplayLightsPrefix(d, h2, number);
  }

  /** Displaying the same number twice leaves the pins as the first call left them. */
  lemma DisplayIdempotent(d: LedDisplay, h: Hw, number: int)
    requires d.Distinct()
    ensures Display(d, Display(d, h, number).1, number).1.pins == Display(d, h, number).1.pins
  {
    if number >= 0 {
      var a := Display(d, h, number).1;
      DisplayPins(d, h, number);
      DisplayPins(d, a, number);
      OverrideSameKeys(h.pins, Painted(d, 0, UpTo(number)), Painted(d, 0, UpTo(number)));
    }
  }

  /** Conversely, every prefix-lit bar is what `display` shows for its count of lit LEDs. */
  lemma PrefixBarsAreDisplayable(d: LedDisplay, h: Hw, s: seq<bool>)
    requires d.Distinct() && |s| == |d.lp| && IsPrefixLit(s)
    ensures Driven(d, Display(d, h, CountLit(s)).1.pins)
    ensures Levels(d, Display(d, h, CountLit(s)).1.pins) == s
  {
    PrefixDeterminedByCount(s);
    DisplayLightsPrefix(d, h, CountLit(s));
  }

  // ---------------------------------------------------------------------------
  // interlude()

  /**
   The events of one pass over the LEDs in LED order writing `level`: bare
   writes, or (`paced`) each write followed by a step pause.
   */
  function SweepEvents(d: LedDisplay, level: bool, paced: bool): (e: seq<Event>)
    ensures |e| == if paced then 2 * |d.lp| else |d.lp|
  {
    if paced then
      seq(2 * |d.lp|, j requires 0 <= j < 2 * |d.lp| =>
        if j % 2 == 0 then Write(d.lp[j / 2], level) else Pause(STEP_PAUSE_MS))
    else
      seq(|d.lp|, j requires 0 <= j < |d.lp| => Write(d.lp[j], level))
  }

  /** Position in `SweepEvents(d, _, paced)` at which the step for LED index `i` starts. */
  function StepStart(paced: bool, i: nat): (j: nat)
  {
    if paced then 2 * i else i
  }

  /** The events of the step for LED index `i`: its write, then the step pause when `paced`. */
  function StepEvents(d: LedDisplay, level: bool, paced: bool, i: nat): (e: seq<Event>)
    requires i < |d.lp|
  {
    [Write(d.lp[i], level)] + if paced then [Pause(STEP_PAUSE_MS)] else []
  }

  lemma SweepStep(d: LedDisplay, level: bool, paced: bool, i: nat)
    requires i < |d.lp|
    ensures SweepEvents(d, level, paced)[StepStart(paced, i)..]
         == StepEvents(d, level, paced, i) + SweepEvents(d, level, paced)[StepStart(paced, i + 1)..]
  {
    var e := SweepEvents(d, level, paced);
    var a := e[StepStart(paced, i)..];
    var b := StepEvents(d, level, paced, i) + e[StepStart(paced, i + 1)..];
    assert |a| == |b|;
    forall j | 0 <= j < |a|
      ensures a[j] == b[j]
    {
      if paced && j == 0 {
        assert (2 * i) / 2 == i;
      }
    }
  }

  /** One iteration of an interlude loop: write LED `i`, then sleep one step when `paced`. */
  function Step(d: LedDisplay, h: Hw, level: bool, paced: bool, i: nat): (h': Hw)
    requires i < |d.lp|
    ensures h'.trace == h.trace + StepEvents(d, level, paced, i)
    ensures h'.pins == h.pins[d.lp[i] := level]
  {
    var written := Output(h, d.lp[i], level);
    if paced then Sleep(written, STEP_PAUSE_MS) else written
  }

  /** One `for l in self.lp` loop of `interlude`, from LED index `i` on. */
  function Sweep(d: LedDisplay, h: Hw, level: bool, paced: bool, i: nat): (h': Hw)
    requires i <= |d.lp|
    ensures h'.trace == h.trace + SweepEvents(d, level, paced)[StepStart(paced, i)..]
    decreases |d.lp| - i
  {
    if i == |d.lp| then h
    else
      SweepStep(d, level, paced, i);
      Sweep(d, Step(d, h, level, paced, i), level, paced, i + 1)
  }

  lemma {:induction false} SweepPins(d: LedDisplay, h: Hw, level: bool, paced: bool, i: nat)
    requires d.Distinct() && i <= |d.lp|
    ensures Sweep(d, h, level, paced, i).pins == h.pins + Painted(d, i, Uniform(level))
    decreases |d.lp| - i
  {
    if i == |d.lp| {
      assert Painted(d, i, Uniform(level)) == map[];
      assert h.pins + map[] == h.pins;
    } else {
      SweepPins(d, Step(d, h, level, paced, i), level, paced, i + 1);
      PaintStep(d, h.pins, i, Uniform(level));
    }
  }

  /** The whole trace of `interlude`: clear, long pause, paced light-up, paced switch-off. */
  function InterludeEvents(d: LedDisplay): (e: seq<Event>)
  {
    SweepEvents(d, false, false) + [Pause(CLEAR_PAUSE_MS)] + SweepEvents(d, true, true) + SweepEvents(d, false, true)
  }

  /** `interlude()`: whatever the bar showed before, it performs exactly the interlude trace. */
  function Interlude(d: LedDisplay, h: Hw): (h': Hw)
    ensures h'.trace == h.trace + InterludeEvents(d)
  {
    var clear, on, off := SweepEvents(d, false, false), SweepEvents(d, true, true), SweepEvents(d, false, true);
    assert clear[StepStart(false, 0)..] == clear;
    assert on[StepStart(true, 0)..] == on;
    assert off[StepStart(true, 0)..] == off;
    var cleared := Sweep(d, h, false, false, 0);
    var paused := Sleep(cleared, CLEAR_PAUSE_MS);
    var lit := Sweep(d, paused, true, true, 0);
    var h' := Sweep(d, lit, false, true, 0);
    assert h'.trace == h.trace + clear + [Pause(CLEAR_PAUSE_MS)] + on + off;
    h'
  }

  /** `interlude` leaves every LED off, from any prior state, and no other pin changes. */
  lemma InterludeEndsDark(d: LedDisplay, h: Hw)
    requires d.Distinct()
    ensures Interlude(d, h).pins == h.pins + Painted(d, 0, Uniform(false))
    ensures Driven(d, Interlude(d, h).pins)
    ensures Levels(d, Interlude(d, h).pins) == Threshold(0, |d.lp|)
    ensures forall p :: p !in d.lp ==> (p in h.pins <==> p in Interlude(d, h).pins)
    ensures forall p :: p in h.pins && p !in d.lp ==> Interlude(d, h).pins[p] == h.pins[p]
  {
    var cleared := Sweep(d, h, false, false, 0);
    var paused := Sleep(cleared, CLEAR_PAUSE_MS);
    var lit := Sweep(d, paused, true, true, 0);
    var off, on := Painted(d, 0, Uniform(false)), Painted(d, 0, Uniform(true));
    SweepPins(d, h, false, false, 0);
    SweepPins(d, paused, true, true, 0);
    SweepPins(d, lit, false, true, 0);
    assert d.lp[0..] == d.lp;
    OverrideSameKeys(h.pins + off, on, off);
    OverrideSameKeys(h.pins, off, off);
  }

  /** The step of LED index `i` opens the rest of a paced pass with its write and its pause. */
  lemma PacedStepShape(d: LedDisplay, level: bool, i: nat)
    requires i < |d.lp|
    ensures SweepEvents(d, level, true)[2 * i..][0] == Write(d.lp[i], level)
    ensures SweepEvents(d, level, true)[2 * i..][1..][0] == Pause(STEP_PAUSE_MS)
    ensures SweepEvents(d, level, true)[2 * i..][1..][1..] == SweepEvents(d, level, true)[2 * (i + 1)..]
  {
    SweepStep(d, level, true, i);
  }

  lemma {:induction false} PacedSweepWrites(d: LedDisplay, level: bool, i: nat)
    requires i <= |d.lp|
    ensures Writes(SweepEvents(d, level, true)[2 * i..]) == SweepEvents(d, level, false)[i..]
    decreases |d.lp| - i
  {
    var paced, bare := SweepEvents(d, level, true), SweepEvents(d, level, false);
    if i < |d.lp| {
      PacedStepShape(d, level, i);
      assert bare[i..] == [Write(d.lp[i], level)] + bare[i + 1..];
      PacedSweepWrites(d, level, i + 1);
    } else {
      assert paced[2 * i..] == [];
    }
  }

  lemma {:induction false} PacedSweepSleeps(d: LedDisplay, level: bool, i: nat)
    requires i <= |d.lp|
    ensures SleptMs(SweepEvents(d, level, true)[2 * i..]) == STEP_PAUSE_MS * (|d.lp| - i)
    decreases |d.lp| - i
  {
    var paced := SweepEvents(d, level, true);
    if i < |d.lp| {
      PacedStepShape(d, level, i);
      PacedSweepSleeps(d, level, i + 1);
    } else {
      assert paced[2 * i..] == [];
    }
  }

  /** The writes of `interlude`: a clearing pass, a lighting pass and a switch-off pass. */
  lemma InterludeWritePasses(d: LedDisplay)
    ensures Writes(InterludeEvents(d))
         == SweepEvents(d, false, false) + SweepEvents(d, true, false) + SweepEvents(d, false, false)
  {
    var clear, on, off := SweepEvents(d, false, false), SweepEvents(d, true, true), SweepEvents(d, false, true);
    WritesAppend(clear + [Pause(CLEAR_PAUSE_MS)] + on, off);
    WritesAppend(clear + [Pause(CLEAR_PAUSE_MS)], on);
    WritesAppend(clear, [Pause(CLEAR_PAUSE_MS)]);
    OnlyWrites(clear);
    PacedSweepWrites(d, true, 0);
    PacedSweepWrites(d, false, 0);
    assert on[2 * 0..] == on && off[2 * 0..] == off;
    assert Writes([Pause(CLEAR_PAUSE_MS)]) == [];
  }

  /** `interlude` writes each LED three times: off, then on, then off, each pass in LED order. */
  lemma InterludeWrites(d: LedDisplay)
    ensures |Writes(InterludeEvents(d))| == 3 * |d.lp|
    ensures forall k :: 0 <= k < |d.lp| ==>
      && Writes(InterludeEvents(d))[k] == Write(d.lp[k], false)
      && Writes(InterludeEvents(d))[|d.lp| + k] == Write(d.lp[k], true)
      && Writes(InterludeEvents(d))[2 * |d.lp| + k] == Write(d.lp[k], false)
  {
    InterludeWritePasses(d);
  }

  /** `interlude` sleeps 100 ms after the clear and one step pause after each of the twelve later writes. */
  lemma InterludeSleeps(d: LedDisplay)
    ensures SleptMs(InterludeEvents(d)) == CLEAR_PAUSE_MS + 2 * |d.lp| * STEP_PAUSE_MS
  {
    var clear, on, off := SweepEvents(d, false, false), SweepEvents(d, true, true), SweepEvents(d, false, true);
    SleptAppend(clear + [Pause(CLEAR_PAUSE_MS)] + on, off);
    SleptAppend(clear + [Pause(CLEAR_PAUSE_MS)], on);
    SleptAppend(clear, [Pause(CLEAR_PAUSE_MS)]);
    OnlyWrites(clear);
    PacedSweepSleeps(d, true, 0);
    PacedSweepSleeps(d, false, 0);
    assert on[2 * 0..] == on && off[2 * 0..] == off;
  }

  /** For the six-LED bar of both programs: 18 writes and 340 ms of sleeping per interlude. */
  lemma BarInterludeTotals()
    ensures |Writes(InterludeEvents(BAR))| == 18
    ensures SleptMs(InterludeEvents(BAR)) == 340
  {
    InterludeWrites(BAR);
    InterludeSleeps(BAR);
  }
}
