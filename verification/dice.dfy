/**
 `roll_dice`, the button callback of the program with both displays: play
 the interlude, draw a roll, send "Rolled a N." to the text panel, show the
 roll on the LED bar and log it on the console. The draw of
 `random.randint(1, 6)` is the parameter `roll`.
 */
module Dice {

  import opened Hardware
  import opened LedBar
  import opened Wrappers
  import Decimal

  /** Bounds of `random.randint(1, 6)`, both inclusive. */
  const ROLL_LOW: int := 1
  const ROLL_HIGH: int := 6

  const MESSAGE_PREFIX: string := "Rolled a "
  const CONSOLE_PREFIX: string := "New roll of: "

  /** A `"<prefix>{}."` template filled with `n`. */
  function Fill(prefix: string, n: nat): (m: string)
  {
    prefix + Decimal.FromNat(n) + "."
  }

  /** Reads the number back out of a filled `"<prefix>{}."` template. */
  function Unfill(prefix: string, m: string): (r: Option<nat>)
    ensures r.Some? ==> |m| >= |prefix| + 2 && m[..|prefix|] == prefix && m[|m| - 1] == '.'
  {
    if |m| >= |prefix| + 1 && m[..|prefix|] == prefix && m[|m| - 1] == '.' then
      Decimal.Parse(m[|prefix|..|m| - 1])
    else
      None
  }

  /** The text sent to the panel, `"Rolled a {}.".format(roll)`. */
  function RollMessage(roll: nat): (m: string)
  {
    Fill(MESSAGE_PREFIX, roll)
  }

  /** The console line, `"New roll of: {}.".format(roll)`. */
  function ConsoleLine(roll: nat): (line: string)
  {
    Fill(CONSOLE_PREFIX, roll)
  }

  /** Filling a template and reading it back gives the number. */
  lemma UnfillFill(prefix: string, n: nat)
    ensures Unfill(prefix, Fill(prefix, n)) == Some(n)
  {
    var m := Fill(prefix, n);
    var digits := Decimal.FromNat(n);
    assert m[..|prefix|] == prefix;
    assert m[|prefix|..|m| - 1] == digits;
    Decimal.ParseFromNat(n);
  }

  /** A text that reads back as `n` is exactly the filled template: no other text reads as `n`. */
  lemma FillUnfill(prefix: string, m: string, n: nat)
    requires Unfill(prefix, m) == Some(n)
    ensures Fill(prefix, n) == m
  {
    var digits := m[|prefix|..|m| - 1];
    Decimal.FromNatParse(digits);
    assert m == m[..|prefix|] + digits + [m[|m| - 1]];
  }

  /** Every event `roll_dice` performs, in order. */
  function RollEvents(roll: nat): (e: seq<Event>)
  {
    InterludeEvents(BAR) + [ShowText(RollMessage(roll))] + DisplayWrites(BAR, roll) + [Console(ConsoleLine(roll))]
  }

  /**
   `roll_dice(channel)` with the draw `roll`: the interlude runs to the end
   before the panel or the bar shows anything.
   */
  function RollDice(h: Hw, roll: int): (h': Hw)
    requires ROLL_LOW <= roll <= ROLL_HIGH
    ensures h'.trace == h.trace + RollEvents(roll)
  {
    var animated := Interlude(BAR, h);
    var text := RollMessage(roll);
    var shown := Emit(animated, ShowText(text));
    var displayed := Display(BAR, shown, roll).1;
    assert displayed.trace == h.trace + InterludeEvents(BAR) + [ShowText(text)] + DisplayWrites(BAR, roll);
    Emit(displayed, Console(ConsoleLine(roll)))
  }

  /** After a roll the bar shows exactly `roll` lit LEDs, as a prefix; no pin off the bar changes. */
  lemma RollDiceShowsRoll(h: Hw, roll: int)
    requires ROLL_LOW <= roll <= ROLL_HIGH
    ensures Driven(BAR, RollDice(h, roll).pins)
    ensures Levels(BAR, RollDice(h, roll).pins) == Threshold(roll, |BAR.lp|)
    ensures IsPrefixLit(Levels(BAR, RollDice(h, roll).pins))
    ensures CountLit(Levels(BAR, RollDice(h, roll).pins)) == roll
    ensures forall p :: p !in LP ==> (p in h.pins <==> p in RollDice(h, roll).pins)
    ensures forall p :: p in h.pins && p !in LP ==> RollDice(h, roll).pins[p] == h.pins[p]
  {
    BarWiring();
    var animated := Interlude(BAR, h);
    var shown := Emit(animated, ShowText(RollMessage(roll)));
    InterludeEndsDark(BAR, h);
    DisplayLightsPrefix(BAR, shown, roll);
    DisplayPins(BAR, shown, roll);
  }

  /** Text and console events between and after runs of writes add no write and no sleep. */
  lemma WritesAroundText(anim: seq<Event>, text: string, disp: seq<Event>, line: string)
    requires forall k :: 0 <= k < |disp| ==> disp[k].Write?
    ensures Writes(anim + [ShowText(text)] + disp + [Console(line)]) == Writes(anim) + disp
    ensures SleptMs(anim + [ShowText(text)] + disp + [Console(line)]) == SleptMs(anim)
  {
    var shown, logged := [ShowText(text)], [Console(line)];
    var a1 := anim + shown;
    var a2 := a1 + disp;
    var a3 := a2 + logged;
    assert Writes(shown) == [] && Writes(logged) == [];
    assert SleptMs(shown) == 0 && SleptMs(logged) == 0;
    OnlyWrites(disp);
    WritesAppend(anim, shown);
    assert Writes(a1) == Writes(anim);
    WritesAppend(a1, disp);
    assert Writes(a2) == Writes(anim) + disp;
    WritesAppend(a2, logged);
    assert Writes(a3) == Writes(a2);
    SleptAppend(anim, shown);
    SleptAppend(a1, disp);
    SleptAppend(a2, logged);
  }

  /** The writes of a roll: the 18 interlude writes, then the six writes of `display(roll)`; 340 ms of sleeping in all. */
  lemma RollDiceWrites(h: Hw, roll: int)
    requires ROLL_LOW <= roll <= ROLL_HIGH
    ensures Writes(RollDice(h, roll).trace[|h.trace|..]) == Writes(InterludeEvents(BAR)) + DisplayWrites(BAR, roll)
    ensures |Writes(RollDice(h, roll).trace[|h.trace|..])| == 18 + 6
    ensures SleptMs(RollDice(h, roll).trace[|h.trace|..]) == 340
  {
    assert RollDice(h, roll).trace[|h.trace|..] == RollEvents(roll);
    var disp := DisplayWrites(BAR, roll);
    assert forall k :: 0 <= k < |disp| ==> disp[k].Write?;
    WritesAroundText(InterludeEvents(BAR), RollMessage(roll), disp, ConsoleLine(roll));
    BarInterludeTotals();
  }

  /** The panel text reads back as the roll, and only that text does. */
  lemma RollMessageNamesRoll(roll: int, m: string)
    requires ROLL_LOW <= roll <= ROLL_HIGH
    ensures Unfill(MESSAGE_PREFIX, RollMessage(roll)) == Some(roll)
    ensures Unfill(MESSAGE_PREFIX, m) == Some(roll) <==> m == RollMessage(roll)
  {
    UnfillFill(MESSAGE_PREFIX, roll);
    if Unfill(MESSAGE_PREFIX, m) == Some(roll) {
      FillUnfill(MESSAGE_PREFIX, m, roll);
    }
  }

  /** A draw of 4 is announced as "Rolled a 4.". */
  lemma MessageOfFour()
    ensures RollMessage(4) == "Rolled a 4."
  {
    assert Decimal.FromNat(4) == "4";
  }

  /** A draw of 4 lights LEDs 1 to 4 and leaves LEDs 5 and 6 dark. */
  lemma RollOfFour(h: Hw)
    ensures Driven(BAR, RollDice(h, 4).pins)
    ensures Levels(BAR, RollDice(h, 4).pins) == [true, true, true, true, false, false]
  {
    RollDiceShowsRoll(h, 4);
    BarWiring();
    var t := Threshold(4, |BAR.lp|);
    assert |t| == 6 && t[0] && t[1] && t[2] && t[3] && !t[4] && !t[5];
    assert t == [true, true, true, true, false, false];
  }

  /** What a roll does depends on the draw only, not on what the bar showed before. */
  lemma RollDiceIgnoresPriorState(h1: Hw, h2: Hw, roll: int)
    requires ROLL_LOW <= roll <= ROLL_HIGH
    ensures Driven(BAR, RollDice(h1, roll).pins) && Driven(BAR, RollDice(h2, roll).pins)
    ensures Levels(BAR, RollDice(h1, roll).pins) == Levels(BAR, RollDice(h2, roll).pins)
    ensures RollDice(h1, roll).trace[|h1.trace|..] == RollDice(h2, roll).trace[|h2.trace|..]
  {
    RollDiceShowsRoll(h1, roll);
    RollDiceShowsRoll(h2, roll);
  }
}
