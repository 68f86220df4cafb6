# Electronic dice: LED-bar driver model

A Dafny model of the `led_display` class of the electronic-dice exercise and
of the `roll_dice` button callback that drives it. The class appears twice,
in `interfacing_basics/dice.py` and `interfacing_bus_protocols/dice.py`, with
the same code (only the indentation and the destructor's extra `sleep(2)`
differ). One model, `LedBar`, serves both. Class body lines correspond
one-to-one: the pin list is basics 10-16 = bus 14-20, `display` is basics
33-42 = bus 36-45, and `interlude` is basics 45-57 = bus 48-60.

The state is `Hardware.Hw`: a map from GPIO pin number to its last written
level (`true` = 1 = high), plus the ordered trace of everything the program
does to the outside world. Four kinds of event are recorded: pin writes,
sleeps in whole milliseconds, the text given to the OLED panel, and console
lines. Every operation is a pure function from one `Hw` to the next.

- `LedBar`: the pin list `LP` = 13, 16, 19, 20, 26, 21 and the driver
  `LedDisplay(lp)`. `Display` models `display(number)` and its
  `for i in range(...)` loop (`DisplayLoop`). `Interlude` models `interlude()`
  and its three `for l in self.lp` loops (`Sweep`). The results are compared
  with independent closed-form descriptions: `DisplayWrites`, `SweepEvents`
  and `InterludeEvents` for the traces, and `Painted`, `Threshold`,
  `IsPrefixLit` and `CountLit` for the bar. The lemmas are stated for any
  driver whose pins are distinct. `BarWiring` shows that `BAR`, the one
  driver both programs build, has six distinct pins.
- `Decimal`: `str(n)` for `n >= 0` (`FromNat`), as used by `"{}".format(roll)`,
  with the parser it inverts (`Parse`).
- `Dice`: `roll_dice(channel)` of the bus-protocols program (`RollDice`). It
  runs the interlude, sends `"Rolled a N."` to the panel, shows the roll on
  the bar, and logs `"New roll of: N."`. The random draw is the parameter
  `roll`, constrained to the range of `random.randint(1, 6)`.

Two facts about the code shape the model:

- `display` refuses only negative numbers (`return False`, bus 37-38). `0` turns every LED off, and any number from 6 up lights all six. See `DisplayExtremes`.
- The code keeps no Busy/Idle state. Debouncing is `bouncetime=100` inside `GPIO.add_event_detect` (bus 138).

## Model

| member | source | states |
|---|---|---|
| `LedBar.BarWiring` | interfacing_basics/dice.py:10-16 | The pin list has six entries in LED order (LED 1 on pin 13, LED 6 on pin 21), all distinct. |
| `LedBar.Display` | interfacing_bus_protocols/dice.py:36-45 | `display` returns `False` exactly when `number < 0`, and then the state and trace are untouched. Otherwise it returns `None` and appends exactly the six writes of `DisplayWrites`: every pin once, in `lp` order, LED `k+1` high iff `k+1 <= number`. |
| `LedBar.DisplayLoop` | interfacing_bus_protocols/dice.py:40-45 | The loop from index `i` appends exactly the writes for LEDs `i..5` of the closed-form `DisplayWrites`, in order. |
| `LedBar.DisplayLoopPins` | interfacing_basics/dice.py:37-42 | The loop from index `i` leaves the pins as the prior map overridden by `Painted(i, UpTo(number))`, the target levels of LEDs `i..5`. |
| `LedBar.DisplayPins` | interfacing_bus_protocols/dice.py:40-45 | After a non-negative `display`, every LED pin is driven and LED `k+1` is high iff `k+1 <= number`. Pins off the bar keep their presence and level. |
| `LedBar.DisplayLightsPrefix` | interfacing_basics/dice.py:38-42 | After a non-negative `display(number)`, the bar is the first `number` LEDs lit. The lit LEDs form a prefix and there are exactly `min(number, 6)` of them. |
| `LedBar.DisplayExtremes` | interfacing_bus_protocols/dice.py:37-45 | There is no upper bound check. `display(0)` switches every LED off. Any `number >= 6` switches all on and has exactly the effect of `display(6)`, on pins and trace. |
| `LedBar.DisplayIgnoresPriorState` | interfacing_bus_protocols/dice.py:40-45 | From any two prior states, `display(number)` yields the same bar and appends the same writes. |
| `LedBar.DisplayIdempotent` | interfacing_basics/dice.py:37-42 | Displaying the same number a second time leaves the pin map exactly as the first call left it. |
| `LedBar.PrefixBarsAreDisplayable` | interfacing_bus_protocols/dice.py:41-45 | Conversely, every prefix-lit six-LED bar is what `display` shows for its own count of lit LEDs. |
| `LedBar.Sweep` | interfacing_bus_protocols/dice.py:50-60 | One `for l in self.lp` loop of the interlude from LED `i` appends exactly that suffix of `SweepEvents`. That is one write per LED in LED order, each followed by a 20 ms pause in the paced loops. |
| `LedBar.SweepPins` | interfacing_basics/dice.py:47-57 | A sweep from LED `i` leaves the prior pins overridden by `level` on LEDs `i..5` and on nothing else. |
| `LedBar.Interlude` | interfacing_bus_protocols/dice.py:48-60 | `interlude` appends exactly `InterludeEvents`: six clears, a 100 ms pause, six paced lights, six paced switch-offs. |
| `LedBar.InterludeEndsDark` | interfacing_basics/dice.py:45-57 | From any prior state, `interlude` leaves every LED off. Pins off the bar are unchanged. |
| `LedBar.InterludeWritePasses` | interfacing_basics/dice.py:47-57 | The writes of the interlude are a clearing pass, a lighting pass and a switch-off pass, each over all LEDs in LED order. |
| `LedBar.InterludeWrites` | interfacing_bus_protocols/dice.py:50-60 | The interlude makes `3 * 6` writes. Write `k` is LED `k+1` off, write `6+k` is LED `k+1` on, and write `12+k` is LED `k+1` off. |
| `LedBar.InterludeSleeps` | interfacing_bus_protocols/dice.py:52-60 | The interlude sleeps 100 ms plus one 20 ms step after each of the twelve paced writes. |
| `LedBar.BarInterludeTotals` | interfacing_basics/dice.py:47-57 | For the six-LED bar, one interlude is 18 writes and 340 ms of sleeping. |
| `Decimal.FromNat` | interfacing_bus_protocols/dice.py:129 | `str(n)` is a canonical decimal spelling (digits only, no leading zero) whose value is `n`. |
| `Decimal.FromNatParse` | interfacing_bus_protocols/dice.py:129 | Every canonical decimal spelling is `str` of the number it denotes, so formatting and parsing are inverse bijections. |
| `Dice.RollDice` | interfacing_bus_protocols/dice.py:126-132 | `roll_dice` with draw `roll` in [1, 6] appends, in order: the whole interlude, the panel text `"Rolled a N."`, the six writes of `display(roll)`, and the console line. |
| `Dice.RollDiceShowsRoll` | interfacing_bus_protocols/dice.py:126-131 | After a roll, exactly `roll` LEDs are lit, as a prefix. Pins off the bar are unchanged. |
| `Dice.RollDiceWrites` | interfacing_bus_protocols/dice.py:127-131 | A roll writes the 18 interlude writes and then the six display writes, 24 in all, with no display write before the interlude ends. It sleeps 340 ms in total. |
| `Dice.RollDiceIgnoresPriorState` | interfacing_bus_protocols/dice.py:126-131 | The bar a roll leaves and the events it appends depend only on the draw. |
| `Dice.RollMessageNamesRoll` | interfacing_bus_protocols/dice.py:129 | The panel text reads back as the roll, and no other text reads back as that roll. |
| `Dice.MessageOfFour` | interfacing_bus_protocols/dice.py:129 | A draw of 4 is announced as exactly `"Rolled a 4."`. |
| `Dice.RollOfFour` | interfacing_bus_protocols/dice.py:126-131 | A draw of 4 leaves LEDs 1-4 lit and LEDs 5-6 dark, whatever the bar showed before. |

## Left out

- GPIO setup (`setmode`, `setup`) in the constructors and `GPIO.cleanup` in the `__del__` destructors (bus 24-33, basics 20-30): hardware initialisation in a library that is not part of this model. The basics destructor's `sleep(2)` belongs to this teardown.
- `oled_display` (bus 62-116): I2C, font metrics and framebuffer calls in foreign libraries. `display_string(text)` is one `ShowText(text)` event. The `border > 0` branch, which names an undefined `border`, cannot run because `border = 0`.
- `start`, `GPIO.add_event_detect(..., bouncetime=100)`, `signal_handler` and `signal.pause` (bus 121-124, 135-140; basics 70-72): edge detection, debouncing inside the GPIO library, SIGINT handling and process waiting are concurrency and process I/O. No Busy/Idle state exists in the code.
- `random.randint(1, 6)`: the draw is the parameter `roll` with `1 <= roll <= 6`. Its distribution is not modelled.
- `roll_dice` of the basics program (basics 62-67) is not modelled as working because it cannot run as written. GPIO calls it with a channel argument it does not accept. `press_count = press_count + 1` assigns a local without `global`, which raises `UnboundLocalError` before the roll.
- Real time: `sleep` is a trace event carrying its duration in milliseconds. Nothing measures elapsed time.
- `display` with a non-integer argument (Python accepts any comparable value): the model takes `number` as an integer.
- Dice.RollDice: GPIO and panel calls are assumed to return normally. `roll_dice` (bus 126-132) has no failure handling, and it writes the panel (line 130) before the bar (line 131). In the code, a panel call that raises aborts the roll before the bar is updated. The bar then stays dark from the interlude, and nothing is printed. Examples are a missing font file (line 103) and a Pillow without `getsize` (line 106). `RollDiceShowsRoll` holds only when every call returns.
