# Temperature controller menu — a Dafny model

This project models the button-driven menu of the `Temp_control_mcu` firmware
(an AVR temperature controller with a 16x2 character display). The firmware
holds its user-interface state in seven `uint8_t` globals:

- `fMode` is the display mode: 0 is the boot splash, 1 is the temperature screen, 2 is the menu.
- `mMode` is the highlighted menu category (four categories).
- `subMenu` is non-zero while a sub-menu is open.
- `mVar` is the variable the sub-menu shows: 1 is `max_temp`, 2 is `min_temp`.
- `mSelect` is 0 while browsing; otherwise it is the variable being edited.
- `max_temp` and `min_temp` are the two editable set-points.

Four inputs act on this state:

- The Mode button raises INT0. Its handler sets `fMode := 1 + fMode % 2`.
- Next, Select and Back are port-B lines that the main loop samples once per iteration.
  Only the first held one, in that priority order, is handled.
  The lines act only while the menu is shown.

The model is one immutable `Menu.State` record and one pure function per
event. Lemmas prove the properties of those functions:

- the navigation invariant holds at power-up and after every event sequence;
- every set-point edit lands in 0..99, wrapping between 99 and 0;
- increment and decrement undo each other, and k presses count modulo 100;
- the menu categories cycle with period four;
- Back leaves editing before it closes the sub-menu, and undoes Select;
- the display mode depends only on the number of Mode presses.

The two-digit text shown for a set-point is modelled as `Digits.Render`, with
a parser and a round-trip in both directions.

Modules, one per concern:

- `Uint8` (uint8.dfy): the `uint8_t` width and the store-back wrap.
- `Options` (options.dfy): an option type.
- `Menu` (menu.dfy): the state, the four handlers, the poll dispatch and their lemmas.
- `Firmware` (firmware.dfy): event sequences (INT0 edges and loop iterations) and the lemmas about runs.
- `Digits` (digits.dfy): the two-digit rendering.

Some facts about the code that shape the model:

- The code has three display modes and no password screens.
- It cycles four menu categories (`% 4`).
- The sub-menu always shows `max_temp`/`min_temp`, whichever category is highlighted.
- The Mode handler does not reset `mMode`, `subMenu` or `mSelect` when it leaves the menu.
  Re-entering the menu resumes where the user left off.
- Incrementing `max_temp` past 99 wraps to 0.
  Nothing clamps `max_temp` and `min_temp` against each other, and the code has no set temperature.

## Model

| member | source | states |
|---|---|---|
| Uint8.Wrap | Temp_control_mcu/main.c:227-228 | storing a C `int` into a `uint8_t` keeps values 0..255 and otherwise differs by a multiple of 256 |
| Menu.InitialValid | Temp_control_mcu/main.c:20-32 | the power-up values satisfy the navigation invariant; they show the boot splash at the top level |
| Menu.Inc | Temp_control_mcu/main.c:225-234 | the increment always lands in 0..99, even from an out-of-range `uint8_t`; below 99 it adds one, otherwise it wraps to 0 |
| Menu.Dec | Temp_control_mcu/main.c:253-262 | the decrement maps 0 to 99 and otherwise subtracts one; it maps 0..99 into 0..99 |
| Menu.IncDecAreMod100 | Temp_control_mcu/main.c:225-262 | on 0..99 increment and decrement are successor and predecessor modulo 100 |
| Menu.IncDecInverse | Temp_control_mcu/main.c:225-262 | on 0..99 increment and decrement undo each other in both orders |
| Menu.IncTimesAddsMod100 | Temp_control_mcu/main.c:225-234 | k increments of a value in 0..99 add k modulo 100 |
| Menu.DecTimesSubtractsMod100 | Temp_control_mcu/main.c:253-262 | k decrements of a value in 0..99 subtract k modulo 100 |
| Menu.ModePressed | Temp_control_mcu/main.c:157-159 | Mode always leads to the temperature screen or the menu and flips the parity of `fMode`; nothing else changes; the invariant is kept |
| Menu.ModePressedToggles | Temp_control_mcu/main.c:158-159 | after the splash, Mode switches screen and two presses restore the state exactly |
| Menu.Next | Temp_control_mcu/main.c:219-237 | Next never changes the navigation depth. At the top it advances the category modulo 4, touching nothing else. While browsing it toggles between the two variables. While editing it increments only the selected variable. The invariant is kept |
| Menu.Select | Temp_control_mcu/main.c:247-265 | Select opens the sub-menu from the top. While browsing it starts editing the shown variable. While editing it decrements only the selected variable. It never changes display mode, category or shown variable. The invariant is kept |
| Menu.Back | Temp_control_mcu/main.c:271-279 | Back always ends editing. It closes the sub-menu only when nothing was being edited, so never both at once. Only those two fields change. The invariant is kept |
| Menu.NextCyclesCategories | Temp_control_mcu/main.c:220-221 | k Next presses at the top level advance the category by k modulo 4 and change nothing else |
| Menu.NextWhileEditingCounts | Temp_control_mcu/main.c:222-235 | k Next presses while editing act on the edited variable only, as k successive increments |
| Menu.BackUndoesSelect | Temp_control_mcu/main.c:248-277 | from the top level or while browsing, Select followed by Back returns to the state Select started from |
| Menu.EditsUndoEachOther | Temp_control_mcu/main.c:225-262 | while editing, Next after Select and Select after Next restore the state |
| Menu.BackReachesTop | Temp_control_mcu/main.c:273-277 | two Backs always reach the top level with nothing edited; a third changes nothing |
| Menu.Pressed | Temp_control_mcu/main.c:214-280 | the handled button is held and no higher-priority button is held; no button is handled exactly when none is held |
| Menu.Poll | Temp_control_mcu/main.c:214-280 | outside the menu, or with no button held, a loop iteration changes nothing. Otherwise only the highest-priority button acts. Buttons never change the display mode. The invariant is kept |
| Menu.PollIgnoresLowerButtons | Temp_control_mcu/main.c:214-280 | lower-priority buttons held at the same time make no difference |
| Firmware.Step | Temp_control_mcu/main.c:157-280 | any single event keeps the invariant, and a loop iteration never changes the display mode |
| Firmware.Run | Temp_control_mcu/main.c:211-283 | any sequence of events keeps the invariant |
| Firmware.RunDisplayMode | Temp_control_mcu/main.c:158-159 | the display mode after a run depends only on the start mode and the number of Mode presses |
| Firmware.DisplayModeFromPowerUp | Temp_control_mcu/main.c:157-159 | from power-up: the splash until the first Mode press, then the temperature screen after an odd count of presses and the menu after an even count |
| Firmware.ButtonsIgnoredBeforeMenu | Temp_control_mcu/main.c:214-280 | outside the menu, any run of loop iterations without a Mode press leaves the whole state unchanged |
| Firmware.PreemptedIterationIsSequential | Temp_control_mcu/main.c:157-280 | a loop iteration interrupted by INT0 after reading `fMode` ends in the same state as the iteration followed by the Mode press |
| Firmware.ReachableValid | Temp_control_mcu/main.c:20-32 | every state reachable from power-up satisfies the navigation invariant |
| Digits.Render | Temp_control_mcu/main.c:84-87 | a value 0..99 is shown as two decimal digits whose value is the number |
| Digits.ParseRender | Temp_control_mcu/main.c:85-86 | reading a rendered value 0..99 gives it back |
| Digits.RenderParse | Temp_control_mcu/main.c:104-105 | every two-digit text is the rendering of the value it reads as |

## Left out

- Display output is not modelled: `showTemperature`, `showMsg`, `showMenu`, `writeOnLCD` and the `lcd_*` driver calls. Only the digit arithmetic of the set-point text is modelled.
- `showTemperature` writes the tens digit of `temp` as `' ' + temp / 10`. This display quirk is not modelled. `temp` is always 0 in this code, so only `" 0"` can be shown.
- The timer interrupt's tick counter and its redraw every 100 ticks are not modelled. They are timing, not state the menu reads.
- The INT0 debounce window is not modelled: interrupt masking, a 500 ms busy-wait and re-arming. A Mode event in the model is one accepted edge.
- The 200 ms loop delay and the reads of `PINB` are not modelled. A loop iteration is an event carrying the three sampled line levels.
- The register setup in `main` is hardware configuration and is not modelled: port directions, PWM and timers.
- The string tables `menu`, `mode` and `variables` hold display text only and are not modelled.
- Filtering, temperature decoding, heat/cool control, alarms, passwords and cross-field clamping do not exist in this code, so the model has none of them.
- The empty `case 1` and `case 3` branches of the loop, and `fMode == 0`, are modelled as no-ops: `Menu.Poll` leaves the state unchanged whenever `fMode != 2`. `fMode` never reaches 3.
- `Digits.Parse` models nothing in the firmware, which never reads digits back. It exists only to state the round-trip of `Digits.Render`.
- INT0 can preempt a loop iteration between its read of `fMode` and its writes. The model treats each event as atomic. Nothing is lost by this: the handler writes only `fMode`, and the loop never writes `fMode`. An interrupted iteration therefore ends in the same state as the iteration followed by the Mode press (`Firmware.PreemptedIterationIsSequential`).
- The model assumes every loop iteration sees the `fMode` most recently written by the INT0 handler. The C text does not guarantee this: `fMode` and the navigation globals are plain `static uint8_t`, not `volatile`, and the `while (1)` body contains no call or compiler barrier, so a compiler may keep `fMode` in a register across iterations. `Menu.Poll`, `Firmware.DisplayModeFromPowerUp` and `Firmware.ButtonsIgnoredBeforeMenu` rest on this assumption, which is the evident intent of the code.
