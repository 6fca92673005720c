# Pimoroni keypad controller, modelled in Dafny

This project models the controller for a Pimoroni RGB keypad. The keypad is a 4×4 grid of
illuminated keys behind an I2C IO expander, used as a USB macro pad.

The firmware:
- polls the 16 keys;
- detects fresh presses (edges);
- drives a two-state toggle machine (neutral / one key selected);
- maps the other keys onto the selected key's command slots;
- dispatches the chosen command as keyboard events;
- lights each key through a 16-entry pixel buffer, including a fade animation at start-up.

The model has two layers.

- **Values and specifications** (modules `Values`, `Grid`, `SlotMapper`, `Edges`, `Fade`, `Dispatch` and `Board`):
  - `Board.PadState` and `Board.KeyState` are the keypad's fields as values.
  - Every keypad operation has a function from the old state to the new state.
  - Each such function carries the properties the firmware promises: propagation, the toggle invariant, the slot/highlight agreement, edge detection, and the fade frames.
- **The objects as the firmware builds them** (modules `Keypad` and `Controller`):
  - class `PimoroniKeypad` owns sixteen `KeypadKey` objects and an `array` pixel buffer;
  - they are updated in place, loop by loop, as the Python does;
  - every method is proved to leave the objects in exactly the state the matching `Board` function computes.

`Controller.Poll` is one pass of the script's poll loop. It is proved equal to `Board.Poll`, which keeps the toggle invariant (`Board.Consistent`). `Controller.Start` is the constructor: key layout, key configuration and load animation.

Behaviour the model keeps from the firmware:
- `toggle_on` leaves the keypad's own colour and brightness unchanged. It paints the keys and sets the toggled key's brightness only.
- A fade stops at its 96% frame, so black to full red ends at red 244 (`Fade.BlackToRedEndsAt244`).
- RGB channels are never range-checked.
- The toggled key's highlighted neighbours come from `limit = N + (N > k ? 1 : 0)`. For key 5 with 2 commands, only keys 0 and 1 are lit.

## Model

| member | source | states |
|---|---|---|
| Grid.CoordinatesToIndex | pimoronikeypad/PimoroniKeypad.py:454-456 | a grid cell maps into 0..15 and back: the index's row is `i / 4` and its column `i % 4` |
| Grid.IndexToCoordinates | pimoronikeypad/PimoroniKeypad.py:454-456 | every index 0..15 has grid coordinates that `coordinates_to_index` maps back to it (surjectivity) |
| Grid.IndexInjective | pimoronikeypad/PimoroniKeypad.py:454-456 | distinct grid cells get distinct indices (injectivity) |
| Grid.CoordinatesRoundTrip | pimoronikeypad/PimoroniKeypad.py:454-456 | coordinates survive index and back |
| Grid.LoadPatternsArePermutations | pimoronikeypad/PimoroniKeypad.py:27-31 | the three named load patterns are exactly simple/diagonal/spiral and each lists all 16 indices once |
| SlotMapper.HighlightLimit | pimoronikeypad/PimoroniKeypad.py:385-388 | the highlight limit is N or N+1, and N+1 exactly when N exceeds the toggled key's index |
| SlotMapper.Slot | pimoronikeypad/PimoroniKeypad.py:402-406 | a key other than the toggled one gets a slot in 0..14, one lower exactly when it lies past the toggled key |
| SlotMapper.SlotKey | pimoronikeypad/PimoroniKeypad.py:402-406 | every slot 0..14 is addressed by some key other than the toggled one (onto) |
| SlotMapper.SlotInjective | pimoronikeypad/PimoroniKeypad.py:402-406 | two keys other than the toggled one never share a slot (one-to-one) |
| SlotMapper.SlotKeyOfSlot | pimoronikeypad/PimoroniKeypad.py:402-406 | SlotKey undoes Slot on every key other than the toggled one |
| SlotMapper.HighlightMatchesSlot | pimoronikeypad/PimoroniKeypad.py:385-408 | for every key i other than the toggled key, `toggle_on` highlights i exactly when `run_command` finds a command for i |
| SlotMapper.HighlightMatchesSlotEverywhere | pimoronikeypad/PimoroniKeypad.py:385-408 | the same agreement, for all keys at once |
| SlotMapper.KeyFiveExample | pimoronikeypad/PimoroniKeypad.py:385-406 | key 5 with 2 or 3 commands lights keys below 2 or 3; key 6 addresses slot 5 |
| Edges.MaskBytes | pimoronikeypad/PimoroniKeypad.py:356-359 | key i is down exactly when bit i of byte 0 (keys 0..7) or bit i-8 of byte 1 (keys 8..15) is clear |
| Edges.Mask | pimoronikeypad/PimoroniKeypad.py:356 | the 16-bit mask keeps both bytes read: its low byte is byte 0 and its high byte is byte 1 |
| Edges.Sensed | pimoronikeypad/PimoroniKeypad.py:359-368 | after a poll, `is_pressed` is the key's bit being low; `still_pressed` is the previous `is_pressed` when down, false when up; a fresh press is a rising edge |
| Edges.History | pimoronikeypad/PimoroniKeypad.py:359-368 | over a run of polls, `is_pressed` after poll j is whether the key was down at poll j |
| Edges.FreshOnlyOnRisingEdge | pimoronikeypad/PimoroniKeypad.py:359-368 | over any run of polls, poll j shows a fresh press exactly when the key is down at j and was up at j-1 |
| Edges.HeldKeyFiresOnce | pimoronikeypad/PimoroniKeypad.py:359-368 | a key held down for k consecutive polls fires on the first only |
| Fade.Trunc | pimoronikeypad/PimoroniKeypad.py:757 | Python's `int()` of a number truncates toward zero |
| Fade.MapRange | pimoronikeypad/PimoroniKeypad.py:755-757 | `_map` sends the input range's ends to the output range's ends: `in_min` to `out_min`, `in_max` to `out_max` |
| Fade.Channel | pimoronikeypad/PimoroniKeypad.py:749-751 | one frame channel is the start channel at n = 0 and the target channel at n = 100 |
| Fade.ChannelIsMap | pimoronikeypad/PimoroniKeypad.py:749-751 | the integer channel formula equals `int(_map(n, 0, 100, start, target))` on exact arithmetic |
| Fade.FadeSteps | pimoronikeypad/PimoroniKeypad.py:748 | `range(0, 100, 4)` is 25 steps, step j being 4j |
| Fade.Frame | pimoronikeypad/PimoroniKeypad.py:749-752 | the frame at n = 0 is the start colour and the frame at n = 100 the target |
| Fade.FrameOfFade | pimoronikeypad/PimoroniKeypad.py:747-752 | frame j is the colour at n = 4j, computed from the start colour captured once |
| Fade.Frames | pimoronikeypad/PimoroniKeypad.py:747-752 | a fade shows 25 frames, the first being the captured start colour and the last the colour the key is left at |
| Fade.FramesFollowRange | pimoronikeypad/PimoroniKeypad.py:747-752 | the 25 frames are those of the percentages `range(0, 100, 4)`, in order |
| Fade.LastFrame | pimoronikeypad/PimoroniKeypad.py:748-753 | the colour a fade leaves lies channel by channel between start and target, and is the start colour when start and target agree |
| Fade.ChannelFloor | pimoronikeypad/PimoroniKeypad.py:755-757 | for non-negative channels each frame channel is start + ⌊n·(target−start)/100⌋ |
| Fade.ChannelBetween | pimoronikeypad/PimoroniKeypad.py:755-757 | every interpolated channel lies between start and target |
| Fade.FramesBetween | pimoronikeypad/PimoroniKeypad.py:747-752 | every frame lies between start and target, channel by channel |
| Fade.RisingFadeStopsShort | pimoronikeypad/PimoroniKeypad.py:748-752 | a rising non-negative channel never reaches its target |
| Fade.BlackToRedEndsAt244 | pimoronikeypad/PimoroniKeypad.py:745-757 | a fade from black to (255, 0, 0) ends on (244, 0, 0) |
| Dispatch.Items | pimoronikeypad/PimoroniKeypad.py:413-419 | `action[k]` is the k-th name of a list payload, or the k-th one-character string of a text payload |
| Dispatch.Lookup | pimoronikeypad/PimoroniKeypad.py:414-419 | a keycode dictionary lookup yields the stored code exactly when the name is a key, and otherwise fails (KeyError) |
| Dispatch.ShortcutEvents | pimoronikeypad/PimoroniKeypad.py:463-471 | one chord of one to three codes starting with `input_one`, only `input_one` when the second is absent, then a one-second pause |
| Dispatch.TextEvents | pimoronikeypad/PimoroniKeypad.py:473-476 | `enter_text` types the payload unchanged, then pauses for half a second |
| Dispatch.ActionEvents | pimoronikeypad/PimoroniKeypad.py:412-423 | one action fails exactly when it is a shortcut of one to three items naming a key missing from the dictionary; an action of any other type emits nothing |
| Dispatch.CompletesUnlessKeyError | pimoronikeypad/PimoroniKeypad.py:410-423 | `execute` of a command completes exactly when none of its actions fails |
| Dispatch.DispatchedAppend | pimoronikeypad/PimoroniKeypad.py:410-423 | actions run in order: running a + b is running a, then b only if a completed, with the traces concatenated |
| Dispatch.ShortcutSendsNamedCodes | pimoronikeypad/PimoroniKeypad.py:413-419 | a shortcut of 1, 2 or 3 known names sends exactly those codes in order as one chord, then Sleep(1) |
| Dispatch.OversizedShortcutIgnored | pimoronikeypad/PimoroniKeypad.py:413-419 | a shortcut payload of 0 or more than 3 items emits nothing and does not fail |
| Dispatch.UnknownNameFails | pimoronikeypad/PimoroniKeypad.py:414-419 | a shortcut naming a key missing from the keycode dictionary fails (KeyError) |
| Dispatch.TextAndUnknownActions | pimoronikeypad/PimoroniKeypad.py:421-423 | `enterText` emits the text then Sleep(0.5); any other action type emits nothing |
| Dispatch.Execute | pimoronikeypad/PimoroniKeypad.py:410-423 | the loop over the command's actions produces exactly the trace and the completion flag of `Dispatched` |
| Board.NewKey | pimoronikeypad/PimoroniKeypad.py:506-531 | a new key takes the default colour, its master colour is that same colour, and it is untoggled, released, unprogrammed, without commands |
| Board.Initial | pimoronikeypad/PimoroniKeypad.py:169-181 | the keys are built row-major (`keys[i]` at `(i / 4, i % 4)`), the board is consistent and untoggled, with colour and brightness equal to their defaults |
| Board.Programmed | pimoronikeypad/PimoroniKeypad.py:336-346 | one configuration entry sets the master colour and the programmed flag of the key at (x, y) and appends its commands; no other key changes |
| Board.ProgrammedAll | pimoronikeypad/PimoroniKeypad.py:330-346 | applying the key configuration keeps the board well formed and the toggle invariant, and leaves the pixels and toggle fields alone |
| Board.ConfiguredKey | pimoronikeypad/PimoroniKeypad.py:330-346 | after the key configuration, key i is programmed iff it was before or some entry names it; its commands are its old commands followed by the naming entries' commands in list order; its master colour is the last naming entry's; every other field is unchanged, and a key no entry names is unchanged |
| Board.ConfiguredKeys | pimoronikeypad/PimoroniKeypad.py:330-346 | ConfiguredKey for all 16 keys at once |
| Board.ToggledIndex | pimoronikeypad/PimoroniKeypad.py:400-403 | on a consistent toggled board, the key at `toggled_key` is a valid index and is the toggled key |
| Board.AtMostOneToggled | pimoronikeypad/PimoroniKeypad.py:379-382 | under the toggle invariant at most one key is toggled, and one is exactly when the keypad is toggled |
| Board.Updated | pimoronikeypad/PimoroniKeypad.py:458-461 | after `update`, `pixels[i] == keys[i].pixel_tuple` for every i, and nothing else changes |
| Board.PixelOf | pimoronikeypad/PimoroniKeypad.py:723-726 | a key's pixel shows its colour channels at its brightness |
| Board.UpdateIdempotent | pimoronikeypad/PimoroniKeypad.py:458-461 | repainting a painted board changes nothing |
| Board.WithColour | pimoronikeypad/PimoroniKeypad.py:238-246 | the keypad colour setter sets the keypad's and every key's colour and repaints; nothing else changes |
| Board.WithBrightness | pimoronikeypad/PimoroniKeypad.py:276-287 | a brightness in [0.0, 1.0] reaches the keypad and every key and is repainted; any other value changes nothing |
| Board.WithDefaultBrightness | pimoronikeypad/PimoroniKeypad.py:257-265 | `default_brightness` is range checked and not propagated |
| Board.Cleared | pimoronikeypad/PimoroniKeypad.py:437-447 | `clear` leaves all 16 keys black at brightness 0.0 and untoggled and the keypad black at 0.5 with no toggled key, its defaults untouched |
| Board.ResetAll | pimoronikeypad/PimoroniKeypad.py:425-435 | `reset` leaves every key at its master colour with the default brightness, untoggled, and the keypad at its default colour and brightness with no toggled key |
| Board.ResetKey | pimoronikeypad/PimoroniKeypad.py:738-743 | `KeypadKey.reset` puts one key at the keypad's defaults, untoggled, repaints, and keeps the toggle invariant when that key was not the toggled one |
| Board.ResetOfSelectedKeyBreaksToggle | pimoronikeypad/PimoroniKeypad.py:738-743 | resetting the toggled key alone breaks the toggle invariant: the keypad still names a toggled key that is not toggled |
| Board.RecolourAfterRepaint | pimoronikeypad/PimoroniKeypad.py:752-753 | two consecutive frames, each repainted, amount to the second frame repainted |
| Board.Faded | pimoronikeypad/PimoroniKeypad.py:745-753 | a fade changes only the key's colour, to the fade's last frame, and the pixels |
| Board.SensedAll | pimoronikeypad/PimoroniKeypad.py:359-368 | `load_pressed_keys` changes only the press fields of each key, as Sensed with that key's bit, and keeps the toggle invariant |
| Board.Highlighted | pimoronikeypad/PimoroniKeypad.py:389-395 | the repaint loop of `toggle_on` leaves the toggled key and paints each other key in the master colour below the limit, the default colour from there on |
| Board.Selected | pimoronikeypad/PimoroniKeypad.py:378-396 | after the brightness check the keypad records the key as toggled, the key takes its master colour and the new brightness, and the other keys are highlighted |
| Board.ToggledOn | pimoronikeypad/PimoroniKeypad.py:371-396 | an out-of-range brightness leaves only the key's colour write. Otherwise: the keypad is toggled with `toggled_key` = the key's coordinates; the key is toggled, in its master colour, at the given brightness; every other key keeps brightness and toggle flag and is lit in the master colour exactly when its slot has a command; the invariant holds on a neutral board |
| Board.CommandRun | pimoronikeypad/PimoroniKeypad.py:398-408 | `run_command` runs nothing or one of the toggled key's own commands, and nothing at all when the toggled key has no commands |
| Board.RunsExactlyTheHighlightedKeys | pimoronikeypad/PimoroniKeypad.py:398-408 | while k is toggled, pressing a key below k's highlight limit runs that key's slot command, and pressing one at or past it runs nothing |
| Board.Handle | Python/code.py:8-17 | one key's branch keeps the board well formed, the toggle invariant, every key's press fields and the pixel/key agreement |
| Board.HandledUpTo | Python/code.py:7-17 | handling keys 0..count-1 in order, each after the earlier keys' changes, keeps the invariant and the press fields |
| Board.Poll | Python/code.py:7-17 | one poll leaves every key's press fields as sensed, and the toggle invariant holds |
| Board.OnlyFreshPressesAct | Python/code.py:8 | a key without a fresh press (held or released) changes nothing and emits nothing |
| Board.PressWhileSelecting | Python/code.py:10-11 | while toggled, a fresh press of another key runs `run_command` and keeps `toggled_key` |
| Board.PressOfSelectedKey | Python/code.py:13-14 | a fresh press of the toggled key runs `clear`, leaving no toggled key |
| Board.PressWhileNeutral | Python/code.py:16-17 | while neutral, a programmed key is toggled on at brightness 1.0 and recorded; an unprogrammed key changes nothing |
| Board.HandledStaysStopped | Python/code.py:7-11 | once a command raises, the keys after it in the poll are not handled |
| Board.KeyAt | pimoronikeypad/PimoroniKeypad.py:491-492 | `self.keys[v]` exists exactly for -16 <= v < 16, negative indices counting from the end |
| Board.FadesDone | pimoronikeypad/PimoroniKeypad.py:491-493 | the fade loop completes exactly when every entry is a valid list index, with one pause per entry |
| Board.FadesChangeOnlyColours | pimoronikeypad/PimoroniKeypad.py:491-493 | the fade loop changes only key colours and the pixels, so the toggle invariant survives it |
| Board.FadesStayStopped | pimoronikeypad/PimoroniKeypad.py:491-493 | after an IndexError no further keys are faded |
| Board.PatternLoaded | pimoronikeypad/PimoroniKeypad.py:487-494 | completes exactly when every entry is a valid index, then pauses once per entry and leaves the board reset: neutral, every key at its master colour and default brightness, keypad colour equal to the new default |
| Board.Loaded | pimoronikeypad/PimoroniKeypad.py:478-485 | `load` keeps the board well formed; an unknown pattern name is a KeyError that changes nothing; a pattern given as a list completes exactly when every entry is a valid index; a completed load keeps every key's programmed flag, commands and master colour |
| Board.NamedPatternsLoad | pimoronikeypad/PimoroniKeypad.py:478-485 | every named pattern loads to completion with 16 pauses and a neutral, consistent board |
| Board.Started | pimoronikeypad/PimoroniKeypad.py:143-183 | start-up that completes leaves the invariant true, the pixels painted and no key toggled; each key is programmed exactly when some configuration entry names it, with those entries' commands in order and the last one's master colour (the configured colour when none names it) |
| Keypad.KeypadKey.constructor | pimoronikeypad/PimoroniKeypad.py:506-531 | a new key object is NewKey of its arguments |
| Keypad.KeypadKey.SetX | pimoronikeypad/PimoroniKeypad.py:538-546 | `x` accepts 0..15 and otherwise changes nothing (ValueError) |
| Keypad.KeypadKey.SetY | pimoronikeypad/PimoroniKeypad.py:557-565 | `y` accepts 0..15 and otherwise changes nothing (ValueError) |
| Keypad.KeypadKey.SetBrightness | pimoronikeypad/PimoroniKeypad.py:629-637 | a key's brightness accepts [0.0, 1.0] and otherwise changes nothing (ValueError) |
| Keypad.KeypadKey.SetColour | pimoronikeypad/PimoroniKeypad.py:592-600 | `None` means the keypad's default colour; only the colour changes |
| Keypad.KeypadKey.SetMasterColour | pimoronikeypad/PimoroniKeypad.py:611-618 | `None` means the key's current colour; only the master colour changes |
| Keypad.KeypadKey.PixelTuple | pimoronikeypad/PimoroniKeypad.py:723-726 | the pixel tuple is the key's colour channels and brightness |
| Keypad.KeypadKey.Coordinates | pimoronikeypad/PimoroniKeypad.py:728-731 | the coordinates are the key's (x, y) |
| Keypad.KeypadKey.Index | pimoronikeypad/PimoroniKeypad.py:733-736 | a key on the grid has an index in 0..15 whose coordinates are its own |
| Keypad.PimoroniKeypad.constructor | pimoronikeypad/PimoroniKeypad.py:169-181 | the nested row/column loop builds sixteen distinct fresh keys and a dark buffer: the state is Initial |
| Keypad.PimoroniKeypad.IndexOfSlot | pimoronikeypad/PimoroniKeypad.py:179-181 | `keys[i].index == i` for every slot of a valid keypad |
| Keypad.PimoroniKeypad.KeyAtOwnIndex | pimoronikeypad/PimoroniKeypad.py:179-181 | every key of the keypad sits in the slot its own index names |
| Keypad.PimoroniKeypad.GetKey | pimoronikeypad/PimoroniKeypad.py:449-452 | `get_key(x, y)` returns the keypad's key whose index is `x*4+y`, at (x, y) on the grid |
| Keypad.PimoroniKeypad.Update | pimoronikeypad/PimoroniKeypad.py:458-461 | the copy loop leaves the buffer as Updated computes |
| Keypad.PimoroniKeypad.SetColour | pimoronikeypad/PimoroniKeypad.py:238-246 | the propagation loop leaves the state WithColour computes |
| Keypad.PimoroniKeypad.SetBrightness | pimoronikeypad/PimoroniKeypad.py:276-287 | `ok` iff the value is in range; the state is WithBrightness |
| Keypad.PimoroniKeypad.SetDefaultColour | pimoronikeypad/PimoroniKeypad.py:222-227 | only `default_colour` changes |
| Keypad.PimoroniKeypad.SetDefaultBrightness | pimoronikeypad/PimoroniKeypad.py:257-265 | `ok` iff in range; the state is WithDefaultBrightness |
| Keypad.PimoroniKeypad.Clear | pimoronikeypad/PimoroniKeypad.py:437-447 | the state after `clear` is Cleared |
| Keypad.PimoroniKeypad.BlankKeys | pimoronikeypad/PimoroniKeypad.py:443-446 | the loop of `clear` leaves every key black at brightness 0.0 and untoggled, every other field as before |
| Keypad.PimoroniKeypad.Reset | pimoronikeypad/PimoroniKeypad.py:425-435 | the state after `reset` is ResetAll |
| Keypad.PimoroniKeypad.RestoreKeys | pimoronikeypad/PimoroniKeypad.py:431-434 | the loop of `reset` leaves every key at its master colour and the given brightness (the keypad brightness, already reset), untoggled, every other field as before |
| Keypad.PimoroniKeypad.ResetKey | pimoronikeypad/PimoroniKeypad.py:738-743 | `KeypadKey.reset` on one of the keypad's keys leaves the state Board.ResetKey computes |
| Keypad.PimoroniKeypad.ProgramKey | pimoronikeypad/PimoroniKeypad.py:336-346 | one configuration entry, with its command loop, leaves the state Programmed computes |
| Keypad.PimoroniKeypad.LoadPressedKeys | pimoronikeypad/PimoroniKeypad.py:348-369 | the bit loop leaves the state SensedAll computes and returns the key list |
| Keypad.PimoroniKeypad.Highlight | pimoronikeypad/PimoroniKeypad.py:389-395 | the repaint loop of `toggle_on` leaves the keys as Highlighted computes |
| Keypad.PimoroniKeypad.ToggleOn | pimoronikeypad/PimoroniKeypad.py:371-396 | `ok` iff the brightness passes the key's setter; the state is ToggledOn |
| Keypad.PimoroniKeypad.Select | pimoronikeypad/PimoroniKeypad.py:378-396 | the rest of `toggle_on` after the brightness check leaves Selected, repainted |
| Keypad.PimoroniKeypad.RunCommand | pimoronikeypad/PimoroniKeypad.py:398-408 | the trace and completion are those of CommandRun; the keypad does not change |
| Keypad.PimoroniKeypad.ShowKeyColour | pimoronikeypad/PimoroniKeypad.py:752-753 | one frame: the key's colour is written and the keypad repainted |
| Keypad.PimoroniKeypad.FadeToColour | pimoronikeypad/PimoroniKeypad.py:745-753 | the frames shown are exactly Fade.Frames of the captured start colour, and the state is Faded |
| Keypad.PimoroniKeypad.FadeEach | pimoronikeypad/PimoroniKeypad.py:491-493 | the fade loop's trace, completion and state are those of FadesDone |
| Keypad.PimoroniKeypad.FadeKey | pimoronikeypad/PimoroniKeypad.py:492 | fading the key at a list index leaves the keypad Valid and in state Faded of the old state at that index |
| Keypad.PimoroniKeypad.PatternLoad | pimoronikeypad/PimoroniKeypad.py:487-494 | blackout, new default, fades, then reset: the trace and state are PatternLoaded |
| Keypad.PimoroniKeypad.Load | pimoronikeypad/PimoroniKeypad.py:478-485 | the trace and state are those of Loaded |
| Controller.HandleKey | Python/code.py:8-17 | one key's branch leaves the keypad and trace as Handle computes |
| Controller.Poll | Python/code.py:7-17 | one poll leaves the keypad and trace as Board.Poll computes, keeping the toggle invariant |
| Controller.Start | pimoronikeypad/PimoroniKeypad.py:169-183 | building the keys, the key configuration loop and the load leave the state and trace Started computes |

## Left out

- The pin, DotStar, I2C and USB set-up, and the I2C write/read: hardware I/O. `load_pressed_keys` takes the two bytes read as parameters.
- The pixel buffer holds the pixel tuples. The DotStar driver's `brightness` argument and its auto-write are hardware.
- The Adafruit `Keycode` constants: foreign library values. A keycode is an abstract `nat` and the keycode dictionary is a `map` parameter.
- `Keyboard.send` and `KeyboardLayoutUS.write` are recorded as `Chord` and `Write` events.
- `time.sleep` is recorded as a `Sleep` event. Timing has no semantics here.
- `load_config` and the JSON dictionary lookups in `set_key_config` and `load`: file I/O and parsing.
  - The key configuration arrives as `KeyRecord`s whose commands are already parsed.
  - The load pattern arrives as a `LoadChoice`.
- The `isinstance` checks and the `TypeError` they raise, and the property deleters: Dafny's types rule these inputs out.
- The setters of `is_toggled_on`, `toggled_key`, `keys`, `config`, the press flags, `commands` and `actions` only type-check, so they are plain field writes.
- `RGB.show` (console output) and the `RGB.value` setter (never called).
- Floating point: brightness is `real`, and `_map` is evaluated on exact reals, then truncated as `int()` does.
- The infinite `while True` loop: one poll pass (`Controller.Poll`) is the unit.
- An exception in the firmware ends the program. The model instead returns `completed = false` and skips the rest of the operation:
  - a `KeyError` from an unknown key name, which ends the poll pass;
  - an `IndexError` in a load pattern, which ends the load before its reset;
  - an unknown pattern name.
- KeypadKey's back-reference to its keypad:
  - the keypad's default colour is passed to the key methods that need it;
  - `KeypadKey.reset` and `fade_to_colour`, which call `keypad.update()`, are methods of the keypad (`ResetKey`, `FadeToColour`).
- The keypad's methods write key fields directly where the source calls a key setter whose check cannot fail at that point.
- Keypad.KeypadKey.constructor: requires coordinates in 0..15 and a brightness in [0.0, 1.0]; the firmware's setters would raise ValueError otherwise.
- Keypad.PimoroniKeypad.RunCommand: requires a toggled, consistent keypad, which is the only way the script calls it. With no toggled key the firmware would raise TypeError.
- Keypad.PimoroniKeypad.GetKey: requires an index in 0..15. Python's negative list indices and its IndexError are not modelled here.
- Keypad.PimoroniKeypad.ProgramKey: requires configuration coordinates whose index is in 0..15, for the same reason.
- Controller.Start: requires configuration coordinates whose index is in 0..15, for the same reason.
- Keypad.PimoroniKeypad.constructor: requires a configured brightness in [0.0, 1.0]; the firmware's setter would raise ValueError otherwise.
