/**
 * The keypad's state as a value, and one function per operation giving the state afterwards.
 * The classes in module Keypad are proved to follow these functions; the properties the
 * keypad promises (the toggle invariant, the mapper symmetry seen on the board, start-up) are
 * proved here.
 */
module Board {
  import opened Values
  import opened Grid
  import opened Edges
  import SlotMapper
  import opened Dispatch
  import Fade

  /** Every field of one KeypadKey except its back-reference to the keypad. */
  datatype KeyState = KeyState(
    x: int, y: int,
    colour: Rgb, masterColour: Rgb, brightness: real,
    toggled: bool, press: PressState,
    programmed: bool, commands: seq<Command>)

  /** `pixel_tuple`: the value the key contributes to the pixel buffer. */
  function PixelOf(k: KeyState): (px: Pixel)
    ensures Rgb(px.red, px.green, px.blue) == k.colour && px.brightness == k.brightness
  {
    Pixel(k.colour.red, k.colour.green, k.colour.blue, k.brightness)
  }

  /** The PimoroniKeypad's fields: its 16 keys, ambient and default looks, toggle state, pixel buffer. */
  datatype PadState = PadState(
    keys: seq<KeyState>,
    colour: Rgb, defaultColour: Rgb,
    brightness: real, defaultBrightness: real,
    toggled: bool, toggledKey: Option<(int, int)>,
    pixels: seq<Pixel>)

  /** A key state with the result of an operation on the keypad, and what that operation emitted. */
  datatype Turn = Turn(pad: PadState, dispatch: Dispatch)

  /** A pre-parsed entry of the configuration's key list. */
  datatype KeyRecord = KeyRecord(x: int, y: int, masterColour: Rgb, commands: seq<Command>)

  /** The configured `loadPattern`: a pattern name or an explicit list of key indices. */
  datatype LoadChoice = Named(name: string) | Explicit(indices: seq<int>)

  /** 16 keys laid out row-major, 16 pixels, and every brightness inside its setter's range. */
  predicate WellFormed(p: PadState) {
    && |p.keys| == KeyCount && |p.pixels| == KeyCount
    && (forall i :: 0 <= i < KeyCount ==>
          p.keys[i].x == i / 4 && p.keys[i].y == i % 4 && InUnit(p.keys[i].brightness))
    && InUnit(p.brightness) && InUnit(p.defaultBrightness)
  }

  /** The pixel buffer shows every key: `pixels[i] == keys[i].pixel_tuple`. */
  predicate Synced(p: PadState) {
    |p.pixels| == |p.keys| && forall i :: 0 <= i < |p.keys| ==> p.pixels[i] == PixelOf(p.keys[i])
  }

  /**
   * The toggle invariant: the keypad is toggled iff it records a toggled key, and then exactly
   * the key at those coordinates is toggled; otherwise no key is.
   */
  predicate Consistent(p: PadState)
  {
    && |p.keys| == KeyCount
    && (p.toggled <==> p.toggledKey.Some?)
    && (p.toggledKey.None? ==> forall i :: 0 <= i < KeyCount ==> !p.keys[i].toggled)
    && (p.toggledKey.Some? ==>
          var c := p.toggledKey.value;
          && 0 <= c.0 < 4 && 0 <= c.1 < 4
          && forall i :: 0 <= i < KeyCount ==> (p.keys[i].toggled <==> i == CoordinatesToIndex(c.0, c.1)))
  }

  /** Under the toggle invariant at most one key is toggled, and one is exactly when the keypad is. */
  lemma AtMostOneToggled(p: PadState)
    requires Consistent(p)
    ensures forall i, j :: 0 <= i < KeyCount && 0 <= j < KeyCount && p.keys[i].toggled && p.keys[j].toggled ==> i == j
    ensures p.toggled <==> exists i :: 0 <= i < KeyCount && p.keys[i].toggled
  {
    if p.toggled {
      var c := p.toggledKey.value;
      assert p.keys[CoordinatesToIndex(c.0, c.1)].toggled;
    }
  }

  /** The index of the toggled key, for a consistent toggled keypad. */
  function ToggledIndex(p: PadState): (k: int)
    requires Consistent(p) && p.toggled
    ensures 0 <= k < KeyCount && p.keys[k].toggled
  {
    CoordinatesToIndex(p.toggledKey.value.0, p.toggledKey.value.1)
  }

  // ---------------------------------------------------------------- construction

  /**
   * `KeypadKey(keypad, x, y, colour, brightness, master_colour)`: a `None` colour becomes the
   * keypad's default colour, and the master colour is taken from the `colour` argument (not from
   * `master_colour`), so it always equals the key's colour.
   */
  function NewKey(x: int, y: int, colour: Option<Rgb>, brightness: real, masterColour: Option<Rgb>,
                  padDefault: Rgb): (k: KeyState)
    ensures k.colour == colour.GetOr(padDefault)
    ensures k.masterColour == k.colour
    ensures !k.toggled && k.press == Released && !k.programmed && k.commands == []
  {
    var c := colour.GetOr(padDefault);
    KeyState(x, y, c, colour.GetOr(c), brightness, false, Released, false, [])
  }

  /** The keypad once `__init__` has built its keys, before the key configuration and the load animation. */
  function Initial(colour: Rgb, brightness: real): (p: PadState)
    requires InUnit(brightness)
    ensures WellFormed(p) && Consistent(p) && !p.toggled
    ensures p.colour == p.defaultColour == colour && p.brightness == p.defaultBrightness == brightness
    ensures forall i :: 0 <= i < KeyCount ==>
              p.keys[i] == NewKey(i / 4, i % 4, None, brightness, None, colour)
  {
    PadState(seq(KeyCount, i => NewKey(i / 4, i % 4, None, brightness, None, colour)),
             colour, colour, brightness, brightness, false, None, seq(KeyCount, _ => Dark))
  }

  /** One iteration of `set_key_config`: the key at (x, y) gets a master colour and more commands. */
  function Programmed(p: PadState, r: KeyRecord): (q: PadState)
    requires WellFormed(p) && 0 <= CoordinatesToIndex(r.x, r.y) < KeyCount
    ensures WellFormed(q) && (Consistent(p) ==> Consistent(q))
    ensures var i := CoordinatesToIndex(r.x, r.y);
            && q.keys[i].programmed && q.keys[i].masterColour == r.masterColour
            && q.keys[i].commands == p.keys[i].commands + r.commands
            && forall j :: 0 <= j < KeyCount && j != i ==> q.keys[j] == p.keys[j]
  {
    var i := CoordinatesToIndex(r.x, r.y);
    p.(keys := p.keys[i := p.keys[i].(masterColour := r.masterColour, programmed := true,
                                       commands := p.keys[i].commands + r.commands)])
  }

  predicate RecordsInGrid(records: seq<KeyRecord>) {
    forall j :: 0 <= j < |records| ==> 0 <= CoordinatesToIndex(records[j].x, records[j].y) < KeyCount
  }

  lemma RecordsInGridTail(records: seq<KeyRecord>)
    requires RecordsInGrid(records) && records != []
    ensures RecordsInGrid(records[1..])
  {
    forall j | 0 <= j < |records[1..]|
      ensures 0 <= CoordinatesToIndex(records[1..][j].x, records[1..][j].y) < KeyCount
    {
      assert records[1..][j] == records[j + 1];
    }
  }

  /** `set_key_config` over the whole (pre-parsed) key list, in order. */
  function ProgrammedAll(p: PadState, records: seq<KeyRecord>): (q: PadState)
    requires WellFormed(p) && RecordsInGrid(records)
    decreases |records|
    ensures WellFormed(q) && (Consistent(p) ==> Consistent(q))
    ensures q.pixels == p.pixels && q.toggled == p.toggled && q.toggledKey == p.toggledKey
  {
    if records == [] then p
    else ProgrammedAll(Programmed(p, records[0]), records[1..])
  }

  /** The entries of a key list that name key `i`, in list order. */
  function Naming(records: seq<KeyRecord>, i: int): seq<KeyRecord>
    decreases |records|
  {
    if records == [] then []
    else (if CoordinatesToIndex(records[0].x, records[0].y) == i then [records[0]] else []) + Naming(records[1..], i)
  }

  /** The commands of some entries, one entry's after the other's. */
  function CommandsOf(records: seq<KeyRecord>): seq<Command>
    decreases |records|
  {
    if records == [] then [] else records[0].commands + CommandsOf(records[1..])
  }

  /**
   * What `set_key_config` does to key i: it is programmed iff it was already or some entry names
   * it; the naming entries' commands are appended in list order; its master colour is the last
   * naming entry's; a key no entry names is unchanged.
   */
  lemma {:induction false} ConfiguredKey(p: PadState, records: seq<KeyRecord>, i: int)
    requires WellFormed(p) && RecordsInGrid(records) && 0 <= i < KeyCount
    decreases |records|
    ensures var named := Naming(records, i);
            ProgrammedAll(p, records).keys[i] ==
              p.keys[i].(programmed := p.keys[i].programmed || named != [],
                         commands := p.keys[i].commands + CommandsOf(named),
                         masterColour := if named == [] then p.keys[i].masterColour
                                         else named[|named| - 1].masterColour)
    ensures Naming(records, i) == [] ==> ProgrammedAll(p, records).keys[i] == p.keys[i]
  {
    if records == [] {
      assert p.keys[i].commands + CommandsOf([]) == p.keys[i].commands;
    } else {
      var r := records[0];
      var q := Programmed(p, r);
      RecordsInGridTail(records);
      ConfiguredKey(q, records[1..], i);
      var rest := Naming(records[1..], i);
      if CoordinatesToIndex(r.x, r.y) == i {
        assert Naming(records, i) == [r] + rest;
        assert q.keys[i] == p.keys[i].(masterColour := r.masterColour, programmed := true,
                                         commands := p.keys[i].commands + r.commands);
        NamingFirst(p.keys[i], r, rest);
      } else {
        assert Naming(records, i) == rest;
        assert q.keys[i] == p.keys[i];
      }
    }
  }

  /** The induction step of ConfiguredKey for a key the first entry names, on the key alone. */
  lemma NamingFirst(k: KeyState, r: KeyRecord, rest: seq<KeyRecord>)
    ensures var k1 := k.(masterColour := r.masterColour, programmed := true, commands := k.commands + r.commands);
            var named := [r] + rest;
            k1.(programmed := k1.programmed || rest != [],
                commands := k1.commands + CommandsOf(rest),
                masterColour := if rest == [] then k1.masterColour else rest[|rest| - 1].masterColour)
            == k.(programmed := k.programmed || named != [],
                  commands := k.commands + CommandsOf(named),
                  masterColour := named[|named| - 1].masterColour)
  {
    var named := [r] + rest;
    assert named[1..] == rest;
    assert CommandsOf(named) == r.commands + CommandsOf(rest);
    assert (k.commands + r.commands) + CommandsOf(rest) == k.commands + (r.commands + CommandsOf(rest));
  }

  /** ConfiguredKey for every key at once. */
  lemma ConfiguredKeys(p: PadState, records: seq<KeyRecord>)
    requires WellFormed(p) && RecordsInGrid(records)
    ensures forall i :: 0 <= i < KeyCount ==>
              var named := Naming(records, i);
              ProgrammedAll(p, records).keys[i] ==
                p.keys[i].(programmed := p.keys[i].programmed || named != [],
                           commands := p.keys[i].commands + CommandsOf(named),
                           masterColour := if named == [] then p.keys[i].masterColour
                                           else named[|named| - 1].masterColour)
  {
    forall i | 0 <= i < KeyCount
      ensures var named := Naming(records, i);
              ProgrammedAll(p, records).keys[i] ==
                p.keys[i].(programmed := p.keys[i].programmed || named != [],
                           commands := p.keys[i].commands + CommandsOf(named),
                           masterColour := if named == [] then p.keys[i].masterColour
                                           else named[|named| - 1].masterColour)
    {
      ConfiguredKey(p, records, i);
    }
  }

  // ---------------------------------------------------------------- lighting

  /** `update`: copy every key's pixel tuple into the pixel buffer; nothing else changes. */
  function Updated(p: PadState): (q: PadState)
    requires |p.keys| == |p.pixels|
    ensures Synced(q) && q == p.(pixels := q.pixels)
    ensures WellFormed(p) ==> WellFormed(q)
    ensures Consistent(p) ==> Consistent(q)
  {
    p.(pixels := seq(|p.keys|, i requires 0 <= i < |p.keys| => PixelOf(p.keys[i])))
  }

  /** Repainting a painted board changes nothing. */
  lemma UpdateIdempotent(p: PadState)
    requires |p.keys| == |p.pixels|
    ensures Updated(Updated(p)) == Updated(p)
  {
  }

  /** The `colour` setter before its repaint: the ambient colour and every key's colour become `c`. */
  function Recoloured(p: PadState, c: Rgb): PadState
    requires |p.keys| == KeyCount
  {
    p.(colour := c, keys := seq(KeyCount, i requires 0 <= i < KeyCount => p.keys[i].(colour := c)))
  }

  /** The keypad `colour` setter: propagate to all 16 keys, then repaint. */
  function WithColour(p: PadState, c: Rgb): (q: PadState)
    requires WellFormed(p)
    ensures WellFormed(q) && Synced(q) && q.colour == c
    ensures forall i :: 0 <= i < KeyCount ==> q.keys[i] == p.keys[i].(colour := c)
    ensures q == p.(colour := c, keys := q.keys, pixels := q.pixels)
    ensures Consistent(p) ==> Consistent(q)
  {
    Updated(Recoloured(p, c))
  }

  /** The `brightness` setter before its repaint. */
  function Rebrightened(p: PadState, v: real): PadState
    requires |p.keys| == KeyCount
  {
    p.(brightness := v, keys := seq(KeyCount, i requires 0 <= i < KeyCount => p.keys[i].(brightness := v)))
  }

  /**
   * The keypad `brightness` setter: a value in [0.0, 1.0] goes to the keypad and all 16 keys and
   * is repainted; any other value is rejected (ValueError) and nothing changes.
   */
  function WithBrightness(p: PadState, v: real): (q: PadState)
    requires WellFormed(p)
    ensures WellFormed(q) && (Consistent(p) ==> Consistent(q))
    ensures !InUnit(v) ==> q == p
    ensures InUnit(v) ==> Synced(q) && q.brightness == v && q == p.(brightness := v, keys := q.keys, pixels := q.pixels)
    ensures InUnit(v) ==> forall i :: 0 <= i < KeyCount ==> q.keys[i] == p.keys[i].(brightness := v)
  {
    if InUnit(v) then Updated(Rebrightened(p, v)) else p
  }

  /** The `default_brightness` setter: range-checked like `brightness`, but not propagated. */
  function WithDefaultBrightness(p: PadState, v: real): (q: PadState)
    requires WellFormed(p)
    ensures WellFormed(q)
    ensures q == if InUnit(v) then p.(defaultBrightness := v) else p
  {
    if InUnit(v) then p.(defaultBrightness := v) else p
  }

  /** `clear` before its repaint. */
  function Blanked(p: PadState): PadState
    requires |p.keys| == KeyCount
  {
    p.(colour := Black, brightness := 0.5, toggled := false, toggledKey := None,
       keys := seq(KeyCount, i requires 0 <= i < KeyCount =>
                     p.keys[i].(colour := Black, brightness := 0.0, toggled := false)))
  }

  /**
   * `clear`: every key black at brightness 0.0 and untoggled, the keypad black at brightness
   * 0.5 with no toggled key; the defaults and everything else are kept.
   */
  function Cleared(p: PadState): (q: PadState)
    requires WellFormed(p)
    ensures WellFormed(q) && Synced(q) && Consistent(q) && !q.toggled && q.toggledKey.None?
    ensures q.colour == Black && q.brightness == 0.5
    ensures q.defaultColour == p.defaultColour && q.defaultBrightness == p.defaultBrightness
    ensures forall i :: 0 <= i < KeyCount ==>
              q.keys[i] == p.keys[i].(colour := Black, brightness := 0.0, toggled := false)
  {
    Updated(Blanked(p))
  }

  /** `reset` before its repaint. */
  function Restored(p: PadState): PadState
    requires |p.keys| == KeyCount
  {
    p.(colour := p.defaultColour, brightness := p.defaultBrightness, toggled := false, toggledKey := None,
       keys := seq(KeyCount, i requires 0 <= i < KeyCount =>
                     p.keys[i].(colour := p.keys[i].masterColour, brightness := p.defaultBrightness,
                                toggled := false)))
  }

  /**
   * `reset`: every key back to its master colour at the default brightness and untoggled; the
   * keypad back to its default colour and brightness with no toggled key.
   */
  function ResetAll(p: PadState): (q: PadState)
    requires WellFormed(p)
    ensures WellFormed(q) && Synced(q) && Consistent(q) && !q.toggled && q.toggledKey.None?
    ensures q.colour == p.defaultColour && q.brightness == p.defaultBrightness
    ensures q.defaultColour == p.defaultColour && q.defaultBrightness == p.defaultBrightness
    ensures forall i :: 0 <= i < KeyCount ==>
              q.keys[i] == p.keys[i].(colour := p.keys[i].masterColour,
                                      brightness := p.defaultBrightness, toggled := false)
  {
    Updated(Restored(p))
  }

  /**
   * `KeypadKey.reset`: one key to the keypad's default colour and brightness, untoggled, then a
   * repaint. The keypad's own toggle fields are left alone, so resetting the toggled key breaks
   * the toggle invariant; resetting any other key keeps it.
   */
  function ResetKey(p: PadState, i: int): (q: PadState)
    requires WellFormed(p) && 0 <= i < KeyCount
    ensures WellFormed(q) && Synced(q)
    ensures q.keys == p.keys[i := p.keys[i].(colour := p.defaultColour, brightness := p.defaultBrightness, toggled := false)]
    ensures Consistent(p) && !p.keys[i].toggled ==> Consistent(q)
  {
    Updated(p.(keys := p.keys[i := p.keys[i].(colour := p.defaultColour, brightness := p.defaultBrightness,
                                               toggled := false)]))
  }

  /** Resetting the toggled key alone leaves the keypad toggled with no toggled key. */
  lemma ResetOfSelectedKeyBreaksToggle(p: PadState, i: int)
    requires WellFormed(p) && Consistent(p) && 0 <= i < KeyCount && p.keys[i].toggled
    ensures !Consistent(ResetKey(p, i))
  {
    var q := ResetKey(p, i);
    var c := p.toggledKey.value;
    assert i == CoordinatesToIndex(c.0, c.1);
    assert q.toggledKey == p.toggledKey && !q.keys[i].toggled;
  }

  /** Key i's colour set to c, nothing repainted. */
  function Recolour(p: PadState, i: int, c: Rgb): PadState
    requires 0 <= i < |p.keys|
  {
    p.(keys := p.keys[i := p.keys[i].(colour := c)])
  }

  /** Recolouring a key on a repainted board and repainting again is one recolour and repaint. */
  lemma RecolourAfterRepaint(p: PadState, i: int, c1: Rgb, c2: Rgb)
    requires |p.keys| == |p.pixels| && 0 <= i < |p.keys|
    ensures Updated(Recolour(Updated(Recolour(p, i, c1)), i, c2)) == Updated(Recolour(p, i, c2))
  {
  }

  /** `fade_to_colour` on key i: the key is left at the fade's last frame, and the board is repainted. */
  function Faded(p: PadState, i: int, target: Rgb): (q: PadState)
    requires WellFormed(p) && 0 <= i < KeyCount
    ensures WellFormed(q) && Synced(q) && (Consistent(p) ==> Consistent(q))
    ensures q.keys == p.keys[i := p.keys[i].(colour := Fade.LastFrame(p.keys[i].colour, target))]
    ensures q == p.(keys := q.keys, pixels := q.pixels)
  {
    Updated(Recolour(p, i, Fade.LastFrame(p.keys[i].colour, target)))
  }

  // ---------------------------------------------------------------- edges

  /** `load_pressed_keys`: every key's press fields are advanced by the mask; nothing else changes. */
  function SensedAll(p: PadState, mask: bv16): (q: PadState)
    requires |p.keys| == KeyCount
    ensures |q.keys| == KeyCount && q == p.(keys := q.keys)
    ensures forall i :: 0 <= i < KeyCount ==>
              q.keys[i] == p.keys[i].(press := Sensed(p.keys[i].press, KeyDown(mask, i)))
    ensures WellFormed(p) ==> WellFormed(q)
    ensures Consistent(p) ==> Consistent(q)
  {
    p.(keys := seq(KeyCount, i requires 0 <= i < KeyCount =>
                     p.keys[i].(press := Sensed(p.keys[i].press, KeyDown(mask, i)))))
  }

  // ---------------------------------------------------------------- toggle and commands

  /** The repaint loop of `toggle_on`: every key but `current` painted `master` below `limit`, `fallback` from there on. */
  function Highlighted(ks: seq<KeyState>, current: int, limit: int, master: Rgb, fallback: Rgb): (r: seq<KeyState>)
    ensures |r| == |ks|
    ensures forall j :: 0 <= j < |ks| ==>
              r[j] == if j == current then ks[j] else ks[j].(colour := if j < limit then master else fallback)
  {
    seq(|ks|, j requires 0 <= j < |ks| =>
          if j == current then ks[j] else ks[j].(colour := if j < limit then master else fallback))
  }

  /** `toggle_on` before its repaint (the brightness has passed its range check). */
  function Selected(p: PadState, i: int, b: real): (q: PadState)
    requires |p.keys| == KeyCount && 0 <= i < KeyCount
    ensures |q.keys| == KeyCount
    ensures q == p.(toggled := true, toggledKey := Some((p.keys[i].x, p.keys[i].y)), keys := q.keys)
    ensures WellFormed(p) && InUnit(b) ==> WellFormed(q)
    ensures q.keys[i] == p.keys[i].(colour := p.keys[i].masterColour, brightness := b, toggled := true)
    ensures forall j :: 0 <= j < KeyCount && j != i ==>
              q.keys[j] == p.keys[j].(colour := if j < SlotMapper.HighlightLimit(i, |p.keys[i].commands|)
                                                then p.keys[i].masterColour else p.defaultColour)
  {
    var key := p.keys[i];
    var limit := SlotMapper.HighlightLimit(i, |key.commands|);
    p.(toggled := true, toggledKey := Some((key.x, key.y)),
       keys := Highlighted(p.keys[i := key.(colour := key.masterColour, brightness := b, toggled := true)],
                           i, limit, key.masterColour, p.defaultColour))
  }

  /**
   * `toggle_on(key, colour, brightness)` for the key at index i. The colour argument (or the
   * default colour) is written to the key first; an out-of-range brightness then raises, leaving
   * only that write. Otherwise the key is toggled at brightness b in its master colour, every
   * other key whose command slot exists is painted in that master colour and the rest in the
   * default colour, and the keypad records the key; only the toggled key's brightness and
   * toggle flag change.
   */
  function ToggledOn(p: PadState, i: int, colour: Option<Rgb>, brightness: Option<real>): (q: PadState)
    requires WellFormed(p) && 0 <= i < KeyCount
    ensures WellFormed(q)
    ensures !InUnit(brightness.GetOr(p.defaultBrightness)) ==>
              q == p.(keys := p.keys[i := p.keys[i].(colour := colour.GetOr(p.defaultColour))])
    ensures InUnit(brightness.GetOr(p.defaultBrightness)) ==>
              && Synced(q) && q.toggled && q.toggledKey == Some(IndexToCoordinates(i))
              && q.colour == p.colour && q.brightness == p.brightness
              && q.defaultColour == p.defaultColour && q.defaultBrightness == p.defaultBrightness
              && q.keys[i] == p.keys[i].(colour := p.keys[i].masterColour,
                                         brightness := brightness.GetOr(p.defaultBrightness), toggled := true)
              && forall j :: 0 <= j < KeyCount && j != i ==>
                   q.keys[j] == p.keys[j].(colour :=
                     if SlotMapper.Slot(j, i) < |p.keys[i].commands| then p.keys[i].masterColour
                     else p.defaultColour)
    ensures InUnit(brightness.GetOr(p.defaultBrightness)) && Consistent(p) && !p.toggled ==> Consistent(q)
  {
    var c := colour.GetOr(p.defaultColour);
    var b := brightness.GetOr(p.defaultBrightness);
    var coloured := p.(keys := p.keys[i := p.keys[i].(colour := c)]);
    if !InUnit(b) then coloured
    else
      SlotMapper.HighlightMatchesSlotEverywhere(i, |p.keys[i].commands|);
      Updated(Selected(coloured, i, b))
  }

  /**
   * `run_command(key)` for the key at index `pressed`: the pressed key's slot relative to the
   * toggled key selects a command of the toggled key; a slot past its last command runs nothing.
   */
  function CommandRun(p: PadState, pressed: int, keycodes: map<string, Keycode>): (d: Dispatch)
    requires Consistent(p) && p.toggled && 0 <= pressed < KeyCount
    ensures d == Nothing ||
            exists c :: c in p.keys[ToggledIndex(p)].commands && d == Dispatched(c.actions, keycodes)
    ensures p.keys[ToggledIndex(p)].commands == [] ==> d == Nothing
  {
    var k := ToggledIndex(p);
    var slot := SlotMapper.Slot(pressed, k);
    if slot < |p.keys[k].commands| then
      assert p.keys[k].commands[slot] in p.keys[k].commands;
      Dispatched(p.keys[k].commands[slot].actions, keycodes)
    else Nothing
  }

  /**
   * While key k is toggled, pressing another key runs a command exactly when that key is lit
   * in k's master colour by `toggle_on`, and the command run is the one its slot names.
   */
  lemma RunsExactlyTheHighlightedKeys(p: PadState, pressed: int, keycodes: map<string, Keycode>)
    requires Consistent(p) && p.toggled && 0 <= pressed < KeyCount && pressed != ToggledIndex(p)
    ensures var k := ToggledIndex(p);
            var n := |p.keys[k].commands|;
            && (pressed < SlotMapper.HighlightLimit(k, n) ==>
                  CommandRun(p, pressed, keycodes) ==
                  Dispatched(p.keys[k].commands[SlotMapper.Slot(pressed, k)].actions, keycodes))
            && (pressed >= SlotMapper.HighlightLimit(k, n) ==> CommandRun(p, pressed, keycodes) == Nothing)
  {
    SlotMapper.HighlightMatchesSlot(pressed, ToggledIndex(p), |p.keys[ToggledIndex(p)].commands|);
  }

  // ---------------------------------------------------------------- one poll (code.py)

  /**
   * The body of the poll loop for key i: a key without a fresh press does nothing; otherwise,
   * while another key is toggled, run its command; if it is the toggled key, clear; if the
   * keypad is neutral and the key is programmed, toggle it on at brightness 1.0.
   */
  function Handle(p: PadState, i: int, keycodes: map<string, Keycode>): (t: Turn)
    requires WellFormed(p) && Consistent(p) && 0 <= i < KeyCount
    ensures WellFormed(t.pad) && Consistent(t.pad)
    ensures forall j :: 0 <= j < KeyCount ==> t.pad.keys[j].press == p.keys[j].press
    ensures Synced(p) ==> Synced(t.pad)
  {
    var key := p.keys[i];
    if !key.press.Fresh() then Turn(p, Nothing)
    else if p.toggled && !key.toggled then Turn(p, CommandRun(p, i, keycodes))
    else if key.toggled then Turn(Cleared(p), Nothing)
    else if key.programmed then Turn(ToggledOn(p, i, None, Some(1.0)), Nothing)
    else Turn(p, Nothing)
  }

  /** The poll loop over keys 0 .. count-1 in index order; a failed command stops the loop. */
  function HandledUpTo(p: PadState, count: int, keycodes: map<string, Keycode>): (t: Turn)
    requires WellFormed(p) && Consistent(p) && 0 <= count <= KeyCount
    decreases count
    ensures WellFormed(t.pad) && Consistent(t.pad)
    ensures forall j :: 0 <= j < KeyCount ==> t.pad.keys[j].press == p.keys[j].press
    ensures Synced(p) ==> Synced(t.pad)
  {
    if count == 0 then Turn(p, Nothing)
    else
      var before := HandledUpTo(p, count - 1, keycodes);
      if !before.dispatch.completed then before
      else
        var now := Handle(before.pad, count - 1, keycodes);
        Turn(now.pad, Dispatch(before.dispatch.events + now.dispatch.events, now.dispatch.completed))
  }

  /**
   * One pass of code.py's `while True` loop: read the mask, advance every key's press fields,
   * then handle the keys in index order, each seeing what earlier keys changed.
   */
  function Poll(p: PadState, lo: bv8, hi: bv8, keycodes: map<string, Keycode>): (t: Turn)
    requires WellFormed(p) && Consistent(p)
    ensures WellFormed(t.pad) && Consistent(t.pad)
    ensures forall i :: 0 <= i < KeyCount ==>
              t.pad.keys[i].press == Sensed(p.keys[i].press, KeyDown(Mask(lo, hi), i))
  {
    HandledUpTo(SensedAll(p, Mask(lo, hi)), KeyCount, keycodes)
  }

  /** A key without a fresh press (released, or still held) changes nothing and emits nothing. */
  lemma OnlyFreshPressesAct(p: PadState, i: int, keycodes: map<string, Keycode>)
    requires WellFormed(p) && Consistent(p) && 0 <= i < KeyCount && !p.keys[i].press.Fresh()
    ensures Handle(p, i, keycodes) == Turn(p, Nothing)
  {
  }

  /** While toggled, a fresh press of another key runs a command and keeps the toggle state. */
  lemma PressWhileSelecting(p: PadState, i: int, keycodes: map<string, Keycode>)
    requires WellFormed(p) && Consistent(p) && 0 <= i < KeyCount && p.keys[i].press.Fresh()
    requires p.toggled && !p.keys[i].toggled
    ensures Handle(p, i, keycodes) == Turn(p, CommandRun(p, i, keycodes))
    ensures Handle(p, i, keycodes).pad.toggledKey == p.toggledKey
  {
  }

  /** A fresh press of the toggled key clears the board back to neutral. */
  lemma PressOfSelectedKey(p: PadState, i: int, keycodes: map<string, Keycode>)
    requires WellFormed(p) && Consistent(p) && 0 <= i < KeyCount && p.keys[i].press.Fresh()
    requires p.keys[i].toggled
    ensures Handle(p, i, keycodes) == Turn(Cleared(p), Nothing)
    ensures !Handle(p, i, keycodes).pad.toggled && Handle(p, i, keycodes).pad.toggledKey.None?
  {
  }

  /**
   * While neutral, a fresh press toggles a programmed key on at brightness 1.0 and selects it;
   * an unprogrammed key changes nothing.
   */
  lemma PressWhileNeutral(p: PadState, i: int, keycodes: map<string, Keycode>)
    requires WellFormed(p) && Consistent(p) && 0 <= i < KeyCount && p.keys[i].press.Fresh()
    requires !p.toggled
    ensures p.keys[i].programmed ==>
              && Handle(p, i, keycodes) == Turn(ToggledOn(p, i, None, Some(1.0)), Nothing)
              && Handle(p, i, keycodes).pad.toggledKey == Some(IndexToCoordinates(i))
              && Handle(p, i, keycodes).pad.keys[i].brightness == 1.0
    ensures !p.keys[i].programmed ==> Handle(p, i, keycodes) == Turn(p, Nothing)
  {
  }

  /** Once a command has failed, the rest of the keys are not handled. */
  lemma {:induction false} HandledStaysStopped(p: PadState, count: int, later: int, keycodes: map<string, Keycode>)
    requires WellFormed(p) && Consistent(p) && 0 <= count <= later <= KeyCount
    requires !HandledUpTo(p, count, keycodes).dispatch.completed
    decreases later
    ensures HandledUpTo(p, later, keycodes) == HandledUpTo(p, count, keycodes)
  {
    if later > count {
      HandledStaysStopped(p, count, later - 1, keycodes);
    }
  }

  // ---------------------------------------------------------------- start-up

  /** Python list indexing of the 16 keys: negative indices count from the end, others raise IndexError. */
  function KeyAt(v: int): (i: Option<int>)
    ensures i.Some? <==> -KeyCount <= v < KeyCount
    ensures i.Some? ==> 0 <= i.value < KeyCount && (i.value == v || i.value == v + KeyCount)
    ensures 0 <= v < KeyCount ==> i == Some(v)
  {
    if 0 <= v < KeyCount then Some(v) else if -KeyCount <= v < 0 then Some(v + KeyCount) else None
  }

  /** `events` is `n` pauses of `delay` seconds: what `time.sleep(delay)` once per entry leaves. */
  predicate Pauses(events: seq<Event>, n: int, delay: real) {
    |events| == n && forall k :: 0 <= k < |events| ==> events[k] == Sleep(delay)
  }

  /**
   * The loop of `_pattern_load` over the first `count` pattern entries: fade the key to `colour`,
   * then pause `delay`. It completes iff every entry is a valid list index; only key colours change.
   */
  function FadesDone(p: PadState, colour: Rgb, pattern: seq<int>, count: int, delay: real): (t: Turn)
    requires WellFormed(p) && Synced(p) && 0 <= count <= |pattern|
    decreases count
    ensures WellFormed(t.pad) && Synced(t.pad)
    ensures t.dispatch.completed <==> forall j :: 0 <= j < count ==> KeyAt(pattern[j]).Some?
    ensures t.dispatch.completed ==> Pauses(t.dispatch.events, count, delay)
  {
    if count == 0 then Turn(p, Nothing)
    else
      var before := FadesDone(p, colour, pattern, count - 1, delay);
      if !before.dispatch.completed then before
      else match KeyAt(pattern[count - 1])
        case None => Turn(before.pad, Dispatch(before.dispatch.events, false))
        case Some(i) =>
          Turn(Faded(before.pad, i, colour), Dispatch(before.dispatch.events + [Sleep(delay)], true))
  }

  /** One more entry of the loop of `_pattern_load`, after the entries before it all completed. */
  lemma FadesStep(p: PadState, colour: Rgb, pattern: seq<int>, j: int, delay: real)
    requires WellFormed(p) && Synced(p) && 0 <= j < |pattern|
    requires FadesDone(p, colour, pattern, j, delay).dispatch.completed
    ensures var before := FadesDone(p, colour, pattern, j, delay);
            FadesDone(p, colour, pattern, j + 1, delay) ==
              match KeyAt(pattern[j])
              case None => Turn(before.pad, Dispatch(before.dispatch.events, false))
              case Some(i) => Turn(Faded(before.pad, i, colour), Dispatch(before.dispatch.events + [Sleep(delay)], true))
  {
  }

  /** Only the key colours and the pixels differ between two boards. */
  predicate OnlyColoursDiffer(p: PadState, q: PadState) {
    && q == p.(keys := q.keys, pixels := q.pixels) && |q.keys| == |p.keys|
    && forall i :: 0 <= i < |p.keys| ==> q.keys[i] == p.keys[i].(colour := q.keys[i].colour)
  }

  lemma OnlyColoursDifferTransitive(p: PadState, q: PadState, r: PadState)
    requires OnlyColoursDiffer(p, q) && OnlyColoursDiffer(q, r)
    ensures OnlyColoursDiffer(p, r)
  {
  }

  /** The fades of `_pattern_load` change key colours only, so the toggle invariant survives them. */
  lemma {:induction false} FadesChangeOnlyColours(p: PadState, colour: Rgb, pattern: seq<int>, count: int, delay: real)
    requires WellFormed(p) && Synced(p) && 0 <= count <= |pattern|
    decreases count
    ensures OnlyColoursDiffer(p, FadesDone(p, colour, pattern, count, delay).pad)
    ensures Consistent(p) ==> Consistent(FadesDone(p, colour, pattern, count, delay).pad)
  {
    if count > 0 {
      FadesChangeOnlyColours(p, colour, pattern, count - 1, delay);
      var before := FadesDone(p, colour, pattern, count - 1, delay);
      if before.dispatch.completed && KeyAt(pattern[count - 1]).Some? {
        var q := Faded(before.pad, KeyAt(pattern[count - 1]).value, colour);
        assert OnlyColoursDiffer(before.pad, q);
        OnlyColoursDifferTransitive(p, before.pad, q);
      }
    }
  }

  /** Once an entry has raised IndexError, later entries are not faded. */
  lemma {:induction false} FadesStayStopped(p: PadState, colour: Rgb, pattern: seq<int>, count: int, later: int, delay: real)
    requires WellFormed(p) && Synced(p) && 0 <= count <= later <= |pattern|
    requires !FadesDone(p, colour, pattern, count, delay).dispatch.completed
    decreases later
    ensures FadesDone(p, colour, pattern, later, delay) == FadesDone(p, colour, pattern, count, delay)
  {
    if later > count {
      FadesStayStopped(p, colour, pattern, count, later - 1, delay);
    }
  }

  /**
   * `_pattern_load(colour, pattern, delay)`: black out the board, make `colour` the default,
   * fade each listed key to it, then `reset`. Completing leaves the board neutral with every key
   * at its master colour and the default brightness.
   */
  function PatternLoaded(p: PadState, colour: Rgb, pattern: seq<int>, delay: real): (t: Turn)
    requires WellFormed(p)
    ensures WellFormed(t.pad)
    ensures t.dispatch.completed <==> forall j :: 0 <= j < |pattern| ==> KeyAt(pattern[j]).Some?
    ensures t.dispatch.completed ==>
              && Pauses(t.dispatch.events, |pattern|, delay)
              && Synced(t.pad) && Consistent(t.pad) && !t.pad.toggled
              && t.pad.colour == t.pad.defaultColour == colour && t.pad.brightness == p.defaultBrightness
              && forall i :: 0 <= i < KeyCount ==>
                   t.pad.keys[i] == p.keys[i].(colour := p.keys[i].masterColour,
                                               brightness := p.defaultBrightness, toggled := false)
  {
    var blank := WithColour(p, Black).(defaultColour := colour);
    var faded := FadesDone(blank, colour, pattern, |pattern|, delay);
    FadesChangeOnlyColours(blank, colour, pattern, |pattern|, delay);
    if faded.dispatch.completed then Turn(ResetAll(faded.pad), faded.dispatch) else faded
  }

  /** `load`: a pattern name is looked up (an unknown name is a KeyError), a list is used as given. */
  function Loaded(p: PadState, choice: LoadChoice, delay: real): (t: Turn)
    requires WellFormed(p)
    ensures WellFormed(t.pad)
    ensures choice.Named? && choice.name !in LoadPatterns ==> t.pad == p && !t.dispatch.completed
    ensures choice.Explicit? ==>
              (t.dispatch.completed <==> forall j :: 0 <= j < |choice.indices| ==> KeyAt(choice.indices[j]).Some?)
    ensures t.dispatch.completed ==>
              forall i :: 0 <= i < KeyCount ==>
                && t.pad.keys[i].programmed == p.keys[i].programmed
                && t.pad.keys[i].commands == p.keys[i].commands
                && t.pad.keys[i].masterColour == p.keys[i].masterColour
  {
    match choice
    case Named(name) =>
      if name in LoadPatterns then PatternLoaded(p, p.defaultColour, LoadPatterns[name], delay)
      else Turn(p, Dispatch([], false))
    case Explicit(indices) => PatternLoaded(p, p.defaultColour, indices, delay)
  }

  /** Every named pattern loads to completion: one pause per key, and a neutral, painted board. */
  lemma NamedPatternsLoad(p: PadState, name: string, delay: real)
    requires WellFormed(p) && name in LoadPatterns
    ensures Loaded(p, Named(name), delay).dispatch.completed
    ensures Pauses(Loaded(p, Named(name), delay).dispatch.events, KeyCount, delay)
    ensures Consistent(Loaded(p, Named(name), delay).pad) && !Loaded(p, Named(name), delay).pad.toggled
  {
    LoadPatternsArePermutations();
    var pattern := LoadPatterns[name];
    forall j | 0 <= j < |pattern| ensures KeyAt(pattern[j]).Some? {
      assert 0 <= pattern[j] < KeyCount;
    }
  }

  /** `__init__`: build the keys, apply the key configuration, run the load animation. */
  function Started(colour: Rgb, brightness: real, records: seq<KeyRecord>, choice: LoadChoice, delay: real): (t: Turn)
    requires InUnit(brightness) && RecordsInGrid(records)
    ensures WellFormed(t.pad)
    ensures t.dispatch.completed ==> Consistent(t.pad) && Synced(t.pad) && !t.pad.toggled
    ensures t.dispatch.completed ==>
              forall i :: 0 <= i < KeyCount ==>
                var named := Naming(records, i);
                && (t.pad.keys[i].programmed <==> named != [])
                && t.pad.keys[i].commands == CommandsOf(named)
                && t.pad.keys[i].masterColour == if named == [] then colour else named[|named| - 1].masterColour
  {
    var initial := Initial(colour, brightness);
    ConfiguredKeys(initial, records);
    assert forall i :: 0 <= i < KeyCount ==> initial.keys[i].commands + CommandsOf(Naming(records, i)) == CommandsOf(Naming(records, i));
    Loaded(ProgrammedAll(initial, records), choice, delay)
  }
}
