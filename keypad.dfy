/**
 * The keypad as the source builds it: a PimoroniKeypad object owning sixteen KeypadKey objects
 * and a sixteen-entry pixel buffer, all updated in place. Every method is proved to leave the
 * objects in the state the matching function of module Board computes from the state before.
 */
module Keypad {
  import opened Values
  import opened Grid
  import opened Edges
  import SlotMapper
  import opened Dispatch
  import Fade
  import opened Board

  /** One key. Its back-reference to the keypad is replaced by passing the keypad's default colour. */
  class KeypadKey {
    var x: int
    var y: int
    var colour: Rgb
    var masterColour: Rgb
    var brightness: real
    var isToggledOn: bool
    var isPressed: bool
    var stillPressed: bool
    var isProgrammed: bool
    var commands: seq<Command>

    /** The key's fields as a value. */
    function State(): KeyState
      reads this
    {
      KeyState(x, y, colour, masterColour, brightness, isToggledOn,
               PressState(isPressed, stillPressed), isProgrammed, commands)
    }

    /**
     * `KeypadKey(keypad, x, y, colour, brightness, master_colour)`; the setters' range checks on
     * x, y and brightness are preconditions here.
     */
    constructor (x: int, y: int, colour: Option<Rgb>, brightness: real, masterColour: Option<Rgb>,
                 padDefault: Rgb)
      requires 0 <= x <= 15 && 0 <= y <= 15 && InUnit(brightness)
      ensures State() == NewKey(x, y, colour, brightness, masterColour, padDefault)
    {
      this.x := x;
      this.y := y;
      this.colour := colour.GetOr(padDefault);
      this.masterColour := this.colour;
      this.brightness := brightness;
      isToggledOn := false;
      isPressed := false;
      stillPressed := false;
      isProgrammed := false;
      commands := [];
    }

    /** The `x` setter: a value outside 0..15 is rejected (ValueError) and nothing changes. */
    method SetX(value: int) returns (ok: bool)
      modifies this
      ensures ok <==> 0 <= value <= 15
      ensures State() == if ok then old(State()).(x := value) else old(State())
    {
      ok := 0 <= value <= 15;
      if ok {
        x := value;
      }
    }

    /** The `y` setter: a value outside 0..15 is rejected (ValueError) and nothing changes. */
    method SetY(value: int) returns (ok: bool)
      modifies this
      ensures ok <==> 0 <= value <= 15
      ensures State() == if ok then old(State()).(y := value) else old(State())
    {
      ok := 0 <= value <= 15;
      if ok {
        y := value;
      }
    }

    /** The `brightness` setter: a value outside [0.0, 1.0] is rejected (ValueError) and nothing changes. */
    method SetBrightness(value: real) returns (ok: bool)
      modifies this
      ensures ok <==> InUnit(value)
      ensures State() == if ok then old(State()).(brightness := value) else old(State())
    {
      ok := InUnit(value);
      if ok {
        brightness := value;
      }
    }

    /** The `colour` setter: `None` stands for the keypad's default colour. */
    method SetColour(value: Option<Rgb>, padDefault: Rgb)
      modifies this
      ensures State() == old(State()).(colour := value.GetOr(padDefault))
    {
      colour := value.GetOr(padDefault);
    }

    /** The `master_colour` setter: `None` stands for the key's current colour. */
    method SetMasterColour(value: Option<Rgb>)
      modifies this
      ensures State() == old(State()).(masterColour := value.GetOr(old(colour)))
    {
      masterColour := value.GetOr(colour);
    }

    /** The brightness setter after its range check, then the toggle flag, as `toggle_on` writes them. */
    method MarkToggled(b: real)
      modifies this
      ensures State() == old(State()).(brightness := b, toggled := true)
    {
      brightness := b;
      isToggledOn := true;
    }

    /** The three writes the keypad's `reset` and `clear` loops make to each key. */
    method Untoggle(c: Rgb, b: real)
      modifies this
      ensures State() == old(State()).(colour := c, brightness := b, toggled := false)
    {
      colour := c;
      brightness := b;
      isToggledOn := false;
    }

    /** `pixel_tuple`: what this key shows in the pixel buffer. */
    function PixelTuple(): (p: Pixel)
      reads this
      ensures p == PixelOf(State())
    {
      Pixel(colour.red, colour.green, colour.blue, brightness)
    }

    /** `coordinates`. */
    function Coordinates(): (c: (int, int))
      reads this
      ensures c == (State().x, State().y)
    {
      (x, y)
    }

    /** `index`: for coordinates on the grid, the slot in 0..15 those coordinates name. */
    function Index(): (i: int)
      reads this
      ensures 0 <= x < 4 && 0 <= y < 4 ==> 0 <= i < KeyCount && IndexToCoordinates(i) == (x, y)
    {
      CoordinatesToIndex(x, y)
    }
  }

  /**
   * The keypad. Its methods write key fields directly (or through MarkToggled and Untoggle) where
   * the source goes through a key setter whose check cannot fail at that point (a colour, or a
   * brightness already in range); the one setter check that can fail there, the brightness in
   * `toggle_on`, is checked explicitly.
   */
  class PimoroniKeypad {
    const keys: seq<KeypadKey>
    const pixels: array<Pixel>
    var colour: Rgb
    var defaultColour: Rgb
    var brightness: real
    var defaultBrightness: real
    var isToggledOn: bool
    var toggledKey: Option<(int, int)>

    /** Sixteen distinct keys and a sixteen-entry pixel buffer. */
    predicate Shape() {
      && |keys| == KeyCount && pixels.Length == KeyCount
      && forall a, b :: 0 <= a < b < |keys| ==> keys[a] != keys[b]
    }

    function KeyStates(): (s: seq<KeyState>)
      reads keys
      ensures |s| == |keys| && forall i :: 0 <= i < |keys| ==> s[i] == keys[i].State()
    {
      seq(|keys|, i reads keys requires 0 <= i < |keys| => keys[i].State())
    }

    /** The whole keypad as a value. */
    function State(): PadState
      reads this, keys, pixels
    {
      PadState(KeyStates(), colour, defaultColour, brightness, defaultBrightness,
               isToggledOn, toggledKey, pixels[..])
    }

    predicate Valid()
      reads this, keys, pixels
    {
      Shape() && WellFormed(State())
    }

    /**
     * `__init__` up to the key configuration: the sixteen keys, row by row, at the configured
     * colour and brightness, and a dark pixel buffer.
     */
    constructor (colour: Rgb, brightness: real)
      requires InUnit(brightness)
      ensures Valid() && State() == Initial(colour, brightness)
      ensures fresh(pixels) && forall i :: 0 <= i < |keys| ==> fresh(keys[i])
    {
      var built: seq<KeypadKey> := [];
      for row := 0 to 4
        invariant |built| == 4 * row
        invariant forall i :: 0 <= i < |built| ==> fresh(built[i])
        invariant forall a, b :: 0 <= a < b < |built| ==> built[a] != built[b]
        invariant forall i :: 0 <= i < |built| ==>
                    built[i].State() == NewKey(i / 4, i % 4, None, brightness, None, colour)
      {
        for col := 0 to 4
          invariant |built| == 4 * row + col
          invariant forall i :: 0 <= i < |built| ==> fresh(built[i])
          invariant forall a, b :: 0 <= a < b < |built| ==> built[a] != built[b]
          invariant forall i :: 0 <= i < |built| ==>
                      built[i].State() == NewKey(i / 4, i % 4, None, brightness, None, colour)
        {
          var key := new KeypadKey(row, col, None, brightness, None, colour);
          built := built + [key];
        }
      }
      keys := built;
      pixels := new Pixel[KeyCount](_ => Dark);
      this.colour := colour;
      defaultColour := colour;
      this.brightness := brightness;
      defaultBrightness := brightness;
      isToggledOn := false;
      toggledKey := None;
      new;
      assert State().keys == Initial(colour, brightness).keys;
      assert State().pixels == Initial(colour, brightness).pixels;
    }

    /** `update`: copy every key's pixel tuple into the buffer. */
    method Update()
      requires Shape()
      modifies pixels
      ensures State() == Updated(old(State()))
    {
      for i := 0 to KeyCount
        invariant forall k :: 0 <= k < i ==> pixels[k] == keys[k].PixelTuple()
        invariant forall k :: i <= k < KeyCount ==> pixels[k] == old(pixels[k])
      {
        pixels[i] := keys[i].PixelTuple();
      }
      assert pixels[..] == Updated(old(State())).pixels;
    }
    /** The key in slot i of a valid keypad has index i. */
    lemma IndexOfSlot(i: int)
      requires Valid() && 0 <= i < KeyCount
      ensures keys[i].Index() == i
    {
      assert KeyStates()[i] == keys[i].State();
    }

    /** A key of a valid keypad sits at the index its own coordinates name. */
    lemma KeyAtOwnIndex(key: KeypadKey)
      requires Valid() && key in keys
      ensures 0 <= key.Index() < KeyCount && keys[key.Index()] == key
    {
      var i :| 0 <= i < |keys| && keys[i] == key;
      IndexOfSlot(i);
    }

    /** `get_key(x, y)`: the key in the slot (x, y) names, whose own index is that slot. */
    function GetKey(x: int, y: int): (key: KeypadKey)
      reads this, keys, pixels
      requires Valid() && 0 <= CoordinatesToIndex(x, y) < KeyCount
      ensures key in keys && key.Index() == CoordinatesToIndex(x, y)
      ensures 0 <= x < 4 && 0 <= y < 4 ==> key.x == x && key.y == y
    {
      assert KeyStates()[CoordinatesToIndex(x, y)] == keys[CoordinatesToIndex(x, y)].State();
      keys[CoordinatesToIndex(x, y)]
    }

    /** The keypad `colour` setter. */
    method SetColour(value: Rgb)
      requires Valid()
      modifies this, keys, pixels
      ensures Valid() && State() == WithColour(old(State()), value)
    {
      colour := value;
      for i := 0 to KeyCount
        modifies keys
        invariant forall k :: 0 <= k < i ==> keys[k].State() == old(keys[k].State()).(colour := value)
        invariant forall k :: i <= k < KeyCount ==> keys[k].State() == old(keys[k].State())
      {
        keys[i].colour := value;
      }
      assert KeyStates() == Recoloured(old(State()), value).keys;
      assert State() == Recoloured(old(State()), value);
      Update();
    }

    /** The keypad `brightness` setter; `ok` is false where the source raises ValueError. */
    method SetBrightness(value: real) returns (ok: bool)
      requires Valid()
      modifies this, keys, pixels
      ensures ok <==> InUnit(value)
      ensures Valid() && State() == WithBrightness(old(State()), value)
    {
      ok := InUnit(value);
      if !ok {
        return;
      }
      brightness := value;
      for i := 0 to KeyCount
        modifies keys
        invariant forall k :: 0 <= k < i ==> keys[k].State() == old(keys[k].State()).(brightness := value)
        invariant forall k :: i <= k < KeyCount ==> keys[k].State() == old(keys[k].State())
      {
        keys[i].brightness := value;
      }
      assert KeyStates() == Rebrightened(old(State()), value).keys;
      assert State() == Rebrightened(old(State()), value);
      Update();
    }

    /** The `default_colour` setter: no key changes. */
    method SetDefaultColour(value: Rgb)
      requires Valid()
      modifies this
      ensures Valid() && State() == old(State()).(defaultColour := value)
    {
      defaultColour := value;
    }

    /** The `default_brightness` setter; `ok` is false where the source raises ValueError. */
    method SetDefaultBrightness(value: real) returns (ok: bool)
      requires Valid()
      modifies this
      ensures ok <==> InUnit(value)
      ensures Valid() && State() == WithDefaultBrightness(old(State()), value)
    {
      ok := InUnit(value);
      if ok {
        defaultBrightness := value;
      }
    }

    /** `clear`. */
    method Clear()
      requires Valid()
      modifies this, keys, pixels
      ensures Valid() && State() == Cleared(old(State()))
    {
      colour := Black;
      brightness := 0.5;
      isToggledOn := false;
      toggledKey := None;
      BlankKeys();
      assert State() == Blanked(old(State()));
      Update();
    }

    /** The key loop of `clear`: every key black, at brightness 0.0, untoggled. */
    method BlankKeys()
      requires Shape()
      modifies keys
      ensures KeyStates() == seq(KeyCount, k requires 0 <= k < KeyCount =>
                                   old(KeyStates())[k].(colour := Black, brightness := 0.0, toggled := false))
    {
      for i := 0 to KeyCount
        invariant forall k :: 0 <= k < i ==>
                    keys[k].State() == old(keys[k].State()).(colour := Black, brightness := 0.0, toggled := false)
        invariant forall k :: i <= k < KeyCount ==> keys[k].State() == old(keys[k].State())
      {
        keys[i].Untoggle(Black, 0.0);
      }
    }

    /** `reset`. */
    method Reset()
      requires Valid()
      modifies this, keys, pixels
      ensures Valid() && State() == ResetAll(old(State()))
    {
      colour := defaultColour;
      brightness := defaultBrightness;
      isToggledOn := false;
      toggledKey := None;
      RestoreKeys(brightness);
      assert State() == Restored(old(State()));
      Update();
    }

    /** The key loop of `reset`: every key back to its master colour at brightness b, untoggled. */
    method RestoreKeys(b: real)
      requires Shape()
      modifies keys
      ensures KeyStates() == seq(KeyCount, k requires 0 <= k < KeyCount =>
                                   old(KeyStates())[k].(colour := old(KeyStates())[k].masterColour,
                                                        brightness := b, toggled := false))
    {
      for i := 0 to KeyCount
        invariant forall k :: 0 <= k < i ==>
                    keys[k].State() == old(keys[k].State()).(colour := old(keys[k].masterColour),
                                                             brightness := b, toggled := false)
        invariant forall k :: i <= k < KeyCount ==> keys[k].State() == old(keys[k].State())
      {
        keys[i].Untoggle(keys[i].masterColour, b);
      }
    }

    /** `KeypadKey.reset` on one of the keypad's keys, with the keypad repaint it ends with. */
    method ResetKey(key: KeypadKey)
      requires Valid() && key in keys
      modifies key, pixels
      ensures Valid() && State() == Board.ResetKey(old(State()), old(key.Index()))
    {
      KeyAtOwnIndex(key);
      ghost var i := key.Index();
      key.colour := defaultColour;
      key.brightness := defaultBrightness;
      key.isToggledOn := false;
      assert KeyStates() == old(State()).keys[i := old(key.State()).(colour := defaultColour,
                                                    brightness := defaultBrightness, toggled := false)];
      Update();
    }

    /** One entry of `set_key_config`: the master colour, the programmed flag, the commands appended in order. */
    method ProgramKey(r: KeyRecord)
      requires Valid() && 0 <= CoordinatesToIndex(r.x, r.y) < KeyCount
      modifies keys
      ensures Valid() && State() == Programmed(old(State()), r)
    {
      var key := GetKey(r.x, r.y);
      key.masterColour := r.masterColour;
      key.isProgrammed := true;
      for j := 0 to |r.commands|
        modifies key
        invariant key.State() == old(key.State()).(masterColour := r.masterColour, programmed := true,
                                                   commands := old(key.commands) + r.commands[..j])
      {
        key.commands := key.commands + [r.commands[j]];
      }
      assert r.commands[..|r.commands|] == r.commands;
      assert KeyStates() == Programmed(old(State()), r).keys;
    }

    /**
     * `load_pressed_keys` given the two bytes read from the IO expander: every key's press
     * fields advance by whether its bit is low; returns the keys.
     */
    method LoadPressedKeys(lo: bv8, hi: bv8) returns (result: seq<KeypadKey>)
      requires Valid()
      modifies keys
      ensures result == keys
      ensures Valid() && State() == SensedAll(old(State()), Mask(lo, hi))
    {
      var b := Mask(lo, hi);
      for index := 0 to KeyCount
        modifies keys
        invariant forall k :: 0 <= k < index ==>
                    keys[k].State() == old(keys[k].State()).(press := Sensed(old(keys[k].State()).press, KeyDown(b, k)))
        invariant forall k :: index <= k < KeyCount ==> keys[k].State() == old(keys[k].State())
      {
        var key := keys[index];
        if KeyDown(b, index) {
          if key.isPressed {
            key.stillPressed := true;
          } else {
            key.stillPressed := false;
          }
          key.isPressed := true;
        } else {
          key.stillPressed := false;
          key.isPressed := false;
        }
      }
      assert KeyStates() == SensedAll(old(State()), b).keys;
      result := keys;
    }
    /**
     * The repaint loop of `toggle_on`: every key but `current` takes `master` below `limit` and
     * the default colour from there on.
     */
    method Highlight(current: int, limit: int, master: Rgb)
      requires Shape() && 0 <= current < KeyCount
      modifies keys
      ensures KeyStates() == Highlighted(old(KeyStates()), current, limit, master, defaultColour)
    {
      for k := 0 to KeyCount
        invariant keys[current].State() == old(keys[current].State())
        invariant forall j :: 0 <= j < k && j != current ==>
                    keys[j].State() == old(keys[j].State()).(colour := if j < limit then master else defaultColour)
        invariant forall j :: k <= j < KeyCount && j != current ==> keys[j].State() == old(keys[j].State())
      {
        if k != current {
          if k < limit {
            keys[k].colour := master;
          } else {
            keys[k].colour := defaultColour;
          }
        }
      }
      assert KeyStates() == Highlighted(old(KeyStates()), current, limit, master, defaultColour);
    }

    /**
     * `toggle_on(key, colour, brightness)`; `ok` is false where the key's brightness setter
     * raises ValueError, after the key's colour has already been written.
     */
    method ToggleOn(key: KeypadKey, colour: Option<Rgb>, brightness: Option<real>) returns (ok: bool)
      requires Valid() && key in keys
      modifies this, keys, pixels
      ensures ok <==> InUnit(brightness.GetOr(old(defaultBrightness)))
      ensures Valid() && State() == ToggledOn(old(State()), old(key.Index()), colour, brightness)
    {
      KeyAtOwnIndex(key);
      ghost var i := key.Index();
      ghost var before := State();
      var c := colour.GetOr(defaultColour);
      var b := brightness.GetOr(defaultBrightness);
      key.colour := c;
      assert KeyStates() == Recolour(before, i, c).keys;
      ok := InUnit(b);
      if ok {
        Select(key, b);
      }
    }

    /**
     * The rest of `toggle_on` once the brightness has passed its check: the key is toggled at
     * brightness b, the keypad records it, the keys are repainted for its commands.
     */
    method Select(key: KeypadKey, b: real)
      requires Valid() && key in keys && InUnit(b)
      modifies this, keys, pixels
      ensures Valid() && State() == Updated(Selected(old(State()), old(key.Index()), b))
    {
      KeyAtOwnIndex(key);
      ghost var i := key.Index();
      ghost var before := State();
      ghost var spec := Selected(before, i, b);
      key.MarkToggled(b);
      isToggledOn := true;
      toggledKey := Some(key.Coordinates());
      var numberOfCommands := |key.commands|;
      var currentKeyIndex := CoordinatesToIndex(key.x, key.y);
      if numberOfCommands > currentKeyIndex {
        numberOfCommands := numberOfCommands + 1;
      }
      keys[currentKeyIndex].colour := key.masterColour;
      assert KeyStates() == before.keys[i := before.keys[i].(colour := before.keys[i].masterColour,
                                                              brightness := b, toggled := true)];
      ghost var marked := KeyStates();
      assert currentKeyIndex == i && key.masterColour == before.keys[i].masterColour;
      assert numberOfCommands == SlotMapper.HighlightLimit(i, |before.keys[i].commands|);
      Highlight(currentKeyIndex, numberOfCommands, key.masterColour);
      assert spec.keys == Highlighted(marked, i, numberOfCommands, key.masterColour, defaultColour);
      assert State() == spec;
      Update();
    }

    /**
     * `run_command(key)`: the pressed key's index, less one past the toggled key, selects the
     * toggled key's command; a missing command runs nothing. The keypad does not change.
     */
    method RunCommand(key: KeypadKey, keycodes: map<string, Keycode>) returns (events: seq<Event>, completed: bool)
      requires Valid() && Consistent(State()) && isToggledOn && key in keys
      ensures Dispatch(events, completed) == CommandRun(State(), key.Index(), keycodes)
    {
      KeyAtOwnIndex(key);
      var toggledKeyCoordinates := toggledKey.value;
      var toggled := GetKey(toggledKeyCoordinates.0, toggledKeyCoordinates.1);
      var currentKeyIndex := key.Index();
      var toggledKeyIndex := toggled.Index();
      if currentKeyIndex > toggledKeyIndex {
        currentKeyIndex := currentKeyIndex - 1;
      }
      assert KeyStates()[toggledKeyIndex] == toggled.State();
      ghost var p := State();
      assert toggledKeyIndex == ToggledIndex(p) && currentKeyIndex == SlotMapper.Slot(key.Index(), toggledKeyIndex);
      if currentKeyIndex < |toggled.commands| {
        assert CommandRun(p, key.Index(), keycodes)
            == Dispatched(p.keys[toggledKeyIndex].commands[currentKeyIndex].actions, keycodes);
        events, completed := Execute(toggled.commands[currentKeyIndex], keycodes);
      } else {
        assert CommandRun(p, key.Index(), keycodes) == Nothing;
        events, completed := [], true;
      }
    }

    /** One frame of `fade_to_colour`: the key's colour setter, then the keypad's repaint. */
    method ShowKeyColour(key: KeypadKey, c: Rgb)
      requires Valid() && key in keys
      modifies key, pixels
      ensures key.x == old(key.x) && key.y == old(key.y)
      ensures Valid() && State() == Updated(Recolour(old(State()), old(key.Index()), c))
    {
      KeyAtOwnIndex(key);
      ghost var i := key.Index();
      ghost var before := State();
      key.colour := c;
      assert KeyStates() == Recolour(before, i, c).keys;
      Update();
    }

    /**
     * `KeypadKey.fade_to_colour(colour)`: 25 frames from the key's colour towards `target`, each
     * written to the key and repainted; `shown` is the frames in order.
     */
    method FadeToColour(key: KeypadKey, target: Rgb) returns (shown: seq<Rgb>)
      requires Valid() && key in keys
      modifies key, pixels
      ensures shown == Fade.Frames(old(key.colour), target)
      ensures Valid() && State() == Faded(old(State()), old(key.Index()), target)
    {
      KeyAtOwnIndex(key);
      ghost var i := key.Index();
      ghost var before := State();
      var currentColour := key.colour;
      ghost var frames := Fade.Frames(currentColour, target);
      ghost var last := currentColour;
      assert before.keys[i].colour == currentColour;
      shown := [];
      var n := 0;
      ghost var j := 0;
      while n < 100
        invariant 0 <= j <= 25 && n == 4 * j
        invariant Valid() && key.Index() == i
        invariant shown == frames[..j]
        invariant j == 0 ==> State() == before
        invariant j > 0 ==> last == frames[j - 1] && State() == Updated(Recolour(before, i, last))
      {
        var r := Fade.Channel(n, currentColour.red, target.red);
        var g := Fade.Channel(n, currentColour.green, target.green);
        var b := Fade.Channel(n, currentColour.blue, target.blue);
        assert frames[j] == Rgb(r, g, b);
        ShowKeyColour(key, Rgb(r, g, b));
        if j > 0 {
          RecolourAfterRepaint(before, i, last, Rgb(r, g, b));
        }
        last := Rgb(r, g, b);
        assert frames[..j + 1] == frames[..j] + [frames[j]];
        shown := shown + [Rgb(r, g, b)];
        n := n + 4;
        j := j + 1;
      }
      assert frames[..25] == frames;
    }

    /**
     * `_pattern_load(colour, pattern, delay)`: the pauses are returned as events; `completed` is
     * false where an entry raises IndexError, which ends the animation without the final reset.
     */
    method PatternLoad(colour: Rgb, pattern: seq<int>, delay: real) returns (events: seq<Event>, completed: bool)
      requires Valid()
      modifies this, keys, pixels
      ensures Valid()
      ensures Turn(State(), Dispatch(events, completed)) == PatternLoaded(old(State()), colour, pattern, delay)
    {
      SetColour(Black);
      SetDefaultColour(colour);
      events, completed := FadeEach(colour, pattern, delay);
      if completed {
        Reset();
      }
    }

    /** The loop of `_pattern_load`: fade each listed key to `colour`, pausing `delay` after each. */
    method FadeEach(colour: Rgb, pattern: seq<int>, delay: real) returns (events: seq<Event>, completed: bool)
      requires Valid() && Synced(State())
      modifies keys, pixels
      ensures Valid()
      ensures Turn(State(), Dispatch(events, completed)) == FadesDone(old(State()), colour, pattern, |pattern|, delay)
    {
      ghost var blank := State();
      events := [];
      for j := 0 to |pattern|
        invariant Valid()
        invariant Turn(State(), Dispatch(events, true)) == FadesDone(blank, colour, pattern, j, delay)
      {
        var keyIndex := KeyAt(pattern[j]);
        FadesStep(blank, colour, pattern, j, delay);
        if keyIndex.None? {
          completed := false;
          FadesStayStopped(blank, colour, pattern, j + 1, |pattern|, delay);
          return;
        }
        FadeKey(keyIndex.value, colour);
        events := events + [Sleep(delay)];
      }
      completed := true;
    }

    /** `self.keys[i].fade_to_colour(colour)`, as one step of the loop of `_pattern_load`. */
    method FadeKey(i: int, colour: Rgb)
      requires Valid() && 0 <= i < KeyCount
      modifies keys, pixels
      ensures Valid() && State() == Faded(old(State()), i, colour)
    {
      IndexOfSlot(i);
      var shown := FadeToColour(keys[i], colour);
    }

    /** `load`: a pattern name (an unknown name raises KeyError) or an explicit index list. */
    method Load(choice: LoadChoice, delay: real) returns (events: seq<Event>, completed: bool)
      requires Valid()
      modifies this, keys, pixels
      ensures Valid()
      ensures Turn(State(), Dispatch(events, completed)) == Loaded(old(State()), choice, delay)
    {
      match choice {
        case Named(name) =>
          if name !in LoadPatterns {
            events, completed := [], false;
            return;
          }
          events, completed := PatternLoad(defaultColour, LoadPatterns[name], delay);
        case Explicit(indices) =>
          events, completed := PatternLoad(defaultColour, indices, delay);
      }
    }
  }
}
