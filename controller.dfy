/**
 * The controller script: build the keypad, then poll it for ever. One pass of the poll loop
 * reads the key mask and reacts to each fresh press in index order.
 */
module Controller {
  import opened Values
  import opened Grid
  import opened Dispatch
  import opened Board
  import opened Keypad

  /**
   * The loop body for one key: a fresh press runs the toggled key's command while another key
   * is toggled, clears the keypad when it is the toggled key, and toggles a programmed key on at
   * brightness 1.0 when the keypad is neutral.
   */
  method HandleKey(kp: PimoroniKeypad, key: KeypadKey, keycodes: map<string, Keycode>)
    returns (events: seq<Event>, completed: bool)
    requires kp.Valid() && Consistent(kp.State()) && key in kp.keys
    modifies kp, kp.keys, kp.pixels
    ensures kp.Valid()
    ensures Turn(kp.State(), Dispatch(events, completed)) == Handle(old(kp.State()), old(key.Index()), keycodes)
  {
    kp.KeyAtOwnIndex(key);
    ghost var i := key.Index();
    assert kp.KeyStates()[i] == key.State();
    events, completed := [], true;
    if key.isPressed && !key.stillPressed {
      if kp.isToggledOn && !key.isToggledOn {
        events, completed := kp.RunCommand(key, keycodes);
      } else if key.isToggledOn {
        kp.Clear();
      } else if key.isProgrammed {
        var ok := kp.ToggleOn(key, None, Some(1.0));
      }
    }
  }

  /**
   * One pass of the `while True` loop: `load_pressed_keys`, then every key in order. A command
   * that fails (a KeyError from an unknown key name) ends the pass; `completed` is then false.
   */
  method Poll(kp: PimoroniKeypad, lo: bv8, hi: bv8, keycodes: map<string, Keycode>)
    returns (events: seq<Event>, completed: bool)
    requires kp.Valid() && Consistent(kp.State())
    modifies kp, kp.keys, kp.pixels
    ensures kp.Valid() && Consistent(kp.State())
    ensures Turn(kp.State(), Dispatch(events, completed)) == Board.Poll(old(kp.State()), lo, hi, keycodes)
  {
    var pressed := kp.LoadPressedKeys(lo, hi);
    ghost var sensed := kp.State();
    events := [];
    for j := 0 to |pressed|
      invariant kp.Valid() && pressed == kp.keys
      invariant Turn(kp.State(), Dispatch(events, true)) == HandledUpTo(sensed, j, keycodes)
    {
      kp.IndexOfSlot(j);
      var more, ok := HandleKey(kp, pressed[j], keycodes);
      events := events + more;
      if !ok {
        completed := false;
        HandledStaysStopped(sensed, j + 1, KeyCount, keycodes);
        return;
      }
    }
    completed := true;
  }

  /**
   * `PimoroniKeypad.__init__`: the keys at the configured colour and brightness, the key
   * configuration entry by entry, then the load animation.
   */
  method Start(colour: Rgb, brightness: real, records: seq<KeyRecord>, choice: LoadChoice, delay: real)
    returns (kp: PimoroniKeypad, events: seq<Event>, completed: bool)
    requires InUnit(brightness) && RecordsInGrid(records)
    ensures kp.Valid()
    ensures Turn(kp.State(), Dispatch(events, completed)) == Started(colour, brightness, records, choice, delay)
  {
    kp := new PimoroniKeypad(colour, brightness);
    ghost var configured := ProgrammedAll(Initial(colour, brightness), records);
    for j := 0 to |records|
      invariant kp.Valid() && fresh(kp.pixels) && forall k :: 0 <= k < |kp.keys| ==> fresh(kp.keys[k])
      invariant RecordsInGrid(records[j..]) && ProgrammedAll(kp.State(), records[j..]) == configured
    {
      assert records[j..][1..] == records[j + 1..];
      kp.ProgramKey(records[j]);
    }
    assert records[|records|..] == [];
    events, completed := kp.Load(choice, delay);
  }
}
