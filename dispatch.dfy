/**
 * The command dispatcher: `execute`, `enter_keyboard_shortcut` and `enter_text`. What the
 * keyboard library would send and the pauses between sends are recorded as an ordered trace.
 */
module Dispatch {
  import opened Values

  /** `keycode_dictionary[name]`: None is the KeyError an unknown name raises. */
  function Lookup(keycodes: map<string, Keycode>, name: string): (r: Option<Keycode>)
    ensures r.Some? <==> name in keycodes
    ensures r.Some? ==> r.value == keycodes[name]
  {
    if name in keycodes then Some(keycodes[name]) else None
  }

  /** The items `action[0]`, `action[1]`, ... of a payload: one-character strings of a string, or the list. */
  function Items(p: Payload): (items: seq<string>)
    ensures p.Names? ==> items == p.names
    ensures p.Text? ==> |items| == |p.text| && forall i :: 0 <= i < |items| ==> items[i] == [p.text[i]]
  {
    match p
    case Text(s) => seq(|s|, i requires 0 <= i < |s| => [s[i]])
    case Names(ns) => ns
  }

  /**
   * `enter_keyboard_shortcut(one, two, three)`: three codes only when both optional ones are
   * given, two when only the second is, otherwise `one` alone; then a one-second pause.
   */
  function ShortcutEvents(one: Keycode, two: Option<Keycode>, three: Option<Keycode>): (events: seq<Event>)
    ensures |events| == 2 && events[1] == Sleep(1.0) && events[0].Chord?
    ensures 1 <= |events[0].codes| <= 3 && events[0].codes[0] == one
    ensures two.None? ==> events[0].codes == [one]
  {
    var chord :=
      if two.Some? && three.Some? then [one, two.value, three.value]
      else if two.Some? && three.None? then [one, two.value]
      else [one];
    [Chord(chord), Sleep(1.0)]
  }

  /** `enter_text(input)`: the layout types the payload, then a half-second pause. */
  function TextEvents(p: Payload): (events: seq<Event>)
    ensures |events| == 2 && events[0].Write? && events[0].payload == p && events[1] == Sleep(0.5)
  {
    [Write(p), Sleep(0.5)]
  }

  /** What one action emits; None when a key name is not in the dictionary (KeyError). */
  function ActionEvents(a: Action, keycodes: map<string, Keycode>): (r: Option<seq<Event>>)
    ensures r.None? <==>
              && a.actionType == "keyboardShortcut" && 1 <= |Items(a.action)| <= 3
              && exists k :: 0 <= k < |Items(a.action)| && Items(a.action)[k] !in keycodes
    ensures a.actionType != "keyboardShortcut" && a.actionType != "enterText" ==> r == Some([])
  {
    if a.actionType == "keyboardShortcut" then
      var names := Items(a.action);
      if |names| == 1 then
        match Lookup(keycodes, names[0])
        case None => None
        case Some(c1) => Some(ShortcutEvents(c1, None, None))
      else if |names| == 2 then
        match (Lookup(keycodes, names[0]), Lookup(keycodes, names[1]))
        case (Some(c1), Some(c2)) => Some(ShortcutEvents(c1, Some(c2), None))
        case _ => None
      else if |names| == 3 then
        match (Lookup(keycodes, names[0]), Lookup(keycodes, names[1]), Lookup(keycodes, names[2]))
        case (Some(c1), Some(c2), Some(c3)) => Some(ShortcutEvents(c1, Some(c2), Some(c3)))
        case _ => None
      else
        Some([])
    else if a.actionType == "enterText" then
      Some(TextEvents(a.action))
    else
      Some([])
  }

  /** The trace of running some actions, and whether they all ran (false: a KeyError stopped them). */
  datatype Dispatch = Dispatch(events: seq<Event>, completed: bool)

  const Nothing := Dispatch([], true)

  /** The effect of `execute` on a list of actions, defined action by action from the front. */
  function Dispatched(actions: seq<Action>, keycodes: map<string, Keycode>): (d: Dispatch)
    decreases |actions|
  {
    if actions == [] then Nothing else
      match ActionEvents(actions[0], keycodes)
      case None => Dispatch([], false)
      case Some(first) =>
        var rest := Dispatched(actions[1..], keycodes);
        Dispatch(first + rest.events, rest.completed)
  }

  /** A command completes exactly when none of its actions raises a KeyError. */
  lemma {:induction false} CompletesUnlessKeyError(actions: seq<Action>, keycodes: map<string, Keycode>)
    decreases |actions|
    ensures Dispatched(actions, keycodes).completed <==>
            forall k :: 0 <= k < |actions| ==> ActionEvents(actions[k], keycodes).Some?
  {
    if actions != [] {
      CompletesUnlessKeyError(actions[1..], keycodes);
      assert forall k :: 1 <= k < |actions| ==> actions[1..][k - 1] == actions[k];
    }
  }

  /** Running `a + b` runs `a`, then, only if `a` completed, `b`; the traces concatenate in order. */
  lemma {:induction false} DispatchedAppend(a: seq<Action>, b: seq<Action>, keycodes: map<string, Keycode>)
    decreases |a|
    ensures Dispatched(a + b, keycodes) ==
            var da := Dispatched(a, keycodes);
            if da.completed then
              var db := Dispatched(b, keycodes);
              Dispatch(da.events + db.events, db.completed)
            else da
  {
    if a == [] {
      assert a + b == b;
    } else {
      assert (a + b)[0] == a[0] && (a + b)[1..] == a[1..] + b;
      DispatchedAppend(a[1..], b, keycodes);
      match ActionEvents(a[0], keycodes)
      case None =>
      case Some(first) =>
        var da := Dispatched(a[1..], keycodes);
        var db := Dispatched(b, keycodes);
        if da.completed {
          assert first + (da.events + db.events) == (first + da.events) + db.events;
        }
    }
  }

  /** A shortcut of 1, 2 or 3 known names sends exactly those codes, in order, as one chord, then pauses 1s. */
  lemma ShortcutSendsNamedCodes(a: Action, keycodes: map<string, Keycode>)
    requires a.actionType == "keyboardShortcut"
    requires 1 <= |Items(a.action)| <= 3
    requires forall i :: 0 <= i < |Items(a.action)| ==> Items(a.action)[i] in keycodes
    ensures ActionEvents(a, keycodes) ==
            var names := Items(a.action);
            Some([Chord(seq(|names|, i requires 0 <= i < |names| => keycodes[names[i]])), Sleep(1.0)])
  {
    var names := Items(a.action);
    var codes := seq(|names|, i requires 0 <= i < |names| => keycodes[names[i]]);
    if |names| == 1 {
      assert codes == [keycodes[names[0]]];
    } else if |names| == 2 {
      assert codes == [keycodes[names[0]], keycodes[names[1]]];
    } else {
      assert codes == [keycodes[names[0]], keycodes[names[1]], keycodes[names[2]]];
    }
  }

  /** A shortcut whose payload has no item or more than three emits nothing and does not fail. */
  lemma OversizedShortcutIgnored(a: Action, keycodes: map<string, Keycode>)
    requires a.actionType == "keyboardShortcut"
    requires |Items(a.action)| == 0 || |Items(a.action)| > 3
    ensures ActionEvents(a, keycodes) == Some([])
  {
  }

  /** A shortcut naming a key missing from the dictionary fails (KeyError) before anything is sent. */
  lemma UnknownNameFails(a: Action, keycodes: map<string, Keycode>, i: int)
    requires a.actionType == "keyboardShortcut"
    requires 1 <= |Items(a.action)| <= 3
    requires 0 <= i < |Items(a.action)| && Items(a.action)[i] !in keycodes
    ensures ActionEvents(a, keycodes).None?
  {
  }

  /** Text is typed then followed by a half-second pause; unknown action types emit nothing. */
  lemma TextAndUnknownActions(a: Action, keycodes: map<string, Keycode>)
    ensures a.actionType == "enterText" ==> ActionEvents(a, keycodes) == Some([Write(a.action), Sleep(0.5)])
    ensures a.actionType != "enterText" && a.actionType != "keyboardShortcut" ==>
            ActionEvents(a, keycodes) == Some([])
  {
  }

  /** `execute`: run the command's actions in order; a KeyError stops the run. */
  method Execute(command: Command, keycodes: map<string, Keycode>) returns (events: seq<Event>, completed: bool)
    ensures Dispatch(events, completed) == Dispatched(command.actions, keycodes)
  {
    var actions := command.actions;
    events := [];
    var i := 0;
    while i < |actions|
      invariant 0 <= i <= |actions|
      invariant Dispatched(actions[..i], keycodes) == Dispatch(events, true)
    {
      DispatchedAppend(actions[..i], [actions[i]], keycodes);
      assert actions[..i + 1] == actions[..i] + [actions[i]];
      var emitted := ActionEvents(actions[i], keycodes);
      if emitted.None? {
        DispatchedAppend(actions[..i + 1], actions[i + 1..], keycodes);
        assert actions[..i + 1] + actions[i + 1..] == actions;
        completed := false;
        return;
      }
      events := events + emitted.value;
      i := i + 1;
    }
    assert actions[..i] == actions;
    completed := true;
  }
}
