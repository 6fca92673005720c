/**
 * The command-slot mapper. While key `toggled` is selected, the other 15 keys address its
 * commands in index order, skipping `toggled` itself. `toggle_on` paints the addressable keys
 * (HighlightLimit) and `run_command` turns a pressed key into a slot (Slot); the two must agree.
 */
module SlotMapper {

  /** `toggle_on`: keys with index below this limit (other than `toggled`) get the highlight. */
  function HighlightLimit(toggled: int, commandCount: nat): (limit: int)
    ensures commandCount <= limit <= commandCount + 1
    ensures limit == commandCount + 1 <==> commandCount > toggled
  {
    if commandCount > toggled then commandCount + 1 else commandCount
  }

  /** `run_command`: the command slot addressed by pressing key `pressed` while `toggled` is selected. */
  function Slot(pressed: int, toggled: int): (slot: int)
    ensures pressed != toggled && 0 <= pressed < 16 && 0 <= toggled < 16 ==> 0 <= slot < 15
    ensures slot < pressed <==> pressed > toggled
  {
    if pressed > toggled then pressed - 1 else pressed
  }

  /** The key that addresses `slot` while `toggled` is selected: the inverse of Slot. */
  function SlotKey(slot: int, toggled: int): (pressed: int)
    requires 0 <= slot < 15 && 0 <= toggled < 16
    ensures 0 <= pressed < 16 && pressed != toggled
    ensures Slot(pressed, toggled) == slot
  {
    if slot >= toggled then slot + 1 else slot
  }

  /** Slot maps the 15 keys other than `toggled` one-to-one (and, by SlotKey, onto 0..14). */
  lemma SlotInjective(i: int, j: int, toggled: int)
    requires i != toggled && j != toggled
    requires Slot(i, toggled) == Slot(j, toggled)
    ensures i == j
  {
  }

  /** SlotKey undoes Slot on every key other than the selected one. */
  lemma SlotKeyOfSlot(pressed: int, toggled: int)
    requires 0 <= pressed < 16 && 0 <= toggled < 16 && pressed != toggled
    ensures SlotKey(Slot(pressed, toggled), toggled) == pressed
  {
  }

  /**
   * The mapper's symmetry: for every key other than the selected one, `toggle_on` highlights it
   * exactly when `run_command` would find a command for it.
   */
  lemma HighlightMatchesSlot(i: int, toggled: int, commandCount: nat)
    requires i != toggled
    ensures i < HighlightLimit(toggled, commandCount) <==> Slot(i, toggled) < commandCount
  {
  }

  /** HighlightMatchesSlot for every key at once. */
  lemma HighlightMatchesSlotEverywhere(toggled: int, commandCount: nat)
    ensures forall i :: i != toggled ==>
              (i < HighlightLimit(toggled, commandCount) <==> Slot(i, toggled) < commandCount)
  {
  }

  /**
   * Key 5 selected: with 2 or 3 commands the limit is not extended (5 is not below the count), so
   * only keys 0..1 or 0..2 are lit; key 6 addresses slot 5 (no command) and key 2 slot 2.
   */
  lemma KeyFiveExample()
    ensures HighlightLimit(5, 3) == 3 && HighlightLimit(5, 2) == 2
    ensures Slot(6, 5) == 5 && Slot(2, 5) == 2
  {
  }
}
