/**
 * Edge detection in `load_pressed_keys`: the IO expander's two bytes form an active-low mask,
 * and each key remembers whether it was already down at the previous poll.
 */
module Edges {

  /** `b = result[0] | result[1] << 8`: byte 0 carries keys 0..7, byte 1 keys 8..15. */
  function Mask(lo: bv8, hi: bv8): (m: bv16)
    ensures (m & 0xFF) as bv8 == lo && (m >> 8) as bv8 == hi
  {
    (lo as bv16) | ((hi as bv16) << 8)
  }

  /** `not (1 << index) & b`: the key's bit is clear, i.e. the key is held down. */
  predicate KeyDown(mask: bv16, index: nat)
    requires index < 16
  {
    (1 as bv16 << index) & mask == 0
  }

  /** Key `index` is read from bit `index` of byte 0 for the first eight keys, else of byte 1. */
  lemma MaskBytes(lo: bv8, hi: bv8, index: nat)
    requires index < 16
    ensures KeyDown(Mask(lo, hi), index) <==>
            if index < 8 then (lo >> index) & 1 == 0 else (hi >> (index - 8)) & 1 == 0
  {
    match index
      case 0 => assert KeyDown(Mask(lo, hi), 0) <==> (lo >> 0) & 1 == 0;
      case 1 => assert KeyDown(Mask(lo, hi), 1) <==> (lo >> 1) & 1 == 0;
      case 2 => assert KeyDown(Mask(lo, hi), 2) <==> (lo >> 2) & 1 == 0;
      case 3 => assert KeyDown(Mask(lo, hi), 3) <==> (lo >> 3) & 1 == 0;
      case 4 => assert KeyDown(Mask(lo, hi), 4) <==> (lo >> 4) & 1 == 0;
      case 5 => assert KeyDown(Mask(lo, hi), 5) <==> (lo >> 5) & 1 == 0;
      case 6 => assert KeyDown(Mask(lo, hi), 6) <==> (lo >> 6) & 1 == 0;
      case 7 => assert KeyDown(Mask(lo, hi), 7) <==> (lo >> 7) & 1 == 0;
      case 8 => assert KeyDown(Mask(lo, hi), 8) <==> (hi >> 0) & 1 == 0;
      case 9 => assert KeyDown(Mask(lo, hi), 9) <==> (hi >> 1) & 1 == 0;
      case 10 => assert KeyDown(Mask(lo, hi), 10) <==> (hi >> 2) & 1 == 0;
      case 11 => assert KeyDown(Mask(lo, hi), 11) <==> (hi >> 3) & 1 == 0;
      case 12 => assert KeyDown(Mask(lo, hi), 12) <==> (hi >> 4) & 1 == 0;
      case 13 => assert KeyDown(Mask(lo, hi), 13) <==> (hi >> 5) & 1 == 0;
      case 14 => assert KeyDown(Mask(lo, hi), 14) <==> (hi >> 6) & 1 == 0;
      case 15 => assert KeyDown(Mask(lo, hi), 15) <==> (hi >> 7) & 1 == 0;
  }

  /** A key's press fields: `is_pressed` and `still_pressed`. */
  datatype PressState = PressState(isPressed: bool, stillPressed: bool) {
    /** The trigger the poll loop reacts to: pressed now and not already pressed before. */
    predicate Fresh() {
      isPressed && !stillPressed
    }
  }

  const Released := PressState(false, false)

  /** One iteration of the `load_pressed_keys` loop for one key. */
  function Sensed(s: PressState, down: bool): (r: PressState)
    ensures r.isPressed == down
    ensures r.stillPressed == (down && s.isPressed)
    ensures r.Fresh() <==> down && !s.isPressed
  {
    if down then PressState(true, s.isPressed) else PressState(false, false)
  }

  /** The press fields after each of a run of polls that saw the key down (true) or up (false). */
  function History(s: PressState, downs: seq<bool>): (h: seq<PressState>)
    ensures |h| == |downs|
    ensures forall j :: 0 <= j < |h| ==> h[j].isPressed == downs[j]
    decreases |downs|
  {
    if downs == [] then [] else
      var next := Sensed(s, downs[0]);
      [next] + History(next, downs[1..])
  }

  /** After poll `j` the key shows a fresh press exactly when it is down now and was up at poll j-1. */
  lemma {:induction false} FreshOnlyOnRisingEdge(s: PressState, downs: seq<bool>, j: nat)
    requires j < |downs|
    decreases j
    ensures History(s, downs)[j].isPressed == downs[j]
    ensures History(s, downs)[j].Fresh() <==>
            downs[j] && !(if j == 0 then s.isPressed else downs[j - 1])
  {
    if j > 0 {
      var next := Sensed(s, downs[0]);
      FreshOnlyOnRisingEdge(next, downs[1..], j - 1);
      if j > 1 {
        FreshOnlyOnRisingEdge(next, downs[1..], j - 2);
      }
    }
  }

  /** A key held down for `k` consecutive polls after being up fires once, on the first poll. */
  lemma HeldKeyFiresOnce(s: PressState, k: nat, j: nat)
    requires !s.isPressed && j < k
    ensures History(s, seq(k, _ => true))[j].Fresh() <==> j == 0
  {
    FreshOnlyOnRisingEdge(s, seq(k, _ => true), j);
  }
}
