/**
 * `fade_to_colour` and `_map`: 25 frames, n = 0, 4, ..., 96 of `range(0, 100, 4)`, each channel
 * interpolated by `_map` and truncated toward zero by `int()`. The last frame is the 96% point,
 * so a fade never quite reaches its target.
 */
module Fade {
  import opened Values

  /** Python's `int()` on a number: truncation toward zero. */
  function Trunc(x: real): (r: int)
    ensures x >= 0.0 ==> r as real <= x < r as real + 1.0
    ensures x < 0.0 ==> r as real - 1.0 < x <= r as real
  {
    if x >= 0.0 then x.Floor else -((-x).Floor)
  }

  /**
   * `_map(value, in_min, in_max, out_min, out_max)`: scale `value` from the input range to the
   * output range with true division, then truncate. Floating-point rounding is not modelled.
   */
  function MapRange(value: int, inMin: int, inMax: int, outMin: int, outMax: int): (r: real)
    requires inMin != inMax
    ensures value == inMin ==> r == outMin as real
    ensures value == inMax ==> r == outMax as real
  {
    ((value - inMin) * (outMax - outMin)) as real / (inMax - inMin) as real + outMin as real
  }

  /** Integer division truncating toward zero, as `int(a / d)` computes it for a positive d. */
  function TruncDiv(a: int, d: int): int
    requires d > 0
  {
    if a >= 0 then a / d else -((-a) / d)
  }

  /** One channel of frame `n`, in integers: `int(self._map(n, 0, 100, start, target))` (see ChannelIsMap). */
  function Channel(n: int, start: int, target: int): (c: int)
    ensures n == 0 ==> c == start
    ensures n == 100 ==> c == target
  {
    TruncDiv(n * (target - start) + 100 * start, 100)
  }

  /** The integer channel is `_map` on exact reals followed by truncation toward zero. */
  lemma ChannelIsMap(n: int, start: int, target: int)
    ensures Channel(n, start, target) == Trunc(MapRange(n, 0, 100, start, target))
  {
    var a := n * (target - start) + 100 * start;
    var x := MapRange(n, 0, 100, start, target);
    assert x == a as real / 100.0;
    if a >= 0 {
      var q, r := a / 100, a % 100;
      assert a == 100 * q + r && 0 <= r < 100;
      assert q as real <= x < q as real + 1.0;
    } else {
      var q, r := (-a) / 100, (-a) % 100;
      assert -a == 100 * q + r && 0 <= r < 100;
      assert -(q as real) - 1.0 < x <= -(q as real);
    }
  }

  /** Python's `range(start, stop, step)` for a positive step. */
  function Range(start: int, stop: int, step: int): seq<int>
    requires step > 0
    decreases stop - start
  {
    if start >= stop then [] else [start] + Range(start + step, stop, step)
  }

  /** `range(0, 100, 4)`. */
  function FadeSteps(): (steps: seq<int>)
    ensures |steps| == 25
    ensures forall j :: 0 <= j < 25 ==> steps[j] == 4 * j
  {
    StepsFrom(0);
    Range(0, 100, 4)
  }

  lemma {:induction false} StepsFrom(j: nat)
    requires j <= 25
    decreases 25 - j
    ensures |Range(4 * j, 100, 4)| == 25 - j
    ensures forall m :: 0 <= m < 25 - j ==> Range(4 * j, 100, 4)[m] == 4 * (j + m)
  {
    if j < 25 {
      StepsFrom(j + 1);
      assert Range(4 * j, 100, 4) == [4 * j] + Range(4 * (j + 1), 100, 4);
    }
  }

  /** The colour shown at step `n` of a fade from `start` to `target`. */
  function Frame(n: int, start: Rgb, target: Rgb): (f: Rgb)
    ensures n == 0 ==> f == start
    ensures n == 100 ==> f == target
  {
    Rgb(Channel(n, start.red, target.red), Channel(n, start.green, target.green),
        Channel(n, start.blue, target.blue))
  }

  /** The frames of a fade at the given percentages, in order. */
  function FramesAt(steps: seq<int>, start: Rgb, target: Rgb): (frames: seq<Rgb>)
    decreases |steps|
    ensures |frames| == |steps|
  {
    if steps == [] then [] else [Frame(steps[0], start, target)] + FramesAt(steps[1..], start, target)
  }

  /** Frame j of FramesAt is the frame at percentage steps[j]. */
  lemma {:induction false} FrameAtStep(steps: seq<int>, start: Rgb, target: Rgb, j: int)
    requires 0 <= j < |steps|
    decreases j
    ensures FramesAt(steps, start, target)[j] == Frame(steps[j], start, target)
  {
    if j > 0 {
      FrameAtStep(steps[1..], start, target, j - 1);
    }
  }

  /**
   * Every frame of a fade whose start colour was captured once, before the first frame: it opens
   * on the start colour and closes on the 96% frame, which the key is left at.
   */
  function Frames(start: Rgb, target: Rgb): (frames: seq<Rgb>)
    ensures |frames| == 25
    ensures frames[0] == start && frames[24] == LastFrame(start, target)
  {
    seq(25, j requires 0 <= j < 25 => Frame(4 * j, start, target))
  }

  /** Frame j of a fade is taken at n = 4 * j. */
  lemma FrameOfFade(start: Rgb, target: Rgb, j: int)
    requires 0 <= j < 25
    ensures Frames(start, target)[j] == Frame(4 * j, start, target)
  {
  }

  /** The frames are exactly those of the percentages `range(0, 100, 4)`, in order. */
  lemma FramesFollowRange(start: Rgb, target: Rgb)
    ensures Frames(start, target) == FramesAt(FadeSteps(), start, target)
  {
    forall j | 0 <= j < 25
      ensures Frames(start, target)[j] == FramesAt(FadeSteps(), start, target)[j]
    {
      FrameAtStep(FadeSteps(), start, target, j);
    }
  }

  /** The colour a fade is left at: its 25th frame, taken at n = 96. */
  function LastFrame(start: Rgb, target: Rgb): (last: Rgb)
    ensures Between(start.red, last.red, target.red) && Between(start.green, last.green, target.green)
    ensures Between(start.blue, last.blue, target.blue)
    ensures start == target ==> last == start
  {
    ChannelBetween(96, start.red, target.red);
    ChannelBetween(96, start.green, target.green);
    ChannelBetween(96, start.blue, target.blue);
    Frame(96, start, target)
  }

  /** For non-negative channels the truncation is the floor: start + floor(n * (target - start) / 100). */
  lemma ChannelFloor(n: int, start: int, target: int)
    requires 0 <= n <= 100 && 0 <= start && 0 <= target
    ensures Channel(n, start, target) == start + (n * (target - start)) / 100
  {
    var d := n * (target - start);
    var q, r := d / 100, d % 100;
    assert d == 100 * q + r && 0 <= r < 100;
    var x := MapRange(n, 0, 100, start, target);
    assert x == d as real / 100.0 + start as real;
    assert d as real / 100.0 == q as real + r as real / 100.0;
    MulBetween(n, start, target);
    assert x >= 0.0;
    assert (q + start) as real <= x < (q + start) as real + 1.0;
  }

  /** start + n * (target - start) / 100 lies between start and target when 0 <= n <= 100. */
  lemma MulBetween(n: int, start: int, target: int)
    requires 0 <= n <= 100
    ensures start <= target ==> 0 <= n * (target - start) <= 100 * (target - start)
    ensures target <= start ==> 100 * (target - start) <= n * (target - start) <= 0
    ensures 100 * start + n * (target - start) == (100 - n) * start + n * target
    ensures 0 <= start && 0 <= target ==> 0 <= 100 * start + n * (target - start)
  {
    var d := target - start;
    assert 100 * d - n * d == (100 - n) * d;
    if d >= 0 {
      NonNegativeProduct(n, d);
      NonNegativeProduct(100 - n, d);
    } else {
      NonNegativeProduct(n, -d);
      NonNegativeProduct(100 - n, -d);
    }
    assert n * d == n * target - n * start;
    if 0 <= start && 0 <= target {
      NonNegativeProduct(100 - n, start);
      NonNegativeProduct(n, target);
    }
  }

  lemma NonNegativeProduct(a: int, b: int)
    requires 0 <= a && 0 <= b
    ensures 0 <= a * b
  {
  }

  /** Each channel of each frame lies between the start and the target channel. */
  lemma ChannelBetween(n: int, start: int, target: int)
    requires 0 <= n <= 100
    ensures start <= target ==> start <= Channel(n, start, target) <= target
    ensures target <= start ==> target <= Channel(n, start, target) <= start
  {
    MulBetween(n, start, target);
    var x := MapRange(n, 0, 100, start, target);
    var lo := if start <= target then start else target;
    var hi := if start <= target then target else start;
    assert x == (n * (target - start)) as real / 100.0 + start as real;
    assert lo as real <= x <= hi as real;
  }

  /** Every frame lies channel by channel between the start and the target colour. */
  lemma FramesBetween(start: Rgb, target: Rgb, j: int)
    requires 0 <= j < 25
    ensures Between(start.red, Frames(start, target)[j].red, target.red)
    ensures Between(start.green, Frames(start, target)[j].green, target.green)
    ensures Between(start.blue, Frames(start, target)[j].blue, target.blue)
  {
    FrameOfFade(start, target, j);
    ChannelBetween(4 * j, start.red, target.red);
    ChannelBetween(4 * j, start.green, target.green);
    ChannelBetween(4 * j, start.blue, target.blue);
  }

  predicate Between(a: int, v: int, b: int) {
    (a <= v <= b) || (b <= v <= a)
  }

  /** A rising non-negative channel never reaches its target: the last frame is the 96% point. */
  lemma RisingFadeStopsShort(start: int, target: int)
    requires 0 <= start < target
    ensures Channel(96, start, target) < target
  {
    ChannelFloor(96, start, target);
  }

  /** Fading black to full red ends on red 244, not 255. */
  lemma BlackToRedEndsAt244()
    ensures Frames(Black, Rgb(255, 0, 0))[24] == Rgb(244, 0, 0)
  {
    FrameOfFade(Black, Rgb(255, 0, 0), 24);
    ChannelFloor(96, 0, 255);
    ChannelFloor(96, 0, 0);
  }
}
