/** The 4x4 key grid: coordinates, indices and the named start-up patterns. */
module Grid {

  const KeyCount := 16

  /** `coordinates_to_index`: row-major index of the key at row `x`, column `y`. */
  function CoordinatesToIndex(x: int, y: int): (i: int)
    ensures 0 <= x < 4 && 0 <= y < 4 ==> 0 <= i < KeyCount
    ensures 0 <= x < 4 && 0 <= y < 4 ==> i / 4 == x && i % 4 == y
  {
    x * 4 + y
  }

  /** The coordinates of the key at `index`; the inverse of CoordinatesToIndex on the grid. */
  function IndexToCoordinates(index: int): (c: (int, int))
    requires 0 <= index < KeyCount
    ensures 0 <= c.0 < 4 && 0 <= c.1 < 4
    ensures CoordinatesToIndex(c.0, c.1) == index
  {
    (index / 4, index % 4)
  }

  /** Distinct grid cells have distinct indices. */
  lemma IndexInjective(x1: int, y1: int, x2: int, y2: int)
    requires 0 <= x1 < 4 && 0 <= y1 < 4 && 0 <= x2 < 4 && 0 <= y2 < 4
    requires CoordinatesToIndex(x1, y1) == CoordinatesToIndex(x2, y2)
    ensures x1 == x2 && y1 == y2
  {
  }

  /** Coordinates survive the trip through an index. */
  lemma CoordinatesRoundTrip(x: int, y: int)
    requires 0 <= x < 4 && 0 <= y < 4
    ensures IndexToCoordinates(CoordinatesToIndex(x, y)) == (x, y)
  {
  }

  const Simple: seq<int> := [0, 1, 2, 3, 4, 5, 6, 7, 8, 9, 10, 11, 12, 13, 14, 15]
  const Diagonal: seq<int> := [0, 4, 1, 8, 5, 2, 12, 9, 6, 3, 13, 10, 7, 14, 11, 15]
  const Spiral: seq<int> := [9, 5, 6, 10, 14, 13, 12, 8, 4, 0, 1, 2, 3, 7, 11, 15]

  /** `load_patterns`: the start-up animation orders selectable by name. */
  const LoadPatterns: map<string, seq<int>> :=
    map["simple" := Simple, "diagonal" := Diagonal, "spiral" := Spiral]

  /** `p` lists every key index exactly once. */
  predicate IsKeyPermutation(p: seq<int>) {
    && |p| == KeyCount
    && (forall j :: 0 <= j < |p| ==> 0 <= p[j] < KeyCount)
    && (forall i :: 0 <= i < KeyCount ==> i in p)
    && (forall a, b :: 0 <= a < b < |p| ==> p[a] != p[b])
  }

  /** A sequence with a two-sided inverse on 0..15 is a permutation of the key indices. */
  lemma PermutationByInverse(p: seq<int>, inv: seq<int>)
    requires |p| == KeyCount && |inv| == KeyCount
    requires forall j :: 0 <= j < KeyCount ==> 0 <= p[j] < KeyCount && inv[p[j]] == j
    requires forall i :: 0 <= i < KeyCount ==> 0 <= inv[i] < KeyCount && p[inv[i]] == i
    ensures IsKeyPermutation(p)
  {
    forall i | 0 <= i < KeyCount ensures i in p {
      assert p[inv[i]] == i;
    }
    forall a, b | 0 <= a < b < |p| ensures p[a] != p[b] {
      assert inv[p[a]] == a && inv[p[b]] == b;
    }
  }

  lemma DiagonalIsPermutation()
    ensures IsKeyPermutation(Diagonal)
  {
    PermutationByInverse(Diagonal, [0, 2, 5, 9, 1, 4, 8, 12, 3, 7, 11, 14, 6, 10, 13, 15]);
  }

  lemma SpiralIsPermutation()
    ensures IsKeyPermutation(Spiral)
  {
    PermutationByInverse(Spiral, [9, 10, 11, 12, 8, 1, 2, 13, 7, 0, 3, 14, 6, 5, 4, 15]);
  }

  /** Each named load pattern visits all 16 keys, each once. */
  lemma LoadPatternsArePermutations()
    ensures LoadPatterns.Keys == {"simple", "diagonal", "spiral"}
    ensures forall name :: name in LoadPatterns ==> IsKeyPermutation(LoadPatterns[name])
  {
    PermutationByInverse(Simple, Simple);
    DiagonalIsPermutation();
    SpiralIsPermutation();
  }
}
