/** Hand landmarks as the hand detector reports them, the triples the
    recorder stores, and the flattening both gesture engines apply before
    doing arithmetic on them. */
module Landmarks {

  /** One keypoint of a detected hand (`landmark.x`, `.y`, `.z`). */
  datatype Landmark = Landmark(x: real, y: real, z: real)

  /** The tuple `(x, y, z)` stored for one keypoint. */
  type Triple = (real, real, real)

  /** One recorded hand: a triple per keypoint, in keypoint order. */
  type LandmarkSet = seq<Triple>

  /** Coordinate `j` (0 = x, 1 = y, 2 = z) of a detected keypoint. */
  function LandmarkCoord(lm: Landmark, j: nat): real
    requires j < 3
  {
    if j == 0 then lm.x else if j == 1 then lm.y else lm.z
  }

  /** Coordinate `j` of a stored triple. */
  function Coord(t: Triple, j: nat): real
    requires j < 3
  {
    if j == 0 then t.0 else if j == 1 then t.1 else t.2
  }

  /** The comprehension `[(lm.x, lm.y, lm.z) for lm in hand]`. */
  function Triples(hand: seq<Landmark>): LandmarkSet
  {
    seq(|hand|, i requires 0 <= i < |hand| => (hand[i].x, hand[i].y, hand[i].z))
  }

  /** NumPy's `np.array(triples).flatten()`: the coordinates of every
      keypoint, keypoint after keypoint. */
  function Flatten(s: LandmarkSet): (v: seq<real>)
    ensures |v| == 3 * |s|
  {
    if s == [] then [] else [s[0].0, s[0].1, s[0].2] + Flatten(s[1..])
  }

  /** Element `3 * i + j` of the flattened vector is coordinate `j` of keypoint `i`. */
  lemma {:induction false} FlattenAt(s: LandmarkSet, i: nat, j: nat)
    requires i < |s| && j < 3
    ensures Flatten(s)[3 * i + j] == Coord(s[i], j)
  {
    if i > 0 {
      FlattenAt(s[1..], i - 1, j);
      assert Flatten(s)[3 * i + j] == Flatten(s[1..])[3 * (i - 1) + j];
    }
  }
}
