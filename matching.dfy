/** The nearest-exemplar matcher of the key-mapping program: recording a
    hand, the distance between two recorded hands, and the scan of every
    stored example for the closest one within the recognition threshold.

    Distances are kept SQUARED. The source compares Euclidean norms; the
    square root is strictly increasing on non-negative reals, so comparing
    the squares selects the same minimum, breaks the same ties, and
    `norm > 0.5` holds exactly when `norm * norm > 0.5 * 0.5`
    (lemma NormOrderIsSquareOrder). */
module Matching {
  import opened Wrappers
  import opened Landmarks
  import opened PyDict

  /** `RECOGNITION_THRESHOLD`: the largest distance still accepted as a match. */
  const RecognitionThreshold: real := 0.5

  /** NumPy refuses to subtract flat vectors of `3 * n` and `3 * m`
      elements when `n != m` (neither length can broadcast). */
  datatype CompareError = ShapeMismatch(left: nat, right: nat)

  /** A stored example: one recorded landmark set under the name it is mapped to. */
  datatype Example = Example(name: string, landmarks: LandmarkSet)

  /** `record_gesture`: walks the detected keypoints and appends one
      `(x, y, z)` triple for each, in order. */
  method RecordGesture(hand: seq<Landmark>) returns (landmarks: LandmarkSet)
    ensures |landmarks| == |hand|
    ensures forall i :: 0 <= i < |hand| ==> landmarks[i] == (hand[i].x, hand[i].y, hand[i].z)
  {
    landmarks := [];
    for n := 0 to |hand|
      invariant |landmarks| == n
      invariant forall i :: 0 <= i < n ==> landmarks[i] == (hand[i].x, hand[i].y, hand[i].z)
    {
      var landmark := hand[n];
      landmarks := landmarks + [(landmark.x, landmark.y, landmark.z)];
    }
  }

  /** The square of one coordinate difference. */
  function Square(e: real): (s: real)
    ensures s >= 0.0
  {
    e * e
  }

  /** Squared Euclidean norm of `u - v`. */
  function SqDist(u: seq<real>, v: seq<real>): (d: real)
    requires |u| == |v|
    ensures d >= 0.0
  {
    if u == [] then 0.0 else Square(u[0] - v[0]) + SqDist(u[1..], v[1..])
  }

  lemma {:induction false} SqDistSymmetric(u: seq<real>, v: seq<real>)
    requires |u| == |v|
    ensures SqDist(u, v) == SqDist(v, u)
  {
    if u != [] {
      SqDistSymmetric(u[1..], v[1..]);
      assert Square(u[0] - v[0]) == Square(v[0] - u[0]);
    }
  }

  lemma {:induction false} SqDistSelf(u: seq<real>)
    ensures SqDist(u, u) == 0.0
  {
    if u != [] {
      SqDistSelf(u[1..]);
      assert Square(u[0] - u[0]) == 0.0;
    }
  }

  /** `compare_gestures`: the (squared) distance between the flattened
      landmark sets, or the shape error NumPy raises when their sizes differ. */
  function CompareGestures(a: LandmarkSet, b: LandmarkSet): (r: Result<real, CompareError>)
    ensures r.Failure? <==> |a| != |b|
    ensures r.Success? ==> r.value >= 0.0
  {
    if |a| != |b| then Failure(ShapeMismatch(3 * |a|, 3 * |b|))
    else Success(SqDist(Flatten(a), Flatten(b)))
  }

  /** The distance does not depend on the order of its arguments. */
  lemma CompareSymmetric(a: LandmarkSet, b: LandmarkSet)
    ensures CompareGestures(a, b).Success? == CompareGestures(b, a).Success?
    ensures CompareGestures(a, b).Success? ==> CompareGestures(a, b).value == CompareGestures(b, a).value
  {
    if |a| == |b| {
      SqDistSymmetric(Flatten(a), Flatten(b));
    }
  }

  /** A landmark set is at distance zero from itself. */
  lemma CompareSelf(a: LandmarkSet)
    ensures CompareGestures(a, a) == Success(0.0)
  {
    SqDistSelf(Flatten(a));
  }

  /** For non-negative norms, ordering the norms and ordering their
      squares agree, both strictly and against the threshold. */
  lemma NormOrderIsSquareOrder(p: real, q: real)
    requires p >= 0.0 && q >= 0.0
    ensures p < q <==> p * p < q * q
    ensures p > RecognitionThreshold <==> p * p > RecognitionThreshold * RecognitionThreshold
  {
    if p < q { SquareMonotone(p, q); }
    if q < p { SquareMonotone(q, p); }
    if RecognitionThreshold < p { SquareMonotone(RecognitionThreshold, p); }
    if p < RecognitionThreshold { SquareMonotone(p, RecognitionThreshold); }
  }

  lemma SquareMonotone(p: real, q: real)
    requires 0.0 <= p < q
    ensures p * p < q * q
  {
    PositiveProduct(q - p, q + p);
    assert (q - p) * (q + p) == q * q - p * p;
  }

  lemma PositiveProduct(a: real, b: real)
    requires a > 0.0 && b > 0.0
    ensures a * b > 0.0
  {
  }

  /** The examples of one gesture, in list order. */
  function Tagged(name: string, sets: seq<LandmarkSet>): (ex: seq<Example>)
  {
    seq(|sets|, i requires 0 <= i < |sets| => Example(name, sets[i]))
  }

  /** Taking one more set of a gesture adds one example at the end of
      what was scanned. */
  lemma TaggedNext(before: seq<Example>, name: string, sets: seq<LandmarkSet>, j: nat)
    requires j < |sets|
    ensures before + Tagged(name, sets[..j + 1]) == before + Tagged(name, sets[..j]) + [Example(name, sets[j])]
  {
    assert Tagged(name, sets[..j + 1]) == Tagged(name, sets[..j]) + [Example(name, sets[j])];
  }

  /** The examples of the first `n` gestures, in the order the nested loop
      of `detect_gesture` meets them. */
  function StoredUpTo(d: Dict<seq<LandmarkSet>>, n: nat): seq<Example>
    requires d.Valid() && n <= |d.keys|
  {
    if n == 0 then []
    else StoredUpTo(d, n - 1) + Tagged(d.keys[n - 1], d.values[d.keys[n - 1]])
  }

  /** Every stored example, in iteration order. */
  function Stored(d: Dict<seq<LandmarkSet>>): seq<Example>
    requires d.Valid()
  {
    StoredUpTo(d, |d.keys|)
  }

  /** An example is met by the first `n` steps of the scan exactly when its
      gesture is among the first `n` keys and it is one of that gesture's sets. */
  lemma {:induction false} StoredUpToMembers(d: Dict<seq<LandmarkSet>>, n: nat, e: Example)
    requires d.Valid() && n <= |d.keys|
    ensures e in StoredUpTo(d, n) <==> e.name in d.keys[..n] && e.landmarks in d.values[e.name]
  {
    if n > 0 {
      StoredUpToMembers(d, n - 1, e);
      var g := d.keys[n - 1];
      assert d.keys[..n] == d.keys[..n - 1] + [g];
      assert e in Tagged(g, d.values[g]) <==> e.name == g && e.landmarks in d.values[g] by {
        if e.name == g && e.landmarks in d.values[g] {
          var i :| 0 <= i < |d.values[g]| && d.values[g][i] == e.landmarks;
          assert Tagged(g, d.values[g])[i] == e;
        }
      }
    }
  }

  /** The scan meets every stored example of every gesture, and nothing else. */
  lemma StoredMembers(d: Dict<seq<LandmarkSet>>, e: Example)
    requires d.Valid()
    ensures e in Stored(d) <==> e.name in d.values && e.landmarks in d.values[e.name]
  {
    StoredUpToMembers(d, |d.keys|, e);
    assert d.keys[..|d.keys|] == d.keys;
  }

  /** Scanning more gestures only extends what was scanned. */
  lemma {:induction false} StoredUpToPrefix(d: Dict<seq<LandmarkSet>>, m: nat, n: nat)
    requires d.Valid() && m <= n <= |d.keys|
    ensures |StoredUpTo(d, m)| <= |StoredUpTo(d, n)|
    ensures StoredUpTo(d, n)[..|StoredUpTo(d, m)|] == StoredUpTo(d, m)
  {
    if m < n {
      StoredUpToPrefix(d, m, n - 1);
    }
  }

  /** Every example has as many keypoints as the live hand, so no comparison raises. */
  ghost predicate Comparable(ex: seq<Example>, current: LandmarkSet)
  {
    forall k :: 0 <= k < |ex| ==> |ex[k].landmarks| == |current|
  }

  /** The squared distance from the live hand to an example of the same size. */
  function DistanceTo(current: LandmarkSet, e: Example): real
    requires |e.landmarks| == |current|
  {
    CompareGestures(current, e.landmarks).value
  }

  /** Example `k` is at least as close as every example, and strictly closer
      than every example before it: the one a strict-`<` scan keeps. */
  ghost predicate FirstNearest(ex: seq<Example>, current: LandmarkSet, k: int)
    requires Comparable(ex, current)
  {
    && 0 <= k < |ex|
    && (forall j :: 0 <= j < |ex| ==> DistanceTo(current, ex[k]) <= DistanceTo(current, ex[j]))
    && (forall j :: 0 <= j < k ==> DistanceTo(current, ex[k]) < DistanceTo(current, ex[j]))
  }

  /** Accepted distance, on squares: `distance <= RECOGNITION_THRESHOLD`. */
  predicate WithinThreshold(d: real)
  {
    d <= RecognitionThreshold * RecognitionThreshold
  }

  /** The variables of the scan: `minDistance` (None stands for
      `float('inf')`), `detected`, and, for the proofs, the position of the
      example that set them. */
  datatype Scan = Scan(minDistance: Option<real>, detected: Option<string>, best: nat)

  /** The scan over `ex`, one example at a time from the first: an example
      takes over only when its distance is strictly smaller than the
      minimum so far. */
  function ScanAll(ex: seq<Example>, current: LandmarkSet): Scan
    requires Comparable(ex, current)
  {
    if ex == [] then Scan(None, None, 0)
    else
      var last := |ex| - 1;
      var before := ScanAll(ex[..last], current);
      var distance := DistanceTo(current, ex[last]);
      if before.minDistance.None? || distance < before.minDistance.value
      then Scan(Some(distance), Some(ex[last].name), last)
      else before
  }

  /** One more example: the scan of `ex + [e]` is one step after the scan of `ex`. */
  lemma ScanNext(ex: seq<Example>, current: LandmarkSet, e: Example)
    requires Comparable(ex, current) && |e.landmarks| == |current|
    ensures Comparable(ex + [e], current)
    ensures var before := ScanAll(ex, current);
      var distance := DistanceTo(current, e);
      ScanAll(ex + [e], current) ==
        if before.minDistance.None? || distance < before.minDistance.value
        then Scan(Some(distance), Some(e.name), |ex|)
        else before
  {
    assert (ex + [e])[..|ex|] == ex;
  }

  /** What the scan establishes: `minDistance` is infinite only before the
      first example, and otherwise it is the distance of the first nearest
      example, whose gesture is `detected`. */
  lemma {:induction false} ScanFindsFirstNearest(ex: seq<Example>, current: LandmarkSet)
    requires Comparable(ex, current)
    ensures var scan := ScanAll(ex, current);
      && (scan.minDistance.None? <==> ex == [])
      && (scan.minDistance.None? ==> scan.detected.None?)
      && (scan.minDistance.Some? ==>
            && FirstNearest(ex, current, scan.best)
            && scan.minDistance.value == DistanceTo(current, ex[scan.best])
            && scan.detected == Some(ex[scan.best].name))
  {
    if ex != [] {
      var last := |ex| - 1;
      var prefix := ex[..last];
      assert Comparable(prefix, current);
      ScanFindsFirstNearest(prefix, current);
      assert forall j :: 0 <= j < last ==> prefix[j] == ex[j];
    }
  }

  /** What `detect_gesture` returns after a complete scan of `ex`: the
      gesture found, unless the minimum is infinite or above the threshold. */
  function Verdict(ex: seq<Example>, current: LandmarkSet): Option<string>
    requires Comparable(ex, current)
  {
    var scan := ScanAll(ex, current);
    if scan.minDistance.None? || scan.minDistance.value > RecognitionThreshold * RecognitionThreshold
    then None
    else scan.detected
  }

  /** The meaning of the verdict: a gesture is returned only for the first
      nearest example, and only when it is within the threshold; no
      gesture means no example is within the threshold. */
  lemma ScanVerdict(ex: seq<Example>, current: LandmarkSet)
    requires Comparable(ex, current)
    ensures Verdict(ex, current).Some? ==>
      exists k :: && FirstNearest(ex, current, k)
                  && ex[k].name == Verdict(ex, current).value
                  && WithinThreshold(DistanceTo(current, ex[k]))
    ensures Verdict(ex, current).None? ==>
      forall k :: 0 <= k < |ex| ==> !WithinThreshold(DistanceTo(current, ex[k]))
  {
    ScanFindsFirstNearest(ex, current);
    var scan := ScanAll(ex, current);
    if scan.minDistance.Some? && scan.minDistance.value <= RecognitionThreshold * RecognitionThreshold {
      assert FirstNearest(ex, current, scan.best);
    }
  }

  /** `detect_gesture`: records the live hand, scans every stored example
      of every gesture in iteration order keeping the strictly smaller
      distance, and rejects a minimum above the threshold. A stored set of
      another size makes the comparison raise, and the error escapes.
      What the verdict means is `ScanVerdict`. */
  method DetectGesture(vocab: Dict<seq<LandmarkSet>>, hand: seq<Landmark>)
    returns (r: Result<Option<string>, CompareError>)
    requires vocab.Valid()
    ensures r.Failure? <==> !Comparable(Stored(vocab), Triples(hand))
    ensures r.Success? ==> Comparable(Stored(vocab), Triples(hand)) && r.value == Verdict(Stored(vocab), Triples(hand))
  {
    var current := RecordGesture(hand);
    assert current == Triples(hand);
    var minDistance: Option<real> := None;  // None stands for float('inf')
    var detected: Option<string> := None;
    ghost var seen: seq<Example> := [];
    var i := 0;
    while i < |vocab.keys|
      invariant 0 <= i <= |vocab.keys|
      invariant seen == StoredUpTo(vocab, i)
      invariant Comparable(seen, current)
      invariant minDistance == ScanAll(seen, current).minDistance
      invariant detected == ScanAll(seen, current).detected
    {
      var gesture := vocab.keys[i];
      var storedLandmarks := vocab.values[gesture];
      var scanned := ScanGesture(current, gesture, storedLandmarks, minDistance, detected, seen);
      if scanned.Failure? {
        ghost var j :| 0 <= j < |storedLandmarks| && |storedLandmarks[j]| != |current|;
        ShapeErrorEscapes(vocab, i, j, current);
        return Failure(scanned.error);
      }
      minDistance, detected := scanned.value.0, scanned.value.1;
      seen := seen + Tagged(gesture, storedLandmarks);
      i := i + 1;
    }
    if minDistance.None? || minDistance.value > RecognitionThreshold * RecognitionThreshold {
      detected := None;
    }
    return Success(detected);
  }

  /** One gesture's turn in the scan of `detect_gesture`: its stored sets
      are compared with the live hand in list order, after the examples
      `seen` before it. Returns the updated minimum and gesture, or the
      error of the first comparison that raises. */
  method ScanGesture(current: LandmarkSet, gesture: string, storedLandmarks: seq<LandmarkSet>,
                     minDistance0: Option<real>, detected0: Option<string>, ghost seen0: seq<Example>)
    returns (r: Result<(Option<real>, Option<string>), CompareError>)
    requires Comparable(seen0, current)
    requires minDistance0 == ScanAll(seen0, current).minDistance
    requires detected0 == ScanAll(seen0, current).detected
    ensures r.Failure? <==> exists j :: 0 <= j < |storedLandmarks| && |storedLandmarks[j]| != |current|
    ensures r.Success? ==>
      var seen := seen0 + Tagged(gesture, storedLandmarks);
      && Comparable(seen, current)
      && r.value.0 == ScanAll(seen, current).minDistance
      && r.value.1 == ScanAll(seen, current).detected
  {
    var minDistance, detected := minDistance0, detected0;
    ghost var seen := seen0;
    var j := 0;
    while j < |storedLandmarks|
      invariant 0 <= j <= |storedLandmarks|
      invariant seen == seen0 + Tagged(gesture, storedLandmarks[..j])
      invariant forall j' :: 0 <= j' < j ==> |storedLandmarks[j']| == |current|
      invariant Comparable(seen, current)
      invariant minDistance == ScanAll(seen, current).minDistance
      invariant detected == ScanAll(seen, current).detected
    {
      var distance := CompareGestures(current, storedLandmarks[j]);
      if distance.Failure? {
        return Failure(distance.error);
      }
      var example := Example(gesture, storedLandmarks[j]);
      ScanNext(seen, current, example);
      TaggedNext(seen0, gesture, storedLandmarks, j);
      if minDistance.None? || distance.value < minDistance.value {
        minDistance := Some(distance.value);
        detected := Some(gesture);
      }
      seen := seen + [example];
      j := j + 1;
    }
    assert storedLandmarks[..j] == storedLandmarks;
    return Success((minDistance, detected));
  }

  /** The example at which the scan raises belongs to the full scan. */
  lemma ShapeErrorEscapes(vocab: Dict<seq<LandmarkSet>>, i: nat, j: nat, current: LandmarkSet)
    requires vocab.Valid() && i < |vocab.keys|
    requires j < |vocab.values[vocab.keys[i]]|
    requires |vocab.values[vocab.keys[i]][j]| != |current|
    ensures !Comparable(Stored(vocab), current)
  {
    var g := vocab.keys[i];
    StoredUpToPrefix(vocab, i + 1, |vocab.keys|);
    var p := |StoredUpTo(vocab, i)| + j;
    assert StoredUpTo(vocab, i + 1)[p] == Example(g, vocab.values[g][j]);
    assert Stored(vocab)[p] == Example(g, vocab.values[g][j]);
  }

  /** With no gesture stored, detection answers "no gesture" whatever the hand. */
  method DetectOnEmpty(hand: seq<Landmark>) returns (r: Result<Option<string>, CompareError>)
    ensures r == Success(None)
  {
    r := DetectGesture(Empty(), hand);
    assert Stored(Empty<seq<LandmarkSet>>()) == [];
  }

  /** In the terms of the dict itself: the gesture returned owns a stored
      set within the threshold, and no set of any gesture is strictly closer. */
  lemma NearestIsGlobalMinimum(vocab: Dict<seq<LandmarkSet>>, current: LandmarkSet, k: int)
    requires vocab.Valid() && Comparable(Stored(vocab), current)
    requires FirstNearest(Stored(vocab), current, k)
    ensures var e := Stored(vocab)[k];
      && e.name in vocab.values && e.landmarks in vocab.values[e.name]
      && forall g, s :: g in vocab.values && s in vocab.values[g] ==>
           |s| == |current| && DistanceTo(current, e) <= DistanceTo(current, Example(g, s))
  {
    var ex := Stored(vocab);
    StoredMembers(vocab, ex[k]);
    forall g, s | g in vocab.values && s in vocab.values[g]
      ensures |s| == |current| && DistanceTo(current, ex[k]) <= DistanceTo(current, Example(g, s))
    {
      StoredMembers(vocab, Example(g, s));
      var j :| 0 <= j < |ex| && ex[j] == Example(g, s);
    }
  }
}
