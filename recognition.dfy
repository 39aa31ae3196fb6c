/** The class-based recogniser: per-gesture lists of recorded camera
    frames, the feature vector of a detected hand, and the assembly of the
    training set handed to the nearest-neighbours classifier. */
module Recognition {
  import opened Wrappers
  import opened Landmarks
  import opened PyDict

  /** An RGB frame as `frame_rgb.tolist()` stores it: rows of `[r, g, b]` pixels. */
  type Frame = seq<seq<seq<int>>>

  /** `hands.process(frame).multi_hand_landmarks`: the hands the detector
      finds in a frame, each as its keypoints (empty when it finds none). */
  type HandDetector = Frame -> seq<seq<Landmark>>

  /** The samples and labels the classifier was last fitted on. */
  datatype TrainingSet = TrainingSet(x: seq<seq<real>>, y: seq<string>)

  /** `extract_features`: the coordinates of every keypoint, flattened. */
  function ExtractFeatures(hand: seq<Landmark>): (v: seq<real>)
    ensures |v| == 3 * |hand|
  {
    Flatten(Triples(hand))
  }

  /** Element `3 * i + j` of the feature vector is coordinate `j` of keypoint `i`. */
  lemma ExtractFeaturesAt(hand: seq<Landmark>, i: nat, j: nat)
    requires i < |hand| && j < 3
    ensures ExtractFeatures(hand)[3 * i + j] == LandmarkCoord(hand[i], j)
  {
    FlattenAt(Triples(hand), i, j);
  }

  /** The samples contributed by the hands found in one frame. */
  function HandsX(hands: seq<seq<Landmark>>): seq<seq<real>>
  {
    seq(|hands|, k requires 0 <= k < |hands| => ExtractFeatures(hands[k]))
  }

  /** Their labels: the gesture's name, once per hand. */
  function HandsY(hands: seq<seq<Landmark>>, gesture: string): seq<string>
  {
    seq(|hands|, k requires 0 <= k < |hands| => gesture)
  }

  /** The samples of a gesture's frames, frame after frame. */
  function FramesX(detect: HandDetector, frames: seq<Frame>): seq<seq<real>>
  {
    if frames == [] then []
    else FramesX(detect, frames[..|frames| - 1]) + HandsX(detect(frames[|frames| - 1]))
  }

  function FramesY(detect: HandDetector, frames: seq<Frame>, gesture: string): seq<string>
  {
    if frames == [] then []
    else FramesY(detect, frames[..|frames| - 1], gesture) + HandsY(detect(frames[|frames| - 1]), gesture)
  }

  /** `X` after the first `n` gestures of the dict. */
  function TrainX(detect: HandDetector, d: Dict<seq<Frame>>, n: nat): seq<seq<real>>
    requires d.Valid() && n <= |d.keys|
  {
    if n == 0 then []
    else TrainX(detect, d, n - 1) + FramesX(detect, d.values[d.keys[n - 1]])
  }

  /** `y` after the first `n` gestures of the dict. */
  function TrainY(detect: HandDetector, d: Dict<seq<Frame>>, n: nat): seq<string>
    requires d.Valid() && n <= |d.keys|
  {
    if n == 0 then []
    else TrainY(detect, d, n - 1) + FramesY(detect, d.values[d.keys[n - 1]], d.keys[n - 1])
  }

  /** Within one gesture: one label per sample, every label the gesture's name. */
  lemma {:induction false} FramesAligned(detect: HandDetector, frames: seq<Frame>, gesture: string)
    ensures |FramesX(detect, frames)| == |FramesY(detect, frames, gesture)|
    ensures forall l :: l in FramesY(detect, frames, gesture) ==> l == gesture
  {
    if frames != [] {
      FramesAligned(detect, frames[..|frames| - 1], gesture);
    }
  }

  /** `X` and `y` have the same length, and every label is a key of the dict. */
  lemma {:induction false} TrainingSetAligned(detect: HandDetector, d: Dict<seq<Frame>>, n: nat)
    requires d.Valid() && n <= |d.keys|
    ensures |TrainX(detect, d, n)| == |TrainY(detect, d, n)|
    ensures forall l :: l in TrainY(detect, d, n) ==> l in d.values
  {
    if n > 0 {
      TrainingSetAligned(detect, d, n - 1);
      FramesAligned(detect, d.values[d.keys[n - 1]], d.keys[n - 1]);
    }
  }

  /** Every sample is the feature vector of a hand: three values per keypoint. */
  lemma {:induction false} TrainingSamplesAreFeatures(detect: HandDetector, d: Dict<seq<Frame>>, n: nat)
    requires d.Valid() && n <= |d.keys|
    ensures forall v :: v in TrainX(detect, d, n) ==> |v| % 3 == 0
  {
    if n > 0 {
      TrainingSamplesAreFeatures(detect, d, n - 1);
      FramesAreFeatures(detect, d.values[d.keys[n - 1]]);
    }
  }

  lemma {:induction false} FramesAreFeatures(detect: HandDetector, frames: seq<Frame>)
    ensures forall v :: v in FramesX(detect, frames) ==> |v| % 3 == 0
  {
    if frames != [] {
      var prefix := frames[..|frames| - 1];
      var hands := detect(frames[|frames| - 1]);
      FramesAreFeatures(detect, prefix);
      HandsAreFeatures(hands);
      assert FramesX(detect, frames) == FramesX(detect, prefix) + HandsX(hands);
    }
  }

  /** The samples of one frame are feature vectors. */
  lemma HandsAreFeatures(hands: seq<seq<Landmark>>)
    ensures forall v :: v in HandsX(hands) ==> |v| % 3 == 0
  {
    forall v | v in HandsX(hands) ensures |v| % 3 == 0 {
      var k :| 0 <= k < |hands| && HandsX(hands)[k] == v;
      assert |v| == 3 * |hands[k]|;
    }
  }

  /** The training set a dict of stored frames yields. */
  function Training(detect: HandDetector, d: Dict<seq<Frame>>): TrainingSet
    requires d.Valid()
  {
    TrainingSet(TrainX(detect, d, |d.keys|), TrainY(detect, d, |d.keys|))
  }

  /** `if X and y`: the classifier is fitted only on a non-empty training set. */
  predicate Fits(t: TrainingSet)
  {
    t.x != [] && t.y != []
  }

  /** Class `GestureRecognition`: its gesture-to-frames dict, the
      classifier's fitted state, the detector it runs on stored frames,
      and the content of its JSON file. */
  class GestureRecognition {
    const hands: HandDetector
    var gestureMappings: Dict<seq<Frame>>
    /** None until the classifier is first fitted. */
    var model: Option<TrainingSet>
    /** The content of the gestures file; None while it does not exist. */
    var file: Option<Dict<seq<Frame>>>

    ghost predicate Valid()
      reads this
    {
      gestureMappings.Valid() && (file.Some? ==> file.value.Valid())
    }

    /** `__init__`: load the file if there is one (else start from `{}`),
        then train. */
    constructor (hands: HandDetector, file: Option<Dict<seq<Frame>>>)
      requires file.Some? ==> file.value.Valid()
      ensures Valid()
      ensures this.hands == hands && this.file == file
      ensures gestureMappings == if file.Some? then file.value else Empty()
      ensures model == if Fits(Training(hands, gestureMappings)) then Some(Training(hands, gestureMappings)) else None
    {
      this.hands := hands;
      this.file := file;
      gestureMappings := if file.Some? then file.value else Empty();
      model := None;
      new;
      TrainModel();
    }

    /** `save_gestures`: the file now holds the whole dict. */
    method SaveGestures()
      requires Valid()
      modifies this`file
      ensures Valid()
      ensures file == Some(gestureMappings)
    {
      file := Some(gestureMappings);
    }

    /** `train_model`: for every gesture, every stored frame and every hand
        the detector finds in it, append the hand's features to `X` and the
        gesture's name to `y`; fit only when both are non-empty, otherwise
        the classifier keeps its previous fit. */
    method TrainModel()
      requires Valid()
      modifies this`model
      ensures Valid()
      ensures model == if Fits(Training(hands, gestureMappings)) then Some(Training(hands, gestureMappings)) else old(model)
    {
      var X, y := CollectSamples(hands, gestureMappings);
      if X != [] && y != [] {
        model := Some(TrainingSet(X, y));
      }
    }

    /** `capture_gesture`, after the camera loop: the gesture's list is
        REPLACED by the recorded frames (a new name goes last in the
        order), then the classifier is retrained. The file is not written. */
    method CaptureGesture(gestureName: string, frames: seq<Frame>)
      requires Valid()
      modifies this`gestureMappings, this`model
      ensures Valid()
      ensures gestureName in gestureMappings.values && gestureMappings.values[gestureName] == frames
      ensures AgreeExcept(gestureMappings, old(gestureMappings), gestureName)
      ensures gestureMappings.keys == if gestureName in old(gestureMappings.values) then old(gestureMappings.keys)
                                      else old(gestureMappings.keys) + [gestureName]
      ensures model == if Fits(Training(hands, gestureMappings)) then Some(Training(hands, gestureMappings)) else old(model)
    {
      gestureMappings := SetItem(gestureMappings, gestureName, frames);
      TrainModel();
    }

    /** `delete_gesture`: a present name is removed and the file saved; an
        absent one changes nothing and saves nothing. The classifier is not
        retrained either way. */
    method DeleteGesture(gestureName: string)
      requires Valid()
      modifies this`gestureMappings, this`file
      ensures Valid()
      ensures gestureName !in old(gestureMappings.values) ==>
        gestureMappings == old(gestureMappings) && file == old(file)
      ensures gestureName in old(gestureMappings.values) ==>
        && gestureName !in gestureMappings.values
        && AgreeExcept(gestureMappings, old(gestureMappings), gestureName)
        && gestureMappings.keys == Without(old(gestureMappings.keys), gestureName)
        && file == Some(gestureMappings)
    {
      if gestureName in gestureMappings.values {
        gestureMappings := DelItem(gestureMappings, gestureName);
        SaveGestures();
      }
    }

    /** `edit_gesture`: only a name already present is re-captured (its
        list replaced, the classifier retrained) and the file saved. */
    method EditGesture(gestureName: string, frames: seq<Frame>)
      requires Valid()
      modifies this`gestureMappings, this`model, this`file
      ensures Valid()
      ensures gestureName !in old(gestureMappings.values) ==>
        gestureMappings == old(gestureMappings) && model == old(model) && file == old(file)
      ensures gestureName in old(gestureMappings.values) ==>
        && gestureName in gestureMappings.values && gestureMappings.values[gestureName] == frames
        && AgreeExcept(gestureMappings, old(gestureMappings), gestureName)
        && gestureMappings.keys == old(gestureMappings.keys)
        && model == (if Fits(Training(hands, gestureMappings)) then Some(Training(hands, gestureMappings)) else old(model))
        && file == Some(gestureMappings)
    {
      if gestureName in gestureMappings.values {
        CaptureGesture(gestureName, frames);
        SaveGestures();
      }
    }
  }

  /** The loops of `train_model`: for every gesture, every stored frame and
      every hand the detector finds in it, append the hand's features to
      `X` and the gesture's name to `y`. */
  method CollectSamples(detect: HandDetector, d: Dict<seq<Frame>>) returns (X: seq<seq<real>>, y: seq<string>)
    requires d.Valid()
    ensures X == TrainX(detect, d, |d.keys|) && y == TrainY(detect, d, |d.keys|)
  {
    X, y := [], [];
    var i := 0;
    while i < |d.keys|
      invariant 0 <= i <= |d.keys|
      invariant X == TrainX(detect, d, i)
      invariant y == TrainY(detect, d, i)
    {
      var gesture := d.keys[i];
      var frames := d.values[gesture];
      ghost var X0, y0 := X, y;
      var j := 0;
      while j < |frames|
        invariant 0 <= j <= |frames|
        invariant X == X0 + FramesX(detect, frames[..j])
        invariant y == y0 + FramesY(detect, frames[..j], gesture)
      {
        var result := detect(frames[j]);
        FramesNext(detect, frames, gesture, j, X0, y0);
        ghost var X1, y1 := X, y;
        var k := 0;
        while k < |result|
          invariant 0 <= k <= |result|
          invariant X == X1 + HandsX(result[..k])
          invariant y == y1 + HandsY(result[..k], gesture)
        {
          HandsNext(result, gesture, k, X1, y1);
          X := X + [ExtractFeatures(result[k])];
          y := y + [gesture];
          k := k + 1;
        }
        assert result[..k] == result;
        j := j + 1;
      }
      assert frames[..j] == frames;
      i := i + 1;
    }
  }

  /** One more frame of a gesture appends that frame's samples and labels
      after whatever `X0` and `y0` already hold. */
  lemma FramesNext(detect: HandDetector, frames: seq<Frame>, gesture: string, j: nat,
                   X0: seq<seq<real>>, y0: seq<string>)
    requires j < |frames|
    ensures X0 + FramesX(detect, frames[..j + 1]) == X0 + FramesX(detect, frames[..j]) + HandsX(detect(frames[j]))
    ensures y0 + FramesY(detect, frames[..j + 1], gesture) == y0 + FramesY(detect, frames[..j], gesture) + HandsY(detect(frames[j]), gesture)
  {
    assert frames[..j + 1][..j] == frames[..j];
  }

  /** One more hand of a frame appends its sample and label after
      whatever `X0` and `y0` already hold. */
  lemma HandsNext(hands: seq<seq<Landmark>>, gesture: string, k: nat, X0: seq<seq<real>>, y0: seq<string>)
    requires k < |hands|
    ensures X0 + HandsX(hands[..k + 1]) == X0 + HandsX(hands[..k]) + [ExtractFeatures(hands[k])]
    ensures y0 + HandsY(hands[..k + 1], gesture) == y0 + HandsY(hands[..k], gesture) + [gesture]
  {
    assert HandsX(hands[..k + 1]) == HandsX(hands[..k]) + [ExtractFeatures(hands[k])];
    assert HandsY(hands[..k + 1], gesture) == HandsY(hands[..k], gesture) + [gesture];
  }
}
