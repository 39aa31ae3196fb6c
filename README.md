# Gesture vocabulary and matcher — a Dafny model

This project models the core of a hand-gesture-to-input program. The
program records hand landmarks from a camera and stores them per gesture.
It recognises a live hand by finding the nearest stored example, and edits
and persists its gesture vocabulary. Two source files make up the core:

- `secondcheck.py`, the key-mapping program. A module-level dict
  `gesture_key_map` maps a key name to the landmark sets recorded for it.
  `detect_gesture` scans every stored set of every key in dict order. It
  keeps the strictly smaller Euclidean distance and rejects a minimum above
  `RECOGNITION_THRESHOLD = 0.5`. Menu actions append to the dict, delete
  from it and save it as JSON.
- `gesture_recognition.py`, class `GestureRecognition`. A dict
  `gesture_mappings` maps a gesture name to recorded camera frames.
  `train_model` runs the hand detector on every stored frame. It builds
  parallel lists `X` (feature vectors) and `y` (gesture names) and fits a
  nearest-neighbours classifier on them when they are non-empty.

Modules:

- `Wrappers` (wrappers.dfy): `Option` for Python's `None` and `Result` for
  an exception that escapes.
- `Landmarks` (landmarks.dfy): a detected keypoint, the `(x, y, z)` triples
  stored for it, and the NumPy flattening of a landmark set.
- `PyDict` (pydict.dfy): a Python dict with string keys. It is kept as a
  key order plus a map, because dicts iterate in insertion order and the
  matcher's tie-break depends on that order. It provides `d[k] = v` and
  `del d[k]`.
- `Matching` (matching.dfy): `record_gesture`, `compare_gestures` and
  `detect_gesture`.
- `KeyMapping` (keymapping.dfy): the key-mapping program's dict as class
  `GestureKeyMap`, its menu edits, and the tuple/list conversion done by
  `save_mappings` and `load_mappings`.
- `Recognition` (recognition.dfy): `extract_features`, the training set
  `train_model` assembles, and class `GestureRecognition`.

Modelling choices:

- Coordinates are `real`s. The norm `np.linalg.norm` is modelled by its
  square. The square root is strictly increasing on non-negative values,
  so comparing squares picks the same minimum and breaks the same ties.
  A norm exceeds 0.5 exactly when its square exceeds 0.25 (lemma
  `Matching.NormOrderIsSquareOrder`).
- `compare_gestures` on landmark sets of different sizes subtracts arrays
  of 3n and 3m elements. Neither length can broadcast to the other, so
  NumPy raises. The model returns `Failure(ShapeMismatch(..))`, and
  `detect_gesture` lets that failure escape as the source lets the
  exception escape.
- `float('inf')`, the starting minimum, is `None` in an `Option<real>`.
- `hands.process` is an arbitrary total function, `HandDetector`, from a
  stored frame to the hands found in it. `GestureRecognition` is given one
  at construction.
- Each JSON file is modelled by a field holding the value last written, or
  `None` while no file exists. Loading and saving read and write that field.

Where the prose description of the system and the code disagree, the
model follows the code:

- Editing appends one example in `secondcheck.py` and replaces the whole
  list in `gesture_recognition.py`. Each is modelled as written.
- No check that a hand has 21 keypoints exists in the code, and none is
  modelled.
- The empty string is accepted as a key. `delete_gesture` and the edit
  menu then skip it, because it is falsy.
- `GestureRecognition.delete_gesture` does not retrain. The fitted
  classifier keeps the deleted gesture's samples until the next
  retraining that finds at least one sample. A retraining that finds none
  leaves the old fit in place.
- `train_model` leaves the previous fit in place when no sample is found.

## Model

| member | source | states |
|---|---|---|
| Matching.RecordGesture | secondcheck.py:45-50 | one `(x, y, z)` triple per detected keypoint, same count, same order |
| Landmarks.Flatten | secondcheck.py:54-55 | the flattened landmark set has three values per keypoint |
| Landmarks.FlattenAt | secondcheck.py:54-55 | element `3i+j` of the flattened vector is coordinate `j` of keypoint `i` |
| Matching.SqDist | secondcheck.py:56 | the squared Euclidean distance is non-negative |
| Matching.CompareGestures | secondcheck.py:52-57 | fails exactly when the two sets differ in size; otherwise the distance is non-negative |
| Matching.CompareSymmetric | secondcheck.py:52-57 | the distance is symmetric, and so is its failure |
| Matching.CompareSelf | secondcheck.py:52-57 | a landmark set is at distance zero from itself |
| Matching.SqDistSymmetric | secondcheck.py:56 | the squared norm of `u - v` equals that of `v - u` |
| Matching.SqDistSelf | secondcheck.py:56 | the squared norm of `u - u` is zero |
| Matching.NormOrderIsSquareOrder | secondcheck.py:69-75 | for non-negative norms, `<` between norms and the threshold test agree with the same tests on squares |
| Matching.StoredMembers | secondcheck.py:66-67 | the nested loop meets exactly the stored sets of the stored keys |
| Matching.StoredUpToPrefix | secondcheck.py:66-67 | scanning more keys only extends the examples already met |
| Matching.ScanNext | secondcheck.py:68-71 | one step of the scan: a strictly smaller distance takes over, otherwise the state is kept |
| Matching.ScanFindsFirstNearest | secondcheck.py:63-71 | after the scan the minimum is infinite only when no example exists; otherwise it belongs to an example no example is closer than, and every earlier example is strictly farther (first one met wins ties) |
| Matching.ScanVerdict | secondcheck.py:73-77 | a returned gesture owns the first nearest example, and that example is within the threshold; no gesture means every example is beyond the threshold |
| Matching.DetectGesture | secondcheck.py:59-77 | raises exactly when some stored set differs in size from the live hand; otherwise returns the verdict of the in-order scan over every stored example, whose meaning is `ScanVerdict` |
| Matching.ScanGesture | secondcheck.py:67-71 | one gesture's stored sets, in list order, extend the scan by exactly those examples; it raises exactly when one of them differs in size from the live hand |
| Matching.ShapeErrorEscapes | secondcheck.py:66-68 | one stored set whose size differs from the live hand's makes detection on that vocabulary raise |
| Matching.DetectOnEmpty | secondcheck.py:63-77 | with an empty dict detection returns `None` for any hand |
| Matching.NearestIsGlobalMinimum | secondcheck.py:66-77 | the example found is a stored set of its gesture, and no set of any gesture is strictly closer |
| PyDict.SetItem | secondcheck.py:121 | `d[k] = v`: `k` maps to `v`, the other keys keep their values, and a new key goes last in the order |
| PyDict.DelItem | secondcheck.py:227 | `del d[k]`: `k` is gone, the other keys keep their values, and the key order is the old one with `k` filtered out |
| PyDict.WithoutAt | secondcheck.py:227 | in a duplicate-free key order, filtering out a key is cutting its single position out |
| PyDict.IndexOf | secondcheck.py:227 | finds the single position of a present key |
| PyDict.RemoveAt | secondcheck.py:227 | removing one key from the order keeps it duplicate-free and holding every other key |
| KeyMapping.GestureKeyMap.constructor | secondcheck.py:17-20 | the program starts with the dict `{}` and whatever mappings file exists |
| KeyMapping.GestureKeyMap.LoadMappings | secondcheck.py:25-36 | with a file, the dict becomes the decoded file content; without one, it is left as it is |
| KeyMapping.GestureKeyMap.SaveMappings | secondcheck.py:38-43 | the file holds the encoded dict: same keys, same order |
| KeyMapping.GestureKeyMap.MapGestureToKey | secondcheck.py:116-123 | for a captured hand, an existing key gets it appended and a new key gets a one-element list placed last; no other key changes and the file is saved; with nothing captured nothing changes |
| KeyMapping.GestureKeyMap.EditGesture | secondcheck.py:216-219 | appends exactly one example to the existing gesture, changes no other key or the order, and saves |
| KeyMapping.GestureKeyMap.DeleteGesture | secondcheck.py:221-231 | removes exactly the selected key, which must be present, non-empty and confirmed, keeps the other keys and their order, and saves; otherwise nothing changes |
| KeyMapping.ToJson | secondcheck.py:42 | the saved form has the same keys in the same order and the same number of sets per key, and every row holds three numbers |
| KeyMapping.FromJson | secondcheck.py:30-33 | the loaded form has the file's keys in the file's order and the same number of sets per key |
| KeyMapping.SetRoundTrip | secondcheck.py:33 | converting a set back after converting it out gives the same set |
| KeyMapping.JsonRoundTrip | secondcheck.py:30-42 | loading what was saved gives back the same dict: keys, order and sets |
| Recognition.ExtractFeatures | gesture_recognition.py:47-48 | the feature vector has length `3 ×` the number of keypoints |
| Recognition.ExtractFeaturesAt | gesture_recognition.py:47-48 | element `3i+j` of the feature vector is coordinate `j` of keypoint `i` |
| Recognition.CollectSamples | gesture_recognition.py:51-58 | the loops build exactly `X` and `y` of the whole dict: every hand of every frame of every gesture, in dict order |
| Recognition.FramesNext | gesture_recognition.py:53-58 | each frame appends its hands' samples and labels after those already collected |
| Recognition.HandsNext | gesture_recognition.py:56-58 | each hand found appends one sample to `X` and one label to `y` |
| Recognition.HandsAreFeatures | gesture_recognition.py:56-57 | the samples of one frame are feature vectors of three values per keypoint |
| Recognition.FramesAligned | gesture_recognition.py:53-58 | within one gesture, `X` and `y` grow by the same amount and every label is that gesture's name |
| Recognition.FramesAreFeatures | gesture_recognition.py:53-57 | every sample from a gesture's frames is a feature vector of three values per keypoint |
| Recognition.TrainingSetAligned | gesture_recognition.py:50-58 | `X` and `y` have equal length and every label is a key of `gesture_mappings` |
| Recognition.TrainingSamplesAreFeatures | gesture_recognition.py:50-58 | every sample in `X` has a length divisible by three |
| Recognition.GestureRecognition.constructor | gesture_recognition.py:10-23 | starts from the file's dict, or `{}` without one, then trains |
| Recognition.GestureRecognition.TrainModel | gesture_recognition.py:50-60 | `X`/`y` are the samples and labels of every hand in every frame of every gesture, in dict order; fitted only when both are non-empty, otherwise the previous fit stays |
| Recognition.GestureRecognition.SaveGestures | gesture_recognition.py:25-27 | the file holds the whole dict |
| Recognition.GestureRecognition.CaptureGesture | gesture_recognition.py:44-45 | the gesture's list is replaced by the recorded frames, other entries are unchanged, and the classifier is retrained; the file is not written |
| Recognition.GestureRecognition.DeleteGesture | gesture_recognition.py:73-76 | a present name is removed, the others keep their values and order, and the file is saved; an absent name changes nothing and saves nothing |
| Recognition.GestureRecognition.EditGesture | gesture_recognition.py:78-81 | only an existing name is re-captured (replaced and retrained) and saved; otherwise nothing changes |

## Left out

- Camera capture, display and key-polling loops (`map_gesture_to_key`
  and `edit_gesture` before their commit, `capture_and_detect`, and the
  loop in `capture_gesture`). They are I/O. The captured landmarks or
  frames they produce are parameters of the modelled commits.
  `secondcheck.py` calls `keyboard.is_pressed` without importing
  `keyboard`. Those loops would raise at that call; this is not modelled.
- `select_gesture` and `list_gestures` are console I/O. For deletion,
  their membership check and the truthiness check of `delete_gesture`
  are folded into `DeleteGesture`'s condition. `EditGesture` models
  `edit_gesture` itself. Its requires holds only the membership that
  `select_gesture` guarantees. `edit_gesture` has no truthiness check of
  its own, so `EditGesture` accepts the name `""`. The menu's
  `if gesture_to_edit:` test, which keeps `""` away, is not modelled.
- The hand detector (`hands.process`) is an arbitrary function. The
  BGR-to-RGB conversion and the image flip are not modelled.
- The nearest-neighbours classifier's `fit` and `predict`, and therefore
  `recognize_gesture`. The library code is not part of this model. A fit
  is modelled as recording the training set it was given.
- `trigger_key`, `mouse_control.py` and `main.py` are OS input injection,
  threads and a menu loop.
- File reading and writing, `os.path.exists` and JSON text are not
  modelled. A file is the value last saved. What the conversion does to
  the data is modelled: saving writes each keypoint as a three-number
  array, and loading reads the rows back as keypoints. `list(lm)` and
  `tuple(lm)` convert a whole landmark set. Loading therefore gives a
  tuple of lists, where recording gives a list of tuples. NumPy treats
  both alike, so the container kinds are not distinguished.
- KeyMapping.GestureKeyMap.constructor: requires every row in an existing
  mappings file to hold three numbers. A hand-edited file with other rows
  is not modelled.
- IEEE floating point, including NaN and overflow of the NumPy distance.
  Reals are used.
- Matching.CompareSelf: proves only that equal sets are at distance zero,
  not the converse (distance zero implies equal sets).
