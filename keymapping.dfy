/** The key-mapping program's vocabulary: the module-level dict that maps
    a key name to the landmark sets recorded for it, the edits its menu
    makes to that dict, and the conversion done when it is written to and
    read back from its JSON file. */
module KeyMapping {
  import opened Wrappers
  import opened Landmarks
  import opened PyDict

  /** A landmark set as JSON holds it: an array of `[x, y, z]` arrays. */
  type JsonSet = seq<seq<real>>

  /** `[list(lm) for lm in landmarks]` followed by JSON serialisation: the
      JSON encoding writes each keypoint triple as a three-element array. */
  function EncodeSet(s: LandmarkSet): JsonSet
  {
    seq(|s|, i requires 0 <= i < |s| => [s[i].0, s[i].1, s[i].2])
  }

  /** Every row of a stored set has the three coordinates of a keypoint. */
  ghost predicate WellShapedSet(j: JsonSet)
  {
    forall i :: 0 <= i < |j| ==> |j[i]| == 3
  }

  /** `[tuple(lm) for lm in landmarks]` after JSON parsing: the rows are
      read back as keypoints. */
  function DecodeSet(j: JsonSet): LandmarkSet
    requires WellShapedSet(j)
  {
    seq(|j|, i requires 0 <= i < |j| => (j[i][0], j[i][1], j[i][2]))
  }

  function EncodeSets(sets: seq<LandmarkSet>): seq<JsonSet>
  {
    seq(|sets|, i requires 0 <= i < |sets| => EncodeSet(sets[i]))
  }

  function DecodeSets(js: seq<JsonSet>): seq<LandmarkSet>
    requires forall i :: 0 <= i < |js| ==> WellShapedSet(js[i])
  {
    seq(|js|, i requires 0 <= i < |js| => DecodeSet(js[i]))
  }

  /** Every stored set in a JSON vocabulary is well shaped. */
  ghost predicate WellShaped(j: Dict<seq<JsonSet>>)
  {
    forall k :: k in j.values ==> forall i :: 0 <= i < |j.values[k]| ==> WellShapedSet(j.values[k][i])
  }

  /** What `save_mappings` writes: the same keys in the same order, each
      landmark set encoded. */
  function ToJson(d: Dict<seq<LandmarkSet>>): (j: Dict<seq<JsonSet>>)
    requires d.Valid()
    ensures j.Valid() && WellShaped(j)
    ensures j.keys == d.keys
    ensures forall k :: k in j.values <==> k in d.values
    ensures forall k :: k in d.values ==> |j.values[k]| == |d.values[k]|
  {
    Dict(d.keys, map k | k in d.values :: EncodeSets(d.values[k]))
  }

  /** What `load_mappings` builds from the file: the same keys in the same
      order, each landmark set decoded. */
  function FromJson(j: Dict<seq<JsonSet>>): (d: Dict<seq<LandmarkSet>>)
    requires j.Valid() && WellShaped(j)
    ensures d.Valid()
    ensures d.keys == j.keys
    ensures forall k :: k in d.values <==> k in j.values
    ensures forall k :: k in j.values ==> |d.values[k]| == |j.values[k]|
  {
    Dict(j.keys, map k | k in j.values :: DecodeSets(j.values[k]))
  }

  /** Decoding a set undoes encoding it. */
  lemma SetRoundTrip(s: LandmarkSet)
    ensures WellShapedSet(EncodeSet(s)) && DecodeSet(EncodeSet(s)) == s
  {
    var j := EncodeSet(s);
    assert forall i :: 0 <= i < |s| ==> DecodeSet(j)[i] == s[i];
  }

  /** Reading back what was saved gives the vocabulary that was saved:
      same keys, same order, same landmark sets. */
  lemma JsonRoundTrip(d: Dict<seq<LandmarkSet>>)
    requires d.Valid()
    ensures FromJson(ToJson(d)) == d
  {
    var back := FromJson(ToJson(d));
    forall k | k in d.values
      ensures back.values[k] == d.values[k]
    {
      var sets := d.values[k];
      forall i | 0 <= i < |sets| ensures DecodeSet(EncodeSet(sets[i])) == sets[i] {
        SetRoundTrip(sets[i]);
      }
      assert DecodeSets(EncodeSets(sets)) == sets;
    }
    assert back.values == d.values;
  }

  /** The module-level state of the key-mapping program: `gesture_key_map`
      and the content of its mappings file (None while no file exists). */
  class GestureKeyMap {
    var mappings: Dict<seq<LandmarkSet>>
    var file: Option<Dict<seq<JsonSet>>>

    ghost predicate Valid()
      reads this
    {
      && mappings.Valid()
      && (file.Some? ==> file.value.Valid() && WellShaped(file.value))
    }

    /** Program start: the dict is `{}`; the file is whatever is on disk. */
    constructor (file: Option<Dict<seq<JsonSet>>>)
      requires file.Some? ==> file.value.Valid() && WellShaped(file.value)
      ensures Valid()
      ensures mappings == Empty() && this.file == file
    {
      mappings := Empty();
      this.file := file;
    }

    /** `load_mappings`: replaces the dict with the file's content, or
        leaves it as it is when there is no file. */
    method LoadMappings()
      requires Valid()
      modifies this`mappings
      ensures Valid()
      ensures mappings == if file.Some? then FromJson(file.value) else old(mappings)
    {
      if file.Some? {
        mappings := FromJson(file.value);
      }
    }

    /** `save_mappings`: the file now holds the whole dict. */
    method SaveMappings()
      requires Valid()
      modifies this`file
      ensures Valid()
      ensures file == Some(ToJson(mappings))
    {
      file := Some(ToJson(mappings));
    }

    /** The end of `map_gesture_to_key`: when a hand was captured, append
        its landmarks to the key's list, or give a new key a one-element
        list at the end of the order; then save. Nothing happens when no
        hand (or an empty one) was captured. */
    method MapGestureToKey(key: string, captured: Option<LandmarkSet>)
      requires Valid()
      modifies this
      ensures Valid()
      ensures captured.None? || captured.value == [] ==>
        mappings == old(mappings) && file == old(file)
      ensures captured.Some? && captured.value != [] ==>
        && key in mappings.values
        && mappings.values[key] == (if key in old(mappings.values)
                                    then old(mappings.values[key]) + [captured.value]
                                    else [captured.value])
        && AgreeExcept(mappings, old(mappings), key)
        && mappings.keys == (if key in old(mappings.values) then old(mappings.keys) else old(mappings.keys) + [key])
        && file == Some(ToJson(mappings))
    {
      if captured.Some? && captured.value != [] {
        if key in mappings.values {
          mappings := SetItem(mappings, key, mappings.values[key] + [captured.value]);
        } else {
          mappings := SetItem(mappings, key, [captured.value]);
        }
        SaveMappings();
      }
    }

    /** The end of `edit_gesture`, for a gesture already in the dict: append
        the captured landmarks to its list and save. */
    method EditGesture(gesture: string, captured: Option<LandmarkSet>)
      requires Valid() && gesture in mappings.values
      modifies this
      ensures Valid()
      ensures captured.None? || captured.value == [] ==>
        mappings == old(mappings) && file == old(file)
      ensures captured.Some? && captured.value != [] ==>
        && gesture in mappings.values
        && mappings.values[gesture] == old(mappings.values[gesture]) + [captured.value]
        && AgreeExcept(mappings, old(mappings), gesture)
        && mappings.keys == old(mappings.keys)
        && file == Some(ToJson(mappings))
    {
      if captured.Some? && captured.value != [] {
        mappings := SetItem(mappings, gesture, mappings.values[gesture] + [captured.value]);
        SaveMappings();
      }
    }

    /** `delete_gesture`: the name chosen by `select_gesture` is deleted,
        and the file saved, only when it is in the dict, is not the empty
        (falsy) string, and the user confirmed; otherwise nothing changes. */
    method DeleteGesture(selected: string, confirmed: bool)
      requires Valid()
      modifies this
      ensures Valid()
      ensures var deleted := selected in old(mappings.values) && selected != "" && confirmed;
        && (!deleted ==> mappings == old(mappings) && file == old(file))
        && (deleted ==>
              && selected !in mappings.values
              && AgreeExcept(mappings, old(mappings), selected)
              && mappings.keys == Without(old(mappings.keys), selected)
              && file == Some(ToJson(mappings)))
    {
      if selected in mappings.values && selected != "" && confirmed {
        mappings := DelItem(mappings, selected);
        SaveMappings();
      }
    }
  }
}
