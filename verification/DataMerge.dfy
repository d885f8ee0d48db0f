/** The deep merge an `update` edit performs on a node's data. */
module DataMerge {
  import opened JsonValues

  /** Objects merge key by key; `Undefined` deletes; anything else replaces. */
  function MergeValue(existing: Value, incoming: Value): Value
    decreases incoming
  {
    if existing.Obj? && incoming.Obj? then
      Obj(map k | k in existing.fields.Keys + incoming.fields.Keys
                  && !(k in incoming.fields && incoming.fields[k].Undefined?) ::
                  if k !in incoming.fields then existing.fields[k]
                  else if k in existing.fields then MergeValue(existing.fields[k], incoming.fields[k])
                  else incoming.fields[k])
    else incoming
  }

  function Merge(data: Data, patch: Data): Data {
    MergeValue(Obj(data), Obj(patch)).fields
  }

  /** `mergeData`: copies `data`, then folds the entries of `patch` in, in any order. */
  method MergeData(data: Data, patch: Data) returns (out: Data)
    ensures out == Merge(data, patch)
    decreases Obj(patch)
  {
    out := data;
    var todo := patch.Keys;
    while todo != {}
      invariant todo <= patch.Keys
      invariant forall k :: k in patch.Keys - todo ==>
                  (k in out <==> k in Merge(data, patch))
      invariant forall k :: k in patch.Keys - todo && k in out ==> out[k] == Merge(data, patch)[k]
      invariant forall k :: k !in patch.Keys - todo ==> (k in out <==> k in data)
      invariant forall k :: k !in patch.Keys - todo && k in out ==> out[k] == data[k]
      decreases todo
    {
      var key :| key in todo;
      var value := patch[key];
      assert key in out ==> out[key] == data[key];
      ghost var before := out;
      if value.Undefined? {
        out := out - {key};
      } else if key in out && out[key].Obj? && value.Obj? {
        var merged := MergeData(out[key].fields, value.fields);
        out := out[key := Obj(merged)];
        assert out[key] == MergeValue(data[key], value) == Merge(data, patch)[key];
      } else {
        out := out[key := value];
        assert key in data ==> MergeValue(data[key], value) == value;
        assert out[key] == Merge(data, patch)[key];
      }
      assert forall k :: k != key ==> (k in out <==> k in before) && (k in out ==> out[k] == before[k]);
      todo := todo - {key};
    }
  }

  /** Reads the value at a path of object keys; `Undefined` where there is none. */
  function At(v: Value, path: seq<string>): Value {
    if path == [] then v
    else if v.Obj? && path[0] in v.fields then At(v.fields[path[0]], path[1..])
    else Undefined
  }

  /** Walking `path` down the objects of `patch` ends at a key the object does not have. */
  predicate Missing(patch: Value, path: seq<string>) {
    patch.Obj? && path != [] &&
    (path[0] !in patch.fields || Missing(patch.fields[path[0]], path[1..]))
  }

  /**
   * What can be read after a merge, path by path: fields the patch does not mention
   * keep their value; where it gives a non-object, or deletes, that is what is read.
   */
  lemma {:induction false} MergeRead(existing: Value, incoming: Value, path: seq<string>)
    ensures Missing(incoming, path) ==> At(MergeValue(existing, incoming), path) == At(existing, path)
    ensures !Missing(incoming, path) && !At(incoming, path).Obj? ==>
              At(MergeValue(existing, incoming), path) == At(incoming, path)
  {
    if !existing.Obj? {
      if Missing(incoming, path) { MissingIsUndefined(incoming, path); }
    } else if incoming.Obj? && path != [] && path[0] in incoming.fields && path[0] in existing.fields {
      MergeRead(existing.fields[path[0]], incoming.fields[path[0]], path[1..]);
    } else if incoming.Obj? && path != [] && path[0] in incoming.fields && Missing(incoming, path) {
      MissingIsUndefined(incoming, path);
    }
  }

  lemma {:induction false} MissingIsUndefined(v: Value, path: seq<string>)
    requires Missing(v, path)
    ensures At(v, path).Undefined?
  {
    if path[0] in v.fields {
      MissingIsUndefined(v.fields[path[0]], path[1..]);
    }
  }

  /** No `Undefined` field at any depth of the objects (array items are opaque). */
  predicate Clean(v: Value) {
    v.Obj? ==> forall k | k in v.fields :: !v.fields[k].Undefined? && Clean(v.fields[k])
  }

  lemma {:induction false} MergeSelf(v: Value)
    ensures MergeValue(v, v) == v <==> Clean(v)
  {
    if v.Obj? {
      forall k | k in v.fields
        ensures MergeValue(v.fields[k], v.fields[k]) == v.fields[k] <==> Clean(v.fields[k])
      {
        MergeSelf(v.fields[k]);
      }
      if k :| k in v.fields && !(!v.fields[k].Undefined? && Clean(v.fields[k])) {
        assert MergeValue(v, v).fields != v.fields by {
          if k in MergeValue(v, v).fields {
            assert MergeValue(v, v).fields[k] != v.fields[k];
          }
        }
      } else {
        assert MergeValue(v, v).fields == v.fields;
      }
    }
  }

  /** Every object the patch puts where there was none is free of deletions. */
  predicate Settled(existing: Value, incoming: Value)
    decreases incoming
  {
    if existing.Obj? && incoming.Obj? then
      forall k | k in incoming.fields :: incoming.fields[k].Undefined? ||
        (if k in existing.fields then Settled(existing.fields[k], incoming.fields[k]) else Clean(incoming.fields[k]))
    else Clean(incoming)
  }

  /**
   * Applying one patch twice is applying it once exactly when the patch is settled.
   * A deletion inside an object that replaces something is stored the first time and
   * carried out only the second time.
   */
  lemma {:induction false} MergeIdempotent(existing: Value, incoming: Value)
    ensures MergeValue(MergeValue(existing, incoming), incoming) == MergeValue(existing, incoming)
            <==> Settled(existing, incoming)
    decreases incoming
  {
    if existing.Obj? && incoming.Obj? {
      var once := MergeValue(existing, incoming);
      forall k | k in incoming.fields && !incoming.fields[k].Undefined?
        ensures MergeValue(once.fields[k], incoming.fields[k]) == once.fields[k] <==>
                (if k in existing.fields then Settled(existing.fields[k], incoming.fields[k]) else Clean(incoming.fields[k]))
      {
        if k in existing.fields { MergeIdempotent(existing.fields[k], incoming.fields[k]); }
        else { MergeSelf(incoming.fields[k]); }
      }
      var twice := MergeValue(once, incoming);
      if Settled(existing, incoming) {
        assert twice.fields == once.fields;
      } else {
        var k :| k in incoming.fields && !incoming.fields[k].Undefined? &&
                 !(if k in existing.fields then Settled(existing.fields[k], incoming.fields[k]) else Clean(incoming.fields[k]));
        assert twice.fields[k] != once.fields[k];
      }
    } else {
      MergeSelf(incoming);
    }
  }
}
