/** The ordered entries `{ id, pos, value }` in which stored arrays hold their elements. */
module Envelopes {
  import opened JsonValues

  predicate IsEnvelope(v: Value) {
    v.Obj? && "value" in v.fields && "id" in v.fields && "pos" in v.fields
  }

  /** `unwrapEntries`: one envelope comes off every array element. */
  function Unwrap(v: Value): Value
    decreases v, 1
  {
    match v
    case Arr(items) => Arr(seq(|items|, i requires 0 <= i < |items| => UnwrapEntry(items[i])))
    case Obj(fields) => Obj(map k | k in fields :: Unwrap(fields[k]))
    case _ => v
  }

  function UnwrapEntry(item: Value): Value
    decreases item, 2
  {
    if IsEnvelope(item) then Unwrap(item.fields["value"]) else Unwrap(item)
  }

  /** `stored` holds `logical` with every array element in an envelope. */
  predicate Wraps(stored: Value, logical: Value)
    decreases logical
  {
    match logical
    case Arr(items) =>
      && stored.Arr? && |stored.items| == |items|
      && forall i | 0 <= i < |items| :: IsEnvelope(stored.items[i]) && Wraps(stored.items[i].fields["value"], items[i])
    case Obj(fields) =>
      && stored.Obj? && stored.fields.Keys == fields.Keys
      && forall k | k in fields :: Wraps(stored.fields[k], fields[k])
    case _ => stored == logical
  }

  /** Unwrapping gives back what was stored, whatever it was. */
  lemma {:induction false} UnwrapRecovers(stored: Value, logical: Value)
    requires Wraps(stored, logical)
    ensures Unwrap(stored) == logical
  {
    match logical
    case Arr(items) =>
      forall i | 0 <= i < |items| ensures UnwrapEntry(stored.items[i]) == items[i] {
        UnwrapRecovers(stored.items[i].fields["value"], items[i]);
      }
      assert Unwrap(stored).items == items;
    case Obj(fields) =>
      forall k | k in fields ensures Unwrap(stored.fields[k]) == fields[k] {
        UnwrapRecovers(stored.fields[k], fields[k]);
      }
      assert Unwrap(stored).fields == fields;
    case _ =>
  }

  /** No array holds an envelope. */
  predicate Bare(v: Value) {
    match v
    case Arr(items) => forall i | 0 <= i < |items| :: !IsEnvelope(items[i]) && Bare(items[i])
    case Obj(fields) => forall k | k in fields :: Bare(fields[k])
    case _ => true
  }

  lemma UnwrapKeepsKeys(v: Value)
    ensures IsEnvelope(Unwrap(v)) <==> IsEnvelope(v)
  {}

  /** No envelope is what its payload unwraps to. */
  lemma {:induction false} NoSelfEnvelope(v: Value)
    requires IsEnvelope(v)
    ensures Unwrap(v.fields["value"]) != v
  {
    var payload := v.fields["value"];
    UnwrapKeepsKeys(payload);
    if IsEnvelope(payload) { NoSelfEnvelope(payload); }
  }

  /** Unwrapping leaves a value alone exactly if it holds no envelopes. */
  lemma {:induction false} UnwrapFixedIff(v: Value)
    ensures Unwrap(v) == v <==> Bare(v)
  {
    match v
    case Arr(items) =>
      forall i | 0 <= i < |items| ensures UnwrapEntry(items[i]) == items[i] <==> !IsEnvelope(items[i]) && Bare(items[i]) {
        UnwrapFixedIff(items[i]);
        if IsEnvelope(items[i]) { NoSelfEnvelope(items[i]); }
      }
      if Bare(v) { assert Unwrap(v).items == items; }
    case Obj(fields) =>
      forall k | k in fields ensures Unwrap(fields[k]) == fields[k] <==> Bare(fields[k]) {
        UnwrapFixedIff(fields[k]);
      }
      if Bare(v) { assert Unwrap(v).fields == fields; }
    case _ =>
  }

  /** No envelope of an array holds another envelope. */
  predicate OneLayer(v: Value)
    decreases v, 1
  {
    match v
    case Arr(items) => forall i | 0 <= i < |items| :: OneLayerEntry(items[i])
    case Obj(fields) => forall k | k in fields :: OneLayer(fields[k])
    case _ => true
  }

  predicate OneLayerEntry(item: Value)
    decreases item, 2
  {
    if IsEnvelope(item) then !IsEnvelope(item.fields["value"]) && OneLayer(item.fields["value"]) else OneLayer(item)
  }

  lemma {:induction false} UnwrappedBareIff(v: Value)
    ensures Bare(Unwrap(v)) <==> OneLayer(v)
  {
    match v
    case Arr(items) =>
      forall i | 0 <= i < |items|
        ensures !IsEnvelope(UnwrapEntry(items[i])) && Bare(UnwrapEntry(items[i])) <==> OneLayerEntry(items[i])
      {
        var inner := if IsEnvelope(items[i]) then items[i].fields["value"] else items[i];
        UnwrapKeepsKeys(inner);
        UnwrappedBareIff(inner);
      }
      var out := Unwrap(v).items;
      assert Bare(Unwrap(v)) <==> forall i :: 0 <= i < |out| ==> !IsEnvelope(out[i]) && Bare(out[i]);
      assert forall i :: 0 <= i < |out| ==> out[i] == UnwrapEntry(items[i]);
    case Obj(fields) =>
      forall k | k in fields ensures Bare(Unwrap(fields[k])) <==> OneLayer(fields[k]) {
        UnwrappedBareIff(fields[k]);
      }
      var out := Unwrap(v).fields;
      assert Bare(Unwrap(v)) <==> forall k :: k in out ==> Bare(out[k]);
      assert forall k :: k in out ==> out[k] == Unwrap(fields[k]);
    case _ =>
  }

  /** Only one layer comes off: unwrapping twice is unwrapping once exactly if no envelope holds another. */
  lemma UnwrapTwiceIff(v: Value)
    ensures Unwrap(Unwrap(v)) == Unwrap(v) <==> OneLayer(v)
  {
    UnwrapFixedIff(Unwrap(v));
    UnwrappedBareIff(v);
  }
}
