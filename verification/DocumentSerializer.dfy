/** The cleaned document the model reads: default stripping and depth truncation. */
module DocumentSerializer {
  import opened JsonValues
  import opened Options
  import opened DocumentTrees
  import opened Envelopes

  // ------------------------------------------------------------ equality

  predicate IsPrimitive(v: Value) {
    !v.Arr? && !v.Obj?
  }

  /** `deepEqual`: arrays item by item, objects by key count and then key by key. */
  predicate DeepEqual(a: Value, b: Value) {
    if IsPrimitive(a) && IsPrimitive(b) then a == b
    else if a.Arr? && b.Arr? then
      |a.items| == |b.items| && forall i | 0 <= i < |a.items| :: DeepEqual(a.items[i], b.items[i])
    else if a.Obj? && b.Obj? then
      |a.fields| == |b.fields| && forall k | k in a.fields :: k in b.fields && DeepEqual(a.fields[k], b.fields[k])
    else false
  }

  lemma SameSizeSubset(a: set<string>, b: set<string>)
    requires a <= b && |a| == |b|
    ensures a == b
  {
    if x :| x in b && x !in a {
      SubsetSize(a, b - {x});
    }
  }

  /** Comparing key counts and one direction of keys is full structural equality. */
  lemma {:induction false} DeepEqualIsEquality(a: Value, b: Value)
    ensures DeepEqual(a, b) <==> a == b
  {
    if a.Arr? && b.Arr? && |a.items| == |b.items| {
      forall i | 0 <= i < |a.items| ensures DeepEqual(a.items[i], b.items[i]) <==> a.items[i] == b.items[i] {
        DeepEqualIsEquality(a.items[i], b.items[i]);
      }
    } else if a.Obj? && b.Obj? && |a.fields| == |b.fields| {
      forall k | k in a.fields && k in b.fields
        ensures DeepEqual(a.fields[k], b.fields[k]) <==> a.fields[k] == b.fields[k]
      {
        DeepEqualIsEquality(a.fields[k], b.fields[k]);
      }
      if DeepEqual(a, b) {
        assert |a.fields.Keys| == |a.fields| && |b.fields.Keys| == |b.fields|;
        SameSizeSubset(a.fields.Keys, b.fields.Keys);
        assert a.fields == b.fields;
      }
    }
  }

  // ------------------------------------------------------------ stripping

  /** `isEmptyStructural`. */
  predicate IsEmptyStructural(v: Value) {
    (v.Arr? && v.items == []) || (v.Obj? && v.fields == map[])
  }

  /** Whether `stripDefaults` keeps key `k` of `value`, and what `strippedAgainstDefault` makes of it. */
  function Stripped(value: Value, default: Value): Value
    decreases value
  {
    if !value.Obj? || !default.Obj? then value
    else
      Obj(map k | k in value.fields
            && !(k in default.fields && DeepEqual(value.fields[k], default.fields[k]))
            && !IsEmptyStructural(if k in default.fields then Stripped(value.fields[k], default.fields[k]) else value.fields[k])
          :: if k in default.fields then Stripped(value.fields[k], default.fields[k]) else value.fields[k])
  }

  /** `stripDefaults`, entry by entry. */
  method StripDefaults(value: Value, default: Value) returns (r: Value)
    ensures r == Stripped(value, default)
    decreases value
  {
    if !value.Obj? || !default.Obj? {
      return value;
    }
    var out: Data := map[];
    var todo := value.fields.Keys;
    while todo != {}
      invariant todo <= value.fields.Keys
      invariant forall k :: k in out ==> k in value.fields.Keys - todo
      invariant forall k :: k in value.fields.Keys - todo ==> (k in out <==> k in Stripped(value, default).fields)
      invariant forall k :: k in out ==> k in Stripped(value, default).fields && out[k] == Stripped(value, default).fields[k]
      decreases todo
    {
      var key :| key in todo;
      var sub := value.fields[key];
      if key in default.fields && DeepEqual(sub, default.fields[key]) {
      } else {
        var stripped := sub;
        if key in default.fields { stripped := StripDefaults(sub, default.fields[key]); }
        if !IsEmptyStructural(stripped) { out := out[key := stripped]; }
      }
      todo := todo - {key};
    }
    assert out == Stripped(value, default).fields;
    r := Obj(out);
  }

  /** Puts the defaults back under a stripped value. */
  function Overlay(default: Value, stripped: Value): Value
    decreases default
  {
    if !default.Obj? || !stripped.Obj? then stripped
    else
      Obj(map k | k in default.fields.Keys + stripped.fields.Keys ::
            if k !in stripped.fields then default.fields[k]
            else if k in default.fields then Overlay(default.fields[k], stripped.fields[k])
            else stripped.fields[k])
  }

  /**
   * A value that carries every default key and has no empty array or object in a place
   * where it differs from its default, at every depth where both are objects.
   */
  predicate Carries(value: Value, default: Value)
    decreases value
  {
    value.Obj? && default.Obj? ==>
      && (forall k | k in default.fields :: k in value.fields)
      && (forall k | k in value.fields ::
            || (k in default.fields && value.fields[k] == default.fields[k])
            || (!IsEmptyStructural(value.fields[k]) && (k in default.fields ==> Carries(value.fields[k], default.fields[k]))))
  }

  /** Something is left of a carried value unless it is empty or its default. */
  lemma {:induction false} StrippedNotEmpty(value: Value, default: Value)
    requires Carries(value, default) && value != default && !IsEmptyStructural(value)
    ensures !IsEmptyStructural(Stripped(value, default))
  {
    if value.Obj? && default.Obj? {
      assert (forall k :: k in value.fields ==> k in default.fields && value.fields[k] == default.fields[k]) ==>
               value.fields == default.fields;
      var k :| k in value.fields && !(k in default.fields && value.fields[k] == default.fields[k]);
      if k in default.fields {
        DeepEqualIsEquality(value.fields[k], default.fields[k]);
        StrippedNotEmpty(value.fields[k], default.fields[k]);
      }
      assert k in Stripped(value, default).fields;
    }
  }

  lemma {:induction false} EmptyStaysEmpty(value: Value, default: Value)
    requires IsEmptyStructural(value)
    ensures Stripped(value, default) == value
  {
    if value.Obj? && default.Obj? {
      assert Stripped(value, default).fields == map[];
    }
  }

  /** What overlaying gives at one key of two objects. */
  lemma {:induction false} OverlayAt(value: Value, default: Value, k: string)
    requires value.Obj? && default.Obj? && k in value.fields
    ensures
      var back := Overlay(default, Stripped(value, default)).fields;
      if k in default.fields then
        k in back && back[k] ==
          if value.fields[k] == default.fields[k] || IsEmptyStructural(Stripped(value.fields[k], default.fields[k]))
          then default.fields[k]
          else Overlay(default.fields[k], Stripped(value.fields[k], default.fields[k]))
      else
        (k in back <==> !IsEmptyStructural(value.fields[k])) && (k in back ==> back[k] == value.fields[k])
  {
    if k in default.fields { DeepEqualIsEquality(value.fields[k], default.fields[k]); }
  }

  /** Stripping loses nothing exactly for the values that carry their defaults. */
  lemma {:induction false} StrippingLossless(value: Value, default: Value)
    ensures Overlay(default, Stripped(value, default)) == value <==> Carries(value, default)
    decreases value
  {
    if value.Obj? && default.Obj? {
      var back := Overlay(default, Stripped(value, default)).fields;
      forall k | k in value.fields
        ensures (k in back && back[k] == value.fields[k]) <==>
                || (k in default.fields && value.fields[k] == default.fields[k])
                || (!IsEmptyStructural(value.fields[k]) && (k in default.fields ==> Carries(value.fields[k], default.fields[k])))
      {
        OverlayAt(value, default, k);
        if k in default.fields && value.fields[k] != default.fields[k] {
          StrippingLossless(value.fields[k], default.fields[k]);
          if IsEmptyStructural(value.fields[k]) { EmptyStaysEmpty(value.fields[k], default.fields[k]); }
          else if Carries(value.fields[k], default.fields[k]) { StrippedNotEmpty(value.fields[k], default.fields[k]); }
        }
      }
      if Carries(value, default) {
        assert back.Keys == value.fields.Keys;
        assert back == value.fields;
      }
    }
  }

  /** A stripped value is its default again only if it already was, or the default is empty. */
  lemma {:induction false} StrippedNotDefault(value: Value, default: Value)
    requires Stripped(value, default) == default
    ensures value == default || IsEmptyStructural(default)
  {
    if value.Obj? && default.Obj? && default.fields != map[] {
      var k :| k in default.fields;
      assert k in Stripped(value, default).fields;
      DeepEqualIsEquality(value.fields[k], default.fields[k]);
      StrippedNotDefault(value.fields[k], default.fields[k]);
    }
  }

  /** Stripping twice is stripping once, for every value and every default. */
  lemma {:induction false} StrippingIdempotent(value: Value, default: Value)
    ensures Stripped(Stripped(value, default), default) == Stripped(value, default)
    decreases value
  {
    if value.Obj? && default.Obj? {
      var once := Stripped(value, default).fields;
      forall k | k in once
        ensures k in default.fields ==>
                  !DeepEqual(once[k], default.fields[k]) && Stripped(once[k], default.fields[k]) == once[k]
      {
        if k in default.fields {
          DeepEqualIsEquality(once[k], default.fields[k]);
          DeepEqualIsEquality(value.fields[k], default.fields[k]);
          if once[k] == default.fields[k] { StrippedNotDefault(value.fields[k], default.fields[k]); }
          StrippingIdempotent(value.fields[k], default.fields[k]);
        }
      }
      assert Stripped(Obj(once), default).fields == once;
    }
  }

  /** Nothing is left that is empty or its default, at every depth where both are objects. */
  predicate Minimal(value: Value, default: Value)
    decreases value
  {
    value.Obj? && default.Obj? ==>
      forall k | k in value.fields ::
        && !IsEmptyStructural(value.fields[k])
        && (k in default.fields ==> value.fields[k] != default.fields[k] && Minimal(value.fields[k], default.fields[k]))
  }

  lemma {:induction false} StrippingMinimal(value: Value, default: Value)
    ensures Minimal(Stripped(value, default), default)
    decreases value
  {
    if value.Obj? && default.Obj? {
      var out := Stripped(value, default).fields;
      forall k | k in out
        ensures !IsEmptyStructural(out[k])
        ensures k in default.fields ==> out[k] != default.fields[k] && Minimal(out[k], default.fields[k])
      {
        if k in default.fields {
          DeepEqualIsEquality(value.fields[k], default.fields[k]);
          if Stripped(value.fields[k], default.fields[k]) == default.fields[k] {
            StrippedNotDefault(value.fields[k], default.fields[k]);
          }
          StrippingMinimal(value.fields[k], default.fields[k]);
        }
      }
    }
  }

  // ------------------------------------------------------------ cleaning a tree

  /** Defaults by node type, from the schema. */
  datatype Tables = Tables(defaults: string -> Data)

  /** A rendered sibling list: full nodes, and stubs where the depth limit cuts. */
  datatype Cleaned =
    | Empty
    | Full(id: Id, typ: string, name: Option<string>, fields: Data, kids: Cleaned, next: Cleaned)
    | Stub(id: Id, typ: string, name: Option<string>, childCount: nat, next: Cleaned)

  function NameOf(data: Data): Option<string> {
    if "name" in data && data["name"].Str? then Some(data["name"].text) else None
  }

  function Unwrapped(data: Data): Data {
    map k | k in data && k != "name" :: Unwrap(data[k])
  }

  /** A code component shows its path and the length of its source, never the source. */
  function ComponentFields(data: Data): Data {
    var path := if "path" in data then Unwrap(data["path"]) else Undefined;
    var source := if "source" in data then Unwrap(data["source"]) else Undefined;
    (if path.Str? then map["path" := path] else map[])
    + map["sourceLength" := Num(if source.Str? then |source.text| as real else 0.0)]
  }

  function FieldsOf(typ: string, data: Data, tables: Tables): Data {
    if typ == "codeComponent" then ComponentFields(data)
    else Stripped(Obj(Unwrapped(data)), Obj(tables.defaults(typ))).fields
  }

  /** `cleanNode` over a sibling list at one depth. */
  function Clean(f: Forest, depth: nat, max: Option<int>, tables: Tables): Cleaned {
    if f.Nil? then Empty
    else if max.Some? && depth > max.value then
      Stub(f.id, f.typ, NameOf(f.data), Length(f.kids), Clean(f.next, depth, max, tables))
    else
      Full(f.id, f.typ, NameOf(f.data), FieldsOf(f.typ, f.data, tables),
           Clean(f.kids, depth + 1, max, tables), Clean(f.next, depth, max, tables))
  }

  /** The field loop of `cleanNode`: keys are written into a draft one by one. */
  method CleanFields(typ: string, data: Data, tables: Tables) returns (draft: Data)
    requires typ != "codeComponent"
    ensures draft == FieldsOf(typ, data, tables)
  {
    var defaults := tables.defaults(typ);
    draft := map[];
    var todo := data.Keys;
    while todo != {}
      invariant todo <= data.Keys
      invariant forall k :: k in draft ==> k in data.Keys - todo
      invariant forall k :: k in data.Keys - todo ==> (k in draft <==> k in FieldsOf(typ, data, tables))
      invariant forall k :: k in draft ==> k in FieldsOf(typ, data, tables) && draft[k] == FieldsOf(typ, data, tables)[k]
      decreases todo
    {
      var key :| key in todo;
      if key != "name" {
        var value := Unwrap(data[key]);
        if key in defaults && DeepEqual(value, defaults[key]) {
        } else {
          var stripped := value;
          if key in defaults { stripped := StripDefaults(value, defaults[key]); }
          if !IsEmptyStructural(stripped) { draft := draft[key := stripped]; }
        }
      }
      todo := todo - {key};
    }
    assert draft == FieldsOf(typ, data, tables);
  }

  method CleanNode(f: Forest, depth: nat, max: Option<int>, tables: Tables) returns (c: Cleaned)
    ensures c == Clean(f, depth, max, tables)
    decreases f
  {
    if f.Nil? {
      return Empty;
    }
    var next := CleanNode(f.next, depth, max, tables);
    if max.Some? && depth > max.value {
      return Stub(f.id, f.typ, NameOf(f.data), Length(f.kids), next);
    }
    var fields;
    if f.typ == "codeComponent" {
      fields := ComponentFields(f.data);
    } else {
      fields := CleanFields(f.typ, f.data, tables);
    }
    var kids := CleanNode(f.kids, depth + 1, max, tables);
    c := Full(f.id, f.typ, NameOf(f.data), fields, kids, next);
  }

  // ------------------------------------------------------------ truncation

  function CleanedLength(c: Cleaned): nat {
    if c.Empty? then 0 else 1 + CleanedLength(c.next)
  }

  /** Cuts a fully rendered list below the depth limit. */
  function Truncate(c: Cleaned, depth: nat, max: int): Cleaned {
    match c
    case Empty => Empty
    case Stub(id, typ, name, count, next) => Stub(id, typ, name, count, Truncate(next, depth, max))
    case Full(id, typ, name, fields, kids, next) =>
      if depth > max then Stub(id, typ, name, CleanedLength(kids), Truncate(next, depth, max))
      else Full(id, typ, name, fields, Truncate(kids, depth + 1, max), Truncate(next, depth, max))
  }

  lemma {:induction false} CleanedLengthIs(f: Forest, depth: nat, max: Option<int>, tables: Tables)
    ensures CleanedLength(Clean(f, depth, max, tables)) == Length(f)
  {
    if f.Node? { CleanedLengthIs(f.next, depth, max, tables); }
  }

  /** Rendering to a depth is rendering everything and cutting: shallow nodes are unaffected. */
  lemma {:induction false} DepthOnlyCuts(f: Forest, depth: nat, max: int, tables: Tables)
    ensures Clean(f, depth, Some(max), tables) == Truncate(Clean(f, depth, None, tables), depth, max)
  {
    if f.Node? {
      DepthOnlyCuts(f.kids, depth + 1, max, tables);
      DepthOnlyCuts(f.next, depth, max, tables);
      CleanedLengthIs(f.kids, depth + 1, None, tables);
    }
  }

  /**
   * Every node is shown with its id, type and name, if that is a text: in full down to level `max`, with all its
   * children, and one level below that as a stub that counts them.
   */
  predicate ShownDownTo(f: Forest, c: Cleaned, depth: nat, max: nat) {
    match f
    case Nil => c.Empty?
    case Node(id, typ, data, kids, next) =>
      && !c.Empty? && c.id == id && c.typ == typ && ShownDownTo(next, c.next, depth, max)
      && (c.name.Some? <==> "name" in data && data["name"].Str?) && (c.name.Some? ==> data["name"] == Str(c.name.value))
      && if depth <= max then c.Full? && ShownDownTo(kids, c.kids, depth + 1, max)
         else c.Stub? && depth == max + 1 && c.childCount == |Tops(kids)|
  }

  lemma {:induction false} CleanShows(f: Forest, depth: nat, max: nat, tables: Tables)
    requires depth <= max + 1
    ensures ShownDownTo(f, Clean(f, depth, Some(max), tables), depth, max)
  {
    if f.Node? {
      if depth <= max { CleanShows(f.kids, depth + 1, max, tables); }
      CleanShows(f.next, depth, max, tables);
      LengthIsTops(f.kids);
    }
  }

  lemma {:induction false} LengthIsTops(f: Forest)
    ensures Length(f) == |Tops(f)|
  {
    if f.Node? { LengthIsTops(f.next); }
  }

  // ------------------------------------------------------------ reading it back

  /** A document from its rendering: the defaults are put back under every node's fields. */
  function Restored(c: Cleaned, tables: Tables): Forest {
    match c
    case Empty => Nil
    case Stub(id, typ, name, _, next) => Node(id, typ, map[], Nil, Restored(next, tables))
    case Full(id, typ, name, fields, kids, next) =>
      var data := Overlay(Obj(tables.defaults(typ) - {"name"}), Obj(fields)).fields;
      Node(id, typ, if name.Some? then data["name" := Str(name.value)] else data,
           Restored(kids, tables), Restored(next, tables))
  }

  /** The stored data holds the logical data: the name as it is, and every other value with its arrays in envelopes. */
  predicate WrapsData(stored: Data, logical: Data) {
    && stored.Keys == logical.Keys
    && forall k | k in logical :: if k == "name" then stored[k] == logical[k] else Wraps(stored[k], logical[k])
  }

  /** The stored nodes hold the logical nodes. */
  predicate Holds(stored: Forest, f: Forest) {
    match f
    case Nil => stored.Nil?
    case Node(id, typ, data, kids, next) =>
      && stored.Node? && stored.id == id && stored.typ == typ
      && WrapsData(stored.data, data) && Holds(stored.kids, kids) && Holds(stored.next, next)
  }

  predicate NoComponents(f: Forest) {
    f.Node? ==> f.typ != "codeComponent" && NoComponents(f.kids) && NoComponents(f.next)
  }

  /** A node whose rendering shows everything it holds. */
  predicate Faithful(typ: string, data: Data, tables: Tables) {
    && ("name" in data ==> data["name"].Str?)
    && Carries(Obj(data - {"name"}), Obj(tables.defaults(typ) - {"name"}))
  }

  predicate AllFaithful(f: Forest, tables: Tables) {
    f.Node? ==> Faithful(f.typ, f.data, tables) && AllFaithful(f.kids, tables) && AllFaithful(f.next, tables)
  }

  lemma {:induction false} NameDefaultIgnored(data: Data, defaults: Data)
    requires "name" !in data
    ensures Stripped(Obj(data), Obj(defaults)) == Stripped(Obj(data), Obj(defaults - {"name"}))
  {
    assert Stripped(Obj(data), Obj(defaults)).fields == Stripped(Obj(data), Obj(defaults - {"name"})).fields;
  }

  /** The data a rendered node gives back. */
  function DataBack(typ: string, data: Data, tables: Tables): Data {
    var back := Overlay(Obj(tables.defaults(typ) - {"name"}), Obj(FieldsOf(typ, data, tables))).fields;
    if NameOf(data).Some? then back["name" := Str(NameOf(data).value)] else back
  }

  lemma {:induction false} DataBackIff(typ: string, stored: Data, data: Data, tables: Tables)
    requires typ != "codeComponent" && WrapsData(stored, data)
    ensures DataBack(typ, stored, tables) == data <==> Faithful(typ, data, tables)
  {
    hide Carries, Overlay, Stripped, Unwrapped, Wraps;
    var rest, defaults := data - {"name"}, tables.defaults(typ) - {"name"};
    StoredFields(typ, stored, data, tables);
    StrippingLossless(Obj(rest), Obj(defaults));
    NoNameBack(rest, defaults);
    var back := Overlay(Obj(defaults), Stripped(Obj(rest), Obj(defaults))).fields;
    if NameOf(data).Some? {
      assert data == rest["name" := data["name"]];
      if DataBack(typ, stored, tables) == data {
        assert back == rest by {
          forall k ensures k in back <==> k in rest {}
          forall k | k in back ensures back[k] == rest[k] { assert DataBack(typ, stored, tables)[k] == data[k]; }
        }
      }
    } else if "name" !in data {
      assert data == rest;
    }
  }

  lemma {:induction false} StoredFields(typ: string, stored: Data, data: Data, tables: Tables)
    requires typ != "codeComponent" && WrapsData(stored, data)
    ensures
      var rest, defaults := data - {"name"}, tables.defaults(typ) - {"name"};
      Obj(FieldsOf(typ, stored, tables)) == Stripped(Obj(rest), Obj(defaults))
  {
    hide Wraps, Unwrap, Stripped;
    var rest := data - {"name"};
    forall k | k in data && k != "name" ensures Unwrap(stored[k]) == data[k] {
      UnwrapRecovers(stored[k], data[k]);
    }
    assert Unwrapped(stored) == rest;
    NameDefaultIgnored(rest, tables.defaults(typ));
    assert Stripped(Obj(rest), Obj(tables.defaults(typ))).Obj? by { StrippedIsObject(rest, tables.defaults(typ)); }
  }

  lemma StrippedIsObject(data: Data, defaults: Data)
    ensures Stripped(Obj(data), Obj(defaults)).Obj?
  {}

  lemma NoNameBack(rest: Data, defaults: Data)
    requires "name" !in rest && "name" !in defaults
    ensures Overlay(Obj(defaults), Stripped(Obj(rest), Obj(defaults))).Obj?
    ensures "name" !in Overlay(Obj(defaults), Stripped(Obj(rest), Obj(defaults))).fields
  {}

  /**
   * A document without code components is recovered from the unlimited rendering of its stored form exactly when
   * every node is faithful.
   */
  lemma {:induction false} CleaningLosslessIff(stored: Forest, f: Forest, depth: nat, tables: Tables)
    requires Holds(stored, f) && NoComponents(f)
    ensures Restored(Clean(stored, depth, None, tables), tables) == f <==> AllFaithful(f, tables)
  {
    hide Faithful, DataBack, FieldsOf, Overlay, WrapsData;
    if f.Node? {
      DataBackIff(f.typ, stored.data, f.data, tables);
      CleaningLosslessIff(stored.kids, f.kids, depth + 1, tables);
      CleaningLosslessIff(stored.next, f.next, depth, tables);
      RestoredNode(stored, depth, tables);
    }
  }

  lemma RestoredNode(f: Forest, depth: nat, tables: Tables)
    requires f.Node?
    ensures Restored(Clean(f, depth, None, tables), tables) ==
            Node(f.id, f.typ, DataBack(f.typ, f.data, tables),
                 Restored(Clean(f.kids, depth + 1, None, tables), tables), Restored(Clean(f.next, depth, None, tables), tables))
  {}

  // ------------------------------------------------------------ code components

  /**
   * The rendering of a code component shows its path, if that is a text, and the length of its source, and no other
   * field; two sources of one length are rendered alike, at any depth limit.
   */
  lemma {:induction false} SourceNotShown(f: Forest, source: string, other: string, depth: nat, max: Option<int>, tables: Tables)
    requires f.Node? && f.typ == "codeComponent" && |other| == |source|
    ensures
      var data := f.data["source" := Str(source)];
      var shown := FieldsOf(f.typ, data, tables);
      && shown.Keys <= {"path", "sourceLength"}
      && "sourceLength" in shown && shown["sourceLength"] == Num(|source| as real)
      && ("path" in shown <==> "path" in data && data["path"].Str?)
      && ("path" in shown ==> shown["path"] == data["path"])
      && Clean(f.(data := data), depth, max, tables) == Clean(f.(data := data["source" := Str(other)]), depth, max, tables)
  {
    var one, two := f.data["source" := Str(source)], f.data["source" := Str(source)]["source" := Str(other)];
    assert ComponentFields(one) == ComponentFields(two);
    assert NameOf(one) == NameOf(two);
  }
}
