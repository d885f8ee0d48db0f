/**
 * The check of a node input and the normal form of its data. The schema tables are parameters;
 * of a field check only "error or no error" is modelled.
 */
module EditInputs {
  import opened JsonValues
  import opened EditSemantics

  datatype Schema = Schema(
    canBeChildOf: (string, string) -> bool,
    fieldsOk: (string, Data) -> bool,
    patchOk: (string, Data) -> bool,
    enableFields: (string, Data) -> Data,
    enablePatch: (string, Data) -> Data)

  datatype Code =
    | UnknownNode | UnknownParent | IllegalChild | MoveCycle | InvalidNodeType
    | InvalidFields | EmptyBatch | ProtectedTarget | OverlappingEdits

  const INSERTABLE_NODE_TYPES: seq<string> :=
    ["screen", "view", "scrollView", "text", "shape", "path", "component"]

  predicate Insertable(typ: string) {
    typ in INSERTABLE_NODE_TYPES
  }

  // ------------------------------------------------------------ paths

  /** The list from its `n`-th input on. */
  function Nth(list: Input, n: nat): Input {
    if list.NoInput? || n == 0 then list else Nth(list.next, n - 1)
  }

  /** What a path leads to: its first number counts siblings, and the rest goes on among the children. */
  function At(list: Input, path: seq<nat>): Input
    requires path != []
    decreases |path|
  {
    var node := Nth(list, path[0]);
    if |path| == 1 || node.NoInput? then node else At(node.kids, path[1..])
  }

  /** The path leads to an input, through inputs of insertable types only. */
  predicate Reaches(list: Input, path: seq<nat>)
    decreases |path|
  {
    && path != []
    && Nth(list, path[0]).InputNode? && Insertable(Nth(list, path[0]).typ)
    && (|path| > 1 ==> Reaches(Nth(list, path[0]).kids, path[1..]))
  }

  /** The input the path leads to holds fields its type does not allow. */
  predicate BadFields(schema: Schema, list: Input, path: seq<nat>)
    requires path != []
  {
    At(list, path).InputNode? && !schema.fieldsOk(At(list, path).typ, At(list, path).fields)
  }

  /** Some input on a path through insertable types, from the head of the list, has fields its type does not allow. */
  ghost predicate FieldsFault(schema: Schema, inp: Input) {
    exists path: seq<nat> | path != [] && path[0] == 0 && Reaches(inp, path) :: BadFields(schema, inp, path)
  }

  /** The first input of the list passes: its type may be inserted, and the fields of all that is reached from it are allowed. */
  ghost predicate InputOk(schema: Schema, inp: Input) {
    inp.InputNode? && Insertable(inp.typ) && !FieldsFault(schema, inp)
  }

  // ------------------------------------------------------------ the check

  /** `validateNodeInput` of the first node in the list: stops at a type that cannot be inserted. */
  function InputErrors(schema: Schema, inp: Input): seq<Code>
    requires inp.InputNode?
    decreases inp, 0
  {
    if !Insertable(inp.typ) then [InvalidNodeType]
    else (if schema.fieldsOk(inp.typ, inp.fields) then [] else [InvalidFields]) + ChildInputErrors(schema, inp.kids)
  }

  /** Children whose type cannot be inserted are passed over, not reported. */
  function ChildInputErrors(schema: Schema, inp: Input): seq<Code>
    decreases inp, 1
  {
    if inp.NoInput? then []
    else (if Insertable(inp.typ) then InputErrors(schema, inp) else []) + ChildInputErrors(schema, inp.next)
  }

  /** Some input of the list is reached that has fields its type does not allow. */
  ghost predicate ListFault(schema: Schema, list: Input) {
    exists path: seq<nat> | Reaches(list, path) :: BadFields(schema, list, path)
  }

  /** A path from the head goes on below it. */
  lemma {:induction false} HeadFault(schema: Schema, inp: Input)
    requires inp.InputNode? && Insertable(inp.typ)
    ensures FieldsFault(schema, inp) <==> !schema.fieldsOk(inp.typ, inp.fields) || ListFault(schema, inp.kids)
  {
    if FieldsFault(schema, inp) {
      var path: seq<nat> :| path != [] && path[0] == 0 && Reaches(inp, path) && BadFields(schema, inp, path);
      if |path| > 1 {
        assert Reaches(inp.kids, path[1..]) && BadFields(schema, inp.kids, path[1..]);
      }
    }
    if !schema.fieldsOk(inp.typ, inp.fields) {
      assert Reaches(inp, [0]) && BadFields(schema, inp, [0]);
    }
    if ListFault(schema, inp.kids) {
      var below: seq<nat> :| Reaches(inp.kids, below) && BadFields(schema, inp.kids, below);
      var path := [0] + below;
      assert path[1..] == below;
      assert Reaches(inp, path) && BadFields(schema, inp, path);
    }
  }

  /** A path into a list starts at its head or leads into the rest. */
  lemma {:induction false} RestFault(schema: Schema, list: Input)
    requires list.InputNode?
    ensures ListFault(schema, list) <==> FieldsFault(schema, list) || ListFault(schema, list.next)
  {
    if ListFault(schema, list) {
      var path: seq<nat> :| Reaches(list, path) && BadFields(schema, list, path);
      if path[0] > 0 {
        var rest: seq<nat> := [path[0] - 1] + path[1..];
        assert rest[1..] == path[1..];
        assert Reaches(list.next, rest) && BadFields(schema, list.next, rest);
      }
    }
    if ListFault(schema, list.next) {
      var rest: seq<nat> :| Reaches(list.next, rest) && BadFields(schema, list.next, rest);
      var path: seq<nat> := [rest[0] + 1] + rest[1..];
      assert path[1..] == rest[1..];
      assert Reaches(list, path) && BadFields(schema, list, path);
    }
  }

  /** The children report nothing but field errors, and some exactly if one of those reached has one. */
  lemma {:induction false} ChildErrorsExactly(schema: Schema, list: Input)
    ensures InvalidFields in ChildInputErrors(schema, list) <==> ListFault(schema, list)
    ensures forall c :: c in ChildInputErrors(schema, list) ==> c == InvalidFields
    decreases list, 1
  {
    hide ListFault, FieldsFault, Insertable;
    if list.NoInput? {
      NothingFaulty(schema);
    } else {
      RestFault(schema, list);
      ChildErrorsExactly(schema, list.next);
      if Insertable(list.typ) {
        InputErrorsExactly(schema, list);
      } else {
        NotReached(schema, list);
      }
    }
  }

  lemma NothingFaulty(schema: Schema)
    ensures !ListFault(schema, NoInput)
  {}

  lemma NotReached(schema: Schema, inp: Input)
    requires inp.InputNode? && !Insertable(inp.typ)
    ensures !FieldsFault(schema, inp)
  {}

  /** The check of an input reports exactly that its type may not be inserted, or that some input reached has illegal fields. */
  lemma {:induction false} InputErrorsExactly(schema: Schema, inp: Input)
    requires inp.InputNode?
    ensures InvalidNodeType in InputErrors(schema, inp) <==> !Insertable(inp.typ)
    ensures InvalidFields in InputErrors(schema, inp) <==> Insertable(inp.typ) && FieldsFault(schema, inp)
    ensures forall c :: c in InputErrors(schema, inp) ==> c == InvalidNodeType || c == InvalidFields
    ensures InputErrors(schema, inp) == [] <==> InputOk(schema, inp)
    decreases inp, 0
  {
    hide ListFault, FieldsFault, Insertable;
    var errors := InputErrors(schema, inp);
    if Insertable(inp.typ) {
      HeadFault(schema, inp);
      ChildErrorsExactly(schema, inp.kids);
    }
    assert errors != [] ==> errors[0] in errors;
  }

  // ------------------------------------------------------------ derived flags

  /** `deriveEnabledFlagsForNodeInput`, over a list. */
  function Enable(schema: Schema, inp: Input): (r: Input)
    ensures r.InputNode? <==> inp.InputNode?
    ensures inp.InputNode? ==> r.typ == inp.typ && (r.next.NoInput? <==> inp.next.NoInput?)
  {
    if inp.NoInput? then NoInput
    else InputNode(inp.typ, schema.enableFields(inp.typ, inp.fields), Enable(schema, inp.kids), Enable(schema, inp.next))
  }

  lemma {:induction false} EnableNth(schema: Schema, list: Input, n: nat)
    ensures Nth(Enable(schema, list), n) == Enable(schema, Nth(list, n))
  {
    if list.InputNode? && n > 0 { EnableNth(schema, list.next, n - 1); }
  }

  /** The normal form has the same paths, to nodes of the same types, and each holds its own fields with their flags. */
  lemma {:induction false} EnableAt(schema: Schema, list: Input, path: seq<nat>)
    requires path != []
    ensures
      var was, now := At(list, path), At(Enable(schema, list), path);
      && (now.InputNode? <==> was.InputNode?)
      && (now.InputNode? ==> now.typ == was.typ && now.fields == schema.enableFields(was.typ, was.fields))
    ensures Reaches(Enable(schema, list), path) <==> Reaches(list, path)
    decreases |path|
  {
    hide Insertable;
    EnableNth(schema, list, path[0]);
    var node := Nth(list, path[0]);
    if |path| > 1 && node.InputNode? { EnableAt(schema, node.kids, path[1..]); }
  }

  /** Flags that keep legal fields legal keep a legal input legal. */
  lemma {:induction false} EnableOk(schema: Schema, inp: Input)
    requires InputOk(schema, inp)
    requires forall typ, f :: schema.fieldsOk(typ, f) ==> schema.fieldsOk(typ, schema.enableFields(typ, f))
    ensures InputOk(schema, Enable(schema, inp))
  {
    hide Enable;
    forall path: seq<nat> | path != [] && path[0] == 0 && Reaches(Enable(schema, inp), path)
      ensures !BadFields(schema, Enable(schema, inp), path)
    {
      EnableAt(schema, inp, path);
      assert !BadFields(schema, inp, path);
    }
  }
}
