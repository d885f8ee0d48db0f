/** Batch validation against the committed tree. */
module EditValidation {
  import opened JsonValues
  import opened Options
  import opened DocumentTrees
  import opened EditSemantics
  import opened EditInputs

  datatype EditError = EditError(editIndex: nat, code: Code)

  datatype Verdict = Accepted(edits: seq<Edit>) | Rejected(errors: seq<EditError>)

  // ------------------------------------------------------------ what is legal

  function TypeOf(t: Forest, x: Id): string
    requires x in Ids(t)
  {
    Sub(t, x).typ
  }

  predicate Mutable(t: Forest, x: Id)
    requires x in Ids(t) && t.Node?
  {
    x != t.id && TypeOf(t, x) != "library" && TypeOf(t, x) != "codeComponent"
  }

  /** Every listed input may stand under `parentType` and passes its own check. */
  ghost predicate ChildrenLegal(schema: Schema, inp: Input, parentType: string) {
    forall n: nat :: Nth(inp, n).InputNode? ==>
      schema.canBeChildOf(Nth(inp, n).typ, parentType) && InputOk(schema, Nth(inp, n))
  }

  /** Some listed input may not stand under `parentType`. */
  ghost predicate Misplaced(schema: Schema, inp: Input, parentType: string) {
    exists n: nat | Nth(inp, n).InputNode? :: !schema.canBeChildOf(Nth(inp, n).typ, parentType)
  }

  /** Some listed input has a type that may not be inserted. */
  ghost predicate Uninsertable(inp: Input) {
    exists n: nat | Nth(inp, n).InputNode? :: !Insertable(Nth(inp, n).typ)
  }

  /** Some listed input has illegal fields, at its head or further down. */
  ghost predicate Malformed(schema: Schema, inp: Input) {
    exists n: nat | Nth(inp, n).InputNode? && Insertable(Nth(inp, n).typ) :: FieldsFault(schema, Nth(inp, n))
  }

  lemma {:induction false} ListStep(schema: Schema, inp: Input, parentType: string)
    ensures inp.InputNode? ==>
              && (Misplaced(schema, inp, parentType) <==>
                    !schema.canBeChildOf(inp.typ, parentType) || Misplaced(schema, inp.next, parentType))
              && (Uninsertable(inp) <==> !Insertable(inp.typ) || Uninsertable(inp.next))
              && (Malformed(schema, inp) <==> (Insertable(inp.typ) && FieldsFault(schema, inp)) || Malformed(schema, inp.next))
  {
    hide Insertable, FieldsFault;
    if inp.InputNode? {
      assert Nth(inp, 0) == inp;
      forall n: nat ensures Nth(inp.next, n) == Nth(inp, n + 1) {}
      assert forall n: nat :: n > 0 ==> Nth(inp, n) == Nth(inp.next, n - 1);
    }
  }

  lemma NothingListed(schema: Schema)
    ensures forall parentType :: !Misplaced(schema, NoInput, parentType)
    ensures !Uninsertable(NoInput) && !Malformed(schema, NoInput)
  {}

  /** A legal list is one without such inputs. */
  lemma ChildrenLegalIff(schema: Schema, inp: Input, parentType: string)
    ensures ChildrenLegal(schema, inp, parentType) <==>
            !Misplaced(schema, inp, parentType) && !Uninsertable(inp) && !Malformed(schema, inp)
  {
    hide Insertable, FieldsFault;
    assert forall n: nat :: Nth(inp, n).InputNode? ==>
      (InputOk(schema, Nth(inp, n)) <==> Insertable(Nth(inp, n).typ) && !FieldsFault(schema, Nth(inp, n)));
  }

  lemma {:induction false} ChildrenLegalStep(schema: Schema, inp: Input, parentType: string)
    ensures ChildrenLegal(schema, NoInput, parentType)
    ensures inp.InputNode? ==>
              (ChildrenLegal(schema, inp, parentType) <==>
               schema.canBeChildOf(inp.typ, parentType) && InputOk(schema, inp) && ChildrenLegal(schema, inp.next, parentType))
  {
    hide ChildrenLegal, Misplaced, Uninsertable, Malformed, Insertable, FieldsFault;
    ChildrenLegalIff(schema, NoInput, parentType);
    NothingListed(schema);
    ListStep(schema, inp, parentType);
    if inp.InputNode? {
      ChildrenLegalIff(schema, inp, parentType);
      ChildrenLegalIff(schema, inp.next, parentType);
    }
  }

  ghost predicate EditLegal(schema: Schema, t: Forest, e: Edit)
    requires t.Node?
  {
    match e
    case Insert(p, inp, _) =>
      p in Ids(t) && schema.canBeChildOf(inp.typ, TypeOf(t, p)) && InputOk(schema, inp)
    case Update(x, patch) =>
      x in Ids(t) && schema.patchOk(TypeOf(t, x), patch)
    case Move(x, p, _) =>
      x in Ids(t) && p in Ids(t) && Mutable(t, x)
      && schema.canBeChildOf(TypeOf(t, x), TypeOf(t, p)) && p !in Ids(Sub(t, x))
    case Remove(x) =>
      x in Ids(t) && Mutable(t, x)
    case ReplaceChildren(x, inp) =>
      x in Ids(t) && Mutable(t, x) && ChildrenLegal(schema, inp, TypeOf(t, x))
  }

  /** The node inputs an edit brings, and the node they are placed under. */
  function InputsOf(e: Edit): Input {
    match e
    case Insert(_, inp, _) => inp
    case ReplaceChildren(_, inp) => inp
    case _ => NoInput
  }

  function HolderOf(e: Edit): Id {
    if e.Insert? || e.Move? then e.parentId else e.nodeId
  }

  predicate Known(t: Forest, e: Edit) {
    (e.Insert? || e.nodeId in Ids(t)) && (e.Insert? || e.Move? ==> e.parentId in Ids(t))
  }

  /** The nodes an edit names exist, and one it moves, removes or empties may be. */
  predicate AimsWell(t: Forest, e: Edit)
    requires t.Node?
  {
    Known(t, e) && (e.Insert? || e.Update? || Mutable(t, e.nodeId))
  }

  /** What an edit is to be rejected for, code by code. */
  ghost predicate Deserves(schema: Schema, t: Forest, e: Edit, c: Code)
    requires t.Node?
  {
    match c
    case UnknownNode => !e.Insert? && e.nodeId !in Ids(t)
    case UnknownParent => (e.Insert? || e.Move?) && e.parentId !in Ids(t)
    case ProtectedTarget => Known(t, e) && !AimsWell(t, e)
    case IllegalChild =>
      AimsWell(t, e) &&
      ((e.Move? && !schema.canBeChildOf(TypeOf(t, e.nodeId), TypeOf(t, e.parentId))) ||
       Misplaced(schema, InputsOf(e), TypeOf(t, HolderOf(e))))
    case MoveCycle => e.Move? && AimsWell(t, e) && e.parentId in Ids(Sub(t, e.nodeId))
    case InvalidNodeType => AimsWell(t, e) && Uninsertable(InputsOf(e))
    case InvalidFields =>
      AimsWell(t, e) &&
      ((e.Update? && !schema.patchOk(TypeOf(t, e.nodeId), e.patch)) || Malformed(schema, InputsOf(e)))
    case EmptyBatch => false
    case OverlappingEdits => false
  }

  /** An edit is legal exactly if there is nothing to reject it for. */
  lemma {:induction false} LegalIffNothingDeserved(schema: Schema, t: Forest, e: Edit)
    requires t.Node?
    ensures EditLegal(schema, t, e) <==> forall c :: !Deserves(schema, t, e, c)
  {
    hide FieldsFault, Insertable, Ids, Sub, ChildrenLegal, Misplaced, Uninsertable, Malformed, InputOk;
    assert (forall c :: !Deserves(schema, t, e, c)) <==>
      !(|| Deserves(schema, t, e, UnknownNode) || Deserves(schema, t, e, UnknownParent) || Deserves(schema, t, e, ProtectedTarget)
        || Deserves(schema, t, e, IllegalChild) || Deserves(schema, t, e, MoveCycle)
        || Deserves(schema, t, e, InvalidNodeType) || Deserves(schema, t, e, InvalidFields));
    NothingListed(schema);
    if AimsWell(t, e) {
      var inp, holder := InputsOf(e), TypeOf(t, HolderOf(e));
      ChildrenLegalIff(schema, inp, holder);
      ChildrenLegalStep(schema, inp, holder);
    }
  }

  function TargetOf(e: Edit): Option<Id> {
    if e.Insert? then None else Some(e.nodeId)
  }

  predicate Wholesale(e: Edit) {
    e.Remove? || e.ReplaceChildren?
  }

  /** Edit `i` aims at the node of an earlier edit. */
  ghost predicate Repeats(edits: seq<Edit>, i: nat)
    requires i < |edits|
  {
    TargetOf(edits[i]).Some? && exists j :: 0 <= j < i && TargetOf(edits[j]) == TargetOf(edits[i])
  }

  /** Edit `i` aims strictly below the node that edit `j` removes or whose children it replaces. */
  predicate Inside(t: Forest, edits: seq<Edit>, i: nat, j: nat)
    requires i < |edits| && j < |edits|
  {
    && i != j && Wholesale(edits[j]) && TargetOf(edits[i]).Some?
    && edits[j].nodeId in Ids(t)
    && TargetOf(edits[i]).value in Ids(Sub(t, edits[j].nodeId).kids)
  }

  ghost predicate Overlaps(t: Forest, edits: seq<Edit>, i: nat)
    requires i < |edits|
  {
    Repeats(edits, i) || exists j :: 0 <= j < |edits| && Inside(t, edits, i, j)
  }

  ghost predicate Faulty(schema: Schema, t: Forest, edits: seq<Edit>, i: nat)
    requires i < |edits| && t.Node?
  {
    !EditLegal(schema, t, edits[i]) || Overlaps(t, edits, i)
  }

  /** A batch the validator lets through. */
  ghost predicate Legal(schema: Schema, t: Forest, edits: seq<Edit>)
    requires t.Node?
  {
    edits != [] && forall i :: 0 <= i < |edits| ==> !Faulty(schema, t, edits, i)
  }

  function NormalizedEdit(schema: Schema, t: Forest, e: Edit): Edit
    requires t.Node? && EditLegal(schema, t, e)
  {
    match e
    case Insert(p, inp, at) => Insert(p, Enable(schema, inp), Some(ClampIndex(at, Length(Sub(t, p).kids))))
    case Update(x, patch) => Update(x, schema.enablePatch(TypeOf(t, x), patch))
    case Move(x, p, at) => Move(x, p, Some(ClampIndex(at, Length(Sub(t, p).kids))))
    case Remove(_) => e
    case ReplaceChildren(x, inp) => ReplaceChildren(x, Enable(schema, inp))
  }

  ghost predicate IsNormalized(schema: Schema, t: Forest, edits: seq<Edit>, out: seq<Edit>)
    requires t.Node?
  {
    |out| == |edits| &&
    forall i :: 0 <= i < |edits| ==> EditLegal(schema, t, edits[i]) && out[i] == NormalizedEdit(schema, t, edits[i])
  }

  // ------------------------------------------------------------ the tree walks

  /** `isSelfOrDescendant` over a sibling list. */
  function AnySelfOrDescendant(f: Forest, x: Id): (r: bool)
    ensures r <==> x in Ids(f)
  {
    f.Node? && (f.id == x || AnySelfOrDescendant(f.kids, x) || AnySelfOrDescendant(f.next, x))
  }

  /** `isProperDescendant`. */
  function IsProperDescendant(node: Forest, x: Id): (r: bool)
    requires node.Node?
    ensures r <==> x in Ids(node.kids)
  {
    AnySelfOrDescendant(node.kids, x)
  }

  /** `indexById` over a sibling list: the node of every id, as the subtree it heads. */
  method Walk(f: Forest, m: map<Id, Forest>) returns (r: map<Id, Forest>)
    requires Distinct(f)
    ensures forall x :: x in r <==> x in m || x in Ids(f)
    ensures forall x :: x in r ==> r[x] == if x in Ids(f) then Sub(f, x) else m[x]
    decreases f
  {
    if f.Nil? {
      return m;
    }
    r := m[f.id := f.(next := Nil)];
    r := Walk(f.kids, r);
    r := Walk(f.next, r);
  }

  method IndexById(root: Forest) returns (byId: map<Id, Forest>)
    requires Distinct(root)
    ensures byId.Keys == Ids(root)
    ensures forall x :: x in byId ==> byId[x] == Sub(root, x)
  {
    byId := Walk(root, map[]);
    assert byId.Keys == Ids(root);
  }

  // ------------------------------------------------------------ overlap

  /** Some error names edit `i`. */
  ghost predicate ErrorAt(errors: seq<EditError>, i: nat) {
    exists c :: EditError(i, c) in errors
  }

  /** The first loop of `validateNonOverlapping`: one node, two edits. */
  method ReportRepeats(edits: seq<Edit>, before: seq<EditError>) returns (errors: seq<EditError>)
    ensures forall i: nat, c :: EditError(i, c) in errors <==>
              EditError(i, c) in before || (c == OverlappingEdits && i < |edits| && Repeats(edits, i))
  {
    errors := before;
    var seen: map<Id, nat> := map[];
    var i := 0;
    while i < |edits|
      invariant i <= |edits|
      invariant forall x :: x in seen <==> exists j :: 0 <= j < i && TargetOf(edits[j]) == Some(x)
      invariant forall j: nat, c :: EditError(j, c) in errors <==>
                  EditError(j, c) in before || (c == OverlappingEdits && j < i && Repeats(edits, j))
    {
      var target := TargetOf(edits[i]);
      if target.Some? {
        if target.value !in seen {
          seen := seen[target.value := i];
        } else {
          errors := errors + [EditError(i, OverlappingEdits)];
        }
      }
      i := i + 1;
    }
  }

  lemma NotInsideItself(t: Forest, x: Id)
    requires Distinct(t)
    ensures x in Ids(t) ==> x !in Ids(Sub(t, x).kids)
  {
    if x in Ids(t) { SubProps(t, x); }
  }

  /** The second loop: a target inside a subtree that another edit drops. */
  method ReportInside(t: Forest, byId: map<Id, Forest>, edits: seq<Edit>, before: seq<EditError>)
    returns (errors: seq<EditError>)
    requires Distinct(t) && byId.Keys == Ids(t) && forall x :: x in byId ==> byId[x] == Sub(t, x)
    ensures forall i: nat, c :: EditError(i, c) in errors <==>
              || EditError(i, c) in before
              || (c == OverlappingEdits && i < |edits| && exists j :: 0 <= j < |edits| && Inside(t, edits, i, j))
  {
    errors := before;
    var i := 0;
    while i < |edits|
      invariant i <= |edits|
      invariant forall k: nat, c :: EditError(k, c) in errors <==>
                  || EditError(k, c) in before
                  || (c == OverlappingEdits && k < i && exists j :: 0 <= j < |edits| && Inside(t, edits, k, j))
    {
      var target := TargetOf(edits[i]);
      if target.Some? {
        ghost var start := errors;
        var j := 0;
        while j < |edits|
          invariant j <= |edits|
          invariant forall k: nat, c :: EditError(k, c) in errors <==>
                      || EditError(k, c) in start
                      || (c == OverlappingEdits && k == i && exists m :: 0 <= m < j && Inside(t, edits, i, m))
        {
          NotInsideItself(t, target.value);
          if Wholesale(edits[j]) && j != i && edits[j].nodeId != target.value {
            if edits[j].nodeId in byId && IsProperDescendant(byId[edits[j].nodeId], target.value) {
              assert Inside(t, edits, i, j);
                  errors := errors + [EditError(i, OverlappingEdits)];
            }
          }
          j := j + 1;
        }
      }
      i := i + 1;
    }
  }

  // ------------------------------------------------------------ the validator

  /** Appends one error per code, all for edit `i`. */
  method Push(before: seq<EditError>, i: nat, codes: seq<Code>) returns (errors: seq<EditError>)
    ensures forall k: nat, c :: EditError(k, c) in errors <==> EditError(k, c) in before || (k == i && c in codes)
  {
    errors := before;
    var c := 0;
    while c < |codes|
      invariant c <= |codes|
      invariant forall k: nat, code :: EditError(k, code) in errors <==>
                  EditError(k, code) in before || (k == i && code in codes[..c])
    {
      errors := errors + [EditError(i, codes[c])];
      c := c + 1;
    }
    assert codes[..c] == codes;
  }

  /** `validateMutableTarget`: the reasons a node may not be moved, removed or emptied. */
  function TargetErrors(t: Forest, node: Forest): (r: seq<Code>)
    requires t.Node? && node.Node?
    ensures node.id in Ids(t) && Sub(t, node.id) == node ==> (r == [] <==> Mutable(t, node.id))
  {
    if node.id == t.id then [ProtectedTarget]
    else if node.typ == "library" || node.typ == "codeComponent" then [ProtectedTarget]
    else []
  }

  function TypeErrors(schema: Schema, childType: string, parentType: string): seq<Code> {
    if schema.canBeChildOf(childType, parentType) then [] else [IllegalChild]
  }

  /** The child checks of `replaceChildren`. */
  function ChildrenErrors(schema: Schema, inp: Input, parentType: string): seq<Code> {
    if inp.NoInput? then []
    else TypeErrors(schema, inp.typ, parentType) + InputErrors(schema, inp) + ChildrenErrors(schema, inp.next, parentType)
  }

  lemma {:induction false} ChildrenErrorsExactly(schema: Schema, inp: Input, parentType: string)
    ensures
      var r := ChildrenErrors(schema, inp, parentType);
      && (IllegalChild in r <==> Misplaced(schema, inp, parentType))
      && (InvalidNodeType in r <==> Uninsertable(inp))
      && (InvalidFields in r <==> Malformed(schema, inp))
      && (forall c :: c in r ==> c == IllegalChild || c == InvalidNodeType || c == InvalidFields)
  {
    hide Misplaced, Uninsertable, Malformed, FieldsFault, Insertable, InputErrors, InputOk;
    NothingListed(schema);
    ListStep(schema, inp, parentType);
    if inp.InputNode? {
      InputErrorsExactly(schema, inp);
      ChildrenErrorsExactly(schema, inp.next, parentType);
    }
  }

  /** The checks of one edit on its own: its error codes, and its normalized form when there are none. */
  method CheckEdit(schema: Schema, t: Forest, byId: map<Id, Forest>, e: Edit)
    returns (codes: seq<Code>, normal: Edit)
    requires Distinct(t) && t.Node?
    requires byId.Keys == Ids(t) && forall x :: x in byId ==> byId[x] == Sub(t, x)
    ensures forall c :: c in codes <==> Deserves(schema, t, e, c)
    ensures codes == [] <==> EditLegal(schema, t, e)
    ensures codes == [] ==> normal == NormalizedEdit(schema, t, e)
  {
    hide EditLegal, FieldsFault, Misplaced, Uninsertable, Malformed, InputErrors, InputOk, Insertable, Enable,
      ClampIndex, Length, Ids, Sub, Distinct, Nth, AnySelfOrDescendant, ChildrenErrors;
    LegalIffNothingDeserved(schema, t, e);
    NothingListed(schema);
    codes, normal := [], e;
    match e {
      case Insert(p, inp, at) =>
        if p !in byId {
          assert Deserves(schema, t, e, UnknownParent);
          return [UnknownParent], e;
        }
        var parent := byId[p];
        ListStep(schema, inp, parent.typ);
        InputErrorsExactly(schema, inp);
        codes := TypeErrors(schema, inp.typ, parent.typ) + InputErrors(schema, inp);
        normal := Insert(p, Enable(schema, inp), Some(ClampIndex(at, Length(parent.kids))));
      case Update(x, patch) =>
        if x !in byId {
          assert Deserves(schema, t, e, UnknownNode);
          return [UnknownNode], e;
        }
        var node := byId[x];
        if !schema.patchOk(node.typ, patch) { codes := [InvalidFields]; }
        normal := Update(x, schema.enablePatch(node.typ, patch));
      case Move(x, p, at) =>
        if x !in byId { codes := codes + [UnknownNode]; }
        if p !in byId { codes := codes + [UnknownParent]; }
        if x in byId && p in byId {
          var node, parent := byId[x], byId[p];
          codes := TargetErrors(t, node);
          if codes == [] {
            codes := TypeErrors(schema, node.typ, parent.typ);
            if AnySelfOrDescendant(node, p) { codes := codes + [MoveCycle]; }
            normal := Move(x, p, Some(ClampIndex(at, Length(parent.kids))));
          }
        }
      case Remove(x) =>
        if x !in byId {
          assert Deserves(schema, t, e, UnknownNode);
          return [UnknownNode], e;
        }
        codes := TargetErrors(t, byId[x]);
      case ReplaceChildren(x, inp) =>
        if x !in byId {
          assert Deserves(schema, t, e, UnknownNode);
          return [UnknownNode], e;
        }
        var node := byId[x];
        codes := TargetErrors(t, node);
        if codes == [] {
          ChildrenErrorsExactly(schema, inp, node.typ);
          codes := ChildrenErrors(schema, inp, node.typ);
          normal := ReplaceChildren(x, Enable(schema, inp));
        }
    }
    assert codes != [] ==> codes[0] in codes;
  }

  /** Edit `i` is named with code `c`, rightly. */
  ghost predicate Reported(schema: Schema, t: Forest, edits: seq<Edit>, i: nat, c: Code)
    requires i < |edits| && t.Node?
  {
    Deserves(schema, t, edits[i], c) || (c == OverlappingEdits && Overlaps(t, edits, i))
  }

  /** An edit is faulty exactly if some code may be reported for it. */
  lemma FaultyIffReported(schema: Schema, t: Forest, edits: seq<Edit>, i: nat)
    requires i < |edits| && t.Node?
    ensures Faulty(schema, t, edits, i) <==> exists c :: Reported(schema, t, edits, i, c)
  {
    hide Deserves, Overlaps, EditLegal;
    LegalIffNothingDeserved(schema, t, edits[i]);
    if Overlaps(t, edits, i) {
      assert Reported(schema, t, edits, i, OverlappingEdits);
    } else if !EditLegal(schema, t, edits[i]) {
      var c :| Deserves(schema, t, edits[i], c);
      assert Reported(schema, t, edits, i, c);
    }
  }

  /**
   * `validateDocumentEdits`. A batch is accepted exactly when it is legal; otherwise every
   * faulty edit, and no other, is named by an error.
   */
  method ValidateDocumentEdits(schema: Schema, edits: seq<Edit>, t: Forest) returns (r: Verdict)
    requires Single(t) && Distinct(t)
    ensures r.Accepted? <==> Legal(schema, t, edits)
    ensures r.Accepted? ==> IsNormalized(schema, t, edits, r.edits)
    ensures r.Rejected? && edits != [] ==>
              forall i: nat :: ErrorAt(r.errors, i) <==> i < |edits| && Faulty(schema, t, edits, i)
    ensures r.Rejected? && edits != [] ==>
              forall i: nat, c :: EditError(i, c) in r.errors <==> i < |edits| && Reported(schema, t, edits, i, c)
    ensures edits == [] ==> r == Rejected([EditError(0, EmptyBatch)])
  {
    hide EditLegal, Deserves, Repeats, Inside, NormalizedEdit;
    if edits == [] {
      return Rejected([EditError(0, EmptyBatch)]);
    }
    var byId := IndexById(t);
    var errors: seq<EditError> := [];
    var normalized: seq<Edit> := [];
    var i := 0;
    while i < |edits|
      invariant i <= |edits|
      invariant forall k: nat, c :: EditError(k, c) in errors <==> k < i && Deserves(schema, t, edits[k], c)
      invariant errors == [] ==> IsNormalized(schema, t, edits[..i], normalized)
    {
      var codes, normal := CheckEdit(schema, t, byId, edits[i]);
      ghost var before := errors;
      errors := Push(errors, i, codes);
      assert before != [] ==> EditError(before[0].editIndex, before[0].code) in errors;
      assert codes != [] ==> EditError(i, codes[0]) in errors;
      if codes == [] { normalized := normalized + [normal]; }
      i := i + 1;
    }
    ghost var checked := errors;
    errors := ReportRepeats(edits, errors);
    errors := ReportInside(t, byId, edits, errors);
    assert checked != [] ==> EditError(checked[0].editIndex, checked[0].code) in errors;
    assert forall k: nat, c :: EditError(k, c) in errors <==> k < |edits| && Reported(schema, t, edits, k, c);
    forall k: nat ensures ErrorAt(errors, k) <==> k < |edits| && Faulty(schema, t, edits, k) {
      if k < |edits| { FaultyIffReported(schema, t, edits, k); }
    }
    if errors != [] {
      assert errors[0] in errors && ErrorAt(errors, errors[0].editIndex);
      return Rejected(errors);
    }
    assert edits[..i] == edits;
    assert forall k: nat :: !ErrorAt(errors, k);
    return Accepted(normalized);
  }
}
