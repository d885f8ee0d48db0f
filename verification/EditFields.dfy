/** What validation achieves for the fields of the nodes in a document. */
module EditFields {
  import opened JsonValues
  import opened Options
  import opened DocumentTrees
  import opened DataMerge
  import opened EditSemantics
  import opened EditInputs
  import opened EditValidation
  import opened EditBatches
  import opened EditMinting
  import opened EditContainment

  /** Merging an allowed patch into allowed fields gives allowed fields. */
  ghost predicate PatchesSafe(schema: Schema) {
    forall typ, data, patch :: schema.fieldsOk(typ, data) && schema.patchOk(typ, patch) ==> schema.fieldsOk(typ, Merge(data, patch))
  }

  /** Every node's fields are allowed for its type. */
  ghost predicate FieldsOk(schema: Schema, f: Forest) {
    forall y :: y in Ids(f) ==> schema.fieldsOk(Row(f, y).typ, Row(f, y).data)
  }

  /** So are the fields of every node input in the list, whatever its type. */
  predicate InputFieldsOk(schema: Schema, inp: Input) {
    inp.InputNode? ==>
      schema.fieldsOk(inp.typ, inp.fields) && InputFieldsOk(schema, inp.kids) && InputFieldsOk(schema, inp.next)
  }

  /** Every input of the list and below may be inserted. */
  predicate AllInsertable(inp: Input) {
    inp.InputNode? ==> Insertable(inp.typ) && AllInsertable(inp.kids) && AllInsertable(inp.next)
  }

  // ------------------------------------------------------------ inputs

  lemma {:induction false} FieldsOkNode(schema: Schema, f: Forest)
    requires f.Node? && Distinct(f)
    ensures FieldsOk(schema, f) <==> schema.fieldsOk(f.typ, f.data) && FieldsOk(schema, f.kids) && FieldsOk(schema, f.next)
  {
    assert Row(f, f.id) == Rec(f.typ, f.data, Tops(f.kids));
    forall y | y in Ids(f.kids) ensures y in Ids(f) && Row(f, y) == Row(f.kids, y) {}
    forall y | y in Ids(f.next) ensures y in Ids(f) && Row(f, y) == Row(f.next, y) {}
  }

  lemma {:induction false} MirrorsFields(schema: Schema, f: Forest, inp: Input)
    requires Mirrors(f, inp) && Distinct(f)
    ensures FieldsOk(schema, f) <==> InputFieldsOk(schema, inp)
  {
    hide FieldsOk;
    if inp.InputNode? {
      MirrorsFields(schema, f.kids, inp.kids);
      MirrorsFields(schema, f.next, inp.next);
      FieldsOkNode(schema, f);
    } else {
      NoFields(schema);
    }
  }

  lemma NoFields(schema: Schema)
    ensures FieldsOk(schema, Nil)
  {}

  /** Where every type may be inserted, the check of an input reaches all of it. */
  lemma {:induction false} InsertableInputs(schema: Schema, inp: Input)
    requires AllInsertable(inp)
    ensures InputFieldsOk(schema, inp) <==> !ListFault(schema, inp)
  {
    hide ListFault, FieldsFault, Insertable;
    if inp.InputNode? {
      RestFault(schema, inp);
      HeadFault(schema, inp);
      InsertableInputs(schema, inp.kids);
      InsertableInputs(schema, inp.next);
    } else {
      NothingFaulty(schema);
    }
  }

  // ------------------------------------------------------------ the batch

  /** The fields of a committed node stay allowed, whatever updates the batch makes. */
  lemma {:induction false} UpdatedFieldsOk(schema: Schema, t: Forest, edits: seq<Edit>, k: nat, y: Id)
    requires PatchesSafe(schema) && Single(t) && Distinct(t) && Legal(schema, t, edits) && k <= |edits|
    requires y in Ids(t) && schema.fieldsOk(Row(t, y).typ, Row(t, y).data)
    ensures schema.fieldsOk(Row(t, y).typ, DataAfter(Row(t, y).data, y, edits[..k]))
  {
    if k > 0 {
      UpdatedFieldsOk(schema, t, edits, k - 1, y);
      assert edits[..k][..k - 1] == edits[..k - 1];
      assert !Faulty(schema, t, edits, k - 1);
      SubProps(t, y);
    }
  }

  /** What the batch creates, edit by edit. */
  lemma {:induction false} CreatedBySome(d: Doc, edits: seq<Edit>, draw: nat -> Id, k: nat, c: Id) returns (i: nat)
    requires Endless(draw) && WellFormed(d) && k <= |edits| && Run(d, edits[..k], draw).Some?
    requires c in CreatedBy(d, edits[..k], draw)
    ensures i < k && Run(d, edits[..i], draw).Some? && c in Ids(Created(Before(d, edits, i, draw), edits[i], draw).0)
    decreases k
  {
    hide Created, Step, Run;
    assert k > 0;
    RunStep(d, edits, k - 1, draw);
    assert edits[..k][..k - 1] == edits[..k - 1];
    if c in CreatedBy(d, edits[..k - 1], draw) {
      i := CreatedBySome(d, edits, draw, k - 1, c);
    } else {
      i := k - 1;
    }
  }

  /** What edit `i` creates has allowed fields at the end exactly if its input has. */
  lemma {:induction false} CreatedFieldsIff(schema: Schema, t: Forest, edits: seq<Edit>, draw: nat -> Id, i: nat)
    requires Endless(draw) && Single(t) && Distinct(t)
    requires Legal(schema, t, edits) && DestinationsKept(t, edits)
    requires i < |edits| && Run(Start(t), edits, draw).Some?
    ensures Run(Start(t), edits[..i], draw).Some?
    ensures
      var g := Created(Before(Start(t), edits, i, draw), edits[i], draw).0;
      FieldsOk(schema, g) <==> InputFieldsOk(schema, InputsOf(edits[i]))
  {
    hide Step, Run, Cyclic, Sub, Legal, DestinationsKept, Build, FieldsOk, Mirrors, Distinct;
    RunPrefix(Start(t), edits, i, draw);
    RunIntact(schema, t, edits, draw, i);
    var d, e := Before(Start(t), edits, i, draw), edits[i];
    IntactApplies(t, d, e);
    CreatedDistinct(d, e, draw);
    NoFields(schema);
    if Mints(e) {
      var used := if e.Insert? then Ids(d.tree) else Ids(d.tree) - Dropped(d, e);
      BuildMirrors(InputsOf(e), draw, d.draws, used);
      MirrorsFields(schema, Created(d, e, draw).0, InputsOf(e));
    }
  }

  /**
   * From a document with allowed fields, a legal batch whose destinations are kept leaves all fields allowed if and
   * only if all fields of every input are.
   */
  lemma {:induction false} FieldsKeptIff(schema: Schema, t: Forest, edits: seq<Edit>, draw: nat -> Id)
    requires Endless(draw) && Single(t) && Distinct(t) && PatchesSafe(schema)
    requires Legal(schema, t, edits) && DestinationsKept(t, edits) && FieldsOk(schema, t)
    requires Run(Start(t), edits, draw).Some?
    ensures FieldsOk(schema, Run(Start(t), edits, draw).value.tree) <==>
            forall i :: 0 <= i < |edits| ==> InputFieldsOk(schema, InputsOf(edits[i]))
  {
    hide Step, Run, Cyclic, Sub, Legal, DestinationsKept, Created, CreatedBy, DroppedBy, PatchesSafe, InputFieldsOk, Distinct, Row, Ids;
    var n := |edits|;
    assert edits[..n] == edits;
    var after := Before(Start(t), edits, n, draw).tree;
    BatchIds(schema, t, edits, draw, n);
    forall y | y in Ids(t) && y !in DroppedBy(t, edits)
      ensures y in Ids(after) && schema.fieldsOk(Row(after, y).typ, Row(after, y).data)
    {
      BatchSurvivor(schema, t, edits, draw, n, y);
      UpdatedFieldsOk(schema, t, edits, n, y);
    }
    if FieldsOk(schema, after) {
      forall i | 0 <= i < n ensures InputFieldsOk(schema, InputsOf(edits[i])) {
        CreatedFieldsIff(schema, t, edits, draw, i);
        var g := Created(Before(Start(t), edits, i, draw), edits[i], draw).0;
        forall c | c in Ids(g) ensures schema.fieldsOk(Row(g, c).typ, Row(g, c).data) {
          CreatedLasts(schema, t, edits, draw, i, n, c);
        }
      }
    }
    if forall i :: 0 <= i < n ==> InputFieldsOk(schema, InputsOf(edits[i])) {
      forall c | c in CreatedBy(Start(t), edits, draw) ensures c in Ids(after) && schema.fieldsOk(Row(after, c).typ, Row(after, c).data) {
        var i := CreatedBySome(Start(t), edits, draw, n, c);
        CreatedFieldsIff(schema, t, edits, draw, i);
        CreatedLasts(schema, t, edits, draw, i, n, c);
      }
    }
  }

  /** A legal batch that brings insertable types only, at every depth, leaves all fields allowed. */
  lemma {:induction false} FieldsKept(schema: Schema, t: Forest, edits: seq<Edit>, draw: nat -> Id)
    requires Endless(draw) && Single(t) && Distinct(t) && PatchesSafe(schema)
    requires Legal(schema, t, edits) && DestinationsKept(t, edits) && FieldsOk(schema, t)
    requires Run(Start(t), edits, draw).Some?
    requires forall i :: 0 <= i < |edits| ==> AllInsertable(InputsOf(edits[i]))
    ensures FieldsOk(schema, Run(Start(t), edits, draw).value.tree)
  {
    hide Run, FieldsOk, PatchesSafe, ListFault, DestinationsKept, AllInsertable, InputFieldsOk;
    FieldsKeptIff(schema, t, edits, draw);
    forall i | 0 <= i < |edits| ensures InputFieldsOk(schema, InputsOf(edits[i])) {
      InsertableInputs(schema, InputsOf(edits[i]));
      assert !Faulty(schema, t, edits, i);
      LegalInputsFaultless(schema, t, edits[i]);
    }
  }

  lemma {:induction false} LegalInputsFaultless(schema: Schema, t: Forest, e: Edit)
    requires t.Node? && EditLegal(schema, t, e)
    ensures !ListFault(schema, InputsOf(e))
  {
    hide ListFault, FieldsFault, Insertable, ChildrenLegal, Ids, Sub;
    NothingFaulty(schema);
    match e
    case Insert(p, inp, at) => RestFault(schema, inp);
    case ReplaceChildren(x, inp) => ChildrenFaultless(schema, inp, TypeOf(t, x));
    case _ =>
  }

  lemma {:induction false} ChildrenFaultless(schema: Schema, inp: Input, parentType: string)
    requires ChildrenLegal(schema, inp, parentType)
    ensures !ListFault(schema, inp)
  {
    hide ListFault, FieldsFault, Insertable, ChildrenLegal;
    if inp.InputNode? {
      RestFault(schema, inp);
      ChildrenLegalStep(schema, inp, parentType);
      ChildrenFaultless(schema, inp.next, parentType);
    } else {
      NothingFaulty(schema);
    }
  }
}
