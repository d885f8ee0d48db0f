/** Parent/child legality over a whole batch. */
module EditContainment {
  import opened JsonValues
  import opened Options
  import opened DocumentTrees
  import opened DataMerge
  import opened EditSemantics
  import opened EditEffects
  import opened EditInputs
  import opened EditValidation
  import opened EditBatches
  import opened EditMinting

  /** Every child stands under a type that may contain it. */
  ghost predicate EdgesLegal(schema: Schema, f: Forest) {
    forall y, c :: y in Ids(f) && c in Row(f, y).kids ==>
      c in Ids(f) && schema.canBeChildOf(Row(f, c).typ, Row(f, y).typ)
  }

  /** The same, read off the structure. */
  predicate ListLegal(schema: Schema, f: Forest, parentType: string) {
    f.Node? ==> schema.canBeChildOf(f.typ, parentType) && ListLegal(schema, f.next, parentType)
  }

  predicate ForestLegal(schema: Schema, f: Forest) {
    f.Node? ==> ListLegal(schema, f.kids, f.typ) && ForestLegal(schema, f.kids) && ForestLegal(schema, f.next)
  }

  lemma {:induction false} ListLegalAt(schema: Schema, f: Forest, parentType: string)
    requires Distinct(f)
    ensures forall c :: c in Tops(f) ==> c in Ids(f)
    ensures ListLegal(schema, f, parentType) <==>
            forall c :: c in Tops(f) ==> schema.canBeChildOf(Row(f, c).typ, parentType)
  {
    TopsInIds(f);
    if f.Node? {
      TopsInIds(f.next);
      ListLegalAt(schema, f.next, parentType);
      forall c | c in Tops(f.next) ensures Row(f, c) == Row(f.next, c) {}
      assert f.id in Tops(f);
      assert forall c :: c in Tops(f) <==> c == f.id || c in Tops(f.next);
    }
  }

  lemma {:induction false} EdgesAreStructure(schema: Schema, f: Forest)
    requires Distinct(f)
    ensures ForestLegal(schema, f) <==> EdgesLegal(schema, f)
  {
    if f.Node? {
      EdgesAreStructure(schema, f.kids);
      EdgesAreStructure(schema, f.next);
      ListLegalAt(schema, f.kids, f.typ);
      forall y | y in Ids(f.kids) ensures Row(f, y) == Row(f.kids, y) && forall c :: c in Row(f, y).kids ==> c in Ids(f.kids) {
        RowKidsIn(f.kids, y);
      }
      forall y | y in Ids(f.next) ensures Row(f, y) == Row(f.next, y) && forall c :: c in Row(f, y).kids ==> c in Ids(f.next) {
        RowKidsIn(f.next, y);
      }
      assert Row(f, f.id) == Rec(f.typ, f.data, Tops(f.kids));
      if EdgesLegal(schema, f) {
        forall y, c | y in Ids(f.kids) && c in Row(f.kids, y).kids
          ensures schema.canBeChildOf(Row(f.kids, c).typ, Row(f.kids, y).typ)
        {
          assert c in Row(f, y).kids;
        }
        forall y, c | y in Ids(f.next) && c in Row(f.next, y).kids
          ensures schema.canBeChildOf(Row(f.next, c).typ, Row(f.next, y).typ)
        {
          assert c in Row(f, y).kids;
        }
        forall c | c in Tops(f.kids) ensures schema.canBeChildOf(Row(f.kids, c).typ, f.typ) {
          assert c in Row(f, f.id).kids;
        }
      }
      if ForestLegal(schema, f) {
        forall y, c | y in Ids(f) && c in Row(f, y).kids
          ensures c in Ids(f) && schema.canBeChildOf(Row(f, c).typ, Row(f, y).typ)
        {
          EdgeLegalAt(schema, f, y, c);
        }
      }
    }
  }

  lemma {:induction false} EdgeLegalAt(schema: Schema, f: Forest, y: Id, c: Id)
    requires Distinct(f) && f.Node? && EdgesLegal(schema, f.kids) && EdgesLegal(schema, f.next)
    requires forall z :: z in Tops(f.kids) ==> z in Ids(f.kids) && schema.canBeChildOf(Row(f.kids, z).typ, f.typ)
    requires y in Ids(f) && c in Row(f, y).kids
    ensures c in Ids(f) && schema.canBeChildOf(Row(f, c).typ, Row(f, y).typ)
  {
    if y in Ids(f.kids) {
      RowKidsIn(f.kids, y);
      assert c in Row(f.kids, y).kids;
    } else if y in Ids(f.next) {
      RowKidsIn(f.next, y);
      assert c in Row(f.next, y).kids;
    }
  }

  // ------------------------------------------------------------ tree operations

  lemma {:induction false} PutLegal(schema: Schema, f: Forest, x: Id, data: Data, kids: Forest, parentType: string)
    requires Distinct(f) && ForestLegal(schema, f) && ForestLegal(schema, kids)
    requires x in Ids(f) ==> ListLegal(schema, kids, Row(f, x).typ)
    ensures ForestLegal(schema, Put(f, x, data, kids))
    ensures ListLegal(schema, f, parentType) ==> ListLegal(schema, Put(f, x, data, kids), parentType)
  {
    if f.Node? && f.id != x {
      PutLegal(schema, f.kids, x, data, kids, f.typ);
      PutLegal(schema, f.next, x, data, kids, parentType);
    }
  }

  lemma {:induction false} CutLegal(schema: Schema, f: Forest, x: Id, parentType: string)
    requires ForestLegal(schema, f)
    ensures ForestLegal(schema, Cut(f, x))
    ensures ListLegal(schema, f, parentType) ==> ListLegal(schema, Cut(f, x), parentType)
  {
    if f.Node? && f.id != x {
      CutLegal(schema, f.kids, x, f.typ);
      CutLegal(schema, f.next, x, parentType);
    }
  }

  lemma {:induction false} SubLegal(schema: Schema, f: Forest, x: Id)
    requires ForestLegal(schema, f) && x in Ids(f)
    ensures ForestLegal(schema, Sub(f, x)) && Sub(f, x).typ == Row(f, x).typ
    ensures ListLegal(schema, Sub(f, x).kids, Row(f, x).typ)
  {
    if f.id != x {
      if x in Ids(f.kids) { SubLegal(schema, f.kids, x); } else { SubLegal(schema, f.next, x); }
    }
  }

  lemma {:induction false} SpliceLegal(schema: Schema, f: Forest, at: nat, g: Forest, parentType: string)
    requires Single(g) && ForestLegal(schema, f) && ForestLegal(schema, g)
    requires ListLegal(schema, f, parentType) && schema.canBeChildOf(g.typ, parentType)
    ensures ForestLegal(schema, Splice(f, at, g)) && ListLegal(schema, Splice(f, at, g), parentType)
  {
    if at != 0 && f.Node? { SpliceLegal(schema, f.next, at - 1, g, parentType); }
  }

  lemma {:induction false} GraftLegal(schema: Schema, f: Forest, p: Id, at: nat, g: Forest)
    requires Distinct(f) && p in Ids(f) && Single(g)
    requires ForestLegal(schema, f) && ForestLegal(schema, g) && schema.canBeChildOf(g.typ, Row(f, p).typ)
    ensures ForestLegal(schema, Graft(f, p, at, g))
  {
    SubLegal(schema, f, p);
    SpliceLegal(schema, Sub(f, p).kids, at, g, Row(f, p).typ);
    PutLegal(schema, f, p, Sub(f, p).data, Splice(Sub(f, p).kids, at, g), "");
  }

  // ------------------------------------------------------------ inputs

  predicate InputListLegal(schema: Schema, inp: Input, parentType: string) {
    inp.InputNode? ==> schema.canBeChildOf(inp.typ, parentType) && InputListLegal(schema, inp.next, parentType)
  }

  /** Legality of the edges inside an input; the validator does not check them. */
  predicate InputLegal(schema: Schema, inp: Input) {
    inp.InputNode? ==>
      && InputListLegal(schema, inp.kids, inp.typ)
      && InputLegal(schema, inp.kids) && InputLegal(schema, inp.next)
  }

  predicate EditInputLegal(schema: Schema, e: Edit) {
    match e
    case Insert(_, inp, _) => InputLegal(schema, inp)
    case ReplaceChildren(_, inp) => InputLegal(schema, inp)
    case _ => true
  }

  lemma {:induction false} MirrorsLegal(schema: Schema, f: Forest, inp: Input, parentType: string)
    requires Mirrors(f, inp)
    ensures InputLegal(schema, inp) <==> ForestLegal(schema, f)
    ensures InputListLegal(schema, inp, parentType) <==> ListLegal(schema, f, parentType)
  {
    if inp.InputNode? {
      MirrorsLegal(schema, f.kids, inp.kids, f.typ);
      MirrorsLegal(schema, f.next, inp.next, parentType);
    }
  }

  lemma {:induction false} ChildrenAreListed(schema: Schema, inp: Input, parentType: string)
    requires ChildrenLegal(schema, inp, parentType)
    ensures InputListLegal(schema, inp, parentType)
  {
    hide ChildrenLegal;
    ChildrenLegalStep(schema, inp, parentType);
    if inp.InputNode? { ChildrenAreListed(schema, inp.next, parentType); }
  }

  // ------------------------------------------------------------ the batch

  /** The nodes an edit names have, where they still exist, the types validation read. */
  ghost predicate SameTypes(t0: Forest, t: Forest, e: Edit) {
    forall z :: z in Anchors(e) && z in Ids(t) ==> z in Ids(t0) && Row(t, z).typ == Row(t0, z).typ
  }

  lemma {:induction false} StepLegal(schema: Schema, t0: Forest, d: Doc, e: Edit, draw: nat -> Id)
    requires Endless(draw) && WellFormed(d) && !Cyclic(d, e) && Single(t0) && Distinct(t0)
    requires EditLegal(schema, t0, e) && EditInputLegal(schema, e) && SameTypes(t0, d.tree, e)
    requires ForestLegal(schema, d.tree)
    ensures ForestLegal(schema, Step(d, e, draw).tree)
  {
    var t := d.tree;
    if Applies(d, e) {
      match e
      case Insert(p, inp, at) =>
        assert p in Anchors(e);
        SubProps(t0, p);
        StepInsert(d, p, inp, at, draw);
        BuildMirrors(inp, draw, d.draws, Ids(t));
        var g := Build(inp, draw, d.draws, Ids(t)).0;
        MirrorsLegal(schema, g, inp, "");
        GraftLegal(schema, t, p, ClampIndex(at, Length(Sub(t, p).kids)), g);
      case Update(x, patch) =>
        SubLegal(schema, t, x);
        PutLegal(schema, t, x, Merge(Sub(t, x).data, patch), Sub(t, x).kids, "");
      case Move(x, p, at) =>
        assert x in Anchors(e) && p in Anchors(e);
        SubProps(t0, x);
        SubProps(t0, p);
        StepMove(d, x, p, at, draw);
        SubLegal(schema, t, x);
        CutLegal(schema, t, x, "");
        CutRow(t, "", x, p);
        GraftLegal(schema, Cut(t, x), p, ClampIndex(at, Length(Sub(Cut(t, x), p).kids)), Sub(t, x));
      case Remove(x) =>
        CutLegal(schema, t, x, "");
      case ReplaceChildren(x, inp) =>
        assert x in Anchors(e);
        SubProps(t0, x);
        SubLegal(schema, t, x);
        StepReplace(d, x, inp, draw);
        var used := Ids(t) - Ids(Sub(t, x).kids);
        BuildMirrors(inp, draw, d.draws, used);
        ChildrenAreListed(schema, inp, TypeOf(t0, x));
        MirrorsLegal(schema, Build(inp, draw, d.draws, used).0, inp, TypeOf(t0, x));
        PutLegal(schema, t, x, Sub(t, x).data, Build(inp, draw, d.draws, used).0, "");
    }
  }

  /** With a supply that never repeats a committed id, committed ids keep their types. */
  lemma {:induction false} TypesSteady(t: Forest, edits: seq<Edit>, draw: nat -> Id, k: nat, y: Id)
    requires Endless(draw) && Single(t) && Distinct(t) && FreshSupply(t, draw)
    requires k <= |edits| && Run(Start(t), edits[..k], draw).Some?
    requires y in Ids(t) && y in Ids(Before(Start(t), edits, k, draw).tree)
    ensures Row(Before(Start(t), edits, k, draw).tree, y).typ == Row(t, y).typ
    decreases k
  {
    if k > 0 {
      RunStep(Start(t), edits, k - 1, draw);
      var d, e := Before(Start(t), edits, k - 1, draw), edits[k - 1];
      StepWellFormed(d, e, draw);
      if Applies(d, e) && e.Insert? { BuildDraws(e.node, draw, d.draws, Ids(d.tree), y); }
      if Applies(d, e) && e.ReplaceChildren? { BuildDraws(e.children, draw, d.draws, Ids(d.tree) - Dropped(d, e), y); }
      TypesSteady(t, edits, draw, k - 1, y);
      StepRow(d, e, draw, y);
    }
  }

  /**
   * Containment is preserved: from a legal tree, a legal batch with legal inputs leaves
   * every edge legal after every edit, whatever the order and number of moves.
   */
  lemma {:induction false} ContainmentKept(schema: Schema, t: Forest, edits: seq<Edit>, draw: nat -> Id, k: nat)
    requires Endless(draw) && Single(t) && Distinct(t) && Legal(schema, t, edits)
    requires FreshSupply(t, draw) || DestinationsKept(t, edits)
    requires k <= |edits| && Run(Start(t), edits[..k], draw).Some?
    requires EdgesLegal(schema, t) && forall i :: 0 <= i < k ==> EditInputLegal(schema, edits[i])
    ensures EdgesLegal(schema, Before(Start(t), edits, k, draw).tree)
    decreases k
  {
    if k > 0 {
      RunStep(Start(t), edits, k - 1, draw);
      ContainmentKept(schema, t, edits, draw, k - 1);
      var d, e := Before(Start(t), edits, k - 1, draw), edits[k - 1];
      assert !Faulty(schema, t, edits, k - 1);
      forall z | z in Anchors(e) && z in Ids(d.tree) ensures z in Ids(t) && Row(d.tree, z).typ == Row(t, z).typ {
        if FreshSupply(t, draw) {
          TypesSteady(t, edits, draw, k - 1, z);
        } else {
          TargetsAlive(schema, t, edits, k - 1, k - 1);
          BatchSurvivor(schema, t, edits, draw, k - 1, z);
        }
      }
      EdgesAreStructure(schema, d.tree);
      StepLegal(schema, t, d, e, draw);
      EdgesAreStructure(schema, Step(d, e, draw).tree);
    }
  }

  // ------------------------------------------------------------ created nodes stay as they were made

  /** A node an edit creates has, after the edit, the row it was made with. */
  lemma {:induction false} CreatedRow(d: Doc, e: Edit, draw: nat -> Id, c: Id)
    requires Endless(draw) && WellFormed(d) && !Cyclic(d, e) && c in Ids(Created(d, e, draw).0)
    ensures c in Ids(Step(d, e, draw).tree) && Row(Step(d, e, draw).tree, c) == Row(Created(d, e, draw).0, c)
  {
    if e.Insert? {
      StepInsert(d, e.parentId, e.node, e.index, draw);
      GraftRow(d.tree, "", e.parentId, ClampIndex(e.index, Length(Sub(d.tree, e.parentId).kids)), Created(d, e, draw).0, c);
    } else {
      StepReplace(d, e.nodeId, e.children, draw);
      SubProps(d.tree, e.nodeId);
      PutRow(d.tree, e.nodeId, Sub(d.tree, e.nodeId).data, Created(d, e, draw).0, c);
    }
  }

  /** An edit that does not touch a node or its children leaves its row. */
  lemma {:induction false} RowKept(d: Doc, e: Edit, draw: nat -> Id, c: Id)
    requires Endless(draw) && WellFormed(d) && !Cyclic(d, e)
    requires c in Ids(d.tree) && c !in Dropped(d, e) && c !in Anchors(e)
    requires TargetOf(e).Some? ==> e.nodeId !in Row(d.tree, c).kids
    ensures c in Ids(Step(d, e, draw).tree) && Row(Step(d, e, draw).tree, c) == Row(d.tree, c)
  {
    StepRow(d, e, draw, c);
    if TargetOf(e).Some? {
      WithoutAbsent(Row(d.tree, c).kids, e.nodeId);
    }
  }

  /** With destinations kept, later edits of the batch neither drop nor change what edit `i` created. */
  lemma {:induction false} CreatedLasts(schema: Schema, t: Forest, edits: seq<Edit>, draw: nat -> Id, i: nat, k: nat, c: Id)
    requires Endless(draw) && Single(t) && Distinct(t)
    requires Legal(schema, t, edits) && DestinationsKept(t, edits)
    requires i < k <= |edits| && Run(Start(t), edits[..k], draw).Some? && Run(Start(t), edits[..i], draw).Some?
    requires c in Ids(Created(Before(Start(t), edits, i, draw), edits[i], draw).0)
    ensures c in Ids(Before(Start(t), edits, k, draw).tree)
    ensures Row(Before(Start(t), edits, k, draw).tree, c) == Row(Created(Before(Start(t), edits, i, draw), edits[i], draw).0, c)
    decreases k
  {
    hide Step, Row, Run, Cyclic, Sub, Distinct, Created, Dropped, DropZone, CreatedBy, DroppedBy, Applies, Legal, DestinationsKept;
    RunStep(Start(t), edits, k - 1, draw);
    var g := Created(Before(Start(t), edits, i, draw), edits[i], draw).0;
    var d, e := Before(Start(t), edits, k - 1, draw), edits[k - 1];
    if k == i + 1 {
      CreatedRow(d, e, draw, c);
    } else {
      CreatedLasts(schema, t, edits, draw, i, k - 1, c);
      CreatedCounts(Start(t), edits, draw, i, k - 1);
      RowKidsIn(g, c);
      BatchIds(schema, t, edits, draw, k - 1);
      TargetsAlive(schema, t, edits, k - 1, k - 1);
      ZoneAlive(schema, t, edits, k - 1, k - 1);
      RunIntact(schema, t, edits, draw, k - 1);
      IntactApplies(t, d, e);
      RowKept(d, e, draw, c);
    }
  }

  /** If the result is legal, so is every input that made a part of it. */
  lemma {:induction false} InputsWereLegal(schema: Schema, t: Forest, edits: seq<Edit>, draw: nat -> Id, i: nat, k: nat)
    requires Endless(draw) && Single(t) && Distinct(t)
    requires Legal(schema, t, edits) && DestinationsKept(t, edits)
    requires i < k <= |edits| && Run(Start(t), edits[..k], draw).Some?
    requires EdgesLegal(schema, Before(Start(t), edits, k, draw).tree)
    ensures EditInputLegal(schema, edits[i])
  {
    hide Step, Run, Cyclic, Sub, Legal, DestinationsKept, ForestLegal, InputLegal, Build;
    if Mints(edits[i]) {
      assert edits[..k][..i] == edits[..i];
      RunPrefix(Start(t), edits[..k], i, draw);
      RunIntact(schema, t, edits, draw, i);
      var d, e := Before(Start(t), edits, i, draw), edits[i];
      IntactApplies(t, d, e);
      var g := Created(d, e, draw).0;
      var used := if e.Insert? then Ids(d.tree) else Ids(d.tree) - Dropped(d, e);
      var inp: Input := if e.Insert? then e.node else e.children;
      BuildDistinct(inp, draw, d.draws, used);
      BuildMirrors(inp, draw, d.draws, used);
      forall y, c | y in Ids(g) && c in Row(g, y).kids
        ensures c in Ids(g) && schema.canBeChildOf(Row(g, c).typ, Row(g, y).typ)
      {
        RowKidsIn(g, y);
        CreatedLasts(schema, t, edits, draw, i, k, y);
        CreatedLasts(schema, t, edits, draw, i, k, c);
      }
      EdgesAreStructure(schema, g);
      MirrorsLegal(schema, g, inp, "");
    }
  }

  /**
   * The exact condition: from a legal tree, a legal batch whose destinations are kept leaves every edge legal
   * if and only if the edges inside every input are legal.
   */
  lemma {:induction false} ContainmentIff(schema: Schema, t: Forest, edits: seq<Edit>, draw: nat -> Id)
    requires Endless(draw) && Single(t) && Distinct(t)
    requires Legal(schema, t, edits) && DestinationsKept(t, edits) && EdgesLegal(schema, t)
    requires Run(Start(t), edits, draw).Some?
    ensures EdgesLegal(schema, Run(Start(t), edits, draw).value.tree) <==>
            forall i :: 0 <= i < |edits| ==> EditInputLegal(schema, edits[i])
  {
    hide EdgesLegal, EditInputLegal, Run, Legal, DestinationsKept;
    assert edits[..|edits|] == edits;
    if EdgesLegal(schema, Run(Start(t), edits, draw).value.tree) {
      forall i | 0 <= i < |edits| ensures EditInputLegal(schema, edits[i]) {
        InputsWereLegal(schema, t, edits, draw, i, |edits|);
      }
    } else if forall i :: 0 <= i < |edits| ==> EditInputLegal(schema, edits[i]) {
      ContainmentKept(schema, t, edits, draw, |edits|);
    }
  }

  // ------------------------------------------------------------ what validation lets through

  /** A `view` holding a `library`: the type may not be inserted, and may not stand there. */
  function Smuggled(): NodeInput {
    InputNode("view", map[], InputNode("library", map[], NoInput, NoInput), NoInput)
  }

  function Bare(): Forest {
    Node("root", "root", map[], Nil, Nil)
  }

  /**
   * Children of an input are not checked against their parent, and a child whose type may
   * not be inserted is not checked at all: this batch is legal, its result is not.
   */
  lemma NestedTypesUnchecked(schema: Schema, draw: nat -> Id)
    requires Endless(draw) && schema.canBeChildOf("view", "root") && schema.fieldsOk("view", map[])
    requires !schema.canBeChildOf("library", "view")
    ensures
      var batch := [Insert("root", Smuggled(), None)];
      && Legal(schema, Bare(), batch)
      && EdgesLegal(schema, Bare())
      && Run(Start(Bare()), batch, draw).Some?
      && !EdgesLegal(schema, Run(Start(Bare()), batch, draw).value.tree)
  {
    var t, e := Bare(), Insert("root", Smuggled(), None);
    var batch := [e];
    assert Ids(t) == {"root"} && Row(t, "root").kids == [];
    assert ChildInputErrors(schema, NoInput) == [];
    assert ChildInputErrors(schema, Smuggled().kids) == [];
    assert InputErrors(schema, Smuggled()) == [];
    InputErrorsExactly(schema, Smuggled());
    forall i | 0 <= i < 1 ensures !Faulty(schema, t, batch, i) {
      assert !Inside(t, batch, 0, 0) && !Repeats(batch, 0);
    }
    var d := Start(t);
    assert batch[..0] == [] && batch[..1] == batch;
    RunStep(d, batch, 0, draw);
    StepInsert(d, "root", Smuggled(), None, draw);
    var g := Build(Smuggled(), draw, 0, Ids(t)).0;
    BuildMirrors(Smuggled(), draw, 0, Ids(t));
    var result := Step(d, e, draw).tree;
    assert result == t.(kids := g.(next := Nil));
    assert !ListLegal(schema, g.kids, g.typ);
    StepWellFormed(d, e, draw);
    EdgesAreStructure(schema, result);
  }
}
