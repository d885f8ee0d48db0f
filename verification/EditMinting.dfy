/** The ids a batch mints, and what goes wrong without the conditions of `EditBatches`. */
module EditMinting {
  import opened Options
  import opened DocumentTrees
  import opened EditSemantics
  import opened EditEffects
  import opened EditInputs
  import opened EditValidation
  import opened EditBatches

  // ------------------------------------------------------------ minted ids

  ghost predicate NoRepeats(s: seq<Id>) {
    forall i, j :: 0 <= i < j < |s| ==> s[i] != s[j]
  }

  lemma {:induction false} PreOrderIds(f: Forest)
    ensures forall x :: x in PreOrder(f) <==> x in Ids(f)
    ensures Distinct(f) ==> NoRepeats(PreOrder(f))
  {
    if f.Node? {
      PreOrderIds(f.kids);
      PreOrderIds(f.next);
      var k, n := PreOrder(f.kids), PreOrder(f.next);
      if Distinct(f) {
        forall i, j | 0 <= i < j < |PreOrder(f)| ensures PreOrder(f)[i] != PreOrder(f)[j] {
          assert PreOrder(f)[i] == if i == 0 then f.id else if i <= |k| then k[i - 1] else n[i - 1 - |k|];
          assert PreOrder(f)[j] == if j <= |k| then k[j - 1] else n[j - 1 - |k|];
          assert 0 < i <= |k| ==> k[i - 1] in k;
          assert if j <= |k| then k[j - 1] in k else n[j - 1 - |k|] in n;
        }
      }
    }
  }

  lemma {:induction false} MintedUpTo(d: Doc, edits: seq<Edit>, draw: nat -> Id, i: nat, k: nat)
    requires Endless(draw) && WellFormed(d) && i < |edits| && k <= |edits| && Run(d, edits, draw).Some?
    ensures Run(d, edits[..i], draw).Some? && Run(d, edits[..k], draw).Some?
    ensures i in MintedIds(d, edits[..k], draw) <==>
              i < k && Mints(edits[i]) && Applies(Before(d, edits, i, draw), edits[i])
    ensures i in MintedIds(d, edits[..k], draw) ==>
              MintedIds(d, edits[..k], draw)[i] == Minted(Before(d, edits, i, draw), edits[i], draw)
    decreases k
  {
    hide Run, MintedIds, Minted, Before, Applies, Mints, WellFormed;
    RunPrefix(d, edits, i, draw);
    if k == 0 {
      RunStart(d, edits, draw);
    } else {
      MintedNext(d, edits, k - 1, draw);
      MintedUpTo(d, edits, draw, i, k - 1);
    }
  }

  /** The minted-id map has an entry for exactly the inserts and replacements that ran. */
  lemma {:induction false} MintedAt(d: Doc, edits: seq<Edit>, draw: nat -> Id, i: nat)
    requires Endless(draw) && WellFormed(d) && i < |edits| && Run(d, edits, draw).Some?
    ensures Run(d, edits[..i], draw).Some?
    ensures i in MintedIds(d, edits, draw) <==> Mints(edits[i]) && Applies(Before(d, edits, i, draw), edits[i])
    ensures i in MintedIds(d, edits, draw) ==>
              MintedIds(d, edits, draw)[i] == Minted(Before(d, edits, i, draw), edits[i], draw)
  {
    hide Run, MintedIds, Minted, Before, Applies, Mints, WellFormed;
    MintedUpTo(d, edits, draw, i, |edits|);
    assert edits[..|edits|] == edits;
  }

  lemma {:induction false} MintedBounded(d: Doc, edits: seq<Edit>, draw: nat -> Id)
    requires Endless(draw) && WellFormed(d) && Run(d, edits, draw).Some?
    ensures forall i :: i in MintedIds(d, edits, draw) ==> i < |edits|
    decreases |edits|
  {
    if edits != [] { MintedBounded(d, edits[..|edits| - 1], draw); }
  }

  /** What edit `i` creates is among what the longer batch creates. */
  lemma {:induction false} CreatedCounts(d: Doc, edits: seq<Edit>, draw: nat -> Id, i: nat, k: nat)
    requires Endless(draw) && WellFormed(d) && i < k <= |edits| && Run(d, edits[..k], draw).Some?
    ensures Run(d, edits[..i], draw).Some?
    ensures Ids(Created(Before(d, edits, i, draw), edits[i], draw).0) <= CreatedBy(d, edits[..k], draw)
    decreases k
  {
    RunStep(d, edits, k - 1, draw);
    assert edits[..k][..k - 1] == edits[..k - 1];
    if i < k - 1 { CreatedCounts(d, edits, draw, i, k - 1); }
  }

  /**
   * Minted ids: every insert and replaceChildren reports, in pre-order and without repeats,
   * nodes that are in the result, name no surviving committed node and are reported once.
   */
  lemma {:induction false} MintedAreNew(schema: Schema, t: Forest, edits: seq<Edit>, draw: nat -> Id, i: nat)
    requires Endless(draw) && Single(t) && Distinct(t)
    requires Legal(schema, t, edits) && DestinationsKept(t, edits)
    requires Run(Start(t), edits, draw).Some? && i < |edits| && Mints(edits[i])
    ensures
      var minted := MintedIds(Start(t), edits, draw);
      var result := Run(Start(t), edits, draw).value.tree;
      && i in minted
      && NoRepeats(minted[i])
      && (forall x :: x in minted[i] ==> x in Ids(result) && x !in Ids(t) - DroppedBy(t, edits))
      && (forall j, x :: i < j && j in minted && x in minted[i] ==> x !in minted[j])
  {
    var minted := MintedIds(Start(t), edits, draw);
    assert edits[..|edits|] == edits;
    MintedAt(Start(t), edits, draw, i);
    NoEditSkipped(schema, t, edits, draw, i);
    var d := Before(Start(t), edits, i, draw);
    PreOrderIds(Created(d, edits[i], draw).0);
    CreatedDistinct(d, edits[i], draw);
    CreatedCounts(Start(t), edits, draw, i, |edits|);
    BatchIds(schema, t, edits, draw, |edits|);
    forall j, x | i < j && j in minted && x in minted[i] ensures x !in minted[j] {
      MintedBounded(Start(t), edits, draw);
      MintedApart(schema, t, edits, draw, i, j, x);
    }
  }

  lemma CreatedDistinct(d: Doc, e: Edit, draw: nat -> Id)
    requires Endless(draw)
    ensures Distinct(Created(d, e, draw).0)
  {
    if Applies(d, e) && e.Insert? { BuildDistinct(e.node, draw, d.draws, Ids(d.tree)); }
    if Applies(d, e) && e.ReplaceChildren? { BuildDistinct(e.children, draw, d.draws, Ids(d.tree) - Dropped(d, e)); }
  }

  lemma {:induction false} MintedApart(schema: Schema, t: Forest, edits: seq<Edit>, draw: nat -> Id, i: nat, j: nat, x: Id)
    requires Endless(draw) && Single(t) && Distinct(t)
    requires Legal(schema, t, edits) && DestinationsKept(t, edits)
    requires Run(Start(t), edits, draw).Some? && i < j < |edits| && j in MintedIds(Start(t), edits, draw)
    requires i in MintedIds(Start(t), edits, draw) && x in MintedIds(Start(t), edits, draw)[i]
    ensures x !in MintedIds(Start(t), edits, draw)[j]
  {
    MintedAt(Start(t), edits, draw, i);
    MintedAt(Start(t), edits, draw, j);
    var di, dj := Before(Start(t), edits, i, draw), Before(Start(t), edits, j, draw);
    PreOrderIds(Created(di, edits[i], draw).0);
    PreOrderIds(Created(dj, edits[j], draw).0);
    CreatedCounts(Start(t), edits, draw, i, j);
    BatchIds(schema, t, edits, draw, j);
    RunPrefix(Start(t), edits, j, draw);
    RunIntact(schema, t, edits, draw, j);
    IntactApplies(t, dj, edits[j]);
    ZoneAlive(schema, t, edits, j, j);
    StepWellFormed(dj, edits[j], draw);
  }

  // ------------------------------------------------------------ an id can come back

  /** Draws "a" first, then ever longer strings. */
  function Tick(n: nat): Id
    ensures |Tick(n)| == n
  {
    if n == 0 then "" else "x" + Tick(n - 1)
  }

  function Recycling(n: nat): Id {
    if n == 0 then "a" else Tick(n + 1)
  }

  lemma {:induction false} LongerThanAll(used: set<Id>) returns (bound: nat)
    ensures forall x :: x in used ==> |x| < bound
  {
    bound := 0;
    if used != {} {
      var x :| x in used;
      bound := LongerThanAll(used - {x});
      bound := if |x| < bound then bound else |x| + 1;
    }
  }

  lemma RecyclingEndless()
    ensures Endless(Recycling)
  {
    forall n: nat, used: set<Id> ensures HasFresh(Recycling, n, used) {
      var bound := LongerThanAll(used);
      var k := n + bound + 1;
      assert |Recycling(k)| == k + 1;
      assert Recycling(k) !in used;
    }
  }

  function Pair(): Forest {
    Node("root", "root", map[], Node("a", "text", map[], Nil, Nil), Nil)
  }

  /**
   * Re-rolling looks only at ids still indexed: once "a" is removed, an insert of the same
   * batch may mint "a" again, and the result then has a different node under a committed id.
   */
  lemma RemovedIdComesBack(schema: Schema)
    requires schema.canBeChildOf("view", "root") && schema.fieldsOk("view", map[])
    ensures
      var batch := [Remove("a"), Insert("root", InputNode("view", map[], NoInput, NoInput), None)];
      && Endless(Recycling)
      && Legal(schema, Pair(), batch) && DestinationsKept(Pair(), batch)
      && Run(Start(Pair()), batch, Recycling).Some?
      && 1 in MintedIds(Start(Pair()), batch, Recycling)
      && MintedIds(Start(Pair()), batch, Recycling)[1] == ["a"]
  {
    RecyclingEndless();
    RecyclingBatchLegal(schema);
    var view: NodeInput := InputNode("view", map[], NoInput, NoInput);
    var t := Pair();
    var batch := [Remove("a"), Insert("root", view, None)];
    var d0 := Start(t);
    assert batch[..0] == [] && batch[..1] == [batch[0]] && batch[..2] == batch;
    RunStep(d0, batch, 0, Recycling);
    var d1 := Step(d0, batch[0], Recycling);
    assert d1.tree == Node("root", "root", map[], Nil, Nil);
    RunStep(d0, batch, 1, Recycling);
    assert FirstFresh(Recycling, 0, {"root"}) == 0;
    BuildOne(view, Recycling, 0, {"root"});
    BuildNone(Recycling, 1, {"root"} + {"a"});
    assert Ids(d1.tree) == {"root"};
    assert Build(view, Recycling, 0, {"root"}).0 == Node("a", "view", map[], Nil, Nil);
    MintedAt(d0, batch, Recycling, 1);
  }

  lemma RecyclingBatchLegal(schema: Schema)
    requires schema.canBeChildOf("view", "root") && schema.fieldsOk("view", map[])
    ensures
      var batch := [Remove("a"), Insert("root", InputNode("view", map[], NoInput, NoInput), None)];
      Legal(schema, Pair(), batch) && DestinationsKept(Pair(), batch)
  {
    var view: NodeInput := InputNode("view", map[], NoInput, NoInput);
    var t := Pair();
    var batch := [Remove("a"), Insert("root", view, None)];
    assert Ids(t.kids) == {"a"} && Ids(t) == {"root", "a"};
    assert Sub(t, "a") == Node("a", "text", map[], Nil, Nil);
    assert ChildInputErrors(schema, NoInput) == [] && InputErrors(schema, view) == [];
    InputErrorsExactly(schema, view);
    forall i | 0 <= i < 2 ensures !Faulty(schema, t, batch, i) {
      assert forall j :: 0 <= j < 2 ==> !Inside(t, batch, i, j);
      assert !Repeats(batch, i);
    }
  }

  // ------------------------------------------------------------ destinations and positions

  /** An insert below a removed node passes validation and is then skipped. */
  lemma InsertBelowRemovedIsSkipped(schema: Schema, t: Forest, x: Id, p: Id, inp: NodeInput, at: Option<int>, draw: nat -> Id)
    requires Endless(draw) && Single(t) && Distinct(t)
    requires EditLegal(schema, t, Remove(x)) && EditLegal(schema, t, Insert(p, inp, at)) && p in Ids(Sub(t, x))
    ensures
      var batch := [Remove(x), Insert(p, inp, at)];
      && Legal(schema, t, batch)
      && Run(Start(t), batch[..1], draw).Some?
      && !Applies(Before(Start(t), batch, 1, draw), batch[1])
  {
    var batch := [Remove(x), Insert(p, inp, at)];
    forall i | 0 <= i < 2 ensures !Faulty(schema, t, batch, i) {
      assert forall j :: 0 <= j < 2 ==> !Inside(t, batch, i, j);
      assert !Repeats(batch, i);
    }
    assert batch[..0] == [] && batch[..1] == [batch[0]];
    RunStep(Start(t), batch, 0, draw);
    StepWellFormed(Start(t), batch[0], draw);
  }

  /**
   * Two inserts without an index under one parent: run as given, they append in order; run
   * as normalized, both carry the committed child count, and the second lands before the first.
   */
  lemma AppendsSwapWhenNormalized(schema: Schema, t: Forest, p: Id, first: NodeInput, second: NodeInput, draw: nat -> Id)
    requires Endless(draw) && Single(t) && Distinct(t) && p in Ids(t)
    requires EditLegal(schema, t, Insert(p, first, None)) && EditLegal(schema, t, Insert(p, second, None))
    ensures
      var (d1, id1, id2) := AfterTwo(t, Insert(p, first, None), Insert(p, second, None), draw);
      p in Ids(d1.tree) && Row(d1.tree, p).kids == Row(t, p).kids + [id1, id2]
    ensures
      var (d2, id1, id2) := AfterTwo(t, NormalizedEdit(schema, t, Insert(p, first, None)),
                                     NormalizedEdit(schema, t, Insert(p, second, None)), draw);
      p in Ids(d2.tree) && Row(d2.tree, p).kids == Row(t, p).kids + [id2, id1]
  {
    hide Step, Row, Sub, Distinct, Tops, InsertAt, Build, AfterTwo;
    var kids := Row(t, p).kids;
    SubProps(t, p);
    TopsInIds(Sub(t, p).kids);
    InsertTwo(t, p, first, second, None, draw);
    InsertTwo(t, p, Enable(schema, first), Enable(schema, second), Some(|kids|), draw);
    var (d1, a1, b1) := AfterTwo(t, Insert(p, first, None), Insert(p, second, None), draw);
    var (d2, a2, b2) := AfterTwo(t, NormalizedEdit(schema, t, Insert(p, first, None)),
                                 NormalizedEdit(schema, t, Insert(p, second, None)), draw);
    TwoAtEnd(kids, a1, b1);
    TwoAtEnd(kids, a2, b2);
  }

  lemma TwoAtEnd(kids: seq<Id>, a: Id, b: Id)
    ensures InsertAt(InsertAt(kids, |kids|, a), |kids| + 1, b) == kids + [a, b]
    ensures InsertAt(InsertAt(kids, |kids|, a), |kids|, b) == kids + [b, a]
  {}

  lemma InsertedLastIff(s: seq<Id>, at: nat, x: Id)
    requires at <= |s| && x !in s
    ensures InsertAt(s, at, x) != []
    ensures InsertAt(s, at, x)[|s|] == x <==> at == |s|
  {}

  /** A child is listed once. */
  lemma {:induction false} WithoutGone(f: Forest, x: Id)
    requires Distinct(f)
    ensures x !in Without(Tops(f), x)
  {
    if f.Node? {
      TopsInIds(f.next);
      if f.id != x {
        WithoutGone(f.next, x);
      }
    }
  }

  /** The other children of `e`'s destination when `e` runs: for a move, those left after it is detached. */
  function OthersAt(d: Doc, e: Edit): seq<Id>
    requires DestinationOf(e).Some? && e.parentId in Ids(d.tree)
  {
    var kids := Row(d.tree, e.parentId).kids;
    if e.Move? then Without(kids, e.nodeId) else kids
  }

  /**
   * An edit submitted without an index lands last, once normalized, exactly if its destination then has
   * no more other children than it had children when the batch was validated.
   */
  lemma {:induction false} AppendLandsLastIff(schema: Schema, t: Forest, e: Edit, d: Doc, draw: nat -> Id)
    requires Endless(draw) && Single(t) && Distinct(t) && WellFormed(d)
    requires EditLegal(schema, t, e) && DestinationOf(e).Some? && e.index.None?
    requires
      var n := NormalizedEdit(schema, t, e);
      Applies(d, n) && !Cyclic(d, n)
    ensures
      var n := NormalizedEdit(schema, t, e);
      var after := Step(d, n, draw).tree;
      && e.parentId in Ids(after) && Row(after, e.parentId).kids != []
      && (Row(after, e.parentId).kids[|Row(after, e.parentId).kids| - 1] == Placed(d, n, draw) <==>
            |OthersAt(d, n)| <= |Row(t, e.parentId).kids|)
  {
    hide Distinct, Step, Row, Build, FirstFresh;
    var n := NormalizedEdit(schema, t, e);
    StepRow(d, n, draw, e.parentId);
    ListedChildren(t, e.parentId);
    ListedChildren(d.tree, e.parentId);
    if n.Move? {
      WithoutGone(Sub(d.tree, e.parentId).kids, n.nodeId);
    } else {
      StepInsert(d, n.parentId, n.node, n.index, draw);
    }
    InsertedLastIff(OthersAt(d, n), ClampIndex(n.index, |OthersAt(d, n)|), Placed(d, n, draw));
  }

  lemma {:induction false} ListedChildren(t: Forest, p: Id)
    requires Distinct(t) && p in Ids(t)
    ensures Distinct(Sub(t, p).kids) && Row(t, p).kids == Tops(Sub(t, p).kids) && |Row(t, p).kids| == Length(Sub(t, p).kids)
    ensures forall c :: c in Row(t, p).kids ==> c in Ids(t)
  {
    SubProps(t, p);
    TopsInIds(Sub(t, p).kids);
  }

  /** The document and the two new root ids after two inserts. */
  ghost function AfterTwo(t: Forest, e1: Edit, e2: Edit, draw: nat -> Id): (Doc, Id, Id)
    requires Endless(draw) && Single(t) && Distinct(t)
    requires e1.Insert? && e2.Insert? && e1.parentId in Ids(t) && e2.parentId in Ids(t)
  {
    var d := Start(t);
    var d1 := Step(d, e1, draw);
    StepWellFormed(d, e1, draw);
    BuildDistinct(e1.node, draw, d.draws, Ids(d.tree));
    BuildDistinct(e2.node, draw, d1.draws, Ids(d1.tree));
    (Step(d1, e2, draw), Build(e1.node, draw, d.draws, Ids(d.tree)).0.id, Build(e2.node, draw, d1.draws, Ids(d1.tree)).0.id)
  }

  lemma {:induction false} InsertTwo(t: Forest, p: Id, first: NodeInput, second: NodeInput, at: Option<int>, draw: nat -> Id)
    requires Endless(draw) && Single(t) && Distinct(t) && p in Ids(t)
    ensures
      var (d2, id1, id2) := AfterTwo(t, Insert(p, first, at), Insert(p, second, at), draw);
      var kids := Row(t, p).kids;
      p in Ids(d2.tree) &&
      Row(d2.tree, p).kids ==
        InsertAt(InsertAt(kids, ClampIndex(at, |kids|), id1), ClampIndex(at, |kids| + 1), id2)
  {
    var d := Start(t);
    StepRow(d, Insert(p, first, at), draw, p);
    var d1 := Step(d, Insert(p, first, at), draw);
    StepWellFormed(d, Insert(p, first, at), draw);
    StepRow(d1, Insert(p, second, at), draw, p);
  }
}
