/** Where a placed node stands, told from the index that was asked for and the children that are there. */
module EditPlacement {
  import opened JsonValues
  import opened Options
  import opened DocumentTrees
  import opened EditSemantics
  import opened EditEffects
  import opened EditInputs
  import opened EditValidation
  import opened EditBatches
  import opened EditMinting

  // ------------------------------------------------------------ the nearest position

  function Distance(a: int, b: int): nat {
    if a < b then b - a else a - b
  }

  /** Of the positions from 0 to `n`, the one nearest to the index asked for; the last when none is asked for. */
  ghost predicate Nearest(index: Option<int>, n: nat, pos: nat) {
    && pos <= n
    && (index.None? ==> pos == n)
    && (index.Some? ==> forall q: nat :: q <= n && q != pos ==> Distance(index.value, pos) < Distance(index.value, q))
  }

  /** There is no second one. */
  lemma NearestUnique(index: Option<int>, n: nat, p: nat, q: nat)
    requires Nearest(index, n, p) && q != p
    ensures !Nearest(index, n, q)
  {
    if index.Some? && q <= n {
      assert Distance(index.value, p) < Distance(index.value, q);
    }
  }

  lemma ClampIsNearest(index: Option<int>, n: nat)
    ensures Nearest(index, n, ClampIndex(index, n))
  {}

  // ------------------------------------------------------------ among the other children

  /** The list holds `x` at `pos`, and before and after it the others in their order. */
  ghost predicate StandsAmong(kids: seq<Id>, x: Id, pos: nat, others: seq<Id>) {
    && |kids| == |others| + 1 && pos <= |others|
    && kids[pos] == x
    && kids[..pos] == others[..pos] && kids[pos + 1..] == others[pos..]
  }

  /** The node stands at the position nearest to the index asked for. */
  ghost predicate StandsNearest(kids: seq<Id>, x: Id, index: Option<int>, others: seq<Id>) {
    exists pos: nat | Nearest(index, |others|, pos) :: StandsAmong(kids, x, pos, others)
  }

  lemma InsertedStands(others: seq<Id>, at: nat, x: Id)
    requires at <= |others|
    ensures StandsAmong(InsertAt(others, at, x), x, at, others)
  {}

  lemma {:induction false} OthersAreRest(f: Forest, keep: set<Id>, x: Id)
    requires Distinct(f) && (forall c :: c in Tops(f) && c != x ==> c in keep) && x !in keep
    ensures Filter(Tops(f), keep) == Without(Tops(f), x)
  {
    hide Distinct;
    FilterWithout(Tops(f), keep, x);
    WithoutGone(f, x);
    WithoutIn(Tops(f), x);
    FilterAll(Without(Tops(f), x), keep);
  }

  lemma {:induction false} WithoutIn(s: seq<Id>, x: Id)
    ensures forall c :: c in Without(s, x) ==> c in s
  {
    if s != [] && s[0] != x { WithoutIn(s[1..], x); }
  }

  lemma {:induction false} FilterAll(s: seq<Id>, keep: set<Id>)
    requires forall c :: c in s ==> c in keep
    ensures Filter(s, keep) == s
  {
    if s != [] { FilterAll(s[1..], keep); }
  }

  /**
   * A node that an insert or a move places stands among the children its destination has otherwise, which keep
   * their order, at the position nearest to the index of the edit. An inserted node is new and looks like its input.
   */
  lemma {:induction false} PlacedNearest(d: Doc, e: Edit, draw: nat -> Id)
    requires Endless(draw) && WellFormed(d) && !Cyclic(d, e) && Applies(d, e) && DestinationOf(e).Some?
    ensures
      var x, p, after := Placed(d, e, draw), e.parentId, Step(d, e, draw).tree;
      && p in Ids(after) && x in Ids(after)
      && StandsNearest(Row(after, p).kids, x, e.index, Filter(Row(d.tree, p).kids, Ids(d.tree) - {x}))
      && (e.Move? ==> x == e.nodeId)
      && (e.Insert? ==> x !in Ids(d.tree) && Mirrors(Sub(after, x), e.node))
  {
    hide Distinct, Step, Row, Filter, Nearest, InsertAt, ClampIndex, Sub, Build, Mirrors;
    var x, p := Placed(d, e, draw), e.parentId;
    var kids, keep := Row(d.tree, p).kids, Ids(d.tree) - {x};
    StepRow(d, e, draw, p);
    StepWellFormed(d, e, draw);
    ListedChildren(d.tree, p);
    if e.Insert? {
      InsertedMirrors(d, p, e.node, e.index, draw);
      FilterAll(kids, keep);
    } else {
      PlacedByMove(d, e, draw);
      OthersAreRest(Sub(d.tree, p).kids, keep, x);
      MovedRemains(d, e, draw);
    }
    var others := Filter(kids, keep);
    ClampIsNearest(e.index, |others|);
    InsertedStands(others, ClampIndex(e.index, |others|), x);
  }

  lemma MovedRemains(d: Doc, e: Edit, draw: nat -> Id)
    requires Endless(draw) && WellFormed(d) && !Cyclic(d, e) && Applies(d, e) && e.Move?
    ensures e.nodeId in Ids(Step(d, e, draw).tree)
  {
    StepWellFormed(d, e, draw);
  }

  lemma InsertedMirrors(d: Doc, p: Id, inp: NodeInput, index: Option<int>, draw: nat -> Id)
    requires Endless(draw) && WellFormed(d) && p in Ids(d.tree)
    ensures
      var e := Insert(p, inp, index);
      var x, after := Placed(d, e, draw), Step(d, e, draw).tree;
      x !in Ids(d.tree) && x in Ids(after) && Mirrors(Sub(after, x), inp)
  {
    hide Build, Mirrors;
    StepInsert(d, p, inp, index, draw);
    BuildMirrors(inp, draw, d.draws, Ids(d.tree));
    var g := Build(inp, draw, d.draws, Ids(d.tree)).0;
    assert g.Node? by { BuildDistinct(inp, draw, d.draws, Ids(d.tree)); }
    GraftSub(d.tree, p, ClampIndex(index, Length(Sub(d.tree, p).kids)), g, g.id);
    assert Sub(g, g.id) == g;
  }

  /** After `replaceChildren` a node has new children only, and they look like the inputs, in their order. */
  lemma ReplacedMirrors(d: Doc, x: Id, inp: Input, draw: nat -> Id)
    requires Endless(draw) && WellFormed(d) && x in Ids(d.tree)
    ensures
      var after := Step(d, ReplaceChildren(x, inp), draw).tree;
      && x in Ids(after) && Mirrors(Sub(after, x).kids, inp)
      && Ids(Sub(after, x).kids) !! Ids(d.tree) - Ids(Sub(d.tree, x).kids)
  {
    hide Build, Mirrors;
    var used := Ids(d.tree) - Ids(Sub(d.tree, x).kids);
    StepReplace(d, x, inp, draw);
    BuildMirrors(inp, draw, d.draws, used);
    BuildDistinct(inp, draw, d.draws, used);
    SubProps(d.tree, x);
    PutSub(d.tree, x, Sub(d.tree, x).data, Build(inp, draw, d.draws, used).0, x);
  }

  /** A later edit that moves or removes the root of an insert is skipped: it was given no parent entry. */
  lemma InsertedIsFixed(d: Doc, e: Edit, draw: nat -> Id, later: Edit)
    requires Endless(draw) && WellFormed(d) && Applies(d, e) && e.Insert?
    requires later.Move? || later.Remove?
    ensures later.nodeId == Placed(d, e, draw) ==> !Applies(Step(d, e, draw), later)
  {
    hide Build;
    StepInsert(d, e.parentId, e.node, e.index, draw);
  }

  /** The children that `replaceChildren` makes have theirs, at every depth, and can be removed. */
  lemma ReplacedAreRemovable(d: Doc, x: Id, inp: Input, draw: nat -> Id, c: Id)
    requires Endless(draw) && WellFormed(d) && x in Ids(d.tree)
    requires c in Minted(d, ReplaceChildren(x, inp), draw)
    ensures Applies(Step(d, ReplaceChildren(x, inp), draw), Remove(c))
  {
    hide Build, PreOrder;
    var e := ReplaceChildren(x, inp);
    var g := Created(d, e, draw).0;
    StepReplace(d, x, inp, draw);
    StepWellFormed(d, e, draw);
    ListsAll(g);
    SubProps(d.tree, x);
    if x != d.tree.id { RootStays(d.tree, x); }
    assert c in Ids(g) && c !in Ids(d.tree) - Ids(Sub(d.tree, x).kids);
  }

  /** Where a node is placed, in a batch: right after edit `i`, counted among the children at that moment. */
  lemma {:induction false} PlacedNearestInRun(t: Forest, edits: seq<Edit>, draw: nat -> Id, i: nat)
    requires Endless(draw) && Single(t) && Distinct(t) && i < |edits| && DestinationOf(edits[i]).Some?
    requires Run(Start(t), edits[..i + 1], draw).Some?
    requires Run(Start(t), edits[..i], draw).Some? ==> Applies(Before(Start(t), edits, i, draw), edits[i])
    ensures Run(Start(t), edits[..i], draw).Some?
    ensures
      var d, after := Before(Start(t), edits, i, draw), Before(Start(t), edits, i + 1, draw).tree;
      var x, p := Placed(d, edits[i], draw), edits[i].parentId;
      && p in Ids(d.tree) && p in Ids(after)
      && StandsNearest(Row(after, p).kids, x, edits[i].index, Filter(Row(d.tree, p).kids, Ids(d.tree) - {x}))
  {
    hide StandsNearest, Step, Cyclic, Row, Filter, Run;
    RunStep(Start(t), edits, i, draw);
    PlacedNearest(Before(Start(t), edits, i, draw), edits[i], draw);
  }

  // ------------------------------------------------------------ the order of minted ids

  /** `a` is listed before `b`. */
  ghost predicate Precedes(ids: seq<Id>, a: Id, b: Id) {
    exists i, j :: 0 <= i < j < |ids| && ids[i] == a && ids[j] == b
  }

  /** In the list every node comes before all below it, and all of a node before its later siblings. */
  ghost predicate InDocumentOrder(f: Forest, ids: seq<Id>) {
    f.Node? ==>
      && (forall b :: b in Ids(f.kids) || b in Ids(f.next) ==> Precedes(ids, f.id, b))
      && (forall a, b :: a in Ids(f.kids) && b in Ids(f.next) ==> Precedes(ids, a, b))
      && InDocumentOrder(f.kids, ids) && InDocumentOrder(f.next, ids)
  }

  lemma PrecedesInside(left: seq<Id>, ids: seq<Id>, right: seq<Id>, a: Id, b: Id)
    requires Precedes(ids, a, b)
    ensures Precedes(left + ids + right, a, b)
  {
    var i, j :| 0 <= i < j < |ids| && ids[i] == a && ids[j] == b;
    var all := left + ids + right;
    assert all[|left| + i] == a && all[|left| + j] == b;
  }

  lemma PrecedesAcross(left: seq<Id>, right: seq<Id>, a: Id, b: Id)
    requires a in left && b in right
    ensures Precedes(left + right, a, b)
  {
    var i :| 0 <= i < |left| && left[i] == a;
    var j :| 0 <= j < |right| && right[j] == b;
    assert (left + right)[i] == a && (left + right)[|left| + j] == b;
  }

  lemma {:induction false} OrderInside(f: Forest, left: seq<Id>, ids: seq<Id>, right: seq<Id>)
    requires InDocumentOrder(f, ids)
    ensures InDocumentOrder(f, left + ids + right)
  {
    hide Precedes;
    if f.Node? {
      forall a, b | Precedes(ids, a, b) ensures Precedes(left + ids + right, a, b) {
        PrecedesInside(left, ids, right, a, b);
      }
      OrderInside(f.kids, left, ids, right);
      OrderInside(f.next, left, ids, right);
    }
  }

  /** The ids an edit reports are in document order. */
  lemma {:induction false} PreOrderIsDocumentOrder(f: Forest)
    ensures InDocumentOrder(f, PreOrder(f))
  {
    hide Precedes;
    if f.Node? {
      var kids, next := PreOrder(f.kids), PreOrder(f.next);
      PreOrderIsDocumentOrder(f.kids);
      PreOrderIsDocumentOrder(f.next);
      ListsAll(f.kids);
      ListsAll(f.next);
      OrderInside(f.kids, [f.id], kids, next);
      OrderInside(f.next, [f.id] + kids, next, []);
      assert PreOrder(f) == [f.id] + (kids + next);
      assert PreOrder(f) == ([f.id] + kids) + next;
      assert PreOrder(f) == ([f.id] + kids) + next + [];
      forall b | b in Ids(f.kids) || b in Ids(f.next) ensures Precedes(PreOrder(f), f.id, b) {
        PrecedesAcross([f.id], kids + next, f.id, b);
      }
      forall a, b | a in Ids(f.kids) && b in Ids(f.next) ensures Precedes(PreOrder(f), a, b) {
        PrecedesAcross([f.id] + kids, next, a, b);
      }
    }
  }

  lemma {:induction false} ListsAll(f: Forest)
    ensures forall x :: x in PreOrder(f) <==> x in Ids(f)
  {
    if f.Node? {
      ListsAll(f.kids);
      ListsAll(f.next);
    }
  }

  /** The ids minted by an edit are those of the nodes it made, in document order. */
  lemma MintedInOrder(d: Doc, e: Edit, draw: nat -> Id)
    requires Endless(draw) && WellFormed(d)
    ensures InDocumentOrder(Created(d, e, draw).0, Minted(d, e, draw))
    ensures forall x :: x in Minted(d, e, draw) <==> x in Ids(Created(d, e, draw).0)
  {
    PreOrderIsDocumentOrder(Created(d, e, draw).0);
    ListsAll(Created(d, e, draw).0);
  }

  // ------------------------------------------------------------ the normalized edit

  /** The path leads to an input in both lists or in neither, of one type, with the flags of its fields derived. */
  ghost predicate FlagsDerived(schema: Schema, inp: Input, out: Input, path: seq<nat>)
    requires path != []
  {
    && (At(out, path).InputNode? <==> At(inp, path).InputNode?)
    && (At(inp, path).InputNode? ==>
          At(out, path).typ == At(inp, path).typ && At(out, path).fields == schema.enableFields(At(inp, path).typ, At(inp, path).fields))
  }

  /**
   * The normalized edit aims at the same nodes. It carries the position nearest to the index among the children its
   * destination has in the committed tree, inputs with derived flags at every path, and a patch with its flags derived.
   */
  lemma {:induction false} NormalForm(schema: Schema, t: Forest, e: Edit)
    requires Single(t) && Distinct(t) && EditLegal(schema, t, e)
    ensures
      var n := NormalizedEdit(schema, t, e);
      && (n.Insert? <==> e.Insert?) && (n.Update? <==> e.Update?) && (n.Move? <==> e.Move?) && (n.Remove? <==> e.Remove?)
      && TargetOf(n) == TargetOf(e) && DestinationOf(n) == DestinationOf(e)
      && (e.Insert? || e.Move? ==> n.index.Some? && n.index.value >= 0 && Nearest(e.index, |Row(t, e.parentId).kids|, n.index.value))
      && (e.Update? ==> n.patch == schema.enablePatch(Row(t, e.nodeId).typ, e.patch))
      && forall path :: path != [] ==> FlagsDerived(schema, InputsOf(e), InputsOf(n), path)
  {
    hide EditLegal, Nearest, ClampIndex, Enable, FlagsDerived;
    var n := NormalizedEdit(schema, t, e);
    forall path: seq<nat> | path != [] ensures FlagsDerived(schema, InputsOf(e), InputsOf(n), path) {
      DerivedAt(schema, InputsOf(e), path);
      NothingDerived(schema);
    }
    if e.Insert? || e.Move? {
      EditKnown(schema, t, e);
      ListedChildren(t, e.parentId);
      ClampIsNearest(e.index, |Row(t, e.parentId).kids|);
    }
    if e.Update? {
      EditKnown(schema, t, e);
      SubProps(t, e.nodeId);
    }
  }

  lemma EditKnown(schema: Schema, t: Forest, e: Edit)
    requires t.Node? && EditLegal(schema, t, e)
    ensures Known(t, e)
  {}

  lemma DerivedAt(schema: Schema, inp: Input, path: seq<nat>)
    requires path != []
    ensures FlagsDerived(schema, inp, Enable(schema, inp), path)
  {
    EnableAt(schema, inp, path);
  }

  lemma NothingDerived(schema: Schema)
    ensures Enable(schema, NoInput) == NoInput
  {}
}
