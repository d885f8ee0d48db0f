/**
 * What a batch does to the committed nodes, followed on a map from child to parent alone.
 *
 * Whether an edit finds its nodes, and whether a move closes a cycle, depends on nothing but
 * which committed nodes are left and who their parents are.
 */
module EditLinks {
  import opened Options
  import opened DocumentTrees
  import opened DataMerge
  import opened EditSemantics
  import opened EditEffects
  import opened EditInputs
  import opened EditValidation
  import opened EditBatches

  /** The parent of every node but the root. */
  type Links = map<Id, Id>

  /** The node `k` links up from `y`. */
  function Climb(links: Links, y: Id, k: nat): Option<Id> {
    if k == 0 then Some(y)
    else
      match Climb(links, y, k - 1)
      case None => None
      case Some(z) => if z in links then Some(links[z]) else None
  }

  /** A path of links leads from `y` up to `a`, or they are the same. */
  ghost predicate Above(links: Links, a: Id, y: Id) {
    exists k :: Climb(links, y, k) == Some(a)
  }

  lemma {:induction false} ClimbFromParent(links: Links, y: Id, k: nat)
    requires y in links
    ensures Climb(links, y, k + 1) == Climb(links, links[y], k)
  {
    if k > 0 {
      ClimbFromParent(links, y, k - 1);
    }
  }

  // ------------------------------------------------------------ links of a tree

  /** `links` are the parents in `f` of `nodes`, which contain all their ancestors. */
  ghost predicate LinksOf(f: Forest, links: Links, nodes: set<Id>) {
    && f.Node? && f.id in nodes && nodes <= Ids(f)
    && links.Keys == nodes - {f.id}
    && forall y :: y in links ==> links[y] == Parent(f, "", y) && links[y] in nodes
  }

  lemma {:induction false} ParentAbove(f: Forest, y: Id)
    requires Single(f) && Distinct(f) && y in Ids(f) && y != f.id
    ensures Parent(f, "", y) in Ids(f) && Under(f, Parent(f, "", y), y)
    ensures |Ids(Sub(f, Parent(f, "", y)))| > |Ids(Sub(f, y))|
  {
    var p := Parent(f, "", y);
    ParentLists(f, "", y);
    assert y !in Tops(f) by { TopsInIds(f.next); }
    SubProps(f, p);
    TopsInIds(Sub(f, p).kids);
    SubSub(f, p, y);
    SubProps(Sub(f, p), y);
    NotAbove(f, p, y);
    LargerSet(Ids(Sub(f, y)), Ids(Sub(f, p)), p);
  }

  lemma LargerSet(small: set<Id>, large: set<Id>, x: Id)
    requires small <= large && x in large && x !in small
    ensures |small| < |large|
  {
    SubsetSize(small, large - {x});
    assert |large - {x}| == |large| - 1;
  }

  lemma {:induction false} AboveIsUnder(f: Forest, links: Links, nodes: set<Id>, a: Id, y: Id, k: nat)
    requires Single(f) && Distinct(f) && LinksOf(f, links, nodes) && y in nodes && Climb(links, y, k) == Some(a)
    ensures a in nodes && Under(f, a, y)
    decreases k
  {
    SubProps(f, y);
    if k > 0 {
      var z := Climb(links, y, k - 1).value;
      AboveIsUnder(f, links, nodes, z, y, k - 1);
      ParentAbove(f, z);
      SubSub(f, a, z);
      SubProps(Sub(f, a), z);
    }
  }

  lemma {:induction false} UnderIsAbove(f: Forest, links: Links, nodes: set<Id>, a: Id, y: Id)
    requires Single(f) && Distinct(f) && LinksOf(f, links, nodes) && y in nodes && Under(f, a, y)
    ensures Above(links, a, y)
    decreases |Ids(f)| - |Ids(Sub(f, y))|
  {
    if a == y {
      assert Climb(links, y, 0) == Some(a);
    } else {
      var p := Parent(f, "", y);
      SubProps(f, a);
      NotRoot(f, a, y);
      ParentAbove(f, y);
      ParentWithin(f, a, y);
      SubProps(f, p);
      SubsetSize(Ids(Sub(f, p)), Ids(f));
      UnderIsAbove(f, links, nodes, a, p);
      var k :| Climb(links, p, k) == Some(a);
      ClimbFromParent(links, y, k);
    }
  }

  lemma NotRoot(f: Forest, a: Id, y: Id)
    requires Single(f) && Distinct(f) && Under(f, a, y) && a != y
    ensures y != f.id
  {
    SubProps(f, a);
    NotAbove(f, a, y);
  }

  /** The parent of a node strictly below `a` is below `a`. */
  lemma {:induction false} ParentWithin(f: Forest, a: Id, y: Id)
    requires Distinct(f) && Under(f, a, y) && a != y
    ensures y in Ids(f) && Under(f, a, Parent(f, "", y))
  {
    SubProps(f, a);
    SubKid(f, "", a, y);
    ParentLists(Sub(f, a).kids, a, y);
  }

  /** Ancestry in the tree is the existence of a path of links. */
  lemma {:induction false} UnderIffAbove(f: Forest, links: Links, nodes: set<Id>, a: Id, y: Id)
    requires Single(f) && Distinct(f) && LinksOf(f, links, nodes) && a in nodes && y in nodes
    ensures Under(f, a, y) <==> Above(links, a, y)
  {
    if Under(f, a, y) {
      UnderIsAbove(f, links, nodes, a, y);
    }
    if Above(links, a, y) {
      var k :| Climb(links, y, k) == Some(a);
      AboveIsUnder(f, links, nodes, a, y, k);
    }
  }

  // ------------------------------------------------------------ links after an edit

  /** The parent of every survivor of an edit: only a move changes one. */
  lemma {:induction false} StepParent(d: Doc, e: Edit, draw: nat -> Id, y: Id)
    requires Endless(draw) && WellFormed(d) && !Cyclic(d, e)
    requires y in Ids(d.tree) && y !in Dropped(d, e)
    ensures y in Ids(Step(d, e, draw).tree)
    ensures Parent(Step(d, e, draw).tree, "", y) ==
            if e.Move? && Applies(d, e) && e.nodeId == y then e.parentId else Parent(d.tree, "", y)
  {
    var t := d.tree;
    if Applies(d, e) {
      match e
      case Insert(p, inp, at) =>
        StepInsert(d, p, inp, at, draw);
        GraftRow(t, "", p, ClampIndex(at, Length(Sub(t, p).kids)), Build(inp, draw, d.draws, Ids(t)).0, y);
      case Update(x, patch) =>
        var kids := Sub(t, x).kids;
        SubProps(t, x);
        PutUp(t, "", x, Merge(Sub(t, x).data, patch), kids, y);
        if y in Ids(kids) { SubKid(t, "", x, y); }
      case Move(x, p, at) =>
        MoveParent(d, x, p, at, draw, y);
      case Remove(x) =>
        CutRow(t, "", x, y);
      case ReplaceChildren(x, inp) =>
        StepReplace(d, x, inp, draw);
        SubProps(t, x);
        PutUp(t, "", x, Sub(t, x).data, Created(d, e, draw).0, y);
    }
  }

  lemma {:induction false} MoveParent(d: Doc, x: Id, p: Id, at: Option<int>, draw: nat -> Id, y: Id)
    requires Endless(draw) && WellFormed(d) && HasParent(d, x) && p in Ids(d.tree) && p !in Ids(Sub(d.tree, x))
    requires y in Ids(d.tree)
    ensures
      var after := Step(d, Move(x, p, at), draw).tree;
      y in Ids(after) && Parent(after, "", y) == if y == x then p else Parent(d.tree, "", y)
  {
    var t := d.tree;
    StepMove(d, x, p, at, draw);
    SubProps(t, x);
    var s, rest := Sub(t, x), Cut(t, x);
    if y !in Ids(s) {
      CutRow(t, "", x, y);
    } else if y != x {
      SubKid(t, "", x, y);
    }
    GraftRow(rest, "", p, ClampIndex(at, Length(Sub(rest, p).kids)), s, y);
  }

  // ------------------------------------------------------------ when moves close no cycle

  /** The parent of committed node `y` when the moves among the first `i` edits are done. */
  function NewParent(t: Forest, edits: seq<Edit>, i: nat, y: Id): Id
    requires i <= |edits| && y in Ids(t)
  {
    if i == 0 then Parent(t, "", y)
    else if edits[i - 1].Move? && edits[i - 1].nodeId == y then edits[i - 1].parentId
    else NewParent(t, edits, i - 1, y)
  }

  function NewLinks(t: Forest, edits: seq<Edit>, i: nat): (links: Links)
    requires t.Node? && i <= |edits|
  {
    map y | y in Ids(t) && y != t.id :: NewParent(t, edits, i, y)
  }

  /** In a legal batch a node is moved at most once, so its new parent is that move's destination. */
  lemma {:induction false} NewParentIs(schema: Schema, t: Forest, edits: seq<Edit>, i: nat, j: nat, y: Id)
    requires Single(t) && Legal(schema, t, edits) && i <= |edits| && y in Ids(t)
    ensures j < i && edits[j].Move? && edits[j].nodeId == y ==> NewParent(t, edits, i, y) == edits[j].parentId
    ensures (forall m :: 0 <= m < i && edits[m].Move? ==> edits[m].nodeId != y) ==> NewParent(t, edits, i, y) == Parent(t, "", y)
    decreases i
  {
    if i > 0 {
      NewParentIs(schema, t, edits, i - 1, j, y);
      if j < i - 1 && edits[i - 1].Move? && edits[j].Move? {
        assert !Faulty(schema, t, edits, i - 1);
        assert TargetOf(edits[j]) != TargetOf(edits[i - 1]) by {
          if TargetOf(edits[j]) == TargetOf(edits[i - 1]) { assert Repeats(edits, i - 1); }
        }
      }
    }
  }

  // ------------------------------------------------------------ nodes that no batch may touch

  /** The root of the document, and every library and code component. */
  predicate Protected(t: Forest, x: Id)
    requires x in Ids(t) && t.Node?
  {
    x == t.id || Row(t, x).typ == "library" || Row(t, x).typ == "codeComponent"
  }

  /** No edit drops the node along with another one that it lies below. */
  ghost predicate NotBelowDropped(t: Forest, edits: seq<Edit>, x: Id) {
    forall i :: 0 <= i < |edits| && Wholesale(edits[i]) && edits[i].nodeId in Ids(t) ==> x !in Ids(Sub(t, edits[i].nodeId).kids)
  }

  lemma {:induction false} ProtectedNotDropped(schema: Schema, t: Forest, edits: seq<Edit>, k: nat, x: Id)
    requires Single(t) && Distinct(t) && Legal(schema, t, edits) && k <= |edits|
    requires x in Ids(t) && Protected(t, x) && NotBelowDropped(t, edits, x)
    ensures x !in DroppedBy(t, edits[..k])
    ensures k < |edits| && (edits[k].Move? || edits[k].Remove?) ==> edits[k].nodeId != x
  {
    SubProps(t, x);
    if k < |edits| { assert !Faulty(schema, t, edits, k); }
    if k > 0 {
      ProtectedNotDropped(schema, t, edits, k - 1, x);
      assert edits[..k][..k - 1] == edits[..k - 1];
      var e := edits[k - 1];
      if Wholesale(e) && e.nodeId in Ids(t) { SubProps(t, e.nodeId); }
    }
  }

  lemma ZoneNotDropped(t: Forest, edits: seq<Edit>, k: nat, x: Id)
    requires 0 < k <= |edits| && x !in DroppedBy(t, edits[..k])
    ensures x !in DropZone(t, edits[k - 1])
  {}

  /** Whatever a legal batch does, a protected node not below a dropped one stays, with its type and under its parent. */
  lemma {:induction false} ProtectedStay(schema: Schema, t: Forest, edits: seq<Edit>, draw: nat -> Id, k: nat, x: Id)
    requires Endless(draw) && Single(t) && Distinct(t)
    requires Legal(schema, t, edits) && DestinationsKept(t, edits)
    requires k <= |edits| && Run(Start(t), edits[..k], draw).Some?
    requires x in Ids(t) && Protected(t, x) && NotBelowDropped(t, edits, x)
    ensures
      var after := Before(Start(t), edits, k, draw).tree;
      x in Ids(after) && Row(after, x).typ == Row(t, x).typ && Parent(after, "", x) == Parent(t, "", x)
    decreases k
  {
    hide Step, Cyclic, Sub, Distinct, Row, Parent, Ids, Protected, NotBelowDropped, DroppedBy;
    ProtectedNotDropped(schema, t, edits, k, x);
    BatchSurvivor(schema, t, edits, draw, k, x);
    if k == 0 {
      assert edits[..0] == [];
    } else {
      RunStep(Start(t), edits, k - 1, draw);
      ProtectedStay(schema, t, edits, draw, k - 1, x);
      ProtectedNotDropped(schema, t, edits, k - 1, x);
      RunIntact(schema, t, edits, draw, k - 1);
      var d, e := Before(Start(t), edits, k - 1, draw), edits[k - 1];
      IntactApplies(t, d, e);
      ZoneNotDropped(t, edits, k, x);
      StepParent(d, e, draw, x);
    }
  }
}
