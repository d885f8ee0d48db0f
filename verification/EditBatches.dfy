/**
 * What a validated batch does as a whole.
 *
 * Validation looks at the committed tree only, so two more conditions on the batch,
 * both checkable before it runs, enter the theorems: `MovesApart` (no move goes into a
 * subtree that the batch moves) and `DestinationsKept` (nothing is put at or below a node
 * that another edit removes or empties).
 */
module EditBatches {
  import opened JsonValues
  import opened Options
  import opened DocumentTrees
  import opened DataMerge
  import opened EditSemantics
  import opened EditEffects
  import opened EditInputs
  import opened EditValidation

  // ------------------------------------------------------------ static conditions

  function DestinationOf(e: Edit): Option<Id> {
    if e.Insert? || e.Move? then Some(e.parentId) else None
  }

  /** What a remove or replaceChildren drops from the committed tree. */
  function DropZone(t: Forest, e: Edit): set<Id> {
    if e.Remove? && e.nodeId in Ids(t) then Ids(Sub(t, e.nodeId))
    else if e.ReplaceChildren? && e.nodeId in Ids(t) then Ids(Sub(t, e.nodeId).kids)
    else {}
  }

  predicate KeepsDestination(t: Forest, e: Edit, f: Edit) {
    DestinationOf(e).Some? && Wholesale(f) && f.nodeId in Ids(t) ==>
      DestinationOf(e).value !in Ids(Sub(t, f.nodeId))
  }

  ghost predicate DestinationsKept(t: Forest, edits: seq<Edit>) {
    forall i, j :: 0 <= i < |edits| && 0 <= j < |edits| && i != j ==> KeepsDestination(t, edits[i], edits[j])
  }

  predicate MoveApart(t: Forest, e: Edit, f: Edit) {
    e.Move? && f.Move? && f.nodeId in Ids(t) ==> e.parentId !in Ids(Sub(t, f.nodeId))
  }

  ghost predicate MovesApart(t: Forest, edits: seq<Edit>) {
    forall i, j :: 0 <= i < |edits| && 0 <= j < |edits| ==> MoveApart(t, edits[i], edits[j])
  }

  /** The id supply never repeats an id of the committed tree. */
  ghost predicate FreshSupply(t: Forest, draw: nat -> Id) {
    forall x :: x in Ids(t) ==> NeverDrawn(draw, x)
  }

  /** Two edits of one batch that do not disturb each other's nodes. */
  predicate Apart(t: Forest, e: Edit, f: Edit) {
    && (TargetOf(e).Some? ==> TargetOf(e) != TargetOf(f))
    && AvoidsBelow(t, e, f) && AvoidsBelow(t, f, e)
    && KeepsDestination(t, e, f) && KeepsDestination(t, f, e)
  }

  predicate AvoidsBelow(t: Forest, e: Edit, f: Edit) {
    TargetOf(e).Some? && Wholesale(f) && f.nodeId in Ids(t) ==> TargetOf(e).value !in Ids(Sub(t, f.nodeId).kids)
  }

  lemma {:induction false} LegalApart(schema: Schema, t: Forest, edits: seq<Edit>, i: nat, j: nat)
    requires Single(t) && Legal(schema, t, edits) && DestinationsKept(t, edits)
    requires i < |edits| && j < |edits| && i != j
    ensures Apart(t, edits[i], edits[j])
  {
    assert !Faulty(schema, t, edits, i) && !Faulty(schema, t, edits, j);
    if TargetOf(edits[i]).Some? && TargetOf(edits[i]) == TargetOf(edits[j]) {
      assert if i < j then Repeats(edits, j) else Repeats(edits, i);
    }
    assert !Inside(t, edits, i, j) && !Inside(t, edits, j, i);
    assert KeepsDestination(t, edits[i], edits[j]) && KeepsDestination(t, edits[j], edits[i]);
  }

  // ------------------------------------------------------------ overlap

  /** Subtrees are nested or disjoint. */
  lemma {:induction false} NestedOrDisjoint(t: Forest, x: Id, a: Id)
    requires Distinct(t) && x in Ids(t) && a in Ids(t)
    ensures Ids(Sub(t, x)) <= Ids(Sub(t, a)) || Ids(Sub(t, a)) <= Ids(Sub(t, x)) || Ids(Sub(t, x)) !! Ids(Sub(t, a))
  {
    if x in Ids(Sub(t, a)) {
      SubProps(Sub(t, a), x);
      SubSub(t, a, x);
    } else if a in Ids(Sub(t, x)) {
      SubProps(Sub(t, x), a);
      SubSub(t, x, a);
    } else {
      Outside(t, x, a);
    }
  }

  /** A node that is not strictly below `w`, and not `w`, has its whole subtree outside, or `w` inside. */
  lemma {:induction false} ZonesDisjoint(t: Forest, e: Edit, f: Edit)
    requires Distinct(t) && Wholesale(e) && Wholesale(f) && e.nodeId in Ids(t) && f.nodeId in Ids(t)
    requires e.nodeId != f.nodeId && AvoidsBelow(t, e, f) && AvoidsBelow(t, f, e)
    ensures Ids(Sub(t, e.nodeId)) !! Ids(Sub(t, f.nodeId))
    ensures DropZone(t, e) !! DropZone(t, f)
  {
    SubProps(t, e.nodeId);
    SubProps(t, f.nodeId);
    Outside(t, e.nodeId, f.nodeId);
  }

  /** A batch that passes the overlap check drops pairwise disjoint parts of the tree. */
  lemma {:induction false} DroppedPartsDisjoint(schema: Schema, t: Forest, edits: seq<Edit>, i: nat, j: nat)
    requires Single(t) && Distinct(t) && Legal(schema, t, edits) && i < j < |edits|
    ensures DropZone(t, edits[i]) !! DropZone(t, edits[j])
  {
    assert !Faulty(schema, t, edits, i) && !Faulty(schema, t, edits, j);
    if Wholesale(edits[i]) && Wholesale(edits[j]) {
      assert !Inside(t, edits, i, j) && !Inside(t, edits, j, i);
      assert edits[i].nodeId != edits[j].nodeId by {
        if TargetOf(edits[i]) == TargetOf(edits[j]) { assert Repeats(edits, j); }
      }
      ZonesDisjoint(t, edits[i], edits[j]);
    }
  }

  // ------------------------------------------------------------ pending edits stay valid

  /** The part of the tree that edit `f` relies on is still as committed. */
  ghost predicate Intact(t0: Forest, d: Doc, f: Edit) {
    && t0.Node? && d.tree.Node?
    && (TargetOf(f).Some? ==> f.nodeId in Ids(t0) && f.nodeId in Ids(d.tree) && f.nodeId !in d.loose)
    && (DestinationOf(f).Some? ==> f.parentId in Ids(t0) && f.parentId in Ids(d.tree))
    && (f.Move? || f.Remove? || f.ReplaceChildren? ==> f.nodeId != d.tree.id)
    && (Wholesale(f) ==> Sub(d.tree, f.nodeId) == Sub(t0, f.nodeId))
  }

  lemma IntactApplies(t0: Forest, d: Doc, f: Edit)
    requires Intact(t0, d, f)
    ensures Applies(d, f) && Dropped(d, f) == DropZone(t0, f)
  {}

  lemma {:induction false} IntactStart(schema: Schema, t: Forest, e: Edit)
    requires Single(t) && Distinct(t) && EditLegal(schema, t, e)
    ensures Intact(t, Start(t), e)
  {}

  /** Running one edit leaves every edit that is apart from it intact. */
  lemma {:induction false} IntactStep(t0: Forest, d: Doc, e: Edit, f: Edit, draw: nat -> Id)
    requires Endless(draw) && WellFormed(d) && !Cyclic(d, e) && Distinct(t0)
    requires Intact(t0, d, e) && Intact(t0, d, f) && Apart(t0, e, f)
    ensures Intact(t0, Step(d, e, draw), f)
  {
    IntactApplies(t0, d, e);
    IntactApplies(t0, d, f);
    StepWellFormed(d, e, draw);
    if TargetOf(e).Some? { SubProps(t0, e.nodeId); SubProps(d.tree, e.nodeId); }
    if Wholesale(f) {
      SubProps(t0, f.nodeId);
      StepUntouched(d, e, draw, f.nodeId);
    }
    if e.Insert? { StepInsert(d, e.parentId, e.node, e.index, draw); }
  }

  ghost predicate AllIntact(t0: Forest, d: Doc, edits: seq<Edit>, k: nat) {
    forall i :: k <= i < |edits| ==> Intact(t0, d, edits[i])
  }

  lemma {:induction false} RunIntact(schema: Schema, t: Forest, edits: seq<Edit>, draw: nat -> Id, k: nat)
    requires Endless(draw) && Single(t) && Distinct(t)
    requires Legal(schema, t, edits) && DestinationsKept(t, edits)
    requires k <= |edits| && Run(Start(t), edits[..k], draw).Some?
    ensures AllIntact(t, Before(Start(t), edits, k, draw), edits, k)
    decreases k
  {
    if k == 0 {
      forall i | 0 <= i < |edits| ensures Intact(t, Start(t), edits[i]) {
        assert !Faulty(schema, t, edits, i);
        IntactStart(schema, t, edits[i]);
      }
    } else {
      RunStep(Start(t), edits, k - 1, draw);
      RunIntact(schema, t, edits, draw, k - 1);
      var d := Before(Start(t), edits, k - 1, draw);
      forall i | k <= i < |edits| ensures Intact(t, Step(d, edits[k - 1], draw), edits[i]) {
        LegalApart(schema, t, edits, k - 1, i);
        IntactStep(t, d, edits[k - 1], edits[i], draw);
      }
    }
  }

  /** One more edit of the batch. */
  lemma {:induction false} RunStep(d: Doc, edits: seq<Edit>, k: nat, draw: nat -> Id)
    requires Endless(draw) && WellFormed(d) && k < |edits|
    ensures Run(d, edits[..k + 1], draw).Some? <==>
            Run(d, edits[..k], draw).Some? && !Cyclic(Before(d, edits, k, draw), edits[k])
    ensures Run(d, edits[..k + 1], draw).Some? ==>
            Before(d, edits, k + 1, draw) == Step(Before(d, edits, k, draw), edits[k], draw)
  {
    assert edits[..k + 1][..k] == edits[..k];
  }

  /** With every destination kept, no edit of a legal batch is skipped. */
  lemma {:induction false} NoEditSkipped(schema: Schema, t: Forest, edits: seq<Edit>, draw: nat -> Id, k: nat)
    requires Endless(draw) && Single(t) && Distinct(t)
    requires Legal(schema, t, edits) && DestinationsKept(t, edits)
    requires Run(Start(t), edits, draw).Some? && k < |edits|
    ensures Run(Start(t), edits[..k], draw).Some?
    ensures Applies(Before(Start(t), edits, k, draw), edits[k])
  {
    RunPrefix(Start(t), edits, k, draw);
    RunIntact(schema, t, edits, draw, k);
    IntactApplies(t, Before(Start(t), edits, k, draw), edits[k]);
  }

  // ------------------------------------------------------------ what the batch did

  /** Everything the batch drops from the committed tree. */
  function DroppedBy(t: Forest, edits: seq<Edit>): set<Id> {
    if edits == [] then {} else DroppedBy(t, edits[..|edits| - 1]) + DropZone(t, edits[|edits| - 1])
  }

  /** Everything the batch creates. */
  ghost function CreatedBy(d: Doc, edits: seq<Edit>, draw: nat -> Id): set<Id>
    requires Endless(draw) && WellFormed(d) && Run(d, edits, draw).Some?
  {
    if edits == [] then {}
    else
      CreatedBy(d, edits[..|edits| - 1], draw)
      + Ids(Created(Run(d, edits[..|edits| - 1], draw).value, edits[|edits| - 1], draw).0)
  }

  /** The data of node `y` after the batch's updates of `y`, in order. */
  function DataAfter(data: Data, y: Id, edits: seq<Edit>): Data {
    if edits == [] then data
    else
      var before := DataAfter(data, y, edits[..|edits| - 1]);
      var e := edits[|edits| - 1];
      if e.Update? && e.nodeId == y then Merge(before, e.patch) else before
  }

  lemma {:induction false} ZoneAlive(schema: Schema, t: Forest, edits: seq<Edit>, k: nat, i: nat)
    requires Single(t) && Distinct(t) && Legal(schema, t, edits) && k <= i < |edits|
    ensures DropZone(t, edits[i]) <= Ids(t) - DroppedBy(t, edits[..k])
  {
    assert !Faulty(schema, t, edits, i);
    if Wholesale(edits[i]) && edits[i].nodeId in Ids(t) { SubProps(t, edits[i].nodeId); }
    if k > 0 {
      ZoneAlive(schema, t, edits, k - 1, i);
      DroppedPartsDisjoint(schema, t, edits, k - 1, i);
      assert edits[..k][..k - 1] == edits[..k - 1];
    }
  }

  lemma IdsNext(all: set<Id>, dropped: set<Id>, created: set<Id>, zone: set<Id>, more: set<Id>)
    requires zone <= all - dropped && created !! all - dropped && more !! (all - dropped + created) - zone
    ensures ((all - dropped + created) - zone) + more == (all - (dropped + zone)) + (created + more)
    ensures created + more !! all - (dropped + zone)
  {}

  /** The ids of the document after `k` edits: committed minus dropped plus created, with no clash. */
  lemma {:induction false} BatchIds(schema: Schema, t: Forest, edits: seq<Edit>, draw: nat -> Id, k: nat)
    requires Endless(draw) && Single(t) && Distinct(t)
    requires Legal(schema, t, edits) && DestinationsKept(t, edits)
    requires k <= |edits| && Run(Start(t), edits[..k], draw).Some?
    ensures Ids(Before(Start(t), edits, k, draw).tree) ==
            (Ids(t) - DroppedBy(t, edits[..k])) + CreatedBy(Start(t), edits[..k], draw)
    ensures CreatedBy(Start(t), edits[..k], draw) !! Ids(t) - DroppedBy(t, edits[..k])
    decreases k
  {
    hide Step, Cyclic, Sub, Distinct, Applies, DropZone, Created, Dropped, Ids;
    if k > 0 {
      RunStep(Start(t), edits, k - 1, draw);
      BatchIds(schema, t, edits, draw, k - 1);
      RunIntact(schema, t, edits, draw, k - 1);
      var d, e := Before(Start(t), edits, k - 1, draw), edits[k - 1];
      IntactApplies(t, d, e);
      StepWellFormed(d, e, draw);
      ZoneAlive(schema, t, edits, k - 1, k - 1);
      assert edits[..k][..k - 1] == edits[..k - 1];
      IdsNext(Ids(t), DroppedBy(t, edits[..k - 1]), CreatedBy(Start(t), edits[..k - 1], draw),
              DropZone(t, e), Ids(Created(d, e, draw).0));
    }
  }

  /** Survivors keep their id and type, and their data up to the batch's own updates. */
  lemma {:induction false} BatchSurvivor(schema: Schema, t: Forest, edits: seq<Edit>, draw: nat -> Id, k: nat, y: Id)
    requires Endless(draw) && Single(t) && Distinct(t)
    requires Legal(schema, t, edits) && DestinationsKept(t, edits)
    requires k <= |edits| && Run(Start(t), edits[..k], draw).Some?
    requires y in Ids(t) && y !in DroppedBy(t, edits[..k])
    ensures y in Ids(Before(Start(t), edits, k, draw).tree)
    ensures Row(Before(Start(t), edits, k, draw).tree, y).typ == Row(t, y).typ
    ensures Row(Before(Start(t), edits, k, draw).tree, y).data == DataAfter(Row(t, y).data, y, edits[..k])
    decreases k
  {
    if k > 0 {
      assert edits[..k][..k - 1] == edits[..k - 1];
      RunStep(Start(t), edits, k - 1, draw);
      BatchSurvivor(schema, t, edits, draw, k - 1, y);
      RunIntact(schema, t, edits, draw, k - 1);
      var d, e := Before(Start(t), edits, k - 1, draw), edits[k - 1];
      IntactApplies(t, d, e);
      StepRow(d, e, draw, y);
    }
  }

  /** The nodes an edit names are not dropped by the edits before it. */
  lemma {:induction false} TargetsAlive(schema: Schema, t: Forest, edits: seq<Edit>, k: nat, i: nat)
    requires Single(t) && Distinct(t) && Legal(schema, t, edits) && DestinationsKept(t, edits)
    requires k <= i < |edits|
    ensures TargetOf(edits[i]).Some? ==> edits[i].nodeId in Ids(t) - DroppedBy(t, edits[..k])
    ensures DestinationOf(edits[i]).Some? ==> edits[i].parentId in Ids(t) - DroppedBy(t, edits[..k])
  {
    assert !Faulty(schema, t, edits, i);
    if k > 0 {
      TargetsAlive(schema, t, edits, k - 1, i);
      LegalApart(schema, t, edits, k - 1, i);
      assert edits[..k][..k - 1] == edits[..k - 1];
      var e := edits[k - 1];
      if Wholesale(e) && e.nodeId in Ids(t) { SubProps(t, e.nodeId); }
    }
  }

  // ------------------------------------------------------------ order of siblings

  ghost function Filter(s: seq<Id>, keep: set<Id>): seq<Id> {
    if s == [] then [] else (if s[0] in keep then [s[0]] else []) + Filter(s[1..], keep)
  }

  lemma {:induction false} FilterNone(s: seq<Id>, keep: set<Id>)
    requires forall x :: x in s ==> x !in keep
    ensures Filter(s, keep) == []
  {
    if s != [] { FilterNone(s[1..], keep); }
  }

  lemma {:induction false} FilterWithout(s: seq<Id>, keep: set<Id>, x: Id)
    requires x !in keep
    ensures Filter(Without(s, x), keep) == Filter(s, keep)
  {
    if s != [] && s[0] != x { FilterWithout(s[1..], keep, x); }
  }

  lemma {:induction false} FilterInsert(s: seq<Id>, keep: set<Id>, at: nat, x: Id)
    requires x !in keep && at <= |s|
    ensures Filter(InsertAt(s, at, x), keep) == Filter(s, keep)
  {
    var r := InsertAt(s, at, x);
    if at == 0 {
      assert r[1..] == s;
    } else {
      assert r[0] == s[0] && r[1..] == InsertAt(s[1..], at - 1, x);
      FilterInsert(s[1..], keep, at - 1, x);
    }
  }

  /** One edit leaves the order of the kept children alone, at every node it does not empty. */
  lemma {:induction false} StepOrder(d: Doc, e: Edit, draw: nat -> Id, q: Id, keep: set<Id>)
    requires Endless(draw) && WellFormed(d) && !Cyclic(d, e)
    requires q in Ids(d.tree) && q !in Dropped(d, e)
    requires keep <= Ids(d.tree) - Dropped(d, e)
    requires e.Move? ==> e.nodeId !in keep
    ensures q in Ids(Step(d, e, draw).tree)
    ensures Filter(Row(Step(d, e, draw).tree, q).kids, keep) == Filter(Row(d.tree, q).kids, keep)
  {
    StepRow(d, e, draw, q);
    StepWellFormed(d, e, draw);
    var kids := Row(d.tree, q).kids;
    if Applies(d, e) {
      match e
      case Insert(p, inp, at) =>
        StepInsert(d, p, inp, at, draw);
        FilterInsert(kids, keep, ClampIndex(at, |kids|), Build(inp, draw, d.draws, Ids(d.tree)).0.id);
      case Update(_, _) =>
      case Move(x, p, at) =>
        FilterWithout(kids, keep, x);
        FilterInsert(Without(kids, x), keep, ClampIndex(at, |Without(kids, x)|), x);
      case Remove(x) =>
        SubProps(d.tree, x);
        FilterWithout(kids, keep, x);
      case ReplaceChildren(x, inp) =>
        if q == x {
          SubProps(d.tree, x);
          TopsInIds(Sub(d.tree, x).kids);
          TopsInIds(Created(d, e, draw).0);
          FilterNone(kids, keep);
          FilterNone(Tops(Created(d, e, draw).0), keep);
        }
    }
  }

  ghost predicate NotMoved(edits: seq<Edit>, keep: set<Id>) {
    forall i :: 0 <= i < |edits| && edits[i].Move? ==> edits[i].nodeId !in keep
  }

  /** Siblings that the batch neither moves nor drops keep their relative order. */
  lemma {:induction false} BatchOrder(schema: Schema, t: Forest, edits: seq<Edit>, draw: nat -> Id, k: nat, q: Id, keep: set<Id>)
    requires Endless(draw) && Single(t) && Distinct(t)
    requires Legal(schema, t, edits) && DestinationsKept(t, edits)
    requires k <= |edits| && Run(Start(t), edits[..k], draw).Some?
    requires q in Ids(t) - DroppedBy(t, edits[..k])
    requires keep <= Ids(t) - DroppedBy(t, edits[..k]) && NotMoved(edits[..k], keep)
    ensures q in Ids(Before(Start(t), edits, k, draw).tree)
    ensures Filter(Row(Before(Start(t), edits, k, draw).tree, q).kids, keep) == Filter(Row(t, q).kids, keep)
    decreases k
  {
    if k > 0 {
      assert edits[..k][..k - 1] == edits[..k - 1];
      assert NotMoved(edits[..k - 1], keep) by {
        forall i | 0 <= i < k - 1 ensures edits[..k - 1][i] == edits[..k][i] {}
      }
      RunStep(Start(t), edits, k - 1, draw);
      BatchOrder(schema, t, edits, draw, k - 1, q, keep);
      BatchIds(schema, t, edits, draw, k - 1);
      RunIntact(schema, t, edits, draw, k - 1);
      var d, e := Before(Start(t), edits, k - 1, draw), edits[k - 1];
      IntactApplies(t, d, e);
      assert edits[..k][k - 1] == e;
      StepOrder(d, e, draw, q, keep);
    }
  }

  // ------------------------------------------------------------ placement

  lemma {:induction false} WithoutKeeps(s: seq<Id>, x: Id, y: Id)
    requires y in s && y != x
    ensures y in Without(s, x)
  {
    if s[0] == x { assert y in s[1..]; } else if s[0] != y { WithoutKeeps(s[1..], x, y); }
  }

  /** A child stays a child unless its node is moved, dropped or its parent emptied. */
  lemma {:induction false} StepKeepsChild(d: Doc, e: Edit, draw: nat -> Id, q: Id, y: Id)
    requires Endless(draw) && WellFormed(d) && !Cyclic(d, e)
    requires q in Ids(d.tree) && q !in Dropped(d, e) && y in Row(d.tree, q).kids
    requires e.Move? || e.Remove? ==> e.nodeId != y
    requires e.ReplaceChildren? ==> e.nodeId != q
    ensures q in Ids(Step(d, e, draw).tree) && y in Row(Step(d, e, draw).tree, q).kids
  {
    StepRow(d, e, draw, q);
    if e.Move? || e.Remove? { WithoutKeeps(Row(d.tree, q).kids, e.nodeId, y); }
  }

  /** The node that edit `i` puts somewhere: the moved node, or the root it inserts. */
  ghost function Placed(d: Doc, e: Edit, draw: nat -> Id): Id
    requires Endless(draw) && WellFormed(d) && Applies(d, e) && DestinationOf(e).Some?
  {
    if e.Move? then e.nodeId
    else
      BuildDistinct(e.node, draw, d.draws, Ids(d.tree));
      Build(e.node, draw, d.draws, Ids(d.tree)).0.id
  }

  /** No later edit moves or drops what edit `i` placed, or drops or empties its parent. */
  lemma {:induction false} PlacedUntouched(schema: Schema, t: Forest, edits: seq<Edit>, draw: nat -> Id, i: nat, j: nat)
    requires Endless(draw) && Single(t) && Distinct(t)
    requires Legal(schema, t, edits) && DestinationsKept(t, edits)
    requires i < j < |edits| && DestinationOf(edits[i]).Some?
    requires Run(Start(t), edits[..i], draw).Some? && Applies(Before(Start(t), edits, i, draw), edits[i])
    ensures edits[j].Move? || edits[j].Remove? ==>
              edits[j].nodeId != Placed(Before(Start(t), edits, i, draw), edits[i], draw)
    ensures edits[j].ReplaceChildren? ==> edits[j].nodeId != edits[i].parentId
    ensures edits[i].parentId !in DropZone(t, edits[j])
  {
    hide Step, Cyclic, Distinct, Build, Placed, Run, Before;
    LegalApart(schema, t, edits, i, j);
    assert !Faulty(schema, t, edits, j);
    if Wholesale(edits[j]) { SubProps(t, edits[j].nodeId); }
    if TargetOf(edits[j]).Some? {
      if edits[i].Insert? { CreatedIsNotTarget(schema, t, edits, draw, i, j); }
      else { PlacedByMove(Before(Start(t), edits, i, draw), edits[i], draw); }
    }
  }

  lemma PlacedByMove(d: Doc, e: Edit, draw: nat -> Id)
    requires Endless(draw) && WellFormed(d) && Applies(d, e) && e.Move?
    ensures Placed(d, e, draw) == e.nodeId
  {}

  /** What an insert or move puts under its parent is still there when the batch ends. */
  lemma {:induction false} PlacementLasts(schema: Schema, t: Forest, edits: seq<Edit>, draw: nat -> Id, i: nat, k: nat)
    requires Endless(draw) && Single(t) && Distinct(t)
    requires Legal(schema, t, edits) && DestinationsKept(t, edits)
    requires i < k <= |edits| && DestinationOf(edits[i]).Some?
    requires Run(Start(t), edits[..k], draw).Some?
    ensures Run(Start(t), edits[..i], draw).Some? && Applies(Before(Start(t), edits, i, draw), edits[i])
    ensures edits[i].parentId in Ids(Before(Start(t), edits, k, draw).tree)
    ensures Placed(Before(Start(t), edits, i, draw), edits[i], draw)
            in Row(Before(Start(t), edits, k, draw).tree, edits[i].parentId).kids
    decreases k
  {
    hide Step, Cyclic, Sub, Distinct;
    RunStep(Start(t), edits, k - 1, draw);
    RunIntact(schema, t, edits, draw, k - 1);
    var d, e := Before(Start(t), edits, k - 1, draw), edits[k - 1];
    IntactApplies(t, d, e);
    if i == k - 1 {
      StepRow(d, e, draw, e.parentId);
    } else {
      PlacementLasts(schema, t, edits, draw, i, k - 1);
      PlacedUntouched(schema, t, edits, draw, i, k - 1);
      StepKeepsChild(d, e, draw, edits[i].parentId, Placed(Before(Start(t), edits, i, draw), edits[i], draw));
    }
  }

  /** A minted root is none of the nodes that later edits aim at. */
  lemma {:induction false} CreatedIsNotTarget(schema: Schema, t: Forest, edits: seq<Edit>, draw: nat -> Id, i: nat, j: nat)
    requires Endless(draw) && Single(t) && Distinct(t)
    requires Legal(schema, t, edits) && DestinationsKept(t, edits)
    requires i < j < |edits| && edits[i].Insert? && TargetOf(edits[j]).Some?
    requires Run(Start(t), edits[..i], draw).Some? && Applies(Before(Start(t), edits, i, draw), edits[i])
    ensures edits[j].nodeId != Placed(Before(Start(t), edits, i, draw), edits[i], draw)
  {
    RunIntact(schema, t, edits, draw, i);
    var d := Before(Start(t), edits, i, draw);
    assert Intact(t, d, edits[j]);
    StepInsert(d, edits[i].parentId, edits[i].node, edits[i].index, draw);
  }

  // ------------------------------------------------------------ the normalized batch

  /** Injecting style flags keeps legal fields legal, and injecting twice is injecting once. */
  ghost predicate FlagsSafe(schema: Schema) {
    && (forall typ, f :: schema.fieldsOk(typ, f) ==> schema.fieldsOk(typ, schema.enableFields(typ, f)))
    && (forall typ, f :: schema.patchOk(typ, f) ==> schema.patchOk(typ, schema.enablePatch(typ, f)))
    && (forall typ, f :: schema.enableFields(typ, schema.enableFields(typ, f)) == schema.enableFields(typ, f))
    && (forall typ, f :: schema.enablePatch(typ, schema.enablePatch(typ, f)) == schema.enablePatch(typ, f))
  }

  lemma {:induction false} EnableTwice(schema: Schema, inp: Input)
    requires FlagsSafe(schema)
    ensures Enable(schema, Enable(schema, inp)) == Enable(schema, inp)
  {
    if inp.InputNode? {
      EnableTwice(schema, inp.kids);
      EnableTwice(schema, inp.next);
    }
  }

  lemma {:induction false} EnableKeepsList(schema: Schema, inp: Input, parentType: string)
    requires FlagsSafe(schema) && ChildrenLegal(schema, inp, parentType)
    ensures ChildrenLegal(schema, Enable(schema, inp), parentType)
  {
    hide InputOk, Enable;
    forall n: nat | Nth(Enable(schema, inp), n).InputNode?
      ensures
        var made := Nth(Enable(schema, inp), n);
        schema.canBeChildOf(made.typ, parentType) && InputOk(schema, made)
    {
      EnableNth(schema, inp, n);
      assert InputOk(schema, Nth(inp, n));
      EnableOk(schema, Nth(inp, n));
    }
  }

  lemma {:induction false} NormalizedEditLegal(schema: Schema, t: Forest, e: Edit)
    requires FlagsSafe(schema) && t.Node? && EditLegal(schema, t, e)
    ensures EditLegal(schema, t, NormalizedEdit(schema, t, e))
    ensures NormalizedEdit(schema, t, NormalizedEdit(schema, t, e)) == NormalizedEdit(schema, t, e)
  {
    hide InputOk, ChildrenLegal;
    match e
    case Insert(p, inp, at) =>
      EnableTwice(schema, inp);
      EnableOk(schema, inp);
    case ReplaceChildren(x, inp) =>
      EnableTwice(schema, inp);
      EnableKeepsList(schema, inp, TypeOf(t, x));
    case _ =>
  }

  /** The batch that validation hands on is itself legal, and is unchanged by another round. */
  lemma {:induction false} NormalizedLegal(schema: Schema, t: Forest, edits: seq<Edit>, out: seq<Edit>)
    requires FlagsSafe(schema) && Single(t) && Legal(schema, t, edits) && IsNormalized(schema, t, edits, out)
    ensures Legal(schema, t, out) && IsNormalized(schema, t, out, out)
  {
    forall i | 0 <= i < |out|
      ensures !Faulty(schema, t, out, i) && NormalizedEdit(schema, t, out[i]) == out[i]
    {
      assert !Faulty(schema, t, edits, i);
      NormalizedEditLegal(schema, t, edits[i]);
      assert !Repeats(edits, i);
      assert forall j :: 0 <= j <= i ==> EditLegal(schema, t, edits[j]) && TargetOf(out[j]) == TargetOf(edits[j]);
      forall j | 0 <= j < |out| ensures !Inside(t, out, i, j) {
        assert !Inside(t, edits, i, j);
      }
    }
  }

  /** It meets the two static conditions exactly when the submitted batch does. */
  lemma {:induction false} NormalizedConditions(schema: Schema, t: Forest, edits: seq<Edit>, out: seq<Edit>)
    requires Single(t) && IsNormalized(schema, t, edits, out)
    ensures MovesApart(t, out) <==> MovesApart(t, edits)
    ensures DestinationsKept(t, out) <==> DestinationsKept(t, edits)
  {
    forall i, j | 0 <= i < |out| && 0 <= j < |out|
      ensures MoveApart(t, out[i], out[j]) <==> MoveApart(t, edits[i], edits[j])
      ensures KeepsDestination(t, out[i], out[j]) <==> KeepsDestination(t, edits[i], edits[j])
    {
      assert EditLegal(schema, t, edits[i]) && EditLegal(schema, t, edits[j]);
    }
    assert MovesApart(t, out) ==> forall i, j :: 0 <= i < |out| && 0 <= j < |out| ==> MoveApart(t, out[i], out[j]);
  }
}
