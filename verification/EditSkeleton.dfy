/**
 * Which edits of a batch take effect. The in-place run skips an edit whose nodes are gone; this
 * says when, from the committed tree and the batch alone.
 */
module EditSkeleton {
  import opened Options
  import opened DocumentTrees
  import opened EditSemantics
  import opened EditEffects
  import opened EditInputs
  import opened EditValidation
  import opened EditBatches
  import opened EditLinks

  // ------------------------------------------------------------ the committed nodes, followed by their links

  /** The committed nodes that are left, and their parents. */
  datatype Skeleton = Skeleton(links: Links, alive: set<Id>)

  function StartSkeleton(t: Forest): Skeleton
    requires t.Node?
  {
    Skeleton(map y | y in Ids(t) && y != t.id :: Parent(t, "", y), Ids(t))
  }

  /** The nodes the edit names are left. */
  predicate Finds(s: Skeleton, e: Edit) {
    (TargetOf(e).Some? ==> e.nodeId in s.alive) && (DestinationOf(e).Some? ==> e.parentId in s.alive)
  }

  /** A move whose destination the links place at or below its node. */
  ghost predicate Closes(s: Skeleton, e: Edit) {
    e.Move? && Finds(s, e) && Above(s.links, e.nodeId, e.parentId)
  }

  /** The nodes left that the links place below the target, and for a remove the target. */
  ghost function Lost(s: Skeleton, e: Edit): set<Id> {
    if !Finds(s, e) || !Wholesale(e) then {}
    else set y | y in s.alive && Above(s.links, e.nodeId, y) && (e.Remove? || y != e.nodeId)
  }

  ghost function Follow(s: Skeleton, e: Edit): Skeleton {
    var links := if e.Move? && Finds(s, e) then s.links[e.nodeId := e.parentId] else s.links;
    Skeleton(links - Lost(s, e), s.alive - Lost(s, e))
  }

  ghost function Followed(t: Forest, edits: seq<Edit>, k: nat): Skeleton
    requires t.Node? && k <= |edits|
  {
    if k == 0 then StartSkeleton(t) else Follow(Followed(t, edits, k - 1), edits[k - 1])
  }

  /** The skeleton holds what is left of the committed nodes in the document. */
  ghost predicate Holds(t: Forest, s: Skeleton, d: Doc) {
    && WellFormed(d) && t.Node? && d.tree.id == t.id && d.loose !! Ids(t)
    && s.alive == Ids(d.tree) * Ids(t)
    && LinksOf(d.tree, s.links, s.alive)
  }

  lemma {:induction false} HoldsStart(t: Forest)
    requires Single(t) && Distinct(t)
    ensures Holds(t, StartSkeleton(t), Start(t))
  {
    forall y | y in Ids(t) && y != t.id ensures Parent(t, "", y) in Ids(t) {
      ParentAbove(t, y);
    }
  }

  lemma FindsIffApplies(schema: Schema, t: Forest, s: Skeleton, d: Doc, e: Edit)
    requires Single(t) && EditLegal(schema, t, e) && Holds(t, s, d)
    ensures Applies(d, e) <==> Finds(s, e)
  {}

  lemma {:induction false} ClosesIffCyclic(schema: Schema, t: Forest, s: Skeleton, d: Doc, e: Edit)
    requires Single(t) && EditLegal(schema, t, e) && Holds(t, s, d)
    ensures Cyclic(d, e) <==> Closes(s, e)
  {
    hide Above;
    FindsIffApplies(schema, t, s, d, e);
    if e.Move? && Finds(s, e) {
      UnderIffAbove(d.tree, s.links, s.alive, e.nodeId, e.parentId);
    }
  }

  lemma {:induction false} LostIsDropped(schema: Schema, t: Forest, s: Skeleton, d: Doc, e: Edit)
    requires Single(t) && EditLegal(schema, t, e) && Holds(t, s, d)
    ensures Lost(s, e) == Dropped(d, e) * Ids(t)
  {
    hide Above;
    FindsIffApplies(schema, t, s, d, e);
    if Finds(s, e) && Wholesale(e) {
      SubProps(d.tree, e.nodeId);
      NotAboveItself(d.tree, e.nodeId);
      forall y | y in s.alive ensures Under(d.tree, e.nodeId, y) <==> Above(s.links, e.nodeId, y) {
        UnderIffAbove(d.tree, s.links, s.alive, e.nodeId, y);
      }
    }
  }

  lemma {:induction false} NotAboveItself(f: Forest, x: Id)
    requires Distinct(f) && x in Ids(f)
    ensures x !in Ids(Sub(f, x).kids)
  {
    SubProps(f, x);
  }

  lemma {:induction false} CreatedNotCommitted(t: Forest, d: Doc, e: Edit, draw: nat -> Id)
    requires Endless(draw) && FreshSupply(t, draw)
    ensures Ids(Created(d, e, draw).0) !! Ids(t)
  {
    forall x | x in Ids(t) ensures x !in Ids(Created(d, e, draw).0) {
      if Applies(d, e) && e.Insert? { BuildDraws(e.node, draw, d.draws, Ids(d.tree), x); }
      if Applies(d, e) && e.ReplaceChildren? { BuildDraws(e.children, draw, d.draws, Ids(d.tree) - Dropped(d, e), x); }
    }
  }

  lemma LeftOver(all: set<Id>, dropped: set<Id>, created: set<Id>, committed: set<Id>)
    requires created !! committed
    ensures ((all - dropped) + created) * committed == all * committed - dropped * committed
  {}

  lemma {:induction false} LinksStep(t: Forest, s: Skeleton, d: Doc, e: Edit, draw: nat -> Id)
    requires Endless(draw) && Holds(t, s, d) && !Cyclic(d, e) && (Applies(d, e) <==> Finds(s, e))
    requires WellFormed(Step(d, e, draw)) && Step(d, e, draw).tree.id == t.id
    requires Lost(s, e) == Dropped(d, e) * Ids(t) && t.id !in Lost(s, e)
    requires e.Move? && Finds(s, e) ==> e.nodeId != t.id
    requires Follow(s, e).alive == Ids(Step(d, e, draw).tree) * Ids(t)
    ensures LinksOf(Step(d, e, draw).tree, Follow(s, e).links, Follow(s, e).alive)
  {
    hide Lost, Dropped, Sub, Distinct, Step, Applies, Cyclic;
    var after := Step(d, e, draw);
    assert Follow(s, e).links.Keys == Follow(s, e).alive - {t.id};
    forall y | y in Follow(s, e).alive && y != t.id
      ensures Follow(s, e).links[y] == Parent(after.tree, "", y) && Follow(s, e).links[y] in Follow(s, e).alive
    {
      StepParent(d, e, draw, y);
      ParentAbove(after.tree, y);
    }
  }

  lemma {:induction false} HoldsStep(schema: Schema, t: Forest, s: Skeleton, d: Doc, e: Edit, draw: nat -> Id)
    requires Endless(draw) && FreshSupply(t, draw) && Single(t) && EditLegal(schema, t, e)
    requires Holds(t, s, d) && !Cyclic(d, e)
    ensures Holds(t, Follow(s, e), Step(d, e, draw))
  {
    hide Lost, Dropped, Created, Sub, Distinct, Step, LinksOf, Finds, Applies, Cyclic;
    StepWellFormed(d, e, draw);
    CreatedNotCommitted(t, d, e, draw);
    LostIsDropped(schema, t, s, d, e);
    FindsIffApplies(schema, t, s, d, e);
    LooseStep(t, d, e, draw);
    RootNotDropped(schema, t, d, e);
    LeftOver(Ids(d.tree), Dropped(d, e), Ids(Created(d, e, draw).0), Ids(t));
    LinksStep(t, s, d, e, draw);
  }

  lemma LooseStep(t: Forest, d: Doc, e: Edit, draw: nat -> Id)
    requires Endless(draw) && WellFormed(d) && !Cyclic(d, e) && d.loose !! Ids(t) && Ids(Created(d, e, draw).0) !! Ids(t)
    ensures Step(d, e, draw).loose !! Ids(t)
  {
    if Applies(d, e) && e.Insert? {
      StepInsert(d, e.parentId, e.node, e.index, draw);
    }
  }

  lemma {:induction false} RootNotDropped(schema: Schema, t: Forest, d: Doc, e: Edit)
    requires Single(t) && EditLegal(schema, t, e) && WellFormed(d) && d.tree.id == t.id
    ensures t.id !in Dropped(d, e)
  {
    if Applies(d, e) && Wholesale(e) {
      SubProps(d.tree, e.nodeId);
      RootStays(d.tree, e.nodeId);
    }
  }

  /** No move among the first `k` edits closes a cycle of links. */
  ghost predicate NoneCloses(t: Forest, edits: seq<Edit>, k: nat)
    requires t.Node? && k <= |edits|
  {
    forall i :: 0 <= i < k ==> !Closes(Followed(t, edits, i), edits[i])
  }

  /**
   * For every legal batch, wherever its edits go: it runs up to edit `k` exactly if no move before it closes
   * a cycle of links, and then the links tell which committed nodes are left and under which parents.
   */
  lemma {:induction false} SkeletonFollows(schema: Schema, t: Forest, edits: seq<Edit>, draw: nat -> Id, k: nat)
    requires Endless(draw) && FreshSupply(t, draw) && Single(t) && Distinct(t) && Legal(schema, t, edits) && k <= |edits|
    ensures Run(Start(t), edits[..k], draw).Some? <==> NoneCloses(t, edits, k)
    ensures Run(Start(t), edits[..k], draw).Some? ==> Holds(t, Followed(t, edits, k), Before(Start(t), edits, k, draw))
    decreases k
  {
    hide Run, Holds, Closes, Follow, Cyclic, Step;
    if k == 0 {
      RunStart(Start(t), edits, draw);
      HoldsStart(t);
    } else {
      SkeletonFollows(schema, t, edits, draw, k - 1);
      RunStep(Start(t), edits, k - 1, draw);
      assert !Faulty(schema, t, edits, k - 1);
      if Run(Start(t), edits[..k - 1], draw).Some? {
        var s, d := Followed(t, edits, k - 1), Before(Start(t), edits, k - 1, draw);
        ClosesIffCyclic(schema, t, s, d, edits[k - 1]);
        if !Cyclic(d, edits[k - 1]) {
          HoldsStep(schema, t, s, d, edits[k - 1], draw);
        }
      }
    }
  }

  /**
   * Which edits a legal batch skips, and where it closes a cycle: edit `k` is skipped exactly if a node it
   * names is not left, and closes a cycle exactly if the links lead from its destination up to its node.
   */
  lemma {:induction false} SkippedExactly(schema: Schema, t: Forest, edits: seq<Edit>, draw: nat -> Id, k: nat)
    requires Endless(draw) && FreshSupply(t, draw) && Single(t) && Distinct(t) && Legal(schema, t, edits) && k < |edits|
    requires Run(Start(t), edits[..k], draw).Some?
    ensures Applies(Before(Start(t), edits, k, draw), edits[k]) <==> Finds(Followed(t, edits, k), edits[k])
    ensures Cyclic(Before(Start(t), edits, k, draw), edits[k]) <==> Closes(Followed(t, edits, k), edits[k])
  {
    hide Run, Holds, Closes, Finds, Applies, Cyclic, Followed;
    SkeletonFollows(schema, t, edits, draw, k);
    assert !Faulty(schema, t, edits, k);
    FindsIffApplies(schema, t, Followed(t, edits, k), Before(Start(t), edits, k, draw), edits[k]);
    ClosesIffCyclic(schema, t, Followed(t, edits, k), Before(Start(t), edits, k, draw), edits[k]);
  }

  // ------------------------------------------------------------ when moves stay out of dropped subtrees

  /** No move goes to a node that is removed or emptied, or below one. */
  ghost predicate MovesStayOut(t: Forest, edits: seq<Edit>) {
    forall i, j :: 0 <= i < |edits| && 0 <= j < |edits| && edits[i].Move? ==> KeepsDestination(t, edits[i], edits[j])
  }

  /** The committed nodes left are those not dropped, and a pending drop still finds below its target what it found there. */
  ghost predicate ZonesSteady(t: Forest, d: Doc, edits: seq<Edit>, k: nat)
    requires k <= |edits|
  {
    && (forall y :: y in Ids(t) ==> (y in Ids(d.tree) <==> y !in DroppedBy(t, edits[..k])))
    && forall i, y :: k <= i < |edits| && Wholesale(edits[i]) && y in Ids(t) ==>
         (Under(d.tree, edits[i].nodeId, y) <==> Under(t, edits[i].nodeId, y))
  }

  /** The committed nodes an edit drops are its zone in the committed tree. */
  lemma {:induction false} ZoneIsDropped(schema: Schema, t: Forest, d: Doc, edits: seq<Edit>, k: nat)
    requires Single(t) && Distinct(t) && WellFormed(d) && d.tree.id == t.id && d.loose !! Ids(t)
    requires k < |edits| && EditLegal(schema, t, edits[k]) && ZonesSteady(t, d, edits, k)
    ensures forall y :: y in Ids(t) ==> (y in Dropped(d, edits[k]) <==> y in DropZone(t, edits[k]))
  {
    hide DroppedBy;
    var e := edits[k];
    if Wholesale(e) {
      SubProps(t, e.nodeId);
      assert Under(t, e.nodeId, e.nodeId);
      assert Under(d.tree, e.nodeId, e.nodeId);
      SubProps(d.tree, e.nodeId);
      NotAboveItself(t, e.nodeId);
      NotAboveItself(d.tree, e.nodeId);
      forall y | y in Ids(t) ensures Under(d.tree, e.nodeId, y) <==> Under(t, e.nodeId, y) {}
    }
  }

  /** Nodes of which neither is above the other have nothing below them in common. */
  lemma {:induction false} NothingInCommon(f: Forest, a: Id, b: Id, y: Id)
    requires Distinct(f) && a in Ids(f) && b in Ids(f) && !Under(f, a, b) && !Under(f, b, a) && Under(f, a, y)
    ensures !Under(f, b, y)
  {
    Outside(f, a, b);
  }

  /** One edit leaves ancestry below a pending drop's target `w` as committed. */
  lemma {:induction false} BelowSteady(schema: Schema, t: Forest, d: Doc, edits: seq<Edit>, k: nat, i: nat, y: Id, draw: nat -> Id)
    requires Endless(draw) && FreshSupply(t, draw) && Single(t) && Distinct(t)
    requires WellFormed(d) && d.tree.id == t.id && d.loose !! Ids(t)
    requires Legal(schema, t, edits) && MovesStayOut(t, edits) && k < i < |edits| && Wholesale(edits[i]) && y in Ids(t)
    requires ZonesSteady(t, d, edits, k) && !Cyclic(d, edits[k])
    ensures Under(Step(d, edits[k], draw).tree, edits[i].nodeId, y) <==> Under(t, edits[i].nodeId, y)
  {
    hide DroppedBy, Created, Step, Build;
    var e, w := edits[k], edits[i].nodeId;
    var after := Step(d, e, draw);
    assert !Faulty(schema, t, edits, k) && !Faulty(schema, t, edits, i);
    assert !Inside(t, edits, k, i);
    ZoneIsDropped(schema, t, d, edits, k);
    StepWellFormed(d, e, draw);
    CreatedNotCommitted(t, d, e, draw);
    DroppedPartsApart(schema, t, edits, k, i);
    assert Under(t, w, w) by { SubProps(t, w); }
    assert Under(d.tree, w, w);
    assert Under(d.tree, w, y) <==> Under(t, w, y);
    if y in Ids(after.tree) {
      StepUnder(d, e, draw, w, y);
      if e.Move? && Applies(d, e) && Under(d.tree, e.nodeId, y) && !Under(d.tree, e.nodeId, w) {
        assert KeepsDestination(t, e, edits[i]);
        assert Under(d.tree, w, e.parentId) <==> Under(t, w, e.parentId);
        NotSameTarget(schema, t, edits, k, i);
        SubProps(t, w);
        assert Under(d.tree, w, e.nodeId) <==> Under(t, w, e.nodeId);
        NothingInCommon(d.tree, e.nodeId, w, y);
      }
    } else {
      SubProps(after.tree, w);
      SubProps(d.tree, w);
    }
  }

  lemma NotSameTarget(schema: Schema, t: Forest, edits: seq<Edit>, k: nat, i: nat)
    requires t.Node? && Legal(schema, t, edits) && k < i < |edits| && TargetOf(edits[k]).Some? && TargetOf(edits[i]).Some?
    ensures edits[k].nodeId != edits[i].nodeId
  {
    assert !Faulty(schema, t, edits, i);
    assert !Repeats(edits, i);
    assert TargetOf(edits[k]) != TargetOf(edits[i]);
  }

  /** What edit `k` drops has no node at or below the target of a later drop. */
  lemma {:induction false} DroppedPartsApart(schema: Schema, t: Forest, edits: seq<Edit>, k: nat, i: nat)
    requires Single(t) && Distinct(t) && Legal(schema, t, edits) && k < i < |edits| && Wholesale(edits[i])
    ensures edits[i].nodeId in Ids(t) && DropZone(t, edits[k]) !! Ids(Sub(t, edits[i].nodeId))
  {
    assert !Faulty(schema, t, edits, k) && !Faulty(schema, t, edits, i);
    if Wholesale(edits[k]) {
      NotSameTarget(schema, t, edits, k, i);
      assert !Inside(t, edits, k, i) && !Inside(t, edits, i, k);
      ZonesDisjoint(t, edits[k], edits[i]);
      SubProps(t, edits[k].nodeId);
    }
  }

  lemma {:induction false} ZonesStep(schema: Schema, t: Forest, d: Doc, edits: seq<Edit>, k: nat, draw: nat -> Id)
    requires Endless(draw) && FreshSupply(t, draw) && Single(t) && Distinct(t)
    requires WellFormed(d) && d.tree.id == t.id && d.loose !! Ids(t)
    requires Legal(schema, t, edits) && MovesStayOut(t, edits) && k < |edits|
    requires ZonesSteady(t, d, edits, k) && !Cyclic(d, edits[k])
    ensures ZonesSteady(t, Step(d, edits[k], draw), edits, k + 1)
  {
    hide Step, Created, Dropped, DropZone, Under, Cyclic;
    assert !Faulty(schema, t, edits, k);
    ZoneIsDropped(schema, t, d, edits, k);
    StepWellFormed(d, edits[k], draw);
    CreatedNotCommitted(t, d, edits[k], draw);
    assert edits[..k + 1][..k] == edits[..k];
    forall i, y | k + 1 <= i < |edits| && Wholesale(edits[i]) && y in Ids(t)
      ensures Under(Step(d, edits[k], draw).tree, edits[i].nodeId, y) <==> Under(t, edits[i].nodeId, y)
    {
      BelowSteady(schema, t, d, edits, k, i, y, draw);
    }
  }

  lemma {:induction false} ZonesThroughout(schema: Schema, t: Forest, edits: seq<Edit>, draw: nat -> Id, k: nat)
    requires Endless(draw) && FreshSupply(t, draw) && Single(t) && Distinct(t) && Legal(schema, t, edits)
    requires MovesStayOut(t, edits) && k <= |edits| && Run(Start(t), edits[..k], draw).Some?
    ensures ZonesSteady(t, Before(Start(t), edits, k, draw), edits, k)
    decreases k
  {
    hide Step, Run, ZonesSteady, MovesStayOut, Legal, FreshSupply, Cyclic, Followed, NoneCloses;
    if k == 0 {
      RunStart(Start(t), edits, draw);
      ZonesStart(t, edits);
    } else {
      RunStep(Start(t), edits, k - 1, draw);
      ZonesThroughout(schema, t, edits, draw, k - 1);
      SkeletonFollows(schema, t, edits, draw, k - 1);
      ZonesStep(schema, t, Before(Start(t), edits, k - 1, draw), edits, k - 1, draw);
    }
  }

  lemma ZonesStart(t: Forest, edits: seq<Edit>)
    ensures ZonesSteady(t, Start(t), edits, 0)
  {
    assert edits[..0] == [];
  }

  lemma {:induction false} DroppedByIff(t: Forest, edits: seq<Edit>, k: nat, y: Id)
    requires k <= |edits|
    ensures y in DroppedBy(t, edits[..k]) <==> exists j :: 0 <= j < k && y in DropZone(t, edits[j])
    decreases k
  {
    hide DropZone;
    if k > 0 {
      DroppedByIff(t, edits, k - 1, y);
      assert edits[..k][..k - 1] == edits[..k - 1];
    }
  }

  /** The node an edit aims at is in no part that an earlier edit drops. */
  lemma {:induction false} TargetNotDropped(schema: Schema, t: Forest, edits: seq<Edit>, j: nat, k: nat)
    requires Single(t) && Distinct(t) && Legal(schema, t, edits) && j < k < |edits| && TargetOf(edits[k]).Some?
    ensures edits[k].nodeId !in DropZone(t, edits[j])
  {
    assert !Faulty(schema, t, edits, k);
    if Wholesale(edits[j]) && edits[j].nodeId in Ids(t) {
      NotSameTarget(schema, t, edits, j, k);
      assert !Inside(t, edits, k, j);
      SubProps(t, edits[j].nodeId);
    }
  }

  /**
   * If no move goes into a part that the batch drops, edit `k` is skipped exactly if an earlier edit of the
   * batch drops the part of the committed tree that holds its destination.
   */
  lemma {:induction false} SkippedIff(schema: Schema, t: Forest, edits: seq<Edit>, draw: nat -> Id, k: nat)
    requires Endless(draw) && FreshSupply(t, draw) && Single(t) && Distinct(t) && Legal(schema, t, edits)
    requires MovesStayOut(t, edits) && k < |edits| && Run(Start(t), edits[..k], draw).Some?
    ensures !Applies(Before(Start(t), edits, k, draw), edits[k]) <==>
            DestinationOf(edits[k]).Some? && exists j :: 0 <= j < k && edits[k].parentId in DropZone(t, edits[j])
  {
    hide Run, Applies, DropZone, Followed, NoneCloses;
    var d, e := Before(Start(t), edits, k, draw), edits[k];
    assert !Faulty(schema, t, edits, k);
    ZonesThroughout(schema, t, edits, draw, k);
    SkeletonFollows(schema, t, edits, draw, k);
    FindsIffApplies(schema, t, Followed(t, edits, k), d, e);
    if TargetOf(e).Some? {
      DroppedByIff(t, edits, k, e.nodeId);
      forall j | 0 <= j < k ensures e.nodeId !in DropZone(t, edits[j]) {
        TargetNotDropped(schema, t, edits, j, k);
      }
    }
    if DestinationOf(e).Some? {
      DroppedByIff(t, edits, k, e.parentId);
    }
  }
}
