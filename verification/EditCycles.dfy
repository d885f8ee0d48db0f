/**
 * When a batch closes a cycle. The validator's cycle check reads the committed tree, so a
 * move can still go below itself once earlier moves of the batch have run.
 */
module EditCycles {
  import opened Options
  import opened DocumentTrees
  import opened EditSemantics
  import opened EditEffects
  import opened EditInputs
  import opened EditValidation
  import opened EditBatches
  import opened EditLinks

  // ------------------------------------------------------------ a sufficient condition

  /** `p` is not below `x` wherever both exist. */
  ghost predicate ClearOf(t: Forest, x: Id, p: Id) {
    x in Ids(t) ==> p !in Ids(Sub(t, x))
  }

  lemma {:induction false} StepClear(d: Doc, e: Edit, draw: nat -> Id, x: Id, p: Id)
    requires Endless(draw) && WellFormed(d) && !Cyclic(d, e)
    requires ClearOf(d.tree, x, p)
    requires e.Move? ==> ClearOf(d.tree, x, e.parentId)
    requires NeverDrawn(draw, p) || (p in Ids(d.tree) && p !in Dropped(d, e))
    ensures ClearOf(Step(d, e, draw).tree, x, p)
  {
    StepWellFormed(d, e, draw);
    assert p !in Ids(Created(d, e, draw).0) by {
      if NeverDrawn(draw, p) {
        if Applies(d, e) && e.Insert? { BuildDraws(e.node, draw, d.draws, Ids(d.tree), p); }
        if Applies(d, e) && e.ReplaceChildren? { BuildDraws(e.children, draw, d.draws, Ids(d.tree) - Dropped(d, e), p); }
      }
    }
    if x in Ids(Step(d, e, draw).tree) {
      StepBelow(d, e, draw, x);
    }
  }

  /** No pending move's destination is below a pending move's node. */
  ghost predicate AllClear(t: Forest, edits: seq<Edit>, k: nat) {
    forall i, j :: k <= i < |edits| && k <= j < |edits| && edits[i].Move? && edits[j].Move? ==>
      ClearOf(t, edits[i].nodeId, edits[j].parentId)
  }

  lemma {:induction false} RunClear(schema: Schema, t: Forest, edits: seq<Edit>, draw: nat -> Id, k: nat)
    requires Endless(draw) && Single(t) && Distinct(t)
    requires Legal(schema, t, edits) && MovesApart(t, edits)
    requires FreshSupply(t, draw) || DestinationsKept(t, edits)
    requires k <= |edits|
    ensures Run(Start(t), edits[..k], draw).Some?
    ensures AllClear(Before(Start(t), edits, k, draw).tree, edits, k)
    decreases k
  {
    hide Step, Sub, Distinct, Created, Dropped, Row;
    if k == 0 {
      forall i, j | 0 <= i < |edits| && 0 <= j < |edits| && edits[i].Move? && edits[j].Move?
        ensures ClearOf(t, edits[i].nodeId, edits[j].parentId)
      {
        assert MoveApart(t, edits[j], edits[i]);
      }
    } else {
      RunClear(schema, t, edits, draw, k - 1);
      var d, e := Before(Start(t), edits, k - 1, draw), edits[k - 1];
      assert e.Move? ==> ClearOf(d.tree, e.nodeId, e.parentId);
      RunStep(Start(t), edits, k - 1, draw);
      forall i, j | k <= i < |edits| && k <= j < |edits| && edits[i].Move? && edits[j].Move?
        ensures ClearOf(Step(d, e, draw).tree, edits[i].nodeId, edits[j].parentId)
      {
        assert !Faulty(schema, t, edits, j);
        if !FreshSupply(t, draw) {
          RunIntact(schema, t, edits, draw, k - 1);
          assert Intact(t, d, edits[j]) && Intact(t, d, e);
          LegalApart(schema, t, edits, k - 1, j);
          IntactStep(t, d, e, edits[j], draw);
          StepWellFormed(d, e, draw);
          IntactApplies(t, d, e);
          if Wholesale(e) { SubProps(t, e.nodeId); }
        }
        StepClear(d, e, draw, edits[i].nodeId, edits[j].parentId);
      }
    }
  }

  /**
   * If no move of a legal batch goes into a subtree that the batch moves, the batch runs
   * without a cycle, so that the document is one tree of distinct ids after every edit.
   */
  lemma {:induction false} MovesApartRuns(schema: Schema, t: Forest, edits: seq<Edit>, draw: nat -> Id)
    requires Endless(draw) && Single(t) && Distinct(t)
    requires Legal(schema, t, edits) && MovesApart(t, edits)
    requires FreshSupply(t, draw) || DestinationsKept(t, edits)
    ensures Run(Start(t), edits, draw).Some?
  {
    RunClear(schema, t, edits, draw, |edits|);
    assert edits[..|edits|] == edits;
  }

  // ------------------------------------------------------------ the exact condition

  function MovesOf(edits: seq<Edit>): seq<Edit> {
    if edits == [] then []
    else MovesOf(edits[..|edits| - 1]) + (if edits[|edits| - 1].Move? then [edits[|edits| - 1]] else [])
  }

  /** Two documents agree on which of the nodes `alive` are below which. */
  ghost predicate SameAncestry(t1: Forest, t2: Forest, alive: set<Id>) {
    forall a, y :: a in alive && y in alive ==> (Under(t1, a, y) <==> Under(t2, a, y))
  }

  /** One edit of the batch against the replay that runs the moves only. */
  lemma {:induction false} ReplayStep(d: Doc, m: Doc, e: Edit, draw: nat -> Id, alive: set<Id>)
    requires Endless(draw) && WellFormed(d) && WellFormed(m)
    requires Applies(d, e) && alive <= Ids(d.tree) && alive <= Ids(m.tree)
    requires SameAncestry(d.tree, m.tree, alive)
    requires e.Move? ==> Applies(m, e) && e.nodeId in alive && e.parentId in alive
    ensures e.Move? ==> (Cyclic(d, e) <==> Cyclic(m, e))
    ensures !Cyclic(d, e) ==>
              SameAncestry(Step(d, e, draw).tree, if e.Move? then Step(m, e, draw).tree else m.tree, alive - Dropped(d, e))
  {
    if e.Move? {
      assert Under(d.tree, e.nodeId, e.parentId) <==> Under(m.tree, e.nodeId, e.parentId);
    }
    if !Cyclic(d, e) {
      forall a, y | a in alive - Dropped(d, e) && y in alive - Dropped(d, e)
        ensures Under(Step(d, e, draw).tree, a, y) <==>
                Under(if e.Move? then Step(m, e, draw).tree else m.tree, a, y)
      {
        StepUnder(d, e, draw, a, y);
        assert Under(d.tree, a, y) <==> Under(m.tree, a, y);
        if e.Move? {
          StepUnder(m, e, draw, a, y);
          assert Under(d.tree, e.nodeId, y) <==> Under(m.tree, e.nodeId, y);
          assert Under(d.tree, e.nodeId, a) <==> Under(m.tree, e.nodeId, a);
          assert Under(d.tree, a, e.parentId) <==> Under(m.tree, a, e.parentId);
        }
      }
    }
  }

  /** The replay after the moves of `edits[..k]`. */
  ghost function Replayed(t: Forest, edits: seq<Edit>, draw: nat -> Id): Option<Doc>
    requires Endless(draw) && Single(t) && Distinct(t)
  {
    Run(Start(t), MovesOf(edits), draw)
  }

  lemma {:induction false} ReplayedNext(t: Forest, edits: seq<Edit>, draw: nat -> Id, k: nat)
    requires Endless(draw) && Single(t) && Distinct(t) && k < |edits|
    ensures !edits[k].Move? ==> Replayed(t, edits[..k + 1], draw) == Replayed(t, edits[..k], draw)
    ensures edits[k].Move? && Replayed(t, edits[..k], draw).None? ==> Replayed(t, edits[..k + 1], draw).None?
    ensures edits[k].Move? && Replayed(t, edits[..k], draw).Some? ==>
              var m := Replayed(t, edits[..k], draw).value;
              Replayed(t, edits[..k + 1], draw) == if Cyclic(m, edits[k]) then None else Some(Step(m, edits[k], draw))
  {
    assert edits[..k + 1][..k] == edits[..k];
    var moves := MovesOf(edits[..k]);
    if edits[k].Move? {
      assert (moves + [edits[k]])[..|moves|] == moves;
    } else {
      assert moves + [] == moves;
    }
  }

  /** The full run and the replay fail together, and agree on ancestry while they do not. */
  ghost predicate InStep(t: Forest, d: Option<Doc>, m: Option<Doc>, alive: set<Id>): (r: bool)
    ensures r ==> (d.Some? <==> m.Some?)
    ensures d.None? && m.None? ==> r
  {
    && (d.Some? <==> m.Some?)
    && (d.Some? ==>
          && WellFormed(m.value) && Ids(m.value.tree) == Ids(t) && m.value.tree.id == t.id && m.value.loose == {}
          && SameAncestry(d.value.tree, m.value.tree, alive))
  }

  lemma {:induction false} InStepNext(t: Forest, d: Doc, m: Doc, e: Edit, draw: nat -> Id, alive: set<Id>)
    requires Endless(draw) && Single(t) && WellFormed(d) && d.tree.id == t.id && InStep(t, Some(d), Some(m), alive)
    requires alive <= Ids(d.tree) && alive <= Ids(t) && Intact(t, d, e)
    requires e.Move? ==> e.nodeId in alive && e.parentId in alive
    ensures InStep(t, if Cyclic(d, e) then None else Some(Step(d, e, draw)),
                   if !e.Move? then Some(m) else if Cyclic(m, e) then None else Some(Step(m, e, draw)),
                   alive - DropZone(t, e))
  {
    IntactApplies(t, d, e);
    StepWellFormedIds(m, e, draw);
    ReplayStep(d, m, e, draw, alive);
  }

  lemma {:induction false} ReplayStart(t: Forest, edits: seq<Edit>, draw: nat -> Id)
    requires Endless(draw) && Single(t) && Distinct(t)
    ensures InStep(t, Run(Start(t), edits[..0], draw), Replayed(t, edits[..0], draw), Ids(t) - DroppedBy(t, edits[..0]))
  {
    assert edits[..0] == [];
  }

  lemma {:induction false} Replay(schema: Schema, t: Forest, edits: seq<Edit>, draw: nat -> Id, k: nat)
    requires Endless(draw) && Single(t) && Distinct(t)
    requires Legal(schema, t, edits) && DestinationsKept(t, edits)
    requires k <= |edits|
    ensures InStep(t, Run(Start(t), edits[..k], draw), Replayed(t, edits[..k], draw), Ids(t) - DroppedBy(t, edits[..k]))
    decreases k
  {
    hide Step, Sub, Distinct, Created, Dropped, Row, InStep, Run, Replayed, DropZone, Legal, DestinationsKept;
    if k == 0 {
      ReplayStart(t, edits, draw);
    } else {
      var e, alive := edits[k - 1], Ids(t) - DroppedBy(t, edits[..k - 1]);
      Replay(schema, t, edits, draw, k - 1);
      RunStep(Start(t), edits, k - 1, draw);
      ReplayedNext(t, edits, draw, k - 1);
      assert edits[..k][..k - 1] == edits[..k - 1];
      assert alive - DropZone(t, e) == Ids(t) - DroppedBy(t, edits[..k]);
      if Run(Start(t), edits[..k - 1], draw).Some? {
        RunIntact(schema, t, edits, draw, k - 1);
        BatchIds(schema, t, edits, draw, k - 1);
        TargetsAlive(schema, t, edits, k - 1, k - 1);
        var d, m := Before(Start(t), edits, k - 1, draw), Replayed(t, edits[..k - 1], draw).value;
        InStepNext(t, d, m, e, draw, alive);
      }
    }
  }

  lemma {:induction false} StepWellFormedIds(m: Doc, e: Edit, draw: nat -> Id)
    requires Endless(draw) && WellFormed(m)
    ensures e.Move? && !Cyclic(m, e) ==>
              && WellFormed(Step(m, e, draw)) && Step(m, e, draw).tree.id == m.tree.id
              && Ids(Step(m, e, draw).tree) == Ids(m.tree) && Step(m, e, draw).loose == m.loose
  {
    if e.Move? && !Cyclic(m, e) { StepWellFormed(m, e, draw); }
  }

  /**
   * Only the moves matter: a legal batch whose destinations are kept runs without a cycle
   * if and only if its moves alone, replayed in order on the committed tree, do. Inserts,
   * updates, removals and the ids drawn make no difference.
   */
  lemma {:induction false} RunsIffMovesRun(schema: Schema, t: Forest, edits: seq<Edit>, draw: nat -> Id)
    requires Endless(draw) && Single(t) && Distinct(t)
    requires Legal(schema, t, edits) && DestinationsKept(t, edits)
    ensures Run(Start(t), edits, draw).Some? <==> Run(Start(t), MovesOf(edits), draw).Some?
  {
    Replay(schema, t, edits, draw, |edits|);
    assert edits[..|edits|] == edits;
  }

  /** No move among the first `k` edits goes to a node that the links before it place at or below the moved node. */
  ghost predicate NoMoveCloses(t: Forest, edits: seq<Edit>, k: nat)
    requires t.Node? && k <= |edits|
  {
    forall i :: 0 <= i < k && edits[i].Move? ==> !Above(NewLinks(t, edits, i), edits[i].nodeId, edits[i].parentId)
  }

  /** The replay's document: all committed nodes, linked as the moves so far say. */
  ghost predicate Relinked(t: Forest, m: Doc, links: Links) {
    && WellFormed(m) && m.loose == {} && t.Node? && m.tree.id == t.id && Ids(m.tree) == Ids(t)
    && LinksOf(m.tree, links, Ids(t))
  }

  lemma {:induction false} RelinkedStart(t: Forest, edits: seq<Edit>)
    requires Single(t) && Distinct(t)
    ensures Relinked(t, Start(t), NewLinks(t, edits, 0))
  {
    forall y | y in Ids(t) && y != t.id ensures Parent(t, "", y) in Ids(t) {
      ParentAbove(t, y);
    }
  }

  lemma {:induction false} RelinkedMove(t: Forest, m: Doc, edits: seq<Edit>, i: nat, draw: nat -> Id)
    requires Endless(draw) && t.Node? && i < |edits| && edits[i].Move? && Relinked(t, m, NewLinks(t, edits, i))
    requires edits[i].nodeId in Ids(t) && edits[i].nodeId != t.id && edits[i].parentId in Ids(t)
    ensures Cyclic(m, edits[i]) <==> Above(NewLinks(t, edits, i), edits[i].nodeId, edits[i].parentId)
    ensures !Cyclic(m, edits[i]) ==> Relinked(t, Step(m, edits[i], draw), NewLinks(t, edits, i + 1))
  {
    hide Above, Step;
    UnderIffAbove(m.tree, NewLinks(t, edits, i), Ids(t), edits[i].nodeId, edits[i].parentId);
    if !Cyclic(m, edits[i]) {
      StepWellFormedIds(m, edits[i], draw);
      forall y | y in Ids(t) && y != t.id
        ensures Parent(Step(m, edits[i], draw).tree, "", y) == NewParent(t, edits, i + 1, y)
        ensures NewParent(t, edits, i + 1, y) in Ids(t)
      {
        assert NewLinks(t, edits, i)[y] == NewParent(t, edits, i, y);
        StepParent(m, edits[i], draw, y);
      }
    }
  }

  lemma {:induction false} MovesRunIff(schema: Schema, t: Forest, edits: seq<Edit>, draw: nat -> Id, k: nat)
    requires Endless(draw) && Single(t) && Distinct(t) && Legal(schema, t, edits) && k <= |edits|
    ensures Replayed(t, edits[..k], draw).Some? <==> NoMoveCloses(t, edits, k)
    ensures Replayed(t, edits[..k], draw).Some? ==> Relinked(t, Replayed(t, edits[..k], draw).value, NewLinks(t, edits, k))
    decreases k
  {
    hide Replayed, Relinked, Above, Cyclic, Step;
    if k == 0 {
      NothingReplayed(t, edits, draw);
      RelinkedStart(t, edits);
    } else {
      MovesRunIff(schema, t, edits, draw, k - 1);
      ReplayedNext(t, edits, draw, k - 1);
      assert !Faulty(schema, t, edits, k - 1);
      if Replayed(t, edits[..k - 1], draw).Some? {
        if edits[k - 1].Move? {
          RelinkedMove(t, Replayed(t, edits[..k - 1], draw).value, edits, k - 1, draw);
        } else {
          assert NewLinks(t, edits, k) == NewLinks(t, edits, k - 1);
        }
      }
    }
  }

  lemma NothingReplayed(t: Forest, edits: seq<Edit>, draw: nat -> Id)
    requires Endless(draw) && Single(t) && Distinct(t)
    ensures Replayed(t, edits[..0], draw) == Some(Start(t))
  {}

  /**
   * The exact condition, read off the committed tree and the batch: a legal batch whose destinations are
   * kept runs without a cycle if and only if for every move no path of parents, each the destination of
   * an earlier move or else the committed parent, leads from its destination up to its node.
   */
  lemma {:induction false} RunsIffNoMoveCloses(schema: Schema, t: Forest, edits: seq<Edit>, draw: nat -> Id)
    requires Endless(draw) && Single(t) && Distinct(t)
    requires Legal(schema, t, edits) && DestinationsKept(t, edits)
    ensures Run(Start(t), edits, draw).Some? <==> NoMoveCloses(t, edits, |edits|)
  {
    hide Run, NoMoveCloses, MovesOf, Legal, DestinationsKept;
    RunsIffMovesRun(schema, t, edits, draw);
    MovesRunIff(schema, t, edits, draw, |edits|);
    assert edits[..|edits|] == edits;
  }

  // ------------------------------------------------------------ what a cycle does

  /** A node's children are below everything the node is below. */
  lemma {:induction false} KidBelow(f: Forest, x: Id, z: Id, c: Id)
    requires Distinct(f) && Under(f, x, z) && z in Ids(f) && c in Row(f, z).kids
    ensures Under(f, x, c)
  {
    SubFlat(f, x);
    RowKidsIn(Sub(f, x), z);
  }

  /** Rows that keep all child links of `s` put all of `s` below whatever its tops are below. */
  lemma {:induction false} LinksCarry(s: Forest, f: Forest, x: Id)
    requires Distinct(s) && Distinct(f)
    requires forall y :: y in Tops(s) ==> Under(f, x, y)
    requires forall y, c :: y in Ids(s) && c in Row(s, y).kids ==> y in Ids(f) && c in Row(f, y).kids
    ensures forall y :: y in Ids(s) ==> Under(f, x, y)
  {
    if s.Node? {
      TopsInIds(s.kids);
      assert s.id in Tops(s);
      SubProps(f, x);
      forall c | c in Tops(s.kids) ensures Under(f, x, c) {
        assert c in Row(s, s.id).kids;
        KidBelow(f, x, s.id, c);
      }
      forall y, c | y in Ids(s.kids) && c in Row(s.kids, y).kids ensures y in Ids(f) && c in Row(f, y).kids {
        assert Row(s, y) == Row(s.kids, y);
      }
      forall y, c | y in Ids(s.next) && c in Row(s.next, y).kids ensures y in Ids(f) && c in Row(f, y).kids {
        assert Row(s, y) == Row(s.next, y);
      }
      LinksCarry(s.kids, f, x);
      LinksCarry(s.next, f, x);
    }
  }

  /** After a move that closes a cycle, the nodes hold the rows of no tree at all. */
  lemma {:induction false} CycleBreaksTree(t: Forest, x: Id, p: Id, at: Option<int>, f: Forest)
    requires Single(t) && Distinct(t) && x in Ids(t) && x != t.id && Under(t, x, p)
    requires Distinct(f) && Ids(f) == Ids(t)
    ensures exists y :: y in Ids(t) && Row(f, y) != MovedRow(t, x, p, at, y)
  {
    if forall y :: y in Ids(t) ==> Row(f, y) == MovedRow(t, x, p, at, y) {
      SubProps(t, x);
      SubFlat(t, x);
      var s := Sub(t, x);
      assert Under(f, x, x) by { SubProps(f, x); }
      forall y, c | y in Ids(s) && c in Row(s, y).kids
        ensures y in Ids(f) && c in Row(f, y).kids
      {
        MovedKids(t, x, y);
        assert Row(s, y) == Row(t, y);
      }
      LinksCarry(s, f, x);
      assert x in Row(f, p).kids;
      SubProps(f, p);
      TopsInIds(Sub(f, p).kids);
      NotAbove(f, p, x);
    }
  }

  // ------------------------------------------------------------ a concrete cycle

  function Siblings(): Forest {
    Node("root", "root", map[], Node("a", "view", map[], Nil, Node("b", "view", map[], Nil, Nil)), Nil)
  }

  /** Two siblings moved into each other: every edit is legal, the batch is accepted, and it closes a cycle. */
  lemma SwapCloses(schema: Schema, draw: nat -> Id)
    requires Endless(draw) && schema.canBeChildOf("view", "view")
    ensures
      var swap := [Move("a", "b", None), Move("b", "a", None)];
      Legal(schema, Siblings(), swap) && Run(Start(Siblings()), swap, draw).None?
  {
    var t := Siblings();
    var swap := [Move("a", "b", None), Move("b", "a", None)];
    assert Ids(t.kids) == {"a", "b"};
    forall i | 0 <= i < 2 ensures !Faulty(schema, t, swap, i) {
      assert forall j :: 0 <= j < 2 ==> !Inside(t, swap, i, j);
      assert !Repeats(swap, i);
    }
    var d := Start(t);
    var d1 := Step(d, swap[0], draw);
    assert d1.tree == Node("root", "root", map[], Node("b", "view", map[], Node("a", "view", map[], Nil, Nil), Nil), Nil);
    assert swap[..1] == [swap[0]] && swap[..1][..0] == [];
    assert Run(d, swap[..1], draw) == Some(d1);
    assert Cyclic(d1, swap[1]);
  }
}
