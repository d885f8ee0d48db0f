/** When a batch can give a new node the id of a committed one. */
module EditRecycling {
  import opened Options
  import opened DocumentTrees
  import opened DataMerge
  import opened EditSemantics
  import opened EditEffects
  import opened EditInputs
  import opened EditValidation
  import opened EditBatches
  import opened EditLinks
  import opened EditCycles
  import opened EditSkeleton
  import opened EditMinting

  /** The input of the nodes that an edit creates. */
  function Made(e: Edit): Input {
    match e
    case Insert(_, inp, _) => inp
    case ReplaceChildren(_, inp) => inp
    case _ => NoInput
  }

  predicate Creates(e: Edit) {
    Made(e).InputNode?
  }

  /** The batch reports a minted id that names a committed node. */
  ghost predicate MintsCommitted(t: Forest, edits: seq<Edit>, draw: nat -> Id)
    requires Endless(draw) && Single(t) && Distinct(t)
  {
    && Run(Start(t), edits, draw).Some?
    && exists i, x :: i in MintedIds(Start(t), edits, draw) && x in MintedIds(Start(t), edits, draw)[i] && x in Ids(t)
  }

  /** An edit that creates a node comes after one that drops a committed node, or does both itself. */
  ghost predicate CreatesAfterDrop(t: Forest, edits: seq<Edit>) {
    exists j, i :: 0 <= j <= i < |edits| && DropZone(t, edits[j]) != {} && Creates(edits[i])
  }

  // ------------------------------------------------------------ only then

  lemma {:induction false} NothingMade(d: Doc, e: Edit, draw: nat -> Id)
    requires Endless(draw) && !Creates(e)
    ensures Created(d, e, draw) == (Nil, d.draws)
  {
    if e.ReplaceChildren? {
      BuildNone(draw, d.draws, Ids(d.tree) - Dropped(d, e));
    }
  }

  lemma {:induction false} OnlyAfterDrop(schema: Schema, t: Forest, edits: seq<Edit>, draw: nat -> Id)
    requires Endless(draw) && Single(t) && Distinct(t)
    requires Legal(schema, t, edits) && DestinationsKept(t, edits) && MintsCommitted(t, edits, draw)
    ensures CreatesAfterDrop(t, edits)
  {
    hide Run, Step, MintedIds, Legal, DestinationsKept, Created, Dropped, DropZone, DroppedBy, CreatedBy, Minted, Cyclic, Distinct;
    var i, x :| i in MintedIds(Start(t), edits, draw) && x in MintedIds(Start(t), edits, draw)[i] && x in Ids(t);
    MintedBounded(Start(t), edits, draw);
    MintedAt(Start(t), edits, draw, i);
    RunPrefix(Start(t), edits, i, draw);
    var d, e := Before(Start(t), edits, i, draw), edits[i];
    MintedIsCreated(d, e, draw);
    StepWellFormed(d, e, draw);
    NothingMadeNothingMinted(d, e, draw);
    RunIntact(schema, t, edits, draw, i);
    IntactApplies(t, d, e);
    if x in Ids(d.tree) {
      assert x in DropZone(t, edits[i]);
    } else {
      BatchIds(schema, t, edits, draw, i);
      DroppedByIff(t, edits, i, x);
      var j :| 0 <= j < i && x in DropZone(t, edits[j]);
      assert DropZone(t, edits[j]) != {};
    }
  }

  lemma {:induction false} MintedIsCreated(d: Doc, e: Edit, draw: nat -> Id)
    requires Endless(draw) && WellFormed(d)
    ensures forall x :: x in Minted(d, e, draw) <==> x in Ids(Created(d, e, draw).0)
  {
    PreOrderIds(Created(d, e, draw).0);
  }

  lemma NothingMadeNothingMinted(d: Doc, e: Edit, draw: nat -> Id)
    requires Endless(draw)
    ensures !Creates(e) ==> Ids(Created(d, e, draw).0) == {}
  {
    if !Creates(e) { NothingMade(d, e, draw); }
  }

  // ------------------------------------------------------------ and then indeed

  /** Every other draw is `c`; between them come ever longer ids. */
  function Alternate(c: Id, bound: nat, n: nat): Id {
    if n % 2 == 0 then c else Tick(bound + n)
  }

  function Alternating(c: Id, bound: nat): nat -> Id {
    (n: nat) => Alternate(c, bound, n)
  }

  lemma AlternatingEndless(c: Id, bound: nat)
    ensures Endless(Alternating(c, bound))
  {
    var draw := Alternating(c, bound);
    forall n: nat, used: set<Id> ensures HasFresh(draw, n, used) {
      var longest := LongerThanAll(used);
      var k := 2 * (n + longest) + 1;
      assert |draw(k)| == bound + k;
      assert draw(k) !in used;
    }
  }

  ghost predicate Short(ids: set<Id>, bound: nat) {
    forall x :: x in ids ==> |x| < bound
  }

  /** While `c` is in use, a draw at an even position skips it and takes the next. */
  lemma SkipsUsed(c: Id, bound: nat, n: nat, used: set<Id>)
    requires n % 2 == 0 && c in used && Short(used, bound + n)
    requires Endless(Alternating(c, bound))
    ensures FirstFresh(Alternating(c, bound), n, used) == n + 1
    ensures Alternating(c, bound)(n + 1) == Tick(bound + n + 1)
  {
    var draw := Alternating(c, bound);
    assert draw(n) == c;
    assert |draw(n + 1)| == bound + n + 1;
  }

  lemma ShortJoin(a: set<Id>, b: set<Id>, bound: nat, more: nat)
    requires Short(a, bound) && Short(b, more) && bound <= more
    ensures Short(a, more) && Short(a + b, more)
  {}

  /** While `c` is in use, every new node takes two draws, so the count of draws stays even. */
  lemma {:induction false} BuildEven(inp: Input, c: Id, bound: nat, n: nat, used: set<Id>)
    requires n % 2 == 0 && c in used && Short(used, bound + n)
    requires Endless(Alternating(c, bound))
    ensures
      var made := Build(inp, Alternating(c, bound), n, used);
      made.1 % 2 == 0 && n <= made.1 && Short(Ids(made.0), bound + made.1)
  {
    hide FirstFresh, Endless, Alternating, Tick, Ids, Short, Build;
    var draw := Alternating(c, bound);
    if inp.NoInput? {
      NothingShort(bound + n);
      BuildNone(draw, n, used);
    } else {
      var id := draw(n + 1);
      SkipsUsed(c, bound, n, used);
      OneShort(id, bound + n + 2);
      ShortJoin(used, {id}, bound + n, bound + n + 2);
      var below := Build(inp.kids, draw, n + 2, used + {id});
      BuildEven(inp.kids, c, bound, n + 2, used + {id});
      ShortJoin(used + {id}, Ids(below.0), bound + n + 2, bound + below.1);
      var after := Build(inp.next, draw, below.1, used + {id} + Ids(below.0));
      BuildEven(inp.next, c, bound, below.1, used + {id} + Ids(below.0));
      ShortJoin({id}, Ids(below.0), bound + n + 2, bound + below.1);
      ShortJoin({id} + Ids(below.0), Ids(after.0), bound + below.1, bound + after.1);
      BuildNode(inp, draw, n, used);
      IdsOf(Build(inp, draw, n, used).0);
    }
  }

  lemma BuildNode(inp: Input, draw: nat -> Id, n: nat, used: set<Id>)
    requires Endless(draw) && inp.InputNode?
    ensures
      var k := FirstFresh(draw, n, used);
      var below := Build(inp.kids, draw, k + 1, used + {draw(k)});
      var after := Build(inp.next, draw, below.1, used + {draw(k)} + Ids(below.0));
      Build(inp, draw, n, used) == (Node(draw(k), inp.typ, inp.fields, below.0, after.0), after.1)
  {}

  lemma NothingShort(bound: nat)
    ensures Short(Ids(Nil), bound)
  {}

  lemma OneShort(id: Id, bound: nat)
    requires |id| < bound
    ensures Short({id}, bound)
  {}

  lemma IdsOf(f: Forest)
    ensures f.Node? ==> Ids(f) == {f.id} + Ids(f.kids) + Ids(f.next)
  {}

  /** An even number of ids was drawn, and all ids of the document are shorter than those drawn next. */
  ghost predicate Even(d: Doc, bound: nat) {
    d.draws % 2 == 0 && Short(Ids(d.tree), bound + d.draws)
  }

  lemma {:induction false} EvenStep(d: Doc, e: Edit, c: Id, bound: nat)
    requires Endless(Alternating(c, bound)) && WellFormed(d) && !Cyclic(d, e)
    requires Even(d, bound) && (Creates(e) ==> c in Ids(d.tree) - Dropped(d, e))
    ensures Even(Step(d, e, Alternating(c, bound)), bound)
  {
    hide Build, Endless, Alternating;
    var draw := Alternating(c, bound);
    StepWellFormed(d, e, draw);
    if !Creates(e) {
      NothingMade(d, e, draw);
    } else if Applies(d, e) {
      BuildEven(Made(e), c, bound, d.draws, Ids(d.tree) - Dropped(d, e));
      assert e.Insert? ==> Ids(d.tree) - Dropped(d, e) == Ids(d.tree);
    }
  }

  /** Once `c` is free, the next node made is given it. */
  lemma {:induction false} FreeIsTaken(d: Doc, e: Edit, c: Id, bound: nat)
    requires Endless(Alternating(c, bound)) && WellFormed(d)
    requires d.draws % 2 == 0 && Applies(d, e) && Creates(e) && c !in Ids(d.tree) - Dropped(d, e)
    ensures c in Minted(d, e, Alternating(c, bound))
  {
    hide Endless;
    var draw := Alternating(c, bound);
    var used := Ids(d.tree) - Dropped(d, e);
    assert e.Insert? ==> used == Ids(d.tree);
    assert draw(d.draws) == c;
    assert FirstFresh(draw, d.draws, used) == d.draws;
    assert Created(d, e, draw) == Build(Made(e), draw, d.draws, used);
    assert Build(Made(e), draw, d.draws, used).0.id == c;
  }

  /** Up to the edit that drops `c`, the count of draws stays even. */
  lemma {:induction false} EvenUpTo(schema: Schema, t: Forest, edits: seq<Edit>, c: Id, bound: nat, j: nat, k: nat)
    requires Endless(Alternating(c, bound)) && Single(t) && Distinct(t) && Short(Ids(t), bound)
    requires Legal(schema, t, edits) && DestinationsKept(t, edits) && Run(Start(t), edits, Alternating(c, bound)).Some?
    requires k <= j < |edits| && c in DropZone(t, edits[j])
    ensures Run(Start(t), edits[..k], Alternating(c, bound)).Some?
    ensures Even(Before(Start(t), edits, k, Alternating(c, bound)), bound)
    ensures c in Ids(Before(Start(t), edits, k, Alternating(c, bound)).tree)
    decreases k
  {
    hide Run, Step, Legal, DestinationsKept, Endless, Alternating, DropZone, Cyclic, Dropped, DroppedBy, CreatedBy, Short;
    var draw := Alternating(c, bound);
    RunPrefix(Start(t), edits, k, draw);
    BatchIds(schema, t, edits, draw, k);
    ZoneAlive(schema, t, edits, k, j);
    if k == 0 {
      RunStart(Start(t), edits, draw);
    } else {
      EvenUpTo(schema, t, edits, c, bound, j, k - 1);
      RunStep(Start(t), edits, k - 1, draw);
      RunIntact(schema, t, edits, draw, k - 1);
      IntactApplies(t, Before(Start(t), edits, k - 1, draw), edits[k - 1]);
      DroppedPartsDisjoint(schema, t, edits, k - 1, j);
      EvenStep(Before(Start(t), edits, k - 1, draw), edits[k - 1], c, bound);
    }
  }

  /** From there on `c` stays free until the next node is made. */
  lemma {:induction false} FreeUpTo(schema: Schema, t: Forest, edits: seq<Edit>, c: Id, bound: nat, j: nat, k: nat)
    requires Endless(Alternating(c, bound)) && Single(t) && Distinct(t) && Short(Ids(t), bound)
    requires Legal(schema, t, edits) && DestinationsKept(t, edits) && Run(Start(t), edits, Alternating(c, bound)).Some?
    requires j < k <= |edits| && c in DropZone(t, edits[j])
    requires forall m :: j <= m < k ==> !Creates(edits[m])
    ensures Run(Start(t), edits[..k], Alternating(c, bound)).Some?
    ensures Even(Before(Start(t), edits, k, Alternating(c, bound)), bound)
    ensures c !in Ids(Before(Start(t), edits, k, Alternating(c, bound)).tree)
    decreases k
  {
    hide Run, Step, Legal, DestinationsKept, Endless, Alternating, DropZone, Cyclic, Dropped, Short, Created;
    var draw := Alternating(c, bound);
    RunPrefix(Start(t), edits, k - 1, draw);
    if k - 1 == j {
      EvenUpTo(schema, t, edits, c, bound, j, j);
    } else {
      FreeUpTo(schema, t, edits, c, bound, j, k - 1);
    }
    var d, e := Before(Start(t), edits, k - 1, draw), edits[k - 1];
    RunIntact(schema, t, edits, draw, k - 1);
    IntactApplies(t, d, e);
    NothingMade(d, e, draw);
    StepWellFormed(d, e, draw);
    EvenStep(d, e, c, bound);
  }

  lemma {:induction false} FirstCreating(edits: seq<Edit>, j: nat, i: nat) returns (first: nat)
    requires j <= i < |edits| && Creates(edits[i])
    ensures j <= first <= i && Creates(edits[first]) && forall m :: j <= m < first ==> !Creates(edits[m])
    decreases i - j
  {
    if Creates(edits[j]) {
      first := j;
    } else {
      first := FirstCreating(edits, j + 1, i);
    }
  }

  lemma {:induction false} SomeSupplyMints(schema: Schema, t: Forest, edits: seq<Edit>) returns (draw: nat -> Id)
    requires Single(t) && Distinct(t) && Legal(schema, t, edits) && DestinationsKept(t, edits)
    requires NoMoveCloses(t, edits, |edits|) && CreatesAfterDrop(t, edits)
    ensures Endless(draw) && MintsCommitted(t, edits, draw)
  {
    hide Run, Step, Legal, DestinationsKept, Endless, Alternating, DropZone, Cyclic, Dropped, MintedIds, Minted, NoMoveCloses, Even;
    var j, i :| 0 <= j <= i < |edits| && DropZone(t, edits[j]) != {} && Creates(edits[i]);
    var c :| c in DropZone(t, edits[j]);
    var bound := LongerThanAll(Ids(t));
    draw := Alternating(c, bound);
    AlternatingEndless(c, bound);
    RunsIffNoMoveCloses(schema, t, edits, draw);
    var first := FirstCreating(edits, j, i);
    EvenUpTo(schema, t, edits, c, bound, j, j);
    if first > j {
      FreeUpTo(schema, t, edits, c, bound, j, first);
    }
    RunPrefix(Start(t), edits, first, draw);
    RunIntact(schema, t, edits, draw, first);
    var d := Before(Start(t), edits, first, draw);
    IntactApplies(t, d, edits[first]);
    EvenDraws(d, bound);
    FreeIsTaken(d, edits[first], c, bound);
    MintedAt(Start(t), edits, draw, first);
    ZoneAlive(schema, t, edits, 0, j);
    assert first in MintedIds(Start(t), edits, draw) && c in MintedIds(Start(t), edits, draw)[first] && c in Ids(t);
  }

  lemma EvenDraws(d: Doc, bound: nat)
    requires Even(d, bound)
    ensures d.draws % 2 == 0
  {}

  /**
   * A legal batch that keeps its destinations and closes no cycle can, under some supply of ids, give a new
   * node the id of a committed one if and only if an edit that creates a node comes after, or is, one that
   * drops a committed node.
   */
  lemma {:induction false} CanMintCommittedIff(schema: Schema, t: Forest, edits: seq<Edit>)
    requires Single(t) && Distinct(t) && Legal(schema, t, edits) && DestinationsKept(t, edits)
    requires NoMoveCloses(t, edits, |edits|)
    ensures (exists draw: nat -> Id :: Endless(draw) && MintsCommitted(t, edits, draw)) <==> CreatesAfterDrop(t, edits)
  {
    hide Endless, MintsCommitted, CreatesAfterDrop, Legal, DestinationsKept, NoMoveCloses;
    if CreatesAfterDrop(t, edits) {
      var draw := SomeSupplyMints(schema, t, edits);
    }
    forall draw: nat -> Id | Endless(draw) && MintsCommitted(t, edits, draw) ensures CreatesAfterDrop(t, edits) {
      OnlyAfterDrop(schema, t, edits, draw);
    }
  }
}
