/**
 * What a batch of document edits means, on tree values.
 *
 * This is the reference the in-place applier is proved against: no side index and
 * no mutation. `loose` records the one irregularity of the parent index (the roots
 * that `insert` added are missing from it), and `draws` how many ids were drawn.
 */
module EditSemantics {
  import opened JsonValues
  import opened Options
  import opened DocumentTrees
  import opened DataMerge

  /** Node inputs as sibling lists; an input node carries no id. */
  datatype Input =
    | NoInput
    | InputNode(typ: string, fields: Data, kids: Input, next: Input)

  type NodeInput = i: Input | i.InputNode? && i.next.NoInput?
    witness InputNode("view", map[], NoInput, NoInput)

  datatype Edit =
    | Insert(parentId: Id, node: NodeInput, index: Option<int>)
    | Update(nodeId: Id, patch: Data)
    | Move(nodeId: Id, parentId: Id, index: Option<int>)
    | Remove(nodeId: Id)
    | ReplaceChildren(nodeId: Id, children: Input)

  /** The document while a batch runs. */
  datatype Doc = Doc(tree: Forest, loose: set<Id>, draws: nat)

  ghost predicate WellFormed(d: Doc) {
    Single(d.tree) && Distinct(d.tree) && d.loose <= Ids(d.tree) - {d.tree.id}
  }

  function Start(t: Forest): Doc {
    Doc(t, {}, 0)
  }

  /** A position clamped into a child list: appended when absent. */
  function ClampIndex(index: Option<int>, childCount: nat): (r: nat)
    ensures r <= childCount
    ensures index.Some? && 0 <= index.value <= childCount ==> r == index.value
  {
    if index.None? then childCount
    else if index.value < 0 then 0
    else if index.value < childCount then index.value else childCount
  }

  // ------------------------------------------------------------ drawing ids

  ghost predicate HasFresh(draw: nat -> Id, n: nat, used: set<Id>) {
    exists k :: n <= k && draw(k) !in used
  }

  /** The id supply never dries up: re-rolling always ends. */
  ghost predicate Endless(draw: nat -> Id) {
    forall n: nat, used: set<Id> :: HasFresh(draw, n, used)
  }

  ghost function FirstUpTo(draw: nat -> Id, n: nat, used: set<Id>, bound: nat): (k: nat)
    requires n <= bound && draw(bound) !in used
    ensures n <= k <= bound && draw(k) !in used
    ensures forall j :: n <= j < k ==> draw(j) in used
    decreases bound - n
  {
    if draw(n) !in used then n else FirstUpTo(draw, n + 1, used, bound)
  }

  /** The first draw, from the `n`-th on, that names no used id. */
  ghost function FirstFresh(draw: nat -> Id, n: nat, used: set<Id>): (k: nat)
    requires Endless(draw)
    ensures n <= k && draw(k) !in used
    ensures forall j :: n <= j < k ==> draw(j) in used
  {
    assert HasFresh(draw, n, used);
    var bound :| n <= bound && draw(bound) !in used;
    FirstUpTo(draw, n, used, bound)
  }

  /** Mints ids for a list of inputs, parents before children, and counts the draws. */
  ghost function Build(inp: Input, draw: nat -> Id, n: nat, used: set<Id>): (Forest, nat)
    requires Endless(draw)
  {
    match inp
    case NoInput => (Nil, n)
    case InputNode(typ, fields, kids, next) =>
      var k := FirstFresh(draw, n, used);
      var below := Build(kids, draw, k + 1, used + {draw(k)});
      var after := Build(next, draw, below.1, used + {draw(k)} + Ids(below.0));
      (Node(draw(k), typ, fields, below.0, after.0), after.1)
  }

  lemma NilDistinct()
    ensures Distinct(Nil) && Ids(Nil) == {}
  {}

  lemma NodeDistinct(f: Forest)
    requires f.Node? && Distinct(f.kids) && Distinct(f.next)
    requires f.id !in Ids(f.kids) && f.id !in Ids(f.next) && Ids(f.kids) !! Ids(f.next)
    ensures Distinct(f) && Ids(f) == {f.id} + Ids(f.kids) + Ids(f.next)
  {}

  lemma {:induction false} BuildDistinct(inp: Input, draw: nat -> Id, n: nat, used: set<Id>)
    requires Endless(draw)
    ensures Distinct(Build(inp, draw, n, used).0)
    ensures Ids(Build(inp, draw, n, used).0) !! used
    ensures n <= Build(inp, draw, n, used).1
    ensures inp.InputNode? ==> Build(inp, draw, n, used).0.Node?
    ensures inp.InputNode? && inp.next.NoInput? ==> Single(Build(inp, draw, n, used).0)
  {
    hide Distinct, Endless;
    if inp.NoInput? {
      NilDistinct();
    } else {
      var k := FirstFresh(draw, n, used);
      var below := Build(inp.kids, draw, k + 1, used + {draw(k)});
      BuildDistinct(inp.kids, draw, k + 1, used + {draw(k)});
      BuildDistinct(inp.next, draw, below.1, used + {draw(k)} + Ids(below.0));
      NodeDistinct(Build(inp, draw, n, used).0);
    }
  }

  lemma BuildNone(draw: nat -> Id, n: nat, used: set<Id>)
    requires Endless(draw)
    ensures Build(NoInput, draw, n, used) == (Nil, n)
  {}

  /** One node: its own id first, then its children's. */
  lemma {:induction false} BuildOne(inp: Input, draw: nat -> Id, n: nat, used: set<Id>)
    requires Endless(draw) && inp.InputNode?
    ensures
      var k := FirstFresh(draw, n, used);
      var below := Build(inp.kids, draw, k + 1, used + {draw(k)});
      Build(inp.(next := NoInput), draw, n, used) == (Node(draw(k), inp.typ, inp.fields, below.0, Nil), below.1)
  {
    var k := FirstFresh(draw, n, used);
    var below := Build(inp.kids, draw, k + 1, used + {draw(k)});
    assert Build(NoInput, draw, below.1, used + {draw(k)} + Ids(below.0)) == (Nil, below.1);
    assert inp.(next := NoInput) == InputNode(inp.typ, inp.fields, inp.kids, NoInput);
  }

  /** A list is minted node by node. */
  lemma {:induction false} BuildSplit(inp: Input, draw: nat -> Id, n: nat, used: set<Id>)
    requires Endless(draw) && inp.InputNode?
    ensures
      var first := Build(inp.(next := NoInput), draw, n, used);
      var rest := Build(inp.next, draw, first.1, used + Ids(first.0));
      && Single(first.0)
      && first.0.typ == inp.typ && first.0.data == inp.fields
      && Build(inp, draw, n, used) == (first.0.(next := rest.0), rest.1)
  {
    BuildOne(inp, draw, n, used);
    var k := FirstFresh(draw, n, used);
    var below := Build(inp.kids, draw, k + 1, used + {draw(k)});
    assert used + Ids(Build(inp.(next := NoInput), draw, n, used).0) == used + {draw(k)} + Ids(below.0);
  }

  ghost predicate NeverDrawn(draw: nat -> Id, x: Id) {
    forall k :: draw(k) != x
  }

  /** Every minted id was drawn. */
  lemma {:induction false} BuildDraws(inp: Input, draw: nat -> Id, n: nat, used: set<Id>, x: Id)
    requires Endless(draw) && NeverDrawn(draw, x)
    ensures x !in Ids(Build(inp, draw, n, used).0)
  {
    hide Build, FirstFresh;
    if inp.NoInput? {
      BuildNone(draw, n, used);
    } else {
      BuildOne(inp, draw, n, used);
      BuildSplit(inp, draw, n, used);
      var k := FirstFresh(draw, n, used);
      var first := Build(inp.(next := NoInput), draw, n, used);
      BuildDraws(inp.kids, draw, k + 1, used + {draw(k)}, x);
      BuildDraws(inp.next, draw, first.1, used + Ids(first.0), x);
    }
  }

  /** A built forest has the shape, types and fields of its input. */
  ghost predicate Mirrors(f: Forest, inp: Input) {
    if inp.NoInput? then f.Nil?
    else f.Node? && f.typ == inp.typ && f.data == inp.fields && Mirrors(f.kids, inp.kids) && Mirrors(f.next, inp.next)
  }

  lemma {:induction false} BuildMirrors(inp: Input, draw: nat -> Id, n: nat, used: set<Id>)
    requires Endless(draw)
    ensures Mirrors(Build(inp, draw, n, used).0, inp)
  {
    hide Build, FirstFresh;
    if inp.NoInput? {
      BuildNone(draw, n, used);
    } else {
      BuildOne(inp, draw, n, used);
      BuildSplit(inp, draw, n, used);
      var k := FirstFresh(draw, n, used);
      var first := Build(inp.(next := NoInput), draw, n, used);
      BuildMirrors(inp.kids, draw, k + 1, used + {draw(k)});
      BuildMirrors(inp.next, draw, first.1, used + Ids(first.0));
    }
  }

  // ------------------------------------------------------------ one edit

  /** Whether the parent index holds an entry for `x`. */
  predicate HasParent(d: Doc, x: Id) {
    x in Ids(d.tree) && d.tree.Node? && x != d.tree.id && x !in d.loose
  }

  /** An edit that finds its nodes; any other edit is skipped. */
  predicate Applies(d: Doc, e: Edit) {
    match e
    case Insert(p, _, _) => p in Ids(d.tree)
    case Update(x, _) => x in Ids(d.tree)
    case Move(x, p, _) => HasParent(d, x) && p in Ids(d.tree)
    case Remove(x) => HasParent(d, x)
    case ReplaceChildren(x, _) => x in Ids(d.tree)
  }

  /** A move that would put a node below itself. */
  predicate Cyclic(d: Doc, e: Edit) {
    e.Move? && Applies(d, e) && e.parentId in Ids(Sub(d.tree, e.nodeId))
  }

  /** The ids whose nodes the edit drops. */
  function Dropped(d: Doc, e: Edit): set<Id> {
    if !Applies(d, e) then {}
    else if e.Remove? then Ids(Sub(d.tree, e.nodeId))
    else if e.ReplaceChildren? then Ids(Sub(d.tree, e.nodeId).kids)
    else {}
  }

  /** The nodes the edit creates, and the draws consumed after that. */
  ghost function Created(d: Doc, e: Edit, draw: nat -> Id): (Forest, nat)
    requires Endless(draw)
  {
    if !Applies(d, e) then (Nil, d.draws)
    else if e.Insert? then Build(e.node, draw, d.draws, Ids(d.tree))
    else if e.ReplaceChildren? then Build(e.children, draw, d.draws, Ids(d.tree) - Dropped(d, e))
    else (Nil, d.draws)
  }

  ghost function Minted(d: Doc, e: Edit, draw: nat -> Id): seq<Id>
    requires Endless(draw)
  {
    PreOrder(Created(d, e, draw).0)
  }

  ghost function Step(d: Doc, e: Edit, draw: nat -> Id): Doc
    requires Endless(draw) && WellFormed(d) && !Cyclic(d, e)
  {
    if !Applies(d, e) then d
    else
      match e
      case Insert(p, inp, index) =>
        var made := Build(inp, draw, d.draws, Ids(d.tree));
        BuildDistinct(inp, draw, d.draws, Ids(d.tree));
        Doc(Graft(d.tree, p, ClampIndex(index, Length(Sub(d.tree, p).kids)), made.0),
            d.loose + {made.0.id}, made.1)
      case Update(x, patch) =>
        var s := Sub(d.tree, x);
        d.(tree := Put(d.tree, x, Merge(s.data, patch), s.kids))
      case Move(x, p, index) =>
        var s := Sub(d.tree, x);
        var rest := Cut(d.tree, x);
        CutIds(d.tree, x);
        d.(tree := Graft(rest, p, ClampIndex(index, Length(Sub(rest, p).kids)), s))
      case Remove(x) =>
        d.(tree := Cut(d.tree, x), loose := d.loose - Dropped(d, e))
      case ReplaceChildren(x, inp) =>
        var s := Sub(d.tree, x);
        var made := Created(d, e, draw);
        Doc(Put(d.tree, x, s.data, made.0), d.loose - Dropped(d, e), made.1)
  }

  // ------------------------------------------------------------ grafting

  lemma {:induction false} GraftFacts(f: Forest, p: Id, at: nat, g: Forest)
    requires Distinct(f) && p in Ids(f) && Single(g) && Distinct(g) && Ids(f) !! Ids(g)
    ensures Distinct(Graft(f, p, at, g))
    ensures Ids(Graft(f, p, at, g)) == Ids(f) + Ids(g)
    ensures f.Node? ==> Graft(f, p, at, g).Node? && Graft(f, p, at, g).id == f.id
    ensures Single(f) ==> Single(Graft(f, p, at, g))
  {
    var s := Sub(f, p);
    SubProps(f, p);
    SpliceIds(s.kids, at, g);
    SpliceDistinct(s.kids, at, g);
    PutTops(f, p, s.data, Splice(s.kids, at, g));
    PutIds(f, p, s.data, Splice(s.kids, at, g));
    PutDistinct(f, p, s.data, Splice(s.kids, at, g));
  }

  lemma {:induction false} GraftRow(f: Forest, top: Id, p: Id, at: nat, g: Forest, y: Id)
    requires Distinct(f) && p in Ids(f) && Single(g) && Distinct(g) && Ids(f) !! Ids(g)
    requires y in Ids(f) + Ids(g)
    ensures y in Ids(Graft(f, p, at, g))
    ensures Row(Graft(f, p, at, g), y) ==
            if y in Ids(g) then Row(g, y)
            else if y == p then Row(f, p).(kids := InsertAt(Row(f, p).kids, at, g.id))
            else Row(f, y)
    ensures Parent(Graft(f, p, at, g), top, y) == if y in Ids(g) then Parent(g, p, y) else Parent(f, top, y)
  {
    var s := Sub(f, p);
    var kids := Splice(s.kids, at, g);
    SubProps(f, p);
    SpliceIds(s.kids, at, g);
    SpliceDistinct(s.kids, at, g);
    PutRow(f, p, s.data, kids, y);
    PutUp(f, top, p, s.data, kids, y);
    if y in Ids(kids) {
      SpliceRow(s.kids, p, at, g, y);
      if y !in Ids(g) {
        SubKid(f, top, p, y);
      }
    }
  }

  /** The nodes below `p` look the same in the subtree and in the whole. */
  lemma {:induction false} SubKid(f: Forest, top: Id, p: Id, y: Id)
    requires Distinct(f) && p in Ids(f) && y in Ids(Sub(f, p).kids)
    ensures y in Ids(f) && y != p
    ensures Row(Sub(f, p).kids, y) == Row(f, y)
    ensures Parent(Sub(f, p).kids, p, y) == Parent(f, top, y)
    ensures Sub(Sub(f, p).kids, y) == Sub(f, y)
  {
    SubProps(f, p);
    if f.id != p {
      if p in Ids(f.kids) {
        SubKid(f.kids, f.id, p, y);
      } else {
        SubKid(f.next, top, p, y);
      }
    }
  }

  lemma {:induction false} GraftSub(f: Forest, p: Id, at: nat, g: Forest, a: Id)
    requires Distinct(f) && p in Ids(f) && Single(g) && Distinct(g) && Ids(f) !! Ids(g)
    requires a in Ids(f) + Ids(g)
    ensures a in Ids(Graft(f, p, at, g))
    ensures Sub(Graft(f, p, at, g), a) ==
            if a in Ids(g) then Sub(g, a)
            else if p in Ids(Sub(f, a)) then Graft(Sub(f, a), p, at, g)
            else Sub(f, a)
  {
    var s := Sub(f, p);
    var kids := Splice(s.kids, at, g);
    SubProps(f, p);
    SpliceIds(s.kids, at, g);
    SpliceDistinct(s.kids, at, g);
    PutSub(f, p, s.data, kids, a);
    if a in Ids(kids) {
      SpliceRow(s.kids, p, at, g, a);
      if a !in Ids(g) {
        SubKid(f, p, p, a);
        NotAbove(f, p, a);
      }
    } else if p in Ids(Sub(f, a)) {
      SubSub(f, a, p);
    } else {
      PutElsewhere(Sub(f, a), p, s.data, kids);
    }
  }

  /** A node below `p` is not above it. */
  lemma {:induction false} NotAbove(f: Forest, p: Id, a: Id)
    requires Distinct(f) && p in Ids(f) && a in Ids(Sub(f, p).kids)
    ensures a in Ids(f) && p !in Ids(Sub(f, a))
  {
    SubKid(f, p, p, a);
    SubProps(f, p);
    SubProps(Sub(f, p).kids, a);
  }

  // ------------------------------------------------------------ well-formedness

  /** Every edit that does not close a cycle keeps the document one tree of distinct ids. */
  lemma {:induction false} StepWellFormed(d: Doc, e: Edit, draw: nat -> Id)
    requires Endless(draw) && WellFormed(d) && !Cyclic(d, e)
    ensures WellFormed(Step(d, e, draw))
    ensures Step(d, e, draw).tree.id == d.tree.id
    ensures Ids(Step(d, e, draw).tree) == (Ids(d.tree) - Dropped(d, e)) + Ids(Created(d, e, draw).0)
    ensures Ids(Created(d, e, draw).0) !! Ids(d.tree) - Dropped(d, e)
    ensures d.draws <= Step(d, e, draw).draws == Created(d, e, draw).1
  {
    var t := d.tree;
    if Applies(d, e) {
      match e
      case Insert(p, inp, index) =>
        BuildDistinct(inp, draw, d.draws, Ids(t));
        var g := Build(inp, draw, d.draws, Ids(t)).0;
        GraftFacts(t, p, ClampIndex(index, Length(Sub(t, p).kids)), g);
      case Update(x, patch) =>
        var s := Sub(t, x);
        SubProps(t, x);
        PutTops(t, x, Merge(s.data, patch), s.kids);
        PutIds(t, x, Merge(s.data, patch), s.kids);
        PutDistinct(t, x, Merge(s.data, patch), s.kids);
      case Move(x, p, index) =>
        var s := Sub(t, x);
        SubProps(t, x);
        CutTops(t, x);
        CutIds(t, x);
        var rest := Cut(t, x);
        GraftFacts(rest, p, ClampIndex(index, Length(Sub(rest, p).kids)), s);
      case Remove(x) =>
        SubProps(t, x);
        CutTops(t, x);
        CutIds(t, x);
        RootStays(t, x);
      case ReplaceChildren(x, inp) =>
        var s := Sub(t, x);
        SubProps(t, x);
        BuildDistinct(inp, draw, d.draws, Ids(t) - Dropped(d, e));
        var g := Build(inp, draw, d.draws, Ids(t) - Dropped(d, e)).0;
        PutTops(t, x, s.data, g);
        PutIds(t, x, s.data, g);
        PutDistinct(t, x, s.data, g);
    }
  }

  lemma {:induction false} RootStays(t: Forest, x: Id)
    requires Single(t) && Distinct(t) && x in Ids(t) && x != t.id
    ensures t.id !in Ids(Sub(t, x))
  {
    SubProps(t.kids, x);
  }

  lemma StepInsert(d: Doc, p: Id, inp: NodeInput, index: Option<int>, draw: nat -> Id)
    requires Endless(draw) && WellFormed(d) && p in Ids(d.tree)
    ensures
      var (g, n) := Build(inp, draw, d.draws, Ids(d.tree));
      && Single(g) && Distinct(g) && Ids(g) !! Ids(d.tree)
      && Step(d, Insert(p, inp, index), draw) ==
         Doc(Graft(d.tree, p, ClampIndex(index, Length(Sub(d.tree, p).kids)), g), d.loose + {g.id}, n)
      && Minted(d, Insert(p, inp, index), draw) == PreOrder(g)
  {
    BuildDistinct(inp, draw, d.draws, Ids(d.tree));
  }

  lemma StepMove(d: Doc, x: Id, p: Id, index: Option<int>, draw: nat -> Id)
    requires Endless(draw) && WellFormed(d) && HasParent(d, x) && p in Ids(d.tree) && p !in Ids(Sub(d.tree, x))
    ensures p in Ids(Cut(d.tree, x)) && Ids(Cut(d.tree, x)) !! Ids(Sub(d.tree, x))
    ensures Distinct(Cut(d.tree, x)) && Distinct(Sub(d.tree, x))
    ensures
      Step(d, Move(x, p, index), draw) ==
      d.(tree := Graft(Cut(d.tree, x), p, ClampIndex(index, Length(Sub(Cut(d.tree, x), p).kids)), Sub(d.tree, x)))
  {
    SubProps(d.tree, x);
    CutIds(d.tree, x);
  }

  lemma StepReplace(d: Doc, x: Id, inp: Input, draw: nat -> Id)
    requires Endless(draw) && WellFormed(d) && x in Ids(d.tree)
    ensures
      var s := Sub(d.tree, x);
      var (g, n) := Build(inp, draw, d.draws, Ids(d.tree) - Ids(s.kids));
      && Distinct(g) && Ids(g) !! Ids(d.tree) - Ids(s.kids)
      && Step(d, ReplaceChildren(x, inp), draw) ==
         Doc(Put(d.tree, x, s.data, g), d.loose - Ids(s.kids), n)
      && Minted(d, ReplaceChildren(x, inp), draw) == PreOrder(g)
  {
    BuildDistinct(inp, draw, d.draws, Ids(d.tree) - Ids(Sub(d.tree, x).kids));
  }

  /** Grafting after the last child of `x` appends to what was put there. */
  lemma {:induction false} GraftAppends(t: Forest, x: Id, data: Data, done: Forest, g: Forest)
    requires Single(t) && Distinct(t) && x in Ids(t) && Distinct(done) && Ids(done) !! Rest(t, x)
    requires Single(g) && Distinct(g) && Ids(g) !! Ids(Put(t, x, data, done))
    ensures
      var cur := Put(t, x, data, done);
      && Single(cur) && Distinct(cur) && x in Ids(cur) && Sub(cur, x).kids == done
      && Graft(cur, x, Length(done), g) == Put(t, x, data, Append(done, g))
      && Ids(Put(t, x, data, Append(done, g))) == Ids(cur) + Ids(g)
      && Single(Put(t, x, data, Append(done, g))) && Distinct(Put(t, x, data, Append(done, g)))
    ensures Distinct(Append(done, g)) && Ids(Append(done, g)) == Ids(done) + Ids(g)
    ensures Ids(Append(done, g)) !! Rest(t, x)
    ensures PreOrder(Append(done, g)) == PreOrder(done) + PreOrder(g)
  {
    var cur := Put(t, x, data, done);
    SubProps(t, x);
    PutTops(t, x, data, done);
    PutIds(t, x, data, done);
    PutDistinct(t, x, data, done);
    PutSub(t, x, data, done, x);
    AppendFacts(done, g, Nil);
    SpliceIds(done, Length(done), g);
    SpliceDistinct(done, Length(done), g);
    PutPut(t, x, data, done, Append(done, g));
    GraftFacts(cur, x, Length(done), g);
  }

  // ------------------------------------------------------------ a batch

  /** The document after a batch, or `None` when some edit closes a cycle. */
  ghost function Run(d: Doc, edits: seq<Edit>, draw: nat -> Id): (r: Option<Doc>)
    requires Endless(draw) && WellFormed(d)
    ensures r.Some? ==> WellFormed(r.value) && r.value.tree.id == d.tree.id
  {
    if edits == [] then Some(d)
    else
      var before := Run(d, edits[..|edits| - 1], draw);
      var e := edits[|edits| - 1];
      if before.None? || Cyclic(before.value, e) then None
      else
        StepWellFormed(before.value, e, draw);
        Some(Step(before.value, e, draw))
  }

  /** The document just before edit `i` of the batch. */
  ghost function Before(d: Doc, edits: seq<Edit>, i: nat, draw: nat -> Id): (r: Doc)
    requires Endless(draw) && WellFormed(d) && i <= |edits|
    requires Run(d, edits[..i], draw).Some?
    ensures WellFormed(r) && r.tree.id == d.tree.id
  {
    Run(d, edits[..i], draw).value
  }

  lemma {:induction false} RunPrefix(d: Doc, edits: seq<Edit>, i: nat, draw: nat -> Id)
    requires Endless(draw) && WellFormed(d) && i <= |edits| && Run(d, edits, draw).Some?
    ensures Run(d, edits[..i], draw).Some?
    ensures i < |edits| ==>
              && !Cyclic(Before(d, edits, i, draw), edits[i])
              && Run(d, edits[..i + 1], draw) == Some(Step(Before(d, edits, i, draw), edits[i], draw))
    decreases |edits|
  {
    if i == |edits| {
      assert edits[..i] == edits;
    } else {
      var shorter := edits[..|edits| - 1];
      RunPrefix(d, shorter, i, draw);
      assert shorter[..i] == edits[..i];
      if i == |shorter| {
        assert edits[..i + 1] == edits;
      } else {
        assert shorter[..i + 1] == edits[..i + 1];
      }
    }
  }

  /** Only these edits report minted ids. */
  predicate Mints(e: Edit) {
    e.Insert? || e.ReplaceChildren?
  }

  /** The ids minted by each edit, keyed by the edit's position in the batch. */
  ghost function MintedIds(d: Doc, edits: seq<Edit>, draw: nat -> Id): map<nat, seq<Id>>
    requires Endless(draw) && WellFormed(d) && Run(d, edits, draw).Some?
  {
    if edits == [] then map[]
    else
      var last := |edits| - 1;
      var earlier := MintedIds(d, edits[..last], draw);
      var before := Run(d, edits[..last], draw).value;
      if Mints(edits[last]) && Applies(before, edits[last])
      then earlier[last := Minted(before, edits[last], draw)]
      else earlier
  }

  lemma MintedNext(d: Doc, edits: seq<Edit>, i: nat, draw: nat -> Id)
    requires Endless(draw) && WellFormed(d) && i < |edits| && Run(d, edits, draw).Some?
    ensures Run(d, edits[..i], draw).Some? && Run(d, edits[..i + 1], draw).Some?
    ensures
      var before := Before(d, edits, i, draw);
      MintedIds(d, edits[..i + 1], draw) ==
        if Mints(edits[i]) && Applies(before, edits[i])
        then MintedIds(d, edits[..i], draw)[i := Minted(before, edits[i], draw)]
        else MintedIds(d, edits[..i], draw)
    ensures Mints(edits[i]) && !Applies(Before(d, edits, i, draw), edits[i]) ==>
              Minted(Before(d, edits, i, draw), edits[i], draw) == []
  {
    RunPrefix(d, edits, i, draw);
    assert edits[..i + 1][..i] == edits[..i];
  }

  lemma RunStart(d: Doc, edits: seq<Edit>, draw: nat -> Id)
    requires Endless(draw) && WellFormed(d)
    ensures Run(d, edits[..0], draw) == Some(d) && MintedIds(d, edits[..0], draw) == map[]
    ensures Before(d, edits, 0, draw) == d
  {}
}
