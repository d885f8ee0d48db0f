/**
 * The in-place applier: mutable nodes, an id index and a parent index, proved
 * equal to `EditSemantics` step by step.
 */
module EditApplier {
  import opened JsonValues
  import opened Options
  import opened DocumentTrees
  import opened DataMerge
  import opened EditSemantics
  import opened EditEffects

  class MutableNode {
    const id: Id
    const typ: string
    var data: Data
    var children: seq<MutableNode>

    constructor (id: Id, typ: string, data: Data)
      ensures this.id == id && this.typ == typ && this.data == data && children == []
    {
      this.id, this.typ, this.data, this.children := id, typ, data, [];
    }
  }

  /** Node `n` holds row `r`, its children being the nodes `all` gives for the row's ids. */
  ghost predicate HoldsRow(n: MutableNode, all: map<Id, MutableNode>, r: Rec)
    reads n
  {
    && n.typ == r.typ
    && n.data == r.data
    && |n.children| == |r.kids|
    && forall i :: 0 <= i < |r.kids| ==> r.kids[i] in all && n.children[i] == all[r.kids[i]]
  }

  ghost predicate Matches(all: map<Id, MutableNode>, f: Forest)
    reads all.Values
  {
    forall x :: x in Ids(f) ==> x in all && all[x].id == x && HoldsRow(all[x], all, Row(f, x))
  }

  /** `ns` are the nodes of the sibling list `f`. */
  ghost predicate Lists(ns: seq<MutableNode>, all: map<Id, MutableNode>, f: Forest) {
    |ns| == Length(f) && |Tops(f)| == Length(f) &&
    forall i :: 0 <= i < |ns| ==> Tops(f)[i] in all && ns[i] == all[Tops(f)[i]]
  }

  lemma {:induction false} MatchesGrow(m: map<Id, MutableNode>, all: map<Id, MutableNode>, f: Forest)
    requires Matches(m, f)
    requires forall x :: x in m ==> x in all && all[x] == m[x]
    ensures Matches(all, f)
  {}

  lemma {:induction false} ListsGrow(ns: seq<MutableNode>, m: map<Id, MutableNode>, all: map<Id, MutableNode>, f: Forest)
    requires Lists(ns, m, f)
    requires forall x :: x in m ==> x in all && all[x] == m[x]
    ensures Lists(ns, all, f)
  {}

  lemma {:induction false} MatchesPart(all: map<Id, MutableNode>, f: Forest, g: Forest)
    requires Matches(all, f)
    requires forall x :: x in Ids(g) ==> x in Ids(f) && Row(g, x) == Row(f, x)
    ensures Matches(all, g)
  {}

  /** A first node, its children and its later siblings make up the whole list. */
  lemma {:induction false} MatchesJoin(f: Forest, node: MutableNode, below: seq<MutableNode>, after: seq<MutableNode>, all: map<Id, MutableNode>)
    requires f.Node? && Distinct(f)
    requires Matches(all, f.kids) && Lists(below, all, f.kids)
    requires Matches(all, f.next) && Lists(after, all, f.next)
    requires f.id in all && all[f.id] == node && node.id == f.id && node.typ == f.typ && node.data == f.data
    requires node.children == below
    ensures Matches(all, f) && Lists([node] + after, all, f)
  {
    forall x | x in Ids(f)
      ensures x in all && all[x].id == x && HoldsRow(all[x], all, Row(f, x))
    {
      if x in Ids(f.kids) {
        assert Row(f, x) == Row(f.kids, x);
      } else if x in Ids(f.next) {
        assert Row(f, x) == Row(f.next, x);
      }
    }
  }

  /** The other direction: the parts of a list that is held are held. */
  lemma {:induction false} MatchesSplit(f: Forest, ns: seq<MutableNode>, all: map<Id, MutableNode>)
    requires f.Node? && Distinct(f) && Matches(all, f) && Lists(ns, all, f)
    ensures ns != [] && ns[0] == all[f.id] && ns[0].id == f.id && ns[0].typ == f.typ && ns[0].data == f.data
    ensures Matches(all, f.kids) && Lists(ns[0].children, all, f.kids)
    ensures Matches(all, f.next) && Lists(ns[1..], all, f.next)
  {
    MatchesPart(all, f, f.kids);
    MatchesPart(all, f, f.next);
    TopsInIds(f.kids);
    TopsInIds(f.next);
    assert Row(f, f.id).kids == Tops(f.kids);
    assert Tops(f)[0] == f.id;
    forall i | 0 <= i < |ns| - 1 ensures ns[1..][i] == ns[i + 1] && Tops(f)[i + 1] == Tops(f.next)[i] {}
  }

  lemma {:induction false} MatchesCopies(f: Forest, node: MutableNode, after: seq<MutableNode>,
                                         m1: map<Id, MutableNode>, m2: map<Id, MutableNode>, all: map<Id, MutableNode>)
    requires f.Node? && Distinct(f)
    requires m1.Keys == Ids(f.kids) && Matches(m1, f.kids) && Lists(node.children, m1, f.kids)
    requires m2.Keys == Ids(f.next) && Matches(m2, f.next) && Lists(after, m2, f.next)
    requires node.id == f.id && node.typ == f.typ && node.data == f.data
    requires all == m1 + m2 + map[f.id := node]
    ensures all.Keys == Ids(f) && Matches(all, f) && Lists([node] + after, all, f)
  {
    MatchesGrow(m1, all, f.kids);
    MatchesGrow(m2, all, f.next);
    ListsGrow(node.children, m1, all, f.kids);
    ListsGrow(after, m2, all, f.next);
    MatchesJoin(f, node, node.children, after, all);
  }

  // ------------------------------------------------------------ copying in and out

  /** `toMutable` over a sibling list. */
  method ToMutable(f: Forest) returns (ns: seq<MutableNode>, ghost all: map<Id, MutableNode>)
    requires Distinct(f)
    ensures all.Keys == Ids(f) && Matches(all, f) && Lists(ns, all, f)
    ensures forall x :: x in all ==> fresh(all[x])
  {
    ns, all := [], map[];
    if f.Node? {
      var node := new MutableNode(f.id, f.typ, f.data);
      var below, allBelow := ToMutable(f.kids);
      node.children := below;
      var after, allAfter := ToMutable(f.next);
      ns := [node] + after;
      all := allBelow + allAfter + map[f.id := node];
      MatchesCopies(f, node, after, allBelow, allAfter, all);
    }
  }

  /** `fromMutable` over a sibling list. */
  method FromMutable(ns: seq<MutableNode>, ghost f: Forest, ghost all: map<Id, MutableNode>) returns (g: Forest)
    requires Distinct(f) && Matches(all, f) && Lists(ns, all, f)
    ensures g == f
    decreases f
  {
    if ns == [] {
      return Nil;
    }
    MatchesSplit(f, ns, all);
    var kids := FromMutable(ns[0].children, f.kids, all);
    var next := FromMutable(ns[1..], f.next, all);
    g := Node(ns[0].id, ns[0].typ, ns[0].data, kids, next);
  }

  /** A first tree and its later siblings, held before and after more nodes were added. */
  lemma {:induction false} MatchesCons(first: Forest, next: Forest, node: MutableNode, after: seq<MutableNode>,
                                       was: map<Id, MutableNode>, all: map<Id, MutableNode>)
    requires Single(first) && Distinct(first.(next := next))
    requires Matches(was, first) && was[first.id] == node
    requires forall x :: x in was ==> x in all && all[x] == was[x]
    requires Matches(all, next) && Lists(after, all, next)
    ensures Matches(all, first.(next := next)) && Lists([node] + after, all, first.(next := next))
  {
    MatchesGrow(was, all, first);
    TopsInIds(first);
    MatchesSplit(first, [node], all);
    MatchesJoin(first.(next := next), node, node.children, after, all);
  }

  /** Collecting ids node by node collects them in pre-order. */
  lemma {:induction false} PreOrderParts(m: seq<Id>, f: Forest)
    requires f.Node?
    ensures (m + [f.id]) + PreOrder(f.kids) == m + PreOrder(f.(next := Nil))
    ensures (m + PreOrder(f.(next := Nil))) + PreOrder(f.next) == m + PreOrder(f)
  {
    assert PreOrder(f.(next := Nil)) == [f.id] + PreOrder(f.kids);
  }

  // ------------------------------------------------------------ child lists

  /** The nodes hold the rows of `t`, except that node `p` holds `row`. */
  ghost predicate MatchesExcept(all: map<Id, MutableNode>, t: Forest, p: Id, row: Rec)
    reads all.Values
  {
    && p in Ids(t)
    && forall x :: x in Ids(t) ==>
         x in all && all[x].id == x && HoldsRow(all[x], all, if x == p then row else Row(t, x))
  }

  lemma {:induction false} MatchesGraft(all: map<Id, MutableNode>, t: Forest, p: Id, at: nat, g: Forest)
    requires Distinct(t) && Single(g) && Distinct(g) && Matches(all, g) && Ids(t) !! Ids(g)
    requires p in Ids(t) && MatchesExcept(all, t, p, Row(t, p).(kids := InsertAt(Row(t, p).kids, at, g.id)))
    ensures Matches(all, Graft(t, p, at, g))
  {
    GraftFacts(t, p, at, g);
    forall y | y in Ids(Graft(t, p, at, g))
      ensures y in all && all[y].id == y && HoldsRow(all[y], all, Row(Graft(t, p, at, g), y))
    {
      GraftRow(t, "", p, at, g, y);
    }
  }

  lemma {:induction false} MatchesCut(all: map<Id, MutableNode>, t: Forest, x: Id, p: Id)
    requires Distinct(t) && x in Ids(t) && x !in Tops(t) && p == Parent(t, "", x)
    requires p in Ids(t) && MatchesExcept(all, t, p, Row(t, p).(kids := Without(Row(t, p).kids, x)))
    ensures Matches(all, Cut(t, x)) && Matches(all, Sub(t, x))
  {
    CutIds(t, x);
    SubProps(t, x);
    SubFlat(t, x);
    ParentNotBelow(t, "", x);
    forall y | y in Ids(Cut(t, x))
      ensures y in all && all[y].id == y && HoldsRow(all[y], all, Row(Cut(t, x), y))
    {
      CutRow(t, "", x, y);
      if y != p {
        if x in Row(t, y).kids { RowIsParent(t, "", y, x); }
        WithoutAbsent(Row(t, y).kids, x);
      }
    }
  }

  lemma {:induction false} MatchesPut(all: map<Id, MutableNode>, t: Forest, x: Id, data: Data, kids: Forest)
    requires Distinct(t) && x in Ids(t) && Distinct(kids) && Ids(kids) !! Rest(t, x)
    requires Matches(all, kids)
    requires forall y :: y in Rest(t, x) ==>
               y in all && all[y].id == y &&
               HoldsRow(all[y], all, if y == x then Rec(Row(t, x).typ, data, Tops(kids)) else Row(t, y))
    ensures Matches(all, Put(t, x, data, kids))
  {
    PutIds(t, x, data, kids);
    forall y | y in Ids(Put(t, x, data, kids))
      ensures y in all && all[y].id == y && HoldsRow(all[y], all, Row(Put(t, x, data, kids), y))
    {
      PutRow(t, x, data, kids, y);
    }
  }

  lemma KidIds(all: map<Id, MutableNode>, t: Forest, p: Id)
    requires Matches(all, t) && p in Ids(t)
    ensures |all[p].children| == |Row(t, p).kids|
    ensures forall i :: 0 <= i < |Row(t, p).kids| ==> all[p].children[i].id == Row(t, p).kids[i]
  {
    RowKidsIn(t, p);
  }

  /** `insertChild` at a clamped position, as seen from the parent alone. */
  method SpliceChild(parent: MutableNode, node: MutableNode, index: Option<int>,
                     ghost all: map<Id, MutableNode>, ghost row: Rec, ghost id: Id)
    requires HoldsRow(parent, all, row) && id in all && all[id] == node
    modifies parent`children
    ensures HoldsRow(parent, all, row.(kids := InsertAt(row.kids, ClampIndex(index, |row.kids|), id)))
  {
    var at := ClampIndex(index, |parent.children|);
    parent.children := parent.children[..at] + [node] + parent.children[at..];
  }

  /** `insertChild`. */
  method InsertChild(parent: MutableNode, node: MutableNode, index: Option<int>,
                     ghost all: map<Id, MutableNode>, ghost t: Forest, ghost g: Forest)
    requires Distinct(t) && parent.id in Ids(t) && Matches(all, t) && all[parent.id] == parent
    requires Single(g) && Distinct(g) && Matches(all, g) && all[g.id] == node && Ids(t) !! Ids(g)
    modifies parent`children
    ensures Matches(all, Graft(t, parent.id, ClampIndex(index, Length(Sub(t, parent.id).kids)), g))
  {
    hide Graft, Distinct, Tops, Row, HoldsRow;
    ghost var row, at := Row(t, parent.id), ClampIndex(index, Length(Sub(t, parent.id).kids));
    SubProps(t, parent.id);
    TopsInIds(Sub(t, parent.id).kids);
    SpliceChild(parent, node, index, all, row, g.id);
    MatchesGraft(all, t, parent.id, at, g);
  }

  /** `detachChild`: drops the first child named `childId`, if there is one. */
  method DropChild(parent: MutableNode, childId: Id, ghost all: map<Id, MutableNode>, ghost row: Rec)
    requires HoldsRow(parent, all, row)
    requires forall i :: 0 <= i < |row.kids| ==> parent.children[i].id == row.kids[i]
    modifies parent`children
    ensures HoldsRow(parent, all, row.(kids := Without(row.kids, childId)))
  {
    var i := 0;
    while i < |parent.children| && parent.children[i].id != childId
      invariant i <= |parent.children|
      invariant childId !in row.kids[..i]
    {
      assert row.kids[..i + 1] == row.kids[..i] + [row.kids[i]];
      i := i + 1;
    }
    if i < |parent.children| {
      WithoutAt(row.kids, childId, i);
      parent.children := parent.children[..i] + parent.children[i + 1..];
    } else {
      assert row.kids[..i] == row.kids;
      WithoutAbsent(row.kids, childId);
    }
  }

  /** `detachChild` of a node from its parent, as seen from the whole tree. */
  method DetachChild(parent: MutableNode, childId: Id, ghost all: map<Id, MutableNode>, ghost t: Forest)
    requires Distinct(t) && childId in Ids(t) && Matches(all, t) && childId !in Tops(t)
    requires parent.id == Parent(t, "", childId) && parent.id in Ids(t) && all[parent.id] == parent
    modifies parent`children
    ensures Matches(all, Cut(t, childId)) && Matches(all, Sub(t, childId))
  {
    hide Cut, Sub, Distinct, Tops, Parent, Ids, HoldsRow, Row;
    KidIds(all, t, parent.id);
    DropChild(parent, childId, all, Row(t, parent.id));
    MatchesCut(all, t, childId, parent.id);
  }

  /** Every node holds the row that a move of `x` under `p` gives it. */
  ghost predicate HoldsMoved(all: map<Id, MutableNode>, t: Forest, x: Id, p: Id, index: Option<int>)
    reads all.Values
  {
    forall y :: y in Ids(t) ==> y in all && all[y].id == y && HoldsRow(all[y], all, MovedRow(t, x, p, index, y))
  }

  /** `detachChild` then `insertChild`, wherever the new parent is. */
  method Relink(node: MutableNode, parent: MutableNode, currentParent: MutableNode, index: Option<int>,
                ghost all: map<Id, MutableNode>, ghost t: Forest)
    requires Distinct(t) && Matches(all, t)
    requires node.id in Ids(t) && all[node.id] == node && node.id !in Tops(t)
    requires parent.id in Ids(t) && all[parent.id] == parent
    requires currentParent.id in Ids(t) && all[currentParent.id] == currentParent
    requires currentParent.id == Parent(t, "", node.id)
    modifies currentParent`children, parent`children
    ensures HoldsMoved(all, t, node.id, parent.id, index)
  {
    hide Sub, Distinct, Tops, Parent, Ids, HoldsRow, Row, Without, InsertAt;
    KidIds(all, t, currentParent.id);
    OnlyParentLists(t, node.id);
    DropChild(currentParent, node.id, all, Row(t, currentParent.id));
    assert forall y :: y in Ids(t) ==>
             (all[y].id == y && HoldsRow(all[y], all, Row(t, y).(kids := Without(Row(t, y).kids, node.id))));
    SpliceChild(parent, node, index, all,
                Row(t, parent.id).(kids := Without(Row(t, parent.id).kids, node.id)), node.id);
  }

  lemma {:induction false} OnlyParentLists(t: Forest, x: Id)
    requires Distinct(t) && x in Ids(t)
    ensures forall y :: y in Ids(t) && y != Parent(t, "", x) ==>
              Row(t, y) == Row(t, y).(kids := Without(Row(t, y).kids, x))
  {
    forall y | y in Ids(t) && y != Parent(t, "", x)
      ensures Without(Row(t, y).kids, x) == Row(t, y).kids
    {
      if x in Row(t, y).kids { RowIsParent(t, "", y, x); }
      WithoutAbsent(Row(t, y).kids, x);
    }
  }

  lemma {:induction false} MatchesUpdate(all: map<Id, MutableNode>, t: Forest, x: Id, data: Data)
    requires Distinct(t) && x in Ids(t) && MatchesExcept(all, t, x, Row(t, x).(data := data))
    ensures Matches(all, Put(t, x, data, Sub(t, x).kids))
  {
    var kids := Sub(t, x).kids;
    SubProps(t, x);
    forall y | y in Ids(kids)
      ensures y in all && all[y].id == y && HoldsRow(all[y], all, Row(kids, y))
    {
      SubKid(t, "", x, y);
    }
    MatchesPut(all, t, x, data, kids);
  }

  lemma {:induction false} MatchesErased(was: map<Id, MutableNode>, all: map<Id, MutableNode>, f: Forest)
    requires Matches(was, f)
    requires forall y :: y in Ids(f) ==> y in was && y in all && all[y] == was[y]
    ensures Matches(all, f)
  {
    forall x | x in Ids(f) ensures HoldsRow(all[x], all, Row(f, x)) {
      RowKidsIn(f, x);
    }
  }

  lemma {:induction false} KidsHeld(all: map<Id, MutableNode>, t: Forest, x: Id)
    requires Distinct(t) && x in Ids(t) && Matches(all, t)
    ensures Distinct(Sub(t, x).kids) && Matches(all, Sub(t, x).kids)
    ensures Lists(all[x].children, all, Sub(t, x).kids)
    ensures x !in Ids(Sub(t, x).kids)
  {
    SubProps(t, x);
    TopsInIds(Sub(t, x).kids);
    forall y | y in Ids(Sub(t, x).kids) ensures y in Ids(t) && Row(Sub(t, x).kids, y) == Row(t, y) {
      SubKid(t, "", x, y);
    }
    MatchesPart(all, t, Sub(t, x).kids);
  }

  /** The tree after `Clear`. */
  lemma ClearFacts(d: Doc, x: Id)
    requires WellFormed(d) && x in Ids(d.tree)
    ensures
      var s := Sub(d.tree, x);
      var t := Put(d.tree, x, s.data, Nil);
      && Single(t) && Distinct(t) && x in Ids(t)
      && Ids(t) == Ids(d.tree) - Ids(s.kids) && d.loose - Ids(s.kids) <= Ids(t)
    ensures Distinct(Nil) && Ids(Nil) == {} && PreOrder(Nil) == []
    ensures forall f :: Append(Nil, f) == f
  {
    var s := Sub(d.tree, x);
    SubProps(d.tree, x);
    PutTops(d.tree, x, s.data, Nil);
    PutIds(d.tree, x, s.data, Nil);
    PutDistinct(d.tree, x, s.data, Nil);
    RootNotKid(d.tree, x);
  }

  lemma RootIn(t: Forest)
    requires t.Node?
    ensures t.id in Ids(t)
  {}

  lemma SingleLists(all: map<Id, MutableNode>, f: Forest, node: MutableNode)
    requires Single(f) && f.id in all && all[f.id] == node
    ensures Lists([node], all, f)
  {
    assert Tops(f) == [f.id];
  }

  lemma MoveFacts(t: Forest, x: Id)
    requires Single(t) && Distinct(t) && x in Ids(t) && x != t.id
    ensures x !in Tops(t) && Single(Sub(t, x)) && Distinct(Sub(t, x)) && Sub(t, x).id == x
    ensures Parent(t, "", x) in Ids(t)
    ensures Distinct(Cut(t, x)) && Ids(Cut(t, x)) == Ids(t) - Ids(Sub(t, x))
  {
    SubProps(t, x);
    CutIds(t, x);
    assert Tops(t) == [t.id];
    ParentLists(t, "", x);
  }

  method Empty(node: MutableNode, ghost all: map<Id, MutableNode>, ghost t: Forest)
    requires node.id in Ids(t) && Matches(all, t) && all[node.id] == node
    modifies node`children
    ensures MatchesExcept(all, t, node.id, Row(t, node.id).(kids := []))
  {
    node.children := [];
  }

  // ------------------------------------------------------------ the two indexes

  /** `links` gives every node of `f` its parent, the list itself hanging under `p`. */
  ghost predicate Linked(links: map<Id, MutableNode>, all: map<Id, MutableNode>, f: Forest, p: Id) {
    forall y :: y in Ids(f) ==> y in links && Parent(f, p, y) in all && links[y] == all[Parent(f, p, y)]
  }

  /** Outside `changed`, the two maps agree. */
  ghost predicate SameOutside(m: map<Id, MutableNode>, was: map<Id, MutableNode>, changed: set<Id>) {
    forall y :: y !in changed ==> (y in m <==> y in was) && (y in m ==> m[y] == was[y])
  }

  /** The parent index is exact, except that `loose` nodes (and the root) have no entry. */
  ghost predicate LinksExact(links: map<Id, MutableNode>, all: map<Id, MutableNode>, t: Forest, loose: set<Id>) {
    && t.Node?
    && links.Keys == Ids(t) - {t.id} - loose
    && forall y :: y in links ==> y in Ids(t) && Parent(t, "", y) in all && links[y] == all[Parent(t, "", y)]
  }

  lemma {:induction false} LinksGraft(links: map<Id, MutableNode>, was: map<Id, MutableNode>,
                                      oldAll: map<Id, MutableNode>, all: map<Id, MutableNode>,
                                      t: Forest, loose: set<Id>, p: Id, at: nat, g: Forest)
    requires Single(t) && Distinct(t) && loose <= Ids(t)
    requires LinksExact(was, oldAll, t, loose) && oldAll.Keys == Ids(t)
    requires forall x :: x in oldAll ==> x in all && all[x] == oldAll[x]
    requires Single(g) && Distinct(g) && Ids(t) !! Ids(g) && p in Ids(t)
    requires SameOutside(links, was, Ids(g.kids)) && Linked(links, all, g.kids, g.id)
    ensures LinksExact(links, all, Graft(t, p, at, g), loose + {g.id})
  {
    var t' := Graft(t, p, at, g);
    GraftFacts(t, p, at, g);
    forall y | y in Ids(t')
      ensures y in links <==> y != t'.id && y !in loose + {g.id}
      ensures y in links ==> Parent(t', "", y) in all && links[y] == all[Parent(t', "", y)]
    {
      GraftRow(t, "", p, at, g, y);
    }
    assert links.Keys == Ids(t') - {t'.id} - (loose + {g.id});
  }

  /** As `LinksGraft`, when the new root is linked too. */
  lemma {:induction false} LinksAppend(links: map<Id, MutableNode>, was: map<Id, MutableNode>,
                                       oldAll: map<Id, MutableNode>, all: map<Id, MutableNode>,
                                       t: Forest, loose: set<Id>, p: Id, at: nat, g: Forest)
    requires Single(t) && Distinct(t) && loose <= Ids(t)
    requires LinksExact(was, oldAll, t, loose) && oldAll.Keys == Ids(t)
    requires forall x :: x in oldAll ==> x in all && all[x] == oldAll[x]
    requires Single(g) && Distinct(g) && Ids(t) !! Ids(g) && p in Ids(t)
    requires SameOutside(links, was, Ids(g)) && Linked(links, all, g.kids, g.id)
    requires g.id in links && links[g.id] == all[p]
    ensures LinksExact(links, all, Graft(t, p, at, g), loose)
  {
    var t' := Graft(t, p, at, g);
    GraftFacts(t, p, at, g);
    forall y | y in Ids(t')
      ensures y in links <==> y != t'.id && y !in loose
      ensures y in links ==> Parent(t', "", y) in all && links[y] == all[Parent(t', "", y)]
    {
      GraftRow(t, "", p, at, g, y);
    }
    assert links.Keys == Ids(t') - {t'.id} - loose;
  }

  lemma {:induction false} LinksUpdate(links: map<Id, MutableNode>, all: map<Id, MutableNode>,
                                       t: Forest, loose: set<Id>, x: Id, data: Data)
    requires Single(t) && Distinct(t) && x in Ids(t) && LinksExact(links, all, t, loose)
    ensures LinksExact(links, all, Put(t, x, data, Sub(t, x).kids), loose)
  {
    var kids := Sub(t, x).kids;
    SubProps(t, x);
    PutIds(t, x, data, kids);
    PutTops(t, x, data, kids);
    forall y | y in Ids(t)
      ensures Parent(Put(t, x, data, kids), "", y) == Parent(t, "", y)
    {
      PutUp(t, "", x, data, kids, y);
      if y in Ids(kids) { SubKid(t, "", x, y); }
    }
  }

  lemma {:induction false} LinksCut(links: map<Id, MutableNode>, was: map<Id, MutableNode>,
                                    all: map<Id, MutableNode>, oldAll: map<Id, MutableNode>,
                                    t: Forest, loose: set<Id>, x: Id)
    requires Single(t) && Distinct(t) && x in Ids(t) && x != t.id && LinksExact(was, oldAll, t, loose)
    requires Erased(links, was, Ids(Sub(t, x))) && Erased(all, oldAll, Ids(Sub(t, x)))
    ensures LinksExact(links, all, Cut(t, x), loose - Ids(Sub(t, x)))
  {
    CutIds(t, x);
    CutTops(t, x);
    forall y | y in Ids(Cut(t, x)) && y != t.id
      ensures Parent(Cut(t, x), "", y) == Parent(t, "", y) && Parent(t, "", y) !in Ids(Sub(t, x))
    {
      CutRow(t, "", x, y);
      ParentLists(Cut(t, x), "", y);
    }
  }

  lemma {:induction false} LinksMove(links: map<Id, MutableNode>, was: map<Id, MutableNode>, all: map<Id, MutableNode>,
                                     t: Forest, loose: set<Id>, x: Id, p: Id, at: nat)
    requires Single(t) && Distinct(t) && x in Ids(t) && x != t.id && x !in loose
    requires LinksExact(was, all, t, loose) && p in Ids(t) && p !in Ids(Sub(t, x)) && p in all
    requires links == was[x := all[p]]
    requires p in Ids(Cut(t, x))
    ensures LinksExact(links, all, Graft(Cut(t, x), p, at, Sub(t, x)), loose)
  {
    var s, rest := Sub(t, x), Cut(t, x);
    CutIds(t, x);
    CutTops(t, x);
    SubProps(t, x);
    GraftFacts(rest, p, at, s);
    forall y | y in Ids(t)
      ensures Parent(Graft(rest, p, at, s), "", y) == if y == x then p else Parent(t, "", y)
    {
      GraftRow(rest, "", p, at, s, y);
      if y in Ids(s) {
        if y != x { SubKid(t, "", x, y); }
      } else {
        CutRow(t, "", x, y);
      }
    }
  }

  lemma {:induction false} LinksClear(links: map<Id, MutableNode>, was: map<Id, MutableNode>,
                                      all: map<Id, MutableNode>, oldAll: map<Id, MutableNode>,
                                      t: Forest, loose: set<Id>, x: Id, data: Data)
    requires Single(t) && Distinct(t) && x in Ids(t) && LinksExact(was, oldAll, t, loose)
    requires Erased(links, was, Ids(Sub(t, x).kids)) && Erased(all, oldAll, Ids(Sub(t, x).kids))
    ensures LinksExact(links, all, Put(t, x, data, Nil), loose - Ids(Sub(t, x).kids))
  {
    PutIds(t, x, data, Nil);
    PutTops(t, x, data, Nil);
    PutDistinct(t, x, data, Nil);
    RootNotKid(t, x);
    forall y | y in Ids(Put(t, x, data, Nil)) && y != t.id
      ensures Parent(Put(t, x, data, Nil), "", y) == Parent(t, "", y)
      ensures Parent(t, "", y) !in Ids(Sub(t, x).kids)
    {
      PutUp(t, "", x, data, Nil, y);
      ParentLists(Put(t, x, data, Nil), "", y);
    }
  }

  lemma {:induction false} RootNotKid(t: Forest, x: Id)
    requires Single(t) && Distinct(t) && x in Ids(t)
    ensures t.id !in Ids(Sub(t, x).kids)
  {
    SubProps(t, x);
    if x != t.id { RootStays(t, x); }
  }

  /** `m` is `was` without the keys `gone`. */
  ghost predicate Erased(m: map<Id, MutableNode>, was: map<Id, MutableNode>, gone: set<Id>) {
    forall y :: (y in m <==> y in was && y !in gone) && (y in m ==> m[y] == was[y])
  }

  lemma {:induction false} CutErased(links: map<Id, MutableNode>, was: map<Id, MutableNode>,
                                     all: map<Id, MutableNode>, oldAll: map<Id, MutableNode>,
                                     t: Forest, loose: set<Id>, x: Id)
    requires Single(t) && Distinct(t) && x in Ids(t) && x != t.id && LinksExact(was, oldAll, t, loose)
    requires Erased(links, was, Ids(Sub(t, x))) && Erased(all, oldAll, Ids(Sub(t, x)))
    requires oldAll.Keys == Ids(t) && Matches(oldAll, Cut(t, x))
    ensures LinksExact(links, all, Cut(t, x), loose - Ids(Sub(t, x)))
    ensures all.Keys == Ids(Cut(t, x)) && all.Values <= oldAll.Values && Matches(all, Cut(t, x))
    ensures t.id in all && all[t.id] == oldAll[t.id]
  {
    CutIds(t, x);
    RootStays(t, x);
    LinksCut(links, was, all, oldAll, t, loose, x);
    MatchesErased(oldAll, all, Cut(t, x));
  }

  lemma {:induction false} PutErased(links: map<Id, MutableNode>, was: map<Id, MutableNode>,
                                     all: map<Id, MutableNode>, oldAll: map<Id, MutableNode>,
                                     t: Forest, loose: set<Id>, x: Id)
    requires Single(t) && Distinct(t) && x in Ids(t) && LinksExact(was, oldAll, t, loose)
    requires Erased(links, was, Ids(Sub(t, x).kids)) && Erased(all, oldAll, Ids(Sub(t, x).kids))
    requires oldAll.Keys == Ids(t) && MatchesExcept(oldAll, t, x, Row(t, x).(kids := []))
    ensures LinksExact(links, all, Put(t, x, Sub(t, x).data, Nil), loose - Ids(Sub(t, x).kids))
    ensures all.Keys == Ids(Put(t, x, Sub(t, x).data, Nil)) && all.Values <= oldAll.Values
    ensures t.id in all && all[t.id] == oldAll[t.id]
    ensures Matches(all, Put(t, x, Sub(t, x).data, Nil))
  {
    SubProps(t, x);
    PutIds(t, x, Sub(t, x).data, Nil);
    RootNotKid(t, x);
    LinksClear(links, was, all, oldAll, t, loose, x, Sub(t, x).data);
    forall y | y in Rest(t, x)
      ensures y in all && all[y] == oldAll[y]
      ensures HoldsRow(all[y], all, if y == x then Rec(Row(t, x).typ, Sub(t, x).data, []) else Row(t, y))
    {
      if y != x { RestKids(t, x, y); }
    }
    MatchesPut(all, t, x, Sub(t, x).data, Nil);
  }

  /** Outside the subtree below `x`, no row but that of `x` lists a node below `x`. */
  lemma {:induction false} RestKids(t: Forest, x: Id, y: Id)
    requires Distinct(t) && x in Ids(t) && y in Rest(t, x) && y != x
    ensures forall z :: z in Row(t, y).kids ==> z in Rest(t, x)
  {
    RowKidsIn(t, y);
    SubProps(t, x);
    forall z | z in Row(t, y).kids && z in Ids(Sub(t, x).kids)
      ensures false
    {
      RowIsParent(t, "", y, z);
      SubKid(t, "", x, z);
      ParentLists(Sub(t, x).kids, x, z);
    }
  }

  /** A move that closes no cycle leaves nodes and links in agreement with the moved tree. */
  lemma {:induction false} MovedAgrees(links: map<Id, MutableNode>, was: map<Id, MutableNode>, all: map<Id, MutableNode>,
                                       d: Doc, x: Id, p: Id, index: Option<int>, draw: nat -> Id)
    requires Endless(draw) && WellFormed(d) && HasParent(d, x) && p in Ids(d.tree) && p !in Ids(Sub(d.tree, x))
    requires HoldsMoved(all, d.tree, x, p, index) && all.Keys == Ids(d.tree)
    requires LinksExact(was, all, d.tree, d.loose) && links == was[x := all[p]]
    ensures
      var d' := Step(d, Move(x, p, index), draw);
      WellFormed(d') && d'.draws == d.draws && all.Keys == Ids(d'.tree) && d'.loose == d.loose
      && d'.tree.id == d.tree.id && Matches(all, d'.tree) && LinksExact(links, all, d'.tree, d'.loose)
  {
    hide HoldsRow, Row, MovedRow, Graft, Cut, Step, LinksExact;
    var d' := Step(d, Move(x, p, index), draw);
    StepMove(d, x, p, index, draw);
    StepWellFormed(d, Move(x, p, index), draw);
    forall y | y in Ids(d'.tree)
      ensures HoldsRow(all[y], all, Row(d'.tree, y))
    {
      MoveRow(d, x, p, index, draw, y);
    }
    LinksMove(links, was, all, d.tree, d.loose, x, p, ClampIndex(index, Length(Sub(Cut(d.tree, x), p).kids)));
  }

  class TreeIndex {
    const draw: nat -> Id
    var byId: map<Id, MutableNode>
    var parentOf: map<Id, MutableNode>
    var draws: nat

    /** The indexes describe exactly the document `d`. */
    ghost predicate Agrees(d: Doc)
      reads this, byId.Values
    {
      && WellFormed(d)
      && byId.Keys == Ids(d.tree)
      && Matches(byId, d.tree)
      && draws == d.draws
      && LinksExact(parentOf, byId, d.tree, d.loose)
    }

    /** `mintUniqueId`: re-rolls while the draw names an indexed node. */
    method MintUniqueId() returns (id: Id)
      requires Endless(draw)
      modifies this`draws
      ensures draws == FirstFresh(draw, old(draws), byId.Keys) + 1
      ensures id == draw(draws - 1) && id !in byId
      decreases FirstFresh(draw, draws, byId.Keys) - draws
    {
      id := draw(draws);
      draws := draws + 1;
      if id in byId {
        id := MintUniqueId();
      }
    }

    /** Mints an id and reserves it for a new childless node. */
    method Reserve(typ: string, data: Data) returns (node: MutableNode)
      requires Endless(draw)
      modifies this`byId, this`draws
      ensures fresh(node) && node.typ == typ && node.data == data
      ensures node.id == draw(FirstFresh(draw, old(draws), old(byId).Keys))
      ensures draws == FirstFresh(draw, old(draws), old(byId).Keys) + 1
      ensures byId == old(byId)[node.id := node]
      ensures byId.Keys == old(byId).Keys + {node.id}
    {
      var id := MintUniqueId();
      node := new MutableNode(id, typ, data);
      byId := byId[id := node];
    }

    /** Attaches the children once they exist. */
    method Adopt(node: MutableNode, children: seq<MutableNode>, ghost f: Forest)
      requires Single(f) && Distinct(f) && f.id in byId && byId[f.id] == node
      requires node.id == f.id && node.typ == f.typ && node.data == f.data
      requires Matches(byId, f.kids) && Lists(children, byId, f.kids)
      modifies node`children
      ensures Matches(byId, f)
    {
      node.children := children;
      MatchesJoin(f, node, children, [], byId);
    }

    /** `nodeInputToMutable`: the first node of `inp` with its children; later siblings are ignored. */
    method NodeInputToMutable(inp: Input, minted: seq<Id>)
      returns (node: MutableNode, ids: seq<Id>, ghost f: Forest)
      requires Endless(draw) && inp.InputNode?
      modifies this`byId, this`draws
      ensures (f, draws) == Build(inp.(next := NoInput), draw, old(draws), old(byId).Keys)
      ensures Single(f) && byId.Keys == old(byId).Keys + Ids(f)
      ensures SameOutside(byId, old(byId), Ids(f))
      ensures Matches(byId, f) && byId[f.id] == node
      ensures ids == minted + PreOrder(f)
      ensures forall x :: x in Ids(f) ==> fresh(byId[x])
      decreases inp, 0
    {
      hide Build, FirstFresh, Row, PreOrder, Distinct;
      BuildOne(inp, draw, draws, byId.Keys);
      BuildDistinct(inp.(next := NoInput), draw, draws, byId.Keys);
      node := Reserve(inp.typ, inp.fields);
      BuildDistinct(inp.kids, draw, draws, byId.Keys);
      var children, ids', kids := NodeInputsToMutable(inp.kids, minted + [node.id]);
      ids, f := ids', Node(node.id, inp.typ, inp.fields, kids, Nil);
      Adopt(node, children, f);
      PreOrderParts(minted, f);
    }

    /** The same over a list of sibling inputs. */
    method NodeInputsToMutable(inp: Input, minted: seq<Id>)
      returns (ns: seq<MutableNode>, ids: seq<Id>, ghost f: Forest)
      requires Endless(draw)
      modifies this`byId, this`draws
      ensures (f, draws) == Build(inp, draw, old(draws), old(byId).Keys)
      ensures byId.Keys == old(byId).Keys + Ids(f)
      ensures SameOutside(byId, old(byId), Ids(f))
      ensures Matches(byId, f) && Lists(ns, byId, f)
      ensures ids == minted + PreOrder(f)
      ensures forall x :: x in Ids(f) ==> fresh(byId[x])
      decreases inp, 1
    {
      hide Build, FirstFresh;
      if inp.NoInput? {
        BuildNone(draw, draws, byId.Keys);
        return [], minted, Nil;
      }
      BuildSplit(inp, draw, draws, byId.Keys);
      BuildDistinct(inp, draw, draws, byId.Keys);
      var node, ids1, first := NodeInputToMutable(inp, minted);
      ghost var mid := byId;
      var after, ids2, next := NodeInputsToMutable(inp.next, ids1);
      ns, ids, f := [node] + after, ids2, first.(next := next);
      assert first == f.(next := Nil);
      PreOrderParts(minted, f);
      MatchesCons(first, next, node, after, mid, byId);
    }

    /** `registerSubtree` over the children `ns` of `owner`, each with its parent link. */
    method RegisterChildren(owner: MutableNode, ns: seq<MutableNode>, ghost f: Forest, ghost all: map<Id, MutableNode>)
      requires Distinct(f) && Matches(all, f) && Lists(ns, all, f)
      requires owner.id in all && all[owner.id] == owner
      modifies this`byId, this`parentOf
      ensures SameOutside(byId, old(byId), Ids(f))
      ensures forall y :: y in Ids(f) ==> y in byId && byId[y] == all[y]
      ensures SameOutside(parentOf, old(parentOf), Ids(f))
      ensures Linked(parentOf, all, f, owner.id)
      decreases f
    {
      if ns != [] {
        MatchesSplit(f, ns, all);
        parentOf := parentOf[ns[0].id := owner];
        byId := byId[ns[0].id := ns[0]];
        RegisterChildren(ns[0], ns[0].children, f.kids, all);
        RegisterChildren(owner, ns[1..], f.next, all);
      }
    }

    /** `registerSubtree`: the root's own parent link is left to the caller. */
    method RegisterSubtree(node: MutableNode, ghost f: Forest, ghost all: map<Id, MutableNode>)
      requires Single(f) && Distinct(f) && Matches(all, f) && all[f.id] == node
      modifies this`byId, this`parentOf
      ensures SameOutside(byId, old(byId), Ids(f))
      ensures forall y :: y in Ids(f) ==> y in byId && byId[y] == all[y]
      ensures all == old(byId) ==> byId == all
      ensures SameOutside(parentOf, old(parentOf), Ids(f.kids))
      ensures Linked(parentOf, all, f.kids, f.id)
    {
      TopsInIds(f);
      MatchesSplit(f, [node], all);
      byId := byId[node.id := node];
      RegisterChildren(node, node.children, f.kids, all);
      assert all == old(byId) ==> byId == all;
    }

    /** `buildIndex`. */
    constructor (root: MutableNode, draw: nat -> Id, ghost f: Forest, ghost all: map<Id, MutableNode>)
      requires Single(f) && Distinct(f) && Matches(all, f) && all.Keys == Ids(f) && all[f.id] == root
      ensures this.draw == draw && byId == all && Agrees(Start(f))
    {
      this.draw := draw;
      this.byId, this.parentOf, this.draws := map[], map[], 0;
      new;
      RegisterSubtree(root, f, all);
      assert byId == all;
    }

    /** `unregisterSubtree` over a sibling list. */
    method UnregisterSubtrees(ns: seq<MutableNode>, ghost f: Forest, ghost all: map<Id, MutableNode>)
      requires Distinct(f) && Matches(all, f) && Lists(ns, all, f)
      modifies this`byId, this`parentOf
      ensures Erased(byId, old(byId), Ids(f))
      ensures Erased(parentOf, old(parentOf), Ids(f))
      decreases f
    {
      if ns != [] {
        MatchesSplit(f, ns, all);
        byId := byId - {ns[0].id};
        parentOf := parentOf - {ns[0].id};
        UnregisterSubtrees(ns[0].children, f.kids, all);
        UnregisterSubtrees(ns[1..], f.next, all);
      }
    }

    /** `insertChild`, then `registerSubtree`, for nodes whose ids are already reserved. */
    method Attach(parent: MutableNode, node: MutableNode, index: Option<int>,
                  ghost t: Forest, ghost loose: set<Id>, ghost g: Forest, ghost was: map<Id, MutableNode>)
      requires Single(t) && Distinct(t) && loose <= Ids(t) && Matches(byId, t)
      requires parent.id in Ids(t) && byId[parent.id] == parent
      requires Single(g) && Distinct(g) && Ids(t) !! Ids(g) && Matches(byId, g) && byId[g.id] == node
      requires was.Keys == Ids(t) && LinksExact(parentOf, was, t, loose)
      requires forall x :: x in was ==> x in byId && byId[x] == was[x]
      modifies this, parent`children
      ensures byId == old(byId) && draws == old(draws)
      ensures
        var t' := Graft(t, parent.id, ClampIndex(index, Length(Sub(t, parent.id).kids)), g);
        Matches(byId, t') && LinksExact(parentOf, byId, t', loose + {g.id})
    {
      hide Graft, Row, Parent, Sub, Distinct;
      InsertChild(parent, node, index, byId, t, g);
      RegisterSubtree(node, g, byId);
      LinksGraft(parentOf, old(parentOf), was, byId, t, loose, parent.id,
                 ClampIndex(index, Length(Sub(t, parent.id).kids)), g);
    }

    /** Push as last child, link, then `registerSubtree`. */
    method AttachLinked(parent: MutableNode, node: MutableNode,
                        ghost t: Forest, ghost loose: set<Id>, ghost g: Forest, ghost was: map<Id, MutableNode>)
      requires Single(t) && Distinct(t) && loose <= Ids(t) && Matches(byId, t)
      requires parent.id in Ids(t) && byId[parent.id] == parent
      requires Single(g) && Distinct(g) && Ids(t) !! Ids(g) && Matches(byId, g) && byId[g.id] == node
      requires was.Keys == Ids(t) && LinksExact(parentOf, was, t, loose)
      requires forall x :: x in was ==> x in byId && byId[x] == was[x]
      modifies this, parent`children
      ensures byId == old(byId) && draws == old(draws)
      ensures
        var t' := Graft(t, parent.id, Length(Sub(t, parent.id).kids), g);
        Matches(byId, t') && LinksExact(parentOf, byId, t', loose)
    {
      hide Graft, Row, Parent, Sub, HoldsRow;
      InsertChild(parent, node, None, byId, t, g);
      parentOf := parentOf[node.id := parent];
      RegisterSubtree(node, g, byId);
      LinksAppend(parentOf, old(parentOf), was, byId, t, loose, parent.id, Length(Sub(t, parent.id).kids), g);
    }

    /** The `insert` branch: the new root gets no parent link. */
    method ApplyInsert(parentId: Id, input: NodeInput, index: Option<int>, ghost d: Doc)
      returns (minted: seq<Id>)
      requires Endless(draw) && Agrees(d)
      modifies this, byId.Values
      ensures Agrees(Step(d, Insert(parentId, input, index), draw))
      ensures minted == Minted(d, Insert(parentId, input, index), draw)
      ensures minted != [] <==> Applies(d, Insert(parentId, input, index))
      ensures forall n :: n in byId.Values ==> n in old(byId.Values) || fresh(n)
      ensures d.tree.id in byId && byId[d.tree.id] == old(byId)[d.tree.id]
    {
      hide Build, FirstFresh, Graft, Row, Parent, Sub, Distinct;
      ghost var e := Insert(parentId, input, index);
      if parentId !in byId {
        assert Minted(d, e, draw) == [];
        return [];
      }
      hide Step, Minted;
      StepWellFormed(d, e, draw);
      StepInsert(d, parentId, input, index, draw);
      var node, ids, g := NodeInputToMutable(input, []);
      MatchesGrow(old(byId), byId, d.tree);
      Attach(byId[parentId], node, index, d.tree, d.loose, g, old(byId));
      minted := ids;
    }

    /** The `update` branch. */
    method ApplyUpdate(nodeId: Id, patch: Data, ghost d: Doc)
      requires Endless(draw) && Agrees(d)
      modifies byId.Values
      ensures Agrees(Step(d, Update(nodeId, patch), draw))
      ensures byId == old(byId)
    {
      hide Row, Put, Parent, Sub, Distinct;
      if nodeId in byId {
        var node := byId[nodeId];
        ghost var row := Row(d.tree, nodeId);
        ghost var kids := Sub(d.tree, nodeId).kids;
        SubProps(d.tree, nodeId);
        node.data := MergeData(node.data, patch);
        StepWellFormed(d, Update(nodeId, patch), draw);
        MatchesUpdate(byId, d.tree, nodeId, node.data);
        LinksUpdate(parentOf, byId, d.tree, d.loose, nodeId, node.data);
      }
    }

    /**
     * The `move` branch: a node without a parent link is not moved. When the new parent is
     * below the node, the rows are still relinked as told, and then belong to no tree.
     */
    method ApplyMove(nodeId: Id, parentId: Id, index: Option<int>, ghost d: Doc)
      requires Endless(draw) && Agrees(d)
      modifies this, byId.Values
      ensures byId == old(byId)
      ensures !Cyclic(d, Move(nodeId, parentId, index)) ==> Agrees(Step(d, Move(nodeId, parentId, index), draw))
      ensures Cyclic(d, Move(nodeId, parentId, index)) ==> HoldsMoved(byId, d.tree, nodeId, parentId, index)
    {
      hide Row, Graft, Cut, Parent, Sub, Distinct, HoldsRow, MovedRow;
      if nodeId !in byId || parentId !in byId || nodeId !in parentOf {
        assert !Applies(d, Move(nodeId, parentId, index));
        return;
      }
      var node, parent, currentParent := byId[nodeId], byId[parentId], parentOf[nodeId];
      MoveFacts(d.tree, nodeId);
      Relink(node, parent, currentParent, index, byId, d.tree);
      parentOf := parentOf[nodeId := parent];
      if !Cyclic(d, Move(nodeId, parentId, index)) {
        MovedAgrees(parentOf, old(parentOf), byId, d, nodeId, parentId, index, draw);
      }
    }

    /** Detach and unregister: the body of `remove`, for a node that has a parent link. */
    method Discard(node: MutableNode, ghost t: Forest, ghost loose: set<Id>)
      requires Single(t) && Distinct(t) && Matches(byId, t) && LinksExact(parentOf, byId, t, loose)
      requires byId.Keys == Ids(t) && node.id in Ids(t) && byId[node.id] == node
      requires node.id != t.id && node.id !in loose
      modifies this`byId, this`parentOf, byId.Values
      ensures byId.Keys == Ids(Cut(t, node.id)) && byId.Values <= old(byId.Values) && draws == old(draws)
      ensures t.id in byId && byId[t.id] == old(byId)[t.id]
      ensures Matches(byId, Cut(t, node.id))
      ensures LinksExact(parentOf, byId, Cut(t, node.id), loose - Ids(Sub(t, node.id)))
    {
      hide Row, Cut, Parent, Sub, Distinct;
      MoveFacts(t, node.id);
      DetachChild(parentOf[node.id], node.id, byId, t);
      SingleLists(byId, Sub(t, node.id), node);
      UnregisterSubtrees([node], Sub(t, node.id), byId);
      CutErased(parentOf, old(parentOf), byId, old(byId), t, loose, node.id);
    }

    /** The `remove` branch. */
    method ApplyRemove(nodeId: Id, ghost d: Doc)
      requires Endless(draw) && Agrees(d)
      modifies this, byId.Values
      ensures Agrees(Step(d, Remove(nodeId), draw))
      ensures forall n :: n in byId.Values ==> n in old(byId.Values)
      ensures d.tree.id in byId && byId[d.tree.id] == old(byId)[d.tree.id]
    {
      hide Row, Cut, Parent, Sub, Distinct;
      if nodeId in byId && nodeId in parentOf {
        StepWellFormed(d, Remove(nodeId), draw);
        Discard(byId[nodeId], d.tree, d.loose);
      }
    }

    /** Drops all children: the first half of `replaceChildren`. */
    method Clear(node: MutableNode, ghost t: Forest, ghost loose: set<Id>)
      requires Single(t) && Distinct(t) && Matches(byId, t) && LinksExact(parentOf, byId, t, loose)
      requires byId.Keys == Ids(t) && node.id in Ids(t) && byId[node.id] == node
      modifies this`byId, this`parentOf, byId.Values
      ensures
        var s := Sub(t, node.id);
        var t' := Put(t, node.id, s.data, Nil);
        && byId.Keys == Ids(t') && byId.Values <= old(byId.Values) && Matches(byId, t')
        && LinksExact(parentOf, byId, t', loose - Ids(s.kids))
      ensures node.id in byId && byId[node.id] == node
      ensures t.id in byId && byId[t.id] == old(byId)[t.id]
    {
      hide Row, Put, Parent, Sub, Distinct, HoldsRow;
      KidsHeld(byId, t, node.id);
      UnregisterSubtrees(node.children, Sub(t, node.id).kids, byId);
      Empty(node, old(byId), t);
      PutErased(parentOf, old(parentOf), byId, old(byId), t, loose, node.id);
    }

    /** One pass of the `replaceChildren` loop: mint, push, link, register. */
    method AppendChild(node: MutableNode, input: Input, minted: seq<Id>,
                       ghost t: Forest, ghost loose: set<Id>)
      returns (ids: seq<Id>, ghost g: Forest)
      requires Endless(draw) && input.InputNode?
      requires Single(t) && Distinct(t) && Matches(byId, t) && LinksExact(parentOf, byId, t, loose)
      requires byId.Keys == Ids(t) && loose <= Ids(t) && node.id in Ids(t) && byId[node.id] == node
      modifies this, node`children
      ensures (g, draws) == Build(input.(next := NoInput), draw, old(draws), Ids(t))
      ensures Single(g) && Distinct(g) && Ids(g) !! Ids(t)
      ensures ids == minted + PreOrder(g)
      ensures
        var t' := Graft(t, node.id, Length(Sub(t, node.id).kids), g);
        Matches(byId, t') && LinksExact(parentOf, byId, t', loose)
      ensures byId.Keys == Ids(t) + Ids(g) && SameOutside(byId, old(byId), Ids(g))
      ensures forall x :: x in Ids(g) ==> fresh(byId[x])
    {
      hide Build, FirstFresh, Graft, Row, Parent, Sub, Distinct, HoldsRow;
      BuildDistinct(input.(next := NoInput), draw, draws, Ids(t));
      var child;
      child, ids, g := NodeInputToMutable(input, minted);
      MatchesGrow(old(byId), byId, t);
      AttachLinked(node, child, t, loose, g, old(byId));
    }

    /** The `replaceChildren` branch. */
    method ApplyReplaceChildren(nodeId: Id, children: Input, ghost d: Doc) returns (minted: seq<Id>)
      requires Endless(draw) && Agrees(d)
      modifies this, byId.Values
      ensures Agrees(Step(d, ReplaceChildren(nodeId, children), draw))
      ensures minted == Minted(d, ReplaceChildren(nodeId, children), draw)
      ensures forall n :: n in byId.Values ==> n in old(byId.Values) || fresh(n)
      ensures d.tree.id in byId && byId[d.tree.id] == old(byId)[d.tree.id]
    {
      hide Build, FirstFresh, Graft, Put, Row, Parent, Sub, Distinct, HoldsRow, Append, Ids;
      ghost var e := ReplaceChildren(nodeId, children);
      RootIn(d.tree);
      if nodeId !in byId {
        assert Minted(d, e, draw) == [];
        return [];
      }
      hide Step, Minted;
      var node := byId[nodeId];
      assert node.id == nodeId;
      ghost var t, s, loose := d.tree, Sub(d.tree, nodeId), d.loose - Ids(Sub(d.tree, nodeId).kids);
      StepWellFormed(d, e, draw);
      StepReplace(d, nodeId, children, draw);
      Clear(node, t, d.loose);
      ClearFacts(d, nodeId);
      minted := [];
      var rest := children;
      ghost var done := Nil;
      ghost var total := Build(children, draw, d.draws, Ids(t) - Ids(s.kids));
      while rest.InputNode?
        invariant nodeId in byId && byId[nodeId] == node
        invariant Distinct(done) && Ids(done) !! Rest(t, nodeId)
        invariant Single(Put(t, nodeId, s.data, done)) && Distinct(Put(t, nodeId, s.data, done))
        invariant byId.Keys == Ids(Put(t, nodeId, s.data, done)) && loose <= byId.Keys
        invariant Matches(byId, Put(t, nodeId, s.data, done))
        invariant LinksExact(parentOf, byId, Put(t, nodeId, s.data, done), loose)
        invariant total == (Append(done, Build(rest, draw, draws, byId.Keys).0), Build(rest, draw, draws, byId.Keys).1)
        invariant minted == PreOrder(done)
        invariant t.id in byId && byId[t.id] == old(byId)[t.id]
        invariant forall n :: n in byId.Values ==> n in old(byId.Values) || fresh(n)
        decreases rest
      {
        ghost var g;
        BuildSplit(rest, draw, draws, byId.Keys);
        minted, g := AppendChild(node, rest, minted, Put(t, nodeId, s.data, done), loose);
        GraftAppends(t, nodeId, s.data, done, g);
        AppendFacts(done, g, Build(rest.next, draw, draws, byId.Keys).0);
        rest, done := rest.next, Append(done, g);
      }
      BuildNone(draw, draws, byId.Keys);
      AppendFacts(done, Nil, Nil);
    }

    /** One edit: the branch on `edit.op`. The result is what goes into the minted-id map. */
    method Apply(e: Edit, ghost d: Doc) returns (minted: Option<seq<Id>>)
      requires Endless(draw) && Agrees(d)
      modifies this, byId.Values
      ensures !Cyclic(d, e) ==> Agrees(Step(d, e, draw))
      ensures Cyclic(d, e) ==> byId == old(byId) && HoldsMoved(byId, d.tree, e.nodeId, e.parentId, e.index)
      ensures minted == if Mints(e) && Applies(d, e) then Some(Minted(d, e, draw)) else None
      ensures forall n :: n in byId.Values ==> n in old(byId.Values) || fresh(n)
      ensures d.tree.id in byId && byId[d.tree.id] == old(byId)[d.tree.id]
    {
      hide Step, Distinct, Matches, LinksExact, Sub, Ids, HoldsMoved;
      RootIn(d.tree);
      minted := None;
      match e
      case Insert(parentId, input, at) =>
        var ids := ApplyInsert(parentId, input, at, d);
        if ids != [] { minted := Some(ids); }
      case Update(nodeId, patch) =>
        ApplyUpdate(nodeId, patch, d);
      case Move(nodeId, parentId, at) =>
        ApplyMove(nodeId, parentId, at, d);
      case Remove(nodeId) =>
        ApplyRemove(nodeId, d);
      case ReplaceChildren(nodeId, children) =>
        var found := nodeId in byId;
        var ids := ApplyReplaceChildren(nodeId, children, d);
        if found { minted := Some(ids); }
    }
  }

  // ------------------------------------------------------------ the whole batch

  /** After a move that closes a cycle, what hangs below the root is the tree without the moved subtree. */
  lemma {:induction false} CycleLeavesRest(all: map<Id, MutableNode>, t: Forest, x: Id, p: Id, at: Option<int>)
    requires Single(t) && Distinct(t) && x in Ids(t) && x != t.id && p in Ids(Sub(t, x)) && HoldsMoved(all, t, x, p, at)
    ensures Matches(all, Cut(t, x)) && Single(Cut(t, x)) && Distinct(Cut(t, x)) && Cut(t, x).id == t.id
  {
    CutIds(t, x);
    CutTops(t, x);
    RootStays(t, x);
    forall y | y in Ids(Cut(t, x))
      ensures y in all && all[y].id == y && HoldsRow(all[y], all, Row(Cut(t, x), y))
    {
      CutRow(t, "", x, y);
    }
  }

  /** No move closes a cycle, unless the last edit of the batch does. */
  ghost predicate RunsToLast(t: Forest, edits: seq<Edit>, draw: nat -> Id)
    requires Endless(draw) && WellFormed(Start(t))
  {
    edits != [] ==> Run(Start(t), edits[..|edits| - 1], draw).Some?
  }

  /** The tree that the batch leaves below the root: if its last move closes a cycle, the moved subtree is gone. */
  ghost function Left(t: Forest, edits: seq<Edit>, draw: nat -> Id): Forest
    requires Endless(draw) && WellFormed(Start(t)) && RunsToLast(t, edits, draw)
  {
    if Run(Start(t), edits, draw).Some? then Run(Start(t), edits, draw).value.tree
    else Cut(Run(Start(t), edits[..|edits| - 1], draw).value.tree, edits[|edits| - 1].nodeId)
  }

  ghost function Reported(t: Forest, edits: seq<Edit>, draw: nat -> Id): map<nat, seq<Id>>
    requires Endless(draw) && WellFormed(Start(t)) && RunsToLast(t, edits, draw)
  {
    if Run(Start(t), edits, draw).Some? then MintedIds(Start(t), edits, draw)
    else MintedIds(Start(t), edits[..|edits| - 1], draw)
  }

  lemma {:induction false} RunsToEarlier(t: Forest, edits: seq<Edit>, draw: nat -> Id, i: nat)
    requires Endless(draw) && WellFormed(Start(t)) && RunsToLast(t, edits, draw) && i < |edits|
    ensures Run(Start(t), edits[..i], draw).Some?
  {
    var earlier := edits[..|edits| - 1];
    RunPrefix(Start(t), earlier, i, draw);
    assert earlier[..i] == edits[..i];
  }

  /** One more edit: it runs, or it is a move that closes a cycle. */
  lemma {:induction false} LeftNext(t: Forest, edits: seq<Edit>, draw: nat -> Id, i: nat)
    requires Endless(draw) && WellFormed(Start(t)) && i < |edits| && Run(Start(t), edits[..i], draw).Some?
    ensures RunsToLast(t, edits[..i + 1], draw)
    ensures
      var d, e := Before(Start(t), edits, i, draw), edits[i];
      if Cyclic(d, e) then
        && Run(Start(t), edits[..i + 1], draw).None?
        && Left(t, edits[..i + 1], draw) == Cut(d.tree, e.nodeId)
        && Reported(t, edits[..i + 1], draw) == MintedIds(Start(t), edits[..i], draw)
      else
        && Run(Start(t), edits[..i + 1], draw) == Some(Step(d, e, draw))
        && Left(t, edits[..i + 1], draw) == Step(d, e, draw).tree
        && Reported(t, edits[..i + 1], draw) ==
           (if Mints(e) && Applies(d, e) then MintedIds(Start(t), edits[..i], draw)[i := Minted(d, e, draw)]
            else MintedIds(Start(t), edits[..i], draw))
  {
    hide Step, Cyclic, Applies, Minted;
    assert edits[..i + 1][..i] == edits[..i];
  }

  /**
   * `applyDocumentEdits`. For a batch in which no move before the last edit closes a cycle, the in-place run
   * over mutable nodes and two indexes returns the tree and the minted ids that the edits mean on tree
   * values; if the last edit is a move that closes a cycle, the moved subtree is lost from the result.
   */
  method ApplyDocumentEdits(root: Forest, edits: seq<Edit>, draw: nat -> Id)
    returns (result: Forest, mintedIds: map<nat, seq<Id>>)
    requires Endless(draw) && WellFormed(Start(root)) && RunsToLast(root, edits, draw)
    ensures Run(Start(root), edits, draw).Some? ==>
              result == Run(Start(root), edits, draw).value.tree && mintedIds == MintedIds(Start(root), edits, draw)
    ensures result == Left(root, edits, draw) && mintedIds == Reported(root, edits, draw)
  {
    hide Run, MintedIds, Step, Minted, Cyclic, Applies, LinksExact, Left, Reported, RunsToLast, HoldsMoved, Matches;
    var nodes, all := ToMutable(root);
    var index := new TreeIndex(nodes[0], draw, root, all);
    mintedIds := map[];
    ghost var tree := root;
    LeftStart(root, edits, draw);
    var i := 0;
    while i < |edits|
      invariant i <= |edits| && index.draw == draw && fresh(index)
      invariant RunsToLast(root, edits[..i], draw) && tree == Left(root, edits[..i], draw)
      invariant i < |edits| ==> Run(Start(root), edits[..i], draw).Some? && index.Agrees(Before(Start(root), edits, i, draw))
      invariant Single(tree) && Distinct(tree) && Matches(index.byId, tree) && tree.id == root.id
      invariant forall n :: n in index.byId.Values ==> fresh(n)
      invariant root.id in index.byId && index.byId[root.id] == nodes[0]
      invariant mintedIds == Reported(root, edits[..i], draw)
    {
      ghost var d := Before(Start(root), edits, i, draw);
      LeftNext(root, edits, draw, i);
      if i + 1 < |edits| { RunsToEarlier(root, edits, draw, i + 1); }
      ReportedRun(root, edits[..i], draw);
      var minted := index.Apply(edits[i], d);
      if minted.Some? { mintedIds := mintedIds[i := minted.value]; }
      ClosedCycle(index.byId, d, edits[i], draw);
      tree := Left(root, edits[..i + 1], draw);
      i := i + 1;
    }
    assert edits[..i] == edits;
    LeftRun(root, edits, draw);
    result := ReadBack(nodes[0], index.byId, tree);
  }

  lemma LeftStart(t: Forest, edits: seq<Edit>, draw: nat -> Id)
    requires Endless(draw) && WellFormed(Start(t))
    ensures RunsToLast(t, edits[..0], draw) && Left(t, edits[..0], draw) == t && Reported(t, edits[..0], draw) == map[]
    ensures Run(Start(t), edits[..0], draw).Some? && Before(Start(t), edits, 0, draw) == Start(t)
  {}

  lemma ReportedRun(t: Forest, edits: seq<Edit>, draw: nat -> Id)
    requires Endless(draw) && WellFormed(Start(t)) && RunsToLast(t, edits, draw) && Run(Start(t), edits, draw).Some?
    ensures Reported(t, edits, draw) == MintedIds(Start(t), edits, draw)
  {}

  lemma LeftRun(t: Forest, edits: seq<Edit>, draw: nat -> Id)
    requires Endless(draw) && WellFormed(Start(t)) && RunsToLast(t, edits, draw)
    ensures Run(Start(t), edits, draw).Some? ==>
              && Left(t, edits, draw) == Run(Start(t), edits, draw).value.tree
              && Reported(t, edits, draw) == MintedIds(Start(t), edits, draw)
  {}

  lemma {:induction false} ClosedCycle(all: map<Id, MutableNode>, d: Doc, e: Edit, draw: nat -> Id)
    requires WellFormed(d)
    ensures Cyclic(d, e) ==> !Mints(e)
    ensures Cyclic(d, e) && HoldsMoved(all, d.tree, e.nodeId, e.parentId, e.index) ==>
              && Matches(all, Cut(d.tree, e.nodeId)) && Single(Cut(d.tree, e.nodeId)) && Distinct(Cut(d.tree, e.nodeId))
              && Cut(d.tree, e.nodeId).id == d.tree.id
  {
    if Cyclic(d, e) && HoldsMoved(all, d.tree, e.nodeId, e.parentId, e.index) {
      CycleLeavesRest(all, d.tree, e.nodeId, e.parentId, e.index);
    }
  }

  /** `fromMutable` of the root. */
  method ReadBack(rootNode: MutableNode, ghost all: map<Id, MutableNode>, ghost t: Forest) returns (g: Forest)
    requires Single(t) && Distinct(t) && Matches(all, t) && all[t.id] == rootNode
    ensures g == t
  {
    SingleLists(all, t, rootNode);
    g := FromMutable([rootNode], t, all);
  }
}
