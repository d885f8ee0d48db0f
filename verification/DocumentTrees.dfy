/**
 * Document trees as values.
 *
 * A `Forest` is a list of sibling nodes: the first node's own record, the forest
 * of its children, and the siblings that follow it. One document is a forest of
 * exactly one node. `Flat` and `Up` give the same tree as two tables keyed by id,
 * which is what the editor's side indexes hold.
 */
module DocumentTrees {
  import opened JsonValues

  type Id = string

  datatype Forest =
    | Nil
    | Node(id: Id, typ: string, data: Data, kids: Forest, next: Forest)

  /** One row of the flat view: everything a node holds, children by id. */
  datatype Rec = Rec(typ: string, data: Data, kids: seq<Id>)

  function Ids(f: Forest): set<Id> {
    if f.Nil? then {} else {f.id} + Ids(f.kids) + Ids(f.next)
  }

  ghost predicate Distinct(f: Forest) {
    f.Node? ==>
      && f.id !in Ids(f.kids)
      && f.id !in Ids(f.next)
      && Ids(f.kids) !! Ids(f.next)
      && Distinct(f.kids)
      && Distinct(f.next)
  }

  ghost predicate Single(f: Forest) {
    f.Node? && f.next.Nil?
  }

  /** The ids of the sibling list itself, in order. */
  function Tops(f: Forest): seq<Id> {
    if f.Nil? then [] else [f.id] + Tops(f.next)
  }

  function Length(f: Forest): nat {
    if f.Nil? then 0 else 1 + Length(f.next)
  }

  function PreOrder(f: Forest): seq<Id> {
    if f.Nil? then [] else [f.id] + PreOrder(f.kids) + PreOrder(f.next)
  }

  /** The row of node `y`. */
  function Row(f: Forest, y: Id): Rec
    requires y in Ids(f)
  {
    if y == f.id then Rec(f.typ, f.data, Tops(f.kids))
    else if y in Ids(f.kids) then Row(f.kids, y)
    else Row(f.next, y)
  }

  /** The parent of node `y`, the sibling list itself hanging under `p`. */
  function Parent(f: Forest, p: Id, y: Id): Id
    requires y in Ids(f)
  {
    if y == f.id then p
    else if y in Ids(f.kids) then Parent(f.kids, f.id, y)
    else Parent(f.next, p, y)
  }

  /** The subtree rooted at `x`, as a forest of one. */
  function Sub(f: Forest, x: Id): (s: Forest)
    requires x in Ids(f)
    ensures s.Node? && s.next.Nil? && s.id == x
  {
    if f.id == x then f.(next := Nil)
    else if x in Ids(f.kids) then Sub(f.kids, x)
    else Sub(f.next, x)
  }

  /** Whether `x` is `a` or one of its descendants. */
  predicate Under(f: Forest, a: Id, x: Id) {
    a in Ids(f) && x in Ids(Sub(f, a))
  }

  /** Replaces the data and the children of node `x`. */
  function Put(f: Forest, x: Id, data: Data, kids: Forest): Forest {
    if f.Nil? then Nil
    else if f.id == x then f.(data := data, kids := kids)
    else f.(kids := Put(f.kids, x, data, kids), next := Put(f.next, x, data, kids))
  }

  /** Removes the subtree rooted at `x`. */
  function Cut(f: Forest, x: Id): Forest {
    if f.Nil? then Nil
    else if f.id == x then f.next
    else f.(kids := Cut(f.kids, x), next := Cut(f.next, x))
  }

  /** Inserts the single tree `g` into a sibling list so that it ends at position `at`. */
  function Splice(f: Forest, at: nat, g: Forest): Forest
    requires g.Node?
  {
    if at == 0 || f.Nil? then g.(next := f) else f.(next := Splice(f.next, at - 1, g))
  }

  /** `Splice` among the children of `p`. */
  function Graft(f: Forest, p: Id, at: nat, g: Forest): Forest
    requires p in Ids(f) && g.Node?
  {
    var s := Sub(f, p);
    Put(f, p, s.data, Splice(s.kids, at, g))
  }

  function Without(s: seq<Id>, x: Id): seq<Id> {
    if s == [] then [] else if s[0] == x then s[1..] else [s[0]] + Without(s[1..], x)
  }

  function InsertAt(s: seq<Id>, at: nat, x: Id): seq<Id> {
    if at <= |s| then s[..at] + [x] + s[at..] else s + [x]
  }

  // ------------------------------------------------------------------ basics

  lemma {:induction false} SubsetSize(a: set<string>, b: set<string>)
    requires a <= b
    ensures |a| <= |b|
  {
    if a != {} {
      var x :| x in a;
      SubsetSize(a - {x}, b - {x});
    }
  }

  lemma TopsInIds(f: Forest)
    ensures forall x :: x in Tops(f) ==> x in Ids(f)
    ensures |Tops(f)| == Length(f)
  {}

  lemma {:induction false} SubProps(f: Forest, x: Id)
    requires x in Ids(f)
    ensures Ids(Sub(f, x)) <= Ids(f)
    ensures Ids(Sub(f, x)) == {x} + Ids(Sub(f, x).kids)
    ensures Distinct(f) ==> Distinct(Sub(f, x))
    ensures Distinct(f) ==> Row(f, x) == Rec(Sub(f, x).typ, Sub(f, x).data, Tops(Sub(f, x).kids))
  {
    if f.id != x {
      if x in Ids(f.kids) { SubProps(f.kids, x); } else { SubProps(f.next, x); }
    }
  }

  lemma {:induction false} SubFlat(f: Forest, x: Id)
    requires x in Ids(f) && Distinct(f)
    ensures forall y :: y in Ids(Sub(f, x)) ==> y in Ids(f) && Row(f, y) == Row(Sub(f, x), y)
  {
    SubProps(f, x);
    if f.id != x {
      if x in Ids(f.kids) { SubFlat(f.kids, x); SubProps(f.kids, x); } else { SubFlat(f.next, x); SubProps(f.next, x); }
    }
  }

  /** A subtree of a subtree is the same subtree of the whole. */
  lemma {:induction false} SubSub(f: Forest, a: Id, x: Id)
    requires Distinct(f) && Under(f, a, x)
    ensures x in Ids(f) && Sub(Sub(f, a), x) == Sub(f, x)
  {
    SubProps(f, a);
    if f.id != a {
      if a in Ids(f.kids) {
        SubSub(f.kids, a, x);
      } else {
        SubSub(f.next, a, x);
      }
    }
  }

  /** The row that lists `x` as a child is the row of its parent. */
  lemma {:induction false} RowIsParent(f: Forest, p: Id, y: Id, x: Id)
    requires Distinct(f) && y in Ids(f) && x in Row(f, y).kids
    ensures x in Ids(f) && Parent(f, p, x) == y
  {
    if y == f.id {
      TopsInIds(f.kids);
      TopParents(f.kids, f.id, x);
    } else if y in Ids(f.kids) {
      RowIsParent(f.kids, f.id, y, x);
    } else {
      RowIsParent(f.next, p, y, x);
    }
  }

  lemma {:induction false} TopParents(f: Forest, p: Id, x: Id)
    requires Distinct(f) && x in Tops(f)
    ensures x in Ids(f) && Parent(f, p, x) == p
  {
    if x != f.id {
      TopParents(f.next, p, x);
    }
  }

  /** A node that is not in the sibling list itself is listed by its parent's row. */
  lemma {:induction false} ParentLists(f: Forest, p: Id, x: Id)
    requires Distinct(f) && x in Ids(f)
    ensures x in Tops(f) || (Parent(f, p, x) in Ids(f) && x in Row(f, Parent(f, p, x)).kids)
    ensures x in Tops(f) ==> Parent(f, p, x) == p
  {
    TopsInIds(f.next);
    if x == f.id {
    } else if x in Ids(f.kids) {
      ParentLists(f.kids, f.id, x);
    } else {
      ParentLists(f.next, p, x);
    }
  }

  lemma {:induction false} RowKidsIn(f: Forest, y: Id)
    requires y in Ids(f)
    ensures forall x :: x in Row(f, y).kids ==> x in Ids(f)
  {
    if y == f.id { TopsInIds(f.kids); }
    else if y in Ids(f.kids) { RowKidsIn(f.kids, y); }
    else { RowKidsIn(f.next, y); }
  }

  lemma {:induction false} ParentNotBelow(f: Forest, p: Id, x: Id)
    requires Distinct(f) && x in Ids(f) && x !in Tops(f)
    ensures Parent(f, p, x) in Ids(f) && Parent(f, p, x) !in Ids(Sub(f, x))
  {
    SubProps(f, x);
    if x in Ids(f.kids) {
      SubProps(f.kids, x);
      if x in Tops(f.kids) { TopParents(f.kids, f.id, x); } else { ParentNotBelow(f.kids, f.id, x); }
    } else {
      ParentNotBelow(f.next, p, x);
    }
  }

  // -------------------------------------------------------------- Put

  lemma {:induction false} PutElsewhere(f: Forest, x: Id, data: Data, kids: Forest)
    requires x !in Ids(f)
    ensures Put(f, x, data, kids) == f
  {
    if f.Node? {
      PutElsewhere(f.kids, x, data, kids);
      PutElsewhere(f.next, x, data, kids);
    }
  }

  lemma {:induction false} PutTops(f: Forest, x: Id, data: Data, kids: Forest)
    ensures Tops(Put(f, x, data, kids)) == Tops(f)
    ensures f.Node? ==> Put(f, x, data, kids).Node? && Put(f, x, data, kids).id == f.id
    ensures Single(f) ==> Single(Put(f, x, data, kids))
  {
    if f.Node? {
      PutTops(f.next, x, data, kids);
    }
  }

  /** `Put` drops the old descendants of `x` and brings in those of `kids`. */
  lemma {:induction false} PutIds(f: Forest, x: Id, data: Data, kids: Forest)
    requires Distinct(f) && x in Ids(f)
    ensures Ids(Put(f, x, data, kids)) == (Ids(f) - Ids(Sub(f, x).kids)) + Ids(kids)
  {
    SubProps(f, x);
    if f.id == x {
    } else if x in Ids(f.kids) {
      SubProps(f.kids, x);
      PutIds(f.kids, x, data, kids);
      PutElsewhere(f.next, x, data, kids);
      assert Ids(f) - Ids(Sub(f, x).kids) == {f.id} + (Ids(f.kids) - Ids(Sub(f, x).kids)) + Ids(f.next);
    } else {
      SubProps(f.next, x);
      PutIds(f.next, x, data, kids);
      PutElsewhere(f.kids, x, data, kids);
      assert Ids(f) - Ids(Sub(f, x).kids) == {f.id} + Ids(f.kids) + (Ids(f.next) - Ids(Sub(f, x).kids));
    }
  }

  /** The part of the tree that `Put` at `x` leaves alone. */
  ghost function Rest(f: Forest, x: Id): set<Id>
    requires x in Ids(f)
  {
    Ids(f) - Ids(Sub(f, x).kids)
  }

  lemma {:induction false} PutDistinct(f: Forest, x: Id, data: Data, kids: Forest)
    requires Distinct(f) && x in Ids(f)
    requires Distinct(kids) && Ids(kids) !! Rest(f, x)
    ensures Distinct(Put(f, x, data, kids))
  {
    SubProps(f, x);
    if f.id == x {
    } else if x in Ids(f.kids) {
      SubProps(f.kids, x);
      PutDistinct(f.kids, x, data, kids);
      PutIds(f.kids, x, data, kids);
      PutElsewhere(f.next, x, data, kids);
    } else {
      SubProps(f.next, x);
      PutDistinct(f.next, x, data, kids);
      PutIds(f.next, x, data, kids);
      PutElsewhere(f.kids, x, data, kids);
    }
  }

  lemma {:induction false} PutRow(f: Forest, x: Id, data: Data, kids: Forest, y: Id)
    requires Distinct(f) && x in Ids(f)
    requires Distinct(kids) && Ids(kids) !! Rest(f, x)
    requires y in Rest(f, x) + Ids(kids)
    ensures y in Ids(Put(f, x, data, kids))
    ensures Row(Put(f, x, data, kids), y) ==
            if y in Ids(kids) then Row(kids, y)
            else if y == x then Rec(Row(f, x).typ, data, Tops(kids))
            else Row(f, y)
  {
    PutIds(f, x, data, kids);
    SubProps(f, x);
    if f.id == x {
    } else if x in Ids(f.kids) {
      SubProps(f.kids, x);
      PutIds(f.kids, x, data, kids);
      PutTops(f.kids, x, data, kids);
      PutElsewhere(f.next, x, data, kids);
      if y in Ids(f.kids) || y in Ids(kids) { PutRow(f.kids, x, data, kids, y); }
    } else {
      SubProps(f.next, x);
      PutIds(f.next, x, data, kids);
      PutElsewhere(f.kids, x, data, kids);
      if y in Ids(f.next) || y in Ids(kids) { PutRow(f.next, x, data, kids, y); }
    }
  }

  lemma {:induction false} PutUp(f: Forest, p: Id, x: Id, data: Data, kids: Forest, y: Id)
    requires Distinct(f) && x in Ids(f)
    requires Distinct(kids) && Ids(kids) !! Rest(f, x)
    requires y in Rest(f, x) + Ids(kids)
    ensures y in Ids(Put(f, x, data, kids))
    ensures Parent(Put(f, x, data, kids), p, y) == if y in Ids(kids) then Parent(kids, x, y) else Parent(f, p, y)
  {
    PutIds(f, x, data, kids);
    SubProps(f, x);
    if f.id == x {
    } else if x in Ids(f.kids) {
      SubProps(f.kids, x);
      PutIds(f.kids, x, data, kids);
      PutElsewhere(f.next, x, data, kids);
      if y in Ids(f.kids) || y in Ids(kids) { PutUp(f.kids, f.id, x, data, kids, y); }
    } else {
      SubProps(f.next, x);
      PutIds(f.next, x, data, kids);
      PutElsewhere(f.kids, x, data, kids);
      if y in Ids(f.next) || y in Ids(kids) { PutUp(f.next, p, x, data, kids, y); }
    }
  }

  /** Every subtree after `Put`: new ones come with `kids`, the others are edited in place. */
  lemma {:induction false} PutSub(f: Forest, x: Id, data: Data, kids: Forest, a: Id)
    requires Distinct(f) && x in Ids(f)
    requires Distinct(kids) && Ids(kids) !! Rest(f, x)
    requires a in Rest(f, x) + Ids(kids)
    ensures a in Ids(Put(f, x, data, kids))
    ensures Sub(Put(f, x, data, kids), a) ==
            if a in Ids(kids) then Sub(kids, a) else Put(Sub(f, a), x, data, kids)
  {
    PutIds(f, x, data, kids);
    SubProps(f, x);
    if f.id == x {
      if a != x && a !in Ids(kids) {
        SubProps(f.next, a);
        PutElsewhere(Sub(f.next, a), x, data, kids);
      }
    } else if x in Ids(f.kids) {
      SubProps(f.kids, x);
      PutIds(f.kids, x, data, kids);
      PutElsewhere(f.next, x, data, kids);
      if a in Ids(f.kids) || a in Ids(kids) {
        PutSub(f.kids, x, data, kids, a);
      } else if a != f.id {
        SubProps(f.next, a);
        PutElsewhere(Sub(f.next, a), x, data, kids);
      }
    } else {
      SubProps(f.next, x);
      PutIds(f.next, x, data, kids);
      PutElsewhere(f.kids, x, data, kids);
      if a in Ids(f.next) || a in Ids(kids) {
        PutSub(f.next, x, data, kids, a);
      } else if a != f.id {
        SubProps(f.kids, a);
        PutElsewhere(Sub(f.kids, a), x, data, kids);
      }
    }
  }

  // -------------------------------------------------------------- Cut

  lemma {:induction false} CutElsewhere(f: Forest, x: Id)
    requires x !in Ids(f)
    ensures Cut(f, x) == f
  {
    if f.Node? {
      CutElsewhere(f.kids, x);
      CutElsewhere(f.next, x);
    }
  }

  lemma {:induction false} WithoutAbsent(s: seq<Id>, x: Id)
    requires x !in s
    ensures Without(s, x) == s
  {
    if s != [] {
      WithoutAbsent(s[1..], x);
    }
  }

  lemma {:induction false} CutTops(f: Forest, x: Id)
    requires Distinct(f)
    ensures Tops(Cut(f, x)) == Without(Tops(f), x)
    ensures Single(f) && f.id != x ==> Single(Cut(f, x)) && Cut(f, x).id == f.id
  {
    if f.Node? && f.id != x {
      CutTops(f.next, x);
    }
  }

  lemma {:induction false} CutIds(f: Forest, x: Id)
    requires Distinct(f) && x in Ids(f)
    ensures Ids(Cut(f, x)) == Ids(f) - Ids(Sub(f, x))
    ensures Distinct(Cut(f, x))
  {
    SubProps(f, x);
    if f.id == x {
    } else if x in Ids(f.kids) {
      SubProps(f.kids, x);
      CutIds(f.kids, x);
      CutElsewhere(f.next, x);
    } else {
      SubProps(f.next, x);
      CutIds(f.next, x);
      CutElsewhere(f.kids, x);
    }
  }

  lemma {:induction false} CutRow(f: Forest, p: Id, x: Id, y: Id)
    requires Distinct(f) && x in Ids(f) && y in Ids(f) && y !in Ids(Sub(f, x))
    ensures y in Ids(Cut(f, x))
    ensures Row(Cut(f, x), y) == Row(f, y).(kids := Without(Row(f, y).kids, x))
    ensures Parent(Cut(f, x), p, y) == Parent(f, p, y)
  {
    CutIds(f, x);
    SubProps(f, x);
    if x in Row(f, y).kids { RowIsParent(f, p, y, x); } else { WithoutAbsent(Row(f, y).kids, x); }
    if f.id == x {
      assert y in Ids(f.next);
      if x in Row(f, y).kids {
        RowIsParent(f.next, p, y, x);
      }
    } else if x in Ids(f.kids) {
      SubProps(f.kids, x);
      CutElsewhere(f.next, x);
      CutTops(f.kids, x);
      CutIds(f.kids, x);
      if y in Ids(f.kids) { CutRow(f.kids, f.id, x, y); }
      else if y in Ids(f.next) && x in Row(f, y).kids { RowIsParent(f.next, p, y, x); }
    } else {
      SubProps(f.next, x);
      CutElsewhere(f.kids, x);
      CutIds(f.next, x);
      TopsInIds(f.kids);
      if y in Ids(f.next) { CutRow(f.next, p, x, y); }
      else if y in Ids(f.kids) && x in Row(f, y).kids { RowIsParent(f.kids, f.id, y, x); }
    }
  }

  lemma {:induction false} CutSub(f: Forest, x: Id, a: Id)
    requires Distinct(f) && x in Ids(f) && a in Ids(f) && a !in Ids(Sub(f, x))
    ensures a in Ids(Cut(f, x))
    ensures Sub(Cut(f, x), a) == Cut(Sub(f, a), x)
  {
    CutIds(f, x);
    SubProps(f, x);
    if f.id == x {
      SubProps(f.next, a);
      CutElsewhere(Sub(f.next, a), x);
    } else if x in Ids(f.kids) {
      SubProps(f.kids, x);
      CutIds(f.kids, x);
      CutElsewhere(f.next, x);
      if a in Ids(f.kids) {
        CutSub(f.kids, x, a);
      } else if a != f.id {
        SubProps(f.next, a);
        CutElsewhere(Sub(f.next, a), x);
      }
    } else {
      SubProps(f.next, x);
      CutIds(f.next, x);
      CutElsewhere(f.kids, x);
      if a in Ids(f.next) {
        CutSub(f.next, x, a);
      } else if a != f.id {
        SubProps(f.kids, a);
        CutElsewhere(Sub(f.kids, a), x);
      }
    }
  }

  // -------------------------------------------------------------- Splice

  lemma {:induction false} SpliceIds(f: Forest, at: nat, g: Forest)
    requires Single(g)
    ensures Ids(Splice(f, at, g)) == Ids(f) + Ids(g)
    ensures Tops(Splice(f, at, g)) == InsertAt(Tops(f), at, g.id)
  {
    if at != 0 && f.Node? {
      SpliceIds(f.next, at - 1, g);
      assert |Tops(f)| == 1 + |Tops(f.next)|;
      if at <= |Tops(f)| {
        assert Tops(f)[..at] == [f.id] + Tops(f.next)[..at - 1];
        assert Tops(f)[at..] == Tops(f.next)[at - 1..];
      }
    }
  }

  lemma {:induction false} SpliceDistinct(f: Forest, at: nat, g: Forest)
    requires Single(g) && Distinct(f) && Distinct(g) && Ids(f) !! Ids(g)
    ensures Distinct(Splice(f, at, g))
  {
    if at != 0 && f.Node? {
      SpliceDistinct(f.next, at - 1, g);
      SpliceIds(f.next, at - 1, g);
    }
  }

  lemma {:induction false} SpliceRow(f: Forest, p: Id, at: nat, g: Forest, y: Id)
    requires Single(g) && Distinct(f) && Distinct(g) && Ids(f) !! Ids(g)
    requires y in Ids(f) + Ids(g)
    ensures y in Ids(Splice(f, at, g))
    ensures Row(Splice(f, at, g), y) == if y in Ids(g) then Row(g, y) else Row(f, y)
    ensures Parent(Splice(f, at, g), p, y) == if y in Ids(g) then Parent(g, p, y) else Parent(f, p, y)
    ensures Sub(Splice(f, at, g), y) == if y in Ids(g) then Sub(g, y) else Sub(f, y)
  {
    SpliceIds(f, at, g);
    if at != 0 && f.Node? {
      SpliceIds(f.next, at - 1, g);
      if y in Ids(f.next) || y in Ids(g) {
        SpliceRow(f.next, p, at - 1, g, y);
      }
    }
  }

  lemma {:induction false} WithoutAt(s: seq<Id>, x: Id, i: nat)
    requires i < |s| && s[i] == x && x !in s[..i]
    ensures Without(s, x) == s[..i] + s[i + 1..]
  {
    if i > 0 {
      assert s[0] == s[..i][0];
      assert forall y :: y in s[1..][..i - 1] ==> y in s[..i];
      WithoutAt(s[1..], x, i - 1);
    }
  }

  // -------------------------------------------------------------- appending children

  function Append(f: Forest, g: Forest): Forest {
    if f.Nil? then g else f.(next := Append(f.next, g))
  }

  lemma {:induction false} AppendFacts(f: Forest, g: Forest, h: Forest)
    ensures Single(g) ==> Splice(f, Length(f), g) == Append(f, g)
    ensures Single(g) ==> Append(f, g.(next := h)) == Append(Append(f, g), h)
    ensures Append(f, Nil) == f
    ensures PreOrder(Append(f, g)) == PreOrder(f) + PreOrder(g)
  {
    if f.Node? {
      AppendFacts(f.next, g, h);
    }
  }

  /** Two `Put`s at one node: the later one wins. */
  lemma {:induction false} PutPut(f: Forest, x: Id, data: Data, k1: Forest, k2: Forest)
    requires Distinct(f) && x in Ids(f)
    ensures Put(Put(f, x, data, k1), x, data, k2) == Put(f, x, data, k2)
  {
    if f.id == x {
    } else if x in Ids(f.kids) {
      PutPut(f.kids, x, data, k1, k2);
      PutElsewhere(f.next, x, data, k1);
      PutElsewhere(f.next, x, data, k2);
    } else {
      PutPut(f.next, x, data, k1, k2);
      PutElsewhere(f.kids, x, data, k1);
      PutElsewhere(f.kids, x, data, k2);
    }
  }
}
