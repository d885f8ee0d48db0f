/** What one edit does to every part of the tree. */
module EditEffects {
  import opened Options
  import opened DocumentTrees
  import opened DataMerge
  import opened EditSemantics

  /** The child list of `q` after an edit that applies. */
  ghost function KidsAfter(d: Doc, e: Edit, draw: nat -> Id, q: Id): seq<Id>
    requires Endless(draw) && WellFormed(d) && !Cyclic(d, e) && q in Ids(d.tree)
  {
    var kids := Row(d.tree, q).kids;
    if !Applies(d, e) then kids
    else
      match e
      case Insert(p, inp, at) =>
        if q == p then InsertAt(kids, ClampIndex(at, |kids|), Build(inp, draw, d.draws, Ids(d.tree)).0.id) else kids
      case Update(_, _) => kids
      case Move(x, p, at) =>
        var rest := Without(kids, x);
        if q == p then InsertAt(rest, ClampIndex(at, |rest|), x) else rest
      case Remove(x) => Without(kids, x)
      case ReplaceChildren(x, _) =>
        if q == x then Tops(Created(d, e, draw).0) else kids
  }

  /** The row of every node that survives an edit: only an update changes data, nothing changes a type. */
  lemma {:induction false} StepRow(d: Doc, e: Edit, draw: nat -> Id, y: Id)
    requires Endless(draw) && WellFormed(d) && !Cyclic(d, e)
    requires y in Ids(d.tree) && y !in Dropped(d, e)
    ensures y in Ids(Step(d, e, draw).tree)
    ensures Row(Step(d, e, draw).tree, y) ==
            Rec(Row(d.tree, y).typ,
                if e.Update? && e.nodeId == y then Merge(Row(d.tree, y).data, e.patch) else Row(d.tree, y).data,
                KidsAfter(d, e, draw, y))
  {
    var t := d.tree;
    StepWellFormed(d, e, draw);
    if Applies(d, e) {
      match e
      case Insert(p, inp, at) =>
        StepInsert(d, p, inp, at, draw);
        SubProps(t, p);
        TopsInIds(Sub(t, p).kids);
        GraftRow(t, "", p, ClampIndex(at, Length(Sub(t, p).kids)), Build(inp, draw, d.draws, Ids(t)).0, y);
      case Update(x, patch) =>
        SubProps(t, x);
        PutRow(t, x, Merge(Sub(t, x).data, patch), Sub(t, x).kids, y);
        if y in Ids(Sub(t, x).kids) { SubKid(t, "", x, y); }
      case Move(x, p, at) =>
        MoveRow(d, x, p, at, draw, y);
      case Remove(x) =>
        CutRow(t, "", x, y);
      case ReplaceChildren(x, inp) =>
        StepReplace(d, x, inp, draw);
        SubProps(t, x);
        PutRow(t, x, Sub(t, x).data, Created(d, e, draw).0, y);
    }
  }

  /** The row of `y` after a move of `x` under `p`, cycle or not: unlink `x`, then link it under `p`. */
  function MovedRow(t: Forest, x: Id, p: Id, at: Option<int>, y: Id): Rec
    requires y in Ids(t)
  {
    var r := Row(t, y);
    var rest := Without(r.kids, x);
    if y == p then r.(kids := InsertAt(rest, ClampIndex(at, |rest|), x)) else r.(kids := rest)
  }

  lemma {:induction false} MoveRow(d: Doc, x: Id, p: Id, at: Option<int>, draw: nat -> Id, y: Id)
    requires Endless(draw) && WellFormed(d) && HasParent(d, x) && p in Ids(d.tree) && p !in Ids(Sub(d.tree, x))
    requires y in Ids(d.tree)
    ensures y in Ids(Step(d, Move(x, p, at), draw).tree)
    ensures Row(Step(d, Move(x, p, at), draw).tree, y) == MovedRow(d.tree, x, p, at, y)
  {
    var t, rest, s := d.tree, Cut(d.tree, x), Sub(d.tree, x);
    StepMove(d, x, p, at, draw);
    SubProps(t, x);
    CutIds(t, x);
    CutRow(t, "", x, p);
    SubProps(rest, p);
    TopsInIds(Sub(rest, p).kids);
    GraftRow(rest, "", p, ClampIndex(at, Length(Sub(rest, p).kids)), s, y);
    if y in Ids(s) {
      SubFlat(t, x);
      MovedKids(t, x, y);
    } else {
      CutRow(t, "", x, y);
    }
  }

  /** No node of the subtree at `x` lists `x`. */
  lemma {:induction false} MovedKids(t: Forest, x: Id, y: Id)
    requires Distinct(t) && x in Ids(t) && y in Ids(Sub(t, x))
    ensures y in Ids(t) && Without(Row(t, y).kids, x) == Row(t, y).kids
  {
    SubProps(t, x);
    SubFlat(t, x);
    RowKidsIn(Sub(t, x), y);
    if x in Row(t, y).kids {
      var other := y + "'";
      assert |other| != |y|;
      assert Parent(Sub(t, x), other, x) == other;
      RowIsParent(Sub(t, x), other, y, x);
    }
    WithoutAbsent(Row(t, y).kids, x);
  }

  /** The ids below `a` afterwards: those below it before, new ones, and a subtree moved in. */
  lemma {:induction false} StepBelow(d: Doc, e: Edit, draw: nat -> Id, a: Id)
    requires Endless(draw) && WellFormed(d) && !Cyclic(d, e)
    requires a in Ids(Step(d, e, draw).tree)
    ensures Ids(Sub(Step(d, e, draw).tree, a)) <=
            (if a in Ids(d.tree) && a !in Dropped(d, e) then Ids(Sub(d.tree, a)) else {})
            + Ids(Created(d, e, draw).0)
            + (if e.Move? && Applies(d, e) && Under(d.tree, a, e.parentId) then Ids(Sub(d.tree, e.nodeId)) else {})
  {
    var t := d.tree;
    StepWellFormed(d, e, draw);
    if Applies(d, e) {
      match e
      case Insert(p, inp, at) =>
        StepInsert(d, p, inp, at, draw);
        var g := Build(inp, draw, d.draws, Ids(t)).0;
        var pos := ClampIndex(at, Length(Sub(t, p).kids));
        GraftFacts(t, p, pos, g);
        GraftSub(t, p, pos, g, a);
        if a in Ids(g) { SubProps(g, a); }
        else if p in Ids(Sub(t, a)) { SubProps(t, a); GraftFacts(Sub(t, a), p, pos, g); }
      case Update(x, patch) =>
        var kids := Sub(t, x).kids;
        SubProps(t, x);
        PutSub(t, x, Merge(Sub(t, x).data, patch), kids, a);
        SubProps(t, a);
        if a in Ids(kids) { SubKid(t, "", x, a); }
        else if x in Ids(Sub(t, a)) { SubSub(t, a, x); SubProps(Sub(t, a), x); PutIds(Sub(t, a), x, Merge(Sub(t, x).data, patch), kids); }
        else { PutElsewhere(Sub(t, a), x, Merge(Sub(t, x).data, patch), kids); }
      case Move(x, p, at) =>
        MoveSub(d, x, p, at, draw, a);
      case Remove(x) =>
        CutIds(t, x);
        CutSub(t, x, a);
        CutBelow(t, x, a);
      case ReplaceChildren(x, inp) =>
        StepReplace(d, x, inp, draw);
        var g := Created(d, e, draw).0;
        SubProps(t, x);
        PutIds(t, x, Sub(t, x).data, g);
        PutSub(t, x, Sub(t, x).data, g, a);
        if a in Ids(g) { SubProps(g, a); }
        else {
          SubProps(t, a);
          if x in Ids(Sub(t, a)) { PutIds(Sub(t, a), x, Sub(t, x).data, g); }
          else { PutElsewhere(Sub(t, a), x, Sub(t, x).data, g); }
        }
    }
  }

  lemma {:induction false} CutBelow(t: Forest, x: Id, a: Id)
    requires Distinct(t) && a in Ids(t) && x in Ids(t)
    ensures Ids(Cut(Sub(t, a), x)) == if x in Ids(Sub(t, a)) then Ids(Sub(t, a)) - Ids(Sub(t, x)) else Ids(Sub(t, a))
  {
    SubProps(t, a);
    if x in Ids(Sub(t, a)) { SubSub(t, a, x); CutIds(Sub(t, a), x); } else { CutElsewhere(Sub(t, a), x); }
  }

  /** The subtree at `a` after a move, exactly. */
  lemma {:induction false} MoveSub(d: Doc, x: Id, p: Id, at: Option<int>, draw: nat -> Id, a: Id)
    requires Endless(draw) && WellFormed(d) && HasParent(d, x) && p in Ids(d.tree) && p !in Ids(Sub(d.tree, x))
    requires a in Ids(d.tree)
    ensures a in Ids(Step(d, Move(x, p, at), draw).tree)
    ensures Ids(Sub(Step(d, Move(x, p, at), draw).tree, a)) ==
            if a in Ids(Sub(d.tree, x)) then Ids(Sub(d.tree, a))
            else (Ids(Sub(d.tree, a)) - Ids(Sub(d.tree, x))) +
                 (if p in Ids(Sub(d.tree, a)) then Ids(Sub(d.tree, x)) else {})
    ensures a in Ids(Sub(d.tree, x)) || (x !in Ids(Sub(d.tree, a)) && p !in Ids(Sub(d.tree, a))) ==>
            Sub(Step(d, Move(x, p, at), draw).tree, a) == Sub(d.tree, a)
  {
    var t, rest, s := d.tree, Cut(d.tree, x), Sub(d.tree, x);
    StepMove(d, x, p, at, draw);
    SubProps(t, x);
    SubProps(t, a);
    CutIds(t, x);
    var pos := ClampIndex(at, Length(Sub(rest, p).kids));
    GraftSub(rest, p, pos, s, a);
    if a in Ids(s) {
      SubSub(t, x, a);
    } else {
      CutSub(t, x, a);
      CutBelow(t, x, a);
      if x !in Ids(Sub(t, a)) { CutElsewhere(Sub(t, a), x); Outside(t, x, a); }
      if p in Ids(Sub(rest, a)) {
        SubProps(rest, a);
        GraftFacts(Sub(rest, a), p, pos, s);
      }
    }
  }

  /** Nested or disjoint. */
  lemma {:induction false} Outside(t: Forest, x: Id, a: Id)
    requires Distinct(t) && x in Ids(t) && a in Ids(t)
    requires x !in Ids(Sub(t, a)) && a !in Ids(Sub(t, x))
    ensures Ids(Sub(t, x)) !! Ids(Sub(t, a))
  {
    SubProps(t, x);
    SubProps(t, a);
    if t.id != x && t.id != a {
      if x in Ids(t.kids) { SubProps(t.kids, x); } else { SubProps(t.next, x); }
      if a in Ids(t.kids) { SubProps(t.kids, a); } else { SubProps(t.next, a); }
      if x in Ids(t.kids) && a in Ids(t.kids) { Outside(t.kids, x, a); }
      else if x in Ids(t.next) && a in Ids(t.next) { Outside(t.next, x, a); }
    } else if t.id == x && t.id != a {
      if a in Ids(t.next) { SubProps(t.next, a); }
    } else if t.id == a && t.id != x {
      if x in Ids(t.next) { SubProps(t.next, x); }
    }
  }

  /** The nodes an edit reads or changes by id. */
  function Anchors(e: Edit): set<Id> {
    match e
    case Insert(p, _, _) => {p}
    case Update(x, _) => {x}
    case Move(x, p, _) => {x, p}
    case Remove(x) => {x}
    case ReplaceChildren(x, _) => {x}
  }

  /** A subtree that holds none of an edit's nodes, and is not dropped, stays as it is. */
  lemma {:induction false} StepUntouched(d: Doc, e: Edit, draw: nat -> Id, a: Id)
    requires Endless(draw) && WellFormed(d) && !Cyclic(d, e)
    requires a in Ids(d.tree) && a !in Dropped(d, e)
    requires Anchors(e) !! Ids(Sub(d.tree, a))
    ensures a in Ids(Step(d, e, draw).tree) && Sub(Step(d, e, draw).tree, a) == Sub(d.tree, a)
  {
    var t := d.tree;
    if Applies(d, e) {
      match e
      case Insert(p, inp, at) =>
        StepInsert(d, p, inp, at, draw);
        GraftSub(t, p, ClampIndex(at, Length(Sub(t, p).kids)), Build(inp, draw, d.draws, Ids(t)).0, a);
      case Update(x, patch) =>
        var kids := Sub(t, x).kids;
        SubProps(t, x);
        PutSub(t, x, Merge(Sub(t, x).data, patch), kids, a);
        if a in Ids(kids) { SubKid(t, "", x, a); }
        else { PutElsewhere(Sub(t, a), x, Merge(Sub(t, x).data, patch), kids); }
      case Move(x, p, at) =>
        MoveSub(d, x, p, at, draw, a);
      case Remove(x) =>
        CutSub(t, x, a);
        CutElsewhere(Sub(t, a), x);
      case ReplaceChildren(x, inp) =>
        StepReplace(d, x, inp, draw);
        var g := Created(d, e, draw).0;
        SubProps(t, x);
        PutSub(t, x, Sub(t, x).data, g, a);
        if a !in Ids(g) { PutElsewhere(Sub(t, a), x, Sub(t, x).data, g); }
    }
  }

  /** Ancestry among the survivors of an edit: only a move changes it, and only into the moved subtree. */
  lemma {:induction false} StepUnder(d: Doc, e: Edit, draw: nat -> Id, a: Id, y: Id)
    requires Endless(draw) && WellFormed(d) && !Cyclic(d, e)
    requires a in Ids(d.tree) && a !in Dropped(d, e)
    requires y in Ids(d.tree) && y !in Dropped(d, e)
    ensures Under(Step(d, e, draw).tree, a, y) <==>
            if e.Move? && Applies(d, e) && Under(d.tree, e.nodeId, y) && !Under(d.tree, e.nodeId, a)
            then Under(d.tree, a, e.parentId)
            else Under(d.tree, a, y)
  {
    var t := d.tree;
    StepWellFormed(d, e, draw);
    if Applies(d, e) {
      match e
      case Insert(p, inp, at) =>
        StepInsert(d, p, inp, at, draw);
        var g := Build(inp, draw, d.draws, Ids(t)).0;
        var pos := ClampIndex(at, Length(Sub(t, p).kids));
        GraftSub(t, p, pos, g, a);
        if p in Ids(Sub(t, a)) { SubProps(t, a); GraftFacts(Sub(t, a), p, pos, g); }
      case Update(x, patch) =>
        var kids := Sub(t, x).kids;
        SubProps(t, x);
        PutSub(t, x, Merge(Sub(t, x).data, patch), kids, a);
        SubProps(t, a);
        if a in Ids(kids) { SubKid(t, "", x, a); }
        else if x in Ids(Sub(t, a)) { SubSub(t, a, x); SubProps(Sub(t, a), x); PutIds(Sub(t, a), x, Merge(Sub(t, x).data, patch), kids); }
        else { PutElsewhere(Sub(t, a), x, Merge(Sub(t, x).data, patch), kids); }
      case Move(x, p, at) =>
        MoveSub(d, x, p, at, draw, a);
      case Remove(x) =>
        CutIds(t, x);
        CutSub(t, x, a);
        CutBelow(t, x, a);
      case ReplaceChildren(x, inp) =>
        StepReplace(d, x, inp, draw);
        var g := Created(d, e, draw).0;
        SubProps(t, x);
        PutSub(t, x, Sub(t, x).data, g, a);
        SubProps(t, a);
        if a in Ids(g) {
        } else if x in Ids(Sub(t, a)) { SubSub(t, a, x); PutIds(Sub(t, a), x, Sub(t, x).data, g); }
        else { PutElsewhere(Sub(t, a), x, Sub(t, x).data, g); }
    }
  }
}
