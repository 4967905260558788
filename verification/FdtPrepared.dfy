/**
  What a prepared overlay is good for: its phandles collide with none of the base, stay apart from
  each other, and every local reference still names the node it named.
  */
module FdtPrepared {
  import opened Options
  import opened FdtFormat
  import opened FdtModel
  import opened FdtWhole
  import opened FdtMergeMeaning
  import opened FdtPhandle
  import opened FdtLive
  import opened FdtApply

  /**
    The fixup node is about the node: no property is listed twice, no phandle is listed, and no two
    fixup children are about the same child, at any level.
    */
  ghost predicate Proper(t: Tree, f: Tree)
    decreases f
  {
    && UniqueProps(f.props) && !HasPhandle(f) && Separate(t.kids, f.kids)
    && forall i :: 0 <= i < |f.kids| && KidPos(t.kids, f.kids[i].name) < |t.kids| ==>
         Proper(t.kids[KidPos(t.kids, f.kids[i].name)], f.kids[i])
  }

  ghost predicate ProperFixups(t: Tree) {
    match Fixups(t) case None => true case Some(f) => Proper(t, f)
  }

  lemma {:induction false} ProperResolves(t: Tree, f: Tree)
    requires Proper(t, f)
    ensures Resolves(t, f)
    decreases f
  {
    forall i | 0 <= i < |f.kids| && KidPos(t.kids, f.kids[i].name) < |t.kids|
      ensures Resolves(t.kids[KidPos(t.kids, f.kids[i].name)], f.kids[i])
    {
      ProperResolves(t.kids[KidPos(t.kids, f.kids[i].name)], f.kids[i]);
    }
  }

  // ---------------------------------------------------------------------------------------
  // Shifting phandles leaves the fixups alone
  // ---------------------------------------------------------------------------------------

  /** The tree b is a with its phandles shifted. */
  ghost predicate Shifted(a: Tree, delta: nat, b: Tree) {
    AdjustNode(a, delta) == Ok(b)
  }

  lemma {:induction false} AdjustedNames(ks: seq<Tree>, delta: nat, ls: seq<Tree>)
    requires AdjustKids(ks, delta) == Ok(ls)
    ensures SameNames(ks, ls)
  {
    forall i | 0 <= i < |ks|
      ensures ks[i].name == ls[i].name
    {
      AdjustKidAt(ks, delta, i);
      AdjustHere(ks[i], delta, []);
    }
  }

  lemma {:induction false} ShiftedKids(a: Tree, delta: nat, b: Tree)
    requires Shifted(a, delta, b)
    ensures SameNames(a.kids, b.kids) && forall j :: 0 <= j < |a.kids| ==> Shifted(a.kids[j], delta, b.kids[j])
  {
    AdjustHere(a, delta, []);
    AdjustedNames(a.kids, delta, b.kids);
    forall j | 0 <= j < |a.kids|
      ensures Shifted(a.kids[j], delta, b.kids[j])
    {
      AdjustKidAt(a.kids, delta, j);
    }
  }

  lemma {:induction false} NothingShifted(a: Tree, delta: nat, b: Tree)
    requires Shifted(a, delta, b) && !HasPhandle(a)
    ensures b.props == a.props
  {
  }

  lemma {:induction false} ProperShifted(t: Tree, f: Tree, delta: nat, u: Tree, g: Tree)
    requires Proper(t, f) && Shifted(t, delta, u) && Shifted(f, delta, g)
    ensures Proper(u, g)
    decreases f
  {
    NothingShifted(f, delta, g);
    ShiftedKids(t, delta, u);
    ShiftedKids(f, delta, g);
    SamePlaces(t.kids, u.kids, f.kids, g.kids);
    forall i | 0 <= i < |g.kids| && KidPos(u.kids, g.kids[i].name) < |u.kids|
      ensures Proper(u.kids[KidPos(u.kids, g.kids[i].name)], g.kids[i])
    {
      var j := KidPos(t.kids, f.kids[i].name);
      ProperShifted(t.kids[j], f.kids[i], delta, u.kids[j], g.kids[i]);
    }
  }

  /** The same names are about the same children. */
  lemma {:induction false} SamePlaces(a: seq<Tree>, b: seq<Tree>, fs: seq<Tree>, gs: seq<Tree>)
    requires SameNames(a, b) && SameNames(fs, gs)
    ensures forall i :: 0 <= i < |fs| ==> KidPos(a, fs[i].name) == KidPos(b, gs[i].name)
  {
    forall i | 0 <= i < |fs|
      ensures KidPos(a, fs[i].name) == KidPos(b, gs[i].name)
    {
      SamePos(a, b, fs[i].name);
    }
  }

  lemma {:induction false} AboutNames(a: seq<Tree>, b: seq<Tree>, fs: seq<Tree>, gs: seq<Tree>, j: nat)
    requires SameNames(a, b) && SameNames(fs, gs)
    ensures About(a, fs, j) == About(b, gs, j)
    decreases |fs|
  {
    if fs != [] {
      SamePos(a, b, fs[0].name);
      assert fs[0].name == gs[0].name;
      AboutNames(a, b, fs[1..], gs[1..], j);
    }
  }

  /** The fixups for a node are the same before and after. */
  lemma {:induction false} RefsShifted(t: Tree, f: Tree, delta: nat, u: Tree, g: Tree, p: Path)
    requires Proper(t, f) && Shifted(t, delta, u) && Shifted(f, delta, g) && InTree(t, p)
    ensures InTree(u, p)
    ensures match RefsAt(t, f, p)
            case None => RefsAt(u, g, p) == None
            case Some(a) => !HasPhandle(a) && RefsAt(u, g, p).Some? && RefsAt(u, g, p).value.props == a.props
    decreases |p|
  {
    NothingShifted(f, delta, g);
    ShiftedKids(t, delta, u);
    ShiftedKids(f, delta, g);
    if p != [] {
      var j := p[0];
      var i := About(t.kids, f.kids, j);
      AboutNames(t.kids, u.kids, f.kids, g.kids, j);
      if i < |f.kids| {
        RefsShifted(t.kids[j], f.kids[i], delta, u.kids[j], g.kids[i], p[1..]);
      } else {
        Adjusted(t, delta, p, []);
      }
    }
  }

  // ---------------------------------------------------------------------------------------
  // The prepared overlay
  // ---------------------------------------------------------------------------------------

  /** Where the fixups are after phandles were shifted. */
  lemma {:induction false} FixupsShifted(over: Tree, delta: nat, t: Tree)
    requires Shifted(over, delta, t)
    ensures match Fixups(over)
            case None => Fixups(t) == None
            case Some(f) => Fixups(t).Some? && Shifted(f, delta, Fixups(t).value)
  {
    ShiftedKids(over, delta, t);
    SamePos(over.kids, t.kids, LOCAL_FIXUPS);
  }

  /** Shifting phandles changes no names. */
  lemma {:induction false} ShiftedShape(a: Tree, delta: nat, b: Tree)
    requires Shifted(a, delta, b)
    ensures Shape(a) == Shape(b)
    decreases a, 1
  {
    AdjustHere(a, delta, []);
    ShiftedShapes(a.kids, delta, b.kids);
  }

  lemma {:induction false} ShiftedShapes(ks: seq<Tree>, delta: nat, ls: seq<Tree>)
    requires AdjustKids(ks, delta) == Ok(ls)
    ensures Shapes(ks) == Shapes(ls)
    decreases ks, 0
  {
    if ks != [] {
      ShiftedShape(ks[0], delta, ls[0]);
      ShiftedShapes(ks[1..], delta, ls[1..]);
    }
  }

  lemma {:induction false} ShiftedAt(a: Tree, delta: nat, b: Tree, p: Path)
    requires Shifted(a, delta, b) && InTree(b, p)
    ensures InTree(a, p) && Shifted(TreeAt(a, p), delta, TreeAt(b, p))
    decreases |p|
  {
    ShiftedKids(a, delta, b);
    if p != [] {
      ShiftedAt(a.kids[p[0]], delta, b.kids[p[0]], p[1..]);
    }
  }

  /** Fixups are read in order before and after. */
  lemma {:induction false} InOrderShifted(over: Tree, delta: nat, t: Tree)
    requires InOrder(over) && Shifted(over, delta, t)
    ensures InOrder(t)
  {
    ScheduleShifted(over, delta, t);
    var vs := Schedule(t);
    forall a, b | 0 <= a < b < |vs| && Writes(t, vs[a]) && vs[b].Visit?
      ensures vs[a].p != vs[b].q
    {
      ShiftedAt(over, delta, t, vs[a].q);
      if TreeAt(over, vs[a].q).props == [] {
        NothingShifted(TreeAt(over, vs[a].q), delta, TreeAt(t, vs[a].q));
      }
      assert Writes(over, vs[a]);
    }
  }

  lemma {:induction false} ScheduleShifted(over: Tree, delta: nat, t: Tree)
    requires Shifted(over, delta, t)
    ensures Schedule(t) == Schedule(over)
  {
    ShiftedShape(over, delta, t);
    FixupsShifted(over, delta, t);
    SameShapes(over.kids, t.kids);
    SamePos(over.kids, t.kids, LOCAL_FIXUPS);
    match Fixups(over)
    case None =>
    case Some(f) =>
      var g := Fixups(t).value;
      ShiftedShape(f, delta, g);
      SameVisits(over, t, [], f, g, [KidPos(t.kids, LOCAL_FIXUPS)]);
  }

  lemma {:induction false} PhandleStays(a: Tree, g: Option<Tree>, delta: nat, b: Tree)
    requires UpdatedNode(a, g, delta, b) && (g.Some? ==> !HasPhandle(g.value))
    ensures Phandle(b) == Phandle(a)
  {
    assert Value(b.props, PHANDLE) == Value(a.props, PHANDLE);
    assert Value(b.props, LINUX_PHANDLE) == Value(a.props, LINUX_PHANDLE);
  }

  /** Everything about the two passes that the theorems need. */
  lemma {:induction false} Passes(base: Tree, over: Tree, rooms: Rooms, u: Tree) returns (t: Tree)
    requires Prepared(base, over, rooms) == Ok(u) && ProperFixups(over) && InOrder(over)
    ensures Shifted(over, MaxPhandle(base), t) && ShiftedTree(over, MaxPhandle(base), t)
    ensures match Fixups(over)
            case None => u == t
            case Some(f) =>
              && Proper(over, f)
              && Fixups(t).Some?
              && Shifted(f, MaxPhandle(base), Fixups(t).value)
              && UpdatedTree(t, Fixups(t).value, MaxPhandle(base), u)
  {
    var delta := MaxPhandle(base);
    t := AdjustNode(over, delta).value;
    AdjustMeans(over, delta);
    FixupsShifted(over, delta, t);
    InOrderShifted(over, delta, t);
    LiveReferences(t, delta, rooms);
    match Fixups(over)
    case None =>
    case Some(f) =>
      var g := Fixups(t).value;
      ProperShifted(over, f, delta, t, g);
      ProperResolves(t, g);
      FixMeans(t, g, delta);
  }

  /** The phandles of a prepared overlay. */
  lemma {:induction false} PreparedPhandle(base: Tree, over: Tree, rooms: Rooms, u: Tree, p: Path)
    requires Prepared(base, over, rooms) == Ok(u) && ProperFixups(over) && InOrder(over) && InTree(over, p)
    ensures InTree(u, p) && Phandle(TreeAt(u, p)) == if HasPhandle(TreeAt(over, p))
            then Phandle(TreeAt(over, p)) + MaxPhandle(base) else 0
  {
    var delta := MaxPhandle(base);
    var t := Passes(base, over, rooms, u);
    assert ShiftedNode(TreeAt(over, p), delta, TreeAt(t, p));
    if Fixups(over).Some? {
      var f, g := Fixups(over).value, Fixups(t).value;
      RefsShifted(over, f, delta, t, g, p);
      assert UpdatedNode(TreeAt(t, p), RefsAt(t, g, p), delta, TreeAt(u, p));
      PhandleStays(TreeAt(t, p), RefsAt(t, g, p), delta, TreeAt(u, p));
    }
  }

  /** No phandle of a prepared overlay is one of the base. */
  lemma {:induction false} PreparedApart(base: Tree, over: Tree, rooms: Rooms, u: Tree, p: Path, q: Path)
    requires Prepared(base, over, rooms) == Ok(u) && ProperFixups(over) && InOrder(over) && Numbered(over)
    requires InTree(over, p) && InTree(base, q) && HasPhandle(TreeAt(over, p))
    ensures InTree(u, p) && Phandle(TreeAt(u, p)) != Phandle(TreeAt(base, q))
  {
    PreparedPhandle(base, over, rooms, u, p);
    MaxBounds(base, q);
    assert Phandle(TreeAt(over, p)) >= 1;
  }

  /** Nodes with different phandles still have different phandles. */
  lemma {:induction false} PreparedDistinct(base: Tree, over: Tree, rooms: Rooms, u: Tree, p: Path, q: Path)
    requires Prepared(base, over, rooms) == Ok(u) && ProperFixups(over) && InOrder(over) && Numbered(over)
    requires InTree(over, p) && InTree(over, q) && Phandle(TreeAt(over, p)) != Phandle(TreeAt(over, q))
    ensures InTree(u, p) && InTree(u, q) && Phandle(TreeAt(u, p)) != Phandle(TreeAt(u, q))
  {
    PreparedPhandle(base, over, rooms, u, p);
    PreparedPhandle(base, over, rooms, u, q);
    Adjusted(over, MaxPhandle(base), p, []);
    Adjusted(over, MaxPhandle(base), q, []);
    assert HasPhandle(TreeAt(over, p)) ==> Phandle(TreeAt(over, p)) >= 1;
    assert HasPhandle(TreeAt(over, q)) ==> Phandle(TreeAt(over, q)) >= 1;
  }

  /** The word at offset x of a property of the node at path p is the phandle of the node at path target. */
  predicate Names(t: Tree, p: Path, name: Bytes, x: nat, target: Path) {
    && InTree(t, p) && InTree(t, target)
    && match Value(TreeAt(t, p).props, name)
       case None => false
       case Some(v) => x + 4 <= |v| && Word(v, x) == Phandle(TreeAt(t, target))
  }

  /** A reference that the local fixups list once still names the same node in the prepared overlay. */
  lemma {:induction false} PreparedReference(base: Tree, over: Tree, rooms: Rooms, u: Tree, p: Path, name: Bytes,
                                             x: nat,
                                             target: Path)
    requires Prepared(base, over, rooms) == Ok(u) && Fixups(over).Some? && ProperFixups(over) && InOrder(over)
             && name != PHANDLE && name != LINUX_PHANDLE
    requires Names(over, p, name, x, target) && HasPhandle(TreeAt(over, target))
    requires var g := RefsAt(over, Fixups(over).value, p); g.Some? && ListedOnce(g.value, name, x)
    ensures Names(u, p, name, x, target)
  {
    var delta := MaxPhandle(base);
    var t := Passes(base, over, rooms, u);
    var f, g := Fixups(over).value, Fixups(t).value;
    RefsShifted(over, f, delta, t, g, p);
    ReferenceKept(over, delta, t, g, u, p, target, name, Value(TreeAt(over, p).props, name).value, x);
    PreparedPhandle(base, over, rooms, u, target);
    assert ShiftedNode(TreeAt(over, target), delta, TreeAt(t, target));
  }

  // ---------------------------------------------------------------------------------------
  // Nothing goes astray
  // ---------------------------------------------------------------------------------------

  /** Shifting phandles writes no word outside its property. */
  lemma {:induction false} AdjustNeverAstray(t: Tree, delta: nat)
    ensures AdjustNode(t, delta) != Err(Astray)
    decreases t, 1
  {
    KidsNeverAstray(t.kids, delta);
  }

  lemma {:induction false} KidsNeverAstray(ks: seq<Tree>, delta: nat)
    ensures AdjustKids(ks, delta) != Err(Astray)
    decreases ks, 0
  {
    if ks != [] {
      AdjustNeverAstray(ks[0], delta);
      KidsNeverAstray(ks[1..], delta);
    }
  }

  /** No fixup node that is read has a phandle. */
  predicate Unnumbered(t: Tree, vs: seq<Visit>) {
    forall b :: 0 <= b < |vs| && vs[b].Visit? && InTree(t, vs[b].q) ==> !HasPhandle(TreeAt(t, vs[b].q))
  }

  /** Then shifting phandles does not change what they list. */
  lemma {:induction false} WithinShifted(over: Tree, delta: nat, t: Tree, vs: seq<Visit>, rooms: Rooms)
    requires Shifted(over, delta, t) && Unnumbered(over, vs) && VisitsWithin(over, vs, rooms)
    ensures VisitsWithin(t, vs, rooms)
  {
    forall b | 0 <= b < |vs| && vs[b].Visit? && InTree(t, vs[b].q)
      ensures PropsWithin(TreeAt(t, vs[b].q).props, vs[b].p, rooms)
    {
      ShiftedAt(over, delta, t, vs[b].q);
      NothingShifted(TreeAt(over, vs[b].q), delta, TreeAt(t, vs[b].q));
    }
  }

  /** If every listed word lies inside the buffer, preparing the overlay reads and writes nowhere else. */
  lemma {:induction false} PreparedStays(base: Tree, over: Tree, rooms: Rooms)
    requires InOrder(over) && Unnumbered(over, Schedule(over)) && VisitsWithin(over, Schedule(over), rooms)
             && Small(rooms)
    ensures Prepared(base, over, rooms) != Err(Astray)
  {
    var delta := MaxPhandle(base);
    AdjustNeverAstray(over, delta);
    match AdjustNode(over, delta)
    case Err(_) =>
    case Ok(t) =>
      InOrderShifted(over, delta, t);
      ScheduleShifted(over, delta, t);
      WithinShifted(over, delta, t, Schedule(over), rooms);
      LiveStays(t, t, Schedule(t), delta, rooms);
  }
}
