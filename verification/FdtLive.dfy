/**
  Shifting local references while tree and fixups lie in the same blob: each fixup node is read when
  its turn comes, after everything that was written before. The nodes are visited in an order that
  names alone decide. As long as no fixup node is read after it was written to, the result is what
  the fixups say at the start.
  */
module FdtLive {
  import opened Options
  import opened FdtFormat
  import opened FdtRead
  import opened FdtModel
  import opened FdtWhole
  import opened FdtMergeMeaning
  import opened FdtPhandle

  /** "__local_fixups__". */
  const LOCAL_FIXUPS: Bytes :=
    [0x5f, 0x5f, 0x6c, 0x6f, 0x63, 0x61, 0x6c, 0x5f, 0x66, 0x69, 0x78, 0x75, 0x70, 0x73, 0x5f, 0x5f]

  // ---------------------------------------------------------------------------------------
  // Names without properties
  // ---------------------------------------------------------------------------------------

  /** The names of a tree. */
  function Shape(t: Tree): Tree
    decreases t, 1
  {
    Tree(t.name, [], Shapes(t.kids))
  }

  function Shapes(ks: seq<Tree>): (r: seq<Tree>)
    ensures |r| == |ks|
    decreases ks, 0
  {
    if ks == [] then [] else [Shape(ks[0])] + Shapes(ks[1..])
  }

  lemma {:induction false} ShapesAt(ks: seq<Tree>, j: nat)
    requires j < |ks|
    ensures Shapes(ks)[j] == Shape(ks[j])
  {
    if j > 0 {
      ShapesAt(ks[1..], j - 1);
    }
  }

  lemma {:induction false} ShapesAll(ks: seq<Tree>)
    ensures forall j :: 0 <= j < |ks| ==> Shapes(ks)[j] == Shape(ks[j])
  {
    forall j | 0 <= j < |ks|
      ensures Shapes(ks)[j] == Shape(ks[j])
    {
      ShapesAt(ks, j);
    }
  }

  /** Lists of one shape: equal lengths, equal names, and so on below. */
  lemma {:induction false} SameShapes(a: seq<Tree>, b: seq<Tree>)
    requires Shapes(a) == Shapes(b)
    ensures |a| == |b| && SameNames(a, b) && forall j :: 0 <= j < |a| ==> Shape(a[j]) == Shape(b[j])
  {
    ShapesAll(a);
    ShapesAll(b);
    assert |a| == |Shapes(a)| == |b|;
    forall j | 0 <= j < |a|
      ensures Shape(a[j]) == Shape(b[j]) && a[j].name == b[j].name
    {
      assert Shapes(a)[j] == Shapes(b)[j];
      assert Shape(a[j]).name == a[j].name && Shape(b[j]).name == b[j].name;
    }
  }

  lemma {:induction false} ShapesUpdate(ks: seq<Tree>, j: nat, k: Tree)
    requires j < |ks| && Shape(k) == Shape(ks[j])
    ensures Shapes(ks[j := k]) == Shapes(ks)
  {
    ShapesAll(ks);
    ShapesAll(ks[j := k]);
    var a, b := Shapes(ks), Shapes(ks[j := k]);
    forall i | 0 <= i < |ks|
      ensures a[i] == b[i]
    {
      assert b[i] == Shape(ks[j := k][i]);
    }
  }

  /** Trees of one shape have the same paths, with nodes of one shape there. */
  lemma {:induction false} ShapeAt(a: Tree, b: Tree, p: Path)
    requires Shape(a) == Shape(b) && InTree(a, p)
    ensures InTree(b, p) && Shape(TreeAt(a, p)) == Shape(TreeAt(b, p))
    decreases |p|
  {
    if p != [] {
      SameShapes(a.kids, b.kids);
      ShapeAt(a.kids[p[0]], b.kids[p[0]], p[1..]);
    }
  }

  lemma {:induction false} ShapeReplaced(t: Tree, p: Path, u: Tree)
    requires InTree(t, p) && Shape(TreeAt(t, p)) == Shape(u)
    ensures Shape(Replaced(t, p, u)) == Shape(t)
    decreases |p|
  {
    if p != [] {
      ShapeReplaced(t.kids[p[0]], p[1..], u);
      ShapesUpdate(t.kids, p[0], Replaced(t.kids[p[0]], p[1..], u));
    }
  }

  // ---------------------------------------------------------------------------------------
  // The order of visits
  // ---------------------------------------------------------------------------------------

  /** The properties of the fixup node at path q are applied to the node at path p; or there is no such node. */
  datatype Visit = Visit(p: Path, q: Path) | Lost

  /** The visits below node n at path p with fixup node f at path q. */
  function Visits(n: Tree, p: Path, f: Tree, q: Path): seq<Visit>
    decreases f, 1
  {
    [Visit(p, q)] + VisitKids(n, p, f.kids, q, 0)
  }

  /** The same for fixup children fs, numbered from i on. */
  function VisitKids(n: Tree, p: Path, fs: seq<Tree>, q: Path, i: nat): seq<Visit>
    decreases fs, 0
  {
    if fs == [] then []
    else VisitKid(n, p, fs[0], q, i) + VisitKids(n, p, fs[1..], q, i + 1)
  }

  function VisitKid(n: Tree, p: Path, f: Tree, q: Path, i: nat): seq<Visit>
    decreases f, 2
  {
    var j := KidPos(n.kids, f.name);
    if j == |n.kids| then [Lost] else Visits(n.kids[j], p + [j], f, q + [i])
  }

  /** Names alone decide the visits. */
  lemma {:induction false} SameVisits(n: Tree, m: Tree, p: Path, f: Tree, g: Tree, q: Path)
    requires Shape(n) == Shape(m) && Shape(f) == Shape(g)
    ensures Visits(n, p, f, q) == Visits(m, p, g, q)
    decreases f, 1
  {
    SameVisitKids(n, m, p, f.kids, g.kids, q, 0);
  }

  lemma {:induction false} SameVisitKids(n: Tree, m: Tree, p: Path, fs: seq<Tree>, gs: seq<Tree>, q: Path, i: nat)
    requires Shape(n) == Shape(m) && Shapes(fs) == Shapes(gs)
    ensures VisitKids(n, p, fs, q, i) == VisitKids(m, p, gs, q, i)
    decreases fs, 0
  {
    SameShapes(fs, gs);
    if fs != [] {
      SameVisitKid(n, m, p, fs[0], gs[0], q, i);
      assert Shapes(fs)[1..] == Shapes(fs[1..]) && Shapes(gs)[1..] == Shapes(gs[1..]);
      SameVisitKids(n, m, p, fs[1..], gs[1..], q, i + 1);
    }
  }

  lemma {:induction false} SameVisitKid(n: Tree, m: Tree, p: Path, f: Tree, g: Tree, q: Path, i: nat)
    requires Shape(n) == Shape(m) && Shape(f) == Shape(g)
    ensures VisitKid(n, p, f, q, i) == VisitKid(m, p, g, q, i)
    decreases f, 2
  {
    assert Shape(f).name == f.name && Shape(g).name == g.name;
    SameShapes(n.kids, m.kids);
    SamePos(n.kids, m.kids, f.name);
    var j := KidPos(n.kids, f.name);
    if j < |n.kids| {
      SameVisits(n.kids[j], m.kids[j], p + [j], f, g, q + [i]);
    }
  }

  // ---------------------------------------------------------------------------------------
  // Listed offsets that are not inside the value
  // ---------------------------------------------------------------------------------------

  /** How many bytes lie between the start of a property's value and the end of the buffer, by node and name. */
  type Rooms = (Path, Bytes) -> nat

  /**
    What the first listed offset that is not inside the value leads to. The word there is read
    before the offset is tested, and the read or the write may leave the buffer.
    */
  function ShiftError(size: nat, room: nat, offs: seq<nat>): Error
    decreases |offs|
  {
    if offs == [] then BadOverlay
    else if offs[0] + 4 > room then Astray
    else if offs[0] + 4 <= size then ShiftError(size, room, offs[1..])
    else if HasRoom(size, offs[0], 4) then Astray else BadOverlay
  }

  /** For all sizes and offsets: it leaves the buffer exactly when it is too large for the buffer. */
  lemma {:induction false} AstrayExactly(size: nat, room: nat, offs: seq<nat>)
    requires size <= room < LIMIT31
    ensures ShiftError(size, room, offs) == Astray <==>
            exists i :: 0 <= i < |offs| && offs[i] + 4 > room && forall k :: 0 <= k < i ==> offs[k] + 4 <= size
    decreases |offs|
  {
    if offs != [] && offs[0] + 4 <= room {
      assert (offs[0] + 4) % LIMIT32 == offs[0] + 4;
      if offs[0] + 4 <= size {
        var rest := offs[1..];
        AstrayExactly(size, room, rest);
        if i :| 0 <= i < |rest| && rest[i] + 4 > room && forall k :: 0 <= k < i ==> rest[k] + 4 <= size {
          assert offs[i + 1] == rest[i];
          assert forall k :: 1 <= k < i + 1 ==> offs[k] == rest[k - 1];
        }
        if i :| 0 <= i < |offs| && offs[i] + 4 > room && forall k :: 0 <= k < i ==> offs[k] + 4 <= size {
          assert rest[i - 1] == offs[i];
          assert forall k :: 0 <= k < i - 1 ==> rest[k] == offs[k + 1];
        }
      }
    }
  }

  /** An offset of 1 GiB, in any smaller buffer: the value is read beyond the buffer, whatever the test says later. */
  lemma {:induction false} FarOffsetGoesAstray(size: nat, room: nat)
    requires size <= room < 0x4000_0000
    ensures ShiftError(size, room, [0x4000_0000]) == Astray && !HasRoom(size, 0x4000_0000, 4)
  {
  }

  /** The error that shifting the properties of the node at path p ends in, when it ends in one. */
  function PropsError(t: Tree, props: seq<Property>, delta: nat, p: Path, rooms: Rooms): Error
    decreases |props|
  {
    if props == [] || |props[0].val| % 4 != 0 then BadOverlay
    else
      match Value(t.props, props[0].name)
      case None => BadOverlay
      case Some(v) =>
        match ShiftAll(v, Listed(props[0].val), delta)
        case None => ShiftError(|v|, rooms(p, props[0].name), Listed(props[0].val))
        case Some(w) => PropsError(FdtModel.SetProp(t, props[0].name, w), props[1..], delta, p, rooms)
  }

  // ---------------------------------------------------------------------------------------
  // Reading when the turn comes
  // ---------------------------------------------------------------------------------------

  /** Properties of the node at path p are shifted as listed; an error is the one that the code meets first. */
  function LiveProps(t: Tree, props: seq<Property>, delta: nat, p: Path, rooms: Rooms): Result<Tree> {
    match FixProps(t, props, delta)
    case Err(_) => Err(PropsError(t, props, delta, p, rooms))
    case Ok(u) => Ok(u)
  }

  /** One visit: the fixups are read from the tree as it is then. */
  function LiveStep(t: Tree, v: Visit, delta: nat, rooms: Rooms): Result<Tree> {
    match v
    case Lost => Err(BadOverlay)
    case Visit(p, q) =>
      if !InTree(t, p) || !InTree(t, q) then Err(BadOverlay)
      else
        match LiveProps(TreeAt(t, p), TreeAt(t, q).props, delta, p, rooms)
        case Err(e) => Err(e)
        case Ok(u) => Ok(Replaced(t, p, u))
  }

  function Live(t: Tree, vs: seq<Visit>, delta: nat, rooms: Rooms): Result<Tree>
    decreases |vs|
  {
    if vs == [] then Ok(t)
    else
      match LiveStep(t, vs[0], delta, rooms)
      case Err(e) => Err(e)
      case Ok(u) => Live(u, vs[1..], delta, rooms)
  }

  function Then(r: Result<Tree>, vs: seq<Visit>, delta: nat, rooms: Rooms): Result<Tree> {
    match r case Err(e) => Err(e) case Ok(u) => Live(u, vs, delta, rooms)
  }

  lemma {:induction false} LiveAppend(t: Tree, a: seq<Visit>, b: seq<Visit>, delta: nat, rooms: Rooms)
    ensures Live(t, a + b, delta, rooms) == Then(Live(t, a, delta, rooms), b, delta, rooms)
    decreases |a|
  {
    if a == [] {
      assert a + b == b;
    } else {
      assert (a + b)[0] == a[0] && (a + b)[1..] == a[1..] + b;
      match LiveStep(t, a[0], delta, rooms)
      case Err(_) =>
      case Ok(u) => LiveAppend(u, a[1..], b, delta, rooms);
    }
  }

  lemma {:induction false} LiveFirst(t: Tree, v: Visit, vs: seq<Visit>, delta: nat, rooms: Rooms)
    ensures Live(t, [v] + vs, delta, rooms) == Then(LiveStep(t, v, delta, rooms), vs, delta, rooms)
  {
    assert ([v] + vs)[1..] == vs;
  }

  // ---------------------------------------------------------------------------------------
  // Reading at the start
  // ---------------------------------------------------------------------------------------

  /** The same visits with the fixups as they are in the tree t0. */
  function FrozenStep(t: Tree, v: Visit, t0: Tree, delta: nat): Result<Tree> {
    match v
    case Lost => Err(BadOverlay)
    case Visit(p, q) =>
      if !InTree(t, p) || !InTree(t0, q) then Err(BadOverlay)
      else
        match FixProps(TreeAt(t, p), TreeAt(t0, q).props, delta)
        case Err(e) => Err(e)
        case Ok(u) => Ok(Replaced(t, p, u))
  }

  function Frozen(t: Tree, vs: seq<Visit>, t0: Tree, delta: nat): Result<Tree>
    decreases |vs|
  {
    if vs == [] then Ok(t)
    else
      match FrozenStep(t, vs[0], t0, delta)
      case Err(e) => Err(e)
      case Ok(u) => Frozen(u, vs[1..], t0, delta)
  }

  lemma {:induction false} FrozenAppend(t: Tree, a: seq<Visit>, b: seq<Visit>, t0: Tree, delta: nat)
    ensures Frozen(t, a + b, t0, delta) == match Frozen(t, a, t0, delta) case Err(e) => Err(e) case Ok(u) => Frozen(u,
            b, t0, delta)
    decreases |a|
  {
    if a == [] {
      assert a + b == b;
    } else {
      assert (a + b)[0] == a[0] && (a + b)[1..] == a[1..] + b;
      match FrozenStep(t, a[0], t0, delta)
      case Err(_) =>
      case Ok(u) => FrozenAppend(u, a[1..], b, t0, delta);
    }
  }

  /** A node put at a path of the tree, or the error. */
  function Lifted(t: Tree, p: Path, r: Result<Tree>): Result<Tree>
    requires InTree(t, p)
  {
    match r case Err(e) => Err(e) case Ok(u) => Ok(Replaced(t, p, u))
  }

  lemma {:induction false} ReplacedAt(t: Tree, p: Path, u: Tree)
    requires InTree(t, p)
    ensures InTree(Replaced(t, p, u), p) && TreeAt(Replaced(t, p, u), p) == u
    decreases |p|
  {
    if p != [] {
      ReplacedAt(t.kids[p[0]], p[1..], u);
    }
  }

  lemma {:induction false} ReplacedTwice(t: Tree, p: Path, a: Tree, b: Tree)
    requires InTree(t, p)
    ensures InTree(Replaced(t, p, a), p) && Replaced(Replaced(t, p, a), p, b) == Replaced(t, p, b)
    decreases |p|
  {
    if p != [] {
      ReplacedTwice(t.kids[p[0]], p[1..], a, b);
    }
  }

  lemma {:induction false} ReplacedSame(t: Tree, p: Path)
    requires InTree(t, p)
    ensures Replaced(t, p, TreeAt(t, p)) == t
    decreases |p|
  {
    if p != [] {
      ReplacedSame(t.kids[p[0]], p[1..]);
      assert t.kids[p[0] := t.kids[p[0]]] == t.kids;
    }
  }

  lemma {:induction false} ReplacedSnoc(t: Tree, p: Path, j: nat, k: Tree)
    requires InTree(t, p) && j < |TreeAt(t, p).kids|
    ensures InTree(t, p + [j]) && TreeAt(t, p + [j]) == TreeAt(t, p).kids[j]
    ensures Replaced(t, p + [j], k) == Replaced(t, p, TreeAt(t, p).(kids := TreeAt(t, p).kids[j := k]))
    decreases |p|
  {
    var q := p + [j];
    if p == [] {
      assert q[1..] == [];
    } else {
      assert q[1..] == p[1..] + [j];
      ReplacedSnoc(t.kids[p[0]], p[1..], j, k);
    }
  }

  lemma {:induction false} FixPropsShape(t: Tree, props: seq<Property>, delta: nat)
    requires FixProps(t, props, delta).Ok?
    ensures FixProps(t, props, delta).value.name == t.name && FixProps(t, props, delta).value.kids == t.kids
    decreases |props|
  {
    FixPropsName(t, props, delta);
  }

  lemma {:induction false} FixShape(t: Tree, f: Tree, delta: nat)
    requires FixNode(t, f, delta).Ok?
    ensures Shape(FixNode(t, f, delta).value) == Shape(t)
    decreases f, 1
  {
    FixPropsShape(t, f.props, delta);
    FixKidsShape(FixProps(t, f.props, delta).value, f.kids, delta);
  }

  lemma {:induction false} FixKidsShape(t: Tree, fs: seq<Tree>, delta: nat)
    requires FixKids(t, fs, delta).Ok?
    ensures Shape(FixKids(t, fs, delta).value) == Shape(t)
    decreases fs, 0
  {
    if fs != [] {
      var j := KidPos(t.kids, fs[0].name);
      FixShape(t.kids[j], fs[0], delta);
      var k := FixNode(t.kids[j], fs[0], delta).value;
      ShapesUpdate(t.kids, j, k);
      FixKidsShape(t.(kids := t.kids[j := k]), fs[1..], delta);
    }
  }

  /** With the fixups of the start, the visits make of a node what FixNode makes of it. */
  lemma {:induction false} FrozenNode(t: Tree, t0: Tree, p: Path, q: Path, n: Tree, f: Tree, delta: nat)
    requires InTree(t, p) && TreeAt(t, p) == n && InTree(t0, q) && TreeAt(t0, q) == f
    ensures Frozen(t, Visits(n, p, f, q), t0, delta) == Lifted(t, p, FixNode(n, f, delta))
    decreases f, 1
  {
    var rest := VisitKids(n, p, f.kids, q, 0);
    assert ([Visit(p, q)] + rest)[1..] == rest;
    match FixProps(n, f.props, delta)
    case Err(_) =>
    case Ok(u) =>
      FixPropsShape(n, f.props, delta);
      var t1 := Replaced(t, p, u);
      ReplacedAt(t, p, u);
      assert f.kids[0..] == f.kids;
      FrozenKids(t1, t0, p, q, n, u, f.kids, 0, f, delta);
      var r := FixKids(u, f.kids, delta);
      if r.Ok? {
        ReplacedTwice(t, p, u, r.value);
      }
  }

  lemma {:induction false} FrozenKids(t: Tree, t0: Tree, p: Path, q: Path, n: Tree, u: Tree, fs: seq<Tree>, i: nat,
                                      f: Tree, delta: nat)
    requires InTree(t, p) && TreeAt(t, p) == u && Shapes(u.kids) == Shapes(n.kids)
    requires InTree(t0, q) && TreeAt(t0, q) == f && i <= |f.kids| && fs == f.kids[i..]
    ensures Frozen(t, VisitKids(n, p, fs, q, i), t0, delta) == Lifted(t, p, FixKids(u, fs, delta))
    decreases fs, 0
  {
    if fs == [] {
      ReplacedSame(t, p);
    } else {
      FrozenKid(t, t0, p, q, n, u, fs[0], i, f, delta);
      var a, b := VisitKid(n, p, fs[0], q, i), VisitKids(n, p, fs[1..], q, i + 1);
      FrozenAppend(t, a, b, t0, delta);
      var j := KidPos(u.kids, fs[0].name);
      if j < |u.kids| {
        var r := FixNode(u.kids[j], fs[0], delta);
        if r.Ok? {
          var w := u.(kids := u.kids[j := r.value]);
          FixShape(u.kids[j], fs[0], delta);
          ShapesUpdate(u.kids, j, r.value);
          ReplacedAt(t, p, w);
          FrozenKids(Replaced(t, p, w), t0, p, q, n, w, fs[1..], i + 1, f, delta);
          var z := FixKids(w, fs[1..], delta);
          if z.Ok? {
            ReplacedTwice(t, p, w, z.value);
          }
        }
      }
    }
  }

  /** What one fixup child makes of the node around its target. */
  function FixChild(t: Tree, f: Tree, delta: nat): Result<Tree> {
    var j := KidPos(t.kids, f.name);
    if j == |t.kids| then Err(BadOverlay)
    else
      match FixNode(t.kids[j], f, delta)
      case Err(e) => Err(e)
      case Ok(k) => Ok(t.(kids := t.kids[j := k]))
  }

  lemma {:induction false} FrozenKid(t: Tree, t0: Tree, p: Path, q: Path, n: Tree, u: Tree, f0: Tree, i: nat, f: Tree,
                                     delta: nat)
    requires InTree(t, p) && TreeAt(t, p) == u && Shapes(u.kids) == Shapes(n.kids)
    requires InTree(t0, q) && TreeAt(t0, q) == f && i < |f.kids| && f0 == f.kids[i]
    ensures Frozen(t, VisitKid(n, p, f0, q, i), t0, delta) == Lifted(t, p, FixChild(u, f0, delta))
    decreases f0, 2
  {
    SameShapes(u.kids, n.kids);
    SamePos(u.kids, n.kids, f0.name);
    var j := KidPos(u.kids, f0.name);
    if j < |u.kids| {
      var r := FixNode(u.kids[j], f0, delta);
      SameVisits(u.kids[j], n.kids[j], p + [j], f0, f0, q + [i]);
      ReplacedSnoc(t, p, j, if r.Ok? then r.value else u);
      ReplacedSnoc(t0, q, i, f0);
      FrozenNode(t, t0, p + [j], q + [i], u.kids[j], f0, delta);
    } else {
      assert [Lost][1..] == [];
    }
  }

  // ---------------------------------------------------------------------------------------
  // When both agree
  // ---------------------------------------------------------------------------------------

  /** Does the visit write anything? */
  predicate Writes(t: Tree, v: Visit) {
    v.Visit? && InTree(t, v.q) && TreeAt(t, v.q).props != []
  }

  /** No fixup node is read after it was written to. */
  predicate ReadFirst(t: Tree, vs: seq<Visit>) {
    forall a, b :: 0 <= a < b < |vs| && Writes(t, vs[a]) && vs[b].Visit? ==> vs[a].p != vs[b].q
  }

  /** Setting properties of a node leaves the properties of all other nodes alone. */
  lemma {:induction false} OthersStay(t: Tree, p: Path, u: Tree, q: Path)
    requires InTree(t, p) && u.kids == TreeAt(t, p).kids && q != p
    ensures InTree(Replaced(t, p, u), q) <==> InTree(t, q)
    ensures InTree(t, q) ==> TreeAt(Replaced(t, p, u), q).props == TreeAt(t, q).props
    decreases |p|
  {
    if p != [] && q != [] && q[0] == p[0] {
      assert q == [q[0]] + q[1..] && p == [p[0]] + p[1..];
      OthersStay(t.kids[p[0]], p[1..], u, q[1..]);
    }
  }

  /** The fixups that are still to be read are those of t0. */
  ghost predicate Agrees(t: Tree, t0: Tree, vs: seq<Visit>) {
    forall b :: 0 <= b < |vs| && vs[b].Visit? ==>
      (InTree(t, vs[b].q) <==> InTree(t0, vs[b].q)) && (InTree(t, vs[b].q) ==>
        TreeAt(t, vs[b].q).props == TreeAt(t0, vs[b].q).props)
  }

  lemma {:induction false} StillAgrees(t: Tree, t0: Tree, vs: seq<Visit>, u: Tree, delta: nat, rooms: Rooms)
    requires Agrees(t, t0, vs) && ReadFirst(t0, vs) && vs != [] && LiveStep(t, vs[0], delta, rooms) == Ok(u)
    ensures Agrees(u, t0, vs[1..]) && ReadFirst(t0, vs[1..])
  {
    var p, q := vs[0].p, vs[0].q;
    var w := FixProps(TreeAt(t, p), TreeAt(t, q).props, delta).value;
    FixPropsShape(TreeAt(t, p), TreeAt(t, q).props, delta);
    if TreeAt(t, q).props == [] {
      ReplacedSame(t, p);
    }
    forall b | 0 <= b < |vs[1..]| && vs[1..][b].Visit?
      ensures InTree(u, vs[1..][b].q) <==> InTree(t0, vs[1..][b].q)
      ensures InTree(u, vs[1..][b].q) ==> TreeAt(u, vs[1..][b].q).props == TreeAt(t0, vs[1..][b].q).props
    {
      assert vs[b + 1] == vs[1..][b];
      if TreeAt(t, q).props != [] {
        assert Writes(t0, vs[0]);
        OthersStay(t, p, w, vs[b + 1].q);
      }
    }
  }

  /** Both succeed with the same tree, or both fail. */
  predicate Alike(a: Result<Tree>, b: Result<Tree>) {
    (a.Ok? || b.Ok?) ==> a == b
  }

  lemma {:induction false} LiveIsFrozen(t: Tree, t0: Tree, vs: seq<Visit>, delta: nat, rooms: Rooms)
    requires Agrees(t, t0, vs) && ReadFirst(t0, vs)
    ensures Alike(Live(t, vs, delta, rooms), Frozen(t, vs, t0, delta))
    decreases |vs|
  {
    if vs != [] {
      match LiveStep(t, vs[0], delta, rooms)
      case Err(_) =>
      case Ok(u) =>
        StillAgrees(t, t0, vs, u, delta, rooms);
        LiveIsFrozen(u, t0, vs[1..], delta, rooms);
    }
  }

  // ---------------------------------------------------------------------------------------
  // When nothing goes astray
  // ---------------------------------------------------------------------------------------

  /** All listed words lie in the room. */
  predicate AllWithin(offs: seq<nat>, room: nat) {
    forall i :: 0 <= i < |offs| ==> offs[i] + 4 <= room
  }

  lemma {:induction false} WithinStays(size: nat, room: nat, offs: seq<nat>)
    requires AllWithin(offs, room) && room < LIMIT31
    ensures ShiftError(size, room, offs) == BadOverlay
    decreases |offs|
  {
    if offs != [] {
      assert (offs[0] + 4) % LIMIT32 == offs[0] + 4;
      WithinStays(size, room, offs[1..]);
    }
  }

  /** What the properties list for the node at path p lies inside the buffer. */
  predicate PropsWithin(props: seq<Property>, p: Path, rooms: Rooms) {
    forall i :: 0 <= i < |props| ==> AllWithin(Listed(props[i].val), rooms(p, props[i].name))
  }

  ghost predicate Small(rooms: Rooms) {
    forall p, name :: rooms(p, name) < LIMIT31
  }

  lemma {:induction false} PropsStay(t: Tree, props: seq<Property>, delta: nat, p: Path, rooms: Rooms)
    requires PropsWithin(props, p, rooms) && Small(rooms)
    ensures PropsError(t, props, delta, p, rooms) == BadOverlay
    decreases |props|
  {
    if props != [] && |props[0].val| % 4 == 0 {
      match Value(t.props, props[0].name)
      case None =>
      case Some(v) =>
        match ShiftAll(v, Listed(props[0].val), delta)
        case None => WithinStays(|v|, rooms(p, props[0].name), Listed(props[0].val));
        case Some(w) => PropsStay(FdtModel.SetProp(t, props[0].name, w), props[1..], delta, p, rooms);
    }
  }

  /** What the fixups list at the start lies inside the buffer. */
  ghost predicate VisitsWithin(t0: Tree, vs: seq<Visit>, rooms: Rooms) {
    forall b :: 0 <= b < |vs| && vs[b].Visit? && InTree(t0, vs[b].q) ==>
      PropsWithin(TreeAt(t0, vs[b].q).props, vs[b].p, rooms)
  }

  /** Then the pass stays inside the buffer. */
  lemma {:induction false} LiveStays(t: Tree, t0: Tree, vs: seq<Visit>, delta: nat, rooms: Rooms)
    requires Agrees(t, t0, vs) && ReadFirst(t0, vs) && VisitsWithin(t0, vs, rooms) && Small(rooms)
    ensures Live(t, vs, delta, rooms) != Err(Astray)
    decreases |vs|
  {
    if vs != [] {
      var v := vs[0];
      if v.Visit? && InTree(t, v.p) && InTree(t, v.q) {
        PropsStay(TreeAt(t, v.p), TreeAt(t, v.q).props, delta, v.p, rooms);
      }
      match LiveStep(t, v, delta, rooms)
      case Err(_) =>
      case Ok(u) =>
        StillAgrees(t, t0, vs, u, delta, rooms);
        assert forall b :: 0 <= b < |vs[1..]| ==> vs[1..][b] == vs[b + 1];
        LiveStays(u, t0, vs[1..], delta, rooms);
    }
  }

  // ---------------------------------------------------------------------------------------
  // Whole overlays
  // ---------------------------------------------------------------------------------------

  /** The local fixups of a tree, if it has some. */
  function Fixups(t: Tree): Option<Tree> {
    var x := KidPos(t.kids, LOCAL_FIXUPS);
    if x < |t.kids| then Some(t.kids[x]) else None
  }

  /** The visits that the local fixups of a tree lead to. */
  function Schedule(t: Tree): seq<Visit> {
    match Fixups(t)
    case None => []
    case Some(f) => Visits(t, [], f, [KidPos(t.kids, LOCAL_FIXUPS)])
  }

  /** The tree with its local references shifted as its fixups say at the start. */
  function Referenced(t: Tree, delta: nat): Result<Tree> {
    match Fixups(t)
    case None => Ok(t)
    case Some(f) => FixNode(t, f, delta)
  }

  /** No fixup node is read after it was written to. */
  predicate InOrder(t: Tree) {
    ReadFirst(t, Schedule(t))
  }

  /** Then the pass does what the fixups say. */
  lemma {:induction false} LiveReferences(t: Tree, delta: nat, rooms: Rooms)
    requires InOrder(t)
    ensures Alike(Live(t, Schedule(t), delta, rooms), Referenced(t, delta))
  {
    match Fixups(t)
    case None =>
    case Some(f) =>
      var q := [KidPos(t.kids, LOCAL_FIXUPS)];
      assert [] + q == q;
      ReplacedSnoc(t, [], q[0], f);
      LiveIsFrozen(t, t, Schedule(t), delta, rooms);
      FrozenNode(t, t, [], q, t, f, delta);
  }

  // ---------------------------------------------------------------------------------------
  // Fixups that are about other nodes only
  // ---------------------------------------------------------------------------------------

  /** The local fixups list no references inside themselves. */
  predicate FixupsAside(t: Tree) {
    match Fixups(t)
    case None => true
    case Some(f) => forall i :: 0 <= i < |f.kids| ==> KidPos(t.kids, f.kids[i].name) != KidPos(t.kids, LOCAL_FIXUPS)
  }

  /** All nodes visited lie below the given paths. */
  ghost predicate Below(vs: seq<Visit>, p: Path, q: Path) {
    forall a :: 0 <= a < |vs| && vs[a].Visit? ==> p <= vs[a].p && q <= vs[a].q
  }

  lemma {:induction false} VisitsBelow(n: Tree, p: Path, f: Tree, q: Path)
    ensures Below(Visits(n, p, f, q), p, q)
    decreases f, 1
  {
    VisitKidsBelow(n, p, f.kids, q, 0);
  }

  lemma {:induction false} VisitKidsBelow(n: Tree, p: Path, fs: seq<Tree>, q: Path, i: nat)
    ensures Below(VisitKids(n, p, fs, q, i), p, q)
    decreases fs, 0
  {
    if fs != [] {
      VisitKidBelow(n, p, fs[0], q, i);
      VisitKidsBelow(n, p, fs[1..], q, i + 1);
    }
  }

  lemma {:induction false} VisitKidBelow(n: Tree, p: Path, f: Tree, q: Path, i: nat)
    ensures Below(VisitKid(n, p, f, q, i), p, q)
    ensures var j := KidPos(n.kids, f.name); j < |n.kids| ==> Below(VisitKid(n, p, f, q, i), p + [j], q)
    decreases f, 2
  {
    var j := KidPos(n.kids, f.name);
    if j < |n.kids| {
      VisitsBelow(n.kids[j], p + [j], f, q + [i]);
      var vs := VisitKid(n, p, f, q, i);
      forall a | 0 <= a < |vs| && vs[a].Visit?
        ensures p <= p + [j] <= vs[a].p && q <= q + [i] <= vs[a].q
      {
      }
    }
  }

  /** A visit writes outside of the node at child x of the root. */
  predicate Outside(v: Visit, x: nat) {
    v.Visit? ==> (v.p == [] || v.p[0] != x) && v.q != [] && v.q[0] == x
  }

  lemma {:induction false} KidsOutside(t: Tree, fs: seq<Tree>, x: nat, i: nat)
    requires forall k :: 0 <= k < |fs| ==> KidPos(t.kids, fs[k].name) != x
    ensures forall a :: 0 <= a < |VisitKids(t, [], fs, [x], i)| ==> Outside(VisitKids(t, [], fs, [x], i)[a], x)
    decreases |fs|
  {
    if fs != [] {
      var vs, j := VisitKid(t, [], fs[0], [x], i), KidPos(t.kids, fs[0].name);
      VisitKidBelow(t, [], fs[0], [x], i);
      assert [] + [j] == [j];
      forall a | 0 <= a < |vs|
        ensures Outside(vs[a], x)
      {
        if vs[a].Visit? {
          assert [x] <= vs[a].q && j < |t.kids| && [j] <= vs[a].p;
        }
      }
      KidsOutside(t, fs[1..], x, i + 1);
    }
  }

  /** Fixups that are about other nodes only are read in order. */
  lemma {:induction false} AsideInOrder(t: Tree)
    requires FixupsAside(t)
    ensures InOrder(t)
  {
    match Fixups(t)
    case None =>
    case Some(f) =>
      var x := KidPos(t.kids, LOCAL_FIXUPS);
      KidsOutside(t, f.kids, x, 0);
      var vs, all := VisitKids(t, [], f.kids, [x], 0), Schedule(t);
      assert all == [Visit([], [x])] + vs;
      forall a | 0 <= a < |all|
        ensures Outside(all[a], x)
      {
        if a > 0 {
          assert all[a] == vs[a - 1];
        }
      }
  }

  // ---------------------------------------------------------------------------------------
  // Fixups about themselves
  // ---------------------------------------------------------------------------------------

  const F: Bytes := [0x66]
  const R: Bytes := [0x72]

  /** A node f whose only property is r. */
  function Leaf(v: Bytes): Tree {
    Tree(F, [Property(R, v)], [])
  }

  /** Fixups whose first child lists the word by which the second one, with value w, lists a reference of /f. */
  function SelfFixups(w: Bytes): Tree {
    Tree(LOCAL_FIXUPS, [], [Tree(LOCAL_FIXUPS, [], [Leaf(Be32(0))]), Leaf(w)])
  }

  function SelfTree(v: Bytes, w: Bytes): Tree {
    Tree([], [], [Leaf(v), SelfFixups(w)])
  }

  lemma {:induction false} NamesApart()
    ensures !NameAnswers(F, LOCAL_FIXUPS) && !NameAnswers(LOCAL_FIXUPS, F) && NameAnswers(F, F)
            && NameAnswers(LOCAL_FIXUPS, LOCAL_FIXUPS)
  {
    assert LOCAL_FIXUPS[..1] != F by {
      assert LOCAL_FIXUPS[..1][0] != F[0];
    }
  }

  lemma {:induction false} SelfPlaces(v: Bytes, w: Bytes)
    ensures var t, f := SelfTree(v, w), SelfFixups(w);
            && KidPos(t.kids, LOCAL_FIXUPS) == 1 && KidPos(t.kids, F) == 0 && KidPos(f.kids, F) == 1
  {
    NamesApart();
    var t, f := SelfTree(v, w), SelfFixups(w);
    KidPosIs(t.kids, LOCAL_FIXUPS, 1);
    KidPosIs(t.kids, F, 0);
    KidPosIs(f.kids, F, 1);
  }

  lemma {:induction false} LeafVisits(n: Tree, p: Path, v: Bytes, q: Path)
    ensures Visits(n, p, Leaf(v), q) == [Visit(p, q)]
  {
    assert VisitKids(n, p, [], q, 0) == [];
  }

  lemma {:induction false} OneKid(n: Tree, p: Path, f: Tree, q: Path, i: nat)
    ensures VisitKids(n, p, [f], q, i) == VisitKid(n, p, f, q, i)
  {
    assert [f][1..] == [];
    assert VisitKids(n, p, [], q, i + 1) == [];
  }

  lemma {:induction false} SelfSchedule(v: Bytes, w: Bytes)
    ensures Schedule(SelfTree(v, w)) == [Visit([], [1]), Visit([1], [1, 0]), Visit([1, 1], [1, 0, 0]),
            Visit([0], [1, 1])]
  {
    var t, f := SelfTree(v, w), SelfFixups(w);
    var inner := f.kids[0];
    SelfPlaces(v, w);
    assert VisitKid(t, [], inner, [1], 0) == [Visit([1], [1, 0]), Visit([1, 1], [1, 0, 0])] by {
      assert [] + [1] == [1] && [1] + [0] == [1, 0] && [1] + [1] == [1, 1] && [1, 0] + [0] == [1, 0, 0];
      LeafVisits(f.kids[1], [1, 1], Be32(0), [1, 0, 0]);
      OneKid(f, [1], Leaf(Be32(0)), [1, 0], 0);
    }
    assert VisitKid(t, [], f.kids[1], [1], 1) == [Visit([0], [1, 1])] by {
      assert [] + [0] == [0] && [1] + [1] == [1, 1];
      LeafVisits(t.kids[0], [0], w, [1, 1]);
    }
    assert VisitKids(t, [], f.kids, [1], 0) == VisitKid(t, [], inner, [1], 0) + VisitKids(t, [], f.kids[1..], [1], 1);
    assert f.kids[1..] == [f.kids[1]];
    OneKid(t, [], f.kids[1], [1], 1);
    assert Fixups(t) == Some(f) && Schedule(t) == Visits(t, [], f, [1]);
  }

  /** What a single listed word does to a node with that property only. */
  lemma {:induction false} FixLeaf(v: Bytes, off: nat, delta: nat)
    requires off < LIMIT32 && off + 4 <= |v|
    ensures FixProps(Leaf(v), [Property(R, Be32(off))], delta) == Ok(Leaf(Shift(v, off, delta)))
  {
    ShiftedWord(off);
    assert Listed(Be32(off)) == [off];
    assert [off][1..] == [];
    assert ShiftAll(v, [off], delta) == ShiftAll(Shift(v, off, delta), [], delta) == Some(Shift(v, off, delta));
    var p := Property(R, Be32(off));
    assert [p][1..] == [];
    var u := FdtModel.SetProp(Leaf(v), R, Shift(v, off, delta));
    assert PropPos(Leaf(v).props, R) == 0 && u == Leaf(Shift(v, off, delta));
  }

  lemma {:induction false} SelfPaths(v: Bytes, w: Bytes)
    ensures var t := SelfTree(v, w);
            && InTree(t, [1]) && TreeAt(t, [1]) == SelfFixups(w) && InTree(t, [1, 0]) && TreeAt(t, [1, 0]).props == []
            && InTree(t, [1, 0, 0]) && TreeAt(t, [1, 0, 0]) == Leaf(Be32(0)) && InTree(t, [0])
                 && TreeAt(t, [0]) == Leaf(v)
            && InTree(t, [1, 1]) && TreeAt(t, [1, 1]) == Leaf(w)
  {
    var t := SelfTree(v, w);
    assert [] + [1] == [1] && [] + [0] == [0] && [1] + [0] == [1, 0] && [1, 0] + [0] == [1, 0, 0]
           && [1] + [1] == [1, 1];
    ReplacedSnoc(t, [], 1, t);
    ReplacedSnoc(t, [], 0, t);
    ReplacedSnoc(t, [1], 0, t);
    ReplacedSnoc(t, [1], 1, t);
    ReplacedSnoc(t, [1, 0], 0, t);
  }

  lemma {:induction false} SelfReplaced(v: Bytes, w: Bytes, x: Bytes)
    ensures InTree(SelfTree(v, w), [1, 1]) && Replaced(SelfTree(v, w), [1, 1], Leaf(x)) == SelfTree(v, x)
    ensures InTree(SelfTree(v, w), [0]) && Replaced(SelfTree(v, w), [0], Leaf(x)) == SelfTree(x, w)
  {
    var t := SelfTree(v, w);
    SelfPaths(v, w);
    assert [] + [1] == [1] && [] + [0] == [0] && [1] + [1] == [1, 1];
    ReplacedSnoc(t, [1], 1, Leaf(x));
    ReplacedSnoc(t, [], 1, SelfFixups(x));
    assert SelfFixups(w).kids[1 := Leaf(x)] == SelfFixups(x).kids;
    assert t.kids[1 := SelfFixups(x)] == SelfTree(v, x).kids;
    ReplacedSnoc(t, [], 0, Leaf(x));
    assert t.kids[0 := Leaf(x)] == SelfTree(x, w).kids;
  }

  /** Visits without properties change nothing. */
  lemma {:induction false} IdleStep(t: Tree, p: Path, q: Path, t0: Tree, delta: nat, rooms: Rooms)
    requires InTree(t, p) && InTree(t, q) && TreeAt(t, q).props == [] && InTree(t0, q) && TreeAt(t0, q).props == []
    ensures LiveStep(t, Visit(p, q), delta, rooms) == Ok(t) && FrozenStep(t, Visit(p, q), t0, delta) == Ok(t)
  {
    ReplacedSame(t, p);
  }

  /**
    Where the condition fails: the fixups list a reference inside themselves, in front of the fixup
    they change. Shifting by 4 then changes the second word of the property of /f and not the first,
    which the fixups list.
    */
  lemma {:induction false} SelfFixupsDiffer(v: Bytes, rooms: Rooms)
    requires |v| >= 8
    ensures var t := SelfTree(v, Be32(0));
            && !InOrder(t)
            && Live(t, Schedule(t), 4, rooms) == Ok(SelfTree(Shift(v, 4, 4), Be32(4)))
            && Referenced(t, 4) == Ok(SelfTree(Shift(v, 0, 4), Be32(4)))
            && Shift(v, 4, 4) != Shift(v, 0, 4)
  {
    SelfNotInOrder(v);
    SelfSchedule(v, Be32(0));
    SelfRuns(v, Schedule(SelfTree(v, Be32(0))), rooms);
    SelfReferenced(v, rooms);
    ShiftWord(v, 0, 4, 0);
    ShiftWord(v, 4, 4, 0);
  }

  lemma {:induction false} SelfReferenced(v: Bytes, rooms: Rooms)
    requires |v| >= 8
    ensures Referenced(SelfTree(v, Be32(0)), 4) == Ok(SelfTree(Shift(v, 0, 4), Be32(4)))
  {
    var t, f := SelfTree(v, Be32(0)), SelfFixups(Be32(0));
    SelfPlaces(v, Be32(0));
    SelfPaths(v, Be32(0));
    SelfSchedule(v, Be32(0));
    SelfRuns(v, Schedule(t), rooms);
    FrozenNode(t, t, [], [1], t, f, 4);
    assert Fixups(t) == Some(f);
  }

  lemma {:induction false} SelfNotInOrder(v: Bytes)
    ensures !InOrder(SelfTree(v, Be32(0)))
  {
    var t := SelfTree(v, Be32(0));
    var vs := Schedule(t);
    SelfSchedule(v, Be32(0));
    SelfPaths(v, Be32(0));
    assert Writes(t, vs[2]) && vs[3].Visit? && vs[2].p == vs[3].q;
  }

  /** The first steps, reading when the turn comes and reading at the start. */
  lemma {:induction false} SelfFirstSteps(v: Bytes, rooms: Rooms)
    ensures var t, t3 := SelfTree(v, Be32(0)), SelfTree(v, Be32(4));
            && LiveStep(t, Visit([], [1]), 4, rooms) == Ok(t) == FrozenStep(t, Visit([], [1]), t, 4)
            && LiveStep(t, Visit([1], [1, 0]), 4, rooms) == Ok(t) == FrozenStep(t, Visit([1], [1, 0]), t, 4)
            && LiveStep(t, Visit([1, 1], [1, 0, 0]), 4, rooms) == Ok(t3)
            && FrozenStep(t, Visit([1, 1], [1, 0, 0]), t, 4) == Ok(t3)
  {
    var t := SelfTree(v, Be32(0));
    SelfPaths(v, Be32(0));
    IdleStep(t, [], [1], t, 4, rooms);
    IdleStep(t, [1], [1, 0], t, 4, rooms);
    assert Shift(Be32(0), 0, 4) == Be32(4) by {
      ShiftedWord(0);
    }
    FixLeaf(Be32(0), 0, 4);
    SelfReplaced(v, Be32(0), Be32(4));
  }

  /** The last step, in which they differ. */
  lemma {:induction false} SelfLastStep(v: Bytes, rooms: Rooms)
    requires |v| >= 8
    ensures var t, t3 := SelfTree(v, Be32(0)), SelfTree(v, Be32(4));
            && LiveStep(t3, Visit([0], [1, 1]), 4, rooms) == Ok(SelfTree(Shift(v, 4, 4), Be32(4)))
            && FrozenStep(t3, Visit([0], [1, 1]), t, 4) == Ok(SelfTree(Shift(v, 0, 4), Be32(4)))
  {
    SelfPaths(v, Be32(0));
    SelfPaths(v, Be32(4));
    FixLeaf(v, 4, 4);
    FixLeaf(v, 0, 4);
    SelfReplaced(v, Be32(4), Shift(v, 4, 4));
    SelfReplaced(v, Be32(4), Shift(v, 0, 4));
  }

  lemma {:induction false} SelfRuns(v: Bytes, vs: seq<Visit>, rooms: Rooms)
    requires |v| >= 8 && vs == [Visit([], [1]), Visit([1], [1, 0]), Visit([1, 1], [1, 0, 0]), Visit([0], [1, 1])]
    ensures var t := SelfTree(v, Be32(0));
            && Live(t, vs, 4, rooms) == Ok(SelfTree(Shift(v, 4, 4), Be32(4)))
            && Frozen(t, vs, t, 4) == Ok(SelfTree(Shift(v, 0, 4), Be32(4)))
  {
    var t, t3 := SelfTree(v, Be32(0)), SelfTree(v, Be32(4));
    SelfFirstSteps(v, rooms);
    SelfLastStep(v, rooms);
    var a, b := SelfTree(Shift(v, 4, 4), Be32(4)), SelfTree(Shift(v, 0, 4), Be32(4));
    assert vs[1..][1..] == vs[2..] && vs[2..][1..] == vs[3..] && vs[3..][1..] == [];
    assert Live(t3, vs[3..], 4, rooms) == Live(a, [], 4, rooms) && Frozen(t3, vs[3..], t, 4) == Frozen(b, [], t, 4);
    assert Live(t, vs[2..], 4, rooms) == Live(t3, vs[3..], 4, rooms)
           && Frozen(t, vs[2..], t, 4) == Frozen(t3, vs[3..], t, 4);
    assert Live(t, vs[1..], 4, rooms) == Live(t, vs[2..], 4, rooms)
           && Frozen(t, vs[1..], t, 4) == Frozen(t, vs[2..], t, 4);
  }
}
