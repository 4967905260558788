/**
  Preparing an overlay for a base blob: the largest phandle of the base is added to all phandles of
  the overlay and to its local references, both in place.
  */
module FdtApply {
  import opened Options
  import opened FdtFormat
  import opened FdtTree
  import opened FdtRead
  import opened FdtBlob
  import opened FdtChunk
  import opened FdtEdit
  import opened FdtRw
  import opened FdtModel
  import opened FdtContents
  import opened FdtWhole
  import opened FdtPath
  import opened FdtOutline
  import opened FdtWip
  import opened FdtLocal
  import opened FdtFixups
  import P = FdtPhandle
  import L = FdtLive

  // ---------------------------------------------------------------------------------------
  // The largest phandle
  // ---------------------------------------------------------------------------------------

  /** The phandle of the node at path p; 0 if it has none. */
  method GetPhandle(blob: Blob, o: nat, ghost root: RNode, ghost p: Path) returns (r: nat)
    requires LiesAt(blob.Value(), root, p, o)
    ensures r == P.Phandle(Contents(blob.Value(), SubNode(root, p))) && r < LIMIT32
  {
    var php := GetProp(blob, o, P.PHANDLE, root, p);
    if php.None? || |php.value| != 4 {
      php := GetProp(blob, o, P.LINUX_PHANDLE, root, p);
      if php.None? || |php.value| != 4 {
        return 0;
      }
    }
    return Word(php.value, 0);
  }

  /** The first node start from token k on, in front of the end of the block. */
  ghost function Start(ts: seq<Token>, k: nat): (r: Option<nat>)
    requires k <= |ts|
    ensures r.Some? ==> k <= r.value < |ts| && ts[r.value].Begin? && forall i :: k <= i < r.value ==> !ts[i].Begin?
    ensures r.None? ==> forall i :: k <= i < |ts| && ts[i].Begin? ==> exists j :: k <= j < i && ts[j].Finish?
    decreases |ts| - k
  {
    if k == |ts| || ts[k].Finish? then None
    else if ts[k].Begin? then Some(k)
    else Start(ts, k + 1)
  }

  /** The first node start at or behind offset o, however deep. */
  method NextStart(b: Bytes, o: nat, ghost ts: seq<Token>, ghost at: seq<nat>, ghost k: nat) returns (r: Option<nat>)
    requires Indexed(b, ts, at) && k <= |ts| && o == at[k]
    ensures r == if Start(ts, k).Some? then Some(at[Start(ts, k).value]) else None
  {
    var next := o;
    ghost var j := k;
    while true
      invariant k <= j <= |ts| && next == at[j] && Start(ts, k) == Start(ts, j)
      decreases |ts| - j
    {
      var offset := next;
      var tag := TagAt(b, offset, ts, at, j);
      if tag.None? || tag.value.0 == FDT_END {
        return None;
      }
      if tag.value.0 == FDT_BEGIN_NODE {
        return Some(offset);
      }
      next := tag.value.1;
      j := j + 1;
    }
  }

  /** No node that starts in front of token k has a larger phandle, and some node has this one. */
  ghost predicate MaxSoFar(im: Image, root: RNode, k: nat, max: nat)
    requires im.Ordered()
  {
    && (forall p {:trigger SubNode(root, p)} :: InNode(root, p) && IndexOf(0, root, p) < k ==>
          P.Phandle(Contents(im, SubNode(root, p))) <= max)
    && (max == 0 || exists p {:trigger SubNode(root, p)} ::
           InNode(root, p) && P.Phandle(Contents(im, SubNode(root, p))) == max)
  }

  lemma {:induction false} StartsNode(root: RNode, p: Path, k: nat)
    requires InNode(root, p) && k == IndexOf(0, root, p)
    ensures k < |NodeTokens(root)| && Whole(root)[k].Begin? && forall i :: 0 <= i <= k ==> !Whole(root)[i].Finish?
  {
    var ts := Whole(root);
    assert Occurs(ts, 0, NodeTokens(root));
    NodeOccurs(ts, 0, root, p);
    RootAround(ts, root, p, k);
    IndexInside(0, root, p);
    NodeShape(SubNode(root, p));
  }

  /** The path of the node that starts at token j. */
  lemma {:induction false} StartPath(im: Image, root: RNode, j: nat) returns (p: Path)
    requires Encodes(im, root) && j < |Whole(root)| && Whole(root)[j].Begin?
    ensures ValidTokens(Whole(root)) && LiesAt(im, root, p, Offsets(Whole(root))[j]) && IndexOf(0, root, p) == j
  {
    var ts := Whole(root);
    assert Occurs(ts, 0, NodeTokens(root));
    p := BeginInNode(ts, 0, root, j);
    LiesIndex(im, root, p, 0);
    LiesIndex(im, root, p, Offsets(ts)[j]);
  }

  lemma {:induction false} MaxStep(im: Image, root: RNode, k: nat, max: nat, j: nat, p: Path, v: nat)
    requires im.Ordered() && MaxSoFar(im, root, k, max) && k <= |Whole(root)| && Start(Whole(root), k) == Some(j)
    requires InNode(root, p) && IndexOf(0, root, p) == j && v == P.Phandle(Contents(im, SubNode(root, p)))
    ensures MaxSoFar(im, root, j + 1, if v > max then v else max)
  {
    var m := if v > max then v else max;
    forall q {:trigger SubNode(root, q)} | InNode(root, q) && IndexOf(0, root, q) < j + 1
      ensures P.Phandle(Contents(im, SubNode(root, q))) <= m
    {
      StartsNode(root, q, IndexOf(0, root, q));
      if IndexOf(0, root, q) == j {
        assert Occurs(Whole(root), 0, NodeTokens(root));
        IndexDecides(Whole(root), 0, root, p, q);
      }
    }
    if v > max {
      assert P.Phandle(Contents(im, SubNode(root, p))) == m;
    }
  }

  lemma {:induction false} MaxEnd(im: Image, root: RNode, k: nat, max: nat)
    requires im.Ordered() && MaxSoFar(im, root, k, max) && k <= |Whole(root)| && Start(Whole(root), k) == None
    ensures max == P.MaxPhandle(Contents(im, root))
  {
    var t, names := Contents(im, root), NameTable(im.Strings());
    var top := MaxAttained(t);
    InBack(root, top, names);
    AbsIn(root, top, names);
    StartsNode(root, top, IndexOf(0, root, top));
    assert P.MaxPhandle(t) == P.Phandle(Contents(im, SubNode(root, top))) <= max;
    if max > 0 {
      var p :| InNode(root, p) && P.Phandle(Contents(im, SubNode(root, p))) == max;
      AbsIn(root, p, names);
      P.MaxBounds(t, p);
    }
  }

  lemma {:induction false} InBack(n: RNode, p: Path, names: nat -> Bytes)
    requires InTree(Abs(n, names), p)
    ensures InNode(n, p)
    decreases |p|
  {
    if p != [] {
      AbsKidAt(n.kids, names, p[0]);
      InBack(n.kids[p[0]], p[1..], names);
    }
  }

  /** Some node has the largest phandle. */
  lemma {:induction false} MaxAttained(t: Tree) returns (p: Path)
    ensures InTree(t, p) && P.Phandle(TreeAt(t, p)) == P.MaxPhandle(t)
    decreases t, 1
  {
    p := [];
    if P.Phandle(t) < P.MaxOfKids(t.kids) {
      var j := MaxKid(t.kids);
      var q := MaxAttained(t.kids[j]);
      p := [j] + q;
      assert p[1..] == q;
    }
  }

  lemma {:induction false} MaxKid(ks: seq<Tree>) returns (j: nat)
    requires P.MaxOfKids(ks) > 0
    ensures j < |ks| && P.MaxPhandle(ks[j]) == P.MaxOfKids(ks)
  {
    if P.MaxPhandle(ks[0]) >= P.MaxOfKids(ks[1..]) {
      j := 0;
    } else {
      j := MaxKid(ks[1..]);
      j := j + 1;
    }
  }

  /** The offset of the first node start from token k on. */
  ghost function StartOffset(root: RNode, k: nat): Option<nat>
    requires ValidTokens(Whole(root)) && k <= |Whole(root)|
  {
    var j := Start(Whole(root), k);
    if j.Some? then Some(Offsets(Whole(root))[j.value]) else None
  }

  /** The node start behind the one at offset o, which is the first from token k on. */
  method Following(b: Bytes, o: nat, ghost root: RNode, ghost k: nat) returns (r: Option<nat>, ghost j: nat)
    requires ValidTokens(Whole(root)) && b == Flat(Whole(root)) && k <= |Whole(root)| && StartOffset(root, k) == Some(o)
    ensures Start(Whole(root), k) == Some(j) && r == StartOffset(root, j + 1)
  {
    ghost var ts := Whole(root);
    FlatIndexed(ts);
    j := Start(ts, k).value;
    var tag := TagAt(b, o, ts, Offsets(ts), j);
    r := NextStart(b, tag.value.1, ts, Offsets(ts), j + 1);
  }

  method FirstStart(b: Bytes, ghost root: RNode) returns (r: Option<nat>)
    requires ValidTokens(Whole(root)) && b == Flat(Whole(root))
    ensures r == StartOffset(root, 0)
  {
    FlatIndexed(Whole(root));
    OffsetsOrdered(Whole(root));
    r := NextStart(b, 0, Whole(root), Offsets(Whole(root)), 0);
  }

  /** Looks at the node at offset o, the first that starts at token k or behind it. */
  method Visit(blob: Blob, o: nat, max: nat, ghost root: RNode, ghost k: nat, ghost j: nat) returns (m: nat)
    requires Encodes(blob.Value(), root) && MaxSoFar(blob.Value(), root, k, max) && max < LIMIT32
    requires ValidTokens(Whole(root)) && k <= |Whole(root)| && Start(Whole(root), k) == Some(j)
             && o == Offsets(Whole(root))[j]
    ensures MaxSoFar(blob.Value(), root, j + 1, m) && m < LIMIT32
  {
    ghost var p := StartPath(blob.Value(), root, j);
    var value := GetPhandle(blob, o, root, p);
    MaxStep(blob.Value(), root, k, max, j, p, value);
    m := if value > max then value else max;
  }

  lemma {:induction false} StartPlace(root: RNode, k: nat, o: nat) returns (j: nat)
    requires ValidTokens(Whole(root)) && k <= |Whole(root)| && StartOffset(root, k) == Some(o)
    ensures Start(Whole(root), k) == Some(j) && k <= j < |Whole(root)| && o == Offsets(Whole(root))[j]
  {
    j := Start(Whole(root), k).value;
  }

  /** Looks at the node at offset o and finds the one behind it. */
  method VisitNext(blob: Blob, b: Bytes, o: nat, max: nat, ghost root: RNode, ghost k: nat)
    returns (m: nat, r: Option<nat>, ghost l: nat)
    requires Encodes(blob.Value(), root) && MaxSoFar(blob.Value(), root, k, max) && max < LIMIT32
    requires ValidTokens(Whole(root)) && b == Flat(Whole(root)) && k <= |Whole(root)| && StartOffset(root, k) == Some(o)
    ensures MaxSoFar(blob.Value(), root, l, m) && m < LIMIT32 && k < l <= |Whole(root)| && r == StartOffset(root, l)
  {
    ghost var j := StartPlace(root, k, o);
    m := Visit(blob, o, max, root, k, j);
    r, l := Following(b, o, root, k);
    l := l + 1;
  }

  /** The largest phandle in the blob, found by walking all nodes. */
  method FindMaxPhandle(blob: Blob, ghost root: RNode) returns (max: nat)
    requires Encodes(blob.Value(), root)
    ensures max == P.MaxPhandle(Contents(blob.Value(), root)) && max < LIMIT32
  {
    ghost var im, k := blob.Value(), 0;
    LiesIndex(im, root, [], 0);
    var b := StructBytes(blob);
    max := 0;
    var offset := FirstStart(b, root);
    while offset.Some?
      invariant k <= |Whole(root)| && max < LIMIT32 && MaxSoFar(im, root, k, max) && offset == StartOffset(root, k)
      decreases |Whole(root)| - k
    {
      max, offset, k := VisitNext(blob, b, offset.value, max, root, k);
    }
    MaxEnd(im, root, k, max);
  }

  // ---------------------------------------------------------------------------------------
  // Both passes
  // ---------------------------------------------------------------------------------------

  lemma {:induction false} RootLies(im: Image, root: RNode)
    requires Encodes(im, root)
    ensures LiesAt(im, root, [], 0)
  {
    assert Before([], root, []) == [];
    assert Flat([]) == [];
  }

  /** The visits that the fixups at child x lead to are those of the tree. */
  lemma {:induction false} RootVisits(im: Image, root: RNode, x: nat)
    requires im.Ordered() && x == KidPos(Contents(im, root).kids, L.LOCAL_FIXUPS) && x < |root.kids|
    ensures InNode(root, [x]) && SubNode(root, [x]) == root.kids[x]
            && VisitsAt(im, root, [], [x]) == L.Schedule(Contents(im, root))
  {
    assert [x][1..] == [];
    AbsKidAt(root.kids, NameTable(im.Strings()), x);
  }

  /** Shifts the local references of the overlay. */
  method UpdateLocalReferences(blob: Blob, delta: nat, ghost rooms: L.Rooms, ghost root: RNode)
    returns (e: Option<P.Error>, ghost now: RNode)
    requires Encodes(blob.Value(), root) && RoomsAre(blob.Value(), root, rooms)
    modifies blob, blob.buf
    ensures var t := old(Contents(blob.Value(), root)); e == ErrorOf(L.Live(t, L.Schedule(t), delta, rooms))
    ensures e != Some(P.Astray) ==> Rewritten(old(blob.Value()), blob.Value(), root, now, [])
    ensures e.None? ==> var t := old(Contents(blob.Value(), root));
            L.Live(t, L.Schedule(t), delta, rooms) == P.Ok(Contents(blob.Value(), now))
  {
    ghost var im := blob.Value();
    RootLies(im, root);
    RewrittenNot(im, root, [], 0);
    now := root;
    var fixups;
    ghost var x;
    fixups, x := NamedBelow(blob, 0, L.LOCAL_FIXUPS, root, []);
    if fixups.None? {
      return None, root;
    }
    RootVisits(im, root, x);
    assert [] + [x] == [x];
    e, now := FixNode(blob, 0, fixups.value, delta, rooms, root, [], [x], Outline(root.kids[x]));
  }

  /** The overlay as both passes leave it, in a buffer with these rooms. */
  function Prepared(base: Tree, over: Tree, rooms: L.Rooms): P.Result<Tree> {
    var delta := P.MaxPhandle(base);
    match P.AdjustNode(over, delta)
    case Err(e) => P.Err(e)
    case Ok(t) => L.Live(t, L.Schedule(t), delta, rooms)
  }

  /** Makes the overlay's phandles and local references fit the base. */
  method Prepare(base: Blob, over: Blob, ghost rooms: L.Rooms, ghost broot: RNode, ghost root: RNode)
    returns (e: Option<P.Error>, ghost now: RNode)
    requires base != over && base.buf != over.buf && Encodes(base.Value(), broot) && Encodes(over.Value(), root)
             && RoomsAre(over.Value(), root, rooms)
    modifies over, over.buf
    ensures e == ErrorOf(Prepared(old(Contents(base.Value(), broot)), old(Contents(over.Value(), root)), rooms))
    ensures e != Some(P.Astray) ==>
              base.Value() == old(base.Value()) && Rewritten(old(over.Value()), over.Value(), root, now, [])
    ensures e.None? ==>
              Prepared(old(Contents(base.Value(), broot)), old(Contents(over.Value(), root)), rooms) ==
              P.Ok(Contents(over.Value(), now))
  {
    ghost var was := over.Value();
    var delta := FindMaxPhandle(base, broot);
    RootLies(was, root);
    e, now := AdjustNode(over, 0, delta, root, [], Outline(root));
    if e.Some? {
      return;
    }
    ghost var mid, next := over.Value(), now;
    RoomsOn(was, mid, root, now, [], rooms);
    e, next := UpdateLocalReferences(over, delta, rooms, now);
    if e != Some(P.Astray) {
      RewrittenOn(was, mid, over.Value(), root, now, next, []);
    }
    now := next;
  }
}
