/**
  The target of an overlay fragment: the node of the base with a given phandle, the first one in the
  order of the block, or the node at a given path.
  */
module FdtTarget {
  import opened Options
  import opened FdtFormat
  import opened FdtTree
  import opened FdtRead
  import opened FdtBlob
  import opened FdtEdit
  import opened FdtRw
  import opened FdtModel
  import opened FdtContents
  import opened FdtWhole
  import opened FdtPath
  import opened FdtOutline
  import opened FdtLocal
  import opened FdtApply
  import N = FdtPathNames
  import M = FdtMergeMeaning
  import P = FdtPhandle

  /** "target", "target-path" and "__overlay__". */
  const TARGET: Bytes := [0x74, 0x61, 0x72, 0x67, 0x65, 0x74]
  const TARGET_PATH: Bytes := [0x74, 0x61, 0x72, 0x67, 0x65, 0x74, 0x2d, 0x70, 0x61, 0x74, 0x68]
  const OVERLAY: Bytes := [0x5f, 0x5f, 0x6f, 0x76, 0x65, 0x72, 0x6c, 0x61, 0x79, 0x5f, 0x5f]

  // ---------------------------------------------------------------------------------------
  // What a fragment aims at
  // ---------------------------------------------------------------------------------------

  /** Elsewhere: the path starts with an alias or is not terminated; what it leads to is not said here. */
  datatype Aim = Aimless | Malformed | Elsewhere | ByNumber(phandle: nat) | ByNames(names: seq<Bytes>)

  /** The text in front of the first zero byte. */
  function Text(v: Bytes): Bytes {
    v[..ZeroFrom(v, 0)]
  }

  /** A terminated path that starts at the root. */
  predicate Absolute(v: Bytes) {
    0 in v && v[0] == N.SLASH
  }

  function AimByPath(frag: Tree): Aim {
    match M.Value(frag.props, TARGET_PATH)
    case None => Aimless
    case Some(v) => if Absolute(v) then ByNames(N.Components(Text(v), 0)) else Elsewhere
  }

  /** A phandle other than 0 comes first, then a path. */
  function AimOf(frag: Tree): Aim {
    match M.Value(frag.props, TARGET)
    case None => AimByPath(frag)
    case Some(v) =>
      if |v| != 4 || Word(v, 0) == LIMIT32 - 1 then Malformed
      else if Word(v, 0) != 0 then ByNumber(Word(v, 0))
      else AimByPath(frag)
  }

  /** In the order of the block, the node at q comes before the node at p. */
  predicate Precedes(q: Path, p: Path)
    decreases |p|
  {
    p != [] && (q == [] || q[0] < p[0] || (q[0] == p[0] && Precedes(q[1..], p[1..])))
  }

  /** The path that names lead to, taking at each level the first child that answers. */
  function TreeWalk(t: Tree, names: seq<Bytes>): Option<Path>
    decreases |names|
  {
    if names == [] then Some([])
    else
      var j := KidPos(t.kids, names[0]);
      if j == |t.kids| then None
      else
        match TreeWalk(t.kids[j], names[1..])
        case None => None
        case Some(p) => Some([j] + p)
  }

  /** The node at p is the first with this phandle. */
  ghost predicate FirstWith(t: Tree, ph: nat, p: Path) {
    && InTree(t, p) && P.Phandle(TreeAt(t, p)) == ph
    && forall q :: InTree(t, q) && P.Phandle(TreeAt(t, q)) == ph ==> !Precedes(q, p)
  }

  /** The fragment is aimed at the node at path p. */
  ghost predicate AimsAt(t: Tree, frag: Tree, p: Path) {
    match AimOf(frag)
    case ByNumber(ph) => FirstWith(t, ph, p)
    case ByNames(names) => TreeWalk(t, names) == Some(p) && InTree(t, p)
    case _ => false
  }

  ghost predicate SomeWith(t: Tree, ph: nat) {
    exists p :: InTree(t, p) && P.Phandle(TreeAt(t, p)) == ph
  }

  /** Why a fragment has no target. */
  ghost function AimError(t: Tree, frag: Tree): Option<P.Error> {
    match AimOf(frag)
    case Aimless => Some(P.BadOverlay)
    case Malformed => Some(P.BadPhandle)
    case Elsewhere => Some(P.Astray)
    case ByNumber(ph) => if SomeWith(t, ph) then None else Some(P.NotFound)
    case ByNames(names) => if TreeWalk(t, names).Some? then None else Some(P.NotFound)
  }

  // ---------------------------------------------------------------------------------------
  // By path
  // ---------------------------------------------------------------------------------------

  lemma {:induction false} WalkIsTreeWalk(n: RNode, names: seq<Bytes>, table: nat -> Bytes)
    ensures TreeWalk(Abs(n, table), names) == N.Walk(n, names)
    decreases |names|
  {
    if names != [] {
      KidPosAbs(n.kids, table, names[0]);
      var j := FirstKid(n.kids, 0, Answering(names[0]));
      if j < |n.kids| {
        AbsKidAt(n.kids, table, j);
        WalkIsTreeWalk(n.kids[j], names[1..], table);
      }
    }
  }

  /** The node at an absolute path. */
  method FindByPath(blob: Blob, path: Bytes, ghost root: RNode) returns (r: Option<nat>, ghost p: Path)
    requires Encodes(blob.Value(), root) && path != [] && path[0] == N.SLASH
    ensures r.Some? <==> TreeWalk(Contents(blob.Value(), root), N.Components(path, 0)).Some?
    ensures r.Some? ==>
              TreeWalk(Contents(blob.Value(), root), N.Components(path, 0)) == Some(p)
              && LiesAt(blob.Value(), root, p, r.value)
  {
    ghost var im := blob.Value();
    var b := StructBytes(blob);
    RootLies(im, root);
    ghost var ts, at, k := LiesOverlay(im, root, [], 0);
    WalkIsTreeWalk(root, N.Components(path, 0), NameTable(im.Strings()));
    r := N.PathOffset(b, path, ts, at, root);
    p := [];
    if r.Some? {
      p := N.Walk(root, N.Components(path, 0)).value;
      LiesIndex(im, root, p, r.value);
    }
  }

  // ---------------------------------------------------------------------------------------
  // By phandle
  // ---------------------------------------------------------------------------------------

  /** No node that starts in front of token k has this phandle. */
  ghost predicate NoneSoFar(im: Image, root: RNode, k: nat, ph: nat)
    requires im.Ordered()
  {
    forall p {:trigger SubNode(root, p)} :: InNode(root, p) && IndexOf(0, root, p) < k ==>
      P.Phandle(Contents(im, SubNode(root, p))) != ph
  }

  lemma {:induction false} NoneStep(im: Image, root: RNode, k: nat, ph: nat, j: nat, p: Path)
    requires im.Ordered() && NoneSoFar(im, root, k, ph) && k <= |Whole(root)| && Start(Whole(root), k) == Some(j)
    requires InNode(root, p) && IndexOf(0, root, p) == j
    ensures NoneSoFar(im, root, j, ph)
    ensures P.Phandle(Contents(im, SubNode(root, p))) != ph ==> NoneSoFar(im, root, j + 1, ph)
  {
    forall q {:trigger SubNode(root, q)} | InNode(root, q) && IndexOf(0, root, q) < j
      ensures P.Phandle(Contents(im, SubNode(root, q))) != ph
    {
      StartsNode(root, q, IndexOf(0, root, q));
    }
    if P.Phandle(Contents(im, SubNode(root, p))) != ph {
      forall q {:trigger SubNode(root, q)} | InNode(root, q) && IndexOf(0, root, q) < j + 1
        ensures P.Phandle(Contents(im, SubNode(root, q))) != ph
      {
        if IndexOf(0, root, q) == j {
          assert Occurs(Whole(root), 0, NodeTokens(root));
          IndexDecides(Whole(root), 0, root, p, q);
        }
      }
    }
  }

  lemma {:induction false} NoneAtAll(im: Image, root: RNode, k: nat, ph: nat)
    requires im.Ordered() && NoneSoFar(im, root, k, ph) && k <= |Whole(root)| && Start(Whole(root), k) == None
    ensures !SomeWith(Contents(im, root), ph)
  {
    var t, names := Contents(im, root), NameTable(im.Strings());
    forall p | InTree(t, p)
      ensures P.Phandle(TreeAt(t, p)) != ph
    {
      InBack(root, p, names);
      AbsIn(root, p, names);
      StartsNode(root, p, IndexOf(0, root, p));
    }
  }

  /** Nodes that come earlier start earlier. */
  lemma {:induction false} PrecedesIndex(k: nat, n: RNode, q: Path, p: Path)
    requires InNode(n, q) && InNode(n, p) && Precedes(q, p)
    ensures IndexOf(k, n, q) < IndexOf(k, n, p)
    decreases |p|
  {
    var j := p[0];
    IndexInside(k + KidIndex(n, j), n.kids[j], p[1..]);
    if q != [] {
      var i := q[0];
      if i == j {
        PrecedesIndex(k + KidIndex(n, j), n.kids[j], q[1..], p[1..]);
      } else {
        IndexInside(k + KidIndex(n, i), n.kids[i], q[1..]);
        NodeShape(SubNode(n.kids[i], q[1..]));
        KidsApart(n, i, j);
      }
    }
  }

  /** A later child starts behind the end of an earlier one. */
  lemma {:induction false} KidsApart(n: RNode, i: nat, j: nat)
    requires i < j < |n.kids|
    ensures KidIndex(n, i) + |NodeTokens(n.kids[i])| <= KidIndex(n, j)
    decreases j - i
  {
    NextKidIndex(n, i);
    if i + 1 < j {
      KidIndexGrows(n, i + 1, j);
    }
  }

  lemma {:induction false} FoundFirst(im: Image, root: RNode, ph: nat, p: Path)
    requires im.Ordered() && InNode(root, p) && NoneSoFar(im, root, IndexOf(0, root, p), ph)
    requires P.Phandle(Contents(im, SubNode(root, p))) == ph
    ensures FirstWith(Contents(im, root), ph, p)
  {
    var t, names := Contents(im, root), NameTable(im.Strings());
    AbsIn(root, p, names);
    forall q | InTree(t, q) && P.Phandle(TreeAt(t, q)) == ph
      ensures !Precedes(q, p)
    {
      InBack(root, q, names);
      AbsIn(root, q, names);
      if Precedes(q, p) {
        PrecedesIndex(0, root, q, p);
      }
    }
  }

  /** Does the node at offset o, the first from token k on, have this phandle? */
  method HasIt(blob: Blob, o: nat, ph: nat, ghost root: RNode, ghost k: nat)
    returns (yes: bool, ghost p: Path, ghost j: nat)
    requires Encodes(blob.Value(), root) && NoneSoFar(blob.Value(), root, k, ph)
    requires ValidTokens(Whole(root)) && k <= |Whole(root)| && StartOffset(root, k) == Some(o)
    ensures Start(Whole(root), k) == Some(j) && k <= j < |Whole(root)|
    ensures yes ==> LiesAt(blob.Value(), root, p, o) && FirstWith(Contents(blob.Value(), root), ph, p)
    ensures !yes ==> NoneSoFar(blob.Value(), root, j + 1, ph)
  {
    ghost var im := blob.Value();
    j := StartPlace(root, k, o);
    p := StartPath(im, root, j);
    NoneStep(im, root, k, ph, j, p);
    var value := GetPhandle(blob, o, root, p);
    yes := value == ph;
    if yes {
      FoundFirst(im, root, ph, p);
    }
  }

  /** The same, and the node behind it. */
  method TryNext(blob: Blob, b: Bytes, o: nat, ph: nat, ghost root: RNode, ghost k: nat)
    returns (yes: bool, r: Option<nat>, ghost p: Path, ghost l: nat)
    requires Encodes(blob.Value(), root) && NoneSoFar(blob.Value(), root, k, ph)
    requires ValidTokens(Whole(root)) && b == Flat(Whole(root)) && k <= |Whole(root)| && StartOffset(root, k) == Some(o)
    ensures yes ==>
              LiesAt(blob.Value(), root, p, o) && FirstWith(Contents(blob.Value(), root), ph, p)
              && SomeWith(Contents(blob.Value(), root), ph)
    ensures !yes ==> k < l <= |Whole(root)| && NoneSoFar(blob.Value(), root, l, ph) && r == StartOffset(root, l)
  {
    ghost var j;
    r, l := None, 0;
    yes, p, j := HasIt(blob, o, ph, root, k);
    if !yes {
      r, l := Following(b, o, root, k);
      l := l + 1;
    }
  }

  /** The first node with this phandle. */
  method FindByPhandle(blob: Blob, ph: nat, ghost root: RNode) returns (r: Option<nat>, ghost p: Path)
    requires Encodes(blob.Value(), root)
    ensures r.Some? <==> SomeWith(Contents(blob.Value(), root), ph)
    ensures r.Some? ==> LiesAt(blob.Value(), root, p, r.value) && FirstWith(Contents(blob.Value(), root), ph, p)
  {
    ghost var im, k := blob.Value(), 0;
    LiesIndex(im, root, [], 0);
    var b := StructBytes(blob);
    p := [];
    var offset := FirstStart(b, root);
    while offset.Some?
      invariant k <= |Whole(root)| && NoneSoFar(im, root, k, ph) && offset == StartOffset(root, k)
      decreases |Whole(root)| - k
    {
      var yes, next;
      yes, next, p, k := TryNext(blob, b, offset.value, ph, root, k);
      if yes {
        return offset, p;
      }
      offset := next;
    }
    NoneAtAll(im, root, k, ph);
    r := None;
  }

  // ---------------------------------------------------------------------------------------
  // The target of a fragment
  // ---------------------------------------------------------------------------------------

  lemma {:induction false} TextStarts(v: Bytes)
    requires Absolute(v)
    ensures Text(v) != [] && Text(v)[0] == N.SLASH
  {
  }

  /** The node of the base at which the fragment at path q of the overlay is aimed, or why there is none. */
  method GetTarget(base: Blob, over: Blob, fo: nat, ghost broot: RNode, ghost root: RNode, ghost q: Path)
    returns (e: Option<P.Error>, t: nat, ghost p: Path)
    requires Encodes(base.Value(), broot) && LiesAt(over.Value(), root, q, fo)
    ensures e == AimError(Contents(base.Value(), broot), Contents(over.Value(), SubNode(root, q)))
    ensures e.None? ==>
              LiesAt(base.Value(), broot, p, t)
              && AimsAt(Contents(base.Value(), broot), Contents(over.Value(), SubNode(root, q)), p)
  {
    t, p := 0, [];
    var val := GetProp(over, fo, TARGET, root, q);
    if val.Some? && (|val.value| != 4 || Word(val.value, 0) == LIMIT32 - 1) {
      return Some(P.BadPhandle), 0, [];
    }
    var r;
    if val.Some? && Word(val.value, 0) != 0 {
      r, p := FindByPhandle(base, Word(val.value, 0), broot);
    } else {
      var path := GetProp(over, fo, TARGET_PATH, root, q);
      if path.None? {
        return Some(P.BadOverlay), 0, [];
      }
      if !Absolute(path.value) {
        return Some(P.Astray), 0, [];
      }
      TextStarts(path.value);
      r, p := FindByPath(base, Text(path.value), broot);
    }
    if r.None? {
      return Some(P.NotFound), 0, [];
    }
    AbsIn(broot, p, NameTable(base.Value().Strings()));
    return None, r.value, p;
  }
}
