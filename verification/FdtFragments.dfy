/**
  Applying a whole overlay: its phandles and references are made to fit the base, then each fragment
  is merged into the node of the base that it is aimed at.
  */
module FdtFragments {
  import opened Options
  import opened FdtFormat
  import opened FdtTree
  import opened FdtRead
  import opened FdtBlob
  import opened FdtChunk
  import opened FdtEdit
  import opened FdtRw
  import opened FdtModel
  import opened FdtContents
  import opened FdtMerge
  import opened FdtWhole
  import opened FdtPath
  import opened FdtOutline
  import opened FdtWip
  import opened FdtLocal
  import opened FdtFixups
  import opened FdtApply
  import opened FdtTarget
  import O = FdtOverlay
  import P = FdtPhandle
  import L = FdtLive

  // ---------------------------------------------------------------------------------------
  // One fragment
  // ---------------------------------------------------------------------------------------

  /**
    One fragment turns the tree t into u: nothing happens if it has no overlay node, else that node is
    merged into the node at the given path, at which the fragment is aimed.
    */
  ghost predicate Stepped(t: Tree, frag: Tree, step: Option<Path>, u: Tree) {
    var j := KidPos(frag.kids, OVERLAY);
    if j == |frag.kids| then step == None && u == t
    else
      && step.Some? && InTree(t, step.value) && AimsAt(t, frag, step.value)
      && u == Replaced(t, step.value, Merge(TreeAt(t, step.value), frag.kids[j]))
  }

  /** Why a fragment was not merged: it has no target, or the base has no space. */
  ghost predicate Refused(t: Tree, frag: Tree, e: P.Error) {
    KidPos(frag.kids, OVERLAY) < |frag.kids| && AimError(t, frag) == if e == P.NoSpace then None else Some(e)
  }

  /**
    What such a fragment makes of the tree t: it is left alone, but where space ran out the node at
    the path that the fragment is aimed at has become some other node.
    */
  ghost predicate Stopped(t: Tree, frag: Tree, e: P.Error, target: Option<Path>, u: Tree) {
    if e == P.NoSpace then
      && target.Some? && InTree(t, target.value) && AimsAt(t, frag, target.value)
      && exists s :: u == Replaced(t, target.value, s)
    else u == t
  }

  /** Merges the overlay node at path q of the overlay into the node at path p of the base. */
  method MergeAt(base: Blob, over: Blob, target: nat, node: nat, ghost broot: RNode, ghost p: Path, ghost root: RNode,
                 ghost q: Path)
    returns (ok: bool, ghost now: RNode)
    requires base != over && base.buf != over.buf && LiesAt(base.Value(), broot, p, target)
             && LiesAt(over.Value(), root, q, node)
    modifies base, base.buf
    ensures over.Value() == old(over.Value()) && Encodes(base.Value(), now)
            && InTree(old(Contents(base.Value(), broot)), p)
    ensures ok ==> var t := old(Contents(base.Value(), broot));
                   Contents(base.Value(), now) == Replaced(t, p,
                     Merge(TreeAt(t, p), Contents(over.Value(), SubNode(root, q))))
    ensures exists s :: Contents(base.Value(), now) == Replaced(old(Contents(base.Value(), broot)), p, s)
  {
    ghost var im := over.Value();
    var b := StructBytes(over);
    var strs := StringBytes(over);
    ghost var ts, at, k := LiesOverlay(im, root, q, node);
    ghost var s;
    var e;
    e, now, s := O.ApplyAt(base, target, b, strs, node, broot, p, ts, at, k, SubNode(root, q));
    ok := e.Ok?;
  }

  /** Merges the fragment at path q of the overlay into the base. */
  method MergeFragment(base: Blob, over: Blob, fo: nat, ghost broot: RNode, ghost root: RNode, ghost q: Path)
    returns (e: Option<P.Error>, ghost now: RNode, ghost step: Option<Path>)
    requires base != over && base.buf != over.buf && Encodes(base.Value(), broot) && LiesAt(over.Value(), root, q, fo)
    modifies base, base.buf
    ensures over.Value() == old(over.Value()) && (e != Some(P.Astray) ==> Encodes(base.Value(), now))
    ensures e.None? ==> Stepped(old(Contents(base.Value(), broot)), Contents(over.Value(), SubNode(root, q)), step,
            Contents(base.Value(), now))
    ensures e.Some? ==> Refused(old(Contents(base.Value(), broot)), Contents(over.Value(), SubNode(root, q)), e.value)
    ensures e.Some? && e.value != P.Astray ==>
              Stopped(old(Contents(base.Value(), broot)), Contents(over.Value(), SubNode(root, q)), e.value, step,
                Contents(base.Value(), now))
  {
    now, step := broot, None;
    var node;
    ghost var j;
    node, j := NamedBelow(over, fo, OVERLAY, root, q);
    if node.None? {
      return None, broot, None;
    }
    var target;
    ghost var p;
    e, target, p := GetTarget(base, over, fo, broot, root, q);
    if e.Some? {
      return;
    }
    OverlayNode(over.Value(), root, q, fo, j);
    var ok;
    ok, now := MergeAt(base, over, target, node.value, broot, p, root, q + [j]);
    step := Some(p);
    e := if ok then None else Some(P.NoSpace);
  }

  lemma {:induction false} OverlayNode(im: Image, root: RNode, q: Path, fo: nat, j: nat)
    requires LiesAt(im, root, q, fo) && j < |SubNode(root, q).kids|
    ensures InNode(root, q + [j]) && j < |Contents(im, SubNode(root, q)).kids|
    ensures Contents(im, SubNode(root, q)).kids[j] == Contents(im, SubNode(root, q + [j]))
  {
    IndexSnoc(0, root, q, j);
    AbsKidAt(SubNode(root, q).kids, NameTable(im.Strings()), j);
  }

  // ---------------------------------------------------------------------------------------
  // All fragments
  // ---------------------------------------------------------------------------------------

  /** The trees that the base goes through, fragment by fragment. */
  ghost predicate Trace(trees: seq<Tree>, frags: seq<Tree>, steps: seq<Option<Path>>) {
    && |steps| <= |frags| && |trees| == |steps| + 1
    && forall i :: 0 <= i < |steps| ==> Stepped(trees[i], frags[i], steps[i], trees[i + 1])
  }

  ghost function Last(trees: seq<Tree>): Tree
    requires trees != []
  {
    trees[|trees| - 1]
  }

  lemma {:induction false} TraceOn(trees: seq<Tree>, frags: seq<Tree>, steps: seq<Option<Path>>, step: Option<Path>,
                                   u: Tree)
    requires Trace(trees, frags, steps) && |steps| < |frags| && Stepped(Last(trees), frags[|steps|], step, u)
    ensures Trace(trees + [u], frags, steps + [step]) && Last(trees + [u]) == u && (trees + [u])[0] == trees[0]
  {
    var ts, ss := trees + [u], steps + [step];
    forall i | 0 <= i < |ss|
      ensures Stepped(ts[i], frags[i], ss[i], ts[i + 1])
    {
      if i < |steps| {
        assert Stepped(trees[i], frags[i], steps[i], trees[i + 1]);
      }
    }
  }

  /** Fragment i of the overlay lies at the given offset; none is left if there is no offset. */
  ghost predicate FragmentLies(im: Image, root: RNode, i: nat, o: Option<nat>) {
    i <= |root.kids| && if i < |root.kids| then o.Some? && LiesAt(im, root, [i], o.value) else o.None?
  }

  method FirstFragment(over: Blob, ghost root: RNode) returns (r: Option<nat>)
    requires Encodes(over.Value(), root)
    ensures FragmentLies(over.Value(), root, 0, r)
  {
    RootLies(over.Value(), root);
    r := FirstBelow(over, 0, root, []);
    assert [] + [0] == [0];
  }

  method NextFragment(over: Blob, o: nat, ghost root: RNode, ghost i: nat) returns (r: Option<nat>)
    requires Encodes(over.Value(), root) && FragmentLies(over.Value(), root, i, Some(o))
    ensures FragmentLies(over.Value(), root, i + 1, r)
  {
    RootLies(over.Value(), root);
    assert [] + [i] == [i] && [] + [i + 1] == [i + 1];
    r := NextBelow(over, o, 0, root, [], i);
  }

  lemma {:induction false} FragmentTree(im: Image, root: RNode, i: nat)
    requires im.Ordered() && i < |root.kids|
    ensures InNode(root, [i]) && i < |Contents(im, root).kids|
            && Contents(im, SubNode(root, [i])) == Contents(im, root).kids[i]
  {
    assert [i][1..] == [] && SubNode(root, [i]) == root.kids[i];
    AbsKidAt(root.kids, NameTable(im.Strings()), i);
  }

  /** The fragments up to here have been merged into the base, which had the tree t0. */
  ghost predicate Merging(im: Image, now: RNode, t0: Tree, trees: seq<Tree>, frags: seq<Tree>,
                          steps: seq<Option<Path>>) {
    Encodes(im, now) && Trace(trees, frags, steps) && trees[0] == t0 && Last(trees) == Contents(im, now)
  }

  /** Merges the next fragment, which lies at offset fo. */
  method MergeNext(base: Blob, over: Blob, fo: nat, ghost broot: RNode, ghost root: RNode, ghost t0: Tree,
                   ghost trees: seq<Tree>, ghost frags: seq<Tree>, ghost steps: seq<Option<Path>>)
    returns (e: Option<P.Error>, ghost now: RNode, ghost trees': seq<Tree>, ghost steps': seq<Option<Path>>,
             ghost target: Option<Path>)
    requires base != over && base.buf != over.buf && Merging(base.Value(), broot, t0, trees, frags, steps)
    requires Encodes(over.Value(), root) && frags == Contents(over.Value(), root).kids
             && FragmentLies(over.Value(), root, |steps|, Some(fo))
    modifies base, base.buf
    ensures over.Value() == old(over.Value()) && (e != Some(P.Astray) ==> Encodes(base.Value(), now))
    ensures |steps| < |frags|
    ensures e.None? ==> |steps'| == |steps| + 1 && Merging(base.Value(), now, t0, trees', frags, steps')
    ensures e.Some? ==> trees' == trees && steps' == steps && Refused(Last(trees), frags[|steps|], e.value)
    ensures e.Some? && e.value != P.Astray ==>
              Stopped(Last(trees), frags[|steps|], e.value, target, Contents(base.Value(), now))
  {
    ghost var i := |steps|;
    trees', steps' := trees, steps;
    FragmentTree(over.Value(), root, i);
    e, now, target := MergeFragment(base, over, fo, broot, root, [i]);
    if e.None? {
      ghost var u := Contents(base.Value(), now);
      TraceOn(trees, frags, steps, target, u);
      trees', steps' := trees + [u], steps + [target];
    }
  }

  /** Merges every fragment of the overlay into the base, in order. */
  method MergeAll(base: Blob, over: Blob, ghost broot: RNode, ghost root: RNode)
    returns (e: Option<P.Error>, ghost now: RNode, ghost trees: seq<Tree>, ghost steps: seq<Option<Path>>,
             ghost target: Option<Path>)
    requires base != over && base.buf != over.buf && Encodes(base.Value(), broot) && Encodes(over.Value(), root)
    modifies base, base.buf
    ensures over.Value() == old(over.Value()) && (e != Some(P.Astray) ==> Encodes(base.Value(), now))
    ensures Trace(trees, Contents(over.Value(), root).kids, steps) && trees[0] == old(Contents(base.Value(), broot))
    ensures e.None? ==> |steps| == |Contents(over.Value(), root).kids| && Contents(base.Value(), now) == Last(trees)
    ensures e.Some? ==>
              |steps| < |Contents(over.Value(), root).kids|
              && Refused(Last(trees), Contents(over.Value(), root).kids[|steps|], e.value)
    ensures e.Some? && e.value != P.Astray ==>
              Stopped(Last(trees), Contents(over.Value(), root).kids[|steps|], e.value, target,
                Contents(base.Value(), now))
  {
    ghost var im, t0 := over.Value(), Contents(base.Value(), broot);
    ghost var frags := Contents(im, root).kids;
    now, trees, steps, target := broot, [t0], [], None;
    var fragment := FirstFragment(over, root);
    while fragment.Some?
      invariant over.Value() == im && Merging(base.Value(), now, t0, trees, frags, steps)
                && FragmentLies(im, root, |steps|, fragment)
      decreases |frags| - |steps|
    {
      ghost var i := |steps|;
      e, now, trees, steps, target := MergeNext(base, over, fragment.value, now, root, t0, trees, frags, steps);
      if e.Some? {
        return;
      }
      fragment := NextFragment(over, fragment.value, root, i);
    }
    e := None;
  }

  // ---------------------------------------------------------------------------------------
  // A whole overlay
  // ---------------------------------------------------------------------------------------

  /** "__fixups__" and "__symbols__". */
  const FIXUPS: Bytes := [0x5f, 0x5f, 0x66, 0x69, 0x78, 0x75, 0x70, 0x73, 0x5f, 0x5f]
  const SYMBOLS: Bytes := [0x5f, 0x5f, 0x73, 0x79, 0x6d, 0x62, 0x6f, 0x6c, 0x73, 0x5f, 0x5f]

  /** An overlay without external fixups and symbols, which has these two passes only. */
  predicate SelfContained(t: Tree) {
    KidPos(t.kids, FIXUPS) == |t.kids| && KidPos(t.kids, SYMBOLS) == |t.kids|
  }

  /**
    Applies the overlay to the base. The base goes through the trees of a trace: each fragment of the
    prepared overlay is merged where it is aimed, and nothing else changes. On an error it has the
    last of these trees, but for the target of a fragment during which space ran out.
    */
  method ApplyOverlay(base: Blob, over: Blob, ghost rooms: L.Rooms, ghost broot: RNode, ghost root: RNode)
    returns (e: Option<P.Error>, ghost now: RNode, ghost trees: seq<Tree>, ghost steps: seq<Option<Path>>,
             ghost target: Option<Path>)
    requires base != over && base.buf != over.buf && Encodes(base.Value(), broot) && Encodes(over.Value(), root)
             && RoomsAre(over.Value(), root, rooms)
    requires SelfContained(Contents(over.Value(), root))
    modifies base, base.buf, over, over.buf
    ensures e != Some(P.Astray) ==> Encodes(base.Value(), now)
    ensures var b, o := old(Contents(base.Value(), broot)), old(Contents(over.Value(), root));
            match Prepared(b, o, rooms)
            case Err(x) => e == Some(x) && (x != P.Astray ==> base.Value() == old(base.Value()))
            case Ok(u) =>
              && Trace(trees, u.kids, steps) && trees[0] == b
              && (e.None? ==> |steps| == |u.kids| && Contents(base.Value(), now) == Last(trees))
              && (e.Some? ==> |steps| < |u.kids| && Refused(Last(trees), u.kids[|steps|], e.value))
              && (e.Some? && e.value != P.Astray ==>
                    Stopped(Last(trees), u.kids[|steps|], e.value, target, Contents(base.Value(), now)))
  {
    now, trees, steps, target := broot, [], [], None;
    ghost var next;
    e, next := Prepare(base, over, rooms, broot, root);
    if e.Some? {
      return;
    }
    e, now, trees, steps, target := MergeAll(base, over, broot, next);
  }

  // ---------------------------------------------------------------------------------------
  // Names that have a meaning
  // ---------------------------------------------------------------------------------------

  lemma {:induction false} KnownNames()
    ensures P.PHANDLE == Ascii("phandle") && P.LINUX_PHANDLE == Ascii("linux,phandle")
    ensures L.LOCAL_FIXUPS == Ascii("__local_fixups__") && FIXUPS == Ascii("__fixups__")
    ensures SYMBOLS == Ascii("__symbols__") && OVERLAY == Ascii("__overlay__")
    ensures TARGET == Ascii("target") && TARGET_PATH == Ascii("target-path") && Ascii("@") == [AT_SIGN]
  {
  }
}
