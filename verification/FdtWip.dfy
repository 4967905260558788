/**
  Writing into a property in place: nothing moves, and only the bytes written change.
  */
module FdtWip {
  import opened Options
  import opened FdtFormat
  import opened FdtTree
  import opened FdtRead
  import opened FdtBlob
  import opened FdtChunk
  import opened FdtEdit
  import opened FdtRw
  import opened FdtModel
  import opened FdtContents
  import opened FdtWhole
  import opened FdtOutline
  import Ops = FdtOps

  /** The bytes of a property whose value was changed in place. */
  lemma {:induction false} PatchedToken(t: Token, idx: nat, data: Bytes)
    requires t.Valid() && t.Prop? && idx + |data| <= |t.val|
    ensures var u := t.(val := Put(t.val, idx, data)); u.Valid() && Encode(u) == Put(Encode(t), 12 + idx, data)
  {
    var n := |t.val|;
    var h := Be32(FDT_PROP) + Be32(n) + Be32(t.nameoff);
    assert Encode(t) == h + t.val + t.pad;
    PutMid(h, t.val, t.pad, idx, data);
  }

  lemma {:induction false} PatchFits(im: Image, a: seq<Token>, t: Token, c: seq<Token>, idx: nat, data: Bytes)
    requires Holds(im, a + [t] + c) && t.Prop? && ValidTokens(a) && idx + |data| <= |t.val|
    ensures |Flat(a)| + 12 + idx + |data| <= im.sizeStruct && ValidTokens(c) && t.Valid()
  {
    var h, v := PropPlace(im, a, t, c);
    assert |im.Struct()| == im.sizeStruct;
  }

  lemma {:induction false} PatchedHolds(im: Image, a: seq<Token>, t: Token, c: seq<Token>, idx: nat, data: Bytes,
                                        q: nat, u: Token, r: Image)
    requires Holds(im, a + [t] + c) && t.Prop? && t.Valid() && ValidTokens(a) && ValidTokens(c)
             && idx + |data| <= |t.val|
    requires q == |Flat(a)| + 12 + idx && q + |data| <= im.sizeStruct && u == t.(val := Put(t.val, idx, data))
             && r == StructWritten(im, q, data)
    ensures Holds(r, a + [u] + c) && SameRest(im, r)
  {
    var x, y := PatchedOne(t, u, idx, data);
    PartsOf(im, a, [t], c);
    PatchedParts(im, Flat(a), Flat(c), 12 + idx, data, q, r, x, y);
    NameOfOne(im, a, t, c);
    HoldsParts(im, a, [t], c, r, [u]);
  }

  lemma {:induction false} PatchedParts(im: Image, a: Bytes, c: Bytes, j: nat, data: Bytes, q: nat, r: Image,
                                        x: Bytes, y: Bytes)
    requires Parts(im, a, x, c) && j + |data| <= |x| && y == Put(x, j, data)
    requires q == |a| + j && q + |data| <= im.sizeStruct && r == StructWritten(im, q, data)
    ensures Parts(r, a, y, c) && SameRest(im, r)
  {
    WrittenParts(im, a, x, c, j, data);
  }

  lemma {:induction false} PatchedOne(t: Token, u: Token, idx: nat, data: Bytes) returns (x: Bytes, y: Bytes)
    requires t.Valid() && t.Prop? && idx + |data| <= |t.val| && u == t.(val := Put(t.val, idx, data))
    ensures ValidTokens([t]) && Flat([t]) == x && ValidTokens([u]) && Flat([u]) == y
    ensures 12 + idx + |data| <= |x| && y == Put(x, 12 + idx, data)
  {
    x, y := Encode(t), Encode(t);
    FlatOne(t);
    PatchedToken(t, idx, data);
    FlatOne(u);
    y := Encode(u);
  }

  // ---------------------------------------------------------------------------------------
  // The test of room
  // ---------------------------------------------------------------------------------------

  /** What writing len bytes at index idx of a value leads to. */
  function PatchResult(size: nat, idx: nat, len: nat): Error {
    if !HasRoom(size, idx, len) then NoSpace else if idx + len <= size then Ok else Astray
  }

  /**
    For all indices and lengths: the test accepts bytes inside the value exactly when index plus
    length is at most the size, and bytes outside exactly when the sum wraps around to at most the size.
    */
  lemma {:induction false} RoomTested(size: nat, idx: nat, len: nat)
    requires size < LIMIT31 && len < LIMIT31 && idx < LIMIT32
    ensures PatchResult(size, idx, len).Ok? <==> idx + len <= size
    ensures PatchResult(size, idx, len).Astray? <==> idx + len >= LIMIT32 && idx + len - LIMIT32 <= size
    ensures PatchResult(size, idx, len).NoSpace? <==>
              size < idx + len && (idx + len < LIMIT32 || size < idx + len - LIMIT32)
  {
    if idx + len >= LIMIT32 {
      assert (idx + len) % LIMIT32 == idx + len - LIMIT32;
    }
  }

  /** One word at the last aligned index passes for every value, and lies outside of all of them. */
  lemma {:induction false} LastIndexGoesAstray(size: nat)
    requires size < LIMIT31
    ensures HasRoom(size, LIMIT32 - 4, 4) && size < LIMIT32 - 4 && PatchResult(size, LIMIT32 - 4, 4) == Astray
  {
    RoomTested(size, LIMIT32 - 4, 4);
  }

  /** Writes data at offset idx of the property's value. */
  method PatchValue(blob: Blob, q: nat, idx: nat, data: Bytes, ghost a: seq<Token>, ghost t: Token,
                    ghost c: seq<Token>) returns (e: Error)
    requires Holds(blob.Value(), a + [t] + c) && t.Prop? && ValidTokens(a) && q == |Flat(a)|
    requires idx < LIMIT32 && |data| < LIMIT31
    modifies blob, blob.buf
    ensures e == PatchResult(|t.val|, idx, |data|)
    ensures e.Ok? ==> idx + |data| <= |t.val| && Holds(blob.Value(), a + [t.(val := Put(t.val, idx, data))] + c)
    ensures e.Ok? ==> SameRest(old(blob.Value()), blob.Value())
    ensures e.NoSpace? ==> blob.Value() == old(blob.Value())
  {
    var len := PropLength(blob, q, a, t, c);
    if len < (|data| + idx) % LIMIT32 {
      return NoSpace;
    }
    if len < |data| + idx {
      return Astray;
    }
    ghost var was := blob.Value();
    PatchFits(was, a, t, c, idx, data);
    blob.WriteStruct(q + 12 + idx, data);
    ghost var now := blob.Value();
    PatchedHolds(was, a, t, c, idx, data, q + 12 + idx, t.(val := Put(t.val, idx, data)), now);
    return Ok;
  }

  /** The same for the first property of that name of a node. */
  method PatchProp(blob: Blob, o: nat, name: Bytes, idx: nat, data: Bytes, ghost pre: seq<Token>, ghost n: RNode,
                   ghost post: seq<Token>)
    returns (e: Error, ghost m: RNode)
    requires Placed(blob.Value(), pre, n, post, o) && idx < LIMIT32 && |data| < LIMIT31
    modifies blob, blob.buf
    ensures var i := PropIndex(n.head, Named(old(blob.Value()).Strings(), name), 0);
            && e == (if i == |n.head| then NotFound else PatchResult(|n.head[i].val|, idx, |data|))
            && (e.Ok? ==> && idx + |data| <= |n.head[i].val| && Ops.PropReplaced(n, m, i, Put(n.head[i].val, idx, data))
                          && m.head[i].pad == n.head[i].pad)
    ensures e.Ok? ==> Placed(blob.Value(), pre, m, post, o) && SameRest(old(blob.Value()), blob.Value())
    ensures e.NotFound? || e.NoSpace? ==> blob.Value() == old(blob.Value())
  {
    m := n;
    var r;
    ghost var i;
    r, i := FindProperty(blob, o, name, pre, n, post);
    if r.None? {
      return NotFound, n;
    }
    Ops.ItemHolds(blob.Value(), pre, n, post, i);
    ghost var t := ItemToken(n.head[i]);
    e := PatchValue(blob, r.value, idx, data, BeforeItem(pre, n, i), t, FromItem(n, i + 1, post));
    if e.Ok? {
      ghost var x := Ops.TokenItem(t.(val := Put(t.val, idx, data)));
      m := n.(head := n.head[i := x]);
      Ops.ItemReplaced(blob.Value(), pre, n, post, i, x, o);
    }
  }

  lemma {:induction false} PatchedAbs(n: RNode, m: RNode, strs: Bytes, name: Bytes, idx: nat, data: Bytes)
    requires NamesResolve(NodeTokens(n), strs)
    requires var i := PropIndex(n.head, Named(strs, name), 0);
             i < |n.head| && idx + |data| <= |n.head[i].val| && Ops.PropReplaced(n, m, i, Put(n.head[i].val, idx, data))
    ensures var t := Abs(n, NameTable(strs)); var j := PropPos(t.props, name);
            && j < |t.props| && idx + |data| <= |t.props[j].val|
            && Abs(m, NameTable(strs)) == FdtModel.SetProp(t, name, Put(t.props[j].val, idx, data))
  {
    var i := PropIndex(n.head, Named(strs, name), 0);
    NodeResolves(n, strs);
    NamedDecides(n.head, strs, name);
    PropPosAbs(n.head, Named(strs, name), NameTable(strs), name);
    AbsHeadAround(n.head, NameTable(strs), i);
    ReplacedAbs(n, m, strs, name, Put(n.head[i].val, idx, data));
  }

  lemma {:induction false} PatchedOutline(n: RNode, m: RNode, i: nat, val: Bytes)
    requires Ops.PropReplaced(n, m, i, val) && |val| == |n.head[i].val| && m.head[i].pad == n.head[i].pad
    ensures Outline(m) == Outline(n)
  {
    var x := m.head[i];
    assert OutlineItem(x) == OutlineItem(n.head[i]);
    assert OutlineHead(m.head) == OutlineHead(n.head);
  }

  // ---------------------------------------------------------------------------------------
  // The node at a path
  // ---------------------------------------------------------------------------------------

  /** Only property values at and below path p were written to; no token has moved. */
  ghost predicate Rewritten(was: Image, im: Image, root: RNode, now: RNode, p: Path) {
    && InNode(root, p) && InNode(now, p) && Encodes(im, now) && SameRest(was, im)
    && Outline(root) == Outline(now) && now == PutNode(root, p, SubNode(now, p))
  }

  lemma {:induction false} RewrittenNot(im: Image, root: RNode, p: Path, o: nat)
    requires LiesAt(im, root, p, o)
    ensures Rewritten(im, im, root, root, p)
  {
    PutSame(root, p);
  }

  lemma {:induction false} RewrittenAt(was: Image, im: Image, root: RNode, p: Path, m: RNode, o: nat)
    requires LiesAt(was, root, p, o) && Placed(im, Before([], root, p), m, After(root, p, Tail(root)), o)
    requires SameRest(was, im) && Outline(SubNode(root, p)) == Outline(m)
    ensures Rewritten(was, im, root, PutNode(root, p, m), p) && SubNode(PutNode(root, p, m), p) == m
  {
    SameNops(SubNode(root, p), m);
    PlacedLies(im, root, p, m, o);
    PutBefore([], root, p, m);
    OutlinePut(root, p, m);
  }

  lemma {:induction false} RewrittenTree(was: Image, im: Image, root: RNode, now: RNode, p: Path)
    requires Rewritten(was, im, root, now, p) && was.Ordered()
    ensures InTree(Contents(was, root), p) && TreeAt(Contents(was, root), p) == Contents(was, SubNode(root, p))
    ensures Contents(im, now) == Replaced(Contents(was, root), p, Contents(im, SubNode(now, p)))
  {
    AbsIn(root, p, NameTable(was.Strings()));
    AbsPut(root, p, SubNode(now, p), NameTable(was.Strings()));
  }

  /** What becomes of a node when data is written into a property; none if the property or its room is missing. */
  ghost function Patched(t: Tree, name: Bytes, idx: nat, data: Bytes): Option<Tree> {
    var j := PropPos(t.props, name);
    if j < |t.props| && idx + |data| <= |t.props[j].val|
      then Some(FdtModel.SetProp(t, name, Put(t.props[j].val, idx, data))) else None
  }

  /** The error that goes with it. */
  function PatchError(t: Tree, name: Bytes, idx: nat, len: nat): Error {
    var j := PropPos(t.props, name);
    if j == |t.props| then NotFound else PatchResult(|t.props[j].val|, idx, len)
  }

  lemma {:induction false} PatchFails(n: RNode, strs: Bytes, name: Bytes)
    requires NamesResolve(NodeTokens(n), strs)
    ensures var i, t := PropIndex(n.head, Named(strs, name), 0), Abs(n, NameTable(strs));
            var j := PropPos(t.props, name);
            (i < |n.head| <==> j < |t.props|) && (i < |n.head| ==> n.head[i].val == t.props[j].val)
  {
    var i := PropIndex(n.head, Named(strs, name), 0);
    NodeResolves(n, strs);
    NamedDecides(n.head, strs, name);
    PropPosAbs(n.head, Named(strs, name), NameTable(strs), name);
    if i < |n.head| {
      AbsHeadAround(n.head, NameTable(strs), i);
    }
  }

  /** Writes into a property of the node at path p. */
  method WriteInPlace(blob: Blob, o: nat, name: Bytes, idx: nat, data: Bytes, ghost root: RNode, ghost p: Path)
    returns (e: Error, ghost now: RNode)
    requires LiesAt(blob.Value(), root, p, o) && idx < LIMIT32 && |data| < LIMIT31
    modifies blob, blob.buf
    ensures e == PatchError(old(Contents(blob.Value(), SubNode(root, p))), name, idx, |data|)
    ensures !e.Astray? ==> Rewritten(old(blob.Value()), blob.Value(), root, now, p) && LiesAt(blob.Value(), now, p, o)
    ensures !e.Astray? ==> SubNode(now, p).kids == SubNode(root, p).kids
    ensures e.Ok? ==> Patched(old(Contents(blob.Value(), SubNode(root, p))), name, idx, data) ==
                      Some(Contents(blob.Value(), SubNode(now, p)))
    ensures e.NotFound? || e.NoSpace? ==> blob.Value() == old(blob.Value()) && now == root
  {
    ghost var was, n := blob.Value(), SubNode(root, p);
    LiesPlaced(was, root, p, o);
    PatchFails(n, was.Strings(), name);
    RewrittenNot(was, root, p, o);
    ghost var m;
    e, m := PatchProp(blob, o, name, idx, data, Before([], root, p), n, After(root, p, Tail(root)));
    now := root;
    if e.Ok? {
      now := PutNode(root, p, m);
      PatchedLies(was, blob.Value(), root, p, n, m, o, name, idx, data);
    }
  }

  lemma {:induction false} PatchedLies(was: Image, im: Image, root: RNode, p: Path, n: RNode, m: RNode, o: nat,
                                       name: Bytes, idx: nat, data: Bytes)
    requires LiesAt(was, root, p, o) && Placed(im, Before([], root, p), m, After(root, p, Tail(root)), o)
             && SameRest(was, im) && n == SubNode(root, p)
    requires var i := PropIndex(n.head, Named(was.Strings(), name), 0);
             i < |n.head| && idx + |data| <= |n.head[i].val|
               && Ops.PropReplaced(n, m, i, Put(n.head[i].val, idx, data)) && m.head[i].pad == n.head[i].pad
    ensures var now := PutNode(root, p, m);
            && Rewritten(was, im, root, now, p) && LiesAt(im, now, p, o) && SubNode(now, p).kids == n.kids
            && Patched(Contents(was, n), name, idx, data) == Some(Contents(im, SubNode(now, p)))
  {
    var i := PropIndex(n.head, Named(was.Strings(), name), 0);
    LiesPlaced(was, root, p, o);
    PatchedAbs(n, m, was.Strings(), name, idx, data);
    PatchedOutline(n, m, i, Put(n.head[i].val, idx, data));
    RewrittenAt(was, im, root, p, m, o);
    StillLies(was, im, root, PutNode(root, p, m), p, o);
  }

  /** The same for the whole tree: this property changes and nothing else, and every node keeps its offset. */
  method SetPropInPlace(blob: Blob, o: nat, name: Bytes, idx: nat, data: Bytes, ghost root: RNode, ghost p: Path)
    returns (e: Error, ghost now: RNode)
    requires LiesAt(blob.Value(), root, p, o) && idx < LIMIT32 && |data| < LIMIT31
    modifies blob, blob.buf
    ensures InTree(old(Contents(blob.Value(), root)), p)
    ensures e == PatchError(TreeAt(old(Contents(blob.Value(), root)), p), name, idx, |data|)
    ensures !e.Astray? ==> SameRest(old(blob.Value()), blob.Value())
    ensures e.Ok? ==>
              var t := old(Contents(blob.Value(), root)); var j := PropPos(TreeAt(t, p).props, name);
              && idx + |data| <= |TreeAt(t, p).props[j].val|
              && Contents(blob.Value(), now) ==
                 Replaced(t, p, FdtModel.SetProp(TreeAt(t, p), name, Put(TreeAt(t, p).props[j].val, idx, data)))
    ensures e.NotFound? || e.NoSpace? ==> blob.Value() == old(blob.Value()) && now == root
    ensures !e.Astray? ==> forall q, x :: old(LiesAt(blob.Value(), root, q, x)) ==> LiesAt(blob.Value(), now, q, x)
  {
    ghost var was := blob.Value();
    AbsIn(root, p, NameTable(was.Strings()));
    e, now := WriteInPlace(blob, o, name, idx, data, root, p);
    if e.Astray? {
      return;
    }
    ghost var im := blob.Value();
    RewrittenTree(was, im, root, now, p);
    forall q, x | LiesAt(was, root, q, x)
      ensures LiesAt(im, now, q, x)
    {
      StillLies(was, im, root, now, q, x);
    }
  }
}
