/**
  Shifting the phandles of an overlay and its local references to them, in the overlay's blob. Both
  passes write in place, so no node moves while they walk; what they leave is the tree that the
  functions of FdtPhandle describe.
  */
module FdtLocal {
  import opened Options
  import opened FdtFormat
  import opened FdtTree
  import opened FdtRead
  import opened FdtBlob
  import opened FdtChunk
  import opened FdtEdit
  import opened FdtRw
  import opened FdtModel
  import opened FdtContents
  import opened FdtWhole
  import opened FdtPath
  import opened FdtOutline
  import opened FdtWip
  import M = FdtMergeMeaning
  import O = FdtOverlay
  import P = FdtPhandle

  // ---------------------------------------------------------------------------------------
  // Reading at a path
  // ---------------------------------------------------------------------------------------

  /** The block seen from the node at path p. */
  lemma {:induction false} LiesOverlay(im: Image, root: RNode, p: Path, o: nat)
    returns (ts: seq<Token>, at: seq<nat>, k: nat)
    requires LiesAt(im, root, p, o)
    ensures ts == Whole(root) && ValidTokens(ts) && at == Offsets(ts) && k == IndexOf(0, root, p)
    ensures O.Overlay(im.Struct(), im.Strings(), ts, at, k, SubNode(root, p)) && ts[k].Begin?
            && ts[k].name == SubNode(root, p).name && o == at[k]
  {
    ts := Whole(root);
    k := IndexOf(0, root, p);
    LiesIndex(im, root, p, o);
    at := Offsets(ts);
    FlatIndexed(ts);
    assert Occurs(ts, 0, NodeTokens(root));
    NodeOccurs(ts, 0, root, p);
    NodeParts(ts, k, SubNode(root, p));
    LiesPlaced(im, root, p, o);
    O.ValidInside(ts, k, NodeTokens(SubNode(root, p)));
  }

  /** A child's offset. */
  lemma {:induction false} KidLies(im: Image, root: RNode, p: Path, o: nat, j: nat, c: nat)
    requires LiesAt(im, root, p, o) && j < |SubNode(root, p).kids|
             && c == IndexOf(0, root, p) + KidIndex(SubNode(root, p), j)
    ensures ValidTokens(Whole(root)) && c < |Whole(root)| && LiesAt(im, root, p + [j], Offsets(Whole(root))[c])
  {
    IndexSnoc(0, root, p, j);
    LiesIndex(im, root, p, o);
    LiesIndex(im, root, p + [j], 0);
    LiesIndex(im, root, p + [j], Offsets(Whole(root))[c]);
  }

  lemma {:induction false} ValueFound(n: RNode, strs: Bytes, name: Bytes)
    requires NamesResolve(NodeTokens(n), strs)
    ensures var i := PropIndex(n.head, Named(strs, name), 0);
            M.Value(Abs(n, NameTable(strs)).props, name) == if i < |n.head| then Some(n.head[i].val) else None
  {
    PatchFails(n, strs, name);
    M.ValueAt(Abs(n, NameTable(strs)).props, name);
  }

  lemma {:induction false} FoundItem(ts: seq<Token>, k: nat, n: RNode, has: nat -> bool) returns (i: nat)
    requires k < |ts| && Occurs(ts, k, NodeTokens(n))
    ensures i == PropIndex(n.head, has, 0) && FindProp(ts, has, k + 1) == if i < |n.head| then Some(k + 1 + i) else None
    ensures i < |n.head| ==> k + 1 + i < |ts| && ts[k + 1 + i].Prop? && ts[k + 1 + i].val == n.head[i].val
  {
    i := PropIndex(n.head, has, 0);
    FindInNode(ts, k, n, has);
    if i < |n.head| {
      HeadFacts(ts, k, n);
      assert ts[k + 1 + i] == ItemToken(n.head[i]);
    }
  }

  /** The value of the first property of that name of the node at token k, and its offset. */
  method ValueAmong(b: Bytes, strs: Bytes, o: nat, name: Bytes, ghost ts: seq<Token>, ghost at: seq<nat>,
                    ghost k: nat, ghost n: RNode)
    returns (r: Option<Bytes>, place: nat)
    requires Indexed(b, ts, at) && k < |ts| && Occurs(ts, k, NodeTokens(n)) && ts[k].Begin? && o == at[k]
    ensures var i := PropIndex(n.head, Named(strs, name), 0);
            && r == (if i < |n.head| then Some(n.head[i].val) else None)
            && (i < |n.head| ==> k + 1 + i < |at| && place == at[k + 1 + i] + 12)
  {
    ghost var i := FoundItem(ts, k, n, Named(strs, name));
    var f := PropertyOffset(b, strs, o, name, ts, at, k);
    if f.None? {
      return None, 0;
    }
    var off, val := GetProperty(b, f.value, ts, at, k + 1 + i);
    return Some(val), f.value + 12;
  }

  /** The value of a property of the node at path p. */
  method GetProp(blob: Blob, o: nat, name: Bytes, ghost root: RNode, ghost p: Path) returns (r: Option<Bytes>)
    requires LiesAt(blob.Value(), root, p, o)
    ensures r == M.Value(Contents(blob.Value(), SubNode(root, p)).props, name)
  {
    var b := StructBytes(blob);
    var strs := StringBytes(blob);
    ghost var ts, at, k := LiesOverlay(blob.Value(), root, p, o);
    ValueFound(SubNode(root, p), strs, name);
    var place;
    r, place := ValueAmong(b, strs, o, name, ts, at, k, SubNode(root, p));
  }

  /** The first child of the node at path p. */
  method FirstBelow(blob: Blob, o: nat, ghost root: RNode, ghost p: Path) returns (r: Option<nat>)
    requires LiesAt(blob.Value(), root, p, o)
    ensures r.Some? <==> SubNode(root, p).kids != []
    ensures r.Some? ==> LiesAt(blob.Value(), root, p + [0], r.value)
  {
    var b := StructBytes(blob);
    ghost var ts, at, k := LiesOverlay(blob.Value(), root, p, o);
    ghost var c;
    r, c := O.FirstChild(b, o, blob.Value().Strings(), ts, at, k, SubNode(root, p));
    if r.Some? {
      KidLies(blob.Value(), root, p, o, 0, c);
    }
  }

  /** Where child j and the one behind it lie. */
  lemma {:induction false} NextPlace(im: Image, root: RNode, p: Path, o: nat, j: nat, q: nat)
    returns (ts: seq<Token>, at: seq<nat>, c: nat, d: nat)
    requires LiesAt(im, root, p, o) && j < |SubNode(root, p).kids| && LiesAt(im, root, p + [j], q)
    ensures Indexed(im.Struct(), ts, at) && c < |ts| && ts[c].Begin? && q == at[c]
    ensures NextIs(ts, c, if j + 1 < |SubNode(root, p).kids| then Some(d) else None)
    ensures j + 1 < |SubNode(root, p).kids| ==> d < |at| && LiesAt(im, root, p + [j + 1], at[d])
  {
    var k;
    ts, at, k := LiesOverlay(im, root, p, o);
    var n := SubNode(root, p);
    c, d := k + KidIndex(n, j), 0;
    KidAt(im, root, p, j, q, ts, c);
    if j + 1 < |n.kids| {
      d := k + KidIndex(n, j + 1);
      KidLies(im, root, p, o, j + 1, d);
    }
    NextIndex(ts, k, n, j, c, d);
  }

  /** Child j, which lies at offset q, starts at token c. */
  lemma {:induction false} KidAt(im: Image, root: RNode, p: Path, j: nat, q: nat, ts: seq<Token>, c: nat)
    requires Encodes(im, root) && InNode(root, p) && j < |SubNode(root, p).kids| && LiesAt(im, root, p + [j], q)
    requires ts == Whole(root) && ValidTokens(ts) && c == IndexOf(0, root, p) + KidIndex(SubNode(root, p), j)
    ensures c < |ts| && ts[c].Begin? && q == Offsets(ts)[c]
  {
    IndexSnoc(0, root, p, j);
    var us, at, k := LiesOverlay(im, root, p + [j], q);
  }

  /** The sibling behind the child at token c is at token d. */
  ghost predicate NextIs(ts: seq<Token>, c: nat, d: Option<nat>) {
    var s := Resume(ts, c + 1, 1, AnyName());
    if d.Some? then s == At(d.value) else !s.At?
  }

  lemma {:induction false} NextIndex(ts: seq<Token>, k: nat, n: RNode, j: nat, c: nat, d: nat)
    requires Occurs(ts, k, NodeTokens(n)) && j < |n.kids| && c == k + KidIndex(n, j)
    requires j + 1 < |n.kids| ==> d == k + KidIndex(n, j + 1)
    ensures NextIs(ts, c, if j + 1 < |n.kids| then Some(d) else None)
  {
    O.NextChildAt(ts, k, n, j, c);
  }

  /** The child behind child j, which lies at offset q. */
  method NextBelow(blob: Blob, q: nat, ghost o: nat, ghost root: RNode, ghost p: Path, ghost j: nat)
    returns (r: Option<nat>)
    requires LiesAt(blob.Value(), root, p, o) && j < |SubNode(root, p).kids| && LiesAt(blob.Value(), root, p + [j], q)
    ensures r.Some? <==> j + 1 < |SubNode(root, p).kids|
    ensures r.Some? ==> LiesAt(blob.Value(), root, p + [j + 1], r.value)
  {
    var b := StructBytes(blob);
    ghost var ts, at, c, d := NextPlace(blob.Value(), root, p, o, j, q);
    r := NextSubnode(b, q, ts, at, c);
  }

  /** Where the first child that answers to a name lies. */
  lemma {:induction false} NamedPlace(im: Image, root: RNode, p: Path, o: nat, name: Bytes)
    returns (ts: seq<Token>, at: seq<nat>, k: nat, j: nat, c: nat)
    requires LiesAt(im, root, p, o)
    ensures Indexed(im.Struct(), ts, at) && k < |ts| && ts[k].Begin? && o == at[k]
    ensures j == FirstKid(SubNode(root, p).kids, 0, Answering(name)) && j <= |SubNode(root, p).kids|
    ensures NamedIs(ts, k, name, if j < |SubNode(root, p).kids| then Some(c) else None)
    ensures j < |SubNode(root, p).kids| ==> c < |at| && LiesAt(im, root, p + [j], at[c])
  {
    var n := SubNode(root, p);
    ts, at, k := LiesOverlay(im, root, p, o);
    j, c := FirstKid(n.kids, 0, Answering(name)), 0;
    NamedIndex(ts, k, n, name);
    if j < |n.kids| {
      c := k + KidIndex(n, j);
      KidLies(im, root, p, o, j, c);
    }
  }

  /** The search for a child ends at token c. */
  ghost predicate NamedIs(ts: seq<Token>, k: nat, name: Bytes, c: Option<nat>) {
    var s := Resume(ts, k + 1, 0, Answering(name));
    if c.Some? then s == At(c.value) else !s.At?
  }

  lemma {:induction false} NamedIndex(ts: seq<Token>, k: nat, n: RNode, name: Bytes)
    requires Occurs(ts, k, NodeTokens(n))
    ensures var j := FirstKid(n.kids, 0, Answering(name));
            NamedIs(ts, k, name, if j < |n.kids| then Some(k + KidIndex(n, j)) else None)
  {
    SearchNode(ts, k, n, Answering(name));
  }

  /** The first child of the node at path p that answers to a name. */
  method NamedBelow(blob: Blob, o: nat, name: Bytes, ghost root: RNode, ghost p: Path)
    returns (r: Option<nat>, ghost j: nat)
    requires LiesAt(blob.Value(), root, p, o)
    ensures j == FirstKid(SubNode(root, p).kids, 0, Answering(name)) ==
            KidPos(Contents(blob.Value(), SubNode(root, p)).kids, name)
    ensures r.Some? <==> j < |SubNode(root, p).kids|
    ensures r.Some? ==> LiesAt(blob.Value(), root, p + [j], r.value)
  {
    var b := StructBytes(blob);
    ghost var ts, at, k, c;
    KidPosAbs(SubNode(root, p).kids, NameTable(blob.Value().Strings()), name);
    ts, at, k, j, c := NamedPlace(blob.Value(), root, p, o, name);
    r := SubnodeOffset(b, o, name, ts, at, k);
  }

  method NodeName(blob: Blob, o: nat, ghost root: RNode, ghost p: Path) returns (name: Bytes)
    requires LiesAt(blob.Value(), root, p, o)
    ensures name == SubNode(root, p).name
  {
    var b := StructBytes(blob);
    ghost var ts, at, k := LiesOverlay(blob.Value(), root, p, o);
    name := GetName(b, o, ts, at, k);
  }

  // ---------------------------------------------------------------------------------------
  // One write after another
  // ---------------------------------------------------------------------------------------

  lemma {:induction false} PutTwice(n: RNode, p: Path, a: RNode, b: RNode)
    requires InNode(n, p)
    ensures InNode(PutNode(n, p, a), p) && PutNode(PutNode(n, p, a), p, b) == PutNode(n, p, b)
    decreases |p|
  {
    if p != [] {
      PutTwice(n.kids[p[0]], p[1..], a, b);
    }
  }

  lemma {:induction false} PutSnoc(n: RNode, p: Path, j: nat, c: RNode)
    requires InNode(n, p) && j < |SubNode(n, p).kids|
    ensures InNode(n, p + [j]) && PutNode(n, p + [j], c) ==
            PutNode(n, p, SubNode(n, p).(kids := SubNode(n, p).kids[j := c]))
    decreases |p|
  {
    var q := p + [j];
    if p == [] {
      assert q[1..] == [];
    } else {
      assert q[1..] == p[1..] + [j];
      PutSnoc(n.kids[p[0]], p[1..], j, c);
    }
  }

  lemma {:induction false} RewrittenOn(was: Image, mid: Image, im: Image, root: RNode, now: RNode, next: RNode, p: Path)
    requires Rewritten(was, mid, root, now, p) && Rewritten(mid, im, now, next, p)
    ensures Rewritten(was, im, root, next, p)
  {
    PutTwice(root, p, SubNode(now, p), SubNode(next, p));
  }

  /** Writing below child j is writing below the node. */
  lemma {:induction false} RewrittenKid(was: Image, mid: Image, im: Image, root: RNode, now: RNode, next: RNode,
                                        p: Path, j: nat)
    requires Rewritten(was, mid, root, now, p) && j < |SubNode(now, p).kids| && Rewritten(mid, im, now, next, p + [j])
    ensures Rewritten(was, im, root, next, p)
    ensures SubNode(next, p) == SubNode(now, p).(kids := SubNode(now, p).kids[j := SubNode(next, p + [j])])
  {
    var m := SubNode(now, p).(kids := SubNode(now, p).kids[j := SubNode(next, p + [j])]);
    PutSnoc(now, p, j, SubNode(next, p + [j]));
    PutBefore([], now, p, m);
    PutTwice(root, p, SubNode(now, p), m);
  }

  lemma {:induction false} KidContents(was: Image, im: Image, n: RNode, j: nat, c: RNode)
    requires SameRest(was, im) && j < |n.kids|
    ensures var t := Contents(was, n);
            && j < |t.kids| && t.kids[j] == Contents(was, n.kids[j])
            && Contents(im, n.(kids := n.kids[j := c])) == t.(kids := t.kids[j := Contents(im, c)])
  {
    AbsKidAt(n.kids, NameTable(was.Strings()), j);
    AbsKidsUpdate(n.kids, j, c, NameTable(was.Strings()));
  }

  // ---------------------------------------------------------------------------------------
  // Phandles
  // ---------------------------------------------------------------------------------------

  /** The outcome of a pass at a node: the tree it leaves there, or the error it ends with. */
  ghost predicate Outcome(r: P.Result<Tree>, e: Option<P.Error>, t: Tree) {
    match r
    case Ok(u) => e == None && t == u
    case Err(x) => e == Some(x)
  }

  /** What a word written over a phandle leaves. */
  lemma {:induction false} PatchedPhandle(t: Tree, name: Bytes, v: Bytes, w: nat)
    requires M.Value(t.props, name) == Some(v) && |v| == 4 && w < LIMIT32
    ensures Patched(t, name, 0, Be32(w)) == Some(FdtModel.SetProp(t, name, Be32(w)))
  {
    M.ValueAt(t.props, name);
    assert Put(v, 0, Be32(w)) == Be32(w);
  }

  lemma {:induction false} ShiftedPhandle(t: Tree, name: Bytes, v: Bytes, delta: nat, w: nat, u: Tree)
    requires M.Value(t.props, name) == Some(v) && |v| == 4 && w == Word(v, 0) + delta < LIMIT32 - 1
    requires Patched(t, name, 0, Be32(w)) == Some(u)
    ensures Outcome(P.AddOffset(t, name, delta), None, u)
  {
    PatchedPhandle(t, name, v, w);
  }

  /** The sum of two words, unless it wraps around or is the largest word. */
  method AddWords(w: nat, delta: nat) returns (r: Option<nat>)
    requires w < LIMIT32 && delta < LIMIT32
    ensures r == if w + delta >= LIMIT32 - 1 then None else Some(w + delta)
  {
    var sum := (w + delta) % LIMIT32;
    if sum < w || sum == LIMIT32 - 1 {
      return None;
    }
    return Some(sum);
  }

  /** Adds delta to the phandle in a property of the node at path p. */
  method AddOffset(blob: Blob, o: nat, name: Bytes, delta: nat, ghost root: RNode, ghost p: Path)
    returns (e: Option<P.Error>, ghost now: RNode)
    requires LiesAt(blob.Value(), root, p, o) && delta < LIMIT32
    modifies blob, blob.buf
    ensures Rewritten(old(blob.Value()), blob.Value(), root, now, p) && LiesAt(blob.Value(), now, p, o)
    ensures Outcome(P.AddOffset(old(Contents(blob.Value(), SubNode(root, p))), name, delta), e,
            Contents(blob.Value(), SubNode(now, p)))
    ensures e.Some? ==> blob.Value() == old(blob.Value()) && now == root
  {
    ghost var t := Contents(blob.Value(), SubNode(root, p));
    now := root;
    RewrittenNot(blob.Value(), root, p, o);
    var val := GetProp(blob, o, name, root, p);
    if val.None? {
      return Some(P.NotFound), root;
    }
    if |val.value| != 4 {
      return Some(P.BadPhandle), root;
    }
    var sum := AddWords(Word(val.value, 0), delta);
    if sum.None? {
      return Some(P.NoPhandles), root;
    }
    M.ValueAt(t.props, name);
    var r;
    r, now := WriteInPlace(blob, o, name, 0, Be32(sum.value), root, p);
    ShiftedPhandle(t, name, val.value, delta, sum.value, Contents(blob.Value(), SubNode(now, p)));
    return None, now;
  }

  ghost function Joined(done: seq<Tree>, r: P.Result<seq<Tree>>): P.Result<seq<Tree>> {
    match r
    case Ok(ks) => P.Ok(done + ks)
    case Err(e) => P.Err(e)
  }

  /** The first i children of t have been shifted. */
  ghost predicate KidsShifted(t: Tree, cur: Tree, i: nat, delta: nat) {
    && i <= |t.kids| == |cur.kids| && cur == t.(kids := cur.kids) && cur.kids[i..] == t.kids[i..]
    && P.AdjustKids(t.kids, delta) == Joined(cur.kids[..i], P.AdjustKids(t.kids[i..], delta))
  }

  lemma {:induction false} KidsShiftedStart(t: Tree, delta: nat)
    ensures KidsShifted(t, t, 0, delta)
  {
    assert t.kids[0..] == t.kids;
    var r := P.AdjustKids(t.kids, delta);
    assert r.Ok? ==> t.kids[..0] + r.value == r.value;
  }

  lemma {:induction false} KidsShiftedStep(t: Tree, cur: Tree, i: nat, delta: nat)
    requires KidsShifted(t, cur, i, delta) && i < |t.kids|
    ensures match P.AdjustNode(cur.kids[i], delta)
            case Ok(k) => KidsShifted(t, cur.(kids := cur.kids[i := k]), i + 1, delta)
            case Err(x) => P.AdjustKids(t.kids, delta) == P.Err(x)
  {
    var ks := t.kids[i..];
    assert ks[0] == cur.kids[i..][0] == cur.kids[i] && ks[1..] == t.kids[i + 1..];
    match P.AdjustNode(cur.kids[i], delta)
    case Err(x) =>
    case Ok(k) =>
      var next := cur.kids[i := k];
      assert next[..i + 1] == cur.kids[..i] + [k];
      assert next[i + 1..] == cur.kids[i..][1..] == t.kids[i + 1..];
      match P.AdjustKids(ks[1..], delta)
      case Err(x) =>
      case Ok(rest) => assert cur.kids[..i] + ([k] + rest) == next[..i + 1] + rest;
  }

  lemma {:induction false} KidsShiftedEnd(t: Tree, cur: Tree, delta: nat)
    requires KidsShifted(t, cur, |t.kids|, delta)
    ensures P.AdjustKids(t.kids, delta) == P.Ok(cur.kids)
  {
    assert t.kids[|t.kids|..] == [];
    assert cur.kids[..|t.kids|] + [] == cur.kids;
  }

  /** The outline of a child is a part of the outline of the node. */
  lemma {:induction false} KidOutline(root: RNode, p: Path, j: nat)
    requires InNode(root, p) && j < |SubNode(root, p).kids|
    ensures InNode(root, p + [j]) && Outline(SubNode(root, p + [j])) == Outline(SubNode(root, p)).kids[j]
    ensures SubNode(root, p + [j]) == SubNode(root, p).kids[j]
  {
    IndexSnoc(0, root, p, j);
    OutlineKidAt(SubNode(root, p).kids, j);
  }

  /** What the children's pass leaves, or the error it ends with. */
  ghost predicate KidsOutcome(r: P.Result<seq<Tree>>, e: Option<P.Error>, t: Tree, u: Tree) {
    match r
    case Ok(ks) => e == None && u == t.(kids := ks)
    case Err(x) => e == Some(x)
  }

  /** The pass over the children has come to child i, at the given offset; none are left if there is no offset. */
  ghost predicate Reached(im: Image, now: RNode, p: Path, o: nat, shape: RNode, i: nat, child: Option<nat>) {
    && LiesAt(im, now, p, o) && Outline(SubNode(now, p)) == shape && i <= |SubNode(now, p).kids| == |shape.kids|
    && (if i < |SubNode(now, p).kids| then child.Some? && LiesAt(im, now, p + [i], child.value) else child.None?)
  }

  /** Shifts the phandles of child i and goes on to the next one. */
  method AdjustKid(blob: Blob, q: nat, ghost o: nat, delta: nat, ghost root: RNode, ghost p: Path, ghost shape: RNode,
                   ghost i: nat)
    returns (e: Option<P.Error>, child: Option<nat>, ghost now: RNode)
    requires Reached(blob.Value(), root, p, o, shape, i, Some(q)) && delta < LIMIT32
    modifies blob, blob.buf
    ensures Rewritten(old(blob.Value()), blob.Value(), root, now, p) && LiesAt(blob.Value(), now, p, o)
    ensures e.None? ==> Reached(blob.Value(), now, p, o, shape, i + 1, child)
    ensures var t := old(Contents(blob.Value(), SubNode(root, p)));
            && i < |t.kids|
            && match P.AdjustNode(t.kids[i], delta)
               case Ok(k) => e == None && Contents(blob.Value(), SubNode(now, p)) == t.(kids := t.kids[i := k])
               case Err(x) => e == Some(x)
    decreases shape, 0, 0
  {
    ghost var was := blob.Value();
    child := None;
    KidOutline(root, p, i);
    RewrittenNot(was, root, p, o);
    e, now := AdjustNode(blob, q, delta, root, p + [i], shape.kids[i]);
    KidShifted(was, was, blob.Value(), root, root, now, p, o, i);
    if e.None? {
      child := NextBelow(blob, q, o, now, p, i);
    }
  }

  /** Shifts the phandles below the node at path p, child by child. */
  method AdjustKids(blob: Blob, o: nat, delta: nat, ghost root: RNode, ghost p: Path, ghost shape: RNode)
    returns (e: Option<P.Error>, ghost now: RNode)
    requires LiesAt(blob.Value(), root, p, o) && delta < LIMIT32 && shape == Outline(SubNode(root, p))
    modifies blob, blob.buf
    ensures Rewritten(old(blob.Value()), blob.Value(), root, now, p) && LiesAt(blob.Value(), now, p, o)
    ensures var t := old(Contents(blob.Value(), SubNode(root, p)));
            KidsOutcome(P.AdjustKids(t.kids, delta), e, t, Contents(blob.Value(), SubNode(now, p)))
    decreases shape, 0, 1
  {
    ghost var was, im, i := blob.Value(), blob.Value(), 0;
    ghost var t := Contents(was, SubNode(root, p));
    now := root;
    RewrittenNot(was, root, p, o);
    KidsShiftedStart(t, delta);
    var child := FirstBelow(blob, o, root, p);
    while child.Some?
      invariant im == blob.Value() && Rewritten(was, im, root, now, p) && Reached(im, now, p, o, shape, i, child)
      invariant KidsShifted(t, Contents(im, SubNode(now, p)), i, delta)
      decreases |t.kids| - i
    {
      ghost var next, mid := now, im;
      KidsShiftedStep(t, Contents(im, SubNode(now, p)), i, delta);
      e, child, next := AdjustKid(blob, child.value, o, delta, now, p, shape, i);
      im := blob.Value();
      RewrittenOn(was, mid, im, root, now, next, p);
      now, i := next, i + 1;
      if e.Some? {
        return;
      }
    }
    KidsShiftedEnd(t, Contents(im, SubNode(now, p)), delta);
    e := None;
  }

  /** The node around a child whose pass is over. */
  lemma {:induction false} KidShifted(was: Image, mid: Image, im: Image, root: RNode, now: RNode, next: RNode,
                                      p: Path, o: nat, j: nat)
    requires Rewritten(was, mid, root, now, p) && LiesAt(mid, now, p, o) && j < |SubNode(now, p).kids|
             && Rewritten(mid, im, now, next, p + [j])
    ensures Rewritten(was, im, root, next, p) && LiesAt(im, next, p, o)
    ensures Outline(SubNode(next, p)) == Outline(SubNode(now, p)) && |SubNode(next, p).kids| == |SubNode(now, p).kids|
    ensures var t := Contents(mid, SubNode(now, p));
            && j < |t.kids| && InNode(now, p + [j]) && t.kids[j] == Contents(mid, SubNode(now, p + [j]))
            && Contents(im, SubNode(next, p)) == t.(kids := t.kids[j := Contents(im, SubNode(next, p + [j]))])
  {
    RewrittenKid(was, mid, im, root, now, next, p, j);
    StillLies(mid, im, now, next, p, o);
    SameIndex(0, now, next, p);
    KidOutline(now, p, j);
    KidContents(mid, im, SubNode(now, p), j, SubNode(next, p + [j]));
  }

  /** A node's own phandles, shifted. */
  ghost function ShiftOwn(t: Tree, delta: nat): P.Result<Tree> {
    match P.IfPresent(t, P.AddOffset(t, P.PHANDLE, delta))
    case Err(e) => P.Err(e)
    case Ok(u) => P.IfPresent(u, P.AddOffset(u, P.LINUX_PHANDLE, delta))
  }

  lemma {:induction false} AdjustSplit(t: Tree, delta: nat)
    ensures P.AdjustNode(t, delta) ==
            match ShiftOwn(t, delta)
            case Err(e) => P.Err(e)
            case Ok(w) => match P.AdjustKids(w.kids, delta) case Err(e) => P.Err(e) case Ok(ks) => P.Ok(w.(kids := ks))
  {
  }

  /** A property that is missing is no error. */
  method AddIfPresent(blob: Blob, o: nat, name: Bytes, delta: nat, ghost root: RNode, ghost p: Path)
    returns (e: Option<P.Error>, ghost now: RNode)
    requires LiesAt(blob.Value(), root, p, o) && delta < LIMIT32
    modifies blob, blob.buf
    ensures Rewritten(old(blob.Value()), blob.Value(), root, now, p) && LiesAt(blob.Value(), now, p, o)
    ensures var t := old(Contents(blob.Value(), SubNode(root, p)));
            Outcome(P.IfPresent(t, P.AddOffset(t, name, delta)), e, Contents(blob.Value(), SubNode(now, p)))
  {
    e, now := AddOffset(blob, o, name, delta, root, p);
    if e == Some(P.NotFound) {
      e := None;
    }
  }

  /** Shifts the phandles of the node at path p and of all nodes below it. */
  method AdjustNode(blob: Blob, o: nat, delta: nat, ghost root: RNode, ghost p: Path, ghost shape: RNode)
    returns (e: Option<P.Error>, ghost now: RNode)
    requires LiesAt(blob.Value(), root, p, o) && delta < LIMIT32 && shape == Outline(SubNode(root, p))
    modifies blob, blob.buf
    ensures Rewritten(old(blob.Value()), blob.Value(), root, now, p) && LiesAt(blob.Value(), now, p, o)
    ensures Outcome(P.AdjustNode(old(Contents(blob.Value(), SubNode(root, p))), delta), e,
            Contents(blob.Value(), SubNode(now, p)))
    decreases shape, 1
  {
    ghost var was, t, mid := blob.Value(), Contents(blob.Value(), SubNode(root, p)), root;
    AdjustSplit(t, delta);
    e, now := AddIfPresent(blob, o, P.PHANDLE, delta, root, p);
    if e.Some? {
      return;
    }
    ghost var im := blob.Value();
    e, mid := AddIfPresent(blob, o, P.LINUX_PHANDLE, delta, now, p);
    RewrittenOn(was, im, blob.Value(), root, now, mid, p);
    now := mid;
    if e.Some? {
      return;
    }
    im := blob.Value();
    SameIndex(0, root, now, p);
    e, mid := AdjustKids(blob, o, delta, now, p, shape);
    RewrittenOn(was, im, blob.Value(), root, now, mid, p);
    now := mid;
  }
}
