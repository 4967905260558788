/**
  Applying an overlay node to a node of the base blob. The base is edited in place, property by
  property and child by child; what results is the merge of the two trees.
  */
module FdtOverlay {
  import opened Options
  import opened FdtFormat
  import opened FdtTree
  import opened FdtRead
  import opened FdtBlob
  import opened FdtChunk
  import opened FdtEdit
  import opened FdtRw
  import opened FdtModel
  import opened FdtContents
  import opened FdtMerge
  import opened FdtWhole
  import Ops = FdtOps

  // ---------------------------------------------------------------------------------------
  // Reading the overlay
  // ---------------------------------------------------------------------------------------

  /** The overlay block holds the node `on` at token k. */
  ghost predicate Overlay(b: Bytes, strs: Bytes, ts: seq<Token>, at: seq<nat>, k: nat, on: RNode) {
    && Indexed(b, ts, at) && k < |ts| && Occurs(ts, k, NodeTokens(on))
    && ValidTokens(NodeTokens(on)) && NamesResolve(NodeTokens(on), strs)
  }

  lemma {:induction false} StringNoZero(strs: Bytes, off: nat)
    requires StringAt(strs, off).Some?
    ensures 0 !in StringAt(strs, off).value
  {
  }

  /** The first item from i on that is a property, or the number of items. */
  function NextItem(head: seq<Item>, i: nat): (j: nat)
    requires i <= |head|
    ensures i <= j <= |head| && (j < |head| ==> head[j].ItemProp?)
    decreases |head| - i
  {
    if i == |head| || head[i].ItemProp? then i else NextItem(head, i + 1)
  }

  lemma {:induction false} SkipsNops(ts: seq<Token>, k: nat, head: seq<Item>, i: nat)
    requires k + 1 + |head| < |ts| && i <= |head| && !ts[k + 1 + |head|].Nop?
    requires forall x :: 0 <= x < |head| ==> ts[k + 1 + x] == ItemToken(head[x])
    ensures SkipNops(ts, k + 1 + i) == k + 1 + NextItem(head, i)
    decreases |head| - i
  {
    if i < |head| {
      assert ts[k + 1 + i] == ItemToken(head[i]);
      if head[i].ItemNop? {
        SkipsNops(ts, k, head, i + 1);
      }
    }
  }

  lemma {:induction false} NopsBetween(head: seq<Item>, i: nat, names: nat -> Bytes)
    requires i <= |head|
    ensures AbsHead(head[..NextItem(head, i)], names) == AbsHead(head[..i], names)
    decreases |head| - i
  {
    if i < |head| && head[i].ItemNop? {
      NopsBetween(head, i + 1, names);
      assert head[..i + 1] == head[..i] + [head[i]];
      AbsHeadAppend(head[..i], [head[i]], names);
    }
  }

  /** What the overlay says about item i. */
  lemma {:induction false} OverlayItems(b: Bytes, strs: Bytes, ts: seq<Token>, at: seq<nat>, k: nat, on: RNode)
    requires Overlay(b, strs, ts, at, k, on)
    ensures k + 1 + |on.head| < |ts| && !ts[k + 1 + |on.head|].Nop? && !ts[k + 1 + |on.head|].Prop?
    ensures forall x :: 0 <= x < |on.head| ==> ts[k + 1 + x] == ItemToken(on.head[x])
    ensures HeadResolves(on.head, strs) && ts[k].Begin?
    ensures forall x :: 0 <= x < |on.head| && on.head[x].ItemProp? ==> |on.head[x].val| < LIMIT31
  {
    HeadFacts(ts, k, on);
    NodeResolves(on, strs);
    NodeParts(ts, k, on);
    forall x | 0 <= x < |on.head| && on.head[x].ItemProp?
      ensures |on.head[x].val| < LIMIT31
    {
      var ns := NodeTokens(on);
      assert ts[k + 1 + x] == ItemToken(on.head[x]);
      assert ts[k..k + |ns|][1 + x] == ts[k + 1 + x];
      assert ns[1 + x].Valid();
    }
  }

  /** The offset of the first property from item i on. */
  method NextProperty(b: Bytes, o: nat, ghost strs: Bytes, ghost ts: seq<Token>, ghost at: seq<nat>, ghost k: nat,
                      ghost on: RNode, ghost i: nat)
    returns (r: Option<nat>)
    requires Overlay(b, strs, ts, at, k, on) && i <= |on.head| && |at| == |ts| + 1 && k + 1 + |on.head| < |ts|
             && o == at[k + 1 + i]
    ensures var j := NextItem(on.head, i); r == if j < |on.head| then Some(at[k + 1 + j]) else None
  {
    r := PropertyFrom(b, o, ts, at, k + 1 + i);
    OverlayItems(b, strs, ts, at, k, on);
    SkipsNops(ts, k, on.head, i);
    ghost var j := NextItem(on.head, i);
    assert j < |on.head| ==> ts[k + 1 + j] == ItemToken(on.head[j]);
  }

  /** Name and value of a property of the overlay. */
  method PropertyByOffset(b: Bytes, strs: Bytes, o: nat, ghost ts: seq<Token>, ghost at: seq<nat>, ghost k: nat,
                          ghost on: RNode, ghost j: nat)
    returns (name: Bytes, val: Bytes)
    requires Overlay(b, strs, ts, at, k, on) && j < |on.head| && on.head[j].ItemProp?
    requires |at| == |ts| + 1 && k + 1 + |on.head| < |ts| && o == at[k + 1 + j]
    ensures name == NameTable(strs)(on.head[j].nameoff) && val == on.head[j].val
    ensures 0 !in name && |val| < LIMIT31
  {
    OverlayItems(b, strs, ts, at, k, on);
    assert ts[k + 1 + j] == ItemToken(on.head[j]);
    var off;
    off, val := GetProperty(b, o, ts, at, k + 1 + j);
    StringNoZero(strs, off);
    name := StringAt(strs, off).value;
  }

  // ---------------------------------------------------------------------------------------
  // Properties
  // ---------------------------------------------------------------------------------------

  /** Only the structure block and the end of the strings block may have changed. */
  ghost predicate Grew(was: Image, now: Image) {
    && was.Ordered() && now.Ordered() && was.Strings() <= now.Strings() && now.Reserved() == was.Reserved()
    && |now.bytes| == |was.bytes| && now.offRsv == was.offRsv
  }

  lemma {:induction false} PlacedResolves(im: Image, pre: seq<Token>, n: RNode, post: seq<Token>, o: nat)
    requires Placed(im, pre, n, post, o)
    ensures NamesResolve(NodeTokens(n), im.Strings())
  {
    NamesOfParts(pre, NodeTokens(n), post, im.Strings());
  }

  lemma {:induction false} SetOneGrew(was: Image, now: Image, n: RNode, m: RNode, name: Bytes, val: Bytes)
    requires was.Ordered() && now.Ordered() && NamesResolve(NodeTokens(n), was.Strings())
    requires Ops.PropWritten(n, m, was.Strings(), now.Strings(), name, val, false)
    ensures was.Strings() <= now.Strings() && m.nops == n.nops
    ensures Abs(m, NameTable(now.Strings())) == FdtModel.SetProp(Abs(n, NameTable(was.Strings())), name, val)
  {
    WrittenAbs(n, m, was.Strings(), now.Strings(), name, val, false);
  }

  /** The target node m of the base, grown out of n. */
  ghost predicate Merging(was: Image, im: Image, pre: seq<Token>, n: RNode, m: RNode, post: seq<Token>, target: nat) {
    Placed(im, pre, m, post, target) && Grew(was, im) && m.nops == n.nops
  }

  method SetOne(base: Blob, target: nat, name: Bytes, val: Bytes, ghost pre: seq<Token>, ghost n: RNode,
                ghost post: seq<Token>)
    returns (e: Error, ghost m: RNode)
    requires Placed(base.Value(), pre, n, post, target) && 0 !in name && |val| < LIMIT31
    modifies base, base.buf
    ensures e.Ok? || e.NoSpace?
    ensures Merging(old(base.Value()), base.Value(), pre, n, m, post, target)
    ensures e.Ok? ==> Contents(base.Value(), m) == FdtModel.SetProp(Contents(old(base.Value()), n), name, val)
  {
    ghost var was := base.Value();
    PlacedResolves(was, pre, n, post, target);
    e, m := Ops.WriteProp(base, target, name, val, false, pre, n, post);
    if e.Ok? {
      SetOneGrew(was, base.Value(), n, m, name, val);
    } else {
      m := n;
      Ops.SameHolds(was, base.Value(), pre, n, post, target);
    }
  }

  /** The offset of item j, or none behind the last item. */
  ghost function ItemAt(at: seq<nat>, k: nat, on: RNode, j: nat): Option<nat>
    requires j <= |on.head| && k + 1 + |on.head| < |at|
  {
    if j < |on.head| then Some(at[k + 1 + j]) else None
  }

  method FirstProperty(b: Bytes, node: nat, ghost strs: Bytes, ghost ts: seq<Token>, ghost at: seq<nat>, ghost k: nat,
                       ghost on: RNode)
    returns (r: Option<nat>, ghost j: nat)
    requires Overlay(b, strs, ts, at, k, on) && k + 1 + |on.head| < |ts| && |at| == |ts| + 1 && node == at[k]
    ensures j <= |on.head| && r == ItemAt(at, k, on, j) && (j < |on.head| ==> on.head[j].ItemProp?)
    ensures AbsHead(on.head[..j], NameTable(strs)) == []
  {
    OverlayItems(b, strs, ts, at, k, on);
    var tag := TagAt(b, node, ts, at, k);
    j := NextItem(on.head, 0);
    r := NextProperty(b, tag.value.1, strs, ts, at, k, on, 0);
    NopsBetween(on.head, 0, NameTable(strs));
  }

  /** The property behind the one at offset o, which is item i. */
  method FollowingProperty(b: Bytes, o: nat, ghost strs: Bytes, ghost ts: seq<Token>, ghost at: seq<nat>,
                           ghost k: nat, ghost on: RNode, ghost i: nat)
    returns (r: Option<nat>, ghost j: nat)
    requires Overlay(b, strs, ts, at, k, on) && k + 1 + |on.head| < |ts| && |at| == |ts| + 1
    requires i < |on.head| && on.head[i].ItemProp? && o == at[k + 1 + i]
    ensures i < j <= |on.head| && r == ItemAt(at, k, on, j) && (j < |on.head| ==> on.head[j].ItemProp?)
    ensures AbsHead(on.head[..j], NameTable(strs)) == AbsHead(on.head[..i],
            NameTable(strs)) + [PropertyOf(on.head[i], NameTable(strs))]
  {
    ghost var x := k + 1 + i;
    var tag := TagAt(b, o, ts, at, x);
    j := NextItem(on.head, i + 1);
    r := NextProperty(b, tag.value.1, strs, ts, at, k, on, i + 1);
    assert r == ItemAt(at, k, on, j);
    NopsBetween(on.head, i + 1, NameTable(strs));
    OneItem(on.head, i, NameTable(strs));
  }

  function PropertyOf(x: Item, names: nat -> Bytes): Property
    requires x.ItemProp?
  {
    Property(names(x.nameoff), x.val)
  }

  lemma {:induction false} OneItem(head: seq<Item>, i: nat, names: nat -> Bytes)
    requires i < |head| && head[i].ItemProp?
    ensures AbsHead(head[..i + 1], names) == AbsHead(head[..i], names) + [PropertyOf(head[i], names)]
  {
    assert head[..i + 1] == head[..i] + [head[i]];
    AbsHeadAppend(head[..i], [head[i]], names);
  }

  /** Sets the overlay's property at offset o, item j, in the target node. */
  method ApplyProperty(base: Blob, target: nat, b: Bytes, strs: Bytes, o: nat, ghost pre: seq<Token>, ghost n: RNode,
                       ghost post: seq<Token>,
                       ghost ts: seq<Token>, ghost at: seq<nat>, ghost k: nat, ghost on: RNode, ghost j: nat)
    returns (e: Error, ghost m: RNode)
    requires Placed(base.Value(), pre, n, post, target)
    requires Overlay(b, strs, ts, at, k, on) && k + 1 + |on.head| < |ts| && |at| == |ts| + 1
    requires j < |on.head| && on.head[j].ItemProp? && o == at[k + 1 + j]
    modifies base, base.buf
    ensures e.Ok? || e.NoSpace?
    ensures Merging(old(base.Value()), base.Value(), pre, n, m, post, target)
    ensures e.Ok? ==> Contents(base.Value(), m) ==
                      var p := PropertyOf(on.head[j], NameTable(strs));
                        FdtModel.SetProp(Contents(old(base.Value()), n), p.name, p.val)
  {
    var name, val := PropertyByOffset(b, strs, o, ts, at, k, on, j);
    e, m := SetOne(base, target, name, val, pre, n, post);
  }

  lemma {:induction false} OverlayBounds(b: Bytes, strs: Bytes, ts: seq<Token>, at: seq<nat>, k: nat, on: RNode)
    requires Overlay(b, strs, ts, at, k, on)
    ensures k + 1 + |on.head| < |ts| && |at| == |ts| + 1
  {
    OverlayItems(b, strs, ts, at, k, on);
  }

  /** These properties of the overlay node have been set in the target node. */
  ghost predicate PropsDone(was: Image, im: Image, pre: seq<Token>, n: RNode, m: RNode, post: seq<Token>, target: nat,
                            props: seq<Property>) {
    && Merging(was, im, pre, n, m, post, target)
    && Contents(im, m) == SetProps(Contents(was, n), props)
  }

  lemma {:induction false} MergingOn(was: Image, mid: Image, im: Image, pre: seq<Token>, n: RNode, m: RNode, r: RNode,
                                     post: seq<Token>, target: nat)
    requires Merging(was, mid, pre, n, m, post, target) && Merging(mid, im, pre, m, r, post, target)
    ensures Merging(was, im, pre, n, r, post, target)
  {
  }

  lemma {:induction false} PropsStep(was: Image, mid: Image, im: Image, pre: seq<Token>, n: RNode, m: RNode, r: RNode,
                                     post: seq<Token>, target: nat,
                                     props: seq<Property>, p: Property)
    requires PropsDone(was, mid, pre, n, m, post, target, props)
    requires Merging(mid, im, pre, m, r, post, target)
             && Contents(im, r) == FdtModel.SetProp(Contents(mid, m), p.name, p.val)
    ensures PropsDone(was, im, pre, n, r, post, target, props + [p])
  {
    SetPropsPush(Contents(was, n), props, p);
  }

  /** Sets every property of the overlay node in the target node. */
  method ApplyProps(base: Blob, target: nat, b: Bytes, strs: Bytes, node: nat, ghost pre: seq<Token>, ghost n: RNode,
                    ghost post: seq<Token>,
                    ghost ts: seq<Token>, ghost at: seq<nat>, ghost k: nat, ghost on: RNode)
    returns (e: Error, ghost m: RNode)
    requires Placed(base.Value(), pre, n, post, target)
    requires Overlay(b, strs, ts, at, k, on) && |at| == |ts| + 1 && node == at[k]
    modifies base, base.buf
    ensures e.Ok? || e.NoSpace?
    ensures Merging(old(base.Value()), base.Value(), pre, n, m, post, target)
    ensures e.Ok? ==> Contents(base.Value(), m) == SetProps(Contents(old(base.Value()), n),
            AbsHead(on.head, NameTable(strs)))
  {
    ghost var was, names := base.Value(), NameTable(strs);
    e, m := Ok, n;
    OverlayBounds(b, strs, ts, at, k, on);
    var property;
    ghost var j;
    property, j := FirstProperty(b, node, strs, ts, at, k, on);
    while property.Some?
      invariant j <= |on.head| && property == ItemAt(at, k, on, j) && (j < |on.head| ==> on.head[j].ItemProp?)
      invariant e.Ok? && PropsDone(was, base.Value(), pre, n, m, post, target, AbsHead(on.head[..j], names))
      decreases |on.head| - j
    {
      ghost var i := j;
      e, m := ApplyNext(base, target, b, strs, property.value, pre, n, m, post, ts, at, k, on, i, was,
                        AbsHead(on.head[..i], names));
      if e.NoSpace? {
        return;
      }
      property, j := FollowingProperty(b, property.value, strs, ts, at, k, on, i);
    }
    assert on.head[..j] == on.head;
  }

  /** Sets one more property of the overlay, item i, behind those that were set before. */
  method ApplyNext(base: Blob, target: nat, b: Bytes, strs: Bytes, o: nat, ghost pre: seq<Token>, ghost n: RNode,
                   ghost m: RNode, ghost post: seq<Token>, ghost ts: seq<Token>, ghost at: seq<nat>, ghost k: nat,
                   ghost on: RNode, ghost i: nat, ghost was: Image, ghost props: seq<Property>)
    returns (e: Error, ghost r: RNode)
    requires PropsDone(was, base.Value(), pre, n, m, post, target, props)
    requires Overlay(b, strs, ts, at, k, on) && k + 1 + |on.head| < |ts| && |at| == |ts| + 1
    requires i < |on.head| && on.head[i].ItemProp? && o == at[k + 1 + i]
    modifies base, base.buf
    ensures e.Ok? || e.NoSpace?
    ensures Merging(was, base.Value(), pre, n, r, post, target)
    ensures e.Ok? ==>
              PropsDone(was, base.Value(), pre, n, r, post, target, props + [PropertyOf(on.head[i], NameTable(strs))])
  {
    ghost var mid := base.Value();
    e, r := ApplyProperty(base, target, b, strs, o, pre, m, post, ts, at, k, on, i);
    ghost var now := base.Value();
    MergingOn(was, mid, now, pre, n, m, r, post, target);
    if e.Ok? {
      PropsStep(was, mid, now, pre, n, m, r, post, target, props, PropertyOf(on.head[i], NameTable(strs)));
    }
  }

  // ---------------------------------------------------------------------------------------
  // Children
  // ---------------------------------------------------------------------------------------

  /** Child i of the overlay node at token k starts at token c. */
  ghost predicate ChildOf(k: nat, on: RNode, i: nat, c: nat) {
    i < |on.kids| && c == k + KidIndex(on, i)
  }

  lemma {:induction false} ChildOverlay(b: Bytes, strs: Bytes, ts: seq<Token>, at: seq<nat>, k: nat, on: RNode,
                                        i: nat, c: nat)
    requires Overlay(b, strs, ts, at, k, on) && ChildOf(k, on, i, c)
    ensures Overlay(b, strs, ts, at, c, on.kids[i]) && |at| == |ts| + 1
            && ts[c] == Begin(on.kids[i].name, on.kids[i].pad) && 0 !in on.kids[i].name
  {
    KidOccurs(ts, k, on, i);
    NodeParts(ts, c, on.kids[i]);
    var own := NodeTokens(on);
    assert Occurs(own, 0, own);
    KidOccurs(own, 0, on, i);
    NamesInside(own, KidIndex(on, i), NodeTokens(on.kids[i]), strs);
    ValidInside(own, KidIndex(on, i), NodeTokens(on.kids[i]));
    NodeShape(on.kids[i]);
    assert NodeTokens(on.kids[i])[0] == Begin(on.kids[i].name, on.kids[i].pad);
  }

  lemma {:induction false} ValidInside(ts: seq<Token>, k: nat, x: seq<Token>)
    requires ValidTokens(ts) && Occurs(ts, k, x)
    ensures ValidTokens(x)
  {
    assert x == ts[k..k + |x|];
  }

  lemma {:induction false} FirstChildAt(ts: seq<Token>, k: nat, on: RNode)
    requires Occurs(ts, k, NodeTokens(on))
    ensures var s := Resume(ts, k + 1, 0, AnyName());
            if on.kids == [] then !s.At? else s.At? && ChildOf(k, on, 0, s.k)
  {
    SearchNode(ts, k, on, AnyName());
  }

  lemma {:induction false} NextChildAt(ts: seq<Token>, k: nat, on: RNode, i: nat, c: nat)
    requires Occurs(ts, k, NodeTokens(on)) && ChildOf(k, on, i, c)
    ensures var s := Resume(ts, c + 1, 1, AnyName());
            if i + 1 == |on.kids| then !s.At? else s.At? && ChildOf(k, on, i + 1, s.k)
  {
    SearchAfterKid(ts, k, on, i, AnyName());
  }

  method FirstChild(b: Bytes, node: nat, ghost strs: Bytes, ghost ts: seq<Token>, ghost at: seq<nat>, ghost k: nat,
                    ghost on: RNode)
    returns (r: Option<nat>, ghost c: nat)
    requires Overlay(b, strs, ts, at, k, on) && |at| == |ts| + 1 && node == at[k]
    ensures r.Some? <==> on.kids != []
    ensures r.Some? ==> ChildOf(k, on, 0, c) && c < |ts| && r.value == at[c]
  {
    OverlayItems(b, strs, ts, at, k, on);
    FirstChildAt(ts, k, on);
    r := FirstSubnode(b, node, ts, at, k);
    ghost var s := Resume(ts, k + 1, 0, AnyName());
    c := if s.At? then s.k else 0;
  }

  method NextChild(b: Bytes, o: nat, ghost strs: Bytes, ghost ts: seq<Token>, ghost at: seq<nat>, ghost k: nat,
                   ghost on: RNode, ghost i: nat, ghost c: nat)
    returns (r: Option<nat>, ghost d: nat)
    requires Overlay(b, strs, ts, at, k, on) && |at| == |ts| + 1 && ChildOf(k, on, i, c) && c < |ts| && o == at[c]
    ensures r.Some? <==> i + 1 < |on.kids|
    ensures r.Some? ==> ChildOf(k, on, i + 1, d) && d < |ts| && r.value == at[d]
  {
    ChildOverlay(b, strs, ts, at, k, on, i, c);
    NextChildAt(ts, k, on, i, c);
    r := NextSubnode(b, o, ts, at, c);
    ghost var s := Resume(ts, c + 1, 1, AnyName());
    d := if s.At? then s.k else 0;
  }

  lemma {:induction false} GrownContents(was: Image, now: Image, n: RNode)
    requires Grew(was, now) && NamesResolve(NodeTokens(n), was.Strings())
    ensures Contents(now, n) == Contents(was, n)
  {
    var more := now.Strings()[|was.Strings()|..];
    assert now.Strings() == was.Strings() + more;
    GrownNode(n, was.Strings(), more);
  }

  /** A child as a place of its own. */
  lemma {:induction false} KidPlaced(im: Image, pre: seq<Token>, n: RNode, post: seq<Token>, o: nat, j: nat, q: nat)
    requires Placed(im, pre, n, post, o) && j < |n.kids|
    requires ValidTokens(BeforeKid(pre, n, j)) && q == |Flat(BeforeKid(pre, n, j))|
    ensures Placed(im, BeforeKid(pre, n, j), n.kids[j], AfterKid(n, j, post), q)
  {
    AtKid(pre, n, j, n.kids[j], post);
    assert n.(kids := n.kids[j := n.kids[j]]) == n;
  }

  /** A changed child in its place is a changed node in its place. */
  lemma {:induction false} KidChanged(im: Image, pre: seq<Token>, n: RNode, post: seq<Token>, o: nat, j: nat,
                                      c: RNode, q: nat)
    requires j < |n.kids| && c.nops == n.kids[j].nops && ValidTokens(pre) && o == |Flat(pre)|
    requires Placed(im, BeforeKid(pre, n, j), c, AfterKid(n, j, post), q)
    ensures Placed(im, pre, n.(kids := n.kids[j := c]), post, o)
  {
    AtKid(pre, n, j, c, post);
  }

  /** The child with that name, found or added. */
  method TargetKid(base: Blob, target: nat, name: Bytes, ghost pre: seq<Token>, ghost n: RNode, ghost post: seq<Token>)
    returns (e: Error, q: nat, ghost m: RNode, ghost j: nat)
    requires Placed(base.Value(), pre, n, post, target) && 0 !in name
    modifies base, base.buf
    ensures e.Ok? || e.NoSpace?
    ensures Merging(old(base.Value()), base.Value(), pre, n, m, post, target)
    ensures e.Ok? ==> j < |m.kids| && Placed(base.Value(), BeforeKid(pre, m, j), m.kids[j], AfterKid(m, j, post), q)
    ensures e.Ok? ==> Contents(base.Value(), m) == Opened(Contents(old(base.Value()), n), name)
    ensures e.Ok? ==> j == KidPos(Contents(base.Value(), m).kids, name)
  {
    ghost var was := base.Value();
    j := 0;
    KidPosAbs(n.kids, NameTable(was.Strings()), name);
    e, q, m := Ops.AddSubnode(base, target, name, pre, n, post);
    if e.Exists? {
      var r;
      r, j := Ops.FindChild(base, target, name, pre, n, post);
      e, q, m := Ok, r.value, n;
      KidPlaced(base.Value(), pre, m, post, target, j, q);
    } else if e.Ok? {
      AddedTarget(was, base.Value(), pre, n, m, post, target, q, name);
    } else {
      m := n;
    }
  }

  /** The child that was added is the one that answers. */
  lemma {:induction false} AddedTarget(was: Image, now: Image, pre: seq<Token>, n: RNode, m: RNode, post: seq<Token>,
                                       target: nat, q: nat, name: Bytes)
    requires was.Ordered() && SameRest(was, now) && Placed(now, pre, m, post, target)
    requires m.kids != [] && m == n.(kids := [RNode(name, m.kids[0].pad, [], [], 0)] + n.kids)
    requires FirstKid(n.kids, 0, Answering(name)) == |n.kids| && ValidTokens(BeforeKid(pre, m, 0))
             && q == |Flat(BeforeKid(pre, m, 0))|
    ensures Placed(now, BeforeKid(pre, m, 0), m.kids[0], AfterKid(m, 0, post), q)
    ensures Contents(now, m) == Opened(Contents(was, n), name) && KidPos(Contents(now, m).kids, name) == 0
  {
    KidPosAbs(n.kids, NameTable(was.Strings()), name);
    KidAddedAbs(n, m.kids[0], NameTable(was.Strings()));
    KidPlaced(now, pre, m, post, target, 0, q);
    assert NameAnswers(name, name);
  }

  /** The node around a merged child. */
  lemma {:induction false} KidMerged(was: Image, mid: Image, now: Image, pre: seq<Token>, n: RNode, m: RNode,
                                     post: seq<Token>, target: nat,
                                     j: nat, c: RNode, q: nat)
    requires Merging(was, mid, pre, n, m, post, target) && j < |m.kids|
    requires Merging(mid, now, BeforeKid(pre, m, j), m.kids[j], c, AfterKid(m, j, post), q)
    ensures var r := m.(kids := m.kids[j := c]);
            && Merging(was, now, pre, n, r, post, target)
            && j < |Contents(mid, m).kids| && Contents(mid, m).kids[j] == Contents(mid, m.kids[j])
            && Contents(now, r) == Contents(mid, m).(kids := Contents(mid, m).kids[j := Contents(now, c)])
  {
    var r := m.(kids := m.kids[j := c]);
    KidChanged(now, pre, m, post, target, j, c, q);
    assert Grew(was, now);
    PlacedResolves(mid, pre, m, post, target);
    GrownContents(mid, now, m);
    AbsKidsUpdate(m.kids, j, c, NameTable(now.Strings()));
    AbsKidAt(m.kids, NameTable(mid.Strings()), j);
  }

  /** Merges one child of the overlay node into the target node. */
  method ApplyKid(base: Blob, target: nat, b: Bytes, strs: Bytes, sub: nat, ghost pre: seq<Token>, ghost n: RNode,
                  ghost post: seq<Token>,
                  ghost ts: seq<Token>, ghost at: seq<nat>, ghost k: nat, ghost on: RNode)
    returns (e: Error, ghost m: RNode)
    requires Placed(base.Value(), pre, n, post, target)
    requires Overlay(b, strs, ts, at, k, on) && |at| == |ts| + 1 && sub == at[k] && ts[k].Begin?
             && ts[k].name == on.name && 0 !in on.name
    modifies base, base.buf
    ensures e.Ok? || e.NoSpace?
    ensures Merging(old(base.Value()), base.Value(), pre, n, m, post, target)
    ensures e.Ok? ==> Contents(base.Value(), m) == MergeKid(Contents(old(base.Value()), n), Abs(on, NameTable(strs)))
    decreases on, 2
  {
    ghost var was := base.Value();
    var name := GetName(b, sub, ts, at, k);
    ghost var j, c;
    var nnode;
    e, nnode, m, j := TargetKid(base, target, name, pre, n, post);
    if e.NoSpace? {
      return;
    }
    ghost var mid := base.Value();
    e, c := ApplyNode(base, nnode, b, strs, sub, BeforeKid(pre, m, j), m.kids[j], AfterKid(m, j, post), ts, at, k, on);
    KidMerged(was, mid, base.Value(), pre, n, m, post, target, j, c, nnode);
    m := m.(kids := m.kids[j := c]);
    MergeKidOpened(Contents(was, n), Abs(on, NameTable(strs)));
  }

  /** Every child up to number i has been merged. */
  ghost predicate KidsDone(was: Image, im: Image, pre: seq<Token>, n: RNode, m: RNode, post: seq<Token>, target: nat,
                           t: Tree, kids: seq<Tree>) {
    Merging(was, im, pre, n, m, post, target) && Contents(im, m) == MergeKids(t, kids)
  }

  lemma {:induction false} KidsStep(was: Image, mid: Image, im: Image, pre: seq<Token>, n: RNode, m: RNode, r: RNode,
                                    post: seq<Token>, target: nat,
                                    t: Tree, ks: seq<RNode>, i: nat, names: nat -> Bytes)
    requires i < |ks| && KidsDone(was, mid, pre, n, m, post, target, t, AbsKids(ks[..i], names))
    requires Merging(mid, im, pre, m, r, post, target)
             && Contents(im, r) == MergeKid(Contents(mid, m), Abs(ks[i], names))
    ensures KidsDone(was, im, pre, n, r, post, target, t, AbsKids(ks[..i + 1], names))
  {
    MergingOn(was, mid, im, pre, n, m, r, post, target);
    assert ks[..i + 1] == ks[..i] + [ks[i]];
    AbsKidsAppend(ks[..i], [ks[i]], names);
    MergeKidsPush(t, AbsKids(ks[..i], names), Abs(ks[i], names));
  }

  /** Merges every child of the overlay node into the target node. */
  method ApplyKids(base: Blob, target: nat, b: Bytes, strs: Bytes, node: nat, ghost pre: seq<Token>, ghost n: RNode,
                   ghost post: seq<Token>,
                   ghost ts: seq<Token>, ghost at: seq<nat>, ghost k: nat, ghost on: RNode)
    returns (e: Error, ghost m: RNode)
    requires Placed(base.Value(), pre, n, post, target)
    requires Overlay(b, strs, ts, at, k, on) && |at| == |ts| + 1 && node == at[k]
    modifies base, base.buf
    ensures e.Ok? || e.NoSpace?
    ensures Merging(old(base.Value()), base.Value(), pre, n, m, post, target)
    ensures e.Ok? ==> Contents(base.Value(), m) == MergeKids(Contents(old(base.Value()), n),
            AbsKids(on.kids, NameTable(strs)))
    decreases on, 0
  {
    ghost var was, im, names, i := base.Value(), base.Value(), NameTable(strs), 0;
    ghost var t := Contents(was, n);
    e, m := Ok, n;
    assert on.kids[..0] == [];
    var subnode;
    ghost var c: nat;
    subnode, c := FirstChild(b, node, strs, ts, at, k, on);
    while subnode.Some?
      invariant i <= |on.kids| && (subnode.Some? <==> i < |on.kids|)
      invariant subnode.Some? ==> ChildOf(k, on, i, c) && c < |ts| && subnode.value == at[c]
      invariant e.Ok? && im == base.Value()
      invariant KidsDone(was, im, pre, n, m, post, target, t, AbsKids(on.kids[..i], names))
      decreases |on.kids| - i
    {
      ghost var r, d := m, c;
      ChildOverlay(b, strs, ts, at, k, on, i, c);
      e, r := ApplyKid(base, target, b, strs, subnode.value, pre, m, post, ts, at, c, on.kids[i]);
      ghost var now := base.Value();
      MergingOn(was, im, now, pre, n, m, r, post, target);
      if e.NoSpace? {
        m := r;
        return;
      }
      KidsStep(was, im, now, pre, n, m, r, post, target, t, on.kids, i, names);
      subnode, c := NextChild(b, subnode.value, strs, ts, at, k, on, i, d);
      m, im, i := r, now, i + 1;
    }
    assert on.kids[..i] == on.kids;
  }

  /** Merges the overlay node at offset `node` into the node at offset `target` of the base. */
  method ApplyNode(base: Blob, target: nat, b: Bytes, strs: Bytes, node: nat, ghost pre: seq<Token>, ghost n: RNode,
                   ghost post: seq<Token>,
                   ghost ts: seq<Token>, ghost at: seq<nat>, ghost k: nat, ghost on: RNode)
    returns (e: Error, ghost m: RNode)
    requires Placed(base.Value(), pre, n, post, target)
    requires Overlay(b, strs, ts, at, k, on) && |at| == |ts| + 1 && node == at[k]
    modifies base, base.buf
    ensures e.Ok? || e.NoSpace?
    ensures Merging(old(base.Value()), base.Value(), pre, n, m, post, target)
    ensures e.Ok? ==> Contents(base.Value(), m) == Merge(Contents(old(base.Value()), n), Abs(on, NameTable(strs)))
    decreases on, 1
  {
    ghost var was := base.Value();
    e, m := ApplyProps(base, target, b, strs, node, pre, n, post, ts, at, k, on);
    if e.NoSpace? {
      return;
    }
    ghost var mid, r := base.Value(), m;
    e, r := ApplyKids(base, target, b, strs, node, pre, m, post, ts, at, k, on);
    MergingOn(was, mid, base.Value(), pre, n, m, r, post, target);
    m := r;
  }

  // ---------------------------------------------------------------------------------------
  // The whole base tree
  // ---------------------------------------------------------------------------------------

  lemma {:induction false} MergedLies(was: Image, now: Image, root: RNode, p: Path, m: RNode, o: nat)
    requires LiesAt(was, root, p, o)
    requires Merging(was, now, Before([], root, p), SubNode(root, p), m, After(root, p, Tail(root)), o)
    ensures LiesAt(now, PutNode(root, p, m), p, o) && InTree(Contents(was, root), p)
    ensures TreeAt(Contents(was, root), p) == Contents(was, SubNode(root, p))
    ensures Contents(now, PutNode(root, p, m)) == Replaced(Contents(was, root), p, Contents(now, m))
  {
    LiesPlaced(was, root, p, o);
    PlacedLies(now, root, p, m, o);
    var more := now.Strings()[|was.Strings()|..];
    assert now.Strings() == was.Strings() + more;
    EditedContents(root, p, m, was.Strings(), more);
  }

  /**
    Merges the overlay node into the node at path p of the base. The rest of the base tree stays,
    even when the buffer runs full half-way.
    */
  method ApplyAt(base: Blob, target: nat, b: Bytes, strs: Bytes, node: nat, ghost root: RNode, ghost p: Path,
                 ghost ts: seq<Token>, ghost at: seq<nat>, ghost k: nat, ghost on: RNode)
    returns (e: Error, ghost now: RNode, ghost s: Tree)
    requires LiesAt(base.Value(), root, p, target)
    requires Overlay(b, strs, ts, at, k, on) && |at| == |ts| + 1 && node == at[k]
    modifies base, base.buf
    ensures e.Ok? || e.NoSpace?
    ensures LiesAt(base.Value(), now, p, target) && Grew(old(base.Value()), base.Value())
    ensures InTree(Contents(old(base.Value()), root), p)
    ensures Contents(base.Value(), now) == Replaced(Contents(old(base.Value()), root), p, s)
    ensures e.Ok? ==> s == Merge(TreeAt(Contents(old(base.Value()), root), p), Abs(on, NameTable(strs)))
  {
    ghost var was := base.Value();
    LiesPlaced(was, root, p, target);
    ghost var m;
    e, m := ApplyNode(base, target, b, strs, node, Before([], root, p), SubNode(root, p), After(root, p, Tail(root)),
      ts, at, k, on);
    now, s := PutNode(root, p, m), Contents(base.Value(), m);
    MergedLies(was, base.Value(), root, p, m, target);
  }
}
