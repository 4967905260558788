/**
  The outline of a node is the node without the bytes of its property values. Writing in place keeps
  the outline, and with it the offset of every token and node of the blob.
  */
module FdtOutline {
  import opened FdtFormat
  import opened FdtTree
  import opened FdtRead
  import opened FdtBlob
  import opened FdtChunk
  import opened FdtEdit
  import opened FdtRw
  import opened FdtModel
  import opened FdtContents
  import opened FdtWhole
  import opened FdtPath

  function OutlineItem(x: Item): Item {
    match x
    case ItemNop => ItemNop
    case ItemProp(off, val, pad) => ItemProp(off, Zeros(|val|), pad)
  }

  function OutlineHead(head: seq<Item>): (r: seq<Item>)
    ensures |r| == |head| && forall i :: 0 <= i < |head| ==> r[i] == OutlineItem(head[i])
  {
    seq(|head|, i requires 0 <= i < |head| => OutlineItem(head[i]))
  }

  function Outline(n: RNode): RNode
    decreases n, 1
  {
    RNode(n.name, n.pad, OutlineHead(n.head), OutlineKids(n.kids), n.nops)
  }

  function OutlineKids(ks: seq<RNode>): (r: seq<RNode>)
    ensures |r| == |ks|
    decreases ks, 0
  {
    if ks == [] then [] else [Outline(ks[0])] + OutlineKids(ks[1..])
  }

  lemma {:induction false} OutlineKidAt(ks: seq<RNode>, j: nat)
    requires j < |ks|
    ensures OutlineKids(ks)[j] == Outline(ks[j])
  {
    if j > 0 {
      OutlineKidAt(ks[1..], j - 1);
    }
  }

  lemma {:induction false} OutlineKidsAll(ks: seq<RNode>)
    ensures forall j :: 0 <= j < |ks| ==> OutlineKids(ks)[j] == Outline(ks[j])
  {
    forall j | 0 <= j < |ks|
      ensures OutlineKids(ks)[j] == Outline(ks[j])
    {
      OutlineKidAt(ks, j);
    }
  }

  lemma {:induction false} OutlineFirst(ks: seq<RNode>, j: nat)
    requires j <= |ks|
    ensures OutlineKids(ks)[..j] == OutlineKids(ks[..j])
  {
    OutlineKidsAll(ks);
    OutlineKidsAll(ks[..j]);
    var a, b := OutlineKids(ks)[..j], OutlineKids(ks[..j]);
    assert |a| == |b|;
    forall i | 0 <= i < j
      ensures a[i] == b[i]
    {
      assert ks[..j][i] == ks[i];
    }
  }

  // ---------------------------------------------------------------------------------------
  // Tokens
  // ---------------------------------------------------------------------------------------

  function OutlineToken(t: Token): Token {
    match t
    case Prop(off, val, pad) => Prop(off, Zeros(|val|), pad)
    case _ => t
  }

  function OutlineTokens(ts: seq<Token>): (r: seq<Token>)
    ensures |r| == |ts| && forall i :: 0 <= i < |ts| ==> r[i] == OutlineToken(ts[i])
  {
    seq(|ts|, i requires 0 <= i < |ts| => OutlineToken(ts[i]))
  }

  lemma {:induction false} OutlineAppend(a: seq<Token>, b: seq<Token>)
    ensures OutlineTokens(a + b) == OutlineTokens(a) + OutlineTokens(b)
  {
  }

  lemma {:induction false} HeadOutline(head: seq<Item>)
    ensures OutlineTokens(HeadTokens(head)) == HeadTokens(OutlineHead(head))
  {
  }

  lemma {:induction false} NopsOutline(n: nat)
    ensures OutlineTokens(Nops(n)) == Nops(n)
  {
  }

  /** The tokens of an outline are the outlines of the tokens. */
  lemma {:induction false} NodeOutline(n: RNode)
    ensures OutlineTokens(NodeTokens(n)) == NodeTokens(Outline(n))
    decreases n, 1
  {
    var b, h, k := [Begin(n.name, n.pad)], HeadTokens(n.head), KidsTokens(n.kids);
    OutlineAppend(b + h + k, [End]);
    OutlineAppend(b + h, k);
    OutlineAppend(b, h);
    assert OutlineTokens(b) == b;
    assert OutlineTokens([End]) == [End];
    HeadOutline(n.head);
    KidsOutline(n.kids);
  }

  lemma {:induction false} KidsOutline(ks: seq<RNode>)
    ensures OutlineTokens(KidsTokens(ks)) == KidsTokens(OutlineKids(ks))
    decreases ks, 0
  {
    if ks != [] {
      var x, y, z := NodeTokens(ks[0]), Nops(ks[0].nops), KidsTokens(ks[1..]);
      OutlineAppend(x + y, z);
      OutlineAppend(x, y);
      NodeOutline(ks[0]);
      NopsOutline(ks[0].nops);
      KidsOutline(ks[1..]);
      var os := OutlineKids(ks);
      assert os[0] == Outline(ks[0]) && os[1..] == OutlineKids(ks[1..]);
    }
  }

  lemma {:induction false} OutlineValid(t: Token)
    ensures OutlineToken(t).Valid() == t.Valid() && OutlineToken(t).Size() == t.Size()
  {
  }

  lemma {:induction false} OutlineAllValid(ts: seq<Token>)
    requires ValidTokens(ts)
    ensures ValidTokens(OutlineTokens(ts))
  {
    var us := OutlineTokens(ts);
    forall i | 0 <= i < |us|
      ensures us[i].Valid()
    {
      OutlineValid(ts[i]);
    }
  }

  /** An outline has the same offsets. */
  lemma {:induction false} OutlineOff(ts: seq<Token>, us: seq<Token>, k: nat)
    requires ValidTokens(ts) && ValidTokens(us) && us == OutlineTokens(ts) && k <= |ts|
    ensures Off(us, k) == Off(ts, k)
    decreases k
  {
    if k == 0 {
      OffStart(ts);
      OffStart(us);
    } else {
      OutlineOff(ts, us, k - 1);
      OffNext(ts, k - 1);
      OffNext(us, k - 1);
      OutlineValid(ts[k - 1]);
    }
  }

  lemma {:induction false} OffStart(ts: seq<Token>)
    requires ValidTokens(ts)
    ensures Off(ts, 0) == 0
  {
    assert ts[..0] == [];
  }

  lemma {:induction false} OffNext(ts: seq<Token>, k: nat)
    requires ValidTokens(ts) && k < |ts|
    ensures Off(ts, k + 1) == Off(ts, k) + ts[k].Size()
  {
    FlatAt(ts, k);
  }

  lemma {:induction false} SameOffsets(ts: seq<Token>, us: seq<Token>)
    requires ValidTokens(ts) && ValidTokens(us) && OutlineTokens(ts) == OutlineTokens(us)
    ensures Offsets(ts) == Offsets(us)
  {
    var vs := OutlineTokens(ts);
    assert |ts| == |vs| == |us|;
    OutlineAllValid(ts);
    forall k | 0 <= k <= |ts|
      ensures Offsets(ts)[k] == Offsets(us)[k]
    {
      OutlineOff(ts, vs, k);
      OutlineOff(us, vs, k);
    }
  }

  // ---------------------------------------------------------------------------------------
  // Paths
  // ---------------------------------------------------------------------------------------

  lemma {:induction false} OutlineKidIndex(n: RNode, j: nat)
    requires j <= |n.kids|
    ensures KidIndex(Outline(n), j) == KidIndex(n, j)
  {
    OutlineFirst(n.kids, j);
    KidsOutline(n.kids[..j]);
    assert |KidsTokens(n.kids[..j])| == |OutlineTokens(KidsTokens(n.kids[..j]))|;
  }

  lemma {:induction false} OutlineIndex(k: nat, n: RNode, p: Path)
    requires InNode(n, p)
    ensures InNode(Outline(n), p) && IndexOf(k, Outline(n), p) == IndexOf(k, n, p)
            && SubNode(Outline(n), p) == Outline(SubNode(n, p))
    decreases |p|
  {
    if p != [] {
      OutlineKidIndex(n, p[0]);
      OutlineKidAt(n.kids, p[0]);
      OutlineIndex(k + KidIndex(n, p[0]), n.kids[p[0]], p[1..]);
    }
  }

  lemma {:induction false} OutlineBack(n: RNode, p: Path)
    requires InNode(Outline(n), p)
    ensures InNode(n, p)
    decreases |p|
  {
    if p != [] {
      OutlineKidAt(n.kids, p[0]);
      OutlineBack(n.kids[p[0]], p[1..]);
    }
  }

  /** Nodes of one outline have their descendants at the same indices. */
  lemma {:induction false} SameIndex(k: nat, n: RNode, m: RNode, p: Path)
    requires Outline(n) == Outline(m) && InNode(n, p)
    ensures InNode(m, p) && IndexOf(k, m, p) == IndexOf(k, n, p) && Outline(SubNode(m, p)) == Outline(SubNode(n, p))
  {
    OutlineIndex(k, n, p);
    OutlineBack(m, p);
    OutlineIndex(k, m, p);
  }

  lemma {:induction false} OutlineKidsUpdate(ks: seq<RNode>, j: nat, c: RNode)
    requires j < |ks| && Outline(c) == Outline(ks[j])
    ensures OutlineKids(ks[j := c]) == OutlineKids(ks)
  {
    OutlineKidsAll(ks);
    OutlineKidsAll(ks[j := c]);
    var a, b := OutlineKids(ks), OutlineKids(ks[j := c]);
    forall i | 0 <= i < |ks|
      ensures a[i] == b[i]
    {
      assert b[i] == Outline(ks[j := c][i]);
    }
  }

  lemma {:induction false} OutlinePut(n: RNode, p: Path, m: RNode)
    requires InNode(n, p) && Outline(SubNode(n, p)) == Outline(m)
    ensures Outline(PutNode(n, p, m)) == Outline(n)
    decreases |p|
  {
    if p != [] {
      OutlinePut(n.kids[p[0]], p[1..], m);
      OutlineKidsUpdate(n.kids, p[0], PutNode(n.kids[p[0]], p[1..], m));
    }
  }

  lemma {:induction false} SameNops(n: RNode, m: RNode)
    requires Outline(n) == Outline(m)
    ensures n.nops == m.nops && n.name == m.name && |n.kids| == |m.kids|
  {
    assert |Outline(n).kids| == |n.kids| && |Outline(m).kids| == |m.kids|;
  }

  // ---------------------------------------------------------------------------------------
  // Offsets of nodes
  // ---------------------------------------------------------------------------------------

  function Whole(root: RNode): seq<Token> {
    NodeTokens(root) + Tail(root)
  }

  /** The tokens in front of a node are the first ones, up to its index. */
  lemma {:induction false} BeforeIsFirst(pre: seq<Token>, n: RNode, p: Path, post: seq<Token>)
    requires InNode(n, p)
    ensures |Before(pre, n, p)| == IndexOf(|pre|, n, p)
    ensures Before(pre, n, p) + NodeTokens(SubNode(n, p)) + After(n, p, post) == pre + NodeTokens(n) + post
    decreases |p|
  {
    if p != [] {
      var j := p[0];
      var c := n.kids[j];
      BeforeKidLength(pre, n, j);
      BeforeIsFirst(BeforeKid(pre, n, j), c, p[1..], AfterKid(n, j, post));
      AtKid(pre, n, j, c, post);
      assert n.(kids := n.kids[j := c]) == n;
    }
  }

  lemma {:induction false} OffsetAt(ts: seq<Token>, a: seq<Token>, x: seq<Token>, c: seq<Token>)
    requires ValidTokens(ts) && ts == a + x + c
    ensures ValidTokens(a) && Offsets(ts)[|a|] == |Flat(a)|
  {
    assert ts == a + (x + c);
    OffsetOf(ts, a, x + c);
  }

  lemma {:induction false} BeforeOffset(root: RNode, p: Path)
    requires ValidTokens(Whole(root)) && InNode(root, p)
    ensures IndexOf(0, root, p) < |Whole(root)| && ValidTokens(Before([], root, p))
    ensures Offsets(Whole(root))[IndexOf(0, root, p)] == |Flat(Before([], root, p))|
  {
    var ts, a, x, post := Whole(root), Before([], root, p), NodeTokens(SubNode(root, p)), After(root, p, Tail(root));
    assert ts == a + x + post && |a| == IndexOf(0, root, p) by {
      BeforeIsFirst([], root, p, Tail(root));
      assert [] + NodeTokens(root) + Tail(root) == ts;
    }
    assert |x| > 0 by {
      NodeShape(SubNode(root, p));
    }
    OffsetAt(ts, a, x, post);
  }

  /** Where a node lies, in terms of token indices. */
  lemma {:induction false} LiesIndex(im: Image, root: RNode, p: Path, o: nat)
    requires Encodes(im, root) && InNode(root, p)
    ensures ValidTokens(Whole(root)) && im.Struct() == Flat(Whole(root)) && IndexOf(0, root, p) < |Whole(root)|
    ensures LiesAt(im, root, p, o) <==> o == Offsets(Whole(root))[IndexOf(0, root, p)]
  {
    assert [] + NodeTokens(root) + Tail(root) == Whole(root);
    BeforeOffset(root, p);
  }

  lemma {:induction false} WholeOffsets(root: RNode, now: RNode)
    requires Outline(root) == Outline(now) && ValidTokens(Whole(root)) && ValidTokens(Whole(now))
    ensures Offsets(Whole(root)) == Offsets(Whole(now))
  {
    NodeOutline(root);
    NodeOutline(now);
    SameNops(root, now);
    OutlineAppend(NodeTokens(root), Tail(root));
    OutlineAppend(NodeTokens(now), Tail(now));
    SameOffsets(Whole(root), Whole(now));
  }

  /** In a blob of the same outline every node lies where it lay. */
  lemma {:induction false} StillLies(was: Image, im: Image, root: RNode, now: RNode, p: Path, o: nat)
    requires LiesAt(was, root, p, o) && Encodes(im, now) && Outline(root) == Outline(now)
    ensures LiesAt(im, now, p, o)
  {
    SameIndex(0, root, now, p);
    LiesIndex(was, root, p, o);
    LiesIndex(im, now, p, o);
    WholeOffsets(root, now);
  }
}
