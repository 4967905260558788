/**
  Where a node stands in the tree, found by walking the structure block: depth, ancestors, parent,
  and the path that names it.
  */
module FdtPath {
  import opened Options
  import opened FdtFormat
  import opened FdtTree
  import opened FdtRead
  import opened FdtEdit
  import opened FdtWhole

  // ---------------------------------------------------------------------------------------
  // Open nodes
  // ---------------------------------------------------------------------------------------

  /** The open nodes behind a token, given those in front of it. */
  function Behind(st: seq<nat>, t: Token, k: nat): seq<nat> {
    match t
    case Begin(_, _) => st + [k]
    case End => if st == [] then [] else st[..|st| - 1]
    case _ => st
  }

  /** The open nodes in front of each token and at the end. */
  ghost function Stacks(ts: seq<Token>): (r: seq<seq<nat>>)
    ensures |r| == |ts| + 1 && r[0] == []
  {
    if ts == [] then [[]]
    else
      var n := |ts| - 1;
      var r := Stacks(ts[..n]);
      r + [Behind(r[n], ts[n], n)]
  }

  /** The nodes that are open in front of token k, outermost first, as token indices. */
  ghost function Stack(ts: seq<Token>, k: nat): seq<nat>
    requires k <= |ts|
  {
    Stacks(ts)[k]
  }

  lemma {:induction false} StackStep(ts: seq<Token>, k: nat)
    requires k < |ts|
    ensures Stack(ts, k + 1) == Behind(Stack(ts, k), ts[k], k)
    decreases |ts|
  {
    var n := |ts| - 1;
    if k < n {
      StackStep(ts[..n], k);
    }
  }

  lemma {:induction false} StackBelow(ts: seq<Token>, k: nat)
    requires k <= |ts|
    ensures forall i :: 0 <= i < |Stack(ts, k)| ==> Stack(ts, k)[i] < k
    decreases k
  {
    if k > 0 {
      StackBelow(ts, k - 1);
      StackStep(ts, k - 1);
    }
  }

  lemma {:induction false} StackPlain(ts: seq<Token>, k: nat, n: nat)
    requires k + n <= |ts| && forall i :: k <= i < k + n ==> ts[i].Prop? || ts[i].Nop?
    ensures Stack(ts, k + n) == Stack(ts, k)
    decreases n
  {
    if n > 0 {
      StackPlain(ts, k, n - 1);
      StackStep(ts, k + n - 1);
    }
  }

  lemma {:induction false} OccursPlain(ts: seq<Token>, k: nat, x: seq<Token>)
    requires Occurs(ts, k, x) && forall i :: 0 <= i < |x| ==> x[i].Prop? || x[i].Nop?
    ensures Stack(ts, k + |x|) == Stack(ts, k)
  {
    PlainTokens(ts, k, x);
    StackPlain(ts, k, |x|);
  }

  lemma {:induction false} PlainTokens(ts: seq<Token>, k: nat, x: seq<Token>)
    requires Occurs(ts, k, x) && forall i :: 0 <= i < |x| ==> x[i].Prop? || x[i].Nop?
    ensures forall i :: k <= i < k + |x| ==> ts[i].Prop? || ts[i].Nop?
  {
    forall i | k <= i < k + |x|
      ensures ts[i].Prop? || ts[i].Nop?
    {
      assert ts[i] == ts[k..k + |x|][i - k];
    }
  }

  lemma {:induction false} StackBegin(ts: seq<Token>, k: nat)
    requires k < |ts| && ts[k].Begin?
    ensures Stack(ts, k + 1) == Stack(ts, k) + [k]
  {
    StackStep(ts, k);
  }

  lemma {:induction false} StackEnd(ts: seq<Token>, e: nat, st: seq<nat>, k: nat)
    requires e < |ts| && ts[e].End? && Stack(ts, e) == st + [k]
    ensures Stack(ts, e + 1) == st
  {
    StackStep(ts, e);
    assert (st + [k])[..|st|] == st;
  }

  /** Inside a node, behind its properties, the node itself is open. */
  lemma {:induction false} StackInside(ts: seq<Token>, k: nat, n: RNode)
    requires Occurs(ts, k, NodeTokens(n))
    ensures k + 1 + |n.head| <= |ts| && Stack(ts, k + 1) == Stack(ts, k) + [k]
            && Stack(ts, k + 1 + |n.head|) == Stack(ts, k) + [k]
  {
    assert ts[k].Begin? && Occurs(ts, k + 1, HeadTokens(n.head)) by {
      NodeParts(ts, k, n);
    }
    StackBegin(ts, k);
    OccursPlain(ts, k + 1, HeadTokens(n.head));
  }

  /** Behind a whole node, the same nodes are open as in front of it. */
  lemma {:induction false} StackOverNode(ts: seq<Token>, k: nat, n: RNode)
    requires Occurs(ts, k, NodeTokens(n))
    ensures Stack(ts, k + |NodeTokens(n)|) == Stack(ts, k)
    decreases n, 1
  {
    var a := k + 1 + |n.head|;
    var e := a + |KidsTokens(n.kids)|;
    StackInside(ts, k, n);
    assert Occurs(ts, a, KidsTokens(n.kids)) && e < |ts| && ts[e].End? && e + 1 == k + |NodeTokens(n)| by {
      NodeParts(ts, k, n);
    }
    StackOverKids(ts, a, n.kids);
    StackEnd(ts, e, Stack(ts, k), k);
  }

  lemma {:induction false} StackOverKids(ts: seq<Token>, k: nat, ks: seq<RNode>)
    requires Occurs(ts, k, KidsTokens(ks))
    ensures Stack(ts, k + |KidsTokens(ks)|) == Stack(ts, k)
    decreases ks, 0
  {
    if ks != [] {
      KidsParts(ts, k, ks);
      var m := |NodeTokens(ks[0])|;
      StackOverNode(ts, k, ks[0]);
      OccursPlain(ts, k + m, Nops(ks[0].nops));
      StackOverKids(ts, k + m + ks[0].nops, ks[1..]);
    }
  }

  /** At the start of a child, its parent is the innermost open node. */
  lemma {:induction false} StackAtKid(ts: seq<Token>, k: nat, n: RNode, j: nat)
    requires Occurs(ts, k, NodeTokens(n)) && j < |n.kids|
    ensures k + KidIndex(n, j) <= |ts| && Stack(ts, k + KidIndex(n, j)) == Stack(ts, k) + [k]
  {
    var a := k + 1 + |n.head|;
    assert Occurs(ts, a, KidsTokens(n.kids[..j])) by {
      NodeParts(ts, k, n);
      KidsSplit(ts, a, n.kids, j);
    }
    StackInside(ts, k, n);
    StackOverKids(ts, a, n.kids[..j]);
  }

  // ---------------------------------------------------------------------------------------
  // Paths and token indices
  // ---------------------------------------------------------------------------------------

  /** The token index at which the node at path p starts, when the outer node starts at k. */
  function IndexOf(k: nat, n: RNode, p: Path): nat
    requires InNode(n, p)
    decreases |p|
  {
    if p == [] then k else IndexOf(k + KidIndex(n, p[0]), n.kids[p[0]], p[1..])
  }

  /** The token indices of the nodes above the node at path p, outermost first. */
  function Above(k: nat, n: RNode, p: Path): (r: seq<nat>)
    requires InNode(n, p)
    ensures |r| == |p|
    decreases |p|
  {
    if p == [] then [] else [k] + Above(k + KidIndex(n, p[0]), n.kids[p[0]], p[1..])
  }

  lemma {:induction false} NodeOccurs(ts: seq<Token>, k: nat, n: RNode, p: Path)
    requires Occurs(ts, k, NodeTokens(n)) && InNode(n, p)
    ensures Occurs(ts, IndexOf(k, n, p), NodeTokens(SubNode(n, p)))
    decreases |p|
  {
    if p != [] {
      KidOccurs(ts, k, n, p[0]);
      NodeOccurs(ts, k + KidIndex(n, p[0]), n.kids[p[0]], p[1..]);
    }
  }

  /** The open nodes in front of a node are the nodes above it. */
  lemma {:induction false} StackIsAbove(ts: seq<Token>, k: nat, n: RNode, p: Path)
    requires Occurs(ts, k, NodeTokens(n)) && InNode(n, p)
    ensures IndexOf(k, n, p) <= |ts| && Stack(ts, IndexOf(k, n, p)) == Stack(ts, k) + Above(k, n, p)
    decreases |p|
  {
    if p != [] {
      var c, kid, q := k + KidIndex(n, p[0]), n.kids[p[0]], p[1..];
      assert Occurs(ts, c, NodeTokens(kid)) by {
        KidOccurs(ts, k, n, p[0]);
      }
      StackAtKid(ts, k, n, p[0]);
      StackIsAbove(ts, c, kid, q);
      assert Stack(ts, k) + [k] + Above(c, kid, q) == Stack(ts, k) + ([k] + Above(c, kid, q));
    }
  }

  /** The node above at depth d is the one at the first d steps of the path. */
  lemma {:induction false} AboveAt(k: nat, n: RNode, p: Path, d: nat)
    requires InNode(n, p) && d < |p|
    ensures InNode(n, p[..d]) && Above(k, n, p)[d] == IndexOf(k, n, p[..d])
    decreases |p|
  {
    if d > 0 {
      AboveAt(k + KidIndex(n, p[0]), n.kids[p[0]], p[1..], d - 1);
      assert p[..d][1..] == p[1..][..d - 1];
    }
  }

  /**
    Where a token index lies in a node: at its start, among its properties, in a child, between
    children, at its end.
    */
  lemma {:induction false} BeginInNode(ts: seq<Token>, k: nat, n: RNode, i: nat) returns (p: Path)
    requires Occurs(ts, k, NodeTokens(n)) && k <= i < k + |NodeTokens(n)| && ts[i].Begin?
    ensures InNode(n, p) && IndexOf(k, n, p) == i
    decreases n, 1
  {
    var a := k + 1 + |n.head|;
    assert Occurs(ts, k + 1, HeadTokens(n.head)) && Occurs(ts, a, KidsTokens(n.kids))
           && a + |KidsTokens(n.kids)| + 1 == k + |NodeTokens(n)| && ts[a + |KidsTokens(n.kids)|].End? by {
      NodeParts(ts, k, n);
    }
    if i == k {
      p := [];
    } else {
      PlainTokens(ts, k + 1, HeadTokens(n.head));
      assert i >= a;
      var j, q := BeginInKids(ts, a, n.kids, i);
      p := [j] + q;
      assert p[1..] == q;
    }
  }

  lemma {:induction false} BeginInKids(ts: seq<Token>, k: nat, ks: seq<RNode>, i: nat) returns (j: nat, q: Path)
    requires Occurs(ts, k, KidsTokens(ks)) && k <= i < k + |KidsTokens(ks)| && ts[i].Begin?
    ensures j < |ks| && InNode(ks[j], q) && IndexOf(k + |KidsTokens(ks[..j])|, ks[j], q) == i
    decreases ks, 1
  {
    var m := |NodeTokens(ks[0])|;
    assert Occurs(ts, k, NodeTokens(ks[0])) by {
      KidsParts(ts, k, ks);
    }
    if i < k + m {
      j := 0;
      q := BeginInNode(ts, k, ks[0], i);
      assert ks[..0] == [];
    } else {
      j, q := BeginInRest(ts, k, ks, i);
    }
  }

  /** The same behind the first child. */
  lemma {:induction false} BeginInRest(ts: seq<Token>, k: nat, ks: seq<RNode>, i: nat) returns (j: nat, q: Path)
    requires Occurs(ts, k, KidsTokens(ks)) && i < k + |KidsTokens(ks)| && ts[i].Begin?
    requires ks != [] && k + |NodeTokens(ks[0])| <= i
    ensures j < |ks| && InNode(ks[j], q) && IndexOf(k + |KidsTokens(ks[..j])|, ks[j], q) == i
    decreases ks, 0
  {
    RestStarts(ts, k, ks, i);
    var b, l := k + |NodeTokens(ks[0])| + ks[0].nops, 0;
    l, q := BeginInKids(ts, b, ks[1..], i);
    j := l + 1;
    FrontLength(ks, l);
    assert k + |KidsTokens(ks[..j])| == b + |KidsTokens(ks[1..][..l])|;
  }

  /** Behind the first child and the NOPs that follow it come the other children. */
  lemma {:induction false} RestStarts(ts: seq<Token>, k: nat, ks: seq<RNode>, i: nat)
    requires Occurs(ts, k, KidsTokens(ks)) && i < k + |KidsTokens(ks)| && ts[i].Begin?
    requires ks != [] && k + |NodeTokens(ks[0])| <= i
    ensures var b := k + |NodeTokens(ks[0])| + ks[0].nops;
            Occurs(ts, b, KidsTokens(ks[1..])) && b <= i < b + |KidsTokens(ks[1..])|
  {
    KidsParts(ts, k, ks);
    PlainTokens(ts, k + |NodeTokens(ks[0])|, Nops(ks[0].nops));
  }

  lemma {:induction false} FrontLength(ks: seq<RNode>, l: nat)
    requires l < |ks| - 1
    ensures |KidsTokens(ks[..l + 1])| == |NodeTokens(ks[0])| + ks[0].nops + |KidsTokens(ks[1..][..l])|
    ensures ks[l + 1] == ks[1..][l]
  {
    assert ks[..l + 1] == [ks[0]] + ks[1..][..l];
    KidsTokensStep(ks[0], ks[1..][..l]);
  }

  /** Later children start later. */
  lemma {:induction false} KidIndexGrows(n: RNode, i: nat, j: nat)
    requires i < j < |n.kids|
    ensures KidIndex(n, i) < KidIndex(n, j)
    decreases j - i
  {
    NextKidIndex(n, i);
    NodeShape(n.kids[i]);
    if i + 1 < j {
      KidIndexGrows(n, i + 1, j);
    }
  }

  /** Paths of different nodes lead to different token indices. */
  lemma {:induction false} IndexDecides(ts: seq<Token>, k: nat, n: RNode, p: Path, q: Path)
    requires Occurs(ts, k, NodeTokens(n)) && InNode(n, p) && InNode(n, q) && IndexOf(k, n, p) == IndexOf(k, n, q)
    ensures p == q
    decreases |p|
  {
    StackIsAbove(ts, k, n, p);
    StackIsAbove(ts, k, n, q);
    CancelFront(Stack(ts, k), Above(k, n, p), Above(k, n, q));
    assert |p| == |q|;
    if p != [] {
      SameFirst(ts, k, n, p, q);
      KidOccurs(ts, k, n, p[0]);
      IndexDecides(ts, k + KidIndex(n, p[0]), n.kids[p[0]], p[1..], q[1..]);
    }
  }

  lemma {:induction false} CancelFront(a: seq<nat>, x: seq<nat>, y: seq<nat>)
    requires a + x == a + y
    ensures x == y
  {
    assert x == (a + x)[|a|..] && y == (a + y)[|a|..];
  }

  lemma {:induction false} SameFirst(ts: seq<Token>, k: nat, n: RNode, p: Path, q: Path)
    requires Occurs(ts, k, NodeTokens(n)) && InNode(n, p) && InNode(n, q) && IndexOf(k, n, p) == IndexOf(k, n, q)
    requires p != [] && |p| == |q| && Above(k, n, p) == Above(k, n, q)
    ensures p[0] == q[0]
  {
    var c, d := k + KidIndex(n, p[0]), k + KidIndex(n, q[0]);
    if |p| == 1 {
      assert p[1..] == [] && q[1..] == [];
    } else {
      assert Above(k, n, p)[1] == c && Above(k, n, q)[1] == d;
    }
    assert c == d;
    if p[0] < q[0] {
      KidIndexGrows(n, p[0], q[0]);
    } else if q[0] < p[0] {
      KidIndexGrows(n, q[0], p[0]);
    }
  }

  // ---------------------------------------------------------------------------------------
  // Walking all nodes
  // ---------------------------------------------------------------------------------------

  /** Up to token k, somebody is open and the block has not ended. */
  ghost predicate Inside(ts: seq<Token>, k: nat) {
    && k < |ts| && ts[k].Begin? && ts[0].Begin?
    && (forall i :: 0 < i <= k ==> Stack(ts, i) != [] && !ts[i].Finish?)
    && (forall i :: 0 <= i < |Stack(ts, k)| ==> Stack(ts, k)[i] < k)
  }

  /** The next node from an open place: its ancestors are the first of those that were open. */
  lemma {:induction false} ScanStack(ts: seq<Token>, m: nat, d: nat, k: nat)
    requires Inside(ts, k) && 0 < m <= k && |Stack(ts, m)| == d + 1
    ensures var s := Scan(ts, m, d);
            s.Node? && m <= s.k <= k && s.d <= d + 1 && Stack(ts, s.k) == Stack(ts, m)[..s.d]
    decreases k - m
  {
    var st := Stack(ts, m);
    if ts[m].Begin? {
      assert st[..d + 1] == st;
    } else if ts[m].End? {
      StackPops(ts, m);
      assert Stack(ts, m + 1) != [];
      ScanStack(ts, m + 1, d - 1, k);
      assert st[..d][..Scan(ts, m + 1, d - 1).d] == st[..Scan(ts, m + 1, d - 1).d];
    } else {
      StackPlain(ts, m, 1);
      ScanStack(ts, m + 1, d, k);
    }
  }

  lemma {:induction false} StackPops(ts: seq<Token>, m: nat)
    requires m < |ts| && ts[m].End? && Stack(ts, m) != []
    ensures Stack(ts, m + 1) == Stack(ts, m)[..|Stack(ts, m)| - 1]
  {
    StackStep(ts, m);
  }

  /** The ancestors of node k and the node itself. */
  ghost function Line(ts: seq<Token>, k: nat): seq<nat>
    requires k <= |ts|
  {
    Stack(ts, k) + [k]
  }

  lemma {:induction false} NextLine(ts: seq<Token>, j: nat, k: nat)
    requires Inside(ts, k) && j < k && ts[j].Begin?
    ensures var s := Scan(ts, j + 1, |Stack(ts, j)|);
            s.Node? && j < s.k <= k && s.d == |Stack(ts, s.k)| && s.d <= |Stack(ts, j)| + 1
              && Stack(ts, s.k) == Line(ts, j)[..s.d]
  {
    StackBegin(ts, j);
    ScanStack(ts, j + 1, |Stack(ts, j)|, k);
  }

  /** The offset of the ancestor at the given depth, and the depth of the node. */
  method SupernodeAtDepth(b: Bytes, o: nat, want: int, ghost ts: seq<Token>, ghost at: seq<nat>, ghost k: nat)
    returns (r: Option<nat>, depth: nat)
    requires Indexed(b, ts, at) && Inside(ts, k) && o == at[k] && at[0] == 0 && Ascending(at)
    ensures depth == |Stack(ts, k)|
    ensures r == if 0 <= want <= depth then Some(at[Line(ts, k)[want]]) else None
  {
    var offset, d := 0, 0;
    var super := 0;
    ghost var j, st := 0, Stack(ts, 0);
    while true
      invariant j <= k && ts[j].Begin? && offset == at[j] && st == Stack(ts, j) && d == |st|
      invariant forall i :: 0 <= i < |st| ==> st[i] < |at|
      invariant 0 <= want < d ==> super == at[st[want]]
      decreases k - j
    {
      if d == want {
        super := offset;
      }
      if offset == o {
        break;
      }
      NextLine(ts, j, k);
      var n := NextNode(b, offset, d, ts, at, j);
      j := Scan(ts, j + 1, d).k;
      st := Stack(ts, j);
      StackBelow(ts, j);
      offset, d := n.o, n.d;
    }
    assert j == k;
    depth := d;
    r := if 0 <= want <= d then Some(super) else None;
  }

  /** Offsets grow with the token index. */
  ghost predicate Ascending(at: seq<nat>) {
    forall i, j :: 0 <= i < j < |at| ==> at[i] < at[j]
  }

  /** The offset of the innermost node that is open in front of token k. */
  ghost function ParentAt(ts: seq<Token>, at: seq<nat>, k: nat): Option<nat>
    requires k < |ts| && |at| == |ts| + 1
  {
    var st := Stack(ts, k);
    if st == [] || st[|st| - 1] >= |at| then None else Some(at[st[|st| - 1]])
  }

  /** The offset of the parent; none for the root. */
  method ParentOffset(b: Bytes, o: nat, ghost ts: seq<Token>, ghost at: seq<nat>, ghost k: nat) returns (r: Option<nat>)
    requires Indexed(b, ts, at) && Inside(ts, k) && o == at[k] && at[0] == 0 && Ascending(at)
    ensures r == ParentAt(ts, at, k)
  {
    var depth;
    r, depth := SupernodeAtDepth(b, o, 0, ts, at, k);
    var want: int := depth;
    r, depth := SupernodeAtDepth(b, o, want - 1, ts, at, k);
  }

  // ---------------------------------------------------------------------------------------
  // Blobs
  // ---------------------------------------------------------------------------------------

  /** The structure block of a tree, its tokens and their offsets. */
  ghost predicate TreeBlock(b: Bytes, root: RNode, ts: seq<Token>, at: seq<nat>) {
    ts == NodeTokens(root) + Tail(root) && ValidTokens(ts) && b == Flat(ts) && at == Offsets(ts)
  }

  lemma {:induction false} OffsetsAscend(ts: seq<Token>, i: nat, j: nat)
    requires ValidTokens(ts) && i < j <= |ts|
    ensures Off(ts, i) < Off(ts, j)
    decreases j - i
  {
    FlatAt(ts, j - 1);
    assert ts[j - 1].Valid();
    if i < j - 1 {
      OffsetsAscend(ts, i, j - 1);
    }
  }

  lemma {:induction false} OffsetsOrdered(ts: seq<Token>)
    requires ValidTokens(ts)
    ensures Ascending(Offsets(ts)) && Offsets(ts)[0] == 0
  {
    forall i, j | 0 <= i < j < |Offsets(ts)|
      ensures Offsets(ts)[i] < Offsets(ts)[j]
    {
      OffsetsAscend(ts, i, j);
    }
    assert ts[..0] == [];
    assert Flat([]) == [];
  }

  /** Inside a node more nodes are open than in front of it. */
  lemma {:induction false} DeeperInside(ts: seq<Token>, k: nat, n: RNode, i: nat)
    requires Occurs(ts, k, NodeTokens(n)) && k < i < k + |NodeTokens(n)|
    ensures |Stack(ts, i)| > |Stack(ts, k)| && !ts[i].Finish?
    decreases n, 1
  {
    var a := k + 1 + |n.head|;
    assert Occurs(ts, k + 1, HeadTokens(n.head)) && Occurs(ts, a, KidsTokens(n.kids))
           && a + |KidsTokens(n.kids)| + 1 == k + |NodeTokens(n)| && ts[a + |KidsTokens(n.kids)|].End? by {
      NodeParts(ts, k, n);
    }
    StackInside(ts, k, n);
    if i < a {
      DeeperInHead(ts, k + 1, n.head, i);
    } else {
      DeeperAmongKids(ts, a, n.kids, i);
    }
  }

  lemma {:induction false} DeeperInHead(ts: seq<Token>, k: nat, head: seq<Item>, i: nat)
    requires Occurs(ts, k, HeadTokens(head)) && k <= i < k + |head|
    ensures Stack(ts, i) == Stack(ts, k) && !ts[i].Finish?
  {
    PlainTokens(ts, k, HeadTokens(head));
    StackPlain(ts, k, i - k);
  }

  lemma {:induction false} DeeperAmongKids(ts: seq<Token>, k: nat, ks: seq<RNode>, i: nat)
    requires Occurs(ts, k, KidsTokens(ks)) && k <= i <= k + |KidsTokens(ks)|
    ensures |Stack(ts, i)| >= |Stack(ts, k)| && (i < k + |KidsTokens(ks)| ==> !ts[i].Finish?)
    decreases ks, 0
  {
    if ks != [] {
      var m, z := FirstOfKids(ts, k, ks);
      if i < k + m {
        DeeperInKid(ts, k, ks[0], i);
      } else {
        assert |Stack(ts, k + m)| == |Stack(ts, k)| by {
          StackOverNode(ts, k, ks[0]);
        }
        InNops(ts, k + m, z, if i < k + m + z then i else k + m + z);
        if i >= k + m + z {
          DeeperAmongKids(ts, k + m + z, ks[1..], i);
        }
      }
    }
  }

  lemma {:induction false} FirstOfKids(ts: seq<Token>, k: nat, ks: seq<RNode>) returns (m: nat, z: nat)
    requires Occurs(ts, k, KidsTokens(ks)) && ks != []
    ensures m == |NodeTokens(ks[0])| && Occurs(ts, k, NodeTokens(ks[0])) && Occurs(ts, k + m, Nops(z))
    ensures Occurs(ts, k + m + z, KidsTokens(ks[1..])) && |KidsTokens(ks)| == m + z + |KidsTokens(ks[1..])|
  {
    KidsParts(ts, k, ks);
    m, z := |NodeTokens(ks[0])|, ks[0].nops;
  }

  lemma {:induction false} InNops(ts: seq<Token>, k: nat, z: nat, i: nat)
    requires Occurs(ts, k, Nops(z)) && k <= i <= k + z
    ensures Stack(ts, i) == Stack(ts, k) && (i < k + z ==> !ts[i].Finish?)
  {
    PlainTokens(ts, k, Nops(z));
    StackPlain(ts, k, i - k);
  }

  lemma {:induction false} DeeperInKid(ts: seq<Token>, k: nat, n: RNode, i: nat)
    requires Occurs(ts, k, NodeTokens(n)) && k <= i < k + |NodeTokens(n)|
    ensures |Stack(ts, i)| >= |Stack(ts, k)| && !ts[i].Finish?
    decreases n, 2
  {
    if i == k {
      NodeParts(ts, k, n);
    } else {
      DeeperInside(ts, k, n, i);
    }
  }

  /** Everything the walk needs to know about a node of a tree. */
  lemma {:induction false} NodeInside(b: Bytes, root: RNode, ts: seq<Token>, at: seq<nat>, p: Path) returns (k: nat)
    requires TreeBlock(b, root, ts, at) && InNode(root, p)
    ensures k == IndexOf(0, root, p) && Indexed(b, ts, at) && Inside(ts, k) && at[0] == 0 && Ascending(at)
    ensures Occurs(ts, 0, NodeTokens(root)) && Occurs(ts, k, NodeTokens(SubNode(root, p)))
            && Stack(ts, k) == Above(0, root, p)
  {
    k := IndexOf(0, root, p);
    FlatIndexed(ts);
    OffsetsOrdered(ts);
    assert Occurs(ts, 0, NodeTokens(root));
    NodeOccurs(ts, 0, root, p);
    StackIsAbove(ts, 0, root, p);
    assert [] + Above(0, root, p) == Above(0, root, p);
    RootAround(ts, root, p, k);
    StackBelow(ts, k);
  }

  lemma {:induction false} RootAround(ts: seq<Token>, root: RNode, p: Path, k: nat)
    requires Occurs(ts, 0, NodeTokens(root)) && InNode(root, p) && k == IndexOf(0, root, p)
             && Occurs(ts, k, NodeTokens(SubNode(root, p)))
    ensures k < |ts| && ts[k].Begin? && ts[0].Begin? && forall i :: 0 < i <= k ==> Stack(ts, i) != [] && !ts[i].Finish?
  {
    NodeParts(ts, 0, root);
    NodeParts(ts, k, SubNode(root, p));
    IndexInside(0, root, p);
    forall i | 0 < i <= k
      ensures Stack(ts, i) != [] && !ts[i].Finish?
    {
      DeeperInside(ts, 0, root, i);
    }
  }

  lemma {:induction false} IndexInside(k: nat, n: RNode, p: Path)
    requires InNode(n, p)
    ensures k <= IndexOf(k, n, p) && IndexOf(k, n, p) + |NodeTokens(SubNode(n, p))| <= k + |NodeTokens(n)|
    decreases |p|
  {
    if p != [] {
      var j := p[0];
      IndexInside(k + KidIndex(n, j), n.kids[j], p[1..]);
      var ts := NodeTokens(n);
      assert Occurs(ts, 0, ts);
      KidOccurs(ts, 0, n, j);
    }
  }

  lemma {:induction false} IndexSnoc(k: nat, n: RNode, p: Path, j: nat)
    requires InNode(n, p) && j < |SubNode(n, p).kids|
    ensures InNode(n, p + [j]) && SubNode(n, p + [j]) == SubNode(n, p).kids[j]
    ensures IndexOf(k, n, p + [j]) == IndexOf(k, n, p) + KidIndex(SubNode(n, p), j)
    decreases |p|
  {
    var q := p + [j];
    if p == [] {
      assert q[1..] == [];
    } else {
      assert q[1..] == p[1..] + [j];
      IndexSnoc(k + KidIndex(n, p[0]), n.kids[p[0]], p[1..], j);
    }
  }

  lemma {:induction false} InSnoc(n: RNode, q: Path)
    requires InNode(n, q) && q != []
    ensures var p := q[..|q| - 1]; InNode(n, p) && q[|q| - 1] < |SubNode(n, p).kids|
    decreases |q|
  {
    if |q| > 1 {
      assert q[..|q| - 1][1..] == q[1..][..|q| - 2];
      InSnoc(n.kids[q[0]], q[1..]);
    }
  }

  /** The offsets of the children of the node n at token k, in order. */
  ghost predicate Lists(at: seq<nat>, k: nat, n: RNode, r: seq<nat>) {
    |r| == |n.kids| && forall j :: 0 <= j < |n.kids| ==> k + KidIndex(n, j) < |at| && r[j] == at[k + KidIndex(n, j)]
  }

  ghost predicate IsChild(k: nat, n: RNode, i: nat) {
    exists j :: 0 <= j < |n.kids| && i == k + KidIndex(n, j)
  }

  /** The nodes whose parent is the node at p are exactly its children. */
  lemma {:induction false} ChildrenByParent(ts: seq<Token>, root: RNode, p: Path, i: nat)
    requires Occurs(ts, 0, NodeTokens(root)) && InNode(root, p) && i < |NodeTokens(root)| && ts[i].Begin?
    ensures var st, k, n := Stack(ts, i), IndexOf(0, root, p), SubNode(root, p);
            (st != [] && st[|st| - 1] == k) <==> IsChild(k, n, i)
  {
    var st, k, n := Stack(ts, i), IndexOf(0, root, p), SubNode(root, p);
    if st != [] && st[|st| - 1] == k {
      var j := ParentHasChild(ts, root, p, i);
    }
    if j :| 0 <= j < |n.kids| && i == k + KidIndex(n, j) {
      ChildHasParent(ts, root, p, j);
    }
  }

  /** A child has the node around it as parent. */
  lemma {:induction false} ChildHasParent(ts: seq<Token>, root: RNode, p: Path, j: nat)
    requires Occurs(ts, 0, NodeTokens(root)) && InNode(root, p) && j < |SubNode(root, p).kids|
    ensures var i := IndexOf(0, root, p) + KidIndex(SubNode(root, p), j);
            i <= |ts| && Stack(ts, i) == Stack(ts, IndexOf(0, root, p)) + [IndexOf(0, root, p)]
  {
    NodeOccurs(ts, 0, root, p);
    StackAtKid(ts, IndexOf(0, root, p), SubNode(root, p), j);
  }

  /** A node with the node at p as parent is one of its children. */
  lemma {:induction false} ParentHasChild(ts: seq<Token>, root: RNode, p: Path, i: nat) returns (j: nat)
    requires Occurs(ts, 0, NodeTokens(root)) && InNode(root, p) && i < |NodeTokens(root)| && ts[i].Begin?
    requires var st := Stack(ts, i); st != [] && st[|st| - 1] == IndexOf(0, root, p)
    ensures j < |SubNode(root, p).kids| && i == IndexOf(0, root, p) + KidIndex(SubNode(root, p), j)
  {
    var q := BeginInNode(ts, 0, root, i);
    assert Stack(ts, i) == Above(0, root, q) by {
      StackIsAbove(ts, 0, root, q);
      StackStart(ts);
      assert [] + Above(0, root, q) == Above(0, root, q);
    }
    var up := q[..|q| - 1];
    AboveAt(0, root, q, |q| - 1);
    IndexDecides(ts, 0, root, up, p);
    InSnoc(root, q);
    j := q[|q| - 1];
    assert q == p + [j];
    IndexSnoc(0, root, p, j);
  }

  lemma {:induction false} StackStart(ts: seq<Token>)
    ensures Stack(ts, 0) == []
  {
  }

  /** All children of a node, one after the other. */
  method Children(b: Bytes, o: nat, ghost ts: seq<Token>, ghost at: seq<nat>, ghost k: nat, ghost n: RNode)
    returns (r: seq<nat>)
    requires Indexed(b, ts, at) && |at| == |ts| + 1 && Occurs(ts, k, NodeTokens(n)) && k < |ts| && o == at[k]
    ensures Lists(at, k, n, r)
  {
    r := [];
    ghost var c := FirstChildOf(ts, k, n);
    var child := FirstSubnode(b, o, ts, at, k);
    while child.Some?
      invariant |r| <= |n.kids| && (child.Some? <==> |r| < |n.kids|)
      invariant child.Some? ==> c == k + KidIndex(n, |r|) && c < |ts| && ts[c].Begin? && child.value == at[c]
      invariant forall j :: 0 <= j < |r| ==> k + KidIndex(n, j) < |at| && r[j] == at[k + KidIndex(n, j)]
      decreases |n.kids| - |r|
    {
      ghost var d := NextChildOf(ts, k, n, |r|, c);
      var next := NextSubnode(b, child.value, ts, at, c);
      r := r + [child.value];
      child, c := next, d;
    }
  }

  lemma {:induction false} FirstChildOf(ts: seq<Token>, k: nat, n: RNode) returns (c: nat)
    requires Occurs(ts, k, NodeTokens(n)) && k < |ts|
    ensures ts[k].Begin?
    ensures var s := Resume(ts, k + 1, 0, AnyName());
            if n.kids == [] then !s.At? else s == At(c) && c == k + KidIndex(n, 0) && c < |ts| && ts[c].Begin?
  {
    NodeParts(ts, k, n);
    SearchNode(ts, k, n, AnyName());
    c := 0;
    if n.kids != [] {
      c := k + KidIndex(n, 0);
      KidOccurs(ts, k, n, 0);
      NodeParts(ts, c, n.kids[0]);
    }
  }

  lemma {:induction false} NextChildOf(ts: seq<Token>, k: nat, n: RNode, i: nat, c: nat) returns (d: nat)
    requires Occurs(ts, k, NodeTokens(n)) && i < |n.kids| && c == k + KidIndex(n, i)
    ensures var s := Resume(ts, c + 1, 1, AnyName());
            if i + 1 == |n.kids| then !s.At? else s == At(d) && d == k + KidIndex(n, i + 1) && d < |ts| && ts[d].Begin?
  {
    SearchAfterKid(ts, k, n, i, AnyName());
    d := 0;
    if i + 1 < |n.kids| {
      d := k + KidIndex(n, i + 1);
      KidOccurs(ts, k, n, i + 1);
      NodeParts(ts, d, n.kids[i + 1]);
    }
  }

  /** The parent of the node at a path is the node one step up. */
  method ParentInTree(b: Bytes, o: nat, ghost root: RNode, ghost ts: seq<Token>, ghost at: seq<nat>, ghost p: Path)
    returns (r: Option<nat>)
    requires TreeBlock(b, root, ts, at) && InNode(root, p) && IndexOf(0, root, p) < |at| && o == at[IndexOf(0, root, p)]
    ensures p == [] ==> r == None
    ensures p != [] ==>
              InNode(root, p[..|p| - 1]) && IndexOf(0, root, p[..|p| - 1]) < |at|
              && r == Some(at[IndexOf(0, root, p[..|p| - 1])])
  {
    ghost var k := NodeInside(b, root, ts, at, p);
    r := ParentOffset(b, o, ts, at, k);
    if p != [] {
      AboveAt(0, root, p, |p| - 1);
    }
  }

  // ---------------------------------------------------------------------------------------
  // Children and parents
  // ---------------------------------------------------------------------------------------

  lemma {:induction false} SameOffset(at: seq<nat>, i: nat, j: nat)
    requires Ascending(at) && i < |at| && j < |at|
    ensures at[i] == at[j] <==> i == j
  {
  }

  lemma {:induction false} ListedChild(at: seq<nat>, k: nat, n: RNode, i: nat, r: seq<nat>)
    requires Ascending(at) && i < |at| && Lists(at, k, n, r)
    ensures at[i] in r <==> IsChild(k, n, i)
  {
    if at[i] in r {
      var j :| 0 <= j < |r| && r[j] == at[i];
      SameOffset(at, i, k + KidIndex(n, j));
    }
    if j :| 0 <= j < |n.kids| && i == k + KidIndex(n, j) {
      assert r[j] == at[i];
    }
  }

  lemma {:induction false} ParentToken(ts: seq<Token>, at: seq<nat>, i: nat, k: nat)
    requires |at| == |ts| + 1 && Ascending(at) && i < |ts| && k < |at|
    ensures ParentAt(ts, at, i) == Some(at[k]) <==> Stack(ts, i) != [] && Stack(ts, i)[|Stack(ts, i)| - 1] == k
  {
    var st := Stack(ts, i);
    if st != [] && st[|st| - 1] < |at| {
      SameOffset(at, st[|st| - 1], k);
    }
  }

  /** The offset of a node is among those of the children exactly when its parent lies at o. */
  lemma {:induction false} ListedByParent(ts: seq<Token>, at: seq<nat>, root: RNode, p: Path, i: nat, r: seq<nat>)
    requires Occurs(ts, 0, NodeTokens(root)) && |at| == |ts| + 1 && Ascending(at) && InNode(root, p)
    requires i < |NodeTokens(root)| && ts[i].Begin? && IndexOf(0, root, p) < |at|
             && Lists(at, IndexOf(0, root, p), SubNode(root, p), r)
    ensures at[i] in r <==> ParentAt(ts, at, i) == Some(at[IndexOf(0, root, p)])
  {
    var k, n := IndexOf(0, root, p), SubNode(root, p);
    ParentToken(ts, at, i, k);
    ListedChild(at, k, n, i, r);
    ChildrenByParent(ts, root, p, i);
  }

  lemma {:induction false} ListedAll(ts: seq<Token>, at: seq<nat>, root: RNode, p: Path, r: seq<nat>)
    requires Occurs(ts, 0, NodeTokens(root)) && |at| == |ts| + 1 && Ascending(at) && InNode(root, p)
    requires IndexOf(0, root, p) < |at| && Lists(at, IndexOf(0, root, p), SubNode(root, p), r)
    ensures forall i :: 0 <= i < |NodeTokens(root)| && ts[i].Begin? ==>
            (at[i] in r <==> ParentAt(ts, at, i) == Some(at[IndexOf(0, root, p)]))
  {
    forall i | 0 <= i < |NodeTokens(root)| && ts[i].Begin?
      ensures at[i] in r <==> ParentAt(ts, at, i) == Some(at[IndexOf(0, root, p)])
    {
      ListedByParent(ts, at, root, p, i, r);
    }
  }

  /**
    Enumerating the children of a node gives exactly the nodes whose parent it is: for every node of
    the tree, its offset is in the list if and only if asking for its parent gives the node.
    */
  method ChildrenAreThoseBelow(b: Bytes, o: nat, ghost root: RNode, ghost ts: seq<Token>, ghost at: seq<nat>,
                               ghost p: Path) returns (r: seq<nat>)
    requires TreeBlock(b, root, ts, at) && InNode(root, p) && IndexOf(0, root, p) < |at| && o == at[IndexOf(0, root, p)]
    ensures |r| == |SubNode(root, p).kids|
    ensures forall i :: 0 <= i < |NodeTokens(root)| && ts[i].Begin? ==> (at[i] in r <==> ParentAt(ts, at, i) == Some(o))
  {
    ghost var k := NodeInside(b, root, ts, at, p);
    r := Children(b, o, ts, at, k, SubNode(root, p));
    ListedAll(ts, at, root, p, r);
  }
}
