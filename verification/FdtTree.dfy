/**
  Trees and their tokens. A raw node keeps what the structure block holds: property name offsets,
  padding, and where NOP tags lie. Walking the block is described by one automaton over tokens.
  */
module FdtTree {
  import opened FdtFormat

  datatype Item = ItemNop | ItemProp(nameoff: nat, val: Bytes, pad: Bytes)

  /** A node: its properties and interspersed NOPs, its children, and the number of NOPs behind its end tag. */
  datatype RNode = RNode(name: Bytes, pad: Bytes, head: seq<Item>, kids: seq<RNode>, nops: nat)

  function ItemToken(i: Item): Token {
    match i
    case ItemNop => Nop
    case ItemProp(nameoff, val, pad) => Prop(nameoff, val, pad)
  }

  function HeadTokens(head: seq<Item>): (r: seq<Token>)
    ensures |r| == |head| && forall i :: 0 <= i < |head| ==> r[i] == ItemToken(head[i])
  {
    seq(|head|, i requires 0 <= i < |head| => ItemToken(head[i]))
  }

  function Nops(n: nat): (r: seq<Token>)
    ensures |r| == n && forall i :: 0 <= i < n ==> r[i] == Nop
  {
    seq(n, _ => Nop)
  }

  function NodeTokens(n: RNode): seq<Token>
    decreases n, 1
  {
    [Begin(n.name, n.pad)] + HeadTokens(n.head) + KidsTokens(n.kids) + [End]
  }

  function KidsTokens(ks: seq<RNode>): seq<Token>
    decreases ks, 0
  {
    if ks == [] then [] else NodeTokens(ks[0]) + Nops(ks[0].nops) + KidsTokens(ks[1..])
  }

  /** A child's tokens with the NOPs behind it. */
  function KidTokens(n: RNode): seq<Token> {
    NodeTokens(n) + Nops(n.nops)
  }

  lemma {:induction false} KidsTokensStep(x: RNode, ks: seq<RNode>)
    ensures KidsTokens([x] + ks) == KidTokens(x) + KidsTokens(ks)
  {
    assert ([x] + ks)[1..] == ks;
  }

  lemma {:induction false} KidsTokensAppend(a: seq<RNode>, b: seq<RNode>)
    ensures KidsTokens(a + b) == KidsTokens(a) + KidsTokens(b)
  {
    if a == [] {
      assert a + b == b;
    } else {
      var x := KidTokens(a[0]);
      assert KidsTokens(a) == x + KidsTokens(a[1..]) by {
        KidsTokensStep(a[0], a[1..]);
        assert [a[0]] + a[1..] == a;
      }
      assert KidsTokens(a + b) == x + KidsTokens(a[1..] + b) by {
        KidsTokensStep(a[0], a[1..] + b);
        assert [a[0]] + (a[1..] + b) == a + b;
      }
      KidsTokensAppend(a[1..], b);
      assert x + (KidsTokens(a[1..]) + KidsTokens(b)) == (x + KidsTokens(a[1..])) + KidsTokens(b);
    }
  }

  lemma {:induction false} KidsTokensPush(ks: seq<RNode>, x: RNode)
    ensures KidsTokens(ks + [x]) == KidsTokens(ks) + KidTokens(x)
  {
    KidsTokensAppend(ks, [x]);
    KidsTokensStep(x, []);
    assert [x] + [] == [x];
  }

  // ---------------------------------------------------------------------------------------
  // Occurrences
  // ---------------------------------------------------------------------------------------

  /** The tokens `x` lie at index k. */
  ghost predicate Occurs(ts: seq<Token>, k: nat, x: seq<Token>) {
    k + |x| <= |ts| && ts[k..k + |x|] == x
  }

  lemma {:induction false} OccursSplit(ts: seq<Token>, k: nat, a: seq<Token>, b: seq<Token>)
    requires Occurs(ts, k, a + b)
    ensures Occurs(ts, k, a) && Occurs(ts, k + |a|, b)
  {
    assert ts[k..k + |a|] == (a + b)[..|a|];
    assert ts[k + |a|..k + |a| + |b|] == (a + b)[|a|..];
  }

  lemma {:induction false} BracketParts(ts: seq<Token>, k: nat, b: Token, h: seq<Token>, c: seq<Token>, e: Token)
    requires Occurs(ts, k, [b] + h + c + [e])
    ensures ts[k] == b && Occurs(ts, k + 1, h) && Occurs(ts, k + 1 + |h|, c)
    ensures k + 1 + |h| + |c| < |ts| && ts[k + 1 + |h| + |c|] == e
  {
    OccursSplit(ts, k, [b] + h + c, [e]);
    OccursSplit(ts, k, [b] + h, c);
    OccursSplit(ts, k, [b], h);
    assert ts[k] == ts[k..k + 1][0];
    var z := k + 1 + |h| + |c|;
    assert ts[z] == ts[z..z + 1][0];
  }

  lemma {:induction false} NodeShape(n: RNode)
    ensures NodeTokens(n) == [Begin(n.name, n.pad)] + HeadTokens(n.head) + KidsTokens(n.kids) + [End]
    ensures |NodeTokens(n)| == 2 + |n.head| + |KidsTokens(n.kids)|
  {
  }

  /** Where the parts of a node lie. */
  lemma {:induction false} NodeParts(ts: seq<Token>, k: nat, n: RNode)
    requires Occurs(ts, k, NodeTokens(n))
    ensures ts[k] == Begin(n.name, n.pad)
    ensures Occurs(ts, k + 1, HeadTokens(n.head))
    ensures Occurs(ts, k + 1 + |n.head|, KidsTokens(n.kids))
    ensures var e := k + 1 + |n.head| + |KidsTokens(n.kids)|; e < |ts| && ts[e] == End && e + 1 == k + |NodeTokens(n)|
  {
    var h, c := HeadTokens(n.head), KidsTokens(n.kids);
    assert Occurs(ts, k, [Begin(n.name, n.pad)] + h + c + [End]) && |NodeTokens(n)| == 2 + |h| + |c| by {
      NodeShape(n);
    }
    BracketParts(ts, k, Begin(n.name, n.pad), h, c, End);
  }

  /** The index at which child j of a node at index k starts. */
  function KidIndex(n: RNode, j: nat): nat
    requires j <= |n.kids|
  {
    1 + |n.head| + |KidsTokens(n.kids[..j])|
  }

  lemma {:induction false} KidsSplit(ts: seq<Token>, k: nat, ks: seq<RNode>, i: nat)
    requires Occurs(ts, k, KidsTokens(ks)) && i <= |ks|
    ensures Occurs(ts, k, KidsTokens(ks[..i])) && Occurs(ts, k + |KidsTokens(ks[..i])|, KidsTokens(ks[i..]))
  {
    assert KidsTokens(ks) == KidsTokens(ks[..i]) + KidsTokens(ks[i..]) by {
      assert ks == ks[..i] + ks[i..];
      KidsTokensAppend(ks[..i], ks[i..]);
    }
    OccursSplit(ts, k, KidsTokens(ks[..i]), KidsTokens(ks[i..]));
  }

  /** Where the parts of a list of children lie. */
  lemma {:induction false} KidsParts(ts: seq<Token>, k: nat, ks: seq<RNode>)
    requires Occurs(ts, k, KidsTokens(ks)) && ks != []
    ensures var m := |NodeTokens(ks[0])|;
            && Occurs(ts, k, NodeTokens(ks[0]))
            && Occurs(ts, k + m, Nops(ks[0].nops))
            && Occurs(ts, k + m + ks[0].nops, KidsTokens(ks[1..]))
            && |KidsTokens(ks)| == m + ks[0].nops + |KidsTokens(ks[1..])|
  {
    var x, y, z := NodeTokens(ks[0]), Nops(ks[0].nops), KidsTokens(ks[1..]);
    assert KidsTokens(ks) == x + y + z;
    OccursSplit(ts, k, x + y, z);
    OccursSplit(ts, k, x, y);
  }

  // ---------------------------------------------------------------------------------------
  // The walk over tokens
  // ---------------------------------------------------------------------------------------

  datatype Found = At(k: nat) | Over(k: nat) | Missing

  /**
    Goes on reading at token k with `d` nodes open inside the node being searched. Stops at the
    first child, a node opened while d is 0, whose name satisfies f; or behind the end tag of the
    searched node.
    */
  ghost function Resume(ts: seq<Token>, k: nat, d: nat, f: Bytes -> bool): Found
    decreases |ts| - k
  {
    if k >= |ts| then Missing
    else
      match ts[k]
      case Begin(name, _) => if d == 0 && f(name) then At(k) else Resume(ts, k + 1, d + 1, f)
      case End => if d == 0 then Over(k + 1) else Resume(ts, k + 1, d - 1, f)
      case Finish => Missing
      case _ => Resume(ts, k + 1, d, f)
  }

  lemma {:induction false} ResumeSkipsPlain(ts: seq<Token>, k: nat, x: seq<Token>, d: nat, f: Bytes -> bool)
    requires Occurs(ts, k, x) && forall i :: 0 <= i < |x| ==> x[i].Prop? || x[i].Nop?
    ensures Resume(ts, k, d, f) == Resume(ts, k + |x|, d, f)
    decreases |x|
  {
    if x != [] {
      assert ts[k] == x[0];
      OccursSplit(ts, k, x[..1], x[1..]);
      assert x == x[..1] + x[1..];
      ResumeSkipsPlain(ts, k + 1, x[1..], d, f);
    }
  }

  /** Inside an open node, a whole node is passed over. */
  lemma {:induction false} ResumeSkipsNode(ts: seq<Token>, k: nat, n: RNode, d: nat, f: Bytes -> bool)
    requires Occurs(ts, k, NodeTokens(n)) && (d > 0 || !f(n.name))
    ensures Resume(ts, k, d, f) == Resume(ts, k + |NodeTokens(n)|, d, f)
    decreases n, 2
  {
    NodeParts(ts, k, n);
    ResumeSkipsPlain(ts, k + 1, HeadTokens(n.head), d + 1, f);
    ResumeSkipsKids(ts, k + 1 + |n.head|, n.kids, d + 1, f);
  }

  /** The first of the nodes, and the NOPs behind it. */
  lemma {:induction false} ResumeSkipsFirst(ts: seq<Token>, k: nat, ks: seq<RNode>, d: nat, f: Bytes -> bool)
    requires ks != [] && Occurs(ts, k, KidsTokens(ks)) && (d > 0 || !f(ks[0].name))
    ensures var q := k + |NodeTokens(ks[0])| + ks[0].nops;
            && Occurs(ts, q, KidsTokens(ks[1..])) && k + |KidsTokens(ks)| == q + |KidsTokens(ks[1..])|
            && Resume(ts, k, d, f) == Resume(ts, q, d, f)
    decreases ks, 0
  {
    KidsParts(ts, k, ks);
    var p := k + |NodeTokens(ks[0])|;
    ResumeSkipsNode(ts, k, ks[0], d, f);
    ResumeSkipsPlain(ts, p, Nops(ks[0].nops), d, f);
  }

  lemma {:induction false} ResumeSkipsKids(ts: seq<Token>, k: nat, ks: seq<RNode>, d: nat, f: Bytes -> bool)
    requires Occurs(ts, k, KidsTokens(ks)) && (d > 0 || forall j :: 0 <= j < |ks| ==> !f(ks[j].name))
    ensures Resume(ts, k, d, f) == Resume(ts, k + |KidsTokens(ks)|, d, f)
    decreases ks, 1
  {
    if ks != [] {
      ResumeSkipsFirst(ts, k, ks, d, f);
      var q, rest := k + |NodeTokens(ks[0])| + ks[0].nops, ks[1..];
      assert d > 0 || forall j :: 0 <= j < |rest| ==> !f(rest[j].name);
      ResumeSkipsKids(ts, q, rest, d, f);
    }
  }

  // ---------------------------------------------------------------------------------------
  // What the walk finds
  // ---------------------------------------------------------------------------------------

  /** The first child from number i on whose name satisfies f, or the number of children. */
  ghost function FirstKid(ks: seq<RNode>, i: nat, f: Bytes -> bool): (j: nat)
    requires i <= |ks|
    ensures i <= j <= |ks| && (j < |ks| ==> f(ks[j].name))
    ensures forall x :: i <= x < j ==> !f(ks[x].name)
    decreases |ks| - i
  {
    if i == |ks| || f(ks[i].name) then i else FirstKid(ks, i + 1, f)
  }

  lemma {:induction false} KidsFrom(ts: seq<Token>, k: nat, n: RNode, i: nat)
    requires Occurs(ts, k, NodeTokens(n)) && i <= |n.kids|
    ensures Occurs(ts, k + KidIndex(n, i), KidsTokens(n.kids[i..]))
  {
    NodeParts(ts, k, n);
    KidsSplit(ts, k + 1 + |n.head|, n.kids, i);
  }

  lemma {:induction false} NextKidIndex(n: RNode, i: nat)
    requires i < |n.kids|
    ensures KidIndex(n, i + 1) == KidIndex(n, i) + |NodeTokens(n.kids[i])| + n.kids[i].nops
  {
    assert n.kids[..i + 1] == n.kids[..i] + [n.kids[i]];
    KidsTokensPush(n.kids[..i], n.kids[i]);
  }

  /** Child i of a node lies at its index, followed by its NOPs. */
  lemma {:induction false} KidOccurs(ts: seq<Token>, k: nat, n: RNode, i: nat)
    requires Occurs(ts, k, NodeTokens(n)) && i < |n.kids|
    ensures Occurs(ts, k + KidIndex(n, i), NodeTokens(n.kids[i]))
    ensures Occurs(ts, k + KidIndex(n, i) + |NodeTokens(n.kids[i])|, Nops(n.kids[i].nops))
  {
    KidsFrom(ts, k, n, i);
    KidsParts(ts, k + KidIndex(n, i), n.kids[i..]);
  }

  ghost function Hit(k: nat, n: RNode, j: nat): Found
    requires j <= |n.kids|
  {
    if j < |n.kids| then At(k + KidIndex(n, j)) else Over(k + |NodeTokens(n)|)
  }

  /** A search among the children that starts at child i ends with the first match from there on. */
  lemma {:induction false} SearchKids(ts: seq<Token>, k: nat, n: RNode, i: nat, f: Bytes -> bool)
    requires Occurs(ts, k, NodeTokens(n)) && i <= |n.kids|
    ensures Resume(ts, k + KidIndex(n, i), 0, f) == Hit(k, n, FirstKid(n.kids, i, f))
    decreases |n.kids| - i
  {
    if i == |n.kids| {
      NodeParts(ts, k, n);
      assert n.kids[..i] == n.kids;
    } else {
      KidOccurs(ts, k, n, i);
      var p := k + KidIndex(n, i);
      if f(n.kids[i].name) {
        NodeParts(ts, p, n.kids[i]);
      } else {
        ResumeSkipsNode(ts, p, n.kids[i], 0, f);
        ResumeSkipsPlain(ts, p + |NodeTokens(n.kids[i])|, Nops(n.kids[i].nops), 0, f);
        NextKidIndex(n, i);
        SearchKids(ts, k, n, i + 1, f);
      }
    }
  }

  /** Searching a node from its start looks at all of its children. */
  lemma {:induction false} SearchNode(ts: seq<Token>, k: nat, n: RNode, f: Bytes -> bool)
    requires Occurs(ts, k, NodeTokens(n))
    ensures Resume(ts, k + 1, 0, f) == Hit(k, n, FirstKid(n.kids, 0, f))
  {
    NodeParts(ts, k, n);
    ResumeSkipsPlain(ts, k + 1, HeadTokens(n.head), 0, f);
    assert n.kids[..0] == [];
    SearchKids(ts, k, n, 0, f);
  }

  /** From inside a node, reading on leads behind its end tag. */
  lemma {:induction false} ResumeLeavesNode(ts: seq<Token>, p: nat, c: RNode, f: Bytes -> bool)
    requires Occurs(ts, p, NodeTokens(c))
    ensures Resume(ts, p + 1, 1, f) == Resume(ts, p + |NodeTokens(c)|, 0, f)
  {
    NodeParts(ts, p, c);
    ResumeSkipsPlain(ts, p + 1, HeadTokens(c.head), 1, f);
    ResumeSkipsKids(ts, p + 1 + |c.head|, c.kids, 1, f);
  }

  /** Searching on from inside child i looks at the children after it. */
  lemma {:induction false} SearchAfterKid(ts: seq<Token>, k: nat, n: RNode, i: nat, f: Bytes -> bool)
    requires Occurs(ts, k, NodeTokens(n)) && i < |n.kids|
    ensures Resume(ts, k + KidIndex(n, i) + 1, 1, f) == Hit(k, n, FirstKid(n.kids, i + 1, f))
  {
    var p := k + KidIndex(n, i);
    KidOccurs(ts, k, n, i);
    ResumeLeavesNode(ts, p, n.kids[i], f);
    ResumeSkipsPlain(ts, p + |NodeTokens(n.kids[i])|, Nops(n.kids[i].nops), 0, f);
    NextKidIndex(n, i);
    SearchKids(ts, k, n, i + 1, f);
  }
}
