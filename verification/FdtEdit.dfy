/**
  Where an edit takes place in the token sequence: in front of and behind a property or a child of
  a node that stands between the tokens `pre` and `post`.
  */
module FdtEdit {
  import opened Options
  import opened FdtFormat
  import opened FdtTree
  import opened FdtRead
  import opened FdtBlob

  /** Every property name offset leads to a terminated string. */
  ghost predicate NamesResolve(ts: seq<Token>, strs: Bytes) {
    forall i :: 0 <= i < |ts| && ts[i].Prop? ==> StringAt(strs, ts[i].nameoff).Some?
  }

  /** The image holds the tokens ts. */
  ghost predicate Holds(im: Image, ts: seq<Token>) {
    im.Ordered() && ValidTokens(ts) && im.Struct() == Flat(ts) && NamesResolve(ts, im.Strings())
  }

  // ---------------------------------------------------------------------------------------
  // Where an edit takes place in the tokens
  // ---------------------------------------------------------------------------------------

  /** The tokens before item i of a node that stands behind pre. */
  function BeforeItem(pre: seq<Token>, n: RNode, i: nat): seq<Token>
    requires i <= |n.head|
  {
    pre + [Begin(n.name, n.pad)] + HeadTokens(n.head[..i])
  }

  /** The tokens from item i of a node on, up to the end. */
  function FromItem(n: RNode, i: nat, post: seq<Token>): seq<Token>
    requires i <= |n.head|
  {
    HeadTokens(n.head[i..]) + KidsTokens(n.kids) + [End] + post
  }

  lemma {:induction false} HeadTokensAppend(a: seq<Item>, b: seq<Item>)
    ensures HeadTokens(a + b) == HeadTokens(a) + HeadTokens(b)
  {
  }

  lemma {:induction false} SplitAtItem(pre: seq<Token>, n: RNode, i: nat, post: seq<Token>)
    requires i <= |n.head|
    ensures pre + NodeTokens(n) + post == BeforeItem(pre, n, i) + FromItem(n, i, post)
  {
    var b, h1, h2, c := [Begin(n.name, n.pad)], HeadTokens(n.head[..i]), HeadTokens(n.head[i..]), KidsTokens(n.kids);
    assert NodeTokens(n) == b + (h1 + h2) + c + [End] by {
      NodeShape(n);
      assert n.head == n.head[..i] + n.head[i..];
      HeadTokensAppend(n.head[..i], n.head[i..]);
    }
    RegroupHead(pre, b, h1, h2, c, post);
  }

  lemma {:induction false} RegroupHead(p: seq<Token>, b: seq<Token>, h1: seq<Token>, h2: seq<Token>, c: seq<Token>,
                                       post: seq<Token>)
    ensures p + (b + (h1 + h2) + c + [End]) + post == (p + b + h1) + (h2 + c + [End] + post)
  {
    var r := c + [End] + post;
    assert h2 + c + [End] + post == h2 + r;
    assert b + (h1 + h2) + c + [End] + post == (b + h1) + (h2 + r);
    assert p + (b + (h1 + h2) + c + [End]) + post == p + ((b + h1) + (h2 + r));
  }

  /** Inserting an item in front of item i. */
  lemma {:induction false} InsertItem(pre: seq<Token>, n: RNode, i: nat, x: Item, post: seq<Token>)
    requires i <= |n.head|
    ensures BeforeItem(pre, n, i) + [ItemToken(x)] + FromItem(n, i, post) ==
            pre + NodeTokens(n.(head := n.head[..i] + [x] + n.head[i..])) + post
  {
    var m := n.(head := n.head[..i] + [x] + n.head[i..]);
    SplitAtItem(pre, m, i + 1, post);
    assert m.head[..i + 1] == n.head[..i] + [x] && m.head[i + 1..] == n.head[i..];
    HeadTokensAppend(n.head[..i], [x]);
    assert HeadTokens([x]) == [ItemToken(x)];
    assert pre + [Begin(n.name, n.pad)] + (HeadTokens(n.head[..i]) + [ItemToken(x)])
           == pre + [Begin(n.name, n.pad)] + HeadTokens(n.head[..i]) + [ItemToken(x)];
  }

  /** Item i stands between what comes before it and what comes from item i + 1 on. */
  lemma {:induction false} AtItem(pre: seq<Token>, n: RNode, i: nat, post: seq<Token>)
    requires i < |n.head|
    ensures pre + NodeTokens(n) + post == BeforeItem(pre, n, i) + [ItemToken(n.head[i])] + FromItem(n, i + 1, post)
  {
    var x := [ItemToken(n.head[i])];
    assert FromItem(n, i, post) == x + FromItem(n, i + 1, post) by {
      FirstItemOf(n.head, i);
      var h, k := HeadTokens(n.head[i + 1..]), KidsTokens(n.kids);
      assert (x + h) + k + [End] + post == x + (h + k + [End] + post);
    }
    SplitAtItem(pre, n, i, post);
    var a, c := BeforeItem(pre, n, i), FromItem(n, i + 1, post);
    assert a + (x + c) == a + x + c;
  }

  lemma {:induction false} FirstItemOf(head: seq<Item>, i: nat)
    requires i < |head|
    ensures HeadTokens(head[i..]) == [ItemToken(head[i])] + HeadTokens(head[i + 1..])
  {
    assert head[i..] == [head[i]] + head[i + 1..];
    HeadTokensAppend([head[i]], head[i + 1..]);
    assert HeadTokens([head[i]]) == [ItemToken(head[i])];
  }

  /** Removing item i. */
  lemma {:induction false} WithoutItem(pre: seq<Token>, n: RNode, i: nat, post: seq<Token>)
    requires i < |n.head|
    ensures BeforeItem(pre, n, i) + FromItem(n, i + 1, post) ==
            pre + NodeTokens(n.(head := n.head[..i] + n.head[i + 1..])) + post
  {
    var m := n.(head := n.head[..i] + n.head[i + 1..]);
    SplitAtItem(pre, m, i, post);
    assert m.head[..i] == n.head[..i] && m.head[i..] == n.head[i + 1..];
  }

  /** Replacing item i. */
  lemma {:induction false} ReplaceItem(pre: seq<Token>, n: RNode, i: nat, x: Item, post: seq<Token>)
    requires i < |n.head|
    ensures BeforeItem(pre, n, i) + [ItemToken(x)] + FromItem(n, i + 1, post) ==
            pre + NodeTokens(n.(head := n.head[i := x])) + post
  {
    var m := n.(head := n.head[i := x]);
    AtItem(pre, m, i, post);
    assert m.head[..i] == n.head[..i] && m.head[i + 1..] == n.head[i + 1..];
  }

  /** Adding a child in front of the others. */
  lemma {:induction false} PrependKid(pre: seq<Token>, n: RNode, c: RNode, post: seq<Token>)
    requires c.nops == 0
    ensures BeforeItem(pre, n, |n.head|) + NodeTokens(c) + FromItem(n, |n.head|, post) ==
            pre + NodeTokens(n.(kids := [c] + n.kids)) + post
  {
    var m, h := n.(kids := [c] + n.kids), |n.head|;
    assert KidsTokens(m.kids) == NodeTokens(c) + KidsTokens(n.kids) by {
      KidsTokensStep(c, n.kids);
      assert KidTokens(c) == NodeTokens(c) + Nops(0) == NodeTokens(c);
    }
    assert FromItem(m, h, post) == NodeTokens(c) + FromItem(n, h, post) by {
      FromEnd(n, post);
      FromEnd(m, post);
      assert NodeTokens(c) + KidsTokens(n.kids) + [End] + post == NodeTokens(c) + (KidsTokens(n.kids) + [End] + post);
    }
    SplitAtItem(pre, m, h, post);
    var a := BeforeItem(pre, n, h);
    assert a + (NodeTokens(c) + FromItem(n, h, post)) == a + NodeTokens(c) + FromItem(n, h, post);
  }

  lemma {:induction false} FromEnd(n: RNode, post: seq<Token>)
    ensures FromItem(n, |n.head|, post) == KidsTokens(n.kids) + [End] + post
  {
    assert n.head[|n.head|..] == [] && HeadTokens([]) == [];
    assert [] + KidsTokens(n.kids) == KidsTokens(n.kids);
  }

  // ---------------------------------------------------------------------------------------
  // Children as places of their own
  // ---------------------------------------------------------------------------------------

  function BeforeKid(pre: seq<Token>, n: RNode, j: nat): seq<Token>
    requires j < |n.kids|
  {
    pre + [Begin(n.name, n.pad)] + HeadTokens(n.head) + KidsTokens(n.kids[..j])
  }

  function AfterKid(n: RNode, j: nat, post: seq<Token>): seq<Token>
    requires j < |n.kids|
  {
    Nops(n.kids[j].nops) + KidsTokens(n.kids[j + 1..]) + [End] + post
  }

  lemma {:induction false} Regroup(p: seq<Token>, b: seq<Token>, k1: seq<Token>, x: seq<Token>, r: seq<Token>,
                                   post: seq<Token>)
    ensures (p + b + k1) + x + (r + [End] + post) == p + (b + (k1 + (x + r)) + [End]) + post
  {
    var m := x + (r + [End] + post);
    assert m == (x + r) + ([End] + post);
    assert (p + b + k1) + x + (r + [End] + post) == (p + b + k1) + m;
    assert b + (k1 + (x + r)) + [End] == (b + k1) + ((x + r) + [End]);
    assert ((x + r) + [End]) + post == m;
  }

  lemma {:induction false} KidReplaced(ks: seq<RNode>, j: nat, c: RNode)
    requires j < |ks| && c.nops == ks[j].nops
    ensures KidsTokens(ks[j := c]) == KidsTokens(ks[..j]) + (NodeTokens(c) + (Nops(c.nops) + KidsTokens(ks[j + 1..])))
  {
    assert ks[j := c] == ks[..j] + ([c] + ks[j + 1..]);
    KidsTokensAppend(ks[..j], [c] + ks[j + 1..]);
    KidsTokensStep(c, ks[j + 1..]);
    var x, z, k := NodeTokens(c), Nops(c.nops), KidsTokens(ks[j + 1..]);
    assert (x + z) + k == x + (z + k);
  }

  /** A child that keeps its trailing NOPs can be replaced in its place. */
  lemma {:induction false} AtKid(pre: seq<Token>, n: RNode, j: nat, c: RNode, post: seq<Token>)
    requires j < |n.kids| && c.nops == n.kids[j].nops
    ensures BeforeKid(pre, n, j) + NodeTokens(c) + AfterKid(n, j, post) ==
            pre + NodeTokens(n.(kids := n.kids[j := c])) + post
  {
    var m := n.(kids := n.kids[j := c]);
    var b, k1 := [Begin(n.name, n.pad)] + HeadTokens(n.head), KidsTokens(n.kids[..j]);
    var r := Nops(c.nops) + KidsTokens(n.kids[j + 1..]);
    assert NodeTokens(m) == b + (k1 + (NodeTokens(c) + r)) + [End] by {
      NodeShape(m);
      KidReplaced(n.kids, j, c);
    }
    assert BeforeKid(pre, n, j) == pre + b + k1;
    Regroup(pre, b, k1, NodeTokens(c), r, post);
  }

  lemma {:induction false} BeforeKidLength(pre: seq<Token>, n: RNode, j: nat)
    requires j < |n.kids|
    ensures |BeforeKid(pre, n, j)| == |pre| + KidIndex(n, j)
  {
  }
}
