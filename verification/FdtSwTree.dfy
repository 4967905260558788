/**
  Writing a whole tree: the calls that write it in order leave a blob that encodes exactly this
  tree.
  */
module FdtSwTree {
  import opened Options
  import opened FdtFormat
  import opened FdtTree
  import opened FdtRead
  import opened FdtBlob
  import opened FdtEdit
  import opened FdtRw
  import M = FdtModel
  import opened FdtContents
  import opened FdtWhole
  import opened FdtSw

  /** The calls that write a tree. */
  function Events(t: M.Tree): seq<Call>
    decreases t, 1
  {
    [Open(t.name)] + PropEvents(t.props) + KidsEvents(t.kids) + [Close]
  }

  function PropEvents(props: seq<M.Property>): (r: seq<Call>)
    ensures |r| == |props|
  {
    seq(|props|, i requires 0 <= i < |props| => Property(props[i].name, props[i].val))
  }

  function KidsEvents(ks: seq<M.Tree>): seq<Call>
    decreases ks, 0
  {
    if ks == [] then [] else Events(ks[0]) + KidsEvents(ks[1..])
  }

  lemma {:induction false} ShowSplit(ts: seq<Token>, a: seq<Call>, b: seq<Call>, strs: Bytes)
    requires AllShow(ts, a + b, strs)
    ensures AllShow(ts[..|a|], a, strs) && AllShow(ts[|a|..], b, strs)
  {
    forall i | 0 <= i < |a|
      ensures Shows(ts[..|a|][i], a[i], strs)
    {
      assert Shows(ts[i], (a + b)[i], strs);
    }
    forall i | 0 <= i < |b|
      ensures Shows(ts[|a|..][i], b[i], strs)
    {
      assert Shows(ts[|a| + i], (a + b)[|a| + i], strs);
    }
  }

  lemma {:induction false} BuildHead(props: seq<M.Property>, ts: seq<Token>, strs: Bytes) returns (head: seq<Item>)
    requires AllShow(ts, PropEvents(props), strs)
    ensures HeadTokens(head) == ts && M.AbsHead(head, M.NameTable(strs)) == props
    decreases |props|
  {
    if props == [] {
      head := [];
    } else {
      assert PropEvents(props) == PropEvents(props[..1]) + PropEvents(props[1..]);
      ShowSplit(ts, PropEvents(props[..1]), PropEvents(props[1..]), strs);
      var rest := BuildHead(props[1..], ts[1..], strs);
      assert Shows(ts[0], PropEvents(props)[0], strs);
      var x := ItemProp(ts[0].nameoff, ts[0].val, ts[0].pad);
      head := [x] + rest;
      assert head[1..] == rest;
      assert ts == [ts[0]] + ts[1..];
    }
  }

  lemma {:induction false} Bracket(ts: seq<Token>, a: Call, h: seq<Call>, k: seq<Call>, z: Call, strs: Bytes)
    requires AllShow(ts, [a] + h + k + [z], strs)
    ensures |ts| == 2 + |h| + |k| && Shows(ts[0], a, strs) && Shows(ts[|ts| - 1], z, strs)
    ensures AllShow(ts[1..1 + |h|], h, strs) && AllShow(ts[1 + |h|..|ts| - 1], k, strs)
    ensures ts == [ts[0]] + ts[1..1 + |h|] + ts[1 + |h|..|ts| - 1] + [ts[|ts| - 1]]
  {
    var n := |ts|;
    ShowSplit(ts, [a] + h + k, [z], strs);
    ShowSplit(ts[..n - 1], [a] + h, k, strs);
    ShowSplit(ts[..n - 1][..1 + |h|], [a], h, strs);
    assert ts[..n - 1][1 + |h|..] == ts[1 + |h|..n - 1];
    assert ts[..n - 1][..1 + |h|][1..] == ts[1..1 + |h|];
    assert ([a] + h + k + [z])[0] == a && ([a] + h + k + [z])[n - 1] == z;
  }

  /** Tokens that show the calls for a tree are the tokens of a node that stands for it. */
  lemma {:induction false} BuildNode(t: M.Tree, ts: seq<Token>, strs: Bytes) returns (n: RNode)
    requires AllShow(ts, Events(t), strs)
    ensures NodeTokens(n) == ts && M.Abs(n, M.NameTable(strs)) == t && n.nops == 0
    decreases t, 1
  {
    var p, k := PropEvents(t.props), KidsEvents(t.kids);
    Bracket(ts, Open(t.name), p, k, Close, strs);
    var head := BuildHead(t.props, ts[1..1 + |p|], strs);
    var kids := BuildKids(t.kids, ts[1 + |p|..|ts| - 1], strs);
    n := RNode(t.name, ts[0].pad, head, kids, 0);
    NodeShape(n);
  }

  lemma {:induction false} BuildKids(ts: seq<M.Tree>, tokens: seq<Token>, strs: Bytes) returns (ks: seq<RNode>)
    requires AllShow(tokens, KidsEvents(ts), strs)
    ensures KidsTokens(ks) == tokens && M.AbsKids(ks, M.NameTable(strs)) == ts
    decreases ts, 0
  {
    if ts == [] {
      ks := [];
    } else {
      var m := |Events(ts[0])|;
      ShowSplit(tokens, Events(ts[0]), KidsEvents(ts[1..]), strs);
      var first := BuildNode(ts[0], tokens[..m], strs);
      var rest := BuildKids(ts[1..], tokens[m..], strs);
      ks := [first] + rest;
      KidsTokensStep(first, rest);
      assert Nops(0) == [];
      assert tokens == tokens[..m] + tokens[m..];
      assert ks[1..] == rest;
    }
  }

  lemma {:induction false} ShownNames(ts: seq<Token>, calls: seq<Call>, strs: Bytes)
    requires AllShow(ts, calls, strs)
    ensures NamesResolve(ts + [Finish], strs)
  {
    var all := ts + [Finish];
    forall i | 0 <= i < |all| && all[i].Prop?
      ensures StringAt(strs, all[i].nameoff).Some?
    {
      assert Shows(ts[i], calls[i], strs);
    }
  }

  /** A finished blob whose calls wrote a tree encodes this tree. */
  lemma {:induction false} WrittenTree(im: Image, ts: seq<Token>, t: M.Tree) returns (root: RNode)
    requires Keeps(im, ts + [Finish]) && AllShow(ts, Events(t), im.Strings())
    ensures Encodes(im, root) && Contents(im, root) == t
  {
    root := BuildNode(t, ts, im.Strings());
    ShownNames(ts, Events(t), im.Strings());
    assert Nops(0) == [];
    assert [] + ts + ([] + [Finish]) == ts + [Finish];
  }
}
