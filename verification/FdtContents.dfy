/**
  The tree that a node of a blob stands for, and what edits of its tokens do to that tree: name
  offsets, padding and NOPs vanish, names and values remain.
  */
module FdtContents {
  import opened Options
  import opened FdtFormat
  import opened FdtTree
  import opened FdtRead
  import opened FdtBlob
  import opened FdtChunk
  import opened FdtEdit
  import opened FdtRw
  import opened FdtModel
  import Ops = FdtOps

  /** The tree that a node stands for in a blob. */
  ghost function Contents(im: Image, n: RNode): Tree
    requires im.Ordered()
  {
    Abs(n, NameTable(im.Strings()))
  }

  // ---------------------------------------------------------------------------------------
  // Names stay what they are
  // ---------------------------------------------------------------------------------------

  ghost predicate HeadResolves(head: seq<Item>, strs: Bytes) {
    forall i :: 0 <= i < |head| && head[i].ItemProp? ==> StringAt(strs, head[i].nameoff).Some?
  }

  lemma {:induction false} NamesInside(ts: seq<Token>, k: nat, x: seq<Token>, strs: Bytes)
    requires NamesResolve(ts, strs) && Occurs(ts, k, x)
    ensures NamesResolve(x, strs)
  {
    forall i | 0 <= i < |x| && x[i].Prop?
      ensures StringAt(strs, x[i].nameoff).Some?
    {
      assert x[i] == ts[k..k + |x|][i] == ts[k + i];
    }
  }

  lemma {:induction false} NodeResolves(n: RNode, strs: Bytes)
    requires NamesResolve(NodeTokens(n), strs)
    ensures HeadResolves(n.head, strs) && NamesResolve(KidsTokens(n.kids), strs)
  {
    var ts := NodeTokens(n);
    assert Occurs(ts, 0, ts);
    NodeParts(ts, 0, n);
    NamesInside(ts, 1 + |n.head|, KidsTokens(n.kids), strs);
    NamesInside(ts, 1, HeadTokens(n.head), strs);
    forall i | 0 <= i < |n.head| && n.head[i].ItemProp?
      ensures StringAt(strs, n.head[i].nameoff).Some?
    {
      assert HeadTokens(n.head)[i] == ItemToken(n.head[i]);
    }
  }

  lemma {:induction false} KidsResolve(ks: seq<RNode>, strs: Bytes)
    requires NamesResolve(KidsTokens(ks), strs) && ks != []
    ensures NamesResolve(NodeTokens(ks[0]), strs) && NamesResolve(KidsTokens(ks[1..]), strs)
  {
    var x, y := KidTokens(ks[0]), KidsTokens(ks[1..]);
    assert KidsTokens(ks) == x + y by {
      KidsTokensStep(ks[0], ks[1..]);
      assert [ks[0]] + ks[1..] == ks;
    }
    NamesInside(x + y, 0, NodeTokens(ks[0]), strs);
    NamesInside(x + y, |x|, y, strs);
  }

  lemma {:induction false} GrownHead(head: seq<Item>, strs: Bytes, more: Bytes)
    requires HeadResolves(head, strs)
    ensures AbsHead(head, NameTable(strs + more)) == AbsHead(head, NameTable(strs))
  {
    if head != [] {
      GrownHead(head[1..], strs, more);
      if head[0].ItemProp? {
        StringKept(strs, more, head[0].nameoff);
      }
    }
  }

  /** Adding strings does not change the tree a node stands for. */
  lemma {:induction false} GrownNode(n: RNode, strs: Bytes, more: Bytes)
    requires NamesResolve(NodeTokens(n), strs)
    ensures Abs(n, NameTable(strs + more)) == Abs(n, NameTable(strs))
    decreases n, 1
  {
    NodeResolves(n, strs);
    GrownHead(n.head, strs, more);
    GrownKids(n.kids, strs, more);
  }

  lemma {:induction false} GrownKids(ks: seq<RNode>, strs: Bytes, more: Bytes)
    requires NamesResolve(KidsTokens(ks), strs)
    ensures AbsKids(ks, NameTable(strs + more)) == AbsKids(ks, NameTable(strs))
    decreases ks, 0
  {
    if ks != [] {
      KidsResolve(ks, strs);
      GrownNode(ks[0], strs, more);
      GrownKids(ks[1..], strs, more);
    }
  }

  // ---------------------------------------------------------------------------------------
  // Edits of one node
  // ---------------------------------------------------------------------------------------

  lemma {:induction false} NamedDecides(head: seq<Item>, strs: Bytes, name: Bytes)
    requires HeadResolves(head, strs)
    ensures Decides(head, Named(strs, name), NameTable(strs), name)
  {
  }

  lemma {:induction false} SetAround(t: Tree, name: Bytes, val: Bytes, a: seq<Property>, p: Property, c: seq<Property>)
    requires t.props == a + [p] + c && PropPos(t.props, name) == |a|
    ensures SetProp(t, name, val) == t.(props := a + [Property(name, val)] + c)
  {
  }

  lemma {:induction false} ReplacedAbs(n: RNode, m: RNode, strs: Bytes, name: Bytes, val: Bytes)
    requires HeadResolves(n.head, strs)
    requires var i := PropIndex(n.head, Named(strs, name), 0); Ops.PropReplaced(n, m, i, val)
    ensures Abs(m, NameTable(strs)) == SetProp(Abs(n, NameTable(strs)), name, val)
  {
    var names, has := NameTable(strs), Named(strs, name);
    var i := PropIndex(n.head, has, 0);
    NamedDecides(n.head, strs, name);
    PropPosAbs(n.head, has, names, name);
    assert has(n.head[i].nameoff) && names(n.head[i].nameoff) == name;
    var a, p, c := AbsHead(n.head[..i], names), Property(name, n.head[i].val), AbsHead(n.head[i + 1..], names);
    assert AbsHead(n.head, names) == a + [p] + c by {
      AbsHeadAround(n.head, names, i);
    }
    assert AbsHead(m.head, names) == a + [Property(name, val)] + c by {
      AbsHeadAround(m.head, names, i);
      assert m.head[..i] == n.head[..i] && m.head[i + 1..] == n.head[i + 1..];
    }
    SetAround(Abs(n, names), name, val, a, p, c);
  }

  lemma {:induction false} AddedAbs(n: RNode, m: RNode, was: Bytes, now: Bytes, more: Bytes, name: Bytes, val: Bytes)
    requires NamesResolve(NodeTokens(n), was) && now == was + more
    requires PropIndex(n.head, Named(was, name), 0) == |n.head| && Ops.PropAdded(n, m, now, name, val)
    ensures Abs(m, NameTable(now)) == SetProp(Abs(n, NameTable(was)), name, val)
  {
    NodeResolves(n, was);
    NamedDecides(n.head, was, name);
    PropPosAbs(n.head, Named(was, name), NameTable(was), name);
    GrownHead(n.head, was, more);
    GrownKids(n.kids, was, more);
    assert m.head[1..] == n.head;
  }

  /** Setting and appending to a property of a block is setting and appending to it in the tree. */
  lemma {:induction false} WrittenAbs(n: RNode, m: RNode, was: Bytes, now: Bytes, name: Bytes, val: Bytes, append: bool)
    requires NamesResolve(NodeTokens(n), was) && Ops.PropWritten(n, m, was, now, name, val, append)
    ensures Abs(m, NameTable(now)) ==
            if append then AppendProp(Abs(n, NameTable(was)), name, val) else SetProp(Abs(n, NameTable(was)), name, val)
  {
    var i := PropIndex(n.head, Named(was, name), 0);
    NodeResolves(n, was);
    NamedDecides(n.head, was, name);
    PropPosAbs(n.head, Named(was, name), NameTable(was), name);
    if i < |n.head| {
      AbsHeadAround(n.head, NameTable(was), i);
      ReplacedAbs(n, m, was, name, if append then n.head[i].val + val else val);
    } else {
      AddedAbs(n, m, was, now, Ops.NewString(was, name), name, val);
    }
  }

  lemma {:induction false} DeletedAbs(n: RNode, strs: Bytes, name: Bytes)
    requires NamesResolve(NodeTokens(n), strs)
    ensures var i := PropIndex(n.head, Named(strs, name), 0);
            var t := Abs(n, NameTable(strs));
            && (i < |n.head| <==> PropPos(t.props, name) < |t.props|)
            && (i < |n.head| ==> Abs(n.(head := n.head[..i] + n.head[i + 1..]), NameTable(strs)) == DelProp(t, name))
  {
    var names, has := NameTable(strs), Named(strs, name);
    var i, t := PropIndex(n.head, has, 0), Abs(n, names);
    NodeResolves(n, strs);
    NamedDecides(n.head, strs, name);
    PropPosAbs(n.head, has, names, name);
    if i < |n.head| {
      var a, x, c := AbsHead(n.head[..i], names), Property(names(n.head[i].nameoff), n.head[i].val),
        AbsHead(n.head[i + 1..], names);
      assert t.props == a + [x] + c by {
        AbsHeadAround(n.head, names, i);
      }
      assert AbsHead(n.head[..i] + n.head[i + 1..], names) == a + c by {
        AbsHeadAppend(n.head[..i], n.head[i + 1..], names);
      }
      WithoutMiddle(a, x, c);
    }
  }

  lemma {:induction false} WithoutMiddle(a: seq<Property>, x: Property, c: seq<Property>)
    ensures var ps := a + [x] + c; |a| < |ps| && ps[..|a|] + ps[|a| + 1..] == a + c
  {
    var ps := a + [x] + c;
    assert ps[..|a|] == a && ps[|a| + 1..] == c;
  }

  lemma {:induction false} KidAddedAbs(n: RNode, c: RNode, names: nat -> Bytes)
    requires c.head == [] && c.kids == []
    ensures Abs(n.(kids := [c] + n.kids), names) == AddKid(Abs(n, names), c.name)
  {
    assert ([c] + n.kids)[1..] == n.kids;
    assert Abs(c, names) == Tree(c.name, [], []);
  }

  lemma {:induction false} AbsKidsUpdate(ks: seq<RNode>, j: nat, c: RNode, names: nat -> Bytes)
    requires j < |ks|
    ensures AbsKids(ks[j := c], names) == AbsKids(ks, names)[j := Abs(c, names)]
  {
    AbsKidsAll(ks, names);
    AbsKidsAll(ks[j := c], names);
  }

  // ---------------------------------------------------------------------------------------
  // Deleting a child
  // ---------------------------------------------------------------------------------------

  /** Without child j; the NOPs behind it now belong to what stands in front of it. */
  function WithoutKid(n: RNode, j: nat): RNode
    requires j < |n.kids|
  {
    if j == 0 then
      n.(head := n.head + seq(n.kids[0].nops, _ => ItemNop), kids := n.kids[1..])
    else
      var k := n.kids[j - 1];
      n.(kids := n.kids[..j - 1] + [k.(nops := k.nops + n.kids[j].nops)] + n.kids[j + 1..])
  }

  lemma {:induction false} NopItems(head: seq<Item>, k: nat, names: nat -> Bytes)
    ensures HeadTokens(head + seq(k, _ => ItemNop)) == HeadTokens(head) + Nops(k)
    ensures AbsHead(head + seq(k, _ => ItemNop), names) == AbsHead(head, names)
  {
    AbsHeadAppend(head, seq(k, _ => ItemNop), names);
    NopsVanish(k, names);
  }

  lemma {:induction false} NopsVanish(k: nat, names: nat -> Bytes)
    ensures AbsHead(seq(k, _ => ItemNop), names) == []
  {
    if k > 0 {
      assert seq(k, _ => ItemNop)[1..] == seq(k - 1, _ => ItemNop);
      NopsVanish(k - 1, names);
    }
  }

  lemma {:induction false} FirstKidGone(pre: seq<Token>, n: RNode, post: seq<Token>)
    requires n.kids != []
    ensures BeforeKid(pre, n, 0) + AfterKid(n, 0, post) == pre + NodeTokens(WithoutKid(n, 0)) + post
  {
    var m, z := WithoutKid(n, 0), Nops(n.kids[0].nops);
    var b, h, k := [Begin(n.name, n.pad)], HeadTokens(n.head), KidsTokens(n.kids[1..]);
    assert NodeTokens(m) == b + (h + z) + k + [End] by {
      NopItems(n.head, n.kids[0].nops, (off: nat) => []);
      assert n.kids[..0] == [];
      NodeShape(m);
    }
    assert BeforeKid(pre, n, 0) == pre + b + h by {
      assert n.kids[..0] == [];
    }
    RegroupHead(pre, b, h, z, k, post);
  }

  lemma {:induction false} NopsAppend(a: nat, b: nat)
    ensures Nops(a + b) == Nops(a) + Nops(b)
  {
  }

  lemma {:induction false} KidsGone(ks: seq<RNode>, j: nat)
    requires 0 < j < |ks|
    ensures var k := ks[j - 1];
            KidsTokens(ks[..j - 1] + [k.(nops := k.nops + ks[j].nops)] + ks[j + 1..]) ==
            KidsTokens(ks[..j]) + (Nops(ks[j].nops) + KidsTokens(ks[j + 1..]))
  {
    var k, a, c := ks[j - 1], ks[..j - 1], ks[j + 1..];
    var k' := k.(nops := k.nops + ks[j].nops);
    assert KidsTokens(a + [k'] + c) ==
           KidsTokens(a) + (NodeTokens(k) + (Nops(k.nops) + Nops(ks[j].nops))) + KidsTokens(c) by {
      KidsTokensAppend(a + [k'], c);
      KidsTokensPush(a, k');
      NopsAppend(k.nops, ks[j].nops);
      assert NodeTokens(k') == NodeTokens(k) by {
        NodeShape(k);
        NodeShape(k');
      }
    }
    assert KidsTokens(ks[..j]) == KidsTokens(a) + (NodeTokens(k) + Nops(k.nops)) by {
      KidsTokensPush(a, k);
      assert a + [k] == ks[..j];
    }
    GroupNops(KidsTokens(a), NodeTokens(k), Nops(k.nops), Nops(ks[j].nops), KidsTokens(c));
  }

  lemma {:induction false} GroupNops(a: seq<Token>, x: seq<Token>, y: seq<Token>, z: seq<Token>, c: seq<Token>)
    ensures (a + (x + (y + z))) + c == (a + (x + y)) + (z + c)
  {
    assert a + (x + (y + z)) == (a + (x + y)) + z;
  }

  lemma {:induction false} LaterKidGone(pre: seq<Token>, n: RNode, j: nat, post: seq<Token>)
    requires 0 < j < |n.kids|
    ensures BeforeKid(pre, n, j) + AfterKid(n, j, post) == pre + NodeTokens(WithoutKid(n, j)) + post
  {
    var m := WithoutKid(n, j);
    var b, k := [Begin(n.name, n.pad)] + HeadTokens(n.head), KidsTokens(n.kids[..j]);
    var r := Nops(n.kids[j].nops) + KidsTokens(n.kids[j + 1..]);
    assert NodeTokens(m) == b + (k + r) + [End] by {
      NodeShape(m);
      KidsGone(n.kids, j);
    }
    assert BeforeKid(pre, n, j) == pre + b + k;
    Regroup(pre, b, k, [], r, post);
    assert [] + r == r;
    assert (pre + b + k) + [] == pre + b + k;
  }

  lemma {:induction false} AbsKidsAppend(a: seq<RNode>, b: seq<RNode>, names: nat -> Bytes)
    ensures AbsKids(a + b, names) == AbsKids(a, names) + AbsKids(b, names)
  {
    if a == [] {
      assert a + b == b;
    } else {
      AbsKidsAppend(a[1..], b, names);
      assert (a + b)[1..] == a[1..] + b && (a + b)[0] == a[0];
    }
  }

  lemma {:induction false} AbsKidsSplit(ks: seq<RNode>, names: nat -> Bytes, j: nat)
    requires j <= |ks|
    ensures AbsKids(ks[..j], names) == AbsKids(ks, names)[..j] && AbsKids(ks[j..], names) == AbsKids(ks, names)[j..]
  {
    assert ks == ks[..j] + ks[j..];
    AbsKidsAppend(ks[..j], ks[j..], names);
  }

  /** The tree of a node without child j is the tree without child j. */
  lemma {:induction false} WithoutKidAbs(n: RNode, j: nat, names: nat -> Bytes)
    requires j < |n.kids|
    ensures Abs(WithoutKid(n, j), names) == DelKid(Abs(n, names), j)
  {
    var ks := n.kids;
    AbsKidsSplit(ks, names, j + 1);
    AbsKidsSplit(ks, names, j);
    if j == 0 {
      NopItems(n.head, ks[0].nops, names);
    } else {
      var k := ks[j - 1];
      var k' := k.(nops := k.nops + ks[j].nops);
      AbsKidsAppend(ks[..j - 1] + [k'], ks[j + 1..], names);
      AbsKidsAppend(ks[..j - 1], [k'], names);
      AbsKidsAppend(ks[..j - 1], [k], names);
      assert ks[..j - 1] + [k] == ks[..j];
      assert Abs(k', names) == Abs(k, names);
    }
  }
}
