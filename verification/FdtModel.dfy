/**
  The device tree itself: named nodes with ordered properties and ordered children. The raw nodes
  of a structure block stand for such trees once name offsets are looked up and NOPs, padding and
  offsets are forgotten.
  */
module FdtModel {
  import opened Options
  import opened FdtFormat
  import opened FdtTree
  import opened FdtRead

  datatype Property = Property(name: Bytes, val: Bytes)
  datatype Tree = Tree(name: Bytes, props: seq<Property>, kids: seq<Tree>)

  // ---------------------------------------------------------------------------------------
  // Operations on trees
  // ---------------------------------------------------------------------------------------

  /** The first property of that name, or the number of properties. */
  function PropPos(props: seq<Property>, name: Bytes): (i: nat)
    ensures i <= |props| && (i < |props| ==> props[i].name == name)
    ensures forall k :: 0 <= k < i ==> props[k].name != name
  {
    if props == [] || props[0].name == name then 0 else 1 + PropPos(props[1..], name)
  }

  /** The first child that answers to the name, or the number of children. */
  function KidPos(kids: seq<Tree>, name: Bytes): (j: nat)
    ensures j <= |kids| && (j < |kids| ==> NameAnswers(kids[j].name, name))
    ensures forall k :: 0 <= k < j ==> !NameAnswers(kids[k].name, name)
  {
    if kids == [] || NameAnswers(kids[0].name, name) then 0 else 1 + KidPos(kids[1..], name)
  }

  /**
    What a search for a child finds, byte by byte: the first child whose name is the one asked for,
    or is that one, if it has no '@', followed by '@' and anything. It finds none exactly when there
    is no such child.
    */
  lemma {:induction false} KidFound(kids: seq<Tree>, name: Bytes)
    ensures var j := KidPos(kids, name);
            && (j < |kids| ==> kids[j].name == name || (0x40 !in name && name + [0x40] <= kids[j].name))
            && (forall k :: 0 <= k < j ==> kids[k].name != name && (0x40 in name || !(name + [0x40] <= kids[k].name)))
    ensures KidPos(kids, name) == |kids| <==>
            forall k :: 0 <= k < |kids| ==>
              kids[k].name != name && (0x40 in name || !(name + [0x40] <= kids[k].name))
  {
    var j := KidPos(kids, name);
    forall k | 0 <= k < j
      ensures kids[k].name != name && (0x40 in name || !(name + [0x40] <= kids[k].name))
    {
      assert !NameAnswers(kids[k].name, name);
    }
  }

  /** Gives the property a value: in its place, or in front when it is new. */
  function SetProp(t: Tree, name: Bytes, val: Bytes): Tree {
    var i := PropPos(t.props, name);
    t.(props := if i < |t.props| then t.props[i := Property(name, val)] else [Property(name, val)] + t.props)
  }

  /** Appends to the property's value, or sets it when it is new. */
  function AppendProp(t: Tree, name: Bytes, val: Bytes): Tree {
    var i := PropPos(t.props, name);
    SetProp(t, name, if i < |t.props| then t.props[i].val + val else val)
  }

  function DelProp(t: Tree, name: Bytes): Tree {
    var i := PropPos(t.props, name);
    if i < |t.props| then t.(props := t.props[..i] + t.props[i + 1..]) else t
  }

  function AddKid(t: Tree, name: Bytes): Tree {
    t.(kids := [Tree(name, [], [])] + t.kids)
  }

  function DelKid(t: Tree, j: nat): Tree
    requires j < |t.kids|
  {
    t.(kids := t.kids[..j] + t.kids[j + 1..])
  }

  /** The test, in words of 32 bits, whether len bytes at index idx lie inside a value of the given size. */
  predicate HasRoom(size: nat, idx: nat, len: nat) {
    (idx + len) % LIMIT32 <= size
  }

  // ---------------------------------------------------------------------------------------
  // The tree of a raw node
  // ---------------------------------------------------------------------------------------

  /** The name a property name offset stands for. */
  function NameTable(strs: Bytes): nat -> Bytes {
    (off: nat) => match StringAt(strs, off) case Some(s) => s case None => []
  }

  function AbsHead(head: seq<Item>, names: nat -> Bytes): seq<Property> {
    if head == [] then []
    else
      var rest := AbsHead(head[1..], names);
      match head[0]
      case ItemNop => rest
      case ItemProp(off, val, _) => [Property(names(off), val)] + rest
  }

  function Abs(n: RNode, names: nat -> Bytes): Tree
    decreases n, 1
  {
    Tree(n.name, AbsHead(n.head, names), AbsKids(n.kids, names))
  }

  function AbsKids(ks: seq<RNode>, names: nat -> Bytes): (r: seq<Tree>)
    ensures |r| == |ks|
    decreases ks, 0
  {
    if ks == [] then [] else [Abs(ks[0], names)] + AbsKids(ks[1..], names)
  }

  lemma {:induction false} AbsKidAt(ks: seq<RNode>, names: nat -> Bytes, j: nat)
    requires j < |ks|
    ensures AbsKids(ks, names)[j] == Abs(ks[j], names)
  {
    if j > 0 {
      AbsKidAt(ks[1..], names, j - 1);
    }
  }

  lemma {:induction false} AbsKidsAll(ks: seq<RNode>, names: nat -> Bytes)
    ensures forall j :: 0 <= j < |ks| ==> AbsKids(ks, names)[j] == Abs(ks[j], names)
  {
    forall j | 0 <= j < |ks|
      ensures AbsKids(ks, names)[j] == Abs(ks[j], names)
    {
      AbsKidAt(ks, names, j);
    }
  }

  lemma {:induction false} AbsHeadAppend(a: seq<Item>, b: seq<Item>, names: nat -> Bytes)
    ensures AbsHead(a + b, names) == AbsHead(a, names) + AbsHead(b, names)
  {
    if a == [] {
      assert a + b == b;
    } else {
      AbsHeadAppend(a[1..], b, names);
      assert (a + b)[1..] == a[1..] + b && (a + b)[0] == a[0];
    }
  }

  // ---------------------------------------------------------------------------------------
  // Lookups agree
  // ---------------------------------------------------------------------------------------

  /** The items' names, looked up, are the given name exactly when `has` says so. */
  ghost predicate Decides(head: seq<Item>, has: nat -> bool, names: nat -> Bytes, name: Bytes) {
    forall i :: 0 <= i < |head| && head[i].ItemProp? ==> (has(head[i].nameoff) <==> names(head[i].nameoff) == name)
  }

  lemma {:induction false} NoSuchProp(head: seq<Item>, has: nat -> bool, names: nat -> Bytes, name: Bytes)
    requires Decides(head, has, names, name) && forall i :: 0 <= i < |head| ==> !Carries(head[i], has)
    ensures forall i :: 0 <= i < |AbsHead(head, names)| ==> AbsHead(head, names)[i].name != name
  {
    if head != [] {
      NoSuchProp(head[1..], has, names, name);
      assert !Carries(head[0], has);
    }
  }

  lemma {:induction false} PropPosIs(props: seq<Property>, name: Bytes, i: nat)
    requires i <= |props| && (i < |props| ==> props[i].name == name)
    requires forall k :: 0 <= k < i ==> props[k].name != name
    ensures PropPos(props, name) == i
  {
  }

  lemma {:induction false} KidPosIs(kids: seq<Tree>, name: Bytes, j: nat)
    requires j <= |kids| && (j < |kids| ==> NameAnswers(kids[j].name, name))
    requires forall k :: 0 <= k < j ==> !NameAnswers(kids[k].name, name)
    ensures KidPos(kids, name) == j
  {
  }

  /** A head around item i. */
  lemma {:induction false} AbsHeadAround(head: seq<Item>, names: nat -> Bytes, i: nat)
    requires i < |head| && head[i].ItemProp?
    ensures AbsHead(head, names) ==
            AbsHead(head[..i], names) + [Property(names(head[i].nameoff), head[i].val)] + AbsHead(head[i + 1..], names)
  {
    assert head == head[..i] + ([head[i]] + head[i + 1..]);
    AbsHeadAppend(head[..i], [head[i]] + head[i + 1..], names);
    assert ([head[i]] + head[i + 1..])[1..] == head[i + 1..];
  }

  /** The first property of a name in the block is the first one of that name in the tree. */
  lemma {:induction false} PropPosAbs(head: seq<Item>, has: nat -> bool, names: nat -> Bytes, name: Bytes)
    requires Decides(head, has, names, name)
    ensures var i := PropIndex(head, has, 0);
            if i < |head| then PropPos(AbsHead(head, names), name) == |AbsHead(head[..i], names)|
            else PropPos(AbsHead(head, names), name) == |AbsHead(head, names)|
  {
    var i := PropIndex(head, has, 0);
    NoSuchProp(head[..i], has, names, name);
    if i < |head| {
      AbsHeadAround(head, names, i);
      assert Carries(head[i], has);
      PropPosIs(AbsHead(head, names), name, |AbsHead(head[..i], names)|);
    } else {
      assert head[..i] == head;
      PropPosIs(AbsHead(head, names), name, |AbsHead(head, names)|);
    }
  }

  lemma {:induction false} KidPosAbs(ks: seq<RNode>, names: nat -> Bytes, name: Bytes)
    ensures KidPos(AbsKids(ks, names), name) == FirstKid(ks, 0, Answering(name))
  {
    var j := FirstKid(ks, 0, Answering(name));
    AbsKidsAll(ks, names);
    var ts := AbsKids(ks, names);
    forall k | 0 <= k < j
      ensures !NameAnswers(ts[k].name, name)
    {
      assert !Answering(name)(ks[k].name);
      assert ts[k] == Abs(ks[k], names);
    }
    if j < |ks| {
      assert Answering(name)(ks[j].name);
      assert ts[j] == Abs(ks[j], names);
    }
    KidPosIs(ts, name, j);
  }
}
