/**
  Editing the tree that a whole blob encodes. A node is named by its path, the sequence of child
  numbers from the root.
  */
module FdtWhole {
  import opened FdtFormat
  import opened FdtTree
  import opened FdtRead
  import opened FdtBlob
  import opened FdtChunk
  import opened FdtEdit
  import opened FdtRw
  import opened FdtModel
  import opened FdtContents
  import Ops = FdtOps

  type Path = seq<nat>

  // ---------------------------------------------------------------------------------------
  // Paths in trees
  // ---------------------------------------------------------------------------------------

  predicate InTree(t: Tree, p: Path)
    decreases |p|
  {
    p == [] || (p[0] < |t.kids| && InTree(t.kids[p[0]], p[1..]))
  }

  function TreeAt(t: Tree, p: Path): Tree
    requires InTree(t, p)
    decreases |p|
  {
    if p == [] then t else TreeAt(t.kids[p[0]], p[1..])
  }

  /** The tree with the node at p replaced by s. */
  function Replaced(t: Tree, p: Path, s: Tree): Tree
    requires InTree(t, p)
    decreases |p|
  {
    if p == [] then s else t.(kids := t.kids[p[0] := Replaced(t.kids[p[0]], p[1..], s)])
  }

  // ---------------------------------------------------------------------------------------
  // Paths in raw nodes
  // ---------------------------------------------------------------------------------------

  predicate InNode(n: RNode, p: Path)
    decreases |p|
  {
    p == [] || (p[0] < |n.kids| && InNode(n.kids[p[0]], p[1..]))
  }

  function SubNode(n: RNode, p: Path): RNode
    requires InNode(n, p)
    decreases |p|
  {
    if p == [] then n else SubNode(n.kids[p[0]], p[1..])
  }

  function PutNode(n: RNode, p: Path, m: RNode): (r: RNode)
    requires InNode(n, p)
    decreases |p|
  {
    if p == [] then m else n.(kids := n.kids[p[0] := PutNode(n.kids[p[0]], p[1..], m)])
  }

  /** The tokens in front of the node at p. */
  function Before(pre: seq<Token>, n: RNode, p: Path): seq<Token>
    requires InNode(n, p)
    decreases |p|
  {
    if p == [] then pre else Before(BeforeKid(pre, n, p[0]), n.kids[p[0]], p[1..])
  }

  /** The tokens behind the node at p. */
  function After(n: RNode, p: Path, post: seq<Token>): seq<Token>
    requires InNode(n, p)
    decreases |p|
  {
    if p == [] then post else After(n.kids[p[0]], p[1..], AfterKid(n, p[0], post))
  }

  lemma {:induction false} PutNops(n: RNode, p: Path, m: RNode)
    requires InNode(n, p) && m.nops == SubNode(n, p).nops
    ensures PutNode(n, p, m).nops == n.nops
  {
  }

  /** Replacing the tokens of the node at p is replacing the node at p. */
  lemma {:induction false} PutTokens(pre: seq<Token>, n: RNode, p: Path, m: RNode, post: seq<Token>)
    requires InNode(n, p) && m.nops == SubNode(n, p).nops
    ensures Before(pre, n, p) + NodeTokens(m) + After(n, p, post) == pre + NodeTokens(PutNode(n, p, m)) + post
    decreases |p|
  {
    if p != [] {
      var j := p[0];
      var c := n.kids[j];
      var c' := PutNode(c, p[1..], m);
      PutNops(c, p[1..], m);
      assert BeforeKid(pre, n, j) + NodeTokens(c') + AfterKid(n, j, post) ==
             pre + NodeTokens(PutNode(n, p, m)) + post by {
        AtKid(pre, n, j, c', post);
      }
      PutTokens(BeforeKid(pre, n, j), c, p[1..], m, AfterKid(n, j, post));
    }
  }

  lemma {:induction false} PutSame(n: RNode, p: Path)
    requires InNode(n, p)
    ensures PutNode(n, p, SubNode(n, p)) == n
    decreases |p|
  {
    if p != [] {
      PutSame(n.kids[p[0]], p[1..]);
      assert n.kids[p[0] := n.kids[p[0]]] == n.kids;
    }
  }

  /** Replacing the node at p moves nothing in front of it. */
  lemma {:induction false} PutBefore(pre: seq<Token>, n: RNode, p: Path, m: RNode)
    requires InNode(n, p)
    ensures InNode(PutNode(n, p, m), p) && Before(pre, PutNode(n, p, m), p) == Before(pre, n, p)
            && SubNode(PutNode(n, p, m), p) == m
    decreases |p|
  {
    if p != [] {
      var j := p[0];
      assert n.kids[j := PutNode(n.kids[j], p[1..], m)][..j] == n.kids[..j];
      PutBefore(BeforeKid(pre, n, j), n.kids[j], p[1..], m);
    }
  }

  lemma {:induction false} AbsIn(n: RNode, p: Path, names: nat -> Bytes)
    requires InNode(n, p)
    ensures InTree(Abs(n, names), p) && TreeAt(Abs(n, names), p) == Abs(SubNode(n, p), names)
    decreases |p|
  {
    if p != [] {
      AbsKidAt(n.kids, names, p[0]);
      AbsIn(n.kids[p[0]], p[1..], names);
    }
  }

  lemma {:induction false} AbsPut(n: RNode, p: Path, m: RNode, names: nat -> Bytes)
    requires InNode(n, p)
    ensures InTree(Abs(n, names), p) && Abs(PutNode(n, p, m), names) == Replaced(Abs(n, names), p, Abs(m, names))
    decreases |p|
  {
    AbsIn(n, p, names);
    if p != [] {
      var j := p[0];
      AbsPut(n.kids[j], p[1..], m, names);
      AbsKidAt(n.kids, names, j);
      AbsKidsUpdate(n.kids, j, PutNode(n.kids[j], p[1..], m), names);
    }
  }

  // ---------------------------------------------------------------------------------------
  // The tree of a blob
  // ---------------------------------------------------------------------------------------

  function Tail(root: RNode): seq<Token> {
    Nops(root.nops) + [Finish]
  }

  /** The blob encodes the node `root`. */
  ghost predicate Encodes(im: Image, root: RNode) {
    Holds(im, [] + NodeTokens(root) + Tail(root))
  }

  /** The node at path p of the encoded tree lies at offset o. */
  ghost predicate LiesAt(im: Image, root: RNode, p: Path, o: nat) {
    Encodes(im, root) && InNode(root, p) && ValidTokens(Before([], root, p)) && o == |Flat(Before([], root, p))|
  }

  lemma {:induction false} LiesPlaced(im: Image, root: RNode, p: Path, o: nat)
    requires LiesAt(im, root, p, o)
    ensures Placed(im, Before([], root, p), SubNode(root, p), After(root, p, Tail(root)), o)
    ensures NamesResolve(NodeTokens(SubNode(root, p)), im.Strings()) && NamesResolve(NodeTokens(root), im.Strings())
  {
    PutSame(root, p);
    PutTokens([], root, p, SubNode(root, p), Tail(root));
    NamesOfParts(Before([], root, p), NodeTokens(SubNode(root, p)), After(root, p, Tail(root)), im.Strings());
    NamesOfParts([], NodeTokens(root), Tail(root), im.Strings());
  }

  /** After an edit of the node at p, the blob encodes the tree with that node replaced. */
  lemma {:induction false} PlacedLies(im: Image, root: RNode, p: Path, m: RNode, o: nat)
    requires InNode(root, p) && m.nops == SubNode(root, p).nops
    requires Placed(im, Before([], root, p), m, After(root, p, Tail(root)), o)
    ensures LiesAt(im, PutNode(root, p, m), p, o)
  {
    PutTokens([], root, p, m, Tail(root));
    PutNops(root, p, m);
    PutBefore([], root, p, m);
  }

  /** The new tree, when the strings block only grew. */
  lemma {:induction false} EditedContents(root: RNode, p: Path, m: RNode, was: Bytes, more: Bytes)
    requires InNode(root, p) && NamesResolve(NodeTokens(root), was)
    ensures InTree(Abs(root, NameTable(was)), p)
    ensures Abs(PutNode(root, p, m), NameTable(was + more)) ==
            Replaced(Abs(root, NameTable(was)), p, Abs(m, NameTable(was + more)))
    ensures TreeAt(Abs(root, NameTable(was)), p) == Abs(SubNode(root, p), NameTable(was))
  {
    AbsPut(root, p, m, NameTable(was + more));
    GrownNode(root, was, more);
    AbsIn(root, p, NameTable(was));
  }

  /** Sets a property of the node at path p. */
  method SetProp(blob: Blob, o: nat, name: Bytes, val: Bytes, ghost root: RNode, ghost p: Path)
    returns (e: Error, ghost now: RNode)
    requires LiesAt(blob.Value(), root, p, o) && 0 !in name && |val| < LIMIT31
    modifies blob, blob.buf
    ensures e.Ok? || e.NoSpace?
    ensures e.Ok? <==> old(blob.Value()).DataSize() + Ops.PropGrowth(SubNode(root, p), old(blob.Value()).Strings(),
            name, val, false) <= blob.buf.Length
    ensures LiesAt(blob.Value(), now, p, o) && blob.Value().Reserved() == old(blob.Value()).Reserved()
    ensures InTree(old(Contents(blob.Value(), root)), p)
    ensures Contents(blob.Value(), now) ==
            var t := old(Contents(blob.Value(), root));
            if e.Ok? then Replaced(t, p, FdtModel.SetProp(TreeAt(t, p), name, val)) else t
  {
    e, now := WriteProp(blob, o, name, val, false, root, p);
  }

  /** Appends to a property of the node at path p. */
  method AppendProp(blob: Blob, o: nat, name: Bytes, val: Bytes, ghost root: RNode, ghost p: Path)
    returns (e: Error, ghost now: RNode)
    requires LiesAt(blob.Value(), root, p, o) && 0 !in name && |val| < LIMIT31
    modifies blob, blob.buf
    ensures e.Ok? || e.NoSpace?
    ensures e.Ok? <==> old(blob.Value()).DataSize() + Ops.PropGrowth(SubNode(root, p), old(blob.Value()).Strings(),
            name, val, true) <= blob.buf.Length
    ensures LiesAt(blob.Value(), now, p, o) && blob.Value().Reserved() == old(blob.Value()).Reserved()
    ensures InTree(old(Contents(blob.Value(), root)), p)
    ensures Contents(blob.Value(), now) ==
            var t := old(Contents(blob.Value(), root));
            if e.Ok? then Replaced(t, p, FdtModel.AppendProp(TreeAt(t, p), name, val)) else t
  {
    e, now := WriteProp(blob, o, name, val, true, root, p);
  }

  ghost function Wrote(t: Tree, name: Bytes, val: Bytes, append: bool): Tree {
    if append then FdtModel.AppendProp(t, name, val) else FdtModel.SetProp(t, name, val)
  }

  method WriteProp(blob: Blob, o: nat, name: Bytes, val: Bytes, append: bool, ghost root: RNode, ghost p: Path)
    returns (e: Error, ghost now: RNode)
    requires LiesAt(blob.Value(), root, p, o) && 0 !in name && |val| < LIMIT31
    modifies blob, blob.buf
    ensures e == if old(blob.Value()).DataSize() + Ops.PropGrowth(SubNode(root, p), old(blob.Value()).Strings(), name,
            val, append) <= blob.buf.Length then Ok else NoSpace
    ensures LiesAt(blob.Value(), now, p, o) && blob.Value().Reserved() == old(blob.Value()).Reserved()
    ensures InTree(old(Contents(blob.Value(), root)), p)
    ensures Contents(blob.Value(), now) ==
            var t := old(Contents(blob.Value(), root));
            if e.Ok? then Replaced(t, p, Wrote(TreeAt(t, p), name, val, append)) else t
  {
    ghost var was := blob.Value();
    LiesPlaced(was, root, p, o);
    ghost var m;
    e, m := Ops.WriteProp(blob, o, name, val, append, Before([], root, p), SubNode(root, p),
      After(root, p, Tail(root)));
    now := root;
    if e.Ok? {
      now := PutNode(root, p, m);
      WrittenLies(was, blob.Value(), root, p, m, o, name, val, append);
    } else {
      EditedContents(root, p, SubNode(root, p), was.Strings(), []);
    }
  }

  lemma {:induction false} WrittenLies(was: Image, im: Image, root: RNode, p: Path, m: RNode, o: nat, name: Bytes,
                                       val: Bytes, append: bool)
    requires LiesAt(was, root, p, o) && Placed(im, Before([], root, p), m, After(root, p, Tail(root)), o)
    requires Ops.PropWritten(SubNode(root, p), m, was.Strings(), im.Strings(), name, val, append)
    ensures LiesAt(im, PutNode(root, p, m), p, o)
    ensures InTree(Contents(was, root), p)
    ensures Contents(im, PutNode(root, p, m)) == Replaced(Contents(was, root), p,
            Wrote(TreeAt(Contents(was, root), p), name, val, append))
  {
    LiesPlaced(was, root, p, o);
    PlacedLies(im, root, p, m, o);
    WrittenAbs(SubNode(root, p), m, was.Strings(), im.Strings(), name, val, append);
    var more := im.Strings()[|was.Strings()|..];
    assert im.Strings() == was.Strings() + more;
    EditedContents(root, p, m, was.Strings(), more);
  }

  lemma {:induction false} EditedLies(was: Image, im: Image, root: RNode, p: Path, m: RNode, o: nat)
    requires LiesAt(was, root, p, o) && Placed(im, Before([], root, p), m, After(root, p, Tail(root)), o)
    requires m.nops == SubNode(root, p).nops && SameRest(was, im)
    ensures LiesAt(im, PutNode(root, p, m), p, o) && InTree(Contents(was, root), p)
    ensures TreeAt(Contents(was, root), p) == Abs(SubNode(root, p), NameTable(was.Strings()))
    ensures Contents(im, PutNode(root, p, m)) == Replaced(Contents(was, root), p, Abs(m, NameTable(was.Strings())))
  {
    LiesPlaced(was, root, p, o);
    PlacedLies(im, root, p, m, o);
    assert was.Strings() + [] == was.Strings();
    EditedContents(root, p, m, was.Strings(), []);
  }

  lemma {:induction false} Unchanged(root: RNode, p: Path, names: nat -> Bytes)
    requires InNode(root, p)
    ensures InTree(Abs(root, names), p) && TreeAt(Abs(root, names), p) == Abs(SubNode(root, p), names)
    ensures Replaced(Abs(root, names), p, TreeAt(Abs(root, names), p)) == Abs(root, names)
  {
    AbsIn(root, p, names);
    AbsPut(root, p, SubNode(root, p), names);
    PutSame(root, p);
  }

  /** Deletes a property of the node at path p. */
  method DelProp(blob: Blob, o: nat, name: Bytes, ghost root: RNode, ghost p: Path) returns (e: Error, ghost now: RNode)
    requires LiesAt(blob.Value(), root, p, o)
    modifies blob, blob.buf
    ensures InTree(old(Contents(blob.Value(), root)), p)
    ensures e == var t := TreeAt(old(Contents(blob.Value(), root)), p);
            if PropPos(t.props, name) < |t.props| then Ok else NotFound
    ensures LiesAt(blob.Value(), now, p, o) && SameRest(old(blob.Value()), blob.Value())
    ensures Contents(blob.Value(), now) ==
            var t := old(Contents(blob.Value(), root)); Replaced(t, p, FdtModel.DelProp(TreeAt(t, p), name))
  {
    ghost var was := blob.Value();
    LiesPlaced(was, root, p, o);
    ghost var m;
    e, m := Ops.DelProp(blob, o, name, Before([], root, p), SubNode(root, p), After(root, p, Tail(root)));
    now := PutNode(root, p, m);
    EditedLies(was, blob.Value(), root, p, m, o);
    DeletedAbs(SubNode(root, p), was.Strings(), name);
  }

  /** Adds a child to the node at path p. */
  method AddSubnode(blob: Blob, o: nat, name: Bytes, ghost root: RNode, ghost p: Path)
    returns (e: Error, q: nat, ghost now: RNode)
    requires LiesAt(blob.Value(), root, p, o) && 0 !in name
    modifies blob, blob.buf
    ensures InTree(old(Contents(blob.Value(), root)), p)
    ensures e == var t := TreeAt(old(Contents(blob.Value(), root)), p);
                 if KidPos(t.kids, name) < |t.kids| then Exists
                 else if old(blob.Value()).DataSize() + 8 + TagAlign(|name| + 1) <= blob.buf.Length then Ok else NoSpace
    ensures LiesAt(blob.Value(), now, p, o) && SameRest(old(blob.Value()), blob.Value())
    ensures e.Ok? ==> LiesAt(blob.Value(), now, p + [0], q)
    ensures Contents(blob.Value(), now) ==
            var t := old(Contents(blob.Value(), root)); if e.Ok? then Replaced(t, p, AddKid(TreeAt(t, p), name)) else t
  {
    ghost var was := blob.Value();
    LiesPlaced(was, root, p, o);
    KidPosAbs(SubNode(root, p).kids, NameTable(was.Strings()), name);
    Unchanged(root, p, NameTable(was.Strings()));
    ghost var m;
    e, q, m := Ops.AddSubnode(blob, o, name, Before([], root, p), SubNode(root, p), After(root, p, Tail(root)));
    now := root;
    if e.Ok? {
      now := PutNode(root, p, m);
      EditedLies(was, blob.Value(), root, p, m, o);
      KidAddedAbs(SubNode(root, p), m.kids[0], NameTable(was.Strings()));
      KidLies(blob.Value(), root, p, m, o, 0, q);
    }
  }

  lemma {:induction false} BeforeSnoc(pre: seq<Token>, n: RNode, p: Path, j: nat)
    requires InNode(n, p) && j < |SubNode(n, p).kids|
    ensures InNode(n, p + [j]) && SubNode(n, p + [j]) == SubNode(n, p).kids[j]
    ensures Before(pre, n, p + [j]) == BeforeKid(Before(pre, n, p), SubNode(n, p), j)
    decreases |p|
  {
    var q := p + [j];
    if p == [] {
      assert q[1..] == [];
    } else {
      assert q[1..] == p[1..] + [j];
      BeforeSnoc(BeforeKid(pre, n, p[0]), n.kids[p[0]], p[1..], j);
    }
  }

  lemma {:induction false} AfterSnoc(n: RNode, p: Path, j: nat, post: seq<Token>)
    requires InNode(n, p) && j < |SubNode(n, p).kids| && InNode(n, p + [j])
    ensures After(n, p + [j], post) == AfterKid(SubNode(n, p), j, After(n, p, post))
    decreases |p|
  {
    var q := p + [j];
    if p == [] {
      assert q[1..] == [];
    } else {
      assert q[1..] == p[1..] + [j];
      AfterSnoc(n.kids[p[0]], p[1..], j, AfterKid(n, p[0], post));
    }
  }

  lemma {:induction false} KidLies(im: Image, root: RNode, p: Path, m: RNode, o: nat, j: nat, q: nat)
    requires InNode(root, p) && LiesAt(im, PutNode(root, p, m), p, o) && j < |m.kids|
    requires ValidTokens(BeforeKid(Before([], root, p), m, j)) && q == |Flat(BeforeKid(Before([], root, p), m, j))|
    ensures LiesAt(im, PutNode(root, p, m), p + [j], q)
  {
    PutBefore([], root, p, m);
    BeforeSnoc([], PutNode(root, p, m), p, j);
  }

  /** Deletes child j of the node at path p; o is the offset of that child. */
  method DelNode(blob: Blob, o: nat, ghost root: RNode, ghost p: Path, ghost j: nat)
    returns (e: Error, ghost now: RNode)
    requires InNode(root, p) && j < |SubNode(root, p).kids| && LiesAt(blob.Value(), root, p + [j], o)
    modifies blob, blob.buf
    ensures e.Ok? && Encodes(blob.Value(), now) && SameRest(old(blob.Value()), blob.Value())
    ensures InTree(old(Contents(blob.Value(), root)), p) && j < |TreeAt(old(Contents(blob.Value(), root)), p).kids|
    ensures Contents(blob.Value(), now) ==
            var t := old(Contents(blob.Value(), root)); Replaced(t, p, DelKid(TreeAt(t, p), j))
  {
    ghost var was := blob.Value();
    LiesPlaced(was, root, p + [j], o);
    e := Ops.DelNode(blob, o, Before([], root, p + [j]), SubNode(root, p + [j]), After(root, p + [j], Tail(root)));
    now := PutNode(root, p, WithoutKid(SubNode(root, p), j));
    DeletedEncodes(was, blob.Value(), root, p, j);
  }

  lemma {:induction false} DeletedEncodes(was: Image, im: Image, root: RNode, p: Path, j: nat)
    requires InNode(root, p) && j < |SubNode(root, p).kids| && InNode(root, p + [j]) && SameRest(was, im)
    requires Holds(im, Before([], root, p + [j]) + After(root, p + [j], Tail(root)))
    ensures var now := PutNode(root, p, WithoutKid(SubNode(root, p), j));
            Encodes(im, now) && InTree(Contents(was, root), p) && j < |TreeAt(Contents(was, root), p).kids| &&
            Contents(im, now) == Replaced(Contents(was, root), p, DelKid(TreeAt(Contents(was, root), p), j))
  {
    var n := SubNode(root, p);
    var m := WithoutKid(n, j);
    var names := NameTable(was.Strings());
    assert Encodes(im, PutNode(root, p, m)) by {
      BeforeSnoc([], root, p, j);
      AfterSnoc(root, p, j, Tail(root));
      KidGone(Before([], root, p), n, j, After(root, p, Tail(root)));
      PutTokens([], root, p, m, Tail(root));
      PutNops(root, p, m);
    }
    AbsPut(root, p, m, names);
    AbsIn(root, p, names);
    WithoutKidAbs(n, j, names);
  }

  lemma {:induction false} KidGone(pre: seq<Token>, n: RNode, j: nat, post: seq<Token>)
    requires j < |n.kids|
    ensures BeforeKid(pre, n, j) + AfterKid(n, j, post) == pre + NodeTokens(WithoutKid(n, j)) + post
  {
    if j == 0 {
      FirstKidGone(pre, n, post);
    } else {
      LaterKidGone(pre, n, j, post);
    }
  }
}
