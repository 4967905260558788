/**
  What a merge means to a reader: looking up a property of a node by path finds the overlay's value
  where the overlay has one and the base's value everywhere else.
  */
module FdtMergeMeaning {
  import opened Options
  import opened FdtFormat
  import opened FdtRead
  import opened FdtModel
  import opened FdtMerge

  // ---------------------------------------------------------------------------------------
  // Lookups
  // ---------------------------------------------------------------------------------------

  /** The value of the first property of that name. */
  function Value(props: seq<Property>, name: Bytes): Option<Bytes> {
    if props == [] then None
    else if props[0].name == name then Some(props[0].val)
    else Value(props[1..], name)
  }

  /** The first child with exactly that name. */
  function Kid(kids: seq<Tree>, name: Bytes): (r: Option<Tree>)
    ensures r.Some? ==> r.value in kids && r.value.name == name
    ensures r.None? ==> forall i :: 0 <= i < |kids| ==> kids[i].name != name
  {
    if kids == [] then None
    else if kids[0].name == name then Some(kids[0])
    else Kid(kids[1..], name)
  }

  /** The node that a path of names leads to. */
  function Node(t: Tree, path: seq<Bytes>): Option<Tree>
    decreases |path|
  {
    if path == [] then Some(t)
    else
      match Kid(t.kids, path[0])
      case None => None
      case Some(k) => Node(k, path[1..])
  }

  /** The value of a property of the node at a path. */
  function Lookup(t: Tree, path: seq<Bytes>, name: Bytes): Option<Bytes> {
    match Node(t, path)
    case None => None
    case Some(n) => Value(n.props, name)
  }

  // ---------------------------------------------------------------------------------------
  // Properties
  // ---------------------------------------------------------------------------------------

  predicate UniqueProps(props: seq<Property>) {
    forall i, j :: 0 <= i < j < |props| ==> props[i].name != props[j].name
  }

  lemma {:induction false} ValueAt(props: seq<Property>, name: Bytes)
    ensures Value(props, name) == var i := PropPos(props, name); if i < |props| then Some(props[i].val) else None
  {
    if props != [] && props[0].name != name {
      ValueAt(props[1..], name);
    }
  }

  /** Setting a property changes this property and no other. */
  lemma {:induction false} ValueOfSet(t: Tree, name: Bytes, val: Bytes, x: Bytes)
    ensures Value(SetProp(t, name, val).props, x) == if x == name then Some(val) else Value(t.props, x)
  {
    var i := PropPos(t.props, name);
    var ps := SetProp(t, name, val).props;
    ValueAt(t.props, x);
    ValueAt(ps, x);
    if i < |t.props| {
      if x == name {
        PropPosIs(ps, x, i);
      } else {
        PropPosIs(ps, x, PropPos(t.props, x));
      }
    } else if x != name {
      assert ps[1..] == t.props;
    }
  }

  /** Appending: the old value followed by the new bytes, or the new bytes alone; no other property changes. */
  lemma {:induction false} ValueOfAppend(t: Tree, name: Bytes, val: Bytes, x: Bytes)
    ensures Value(AppendProp(t, name, val).props, x) ==
            if x != name then Value(t.props, x)
            else match Value(t.props, name) case Some(v) => Some(v + val) case None => Some(val)
  {
    ValueAt(t.props, name);
    var i := PropPos(t.props, name);
    ValueOfSet(t, name, if i < |t.props| then t.props[i].val + val else val, x);
  }

  lemma {:induction false} DelStep(t: Tree, name: Bytes)
    requires t.props != []
    ensures DelProp(t, name).props == if t.props[0].name == name then t.props[1..]
            else [t.props[0]] + DelProp(t.(props := t.props[1..]), name).props
  {
    var rest := t.props[1..];
    var i := PropPos(t.props, name);
    if t.props[0].name == name {
      assert t.props[..0] == [];
    } else if i < |t.props| {
      assert t.props[..i] == [t.props[0]] + rest[..i - 1] && t.props[i + 1..] == rest[i..];
    } else {
      assert t.props == [t.props[0]] + rest;
    }
  }

  lemma {:induction false} ValueNext(p: Property, rest: seq<Property>, x: Bytes)
    ensures Value([p] + rest, x) == if p.name == x then Some(p.val) else Value(rest, x)
  {
    assert ([p] + rest)[1..] == rest;
  }

  lemma {:induction false} OthersUndeleted(t: Tree, name: Bytes, x: Bytes)
    requires x != name
    ensures Value(DelProp(t, name).props, x) == Value(t.props, x)
    decreases |t.props|
  {
    if t.props != [] {
      DelStep(t, name);
      var p, rest := t.props[0], t.(props := t.props[1..]);
      if p.name != name {
        OthersUndeleted(rest, name, x);
        ValueNext(p, DelProp(rest, name).props, x);
      }
    }
  }

  lemma {:induction false} OnlyDeleted(t: Tree, name: Bytes)
    requires UniqueProps(t.props)
    ensures Value(DelProp(t, name).props, name) == None
    decreases |t.props|
  {
    if t.props != [] {
      DelStep(t, name);
      var p, rest := t.props[0], t.(props := t.props[1..]);
      if p.name == name {
        ValueAbsent(rest.props, name);
      } else {
        OnlyDeleted(rest, name);
        ValueNext(p, DelProp(rest, name).props, name);
      }
    }
  }

  /** Deleting: the first property of the name goes, and if it was the only one there is none; no other changes. */
  lemma {:induction false} ValueOfDel(t: Tree, name: Bytes, x: Bytes)
    ensures x != name ==> Value(DelProp(t, name).props, x) == Value(t.props, x)
    ensures x == name && UniqueProps(t.props) ==> Value(DelProp(t, name).props, x) == None
  {
    if x != name {
      OthersUndeleted(t, name, x);
    } else if UniqueProps(t.props) {
      OnlyDeleted(t, name);
    }
  }

  lemma {:induction false} ValueAbsent(props: seq<Property>, name: Bytes)
    requires forall i :: 0 <= i < |props| ==> props[i].name != name
    ensures Value(props, name) == None
  {
    if props != [] {
      ValueAbsent(props[1..], name);
    }
  }

  lemma {:induction false} ValuePush(props: seq<Property>, p: Property, x: Bytes)
    ensures Value(props + [p], x) == if Value(props, x).Some? then Value(props, x) else if p.name == x
            then Some(p.val) else None
  {
    if props == [] {
      assert props + [p] == [p];
      assert [p][1..] == [];
    } else {
      assert (props + [p])[0] == props[0] && (props + [p])[1..] == props[1..] + [p];
      if props[0].name != x {
        ValuePush(props[1..], p, x);
      }
    }
  }

  lemma {:induction false} ValueKnown(props: seq<Property>, x: Bytes)
    requires Value(props, x).Some?
    ensures exists i :: 0 <= i < |props| && props[i].name == x
  {
    ValueAt(props, x);
    var i := PropPos(props, x);
    assert props[i].name == x;
  }

  lemma {:induction false} ValueOfSetProps(t: Tree, props: seq<Property>, x: Bytes)
    requires UniqueProps(props)
    ensures Value(SetProps(t, props).props, x) == if Value(props, x).Some? then Value(props, x) else Value(t.props, x)
    decreases |props|
  {
    if props != [] {
      var n := |props| - 1;
      var p := props[n];
      assert props == props[..n] + [p];
      ValueOfSetProps(t, props[..n], x);
      ValueOfSet(SetProps(t, props[..n]), p.name, p.val, x);
      ValuePush(props[..n], p, x);
      if x == p.name && Value(props[..n], x).Some? {
        ValueKnown(props[..n], x);
        assert false;
      }
    }
  }

  // ---------------------------------------------------------------------------------------
  // Children
  // ---------------------------------------------------------------------------------------

  /** Sibling names of which none answers to another. */
  predicate ClearNames(ks: seq<Tree>) {
    forall i, j :: 0 <= i < |ks| && 0 <= j < |ks| && NameAnswers(ks[i].name, ks[j].name) ==> i == j
  }

  /** Only the child of the same name answers to the name of an overlay child. */
  predicate NoMixUp(ts: seq<Tree>, ks: seq<Tree>) {
    forall i, j :: 0 <= i < |ts| && 0 <= j < |ks| && NameAnswers(ts[i].name, ks[j].name) ==> ts[i].name == ks[j].name
  }

  lemma {:induction false} KidAt(kids: seq<Tree>, name: Bytes, j: nat)
    requires j <= |kids| && (j < |kids| ==> kids[j].name == name)
    requires forall i :: 0 <= i < j ==> kids[i].name != name
    ensures Kid(kids, name) == if j < |kids| then Some(kids[j]) else None
  {
    if j > 0 {
      KidAt(kids[1..], name, j - 1);
    }
  }

  /** Among names that do not mix up, the first that answers is the first that is equal. */
  lemma {:induction false} KidPosExact(kids: seq<Tree>, name: Bytes)
    requires forall i :: 0 <= i < |kids| && NameAnswers(kids[i].name, name) ==> kids[i].name == name
    ensures var j := KidPos(kids, name);
            && (j < |kids| ==> kids[j].name == name) && (forall i :: 0 <= i < j ==> kids[i].name != name)
            && Kid(kids, name) == if j < |kids| then Some(kids[j]) else None
  {
    var j := KidPos(kids, name);
    assert NameAnswers(name, name);
    forall i | 0 <= i < j
      ensures kids[i].name != name
    {
      assert !NameAnswers(kids[i].name, name);
    }
    KidAt(kids, name, j);
  }

  /** A merged child keeps its name. */
  lemma {:induction false} MergeName(t: Tree, o: Tree)
    ensures Merge(t, o).name == t.name
  {
  }

  /** The child into which an overlay child is merged. */
  function Into(kids: seq<Tree>, name: Bytes): Tree {
    match Kid(kids, name)
    case Some(k) => k
    case None => Tree(name, [], [])
  }

  lemma {:induction false} KidOfUpdate(kids: seq<Tree>, j: nat, m: Tree, a: Bytes)
    requires j < |kids| && m.name == kids[j].name && forall i :: 0 <= i < j ==> kids[i].name != m.name
    ensures Kid(kids[j := m], a) == if a == m.name then Some(m) else Kid(kids, a)
  {
    if j == 0 {
      assert kids[j := m][1..] == kids[1..];
    } else {
      assert kids[j := m][1..] == kids[1..][j - 1 := m];
      KidOfUpdate(kids[1..], j - 1, m, a);
      assert kids[0].name != m.name;
    }
  }

  /** Merging one child changes the child of that name and no other. */
  lemma {:induction false} KidOfMergeKid(u: Tree, k: Tree, a: Bytes)
    requires forall i :: 0 <= i < |u.kids| && NameAnswers(u.kids[i].name, k.name) ==> u.kids[i].name == k.name
    ensures Kid(MergeKid(u, k).kids, a) == if a == k.name then Some(Merge(Into(u.kids, k.name), k)) else Kid(u.kids, a)
  {
    var j := KidPos(u.kids, k.name);
    KidPosExact(u.kids, k.name);
    if j < |u.kids| {
      MergeName(u.kids[j], k);
      KidOfUpdate(u.kids, j, Merge(u.kids[j], k), a);
    } else {
      var m := Merge(Tree(k.name, [], []), k);
      MergeName(Tree(k.name, [], []), k);
      assert ([m] + u.kids)[1..] == u.kids;
    }
  }

  lemma {:induction false} KidPush(ks: seq<Tree>, k: Tree, a: Bytes)
    ensures Kid(ks + [k], a) == if Kid(ks, a).Some? then Kid(ks, a) else if k.name == a then Some(k) else None
  {
    if ks == [] {
      assert ks + [k] == [k];
      assert [k][1..] == [];
    } else {
      assert (ks + [k])[0] == ks[0] && (ks + [k])[1..] == ks[1..] + [k];
      if ks[0].name != a {
        KidPush(ks[1..], k, a);
      }
    }
  }

  lemma {:induction false} SelfAnswers(a: Bytes)
    ensures NameAnswers(a, a)
  {
  }

  /** The names of the children after a merge come from the two trees. */
  lemma {:induction false} MergedNames(t: Tree, ks: seq<Tree>, i: nat)
    requires i < |MergeKids(t, ks).kids|
    ensures var a := MergeKids(t, ks).kids[i].name;
            (exists x :: 0 <= x < |t.kids| && t.kids[x].name == a) || (exists y :: 0 <= y < |ks| && ks[y].name == a)
    decreases |ks|, 1
  {
    if ks == [] {
      assert t.kids[i].name == MergeKids(t, ks).kids[i].name;
    } else {
      var n := |ks| - 1;
      var u, k := MergeKids(t, ks[..n]), ks[n];
      var j := KidPos(u.kids, k.name);
      if j < |u.kids| {
        MergeName(u.kids[j], k);
        OlderName(t, ks, i);
      } else if i > 0 {
        OlderName(t, ks, i - 1);
      } else {
        MergeName(Tree(k.name, [], []), k);
        assert ks[n].name == MergeKids(t, ks).kids[0].name;
      }
    }
  }

  lemma {:induction false} OlderName(t: Tree, ks: seq<Tree>, i: nat)
    requires ks != [] && i < |MergeKids(t, ks[..|ks| - 1]).kids|
    ensures var a := MergeKids(t, ks[..|ks| - 1]).kids[i].name;
            (exists x :: 0 <= x < |t.kids| && t.kids[x].name == a) || (exists y :: 0 <= y < |ks| && ks[y].name == a)
    decreases |ks|, 0
  {
    var r := ks[..|ks| - 1];
    var a := MergeKids(t, r).kids[i].name;
    MergedNames(t, r, i);
    if y :| 0 <= y < |r| && r[y].name == a {
      assert ks[y].name == a;
    }
  }

  /** During the merge of the children, only an equal name answers to the next one. */
  lemma {:induction false} StaysClear(t: Tree, ks: seq<Tree>, k: Tree)
    requires ClearNames(ks + [k]) && NoMixUp(t.kids, ks + [k])
    ensures forall i :: 0 <= i < |MergeKids(t, ks).kids| && NameAnswers(MergeKids(t, ks).kids[i].name, k.name) ==>
              MergeKids(t, ks).kids[i].name == k.name
  {
    LastAlone(ks, k);
    var all := ks + [k];
    forall i | 0 <= i < |MergeKids(t, ks).kids| && NameAnswers(MergeKids(t, ks).kids[i].name, k.name)
      ensures MergeKids(t, ks).kids[i].name == k.name
    {
      var a := MergeKids(t, ks).kids[i].name;
      MergedNames(t, ks, i);
      var x :| 0 <= x < |t.kids| && t.kids[x].name == a;
      assert NameAnswers(t.kids[x].name, all[|ks|].name);
    }
  }

  /** No other child answers to the name of the last one. */
  lemma {:induction false} LastAlone(ks: seq<Tree>, k: Tree)
    requires ClearNames(ks + [k])
    ensures forall y :: 0 <= y < |ks| ==> !NameAnswers(ks[y].name, k.name)
    ensures ClearNames(ks) && Kid(ks, k.name).None?
  {
    var all := ks + [k];
    assert all[|ks|] == k;
    forall y | 0 <= y < |ks|
      ensures !NameAnswers(ks[y].name, k.name)
    {
      assert all[y] == ks[y];
    }
    forall i, j | 0 <= i < |ks| && 0 <= j < |ks| && NameAnswers(ks[i].name, ks[j].name)
      ensures i == j
    {
      assert all[i] == ks[i] && all[j] == ks[j];
    }
    SelfAnswers(k.name);
  }

  /** Each child of the merge is the merge of the children of that name. */
  lemma {:induction false} KidOfMergeKids(t: Tree, ks: seq<Tree>, a: Bytes)
    requires ClearNames(ks) && NoMixUp(t.kids, ks)
    ensures Kid(MergeKids(t, ks).kids, a) ==
            match Kid(ks, a) case Some(k) => Some(Merge(Into(t.kids, a), k)) case None => Kid(t.kids, a)
    decreases |ks|
  {
    if ks != [] {
      var n := |ks| - 1;
      var r, k := ks[..n], ks[n];
      assert ks == r + [k];
      LastAlone(r, k);
      StaysClear(t, r, k);
      KidOfMergeKids(t, r, a);
      KidOfMergeKid(MergeKids(t, r), k, a);
      KidPush(r, k, a);
      if a == k.name {
        assert Into(MergeKids(t, r).kids, a) == Into(t.kids, a);
      }
    }
  }

  /**
    Into which child a child of the overlay goes, byte by byte: into the first one that has its name,
    or its name, if that has no '@', followed by '@' and anything; without such a child a new one of
    exactly its name is put in front. All other children stay as they are.
    */
  lemma {:induction false} GoesInto(u: Tree, k: Tree) returns (j: nat)
    ensures j <= |u.kids|
    ensures forall i :: 0 <= i < j ==>
              u.kids[i].name != k.name && (0x40 in k.name || !(k.name + [0x40] <= u.kids[i].name))
    ensures j < |u.kids| ==> u.kids[j].name == k.name || (0x40 !in k.name && k.name + [0x40] <= u.kids[j].name)
    ensures MergeKid(u, k).kids == if j < |u.kids| then u.kids[j := Merge(u.kids[j], k)]
            else [Merge(Tree(k.name, [], []), k)] + u.kids
    ensures j < |u.kids| ==> MergeKid(u, k).kids[j].name == u.kids[j].name
    ensures j == |u.kids| ==> MergeKid(u, k).kids[0].name == k.name
  {
    j := KidPos(u.kids, k.name);
    KidFound(u.kids, k.name);
    MergeName(if j < |u.kids| then u.kids[j] else Tree(k.name, [], []), k);
  }

  // ---------------------------------------------------------------------------------------
  // Whole trees
  // ---------------------------------------------------------------------------------------

  /** No property is listed twice in the overlay, and no name of a node can be taken for another. */
  predicate Mergeable(t: Tree, o: Tree)
    decreases o
  {
    && UniqueProps(o.props) && ClearNames(o.kids) && NoMixUp(t.kids, o.kids)
    && forall j :: 0 <= j < |o.kids| ==> Mergeable(Into(t.kids, o.kids[j].name), o.kids[j])
  }

  /** What stands at a path after a merge, given what stood there in the base and in the overlay. */
  function Merged(base: Option<Tree>, over: Option<Tree>): Option<Tree> {
    match over
    case None => base
    case Some(o) => Some(Merge(match base case Some(t) => t case None => Tree(o.name, [], []), o))
  }

  lemma {:induction false} NodeStep(t: Tree, path: seq<Bytes>)
    requires path != []
    ensures Node(t, path) == match Kid(t.kids, path[0]) case None => None case Some(k) => Node(k, path[1..])
  {
  }

  /**
    At every path, the merge holds the merge of the two nodes there; a node that the overlay does
    not mention is the same down to its last descendant.
    */
  lemma {:induction false} NodeOfMerge(t: Tree, o: Tree, path: seq<Bytes>)
    requires Mergeable(t, o)
    ensures Node(Merge(t, o), path) == if path == [] then Some(Merge(t, o)) else Merged(Node(t, path), Node(o, path))
    ensures Node(o, path).Some? ==> UniqueProps(Node(o, path).value.props)
    decreases |path|
  {
    if path != [] {
      var a, rest := path[0], path[1..];
      KidOfMergeKids(SetProps(t, o.props), o.kids, a);
      match Kid(o.kids, a)
      case None =>
      case Some(k) =>
        var j :| 0 <= j < |o.kids| && o.kids[j] == k;
        NodeOfMerge(Into(t.kids, a), k, rest);
    }
  }

  /** Looking up a property by path gives the overlay's value if it has one, else the base's. */
  lemma {:induction false} LookupOfMerge(t: Tree, o: Tree, path: seq<Bytes>, name: Bytes)
    requires Mergeable(t, o)
    ensures Lookup(Merge(t, o), path, name) == if Lookup(o, path, name).Some? then Lookup(o, path, name)
            else Lookup(t, path, name)
  {
    NodeOfMerge(t, o, path);
    var y := Node(o, path);
    if path == [] {
      ValueOfSetProps(t, o.props, name);
    } else if y.Some? {
      var x := match Node(t, path) case Some(n) => n case None => Tree(y.value.name, [], []);
      ValueOfSetProps(x, y.value.props, name);
    }
  }

  // ---------------------------------------------------------------------------------------
  // Names that can be taken for another
  // ---------------------------------------------------------------------------------------

  /** An overlay child without unit address goes into a base child with one. */
  predicate TakenFor(kids: seq<Tree>, name: Bytes) {
    var j := KidPos(kids, name);
    j < |kids| && kids[j].name != name
  }

  /**
    Without any condition on names: whoever looks up the name of a merged child finds the merge,
    unless the first child that answers has a longer name; then the overlay child is found under
    that name, and its own name leads where it led before.
    */
  lemma {:induction false} WhereChildGoes(u: Tree, k: Tree, a: Bytes)
    ensures var j := KidPos(u.kids, k.name);
            Kid(MergeKid(u, k).kids, a) ==
            if TakenFor(u.kids, k.name) then
              if a == u.kids[j].name then Some(Merge(u.kids[j], k)) else Kid(u.kids, a)
            else
              if a == k.name then Some(Merge(Into(u.kids, k.name), k)) else Kid(u.kids, a)
  {
    var j := KidPos(u.kids, k.name);
    if j < |u.kids| {
      MergeName(u.kids[j], k);
      forall i | 0 <= i < j
        ensures u.kids[i].name != u.kids[j].name
      {
        assert !NameAnswers(u.kids[i].name, k.name);
      }
      KidOfUpdate(u.kids, j, Merge(u.kids[j], k), a);
      KidAt(u.kids, u.kids[j].name, j);
    } else {
      SelfAnswers(k.name);
      var m := Merge(Tree(k.name, [], []), k);
      MergeName(Tree(k.name, [], []), k);
      assert ([m] + u.kids)[1..] == u.kids;
      KidAt(u.kids, k.name, |u.kids|);
    }
  }

  /** A child `a` of the overlay goes into the child `a@1` of the base, and `a` leads nowhere. */
  lemma {:induction false} ShortNameTaken(val: Bytes)
    ensures var a, a1, p := [97], [97, AT_SIGN, 49], [112];
            var base := Tree([], [], [Tree(a1, [], [])]);
            var over := Tree([], [], [Tree(a, [Property(p, val)], [])]);
            && Lookup(over, [a], p) == Some(val)
            && Lookup(Merge(base, over), [a], p) == None
            && Lookup(Merge(base, over), [a1], p) == Some(val)
  {
    var a: Bytes, a1: Bytes, p: Bytes := [97], [97, AT_SIGN, 49], [112];
    var base := Tree([], [], [Tree(a1, [], [])]);
    var k := Tree(a, [Property(p, val)], []);
    var over := Tree([], [], [k]);
    var m := Merge(base, over);
    assert m == MergeKid(base, k) by {
      MergeKidsPush(base, [], k);
      assert [] + [k] == [k] && MergeKids(base, []) == base && SetProps(base, []) == base;
    }
    assert a1[..1] == a && NameAnswers(a1, a) && KidPos(base.kids, a) == 0;
    assert a1 != a by { assert |a1| != |a|; }
    WhereChildGoes(base, k, a);
    WhereChildGoes(base, k, a1);
    KidAt(base.kids, a, 1);
    ValueOfSetProps(base.kids[0], k.props, p);
    assert Value(k.props, p) == Some(val);
    assert Merge(base.kids[0], k) == SetProps(base.kids[0], k.props);
    var x := Merge(base.kids[0], k);
    assert Value(x.props, p) == Some(val);
    assert [a][1..] == [] && [a1][1..] == [] && Node(x, []) == Some(x);
    NodeStep(m, [a1]);
    assert Node(m, [a1]) == Some(x);
  }
}
