/**
  Merging an overlay tree into a base tree: properties of the overlay override or are added,
  children are merged into the child that answers to their name or are added, everything else
  stays.
  */
module FdtMerge {
  import opened FdtFormat
  import opened FdtRead
  import opened FdtModel

  /** Sets the properties one after the other. */
  function SetProps(t: Tree, props: seq<Property>): (r: Tree)
    ensures r.name == t.name && r.kids == t.kids
  {
    if props == [] then t
    else
      var last := props[|props| - 1];
      SetProp(SetProps(t, props[..|props| - 1]), last.name, last.val)
  }

  function Merge(t: Tree, o: Tree): Tree
    decreases o, 1
  {
    MergeKids(SetProps(t, o.props), o.kids)
  }

  /** Merges the children one after the other. */
  function MergeKids(t: Tree, ks: seq<Tree>): (r: Tree)
    ensures r.name == t.name && r.props == t.props
    decreases ks, 0
  {
    if ks == [] then t
    else
      MergeKid(MergeKids(t, ks[..|ks| - 1]), ks[|ks| - 1])
  }

  /** Merges one child into the child that answers to its name; if there is none, into a new one in front. */
  function MergeKid(u: Tree, k: Tree): (r: Tree)
    ensures r.name == u.name && r.props == u.props
    decreases k, 2
  {
    var j := KidPos(u.kids, k.name);
    if j < |u.kids| then u.(kids := u.kids[j := Merge(u.kids[j], k)])
    else u.(kids := [Merge(Tree(k.name, [], []), k)] + u.kids)
  }

  lemma {:induction false} SetPropsPush(t: Tree, props: seq<Property>, p: Property)
    ensures SetProps(t, props + [p]) == SetProp(SetProps(t, props), p.name, p.val)
  {
    assert (props + [p])[..|props|] == props;
  }

  lemma {:induction false} MergeKidsPush(t: Tree, ks: seq<Tree>, k: Tree)
    ensures MergeKids(t, ks + [k]) == MergeKid(MergeKids(t, ks), k)
  {
    assert (ks + [k])[..|ks|] == ks;
  }

  /** The tree with a child that answers to the name, added if there was none. */
  function Opened(t: Tree, name: Bytes): Tree {
    if KidPos(t.kids, name) < |t.kids| then t else AddKid(t, name)
  }

  /** Merging a child is merging it into the child that is there or was added for it. */
  lemma {:induction false} MergeKidOpened(t: Tree, k: Tree)
    ensures var u := Opened(t, k.name);
            var j := KidPos(u.kids, k.name);
            j < |u.kids| && MergeKid(t, k) == u.(kids := u.kids[j := Merge(u.kids[j], k)])
  {
    var u := Opened(t, k.name);
    if KidPos(t.kids, k.name) == |t.kids| {
      assert NameAnswers(u.kids[0].name, k.name);
      assert u.kids[0 := Merge(u.kids[0], k)] == [Merge(Tree(k.name, [], []), k)] + t.kids;
    }
  }
}
