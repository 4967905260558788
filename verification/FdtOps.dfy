/**
  The editing operations on a placed node: set, append and delete a property, add and delete a
  subnode. On success exactly one node of the structure block has changed, in exactly one way; on
  failure tokens, strings and reservations are what they were.
  */
module FdtOps {
  import opened Options
  import opened FdtFormat
  import opened FdtTree
  import opened FdtRead
  import opened FdtBlob
  import opened FdtChunk
  import opened FdtEdit
  import opened FdtRw

  // ---------------------------------------------------------------------------------------
  // Strings
  // ---------------------------------------------------------------------------------------

  /** Does the strings block hold the string? */
  ghost predicate HasString(strs: Bytes, s: Bytes) {
    exists off: nat :: StringAt(strs, off) == Some(s)
  }

  /** The bytes that adding the name to the strings block takes. */
  ghost function NewString(strs: Bytes, s: Bytes): Bytes {
    if HasString(strs, s) then [] else s + [0]
  }

  /** Everything but the strings block is the same, and the strings block got `more` behind it. */
  ghost predicate Grown(im: Image, r: Image, more: Bytes) {
    && im.Ordered() && r.Ordered() && r.Strings() == im.Strings() + more && r.Reserved() == im.Reserved()
    && |r.bytes| == |im.bytes| && r.offRsv == im.offRsv
  }

  lemma {:induction false} AppendedHolds(im: Image, ts: seq<Token>, s: Bytes)
    requires Holds(im, ts) && im.DataSize() + |s| <= |im.bytes|
    ensures Holds(StringAppended(im, s), ts) && Grown(im, StringAppended(im, s), s)
  {
    AppendedBlocks(im, s);
    NamesKept(ts, im.Strings(), s);
  }

  /** Finds the name in the strings block or adds it. */
  method FindAddString(blob: Blob, s: Bytes, ghost ts: seq<Token>) returns (e: Error, off: nat, added: bool)
    requires Holds(blob.Value(), ts) && 0 !in s
    modifies blob, blob.buf
    ensures added == (e.Ok? && !HasString(old(blob.Value()).Strings(), s))
    ensures e == if old(blob.Value()).DataSize() + |NewString(old(blob.Value()).Strings(), s)| <= blob.buf.Length
            then Ok else NoSpace
    ensures e.Ok? ==> Holds(blob.Value(), ts) && Grown(old(blob.Value()), blob.Value(),
            NewString(old(blob.Value()).Strings(), s))
    ensures e.Ok? ==> StringAt(blob.Value().Strings(), off) == Some(s) && off < LIMIT32
    ensures e.Ok? ==>
            blob.Value().DataSize() == old(blob.Value()).DataSize() + |NewString(old(blob.Value()).Strings(), s)|
    ensures !e.Ok? || !added ==> blob.Value() == old(blob.Value())
  {
    ghost var was := blob.Value();
    var strs := StringBytes(blob);
    var found := FindString(strs, s);
    added := false;
    off := |strs|;
    e := Ok;
    if found.Some? {
      off := found.value;
      assert was.Strings() + [] == was.Strings();
    } else {
      e := blob.AppendString(s + [0]);
      if e.Ok? {
        added := true;
        AppendedHolds(was, ts, s + [0]);
        StringAdded(strs, s);
        assert strs + (s + [0]) == strs + s + [0];
      }
    }
  }

  // ---------------------------------------------------------------------------------------
  // Properties
  // ---------------------------------------------------------------------------------------

  /** The first property of the given name has the value val; everything else in the node is the same. */
  ghost predicate PropReplaced(n: RNode, m: RNode, i: nat, val: Bytes) {
    && i < |n.head| && |m.head| == |n.head| && n.head[i].ItemProp? && m.head[i].ItemProp?
    && m.head[i].nameoff == n.head[i].nameoff && m.head[i].val == val
    && m == n.(head := n.head[i := m.head[i]])
  }

  /** The node got one new property in front. */
  ghost predicate PropAdded(n: RNode, m: RNode, strs: Bytes, name: Bytes, val: Bytes) {
    && m.head != [] && m.head[0].ItemProp? && StringAt(strs, m.head[0].nameoff) == Some(name) && m.head[0].val == val
    && m == n.(head := [m.head[0]] + n.head)
  }

  function TokenItem(t: Token): Item
    requires t.Prop?
  {
    ItemProp(t.nameoff, t.val, t.pad)
  }

  /** Replaces the value of the property between two runs of tokens, or appends to it. */
  method ReplaceValue(blob: Blob, q: nat, append: bool, data: Bytes, ghost a: seq<Token>, ghost t: Token,
                      ghost c: seq<Token>)
    returns (e: Error, ghost u: Token)
    requires Holds(blob.Value(), a + [t] + c) && t.Prop? && ValidTokens(a) && q == |Flat(a)|
    requires |data| < LIMIT31
    modifies blob, blob.buf
    ensures var val := if append then t.val + data else data;
            && e == (if old(blob.Value()).DataSize() - TagAlign(|t.val|) + TagAlign(|val|) <= blob.buf.Length then Ok
                 else NoSpace)
            && (e.Ok? ==> u.Prop? && u.nameoff == t.nameoff && u.val == val)
    ensures e.Ok? ==> Holds(blob.Value(), a + [u] + c) && SameRest(old(blob.Value()), blob.Value())
    ensures !e.Ok? ==> blob.Value() == old(blob.Value())
  {
    var oldlen := PropLength(blob, q, a, t, c);
    var d := if append then oldlen else 0;
    ghost var val := if append then t.val + data else data;
    assert t.val[..d] + data == val && TagAlign(|val|) == TagAlign(d + |data|);
    e, u := ReplaceProp(blob, q, d, data, oldlen, a, t, c);
  }

  lemma {:induction false} ItemHolds(im: Image, pre: seq<Token>, n: RNode, post: seq<Token>, i: nat)
    requires i < |n.head| && Holds(im, pre + NodeTokens(n) + post)
    ensures Holds(im, BeforeItem(pre, n, i) + [ItemToken(n.head[i])] + FromItem(n, i + 1, post))
  {
    AtItem(pre, n, i, post);
  }

  lemma {:induction false} ItemReplaced(im: Image, pre: seq<Token>, n: RNode, post: seq<Token>, i: nat, x: Item, o: nat)
    requires i < |n.head| && Holds(im, BeforeItem(pre, n, i) + [ItemToken(x)] + FromItem(n, i + 1, post))
    requires ValidTokens(pre) && o == |Flat(pre)|
    ensures Placed(im, pre, n.(head := n.head[i := x]), post, o)
  {
    ReplaceItem(pre, n, i, x, post);
  }

  /** Replaces item i by a property with the given tail of the value. */
  method ReplaceAt(blob: Blob, o: nat, q: nat, append: bool, data: Bytes, ghost pre: seq<Token>, ghost n: RNode,
                   ghost post: seq<Token>, ghost i: nat)
    returns (e: Error, ghost m: RNode)
    requires Placed(blob.Value(), pre, n, post, o) && i < |n.head| && n.head[i].ItemProp?
    requires ValidTokens(BeforeItem(pre, n, i)) && q == |Flat(BeforeItem(pre, n, i))|
    requires |data| < LIMIT31
    modifies blob, blob.buf
    ensures var val := if append then n.head[i].val + data else data;
            && e == (if old(blob.Value()).DataSize() - TagAlign(|n.head[i].val|) + TagAlign(|val|) <= blob.buf.Length
                 then Ok else NoSpace)
            && (e.Ok? ==> PropReplaced(n, m, i, val))
    ensures e.Ok? ==> Placed(blob.Value(), pre, m, post, o) && SameRest(old(blob.Value()), blob.Value())
    ensures !e.Ok? ==> blob.Value() == old(blob.Value())
  {
    m := n;
    ghost var u;
    ItemHolds(blob.Value(), pre, n, post, i);
    e, u := ReplaceValue(blob, q, append, data, BeforeItem(pre, n, i), ItemToken(n.head[i]), FromItem(n, i + 1, post));
    if e.Ok? {
      m := n.(head := n.head[i := TokenItem(u)]);
      ItemReplaced(blob.Value(), pre, n, post, i, TokenItem(u), o);
    }
  }

  /** The offset behind the name of the node: where its properties start. */
  method PropsOffset(blob: Blob, o: nat, ghost pre: seq<Token>, ghost n: RNode, ghost post: seq<Token>) returns (q: nat)
    requires Placed(blob.Value(), pre, n, post, o)
    ensures ValidTokens(BeforeItem(pre, n, 0)) && q == |Flat(BeforeItem(pre, n, 0))|
  {
    var b := StructBytes(blob);
    ghost var ts, at := PlaceIndexed(blob.Value(), pre, n, post, o);
    var tag := TagAt(b, o, ts, at, |pre|);
    q := tag.value.1;
    ghost var before := BeforeItem(pre, n, 0);
  }

  /** Same blocks, same use of the buffer. */
  ghost predicate SameBlocks(im: Image, r: Image) {
    SameRest(im, r) && r.Struct() == im.Struct() && r.DataSize() == im.DataSize()
  }

  lemma {:induction false} SameHolds(im: Image, r: Image, pre: seq<Token>, n: RNode, post: seq<Token>, o: nat)
    requires Placed(im, pre, n, post, o) && SameBlocks(im, r)
    ensures Placed(r, pre, n, post, o)
  {
  }

  lemma {:induction false} RolledBack(was: Image, mid: Image, s: Bytes)
    requires Grown(was, mid, s) && mid.Struct() == was.Struct() && mid.DataSize() == was.DataSize() + |s|
    ensures SameBlocks(was, StringDropped(mid, |s|))
  {
    DroppedBlocks(mid, was.Strings(), s);
  }

  /** Adds a property between two runs of tokens; a name added for it goes away again when there is no room. */
  method AddNamedProp(blob: Blob, q: nat, name: Bytes, val: Bytes, ghost a: seq<Token>, ghost c: seq<Token>)
    returns (e: Error, ghost t: Token)
    requires Holds(blob.Value(), a + c) && ValidTokens(a) && q == |Flat(a)| && |val| < LIMIT31 && 0 !in name
    modifies blob, blob.buf
    ensures var more := NewString(old(blob.Value()).Strings(), name);
            && e == (if old(blob.Value()).DataSize() + |more| + 12 + TagAlign(|val|) <= blob.buf.Length then Ok
                 else NoSpace)
            && (e.Ok? ==> Grown(old(blob.Value()), blob.Value(), more))
    ensures e.Ok? ==>
              Holds(blob.Value(), a + [t] + c) && t.Prop? && t.val == val
              && StringAt(blob.Value().Strings(), t.nameoff) == Some(name)
    ensures !e.Ok? ==> SameBlocks(old(blob.Value()), blob.Value())
  {
    ghost var was := blob.Value();
    ghost var more := NewString(was.Strings(), name);
    t := Nop;
    var off, added;
    e, off, added := FindAddString(blob, name, a + c);
    if e.NoSpace? {
      return;
    }
    ghost var mid := blob.Value();
    e, t := InsertProp(blob, q, off, val, a, c);
    if e.NoSpace? {
      GiveUpName(blob, added, name, was, more);
    }
  }

  /** Takes a name away again that was added. */
  method GiveUpName(blob: Blob, added: bool, name: Bytes, ghost was: Image, ghost more: Bytes)
    requires added ==>
               && Grown(was, blob.Value(), more) && more == name + [0] && blob.Value().Struct() == was.Struct()
               && blob.Value().DataSize() == was.DataSize() + |more|
    requires !added ==> was.Ordered() && blob.Value() == was
    modifies blob
    ensures SameBlocks(was, blob.Value())
  {
    if added {
      RolledBack(was, blob.Value(), more);
      blob.DropString(|name| + 1);
    }
  }

  lemma {:induction false} FrontHolds(im: Image, pre: seq<Token>, n: RNode, post: seq<Token>)
    requires Holds(im, pre + NodeTokens(n) + post)
    ensures Holds(im, BeforeItem(pre, n, 0) + FromItem(n, 0, post))
  {
    SplitAtItem(pre, n, 0, post);
  }

  lemma {:induction false} FrontAdded(im: Image, pre: seq<Token>, n: RNode, post: seq<Token>, x: Item, o: nat)
    requires Holds(im, BeforeItem(pre, n, 0) + [ItemToken(x)] + FromItem(n, 0, post)) && ValidTokens(pre)
             && o == |Flat(pre)|
    ensures Placed(im, pre, n.(head := [x] + n.head), post, o)
  {
    InsertItem(pre, n, 0, x, post);
    assert n.head[..0] + [x] + n.head[0..] == [x] + n.head;
  }

  /** Adds a property in front of the node's properties. */
  method AddProperty(blob: Blob, o: nat, name: Bytes, val: Bytes, ghost pre: seq<Token>, ghost n: RNode,
                     ghost post: seq<Token>)
    returns (e: Error, ghost m: RNode)
    requires Placed(blob.Value(), pre, n, post, o) && |val| < LIMIT31 && 0 !in name
    modifies blob, blob.buf
    ensures var more := NewString(old(blob.Value()).Strings(), name);
            && e == (if old(blob.Value()).DataSize() + |more| + 12 + TagAlign(|val|) <= blob.buf.Length then Ok
                 else NoSpace)
            && (e.Ok? ==> Grown(old(blob.Value()), blob.Value(), more))
    ensures e.Ok? ==> Placed(blob.Value(), pre, m, post, o) && PropAdded(n, m, blob.Value().Strings(), name, val)
    ensures !e.Ok? ==> SameBlocks(old(blob.Value()), blob.Value())
  {
    m := n;
    var q := PropsOffset(blob, o, pre, n, post);
    FrontHolds(blob.Value(), pre, n, post);
    ghost var t;
    e, t := AddNamedProp(blob, q, name, val, BeforeItem(pre, n, 0), FromItem(n, 0, post));
    if e.Ok? {
      m := n.(head := [TokenItem(t)] + n.head);
      FrontAdded(blob.Value(), pre, n, post, TokenItem(t), o);
    }
  }

  /** What setting or appending to a property does to a node. */
  ghost predicate PropWritten(n: RNode, m: RNode, was: Bytes, now: Bytes, name: Bytes, val: Bytes, append: bool) {
    var i := PropIndex(n.head, Named(was, name), 0);
    if i < |n.head| then now == was && PropReplaced(n, m, i, if append then n.head[i].val + val else val)
    else now == was + NewString(was, name) && PropAdded(n, m, now, name, val)
  }

  /** The room a node's block takes in addition when the property is set or appended to. */
  ghost function PropGrowth(n: RNode, strs: Bytes, name: Bytes, val: Bytes, append: bool): int {
    var i := PropIndex(n.head, Named(strs, name), 0);
    if i < |n.head| then TagAlign(|if append then n.head[i].val + val else val|) - TagAlign(|n.head[i].val|)
    else |NewString(strs, name)| + 12 + TagAlign(|val|)
  }

  method WriteFound(blob: Blob, o: nat, q: nat, name: Bytes, val: Bytes, append: bool, ghost pre: seq<Token>,
                    ghost n: RNode, ghost post: seq<Token>, ghost i: nat)
    returns (e: Error, ghost m: RNode)
    requires Placed(blob.Value(), pre, n, post, o) && |val| < LIMIT31
    requires i == PropIndex(n.head, Named(blob.Value().Strings(), name), 0) && i < |n.head|
    requires ValidTokens(BeforeItem(pre, n, i)) && q == |Flat(BeforeItem(pre, n, i))|
    modifies blob, blob.buf
    ensures var growth := PropGrowth(n, old(blob.Value()).Strings(), name, val, append);
            e == if old(blob.Value()).DataSize() + growth <= blob.buf.Length then Ok else NoSpace
    ensures e.Ok? ==> Placed(blob.Value(), pre, m, post, o)
    ensures e.Ok? ==> PropWritten(n, m, old(blob.Value()).Strings(), blob.Value().Strings(), name, val, append)
    ensures blob.Value().Ordered() && blob.Value().Reserved() == old(blob.Value()).Reserved()
    ensures !e.Ok? ==> SameBlocks(old(blob.Value()), blob.Value())
  {
    e, m := ReplaceAt(blob, o, q, append, val, pre, n, post, i);
  }

  method WriteNew(blob: Blob, o: nat, name: Bytes, val: Bytes, ghost append: bool, ghost pre: seq<Token>,
                  ghost n: RNode, ghost post: seq<Token>)
    returns (e: Error, ghost m: RNode)
    requires Placed(blob.Value(), pre, n, post, o) && 0 !in name && |val| < LIMIT31
    requires PropIndex(n.head, Named(blob.Value().Strings(), name), 0) == |n.head|
    modifies blob, blob.buf
    ensures var growth := PropGrowth(n, old(blob.Value()).Strings(), name, val, append);
            e == if old(blob.Value()).DataSize() + growth <= blob.buf.Length then Ok else NoSpace
    ensures e.Ok? ==> Placed(blob.Value(), pre, m, post, o)
    ensures e.Ok? ==> PropWritten(n, m, old(blob.Value()).Strings(), blob.Value().Strings(), name, val, append)
    ensures blob.Value().Ordered() && blob.Value().Reserved() == old(blob.Value()).Reserved()
    ensures !e.Ok? ==> SameBlocks(old(blob.Value()), blob.Value())
  {
    e, m := AddProperty(blob, o, name, val, pre, n, post);
  }

  /** Sets the property, or appends to its value; a property that does not exist is added. */
  method WriteProp(blob: Blob, o: nat, name: Bytes, val: Bytes, append: bool, ghost pre: seq<Token>, ghost n: RNode,
                   ghost post: seq<Token>)
    returns (e: Error, ghost m: RNode)
    requires Placed(blob.Value(), pre, n, post, o) && 0 !in name && |val| < LIMIT31
    modifies blob, blob.buf
    ensures var growth := PropGrowth(n, old(blob.Value()).Strings(), name, val, append);
            e == if old(blob.Value()).DataSize() + growth <= blob.buf.Length then Ok else NoSpace
    ensures e.Ok? ==> Placed(blob.Value(), pre, m, post, o)
    ensures e.Ok? ==> PropWritten(n, m, old(blob.Value()).Strings(), blob.Value().Strings(), name, val, append)
    ensures blob.Value().Ordered() && blob.Value().Reserved() == old(blob.Value()).Reserved()
    ensures !e.Ok? ==> SameBlocks(old(blob.Value()), blob.Value())
  {
    var r;
    ghost var i;
    r, i := FindProperty(blob, o, name, pre, n, post);
    if r.Some? {
      e, m := WriteFound(blob, o, r.value, name, val, append, pre, n, post, i);
    } else {
      e, m := WriteNew(blob, o, name, val, append, pre, n, post);
    }
  }

  lemma {:induction false} ItemRemoved(im: Image, pre: seq<Token>, n: RNode, post: seq<Token>, i: nat, o: nat)
    requires i < |n.head| && Holds(im, BeforeItem(pre, n, i) + FromItem(n, i + 1, post))
    requires ValidTokens(pre) && o == |Flat(pre)|
    ensures Placed(im, pre, n.(head := n.head[..i] + n.head[i + 1..]), post, o)
  {
    WithoutItem(pre, n, i, post);
  }

  /** Removes the property token at offset q. */
  method RemoveProp(blob: Blob, q: nat, ghost a: seq<Token>, ghost t: Token, ghost c: seq<Token>) returns (e: Error)
    requires Holds(blob.Value(), a + [t] + c) && t.Prop? && ValidTokens(a) && q == |Flat(a)|
    modifies blob, blob.buf
    ensures e.Ok? && Holds(blob.Value(), a + c) && SameRest(old(blob.Value()), blob.Value())
  {
    var len := PropLength(blob, q, a, t, c);
    PropTokenSize(blob.Value(), a, t, c);
    e := RemoveTokens(blob, q, 12 + TagAlign(len), a, [t], c);
  }

  lemma {:induction false} PropTokenSize(im: Image, a: seq<Token>, t: Token, c: seq<Token>)
    requires Holds(im, a + [t] + c) && t.Prop?
    ensures ValidTokens([t]) && |Flat([t])| == 12 + TagAlign(|t.val|)
  {
    PartsOf(im, a, [t], c);
    assert t == [t][0];
    FlatOne(t);
  }

  /** Deletes the first property of that name. */
  method DelProp(blob: Blob, o: nat, name: Bytes, ghost pre: seq<Token>, ghost n: RNode, ghost post: seq<Token>)
    returns (e: Error, ghost m: RNode)
    requires Placed(blob.Value(), pre, n, post, o)
    modifies blob, blob.buf
    ensures var i := PropIndex(n.head, Named(old(blob.Value()).Strings(), name), 0);
            if i < |n.head| then e.Ok? && m == n.(head := n.head[..i] + n.head[i + 1..]) else e.NotFound? && m == n
    ensures Placed(blob.Value(), pre, m, post, o) && SameRest(old(blob.Value()), blob.Value())
    ensures !e.Ok? ==> blob.Value() == old(blob.Value())
  {
    m := n;
    var r;
    ghost var i;
    r, i := FindProperty(blob, o, name, pre, n, post);
    if r.None? {
      return NotFound, n;
    }
    ItemHolds(blob.Value(), pre, n, post, i);
    e := RemoveProp(blob, r.value, BeforeItem(pre, n, i), ItemToken(n.head[i]), FromItem(n, i + 1, post));
    m := n.(head := n.head[..i] + n.head[i + 1..]);
    ItemRemoved(blob.Value(), pre, n, post, i, o);
  }

  // ---------------------------------------------------------------------------------------
  // Subnodes
  // ---------------------------------------------------------------------------------------

  lemma {:induction false} KidOffset(pre: seq<Token>, n: RNode, post: seq<Token>, j: nat)
    requires j < |n.kids| && ValidTokens(pre + NodeTokens(n) + post)
    ensures ValidTokens(BeforeKid(pre, n, j))
    ensures |pre| + KidIndex(n, j) <= |pre + NodeTokens(n) + post|
    ensures Offsets(pre + NodeTokens(n) + post)[|pre| + KidIndex(n, j)] == |Flat(BeforeKid(pre, n, j))|
  {
    var ts, c := pre + NodeTokens(n) + post, n.kids[j];
    AtKid(pre, n, j, c, post);
    assert n.(kids := n.kids[j := c]) == n;
    assert ts == BeforeKid(pre, n, j) + (NodeTokens(c) + AfterKid(n, j, post));
    OffsetOf(ts, BeforeKid(pre, n, j), NodeTokens(c) + AfterKid(n, j, post));
    BeforeKidLength(pre, n, j);
  }

  /** The tokens of the block around a placed node, with their offsets. */
  lemma {:induction false} NodeIndexed(im: Image, pre: seq<Token>, n: RNode, post: seq<Token>, o: nat)
    returns (ts: seq<Token>, at: seq<nat>)
    requires Placed(im, pre, n, post, o)
    ensures ts == pre + NodeTokens(n) + post && ValidTokens(ts) && at == Offsets(ts) && Indexed(im.Struct(), ts, at)
    ensures |pre| < |ts| && ts[|pre|].Begin? && o == at[|pre|] && Occurs(ts, |pre|, NodeTokens(n))
  {
    ts := pre + NodeTokens(n) + post;
    at := Offsets(ts);
    FlatIndexed(ts);
    PlaceOccurs(pre, n, post);
    assert ts == pre + (NodeTokens(n) + post);
    OffsetOf(ts, pre, NodeTokens(n) + post);
  }

  /** Child j of the node behind pre is token c, at the offset behind everything in front of it. */
  ghost predicate ChildAt(at: seq<nat>, c: nat, pre: seq<Token>, n: RNode, j: nat)
    requires j < |n.kids|
  {
    ValidTokens(BeforeKid(pre, n, j)) && c < |at| && at[c] == |Flat(BeforeKid(pre, n, j))|
  }

  /** Where a search for a child of a placed node ends. */
  lemma {:induction false} ChildPlace(im: Image, pre: seq<Token>, n: RNode, post: seq<Token>, o: nat, f: Bytes -> bool)
    returns (ts: seq<Token>, at: seq<nat>, j: nat, c: nat)
    requires Placed(im, pre, n, post, o)
    ensures Indexed(im.Struct(), ts, at) && |pre| < |ts| && ts[|pre|].Begin? && o == at[|pre|]
            && j == FirstKid(n.kids, 0, f)
    ensures j < |n.kids| ==> Resume(ts, |pre| + 1, 0, f) == At(c) && ChildAt(at, c, pre, n, j)
    ensures j == |n.kids| ==> Resume(ts, |pre| + 1, 0, f).Over?
  {
    ts, at := NodeIndexed(im, pre, n, post, o);
    j := FirstKid(n.kids, 0, f);
    c := |pre| + KidIndex(n, j);
    assert Resume(ts, |pre| + 1, 0, f) == if j < |n.kids| then At(c) else Over(|pre| + |NodeTokens(n)|) by {
      SearchNode(ts, |pre|, n, f);
    }
    if j < |n.kids| {
      assert ChildAt(at, c, pre, n, j) by {
        KidOffset(pre, n, post, j);
      }
    }
  }

  /** The first child that answers to the name: its offset, if there is one. */
  method FindChild(blob: Blob, o: nat, name: Bytes, ghost pre: seq<Token>, ghost n: RNode, ghost post: seq<Token>)
    returns (r: Option<nat>, ghost j: nat)
    requires Placed(blob.Value(), pre, n, post, o)
    ensures j == FirstKid(n.kids, 0, Answering(name))
    ensures j < |n.kids| ==> ValidTokens(BeforeKid(pre, n, j)) && r == Some(|Flat(BeforeKid(pre, n, j))|)
    ensures j == |n.kids| ==> r == None
  {
    var b := StructBytes(blob);
    ghost var ts, at, c;
    ts, at, j, c := ChildPlace(blob.Value(), pre, n, post, o, Answering(name));
    r := SubnodeOffset(b, o, name, ts, at, |pre|);
  }

  lemma {:induction false} HeadTags(ts: seq<Token>, k: nat, n: RNode)
    requires Occurs(ts, k, NodeTokens(n))
    ensures k + 1 + |n.head| < |ts|
    ensures forall i :: k < i <= k + |n.head| ==> ts[i].Prop? || ts[i].Nop?
    ensures !ts[k + 1 + |n.head|].Prop? && !ts[k + 1 + |n.head|].Nop?
  {
    HeadFacts(ts, k, n);
    forall i | k < i <= k + |n.head|
      ensures ts[i].Prop? || ts[i].Nop?
    {
      assert ts[k + 1 + (i - k - 1)] == ItemToken(n.head[i - k - 1]);
    }
  }

  /** Skips the properties and NOPs behind token k; m of them follow. */
  method SkipHead(b: Bytes, o: nat, ghost ts: seq<Token>, ghost at: seq<nat>, ghost k: nat, ghost m: nat)
    returns (q: nat)
    requires Indexed(b, ts, at) && k + 1 + m < |ts| && o == at[k]
    requires forall i :: k < i <= k + m ==> ts[i].Prop? || ts[i].Nop?
    requires !ts[k + 1 + m].Prop? && !ts[k + 1 + m].Nop?
    ensures q == at[k + 1 + m]
  {
    var tag := TagAt(b, o, ts, at, k);
    q := tag.value.1;
    ghost var j := k + 1;
    tag := TagAt(b, q, ts, at, j);
    while tag.value.0 == FDT_PROP || tag.value.0 == FDT_NOP
      invariant k < j <= k + 1 + m && q == at[j] && tag == Some((ts[j].Tag(), at[j + 1]))
      decreases |ts| - j
    {
      q := tag.value.1;
      j := j + 1;
      tag := TagAt(b, q, ts, at, j);
    }
  }

  /** The offset behind the properties of a node. */
  method AfterProps(blob: Blob, o: nat, ghost pre: seq<Token>, ghost n: RNode, ghost post: seq<Token>) returns (q: nat)
    requires Placed(blob.Value(), pre, n, post, o)
    ensures ValidTokens(BeforeItem(pre, n, |n.head|)) && q == |Flat(BeforeItem(pre, n, |n.head|))|
  {
    var b := StructBytes(blob);
    ghost var ts, at := PlaceIndexed(blob.Value(), pre, n, post, o);
    HeadTags(ts, |pre|, n);
    q := SkipHead(b, o, ts, at, |pre|, |n.head|);
    ghost var before := BeforeItem(pre, n, |n.head|);
  }

  lemma {:induction false} BackHolds(im: Image, pre: seq<Token>, n: RNode, post: seq<Token>)
    requires Holds(im, pre + NodeTokens(n) + post)
    ensures Holds(im, BeforeItem(pre, n, |n.head|) + FromItem(n, |n.head|, post))
  {
    SplitAtItem(pre, n, |n.head|, post);
  }

  lemma {:induction false} KidAdded(im: Image, pre: seq<Token>, n: RNode, post: seq<Token>, c: RNode, o: nat)
    requires c.head == [] && c.kids == [] && c.nops == 0
    requires Holds(im, BeforeItem(pre, n, |n.head|) + [Begin(c.name, c.pad), End] + FromItem(n, |n.head|, post))
    requires ValidTokens(pre) && o == |Flat(pre)|
    ensures Placed(im, pre, n.(kids := [c] + n.kids), post, o)
  {
    PrependKid(pre, n, c, post);
    NodeShape(c);
    assert NodeTokens(c) == [Begin(c.name, c.pad), End];
  }

  /** A child has the name, or the name, if that has no '@', followed by '@' and anything. */
  ghost predicate Taken(kids: seq<RNode>, name: Bytes) {
    exists j :: 0 <= j < |kids| && (kids[j].name == name || (AT_SIGN !in name && name + [AT_SIGN] <= kids[j].name))
  }

  lemma {:induction false} TakenFound(kids: seq<RNode>, name: Bytes)
    ensures FirstKid(kids, 0, Answering(name)) < |kids| <==> Taken(kids, name)
  {
    var f, j := Answering(name), FirstKid(kids, 0, Answering(name));
    if j < |kids| {
      assert f(kids[j].name);
    } else {
      assert forall i :: 0 <= i < |kids| ==> !f(kids[i].name);
    }
  }

  /** Adds a child in front of the other children, unless one answers to the name already. */
  method AddSubnode(blob: Blob, o: nat, name: Bytes, ghost pre: seq<Token>, ghost n: RNode, ghost post: seq<Token>)
    returns (e: Error, q: nat, ghost m: RNode)
    requires Placed(blob.Value(), pre, n, post, o) && 0 !in name
    modifies blob, blob.buf
    ensures e.Exists? <==> Taken(n.kids, name)
    ensures e == if FirstKid(n.kids, 0, Answering(name)) < |n.kids| then Exists
                 else if old(blob.Value()).DataSize() + 8 + TagAlign(|name| + 1) <= blob.buf.Length then Ok else NoSpace
    ensures e.Ok? ==> m.kids != [] && m == n.(kids := [RNode(name, m.kids[0].pad, [], [], 0)] + n.kids)
    ensures e.Ok? ==> Placed(blob.Value(), pre, m, post, o) && SameRest(old(blob.Value()), blob.Value())
    ensures e.Ok? ==> ValidTokens(BeforeKid(pre, m, 0)) && q == |Flat(BeforeKid(pre, m, 0))|
    ensures !e.Ok? ==> blob.Value() == old(blob.Value())
  {
    m := n;
    var r;
    ghost var j, pad;
    TakenFound(n.kids, name);
    r, j := FindChild(blob, o, name, pre, n, post);
    if r.Some? {
      return Exists, r.value, n;
    }
    q := AfterProps(blob, o, pre, n, post);
    BackHolds(blob.Value(), pre, n, post);
    e, pad := InsertNode(blob, q, name, BeforeItem(pre, n, |n.head|), FromItem(n, |n.head|, post));
    if e.Ok? {
      ghost var c := RNode(name, pad, [], [], 0);
      m := n.(kids := [c] + n.kids);
      KidAdded(blob.Value(), pre, n, post, c, o);
      FirstPlace(pre, n, c);
    }
  }

  lemma {:induction false} FirstPlace(pre: seq<Token>, n: RNode, c: RNode)
    ensures BeforeKid(pre, n.(kids := [c] + n.kids), 0) == BeforeItem(pre, n, |n.head|)
  {
    assert n.head[..|n.head|] == n.head;
    assert ([c] + n.kids)[..0] == [];
  }

  /** Where the node ends. */
  lemma {:induction false} NodeEndPlace(im: Image, pre: seq<Token>, n: RNode, post: seq<Token>, o: nat)
    returns (ts: seq<Token>, at: seq<nat>)
    requires Placed(im, pre, n, post, o)
    ensures Indexed(im.Struct(), ts, at) && |pre| < |ts| && ts[|pre|].Begin? && o == at[|pre|]
    ensures |pre| + |NodeTokens(n)| < |at| && Resume(ts, |pre| + 1, 0, (p: Bytes) => false) ==
            Over(|pre| + |NodeTokens(n)|)
    ensures ValidTokens(NodeTokens(n)) && at[|pre| + |NodeTokens(n)|] == o + |Flat(NodeTokens(n))|
  {
    ts := pre + NodeTokens(n) + post;
    at := Offsets(ts);
    var f := (p: Bytes) => false;
    assert Indexed(im.Struct(), ts, at) && |pre| < |ts| && ts[|pre|].Begin? && o == at[|pre|]
           && Occurs(ts, |pre|, NodeTokens(n)) by {
      FlatIndexed(ts);
      PlaceOccurs(pre, n, post);
      assert ts == pre + (NodeTokens(n) + post);
      OffsetOf(ts, pre, NodeTokens(n) + post);
    }
    assert Resume(ts, |pre| + 1, 0, f) == Over(|pre| + |NodeTokens(n)|) by {
      SearchNode(ts, |pre|, n, f);
    }
    ValidParts(pre, NodeTokens(n), post);
    OffsetOf(ts, pre + NodeTokens(n), post);
    FlatAppend(pre, NodeTokens(n));
  }

  /** Deletes the node. */
  method DelNode(blob: Blob, o: nat, ghost pre: seq<Token>, ghost n: RNode, ghost post: seq<Token>) returns (e: Error)
    requires Placed(blob.Value(), pre, n, post, o)
    modifies blob, blob.buf
    ensures e.Ok? && Holds(blob.Value(), pre + post) && SameRest(old(blob.Value()), blob.Value())
  {
    var b := StructBytes(blob);
    ghost var ts, at := NodeEndPlace(blob.Value(), pre, n, post, o);
    var end := NodeEndOffset(b, o, ts, at, |pre|);
    e := RemoveTokens(blob, o, end.value - o, pre, NodeTokens(n), post);
  }
}
