/**
  The primitive edits of a blob: strings are found and added, room is made and given up, properties
  and nodes are written between two runs of tokens. Each contract says which tokens the blob holds
  afterwards; a failed edit leaves them as they were.
  */
module FdtRw {
  import opened Options
  import opened FdtFormat
  import opened FdtTree
  import opened FdtRead
  import opened FdtBlob
  import opened FdtChunk
  import opened FdtEdit

  // ---------------------------------------------------------------------------------------
  // Strings
  // ---------------------------------------------------------------------------------------

  lemma {:induction false} StringIs(strs: Bytes, off: nat, s: Bytes)
    requires 0 !in s && off + |s| < |strs|
    ensures strs[off..off + |s| + 1] == s + [0] <==> StringAt(strs, off) == Some(s)
  {
    var n := |s|;
    if strs[off..off + n + 1] == s + [0] {
      assert strs[off + n] == (s + [0])[n];
      forall i | off <= i < off + n
        ensures strs[i] != 0
      {
        assert strs[i] == (s + [0])[i - off];
      }
      ZeroIs(strs, off, off + n);
      assert (s + [0])[..n] == s;
      SliceOf(strs, off, off + n + 1, 0, n);
    }
    if StringAt(strs, off) == Some(s) {
      assert strs[off..off + n + 1] == strs[off..off + n] + [strs[off + n]];
    }
  }

  /** A terminated string stays what it is when strings are added behind it. */
  lemma {:induction false} StringKept(strs: Bytes, more: Bytes, off: nat)
    requires StringAt(strs, off).Some?
    ensures StringAt(strs + more, off) == StringAt(strs, off)
  {
    var z := ZeroFrom(strs, off);
    ZeroIs(strs + more, off, z);
    assert (strs + more)[off..z] == strs[off..z];
  }

  lemma {:induction false} StringAdded(strs: Bytes, s: Bytes)
    requires 0 !in s
    ensures StringAt(strs + s + [0], |strs|) == Some(s)
  {
    var t := strs + s + [0];
    assert t[|strs|..|strs| + |s| + 1] == s + [0];
    StringIs(t, |strs|, s);
  }

  /** The first place where the string s with its terminator occurs. */
  method FindString(strs: Bytes, s: Bytes) returns (r: Option<nat>)
    requires 0 !in s
    ensures r.Some? ==> r.value < |strs| && StringAt(strs, r.value) == Some(s)
    ensures r.None? ==> forall off: nat :: StringAt(strs, off) != Some(s)
  {
    var p := 0;
    while p + |s| < |strs|
      invariant forall off: nat | off < p :: StringAt(strs, off) != Some(s)
    {
      StringIs(strs, p, s);
      if strs[p..p + |s| + 1] == s + [0] {
        return Some(p);
      }
      p := p + 1;
    }
    r := None;
  }

  // ---------------------------------------------------------------------------------------
  // Names
  // ---------------------------------------------------------------------------------------

  lemma {:induction false} NamesKept(ts: seq<Token>, strs: Bytes, more: Bytes)
    requires NamesResolve(ts, strs)
    ensures NamesResolve(ts, strs + more)
  {
    forall i | 0 <= i < |ts| && ts[i].Prop?
      ensures StringAt(strs + more, ts[i].nameoff).Some?
    {
      StringKept(strs, more, ts[i].nameoff);
    }
  }

  lemma {:induction false} NamesOfParts(a: seq<Token>, x: seq<Token>, c: seq<Token>, strs: Bytes)
    ensures NamesResolve(a + x + c, strs) <==> NamesResolve(a, strs) && NamesResolve(x, strs) && NamesResolve(c, strs)
  {
    var ts := a + x + c;
    if NamesResolve(ts, strs) {
      forall i | 0 <= i < |a| && a[i].Prop?
        ensures StringAt(strs, a[i].nameoff).Some?
      {
        assert a[i] == ts[i];
      }
      forall i | 0 <= i < |x| && x[i].Prop?
        ensures StringAt(strs, x[i].nameoff).Some?
      {
        assert x[i] == ts[|a| + i];
      }
      forall i | 0 <= i < |c| && c[i].Prop?
        ensures StringAt(strs, c[i].nameoff).Some?
      {
        assert c[i] == ts[|a| + |x| + i];
      }
    }
  }

  // ---------------------------------------------------------------------------------------
  // Images in three parts, as tokens
  // ---------------------------------------------------------------------------------------

  lemma {:induction false} ValidParts(a: seq<Token>, x: seq<Token>, c: seq<Token>)
    ensures ValidTokens(a + x + c) <==> ValidTokens(a) && ValidTokens(x) && ValidTokens(c)
  {
    var ts := a + x + c;
    if ValidTokens(ts) {
      assert a == ts[..|a|] && x == ts[|a|..|a| + |x|] && c == ts[|a| + |x|..];
    }
  }

  lemma {:induction false} FlatParts(a: seq<Token>, x: seq<Token>, c: seq<Token>)
    requires ValidTokens(a) && ValidTokens(x) && ValidTokens(c)
    ensures ValidTokens(a + x + c) && Flat(a + x + c) == Flat(a) + Flat(x) + Flat(c)
  {
    FlatAppend(a, x);
    FlatAppend(a + x, c);
  }

  lemma {:induction false} FlatOne(t: Token)
    requires t.Valid()
    ensures ValidTokens([t]) && Flat([t]) == Encode(t)
  {
    FlatAt([t], 0);
    assert [t][..0] == [] && [t][1..] == [];
  }

  /** An image that holds three runs of tokens is an image in three parts. */
  lemma {:induction false} PartsOf(im: Image, a: seq<Token>, x: seq<Token>, c: seq<Token>)
    requires Holds(im, a + x + c)
    ensures ValidTokens(a) && ValidTokens(x) && ValidTokens(c) && Parts(im, Flat(a), Flat(x), Flat(c))
  {
    ValidParts(a, x, c);
    FlatParts(a, x, c);
  }

  /** After an edit of the middle part that kept the rest, the image holds the new middle. */
  lemma {:induction false} HoldsParts(im: Image, a: seq<Token>, x: seq<Token>, c: seq<Token>, r: Image, y: seq<Token>)
    requires Holds(im, a + x + c) && ValidTokens(y) && NamesResolve(y, im.Strings())
    requires ValidTokens(a) && ValidTokens(c) && Parts(r, Flat(a), Flat(y), Flat(c)) && SameRest(im, r)
    ensures Holds(r, a + y + c)
  {
    FlatParts(a, y, c);
    NamesOfParts(a, x, c, im.Strings());
    NamesOfParts(a, y, c, im.Strings());
  }

  // ---------------------------------------------------------------------------------------
  // Primitive edits
  // ---------------------------------------------------------------------------------------

  method SpliceParts(blob: Blob, q: nat, oldlen: nat, newlen: nat, ghost a: Bytes, ghost x: Bytes, ghost c: Bytes)
    returns (e: Error, ghost room: Bytes)
    requires Parts(blob.Value(), a, x, c) && q == |a| && oldlen == |x|
    modifies blob, blob.buf
    ensures e == if old(blob.Value()).DataSize() - oldlen + newlen <= blob.buf.Length then Ok else NoSpace
    ensures e.Ok? ==> Parts(blob.Value(), a, room, c) && SameRest(old(blob.Value()), blob.Value())
    ensures e.Ok? ==> |room| == newlen && (oldlen <= newlen ==> room[..oldlen] == x)
    ensures !e.Ok? ==> blob.Value() == old(blob.Value())
  {
    ghost var was := blob.Value();
    room := [];
    assert |was.Struct()| == |a| + |x| + |c|;
    e := blob.SpliceStruct(q, oldlen, newlen);
    if e.Ok? {
      room := Room(was, q, oldlen, newlen);
      SplicedParts(was, a, x, c, newlen);
      if oldlen <= newlen {
        RoomKeeps(was, a, x, c, newlen);
      }
    }
  }

  method WritePart(blob: Blob, q: nat, data: Bytes, ghost a: Bytes, ghost x: Bytes, ghost c: Bytes, ghost j: nat)
    requires Parts(blob.Value(), a, x, c) && q == |a| + j && j + |data| <= |x|
    modifies blob, blob.buf
    ensures Parts(blob.Value(), a, Put(x, j, data), c) && SameRest(old(blob.Value()), blob.Value())
  {
    ghost var was := blob.Value();
    WrittenParts(was, a, x, c, j, data);
    blob.WriteStruct(q, data);
  }

  /** Four writes into the room at offset q. */
  method WriteFour(blob: Blob, q: nat, d0: Bytes, j1: nat, d1: Bytes, j2: nat, d2: Bytes, j3: nat, d3: Bytes,
                   ghost a: Bytes, ghost x: Bytes, ghost c: Bytes)
    requires Parts(blob.Value(), a, x, c) && q == |a|
    requires |d0| <= |x| && j1 + |d1| <= |x| && j2 + |d2| <= |x| && j3 + |d3| <= |x|
    modifies blob, blob.buf
    ensures Parts(blob.Value(), a, Put(Put(Put(Put(x, 0, d0), j1, d1), j2, d2), j3, d3), c)
    ensures SameRest(old(blob.Value()), blob.Value())
  {
    WritePart(blob, q, d0, a, x, c, 0);
    ghost var x1 := Put(x, 0, d0);
    WritePart(blob, q + j1, d1, a, x1, c, j1);
    ghost var x2 := Put(x1, j1, d1);
    WritePart(blob, q + j2, d2, a, x2, c, j2);
    ghost var x3 := Put(x2, j2, d2);
    WritePart(blob, q + j3, d3, a, x3, c, j3);
  }

  /** Fills the room at offset q with a property. */
  method FillProp(blob: Blob, q: nat, nameoff: nat, val: Bytes, ghost a: Bytes, ghost x: Bytes, ghost c: Bytes)
    returns (ghost t: Token)
    requires Parts(blob.Value(), a, x, c) && q == |a| && nameoff < LIMIT32 && |val| < LIMIT31
             && |x| == 12 + TagAlign(|val|)
    modifies blob, blob.buf
    ensures t.Valid() && t.Prop? && t.nameoff == nameoff && t.val == val
    ensures Parts(blob.Value(), a, Encode(t), c) && SameRest(old(blob.Value()), blob.Value())
  {
    t := Prop(nameoff, val, x[12 + |val|..]);
    NewPropToken(x, nameoff, val);
    WriteFour(blob, q, Be32(FDT_PROP), 8, Be32(nameoff), 4, Be32(|val|), 12, val, a, x, c);
  }

  /** Fills the room at offset q with a node that has no properties and no children. */
  method FillNodeBytes(blob: Blob, q: nat, name: Bytes, zs: Bytes, ghost a: Bytes, ghost x: Bytes, ghost c: Bytes)
    requires Parts(blob.Value(), a, x, c) && q == |a| && |x| == 8 + |zs| && |name| < |zs|
    modifies blob, blob.buf
    ensures Parts(blob.Value(), a, Put(Put(Put(Put(x, 0, Be32(FDT_BEGIN_NODE)), 4, zs), 4, name), 4 + |zs|,
            Be32(FDT_END_NODE)), c)
    ensures SameRest(old(blob.Value()), blob.Value())
  {
    WriteFour(blob, q, Be32(FDT_BEGIN_NODE), 4, zs, 4, name, 4 + |zs|, Be32(FDT_END_NODE), a, x, c);
  }

  lemma {:induction false} PartsShift(im: Image, a: Bytes, h: Bytes, v: Bytes, c: Bytes)
    ensures Parts(im, a, h + v, c) <==> Parts(im, a + h, v, c)
  {
    assert a + (h + v) + c == (a + h) + v + c;
  }

  /** Two writes into the room at offset q. */
  method WriteTwo(blob: Blob, q: nat, j0: nat, d0: Bytes, j1: nat, d1: Bytes, ghost a: Bytes, ghost x: Bytes,
                  ghost c: Bytes)
    requires Parts(blob.Value(), a, x, c) && q == |a| && j0 + |d0| <= |x| && j1 + |d1| <= |x|
    modifies blob, blob.buf
    ensures Parts(blob.Value(), a, Put(Put(x, j0, d0), j1, d1), c) && SameRest(old(blob.Value()), blob.Value())
  {
    WritePart(blob, q + j0, d0, a, x, c, j0);
    ghost var x1 := Put(x, j0, d0);
    WritePart(blob, q + j1, d1, a, x1, c, j1);
  }

  /** Replaces the v behind the header h of a property by other room. */
  method ResizeBytes(blob: Blob, q: nat, oldlen: nat, newlen: nat, ghost a: Bytes, ghost h: Bytes, ghost v: Bytes,
                     ghost c: Bytes)
    returns (e: Error, ghost room: Bytes, ghost x: Bytes)
    requires Parts(blob.Value(), a, h + v, c) && q == |a| + |h| && oldlen == |v|
    modifies blob, blob.buf
    ensures e == if old(blob.Value()).DataSize() - oldlen + newlen <= blob.buf.Length then Ok else NoSpace
    ensures e.Ok? ==> |room| == newlen && (oldlen <= newlen ==> room[..oldlen] == v)
    ensures e.Ok? ==> x == h + room && Parts(blob.Value(), a, x, c) && SameRest(old(blob.Value()), blob.Value())
    ensures !e.Ok? ==> blob.Value() == old(blob.Value())
  {
    PartsShift(blob.Value(), a, h, v, c);
    e, room := SpliceParts(blob, q, oldlen, newlen, a + h, v, c);
    x := h + room;
    if e.Ok? {
      PartsShift(blob.Value(), a, h, room, c);
    }
  }

  lemma {:induction false} RoomStart(t: Token, d: nat, data: Bytes, room: Bytes)
    requires t.Valid() && t.Prop? && (d == 0 || d == |t.val|)
    requires |room| == TagAlign(d + |data|)
    requires var v := Encode(t)[12..]; |v| <= |room| ==> room[..|v|] == v
    ensures room[..d] == t.val[..d]
  {
    PropWords(t);
    var v := Encode(t)[12..];
    if d > 0 {
      assert TagAlign(d) <= TagAlign(d + |data|);
      assert room[..d] == room[..|v|][..d];
      assert v[..d] == Encode(t)[12..12 + d];
    }
  }

  lemma {:induction false} ResizedToken(t: Token, d: nat, data: Bytes, room: Bytes)
    requires t.Valid() && t.Prop? && (d == 0 || d == |t.val|) && d + |data| < LIMIT31
    requires |room| == TagAlign(d + |data|)
    requires var v := Encode(t)[12..]; |v| <= |room| ==> room[..|v|] == v
    ensures var val := t.val[..d] + data;
            var u := Prop(t.nameoff, val, room[d + |data|..]);
            u.Valid() && Encode(u) == Put(Put(Encode(t)[..12] + room, 4, Be32(d + |data|)), 12 + d, data)
  {
    RoomStart(t, d, data, room);
    ResizedPropToken(t, room, d, data);
  }

  /**
    Resizes the value v behind the twelve header bytes h of the property at offset q, then writes
    the length word w and the data at offset d of the value.
    */
  method ResizeWrite(blob: Blob, q: nat, oldlen: nat, newlen: nat, w: Bytes, d: nat, data: Bytes,
                     ghost a: Bytes, ghost h: Bytes, ghost v: Bytes, ghost c: Bytes)
    returns (e: Error, ghost room: Bytes)
    requires Parts(blob.Value(), a, h + v, c) && q == |a| && |h| == 12 && |w| == 4 && oldlen == |v|
             && d + |data| <= newlen
    modifies blob, blob.buf
    ensures e == if old(blob.Value()).DataSize() - oldlen + newlen <= blob.buf.Length then Ok else NoSpace
    ensures e.Ok? ==> |room| == newlen && (oldlen <= newlen ==> room[..oldlen] == v)
    ensures e.Ok? ==> Parts(blob.Value(), a, Put(Put(h + room, 4, w), 12 + d, data), c)
    ensures e.Ok? ==> SameRest(old(blob.Value()), blob.Value())
    ensures !e.Ok? ==> blob.Value() == old(blob.Value())
  {
    ghost var x;
    e, room, x := ResizeBytes(blob, q + 12, oldlen, newlen, a, h, v, c);
    if e.Ok? {
      WriteTwo(blob, q, 4, w, 12 + d, data, a, x, c);
    }
  }

  // ---------------------------------------------------------------------------------------
  // Places
  // ---------------------------------------------------------------------------------------

  /** The image holds the node n behind the tokens pre and before post, at offset o. */
  ghost predicate Placed(im: Image, pre: seq<Token>, n: RNode, post: seq<Token>, o: nat) {
    Holds(im, pre + NodeTokens(n) + post) && ValidTokens(pre) && o == |Flat(pre)|
  }

  lemma {:induction false} PlaceOccurs(pre: seq<Token>, n: RNode, post: seq<Token>)
    ensures var ts := pre + NodeTokens(n) + post;
            Occurs(ts, |pre|, NodeTokens(n)) && |pre| < |ts| && ts[|pre|] == Begin(n.name, n.pad)
  {
    var ts := pre + NodeTokens(n) + post;
    assert Occurs(ts, |pre|, NodeTokens(n));
    NodeParts(ts, |pre|, n);
  }

  lemma {:induction false} OffsetOf(ts: seq<Token>, a: seq<Token>, c: seq<Token>)
    requires ValidTokens(ts) && ts == a + c
    ensures ValidTokens(a) && Offsets(ts)[|a|] == |Flat(a)|
  {
    assert ts[..|a|] == a;
  }

  method StructBytes(blob: Blob) returns (b: Bytes)
    requires blob.Value().Ordered()
    ensures b == blob.Value().Struct()
  {
    b := blob.buf[blob.offStruct..blob.offStruct + blob.sizeStruct];
    ghost var im := blob.Value();
    SameSeq(b, im.Struct());
  }

  method StringBytes(blob: Blob) returns (b: Bytes)
    requires blob.Value().Ordered()
    ensures b == blob.Value().Strings()
  {
    b := blob.buf[blob.offStrings..blob.offStrings + blob.sizeStrings];
    ghost var im := blob.Value();
    SameSeq(b, im.Strings());
  }

  /** The offsets of the properties of the node behind pre. */
  ghost predicate ItemsAt(at: seq<nat>, pre: seq<Token>, n: RNode) {
    && |pre| + 1 + |n.head| < |at|
    && forall i {:trigger BeforeItem(pre, n, i)} :: 0 <= i <= |n.head| ==>
         ValidTokens(BeforeItem(pre, n, i)) && at[|pre| + 1 + i] == |Flat(BeforeItem(pre, n, i))|
  }

  lemma {:induction false} ItemOffset(pre: seq<Token>, n: RNode, post: seq<Token>, i: nat)
    requires i <= |n.head| && ValidTokens(pre + NodeTokens(n) + post)
    ensures ValidTokens(BeforeItem(pre, n, i))
    ensures |pre| + 1 + i <= |pre + NodeTokens(n) + post|
    ensures Offsets(pre + NodeTokens(n) + post)[|pre| + 1 + i] == |Flat(BeforeItem(pre, n, i))|
  {
    SplitAtItem(pre, n, i, post);
    OffsetOf(pre + NodeTokens(n) + post, BeforeItem(pre, n, i), FromItem(n, i, post));
  }

  lemma {:induction false} ItemOffsets(pre: seq<Token>, n: RNode, post: seq<Token>)
    requires ValidTokens(pre + NodeTokens(n) + post)
    ensures ItemsAt(Offsets(pre + NodeTokens(n) + post), pre, n)
  {
    NodeShape(n);
    forall i | 0 <= i <= |n.head|
      ensures ValidTokens(BeforeItem(pre, n, i))
      ensures Offsets(pre + NodeTokens(n) + post)[|pre| + 1 + i] == |Flat(BeforeItem(pre, n, i))|
    {
      ItemOffset(pre, n, post, i);
    }
  }

  /** The tokens of a placed node as an indexed block. */
  lemma {:induction false} PlaceIndexed(im: Image, pre: seq<Token>, n: RNode, post: seq<Token>, o: nat)
    returns (ts: seq<Token>, at: seq<nat>)
    requires Placed(im, pre, n, post, o)
    ensures Indexed(im.Struct(), ts, at) && Occurs(ts, |pre|, NodeTokens(n))
    ensures |pre| < |ts| && ts[|pre|].Begin? && o == at[|pre|] && ItemsAt(at, pre, n)
  {
    ts := pre + NodeTokens(n) + post;
    at := Offsets(ts);
    FlatIndexed(ts);
    PlaceOccurs(pre, n, post);
    assert ts == pre + (NodeTokens(n) + post);
    OffsetOf(ts, pre, NodeTokens(n) + post);
    ItemOffsets(pre, n, post);
  }

  lemma {:induction false} ItemHere(at: seq<nat>, pre: seq<Token>, n: RNode, i: nat)
    requires ItemsAt(at, pre, n) && i <= |n.head|
    ensures ValidTokens(BeforeItem(pre, n, i)) && at[|pre| + 1 + i] == |Flat(BeforeItem(pre, n, i))|
  {
  }

  lemma {:induction false} FindsItem(ts: seq<Token>, k: nat, n: RNode, has: nat -> bool, i: nat)
    requires Occurs(ts, k, NodeTokens(n)) && k < |ts| && i == PropIndex(n.head, has, 0)
    ensures FoundAt(ts, has, k, |n.head|, i)
  {
    FindInNode(ts, k, n, has);
  }

  /** The search for a property behind token k ends at item i of m. */
  ghost predicate FoundAt(ts: seq<Token>, has: nat -> bool, k: nat, m: nat, i: nat) {
    k < |ts| && FindProp(ts, has, k + 1) == if i < m then Some(k + 1 + i) else None
  }

  /** The tokens of a block, in which the search behind token k, at offset o, ends at item i of m, at offset p. */
  ghost predicate Leads(b: Bytes, ts: seq<Token>, at: seq<nat>, has: nat -> bool, o: nat, k: nat, m: nat, i: nat,
                        p: nat) {
    && Indexed(b, ts, at) && k < |ts| && ts[k].Begin? && o == at[k] && FoundAt(ts, has, k, m, i)
    && k + 1 + m < |at| && (i < m ==> at[k + 1 + i] == p)
  }

  method PropertyAmong(b: Bytes, strs: Bytes, o: nat, name: Bytes, ghost ts: seq<Token>, ghost at: seq<nat>,
                       ghost k: nat, ghost m: nat, ghost i: nat, ghost p: nat)
    returns (r: Option<nat>)
    requires Leads(b, ts, at, Named(strs, name), o, k, m, i, p)
    ensures r == if i < m then Some(p) else None
  {
    r := PropertyOffset(b, strs, o, name, ts, at, k);
  }

  /** The property of the given name of the node at offset o: its offset, if there is one. */
  method FindProperty(blob: Blob, o: nat, name: Bytes, ghost pre: seq<Token>, ghost n: RNode, ghost post: seq<Token>)
    returns (r: Option<nat>, ghost i: nat)
    requires Placed(blob.Value(), pre, n, post, o)
    ensures i == PropIndex(n.head, Named(blob.Value().Strings(), name), 0)
    ensures i < |n.head| ==> ValidTokens(BeforeItem(pre, n, i)) && r == Some(|Flat(BeforeItem(pre, n, i))|)
    ensures i == |n.head| ==> r == None
  {
    var b := StructBytes(blob);
    var strs := StringBytes(blob);
    r, i := PropertyInBlock(b, strs, o, name, blob.Value(), pre, n, post);
  }

  /** Where the first property of a name stands. */
  lemma {:induction false} ItemIndexed(im: Image, pre: seq<Token>, n: RNode, post: seq<Token>, o: nat, has: nat -> bool)
    returns (ts: seq<Token>, at: seq<nat>, i: nat, p: nat)
    requires Placed(im, pre, n, post, o)
    ensures Leads(im.Struct(), ts, at, has, o, |pre|, |n.head|, i, p)
    ensures i == PropIndex(n.head, has, 0)
    ensures i < |n.head| ==> ValidTokens(BeforeItem(pre, n, i)) && p == |Flat(BeforeItem(pre, n, i))|
  {
    ts, at := PlaceIndexed(im, pre, n, post, o);
    i := PropIndex(n.head, has, 0);
    FindsItem(ts, |pre|, n, has, i);
    ItemHere(at, pre, n, i);
    p := at[|pre| + 1 + i];
  }

  method PropertyInBlock(b: Bytes, strs: Bytes, o: nat, name: Bytes, ghost im: Image, ghost pre: seq<Token>,
                         ghost n: RNode, ghost post: seq<Token>)
    returns (r: Option<nat>, ghost i: nat)
    requires Placed(im, pre, n, post, o) && b == im.Struct() && strs == im.Strings()
    ensures i == PropIndex(n.head, Named(strs, name), 0)
    ensures i < |n.head| ==> ValidTokens(BeforeItem(pre, n, i)) && r == Some(|Flat(BeforeItem(pre, n, i))|)
    ensures i == |n.head| ==> r == None
  {
    ghost var ts, at, p;
    ts, at, i, p := ItemIndexed(im, pre, n, post, o, Named(strs, name));
    r := PropertyAmong(b, strs, o, name, ts, at, |pre|, |n.head|, i, p);
  }

  // ---------------------------------------------------------------------------------------
  // Edits between two runs of tokens
  // ---------------------------------------------------------------------------------------

  lemma {:induction false} Cancel(a: Bytes, x: Bytes, y: Bytes, c: Bytes)
    requires a + x + c == a + y + c
    ensures x == y
  {
    assert |a + x + c| == |a + y + c|;
    assert x == (a + x + c)[|a|..|a| + |x|];
    assert y == (a + y + c)[|a|..|a| + |y|];
  }

  /** A property between two runs of tokens: header bytes and value bytes. */
  lemma {:induction false} PropPlace(im: Image, a: seq<Token>, t: Token, c: seq<Token>) returns (h: Bytes, v: Bytes)
    requires Holds(im, a + [t] + c) && t.Prop?
    ensures ValidTokens(a) && ValidTokens(c) && t.Valid()
    ensures Parts(im, Flat(a), h + v, Flat(c)) && |h| == 12 && |v| == TagAlign(|t.val|)
  {
    PartsOf(im, a, [t], c);
    assert t == [t][0];
    h, v := PropSplit(t);
  }

  lemma {:induction false} PropSplit(t: Token) returns (h: Bytes, v: Bytes)
    requires t.Valid() && t.Prop?
    ensures ValidTokens([t]) && Flat([t]) == h + v && |h| == 12 && |v| == TagAlign(|t.val|)
  {
    FlatOne(t);
    h, v := Encode(t)[..12], Encode(t)[12..];
    assert h + v == Encode(t);
  }

  lemma {:induction false} ResizedHolds(im: Image, a: seq<Token>, t: Token, c: seq<Token>, h: Bytes, v: Bytes,
                                        from: nat, to: nat, room: Bytes, w: Bytes, d: nat, data: Bytes, r: Image)
    returns (u: Token)
    requires Holds(im, a + [t] + c) && t.Prop? && ValidTokens(a) && ValidTokens(c) && t.Valid()
    requires Parts(im, Flat(a), h + v, Flat(c)) && |h| == 12
    requires (d == 0 || d == |t.val|) && d + |data| < LIMIT31 && w == Be32(d + |data|)
    requires from == |v| && to == TagAlign(d + |data|) && |room| == to && (from <= to ==> room[..from] == v)
    requires Parts(r, Flat(a), Put(Put(h + room, 4, w), 12 + d, data), Flat(c)) && SameRest(im, r)
    ensures u.Prop? && u.nameoff == t.nameoff && u.val == t.val[..d] + data && Holds(r, a + [u] + c)
  {
    u := Prop(t.nameoff, t.val[..d] + data, room[d + |data|..]);
    assert h + v == Encode(t) by {
      PartsOf(im, a, [t], c);
      FlatOne(t);
      Cancel(Flat(a), h + v, Encode(t), Flat(c));
    }
    assert h == Encode(t)[..12] && v == Encode(t)[12..] by {
      assert (h + v)[..12] == h && (h + v)[12..] == v;
    }
    ResizedToken(t, d, data, room);
    FlatOne(u);
    NameOfOne(im, a, t, c);
    HoldsParts(im, a, [t], c, r, [u]);
  }

  lemma {:induction false} NameOfOne(im: Image, a: seq<Token>, t: Token, c: seq<Token>)
    requires Holds(im, a + [t] + c) && t.Prop?
    ensures StringAt(im.Strings(), t.nameoff).Some?
  {
    var ts := a + [t] + c;
    assert ts[|a|] == t;
  }

  /** The length word of the property at offset q. */
  method PropLength(blob: Blob, q: nat, ghost a: seq<Token>, ghost t: Token, ghost c: seq<Token>) returns (n: nat)
    requires Holds(blob.Value(), a + [t] + c) && t.Prop? && ValidTokens(a) && q == |Flat(a)|
    ensures n == |t.val|
  {
    var b := StructBytes(blob);
    PropLengthAt(blob.Value(), a, t, c);
    n := Word(b, q + 4);
  }

  lemma {:induction false} PropLengthAt(im: Image, a: seq<Token>, t: Token, c: seq<Token>)
    requires Holds(im, a + [t] + c) && t.Prop? && ValidTokens(a)
    ensures |Flat(a)| + 8 <= |im.Struct()| && Word(im.Struct(), |Flat(a)| + 4) == |t.val|
  {
    PartsOf(im, a, [t], c);
    assert t == [t][0];
    FlatOne(t);
    PropMid(Flat(a), t, Flat(c));
  }

  /** A value of 2^31 bytes or more does not fit. */
  lemma {:induction false} TooLong(im: Image, a: seq<Token>, t: Token, c: seq<Token>, len: nat)
    requires Holds(im, a + [t] + c) && t.Prop? && LIMIT31 <= len
    ensures im.DataSize() - TagAlign(|t.val|) + TagAlign(len) > |im.bytes|
  {
    var h, v := PropPlace(im, a, t, c);
    assert TagAlign(|t.val|) <= |im.Struct()|;
  }

  /** Replaces the value of a property from offset d of the value on. */
  method ReplaceProp(blob: Blob, q: nat, d: nat, data: Bytes, oldlen: nat, ghost a: seq<Token>, ghost t: Token,
                     ghost c: seq<Token>)
    returns (e: Error, ghost u: Token)
    requires Holds(blob.Value(), a + [t] + c) && t.Prop? && ValidTokens(a) && q == |Flat(a)| && oldlen == |t.val|
    requires (d == 0 || d == |t.val|) && |data| < LIMIT31
    modifies blob, blob.buf
    ensures e == if old(blob.Value()).DataSize() - TagAlign(|t.val|) + TagAlign(d + |data|) <= blob.buf.Length then Ok
            else NoSpace
    ensures e.Ok? ==> u.Prop? && u.nameoff == t.nameoff && u.val == t.val[..d] + data
    ensures e.Ok? ==> Holds(blob.Value(), a + [u] + c) && SameRest(old(blob.Value()), blob.Value())
    ensures !e.Ok? ==> blob.Value() == old(blob.Value())
  {
    if LIMIT31 <= d + |data| {
      TooLong(blob.Value(), a, t, c, d + |data|);
      return NoSpace, t;
    }
    e, u := ReplaceSized(blob, q, d, data, TagAlign(oldlen), TagAlign(d + |data|), a, t, c);
  }

  /** The same, given how many bytes the old and the new value take. */
  method ReplaceSized(blob: Blob, q: nat, d: nat, data: Bytes, from: nat, to: nat, ghost a: seq<Token>, ghost t: Token,
                      ghost c: seq<Token>)
    returns (e: Error, ghost u: Token)
    requires Holds(blob.Value(), a + [t] + c) && t.Prop? && ValidTokens(a) && q == |Flat(a)|
    requires (d == 0 || d == |t.val|) && d + |data| < LIMIT31
    requires from == TagAlign(|t.val|) && d + |data| <= to == TagAlign(d + |data|)
    modifies blob, blob.buf
    ensures e == if old(blob.Value()).DataSize() - from + to <= blob.buf.Length then Ok else NoSpace
    ensures e.Ok? ==> u.Prop? && u.nameoff == t.nameoff && u.val == t.val[..d] + data
    ensures e.Ok? ==> Holds(blob.Value(), a + [u] + c) && SameRest(old(blob.Value()), blob.Value())
    ensures !e.Ok? ==> blob.Value() == old(blob.Value())
  {
    ghost var was := blob.Value();
    ghost var h, v := PropPlace(was, a, t, c);
    var w := Be32(d + |data|);
    ghost var room, fa, fc := [], Flat(a), Flat(c);
    e, room := ResizeWrite(blob, q, from, to, w, d, data, fa, h, v, fc);
    u := t;
    if e.Ok? {
      ghost var now := blob.Value();
      u := ResizedHolds(was, a, t, c, h, v, from, to, room, w, d, data, now);
    }
  }

  lemma {:induction false} EmptyPlace(im: Image, a: seq<Token>, c: seq<Token>)
    requires Holds(im, a + c)
    ensures ValidTokens(a) && ValidTokens(c) && Parts(im, Flat(a), [], Flat(c)) && Holds(im, a + [] + c)
  {
    assert a + [] + c == a + c;
    PartsOf(im, a, [], c);
    assert Flat([]) == [];
  }

  /** Puts a new property between two runs of tokens. */
  method InsertProp(blob: Blob, q: nat, nameoff: nat, val: Bytes, ghost a: seq<Token>, ghost c: seq<Token>)
    returns (e: Error, ghost t: Token)
    requires Holds(blob.Value(), a + c) && ValidTokens(a) && q == |Flat(a)| && |val| < LIMIT31
    requires nameoff < LIMIT32 && StringAt(blob.Value().Strings(), nameoff).Some?
    modifies blob, blob.buf
    ensures e == if old(blob.Value()).DataSize() + 12 + TagAlign(|val|) <= blob.buf.Length then Ok else NoSpace
    ensures e.Ok? ==> t.Prop? && t.nameoff == nameoff && t.val == val
    ensures e.Ok? ==> Holds(blob.Value(), a + [t] + c) && SameRest(old(blob.Value()), blob.Value())
    ensures !e.Ok? ==> blob.Value() == old(blob.Value())
  {
    ghost var was := blob.Value();
    EmptyPlace(was, a, c);
    ghost var room;
    t := Nop;
    e, room := SpliceParts(blob, q, 0, 12 + TagAlign(|val|), Flat(a), [], Flat(c));
    if e.Ok? {
      t := FillProp(blob, q, nameoff, val, Flat(a), room, Flat(c));
      FlatOne(t);
      HoldsParts(was, a, [], c, blob.Value(), [t]);
    }
  }

  /** The bytes of the four writes for a new node. */
  function NodeWrites(x: Bytes, name: Bytes, zs: Bytes): Bytes
    requires |x| == 8 + |zs| && |name| <= |zs|
  {
    Put(Put(Put(Put(x, 0, Be32(FDT_BEGIN_NODE)), 4, zs), 4, name), 4 + |zs|, Be32(FDT_END_NODE))
  }

  lemma {:induction false} NodeFilled(im: Image, a: seq<Token>, c: seq<Token>, name: Bytes, zs: Bytes, x: Bytes,
                                      y: Bytes, r: Image)
    returns (pad: Bytes)
    requires Holds(im, a + [] + c) && ValidTokens(a) && ValidTokens(c) && 0 !in name
    requires zs == Zeros(TagAlign(|name| + 1)) && |x| == 8 + |zs| && y == NodeWrites(x, name, zs)
    requires Parts(r, Flat(a), y, Flat(c)) && SameRest(im, r)
    ensures Holds(r, a + [Begin(name, pad), End] + c)
  {
    pad := NodePad(name, zs, x, y);
    HoldsParts(im, a, [], c, r, [Begin(name, pad), End]);
  }

  lemma {:induction false} NodePad(name: Bytes, zs: Bytes, x: Bytes, y: Bytes) returns (pad: Bytes)
    requires 0 !in name && zs == Zeros(TagAlign(|name| + 1)) && |x| == 8 + |zs| && y == NodeWrites(x, name, zs)
    ensures ValidTokens([Begin(name, pad), End]) && Flat([Begin(name, pad), End]) == y
  {
    pad := Zeros(TagAlign(|name| + 1) - |name| - 1);
    var t := Begin(name, pad);
    assert t.Valid() && y == Encode(t) + Encode(End) by {
      NewNodeTokens(x, name);
    }
    FlatTwo(t, End);
  }

  lemma {:induction false} FlatTwo(t: Token, u: Token)
    requires t.Valid() && u.Valid()
    ensures ValidTokens([t, u]) && Flat([t, u]) == Encode(t) + Encode(u)
  {
    FlatOne(t);
    FlatOne(u);
    FlatAppend([t], [u]);
    assert [t] + [u] == [t, u];
  }

  method InsertNodeBytes(blob: Blob, q: nat, name: Bytes, zs: Bytes, ghost a: Bytes, ghost c: Bytes)
    returns (e: Error, ghost x: Bytes, ghost y: Bytes)
    requires Parts(blob.Value(), a, [], c) && q == |a| && |name| < |zs|
    modifies blob, blob.buf
    ensures e == if old(blob.Value()).DataSize() + 8 + |zs| <= blob.buf.Length then Ok else NoSpace
    ensures e.Ok? ==> |x| == 8 + |zs| && y == NodeWrites(x, name, zs) && Parts(blob.Value(), a, y, c)
    ensures e.Ok? ==> SameRest(old(blob.Value()), blob.Value())
    ensures !e.Ok? ==> blob.Value() == old(blob.Value())
  {
    y := [];
    e, x := SpliceParts(blob, q, 0, 8 + |zs|, a, [], c);
    if e.Ok? {
      FillNodeBytes(blob, q, name, zs, a, x, c);
      y := NodeWrites(x, name, zs);
    }
  }

  /** Puts a new node without properties between two runs of tokens. */
  method InsertNode(blob: Blob, q: nat, name: Bytes, ghost a: seq<Token>, ghost c: seq<Token>)
    returns (e: Error, ghost pad: Bytes)
    requires Holds(blob.Value(), a + c) && ValidTokens(a) && q == |Flat(a)| && 0 !in name
    modifies blob, blob.buf
    ensures e == if old(blob.Value()).DataSize() + 8 + TagAlign(|name| + 1) <= blob.buf.Length then Ok else NoSpace
    ensures e.Ok? ==> Holds(blob.Value(), a + [Begin(name, pad), End] + c) && SameRest(old(blob.Value()), blob.Value())
    ensures !e.Ok? ==> blob.Value() == old(blob.Value())
  {
    ghost var was := blob.Value();
    EmptyPlace(was, a, c);
    var zs := Zeros(TagAlign(|name| + 1));
    ghost var x, y;
    pad := [];
    e, x, y := InsertNodeBytes(blob, q, name, zs, Flat(a), Flat(c));
    if e.Ok? {
      pad := NodeFilled(was, a, c, name, zs, x, y, blob.Value());
    }
  }

  lemma {:induction false} Removed(im: Image, a: seq<Token>, x: seq<Token>, c: seq<Token>, r: Image, y: Bytes)
    requires Holds(im, a + x + c) && ValidTokens(a) && ValidTokens(c) && |y| == 0
    requires Parts(r, Flat(a), y, Flat(c)) && SameRest(im, r)
    ensures Holds(r, a + c)
  {
    assert y == [] && Flat([]) == [];
    HoldsParts(im, a, x, c, r, []);
    assert a + [] == a;
  }

  /** Removes a run of tokens. This cannot run out of space. */
  method RemoveTokens(blob: Blob, q: nat, len: nat, ghost a: seq<Token>, ghost x: seq<Token>, ghost c: seq<Token>)
    returns (e: Error)
    requires Holds(blob.Value(), a + x + c) && ValidTokens(a) && ValidTokens(x) && q == |Flat(a)| && len == |Flat(x)|
    modifies blob, blob.buf
    ensures e.Ok? && Holds(blob.Value(), a + c) && SameRest(old(blob.Value()), blob.Value())
  {
    ghost var was := blob.Value();
    PartsOf(was, a, x, c);
    ghost var room;
    e, room := SpliceParts(blob, q, len, 0, Flat(a), Flat(x), Flat(c));
    Removed(was, a, x, c, blob.Value(), room);
  }
}
