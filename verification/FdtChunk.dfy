/**
  Bytes of single tokens in the middle of a structure block: what a splice leaves, and how header
  words and data written into the room turn it into a token.
  */
module FdtChunk {
  import opened FdtFormat
  import opened FdtBlob

  /** s with data written at offset j. */
  function Put(s: Bytes, j: nat, data: Bytes): (r: Bytes)
    requires j + |data| <= |s|
    ensures |r| == |s|
  {
    s[..j] + data + s[j + |data|..]
  }

  lemma {:induction false} PutMid(a: Bytes, x: Bytes, c: Bytes, j: nat, data: Bytes)
    requires j + |data| <= |x|
    ensures Put(a + x + c, |a| + j, data) == a + Put(x, j, data) + c
  {
    var s := a + x + c;
    assert s[..|a| + j] == a + x[..j];
    assert s[|a| + j + |data|..] == x[j + |data|..] + c;
  }

  /** Bytes outside the written range stay. */
  lemma {:induction false} PutKeeps(s: Bytes, j: nat, data: Bytes, x: nat, y: nat)
    requires j + |data| <= |s| && x <= y <= |s| && (y <= j || j + |data| <= x)
    ensures Put(s, j, data)[x..y] == s[x..y]
  {
    SameSeq(Put(s, j, data)[x..y], s[x..y]);
  }

  lemma {:induction false} PutHere(s: Bytes, j: nat, data: Bytes)
    requires j + |data| <= |s|
    ensures Put(s, j, data)[j..j + |data|] == data
  {
  }

  // ---------------------------------------------------------------------------------------
  // Structure blocks in three parts
  // ---------------------------------------------------------------------------------------

  /** The structure block is a, then x, then c. */
  ghost predicate Parts(im: Image, a: Bytes, x: Bytes, c: Bytes) {
    im.Ordered() && im.Struct() == a + x + c
  }

  /** The rest of the image: everything an edit of the structure block leaves alone. */
  ghost predicate SameRest(im: Image, r: Image) {
    && im.Ordered() && r.Ordered() && r.Strings() == im.Strings() && r.Reserved() == im.Reserved()
    && |r.bytes| == |im.bytes| && r.offRsv == im.offRsv
  }

  lemma {:induction false} WrittenParts(im: Image, a: Bytes, x: Bytes, c: Bytes, j: nat, data: Bytes)
    requires Parts(im, a, x, c) && j + |data| <= |x|
    ensures |a| + j + |data| <= im.sizeStruct
    ensures var r := StructWritten(im, |a| + j, data); Parts(r, a, Put(x, j, data), c) && SameRest(im, r)
  {
    assert |im.Struct()| == im.sizeStruct;
    StructWrittenHere(im, |a| + j, data);
    StructWrittenOthers(im, |a| + j, data);
    PutMid(a, x, c, j, data);
  }

  /** The room a splice leaves in place of x. */
  ghost function Room(im: Image, q: nat, oldlen: nat, newlen: nat): (x: Bytes)
    requires Fits(im, q, oldlen, newlen)
    ensures |x| == newlen
  {
    SplicedOthers(im, q, oldlen, newlen);
    StructSpliced(im, q, oldlen, newlen).Struct()[q..q + newlen]
  }

  lemma {:induction false} ThreeParts(s: Bytes, a: Bytes, c: Bytes, q: nat, n: nat)
    requires q + n <= |s| && s[..q] == a && s[q + n..] == c
    ensures s == a + s[q..q + n] + c
  {
  }

  lemma {:induction false} SplicedParts(im: Image, a: Bytes, x: Bytes, c: Bytes, newlen: nat)
    requires Parts(im, a, x, c) && Fits(im, |a|, |x|, newlen)
    ensures var r := StructSpliced(im, |a|, |x|, newlen);
            Parts(r, a, Room(im, |a|, |x|, newlen), c) && SameRest(im, r)
  {
    var r := StructSpliced(im, |a|, |x|, newlen);
    SplicedOthers(im, |a|, |x|, newlen);
    assert r.Struct()[..|a|] == a by {
      SplicedBefore(im, |a|, |x|, newlen);
      assert (a + x + c)[..|a|] == a;
    }
    assert r.Struct()[|a| + newlen..] == c by {
      SplicedAfter(im, |a|, |x|, newlen);
      assert (a + x + c)[|a| + |x|..] == c;
    }
    ThreeParts(r.Struct(), a, c, |a|, newlen);
  }

  lemma {:induction false} StructSlice(im: Image, q: nat, n: nat)
    requires im.Ordered() && q + n <= im.sizeStruct
    ensures im.Struct()[q..q + n] == im.bytes[im.offStruct + q..im.offStruct + q + n]
  {
    SliceOf(im.bytes, im.offStruct, im.offStruct + im.sizeStruct, q, q + n);
  }

  lemma {:induction false} SplicedKeeps(im: Image, q: nat, oldlen: nat, newlen: nat)
    requires Fits(im, q, oldlen, newlen) && oldlen <= newlen
    ensures Room(im, q, oldlen, newlen)[..oldlen] == im.Struct()[q..q + oldlen]
  {
    var p := im.offStruct + q;
    var b := Moved(im.bytes, p + newlen, p + oldlen, im.DataSize() - p - oldlen);
    assert Room(im, q, oldlen, newlen) == b[p..p + newlen] by {
      SplicedOthers(im, q, oldlen, newlen);
      StructSlice(StructSpliced(im, q, oldlen, newlen), q, newlen);
    }
    assert b[p..p + newlen][..oldlen] == b[p..p + oldlen] by {
      SliceOf(b, p, p + newlen, 0, oldlen);
    }
    StructSlice(im, q, oldlen);
    MovedSlice(im.bytes, p + newlen, p + oldlen, im.DataSize() - p - oldlen, p, p + oldlen);
  }

  /** When the room grows, the bytes that were there stay at its start. */
  lemma {:induction false} RoomKeeps(im: Image, a: Bytes, x: Bytes, c: Bytes, newlen: nat)
    requires Parts(im, a, x, c) && Fits(im, |a|, |x|, newlen) && |x| <= newlen
    ensures Room(im, |a|, |x|, newlen)[..|x|] == x
  {
    var q, n := |a|, |x|;
    assert im.Struct()[q..q + n] == x;
    SplicedKeeps(im, q, n, newlen);
  }

  // ---------------------------------------------------------------------------------------
  // Room that became a token
  // ---------------------------------------------------------------------------------------

  lemma {:induction false} PropBytes(x: Bytes, nameoff: nat, val: Bytes)
    requires nameoff < LIMIT32 && |val| < LIMIT31 && |x| == 12 + TagAlign(|val|)
    requires x[0..4] == Be32(FDT_PROP) && x[4..8] == Be32(|val|) && x[8..12] == Be32(nameoff)
    requires x[12..12 + |val|] == val
    ensures var t := Prop(nameoff, val, x[12 + |val|..]); t.Valid() && Encode(t) == x
  {
    var n := |val|;
    assert x == x[0..4] + x[4..8] + x[8..12] + x[12..12 + n] + x[12 + n..];
  }

  lemma {:induction false} PropWords(t: Token)
    requires t.Valid() && t.Prop?
    ensures var e := Encode(t);
            && e[0..4] == Be32(FDT_PROP) && e[4..8] == Be32(|t.val|) && e[8..12] == Be32(t.nameoff)
            && e[12..12 + |t.val|] == t.val
  {
  }

  /** The four writes that fill the room for a new property. */
  function NewProp(x: Bytes, nameoff: nat, val: Bytes): (r: Bytes)
    requires nameoff < LIMIT32 && |val| < LIMIT31 && |x| == 12 + TagAlign(|val|)
    ensures |r| == |x|
  {
    Put(Put(Put(Put(x, 0, Be32(FDT_PROP)), 8, Be32(nameoff)), 4, Be32(|val|)), 12, val)
  }

  /** Where the bytes of the four writes end up; w0, w1 and w2 are words. */
  lemma {:induction false} FourPuts(x: Bytes, w0: Bytes, w1: Bytes, w2: Bytes, val: Bytes)
    requires |w0| == |w1| == |w2| == 4 && 12 + |val| <= |x|
    ensures var r := Put(Put(Put(Put(x, 0, w0), 8, w2), 4, w1), 12, val);
            && r[0..4] == w0 && r[4..8] == w1 && r[8..12] == w2 && r[12..12 + |val|] == val
            && r[12 + |val|..] == x[12 + |val|..]
  {
    var n := |val|;
    var x1 := Put(x, 0, w0);
    var x2 := Put(x1, 8, w2);
    var x3 := Put(x2, 4, w1);
    var x4 := Put(x3, 12, val);
    assert x4[0..4] == w0 by {
      PutHere(x, 0, w0);
      PutKeeps(x1, 8, w2, 0, 4);
      PutKeeps(x2, 4, w1, 0, 4);
      PutKeeps(x3, 12, val, 0, 4);
    }
    assert x4[8..12] == w2 by {
      PutHere(x1, 8, w2);
      PutKeeps(x2, 4, w1, 8, 12);
      PutKeeps(x3, 12, val, 8, 12);
    }
    assert x4[4..8] == w1 by {
      PutHere(x2, 4, w1);
      PutKeeps(x3, 12, val, 4, 8);
    }
    assert x4[12 + n..|x|] == x[12 + n..|x|] by {
      PutKeeps(x, 0, w0, 12 + n, |x|);
      PutKeeps(x1, 8, w2, 12 + n, |x|);
      PutKeeps(x2, 4, w1, 12 + n, |x|);
      PutKeeps(x3, 12, val, 12 + n, |x|);
    }
    PutHere(x3, 12, val);
  }

  lemma {:induction false} NewPropToken(x: Bytes, nameoff: nat, val: Bytes)
    requires nameoff < LIMIT32 && |val| < LIMIT31 && |x| == 12 + TagAlign(|val|)
    ensures var t := Prop(nameoff, val, x[12 + |val|..]); t.Valid() && Encode(t) == NewProp(x, nameoff, val)
  {
    FourPuts(x, Be32(FDT_PROP), Be32(|val|), Be32(nameoff), val);
    PropBytes(NewProp(x, nameoff, val), nameoff, val);
  }

  /** Twelve bytes of header and some room, after writing a length word and data at offset d of the room. */
  lemma {:induction false} TwoPutsHeader(h: Bytes, room: Bytes, w: Bytes, d: nat, data: Bytes)
    requires |h| == 12 && |w| == 4 && d + |data| <= |room|
    ensures var r := Put(Put(h + room, 4, w), 12 + d, data);
            r[0..4] == h[0..4] && r[4..8] == w && r[8..12] == h[8..12]
  {
    var x := h + room;
    var x1 := Put(x, 4, w);
    assert x1[0..4] == h[0..4] by {
      PutKeeps(x, 4, w, 0, 4);
    }
    assert x1[8..12] == h[8..12] by {
      PutKeeps(x, 4, w, 8, 12);
    }
    PutHere(x, 4, w);
    PutKeeps(x1, 12 + d, data, 0, 4);
    PutKeeps(x1, 12 + d, data, 4, 8);
    PutKeeps(x1, 12 + d, data, 8, 12);
  }

  lemma {:induction false} TwoPutsValue(h: Bytes, room: Bytes, w: Bytes, d: nat, data: Bytes)
    requires |h| == 12 && |w| == 4 && d + |data| <= |room|
    ensures var r := Put(Put(h + room, 4, w), 12 + d, data);
            r[12..12 + d + |data|] == room[..d] + data && r[12 + d + |data|..] == room[d + |data|..]
  {
    var x, n := h + room, d + |data|;
    var x1 := Put(x, 4, w);
    assert x1[12..12 + d] == room[..d] by {
      PutKeeps(x, 4, w, 12, 12 + d);
    }
    assert x1[12 + n..|x|] == room[n..] by {
      PutKeeps(x, 4, w, 12 + n, |x|);
    }
    PutValue(x1, d, data);
  }

  lemma {:induction false} PutValue(x: Bytes, d: nat, data: Bytes)
    requires 12 + d + |data| <= |x|
    ensures var r := Put(x, 12 + d, data);
            r[12..12 + d + |data|] == x[12..12 + d] + data && r[12 + d + |data|..] == x[12 + d + |data|..|x|]
  {
    var r, n := Put(x, 12 + d, data), d + |data|;
    PutKeeps(x, 12 + d, data, 12, 12 + d);
    PutKeeps(x, 12 + d, data, 12 + n, |x|);
    PutHere(x, 12 + d, data);
    assert r[12..12 + n] == r[12..12 + d] + r[12 + d..12 + n];
  }

  /** A property whose data was resized to the given room, then got its length word and `data` at offset d. */
  lemma {:induction false} ResizedPropToken(t: Token, room: Bytes, d: nat, data: Bytes)
    requires t.Valid() && t.Prop? && d + |data| < LIMIT31 && |room| == TagAlign(d + |data|)
    requires d <= |t.val| && room[..d] == t.val[..d]
    ensures var val := t.val[..d] + data;
            var u := Prop(t.nameoff, val, room[|val|..]);
            u.Valid() && Encode(u) == Put(Put(Encode(t)[..12] + room, 4, Be32(|val|)), 12 + d, data)
  {
    PropWords(t);
    var h := Encode(t)[..12];
    var val := t.val[..d] + data;
    TwoPutsHeader(h, room, Be32(|val|), d, data);
    TwoPutsValue(h, room, Be32(|val|), d, data);
    PropBytes(Put(Put(h + room, 4, Be32(|val|)), 12 + d, data), t.nameoff, val);
  }

  function Zeros(n: nat): (r: Bytes)
    ensures |r| == n
  {
    seq(n, _ => 0 as Byte)
  }

  /** The four writes that fill the room for a new node without properties. */
  function NewNode(x: Bytes, name: Bytes): (r: Bytes)
    requires |x| == 8 + TagAlign(|name| + 1)
  {
    var z := TagAlign(|name| + 1);
    Put(Put(Put(Put(x, 0, Be32(FDT_BEGIN_NODE)), 4, Zeros(z)), 4, name), 4 + z, Be32(FDT_END_NODE))
  }

  /** What is left of the zeros behind the name. */
  lemma {:induction false} NodeZeros(x: Bytes, zs: Bytes, name: Bytes)
    requires 4 + |zs| <= |x| && |name| <= |zs|
    ensures Put(Put(x, 4, zs), 4, name)[4 + |name|..4 + |zs|] == zs[|name|..]
  {
    var n, z, y := |name|, |zs|, Put(x, 4, zs);
    PutHere(x, 4, zs);
    PutKeeps(y, 4, name, 4 + n, 4 + z);
    SliceOf(y, 4, 4 + z, n, z);
  }

  lemma {:induction false} NodePuts(x: Bytes, w0: Bytes, zs: Bytes, name: Bytes, w1: Bytes)
    requires |w0| == |w1| == 4 && |x| == 8 + |zs| && |name| <= |zs|
    ensures var n, z := |name|, |zs|;
            var r := Put(Put(Put(Put(x, 0, w0), 4, zs), 4, name), 4 + z, w1);
            && r[0..4] == w0 && r[4..4 + n] == name && r[4 + n..4 + z] == zs[n..] && r[4 + z..8 + z] == w1
  {
    var n, z := |name|, |zs|;
    var x1 := Put(x, 0, w0);
    var x2 := Put(x1, 4, zs);
    var x3 := Put(x2, 4, name);
    var x4 := Put(x3, 4 + z, w1);
    assert x4[0..4] == w0 by {
      PutHere(x, 0, w0);
      PutKeeps(x1, 4, zs, 0, 4);
      PutKeeps(x2, 4, name, 0, 4);
      PutKeeps(x3, 4 + z, w1, 0, 4);
    }
    assert x4[4..4 + n] == name by {
      PutHere(x2, 4, name);
      PutKeeps(x3, 4 + z, w1, 4, 4 + n);
    }
    assert x4[4 + n..4 + z] == zs[n..] by {
      NodeZeros(x1, zs, name);
      PutKeeps(x3, 4 + z, w1, 4 + n, 4 + z);
    }
    assert x4[4 + z..8 + z] == w1 by {
      PutHere(x3, 4 + z, w1);
    }
  }

  lemma {:induction false} NewNodeTokens(x: Bytes, name: Bytes)
    requires |x| == 8 + TagAlign(|name| + 1) && 0 !in name
    ensures var t := Begin(name, Zeros(TagAlign(|name| + 1) - |name| - 1));
            t.Valid() && NewNode(x, name) == Encode(t) + Encode(End)
  {
    var n, z := |name|, TagAlign(|name| + 1);
    NodePuts(x, Be32(FDT_BEGIN_NODE), Zeros(z), name, Be32(FDT_END_NODE));
    assert Zeros(z)[n..] == [0] + Zeros(z - n - 1);
    NodeBytes(NewNode(x, name), name, z);
  }

  lemma {:induction false} NodeBytes(x: Bytes, name: Bytes, z: nat)
    requires z == TagAlign(|name| + 1) && |x| == 8 + z && 0 !in name
    requires x[0..4] == Be32(FDT_BEGIN_NODE) && x[4..4 + |name|] == name
    requires x[4 + |name|..4 + z] == [0] + Zeros(z - |name| - 1) && x[4 + z..8 + z] == Be32(FDT_END_NODE)
    ensures var t := Begin(name, Zeros(z - |name| - 1)); t.Valid() && x == Encode(t) + Encode(End)
  {
    var n := |name|;
    assert x == x[0..4] + x[4..4 + n] + x[4 + n..4 + z] + x[4 + z..8 + z];
    assert Be32(FDT_BEGIN_NODE) + name + ([0] + Zeros(z - n - 1)) ==
           Be32(FDT_BEGIN_NODE) + name + [0] + Zeros(z - n - 1);
  }
}
