/**
  The flattened device tree structure block: bytes, and the tokens they encode (chapter 5.4 of
  the Devicetree Specification v0.4). Padding bytes are part of a token because editing in place
  leaves arbitrary bytes there.
  */
module FdtFormat {
  import opened Options

  newtype Byte = x: int | 0 <= x < 256
  type Bytes = seq<Byte>

  const FDT_BEGIN_NODE: nat := 1
  const FDT_END_NODE: nat := 2
  const FDT_PROP: nat := 3
  const FDT_NOP: nat := 4
  const FDT_END: nat := 9

  const LIMIT32: nat := 0x1_0000_0000
  /** Sizes and offsets stay below 2^31. */
  const LIMIT31: nat := 0x8000_0000

  // ---------------------------------------------------------------------------------------
  // Words
  // ---------------------------------------------------------------------------------------

  function Be32(n: nat): (r: Bytes)
    requires n < LIMIT32
    ensures |r| == 4
  {
    [(n / 0x100_0000) as Byte, (n / 0x1_0000 % 256) as Byte, (n / 0x100 % 256) as Byte, (n % 256) as Byte]
  }

  /** The big-endian word at offset o. */
  function Word(b: Bytes, o: nat): (r: nat)
    requires o + 4 <= |b|
    ensures r < LIMIT32
  {
    b[o] as nat * 0x100_0000 + b[o + 1] as nat * 0x1_0000 + b[o + 2] as nat * 0x100 + b[o + 3] as nat
  }

  lemma {:induction false} DigitsOf(n: nat)
    requires n < LIMIT32
    ensures n / 0x100_0000 * 0x100_0000 + n / 0x1_0000 % 256 * 0x1_0000 + n / 0x100 % 256 * 0x100 + n % 256 == n
  {
    assert n / 0x100_0000 == n / 0x1_0000 / 256;
    assert n / 0x1_0000 == n / 0x100 / 256;
  }

  lemma {:induction false} WordOfBe32(b: Bytes, o: nat, n: nat)
    requires n < LIMIT32 && o + 4 <= |b| && b[o..o + 4] == Be32(n)
    ensures Word(b, o) == n
  {
    DigitsOf(n);
    var w := b[o..o + 4];
    assert b[o] == w[0] && b[o + 1] == w[1] && b[o + 2] == w[2] && b[o + 3] == w[3];
  }

  /** Rounds up to a multiple of the tag size. */
  function TagAlign(x: nat): (r: nat)
    ensures r % 4 == 0 && x <= r < x + 4
  {
    (x + 3) / 4 * 4
  }

  // ---------------------------------------------------------------------------------------
  // Tokens
  // ---------------------------------------------------------------------------------------

  datatype Token =
    | Begin(name: Bytes, pad: Bytes)
    | Prop(nameoff: nat, val: Bytes, pad: Bytes)
    | End
    | Nop
    | Finish
  {
    predicate Valid() {
      match this
      case Begin(name, pad) => 0 !in name && |name| + 1 + |pad| == TagAlign(|name| + 1)
      case Prop(nameoff, val, pad) => nameoff < LIMIT32 && |val| < LIMIT31 && |val| + |pad| == TagAlign(|val|)
      case _ => true
    }

    /** The number of bytes the token takes. */
    function Size(): nat {
      match this
      case Begin(name, pad) => 4 + |name| + 1 + |pad|
      case Prop(_, val, pad) => 12 + |val| + |pad|
      case _ => 4
    }

    function Tag(): nat {
      match this
      case Begin(_, _) => FDT_BEGIN_NODE
      case Prop(_, _, _) => FDT_PROP
      case End => FDT_END_NODE
      case Nop => FDT_NOP
      case Finish => FDT_END
    }
  }

  function Encode(t: Token): (r: Bytes)
    requires t.Valid()
    ensures |r| == t.Size()
  {
    match t
    case Begin(name, pad) => Be32(FDT_BEGIN_NODE) + name + [0] + pad
    case Prop(nameoff, val, pad) => Be32(FDT_PROP) + Be32(|val|) + Be32(nameoff) + val + pad
    case End => Be32(FDT_END_NODE)
    case Nop => Be32(FDT_NOP)
    case Finish => Be32(FDT_END)
  }

  predicate ValidTokens(ts: seq<Token>) {
    forall i :: 0 <= i < |ts| ==> ts[i].Valid()
  }

  function Concat(parts: seq<Bytes>): Bytes {
    if parts == [] then [] else parts[0] + Concat(parts[1..])
  }

  lemma {:induction false} ConcatAppend(a: seq<Bytes>, b: seq<Bytes>)
    ensures Concat(a + b) == Concat(a) + Concat(b)
  {
    if a == [] {
      assert a + b == b;
    } else {
      ConcatAppend(a[1..], b);
      assert (a + b)[1..] == a[1..] + b && (a + b)[0] == a[0];
      assert a[0] + (Concat(a[1..]) + Concat(b)) == (a[0] + Concat(a[1..])) + Concat(b);
    }
  }

  lemma {:induction false} ConcatPush(a: seq<Bytes>, x: Bytes)
    ensures Concat(a + [x]) == Concat(a) + x
  {
    ConcatAppend(a, [x]);
    assert Concat([x]) == x + Concat([]);
  }

  lemma {:induction false} ConcatAround(a: seq<Bytes>, x: Bytes, c: seq<Bytes>)
    ensures Concat(a + [x] + c) == Concat(a) + x + Concat(c)
  {
    ConcatAppend(a + [x], c);
    ConcatPush(a, x);
  }

  lemma {:induction false} ConcatAt(parts: seq<Bytes>, k: nat)
    requires k < |parts|
    ensures Concat(parts) == Concat(parts[..k]) + parts[k] + Concat(parts[k + 1..])
    ensures Concat(parts[..k + 1]) == Concat(parts[..k]) + parts[k]
  {
    assert parts == parts[..k] + [parts[k]] + parts[k + 1..];
    ConcatAround(parts[..k], parts[k], parts[k + 1..]);
    assert parts[..k + 1] == parts[..k] + [parts[k]];
    ConcatPush(parts[..k], parts[k]);
  }

  function EncodeAll(ts: seq<Token>): (r: seq<Bytes>)
    requires ValidTokens(ts)
    ensures |r| == |ts|
  {
    seq(|ts|, i requires 0 <= i < |ts| => Encode(ts[i]))
  }

  /** The structure block that a token sequence encodes. */
  function Flat(ts: seq<Token>): Bytes
    requires ValidTokens(ts)
  {
    Concat(EncodeAll(ts))
  }

  lemma {:induction false} FlatAppend(a: seq<Token>, b: seq<Token>)
    requires ValidTokens(a) && ValidTokens(b)
    ensures ValidTokens(a + b) && Flat(a + b) == Flat(a) + Flat(b)
  {
    assert EncodeAll(a + b) == EncodeAll(a) + EncodeAll(b);
    ConcatAppend(EncodeAll(a), EncodeAll(b));
  }

  /** The offset of token k. */
  function Off(ts: seq<Token>, k: nat): nat
    requires ValidTokens(ts) && k <= |ts|
  {
    |Flat(ts[..k])|
  }

  /** The block around token k: what precedes it, its own bytes, what follows. */
  lemma {:induction false} FlatAt(ts: seq<Token>, k: nat)
    requires ValidTokens(ts) && k < |ts|
    ensures Flat(ts) == Flat(ts[..k]) + Encode(ts[k]) + Flat(ts[k + 1..])
    ensures Off(ts, k + 1) == Off(ts, k) + ts[k].Size()
  {
    var parts := EncodeAll(ts);
    assert EncodeAll(ts[..k]) == parts[..k];
    assert EncodeAll(ts[..k + 1]) == parts[..k + 1];
    assert EncodeAll(ts[k + 1..]) == parts[k + 1..];
    ConcatAt(parts, k);
  }

  lemma {:induction false} SizeAligned(t: Token)
    requires t.Valid()
    ensures t.Size() % 4 == 0
  {
  }

  lemma {:induction false} ConcatAligned(parts: seq<Bytes>)
    requires forall i :: 0 <= i < |parts| ==> |parts[i]| % 4 == 0
    ensures |Concat(parts)| % 4 == 0
  {
    if parts != [] {
      ConcatAligned(parts[1..]);
      assert |parts[0]| % 4 == 0;
    }
  }

  lemma {:induction false} FlatAligned(ts: seq<Token>)
    requires ValidTokens(ts)
    ensures |Flat(ts)| % 4 == 0
  {
    forall i | 0 <= i < |ts|
      ensures |EncodeAll(ts)[i]| % 4 == 0
    {
      SizeAligned(ts[i]);
    }
    ConcatAligned(EncodeAll(ts));
  }

  // ---------------------------------------------------------------------------------------
  // Reading one token
  // ---------------------------------------------------------------------------------------

  /** The first zero byte from o on, or the end of the block. */
  function ZeroFrom(b: Bytes, o: nat): (z: nat)
    requires o <= |b|
    ensures o <= z <= |b| && (z < |b| ==> b[z] == 0)
    ensures forall i :: o <= i < z ==> b[i] != 0
    decreases |b| - o
  {
    if o == |b| || b[o] == 0 then o else ZeroFrom(b, o + 1)
  }

  /** Where the token that starts at o with the given tag ends, before alignment. */
  function TokenEnd(b: Bytes, o: nat, tag: nat): Option<nat>
    requires o + 4 <= |b|
  {
    if tag == FDT_BEGIN_NODE then
      var z := ZeroFrom(b, o + 4);
      if z == |b| then None else Some(z + 1)
    else if tag == FDT_PROP then
      if o + 8 > |b| then None else Some(o + 12 + Word(b, o + 4))
    else if tag == FDT_END || tag == FDT_END_NODE || tag == FDT_NOP then Some(o + 4)
    else None
  }

  /**
    The tag at offset o of a structure block and the offset of the next tag; None when the block
    ends too early or the tag is unknown.
    */
  function NextTag(b: Bytes, o: nat): Option<(nat, nat)> {
    if o + 4 > |b| then None
    else
      var tag := Word(b, o);
      match TokenEnd(b, o, tag)
      case None => None
      case Some(e) => if e > |b| then None else Some((tag, TagAlign(e)))
  }

  /** Reads one tag with the byte-by-byte search for the end of a node name. */
  method ReadTag(b: Bytes, o: nat) returns (r: Option<(nat, nat)>)
    ensures r == NextTag(b, o)
  {
    if o + 4 > |b| {
      return None;
    }
    var tag := Word(b, o);
    var e := o + 4;
    if tag == FDT_BEGIN_NODE {
      while e < |b| && b[e] != 0
        invariant o + 4 <= e <= |b|
        invariant ZeroFrom(b, o + 4) == ZeroFrom(b, e)
      {
        e := e + 1;
      }
      if e == |b| {
        return None;
      }
      e := e + 1;
    } else if tag == FDT_PROP {
      if o + 8 > |b| {
        return None;
      }
      e := o + 12 + Word(b, o + 4);
    } else if tag != FDT_END && tag != FDT_END_NODE && tag != FDT_NOP {
      return None;
    }
    if e > |b| {
      return None;
    }
    return Some((tag, TagAlign(e)));
  }

  lemma {:induction false} WordMid(a: Bytes, e: Bytes, c: Bytes, j: nat)
    requires j + 4 <= |e|
    ensures Word(a + e + c, |a| + j) == Word(e, j)
  {
  }

  lemma {:induction false} ZeroIs(b: Bytes, o: nat, z: nat)
    requires o <= z < |b| && b[z] == 0 && forall i :: o <= i < z ==> b[i] != 0
    ensures ZeroFrom(b, o) == z
  {
  }

  lemma {:induction false} EncodedTag(t: Token)
    requires t.Valid()
    ensures Word(Encode(t), 0) == t.Tag()
  {
    assert Encode(t)[0..4] == Be32(t.Tag());
    WordOfBe32(Encode(t), 0, t.Tag());
  }

  lemma {:induction false} EncodedProp(t: Token)
    requires t.Valid() && t.Prop?
    ensures Word(Encode(t), 4) == |t.val| && Word(Encode(t), 8) == t.nameoff
    ensures Encode(t)[12..12 + |t.val|] == t.val
  {
    assert Encode(t)[4..8] == Be32(|t.val|);
    WordOfBe32(Encode(t), 4, |t.val|);
    assert Encode(t)[8..12] == Be32(t.nameoff);
    WordOfBe32(Encode(t), 8, t.nameoff);
  }

  lemma {:induction false} EncodedBegin(t: Token)
    requires t.Valid() && t.Begin?
    ensures var n := |t.name|; Encode(t)[4..4 + n] == t.name && Encode(t)[4 + n] == 0
    ensures forall i :: 4 <= i < 4 + |t.name| ==> Encode(t)[i] != 0
  {
    forall i | 4 <= i < 4 + |t.name|
      ensures Encode(t)[i] != 0
    {
      assert Encode(t)[i] == t.name[i - 4];
      assert t.name[i - 4] in t.name;
    }
  }

  lemma {:induction false} AlignSum(o: nat, x: nat)
    requires o % 4 == 0
    ensures TagAlign(o + x) == o + TagAlign(x)
  {
  }

  /** A name of n bytes that starts at byte 4 of e ends where the search for a zero byte stops. */
  lemma {:induction false} NameEnd(a: Bytes, e: Bytes, c: Bytes, n: nat)
    requires 4 + n < |e| && e[4 + n] == 0 && forall i :: 4 <= i < 4 + n ==> e[i] != 0
    ensures ZeroFrom(a + e + c, |a| + 4) == |a| + 4 + n
  {
    var b := a + e + c;
    forall i | |a| + 4 <= i < |a| + 4 + n
      ensures b[i] != 0
    {
      assert b[i] == e[i - |a|];
    }
    assert b[|a| + 4 + n] == e[4 + n];
    ZeroIs(b, |a| + 4, |a| + 4 + n);
  }

  lemma {:induction false} ReadsBeginRaw(a: Bytes, e: Bytes, c: Bytes, n: nat)
    requires |a| % 4 == 0 && 4 + TagAlign(n + 1) == |e|
    requires Word(a + e + c, |a|) == FDT_BEGIN_NODE && ZeroFrom(a + e + c, |a| + 4) == |a| + 4 + n
    ensures NextTag(a + e + c, |a|) == Some((FDT_BEGIN_NODE, |a| + |e|))
  {
    AlignSum(|a| + 4, n + 1);
  }

  lemma {:induction false} ReadsBegin(a: Bytes, t: Token, c: Bytes)
    requires t.Valid() && t.Begin? && |a| % 4 == 0
    ensures NextTag(a + Encode(t) + c, |a|) == Some((t.Tag(), |a| + t.Size()))
  {
    EncodedTag(t);
    WordMid(a, Encode(t), c, 0);
    EncodedBegin(t);
    NameEnd(a, Encode(t), c, |t.name|);
    ReadsBeginRaw(a, Encode(t), c, |t.name|);
  }

  lemma {:induction false} ReadsProp(a: Bytes, t: Token, c: Bytes)
    requires t.Valid() && t.Prop? && |a| % 4 == 0
    ensures NextTag(a + Encode(t) + c, |a|) == Some((t.Tag(), |a| + t.Size()))
  {
    EncodedTag(t);
    WordMid(a, Encode(t), c, 0);
    EncodedProp(t);
    WordMid(a, Encode(t), c, 4);
    AlignSum(|a| + 12, |t.val|);
  }

  lemma {:induction false} ReadsOther(a: Bytes, t: Token, c: Bytes)
    requires t.Valid() && !t.Prop? && !t.Begin? && |a| % 4 == 0
    ensures NextTag(a + Encode(t) + c, |a|) == Some((t.Tag(), |a| + t.Size()))
  {
    EncodedTag(t);
    WordMid(a, Encode(t), c, 0);
    AlignSum(|a| + 4, 0);
  }

  lemma {:induction false} ReadsToken(a: Bytes, t: Token, c: Bytes, b: Bytes, o: nat, next: nat)
    requires t.Valid() && |a| % 4 == 0 && b == a + Encode(t) + c && o == |a| && next == o + t.Size()
    ensures NextTag(b, o) == Some((t.Tag(), next))
  {
    if t.Begin? {
      ReadsBegin(a, t, c);
    } else if t.Prop? {
      ReadsProp(a, t, c);
    } else {
      ReadsOther(a, t, c);
    }
  }

  /** Reading at the offset of token k returns its tag and the offset of token k + 1. */
  lemma {:induction false} NextTagReads(ts: seq<Token>, k: nat)
    requires ValidTokens(ts) && k < |ts|
    ensures NextTag(Flat(ts), Off(ts, k)) == Some((ts[k].Tag(), Off(ts, k + 1)))
  {
    FlatAt(ts, k);
    FlatAligned(ts[..k]);
    ReadsToken(Flat(ts[..k]), ts[k], Flat(ts[k + 1..]), Flat(ts), Off(ts, k), Off(ts, k + 1));
  }

  lemma {:induction false} SliceMid(a: Bytes, e: Bytes, c: Bytes, i: nat, j: nat)
    requires i <= j <= |e|
    ensures (a + e + c)[|a| + i..|a| + j] == e[i..j]
  {
  }

  lemma {:induction false} NameMid(a: Bytes, t: Token, c: Bytes)
    requires t.Valid() && t.Begin?
    ensures var b, o, n := a + Encode(t) + c, |a|, |t.name|;
            o + 4 + n < |b| && b[o + 4..o + 4 + n] == t.name && ZeroFrom(b, o + 4) == o + 4 + n
  {
    EncodedBegin(t);
    NameEnd(a, Encode(t), c, |t.name|);
    SliceMid(a, Encode(t), c, 4, 4 + |t.name|);
  }

  /** The name of a Begin token as it lies in the block. */
  lemma {:induction false} NameReads(ts: seq<Token>, k: nat)
    requires ValidTokens(ts) && k < |ts| && ts[k].Begin?
    ensures var o, n := Off(ts, k), |ts[k].name|;
            && o + 4 + n < |Flat(ts)| && Flat(ts)[o + 4..o + 4 + n] == ts[k].name
            && ZeroFrom(Flat(ts), o + 4) == o + 4 + n
  {
    FlatAt(ts, k);
    NameMid(Flat(ts[..k]), ts[k], Flat(ts[k + 1..]));
  }

  lemma {:induction false} PropMid(a: Bytes, t: Token, c: Bytes)
    requires t.Valid() && t.Prop?
    ensures var b, o, n := a + Encode(t) + c, |a|, |t.val|;
            o + 12 + n <= |b| && Word(b, o + 4) == n && Word(b, o + 8) == t.nameoff && b[o + 12..o + 12 + n] == t.val
  {
    EncodedProp(t);
    WordMid(a, Encode(t), c, 4);
    WordMid(a, Encode(t), c, 8);
    SliceMid(a, Encode(t), c, 12, 12 + |t.val|);
  }

  /** Length, name offset and value of a Prop token as they lie in the block. */
  lemma {:induction false} PropReads(ts: seq<Token>, k: nat)
    requires ValidTokens(ts) && k < |ts| && ts[k].Prop?
    ensures var o, n := Off(ts, k), |ts[k].val|;
            && o + 12 + n <= |Flat(ts)| && Word(Flat(ts), o + 4) == n && Word(Flat(ts), o + 8) == ts[k].nameoff
            && Flat(ts)[o + 12..o + 12 + n] == ts[k].val
  {
    FlatAt(ts, k);
    PropMid(Flat(ts[..k]), ts[k], Flat(ts[k + 1..]));
  }

  /** The bytes of a text. */
  function Ascii(s: string): (r: Bytes)
    requires forall i :: 0 <= i < |s| ==> s[i] < 128 as char
    ensures |r| == |s| && forall i :: 0 <= i < |s| ==> r[i] as int == s[i] as int
  {
    seq(|s|, i requires 0 <= i < |s| => s[i] as int as Byte)
  }

  /** Words and tokens byte by byte, as chapter 5 of the Devicetree Specification lays them out. */
  lemma {:induction false} KnownBytes()
    ensures Be32(0x1234_5678) == [0x12, 0x34, 0x56, 0x78] && Word([0x12, 0x34, 0x56, 0x78], 0) == 0x1234_5678
    ensures Begin([0x61], [0, 0]).Valid() && Encode(Begin([0x61], [0, 0])) == [0, 0, 0, 1, 0x61, 0, 0, 0]
    ensures Prop(5, [7, 8], [0, 0]).Valid()
            && Encode(Prop(5, [7, 8], [0, 0])) == [0, 0, 0, 3, 0, 0, 0, 2, 0, 0, 0, 5, 7, 8, 0, 0]
    ensures Encode(End) == [0, 0, 0, 2] && Encode(Nop) == [0, 0, 0, 4] && Encode(Finish) == [0, 0, 0, 9]
  {
  }
}
