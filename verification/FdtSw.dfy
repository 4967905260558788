/**
  Writing a blob sequentially: the structure block grows upwards from the front of the buffer, the
  strings block downwards from its end, and name offsets count back from the end until the blob is
  finished.
  */
module FdtSw {
  import opened Options
  import opened FdtFormat
  import opened FdtTree
  import opened FdtRead
  import opened FdtBlob
  import opened FdtChunk
  import opened FdtEdit
  import opened FdtRw
  import Ops = FdtOps

  /** What a call returns; Astray stands for a write that leaves the buffer, about which nothing is said. */
  datatype Status = Fine | NoRoom | BadState | BadFlags | Astray

  /** What the caller asked for. */
  datatype Call = Open(name: Bytes) | Property(name: Bytes, val: Bytes) | Close

  // ---------------------------------------------------------------------------------------
  // The two ends of the buffer
  // ---------------------------------------------------------------------------------------

  /** Room behind the structure block, taken by it. */
  function Grabbed(im: Image, len: nat): Image {
    im.(sizeStruct := im.sizeStruct + len)
  }

  lemma {:induction false} GrabbedParts(im: Image, len: nat) returns (room: Bytes)
    requires im.Ordered() && im.offStruct + im.sizeStruct + len <= im.offStrings
    ensures |room| == len && Parts(Grabbed(im, len), im.Struct(), room, []) && SameRest(im, Grabbed(im, len))
  {
    var r, p := Grabbed(im, len), im.offStruct + im.sizeStruct;
    room := im.bytes[p..p + len];
    assert r.Struct() == im.Struct() + room;
  }

  /** A string put in front of the strings block, inside the free space. */
  function StringPushed(im: Image, s: Bytes): Image
    requires im.Ordered() && im.offStruct + im.sizeStruct + |s| <= im.offStrings
  {
    im.(bytes := Written(im.bytes, im.offStrings - |s|, s), offStrings := im.offStrings - |s|,
      sizeStrings := im.sizeStrings + |s|)
  }

  lemma {:induction false} PushedBlocks(im: Image, s: Bytes)
    requires im.Ordered() && im.offStruct + im.sizeStruct + |s| <= im.offStrings
    ensures var r := StringPushed(im, s);
            r.Ordered() && r.Struct() == im.Struct() && r.Reserved() == im.Reserved() && r.Strings() == s + im.Strings()
  {
    var p, r := im.offStrings - |s|, StringPushed(im, s);
    assert r.Reserved() == im.Reserved() by {
      WrittenSlice(im.bytes, p, s, im.offRsv, im.offStruct);
    }
    assert r.Struct() == im.Struct() by {
      WrittenSlice(im.bytes, p, s, im.offStruct, im.offStruct + im.sizeStruct);
    }
    assert r.Strings() == s + im.Strings() by {
      WrittenInside(im.bytes, p, s, p, im.offStrings + im.sizeStrings);
      assert im.bytes[p..p] == [];
    }
  }

  // ---------------------------------------------------------------------------------------
  // Tokens and the calls that wrote them
  // ---------------------------------------------------------------------------------------

  /** The token says what the call asked for; a name offset counts back from the end of the strings, modulo 2^32. */
  ghost predicate Says(t: Token, c: Call, strs: Bytes) {
    match c
    case Open(name) => t.Begin? && t.name == name
    case Close => t.End?
    case Property(name, val) =>
      && t.Prop? && t.val == val && LIMIT32 - |strs| <= t.nameoff < LIMIT32
      && StringAt(strs, t.nameoff - (LIMIT32 - |strs|)) == Some(name)
  }

  /** The same with name offsets that count from the start of the strings. */
  ghost predicate Shows(t: Token, c: Call, strs: Bytes) {
    match c
    case Open(name) => t.Begin? && t.name == name
    case Close => t.End?
    case Property(name, val) =>
      t.Prop? && t.val == val && t.nameoff < LIMIT32 && StringAt(strs, t.nameoff) == Some(name)
  }

  ghost predicate AllSay(ts: seq<Token>, calls: seq<Call>, strs: Bytes) {
    |ts| == |calls| && |strs| < LIMIT31 && forall i :: 0 <= i < |ts| ==> Says(ts[i], calls[i], strs)
  }

  ghost predicate AllShow(ts: seq<Token>, calls: seq<Call>, strs: Bytes) {
    |ts| == |calls| && forall i :: 0 <= i < |ts| ==> Shows(ts[i], calls[i], strs)
  }

  lemma {:induction false} PushedString(s: Bytes, strs: Bytes, off: nat)
    requires StringAt(strs, off).Some?
    ensures StringAt(s + strs, |s| + off) == StringAt(strs, off)
  {
    var z := ZeroFrom(strs, off);
    forall i | |s| + off <= i < |s| + z
      ensures (s + strs)[i] != 0
    {
      assert (s + strs)[i] == strs[i - |s|];
    }
    ZeroIs(s + strs, |s| + off, |s| + z);
    SameSeq((s + strs)[|s| + off..|s| + z], strs[off..z]);
  }

  /** What was said stays said when strings are pushed in front. */
  lemma {:induction false} StillSays(ts: seq<Token>, calls: seq<Call>, s: Bytes, strs: Bytes)
    requires AllSay(ts, calls, strs) && |s| + |strs| < LIMIT31
    ensures AllSay(ts, calls, s + strs)
  {
    forall i | 0 <= i < |ts|
      ensures Says(ts[i], calls[i], s + strs)
    {
      assert Says(ts[i], calls[i], strs);
      if calls[i].Property? {
        PushedString(s, strs, ts[i].nameoff - (LIMIT32 - |strs|));
      }
    }
  }

  lemma {:induction false} SaysOneMore(ts: seq<Token>, calls: seq<Call>, strs: Bytes, t: Token, c: Call)
    requires AllSay(ts, calls, strs) && Says(t, c, strs)
    ensures AllSay(ts + [t], calls + [c], strs)
  {
  }

  /** Adding the size of the strings to a name offset, modulo 2^32, makes it count from the start. */
  function Fixed(t: Token, size: nat): Token {
    if t.Prop? then t.(nameoff := (t.nameoff + size) % LIMIT32) else t
  }

  function FixedAll(ts: seq<Token>, size: nat): (r: seq<Token>)
    ensures |r| == |ts|
  {
    seq(|ts|, i requires 0 <= i < |ts| => Fixed(ts[i], size))
  }

  lemma {:induction false} FixedShows(ts: seq<Token>, calls: seq<Call>, strs: Bytes)
    requires AllSay(ts, calls, strs)
    ensures AllShow(FixedAll(ts, |strs|), calls, strs)
  {
    forall i | 0 <= i < |ts|
      ensures Shows(FixedAll(ts, |strs|)[i], calls[i], strs)
    {
      assert Says(ts[i], calls[i], strs);
      assert FixedAll(ts, |strs|)[i] == Fixed(ts[i], |strs|);
    }
  }

  lemma {:induction false} FixedBytes(t: Token, size: nat)
    requires t.Valid() && t.Prop?
    ensures Fixed(t, size).Valid() && Encode(Fixed(t, size)) == Put(Encode(t), 8, Be32((t.nameoff + size) % LIMIT32))
  {
    var off := (t.nameoff + size) % LIMIT32;
    RenamedBytes(t, off);
  }

  /** A property with another name offset. */
  lemma {:induction false} RenamedBytes(t: Token, off: nat)
    requires t.Valid() && t.Prop? && off < LIMIT32
    ensures t.(nameoff := off).Valid() && Encode(t.(nameoff := off)) == Put(Encode(t), 8, Be32(off))
  {
    var x, w, n := Encode(t), Be32(off), |t.val|;
    var y := Put(x, 8, w);
    PropWords(t);
    assert y[0..4] == Be32(FDT_PROP) by {
      PutKeeps(x, 8, w, 0, 4);
    }
    assert y[4..8] == Be32(n) by {
      PutKeeps(x, 8, w, 4, 8);
    }
    assert y[8..12] == w by {
      PutHere(x, 8, w);
    }
    assert y[12..12 + n] == t.val by {
      PutKeeps(x, 8, w, 12, 12 + n);
    }
    assert y[12 + n..] == t.pad by {
      PutKeeps(x, 8, w, 12 + n, |x|);
      assert x[12 + n..] == t.pad;
    }
    PropBytes(y, off, t.val);
  }

  // ---------------------------------------------------------------------------------------
  // Room that became a token
  // ---------------------------------------------------------------------------------------

  lemma {:induction false} BeginBytes(x: Bytes, name: Bytes)
    requires 0 !in name && |x| == 4 + TagAlign(|name| + 1)
    ensures var t := Begin(name, x[4 + |name| + 1..]);
            t.Valid() && Encode(t) == Put(Put(x, 0, Be32(FDT_BEGIN_NODE)), 4, name + [0])
  {
    var n, w := |name|, Be32(FDT_BEGIN_NODE);
    BeginPuts(x, w, name + [0]);
    assert w + (name + [0]) + x[4 + n + 1..] == w + name + [0] + x[4 + n + 1..];
  }

  lemma {:induction false} BeginPuts(x: Bytes, w: Bytes, s: Bytes)
    requires |w| == 4 && 4 + |s| <= |x|
    ensures Put(Put(x, 0, w), 4, s) == w + s + x[4 + |s|..]
  {
    var x1 := Put(x, 0, w);
    assert x1 == w + x[4..];
    assert x1[4 + |s|..] == x[4 + |s|..];
  }

  lemma {:induction false} WordRoom(x: Bytes, w: Bytes)
    requires |x| == |w|
    ensures Put(x, 0, w) == w
  {
  }

  /** The image after a token was written into room at the end of the structure block. */
  lemma {:induction false} TokenAppended(im: Image, r: Image, ts: seq<Token>, t: Token, y: Bytes)
    requires im.Ordered() && ValidTokens(ts) && im.Struct() == Flat(ts) && t.Valid()
    requires Parts(r, im.Struct(), y, []) && y == Encode(t)
    ensures ValidTokens(ts + [t]) && r.Struct() == Flat(ts + [t])
  {
    FlatOne(t);
    FlatAppend(ts, [t]);
    assert im.Struct() + y + [] == im.Struct() + y;
  }

  lemma {:induction false} EndedReservations(b: Bytes, i: nat, p: nat, data: Bytes)
    requires i <= p && p + |data| <= |b|
    ensures Written(b, p, data)[i..p + |data|] == b[i..p] + data
  {
    WrittenInside(b, p, data, i, p + |data|);
    assert b[p + |data|..p + |data|] == [];
  }

  function Be64(n: nat): (r: Bytes)
    requires n < LIMIT32 * LIMIT32
    ensures |r| == 8
  {
    Be32(n / LIMIT32) + Be32(n % LIMIT32)
  }

  /** The image holds the tokens, and they say what was asked for. */
  ghost predicate Good(im: Image, ts: seq<Token>, calls: seq<Call>) {
    im.Ordered() && ValidTokens(ts) && im.Struct() == Flat(ts) && AllSay(ts, calls, im.Strings())
  }

  /** A token written behind the others. */
  lemma {:induction false} GoodOneMore(im: Image, r: Image, ts: seq<Token>, calls: seq<Call>, t: Token, c: Call,
                                       y: Bytes)
    requires Good(im, ts, calls) && t.Valid() && Says(t, c, im.Strings())
    requires Parts(r, im.Struct(), y, []) && y == Encode(t) && SameRest(im, r)
    ensures Good(r, ts + [t], calls + [c])
  {
    TokenAppended(im, r, ts, t, y);
    SaysOneMore(ts, calls, im.Strings(), t, c);
  }

  lemma {:induction false} NodeBegun(im: Image, r: Image, ts: seq<Token>, calls: seq<Call>, x: Bytes, name: Bytes,
                                     y: Bytes) returns (t: Token)
    requires Good(im, ts, calls) && 0 !in name && |x| == 4 + TagAlign(|name| + 1)
    requires y == Put(Put(x, 0, Be32(FDT_BEGIN_NODE)), 4, name + [0])
    requires Parts(r, im.Struct(), y, []) && SameRest(im, r)
    ensures Good(r, ts + [t], calls + [Open(name)])
  {
    t := Begin(name, x[4 + |name| + 1..]);
    BeginBytes(x, name);
    GoodOneMore(im, r, ts, calls, t, Open(name), y);
  }

  lemma {:induction false} NodeEnded(im: Image, r: Image, ts: seq<Token>, calls: seq<Call>, x: Bytes, y: Bytes)
    requires Good(im, ts, calls) && |x| == 4 && y == Put(x, 0, Be32(FDT_END_NODE))
    requires Parts(r, im.Struct(), y, []) && SameRest(im, r)
    ensures Good(r, ts + [End], calls + [Close])
  {
    WordRoom(x, Be32(FDT_END_NODE));
    GoodOneMore(im, r, ts, calls, End, Close, y);
  }

  lemma {:induction false} PushedGood(im: Image, ts: seq<Token>, calls: seq<Call>, s: Bytes)
    requires Good(im, ts, calls) && im.offStruct + im.sizeStruct + |s| <= im.offStrings
    ensures Good(StringPushed(im, s), ts, calls) && StringPushed(im, s).Reserved() == im.Reserved()
    ensures StringPushed(im, s).Strings() == s + im.Strings()
  {
    PushedBlocks(im, s);
    StillSays(ts, calls, s, im.Strings());
  }

  /** The same blocks. */
  ghost predicate Kept(im: Image, r: Image) {
    SameRest(im, r) && r.Struct() == im.Struct()
  }

  /** The image when the last n bytes put in front of the strings are given up. */
  function Popped(im: Image, n: nat): Image
    requires n <= im.sizeStrings
  {
    im.(offStrings := im.offStrings + n, sizeStrings := im.sizeStrings - n)
  }

  lemma {:induction false} PoppedBlocks(im: Image, s: Bytes)
    requires im.Ordered() && im.offStruct + im.sizeStruct + |s| <= im.offStrings
    ensures Kept(im, Popped(StringPushed(im, s), |s|))
  {
    var m := StringPushed(im, s);
    PushedBlocks(im, s);
    SliceOf(m.bytes, m.offStrings, m.offStrings + m.sizeStrings, |s|, m.sizeStrings);
    assert (s + im.Strings())[|s|..] == im.Strings();
  }

  /** The word nameoff counts back from the end of the strings to the name, which starts at off. */
  ghost predicate NamedBy(im: Image, nameoff: nat, off: nat, name: Bytes) {
    im.Ordered() && off < im.sizeStrings && nameoff == LIMIT32 - im.sizeStrings + off
      && StringAt(im.Strings(), off) == Some(name)
  }

  lemma {:induction false} RestOn(a: Image, b: Image, c: Image)
    requires SameRest(a, b) && SameRest(b, c)
    ensures SameRest(a, c)
  {
  }

  lemma {:induction false} PropWritten(im: Image, r: Image, ts: seq<Token>, calls: seq<Call>, x: Bytes, nameoff: nat,
                                       off: nat, name: Bytes, val: Bytes, y: Bytes)
    returns (t: Token)
    requires Good(im, ts, calls) && |val| < LIMIT31 && |x| == 12 + TagAlign(|val|)
    requires NamedBy(im, nameoff, off, name)
    requires y == NewProp(x, nameoff, val) && Parts(r, im.Struct(), y, []) && SameRest(im, r)
    ensures Good(r, ts + [t], calls + [Property(name, val)])
  {
    t := Prop(nameoff, val, x[12 + |val|..]);
    NewPropToken(x, nameoff, val);
    GoodOneMore(im, r, ts, calls, t, Property(name, val), y);
  }

  /** The strings moved down to the end of the structure block. */
  function Relocated(im: Image): Image
    requires im.Ordered()
  {
    var p := im.offStruct + im.sizeStruct;
    im.(bytes := Moved(im.bytes, p, im.offStrings, im.sizeStrings), offStrings := p)
  }

  lemma {:induction false} RelocatedBlocks(im: Image)
    requires im.Ordered()
    ensures SameRest(im, Relocated(im)) && Relocated(im).Struct() == im.Struct()
  {
    var p := im.offStruct + im.sizeStruct;
    MovedSlice(im.bytes, p, im.offStrings, im.sizeStrings, im.offRsv, im.offStruct);
    MovedSlice(im.bytes, p, im.offStrings, im.sizeStrings, im.offStruct, p);
    MovedSlice(im.bytes, p, im.offStrings, im.sizeStrings, p, p + im.sizeStrings);
  }

  /** The image holds these tokens. */
  ghost predicate Keeps(im: Image, ts: seq<Token>) {
    im.Ordered() && ValidTokens(ts) && im.Struct() == Flat(ts)
  }

  lemma {:induction false} Terminated(im: Image, r: Image, ts: seq<Token>, x: Bytes)
    requires Keeps(im, ts) && |x| == 4 && Parts(r, im.Struct(), Put(x, 0, Be32(FDT_END)), [])
    ensures Keeps(r, ts + [Finish])
  {
    WordRoom(x, Be32(FDT_END));
    TokenAppended(im, r, ts, Finish, Be32(FDT_END));
  }

  /** Reading the token behind the run a. */
  lemma {:induction false} ReadsNext(im: Image, a: seq<Token>, t: Token, c: seq<Token>)
    requires Keeps(im, a + [t] + c)
    ensures ValidTokens(a) && ValidTokens(a + [t]) && NextTag(im.Struct(), |Flat(a)|) ==
            Some((t.Tag(), |Flat(a + [t])|))
    ensures t.Prop? ==>
              |Flat(a)| + 12 <= |im.Struct()| && Word(im.Struct(), |Flat(a)| + 8) == t.nameoff && t.nameoff < LIMIT32
  {
    var ts := a + [t] + c;
    assert ts[|a|] == t;
    NextTagReads(ts, |a|);
    assert ts[..|a|] == a && ts[..|a| + 1] == a + [t];
    ValidParts(a, [t], c);
    if t.Prop? {
      PropReads(ts, |a|);
    }
  }

  /** Rewriting a name offset in place. */
  lemma {:induction false} FixedHere(im: Image, a: seq<Token>, t: Token, c: seq<Token>, size: nat, q: nat, w: Bytes)
    requires Keeps(im, a + [t] + c) && t.Prop? && ValidTokens(a) && t.nameoff < LIMIT32
    requires q == |Flat(a)| + 8 && w == Be32((t.nameoff + size) % LIMIT32)
    ensures |w| == 4 && q + 4 <= im.sizeStruct
    ensures Keeps(StructWritten(im, q, w), a + [Fixed(t, size)] + c) && SameRest(im, StructWritten(im, q, w))
  {
    ValidParts(a, [t], c);
    FlatParts(a, [t], c);
    assert t == [t][0];
    FlatOne(t);
    FixedBytes(t, size);
    WrittenParts(im, Flat(a), Encode(t), Flat(c), 8, Be32((t.nameoff + size) % LIMIT32));
    FlatOne(Fixed(t, size));
    FlatParts(a, [Fixed(t, size)], c);
  }

  // ---------------------------------------------------------------------------------------
  // The writer
  // ---------------------------------------------------------------------------------------

  class Writer {
    const buf: array<Byte>
    var finished: bool
    var dedup: bool
    var total: nat
    const offRsv: nat
    var offStruct: nat
    var sizeStruct: nat
    var offStrings: nat
    var sizeStrings: nat

    /** The tokens in the buffer and the calls that led to them. */
    ghost var ts: seq<Token>
    ghost var calls: seq<Call>

    constructor (size: nat, noDedup: bool)
      requires 48 <= size < LIMIT31
      ensures fresh(buf) && buf.Length == size && Reserving() && calls == [] && offStruct == offRsv && dedup == !noDedup
    {
      buf := new Byte[size](_ => 0);
      finished, dedup, total := false, !noDedup, size;
      offRsv, offStruct, sizeStruct, offStrings, sizeStrings := 48, 48, 0, 0, 0;
      ts, calls := [], [];
    }

    /** Reservations are being written. */
    ghost predicate Reserving()
      reads this
    {
      && !finished && offStrings == 0 && total == buf.Length && 48 <= total < LIMIT31
      && offRsv == 48 <= offStruct <= total && sizeStruct == 0 && sizeStrings == 0 && ts == [] && calls == []
    }

    /** The buffer while nodes and properties are being written. */
    ghost function Building(): Image
      requires sizeStrings <= total
      reads this, buf
    {
      Image(Snapshot(buf, buf.Length), offRsv, offStruct, sizeStruct, total - sizeStrings, sizeStrings)
    }

    /** Nodes and properties are being written. */
    ghost predicate Writing()
      reads this, buf
    {
      !finished && offStrings == total == buf.Length && sizeStrings <= total && Good(Building(), ts, calls)
    }

    ghost function Free(): int
      reads this
    {
      total - sizeStrings - offStruct - sizeStruct
    }

    method Write(p: nat, data: Bytes)
      requires p + |data| <= buf.Length
      modifies buf
      ensures Snapshot(buf, buf.Length) == Written(old(Snapshot(buf, buf.Length)), p, data)
    {
      forall i | 0 <= i < |data| {
        buf[p + i] := data[i];
      }
    }

    /** One more reservation. */
    method AddReserve(address: nat, size: nat) returns (st: Status)
      requires (finished || Reserving() || Writing()) && address < LIMIT32 * LIMIT32 && size < LIMIT32 * LIMIT32
      modifies this`offStruct, buf
      ensures st == if !old(Reserving()) then BadState else if old(offStruct) + 16 <= total then Fine else NoRoom
      ensures old(Reserving()) ==> Reserving()
      ensures st.Fine? ==> offStruct == old(offStruct) + 16 &&
                           Snapshot(buf, buf.Length) ==
                             Written(old(Snapshot(buf, buf.Length)), old(offStruct), Be64(address) + Be64(size))
      ensures !st.Fine? ==> offStruct == old(offStruct) && Snapshot(buf, buf.Length) == old(Snapshot(buf, buf.Length))
    {
      if finished || offStrings != 0 {
        return BadState;
      }
      if offStruct + 16 > total {
        return NoRoom;
      }
      Write(offStruct, Be64(address) + Be64(size));
      offStruct := offStruct + 16;
      return Fine;
    }

    /** Ends the reservations with an empty one; from now on nodes and properties can be written. */
    method FinishReserve() returns (st: Status)
      requires finished || Reserving() || Writing()
      modifies this`offStruct, this`offStrings, buf
      ensures st == if !old(Reserving()) then BadState else if old(offStruct) + 16 <= total then Fine else NoRoom
      ensures st.Fine? ==> Writing() && calls == []
      ensures st.Fine? ==> Building().Reserved() == old(Snapshot(buf,
              buf.Length))[offRsv..old(offStruct)] + (Be64(0) + Be64(0))
      ensures st.NoRoom? ==> Reserving()
      ensures st.BadState? ==>
                offStrings == old(offStrings) && offStruct == old(offStruct)
                && Snapshot(buf, buf.Length) == old(Snapshot(buf, buf.Length))
    {
      st := AddReserve(0, 0);
      if st.Fine? {
        offStrings := total;
        assert Flat([]) == [];
        EndedReservations(old(Snapshot(buf, buf.Length)), offRsv, old(offStruct), Be64(0) + Be64(0));
      }
    }

    /** Takes room for the structure block. */
    method GrabSpace(len: nat) returns (ok: bool, ghost room: Bytes)
      requires sizeStrings <= total && Building().Ordered() && total == buf.Length
      modifies this`sizeStruct
      ensures ok == (len <= old(Free()))
      ensures ok ==> Building() == Grabbed(old(Building()), len) && |room| == len
      ensures ok ==> Parts(Building(), old(Building()).Struct(), room, []) && SameRest(old(Building()), Building())
      ensures !ok ==> Building() == old(Building())
    {
      room := [];
      var left := total - offStruct - sizeStrings;
      if sizeStruct + len > left {
        return false, [];
      }
      room := GrabbedParts(Building(), len);
      sizeStruct := sizeStruct + len;
      ok := true;
    }

    method WriteRoom(q: nat, data: Bytes, ghost a: Bytes, ghost x: Bytes, ghost j: nat)
      requires sizeStrings <= total && Parts(Building(), a, x, []) && q == |a| + j && j + |data| <= |x|
      modifies buf
      ensures Parts(Building(), a, Put(x, j, data), []) && SameRest(old(Building()), Building())
    {
      ghost var was := Building();
      WrittenParts(was, a, x, [], j, data);
      WriteTo(offStruct + q, data, StructWritten(was, q, data));
    }

    method WriteTo(p: nat, data: Bytes, ghost goal: Image)
      requires sizeStrings <= total && p + |data| <= buf.Length
               && goal == Building().(bytes := Written(Building().bytes, p, data))
      modifies buf
      ensures Building() == goal
    {
      Write(p, data);
    }

    /** Writes a node start behind the tokens. */
    method PutBegin(name: Bytes, ghost ts: seq<Token>, ghost calls: seq<Call>) returns (ok: bool, ghost t: Token)
      requires sizeStrings <= total && total == buf.Length && Good(Building(), ts, calls) && 0 !in name
      modifies this`sizeStruct, buf
      ensures ok == (4 + TagAlign(|name| + 1) <= old(Free()))
      ensures ok ==> Good(Building(), ts + [t], calls + [Open(name)]) && SameRest(old(Building()), Building())
      ensures !ok ==> unchanged(this) && unchanged(buf)
    {
      var q := sizeStruct;
      ghost var was := Building();
      ghost var room;
      t := End;
      ok, room := GrabSpace(4 + TagAlign(|name| + 1));
      if ok {
        WriteRoom(q, Be32(FDT_BEGIN_NODE), was.Struct(), room, 0);
        ghost var x := Put(room, 0, Be32(FDT_BEGIN_NODE));
        WriteRoom(q + 4, name + [0], was.Struct(), x, 4);
        t := NodeBegun(was, Building(), ts, calls, room, name, Put(x, 4, name + [0]));
      }
    }

    /** Opens a node. */
    method BeginNode(name: Bytes) returns (st: Status)
      requires (finished || Reserving() || Writing()) && 0 !in name && |name| + 1 < LIMIT31
      modifies this`sizeStruct, this`ts, this`calls, buf
      ensures st == if !old(Writing()) then BadState else if 4 + TagAlign(|name| + 1) <= old(Free()) then Fine
              else NoRoom
      ensures st.Fine? ==>
                Writing() && calls == old(calls) + [Open(name)] && Building().Reserved() == old(Building().Reserved())
      ensures !st.Fine? ==> unchanged(this) && unchanged(buf)
    {
      if finished || offStrings != total {
        return BadState;
      }
      var ok;
      ghost var t;
      ok, t := PutBegin(name, ts, calls);
      if !ok {
        return NoRoom;
      }
      ghost var now := Building();
      ts, calls := ts + [t], calls + [Open(name)];
      assert Building() == now;
      return Fine;
    }

    method PutEnd(ghost ts: seq<Token>, ghost calls: seq<Call>) returns (ok: bool)
      requires sizeStrings <= total && total == buf.Length && Good(Building(), ts, calls)
      modifies this`sizeStruct, buf
      ensures ok == (4 <= old(Free()))
      ensures ok ==> Good(Building(), ts + [End], calls + [Close]) && SameRest(old(Building()), Building())
      ensures !ok ==> unchanged(this) && unchanged(buf)
    {
      var q := sizeStruct;
      ghost var was := Building();
      ghost var room;
      ok, room := GrabSpace(4);
      if ok {
        WriteRoom(q, Be32(FDT_END_NODE), was.Struct(), room, 0);
        NodeEnded(was, Building(), ts, calls, room, Put(room, 0, Be32(FDT_END_NODE)));
      }
    }

    /** Closes the innermost open node. */
    method EndNode() returns (st: Status)
      requires finished || Reserving() || Writing()
      modifies this`sizeStruct, this`ts, this`calls, buf
      ensures st == if !old(Writing()) then BadState else if 4 <= old(Free()) then Fine else NoRoom
      ensures st.Fine? ==>
                Writing() && calls == old(calls) + [Close] && Building().Reserved() == old(Building().Reserved())
      ensures !st.Fine? ==> unchanged(this) && unchanged(buf)
    {
      if finished || offStrings != total {
        return BadState;
      }
      var ok := PutEnd(ts, calls);
      if !ok {
        return NoRoom;
      }
      ghost var now := Building();
      ts, calls := ts + [End], calls + [Close];
      assert Building() == now;
      return Fine;
    }

    /** Puts a terminated string in front of the strings, if the test for room lets it. */
    method AddString(name: Bytes, ghost ts: seq<Token>, ghost calls: seq<Call>) returns (st: Status, nameoff: nat)
      requires sizeStrings <= total == buf.Length && Good(Building(), ts, calls) && 0 !in name && |name| + 1 < LIMIT31
      modifies this`sizeStrings, buf
      ensures st == if |name| + 1 > old(total - sizeStrings) then Status.Astray
              else if |name| + 1 <= old(Free()) then Fine else NoRoom
      ensures st.NoRoom? ==> unchanged(this) && unchanged(buf)
      ensures st.Fine? ==> sizeStrings == old(sizeStrings) + |name| + 1 <= total && nameoff == LIMIT32 - sizeStrings
      ensures st.Fine? ==>
              old(Building()).offStruct + old(Building()).sizeStruct + |name + [0]| <= old(Building()).offStrings
      ensures st.Fine? ==> Building() == StringPushed(old(Building()), name + [0])
    {
      var len := |name| + 1;
      RoomTested(total, sizeStrings, offStruct + sizeStruct, len);
      if !HasRoom(total, sizeStrings, offStruct + sizeStruct, len) {
        return NoRoom, 0;
      }
      if total - sizeStrings < len {
        return Status.Astray, 0;
      }
      PushString(name + [0]);
      return Fine, LIMIT32 - sizeStrings;
    }

    /** Copies a string in front of the strings. */
    method PushString(s: Bytes)
      requires sizeStrings <= total == buf.Length && Building().Ordered() && |s| <= Free()
      modifies this`sizeStrings, buf
      ensures sizeStrings == old(sizeStrings) + |s| <= total
      ensures old(Building()).offStruct + old(Building()).sizeStruct + |s| <= old(Building()).offStrings
      ensures Building() == StringPushed(old(Building()), s)
    {
      Write(total - sizeStrings - |s|, s);
      ghost var bytes := Snapshot(buf, buf.Length);
      sizeStrings := sizeStrings + |s|;
      assert Snapshot(buf, buf.Length) == bytes;
    }

    method Strings() returns (b: Bytes)
      requires sizeStrings <= total == buf.Length && Building().Ordered()
      ensures b == Building().Strings()
    {
      b := buf[total - sizeStrings..total];
      ghost var im := Building();
      SameSeq(b, im.Strings());
    }

    /** The place of the name among the strings, if the search for it is not switched off and finds it. */
    method FindName(name: Bytes) returns (found: Option<nat>)
      requires sizeStrings <= total == buf.Length && Building().Ordered() && 0 !in name
      ensures found.Some? == (dedup && Ops.HasString(Building().Strings(), name))
      ensures found.Some? ==> found.value < sizeStrings && StringAt(Building().Strings(), found.value) == Some(name)
    {
      found := None;
      if dedup {
        var strs := Strings();
        found := FindString(strs, name);
      }
    }

    /** Finds the name among the strings or adds it. */
    method FindAddString(name: Bytes, ghost ts: seq<Token>, ghost calls: seq<Call>)
      returns (st: Status, nameoff: nat, added: bool, ghost off: nat)
      requires sizeStrings <= total == buf.Length && Good(Building(), ts, calls) && 0 !in name && |name| + 1 < LIMIT31
      modifies this`sizeStrings, buf
      ensures added == !(dedup && Ops.HasString(old(Building()).Strings(), name))
      ensures st == if !added then Fine else if |name| + 1 > old(total - sizeStrings) then Status.Astray
              else if |name| + 1 <= old(Free()) then Fine else NoRoom
      ensures st.NoRoom? || !added ==> unchanged(this) && unchanged(buf)
      ensures st.Fine? && added ==>
                && sizeStrings == old(sizeStrings) + |name| + 1 <= total
                && old(Building()).offStruct + old(Building()).sizeStruct + |name + [0]| <= old(Building()).offStrings
                && Building() == StringPushed(old(Building()), name + [0])
      ensures st.Fine? ==>
                sizeStrings <= total && Good(Building(), ts, calls) && NamedBy(Building(), nameoff, off, name)
    {
      ghost var was := Building();
      var found := FindName(name);
      if found.Some? {
        off := found.value;
        return Fine, LIMIT32 - sizeStrings + found.value, false, off;
      }
      st, nameoff := AddString(name, ts, calls);
      added, off := true, 0;
      if st.Fine? {
        ghost var now := Building();
        PushedNamed(was, now, ts, calls, name, nameoff);
      }
    }

    method GiveUpName(n: nat)
      requires sizeStrings <= total && n <= sizeStrings
      modifies this`sizeStrings
      ensures sizeStrings <= total && Building() == Popped(old(Building()), n)
    {
      sizeStrings := sizeStrings - n;
    }

    /** Writes a property whose name was just added; the name is given up again when there is no room. */
    method PutFreshProp(nameoff: nat, name: Bytes, val: Bytes, ghost was: Image, ghost ts: seq<Token>,
                        ghost calls: seq<Call>, ghost off: nat)
      returns (ok: bool, ghost t: Token)
      requires sizeStrings <= total == buf.Length && Good(Building(), ts, calls) && |val| < LIMIT31
               && NamedBy(Building(), nameoff, off, name)
      requires was.Ordered() && was.offStruct + was.sizeStruct + |name + [0]| <= was.offStrings
               && Building() == StringPushed(was, name + [0])
      modifies this`sizeStruct, this`sizeStrings, buf
      ensures ok == (12 + TagAlign(|val|) <= old(Free())) && sizeStrings <= total
      ensures ok ==> Good(Building(), ts + [t], calls + [Property(name, val)]) && SameRest(old(Building()), Building())
      ensures !ok ==> Kept(was, Building())
    {
      ok, t := PutNamedProp(nameoff, name, val, ts, calls, off);
      if !ok {
        PoppedBlocks(was, name + [0]);
        GiveUpName(|name + [0]|);
      }
    }

    /** Writes a property behind the tokens. */
    method PutProp(name: Bytes, val: Bytes, ghost ts: seq<Token>, ghost calls: seq<Call>)
      returns (st: Status, ghost t: Token)
      requires sizeStrings <= total == buf.Length && Good(Building(), ts, calls) && 0 !in name && |val| < LIMIT31
               && |name| + 1 < LIMIT31
      modifies this`sizeStruct, this`sizeStrings, buf
      ensures st == PropertyResult(NameRoom(name, old(Building()).Strings(), dedup), |val|, old(total - sizeStrings),
                old(Free()))
      ensures st.Fine? ==> sizeStrings <= total
                           && Good(Building(), ts + [t], calls + [Property(name, val)])
                           && Building().Reserved() == old(Building()).Reserved()
      ensures st.NoRoom? ==> sizeStrings <= total && Kept(old(Building()), Building())
    {
      t := End;
      ghost var was := Building();
      ghost var need, ahead, free := NameRoom(name, was.Strings(), dedup), total - sizeStrings, Free();
      var nameoff, added, ok;
      ghost var off;
      st, nameoff, added, off := FindAddString(name, ts, calls);
      assert need == if added then |name| + 1 else 0;
      if !st.Fine? {
        return;
      }
      assert need <= ahead && Free() == free - need;
      ok, t := PutFoundProp(nameoff, added, name, val, was, ts, calls, off);
      st := if ok then Fine else NoRoom;
    }

    /** Writes a property whose name was found or added. */
    method PutFoundProp(nameoff: nat, added: bool, name: Bytes, val: Bytes, ghost was: Image, ghost ts: seq<Token>,
                        ghost calls: seq<Call>, ghost off: nat)
      returns (ok: bool, ghost t: Token)
      requires sizeStrings <= total == buf.Length && Good(Building(), ts, calls) && |val| < LIMIT31
               && NamedBy(Building(), nameoff, off, name) && was.Ordered()
      requires added ==> was.offStruct + was.sizeStruct + |name + [0]| <= was.offStrings
                         && Building() == StringPushed(was, name + [0])
      requires !added ==> Building() == was
      modifies this`sizeStruct, this`sizeStrings, buf
      ensures ok == (12 + TagAlign(|val|) <= old(Free())) && sizeStrings <= total
      ensures ok ==>
                Good(Building(), ts + [t], calls + [Property(name, val)]) && Building().Reserved() == was.Reserved()
      ensures !ok ==> Kept(was, Building())
    {
      if added {
        PushedBlocks(was, name + [0]);
        ok, t := PutFreshProp(nameoff, name, val, was, ts, calls, off);
      } else {
        ok, t := PutNamedProp(nameoff, name, val, ts, calls, off);
      }
    }

    method PutNamedProp(nameoff: nat, name: Bytes, val: Bytes, ghost ts: seq<Token>, ghost calls: seq<Call>,
                        ghost off: nat) returns (ok: bool, ghost t: Token)
      requires sizeStrings <= total == buf.Length && Good(Building(), ts, calls) && |val| < LIMIT31
               && NamedBy(Building(), nameoff, off, name)
      modifies this`sizeStruct, buf
      ensures ok == (12 + TagAlign(|val|) <= old(Free()))
      ensures ok ==> Good(Building(), ts + [t], calls + [Property(name, val)]) && SameRest(old(Building()), Building())
      ensures !ok ==> unchanged(this) && unchanged(buf)
    {
      var q := sizeStruct;
      ghost var was := Building();
      ghost var room;
      t := End;
      ok, room := GrabSpace(12 + TagAlign(|val|));
      if ok {
        ghost var mid, y := Building(), NewProp(room, nameoff, val);
        WriteProp(q, nameoff, val, was.Struct(), room, y);
        ghost var now := Building();
        RestOn(was, mid, now);
        t := PropWritten(was, now, ts, calls, room, nameoff, off, name, val, y);
      }
    }

    method WriteProp(q: nat, nameoff: nat, val: Bytes, ghost a: Bytes, ghost x: Bytes, ghost y: Bytes)
      requires sizeStrings <= total && Parts(Building(), a, x, []) && q == |a|
      requires nameoff < LIMIT32 && |val| < LIMIT31 && |x| == 12 + TagAlign(|val|) && y == NewProp(x, nameoff, val)
      modifies buf
      ensures Parts(Building(), a, y, []) && SameRest(old(Building()), Building())
    {
      WriteWords(q, Be32(FDT_PROP), Be32(|val|), Be32(nameoff), val, a, x);
    }

    method WriteWords(q: nat, w0: Bytes, w1: Bytes, w2: Bytes, val: Bytes, ghost a: Bytes, ghost x: Bytes)
      requires sizeStrings <= total && Parts(Building(), a, x, []) && q == |a|
      requires |w0| == |w1| == |w2| == 4 && 12 + |val| <= |x|
      modifies buf
      ensures Parts(Building(), a, Put(Put(Put(Put(x, 0, w0), 8, w2), 4, w1), 12, val), [])
              && SameRest(old(Building()), Building())
    {
      WriteRoom(q, w0, a, x, 0);
      ghost var x1 := Put(x, 0, w0);
      WriteRoom(q + 8, w2, a, x1, 8);
      ghost var x2 := Put(x1, 8, w2);
      WriteRoom(q + 4, w1, a, x2, 4);
      ghost var x3 := Put(x2, 4, w1);
      WriteRoom(q + 12, val, a, x3, 12);
    }

    /** Adds a property to the innermost open node. */
    method AddProperty(name: Bytes, val: Bytes) returns (st: Status)
      requires (finished || Reserving() || Writing()) && 0 !in name && |val| < LIMIT31 && |name| + 1 < LIMIT31
      modifies this`sizeStruct, this`sizeStrings, this`ts, this`calls, buf
      ensures st == if !old(Writing()) then BadState
                    else PropertyResult(old(NameRoom(name, Building().Strings(), dedup)), |val|,
                      old(total - sizeStrings), old(Free()))
      ensures st.Fine? ==> Writing() && calls == old(calls) + [Property(name, val)]
      ensures st.NoRoom? ==> Writing() && calls == old(calls)
      ensures st.Fine? || st.NoRoom? ==> Building().Reserved() == old(Building().Reserved())
      ensures st.BadState? ==> unchanged(this) && unchanged(buf)
    {
      if finished || offStrings != total {
        return BadState;
      }
      ghost var t;
      st, t := PutProp(name, val, ts, calls);
      if st.Fine? {
        Note(t, Property(name, val));
      }
    }

    /** Adds a call to those that were made. */
    ghost method Note(t: Token, c: Call)
      requires sizeStrings <= total
      modifies this`ts, this`calls
      ensures ts == old(ts) + [t] && calls == old(calls) + [c] && Building() == old(Building())
    {
      var now := Building();
      ts, calls := ts + [t], calls + [c];
      assert Building() == now;
    }

    /** The buffer once the strings have their final place. */
    ghost function Final(): Image
      reads this, buf
    {
      Image(Snapshot(buf, buf.Length), offRsv, offStruct, sizeStruct, offStrings, sizeStrings)
    }

    method Move(dst: nat, src: nat, n: nat)
      requires dst + n <= buf.Length && src + n <= buf.Length
      modifies buf
      ensures Snapshot(buf, buf.Length) == Moved(old(Snapshot(buf, buf.Length)), dst, src, n)
    {
      forall i | 0 <= i < n {
        buf[dst + i] := buf[src + i];
      }
    }

    /** Writes the end tag. */
    method PutFinish(ghost ts: seq<Token>) returns (ok: bool)
      requires sizeStrings <= total == buf.Length && Keeps(Building(), ts)
      modifies this`sizeStruct, buf
      ensures ok == (4 <= old(Free()))
      ensures ok ==> Keeps(Building(), ts + [Finish]) && SameRest(old(Building()), Building())
      ensures !ok ==> unchanged(this) && unchanged(buf)
    {
      var q := sizeStruct;
      ghost var was := Building();
      ghost var room;
      ok, room := GrabSpace(4);
      if ok {
        ghost var mid := Building();
        WriteRoom(q, Be32(FDT_END), was.Struct(), room, 0);
        ghost var now := Building();
        RestOn(was, mid, now);
        Terminated(was, now, ts, room);
      }
    }

    /** Moves the strings down to the end of the structure block. */
    method Relocate()
      requires sizeStrings <= total == buf.Length && Building().Ordered()
      modifies this`offStrings, buf
      ensures Final() == Relocated(old(Building()))
    {
      var p := offStruct + sizeStruct;
      ghost var goal := Relocated(Building());
      Move(p, total - sizeStrings, sizeStrings);
      ghost var bytes := Snapshot(buf, buf.Length);
      assert bytes == goal.bytes;
      offStrings := p;
      assert Snapshot(buf, buf.Length) == bytes;
    }

    /** Writes the end tag and moves the strings down. */
    method Terminate(ghost ts: seq<Token>) returns (ok: bool)
      requires sizeStrings <= total == buf.Length && Keeps(Building(), ts)
      modifies this`sizeStruct, this`offStrings, buf
      ensures ok == (4 <= old(Free()))
      ensures ok ==>
                Keeps(Final(), ts + [Finish]) && SameRest(old(Building()), Final())
                && offStrings == offStruct + sizeStruct
      ensures !ok ==> unchanged(this) && unchanged(buf)
    {
      ghost var was := Building();
      ok := PutFinish(ts);
      if ok {
        ghost var mid := Building();
        RelocatedBlocks(mid);
        Relocate();
        RestOn(was, mid, Relocated(mid));
      }
    }

    method Struct() returns (b: Bytes)
      requires Final().Ordered()
      ensures b == Final().Struct()
    {
      b := buf[offStruct..offStruct + sizeStruct];
      ghost var im := Final();
      SameSeq(b, im.Struct());
    }

    /** Reads the token at the offset. */
    method ReadOne(offset: nat, ghost a: seq<Token>, ghost t: Token, ghost c: seq<Token>) returns (tag: nat, next: nat)
      requires Keeps(Final(), a + [t] + c) && ValidTokens(a) && offset == |Flat(a)|
      ensures tag == t.Tag() && ValidTokens(a + [t]) && next == |Flat(a + [t])|
    {
      var b := Struct();
      ReadsNext(Final(), a, t, c);
      var r := ReadTag(b, offset);
      tag, next := r.value.0, r.value.1;
    }

    method NameOffset(offset: nat, ghost a: seq<Token>, ghost t: Token, ghost c: seq<Token>) returns (w: nat)
      requires Keeps(Final(), a + [t] + c) && ValidTokens(a) && offset == |Flat(a)| && t.Prop?
      ensures w == t.nameoff && w < LIMIT32
    {
      var b := Struct();
      ReadsNext(Final(), a, t, c);
      w := Word(b, offset + 8);
    }

    method WriteStruct(q: nat, data: Bytes)
      requires Final().Ordered() && q + |data| <= sizeStruct
      modifies buf
      ensures Final() == StructWritten(old(Final()), q, data)
    {
      Write(offStruct + q, data);
    }

    /** Makes the name offset of a property count from the start of the strings. */
    method FixOne(offset: nat, ghost a: seq<Token>, ghost t: Token, ghost c: seq<Token>)
      requires Keeps(Final(), a + [t] + c) && ValidTokens(a) && offset == |Flat(a)| && t.Prop?
      modifies buf
      ensures Keeps(Final(), a + [Fixed(t, sizeStrings)] + c) && SameRest(old(Final()), Final())
    {
      var w := NameOffset(offset, a, t, c);
      var v := Be32((w + sizeStrings) % LIMIT32);
      FixedHere(Final(), a, t, c, sizeStrings, offset + 8, v);
      WriteStruct(offset + 8, v);
    }

    /** Corrects the token at the offset, if it is a property, and reads the one behind it. */
    method FixStep(offset: nat, tag: nat, next: nat, ghost a: seq<Token>, ghost t: Token, ghost u: Token,
                   ghost c: seq<Token>)
      returns (newTag: nat, newNext: nat, ghost d: seq<Token>)
      requires Keeps(Final(), a + [t] + ([u] + c)) && ValidTokens(a) && offset == |Flat(a)|
      requires tag == t.Tag() && ValidTokens(a + [t]) && next == |Flat(a + [t])|
      modifies buf
      ensures SameRest(old(Final()), Final())
      ensures d == a + [Fixed(t, sizeStrings)] && Keeps(Final(), d + [u] + c) && ValidTokens(d) && next == |Flat(d)|
      ensures newTag == u.Tag() && ValidTokens(d + [u]) && newNext == |Flat(d + [u])|
    {
      d := a + [Fixed(t, sizeStrings)];
      if tag == FDT_PROP {
        FixOne(offset, a, t, [u] + c);
      }
      StepOn(Final(), a, t, u, c, sizeStrings);
      newTag, newNext := ReadOne(next, d, u, c);
    }

    /** Corrects the token at the offset and goes on to the next one, in the course of the walk. */
    method FixNext(offset: nat, tag: nat, next: nat, ghost was: Image, ghost ts: seq<Token>, ghost a: seq<Token>,
                   ghost t: Token, ghost rest: seq<Token>)
      returns (newTag: nat, newNext: nat, ghost d: seq<Token>, ghost u: Token, ghost c: seq<Token>)
      requires Correcting(was, Final(), ts, sizeStrings, a, t, rest, offset, tag, next) && tag != FDT_END
      modifies buf
      ensures Correcting(was, Final(), ts, sizeStrings, d, u, c, next, newTag, newNext) && |c| < |rest|
    {
      ghost var im := Final();
      RemainsOn(ts, a, t, rest, sizeStrings);
      u, c := rest[0], rest[1..];
      assert rest == [u] + c;
      newTag, newNext, d := FixStep(offset, tag, next, a, t, u, c);
      ghost var now := Final();
      RestOn(was, im, now);
    }

    /** Walks the structure block and corrects every name offset. */
    method FixNames(ghost ts: seq<Token>)
      requires Keeps(Final(), ts + [Finish]) && forall i :: 0 <= i < |ts| ==> !ts[i].Finish?
      modifies buf
      ensures Keeps(Final(), FixedAll(ts, sizeStrings) + [Finish]) && SameRest(old(Final()), Final())
    {
      ghost var was := Final();
      ghost var a: seq<Token>, t, rest := [], (ts + [Finish])[0], (ts + [Finish])[1..];
      assert a + [t] + rest == ts + [Finish] && [t] + rest == ts + [Finish];
      var offset := 0;
      var tag, next := ReadOne(offset, a, t, rest);
      while tag != FDT_END
        invariant Correcting(was, Final(), ts, sizeStrings, a, t, rest, offset, tag, next)
        decreases |rest|
      {
        var newTag, newNext;
        newTag, newNext, a, t, rest := FixNext(offset, tag, next, was, ts, a, t, rest);
        offset, tag, next := next, newTag, newNext;
      }
      RemainsNothing(ts, a, t, rest, sizeStrings);
    }

    /** Finishes the blob. */
    method Complete() returns (st: Status)
      requires finished || Reserving() || Writing()
      modifies this, buf
      ensures st == if !old(Writing()) then BadState else if 4 <= old(Free()) then Fine else NoRoom
      ensures calls == old(calls)
      ensures st.Fine? ==> finished && Keeps(Final(), ts + [Finish]) && AllShow(ts, calls, Final().Strings())
      ensures st.Fine? ==>
                Final().Strings() == old(Building()).Strings() && Final().Reserved() == old(Building()).Reserved()
      ensures st.Fine? ==> total == Final().DataSize() && offStrings == offStruct + sizeStruct
      ensures !st.Fine? ==> unchanged(this) && unchanged(buf)
    {
      if finished || offStrings != total {
        return BadState;
      }
      ghost var was := Building();
      var ok := Terminate(ts);
      if !ok {
        return NoRoom;
      }
      ghost var mid := Final();
      NoneFinishes(was, ts, calls);
      FixNames(ts);
      ghost var now := Final();
      RestOn(was, mid, now);
      FixedShows(ts, calls, was.Strings());
      Seal();
      return Fine;
    }

    /** Sets the size and marks the blob as finished. */
    method Seal()
      modifies this`total, this`finished, this`ts
      ensures finished && total == offStrings + sizeStrings && ts == FixedAll(old(ts), sizeStrings)
              && Final() == old(Final())
    {
      ghost var was := Final();
      total := offStrings + sizeStrings;
      finished := true;
      ts := FixedAll(ts, sizeStrings);
      assert Final() == was;
    }
  }

  lemma {:induction false} NoneFinishes(im: Image, ts: seq<Token>, calls: seq<Call>)
    requires Good(im, ts, calls)
    ensures forall i :: 0 <= i < |ts| ==> !ts[i].Finish?
    ensures Keeps(im, ts) && |im.Strings()| == im.sizeStrings
  {
    forall i | 0 <= i < |ts|
      ensures !ts[i].Finish?
    {
      assert Says(ts[i], calls[i], im.Strings());
    }
  }

  /** The tokens behind the run a are still to be corrected. */
  ghost predicate Remains(ts: seq<Token>, a: seq<Token>, rest: seq<Token>, size: nat) {
    && |a| <= |ts| && rest == (ts + [Finish])[|a|..]
    && a == FixedAll(ts[..|a|], size)
  }

  /** The walk has come to the token t, which lies at the offset; the run a in front of it is corrected. */
  ghost predicate Correcting(was: Image, im: Image, ts: seq<Token>, size: nat, a: seq<Token>, t: Token,
                             rest: seq<Token>, offset: nat, tag: nat, next: nat) {
    && SameRest(was, im) && Keeps(im, a + [t] + rest) && Remains(ts, a, [t] + rest, size)
    && ValidTokens(a) && offset == |Flat(a)| && tag == t.Tag() && ValidTokens(a + [t]) && next == |Flat(a + [t])|
  }

  lemma {:induction false} RemainsOn(ts: seq<Token>, a: seq<Token>, t: Token, rest: seq<Token>, size: nat)
    requires Remains(ts, a, [t] + rest, size) && t.Tag() != FDT_END
    ensures rest != [] && Remains(ts, a + [Fixed(t, size)], rest, size)
  {
    var all, i := ts + [Finish], |a|;
    assert ([t] + rest)[0] == all[i];
    assert i < |ts|;
    assert ([t] + rest)[1..] == all[i + 1..];
    assert ts[..i + 1] == ts[..i] + [t];
  }

  lemma {:induction false} RemainsNothing(ts: seq<Token>, a: seq<Token>, t: Token, rest: seq<Token>, size: nat)
    requires Remains(ts, a, [t] + rest, size) && t.Tag() == FDT_END && forall i :: 0 <= i < |ts| ==> !ts[i].Finish?
    ensures a + [t] + rest == FixedAll(ts, size) + [Finish]
  {
    var all, i := ts + [Finish], |a|;
    assert ([t] + rest)[0] == all[i];
    assert i == |ts|;
    assert ts[..i] == ts && all[i..] == [Finish];
    assert |rest| == 0;
  }

  lemma {:induction false} StepOn(im: Image, a: seq<Token>, t: Token, u: Token, c: seq<Token>, size: nat)
    requires Keeps(im, a + [if t.Prop? then Fixed(t, size) else t] + ([u] + c)) && ValidTokens(a)
             && ValidTokens(a + [t])
    ensures var d := a + [Fixed(t, size)];
            Keeps(im, d + [u] + c) && ValidTokens(d) && |Flat(d)| == |Flat(a + [t])|
  {
    var d := a + [Fixed(t, size)];
    assert d + ([u] + c) == d + [u] + c;
    ValidParts(d, [u], c);
    assert t == (a + [t])[|a|] && Fixed(t, size) == d[|a|];
    SizeOfPush(a, t);
    SizeOfPush(a, Fixed(t, size));
  }

  lemma {:induction false} SizeOfPush(a: seq<Token>, t: Token)
    requires ValidTokens(a) && t.Valid()
    ensures ValidTokens(a + [t]) && |Flat(a + [t])| == |Flat(a)| + t.Size()
  {
    FlatOne(t);
    FlatAppend(a, [t]);
  }

  /** Starts a blob in a buffer of the given size; the only flag there is switches the search for names off. */
  method Create(size: nat, flags: nat) returns (st: Status, w: Writer?)
    requires size < LIMIT31 && flags < LIMIT32
    ensures st == if size < 48 then NoRoom else if flags > 1 then BadFlags else Fine
    ensures st.Fine? <==> w != null
    ensures w != null ==>
              fresh(w) && fresh(w.buf) && w.buf.Length == size && w.Reserving() && w.calls == []
              && w.dedup == (flags == 0) && w.offStruct == w.offRsv
  {
    if size < 48 {
      return NoRoom, null;
    }
    if flags > 1 {
      return BadFlags, null;
    }
    st := Fine;
    w := new Writer(size, flags == 1);
  }

  // ---------------------------------------------------------------------------------------
  // The test for room in front of the strings
  // ---------------------------------------------------------------------------------------

  /** The test that a string passes: where it would start, in 32-bit arithmetic, is not below the structure's end. */
  predicate HasRoom(total: nat, used: nat, top: nat, len: nat) {
    (total - used - len) % LIMIT32 >= top
  }

  /**
    Strings that fit pass the test, and so do all that are longer than everything behind the start
    of the buffer.
    */
  lemma {:induction false} RoomTested(total: nat, used: nat, top: nat, len: nat)
    requires top + used <= total < LIMIT31 && len < LIMIT31
    ensures HasRoom(total, used, top, len) <==> len <= total - used - top || len > total - used
  {
    var x := total - used - len;
    if x >= 0 {
      assert x % LIMIT32 == x;
    } else {
      assert x % LIMIT32 == x + LIMIT32;
    }
  }

  /**
    What adding a property gives, by the room that its name needs, the length of its value, the
    bytes in front of the strings, and those of them that are free.
    */
  function PropertyResult(need: nat, len: nat, ahead: int, free: int): Status {
    if need > ahead then Status.Astray else if need + 12 + TagAlign(len) <= free then Fine else NoRoom
  }

  lemma {:induction false} FoundFits(strs: Bytes, name: Bytes)
    requires Ops.HasString(strs, name)
    ensures |name| < |strs|
  {
    var off: nat :| StringAt(strs, off) == Some(name);
  }

  /** In a buffer of any size, with either flag: a first property whose name does not fit in the buffer goes astray. */
  method LongNameGoesAstray(size: nat, flags: nat, name: Bytes) returns (st: Status)
    requires 64 <= size <= |name| && |name| + 1 < LIMIT31 && 0 !in name && flags <= 1
    ensures st.Astray?
  {
    var s, w := Create(size, flags);
    s := w.FinishReserve();
    assert s.Fine?;
    ghost var strs := w.Building().Strings();
    if Ops.HasString(strs, name) {
      FoundFits(strs, name);
    }
    st := w.AddProperty(name, []);
  }

  /** The bytes that a name takes in the strings block. */
  ghost function NameRoom(name: Bytes, strs: Bytes, dedup: bool): nat {
    if dedup && Ops.HasString(strs, name) then 0 else |name| + 1
  }

  lemma {:induction false} PushedNamed(was: Image, now: Image, ts: seq<Token>, calls: seq<Call>, name: Bytes,
                                       nameoff: nat)
    requires Good(was, ts, calls) && 0 !in name && was.offStruct + was.sizeStruct + |name + [0]| <= was.offStrings
    requires now == StringPushed(was, name + [0]) && nameoff == LIMIT32 - now.sizeStrings
    ensures Good(now, ts, calls) && NamedBy(now, nameoff, 0, name)
  {
    PushedGood(was, ts, calls, name + [0]);
    PushedFirst(name, was.Strings());
  }

  lemma {:induction false} PushedFirst(name: Bytes, strs: Bytes)
    requires 0 !in name
    ensures StringAt((name + [0]) + strs, 0) == Some(name)
  {
    var s := (name + [0]) + strs;
    assert s[0..|name| + 1] == name + [0];
    StringIs(s, 0, name);
  }

  // ---------------------------------------------------------------------------------------
  // Reading it back
  // ---------------------------------------------------------------------------------------

  /** Walks a finished blob tag by tag and reports what it holds. */
  method ReadBack(b: Bytes, strs: Bytes, ghost ts: seq<Token>, ghost calls: seq<Call>) returns (r: seq<Call>)
    requires ValidTokens(ts) && b == Flat(ts + [Finish]) && AllShow(ts, calls, strs)
    ensures r == calls
  {
    ghost var all := ts + [Finish];
    ghost var at := Offsets(all);
    FlatIndexed(all);
    var offset := 0;
    ghost var i := 0;
    r := [];
    FirstOffset(all);
    ShownTags(ts, calls, strs);
    var tag := TagAt(b, offset, all, at, 0);
    while tag.value.0 != FDT_END
      invariant i <= |ts| && offset == at[i] && tag == Some((all[i].Tag(), at[i + 1]))
      invariant r == calls[..i]
      decreases |ts| - i
    {
      assert i < |ts| && Shows(ts[i], calls[i], strs);
      var c := ReadCall(b, strs, offset, tag.value.0, all, at, i);
      NamesShown(ts[i], calls[i], c, strs);
      r := r + [c];
      offset := tag.value.1;
      i := i + 1;
      tag := TagAt(b, offset, all, at, i);
    }
  }

  lemma {:induction false} ShownTags(ts: seq<Token>, calls: seq<Call>, strs: Bytes)
    requires AllShow(ts, calls, strs)
    ensures forall i :: 0 <= i < |ts| ==> ts[i].Tag() != FDT_END
  {
    forall i | 0 <= i < |ts|
      ensures ts[i].Tag() != FDT_END
    {
      assert Shows(ts[i], calls[i], strs);
    }
  }

  lemma {:induction false} FirstOffset(ts: seq<Token>)
    requires ValidTokens(ts)
    ensures Offsets(ts)[0] == 0
  {
    assert ts[..0] == [];
    assert Flat([]) == [];
  }

  ghost predicate Reads(t: Token, c: Call, strs: Bytes) {
    match t
    case Begin(name, _) => c == Open(name)
    case End => c == Close
    case Prop(off, val, _) => c.Property? && c.val == val && StringAt(strs, off) == Some(c.name)
    case _ => false
  }

  lemma {:induction false} NamesShown(t: Token, c: Call, d: Call, strs: Bytes)
    requires Shows(t, c, strs) && Reads(t, d, strs)
    ensures c == d
  {
  }

  method ReadCall(b: Bytes, strs: Bytes, offset: nat, tag: nat, ghost ts: seq<Token>, ghost at: seq<nat>, ghost i: nat)
    returns (c: Call)
    requires Indexed(b, ts, at) && i < |ts| && offset == at[i] && tag == ts[i].Tag()
    requires ts[i].Begin? || ts[i].End? || (ts[i].Prop? && StringAt(strs, ts[i].nameoff).Some?)
    ensures Reads(ts[i], c, strs)
  {
    if tag == FDT_BEGIN_NODE {
      var name := GetName(b, offset, ts, at, i);
      c := Open(name);
    } else if tag == FDT_PROP {
      var off, val := GetProperty(b, offset, ts, at, i);
      c := Property(StringAt(strs, off).value, val);
    } else {
      c := Close;
    }
  }
}
