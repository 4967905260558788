/**
  Shifting the references that the local fixups of an overlay list, in the overlay's blob. The tree
  that is written to and the fixups that are read lie in the same buffer; writing in place moves
  neither.
  */
module FdtFixups {
  import opened Options
  import opened FdtFormat
  import opened FdtTree
  import opened FdtRead
  import opened FdtBlob
  import opened FdtChunk
  import opened FdtEdit
  import opened FdtRw
  import opened FdtModel
  import opened FdtContents
  import opened FdtWhole
  import opened FdtPath
  import opened FdtOutline
  import opened FdtWip
  import opened FdtLocal
  import M = FdtMergeMeaning
  import O = FdtOverlay
  import P = FdtPhandle
  import L = FdtLive

  // ---------------------------------------------------------------------------------------
  // Between a value and the end of the buffer
  // ---------------------------------------------------------------------------------------

  /**
    From the value of the first property that has the name, of a node whose properties follow token
    k, to the end of a buffer whose structure block begins at start.
    */
  ghost predicate ItemRoom(at: seq<nat>, k: nat, head: seq<Item>, has: nat -> bool, start: nat, size: nat, room: nat) {
    var i := PropIndex(head, has, 0);
    i < |head| ==> k + 1 + i < |at| && |head[i].val| <= room && start + at[k + 1 + i] + 12 + room == size
  }

  /** The same for the node at path p. */
  ghost predicate RoomIs(im: Image, root: RNode, p: Path, name: Bytes, room: nat)
    requires Encodes(im, root) && InNode(root, p)
  {
    && ValidTokens(Whole(root))
    && ItemRoom(Offsets(Whole(root)), IndexOf(0, root, p), SubNode(root, p).head, Named(im.Strings(), name),
         im.offStruct, |im.bytes|, room)
  }

  ghost predicate RoomsAre(im: Image, root: RNode, rooms: L.Rooms) {
    && Encodes(im, root) && L.Small(rooms)
    && forall p, name :: InNode(root, p) ==> RoomIs(im, root, p, name, rooms(p, name))
  }

  lemma {:induction false} SamePropIndex(a: seq<Item>, b: seq<Item>, has: nat -> bool, i: nat)
    requires OutlineHead(a) == OutlineHead(b) && i <= |a|
    ensures |a| == |b| && PropIndex(a, has, i) == PropIndex(b, has, i)
    decreases |a| - i
  {
    assert |a| == |OutlineHead(a)| == |b|;
    if i < |a| {
      assert OutlineHead(a)[i] == OutlineHead(b)[i];
      SamePropIndex(a, b, has, i + 1);
    }
  }

  lemma {:induction false} SameItemRoom(at: seq<nat>, k: nat, a: seq<Item>, b: seq<Item>, has: nat -> bool, start: nat,
                                        size: nat, room: nat)
    requires ItemRoom(at, k, a, has, start, size, room) && OutlineHead(a) == OutlineHead(b)
    ensures ItemRoom(at, k, b, has, start, size, room)
  {
    SamePropIndex(a, b, has, 0);
    var i := PropIndex(a, has, 0);
    if i < |a| {
      assert OutlineHead(a)[i] == OutlineHead(b)[i];
    }
  }

  /** The structure block starts where it started. */
  lemma {:induction false} SameStart(was: Image, im: Image)
    requires SameRest(was, im)
    ensures im.offStruct == was.offStruct
  {
    assert |im.Reserved()| == |was.Reserved()|;
  }

  lemma {:induction false} RoomOn(was: Image, im: Image, root: RNode, now: RNode, p: Path, name: Bytes, room: nat)
    requires Encodes(was, root) && SameRest(was, im) && Outline(root) == Outline(now) && Encodes(im, now)
    requires InNode(root, p) && RoomIs(was, root, p, name, room)
    ensures InNode(now, p) && RoomIs(im, now, p, name, room)
  {
    SameIndex(0, root, now, p);
    assert ValidTokens(Whole(now)) && Offsets(Whole(now)) == Offsets(Whole(root)) by {
      LiesIndex(im, now, p, 0);
      WholeOffsets(root, now);
    }
    SameStart(was, im);
    var k, has := IndexOf(0, root, p), Named(was.Strings(), name);
    SameItemRoom(Offsets(Whole(root)), k, SubNode(root, p).head, SubNode(now, p).head, has, was.offStruct,
      |was.bytes|, room);
  }

  /** Writing in place changes no room. */
  lemma {:induction false} RoomsOn(was: Image, im: Image, root: RNode, now: RNode, p: Path, rooms: L.Rooms)
    requires RoomsAre(was, root, rooms) && Rewritten(was, im, root, now, p)
    ensures RoomsAre(im, now, rooms)
  {
    forall q, name | InNode(now, q)
      ensures RoomIs(im, now, q, name, rooms(q, name))
    {
      SameIndex(0, now, root, q);
      assert RoomIs(was, root, q, name, rooms(q, name));
      RoomOn(was, im, root, now, q, name, rooms(q, name));
    }
  }

  /** The room as a number; nothing for a property that does not exist. */
  ghost function RoomOf(at: seq<nat>, k: nat, head: seq<Item>, has: nat -> bool, start: nat, size: nat): (r: nat)
    ensures r <= size
  {
    var i := PropIndex(head, has, 0);
    if i < |head| && k + 1 + i < |at| && start + at[k + 1 + i] + 12 <= size
      then size - (start + at[k + 1 + i] + 12) else 0
  }

  /** A property of a node lies inside the structure block with its value. */
  lemma {:induction false} ItemInside(b: Bytes, ts: seq<Token>, at: seq<nat>, k: nat, n: RNode, i: nat)
    requires Indexed(b, ts, at) && Occurs(ts, k, NodeTokens(n)) && i < |n.head| && n.head[i].ItemProp?
    ensures k + 1 + i < |ts| && at[k + 1 + i] + 12 + |n.head[i].val| <= |b|
  {
    HeadFacts(ts, k, n);
    assert ts[k + 1 + i] == ItemToken(n.head[i]);
    assert PropAt(b, at[k + 1 + i], ts[k + 1 + i].nameoff, ts[k + 1 + i].val);
  }

  lemma {:induction false} RoomFits(b: Bytes, ts: seq<Token>, at: seq<nat>, k: nat, n: RNode, has: nat -> bool,
                                    start: nat, size: nat)
    requires Indexed(b, ts, at) && Occurs(ts, k, NodeTokens(n)) && start + |b| <= size
    ensures ItemRoom(at, k, n.head, has, start, size, RoomOf(at, k, n.head, has, start, size))
  {
    var i := PropIndex(n.head, has, 0);
    if i < |n.head| {
      ItemInside(b, ts, at, k, n, i);
    }
  }

  /** The room of a property of the node at path p. */
  ghost function PathRoom(im: Image, root: RNode, p: Path, name: Bytes): (r: nat)
    requires im.Ordered() && ValidTokens(Whole(root))
    ensures r < LIMIT31
  {
    if InNode(root, p) then RoomOf(Offsets(Whole(root)), IndexOf(0, root, p), SubNode(root, p).head,
      Named(im.Strings(), name), im.offStruct, |im.bytes|)
    else 0
  }

  /** The rooms of a blob. */
  ghost function RoomsOf(im: Image, root: RNode): (r: L.Rooms)
    requires im.Ordered() && ValidTokens(Whole(root))
    ensures L.Small(r)
  {
    (p: Path, name: Bytes) => PathRoom(im, root, p, name)
  }

  lemma {:induction false} PathRoomIs(im: Image, root: RNode, p: Path, name: Bytes)
    requires Encodes(im, root) && InNode(root, p)
    ensures ValidTokens(Whole(root)) && RoomIs(im, root, p, name, PathRoom(im, root, p, name))
  {
    LiesIndex(im, root, p, 0);
    var ts := Whole(root);
    FlatIndexed(ts);
    assert Occurs(ts, 0, NodeTokens(root));
    NodeOccurs(ts, 0, root, p);
    RoomFits(im.Struct(), ts, Offsets(ts), IndexOf(0, root, p), SubNode(root, p), Named(im.Strings(), name),
      im.offStruct, |im.bytes|);
  }

  /** Every blob has its rooms. */
  lemma {:induction false} RoomsExist(im: Image, root: RNode)
    requires Encodes(im, root)
    ensures ValidTokens(Whole(root)) && RoomsAre(im, root, RoomsOf(im, root))
  {
    LiesIndex(im, root, [], 0);
    forall p, name | InNode(root, p)
      ensures RoomIs(im, root, p, name, RoomsOf(im, root)(p, name))
    {
      PathRoomIs(im, root, p, name);
    }
  }

  lemma {:induction false} RoomHere(im: Image, root: RNode, p: Path, name: Bytes, rooms: L.Rooms)
    requires RoomsAre(im, root, rooms) && InNode(root, p)
    ensures ValidTokens(Whole(root)) && rooms(p, name) < LIMIT31
    ensures ItemRoom(Offsets(Whole(root)), IndexOf(0, root, p), SubNode(root, p).head, Named(im.Strings(), name),
              im.offStruct, |im.bytes|, rooms(p, name))
  {
    assert RoomIs(im, root, p, name, rooms(p, name));
  }

  /** The value of the first property of that name of the node at token k, and the room from its start on. */
  method PlacedAmong(b: Bytes, strs: Bytes, o: nat, name: Bytes, start: nat, size: nat, ghost ts: seq<Token>,
                     ghost at: seq<nat>, ghost k: nat, ghost n: RNode, ghost here: nat)
    returns (r: Option<Bytes>, room: nat)
    requires Indexed(b, ts, at) && k < |ts| && Occurs(ts, k, NodeTokens(n)) && ts[k].Begin? && o == at[k]
    requires ItemRoom(at, k, n.head, Named(strs, name), start, size, here)
    ensures var i := PropIndex(n.head, Named(strs, name), 0); r == if i < |n.head| then Some(n.head[i].val) else None
    ensures r.Some? ==> |r.value| <= room == here
  {
    var place;
    r, place := ValueAmong(b, strs, o, name, ts, at, k, n);
    room := 0;
    if r.Some? {
      room := size - (start + place);
    }
  }

  /** The value of a property of the node at path p, and the room from its start on. */
  method GetPlaced(blob: Blob, o: nat, name: Bytes, ghost root: RNode, ghost p: Path, ghost rooms: L.Rooms)
    returns (r: Option<Bytes>, room: nat)
    requires LiesAt(blob.Value(), root, p, o) && RoomsAre(blob.Value(), root, rooms)
    ensures r == M.Value(Contents(blob.Value(), SubNode(root, p)).props, name)
    ensures r.Some? ==> |r.value| <= room == rooms(p, name)
  {
    var b := StructBytes(blob);
    var strs := StringBytes(blob);
    ghost var ts, at, k := LiesOverlay(blob.Value(), root, p, o);
    ValueFound(SubNode(root, p), strs, name);
    RoomHere(blob.Value(), root, p, name, rooms);
    r, room := PlacedAmong(b, strs, o, name, blob.offStruct, blob.buf.Length, ts, at, k, SubNode(root, p),
      rooms(p, name));
  }

  // ---------------------------------------------------------------------------------------
  // The words of one property
  // ---------------------------------------------------------------------------------------

  /** Setting a property again and again leaves the last value. */
  lemma {:induction false} SetAgain(t: Tree, name: Bytes, a: Bytes, b: Bytes)
    ensures FdtModel.SetProp(FdtModel.SetProp(t, name, a), name, b) == FdtModel.SetProp(t, name, b)
  {
    var i := PropPos(t.props, name);
    var u := FdtModel.SetProp(t, name, a);
    if i < |t.props| {
      PropPosIs(u.props, name, i);
    } else {
      PropPosIs(u.props, name, 0);
      assert u.props[0 := Property(name, b)] == [Property(name, b)] + t.props;
    }
  }

  lemma {:induction false} SetSame(t: Tree, name: Bytes, v: Bytes)
    requires M.Value(t.props, name) == Some(v)
    ensures FdtModel.SetProp(t, name, v) == t
  {
    M.ValueAt(t.props, name);
    var i := PropPos(t.props, name);
    assert t.props[i] == Property(name, v);
  }

  /** The tree u is t with this value of the property, which t had already. */
  ghost predicate Holding(t: Tree, u: Tree, name: Bytes, cur: Bytes) {
    u == FdtModel.SetProp(t, name, cur) && M.Value(u.props, name) == Some(cur)
  }

  lemma {:induction false} HoldingStart(t: Tree, name: Bytes, v: Bytes)
    requires M.Value(t.props, name) == Some(v)
    ensures Holding(t, t, name, v)
  {
    SetSame(t, name, v);
  }

  /** The word at offset x, shifted; what is read beyond the value is never written. */
  function ShiftedWord(v: Bytes, x: nat, delta: nat): (r: Bytes)
    ensures |r| == 4
  {
    Be32(if x + 4 <= |v| then (Word(v, x) + delta) % LIMIT32 else 0)
  }

  lemma {:induction false} HoldingStep(t: Tree, u: Tree, name: Bytes, cur: Bytes, x: nat, delta: nat, w: Tree)
    requires Holding(t, u, name, cur) && x + 4 <= |cur| && Patched(u, name, x, ShiftedWord(cur, x, delta)) == Some(w)
    ensures Holding(t, w, name, P.Shift(cur, x, delta))
  {
    var next := P.Shift(cur, x, delta);
    M.ValueAt(u.props, name);
    assert w == FdtModel.SetProp(u, name, next);
    SetAgain(t, name, cur, next);
    M.ValueOfSet(t, name, next, name);
  }

  /** The error of a result. */
  function ErrorOf<T>(r: P.Result<T>): Option<P.Error> {
    match r case Ok(_) => None case Err(e) => Some(e)
  }

  /** What shifting the word at offset x leads to: it is read first, then tested, then written. */
  function WordResult(size: nat, room: nat, x: nat): Error {
    if x + 4 > room then Astray else PatchResult(size, x, 4)
  }

  /** Shifts the word at offset x of a property of the node at path p. */
  method ShiftOne(blob: Blob, o: nat, name: Bytes, x: nat, delta: nat, ghost root: RNode, ghost p: Path,
                  ghost rooms: L.Rooms, ghost t: Tree, ghost cur: Bytes)
    returns (e: Error, ghost now: RNode)
    requires LiesAt(blob.Value(), root, p, o) && Holding(t, Contents(blob.Value(), SubNode(root, p)), name, cur)
             && RoomsAre(blob.Value(), root, rooms) && x < LIMIT32
    modifies blob, blob.buf
    ensures e == WordResult(|cur|, rooms(p, name), x)
    ensures !e.Astray? ==> Rewritten(old(blob.Value()), blob.Value(), root, now, p) && LiesAt(blob.Value(), now, p, o)
    ensures !e.Astray? ==> SubNode(now, p).kids == SubNode(root, p).kids
    ensures e.Ok? ==> x + 4 <= |cur| && Holding(t, Contents(blob.Value(), SubNode(now, p)), name,
            P.Shift(cur, x, delta))
  {
    ghost var u := Contents(blob.Value(), SubNode(root, p));
    var val, room := GetPlaced(blob, o, name, root, p, rooms);
    if x + 4 > room {
      return Astray, root;
    }
    var data := ShiftedWord(val.value, x, delta);
    M.ValueAt(u.props, name);
    e, now := WriteInPlace(blob, o, name, x, data, root, p);
    if e.Ok? {
      HoldingStep(t, u, name, cur, x, delta, Contents(blob.Value(), SubNode(now, p)));
    }
  }

  lemma {:induction false} RoomBound(im: Image, root: RNode, p: Path, o: nat, name: Bytes, v: Bytes, rooms: L.Rooms)
    requires LiesAt(im, root, p, o) && RoomsAre(im, root, rooms)
             && M.Value(Contents(im, SubNode(root, p)).props, name) == Some(v)
    ensures |v| <= rooms(p, name)
  {
    LiesPlaced(im, root, p, o);
    ValueFound(SubNode(root, p), im.Strings(), name);
    RoomHere(im, root, p, name, rooms);
  }

  lemma {:induction false} ListedAt(fix: Bytes, i: nat)
    requires i < |fix| / 4
    ensures P.Listed(fix)[i..] == [Word(fix, 4 * i)] + P.Listed(fix)[i + 1..]
  {
    assert P.Listed(fix)[i] == Word(fix, 4 * i);
  }

  /** What the first of several offsets leads to. */
  lemma {:induction false} ShiftAllStep(v: Bytes, room: nat, x: nat, rest: seq<nat>, delta: nat)
    requires |v| <= room
    ensures match WordResult(|v|, room, x)
            case Ok =>
              && x + 4 <= |v| && P.ShiftAll(v, [x] + rest, delta) == P.ShiftAll(P.Shift(v, x, delta), rest, delta)
              && L.ShiftError(|v|, room, [x] + rest) == L.ShiftError(|v|, room, rest)
            case NoSpace =>
              P.ShiftAll(v, [x] + rest, delta).None? && L.ShiftError(|v|, room, [x] + rest) == P.BadOverlay
            case Astray => P.ShiftAll(v, [x] + rest, delta).None? && L.ShiftError(|v|, room, [x] + rest) == P.Astray
            case _ => false
  {
    assert ([x] + rest)[1..] == rest;
    if x + 4 <= |v| && x + 4 < LIMIT32 {
      assert (x + 4) % LIMIT32 == x + 4;
    }
  }

  /** Shifts all words that the fixup lists, in the property of that name of the node at path p. */
  method ShiftListed(blob: Blob, o: nat, name: Bytes, fix: Bytes, delta: nat, ghost rooms: L.Rooms, ghost root: RNode,
                     ghost p: Path,
                     ghost v: Bytes)
    returns (e: Option<P.Error>, ghost now: RNode)
    requires LiesAt(blob.Value(), root, p, o) && M.Value(Contents(blob.Value(), SubNode(root, p)).props, name) ==
             Some(v)
    requires RoomsAre(blob.Value(), root, rooms)
    modifies blob, blob.buf
    ensures e == if P.ShiftAll(v, P.Listed(fix), delta).Some? then None
            else Some(L.ShiftError(|v|, rooms(p, name), P.Listed(fix)))
    ensures e != Some(P.Astray) ==>
              Rewritten(old(blob.Value()), blob.Value(), root, now, p) && LiesAt(blob.Value(), now, p, o)
    ensures e != Some(P.Astray) ==> SubNode(now, p).kids == SubNode(root, p).kids
    ensures e.None? ==> Contents(blob.Value(), SubNode(now, p)) ==
                        FdtModel.SetProp(old(Contents(blob.Value(), SubNode(root, p))), name,
                          P.ShiftAll(v, P.Listed(fix), delta).value)
  {
    ghost var was, im, cur := blob.Value(), blob.Value(), v;
    ghost var t := Contents(was, SubNode(root, p));
    ghost var goal, error := P.ShiftAll(v, P.Listed(fix), delta), L.ShiftError(|v|, rooms(p, name), P.Listed(fix));
    now := root;
    RewrittenNot(was, root, p, o);
    HoldingStart(t, name, v);
    RoomBound(was, root, p, o, name, v, rooms);
    var i := 0;
    assert P.Listed(fix)[0..] == P.Listed(fix);
    while i < |fix| / 4
      invariant i <= |fix| / 4 && im == blob.Value()
      invariant Rewritten(was, im, root, now, p) && LiesAt(im, now, p, o)
                && SubNode(now, p).kids == SubNode(root, p).kids
      invariant Holding(t, Contents(im, SubNode(now, p)), name, cur) && |cur| == |v| && RoomsAre(im, now, rooms)
      invariant goal == P.ShiftAll(cur, P.Listed(fix)[i..], delta)
                && error == L.ShiftError(|v|, rooms(p, name), P.Listed(fix)[i..])
    {
      ghost var next, mid := now, im;
      var poffset, r := Word(fix, 4 * i), Ok;
      ListedAt(fix, i);
      ShiftAllStep(cur, rooms(p, name), poffset, P.Listed(fix)[i + 1..], delta);
      r, next := ShiftOne(blob, o, name, poffset, delta, now, p, rooms, t, cur);
      if r.Astray? {
        return Some(P.Astray), next;
      }
      im := blob.Value();
      RewrittenOn(was, mid, im, root, now, next, p);
      RoomsOn(was, im, root, next, p, rooms);
      now := next;
      if r.NoSpace? {
        return Some(P.BadOverlay), now;
      }
      cur, i := P.Shift(cur, poffset, delta), i + 1;
    }
    assert P.Listed(fix)[i..] == [];
    e := None;
  }

  // ---------------------------------------------------------------------------------------
  // The properties of a fixup node
  // ---------------------------------------------------------------------------------------

  /** What one fixup property does to the node it is about. */
  ghost function FixProperty(t: Tree, fix: Property, delta: nat, p: Path, rooms: L.Rooms): P.Result<Tree> {
    if |fix.val| % 4 != 0 then P.Err(P.BadOverlay)
    else
      match M.Value(t.props, fix.name)
      case None => P.Err(P.BadOverlay)
      case Some(v) =>
        match P.ShiftAll(v, P.Listed(fix.val), delta)
        case None => P.Err(L.ShiftError(|v|, rooms(p, fix.name), P.Listed(fix.val)))
        case Some(w) => P.Ok(FdtModel.SetProp(t, fix.name, w))
  }

  lemma {:induction false} FixPropsStep(t: Tree, fix: Property, rest: seq<Property>, delta: nat, p: Path,
                                        rooms: L.Rooms)
    ensures L.LiveProps(t, [fix] + rest, delta, p, rooms) ==
            match FixProperty(t, fix, delta, p, rooms)
            case Err(e) => P.Err(e)
            case Ok(u) => L.LiveProps(u, rest, delta, p, rooms)
  {
    assert ([fix] + rest)[1..] == rest;
  }

  /** Applies one fixup property to the node at path p. */
  method ApplyFixup(blob: Blob, o: nat, name: Bytes, fix: Bytes, delta: nat, ghost rooms: L.Rooms, ghost root: RNode,
                    ghost p: Path)
    returns (e: Option<P.Error>, ghost now: RNode)
    requires LiesAt(blob.Value(), root, p, o)
    requires RoomsAre(blob.Value(), root, rooms)
    modifies blob, blob.buf
    ensures var r := FixProperty(old(Contents(blob.Value(), SubNode(root, p))), Property(name, fix), delta, p, rooms);
            e == ErrorOf(r)
    ensures e != Some(P.Astray) ==>
              Rewritten(old(blob.Value()), blob.Value(), root, now, p) && LiesAt(blob.Value(), now, p, o)
    ensures e != Some(P.Astray) ==> SubNode(now, p).kids == SubNode(root, p).kids
    ensures e.None? ==>
              FixProperty(old(Contents(blob.Value(), SubNode(root, p))), Property(name, fix), delta, p, rooms) ==
              P.Ok(Contents(blob.Value(), SubNode(now, p)))
  {
    now := root;
    RewrittenNot(blob.Value(), root, p, o);
    if |fix| % 4 != 0 {
      return Some(P.BadOverlay), root;
    }
    var val := GetProp(blob, o, name, root, p);
    if val.None? {
      return Some(P.BadOverlay), root;
    }
    e, now := ShiftListed(blob, o, name, fix, delta, rooms, root, p, val.value);
  }

  /** Item j of the node at path q, a property, lies at the given offset; there is none if there is no offset. */
  ghost predicate ItemLies(root: RNode, q: Path, j: nat, r: Option<nat>) {
    && InNode(root, q) && ValidTokens(Whole(root)) && j <= |SubNode(root, q).head|
    && IndexOf(0, root, q) + 1 + |SubNode(root, q).head| < |Offsets(Whole(root))|
    && r == O.ItemAt(Offsets(Whole(root)), IndexOf(0, root, q), SubNode(root, q), j)
    && (j < |SubNode(root, q).head| ==> SubNode(root, q).head[j].ItemProp?)
  }

  lemma {:induction false} SameItemAt(at: seq<nat>, k: nat, n: RNode, m: RNode, j: nat)
    requires n.head == m.head && j <= |n.head| && k + 1 + |n.head| < |at|
    ensures O.ItemAt(at, k, n, j) == O.ItemAt(at, k, m, j)
  {
  }

  /** In a blob of the same outline an item of a node with unchanged properties lies where it lay. */
  lemma {:induction false} ItemStill(im: Image, root: RNode, now: RNode, q: Path, j: nat, r: Option<nat>)
    requires ItemLies(root, q, j, r) && Outline(root) == Outline(now) && Encodes(im, now)
    requires InNode(now, q) && SubNode(now, q).head == SubNode(root, q).head
    ensures ItemLies(now, q, j, r)
  {
    assert ValidTokens(Whole(now)) && Offsets(Whole(now)) == Offsets(Whole(root)) by {
      LiesIndex(im, now, q, 0);
      WholeOffsets(root, now);
    }
    SameIndex(0, root, now, q);
    SameItemAt(Offsets(Whole(now)), IndexOf(0, now, q), SubNode(root, q), SubNode(now, q), j);
  }

  /** The properties from item j on. */
  ghost function From(head: seq<Item>, j: nat, names: nat -> Bytes): seq<Property>
    requires j <= |head|
  {
    AbsHead(head[j..], names)
  }

  lemma {:induction false} FromSplit(head: seq<Item>, j: nat, names: nat -> Bytes)
    requires j <= |head|
    ensures AbsHead(head, names) == AbsHead(head[..j], names) + From(head, j, names)
  {
    assert head == head[..j] + head[j..];
    AbsHeadAppend(head[..j], head[j..], names);
  }

  lemma {:induction false} FromNext(head: seq<Item>, i: nat, j: nat, x: Property, names: nat -> Bytes)
    requires i <= |head| && j <= |head| && AbsHead(head[..j], names) == AbsHead(head[..i], names) + [x]
    ensures From(head, i, names) == [x] + From(head, j, names)
  {
    FromSplit(head, i, names);
    FromSplit(head, j, names);
    var a := AbsHead(head[..i], names);
    assert a + From(head, i, names) == a + ([x] + From(head, j, names));
    assert From(head, i, names) == (a + From(head, i, names))[|a|..];
    assert [x] + From(head, j, names) == (a + ([x] + From(head, j, names)))[|a|..];
  }

  /** The first property of the node at path q. */
  method FirstItem(blob: Blob, o: nat, ghost root: RNode, ghost q: Path) returns (r: Option<nat>, ghost j: nat)
    requires LiesAt(blob.Value(), root, q, o)
    ensures ItemLies(root, q, j, r)
    ensures From(SubNode(root, q).head, j, NameTable(blob.Value().Strings())) ==
            Contents(blob.Value(), SubNode(root, q)).props
  {
    var b := StructBytes(blob);
    ghost var im, n := blob.Value(), SubNode(root, q);
    ghost var ts, at, k := LiesOverlay(im, root, q, o);
    O.OverlayBounds(b, im.Strings(), ts, at, k, n);
    r, j := O.FirstProperty(b, o, im.Strings(), ts, at, k, n);
    FromSplit(n.head, j, NameTable(im.Strings()));
  }

  /** The block seen from item i of the node at path q. */
  lemma {:induction false} ItemSeen(im: Image, root: RNode, q: Path, o: nat, i: nat, x: nat, n: RNode)
    returns (ts: seq<Token>, at: seq<nat>, k: nat)
    requires LiesAt(im, root, q, o) && n == SubNode(root, q) && ItemLies(root, q, i, Some(x))
    ensures O.Overlay(im.Struct(), im.Strings(), ts, at, k, n) && k + 1 + |n.head| < |ts| && |at| == |ts| + 1
    ensures i < |n.head| && n.head[i].ItemProp? && x == at[k + 1 + i]
    ensures ts == Whole(root) && ValidTokens(ts) && at == Offsets(ts) && k == IndexOf(0, root, q)
  {
    ts, at, k := LiesOverlay(im, root, q, o);
    O.OverlayBounds(im.Struct(), im.Strings(), ts, at, k, n);
    ItemThere(root, q, i, x, n, at, k);
  }

  lemma {:induction false} ItemThere(root: RNode, q: Path, i: nat, x: nat, n: RNode, at: seq<nat>, k: nat)
    requires ItemLies(root, q, i, Some(x)) && n == SubNode(root, q) && at == Offsets(Whole(root))
             && k == IndexOf(0, root, q)
    ensures i < |n.head| && n.head[i].ItemProp? && k + 1 + |n.head| < |at| && x == at[k + 1 + i]
  {
  }

  lemma {:induction false} ItemBack(root: RNode, q: Path, n: RNode, k: nat, j: nat, r: Option<nat>)
    requires InNode(root, q) && n == SubNode(root, q) && k == IndexOf(0, root, q) && ValidTokens(Whole(root))
             && k + 1 + |n.head| <= |Whole(root)|
    requires j <= |n.head| && r == O.ItemAt(Offsets(Whole(root)), k, n, j) && (j < |n.head| ==> n.head[j].ItemProp?)
    ensures ItemLies(root, q, j, r)
  {
  }

  /** Name and value of item i. */
  method ReadItem(blob: Blob, x: nat, ghost o: nat, ghost root: RNode, ghost q: Path, ghost i: nat)
    returns (name: Bytes, val: Bytes)
    requires LiesAt(blob.Value(), root, q, o) && ItemLies(root, q, i, Some(x))
    ensures SubNode(root, q).head[i].ItemProp? && Property(name, val) ==
            O.PropertyOf(SubNode(root, q).head[i], NameTable(blob.Value().Strings()))
  {
    var b := StructBytes(blob);
    var strs := StringBytes(blob);
    ghost var n := SubNode(root, q);
    ghost var ts, at, k := ItemSeen(blob.Value(), root, q, o, i, x, n);
    name, val := O.PropertyByOffset(b, strs, x, ts, at, k, n, i);
  }

  /** The property behind item i. */
  method NextItem(blob: Blob, x: nat, ghost o: nat, ghost root: RNode, ghost q: Path, ghost i: nat)
    returns (r: Option<nat>, ghost j: nat)
    requires LiesAt(blob.Value(), root, q, o) && ItemLies(root, q, i, Some(x))
    ensures i < j && ItemLies(root, q, j, r)
    ensures var head, names := SubNode(root, q).head, NameTable(blob.Value().Strings());
            From(head, i, names) == [O.PropertyOf(head[i], names)] + From(head, j, names)
  {
    var b := StructBytes(blob);
    ghost var im, n := blob.Value(), SubNode(root, q);
    ghost var ts, at, k := ItemSeen(im, root, q, o, i, x, n);
    r, j := O.FollowingProperty(b, x, im.Strings(), ts, at, k, n, i);
    ItemBack(root, q, n, k, j, r);
    FromNext(n.head, i, j, O.PropertyOf(n.head[i], NameTable(im.Strings())), NameTable(im.Strings()));
  }

  // ---------------------------------------------------------------------------------------
  // Tree and fixups in one blob
  // ---------------------------------------------------------------------------------------

  /** Writing to properties of the node at p leaves the properties of every other node alone. */
  lemma {:induction false} HeadElsewhere(n: RNode, p: Path, m: RNode, q: Path)
    requires InNode(n, p) && m.kids == SubNode(n, p).kids && InNode(n, q) && q != p
    ensures InNode(PutNode(n, p, m), q) && SubNode(PutNode(n, p, m), q).head == SubNode(n, q).head
    decreases |p|
  {
    if p != [] && q != [] && q[0] == p[0] {
      assert q == [q[0]] + q[1..] && p == [p[0]] + p[1..];
      HeadElsewhere(n.kids[p[0]], p[1..], m, q[1..]);
    }
  }

  /** The node at path p and the fixup node at path q, which has these properties. */
  ghost predicate Placing(im: Image, root: RNode, p: Path, o: nat, q: Path, fo: nat, head: seq<Item>) {
    LiesAt(im, root, p, o) && LiesAt(im, root, q, fo) && SubNode(root, q).head == head
  }

  lemma {:induction false} PlacingOn(was: Image, im: Image, root: RNode, now: RNode, p: Path, o: nat, q: Path,
                                     fo: nat, head: seq<Item>)
    requires Placing(was, root, p, o, q, fo, head) && p != q
    requires Rewritten(was, im, root, now, p) && SubNode(now, p).kids == SubNode(root, p).kids
    ensures Placing(im, now, p, o, q, fo, head)
  {
    StillLies(was, im, root, now, p, o);
    StillLies(was, im, root, now, q, fo);
    HeadElsewhere(root, p, SubNode(now, p), q);
  }

  lemma {:induction false} FromHere(head: seq<Item>, i: nat, names: nat -> Bytes)
    requires i < |head| && head[i].ItemProp?
    ensures From(head, i, names) == [O.PropertyOf(head[i], names)] + From(head, i + 1, names)
  {
    assert head[i..][1..] == head[i + 1..];
  }

  lemma {:induction false} FromCancel(head: seq<Item>, i: nat, l: nat, x: Property, names: nat -> Bytes)
    requires i < l <= |head| && [x] + From(head, l, names) == [x] + From(head, i + 1, names)
    ensures From(head, l, names) == From(head, i + 1, names)
  {
    assert From(head, l, names) == ([x] + From(head, l, names))[1..];
    assert From(head, i + 1, names) == ([x] + From(head, i + 1, names))[1..];
  }

  /** Applies the fixup property at offset x, item j, and goes on to the next one. */
  method FixItem(blob: Blob, x: nat, o: nat, fo: nat, delta: nat, ghost rooms: L.Rooms, ghost root: RNode,
                 ghost p: Path, ghost q: Path,
                 ghost head: seq<Item>, ghost j: nat)
    returns (e: Option<P.Error>, r: Option<nat>, ghost now: RNode, ghost l: nat)
    requires Placing(blob.Value(), root, p, o, q, fo, head) && p != q && ItemLies(root, q, j, Some(x))
    requires RoomsAre(blob.Value(), root, rooms)
    modifies blob, blob.buf
    ensures j < |head| && head[j].ItemProp?
    ensures var fix := O.PropertyOf(head[j], NameTable(old(blob.Value()).Strings()));
            e == ErrorOf(FixProperty(old(Contents(blob.Value(), SubNode(root, p))), fix, delta, p, rooms))
    ensures e != Some(P.Astray) ==>
              Rewritten(old(blob.Value()), blob.Value(), root, now, p) && Placing(blob.Value(), now, p, o, q, fo, head)
    ensures e != Some(P.Astray) ==> SubNode(now, p).kids == SubNode(root, p).kids
    ensures e.None? ==> var fix := O.PropertyOf(head[j], NameTable(old(blob.Value()).Strings()));
                        FixProperty(old(Contents(blob.Value(), SubNode(root, p))), fix, delta, p, rooms) ==
                          P.Ok(Contents(blob.Value(), SubNode(now, p)))
    ensures e.None? ==> j < l <= |head| && ItemLies(now, q, l, r)
    ensures e.None? ==>
              From(head, l, NameTable(old(blob.Value()).Strings())) ==
              From(head, j + 1, NameTable(old(blob.Value()).Strings()))
  {
    ghost var was := blob.Value();
    r, l := None, j;
    var name, val := ReadItem(blob, x, fo, root, q, j);
    e, now := ApplyFixup(blob, o, name, val, delta, rooms, root, p);
    if e == Some(P.Astray) {
      return;
    }
    ghost var im := blob.Value();
    PlacingOn(was, im, root, now, p, o, q, fo, head);
    if e.None? {
      ItemStill(im, root, now, q, j, Some(x));
      r, l := NextItem(blob, x, fo, now, q, j);
      FromHere(head, j, NameTable(im.Strings()));
      FromCancel(head, j, l, O.PropertyOf(head[j], NameTable(im.Strings())), NameTable(im.Strings()));
    }
  }

  /** Applies every property of the fixup node at path q to the node at path p. */
  method FixProps(blob: Blob, o: nat, fo: nat, delta: nat, ghost rooms: L.Rooms, ghost root: RNode, ghost p: Path,
                  ghost q: Path)
    returns (e: Option<P.Error>, ghost now: RNode)
    requires LiesAt(blob.Value(), root, p, o) && LiesAt(blob.Value(), root, q, fo) && p != q
    requires RoomsAre(blob.Value(), root, rooms)
    modifies blob, blob.buf
    ensures e == ErrorOf(L.LiveProps(old(Contents(blob.Value(), SubNode(root, p))),
            old(Contents(blob.Value(), SubNode(root, q))).props, delta, p, rooms))
    ensures e != Some(P.Astray) ==> Rewritten(old(blob.Value()), blob.Value(), root, now, p)
    ensures e.None? ==> L.LiveProps(old(Contents(blob.Value(), SubNode(root, p))),
            old(Contents(blob.Value(), SubNode(root, q))).props, delta, p, rooms) ==
                        P.Ok(Contents(blob.Value(), SubNode(now, p)))
  {
    ghost var was, im, names, head := blob.Value(), blob.Value(), NameTable(blob.Value().Strings()),
      SubNode(root, q).head;
    ghost var goal := L.LiveProps(Contents(was, SubNode(root, p)), Contents(was, SubNode(root, q)).props, delta, p,
      rooms);
    now := root;
    RewrittenNot(was, root, p, o);
    var prop;
    ghost var j;
    prop, j := FirstItem(blob, fo, root, q);
    while prop.Some?
      invariant im == blob.Value() && Rewritten(was, im, root, now, p) && Placing(im, now, p, o, q, fo, head)
      invariant j <= |head| && ItemLies(now, q, j, prop) && RoomsAre(im, now, rooms)
      invariant goal == L.LiveProps(Contents(im, SubNode(now, p)), From(head, j, names), delta, p, rooms)
      decreases |head| - j
    {
      ghost var next, mid, cur, l := now, im, Contents(im, SubNode(now, p)), j;
      FromHere(head, j, names);
      FixPropsStep(cur, O.PropertyOf(head[j], names), From(head, j + 1, names), delta, p, rooms);
      e, prop, next, l := FixItem(blob, prop.value, o, fo, delta, rooms, now, p, q, head, j);
      if e == Some(P.Astray) {
        return;
      }
      im := blob.Value();
      RewrittenOn(was, mid, im, root, now, next, p);
      RoomsOn(was, im, root, next, p, rooms);
      now, j := next, l;
      if e.Some? {
        return;
      }
    }
    assert From(head, j, names) == [];
    e := None;
  }

  // ---------------------------------------------------------------------------------------
  // The children of a fixup node
  // ---------------------------------------------------------------------------------------

  /** The outline decides the names of the tree. */
  lemma {:induction false} OutlineShape(n: RNode, names: nat -> Bytes)
    ensures L.Shape(Abs(Outline(n), names)) == L.Shape(Abs(n, names))
    decreases n, 1
  {
    OutlineShapes(n.kids, names);
  }

  lemma {:induction false} OutlineShapes(ks: seq<RNode>, names: nat -> Bytes)
    ensures L.Shapes(AbsKids(OutlineKids(ks), names)) == L.Shapes(AbsKids(ks, names))
    decreases ks, 0
  {
    if ks != [] {
      OutlineShape(ks[0], names);
      OutlineShapes(ks[1..], names);
      var os := OutlineKids(ks);
      assert os[0] == Outline(ks[0]) && os[1..] == OutlineKids(ks[1..]);
      var a, b := AbsKids(os, names), AbsKids(ks, names);
      assert a[0] == Abs(os[0], names) && a[1..] == AbsKids(os[1..], names);
      assert b[0] == Abs(ks[0], names) && b[1..] == AbsKids(ks[1..], names);
    }
  }

  /** Writing in place keeps the names below every path. */
  lemma {:induction false} ShapeStays(was: Image, im: Image, root: RNode, now: RNode, p: Path)
    requires SameRest(was, im) && Outline(root) == Outline(now) && InNode(root, p)
    ensures InNode(now, p) && L.Shape(Contents(im, SubNode(now, p))) == L.Shape(Contents(was, SubNode(root, p)))
  {
    SameIndex(0, root, now, p);
    OutlineShape(SubNode(root, p), NameTable(was.Strings()));
    OutlineShape(SubNode(now, p), NameTable(was.Strings()));
  }

  lemma {:induction false} RewrittenWhole(was: Image, im: Image, root: RNode, now: RNode, p: Path)
    requires Rewritten(was, im, root, now, p)
    ensures Rewritten(was, im, root, now, [])
  {
  }

  /** The pass works on the node at path p and the fixup node at path q, whose names are those of n and f. */
  ghost predicate Pairs(im: Image, now: RNode, p: Path, o: nat, q: Path, fo: nat, shape: RNode, n: Tree, f: Tree) {
    && LiesAt(im, now, p, o) && LiesAt(im, now, q, fo) && |q| == |p| + 1
    && Outline(SubNode(now, q)) == shape
    && L.Shape(Contents(im, SubNode(now, p))) == L.Shape(n) && L.Shape(Contents(im, SubNode(now, q))) == L.Shape(f)
  }

  lemma {:induction false} PairsOn(was: Image, im: Image, root: RNode, now: RNode, p: Path, o: nat, q: Path, fo: nat,
                                   shape: RNode, n: Tree, f: Tree)
    requires Pairs(was, root, p, o, q, fo, shape, n, f) && Rewritten(was, im, root, now, [])
    ensures Pairs(im, now, p, o, q, fo, shape, n, f)
  {
    StillLies(was, im, root, now, p, o);
    StillLies(was, im, root, now, q, fo);
    SameIndex(0, root, now, q);
    ShapeStays(was, im, root, now, p);
    ShapeStays(was, im, root, now, q);
  }

  /** Child i of the fixup node lies at the given offset; none is left if there is no offset. */
  ghost predicate FixupLies(im: Image, now: RNode, q: Path, count: nat, i: nat, child: Option<nat>) {
    i <= count && if i < count then child.Some? && LiesAt(im, now, q + [i], child.value) else child.None?
  }

  /** What the children of the nodes at p and q have to do with n and f. */
  lemma {:induction false} PairKids(im: Image, now: RNode, p: Path, o: nat, q: Path, fo: nat, shape: RNode, n: Tree,
                                    f: Tree, i: nat)
    requires Pairs(im, now, p, o, q, fo, shape, n, f) && i < |f.kids|
    ensures |SubNode(now, q).kids| == |f.kids| == |shape.kids| && SubNode(now, q).kids[i].name == f.kids[i].name
    ensures InNode(now, q + [i]) && SubNode(now, q + [i]) == SubNode(now, q).kids[i]
            && Outline(SubNode(now, q + [i])) == shape.kids[i]
    ensures L.Shape(Contents(im, SubNode(now, q + [i]))) == L.Shape(f.kids[i])
    ensures KidPos(Contents(im, SubNode(now, p)).kids, f.kids[i].name) == KidPos(n.kids, f.kids[i].name)
    ensures |SubNode(now, p).kids| == |n.kids|
    ensures var j := KidPos(n.kids, f.kids[i].name); j < |n.kids| ==>
              InNode(now, p + [j]) && L.Shape(Contents(im, SubNode(now, p + [j]))) == L.Shape(n.kids[j])
  {
    var names := NameTable(im.Strings());
    var a, b := SubNode(now, p), SubNode(now, q);
    L.SameShapes(Abs(b, names).kids, f.kids);
    L.SameShapes(Abs(a, names).kids, n.kids);
    AbsKidAt(b.kids, names, i);
    KidOutline(now, q, i);
    P.SamePos(Abs(a, names).kids, n.kids, f.kids[i].name);
    var j := KidPos(n.kids, f.kids[i].name);
    if j < |n.kids| {
      AbsKidAt(a.kids, names, j);
      KidOutline(now, p, j);
    }
  }

  /** The visits for the node at path p and the fixup node at path q. */
  ghost function VisitsAt(im: Image, root: RNode, p: Path, q: Path): seq<L.Visit>
    requires im.Ordered() && InNode(root, p) && InNode(root, q)
  {
    L.Visits(Contents(im, SubNode(root, p)), p, Contents(im, SubNode(root, q)), q)
  }

  /** Which visits fixup child i leads to. */
  lemma {:induction false} KidVisits(im: Image, now: RNode, p: Path, o: nat, q: Path, fo: nat, shape: RNode, n: Tree,
                                     f: Tree, i: nat, delta: nat, rooms: L.Rooms)
    returns (j: nat)
    requires Pairs(im, now, p, o, q, fo, shape, n, f) && i < |f.kids|
    ensures InNode(now, q + [i]) && SubNode(now, q + [i]).name == f.kids[i].name && i < |shape.kids|
            && Outline(SubNode(now, q + [i])) == shape.kids[i]
    ensures j == KidPos(Contents(im, SubNode(now, p)).kids, f.kids[i].name) && |SubNode(now, p).kids| == |n.kids|
    ensures j < |n.kids| ==>
              InNode(now, p + [j]) && L.VisitKid(n, p, f.kids[i], q, i) == VisitsAt(im, now, p + [j], q + [i])
    ensures j == |n.kids| ==>
              L.Live(Contents(im, now), L.VisitKid(n, p, f.kids[i], q, i), delta, rooms) == P.Err(P.BadOverlay)
  {
    PairKids(im, now, p, o, q, fo, shape, n, f, i);
    j := KidPos(n.kids, f.kids[i].name);
    if j < |n.kids| {
      var a, b := Contents(im, SubNode(now, p + [j])), Contents(im, SubNode(now, q + [i]));
      L.SameVisits(a, n.kids[j], p + [j], b, f.kids[i], q + [i]);
    } else {
      assert [L.Lost][1..] == [];
    }
  }

  /** The fixup child is still where it was. */
  lemma {:induction false} FixupOn(was: Image, im: Image, root: RNode, now: RNode, p: Path, o: nat, q: Path, fo: nat,
                                   shape: RNode, n: Tree, f: Tree, i: nat, fc: nat)
    requires Pairs(was, root, p, o, q, fo, shape, n, f) && Rewritten(was, im, root, now, [])
    requires i < |f.kids| && LiesAt(was, root, q + [i], fc)
    ensures Pairs(im, now, p, o, q, fo, shape, n, f) && LiesAt(im, now, q + [i], fc)
            && |SubNode(now, q).kids| == |f.kids|
  {
    PairsOn(was, im, root, now, p, o, q, fo, shape, n, f);
    PairKids(im, now, p, o, q, fo, shape, n, f, i);
    StillLies(was, im, root, now, q + [i], fc);
  }

  /** Applies child i of the fixup node at path q, at offset fc, to the node at path p, and goes on to the next one. */
  method FixKid(blob: Blob, fc: nat, o: nat, ghost fo: nat, delta: nat, ghost rooms: L.Rooms, ghost root: RNode,
                ghost p: Path, ghost q: Path,
                ghost shape: RNode, ghost n: Tree, ghost f: Tree, ghost i: nat)
    returns (e: Option<P.Error>, child: Option<nat>, ghost now: RNode)
    requires Pairs(blob.Value(), root, p, o, q, fo, shape, n, f)
             && FixupLies(blob.Value(), root, q, |f.kids|, i, Some(fc))
    requires RoomsAre(blob.Value(), root, rooms)
    modifies blob, blob.buf
    ensures i < |f.kids|
    ensures e == ErrorOf(L.Live(old(Contents(blob.Value(), root)), L.VisitKid(n, p, f.kids[i], q, i), delta, rooms))
    ensures e != Some(P.Astray) ==> Rewritten(old(blob.Value()), blob.Value(), root, now, [])
    ensures e.None? ==>
              Pairs(blob.Value(), now, p, o, q, fo, shape, n, f)
              && FixupLies(blob.Value(), now, q, |f.kids|, i + 1, child)
    ensures e.None? ==>
              L.Live(old(Contents(blob.Value(), root)), L.VisitKid(n, p, f.kids[i], q, i), delta, rooms) ==
              P.Ok(Contents(blob.Value(), now))
    decreases shape, 0, 0
  {
    ghost var was := blob.Value();
    child, now := None, root;
    RewrittenNot(was, root, p, o);
    ghost var j := KidVisits(was, root, p, o, q, fo, shape, n, f, i, delta, rooms);
    var name := NodeName(blob, fc, root, q + [i]);
    var tc;
    tc, j := NamedBelow(blob, o, name, root, p);
    if tc.None? {
      return Some(P.BadOverlay), None, root;
    }
    e, now := FixNode(blob, tc.value, fc, delta, rooms, root, p + [j], q + [i], shape.kids[i]);
    if e.None? {
      ghost var im := blob.Value();
      FixupOn(was, im, root, now, p, o, q, fo, shape, n, f, i, fc);
      child := NextBelow(blob, fc, fo, now, q, i);
    }
  }

  /** What the fixup children from number i on make of the tree. */
  ghost function Left(t: Tree, n: Tree, p: Path, fs: seq<Tree>, q: Path, i: nat, delta: nat,
                      rooms: L.Rooms): P.Result<Tree>
    requires i <= |fs|
  {
    L.Live(t, L.VisitKids(n, p, fs[i..], q, i), delta, rooms)
  }

  /** The first of the children that are left. */
  lemma {:induction false} LeftStep(t: Tree, n: Tree, p: Path, fs: seq<Tree>, q: Path, i: nat, delta: nat,
                                    rooms: L.Rooms)
    requires i < |fs|
    ensures Left(t, n, p, fs, q, i, delta, rooms) ==
            match L.Live(t, L.VisitKid(n, p, fs[i], q, i), delta, rooms) case Err(e) => P.Err(e) case Ok(u) => Left(u,
              n, p,
              fs, q, i + 1, delta, rooms)
  {
    assert fs[i..][1..] == fs[i + 1..];
    L.LiveAppend(t, L.VisitKid(n, p, fs[i], q, i), L.VisitKids(n, p, fs[i + 1..], q, i + 1), delta, rooms);
  }

  /** A pass that began with `was` and `first` has come to fixup child i, at the given offset. */
  ghost predicate Midway(was: Image, first: RNode, im: Image, now: RNode, p: Path, o: nat, q: Path, fo: nat,
                         shape: RNode, n: Tree, f: Tree, i: nat, child: Option<nat>, rooms: L.Rooms) {
    && Rewritten(was, im, first, now, []) && Pairs(im, now, p, o, q, fo, shape, n, f)
    && FixupLies(im, now, q, |f.kids|, i, child) && RoomsAre(im, now, rooms)
  }

  /** The same in the course of a pass. */
  method FixNext(blob: Blob, fc: nat, o: nat, ghost fo: nat, delta: nat, ghost rooms: L.Rooms, ghost was: Image,
                 ghost first: RNode, ghost root: RNode, ghost p: Path, ghost q: Path, ghost shape: RNode,
                 ghost n: Tree, ghost f: Tree, ghost i: nat)
    returns (e: Option<P.Error>, child: Option<nat>, ghost now: RNode)
    requires Midway(was, first, blob.Value(), root, p, o, q, fo, shape, n, f, i, Some(fc), rooms)
    modifies blob, blob.buf
    ensures i < |f.kids|
    ensures e.Some? ==> Left(old(Contents(blob.Value(), root)), n, p, f.kids, q, i, delta, rooms) == P.Err(e.value)
    ensures e != Some(P.Astray) ==> Rewritten(was, blob.Value(), first, now, [])
    ensures e.None? ==> Midway(was, first, blob.Value(), now, p, o, q, fo, shape, n, f, i + 1, child, rooms)
    ensures e.None? ==> Left(old(Contents(blob.Value(), root)), n, p, f.kids, q, i, delta, rooms) ==
                        Left(Contents(blob.Value(), now), n, p, f.kids, q, i + 1, delta, rooms)
    decreases shape, 0, 1
  {
    ghost var mid := blob.Value();
    LeftStep(Contents(mid, root), n, p, f.kids, q, i, delta, rooms);
    e, child, now := FixKid(blob, fc, o, fo, delta, rooms, root, p, q, shape, n, f, i);
    if e != Some(P.Astray) {
      ghost var im := blob.Value();
      RoomsOn(mid, im, root, now, [], rooms);
      RewrittenOn(was, mid, im, first, root, now, []);
    }
  }

  /** The pass comes to the first fixup child, if there is one. */
  method FirstFixup(blob: Blob, fo: nat, ghost o: nat, ghost rooms: L.Rooms, ghost root: RNode, ghost p: Path,
                    ghost q: Path, ghost shape: RNode, ghost n: Tree, ghost f: Tree)
    returns (child: Option<nat>)
    requires Pairs(blob.Value(), root, p, o, q, fo, shape, n, f) && RoomsAre(blob.Value(), root, rooms)
    ensures Midway(blob.Value(), root, blob.Value(), root, p, o, q, fo, shape, n, f, 0, child, rooms)
  {
    ghost var was := blob.Value();
    RewrittenNot(was, root, p, o);
    RewrittenWhole(was, was, root, root, p);
    L.SameShapes(Contents(was, SubNode(root, q)).kids, f.kids);
    child := FirstBelow(blob, fo, root, q);
  }

  /** Applies every child of the fixup node at path q to the node at path p. */
  method FixKids(blob: Blob, o: nat, fo: nat, delta: nat, ghost rooms: L.Rooms, ghost root: RNode, ghost p: Path,
                 ghost q: Path, ghost shape: RNode, ghost n: Tree, ghost f: Tree)
    returns (e: Option<P.Error>, ghost now: RNode)
    requires Pairs(blob.Value(), root, p, o, q, fo, shape, n, f) && RoomsAre(blob.Value(), root, rooms)
    modifies blob, blob.buf
    ensures e == ErrorOf(L.Live(old(Contents(blob.Value(), root)), L.VisitKids(n, p, f.kids, q, 0), delta, rooms))
    ensures e != Some(P.Astray) ==> Rewritten(old(blob.Value()), blob.Value(), root, now, [])
    ensures e.None? ==>
              L.Live(old(Contents(blob.Value(), root)), L.VisitKids(n, p, f.kids, q, 0), delta, rooms) ==
              P.Ok(Contents(blob.Value(), now))
    decreases shape, 0, 2
  {
    ghost var was, i := blob.Value(), 0;
    ghost var goal := Left(Contents(was, root), n, p, f.kids, q, 0, delta, rooms);
    now := root;
    assert f.kids[0..] == f.kids;
    var child := FirstFixup(blob, fo, o, rooms, root, p, q, shape, n, f);
    while child.Some?
      invariant Midway(was, root, blob.Value(), now, p, o, q, fo, shape, n, f, i, child, rooms)
      invariant goal == Left(Contents(blob.Value(), now), n, p, f.kids, q, i, delta, rooms)
      decreases |f.kids| - i
    {
      e, child, now := FixNext(blob, child.value, o, fo, delta, rooms, was, root, now, p, q, shape, n, f, i);
      if e.Some? {
        return;
      }
      i := i + 1;
    }
    e := None;
  }

  /**
    Shifts the references below the node at path p that the fixup node at path q lists, as it reads
    when its turn comes.
    */
  method FixNode(blob: Blob, o: nat, fo: nat, delta: nat, ghost rooms: L.Rooms, ghost root: RNode, ghost p: Path,
                 ghost q: Path,
                 ghost shape: RNode)
    returns (e: Option<P.Error>, ghost now: RNode)
    requires LiesAt(blob.Value(), root, p, o) && LiesAt(blob.Value(), root, q, fo) && |q| == |p| + 1
             && shape == Outline(SubNode(root, q))
    requires RoomsAre(blob.Value(), root, rooms)
    modifies blob, blob.buf
    ensures e == ErrorOf(L.Live(old(Contents(blob.Value(), root)), VisitsAt(old(blob.Value()), root, p, q), delta,
            rooms))
    ensures e != Some(P.Astray) ==> Rewritten(old(blob.Value()), blob.Value(), root, now, [])
    ensures e.None? ==>
              L.Live(old(Contents(blob.Value(), root)), VisitsAt(old(blob.Value()), root, p, q), delta, rooms) ==
              P.Ok(Contents(blob.Value(), now))
    decreases shape, 1
  {
    ghost var was, n, f := blob.Value(), Contents(blob.Value(), SubNode(root, p)),
      Contents(blob.Value(), SubNode(root, q));
    FirstVisit(was, root, p, q, delta, rooms);
    e, now := FixProps(blob, o, fo, delta, rooms, root, p, q);
    if e == Some(P.Astray) {
      return;
    }
    ghost var im, next := blob.Value(), now;
    RewrittenTree(was, im, root, now, p);
    RewrittenWhole(was, im, root, now, p);
    if e.Some? {
      return;
    }
    PairsOn(was, im, root, now, p, o, q, fo, shape, n, f);
    RoomsOn(was, im, root, now, p, rooms);
    e, next := FixKids(blob, o, fo, delta, rooms, now, p, q, shape, n, f);
    if e == Some(P.Astray) {
      return;
    }
    RewrittenOn(was, im, blob.Value(), root, now, next, []);
    now := next;
  }

  lemma {:induction false} FirstVisit(im: Image, root: RNode, p: Path, q: Path, delta: nat, rooms: L.Rooms)
    requires im.Ordered() && InNode(root, p) && InNode(root, q)
    ensures var t, n, f := Contents(im, root), Contents(im, SubNode(root, p)), Contents(im, SubNode(root, q));
            && InTree(t, p)
            && L.Live(t, VisitsAt(im, root, p, q), delta, rooms) ==
               match L.LiveProps(n, f.props, delta, p, rooms)
               case Err(e) => P.Err(e)
               case Ok(u) => L.Live(Replaced(t, p, u), L.VisitKids(n, p, f.kids, q, 0), delta, rooms)
  {
    var t, n, f := Contents(im, root), Contents(im, SubNode(root, p)), Contents(im, SubNode(root, q));
    AbsIn(root, p, NameTable(im.Strings()));
    AbsIn(root, q, NameTable(im.Strings()));
    L.LiveFirst(t, L.Visit(p, q), L.VisitKids(n, p, f.kids, q, 0), delta, rooms);
  }
}
