/**
  Phandles of an overlay: shifting them so that they cannot collide with those of the base tree, and
  shifting the references listed in the local fixups along with them.
  */
module FdtPhandle {
  import opened Options
  import opened FdtFormat
  import opened FdtModel
  import opened FdtWhole
  import opened FdtMergeMeaning

  /** Astray: the code goes where this model does not follow, and nothing is said about what comes of it. */
  datatype Error = NotFound | BadPhandle | NoPhandles | BadOverlay | NoSpace | Astray

  datatype Result<T> = Ok(value: T) | Err(error: Error)

  /** "phandle" and "linux,phandle". */
  const PHANDLE: Bytes := [0x70, 0x68, 0x61, 0x6e, 0x64, 0x6c, 0x65]
  const LINUX_PHANDLE: Bytes := [0x6c, 0x69, 0x6e, 0x75, 0x78, 0x2c, 0x70, 0x68, 0x61, 0x6e, 0x64, 0x6c, 0x65]

  /** The number in a property that holds one word. */
  function WordOf(props: seq<Property>, name: Bytes): Option<nat> {
    match Value(props, name)
    case Some(v) => if |v| == 4 then Some(Word(v, 0)) else None
    case None => None
  }

  /** The phandle of a node; 0 if it has none. */
  function Phandle(t: Tree): nat {
    match WordOf(t.props, PHANDLE)
    case Some(w) => w
    case None => match WordOf(t.props, LINUX_PHANDLE) case Some(w) => w case None => 0
  }

  // ---------------------------------------------------------------------------------------
  // The largest phandle
  // ---------------------------------------------------------------------------------------

  function Max(a: nat, b: nat): nat { if a >= b then a else b }

  function MaxPhandle(t: Tree): nat
    decreases t, 1
  {
    Max(Phandle(t), MaxOfKids(t.kids))
  }

  function MaxOfKids(ks: seq<Tree>): nat
    decreases ks, 0
  {
    if ks == [] then 0 else Max(MaxPhandle(ks[0]), MaxOfKids(ks[1..]))
  }

  lemma {:induction false} MaxOfKid(ks: seq<Tree>, j: nat)
    requires j < |ks|
    ensures MaxPhandle(ks[j]) <= MaxOfKids(ks)
  {
    if j > 0 {
      MaxOfKid(ks[1..], j - 1);
    }
  }

  /** No node of the tree has a larger phandle. */
  lemma {:induction false} MaxBounds(t: Tree, p: Path)
    requires InTree(t, p)
    ensures Phandle(TreeAt(t, p)) <= MaxPhandle(t)
    decreases |p|
  {
    if p != [] {
      MaxOfKid(t.kids, p[0]);
      MaxBounds(t.kids[p[0]], p[1..]);
    }
  }

  // ---------------------------------------------------------------------------------------
  // Shifting phandles
  // ---------------------------------------------------------------------------------------

  /** Adds delta to the phandle in a property, if the node has the property. */
  function AddOffset(t: Tree, name: Bytes, delta: nat): Result<Tree> {
    match Value(t.props, name)
    case None => Err(NotFound)
    case Some(v) =>
      if |v| != 4 then Err(BadPhandle)
      else if Word(v, 0) + delta >= LIMIT32 - 1 then Err(NoPhandles)
      else Ok(FdtModel.SetProp(t, name, Be32(Word(v, 0) + delta)))
  }

  /** A property that is missing is no error. */
  function IfPresent(t: Tree, r: Result<Tree>): Result<Tree> {
    if r == Err(NotFound) then Ok(t) else r
  }

  function AdjustNode(t: Tree, delta: nat): Result<Tree>
    decreases t, 1
  {
    match IfPresent(t, AddOffset(t, PHANDLE, delta))
    case Err(e) => Err(e)
    case Ok(u) =>
      match IfPresent(u, AddOffset(u, LINUX_PHANDLE, delta))
      case Err(e) => Err(e)
      case Ok(w) =>
        match AdjustKids(t.kids, delta)
        case Err(e) => Err(e)
        case Ok(ks) => Ok(w.(kids := ks))
  }

  function AdjustKids(ks: seq<Tree>, delta: nat): (r: Result<seq<Tree>>)
    ensures r.Ok? ==> |r.value| == |ks|
    decreases ks, 0
  {
    if ks == [] then Ok([])
    else
      match AdjustNode(ks[0], delta)
      case Err(e) => Err(e)
      case Ok(k) =>
        match AdjustKids(ks[1..], delta)
        case Err(e) => Err(e)
        case Ok(rest) => Ok([k] + rest)
  }

  lemma {:induction false} AdjustKidAt(ks: seq<Tree>, delta: nat, j: nat)
    requires j < |ks| && AdjustKids(ks, delta).Ok?
    ensures AdjustNode(ks[j], delta) == Ok(AdjustKids(ks, delta).value[j])
    decreases |ks|
  {
    if j > 0 {
      AdjustKidAt(ks[1..], delta, j - 1);
    }
  }

  /** A shifted word reads as the sum. */
  lemma {:induction false} ShiftedWord(w: nat)
    requires w < LIMIT32
    ensures |Be32(w)| == 4 && Word(Be32(w), 0) == w
  {
    assert Be32(w)[0..4] == Be32(w);
    WordOfBe32(Be32(w), 0, w);
  }

  lemma {:induction false} NamesDiffer()
    ensures PHANDLE != LINUX_PHANDLE
  {
    assert |PHANDLE| != |LINUX_PHANDLE|;
  }

  /** What shifting one property does to a node's properties. */
  lemma {:induction false} AddOffsetDoes(t: Tree, name: Bytes, delta: nat, x: Bytes)
    requires IfPresent(t, AddOffset(t, name, delta)).Ok?
    ensures var u := IfPresent(t, AddOffset(t, name, delta)).value;
            && u.name == t.name && u.kids == t.kids
            && (x != name ==> Value(u.props, x) == Value(t.props, x))
            && (Value(t.props, name).None? <==> Value(u.props, name).None?)
            && (Value(t.props, name).Some? ==>
                   |Value(t.props, name).value| == 4
                   && WordOf(u.props, name) == Some(Word(Value(t.props, name).value, 0) + delta))
  {
    match Value(t.props, name)
    case None =>
    case Some(v) =>
      ShiftedWord(Word(v, 0) + delta);
      ValueOfSet(t, name, Be32(Word(v, 0) + delta), x);
      ValueOfSet(t, name, Be32(Word(v, 0) + delta), name);
  }

  /** Does the node have a phandle of either kind? */
  predicate HasPhandle(t: Tree) {
    Value(t.props, PHANDLE).Some? || Value(t.props, LINUX_PHANDLE).Some?
  }

  lemma {:induction false} AdjustHere(t: Tree, delta: nat, x: Bytes)
    requires AdjustNode(t, delta).Ok?
    ensures var u := AdjustNode(t, delta).value;
            && u.name == t.name && AdjustKids(t.kids, delta) == Ok(u.kids)
            && (x != PHANDLE && x != LINUX_PHANDLE ==> Value(u.props, x) == Value(t.props, x))
            && Phandle(u) == (if HasPhandle(t) then Phandle(t) + delta else 0) && (!HasPhandle(t) ==> Phandle(t) == 0)
  {
    NamesDiffer();
    var u := IfPresent(t, AddOffset(t, PHANDLE, delta)).value;
    var w := IfPresent(u, AddOffset(u, LINUX_PHANDLE, delta)).value;
    AddOffsetDoes(t, PHANDLE, delta, x);
    AddOffsetDoes(t, PHANDLE, delta, LINUX_PHANDLE);
    AddOffsetDoes(u, LINUX_PHANDLE, delta, x);
    AddOffsetDoes(u, LINUX_PHANDLE, delta, PHANDLE);
  }

  /** Every node keeps its place and its other properties, and its phandle is shifted. */
  lemma {:induction false} Adjusted(t: Tree, delta: nat, p: Path, x: Bytes)
    requires AdjustNode(t, delta).Ok? && InTree(t, p)
    ensures var u := AdjustNode(t, delta).value;
            && InTree(u, p) && (x != PHANDLE && x != LINUX_PHANDLE ==>
                 Value(TreeAt(u, p).props, x) == Value(TreeAt(t, p).props, x))
            && Phandle(TreeAt(u, p)) == (if HasPhandle(TreeAt(t, p)) then Phandle(TreeAt(t, p)) + delta else 0)
            && (!HasPhandle(TreeAt(t, p)) ==> Phandle(TreeAt(t, p)) == 0)
    decreases |p|
  {
    AdjustHere(t, delta, x);
    if p != [] {
      AdjustKidAt(t.kids, delta, p[0]);
      Adjusted(t.kids[p[0]], delta, p[1..], x);
    }
  }

  /** The overlay's phandles are at least 1. */
  ghost predicate Numbered(t: Tree) {
    forall p :: InTree(t, p) && HasPhandle(TreeAt(t, p)) ==> Phandle(TreeAt(t, p)) >= 1
  }

  /** After shifting by the largest phandle of the base, no phandle of the overlay is one of the base. */
  lemma {:induction false} NoCollision(base: Tree, over: Tree, p: Path, q: Path)
    requires AdjustNode(over, MaxPhandle(base)).Ok? && Numbered(over) && InTree(over, p) && InTree(base, q)
    ensures var u := AdjustNode(over, MaxPhandle(base)).value;
            InTree(u, p) && (HasPhandle(TreeAt(over, p)) ==> Phandle(TreeAt(u, p)) != Phandle(TreeAt(base, q)))
  {
    Adjusted(over, MaxPhandle(base), p, []);
    MaxBounds(base, q);
    if HasPhandle(TreeAt(over, p)) {
      assert Phandle(TreeAt(over, p)) >= 1;
    }
  }

  /** Nodes with different phandles still have different phandles. */
  lemma {:induction false} StayDistinct(over: Tree, delta: nat, p: Path, q: Path)
    requires AdjustNode(over, delta).Ok? && Numbered(over) && InTree(over, p) && InTree(over, q)
    requires Phandle(TreeAt(over, p)) != Phandle(TreeAt(over, q))
    ensures var u := AdjustNode(over, delta).value;
            InTree(u, p) && InTree(u, q) && Phandle(TreeAt(u, p)) != Phandle(TreeAt(u, q))
  {
    Adjusted(over, delta, p, []);
    Adjusted(over, delta, q, []);
    if HasPhandle(TreeAt(over, p)) {
      assert Phandle(TreeAt(over, p)) >= 1;
    }
    if HasPhandle(TreeAt(over, q)) {
      assert Phandle(TreeAt(over, q)) >= 1;
    }
  }

  // ---------------------------------------------------------------------------------------
  // Shifting references
  // ---------------------------------------------------------------------------------------

  /** Adds delta, modulo 2^32, to the word at offset x of a value. */
  function Shift(v: Bytes, x: nat, delta: nat): (r: Bytes)
    requires x + 4 <= |v|
    ensures |r| == |v|
  {
    v[..x] + Be32((Word(v, x) + delta) % LIMIT32) + v[x + 4..]
  }

  /** Shifts the words at all listed offsets, one after the other; none if an offset is out of range. */
  function ShiftAll(v: Bytes, offs: seq<nat>, delta: nat): (r: Option<Bytes>)
    ensures r.Some? ==> |r.value| == |v|
    decreases |offs|
  {
    if offs == [] then Some(v)
    else if offs[0] + 4 > |v| then None
    else ShiftAll(Shift(v, offs[0], delta), offs[1..], delta)
  }

  /** The offsets listed in a fixup property. */
  function Listed(v: Bytes): seq<nat> {
    seq(|v| / 4, i requires 0 <= i < |v| / 4 => Word(v, 4 * i))
  }

  function FixProps(t: Tree, props: seq<Property>, delta: nat): Result<Tree>
    decreases |props|
  {
    if props == [] then Ok(t)
    else
      var p := props[0];
      if |p.val| % 4 != 0 then Err(BadOverlay)
      else
        match Value(t.props, p.name)
        case None => Err(BadOverlay)
        case Some(v) =>
          match ShiftAll(v, Listed(p.val), delta)
          case None => Err(BadOverlay)
          case Some(w) => FixProps(FdtModel.SetProp(t, p.name, w), props[1..], delta)
  }

  /** Updates a node with the fixup node that lists its references. */
  function FixNode(t: Tree, f: Tree, delta: nat): Result<Tree>
    decreases f, 1
  {
    match FixProps(t, f.props, delta)
    case Err(e) => Err(e)
    case Ok(u) => FixKids(u, f.kids, delta)
  }

  function FixKids(t: Tree, fs: seq<Tree>, delta: nat): Result<Tree>
    decreases fs, 0
  {
    if fs == [] then Ok(t)
    else
      var j := KidPos(t.kids, fs[0].name);
      if j == |t.kids| then Err(BadOverlay)
      else
        match FixNode(t.kids[j], fs[0], delta)
        case Err(e) => Err(e)
        case Ok(k) => FixKids(t.(kids := t.kids[j := k]), fs[1..], delta)
  }

  /** A shift adds delta to its own word and leaves words that do not overlap it alone. */
  lemma {:induction false} ShiftWord(v: Bytes, y: nat, delta: nat, x: nat)
    requires x + 4 <= |v| && y + 4 <= |v| && (x == y || x + 4 <= y || y + 4 <= x)
    ensures Word(Shift(v, y, delta), x) == if x == y then (Word(v, x) + delta) % LIMIT32 else Word(v, x)
  {
    var r := Shift(v, y, delta);
    if x == y {
      assert r[x..x + 4] == Be32((Word(v, x) + delta) % LIMIT32);
      WordOfBe32(r, x, (Word(v, x) + delta) % LIMIT32);
    }
  }

  /** How often an offset is listed. */
  function Times(offs: seq<nat>, x: nat): nat {
    if offs == [] then 0 else (if offs[0] == x then 1 else 0) + Times(offs[1..], x)
  }

  /** No listed word overlaps the one at x. */
  predicate Apart(offs: seq<nat>, x: nat) {
    forall i :: 0 <= i < |offs| ==> offs[i] == x || offs[i] + 4 <= x || x + 4 <= offs[i]
  }

  /** What the listings of an offset add up to. */
  function Added(offs: seq<nat>, x: nat, delta: nat): nat {
    if offs == [] then 0 else (if offs[0] == x then delta else 0) + Added(offs[1..], x, delta)
  }

  lemma {:induction false} AddedTimes(offs: seq<nat>, x: nat, delta: nat)
    ensures Added(offs, x, delta) == Times(offs, x) * delta
  {
    if offs != [] {
      AddedTimes(offs[1..], x, delta);
      var k := Times(offs[1..], x);
      assert (1 + k) * delta == delta + k * delta;
    }
  }

  /** A word is shifted as often as it is listed. */
  lemma {:induction false} ShiftedTimes(v: Bytes, offs: seq<nat>, delta: nat, x: nat)
    requires ShiftAll(v, offs, delta).Some? && x + 4 <= |v| && Apart(offs, x)
    ensures Word(ShiftAll(v, offs, delta).value, x) == (Word(v, x) + Added(offs, x, delta)) % LIMIT32
    decreases |offs|
  {
    if offs != [] {
      var y, r, more := offs[0], Shift(v, offs[0], delta), Added(offs[1..], x, delta);
      assert y == x || y + 4 <= x || x + 4 <= y;
      ShiftedTimes(r, offs[1..], delta, x);
      ShiftWord(v, y, delta, x);
      OnceMore(Word(v, x), delta, more);
    }
  }

  lemma {:induction false} OnceMore(w: nat, delta: nat, more: nat)
    ensures ((w + delta) % LIMIT32 + more) % LIMIT32 == (w + (delta + more)) % LIMIT32
  {
  }

  /** The value of a property after its references were shifted. */
  function Expected(v: Option<Bytes>, props: seq<Property>, name: Bytes, delta: nat): Option<Bytes> {
    match Value(props, name)
    case None => v
    case Some(l) => if v.Some? then ShiftAll(v.value, Listed(l), delta) else None
  }

  lemma {:induction false} FixPropsDoes(t: Tree, props: seq<Property>, delta: nat, x: Bytes)
    requires FixProps(t, props, delta).Ok? && UniqueProps(props)
    ensures var u := FixProps(t, props, delta).value;
            u.name == t.name && u.kids == t.kids && Value(u.props, x) == Expected(Value(t.props, x), props, x, delta)
    decreases |props|
  {
    if props != [] {
      var p := props[0];
      var w := ShiftAll(Value(t.props, p.name).value, Listed(p.val), delta).value;
      ValueOfSet(t, p.name, w, x);
      FixPropsDoes(FdtModel.SetProp(t, p.name, w), props[1..], delta, x);
      if x == p.name {
        ValueAbsent(props[1..], x);
      }
    }
  }

  // ---------------------------------------------------------------------------------------
  // Which fixup node belongs to which node
  // ---------------------------------------------------------------------------------------

  /** The fixup child that is about child j, or the number of fixup children. */
  function About(kids: seq<Tree>, fs: seq<Tree>, j: nat): (i: nat)
    ensures i <= |fs| && (i < |fs| ==> KidPos(kids, fs[i].name) == j)
    ensures forall l :: 0 <= l < i ==> KidPos(kids, fs[l].name) != j
    decreases |fs|
  {
    if fs == [] || KidPos(kids, fs[0].name) == j then 0 else 1 + About(kids, fs[1..], j)
  }

  /** No two fixup children are about the same child, at any level. */
  ghost predicate Resolves(t: Tree, f: Tree)
    decreases f
  {
    && UniqueProps(f.props) && Separate(t.kids, f.kids)
    && forall i :: 0 <= i < |f.kids| && KidPos(t.kids, f.kids[i].name) < |t.kids| ==>
         Resolves(t.kids[KidPos(t.kids, f.kids[i].name)], f.kids[i])
  }

  predicate Separate(kids: seq<Tree>, fs: seq<Tree>) {
    forall i, j :: 0 <= i < j < |fs| ==> KidPos(kids, fs[i].name) != KidPos(kids, fs[j].name)
  }

  /** The same names in the same order. */
  predicate SameNames(a: seq<Tree>, b: seq<Tree>) {
    |a| == |b| && forall i :: 0 <= i < |a| ==> a[i].name == b[i].name
  }

  lemma {:induction false} SamePos(a: seq<Tree>, b: seq<Tree>, name: Bytes)
    requires SameNames(a, b)
    ensures KidPos(a, name) == KidPos(b, name)
  {
    if a != [] {
      assert a[0].name == b[0].name;
      SamePos(a[1..], b[1..], name);
    }
  }

  lemma {:induction false} FixName(t: Tree, f: Tree, delta: nat)
    requires FixNode(t, f, delta).Ok?
    ensures FixNode(t, f, delta).value.name == t.name
    decreases f, 1
  {
    FixPropsName(t, f.props, delta);
    FixKidsName(FixProps(t, f.props, delta).value, f.kids, delta);
  }

  lemma {:induction false} FixPropsName(t: Tree, props: seq<Property>, delta: nat)
    requires FixProps(t, props, delta).Ok?
    ensures FixProps(t, props, delta).value.name == t.name && FixProps(t, props, delta).value.kids == t.kids
    decreases |props|
  {
    if props != [] {
      var p := props[0];
      var w := ShiftAll(Value(t.props, p.name).value, Listed(p.val), delta).value;
      FixPropsName(FdtModel.SetProp(t, p.name, w), props[1..], delta);
    }
  }

  lemma {:induction false} FixKidsName(t: Tree, fs: seq<Tree>, delta: nat)
    requires FixKids(t, fs, delta).Ok?
    ensures FixKids(t, fs, delta).value.name == t.name && FixKids(t, fs, delta).value.props == t.props
    decreases fs, 0
  {
    if fs != [] {
      var j := KidPos(t.kids, fs[0].name);
      FixKidsName(t.(kids := t.kids[j := FixNode(t.kids[j], fs[0], delta).value]), fs[1..], delta);
    }
  }

  /** Each child is updated by the fixup child that is about it, or stays. */
  lemma {:induction false} FixKidsDoes(t: Tree, fs: seq<Tree>, delta: nat, j: nat)
    requires FixKids(t, fs, delta).Ok? && Separate(t.kids, fs) && j < |t.kids|
    ensures var u := FixKids(t, fs, delta).value; var i := About(t.kids, fs, j);
            |u.kids| == |t.kids| && if i < |fs| then FixNode(t.kids[j], fs[i], delta) == Ok(u.kids[j])
              else u.kids[j] == t.kids[j]
    decreases |fs|
  {
    if fs != [] {
      var h := KidPos(t.kids, fs[0].name);
      var k := FixNode(t.kids[h], fs[0], delta).value;
      var v := t.(kids := t.kids[h := k]);
      assert SameNames(t.kids, v.kids) by {
        FixName(t.kids[h], fs[0], delta);
      }
      SeparateRest(t.kids, v.kids, fs);
      AboutRest(t.kids, v.kids, fs, j);
      assert FixKids(t, fs, delta) == FixKids(v, fs[1..], delta);
      FixKidsDoes(v, fs[1..], delta, j);
      if h == j {
        assert About(t.kids, fs, j) == 0;
      } else {
        assert v.kids[j] == t.kids[j] && About(t.kids, fs, j) == 1 + About(v.kids, fs[1..], j);
      }
    }
  }

  lemma {:induction false} SeparateRest(a: seq<Tree>, b: seq<Tree>, fs: seq<Tree>)
    requires SameNames(a, b) && fs != [] && Separate(a, fs)
    ensures Separate(b, fs[1..])
  {
    forall i, j | 0 <= i < j < |fs[1..]|
      ensures KidPos(b, fs[1..][i].name) != KidPos(b, fs[1..][j].name)
    {
      SamePos(a, b, fs[1 + i].name);
      SamePos(a, b, fs[1 + j].name);
    }
  }

  lemma {:induction false} AboutSame(a: seq<Tree>, b: seq<Tree>, fs: seq<Tree>, j: nat)
    requires SameNames(a, b)
    ensures About(a, fs, j) == About(b, fs, j)
    decreases |fs|
  {
    if fs != [] {
      SamePos(a, b, fs[0].name);
      AboutSame(a, b, fs[1..], j);
    }
  }

  /** The rest of the fixup children, seen before and after the first was dealt with. */
  lemma {:induction false} AboutRest(a: seq<Tree>, b: seq<Tree>, fs: seq<Tree>, j: nat)
    requires SameNames(a, b) && fs != [] && Separate(a, fs)
    ensures About(b, fs[1..], j) == About(a, fs[1..], j)
    ensures KidPos(a, fs[0].name) == j ==> About(a, fs, j) == 0 && About(a, fs[1..], j) == |fs| - 1
    ensures KidPos(a, fs[0].name) != j ==> About(a, fs, j) == 1 + About(a, fs[1..], j)
  {
    AboutSame(a, b, fs[1..], j);
    assert forall i :: 0 <= i < |fs| - 1 ==> fs[1..][i] == fs[i + 1];
  }

  /** The fixup node for the node at a path, if there is one. */
  function RefsAt(t: Tree, f: Tree, p: Path): Option<Tree>
    requires InTree(t, p)
    decreases |p|
  {
    if p == [] then Some(f)
    else
      var i := About(t.kids, f.kids, p[0]);
      if i == |f.kids| then None else RefsAt(t.kids[p[0]], f.kids[i], p[1..])
  }

  /** What an update of references does to every property of every node. */
  lemma {:induction false} FixedAt(t: Tree, f: Tree, delta: nat, p: Path, x: Bytes)
    requires FixNode(t, f, delta).Ok? && Resolves(t, f) && InTree(t, p)
    ensures var u := FixNode(t, f, delta).value; var g := RefsAt(t, f, p); var v := Value(TreeAt(t, p).props, x);
            InTree(u, p) && Value(TreeAt(u, p).props, x) == if g.Some? then Expected(v, g.value.props, x, delta) else v
    decreases |p|
  {
    FixPropsDoes(t, f.props, delta, x);
    var w := FixProps(t, f.props, delta).value;
    FixKidsName(w, f.kids, delta);
    if p != [] {
      FixKidsDoes(w, f.kids, delta, p[0]);
      var i := About(t.kids, f.kids, p[0]);
      if i < |f.kids| {
        FixedAt(t.kids[p[0]], f.kids[i], delta, p[1..], x);
      }
    }
  }

  /** What shifting phandles means for a node: everything else stays. */
  ghost predicate ShiftedNode(a: Tree, delta: nat, b: Tree) {
    && (forall x :: x != PHANDLE && x != LINUX_PHANDLE ==> Value(b.props, x) == Value(a.props, x))
    && Phandle(b) == if HasPhandle(a) then Phandle(a) + delta else 0
  }

  ghost predicate ShiftedTree(a: Tree, delta: nat, b: Tree) {
    forall p :: InTree(a, p) ==> InTree(b, p) && ShiftedNode(TreeAt(a, p), delta, TreeAt(b, p))
  }

  lemma {:induction false} AdjustMeans(t: Tree, delta: nat)
    requires AdjustNode(t, delta).Ok?
    ensures ShiftedTree(t, delta, AdjustNode(t, delta).value)
  {
    var u := AdjustNode(t, delta).value;
    forall p | InTree(t, p)
      ensures InTree(u, p) && ShiftedNode(TreeAt(t, p), delta, TreeAt(u, p))
    {
      Adjusted(t, delta, p, []);
      forall x | x != PHANDLE && x != LINUX_PHANDLE
        ensures Value(TreeAt(u, p).props, x) == Value(TreeAt(t, p).props, x)
      {
        Adjusted(t, delta, p, x);
      }
    }
  }

  /** What updating references means for a node with the given fixup node. */
  ghost predicate UpdatedNode(a: Tree, g: Option<Tree>, delta: nat, b: Tree) {
    forall x :: Value(b.props, x) == if g.Some? then Expected(Value(a.props, x), g.value.props, x, delta)
      else Value(a.props, x)
  }

  /** The offsets listed for a property are inside it. */
  ghost predicate ListedInside(a: Tree, g: Option<Tree>, delta: nat) {
    forall x :: g.Some? && Value(g.value.props, x).Some? && Value(a.props, x).Some? ==>
      ShiftAll(Value(a.props, x).value, Listed(Value(g.value.props, x).value), delta).Some?
  }

  ghost predicate UpdatedTree(a: Tree, f: Tree, delta: nat, b: Tree) {
    forall p :: InTree(a, p) ==>
      InTree(b, p) && UpdatedNode(TreeAt(a, p), RefsAt(a, f, p), delta, TreeAt(b, p))
        && ListedInside(TreeAt(a, p), RefsAt(a, f, p), delta)
  }

  lemma {:induction false} FixMeans(t: Tree, f: Tree, delta: nat)
    requires FixNode(t, f, delta).Ok? && Resolves(t, f)
    ensures UpdatedTree(t, f, delta, FixNode(t, f, delta).value)
  {
    var u := FixNode(t, f, delta).value;
    forall p | InTree(t, p)
      ensures InTree(u, p) && UpdatedNode(TreeAt(t, p), RefsAt(t, f, p), delta, TreeAt(u, p))
              && ListedInside(TreeAt(t, p), RefsAt(t, f, p), delta)
    {
      FixedAt(t, f, delta, p, []);
      UpdatedHere(t, f, delta, p, u);
      ListedHere(t, f, delta, p);
    }
  }

  lemma {:induction false} UpdatedHere(t: Tree, f: Tree, delta: nat, p: Path, u: Tree)
    requires FixNode(t, f, delta) == Ok(u) && Resolves(t, f) && InTree(t, p) && InTree(u, p)
    ensures UpdatedNode(TreeAt(t, p), RefsAt(t, f, p), delta, TreeAt(u, p))
  {
    var a, g, b := TreeAt(t, p), RefsAt(t, f, p), TreeAt(u, p);
    forall x
      ensures Value(b.props, x) == if g.Some? then Expected(Value(a.props, x), g.value.props, x, delta)
              else Value(a.props, x)
    {
      FixedAt(t, f, delta, p, x);
    }
  }

  lemma {:induction false} ListedHere(t: Tree, f: Tree, delta: nat, p: Path)
    requires FixNode(t, f, delta).Ok? && Resolves(t, f) && InTree(t, p)
    ensures ListedInside(TreeAt(t, p), RefsAt(t, f, p), delta)
  {
    var a, g := TreeAt(t, p), RefsAt(t, f, p);
    forall x | g.Some? && Value(g.value.props, x).Some? && Value(a.props, x).Some?
      ensures ShiftAll(Value(a.props, x).value, Listed(Value(g.value.props, x).value), delta).Some?
    {
      ListedShift(t, f, delta, p, x, Value(a.props, x).value);
    }
  }

  /**
    A reference that the local fixups list once still names the same node: if the word at offset x
    of a property was the phandle of a node of the overlay, it is that node's phandle after both
    have been shifted.
    */
  lemma {:induction false} ReferenceKept(over: Tree, delta: nat, t: Tree, f: Tree, u: Tree, p: Path, target: Path,
                                         name: Bytes, v: Bytes, x: nat)
    requires ShiftedTree(over, delta, t) && UpdatedTree(t, f, delta, u)
    requires InTree(over, p) && InTree(over, target) && InTree(t, p) && name != PHANDLE && name != LINUX_PHANDLE
    requires Value(TreeAt(over, p).props, name) == Some(v) && x + 4 <= |v|
    requires HasPhandle(TreeAt(over, target)) && Word(v, x) == Phandle(TreeAt(over, target))
    requires var g := RefsAt(t, f, p); g.Some? && ListedOnce(g.value, name, x)
    ensures InTree(u, p) && InTree(t, target)
    ensures var w := Value(TreeAt(u, p).props, name);
            w.Some? && x + 4 <= |w.value| && Word(w.value, x) == Phandle(TreeAt(t, target))
  {
    ShiftedThere(over, delta, t, p, name);
    ShiftedThere(over, delta, t, target, name);
    UpdatedThere(t, f, delta, u, p);
    SameWord(TreeAt(t, p), RefsAt(t, f, p).value, delta, TreeAt(u, p), name, v, x, TreeAt(t, target));
  }

  lemma {:induction false} SameWord(a: Tree, g: Tree, delta: nat, b: Tree, name: Bytes, v: Bytes, x: nat, target: Tree)
    requires UpdatedNode(a, Some(g), delta, b) && ListedInside(a, Some(g), delta)
    requires Value(a.props, name) == Some(v) && x + 4 <= |v| && ListedOnce(g, name, x)
             && Word(v, x) + delta == Phandle(target)
    ensures var w := Value(b.props, name); w.Some? && x + 4 <= |w.value| && Word(w.value, x) == Phandle(target)
  {
    WordKept(a, g, delta, b, name, v, x);
    PhandleFits(target);
  }

  lemma {:induction false} ShiftedThere(a: Tree, delta: nat, b: Tree, p: Path, x: Bytes)
    requires ShiftedTree(a, delta, b) && InTree(a, p) && x != PHANDLE && x != LINUX_PHANDLE
    ensures InTree(b, p) && Value(TreeAt(b, p).props, x) == Value(TreeAt(a, p).props, x)
    ensures HasPhandle(TreeAt(a, p)) ==> Phandle(TreeAt(b, p)) == Phandle(TreeAt(a, p)) + delta
  {
    assert ShiftedNode(TreeAt(a, p), delta, TreeAt(b, p));
  }

  lemma {:induction false} UpdatedThere(a: Tree, f: Tree, delta: nat, b: Tree, p: Path)
    requires UpdatedTree(a, f, delta, b) && InTree(a, p)
    ensures InTree(b, p) && UpdatedNode(TreeAt(a, p), RefsAt(a, f, p), delta, TreeAt(b, p))
            && ListedInside(TreeAt(a, p), RefsAt(a, f, p), delta)
  {
  }

  /** The offset is listed exactly once for the property, and no listed word overlaps the one there. */
  predicate ListedOnce(g: Tree, name: Bytes, x: nat) {
    Value(g.props, name).Some? && Times(Listed(Value(g.props, name).value), x) == 1
      && Apart(Listed(Value(g.props, name).value), x)
  }

  /** The word that is listed once has been shifted once. */
  lemma {:induction false} WordKept(a: Tree, g: Tree, delta: nat, b: Tree, name: Bytes, v: Bytes, x: nat)
    requires UpdatedNode(a, Some(g), delta, b) && ListedInside(a, Some(g), delta)
    requires Value(a.props, name) == Some(v) && x + 4 <= |v| && ListedOnce(g, name, x)
    ensures var w := Value(b.props, name);
            w.Some? && |w.value| == |v| && Word(w.value, x) == (Word(v, x) + delta) % LIMIT32
  {
    var offs := Listed(Value(g.props, name).value);
    ShiftedTimes(v, offs, delta, x);
    AddedTimes(offs, x, delta);
  }

  /** On success the listed offsets of a property were all in range. */
  lemma {:induction false} ListedShift(t: Tree, f: Tree, delta: nat, p: Path, name: Bytes, v: Bytes)
    requires FixNode(t, f, delta).Ok? && Resolves(t, f) && InTree(t, p) && Value(TreeAt(t, p).props, name) == Some(v)
    requires RefsAt(t, f, p).Some? && Value(RefsAt(t, f, p).value.props, name).Some?
    ensures ShiftAll(v, Listed(Value(RefsAt(t, f, p).value.props, name).value), delta).Some?
    decreases |p|
  {
    FixPropsDoes(t, f.props, delta, name);
    var w := FixProps(t, f.props, delta).value;
    if p == [] {
      FixPropsListed(t, f.props, delta, name);
    } else {
      FixKidsDoes(w, f.kids, delta, p[0]);
      ListedShift(t.kids[p[0]], f.kids[About(t.kids, f.kids, p[0])], delta, p[1..], name, v);
    }
  }

  lemma {:induction false} FixPropsListed(t: Tree, props: seq<Property>, delta: nat, x: Bytes)
    requires FixProps(t, props, delta).Ok? && UniqueProps(props) && Value(props, x).Some? && Value(t.props, x).Some?
    ensures ShiftAll(Value(t.props, x).value, Listed(Value(props, x).value), delta).Some?
    decreases |props|
  {
    var p := props[0];
    if p.name != x {
      var w := ShiftAll(Value(t.props, p.name).value, Listed(p.val), delta).value;
      ValueOfSet(t, p.name, w, x);
      FixPropsListed(FdtModel.SetProp(t, p.name, w), props[1..], delta, x);
    }
  }

  lemma {:induction false} PhandleFits(t: Tree)
    ensures Phandle(t) < LIMIT32
  {
  }
}
