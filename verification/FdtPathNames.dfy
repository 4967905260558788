/**
  Printing the path of a node and finding a node by its path.
  */
module FdtPathNames {
  import opened Options
  import opened FdtFormat
  import opened FdtTree
  import opened FdtRead
  import opened FdtWhole
  import opened FdtPath

  const SLASH: Byte := 0x2f

  // ---------------------------------------------------------------------------------------
  // Path strings
  // ---------------------------------------------------------------------------------------

  /** Every name followed by a slash. */
  function Slashed(names: seq<Bytes>): Bytes {
    if names == [] then [] else Slashed(names[..|names| - 1]) + names[|names| - 1] + [SLASH]
  }

  lemma {:induction false} SlashedPush(names: seq<Bytes>, x: Bytes)
    ensures Slashed(names + [x]) == Slashed(names) + x + [SLASH]
  {
    assert (names + [x])[..|names|] == names;
  }

  lemma {:induction false} SlashedEnds(names: seq<Bytes>)
    requires names != []
    ensures |Slashed(names)| >= 1 && Slashed(names)[|Slashed(names)| - 1] == SLASH
  {
  }

  /** How many of the names fit, with their slashes, in a buffer. */
  function Fit(names: seq<Bytes>, size: nat): (r: nat)
    ensures r <= |names|
  {
    if names == [] then 0
    else
      var n := |names| - 1;
      var f := Fit(names[..n], size);
      if f == n && |Slashed(names)| <= size then |names| else f
  }

  lemma {:induction false} FitPush(names: seq<Bytes>, x: Bytes, size: nat)
    ensures Fit(names + [x], size) == if Fit(names, size) == |names|
            && |Slashed(names + [x])| <= size then |names| + 1 else Fit(names, size)
  {
    assert (names + [x])[..|names|] == names;
  }

  /** What fits of the first m names. */
  lemma {:induction false} FitPrefix(names: seq<Bytes>, m: nat, size: nat)
    requires m <= |names|
    ensures Fit(names[..m], size) == if Fit(names, size) <= m then Fit(names, size) else m
    decreases |names|
  {
    if m < |names| {
      var n := |names| - 1;
      FitPrefix(names[..n], m, size);
      assert names[..n][..m] == names[..m];
    } else {
      assert names[..m] == names;
    }
  }

  /** Everything fits exactly when the whole does. */
  lemma {:induction false} FitAll(names: seq<Bytes>, size: nat)
    ensures Fit(names, size) == |names| <==> |Slashed(names)| <= size
  {
    if names != [] {
      FitAll(names[..|names| - 1], size);
    }
  }

  /** The path of a node below the root, from the names on the way. */
  function PathString(names: seq<Bytes>): Bytes {
    if names == [] then [SLASH] else PathString_(names)
  }

  function PathString_(names: seq<Bytes>): Bytes {
    if names == [] then [] else PathString_(names[..|names| - 1]) + [SLASH] + names[|names| - 1]
  }

  /** The names with their slashes behind them, behind the slash of the root, are the path and one more slash. */
  lemma {:induction false} SlashedIsPath(names: seq<Bytes>)
    ensures Slashed([[]] + names) == PathString_(names) + [SLASH]
  {
    if names == [] {
      var none: seq<Bytes> := [];
      assert [[]] + names == none + [[]];
      SlashedPush(none, []);
    } else {
      var n := |names| - 1;
      SlashedIsPath(names[..n]);
      assert [[]] + names == ([[]] + names[..n]) + [names[n]];
      SlashedPush([[]] + names[..n], names[n]);
    }
  }

  // ---------------------------------------------------------------------------------------
  // Names on the way
  // ---------------------------------------------------------------------------------------

  /** The names of nodes given by token indices. */
  ghost function NamesOf(ts: seq<Token>, line: seq<nat>): (r: seq<Bytes>)
    requires forall i :: 0 <= i < |line| ==> line[i] < |ts| && ts[line[i]].Begin?
    ensures |r| == |line|
  {
    seq(|line|, i requires 0 <= i < |line| => ts[line[i]].name)
  }

  lemma {:induction false} StackBegins(ts: seq<Token>, k: nat)
    requires k <= |ts|
    ensures forall i :: 0 <= i < |Stack(ts, k)| ==> Stack(ts, k)[i] < k && ts[Stack(ts, k)[i]].Begin?
    decreases k
  {
    if k > 0 {
      StackBegins(ts, k - 1);
      StackStep(ts, k - 1);
    }
  }

  /** Names without slashes; only the root has none. */
  ghost predicate PlainNames(ts: seq<Token>) {
    forall i :: 0 <= i < |ts| && ts[i].Begin? ==> SLASH !in ts[i].name
  }

  /** Takes the last name with its slash off the buffer. */
  method DropName(buf: Bytes, ghost names: seq<Bytes>, ghost x: Bytes) returns (r: Bytes)
    requires buf == Slashed(names) + x + [SLASH] && names != [] && SLASH !in x
    ensures r == Slashed(names)
  {
    SlashedEnds(names);
    ghost var base := Slashed(names);
    var p := |buf| - 1;
    assert buf[|base| - 1] == base[|base| - 1];
    assert forall i :: |base| <= i < |buf| - 1 ==> buf[i] == x[i - |base|] && x[i - |base|] in x;
    while buf[p - 1] != SLASH
      invariant |base| <= p <= |buf| - 1
      decreases p
    {
      p := p - 1;
    }
    r := buf[..p];
  }

  /** Takes names off the buffer until at most m are left. */
  method DropNames(buf: Bytes, count: nat, m: nat, ghost names: seq<Bytes>) returns (r: Bytes, left: nat)
    requires count <= |names| && buf == Slashed(names[..count]) && 1 <= m && forall i :: 0 <= i < |names| ==>
             SLASH !in names[i]
    ensures left == (if count <= m then count else m) && r == Slashed(names[..left])
  {
    r, left := buf, count;
    while left > m
      invariant left <= count && (left == count || left >= m) && r == Slashed(names[..left])
    {
      ghost var rest := names[..left - 1];
      assert names[..left] == rest + [names[left - 1]];
      SlashedPush(rest, names[left - 1]);
      r := DropName(r, rest, names[left - 1]);
      left := left - 1;
    }
  }

  /** The buffer when as many of the names are in it as fit. */
  ghost predicate Filled(buf: Bytes, count: nat, names: seq<Bytes>, size: nat) {
    count == Fit(names, size) && buf == Slashed(names[..count])
  }

  /** From one node to the next: names that are not above it go, its own name comes if there is room. */
  method NextName(buf: Bytes, count: nat, d: nat, name: Bytes, size: nat, ghost prev: seq<Bytes>)
    returns (r: Bytes, c: nat)
    requires Filled(buf, count, prev, size) && d <= |prev|
             && (d == 0 ==> prev == []) && forall i :: 0 <= i < |prev| ==> SLASH !in prev[i]
    ensures Filled(r, c, prev[..d] + [name], size)
  {
    r, c := buf, count;
    if count > d {
      r, c := DropNames(buf, count, d, prev);
    }
    FitPrefix(prev, d, size);
    ghost var above := prev[..d];
    assert prev[..c] == above[..c];
    SlashedPush(above, name);
    FitPush(above, name, size);
    if c >= d {
      assert above[..c] == above;
      if |r| + |name| + 1 <= size {
        r, c := r + name + [SLASH], c + 1;
      }
    }
    assert (above + [name])[..c] == if c <= d then above[..c] else above + [name];
  }

  lemma {:induction false} LineNames(ts: seq<Token>, j: nat)
    requires j < |ts| && ts[j].Begin?
    ensures forall i :: 0 <= i < |Line(ts, j)| ==> Line(ts, j)[i] < |ts| && ts[Line(ts, j)[i]].Begin?
    ensures forall i :: 0 <= i < |Stack(ts, j)| ==> Stack(ts, j)[i] < |ts| && ts[Stack(ts, j)[i]].Begin?
    ensures NamesOf(ts, Line(ts, j)) == NamesOf(ts, Stack(ts, j)) + [ts[j].name]
  {
    StackBegins(ts, j);
  }

  lemma {:induction false} PrefixNames(ts: seq<Token>, line: seq<nat>, st: seq<nat>)
    requires forall i :: 0 <= i < |line| ==> line[i] < |ts| && ts[line[i]].Begin?
    requires |st| <= |line| && st == line[..|st|]
    ensures NamesOf(ts, st) == NamesOf(ts, line)[..|st|]
  {
  }

  /** The names of a node's ancestors and its own, if it is one. */
  ghost function WayTo(ts: seq<Token>, j: nat): seq<Bytes>
    requires j < |ts| && ts[j].Begin?
  {
    LineNames(ts, j);
    NamesOf(ts, Line(ts, j))
  }

  lemma {:induction false} WayStep(ts: seq<Token>, j: nat, l: nat)
    requires j < |ts| && ts[j].Begin? && l < |ts| && ts[l].Begin? && |Stack(ts, l)| <= |Line(ts, j)|
    requires Stack(ts, l) == Line(ts, j)[..|Stack(ts, l)|]
    ensures |WayTo(ts, j)| == |Stack(ts, j)| + 1 && WayTo(ts, l) == WayTo(ts, j)[..|Stack(ts, l)|] + [ts[l].name]
  {
    LineNames(ts, j);
    LineNames(ts, l);
    PrefixNames(ts, Line(ts, j), Stack(ts, l));
  }

  lemma {:induction false} WayPlain(ts: seq<Token>, j: nat)
    requires PlainNames(ts) && j < |ts| && ts[j].Begin?
    ensures forall i :: 0 <= i < |WayTo(ts, j)| ==> SLASH !in WayTo(ts, j)[i]
  {
    LineNames(ts, j);
  }

  lemma {:induction false} WayStart(ts: seq<Token>)
    requires ts != [] && ts[0].Begin?
    ensures WayTo(ts, 0) == [ts[0].name]
  {
    LineNames(ts, 0);
    assert Stack(ts, 0) == [];
  }

  /** The path of a node, or none if it does not fit in a buffer of the given size. */
  method GetPath(b: Bytes, o: nat, size: nat, ghost ts: seq<Token>, ghost at: seq<nat>, ghost k: nat)
    returns (r: Option<Bytes>)
    requires Indexed(b, ts, at) && Inside(ts, k) && o == at[k] && at[0] == 0 && Ascending(at) && PlainNames(ts)
    ensures var s := Slashed(WayTo(ts, k));
            r == if size < 2 || |s| > size then None else Some(if |s| > 1 then s[..|s| - 1] else s)
  {
    if size < 2 {
      return None;
    }
    var offset, d := 0, 0;
    var buf: Bytes, count: nat := [], 0;
    ghost var j: nat, prev: seq<Bytes> := 0, [];
    WayStart(ts);
    while true
      invariant j <= k && ts[j].Begin? && offset == at[j] && d == |Stack(ts, j)|
      invariant Filled(buf, count, prev, size) && d <= |prev|
                && (d == 0 ==> prev == []) && forall i :: 0 <= i < |prev| ==> SLASH !in prev[i]
      invariant WayTo(ts, j) == prev[..d] + [ts[j].name]
      decreases k - j
    {
      var name := GetName(b, offset, ts, at, j);
      buf, count := NextName(buf, count, d, name, size, prev);
      prev := WayTo(ts, j);
      WayPlain(ts, j);
      if offset == o {
        break;
      }
      NextLine(ts, j, k);
      var n := NextNode(b, offset, d, ts, at, j);
      ghost var l := Scan(ts, j + 1, d).k;
      WayStep(ts, j, l);
      DeepEnough(ts, k, l);
      j := l;
      offset, d := n.o, n.d;
    }
    assert j == k;
    Finished(buf, count, prev, size);
    LineNames(ts, k);
    if count < d + 1 {
      return None;
    }
    r := Some(if |buf| > 1 then buf[..|buf| - 1] else buf);
  }

  lemma {:induction false} Finished(buf: Bytes, count: nat, names: seq<Bytes>, size: nat)
    requires Filled(buf, count, names, size)
    ensures count == |names| <==> |Slashed(names)| <= size
    ensures count == |names| ==> buf == Slashed(names)
  {
    FitAll(names, size);
    if count == |names| {
      assert names[..count] == names;
    }
  }

  lemma {:induction false} DeepEnough(ts: seq<Token>, k: nat, l: nat)
    requires Inside(ts, k) && 0 < l <= k
    ensures |Stack(ts, l)| >= 1
  {
  }

  // ---------------------------------------------------------------------------------------
  // Finding a node by its path
  // ---------------------------------------------------------------------------------------

  /** The first byte from p on that is, or is not, a slash. */
  function ToSlash(path: Bytes, p: nat, slash: bool): (q: nat)
    requires p <= |path|
    ensures p <= q <= |path| && (q < |path| ==> (path[q] == SLASH) == slash)
    ensures forall i :: p <= i < q ==> (path[i] == SLASH) != slash
    decreases |path| - p
  {
    if p == |path| || (path[p] == SLASH) == slash then p else ToSlash(path, p + 1, slash)
  }

  /** The components of a path from position p on. */
  function Components(path: Bytes, p: nat): seq<Bytes>
    requires p <= |path|
    decreases |path| - p
  {
    var a := ToSlash(path, p, false);
    if a == |path| then []
    else
      var q := ToSlash(path, a, true);
      [path[a..q]] + Components(path, q)
  }

  /** Slashes stand between the components, one or more, also at the ends. */
  lemma {:induction false} KnownPath()
    ensures Ascii("/") == [SLASH]
    ensures Components(Ascii("/a//bc/"), 0) == [Ascii("a"), Ascii("bc")]
  {
    var p := Ascii("/a//bc/");
    assert |p| == 7 && p[0] == p[2] == p[3] == p[6] == SLASH && p[1] == 0x61 && p[4] == 0x62 && p[5] == 0x63;
    assert ToSlash(p, 0, false) == 1 && ToSlash(p, 1, true) == 2;
    assert ToSlash(p, 2, false) == ToSlash(p, 3, false) == 4;
    assert ToSlash(p, 4, true) == ToSlash(p, 5, true) == 6;
    assert ToSlash(p, 6, false) == ToSlash(p, 7, false) == 7;
    assert Components(p, 6) == [];
    assert Components(p, 2) == [p[4..6]] + Components(p, 6);
    assert Components(p, 0) == [p[1..2]] + Components(p, 2);
    assert p[1..2] == Ascii("a") && p[4..6] == Ascii("bc");
  }

  /** The path to the node that names lead to, taking at each level the first child that answers. */
  ghost function Walk(n: RNode, names: seq<Bytes>): (r: Option<Path>)
    ensures r.Some? ==> InNode(n, r.value)
    decreases |names|
  {
    if names == [] then Some([])
    else
      var j := FirstKid(n.kids, 0, Answering(names[0]));
      if j == |n.kids| then None
      else
        match Walk(n.kids[j], names[1..])
        case None => None
        case Some(p) => var q := [j] + p; assert q[1..] == p; Some(q)
  }

  ghost function Appended(p: Path, r: Option<Path>): Option<Path> {
    match r case None => None case Some(q) => Some(p + q)
  }

  lemma {:induction false} NothingBehind(r: Option<Path>)
    ensures Appended([], r) == r
  {
    if r.Some? {
      assert [] + r.value == r.value;
    }
  }

  lemma {:induction false} WalkStep(root: RNode, cur: Path, names: seq<Bytes>, j: nat)
    requires InNode(root, cur) && names != [] && j == FirstKid(SubNode(root, cur).kids, 0, Answering(names[0]))
    ensures if j < |SubNode(root, cur).kids| then
              InNode(root, cur + [j]) && SubNode(root, cur + [j]) == SubNode(root, cur).kids[j] &&
              Appended(cur, Walk(SubNode(root, cur), names)) ==
                Appended(cur + [j], Walk(SubNode(root, cur + [j]), names[1..]))
            else Walk(SubNode(root, cur), names) == None
  {
    var n := SubNode(root, cur);
    if j < |n.kids| {
      IndexSnoc(0, root, cur, j);
      match Walk(n.kids[j], names[1..])
      case None =>
      case Some(p) => assert cur + ([j] + p) == cur + [j] + p;
    }
  }

  /** The child of the node at path cur that answers to a name, as token index. */
  lemma {:induction false} ChildFound(ts: seq<Token>, root: RNode, cur: Path, name: Bytes) returns (k: nat, j: nat)
    requires Occurs(ts, 0, NodeTokens(root)) && InNode(root, cur)
    ensures k == IndexOf(0, root, cur) && k < |ts| && ts[k].Begin?
            && j == FirstKid(SubNode(root, cur).kids, 0, Answering(name))
    ensures var s := Resume(ts, k + 1, 0, Answering(name));
            if j < |SubNode(root, cur).kids| then InNode(root, cur + [j])
              && s == At(IndexOf(0, root, cur + [j])) else !s.At?
  {
    k := IndexOf(0, root, cur);
    var n := SubNode(root, cur);
    NodeOccurs(ts, 0, root, cur);
    NodeParts(ts, k, n);
    SearchNode(ts, k, n, Answering(name));
    j := FirstKid(n.kids, 0, Answering(name));
    if j < |n.kids| {
      IndexSnoc(0, root, cur, j);
    }
  }

  /** The offset of the node that a path names. */
  method PathOffset(b: Bytes, path: Bytes, ghost ts: seq<Token>, ghost at: seq<nat>, ghost root: RNode)
    returns (r: Option<nat>)
    requires Indexed(b, ts, at) && |at| == |ts| + 1 && at[0] == 0 && Occurs(ts, 0, NodeTokens(root)) && path != []
             && path[0] == SLASH
    ensures var w := Walk(root, Components(path, 0));
            if w.Some? then IndexOf(0, root, w.value) < |at| && r == Some(at[IndexOf(0, root, w.value)]) else r == None
  {
    ghost var goal := Walk(root, Components(path, 0));
    ghost var cur: Path := [];
    ghost var names := Components(path, 0);
    var offset := 0;
    var p := 0;
    NothingBehind(goal);
    NodeParts(ts, 0, root);
    while p < |path|
      invariant p <= |path| && InNode(root, cur) && names == Components(path, p)
      invariant IndexOf(0, root, cur) < |at| && offset == at[IndexOf(0, root, cur)]
      invariant goal == Appended(cur, Walk(SubNode(root, cur), names))
      decreases |path| - p
    {
      var a := Skip(path, p, false);
      if a == |path| {
        assert cur + [] == cur;
        return Some(offset);
      }
      var q := Skip(path, a, true);
      ghost var k, j := ChildFound(ts, root, cur, path[a..q]);
      WalkStep(root, cur, names, j);
      r := SubnodeOffset(b, offset, path[a..q], ts, at, k);
      if r.None? {
        return None;
      }
      offset := r.value;
      cur, names := cur + [j], names[1..];
      p := q;
    }
    assert cur + [] == cur;
    r := Some(offset);
  }

  /** Looks for the next byte that is, or is not, a slash. */
  method Skip(path: Bytes, p: nat, slash: bool) returns (q: nat)
    requires p <= |path|
    ensures q == ToSlash(path, p, slash)
  {
    q := p;
    while q < |path| && (path[q] == SLASH) != slash
      invariant p <= q <= |path| && ToSlash(path, p, slash) == ToSlash(path, q, slash)
    {
      q := q + 1;
    }
  }

  // ---------------------------------------------------------------------------------------
  // There and back
  // ---------------------------------------------------------------------------------------

  /** The names on the way down a path. */
  function Names(n: RNode, p: Path): (r: seq<Bytes>)
    requires InNode(n, p)
    ensures |r| == |p|
    decreases |p|
  {
    if p == [] then [] else [n.kids[p[0]].name] + Names(n.kids[p[0]], p[1..])
  }

  /** On the way down no earlier sibling answers to the name of a node. */
  ghost predicate Clear(n: RNode, p: Path)
    requires InNode(n, p)
    decreases |p|
  {
    p == [] || (FirstKid(n.kids, 0, Answering(n.kids[p[0]].name)) == p[0] && Clear(n.kids[p[0]], p[1..]))
  }

  /** At no level does the name of a node answer to the name of a sibling. */
  ghost predicate Unambiguous(n: RNode)
    decreases n
  {
    && (forall i, j :: 0 <= i < |n.kids| && 0 <= j < |n.kids| && NameAnswers(n.kids[i].name, n.kids[j].name) ==> i == j)
    && forall j :: 0 <= j < |n.kids| ==> Unambiguous(n.kids[j])
  }

  /** With unambiguous names every path is clear, so every node is found under the path printed for it. */
  lemma {:induction false} UnambiguousClear(n: RNode, p: Path)
    requires Unambiguous(n) && InNode(n, p)
    ensures Clear(n, p)
    decreases |p|
  {
    if p != [] {
      var j := p[0];
      var i := FirstKid(n.kids, 0, Answering(n.kids[j].name));
      assert Answering(n.kids[j].name)(n.kids[j].name);
      assert i <= j && NameAnswers(n.kids[i].name, n.kids[j].name);
      UnambiguousClear(n.kids[j], p[1..]);
    }
  }

  /** Walking down the names of a path leads back to it exactly when the names are clear. */
  lemma {:induction false} WalkBack(n: RNode, p: Path)
    requires InNode(n, p)
    ensures Walk(n, Names(n, p)) == Some(p) <==> Clear(n, p)
    decreases |p|
  {
    if p != [] {
      var names := Names(n, p);
      var j := FirstKid(n.kids, 0, Answering(names[0]));
      assert names[1..] == Names(n.kids[p[0]], p[1..]);
      if j == p[0] {
        WalkBack(n.kids[j], p[1..]);
        var w := Walk(n.kids[j], names[1..]);
        if w.Some? {
          assert ([j] + w.value)[1..] == w.value && p == [p[0]] + p[1..];
        }
      }
    }
  }

  lemma {:induction false} PathFront(x: Bytes, names: seq<Bytes>)
    ensures PathString_([x] + names) == [SLASH] + x + PathString_(names)
  {
    var all := [x] + names;
    if names == [] {
      assert all == [x] && all[..0] == [];
      assert PathString_(all) == PathString_([]) + [SLASH] + x;
    } else {
      var n := |names| - 1;
      PathFront(x, names[..n]);
      assert all[..|all| - 1] == [x] + names[..n];
      assert [SLASH] + x + PathString_(names[..n]) + [SLASH] + names[n] ==
             [SLASH] + x + (PathString_(names[..n]) + [SLASH] + names[n]);
    }
  }

  lemma {:induction false} ToSlashIs(path: Bytes, p: nat, slash: bool, q: nat)
    requires p <= q <= |path| && (q < |path| ==> (path[q] == SLASH) == slash) && forall i :: p <= i < q ==>
             (path[i] == SLASH) != slash
    ensures ToSlash(path, p, slash) == q
  {
  }

  /** A printed path has the names it was printed from as components. */
  lemma {:induction false} ComponentsOf(path: Bytes, p: nat, names: seq<Bytes>)
    requires p <= |path| && path[p..] == PathString_(names)
    requires forall i :: 0 <= i < |names| ==> names[i] != [] && SLASH !in names[i]
    ensures Components(path, p) == names
    decreases |names|
  {
    if names == [] {
      assert p == |path|;
    } else {
      var x, rest := names[0], names[1..];
      assert names == [x] + rest;
      assert x != [] && SLASH !in x;
      var q := FirstComponent(path, p, x, rest);
      assert forall i :: 0 <= i < |rest| ==> rest[i] == names[i + 1];
      ComponentsOf(path, q, rest);
    }
  }

  lemma {:induction false} FirstComponent(path: Bytes, p: nat, x: Bytes, rest: seq<Bytes>) returns (q: nat)
    requires p <= |path| && path[p..] == PathString_([x] + rest) && x != [] && SLASH !in x
    ensures q <= |path| && path[q..] == PathString_(rest) && Components(path, p) == [x] + Components(path, q)
  {
    q := PathSplit(path, p, x, rest);
    NextSlash(path, q, rest);
    OneComponent(path, p, x);
  }

  lemma {:induction false} PathSplit(path: Bytes, p: nat, x: Bytes, rest: seq<Bytes>) returns (q: nat)
    requires p <= |path| && path[p..] == PathString_([x] + rest)
    ensures q == p + 1 + |x| <= |path| && path[p] == SLASH && path[p + 1..q] == x && path[q..] == PathString_(rest)
  {
    PathFront(x, rest);
    q := p + 1 + |x|;
    var tail := path[p..];
    assert tail == [SLASH] + x + PathString_(rest);
    assert path[p] == tail[0];
    assert path[p + 1..q] == tail[1..1 + |x|];
    assert path[q..] == tail[1 + |x|..];
  }

  lemma {:induction false} NextSlash(path: Bytes, q: nat, rest: seq<Bytes>)
    requires q <= |path| && path[q..] == PathString_(rest)
    ensures q == |path| || path[q] == SLASH
  {
    if rest != [] {
      assert rest == [rest[0]] + rest[1..];
      var e := PathSplit(path, q, rest[0], rest[1..]);
    }
  }

  lemma {:induction false} OneComponent(path: Bytes, p: nat, x: Bytes)
    requires p + 1 + |x| <= |path| && path[p] == SLASH && path[p + 1..p + 1 + |x|] == x && x != [] && SLASH !in x
    requires p + 1 + |x| == |path| || path[p + 1 + |x|] == SLASH
    ensures Components(path, p) == [x] + Components(path, p + 1 + |x|)
  {
    var a, q := p + 1, p + 1 + |x|;
    forall i | a <= i < q
      ensures path[i] != SLASH
    {
      assert path[i] == path[a..q][i - a] && path[a..q][i - a] in x;
    }
    ToSlashIs(path, p, false, a);
    ToSlashIs(path, a, true, q);
  }

  lemma {:induction false} NamesPrepend(ts: seq<Token>, k: nat, rest: seq<nat>)
    requires k < |ts| && ts[k].Begin? && forall i :: 0 <= i < |rest| ==> rest[i] < |ts| && ts[rest[i]].Begin?
    ensures forall i :: 0 <= i < |[k] + rest| ==> ([k] + rest)[i] < |ts| && ts[([k] + rest)[i]].Begin?
    ensures NamesOf(ts, [k] + rest) == [ts[k].name] + NamesOf(ts, rest)
  {
  }

  lemma {:induction false} NamesAbove(ts: seq<Token>, k: nat, n: RNode, p: Path)
    requires Occurs(ts, k, NodeTokens(n)) && InNode(n, p)
    ensures var line := Above(k, n, p) + [IndexOf(k, n, p)];
            && (forall i :: 0 <= i < |line| ==> line[i] < |ts| && ts[line[i]].Begin?)
            && NamesOf(ts, line) == [n.name] + Names(n, p)
    decreases |p|
  {
    assert ts[k] == Begin(n.name, n.pad) by {
      NodeParts(ts, k, n);
    }
    var line := Above(k, n, p) + [IndexOf(k, n, p)];
    if p == [] {
      assert line == [k];
    } else {
      var c, kid := k + KidIndex(n, p[0]), n.kids[p[0]];
      assert Occurs(ts, c, NodeTokens(kid)) by {
        KidOccurs(ts, k, n, p[0]);
      }
      NamesAbove(ts, c, kid, p[1..]);
      var rest := Above(c, kid, p[1..]) + [IndexOf(c, kid, p[1..])];
      assert line == [k] + rest;
      NamesPrepend(ts, k, rest);
    }
  }

  /** The names on the way to a node of the tree. */
  lemma {:induction false} WayNames(ts: seq<Token>, root: RNode, p: Path, k: nat)
    requires Occurs(ts, 0, NodeTokens(root)) && InNode(root, p) && k == IndexOf(0, root, p) && k < |ts| && ts[k].Begin?
    requires Stack(ts, k) == Above(0, root, p)
    ensures WayTo(ts, k) == [root.name] + Names(root, p)
  {
    NamesAbove(ts, 0, root, p);
    LineNames(ts, k);
  }

  lemma {:induction false} RootPath()
    ensures Components([SLASH], 0) == []
  {
    ToSlashIs([SLASH], 0, false, 1);
  }

  /** What a printed path is, and its components. */
  lemma {:induction false} PrintedPath(names: seq<Bytes>, s: Bytes, path: Bytes)
    requires forall i :: 0 <= i < |names| ==> names[i] != [] && SLASH !in names[i]
    requires s == Slashed([[]] + names) && path == if |s| > 1 then s[..|s| - 1] else s
    ensures path == PathString(names) && path != [] && path[0] == SLASH && Components(path, 0) == names
  {
    SlashedIsPath(names);
    if names == [] {
      assert path == [SLASH];
      RootPath();
    } else {
      assert names == [names[0]] + names[1..];
      PathFront(names[0], names[1..]);
      assert path == PathString_(names) && path[0..] == path;
      ComponentsOf(path, 0, names);
    }
  }

  /** Names of the nodes below a node are not empty and have no slash. */
  ghost predicate GoodNames(n: RNode, p: Path)
    requires InNode(n, p)
  {
    forall i :: 0 <= i < |p| ==> Names(n, p)[i] != [] && SLASH !in Names(n, p)[i]
  }

  /**
    The path that is printed for a node leads back to the node exactly when no earlier sibling on
    the way answers to a name on the path.
    */
  method PathAndBack(b: Bytes, o: nat, size: nat, ghost root: RNode, ghost ts: seq<Token>, ghost at: seq<nat>,
                     ghost p: Path)
    returns (path: Option<Bytes>, r: Option<nat>)
    requires TreeBlock(b, root, ts, at) && InNode(root, p) && root.name == [] && PlainNames(ts) && GoodNames(root, p)
    requires IndexOf(0, root, p) < |at| && o == at[IndexOf(0, root, p)]
    ensures path == if size >= 2 && |PathString_(Names(root, p))| + 1 <= size then Some(PathString(Names(root, p)))
            else None
    ensures path.Some? ==> (r == Some(o) <==> Clear(root, p))
  {
    ghost var k := NodeInside(b, root, ts, at, p);
    path := GetPath(b, o, size, ts, at, k);
    WayNames(ts, root, p, k);
    ghost var names := Names(root, p);
    SlashedIsPath(names);
    r := None;
    if path.Some? {
      PrintedPath(names, Slashed([[]] + names), path.value);
      r := PathOffset(b, path.value, ts, at, root);
      WalkBack(root, p);
      ghost var w := Walk(root, names);
      if w.Some? {
        SamePlace(ts, at, root, w.value, p);
      }
    }
  }

  lemma {:induction false} SamePlace(ts: seq<Token>, at: seq<nat>, root: RNode, p: Path, q: Path)
    requires Occurs(ts, 0, NodeTokens(root)) && InNode(root, p) && InNode(root, q) && Ascending(at)
    requires IndexOf(0, root, p) < |at| && IndexOf(0, root, q) < |at|
    ensures at[IndexOf(0, root, p)] == at[IndexOf(0, root, q)] <==> p == q
  {
    var i, j := IndexOf(0, root, p), IndexOf(0, root, q);
    if at[i] == at[j] {
      assert i == j;
      IndexDecides(ts, 0, root, p, q);
    }
  }
}
