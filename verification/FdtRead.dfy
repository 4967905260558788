/**
  Read access to a blob: walking nodes, finding children and properties, names and strings. The
  methods work on the bytes of the structure and strings blocks; their contracts speak about the
  tokens and the tree the bytes encode.
  */
module FdtRead {
  import opened Options
  import opened FdtFormat
  import opened FdtTree

  /**
    The structure block b holds the tokens ts, token j at offset at[j]: reading there gives the
    token's tag, name, value and name offset, and the offset of the next token.
    */
  ghost predicate Indexed(b: Bytes, ts: seq<Token>, at: seq<nat>) {
    && |at| == |ts| + 1
    && (forall j {:trigger NextTag(b, at[j])} :: 0 <= j < |ts| ==> NextTag(b, at[j]) == Some((ts[j].Tag(), at[j + 1])))
    && NextTag(b, at[|ts|]) == None
    && (forall j {:trigger NameAt(b, at[j], ts[j].name)} :: 0 <= j < |ts| && ts[j].Begin? ==>
          NameAt(b, at[j], ts[j].name))
    && (forall j {:trigger PropAt(b, at[j], ts[j].nameoff, ts[j].val)} :: 0 <= j < |ts| && ts[j].Prop? ==>
          PropAt(b, at[j], ts[j].nameoff, ts[j].val))
  }

  ghost predicate NameAt(b: Bytes, o: nat, name: Bytes) {
    o + 4 + |name| < |b| && b[o + 4..o + 4 + |name|] == name && ZeroFrom(b, o + 4) == o + 4 + |name|
  }

  ghost predicate PropAt(b: Bytes, o: nat, nameoff: nat, val: Bytes) {
    o + 12 + |val| <= |b| && Word(b, o + 4) == |val| && Word(b, o + 8) == nameoff && b[o + 12..o + 12 + |val|] == val
  }

  /** The offsets of all tokens, and of the end of the block. */
  function Offsets(ts: seq<Token>): (at: seq<nat>)
    requires ValidTokens(ts)
    ensures |at| == |ts| + 1 && forall j :: 0 <= j <= |ts| ==> at[j] == Off(ts, j)
  {
    seq(|ts| + 1, j requires 0 <= j <= |ts| => Off(ts, j))
  }

  /** The block that encodes a token sequence holds these tokens at their offsets. */
  lemma {:induction false} FlatIndexed(ts: seq<Token>)
    requires ValidTokens(ts)
    ensures Indexed(Flat(ts), ts, Offsets(ts))
  {
    var b, at := Flat(ts), Offsets(ts);
    forall j | 0 <= j < |ts|
      ensures NextTag(b, at[j]) == Some((ts[j].Tag(), at[j + 1]))
    {
      NextTagReads(ts, j);
    }
    forall j | 0 <= j < |ts| && ts[j].Begin?
      ensures NameAt(b, at[j], ts[j].name)
    {
      NameReads(ts, j);
    }
    forall j | 0 <= j < |ts| && ts[j].Prop?
      ensures PropAt(b, at[j], ts[j].nameoff, ts[j].val)
    {
      PropReads(ts, j);
    }
    PastEnd(ts);
  }

  lemma {:induction false} PastEnd(ts: seq<Token>)
    requires ValidTokens(ts)
    ensures Off(ts, |ts|) == |Flat(ts)| && NextTag(Flat(ts), Off(ts, |ts|)) == None
  {
    assert ts[..|ts|] == ts;
  }

  // ---------------------------------------------------------------------------------------
  // From node to node
  // ---------------------------------------------------------------------------------------

  datatype Scanned = Node(k: nat, d: nat) | Left(k: nat) | Ended

  /** Reads on at token k with d nodes open, up to the next node start or the end of the outermost node. */
  ghost function Scan(ts: seq<Token>, k: nat, d: nat): (s: Scanned)
    ensures s.Node? ==> k <= s.k < |ts| && ts[s.k].Begin? && s.d > 0
    ensures s.Left? ==> k < s.k <= |ts|
    decreases |ts| - k
  {
    if k >= |ts| then Ended
    else
      match ts[k]
      case Begin(_, _) => Node(k, d + 1)
      case End => if d == 0 then Left(k + 1) else Scan(ts, k + 1, d - 1)
      case Finish => Ended
      case _ => Scan(ts, k + 1, d)
  }

  lemma {:induction false} ResumeScans(ts: seq<Token>, k: nat, d: nat, f: Bytes -> bool)
    ensures Resume(ts, k, d, f) ==
            match Scan(ts, k, d)
            case Node(j, e) => if e == 1 && f(ts[j].name) then At(j) else Resume(ts, j + 1, e, f)
            case Left(j) => Over(j)
            case Ended => Missing
    decreases |ts| - k
  {
    if k < |ts| {
      match ts[k]
      case Begin(_, _) =>
      case End => if d > 0 { ResumeScans(ts, k + 1, d - 1, f); }
      case Finish =>
      case _ => ResumeScans(ts, k + 1, d, f);
    }
  }

  datatype NodeStep = NodeAt(o: nat, d: nat) | LeftAt(o: nat) | NoMore

  ghost function StepOf(at: seq<nat>, s: Scanned): NodeStep
    requires !s.Ended? ==> s.k < |at|
  {
    match s
    case Node(k, d) => NodeAt(at[k], d)
    case Left(k) => LeftAt(at[k])
    case Ended => NoMore
  }

  /** The tag at the offset of token j, and the offset of the next token. */
  method TagAt(b: Bytes, o: nat, ghost ts: seq<Token>, ghost at: seq<nat>, ghost j: nat) returns (r: Option<(nat, nat)>)
    requires Indexed(b, ts, at) && j <= |ts| && o == at[j]
    ensures r == if j < |ts| then Some((ts[j].Tag(), at[j + 1])) else None
  {
    r := ReadTag(b, o);
    assert j < |ts| ==> NextTag(b, at[j]) == Some((ts[j].Tag(), at[j + 1]));
  }

  /** The node after the one at offset o; d counts the nodes open around it within the walk. */
  method NextNode(b: Bytes, o: nat, d: nat, ghost ts: seq<Token>, ghost at: seq<nat>, ghost k: nat)
    returns (r: NodeStep)
    requires Indexed(b, ts, at) && k < |ts| && ts[k].Begin? && o == at[k]
    ensures r == StepOf(at, Scan(ts, k + 1, d))
  {
    var tag := TagAt(b, o, ts, at, k);
    var next := tag.value.1;
    var depth := d;
    ghost var j := k + 1;
    while true
      invariant k < j <= |ts| && next == at[j]
      invariant Scan(ts, k + 1, d) == Scan(ts, j, depth)
      decreases |ts| - j
    {
      var offset := next;
      tag := TagAt(b, offset, ts, at, j);
      if tag.None? {
        return NoMore;
      }
      next := tag.value.1;
      if tag.value.0 == FDT_BEGIN_NODE {
        return NodeAt(offset, depth + 1);
      } else if tag.value.0 == FDT_END_NODE {
        if depth == 0 {
          return LeftAt(next);
        }
        depth := depth - 1;
      } else if tag.value.0 == FDT_END {
        return NoMore;
      }
      j := j + 1;
    }
  }

  // ---------------------------------------------------------------------------------------
  // Children
  // ---------------------------------------------------------------------------------------

  const AT_SIGN: Byte := 0x40

  /** Does the node name p answer to s? It is s, or s without unit address followed by one. */
  predicate NameAnswers(p: Bytes, s: Bytes) {
    p == s || (AT_SIGN !in s && s + [AT_SIGN] <= p)
  }

  function Answering(s: Bytes): Bytes -> bool {
    (p: Bytes) => NameAnswers(p, s)
  }

  function AnyName(): Bytes -> bool {
    (p: Bytes) => true
  }

  /** The offset a search ends with, if it found a child. */
  ghost function FoundOffset(at: seq<nat>, r: Found): Option<nat>
    requires r.At? ==> r.k < |at|
  {
    if r.At? then Some(at[r.k]) else None
  }

  lemma {:induction false} ResumeInRange(ts: seq<Token>, k: nat, d: nat, f: Bytes -> bool)
    ensures var r := Resume(ts, k, d, f); (r.At? ==> r.k < |ts| && ts[r.k].Begin?) && (r.Over? ==> r.k <= |ts|)
    decreases |ts| - k
  {
    if k < |ts| {
      match ts[k]
      case Begin(name, _) => if !(d == 0 && f(name)) { ResumeInRange(ts, k + 1, d + 1, f); }
      case End => if d > 0 { ResumeInRange(ts, k + 1, d - 1, f); }
      case Finish =>
      case _ => ResumeInRange(ts, k + 1, d, f);
    }
  }

  /** The name stored in the node header at offset o. */
  method GetName(b: Bytes, o: nat, ghost ts: seq<Token>, ghost at: seq<nat>, ghost k: nat) returns (name: Bytes)
    requires Indexed(b, ts, at) && k < |ts| && ts[k].Begin? && o == at[k]
    ensures name == ts[k].name
  {
    assert NameAt(b, at[k], ts[k].name);
    var z := o + 4;
    while b[z] != 0
      invariant o + 4 <= z < |b|
      invariant ZeroFrom(b, z) == o + 4 + |ts[k].name|
      decreases |b| - z
    {
      z := z + 1;
    }
    name := b[o + 4..z];
  }

  /** The comparison of node names: the first bytes, then what stands behind them. */
  method NodeNameEq(b: Bytes, o: nat, name: Bytes, ghost ts: seq<Token>, ghost at: seq<nat>, ghost k: nat)
    returns (r: bool)
    requires Indexed(b, ts, at) && k < |ts| && ts[k].Begin? && o == at[k]
    ensures r == Answering(name)(ts[k].name)
  {
    var p := GetName(b, o, ts, at, k);
    AnswerParts(p, name);
    if |p| < |name| {
      return false;
    }
    if p[..|name|] != name {
      return false;
    }
    if |p| == |name| {
      return true;
    }
    return AT_SIGN !in name && p[|name|] == AT_SIGN;
  }

  lemma {:induction false} AnswerParts(p: Bytes, s: Bytes)
    ensures NameAnswers(p, s) <==>
            |s| <= |p| && p[..|s|] == s && (|p| == |s| || (AT_SIGN !in s && p[|s|] == AT_SIGN))
  {
    if |s| <= |p| && p[..|s|] == s {
      if |s| == |p| {
        assert p == p[..|s|];
      } else {
        assert p[..|s| + 1] == p[..|s|] + [p[|s|]];
      }
    }
    if s + [AT_SIGN] <= p {
      assert p[..|s|] == (s + [AT_SIGN])[..|s|] == s && p[|s|] == (s + [AT_SIGN])[|s|];
    }
  }

  /** First child of the node at offset o. */
  method FirstSubnode(b: Bytes, o: nat, ghost ts: seq<Token>, ghost at: seq<nat>, ghost k: nat) returns (r: Option<nat>)
    requires Indexed(b, ts, at) && k < |ts| && ts[k].Begin? && o == at[k]
    ensures var s := Resume(ts, k + 1, 0, AnyName()); (s.At? ==> s.k < |ts|) && r == FoundOffset(at, s)
  {
    ResumeInRange(ts, k + 1, 0, AnyName());
    ResumeScans(ts, k + 1, 0, AnyName());
    ScanFromChild(ts, k + 1);
    var n := NextNode(b, o, 0, ts, at, k);
    if n.NodeAt? && n.d == 1 {
      return Some(n.o);
    }
    return None;
  }

  lemma {:induction false} ScanFromChild(ts: seq<Token>, k: nat)
    ensures var s := Scan(ts, k, 0); s.Node? ==> s.d == 1
    decreases |ts| - k
  {
    if k < |ts| && (ts[k].Prop? || ts[k].Nop?) {
      ScanFromChild(ts, k + 1);
    }
  }

  /** The sibling after the child at offset o. */
  method NextSubnode(b: Bytes, o: nat, ghost ts: seq<Token>, ghost at: seq<nat>, ghost k: nat) returns (r: Option<nat>)
    requires Indexed(b, ts, at) && k < |ts| && ts[k].Begin? && o == at[k]
    ensures var s := Resume(ts, k + 1, 1, AnyName()); (s.At? ==> s.k < |ts|) && r == FoundOffset(at, s)
  {
    ghost var goal := Resume(ts, k + 1, 1, AnyName());
    ResumeInRange(ts, k + 1, 1, AnyName());
    var offset, depth := o, 1;
    ghost var j := k;
    while true
      invariant k <= j < |ts| && ts[j].Begin? && offset == at[j] && depth >= 1
      invariant goal == Resume(ts, j + 1, depth, AnyName())
      decreases |ts| - j
    {
      ResumeScans(ts, j + 1, depth, AnyName());
      var n := NextNode(b, offset, depth, ts, at, j);
      if !n.NodeAt? {
        return None;
      }
      j := Scan(ts, j + 1, depth).k;
      offset, depth := n.o, n.d;
      if depth <= 1 {
        return Some(offset);
      }
    }
  }

  /** The first child of the node at offset o that answers to name. */
  method SubnodeOffset(b: Bytes, o: nat, name: Bytes, ghost ts: seq<Token>, ghost at: seq<nat>, ghost k: nat)
    returns (r: Option<nat>)
    requires Indexed(b, ts, at) && k < |ts| && ts[k].Begin? && o == at[k]
    ensures var s := Resume(ts, k + 1, 0, Answering(name)); (s.At? ==> s.k < |ts|) && r == FoundOffset(at, s)
    ensures var s := Resume(ts, k + 1, 0, Answering(name));
            s.At? ==> ts[s.k].Begin? && (ts[s.k].name == name || (AT_SIGN !in name && name + [AT_SIGN] <= ts[s.k].name))
  {
    var f := Answering(name);
    ghost var goal := Resume(ts, k + 1, 0, f);
    ResumeInRange(ts, k + 1, 0, f);
    var offset, depth := o, 0;
    ghost var j := k;
    while true
      invariant k <= j < |ts| && ts[j].Begin? && offset == at[j] && depth >= 0
      invariant if depth == 1 && f(ts[j].name) then goal == At(j) else goal == Resume(ts, j + 1, depth, f)
      decreases |ts| - j
    {
      if depth == 1 {
        var eq := NodeNameEq(b, offset, name, ts, at, j);
        if eq {
          return Some(offset);
        }
      }
      ResumeScans(ts, j + 1, depth, f);
      var n := NextNode(b, offset, depth, ts, at, j);
      if !n.NodeAt? {
        return None;
      }
      j := Scan(ts, j + 1, depth).k;
      offset, depth := n.o, n.d;
    }
  }

  /** The offset behind the end tag of the node at offset o. */
  method NodeEndOffset(b: Bytes, o: nat, ghost ts: seq<Token>, ghost at: seq<nat>, ghost k: nat)
    returns (r: Option<nat>)
    requires Indexed(b, ts, at) && k < |ts| && ts[k].Begin? && o == at[k]
    ensures var s := Resume(ts, k + 1, 0, (p: Bytes) => false);
            (s.Over? ==> s.k <= |ts|) && !s.At? && r == if s.Over? then Some(at[s.k]) else None
  {
    var f := (p: Bytes) => false;
    ghost var goal := Resume(ts, k + 1, 0, f);
    ResumeInRange(ts, k + 1, 0, f);
    var offset, depth := o, 0;
    ghost var j := k;
    while true
      invariant k <= j < |ts| && ts[j].Begin? && offset == at[j] && depth >= 0
      invariant goal == Resume(ts, j + 1, depth, f)
      decreases |ts| - j
    {
      ResumeScans(ts, j + 1, depth, f);
      var n := NextNode(b, offset, depth, ts, at, j);
      if n.LeftAt? {
        return Some(n.o);
      }
      if n.NoMore? {
        return None;
      }
      j := Scan(ts, j + 1, depth).k;
      offset, depth := n.o, n.d;
    }
  }

  // ---------------------------------------------------------------------------------------
  // Properties
  // ---------------------------------------------------------------------------------------

  /** The string that starts at an offset of the strings block, if it is terminated inside the block. */
  function StringAt(strs: Bytes, off: nat): Option<Bytes> {
    if off >= |strs| then None
    else
      var z := ZeroFrom(strs, off);
      if z == |strs| then None else Some(strs[off..z])
  }

  /** The first token from k on that is not a NOP. */
  ghost function SkipNops(ts: seq<Token>, k: nat): (j: nat)
    requires k <= |ts|
    ensures k <= j <= |ts| && (j < |ts| ==> !ts[j].Nop?)
    ensures forall i :: k <= i < j ==> ts[i].Nop?
    decreases |ts| - k
  {
    if k == |ts| || !ts[k].Nop? then k else SkipNops(ts, k + 1)
  }

  /** The next property at or after offset o, if no other tag but NOPs comes first. */
  method PropertyFrom(b: Bytes, o: nat, ghost ts: seq<Token>, ghost at: seq<nat>, ghost k: nat) returns (r: Option<nat>)
    requires Indexed(b, ts, at) && k <= |ts| && o == at[k]
    ensures var j := SkipNops(ts, k); r == if j < |ts| && ts[j].Prop? then Some(at[j]) else None
  {
    var offset := o;
    ghost var j := k;
    while true
      invariant k <= j <= |ts| && offset == at[j]
      invariant SkipNops(ts, k) == SkipNops(ts, j)
      decreases |ts| - j
    {
      var tag := TagAt(b, offset, ts, at, j);
      if tag.None? || tag.value.0 == FDT_END {
        return None;
      }
      if tag.value.0 == FDT_PROP {
        return Some(offset);
      }
      if tag.value.0 != FDT_NOP {
        return None;
      }
      offset := tag.value.1;
      j := j + 1;
    }
  }

  /** Is the string at a name offset the given name? */
  function Named(strs: Bytes, name: Bytes): nat -> bool {
    (off: nat) => StringAt(strs, off) == Some(name)
  }

  /** The first property token from j on, among the properties of one node, that carries the name. */
  ghost function FindProp(ts: seq<Token>, has: nat -> bool, j: nat): (r: Option<nat>)
    requires j <= |ts|
    ensures r.Some? ==> j <= r.value < |ts| && ts[r.value].Prop? && has(ts[r.value].nameoff)
    decreases |ts| - j
  {
    var p := SkipNops(ts, j);
    if p == |ts| || !ts[p].Prop? then None
    else if has(ts[p].nameoff) then Some(p)
    else FindProp(ts, has, p + 1)
  }

  /** The offset of the property of that name of the node at offset o. */
  method PropertyOffset(b: Bytes, strs: Bytes, o: nat, name: Bytes, ghost ts: seq<Token>, ghost at: seq<nat>,
                        ghost k: nat)
    returns (r: Option<nat>)
    requires Indexed(b, ts, at) && k < |ts| && ts[k].Begin? && o == at[k]
    ensures var j := FindProp(ts, Named(strs, name), k + 1); r == if j.Some? then Some(at[j.value]) else None
  {
    var tag := TagAt(b, o, ts, at, k);
    var offset := tag.value.1;
    ghost var j := k + 1;
    while true
      invariant k < j <= |ts| && offset == at[j]
      invariant FindProp(ts, Named(strs, name), k + 1) == FindProp(ts, Named(strs, name), j)
      decreases |ts| - j
    {
      r := PropertyFrom(b, offset, ts, at, j);
      if r.None? {
        return;
      }
      j := SkipNops(ts, j);
      var same := PropertyNamed(b, strs, r.value, name, ts, at, j);
      if same {
        return;
      }
      tag := TagAt(b, r.value, ts, at, j);
      offset := tag.value.1;
      j := j + 1;
    }
  }

  method PropertyNamed(b: Bytes, strs: Bytes, o: nat, name: Bytes, ghost ts: seq<Token>, ghost at: seq<nat>,
                       ghost k: nat)
    returns (r: bool)
    requires Indexed(b, ts, at) && k < |ts| && ts[k].Prop? && o == at[k]
    ensures r == Named(strs, name)(ts[k].nameoff)
  {
    assert PropAt(b, at[k], ts[k].nameoff, ts[k].val);
    r := StringAt(strs, Word(b, o + 8)) == Some(name);
  }

  /** Name offset and value of the property at offset o. */
  method GetProperty(b: Bytes, o: nat, ghost ts: seq<Token>, ghost at: seq<nat>, ghost k: nat)
    returns (nameoff: nat, val: Bytes)
    requires Indexed(b, ts, at) && k < |ts| && ts[k].Prop? && o == at[k]
    ensures nameoff == ts[k].nameoff && val == ts[k].val
  {
    assert PropAt(b, at[k], ts[k].nameoff, ts[k].val);
    nameoff := Word(b, o + 8);
    val := b[o + 12..o + 12 + Word(b, o + 4)];
  }

  // ---------------------------------------------------------------------------------------
  // The same in terms of the tree
  // ---------------------------------------------------------------------------------------

  /** Does the item carry a property name of the kind sought? */
  predicate Carries(i: Item, has: nat -> bool) {
    i.ItemProp? && has(i.nameoff)
  }

  /** The first item from number i on that carries the name, or the number of items. */
  function PropIndex(head: seq<Item>, has: nat -> bool, i: nat): (j: nat)
    requires i <= |head|
    ensures i <= j <= |head| && (j < |head| ==> Carries(head[j], has))
    ensures forall x :: i <= x < j ==> !Carries(head[x], has)
    decreases |head| - i
  {
    if i == |head| || Carries(head[i], has) then i else PropIndex(head, has, i + 1)
  }

  /** Behind the properties of a node comes a node start or a node end. */
  lemma {:induction false} AfterHead(ts: seq<Token>, k: nat, n: RNode)
    requires Occurs(ts, k, NodeTokens(n))
    ensures var e := k + 1 + |n.head|; e < |ts| && (ts[e].Begin? || ts[e].End?)
  {
    NodeParts(ts, k, n);
    if n.kids != [] {
      KidsParts(ts, k + 1 + |n.head|, n.kids);
      NodeParts(ts, k + 1 + |n.head|, n.kids[0]);
    }
  }

  lemma {:induction false} FindStep(ts: seq<Token>, has: nat -> bool, j: nat)
    requires j < |ts|
    ensures FindProp(ts, has, j) ==
            if ts[j].Nop? then FindProp(ts, has, j + 1)
            else if !ts[j].Prop? then None
            else if has(ts[j].nameoff) then Some(j) else FindProp(ts, has, j + 1)
  {
  }

  lemma {:induction false} IndexStep(head: seq<Item>, has: nat -> bool, i: nat)
    requires i < |head|
    ensures PropIndex(head, has, i) == if Carries(head[i], has) then i else PropIndex(head, has, i + 1)
  {
  }

  lemma {:induction false} FindInHead(ts: seq<Token>, p: nat, head: seq<Item>, has: nat -> bool, i: nat)
    requires i <= |head| && p + |head| < |ts|
    requires forall x :: 0 <= x < |head| ==> ts[p + x] == ItemToken(head[x])
    requires !ts[p + |head|].Nop? && !ts[p + |head|].Prop?
    ensures FindProp(ts, has, p + i) ==
            if PropIndex(head, has, i) < |head| then Some(p + PropIndex(head, has, i)) else None
    decreases |head| - i
  {
    FindStep(ts, has, p + i);
    if i < |head| {
      assert ts[p + i] == ItemToken(head[i]);
      IndexStep(head, has, i);
      FindInHead(ts, p, head, has, i + 1);
    }
  }

  lemma {:induction false} HeadLies(ts: seq<Token>, p: nat, head: seq<Item>)
    requires Occurs(ts, p, HeadTokens(head))
    ensures forall x :: 0 <= x < |head| ==> ts[p + x] == ItemToken(head[x])
  {
    forall x | 0 <= x < |head|
      ensures ts[p + x] == ItemToken(head[x])
    {
      assert ts[p + x] == ts[p..p + |head|][x];
    }
  }

  /** The tokens of a node's properties, and that no property or NOP follows them. */
  lemma {:induction false} HeadFacts(ts: seq<Token>, k: nat, n: RNode)
    requires Occurs(ts, k, NodeTokens(n))
    ensures k + 1 + |n.head| < |ts| && forall x :: 0 <= x < |n.head| ==> ts[k + 1 + x] == ItemToken(n.head[x])
    ensures !ts[k + 1 + |n.head|].Nop? && !ts[k + 1 + |n.head|].Prop?
  {
    assert Occurs(ts, k + 1, HeadTokens(n.head)) by {
      NodeParts(ts, k, n);
    }
    AfterHead(ts, k, n);
    HeadLies(ts, k + 1, n.head);
  }

  /** Where the first property of that name lies, when the properties start at p. */
  function FirstNamed(head: seq<Item>, has: nat -> bool, p: nat): Option<nat> {
    var i := PropIndex(head, has, 0);
    if i < |head| then Some(p + i) else None
  }

  /** A property search in a node finds its first property of that name. */
  lemma {:induction false} FindInNode(ts: seq<Token>, k: nat, n: RNode, has: nat -> bool)
    requires Occurs(ts, k, NodeTokens(n))
    ensures k < |ts| && FindProp(ts, has, k + 1) == FirstNamed(n.head, has, k + 1)
  {
    var p, head := k + 1, n.head;
    HeadFacts(ts, k, n);
    FindFromStart(ts, p, head, has);
  }

  lemma {:induction false} FindFromStart(ts: seq<Token>, p: nat, head: seq<Item>, has: nat -> bool)
    requires p + |head| < |ts|
    requires forall x :: 0 <= x < |head| ==> ts[p + x] == ItemToken(head[x])
    requires !ts[p + |head|].Nop? && !ts[p + |head|].Prop?
    ensures FindProp(ts, has, p) == FirstNamed(head, has, p)
  {
    FindInHead(ts, p, head, has, 0);
  }
}
