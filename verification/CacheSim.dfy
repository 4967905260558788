/**
  A set-associative write-back cache that only keeps tags and counters, and chains of such caches.
  */
module CacheSim {
  import opened Options

  /** One entry of the tag array: the line number with the two flag bits above it. */
  datatype Line = Line(valid: bool, dirty: bool, number: nat)

  datatype Request = Request(addr: nat, bytes: nat, store: bool)

  /**
    Counters, with two that the program does not keep: lines made dirty, and dirty lines dropped
    without a write-back.
    */
  datatype Stats = Stats(readCount: nat, readMisses: nat, bytesRead: nat, writeCount: nat, writeMisses: nat,
    bytesWritten: nat,
                         writebacks: nat, dirtied: nat, dropped: nat)

  /** Tag array, geometry, counters; the pseudo-random generator is any function of the number of draws. */
  datatype Cache = Cache(sets: nat, ways: nat, linesz: nat, lines: seq<Line>, stats: Stats, choice: nat -> nat,
    draws: nat)
  {
    predicate Shaped() {
      sets > 0 && ways > 0 && linesz > 0 && |lines| == sets * ways
    }

    /** The first entry of the set that a line belongs to. */
    function Base(number: nat): (r: nat)
      requires Shaped()
      ensures r + ways <= |lines|
    {
      InSet(number % sets);
      number % sets * ways
    }

    lemma {:induction false} InSet(k: nat)
      requires Shaped() && k < sets
      ensures k * ways + ways <= |lines|
    {
      assert (k + 1) * ways <= sets * ways;
    }
  }

  // ---------------------------------------------------------------------------------------
  // One access
  // ---------------------------------------------------------------------------------------

  predicate Matches(l: Line, number: nat) {
    l.valid && l.number == number
  }

  /** The first entry from index i up to e that holds the line, or e. */
  function Find(lines: seq<Line>, number: nat, i: nat, e: nat): (r: nat)
    requires i <= e <= |lines|
    ensures i <= r <= e && (r < e ==> Matches(lines[r], number))
    ensures forall k :: i <= k < r ==> !Matches(lines[k], number)
    decreases e - i
  {
    if i == e || Matches(lines[i], number) then i else Find(lines, number, i + 1, e)
  }

  /** The entry that holds a line, if one does. */
  function Lookup(c: Cache, number: nat): (r: Option<nat>)
    requires c.Shaped()
    ensures r.Some? ==> c.Base(number) <= r.value < c.Base(number) + c.ways && Matches(c.lines[r.value], number)
    ensures r.None? ==> forall k :: c.Base(number) <= k < c.Base(number) + c.ways ==> !Matches(c.lines[k], number)
  {
    var b := c.Base(number);
    var r := Find(c.lines, number, b, b + c.ways);
    if r < b + c.ways then Some(r) else None
  }

  function Counted(s: Stats, r: Request): Stats {
    if r.store then s.(writeCount := s.writeCount + 1, bytesWritten := s.bytesWritten + r.bytes)
    else s.(readCount := s.readCount + 1, bytesRead := s.bytesRead + r.bytes)
  }

  function Missed(s: Stats, r: Request): Stats {
    if r.store then s.(writeMisses := s.writeMisses + 1) else s.(readMisses := s.readMisses + 1)
  }

  /** Marks an entry dirty. */
  function Dirty(c: Cache, i: nat): Cache
    requires i < |c.lines|
  {
    c.(lines := c.lines[i := c.lines[i].(dirty := true)],
       stats := if c.lines[i].dirty then c.stats else c.stats.(dirtied := c.stats.dirtied + 1))
  }

  /** Replaces entry i by a clean line. */
  function Refill(c: Cache, i: nat, number: nat): Cache
    requires i < |c.lines|
  {
    var v := c.lines[i];
    c.(lines := c.lines[i := Line(true, false, number)],
       stats := if v.valid && v.dirty then c.stats.(writebacks := c.stats.writebacks + 1) else c.stats)
  }

  /** The requests to the next level that a miss causes: the victim if it is dirty, then the line. */
  function Requests(c: Cache, i: nat, number: nat): seq<Request>
    requires i < |c.lines|
  {
    var v := c.lines[i];
    (if v.valid && v.dirty then [Request(v.number * c.linesz, c.linesz, true)] else [])
    + [Request(number * c.linesz, c.linesz, false)]
  }

  /** The entry that a miss replaces. */
  function Victim(c: Cache, number: nat): (i: nat)
    requires c.Shaped()
    ensures c.Base(number) <= i < c.Base(number) + c.ways
  {
    c.Base(number) + c.choice(c.draws) % c.ways
  }

  /** The cache after an access, and what it asked the next level for. */
  function Accessed(c: Cache, r: Request): (Cache, seq<Request>)
    requires c.Shaped()
  {
    var number := r.addr / c.linesz;
    var d := c.(stats := Counted(c.stats, r));
    match Lookup(c, number)
    case Some(i) => (if r.store then Dirty(d, i) else d, [])
    case None =>
      var i := Victim(c, number);
      var f := Refill(d.(stats := Missed(d.stats, r), draws := c.draws + 1), i, number);
      (if r.store then Dirty(f, i) else f, Requests(c, i, number))
  }

  lemma {:induction false} MissIs(c: Cache, r: Request, number: nat, i: nat, e: Cache)
    requires c.Shaped() && number == r.addr / c.linesz && Lookup(c, number).None?
    requires e == c.(stats := Missed(Counted(c.stats, r), r)) && i == Victim(e, number)
    ensures i < |c.lines| && i == Victim(c, number)
    ensures var f := Refill(e.(draws := c.draws + 1), i, number);
            Accessed(c, r) == (if r.store then Dirty(f, i) else f, Requests(e, i, number))
  {
    assert e.Base(number) == c.Base(number);
  }

  /** What a clean and invalidate operation does to one line. */
  function Flush(c: Cache, number: nat, clean: bool, inval: bool): Cache
    requires c.Shaped()
  {
    match Lookup(c, number)
    case None => c
    case Some(i) =>
      var l := c.lines[i];
      var back := clean && l.dirty;
      var m := l.(dirty := l.dirty && !clean, valid := !inval);
      c.(lines := c.lines[i := m],
         stats := c.stats.(writebacks := c.stats.writebacks + (if back then 1 else 0),
                           dropped := c.stats.dropped + (if inval && l.dirty && !clean then 1 else 0)))
  }

  function FlushAll(c: Cache, number: nat, n: nat, clean: bool, inval: bool): (d: Cache)
    requires c.Shaped()
    ensures d.Shaped()
    decreases n
  {
    if n == 0 then c else FlushAll(Flush(c, number, clean, inval), number + 1, n - 1, clean, inval)
  }

  // ---------------------------------------------------------------------------------------
  // What every operation keeps
  // ---------------------------------------------------------------------------------------

  predicate IsDirty(l: Line) {
    l.valid && l.dirty
  }

  function CountDirty(lines: seq<Line>): nat {
    if lines == [] then 0 else (if IsDirty(lines[0]) then 1 else 0) + CountDirty(lines[1..])
  }

  lemma {:induction false} CountUpdate(lines: seq<Line>, i: nat, l: Line)
    requires i < |lines|
    ensures CountDirty(lines[i := l]) + (if IsDirty(lines[i]) then 1 else 0) ==
            CountDirty(lines) + (if IsDirty(l) then 1 else 0)
  {
    if i == 0 {
      assert lines[i := l][1..] == lines[1..];
    } else {
      assert lines[i := l][1..] == lines[1..][i - 1 := l];
      CountUpdate(lines[1..], i - 1, l);
    }
  }

  /** Valid lines lie in their set, and no line is there twice. */
  ghost predicate Placed(c: Cache)
    requires c.Shaped()
  {
    && (forall i :: 0 <= i < |c.lines| && c.lines[i].valid ==>
          c.Base(c.lines[i].number) <= i < c.Base(c.lines[i].number) + c.ways)
    && (forall i, j :: 0 <= i < j < |c.lines| && c.lines[i].valid && c.lines[j].valid ==>
          c.lines[i].number != c.lines[j].number)
  }

  /** Every line that was made dirty was written back, is still dirty, or was dropped. */
  predicate Balanced(c: Cache) {
    c.stats.dirtied == c.stats.writebacks + CountDirty(c.lines) + c.stats.dropped
  }

  ghost predicate Good(c: Cache) {
    c.Shaped() && Placed(c) && Balanced(c)
  }

  function NewCache(sets: nat, ways: nat, linesz: nat, choice: nat -> nat): Cache {
    Cache(sets, ways, linesz, seq(sets * ways, _ => Line(false, false, 0)), Stats(0, 0, 0, 0, 0, 0, 0, 0, 0), choice, 0)
  }

  lemma {:induction false} NoneDirty(lines: seq<Line>)
    requires forall i :: 0 <= i < |lines| ==> !IsDirty(lines[i])
    ensures CountDirty(lines) == 0
  {
    if lines != [] {
      NoneDirty(lines[1..]);
    }
  }

  lemma {:induction false} NewGood(sets: nat, ways: nat, linesz: nat, choice: nat -> nat)
    requires sets > 0 && ways > 0 && linesz > 0
    ensures Good(NewCache(sets, ways, linesz, choice))
  {
    NoneDirty(NewCache(sets, ways, linesz, choice).lines);
  }

  /** Marking a valid entry dirty. */
  lemma {:induction false} DirtyGood(c: Cache, i: nat)
    requires Good(c) && i < |c.lines| && c.lines[i].valid
    ensures Good(Dirty(c, i))
  {
    CountUpdate(c.lines, i, c.lines[i].(dirty := true));
  }

  /** Filling an entry of the right set with a line that is nowhere yet. */
  lemma {:induction false} RefillGood(c: Cache, i: nat, number: nat)
    requires Good(c) && Lookup(c, number).None? && c.Base(number) <= i < c.Base(number) + c.ways
    ensures Good(Refill(c, i, number))
  {
    CountUpdate(c.lines, i, Line(true, false, number));
    var d := Refill(c, i, number);
    assert forall k :: 0 <= k < |c.lines| && c.lines[k].valid ==> c.lines[k].number != number;
  }

  lemma {:induction false} StatsGood(c: Cache, s: Stats, draws: nat)
    requires Good(c) && s.writebacks == c.stats.writebacks && s.dirtied == c.stats.dirtied
             && s.dropped == c.stats.dropped
    ensures Good(c.(stats := s, draws := draws)) && forall n ::
              Lookup(c.(stats := s, draws := draws), n) == Lookup(c, n)
  {
  }

  /** An access keeps placement, uniqueness and the balance of dirty lines. */
  lemma {:induction false} AccessGood(c: Cache, r: Request)
    requires Good(c)
    ensures Good(Accessed(c, r).0)
  {
    var number := r.addr / c.linesz;
    var d := c.(stats := Counted(c.stats, r));
    match Lookup(c, number)
    case Some(i) =>
      StatsGood(c, d.stats, c.draws);
      if r.store {
        DirtyGood(d, i);
      }
    case None =>
      var i := Victim(c, number);
      var e := d.(stats := Missed(d.stats, r), draws := c.draws + 1);
      StatsGood(c, e.stats, c.draws + 1);
      RefillGood(e, i, number);
      if r.store {
        DirtyGood(Refill(e, i, number), i);
      }
  }

  /** Cleaning and invalidating a line keeps them too. */
  lemma {:induction false} FlushGood(c: Cache, number: nat, clean: bool, inval: bool)
    requires Good(c)
    ensures Good(Flush(c, number, clean, inval))
  {
    match Lookup(c, number)
    case None =>
    case Some(i) =>
      var l := c.lines[i];
      CountUpdate(c.lines, i, l.(dirty := l.dirty && !clean, valid := !inval));
  }

  /** These lines remain to be flushed to get to the goal. */
  ghost predicate Left(goal: Cache, c: Cache, number: nat, n: nat, clean: bool, inval: bool) {
    c.Shaped() && goal == FlushAll(c, number, n, clean, inval)
  }

  lemma {:induction false} LeftNothing(goal: Cache, c: Cache, number: nat, clean: bool, inval: bool)
    requires Left(goal, c, number, 0, clean, inval)
    ensures goal == c
  {
  }

  lemma {:induction false} LeftStep(goal: Cache, c: Cache, number: nat, n: nat, clean: bool, inval: bool, d: Cache)
    requires Left(goal, c, number, n, clean, inval) && n > 0 && d == Flush(c, number, clean, inval)
    ensures Left(goal, d, number + 1, n - 1, clean, inval)
  {
  }

  lemma {:induction false} FlushAllGood(c: Cache, number: nat, n: nat, clean: bool, inval: bool)
    requires Good(c)
    ensures Good(FlushAll(c, number, n, clean, inval))
    decreases n
  {
    if n > 0 {
      FlushGood(c, number, clean, inval);
      FlushAllGood(Flush(c, number, clean, inval), number + 1, n - 1, clean, inval);
    }
  }

  // ---------------------------------------------------------------------------------------
  // Which lines are there, and which of them are dirty
  // ---------------------------------------------------------------------------------------

  ghost predicate HoldsLine(c: Cache, l: nat) {
    exists i :: 0 <= i < |c.lines| && Matches(c.lines[i], l)
  }

  ghost predicate HoldsDirty(c: Cache, l: nat) {
    exists i :: 0 <= i < |c.lines| && Matches(c.lines[i], l) && c.lines[i].dirty
  }

  /** A search in the set of a line finds it if it is anywhere. */
  lemma {:induction false} LookupFinds(c: Cache, l: nat)
    requires Good(c)
    ensures Lookup(c, l).Some? <==> HoldsLine(c, l)
    ensures Lookup(c, l).Some? ==> (HoldsDirty(c, l) <==> c.lines[Lookup(c, l).value].dirty)
  {
  }

  /** Another entry at index i, where a line of number n was or a line of number n comes. */
  lemma {:induction false} OthersStay(c: Cache, d: Cache, i: nat, m: Line, l: nat)
    requires i < |c.lines| && d.lines == c.lines[i := m] && !Matches(m, l) && !Matches(c.lines[i], l)
    ensures (HoldsLine(d, l) <==> HoldsLine(c, l)) && (HoldsDirty(d, l) <==> HoldsDirty(c, l))
  {
    if k :| 0 <= k < |c.lines| && Matches(c.lines[k], l) {
      assert Matches(d.lines[k], l);
    }
    if k :| 0 <= k < |c.lines| && Matches(c.lines[k], l) && c.lines[k].dirty {
      assert Matches(d.lines[k], l) && d.lines[k].dirty;
    }
  }

  /** The entry at index i is the only one of its line. */
  lemma {:induction false} OnlyEntry(c: Cache, i: nat, l: nat)
    requires Good(c) && i < |c.lines| && Matches(c.lines[i], l)
    ensures HoldsLine(c, l) && (HoldsDirty(c, l) <==> c.lines[i].dirty)
  {
  }

  lemma {:induction false} HitMeans(c: Cache, r: Request, l: nat)
    requires Good(c) && HoldsLine(c, r.addr / c.linesz)
    ensures var (d, out) := Accessed(c, r); var n := r.addr / c.linesz;
            && out == [] && (HoldsLine(d, l) <==> HoldsLine(c, l))
            && (HoldsDirty(d, l) <==> HoldsDirty(c, l) || (l == n && r.store))
  {
    var (d, out) := Accessed(c, r);
    var n := r.addr / c.linesz;
    LookupFinds(c, n);
    AccessGood(c, r);
    var i := Lookup(c, n).value;
    if l == n {
      OnlyEntry(d, i, l);
    } else if r.store {
      OthersStay(c, d, i, d.lines[i], l);
    }
  }

  /** The line was written to its own address before anything else was asked for. */
  predicate WroteBack(out: seq<Request>, linesz: nat, l: nat) {
    |out| == 2 && out[0] == Request(l * linesz, linesz, true)
  }

  lemma {:induction false} MissParts(c: Cache, r: Request, n: nat) returns (i: nat)
    requires Good(c) && n == r.addr / c.linesz && !HoldsLine(c, n)
    ensures i < |c.lines| && Accessed(c, r).0.lines == c.lines[i := Line(true, r.store, n)]
    ensures Accessed(c, r).1 == Requests(c, i, n) && !Matches(c.lines[i], n)
  {
    LookupFinds(c, n);
    i := Victim(c, n);
  }

  lemma {:induction false} VictimWritten(c: Cache, i: nat, n: nat, l: nat)
    requires c.Shaped() && i < |c.lines|
    ensures WroteBack(Requests(c, i, n), c.linesz, l) <==> Matches(c.lines[i], l) && c.lines[i].dirty
    ensures var out := Requests(c, i, n);
            1 <= |out| <= 2 && out[|out| - 1] == Request(n * c.linesz, c.linesz, false)
  {
    SameAddress(c.lines[i].number, l, c.linesz);
  }

  /** Another line at a miss: it stays as it is, or is the one that is replaced. */
  lemma {:induction false} OtherAtMiss(c: Cache, d: Cache, i: nat, n: nat, store: bool, l: nat)
    requires Good(c) && i < |c.lines| && d.lines == c.lines[i := Line(true, store, n)] && l != n
    ensures HoldsLine(d, l) ==> HoldsLine(c, l)
    ensures HoldsDirty(d, l) <==> HoldsDirty(c, l) && !Matches(c.lines[i], l)
    ensures Matches(c.lines[i], l) ==> (HoldsDirty(c, l) <==> c.lines[i].dirty)
  {
    if Matches(c.lines[i], l) {
      OnlyEntry(c, i, l);
      GoneLine(c, d, i, l);
    } else {
      OthersStay(c, d, i, d.lines[i], l);
    }
  }

  lemma {:induction false} MissMeans(c: Cache, r: Request, l: nat)
    requires Good(c) && !HoldsLine(c, r.addr / c.linesz)
    ensures var (d, out) := Accessed(c, r); var n := r.addr / c.linesz;
            && 1 <= |out| <= 2 && out[|out| - 1] == Request(n * c.linesz, c.linesz, false)
            && HoldsLine(d, n) && (HoldsDirty(d, n) <==> r.store) && !HoldsDirty(c, n)
            && (l != n && HoldsLine(d, l) ==> HoldsLine(c, l))
            && (WroteBack(out, c.linesz, l) <==> l != n && HoldsDirty(c, l) && !HoldsDirty(d, l))
            && (l != n && HoldsDirty(d, l) ==> HoldsDirty(c, l))
  {
    var n := r.addr / c.linesz;
    var i := MissParts(c, r, n);
    var d := Accessed(c, r).0;
    AccessGood(c, r);
    OnlyEntry(d, i, n);
    VictimWritten(c, i, n, l);
    if l != n {
      OtherAtMiss(c, d, i, n, r.store, l);
    }
  }

  lemma {:induction false} GoneLine(c: Cache, d: Cache, i: nat, l: nat)
    requires Good(c) && i < |c.lines| && Matches(c.lines[i], l) && |d.lines| == |c.lines|
    requires !Matches(d.lines[i], l) && forall k :: 0 <= k < |c.lines| && k != i ==> d.lines[k] == c.lines[k]
    ensures !HoldsLine(d, l) && !HoldsDirty(d, l)
  {
  }

  /** Different lines have different addresses. */
  lemma {:induction false} SameAddress(a: nat, b: nat, linesz: nat)
    requires linesz > 0
    ensures a * linesz == b * linesz <==> a == b
  {
    LineOf(a, linesz);
    LineOf(b, linesz);
  }

  /**
    What an access means, line by line: afterwards its line is there, dirty if it was or the access
    stores. Nothing is asked of the next level if it was there. Else the line is read from its address
    last, and before that at most one line is written to its own address. Another line that was dirty
    still is, unless it is the one that was written back; no other line comes or becomes dirty.
    */
  lemma {:induction false} AccessMeans(c: Cache, r: Request, l: nat)
    requires Good(c)
    ensures var (d, out) := Accessed(c, r); var n := r.addr / c.linesz;
            && HoldsLine(d, n) && (HoldsDirty(d, n) <==> HoldsDirty(c, n) || r.store)
            && (out == [] <==> HoldsLine(c, n)) && |out| <= 2
            && (out != [] ==> out[|out| - 1] == Request(n * c.linesz, c.linesz, false))
            && (l != n && HoldsLine(d, l) ==> HoldsLine(c, l))
            && (l != n && HoldsDirty(d, l) ==> HoldsDirty(c, l))
            && (WroteBack(out, c.linesz, l) <==> l != n && HoldsDirty(c, l) && !HoldsDirty(d, l))
  {
    var n := r.addr / c.linesz;
    if HoldsLine(c, n) {
      HitMeans(c, r, l);
      HitMeans(c, r, n);
    } else {
      MissMeans(c, r, l);
      MissMeans(c, r, n);
    }
  }

  /** What cleaning and invalidating a line means: it is clean then, or gone; other lines stay as they are. */
  lemma {:induction false} FlushMeans(c: Cache, n: nat, clean: bool, inval: bool, l: nat)
    requires Good(c)
    ensures var d := Flush(c, n, clean, inval);
            && (HoldsLine(d, l) <==> HoldsLine(c, l) && !(l == n && inval))
            && (HoldsDirty(d, l) <==> HoldsDirty(c, l) && !(l == n && (inval || clean)))
            && d.stats.writebacks == c.stats.writebacks + (if clean && HoldsDirty(c, n) then 1 else 0)
  {
    var d := Flush(c, n, clean, inval);
    LookupFinds(c, n);
    FlushGood(c, n, clean, inval);
    match Lookup(c, n)
    case None =>
    case Some(i) =>
      OnlyEntry(c, i, n);
      if l != n {
        OthersStay(c, d, i, d.lines[i], l);
      } else if inval {
        GoneLine(c, d, i, n);
      } else {
        OnlyEntry(d, i, n);
      }
  }

  /** The same for a range of lines. */
  lemma {:induction false} FlushAllMeans(c: Cache, number: nat, n: nat, clean: bool, inval: bool, l: nat)
    requires Good(c)
    ensures var d := FlushAll(c, number, n, clean, inval); var inside := number <= l < number + n;
            && (HoldsLine(d, l) <==> HoldsLine(c, l) && !(inside && inval))
            && (HoldsDirty(d, l) <==> HoldsDirty(c, l) && !(inside && (inval || clean)))
    decreases n
  {
    if n > 0 {
      FlushMeans(c, number, clean, inval, l);
      FlushGood(c, number, clean, inval);
      FlushAllMeans(Flush(c, number, clean, inval), number + 1, n - 1, clean, inval, l);
    }
  }

  /** What is written at a miss is counted as such. */
  lemma {:induction false} AccessCounted(c: Cache, r: Request)
    requires Good(c)
    ensures var d := Accessed(c, r).0; var miss := if HoldsLine(c, r.addr / c.linesz) then 0 else 1;
            && d.stats.writeMisses == c.stats.writeMisses + (if r.store then miss else 0)
            && d.stats.readMisses == c.stats.readMisses + (if r.store then 0 else miss)
            && d.stats.bytesWritten == c.stats.bytesWritten + (if r.store then r.bytes else 0)
            && d.stats.bytesRead == c.stats.bytesRead + (if r.store then 0 else r.bytes)
  {
    LookupFinds(c, r.addr / c.linesz);
  }

  /** Lines lie in the set that the lowest bits of their number name. */
  lemma {:induction false} SetOfLine(c: Cache, i: nat)
    requires Good(c) && i < |c.lines| && c.lines[i].valid
    ensures i / c.ways == c.lines[i].number % c.sets
  {
    var k := c.lines[i].number % c.sets;
    QuotientIs(i, c.ways, k, i - c.Base(c.lines[i].number));
  }

  // ---------------------------------------------------------------------------------------
  // Chains of caches
  // ---------------------------------------------------------------------------------------

  /** Sends a request to the first cache, which passes its own requests on down the chain. */
  function Send(cs: seq<Cache>, r: Request): (ds: seq<Cache>)
    requires forall i :: 0 <= i < |cs| ==> cs[i].Shaped()
    ensures |ds| == |cs| && forall i :: 0 <= i < |ds| ==> ds[i].Shaped()
    decreases |cs|, 0
  {
    if cs == [] then []
    else
      var (c, out) := Accessed(cs[0], r);
      [c] + SendAll(cs[1..], out)
  }

  function SendAll(cs: seq<Cache>, rs: seq<Request>): (ds: seq<Cache>)
    requires forall i :: 0 <= i < |cs| ==> cs[i].Shaped()
    ensures |ds| == |cs| && forall i :: 0 <= i < |ds| ==> ds[i].Shaped()
    decreases |cs|, |rs| + 1
  {
    if rs == [] then cs else SendAll(Send(cs, rs[0]), rs[1..])
  }

  /** How many of the requests are stores, and how many are not. */
  function Stores(rs: seq<Request>): nat {
    if rs == [] then 0 else (if rs[0].store then 1 else 0) + Stores(rs[1..])
  }

  function Loads(rs: seq<Request>): nat {
    if rs == [] then 0 else (if rs[0].store then 0 else 1) + Loads(rs[1..])
  }

  /** Reads below are misses above, writes below are write-backs above. */
  predicate Linked(u: Cache, l: Cache) {
    && l.stats.readCount == u.stats.readMisses + u.stats.writeMisses
    && l.stats.writeCount == u.stats.writebacks
  }

  ghost predicate AllLinked(cs: seq<Cache>) {
    forall i :: 0 <= i && i + 1 < |cs| ==> Linked(cs[i], cs[i + 1])
  }

  ghost predicate AllGood(cs: seq<Cache>) {
    forall i :: 0 <= i < |cs| ==> Good(cs[i])
  }

  /** An access asks for one line per miss and writes one line per write-back. */
  lemma {:induction false} AccessCounts(c: Cache, r: Request)
    requires c.Shaped()
    ensures var (d, out) := Accessed(c, r);
            && Loads(out) + c.stats.readMisses + c.stats.writeMisses == d.stats.readMisses + d.stats.writeMisses
            && Stores(out) + c.stats.writebacks == d.stats.writebacks
            && d.stats.readCount == c.stats.readCount + (if r.store then 0 else 1)
            && d.stats.writeCount == c.stats.writeCount + (if r.store then 1 else 0)
  {
    var number := r.addr / c.linesz;
    if Lookup(c, number).None? {
      var i := Victim(c, number);
      RequestCounts(c, i, number);
    }
  }

  lemma {:induction false} RequestCounts(c: Cache, i: nat, number: nat)
    requires i < |c.lines|
    ensures Loads(Requests(c, i, number)) == 1 && Stores(Requests(c, i, number)) == if IsDirty(c.lines[i]) then 1 else 0
  {
    var out, last := Requests(c, i, number), Request(number * c.linesz, c.linesz, false);
    assert Loads([last]) == 1 + Loads([]) && Stores([last]) == Stores([]) by {
      assert [last][1..] == [];
    }
    if IsDirty(c.lines[i]) {
      assert out[0].store && out[1..] == [last];
    } else {
      assert out == [last];
    }
  }

  /** The first cache of a chain counts exactly the requests that are sent to it. */
  lemma {:induction false} SendAllCounts(cs: seq<Cache>, rs: seq<Request>)
    requires cs != [] && forall i :: 0 <= i < |cs| ==> cs[i].Shaped()
    ensures SendAll(cs, rs)[0].stats.readCount == cs[0].stats.readCount + Loads(rs)
    ensures SendAll(cs, rs)[0].stats.writeCount == cs[0].stats.writeCount + Stores(rs)
    decreases |rs|
  {
    if rs != [] {
      AccessCounts(cs[0], rs[0]);
      SendAllCounts(Send(cs, rs[0]), rs[1..]);
    }
  }

  /** A request keeps every cache of a chain good, and the levels linked. */
  lemma {:induction false} SendKeeps(cs: seq<Cache>, r: Request)
    requires AllGood(cs) && AllLinked(cs)
    ensures AllGood(Send(cs, r)) && AllLinked(Send(cs, r))
    decreases |cs|, 0
  {
    if cs != [] {
      var (c, out) := Accessed(cs[0], r);
      var below := SendAll(cs[1..], out);
      AccessGood(cs[0], r);
      LinkedTail(cs);
      SendAllKeeps(cs[1..], out);
      if |cs| > 1 {
        AccessCounts(cs[0], r);
        SendAllCounts(cs[1..], out);
        assert Linked(cs[0], cs[0 + 1]);
        assert Linked(c, below[0]);
      }
      LinkedFront(c, below);
    }
  }

  lemma {:induction false} LinkedTail(cs: seq<Cache>)
    requires AllLinked(cs) && cs != []
    ensures AllLinked(cs[1..])
  {
    var ds := cs[1..];
    forall i | 0 <= i && i + 1 < |ds|
      ensures Linked(ds[i], ds[i + 1])
    {
      assert ds[i] == cs[i + 1] && ds[i + 1] == cs[i + 1 + 1];
    }
  }

  lemma {:induction false} LinkedFront(c: Cache, cs: seq<Cache>)
    requires AllLinked(cs) && (cs != [] ==> Linked(c, cs[0]))
    ensures AllLinked([c] + cs)
  {
    var ds := [c] + cs;
    forall i | 0 <= i && i + 1 < |ds|
      ensures Linked(ds[i], ds[i + 1])
    {
      if i > 0 {
        assert ds[i] == cs[i - 1] && ds[i + 1] == cs[i - 1 + 1];
      }
    }
  }

  lemma {:induction false} SendAllKeeps(cs: seq<Cache>, rs: seq<Request>)
    requires AllGood(cs) && AllLinked(cs)
    ensures AllGood(SendAll(cs, rs)) && AllLinked(SendAll(cs, rs))
    decreases |cs|, |rs| + 1
  {
    if rs != [] {
      SendKeeps(cs, rs[0]);
      SendAllKeeps(Send(cs, rs[0]), rs[1..]);
    }
  }

  /** A whole run of accesses through a chain of new caches. */
  function Chain(shapes: seq<(nat, nat, nat)>, choice: nat -> nat): seq<Cache> {
    seq(|shapes|, i requires 0 <= i < |shapes| => NewCache(shapes[i].0, shapes[i].1, shapes[i].2, choice))
  }

  /**
    In every run of accesses through a chain of caches of any shapes, no cache holds a line twice or
    outside its set, every dirtied line is accounted for exactly once, each level reads as often as
    the level above misses, and is written as often as the level above writes back.
    */
  lemma {:induction false} RunKeeps(shapes: seq<(nat, nat, nat)>, choice: nat -> nat, rs: seq<Request>)
    requires forall i :: 0 <= i < |shapes| ==> shapes[i].0 > 0 && shapes[i].1 > 0 && shapes[i].2 > 0
    ensures AllGood(Chain(shapes, choice))
    ensures AllGood(SendAll(Chain(shapes, choice), rs)) && AllLinked(SendAll(Chain(shapes, choice), rs))
  {
    var cs := Chain(shapes, choice);
    forall i | 0 <= i < |cs|
      ensures Good(cs[i])
    {
      NewGood(shapes[i].0, shapes[i].1, shapes[i].2, choice);
    }
    SendAllKeeps(cs, rs);
  }

  datatype Event = Touch(r: Request) | CleanInvalidated(addr: nat, bytes: nat, clean: bool, inval: bool)

  /** A cache after one event; a clean and invalidate operation reaches every level of a chain. */
  function Flushed(c: Cache, addr: nat, bytes: nat, clean: bool, inval: bool): (d: Cache)
    requires c.Shaped()
    ensures d.Shaped()
  {
    FlushAll(c, addr / c.linesz, LineCount(addr, bytes, c.linesz), clean, inval)
  }

  function Happen(cs: seq<Cache>, e: Event): (ds: seq<Cache>)
    requires forall i :: 0 <= i < |cs| ==> cs[i].Shaped()
    ensures |ds| == |cs| && forall i :: 0 <= i < |ds| ==> ds[i].Shaped()
  {
    match e
    case Touch(r) => Send(cs, r)
    case CleanInvalidated(addr, bytes, clean, inval) =>
      seq(|cs|, i requires 0 <= i < |cs| => Flushed(cs[i], addr, bytes, clean, inval))
  }

  lemma {:induction false} SendGood(cs: seq<Cache>, r: Request)
    requires AllGood(cs)
    ensures AllGood(Send(cs, r))
    decreases |cs|, 0
  {
    if cs != [] {
      var (c, out) := Accessed(cs[0], r);
      AccessGood(cs[0], r);
      SendAllGood(cs[1..], out);
    }
  }

  lemma {:induction false} SendAllGood(cs: seq<Cache>, rs: seq<Request>)
    requires AllGood(cs)
    ensures AllGood(SendAll(cs, rs))
    decreases |cs|, |rs| + 1
  {
    if rs != [] {
      SendGood(cs, rs[0]);
      SendAllGood(Send(cs, rs[0]), rs[1..]);
    }
  }

  /**
    With cleaning and invalidating mixed in, placement, uniqueness and the balance of dirty lines
    still hold everywhere.
    */
  lemma {:induction false} HappenGood(cs: seq<Cache>, e: Event)
    requires AllGood(cs)
    ensures AllGood(Happen(cs, e))
  {
    match e
    case Touch(r) => SendGood(cs, r);
    case CleanInvalidated(addr, bytes, clean, inval) =>
      forall i | 0 <= i < |cs|
        ensures Good(Happen(cs, e)[i])
      {
        FlushAllGood(cs[i], addr / cs[i].linesz, LineCount(addr, bytes, cs[i].linesz), clean, inval);
      }
  }

  /** A chain of caches after a run of events. */
  function History(cs: seq<Cache>, es: seq<Event>): (ds: seq<Cache>)
    requires forall i :: 0 <= i < |cs| ==> cs[i].Shaped()
    decreases |es|
  {
    if es == [] then cs else History(Happen(cs, es[0]), es[1..])
  }

  lemma {:induction false} HistoryGood(cs: seq<Cache>, es: seq<Event>)
    requires AllGood(cs)
    ensures AllGood(History(cs, es))
    decreases |es|
  {
    if es != [] {
      HappenGood(cs, es[0]);
      HistoryGood(Happen(cs, es[0]), es[1..]);
    }
  }

  /**
    In every run of accesses, cleanings and invalidations through a chain of caches of any shapes, no
    cache holds a line twice or outside its set, and every dirtied line was written back, is still
    dirty, or was invalidated uncleaned, each exactly once.
    */
  lemma {:induction false} RunGood(shapes: seq<(nat, nat, nat)>, choice: nat -> nat, es: seq<Event>)
    requires forall i :: 0 <= i < |shapes| ==> shapes[i].0 > 0 && shapes[i].1 > 0 && shapes[i].2 > 0
    ensures AllGood(Chain(shapes, choice)) && AllGood(History(Chain(shapes, choice), es))
  {
    RunKeeps(shapes, choice, []);
    HistoryGood(Chain(shapes, choice), es);
  }

  // ---------------------------------------------------------------------------------------
  // The cache as an object
  // ---------------------------------------------------------------------------------------

  class Simulator {
    const sets: nat
    const ways: nat
    const linesz: nat
    const choice: nat -> nat
    const lines: array<Line>
    var stats: Stats
    var draws: nat

    ghost function Value(): Cache
      reads this, lines
    {
      Cache(sets, ways, linesz, lines[..], stats, choice, draws)
    }

    constructor (sets: nat, ways: nat, linesz: nat, choice: nat -> nat)
      requires sets > 0 && ways > 0 && linesz > 0
      ensures fresh(lines) && Good(Value()) && Value() == NewCache(sets, ways, linesz, choice)
    {
      this.sets, this.ways, this.linesz, this.choice := sets, ways, linesz, choice;
      lines := new Line[sets * ways](_ => Line(false, false, 0));
      stats, draws := Stats(0, 0, 0, 0, 0, 0, 0, 0, 0), 0;
      new;
      NewGood(sets, ways, linesz, choice);
      assert Value().lines == NewCache(sets, ways, linesz, choice).lines;
    }

    /** The entry that holds the line of an address. */
    method CheckTag(addr: nat) returns (r: Option<nat>)
      requires Value().Shaped()
      ensures r == Lookup(Value(), addr / linesz)
    {
      var number := addr / linesz;
      ghost var c := Value();
      var base := number % sets * ways;
      assert base == c.Base(number);
      var i := 0;
      while i < ways
        invariant 0 <= i <= ways
        invariant Find(c.lines, number, base, base + ways) == Find(c.lines, number, base + i, base + ways)
      {
        var l := lines[base + i];
        if l.valid && l.number == number {
          return Some(base + i);
        }
        i := i + 1;
      }
      return None;
    }

    /** Replaces an entry of the line's set and returns what was there. */
    method Victimize(addr: nat) returns (victim: Line, ghost i: nat)
      requires Value().Shaped()
      modifies this`draws, lines
      ensures i == Victim(old(Value()), addr / linesz) && victim == old(Value()).lines[i]
      ensures Value() == old(Value()).(lines := old(Value()).lines[i := Line(true, false, addr / linesz)],
              draws := old(draws) + 1)
    {
      var number := addr / linesz;
      ghost var c := Value();
      i := Victim(c, number);
      var k := number % sets * ways + choice(draws) % ways;
      draws := draws + 1;
      victim := lines[k];
      lines[k] := Line(true, false, number);
    }

    method MarkDirty(i: nat)
      requires i < lines.Length
      modifies this`stats, lines
      ensures Value() == Dirty(old(Value()), i)
    {
      if !lines[i].dirty {
        stats := stats.(dirtied := stats.dirtied + 1);
      }
      lines[i] := lines[i].(dirty := true);
    }

    /** An access; `out` are the requests to the next level, in order. */
    method Access(addr: nat, bytes: nat, store: bool) returns (out: seq<Request>)
      requires Good(Value())
      modifies this, lines
      ensures Good(Value()) && (Value(), out) == Accessed(old(Value()), Request(addr, bytes, store))
    {
      var r := Request(addr, bytes, store);
      ghost var c := Value();
      AccessGood(c, r);
      stats := Counted(stats, r);
      StatsGood(c, stats, draws);
      var hit := CheckTag(addr);
      if hit.Some? {
        if store {
          MarkDirty(hit.value);
        }
        return [];
      }
      out := Miss(addr, store, c, r);
    }

    /** Lets the line take the place of another, which is written back if it is dirty. */
    method Replace(addr: nat, ghost number: nat) returns (out: seq<Request>, ghost i: nat)
      requires Value().Shaped() && number == addr / linesz
      modifies this`draws, this`stats, lines
      ensures i == Victim(old(Value()), number) && out == Requests(old(Value()), i, number)
      ensures Value() == Refill(old(Value()).(draws := old(draws) + 1), i, number)
    {
      var victim;
      victim, i := Victimize(addr);
      out := [];
      if victim.valid && victim.dirty {
        out := [Request(victim.number * linesz, linesz, true)];
        stats := stats.(writebacks := stats.writebacks + 1);
      }
      out := out + [Request(addr / linesz * linesz, linesz, false)];
    }

    /** Marks the line that was just brought in. */
    method TouchAgain(addr: nat, ghost c: Cache, ghost i: nat, ghost number: nat)
      requires Good(c) && c.linesz == linesz && number == addr / linesz && Lookup(c, number).None?
      requires c.Base(number) <= i < c.Base(number) + c.ways && Value() == Refill(c, i, number)
      modifies lines, this`stats
      ensures Value() == Dirty(old(Value()), i)
    {
      FoundAgain(c, i, number);
      var again := CheckTag(addr);
      MarkDirty(again.value);
    }

    /** The rest of an access that missed. */
    method Miss(addr: nat, store: bool, ghost c: Cache, ghost r: Request) returns (out: seq<Request>)
      requires Good(c) && Value() == c.(stats := Counted(c.stats, r)) && r.addr == addr && r.store == store
               && Lookup(c, addr / linesz).None?
      modifies this, lines
      ensures (Value(), out) == Accessed(c, r)
    {
      ghost var number := addr / linesz;
      stats := Missed(stats, Request(addr, 0, store));
      ghost var e := Value();
      StatsGood(c, e.stats, c.draws + 1);
      ghost var i;
      out, i := Fetch(addr, store, number, e.(draws := c.draws + 1));
      MissIs(c, r, number, i, e);
    }

    /** Brings a line in and marks it if it is for a store. */
    method Fetch(addr: nat, store: bool, ghost number: nat, ghost d: Cache) returns (out: seq<Request>, ghost i: nat)
      requires Value().Shaped() && number == addr / linesz
      requires d == Value().(draws := draws + 1) && Good(d) && Lookup(d, number).None?
      modifies this`draws, this`stats, lines
      ensures i == Victim(old(Value()), number) && out == Requests(old(Value()), i, number)
      ensures Value() == var f := Refill(d, i, number); if store then Dirty(f, i) else f
    {
      ghost var c := Value();
      out, i := Replace(addr, number);
      if store {
        assert d.Base(number) == c.Base(number);
        TouchAgain(addr, d, i, number);
      }
    }

    /** Cleans and invalidates the lines of an address range. */
    method CleanInvalidate(addr: nat, bytes: nat, clean: bool, inval: bool)
      requires Good(Value())
      modifies this, lines
      ensures Good(Value())
      ensures Value() == FlushAll(old(Value()), addr / linesz, LineCount(addr, bytes, linesz), clean, inval)
    {
      FlushAllGood(Value(), addr / linesz, LineCount(addr, bytes, linesz), clean, inval);
      var first, end := addr / linesz, EndLine(addr, bytes, linesz);
      var last := if first < end then end else first;
      assert last - first == LineCount(addr, bytes, linesz);
      FlushLines(first, last, clean, inval);
    }

    /** Cleans and invalidates a range of lines one by one. */
    method FlushLines(first: nat, last: nat, clean: bool, inval: bool)
      requires Value().Shaped() && first <= last
      modifies this, lines
      ensures Value() == FlushAll(old(Value()), first, last - first, clean, inval)
    {
      var number := first;
      ghost var n: nat := last - first;
      ghost var c := Value();
      ghost var goal := FlushAll(c, first, n, clean, inval);
      while number < last
        invariant number + n == last && c == Value() && Left(goal, c, number, n, clean, inval)
        decreases n
      {
        number, c, n := FlushLine(number, clean, inval, goal, n);
      }
      LeftNothing(goal, c, number, clean, inval);
    }

    /** The same for the first of the n lines that are left. */
    method FlushLine(number: nat, clean: bool, inval: bool, ghost goal: Cache, ghost n: nat)
      returns (next: nat, ghost d: Cache, ghost m: nat)
      requires n > 0 && Left(goal, Value(), number, n, clean, inval)
      modifies this, lines
      ensures next == number + 1 && m == n - 1 && d == Value() && Left(goal, d, next, m, clean, inval)
    {
      ghost var c := Value();
      var address := LineAddress(number);
      FlushOne(address, clean, inval, number);
      d, next, m := Value(), number + 1, n - 1;
      LeftStep(goal, c, number, n, clean, inval, d);
    }

    method LineAddress(number: nat) returns (a: nat)
      requires linesz > 0
      ensures a / linesz == number
    {
      LineOf(number, linesz);
      a := number * linesz;
    }

    method FlushOne(addr: nat, clean: bool, inval: bool, ghost number: nat)
      requires Value().Shaped() && number == addr / linesz
      modifies this, lines
      ensures Value() == Flush(old(Value()), number, clean, inval)
    {
      var hit := CheckTag(addr);
      if hit.Some? {
        var i := hit.value;
        if lines[i].dirty {
          if clean {
            stats := stats.(writebacks := stats.writebacks + 1);
            lines[i] := lines[i].(dirty := false);
          } else if inval {
            stats := stats.(dropped := stats.dropped + 1);
          }
        }
        if inval {
          lines[i] := lines[i].(valid := false);
        }
      }
    }
  }

  const ADDRESSES: nat := 0x1_0000_0000_0000_0000

  /** The line at which flushing an address range stops, in 64-bit arithmetic. */
  function EndLine(addr: nat, bytes: nat, linesz: nat): nat
    requires linesz > 0
  {
    (addr + bytes + linesz - 1) % ADDRESSES / linesz
  }

  function FirstLine(addr: nat, linesz: nat): nat
    requires linesz > 0
  {
    addr / linesz
  }

  /** How many lines are flushed. */
  function LineCount(addr: nat, bytes: nat, linesz: nat): nat
    requires linesz > 0
  {
    var first, end := FirstLine(addr, linesz), EndLine(addr, bytes, linesz);
    if first < end then end - first else 0
  }

  /** The line of the address is one of those that are flushed. */
  predicate Covered(a: nat, addr: nat, bytes: nat, linesz: nat)
    requires linesz > 0
  {
    addr / linesz <= a / linesz < addr / linesz + LineCount(addr, bytes, linesz)
  }

  lemma {:induction false} LinesInOrder(a: nat, b: nat, linesz: nat)
    requires linesz > 0 && a <= b
    ensures a / linesz <= b / linesz
  {
    assert a == a / linesz * linesz + a % linesz && b == b / linesz * linesz + b % linesz;
    AtLeast(a / linesz - b / linesz, linesz);
    assert (a / linesz - b / linesz) * linesz == a / linesz * linesz - b / linesz * linesz;
  }

  lemma {:induction false} QuotientIs(b: nat, n: nat, x: nat, r: nat)
    requires n > 0 && b == x * n + r && r < n
    ensures b / n == x
  {
    var q := b / n;
    var d: int := q - x;
    assert b == q * n + b % n;
    assert d * n == r - b % n;
    AtLeast(d, n);
    AtLeast(-d, n);
  }

  /** One line further on. */
  lemma {:induction false} NextLine(a: nat, linesz: nat)
    requires linesz > 0
    ensures (a + linesz) / linesz == a / linesz + 1
  {
    var q, r := a / linesz, a % linesz;
    assert a == q * linesz + r;
    assert (q + 1) * linesz == q * linesz + linesz;
    QuotientIs(a + linesz, linesz, q + 1, r);
  }

  lemma {:induction false} CoveredInside(a: nat, addr: nat, bytes: nat, linesz: nat)
    requires linesz > 0 && addr + bytes + linesz - 1 < ADDRESSES && addr <= a < addr + bytes
    ensures Covered(a, addr, bytes, linesz)
  {
    var e := addr + bytes + linesz - 1;
    assert EndLine(addr, bytes, linesz) == e / linesz;
    LinesInOrder(addr, a, linesz);
    NextLine(a, linesz);
    LinesInOrder(a + linesz, e, linesz);
  }

  /** All lines of the range are flushed. */
  ghost predicate AllCovered(addr: nat, bytes: nat, linesz: nat)
    requires linesz > 0
  {
    forall a :: addr <= a < addr + bytes ==> Covered(a, addr, bytes, linesz)
  }

  /**
    Exactly the ranges that are empty, or whose end rounded up to a line still is an address, have all
    their lines flushed; of a range that reaches into the last line of the address space none is.
    */
  lemma {:induction false} RangeFlushed(addr: nat, bytes: nat, linesz: nat)
    requires linesz > 0 && addr + bytes <= ADDRESSES
    ensures AllCovered(addr, bytes, linesz) <==> bytes == 0 || addr + bytes + linesz - 1 < ADDRESSES
    ensures addr + bytes + linesz - 1 >= ADDRESSES ==> LineCount(addr, bytes, linesz) == 0
  {
    if addr + bytes + linesz - 1 < ADDRESSES {
      forall a | addr <= a < addr + bytes
        ensures Covered(a, addr, bytes, linesz)
      {
        CoveredInside(a, addr, bytes, linesz);
      }
    } else {
      NoneFlushed(addr, bytes, linesz);
    }
  }

  lemma {:induction false} NoneFlushed(addr: nat, bytes: nat, linesz: nat)
    requires linesz > 0 && addr + bytes <= ADDRESSES <= addr + bytes + linesz - 1
    ensures LineCount(addr, bytes, linesz) == 0 && (bytes > 0 ==> !AllCovered(addr, bytes, linesz))
  {
    NoLines(addr, bytes, linesz);
    assert !Covered(addr, addr, bytes, linesz);
  }

  lemma {:induction false} NoLines(addr: nat, bytes: nat, linesz: nat)
    requires linesz > 0 && addr + bytes <= ADDRESSES <= addr + bytes + linesz - 1
    ensures LineCount(addr, bytes, linesz) == 0
  {
    EndWraps(addr, bytes, linesz);
  }

  lemma {:induction false} EndWraps(addr: nat, bytes: nat, linesz: nat)
    requires linesz > 0 && addr + bytes <= ADDRESSES <= addr + bytes + linesz - 1
    ensures EndLine(addr, bytes, linesz) == 0
  {
    var e := addr + bytes + linesz - 1;
    var r := e % ADDRESSES;
    if linesz <= ADDRESSES {
      assert r == e - ADDRESSES;
    }
    assert r < linesz;
    QuotientIs(r, linesz, 0, r);
  }

  lemma {:induction false} LineOf(number: nat, linesz: nat)
    requires linesz > 0
    ensures number * linesz / linesz == number
  {
    var x := number * linesz;
    var q := x / linesz;
    var d: int := number - q;
    assert x == q * linesz + x % linesz;
    assert d * linesz == x % linesz;
    AtLeast(d, linesz);
    AtLeast(-d, linesz);
    assert (-d) * linesz == -(d * linesz);
  }

  lemma {:induction false} AtLeast(d: int, n: nat)
    ensures d >= 1 ==> d * n >= n
  {
  }

  /** The line just filled in is the one that the next search finds. */
  lemma {:induction false} FoundAgain(c: Cache, i: nat, number: nat)
    requires Good(c) && Lookup(c, number).None? && c.Base(number) <= i < c.Base(number) + c.ways
    ensures Lookup(Refill(c, i, number), number) == Some(i)
  {
    RefillGood(c, i, number);
    var d := Refill(c, i, number);
    var k := Lookup(d, number);
    assert Matches(d.lines[i], number);
  }
}
