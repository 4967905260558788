/**
  Byte access on top of a memory that only takes aligned chunks, and a memory whose pages come into
  being when they are touched.
  */
module MemIf {

  newtype Byte = x: int | 0 <= x < 256
  type Bytes = seq<Byte>

  /** m with data written at address a. */
  function Patched(m: Bytes, a: nat, data: Bytes): (r: Bytes)
    requires a + |data| <= |m|
    ensures |r| == |m|
  {
    seq(|m|, i requires 0 <= i < |m| => if a <= i < a + |data| then data[i - a] else m[i])
  }

  function Zeros(n: nat): (r: Bytes)
    ensures |r| == n
  {
    seq(n, _ => 0 as Byte)
  }

  /** Writing two adjoining pieces is writing both. */
  lemma {:induction false} PatchedTwice(m: Bytes, a: nat, x: Bytes, y: Bytes)
    requires a + |x| + |y| <= |m|
    ensures Patched(Patched(m, a, x), a + |x|, y) == Patched(m, a, x + y)
    ensures Patched(Patched(m, a + |x|, y), a, x) == Patched(m, a, x + y)
  {
  }

  lemma {:induction false} PatchedNothing(m: Bytes, a: nat)
    requires a <= |m|
    ensures Patched(m, a, []) == m
  {
  }

  // ---------------------------------------------------------------------------------------
  // Chunks
  // ---------------------------------------------------------------------------------------

  /** A memory that takes whole aligned chunks of at most a maximal size; clearing may go over more. */
  class ChunkStore {
    const align: nat
    const maxSize: nat
    var mem: Bytes

    ghost predicate Valid()
      reads this
    {
      align > 0 && maxSize > 0 && maxSize % align == 0 && |mem| % align == 0
    }

    /** A request that the store accepts. */
    ghost predicate Whole(a: nat, len: nat)
      reads this
    {
      align > 0 && a % align == 0 && len % align == 0 && len > 0 && a + len <= |mem|
    }

    method ReadChunk(a: nat, len: nat) returns (data: Bytes)
      requires Valid() && Whole(a, len) && len <= maxSize
      ensures data == mem[a..a + len]
    {
      data := mem[a..a + len];
    }

    method WriteChunk(a: nat, data: Bytes)
      requires Valid() && Whole(a, |data|) && |data| <= maxSize
      modifies this
      ensures Valid() && mem == Patched(old(mem), a, data)
    {
      mem := Patched(mem, a, data);
    }

    method ClearChunk(a: nat, len: nat)
      requires Valid() && Whole(a, len)
      modifies this
      ensures Valid() && mem == Patched(old(mem), a, Zeros(len))
    {
      mem := Patched(mem, a, Zeros(len));
    }
  }

  // ---------------------------------------------------------------------------------------
  // Multiples
  // ---------------------------------------------------------------------------------------

  lemma {:induction false} AtLeast(d: int, n: nat)
    ensures d >= 1 ==> d * n >= n
  {
  }

  lemma {:induction false} DivUnique(x: int, q: int, r: int, n: nat)
    requires n > 0 && x == q * n + r && 0 <= r < n
    ensures x / n == q && x % n == r
  {
    var d := x / n - q;
    assert x == x / n * n + x % n;
    assert d * n == r - x % n;
    AtLeast(d, n);
    AtLeast(-d, n);
    assert (-d) * n == -(d * n);
  }

  lemma {:induction false} AddMod(a: nat, b: nat, n: nat)
    requires n > 0 && a % n == 0 && b % n == 0
    ensures (a + b) % n == 0
  {
    var q, p := a / n, b / n;
    assert a == q * n && b == p * n;
    assert a + b == (q + p) * n + 0;
    DivUnique(a + b, q + p, 0, n);
  }

  /** Rounding down gives a multiple. */
  lemma {:induction false} Floor(a: nat, n: nat)
    requires n > 0
    ensures a % n <= a && (a - a % n) % n == 0
  {
    var q := a / n;
    assert a == q * n + a % n;
    assert q * n >= 0;
    DivUnique(a - a % n, q, 0, n);
  }

  /** From one multiple to a larger one it is at least n. */
  lemma {:induction false} Apart(a: nat, b: nat, n: nat)
    requires n > 0 && a % n == 0 && b % n == 0 && a < b
    ensures a + n <= b
  {
    var q, p := a / n, b / n;
    assert a == q * n && b == p * n;
    assert (p - q) * n == b - a;
    AtLeast(p - q, n);
    AtLeast(1 - (p - q), n);
    assert (1 - (p - q)) * n == n - (p - q) * n;
  }

  // ---------------------------------------------------------------------------------------
  // Reading and writing bytes
  // ---------------------------------------------------------------------------------------

  /** The chunk around an address. */
  lemma {:induction false} ChunkAround(store: ChunkStore, a: nat)
    requires store.Valid() && a < |store.mem|
    ensures a % store.align <= a && store.Whole(a - a % store.align, store.align) && store.align <= store.maxSize
  {
    var n := store.align;
    Floor(a, n);
    Apart(a - a % n, |store.mem|, n);
    Apart(0, store.maxSize, n);
  }

  /** The length that is left, rounded down, reaches an aligned chunk inside the memory. */
  lemma {:induction false} TailChunk(store: ChunkStore, a: nat, len: nat, k: nat)
    requires store.Valid() && (len > 0 ==> a % store.align == 0) && a + len <= |store.mem| && k == len % store.align
    ensures k <= len && store.align <= store.maxSize && (len - k) % store.align == 0 && k < store.align
    ensures k > 0 ==> store.Whole(a + (len - k), store.align)
  {
    var n := store.align;
    Floor(len, n);
    DivUnique(0, 0, 0, n);
    Apart(0, store.maxSize, n);
    if k > 0 {
      AddMod(a, len - k, n);
      Apart(a + (len - k), |store.mem|, n);
    }
  }

  /** The next full-size request of an aligned body. */
  lemma {:induction false} BodyChunk(store: ChunkStore, a: nat, len: nat, pos: nat, n: nat)
    requires store.Valid() && a % store.align == 0 && len % store.align == 0 && pos % store.align == 0 && pos < len
             && a + len <= |store.mem|
    requires n == if store.maxSize <= len - pos then store.maxSize else len - pos
    ensures store.Whole(a + pos, n) && (pos + n) % store.align == 0
  {
    AddMod(a, pos, store.align);
    SubMod(len, pos, store.align);
    AddMod(pos, n, store.align);
  }

  lemma {:induction false} SubMod(a: nat, b: nat, n: nat)
    requires n > 0 && a % n == 0 && b % n == 0 && b <= a
    ensures (a - b) % n == 0
  {
    var q, p := a / n, b / n;
    assert a == q * n && b == p * n;
    assert a - b == (q - p) * n + 0;
    DivUnique(a - b, q - p, 0, n);
  }

  lemma {:induction false} Joined(m: Bytes, a: nat, b: nat, c: nat)
    requires a <= b <= c <= |m|
    ensures m[a..b] + m[b..c] == m[a..c]
  {
  }

  lemma {:induction false} Inside(m: Bytes, a: nat, b: nat, i: nat, j: nat)
    requires a <= b <= |m| && i <= j <= b - a
    ensures m[a..b][i..j] == m[a + i..a + j]
  {
    var x, y := m[a..b][i..j], m[a + i..a + j];
    assert |x| == |y| && forall k :: 0 <= k < |x| ==> x[k] == y[k];
  }

  /** The part of an access up to the first aligned address: how long it is, and what is left is aligned. */
  lemma {:induction false} HeadPart(a: nat, len: nat, n: nat, k: nat)
    requires n > 0 && len > 0 && a % n != 0 && k == if len <= n - a % n then len else n - a % n
    ensures k <= len && a % n + k <= n && (k < len ==> (a + k) % n == 0)
  {
    if k < len {
      Floor(a, n);
      AddMod(a - a % n, n, n);
      assert n % n == 0;
      assert a - a % n + n == a + k;
    }
  }

  method ReadBody(store: ChunkStore, a: nat, len: nat) returns (bytes: Bytes)
    requires store.Valid() && a + len <= |store.mem| && len % store.align == 0 && (len > 0 ==> a % store.align == 0)
    ensures bytes == store.mem[a..a + len]
  {
    bytes := [];
    var pos := 0;
    while pos < len
      invariant pos <= len && pos % store.align == 0 && bytes == store.mem[a..a + pos]
    {
      var n := if store.maxSize <= len - pos then store.maxSize else len - pos;
      BodyChunk(store, a, len, pos, n);
      var chunk := store.ReadChunk(a + pos, n);
      Joined(store.mem, a, a + pos, a + pos + n);
      bytes := bytes + chunk;
      pos := pos + n;
    }
  }

  /** The bytes up to the first aligned address. */
  method ReadHead(store: ChunkStore, a: nat, len: nat) returns (head: Bytes)
    requires store.Valid() && a + len <= |store.mem|
    ensures |head| <= len && head == store.mem[a..a + |head|] && (|head| < len ==> (a + |head|) % store.align == 0)
  {
    head := [];
    if len > 0 && a % store.align != 0 {
      var off := a % store.align;
      var k := if len <= store.align - off then len else store.align - off;
      ChunkAround(store, a);
      HeadPart(a, len, store.align, k);
      var chunk := store.ReadChunk(a - off, store.align);
      Inside(store.mem, a - off, a - off + store.align, off, off + k);
      head := chunk[off..off + k];
    }
  }

  /** The bytes behind the last aligned address. */
  method ReadTail(store: ChunkStore, a: nat, len: nat) returns (tail: Bytes)
    requires store.Valid() && a + len <= |store.mem| && (len > 0 ==> a % store.align == 0)
    ensures |tail| == len % store.align <= len && (len - |tail|) % store.align == 0
            && tail == store.mem[a + len - |tail|..a + len]
  {
    tail := [];
    var k := len % store.align;
    TailChunk(store, a, len, k);
    if k != 0 {
      var chunk := store.ReadChunk(a + (len - k), store.align);
      tail := chunk[..k];
    }
  }

  /** Reads any range of bytes with aligned whole-chunk requests. */
  method ReadBytes(store: ChunkStore, addr: nat, size: nat) returns (bytes: Bytes)
    requires store.Valid() && addr + size <= |store.mem|
    ensures bytes == store.mem[addr..addr + size]
  {
    var head := ReadHead(store, addr, size);
    var a, len := addr + |head|, size - |head|;
    var tail := ReadTail(store, a, len);
    var n := len - |tail|;
    var body := ReadBody(store, a, n);
    bytes := head + (body + tail);
    Joined(store.mem, a, a + n, a + len);
    Joined(store.mem, addr, a, a + len);
  }

  method WriteBody(store: ChunkStore, a: nat, data: Bytes)
    requires store.Valid() && a + |data| <= |store.mem| && |data| % store.align == 0
             && (|data| > 0 ==> a % store.align == 0)
    modifies store
    ensures store.Valid() && store.mem == Patched(old(store.mem), a, data)
  {
    var pos := 0;
    PatchedNothing(store.mem, a);
    while pos < |data|
      invariant pos <= |data| && pos % store.align == 0 && store.Valid()
                && store.mem == Patched(old(store.mem), a, data[..pos])
    {
      var n := if store.maxSize <= |data| - pos then store.maxSize else |data| - pos;
      BodyChunk(store, a, |data|, pos, n);
      store.WriteChunk(a + pos, data[pos..pos + n]);
      PatchedTwice(old(store.mem), a, data[..pos], data[pos..pos + n]);
      assert data[..pos] + data[pos..pos + n] == data[..pos + n];
      pos := pos + n;
    }
    assert data[..pos] == data;
  }

  method AllZero(data: Bytes) returns (zero: bool)
    ensures zero <==> data != [] && data == Zeros(|data|)
  {
    zero := |data| != 0;
    for i := 0 to |data|
      invariant zero <==> |data| != 0 && forall k :: 0 <= k < i ==> data[k] == 0
    {
      zero := zero && data[i] == 0;
    }
    ghost var zs := Zeros(|data|);
    assert (forall k :: 0 <= k < |data| ==> data[k] == 0) <==> data == zs by {
      assert forall k :: 0 <= k < |data| ==> zs[k] == 0;
    }
  }

  /** The unaligned start of a write: the chunk there is read, changed and written back. */
  method WriteHead(store: ChunkStore, a: nat, data: Bytes) returns (k: nat)
    requires store.Valid() && a + |data| <= |store.mem|
    modifies store
    ensures store.Valid() && k <= |data| && store.mem == Patched(old(store.mem), a, data[..k])
    ensures k < |data| ==> (a + k) % store.align == 0
  {
    k := 0;
    PatchedNothing(store.mem, a);
    if |data| > 0 && a % store.align != 0 {
      var off := a % store.align;
      k := if |data| <= store.align - off then |data| else store.align - off;
      ChunkAround(store, a);
      HeadPart(a, |data|, store.align, k);
      ghost var m := store.mem;
      var chunk := store.ReadChunk(a - off, store.align);
      store.WriteChunk(a - off, Patched(chunk, off, data[..k]));
      ChunkPatched(m, a - off, store.align, off, data[..k]);
    }
  }

  /** Writing back a changed chunk changes just these bytes. */
  lemma {:induction false} ChunkPatched(m: Bytes, a: nat, n: nat, off: nat, data: Bytes)
    requires a + n <= |m| && off + |data| <= n
    ensures Patched(m, a, Patched(m[a..a + n], off, data)) == Patched(m, a + off, data)
  {
    var x, y := Patched(m, a, Patched(m[a..a + n], off, data)), Patched(m, a + off, data);
    forall i | 0 <= i < |m|
      ensures x[i] == y[i]
    {
      if a <= i < a + n {
        assert m[a..a + n][i - a] == m[i];
      }
    }
  }

  method WriteTail(store: ChunkStore, a: nat, data: Bytes) returns (n: nat)
    requires store.Valid() && a + |data| <= |store.mem| && (|data| > 0 ==> a % store.align == 0)
    modifies store
    ensures store.Valid() && n <= |data| && n % store.align == 0
            && store.mem == Patched(old(store.mem), a + n, data[n..])
  {
    var k := |data| % store.align;
    TailChunk(store, a, |data|, k);
    PatchedNothing(store.mem, a + |data|);
    n := |data| - k;
    if k != 0 {
      ghost var m := store.mem;
      var chunk := store.ReadChunk(a + n, store.align);
      store.WriteChunk(a + n, Patched(chunk, 0, data[n..]));
      ChunkPatched(m, a + n, store.align, 0, data[n..]);
    }
  }

  /** Writes any range of bytes with aligned whole-chunk requests; every other byte stays. */
  method WriteBytes(store: ChunkStore, addr: nat, data: Bytes)
    requires store.Valid() && addr + |data| <= |store.mem|
    modifies store
    ensures store.Valid() && store.mem == Patched(old(store.mem), addr, data)
  {
    ghost var m := store.mem;
    var k := WriteHead(store, addr, data);
    var a, rest := addr + k, data[k..];
    ghost var m1 := store.mem;
    var n := WriteTail(store, a, rest);
    ghost var m2 := store.mem;
    var body := rest[..n];
    var zero := AllZero(body);
    if zero {
      store.ClearChunk(a, n);
    } else {
      WriteBody(store, a, body);
    }
    Assembled(m, m1, m2, store.mem, addr, data, k, n);
  }

  /** Head, tail and body together are the whole write. */
  lemma {:induction false} Assembled(m: Bytes, m1: Bytes, m2: Bytes, m3: Bytes, addr: nat, data: Bytes, k: nat, n: nat)
    requires addr + |data| <= |m| && k + n <= |data| && |m1| == |m| && |m2| == |m|
    requires m1 == Patched(m, addr, data[..k]) && m2 == Patched(m1, addr + k + n, data[k..][n..])
             && m3 == Patched(m2, addr + k, data[k..][..n])
    ensures m3 == Patched(m, addr, data)
  {
    var rest := data[k..];
    PatchedTwice(m1, addr + k, rest[..n], rest[n..]);
    assert rest[..n] + rest[n..] == rest;
    PatchedTwice(m, addr, data[..k], rest);
    assert data[..k] + rest == data;
  }

  // ---------------------------------------------------------------------------------------
  // Sparse memory
  // ---------------------------------------------------------------------------------------

  const PGSIZE: nat := 0x1000
  const LIMIT64: nat := 0x1_0000_0000_0000_0000

  type Pages = map<nat, Bytes>

  predicate WholePages(pages: Pages) {
    forall p :: p in pages ==> |pages[p]| == PGSIZE
  }

  /** The byte at an address; what was never touched is zero. */
  function At(pages: Pages, a: nat): Byte
    requires WholePages(pages)
  {
    if a / PGSIZE in pages then pages[a / PGSIZE][a % PGSIZE] else 0
  }

  /** The page of an address, made of zeros if it does not exist yet. */
  function Touched(pages: Pages, p: nat): (r: Pages)
    requires WholePages(pages)
    ensures WholePages(r) && p in r
  {
    if p in pages then pages else pages[p := Zeros(PGSIZE)]
  }

  lemma {:induction false} TouchedReads(pages: Pages, p: nat)
    requires WholePages(pages)
    ensures forall a: nat :: At(Touched(pages, p), a) == At(pages, a)
  {
  }

  /** Writing inside one page. */
  lemma {:induction false} PageWritten(pages: Pages, a: nat, data: Bytes)
    requires WholePages(pages) && a / PGSIZE in pages && a % PGSIZE + |data| <= PGSIZE
    ensures var p := a / PGSIZE; var r := pages[p := Patched(pages[p], a % PGSIZE, data)];
            WholePages(r) && forall b: nat :: At(r, b) == if a <= b < a + |data| then data[b - a] else At(pages, b)
  {
    var p := a / PGSIZE;
    var r := pages[p := Patched(pages[p], a % PGSIZE, data)];
    forall b: nat
      ensures At(r, b) == if a <= b < a + |data| then data[b - a] else At(pages, b)
    {
      if b / PGSIZE == p {
        assert b % PGSIZE - a % PGSIZE == b - a;
      }
    }
  }

  /** A memory that allocates a page when it is first touched. */
  class SparseMemory {
    const size: nat
    var pages: Pages

    ghost predicate Valid()
      reads this
    {
      0 < size < LIMIT64 && size % PGSIZE == 0 && WholePages(pages)
    }

    constructor (size: nat)
      requires 0 < size < LIMIT64 && size % PGSIZE == 0
      ensures Valid() && forall a: nat :: At(pages, a) == 0
    {
      this.size := size;
      pages := map[];
    }

    predicate InRange(addr: nat, len: nat) {
      var end := (addr + len) % LIMIT64;
      addr <= end <= size
    }

    /** Copies bytes in, page by page. */
    method Store(addr: nat, data: Bytes) returns (ok: bool)
      requires Valid() && addr < LIMIT64 && |data| < LIMIT64
      modifies this
      ensures Valid() && ok == (addr + |data| <= size)
      ensures ok ==> forall b: nat :: At(pages, b) == if addr <= b < addr + |data| then data[b - addr]
              else old(At(pages, b))
      ensures !ok ==> pages == old(pages)
    {
      if !InRange(addr, |data|) {
        return false;
      }
      var pos := 0;
      while pos < |data|
        invariant Valid() && pos <= |data|
        invariant forall b: nat :: At(pages, b) == if addr <= b < addr + pos then data[b - addr] else old(At(pages, b))
      {
        var a := addr + pos;
        var room := PGSIZE - a % PGSIZE;
        var n := if room <= |data| - pos then room else |data| - pos;
        StorePage(a, data[pos..pos + n]);
        pos := pos + n;
      }
      ok := true;
    }

    method StorePage(a: nat, data: Bytes)
      requires Valid() && a % PGSIZE + |data| <= PGSIZE
      modifies this
      ensures Valid() && forall b: nat :: At(pages, b) == if a <= b < a + |data| then data[b - a] else old(At(pages, b))
    {
      var p := a / PGSIZE;
      TouchedReads(pages, p);
      pages := Touched(pages, p);
      PageWritten(pages, a, data);
      pages := pages[p := Patched(pages[p], a % PGSIZE, data)];
    }

    /** Copies bytes out, page by page. */
    method Load(addr: nat, len: nat) returns (ok: bool, data: Bytes)
      requires Valid() && addr < LIMIT64 && len < LIMIT64
      modifies this
      ensures Valid() && ok == (addr + len <= size)
      ensures ok ==> |data| == len && forall i :: 0 <= i < len ==> data[i] == old(At(pages, addr + i))
      ensures forall b: nat :: At(pages, b) == old(At(pages, b))
    {
      data := [];
      if !InRange(addr, len) {
        return false, [];
      }
      while |data| < len
        invariant Valid() && |data| <= len
        invariant forall i :: 0 <= i < |data| ==> data[i] == old(At(pages, addr + i))
        invariant forall b: nat :: At(pages, b) == old(At(pages, b))
        decreases len - |data|
      {
        var a := addr + |data|;
        var room := PGSIZE - a % PGSIZE;
        var n := if room <= len - |data| then room else len - |data|;
        var part := LoadPage(a, n);
        data := data + part;
      }
      ok := true;
    }

    method LoadPage(a: nat, n: nat) returns (part: Bytes)
      requires Valid() && a % PGSIZE + n <= PGSIZE
      modifies this
      ensures Valid() && |part| == n && (forall i :: 0 <= i < n ==> part[i] == old(At(pages, a + i)))
      ensures forall b: nat :: At(pages, b) == old(At(pages, b))
    {
      var p := a / PGSIZE;
      TouchedReads(pages, p);
      pages := Touched(pages, p);
      var off := a % PGSIZE;
      part := pages[p][off..off + n];
      forall i | 0 <= i < n
        ensures part[i] == At(pages, a + i)
      {
        assert (a + i) / PGSIZE == p && (a + i) % PGSIZE == off + i;
      }
    }
  }
}
