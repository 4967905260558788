/**
  A blob that is edited in place: one buffer that holds the reservation, structure and strings
  blocks in this order, and the header fields that say where they lie. Edits move the bytes behind
  the edit point with one block move and adjust the header.
  */
module FdtBlob {
  import opened FdtFormat

  /** What an operation returns; Astray stands for a read or write that leaves the blob: nothing is said about it. */
  datatype Error = Ok | NoSpace | NotFound | Exists | Astray

  // ---------------------------------------------------------------------------------------
  // The blob as a value
  // ---------------------------------------------------------------------------------------

  /** Buffer contents and header fields. */
  datatype Image = Image(bytes: Bytes, offRsv: nat, offStruct: nat, sizeStruct: nat, offStrings: nat, sizeStrings: nat)
  {
    /** Reservation block, then structure block, then strings block, all inside the buffer. */
    predicate Ordered() {
      && 40 <= offRsv && offRsv + 16 <= offStruct
      && offStruct + sizeStruct <= offStrings
      && offStrings + sizeStrings <= |bytes| < LIMIT31
    }

    function DataSize(): nat { offStrings + sizeStrings }

    function Struct(): Bytes
      requires Ordered()
    {
      bytes[offStruct..offStruct + sizeStruct]
    }

    function Strings(): Bytes
      requires Ordered()
    {
      bytes[offStrings..offStrings + sizeStrings]
    }

    /** The reservation block, with anything between it and the structure block. */
    function Reserved(): Bytes
      requires Ordered()
    {
      bytes[offRsv..offStruct]
    }
  }

  /** The buffer after an overlap-safe move of n bytes from src to dst. */
  function Moved(b: Bytes, dst: nat, src: nat, n: nat): (r: Bytes)
    requires dst + n <= |b| && src + n <= |b|
    ensures |r| == |b|
  {
    seq(|b|, i requires 0 <= i < |b| => if dst <= i < dst + n then b[i - dst + src] else b[i])
  }

  /** The buffer after copying data to offset p. */
  function Written(b: Bytes, p: nat, data: Bytes): (r: Bytes)
    requires p + |data| <= |b|
    ensures |r| == |b|
  {
    seq(|b|, i requires 0 <= i < |b| => if p <= i < p + |data| then data[i - p] else b[i])
  }

  /** Replaces oldlen bytes of the structure block at offset q by newlen bytes of room. */
  function StructSpliced(im: Image, q: nat, oldlen: nat, newlen: nat): Image
    requires im.Ordered() && q + oldlen <= im.sizeStruct && im.DataSize() - oldlen + newlen <= |im.bytes|
  {
    var p := im.offStruct + q;
    im.(bytes := Moved(im.bytes, p + newlen, p + oldlen, im.DataSize() - p - oldlen),
        sizeStruct := im.sizeStruct - oldlen + newlen,
        offStrings := im.offStrings - oldlen + newlen)
  }

  function StructWritten(im: Image, q: nat, data: Bytes): Image
    requires im.Ordered() && q + |data| <= im.sizeStruct
  {
    im.(bytes := Written(im.bytes, im.offStruct + q, data))
  }

  function StringAppended(im: Image, s: Bytes): Image
    requires im.Ordered() && im.DataSize() + |s| <= |im.bytes|
  {
    im.(bytes := Written(im.bytes, im.DataSize(), s), sizeStrings := im.sizeStrings + |s|)
  }

  /** Drops bytes from the end of the strings block, as the roll-back of an append does. */
  function StringDropped(im: Image, n: nat): Image
    requires n <= im.sizeStrings
  {
    im.(sizeStrings := im.sizeStrings - n)
  }

  // ---------------------------------------------------------------------------------------
  // What the edits do to the blocks
  // ---------------------------------------------------------------------------------------

  lemma {:induction false} SameSeq(x: Bytes, y: Bytes)
    requires |x| == |y| && forall k :: 0 <= k < |x| ==> x[k] == y[k]
    ensures x == y
  {
  }

  lemma {:induction false} MovedAt(b: Bytes, dst: nat, src: nat, n: nat, k: nat)
    requires dst + n <= |b| && src + n <= |b| && k < |b|
    ensures Moved(b, dst, src, n)[k] == if dst <= k < dst + n then b[k - dst + src] else b[k]
  {
  }

  /** A slice outside the moved range keeps its bytes; one inside has the bytes of its source. */
  lemma {:induction false} MovedSlice(b: Bytes, dst: nat, src: nat, n: nat, i: nat, j: nat)
    requires dst + n <= |b| && src + n <= |b| && i <= j <= |b|
    ensures j <= dst ==> Moved(b, dst, src, n)[i..j] == b[i..j]
    ensures dst <= i && j <= dst + n ==> Moved(b, dst, src, n)[i..j] == b[i - dst + src..j - dst + src]
  {
    var m := Moved(b, dst, src, n);
    if j <= dst {
      forall k | 0 <= k < j - i
        ensures m[i..j][k] == b[i..j][k]
      {
        MovedAt(b, dst, src, n, i + k);
      }
      SameSeq(m[i..j], b[i..j]);
    }
    if dst <= i && j <= dst + n {
      var y := b[i - dst + src..j - dst + src];
      forall k | 0 <= k < j - i
        ensures m[i..j][k] == y[k]
      {
        MovedAt(b, dst, src, n, i + k);
      }
      SameSeq(m[i..j], y);
    }
  }

  lemma {:induction false} SliceOf(b: Bytes, st: nat, en: nat, i: nat, j: nat)
    requires st <= en <= |b| && i <= j <= en - st
    ensures b[st..en][i..j] == b[st + i..st + j]
  {
    SameSeq(b[st..en][i..j], b[st + i..st + j]);
  }

  predicate Fits(im: Image, q: nat, oldlen: nat, newlen: nat) {
    im.Ordered() && q + oldlen <= im.sizeStruct && im.DataSize() - oldlen + newlen <= |im.bytes|
  }

  /** What a structure splice does to the buffer and to the header. */
  lemma {:induction false} SplicedFields(im: Image, q: nat, oldlen: nat, newlen: nat, dst: nat, src: nat, n: nat)
    requires Fits(im, q, oldlen, newlen)
    requires dst == im.offStruct + q + newlen && src == im.offStruct + q + oldlen && n == im.DataSize() - src
    ensures StructSpliced(im, q, oldlen, newlen) ==
            im.(bytes := Moved(im.bytes, dst, src, n), sizeStruct := im.sizeStruct - oldlen + newlen,
              offStrings := im.offStrings - oldlen + newlen)
  {
  }

  /** A structure splice keeps the other blocks and the order of the blocks. */
  lemma {:induction false} SplicedOthers(im: Image, q: nat, oldlen: nat, newlen: nat)
    requires Fits(im, q, oldlen, newlen)
    ensures var r := StructSpliced(im, q, oldlen, newlen);
            r.Ordered() && r.Strings() == im.Strings() && r.Reserved() == im.Reserved()
  {
    var r := StructSpliced(im, q, oldlen, newlen);
    var p, n := im.offStruct + q, im.DataSize() - im.offStruct - q - oldlen;
    MovedSlice(im.bytes, p + newlen, p + oldlen, n, im.offRsv, im.offStruct);
    MovedSlice(im.bytes, p + newlen, p + oldlen, n, r.offStrings, r.offStrings + r.sizeStrings);
  }

  lemma {:induction false} SplicedBefore(im: Image, q: nat, oldlen: nat, newlen: nat)
    requires Fits(im, q, oldlen, newlen)
    ensures var r := StructSpliced(im, q, oldlen, newlen); r.Ordered() && r.Struct()[..q] == im.Struct()[..q]
  {
    var r := StructSpliced(im, q, oldlen, newlen);
    var p, n := im.offStruct + q, im.DataSize() - im.offStruct - q - oldlen;
    MovedSlice(im.bytes, p + newlen, p + oldlen, n, im.offStruct, p);
    SliceOf(im.bytes, im.offStruct, im.offStruct + im.sizeStruct, 0, q);
    SliceOf(r.bytes, r.offStruct, r.offStruct + r.sizeStruct, 0, q);
  }

  /** The tail of a slice, when it is moved along with what lies behind it. */
  lemma {:induction false} MovedTail(b: Bytes, st: nat, en: nat, i: nat, j: nat, n: nat)
    requires st + i <= en <= st + i + n <= |b| && st + j + n <= |b|
    ensures Moved(b, st + j, st + i, n)[st..en - i + j][j..] == b[st..en][i..]
  {
    var x, y := Moved(b, st + j, st + i, n)[st..en - i + j][j..], b[st..en][i..];
    forall k | 0 <= k < |x|
      ensures x[k] == y[k]
    {
      MovedAt(b, st + j, st + i, n, st + j + k);
    }
    SameSeq(x, y);
  }

  lemma {:induction false} SplicedAfter(im: Image, q: nat, oldlen: nat, newlen: nat)
    requires Fits(im, q, oldlen, newlen)
    ensures var r := StructSpliced(im, q, oldlen, newlen);
            r.Ordered() && r.Struct()[q + newlen..] == im.Struct()[q + oldlen..]
  {
    var end, n := im.offStruct + im.sizeStruct, im.DataSize() - im.offStruct - q - oldlen;
    MovedTail(im.bytes, im.offStruct, end, q + oldlen, q + newlen, n);
  }

  lemma {:induction false} WrittenSlice(b: Bytes, p: nat, data: Bytes, i: nat, j: nat)
    requires p + |data| <= |b| && i <= j <= |b| && (j <= p || p + |data| <= i)
    ensures Written(b, p, data)[i..j] == b[i..j]
  {
    SameSeq(Written(b, p, data)[i..j], b[i..j]);
  }

  lemma {:induction false} WrittenInside(b: Bytes, p: nat, data: Bytes, i: nat, j: nat)
    requires i <= p && p + |data| <= j <= |b|
    ensures Written(b, p, data)[i..j] == b[i..p] + data + b[p + |data|..j]
  {
    var x, y := Written(b, p, data)[i..j], b[i..p] + data + b[p + |data|..j];
    forall k | 0 <= k < j - i
      ensures x[k] == y[k]
    {
      assert x[k] == Written(b, p, data)[i + k];
      if i + k >= p + |data| {
        assert y[k] == b[p + |data|..j][k - (p - i) - |data|];
      }
    }
    SameSeq(x, y);
  }

  /** Writing into the structure block keeps the other blocks. */
  lemma {:induction false} StructWrittenOthers(im: Image, q: nat, data: Bytes)
    requires im.Ordered() && q + |data| <= im.sizeStruct
    ensures var r := StructWritten(im, q, data);
            r.Ordered() && r.Strings() == im.Strings() && r.Reserved() == im.Reserved()
  {
    WrittenSlice(im.bytes, im.offStruct + q, data, im.offRsv, im.offStruct);
    WrittenSlice(im.bytes, im.offStruct + q, data, im.offStrings, im.offStrings + im.sizeStrings);
  }

  /** Writing into the structure block changes exactly these bytes of it. */
  lemma {:induction false} StructWrittenHere(im: Image, q: nat, data: Bytes)
    requires im.Ordered() && q + |data| <= im.sizeStruct
    ensures var r := StructWritten(im, q, data);
            r.Ordered() && r.Struct() == im.Struct()[..q] + data + im.Struct()[q + |data|..]
  {
    WrittenInside(im.bytes, im.offStruct + q, data, im.offStruct, im.offStruct + im.sizeStruct);
    SliceOf(im.bytes, im.offStruct, im.offStruct + im.sizeStruct, 0, q);
    SliceOf(im.bytes, im.offStruct, im.offStruct + im.sizeStruct, q + |data|, im.sizeStruct);
  }

  lemma {:induction false} AppendedBlocks(im: Image, s: Bytes)
    requires im.Ordered() && im.DataSize() + |s| <= |im.bytes|
    ensures var r := StringAppended(im, s);
            && r.Ordered() && r.Struct() == im.Struct() && r.Reserved() == im.Reserved()
            && r.Strings() == im.Strings() + s
  {
    var p := im.DataSize();
    WrittenSlice(im.bytes, p, s, im.offRsv, im.offStruct);
    WrittenSlice(im.bytes, p, s, im.offStruct, im.offStruct + im.sizeStruct);
    WrittenInside(im.bytes, p, s, im.offStrings, p + |s|);
    assert im.bytes[p + |s|..p + |s|] == [];
  }

  lemma {:induction false} DroppedBlocks(im: Image, strs: Bytes, s: Bytes)
    requires im.Ordered() && im.Strings() == strs + s
    ensures var r := StringDropped(im, |s|);
            r.Ordered() && r.Struct() == im.Struct() && r.Reserved() == im.Reserved() && r.Strings() == strs
  {
    SliceOf(im.bytes, im.offStrings, im.offStrings + im.sizeStrings, 0, |strs|);
    assert (strs + s)[..|strs|] == strs;
  }

  // ---------------------------------------------------------------------------------------
  // The blob in memory
  // ---------------------------------------------------------------------------------------

  /** The first n bytes of a buffer. */
  ghost function Snapshot(a: array<Byte>, n: nat): (r: Bytes)
    requires n <= a.Length
    reads a
    ensures |r| == n && forall i :: 0 <= i < n ==> r[i] == a[i]
  {
    if n == 0 then [] else Snapshot(a, n - 1) + [a[n - 1]]
  }

  class Blob {
    const buf: array<Byte>
    const offRsv: nat
    var offStruct: nat
    var sizeStruct: nat
    var offStrings: nat
    var sizeStrings: nat

    ghost function Value(): Image
      reads this, buf
    {
      Image(Snapshot(buf, buf.Length), offRsv, offStruct, sizeStruct, offStrings, sizeStrings)
    }

    /** Overlap-safe block move. */
    method Move(dst: nat, src: nat, n: nat)
      requires dst + n <= buf.Length && src + n <= buf.Length
      modifies buf
      ensures Snapshot(buf, buf.Length) == Moved(old(Snapshot(buf, buf.Length)), dst, src, n)
    {
      forall i | 0 <= i < n {
        buf[dst + i] := buf[src + i];
      }
    }

    /** Copies bytes into the buffer. */
    method Write(p: nat, data: Bytes)
      requires p + |data| <= buf.Length
      modifies buf
      ensures Snapshot(buf, buf.Length) == Written(old(Snapshot(buf, buf.Length)), p, data)
    {
      forall i | 0 <= i < |data| {
        buf[p + i] := data[i];
      }
    }

    /** Makes or removes room at offset q of the structure block. */
    method SpliceStruct(q: nat, oldlen: nat, newlen: nat) returns (e: Error)
      requires Value().Ordered() && q + oldlen <= sizeStruct
      modifies this`sizeStruct, this`offStrings, buf
      ensures e.Ok? || e.NoSpace?
      ensures e.Ok? <==> Fits(old(Value()), q, oldlen, newlen)
      ensures e.Ok? ==> Value() == StructSpliced(old(Value()), q, oldlen, newlen)
      ensures e.NoSpace? ==> Value() == old(Value())
    {
      ghost var was := Value();
      var end := offStrings + sizeStrings;
      var p := offStruct + q;
      if end - oldlen + newlen > buf.Length {
        return NoSpace;
      }
      var n := end - p - oldlen;
      var size, strings := sizeStruct - oldlen + newlen, offStrings - oldlen + newlen;
      ghost var goal := StructSpliced(was, q, oldlen, newlen);
      SplicedFields(was, q, oldlen, newlen, p + newlen, p + oldlen, n);
      Splice(p + newlen, p + oldlen, n, size, strings, goal);
      e := Ok;
    }

    /** Moves a block and sets what depends on it. */
    method Splice(dst: nat, src: nat, n: nat, size: nat, strings: nat, ghost goal: Image)
      requires dst + n <= buf.Length && src + n <= buf.Length
      requires goal == Value().(bytes := Moved(Value().bytes, dst, src, n), sizeStruct := size, offStrings := strings)
      modifies this`sizeStruct, this`offStrings, buf
      ensures Value() == goal
    {
      Shift(dst, src, n);
      SetStruct(size, strings);
    }

    /** A block move, seen as a change of the blob. */
    method Shift(dst: nat, src: nat, n: nat)
      requires dst + n <= buf.Length && src + n <= buf.Length
      modifies buf
      ensures Value() == old(Value()).(bytes := Moved(old(Value()).bytes, dst, src, n))
    {
      Move(dst, src, n);
    }

    /** Sets the size of the structure block and the place of the strings. */
    method SetStruct(size: nat, strings: nat)
      modifies this`sizeStruct, this`offStrings
      ensures Value() == old(Value()).(sizeStruct := size, offStrings := strings)
    {
      ghost var was := Value();
      sizeStruct, offStrings := size, strings;
      assert Value().bytes == was.bytes;
    }

    method WriteStruct(q: nat, data: Bytes)
      requires Value().Ordered() && q + |data| <= sizeStruct
      modifies buf
      ensures Value() == StructWritten(old(Value()), q, data)
    {
      Write(offStruct + q, data);
    }

    method AppendString(s: Bytes) returns (e: Error)
      requires Value().Ordered()
      modifies this`sizeStrings, buf
      ensures e == if old(Value()).DataSize() + |s| <= buf.Length then Ok else NoSpace
      ensures Value() == if e.Ok? then StringAppended(old(Value()), s) else old(Value())
    {
      var p := offStrings + sizeStrings;
      if p + |s| > buf.Length {
        return NoSpace;
      }
      sizeStrings := sizeStrings + |s|;
      Write(p, s);
      return Ok;
    }

    method DropString(n: nat)
      requires n <= sizeStrings
      modifies this`sizeStrings
      ensures Value() == StringDropped(old(Value()), n)
    {
      sizeStrings := sizeStrings - n;
    }
  }
}
