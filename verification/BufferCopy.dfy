/**
 The buffer_copy overloads (asio/asio/buffer.hpp).

 Every overload is proved to do the same thing, `Buffers.Copied` on the buffer
 lists of its arguments, for every way of cutting target and source into buffers,
 zero-length buffers included; a single buffer counts as the list of itself.
 Source and target may not overlap, since the copying is done with memcpy.
 */
module BufferCopy {
  import opened Buffers

  /** Target and source lie in memory and do not overlap. */
  ghost predicate Copyable(target: seq<Buffer>, source: seq<Buffer>, length: nat) {
    AllFit(target, length) && AllFit(source, length) && AllApart(target, source)
  }

  /** buffer_size of a sequence. */
  method BufferSize(bs: seq<Buffer>) returns (total: nat)
    ensures total == Total(bs)
  {
    total := 0;
    for i := 0 to |bs|
      invariant total == Before(bs, i)
    {
      total := total + bs[i].size;
    }
  }

  method Memcpy(mem: array<byte>, to: nat, from: nat, n: nat)
    requires n > 0 ==> to + n <= mem.Length && from + n <= mem.Length
    requires n > 0 ==> to + n <= from || from + n <= to
    modifies mem
    ensures mem[..] == Moved(old(mem[..]), to, from, n)
  {
    forall i | 0 <= i < n {
      mem[to + i] := mem[from + i];
    }
    forall a | 0 <= a < mem.Length ensures mem[a] == Moved(old(mem[..]), to, from, n)[a] {
      MovedAt(old(mem[..]), to, from, n, a);
    }
  }

  // ---------- Unlimited forms ----------

  method CopyOne(mem: array<byte>, target: Buffer, source: Buffer) returns (n: nat)
    requires Copyable([target], [source], mem.Length)
    modifies mem
    ensures n == Min(target.size, source.size)
    ensures n > 0 ==> target.start + n <= mem.Length && source.start + n <= mem.Length
    ensures mem[..] == Moved(old(mem[..]), target.start, source.start, n)
    ensures mem[..] == Copied(old(mem[..]), [target], [source], n)
  {
    assert Fits([target][0], mem.Length) && Fits([source][0], mem.Length) && Apart([target][0], [source][0]);
    n := if target.size < source.size then target.size else source.size;
    ghost var m := mem[..];
    CopiedStep(m, [target], [source], 0, 0, 0, 0, 0, n);
    assert Moved(m, target.start, source.start, n) == Copied(m, [target], [source], n);
    Memcpy(mem, target.start, source.start, n);
  }

  /** Where a cursor goes after `copied` bytes of its current buffer: to the next buffer at the end. */
  function NextCursor(bs: seq<Buffer>, i: nat, off: nat, copied: nat): (nat, nat)
    requires i < |bs|
  {
    if copied == Plus(bs[i], off).size then (i + 1, 0) else (i, off + copied)
  }

  lemma CursorsStep(target: seq<Buffer>, source: seq<Buffer>, ti: nat, toff: nat, si: nat, soff: nat,
                    total: nat, copied: nat)
    requires Aligned(target, source, total, ti, toff, si, soff, copied)
    ensures var next := NextCursor(target, ti, toff, copied); At(target, next.0, next.1, total + copied)
    ensures var next := NextCursor(source, si, soff, copied); At(source, next.0, next.1, total + copied)
  {
  }

  /**
   The call every loop makes: copies between the current buffers of two cursors that
   are both at flat position `total`.  A limited loop passes a shortened target buffer.
   */
  method CopyParts(mem: array<byte>, targetBuffer: Buffer, sourceBuffer: Buffer,
                   ghost target: seq<Buffer>, ghost source: seq<Buffer>,
                   ghost ti: nat, ghost toff: nat, ghost si: nat, ghost soff: nat, ghost m: seq<byte>, ghost total: nat)
    returns (copied: nat)
    requires |m| == mem.Length && Copyable(target, source, |m|)
    requires ti < |target| && At(target, ti, toff, total) && total <= Total(target)
    requires si < |source| && At(source, si, soff, total) && total <= Total(source)
    requires targetBuffer.start == target[ti].start + toff && targetBuffer.size <= target[ti].size - toff
    requires sourceBuffer == Buffer(source[si].start + soff, source[si].size - soff)
    requires mem[..] == Copied(m, target, source, total)
    modifies mem
    ensures copied == Min(targetBuffer.size, sourceBuffer.size)
    ensures total + copied <= Total(target) && total + copied <= Total(source)
    ensures var next := NextCursor(target, ti, toff, copied); At(target, next.0, next.1, total + copied)
    ensures var next := NextCursor(source, si, soff, copied); At(source, next.0, next.1, total + copied)
    ensures mem[..] == Copied(m, target, source, total + copied)
  {
    CursorsStep(target, source, ti, toff, si, soff, total, Min(targetBuffer.size, sourceBuffer.size));
    assert Apart(target[ti], source[si]) && Fits(target[ti], mem.Length) && Fits(source[si], mem.Length);
    copied := CopyOne(mem, targetBuffer, sourceBuffer);
    CopiedStep(m, target, source, total, ti, toff, si, soff, copied);
  }

  /** Two sequences, walked with one cursor each. */
  method CopySeq(mem: array<byte>, target: seq<Buffer>, source: seq<Buffer>) returns (total: nat)
    requires Copyable(target, source, mem.Length)
    modifies mem
    ensures total == Min(Total(target), Total(source))
    ensures mem[..] == Copied(old(mem[..]), target, source, total)
  {
    total := 0;
    var ti: nat, toff: nat, si: nat, soff: nat := 0, 0, 0, 0;
    ghost var m := mem[..];
    while ti < |target| && si < |source|
      invariant At(target, ti, toff, total) && At(source, si, soff, total)
      invariant total <= Total(target) && total <= Total(source)
      invariant mem[..] == Copied(m, target, source, total)
      decreases |target| - ti + |source| - si
    {
      var copied := CopyParts(mem, Plus(target[ti], toff), Plus(source[si], soff),
                              target, source, ti, toff, si, soff, m, total);
      var nextTarget, nextSource := NextCursor(target, ti, toff, copied), NextCursor(source, si, soff, copied);
      ti, toff, si, soff := nextTarget.0, nextTarget.1, nextSource.0, nextSource.1;
      total := total + copied;
    }
  }

  /** One round with a single target buffer, of which `total` bytes are written and `rest` is left. */
  method CopyFromNext(mem: array<byte>, rest: Buffer, source: seq<Buffer>, si: nat,
                      ghost target: Buffer, ghost m: seq<byte>, ghost total: nat)
    returns (copied: nat)
    requires |m| == mem.Length && Copyable([target], source, |m|)
    requires total < target.size && rest == Buffer(target.start + total, target.size - total)
    requires si < |source| && total == Before(source, si) && total <= Total(source)
    requires mem[..] == Copied(m, [target], source, total)
    modifies mem
    ensures copied == Min(rest.size, source[si].size)
    ensures total + copied <= target.size && total + copied <= Total(source)
    ensures total + copied < target.size ==> total + copied == Before(source, si + 1)
    ensures mem[..] == Copied(m, [target], source, total + copied)
  {
    copied := CopyParts(mem, rest, source[si], [target], source, 0, total, si, 0, m, total);
  }

  /** One round with a single source buffer, of which `total` bytes are read and `rest` is left. */
  method CopyIntoNext(mem: array<byte>, target: seq<Buffer>, rest: Buffer, ti: nat,
                      ghost source: Buffer, ghost m: seq<byte>, ghost total: nat)
    returns (copied: nat)
    requires |m| == mem.Length && Copyable(target, [source], |m|)
    requires total < source.size && rest == Buffer(source.start + total, source.size - total)
    requires ti < |target| && total == Before(target, ti) && total <= Total(target)
    requires mem[..] == Copied(m, target, [source], total)
    modifies mem
    ensures copied == Min(target[ti].size, rest.size)
    ensures total + copied <= source.size && total + copied <= Total(target)
    ensures total + copied < source.size ==> total + copied == Before(target, ti + 1)
    ensures mem[..] == Copied(m, target, [source], total + copied)
  {
    copied := CopyParts(mem, target[ti], rest, target, [source], ti, 0, 0, total, m, total);
  }

  /** One target buffer, a sequence of source buffers. */
  method CopyToOne(mem: array<byte>, target: Buffer, source: seq<Buffer>) returns (total: nat)
    requires Copyable([target], source, mem.Length)
    modifies mem
    ensures total == Min(target.size, Total(source))
    ensures mem[..] == Copied(old(mem[..]), [target], source, total)
  {
    total := 0;
    var si := 0;
    var targetBuffer := target;
    ghost var m := mem[..];
    while targetBuffer.size > 0 && si < |source|
      invariant si <= |source| && total <= target.size && total <= Total([target]) && total <= Total(source)
      invariant targetBuffer == Buffer(target.start + total, target.size - total)
      invariant targetBuffer.size > 0 ==> total == Before(source, si)
      invariant mem[..] == Copied(m, [target], source, total)
    {
      var copied := CopyFromNext(mem, targetBuffer, source, si, target, m, total);
      total := total + copied;
      targetBuffer := Plus(targetBuffer, copied);
      si := si + 1;
    }
  }

  /** A sequence of target buffers, one source buffer. */
  method CopyFromOne(mem: array<byte>, target: seq<Buffer>, source: Buffer) returns (total: nat)
    requires Copyable(target, [source], mem.Length)
    modifies mem
    ensures total == Min(Total(target), source.size)
    ensures mem[..] == Copied(old(mem[..]), target, [source], total)
  {
    total := 0;
    var ti := 0;
    var sourceBuffer := source;
    ghost var m := mem[..];
    while sourceBuffer.size > 0 && ti < |target|
      invariant ti <= |target| && total <= Total(target) && total <= source.size && total <= Total([source])
      invariant sourceBuffer == Buffer(source.start + total, source.size - total)
      invariant sourceBuffer.size > 0 ==> total == Before(target, ti)
      invariant mem[..] == Copied(m, target, [source], total)
    {
      var copied := CopyIntoNext(mem, target, sourceBuffer, ti, source, m, total);
      total := total + copied;
      sourceBuffer := Plus(sourceBuffer, copied);
      ti := ti + 1;
    }
  }

  // ---------- Forms limited to `max` bytes ----------

  /** The specification depends only on the first `n` flat positions, so shortening one buffer of a
      singleton to at least `n` bytes does not change it. */
  lemma {:induction false} CopiedLimited(m: seq<byte>, b: Buffer, max: nat, other: seq<Buffer>, n: nat)
    requires Fits(b, |m|) && AllFit(other, |m|) && n <= Min(b.size, max) && n <= Total(other)
    ensures n <= Total([b]) && n <= Total([Limit(b, max)])
    ensures Copied(m, [Limit(b, max)], other, n) == Copied(m, [b], other, n)
    ensures Copied(m, other, [Limit(b, max)], n) == Copied(m, other, [b], n)
  {
    if n > 0 {
      CopiedLimited(m, b, max, other, n - 1);
      CopiedLast(m, [b], other, n);
      CopiedLast(m, [Limit(b, max)], other, n);
      CopiedLast(m, other, [b], n);
      CopiedLast(m, other, [Limit(b, max)], n);
    }
  }

  method CopyOneLimited(mem: array<byte>, target: Buffer, source: Buffer, max: nat) returns (n: nat)
    requires Copyable([target], [source], mem.Length)
    modifies mem
    ensures n == Min(Min(target.size, source.size), max)
    ensures mem[..] == Copied(old(mem[..]), [target], [source], n)
  {
    assert Fits([target][0], mem.Length) && Apart([target][0], [source][0]);
    n := CopyOne(mem, Limit(target, max), source);
    CopiedLimited(old(mem[..]), target, max, [source], n);
  }

  method CopyToOneLimited(mem: array<byte>, target: Buffer, source: seq<Buffer>, max: nat) returns (n: nat)
    requires Copyable([target], source, mem.Length)
    modifies mem
    ensures n == Min(Min(target.size, Total(source)), max)
    ensures mem[..] == Copied(old(mem[..]), [target], source, n)
  {
    assert Fits([target][0], mem.Length) && forall j | 0 <= j < |source| :: Apart([target][0], source[j]);
    n := CopyToOne(mem, Limit(target, max), source);
    CopiedLimited(old(mem[..]), target, max, source, n);
  }

  method CopyFromOneLimited(mem: array<byte>, target: seq<Buffer>, source: Buffer, max: nat) returns (n: nat)
    requires Copyable(target, [source], mem.Length)
    modifies mem
    ensures n == Min(Min(Total(target), source.size), max)
    ensures mem[..] == Copied(old(mem[..]), target, [source], n)
  {
    assert Fits([source][0], mem.Length) && forall i | 0 <= i < |target| :: Apart(target[i], [source][0]);
    n := CopyFromOne(mem, target, Limit(source, max));
    CopiedLimited(old(mem[..]), source, max, target, n);
  }

  /** Two sequences and a limit, which may stop the copy in the middle of both current buffers. */
  method CopySeqLimited(mem: array<byte>, target: seq<Buffer>, source: seq<Buffer>, max: nat) returns (total: nat)
    requires Copyable(target, source, mem.Length)
    modifies mem
    ensures total == Min(Min(Total(target), Total(source)), max)
    ensures mem[..] == Copied(old(mem[..]), target, source, total)
  {
    total := 0;
    var ti: nat, toff: nat, si: nat, soff: nat := 0, 0, 0, 0;
    ghost var m := mem[..];
    while total != max && ti < |target| && si < |source|
      invariant At(target, ti, toff, total) && At(source, si, soff, total)
      invariant total <= Total(target) && total <= Total(source) && total <= max
      invariant mem[..] == Copied(m, target, source, total)
      decreases |target| - ti + |source| - si, max - total
    {
      var copied := CopyParts(mem, Limit(Plus(target[ti], toff), max - total), Plus(source[si], soff),
                              target, source, ti, toff, si, soff, m, total);
      var nextTarget, nextSource := NextCursor(target, ti, toff, copied), NextCursor(source, si, soff, copied);
      ti, toff, si, soff := nextTarget.0, nextTarget.1, nextSource.0, nextSource.1;
      total := total + copied;
    }
  }

  // ---------- What follows for callers ----------

  /**
   Scattering the bytes of a buffer into any list of non-overlapping buffers of the
   same total size and gathering them again gives the original bytes.
   */
  method ScatterThenGather(mem: array<byte>, from: Buffer, parts: seq<Buffer>, to: Buffer)
    requires Copyable(parts, [from], mem.Length) && Copyable([to], parts, mem.Length)
    requires PairwiseApart(parts) && Total(parts) == from.size == to.size
    modifies mem
    ensures Flat(mem[..], [to]) == Flat(old(mem[..]), [from]) == Flat(mem[..], parts)
  {
    ghost var m0 := mem[..];
    var n := CopyFromOne(mem, parts, from);
    CopiedMeaning(m0, parts, [from], n);
    ghost var m1 := mem[..];
    n := CopyToOne(mem, to, parts);
    CopiedMeaning(m1, [to], parts, n);
  }

  /** Whichever limited overload fits the arguments, it does what the general one does. */
  method OverloadsAgree(a: array<byte>, b: array<byte>, target: seq<Buffer>, source: seq<Buffer>, max: nat, form: nat)
    returns (n: nat, general: nat)
    requires a != b && a[..] == b[..] && Copyable(target, source, a.Length)
    modifies a, b
    ensures n == general && a[..] == b[..]
  {
    general := CopySeqLimited(b, target, source, max);
    if form == 0 && |target| == 1 && |source| == 1 {
      assert target == [target[0]] && source == [source[0]];
      n := CopyOneLimited(a, target[0], source[0], max);
    } else if form <= 1 && |target| == 1 {
      assert target == [target[0]];
      n := CopyToOneLimited(a, target[0], source, max);
    } else if form <= 2 && |source| == 1 {
      assert source == [source[0]];
      n := CopyFromOneLimited(a, target, source[0], max);
    } else {
      n := CopySeqLimited(a, target, source, max);
    }
  }
}
