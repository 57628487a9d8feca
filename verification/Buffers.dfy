/**
 Buffers, buffer arithmetic and the flat meaning of buffer lists (asio/asio/buffer.hpp).

 Memory is one sequence of bytes and a buffer is the address of its first byte plus
 a size, exactly the two fields of `mutable_buffer` and `const_buffer`.  A list of
 buffers of any sizes stands for the concatenation of their bytes, `Flat`, and a
 flat position in it for one address, `AddrAt`.
 */
module Buffers {

  newtype byte = x: int | 0 <= x < 256

  datatype Buffer = Buffer(start: nat, size: nat)

  /** The default-constructed buffer. */
  const EMPTY := Buffer(0, 0)

  function Min(a: nat, b: nat): nat {
    if a < b then a else b
  }

  // ---------- Regions of memory ----------

  /** The buffer lies in a memory of `length` bytes.  An empty buffer may point anywhere. */
  predicate Fits(b: Buffer, length: nat) {
    b.size == 0 || b.start + b.size <= length
  }

  predicate AllFit(bs: seq<Buffer>, length: nat) {
    forall i {:trigger Fits(bs[i], length)} | 0 <= i < |bs| :: Fits(bs[i], length)
  }

  /** The two regions do not overlap. */
  predicate Apart(a: Buffer, b: Buffer) {
    a.size == 0 || b.size == 0 || a.start + a.size <= b.start || b.start + b.size <= a.start
  }

  predicate AllApart(cs: seq<Buffer>, bs: seq<Buffer>) {
    forall i, j {:trigger Apart(cs[i], bs[j])} | 0 <= i < |cs| && 0 <= j < |bs| :: Apart(cs[i], bs[j])
  }

  predicate PairwiseApart(bs: seq<Buffer>) {
    forall i, j {:trigger Apart(bs[i], bs[j])} | 0 <= i < j < |bs| :: Apart(bs[i], bs[j])
  }

  // ---------- The flat view of a list of buffers ----------

  /** Number of bytes in the buffers before index `i`. */
  function Before(bs: seq<Buffer>, i: nat): nat
    requires i <= |bs|
  {
    if i == 0 then 0 else Before(bs, i - 1) + bs[i - 1].size
  }

  function Total(bs: seq<Buffer>): nat {
    Before(bs, |bs|)
  }

  function Bytes(m: seq<byte>, b: Buffer): (r: seq<byte>)
    requires Fits(b, |m|)
    ensures |r| == b.size
  {
    seq(b.size, i requires 0 <= i < b.size => m[b.start + i])
  }

  /** The bytes of the first `i` buffers, one buffer after the other. */
  function FlatUpTo(m: seq<byte>, bs: seq<Buffer>, i: nat): (r: seq<byte>)
    requires AllFit(bs, |m|) && i <= |bs|
    ensures |r| == Before(bs, i)
  {
    if i == 0 then [] else FlatUpTo(m, bs, i - 1) + Bytes(m, bs[i - 1])
  }

  /** The concatenation of the bytes of all buffers. */
  function Flat(m: seq<byte>, bs: seq<Buffer>): (r: seq<byte>)
    requires AllFit(bs, |m|)
    ensures |r| == Total(bs)
  {
    FlatUpTo(m, bs, |bs|)
  }

  /** Offset `off` of buffer `i` is the flat position `total`.  `off` may be the size of the buffer. */
  ghost predicate At(bs: seq<Buffer>, i: nat, off: nat, total: nat) {
    && i <= |bs| && off <= (if i < |bs| then bs[i].size else 0)
    && total == Before(bs, i) + off
  }

  /** Prefix sums of sizes never decrease. */
  lemma {:induction false} BeforeMonotone(bs: seq<Buffer>, i: nat, j: nat)
    requires i <= j <= |bs|
    ensures Before(bs, i) <= Before(bs, j)
    decreases j
  {
    if i < j {
      BeforeMonotone(bs, i, j - 1);
    }
  }

  /** The buffer that holds flat position `p`. */
  lemma {:induction false} Owner(bs: seq<Buffer>, p: nat, j: nat) returns (i: nat)
    requires j <= |bs| && p < Before(bs, j)
    ensures i < j && Before(bs, i) <= p < Before(bs, i) + bs[i].size
  {
    if p >= Before(bs, j - 1) {
      i := j - 1;
    } else {
      i := Owner(bs, p, j - 1);
    }
  }

  /** The address of flat position `p`, which lies in one of the first `j` buffers. */
  function AddrIn(bs: seq<Buffer>, j: nat, p: nat): nat
    requires j <= |bs| && p < Before(bs, j)
  {
    if p >= Before(bs, j - 1) then bs[j - 1].start + (p - Before(bs, j - 1)) else AddrIn(bs, j - 1, p)
  }

  function AddrAt(bs: seq<Buffer>, p: nat): nat
    requires p < Total(bs)
  {
    AddrIn(bs, |bs|, p)
  }

  lemma {:induction false} AddrInAtCursor(bs: seq<Buffer>, j: nat, i: nat, off: nat)
    requires i < j <= |bs| && off < bs[i].size
    ensures Before(bs, i) + off < Before(bs, j)
    ensures AddrIn(bs, j, Before(bs, i) + off) == bs[i].start + off
  {
    BeforeMonotone(bs, i + 1, j);
    if i + 1 < j {
      AddrInAtCursor(bs, j - 1, i, off);
    }
  }

  /** A position inside a buffer is the flat position counted from the buffers before it. */
  lemma AddrAtCursor(bs: seq<Buffer>, i: nat, off: nat)
    requires i < |bs| && off < bs[i].size
    ensures Before(bs, i) + off < Total(bs)
    ensures AddrAt(bs, Before(bs, i) + off) == bs[i].start + off
  {
    AddrInAtCursor(bs, |bs|, i, off);
  }

  lemma AddrFits(bs: seq<Buffer>, length: nat, p: nat)
    requires AllFit(bs, length) && p < Total(bs)
    ensures AddrAt(bs, p) < length
  {
    var i := Owner(bs, p, |bs|);
    assert Fits(bs[i], length);
    AddrAtCursor(bs, i, p - Before(bs, i));
  }

  /** Indexing the concatenation is reading memory at the flat position's address. */
  lemma {:induction false} FlatAt(m: seq<byte>, bs: seq<Buffer>, j: nat, p: nat)
    requires AllFit(bs, |m|) && j <= |bs| && p < Before(bs, j)
    ensures AddrIn(bs, j, p) < |m|
    ensures FlatUpTo(m, bs, j)[p] == m[AddrIn(bs, j, p)]
  {
    var b, before := bs[j - 1], Before(bs, j - 1);
    assert Fits(b, |m|);
    if p < before {
      FlatAt(m, bs, j - 1, p);
      assert AddrIn(bs, j, p) == AddrIn(bs, j - 1, p);
    } else {
      assert AddrIn(bs, j, p) == b.start + (p - before);
      assert Bytes(m, b)[p - before] == m[b.start + (p - before)];
    }
  }

  /** Two flat positions of non-overlapping lists have different addresses. */
  lemma AddrsApart(cs: seq<Buffer>, bs: seq<Buffer>, p: nat, q: nat)
    requires AllApart(cs, bs) && p < Total(cs) && q < Total(bs)
    ensures AddrAt(cs, p) != AddrAt(bs, q)
  {
    var i := Owner(cs, p, |cs|);
    AddrAtCursor(cs, i, p - Before(cs, i));
    var j := Owner(bs, q, |bs|);
    AddrAtCursor(bs, j, q - Before(bs, j));
    assert Apart(cs[i], bs[j]);
  }

  /** Different flat positions of a list without overlaps have different addresses. */
  lemma AddrsDistinct(bs: seq<Buffer>, p: nat, q: nat)
    requires PairwiseApart(bs) && p < q < Total(bs)
    ensures AddrAt(bs, p) != AddrAt(bs, q)
  {
    var i := Owner(bs, p, |bs|);
    AddrAtCursor(bs, i, p - Before(bs, i));
    var j := Owner(bs, q, |bs|);
    AddrAtCursor(bs, j, q - Before(bs, j));
    if i > j {
      BeforeMonotone(bs, j + 1, i);
    } else if i < j {
      assert Apart(bs[i], bs[j]);
    }
  }

  // ---------- Buffer arithmetic ----------

  /** `b + start` */
  function Plus(b: Buffer, start: nat): Buffer {
    if start > b.size then EMPTY else Buffer(b.start + start, b.size - start)
  }

  /** `buffer(b, max)` */
  function Limit(b: Buffer, max: nat): Buffer {
    Buffer(b.start, if b.size < max then b.size else max)
  }

  /** An offset drops leading bytes, or all when there are too few; a limit keeps leading bytes, or all. */
  lemma OffsetAndLimit(m: seq<byte>, b: Buffer, i: nat)
    requires Fits(b, |m|)
    ensures Fits(Plus(b, i), |m|) && Bytes(m, Plus(b, i)) == Bytes(m, b)[Min(i, b.size)..]
    ensures Fits(Limit(b, i), |m|) && Bytes(m, Limit(b, i)) == Bytes(m, b)[..Min(i, b.size)]
  {
  }

  /** Offsets add up, limits take the smaller, and a limit after an offset selects a range of bytes. */
  lemma BufferArithmetic(m: seq<byte>, b: Buffer, i: nat, j: nat)
    requires Fits(b, |m|)
    ensures Plus(Plus(b, i), j).size == Plus(b, i + j).size
    ensures i + j <= b.size ==> Plus(Plus(b, i), j) == Plus(b, i + j)
    ensures Limit(Limit(b, i), j) == Limit(b, Min(i, j))
    ensures i + j <= b.size ==> Bytes(m, Limit(Plus(b, i), j)) == Bytes(m, b)[i..i + j]
  {
  }

  // ---------- The one flat specification of buffer_copy ----------

  /** Memory `m` after storing flat source byte 0 at flat target position 0, then byte 1 at position 1,
      up to `n` bytes. */
  function Copied(m: seq<byte>, target: seq<Buffer>, source: seq<Buffer>, n: nat): (r: seq<byte>)
    requires n <= Total(target) && n <= Total(source)
    requires AllFit(target, |m|) && AllFit(source, |m|)
    ensures |r| == |m|
  {
    if n == 0 then m else
      AddrFits(target, |m|, n - 1);
      AddrFits(source, |m|, n - 1);
      Copied(m, target, source, n - 1)[AddrAt(target, n - 1) := m[AddrAt(source, n - 1)]]
  }

  lemma CopiedLast(m: seq<byte>, target: seq<Buffer>, source: seq<Buffer>, n: nat)
    requires 0 < n <= Total(target) && n <= Total(source)
    requires AllFit(target, |m|) && AllFit(source, |m|)
    ensures AddrAt(target, n - 1) < |m| && AddrAt(source, n - 1) < |m|
    ensures Copied(m, target, source, n)
         == Copied(m, target, source, n - 1)[AddrAt(target, n - 1) := m[AddrAt(source, n - 1)]]
  {
    AddrFits(target, |m|, n - 1);
    AddrFits(source, |m|, n - 1);
  }

  /** Only the first `n` target positions change. */
  lemma {:induction false} CopiedFrame(m: seq<byte>, target: seq<Buffer>, source: seq<Buffer>, n: nat, a: nat)
    requires n <= Total(target) && n <= Total(source)
    requires AllFit(target, |m|) && AllFit(source, |m|)
    requires a < |m| && forall p | 0 <= p < n :: AddrAt(target, p) != a
    ensures Copied(m, target, source, n)[a] == m[a]
  {
    if n > 0 {
      CopiedFrame(m, target, source, n - 1, a);
    }
  }

  lemma CopiedSourceFrame(m: seq<byte>, target: seq<Buffer>, source: seq<Buffer>, n: nat, q: nat)
    requires n <= Total(target) && n <= Total(source) && q < Total(source)
    requires AllFit(target, |m|) && AllFit(source, |m|) && AllApart(target, source)
    ensures AddrAt(source, q) < |m| && Copied(m, target, source, n)[AddrAt(source, q)] == m[AddrAt(source, q)]
  {
    AddrFits(source, |m|, q);
    forall p | 0 <= p < n ensures AddrAt(target, p) != AddrAt(source, q) {
      AddrsApart(target, source, p, q);
    }
    CopiedFrame(m, target, source, n, AddrAt(source, q));
  }

  /** One memcpy of `k` bytes. */
  function Moved(m: seq<byte>, to: nat, from: nat, k: nat): (r: seq<byte>)
    requires k > 0 ==> to + k <= |m| && from + k <= |m|
    ensures |r| == |m|
  {
    if k == 0 then m else Moved(m, to, from, k - 1)[to + (k - 1) := m[from + (k - 1)]]
  }

  lemma MovedLast(m: seq<byte>, to: nat, from: nat, k: nat)
    requires k > 0 && to + k <= |m| && from + k <= |m|
    ensures Moved(m, to, from, k) == Moved(m, to, from, k - 1)[to + (k - 1) := m[from + (k - 1)]]
  {
  }

  lemma {:induction false} MovedAt(m: seq<byte>, to: nat, from: nat, k: nat, a: nat)
    requires k > 0 ==> to + k <= |m| && from + k <= |m|
    requires a < |m|
    ensures Moved(m, to, from, k)[a] == if to <= a < to + k then m[from + (a - to)] else m[a]
  {
    if k > 0 {
      MovedAt(m, to, from, k - 1, a);
    }
  }

  /** Two cursors at flat position `n`, with `k` more bytes in both current buffers. */
  ghost predicate Aligned(target: seq<Buffer>, source: seq<Buffer>, n: nat,
                          ti: nat, toff: nat, si: nat, soff: nat, k: nat) {
    && ti < |target| && At(target, ti, toff, n) && toff + k <= target[ti].size
    && si < |source| && At(source, si, soff, n) && soff + k <= source[si].size
  }

  lemma AlignedBounds(length: nat, target: seq<Buffer>, source: seq<Buffer>, n: nat,
                      ti: nat, toff: nat, si: nat, soff: nat, k: nat)
    requires AllFit(target, length) && AllFit(source, length)
    requires Aligned(target, source, n, ti, toff, si, soff, k)
    ensures n + k <= Total(target) && n + k <= Total(source)
    ensures k > 0 ==> target[ti].start + toff + k <= length && source[si].start + soff + k <= length
    ensures k > 0 ==> AddrAt(target, n + k - 1) == target[ti].start + toff + k - 1
    ensures k > 0 ==> AddrAt(source, n + k - 1) == source[si].start + soff + k - 1
  {
    BeforeMonotone(target, ti + 1, |target|);
    BeforeMonotone(source, si + 1, |source|);
    assert Fits(target[ti], length) && Fits(source[si], length);
    if k > 0 {
      AddrAtCursor(target, ti, toff + k - 1);
      AddrAtCursor(source, si, soff + k - 1);
    }
  }

  /** After `n` copied bytes, one memcpy between the two current buffers makes it `n + k` bytes. */
  lemma {:induction false} CopiedStep(m: seq<byte>, target: seq<Buffer>, source: seq<Buffer>, n: nat,
                                      ti: nat, toff: nat, si: nat, soff: nat, k: nat)
    requires AllFit(target, |m|) && AllFit(source, |m|) && AllApart(target, source)
    requires Aligned(target, source, n, ti, toff, si, soff, k)
    ensures n + k <= Total(target) && n + k <= Total(source)
    ensures k > 0 ==> target[ti].start + toff + k <= |m| && source[si].start + soff + k <= |m|
    ensures Moved(Copied(m, target, source, n), target[ti].start + toff, source[si].start + soff, k)
         == Copied(m, target, source, n + k)
    decreases k
  {
    AlignedBounds(|m|, target, source, n, ti, toff, si, soff, k);
    if k > 0 {
      CopiedStep(m, target, source, n, ti, toff, si, soff, k - 1);
      CopiedSourceFrame(m, target, source, n, n + k - 1);
      MovedLast(Copied(m, target, source, n), target[ti].start + toff, source[si].start + soff, k);
      CopiedLast(m, target, source, n + k);
    }
  }

  lemma {:induction false} CopiedReadBack(m: seq<byte>, target: seq<Buffer>, source: seq<Buffer>, n: nat, i: nat)
    requires i < n <= Total(target) && n <= Total(source)
    requires AllFit(target, |m|) && AllFit(source, |m|) && PairwiseApart(target)
    ensures AddrAt(target, i) < |m| && AddrAt(source, i) < |m|
    ensures Copied(m, target, source, n)[AddrAt(target, i)] == m[AddrAt(source, i)]
  {
    AddrFits(target, |m|, i);
    AddrFits(source, |m|, i);
    if i < n - 1 {
      CopiedReadBack(m, target, source, n - 1, i);
      AddrsDistinct(target, i, n - 1);
    }
  }

  /**
   What the specification means, for any cut of target and source into buffers.
   Bytes outside the first `n` target positions keep their values, the source is
   unchanged, and when the target buffers do not overlap each other the target reads
   as `n` leading source bytes followed by its own old remainder.
   */
  lemma CopiedMeaning(m: seq<byte>, target: seq<Buffer>, source: seq<Buffer>, n: nat)
    requires n <= Total(target) && n <= Total(source)
    requires AllFit(target, |m|) && AllFit(source, |m|) && AllApart(target, source)
    ensures forall a | 0 <= a < |m| && (forall p | 0 <= p < n :: AddrAt(target, p) != a) ::
              Copied(m, target, source, n)[a] == m[a]
    ensures Flat(Copied(m, target, source, n), source) == Flat(m, source)
    ensures PairwiseApart(target) ==>
              Flat(Copied(m, target, source, n), target) == Flat(m, source)[..n] + Flat(m, target)[n..]
  {
    var m1 := Copied(m, target, source, n);
    forall a | 0 <= a < |m| && (forall p | 0 <= p < n :: AddrAt(target, p) != a) ensures m1[a] == m[a] {
      CopiedFrame(m, target, source, n, a);
    }
    forall q | 0 <= q < Total(source) ensures Flat(m1, source)[q] == Flat(m, source)[q] {
      FlatAt(m, source, |source|, q);
      FlatAt(m1, source, |source|, q);
      CopiedSourceFrame(m, target, source, n, q);
    }
    if PairwiseApart(target) {
      forall p | 0 <= p < Total(target)
        ensures Flat(m1, target)[p] == if p < n then Flat(m, source)[p] else Flat(m, target)[p]
      {
        FlatAt(m1, target, |target|, p);
        FlatAt(m, target, |target|, p);
        if p < n {
          FlatAt(m, source, |source|, p);
          CopiedReadBack(m, target, source, n, p);
        } else {
          forall r | 0 <= r < n ensures AddrAt(target, r) != AddrAt(target, p) {
            AddrsDistinct(target, r, p);
          }
        }
      }
    }
  }
}
