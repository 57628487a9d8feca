/**
 The random-access byte iterator over a list of buffers (asio/asio/buffers_iterator.hpp).

 The cursor is a buffer index, a cached copy of that buffer, an offset into it and a
 redundant absolute position.  It is proved to be plain indexing into the concatenated
 bytes, for lists with empty buffers anywhere.  The source's ASIO_ASSERTs are `assert`
 statements here, so none of them can fire.
 */
module BuffersIterator {
  import opened Buffers
  import BufferCopy

  /**
   The place of a cursor: the end of the list, or an offset inside a non-empty buffer;
   `position` counts all bytes before it.
   */
  ghost predicate Cursor(bs: seq<Buffer>, current: nat, offset: nat, position: nat) {
    && current <= |bs| && (if current < |bs| then offset < bs[current].size else offset == 0)
    && position == Before(bs, current) + offset
  }

  /** A position has only one cursor, so comparing positions alone is sound. */
  lemma CursorUnique(bs: seq<Buffer>, c1: nat, o1: nat, c2: nat, o2: nat, position: nat)
    requires Cursor(bs, c1, o1, position) && Cursor(bs, c2, o2, position)
    ensures c1 == c2 && o1 == o2
  {
    if c1 < c2 {
      BeforeMonotone(bs, c1 + 1, c2);
    } else if c2 < c1 {
      BeforeMonotone(bs, c2 + 1, c1);
    }
  }

  /** Positions of cursors are those from 0 to the total, and only the end of the list has the total. */
  lemma CursorRange(bs: seq<Buffer>, current: nat, offset: nat, position: nat)
    requires Cursor(bs, current, offset, position)
    ensures position <= Total(bs)
    ensures current == |bs| <==> position == Total(bs)
  {
    if current < |bs| {
      BeforeMonotone(bs, current + 1, |bs|);
    }
  }

  /** Empty buffers between two indices add nothing. */
  lemma {:induction false} BeforeSkipsEmpty(bs: seq<Buffer>, i: nat, j: nat)
    requires i <= j <= |bs| && forall k | i <= k < j :: bs[k].size == 0
    ensures Before(bs, i) == Before(bs, j)
    decreases j
  {
    if i < j {
      BeforeSkipsEmpty(bs, i, j - 1);
    }
  }

  /** Storing at the address of a flat position changes that position only, if no buffers overlap. */
  lemma FlatUpdate(m: seq<byte>, bs: seq<Buffer>, p: nat, b: byte)
    requires AllFit(bs, |m|) && PairwiseApart(bs) && p < Total(bs) && AddrAt(bs, p) < |m|
    ensures Flat(m[AddrAt(bs, p) := b], bs) == Flat(m, bs)[p := b]
  {
    var m1 := m[AddrAt(bs, p) := b];
    forall q | 0 <= q < Total(bs) ensures Flat(m1, bs)[q] == Flat(m, bs)[p := b][q] {
      FlatAt(m, bs, |bs|, q);
      FlatAt(m1, bs, |bs|, q);
      if q < p {
        AddrsDistinct(bs, q, p);
      } else if p < q {
        AddrsDistinct(bs, p, q);
      }
    }
  }

  class Iterator {
    const bufs: seq<Buffer>
    var current: nat
    var currentBuffer: Buffer
    var offset: nat
    var position: nat

    ghost predicate Valid()
      reads this
    {
      && Cursor(bufs, current, offset, position)
      && (current < |bufs| ==> currentBuffer == bufs[current])
    }

    constructor Begin(bs: seq<Buffer>)
      ensures Valid() && bufs == bs && position == 0
    {
      bufs := bs;
      currentBuffer, offset, position := EMPTY, 0, 0;
      var i := 0;
      while i < |bs|
        invariant i <= |bs| && forall k | 0 <= k < i :: bs[k].size == 0
      {
        currentBuffer := bs[i];
        if bs[i].size > 0 {
          break;
        }
        i := i + 1;
      }
      current := i;
      BeforeSkipsEmpty(bs, 0, i);
    }

    constructor End(bs: seq<Buffer>)
      ensures Valid() && bufs == bs && position == Total(bs)
    {
      bufs := bs;
      currentBuffer, offset := EMPTY, 0;
      var i, p := 0, 0;
      while i < |bs|
        invariant i <= |bs| && p == Before(bs, i)
      {
        p := p + bs[i].size;
        i := i + 1;
      }
      current, position := i, p;
    }

    constructor Copy(it: Iterator)
      requires it.Valid()
      ensures Valid() && bufs == it.bufs && position == it.position
    {
      bufs := it.bufs;
      current, currentBuffer, offset, position := it.current, it.currentBuffer, it.offset, it.position;
    }

    /** `*it`: the byte of the concatenation at this position. */
    method Dereference(mem: array<byte>) returns (b: byte)
      requires Valid() && AllFit(bufs, mem.Length) && position < Total(bufs)
      ensures b == Flat(mem[..], bufs)[position]
    {
      CursorRange(bufs, current, offset, position);
      FlatAt(mem[..], bufs, |bufs|, position);
      AddrAtCursor(bufs, current, offset);
      b := mem[currentBuffer.start + offset];
    }

    /** `*it = b` through the reference of a mutable list: changes that byte of the concatenation only. */
    method Assign(mem: array<byte>, b: byte)
      requires Valid() && AllFit(bufs, mem.Length) && PairwiseApart(bufs) && position < Total(bufs)
      modifies mem
      ensures Flat(mem[..], bufs) == old(Flat(mem[..], bufs))[position := b]
    {
      ghost var m := mem[..];
      CursorRange(bufs, current, offset, position);
      AddrAtCursor(bufs, current, offset);
      AddrFits(bufs, mem.Length, position);
      mem[currentBuffer.start + offset] := b;
      assert mem[..] == m[AddrAt(bufs, position) := b];
      FlatUpdate(m, bufs, position, b);
    }

    /** `it[n]` */
    method Subscript(mem: array<byte>, n: int) returns (b: byte)
      requires Valid() && AllFit(bufs, mem.Length) && 0 <= position + n < Total(bufs)
      ensures b == Flat(mem[..], bufs)[position + n]
    {
      var it := new Iterator.Copy(this);
      it.Advance(n);
      b := it.Dereference(mem);
    }

    method Increment()
      requires Valid() && position < Total(bufs)
      modifies this
      ensures Valid() && position == old(position) + 1
    {
      CursorRange(bufs, current, offset, position);
      assert current != |bufs|;
      position := position + 1;
      offset := offset + 1;
      if offset != currentBuffer.size {
        return;
      }
      current := current + 1;
      offset := 0;
      ghost var next := current;
      while current < |bufs|
        invariant next <= current <= |bufs| && forall k | next <= k < current :: bufs[k].size == 0
        invariant offset == 0 && position == old(position) + 1 == Before(bufs, next)
      {
        currentBuffer := bufs[current];
        if currentBuffer.size > 0 {
          BeforeSkipsEmpty(bufs, next, current);
          return;
        }
        current := current + 1;
      }
      BeforeSkipsEmpty(bufs, next, current);
    }

    method Decrement()
      requires Valid() && position > 0
      modifies this
      ensures Valid() && position == old(position) - 1
    {
      position := position - 1;
      if offset != 0 {
        offset := offset - 1;
        return;
      }
      var i := current;
      while i != 0
        invariant current == old(current) && offset == 0 && position == old(position) - 1
        invariant 0 <= i <= current <= |bufs| && forall k | i <= k < current :: bufs[k].size == 0
      {
        i := i - 1;
        if bufs[i].size > 0 {
          BeforeSkipsEmpty(bufs, i + 1, current);
          current, currentBuffer, offset := i, bufs[i], bufs[i].size - 1;
          return;
        }
      }
      // a cursor at a position above 0 has a non-empty buffer before it
      BeforeSkipsEmpty(bufs, 0, current);
      assert false;
    }

    method Advance(n: int)
      requires Valid() && 0 <= position + n <= Total(bufs)
      modifies this
      ensures Valid() && position == old(position) + n
    {
      CursorRange(bufs, current, offset, position);
      if n > 0 {
        AdvanceForward(n);
      } else if n < 0 {
        AdvanceBackward(-n);
      }
    }

    /** operator+= */
    method PlusAssign(difference: int)
      requires Valid() && 0 <= position + difference <= Total(bufs)
      modifies this
      ensures Valid() && position == old(position) + difference
    {
      Advance(difference);
    }

    /** operator-= */
    method MinusAssign(difference: int)
      requires Valid() && 0 <= position - difference <= Total(bufs)
      modifies this
      ensures Valid() && position == old(position) - difference
    {
      Advance(-difference);
    }

    method AdvanceForward(distance: nat)
      requires Valid() && distance > 0 && position + distance <= Total(bufs)
      modifies this
      ensures Valid() && position == old(position) + distance
    {
      CursorRange(bufs, current, offset, position);
      assert current != |bufs|;
      var n := distance;
      while true
        invariant current < |bufs| && currentBuffer == bufs[current] && At(bufs, current, offset, position)
        invariant n >= 0 && position + n == old(position) + distance
        decreases |bufs| - current
      {
        var balance := currentBuffer.size - offset;
        if balance > n {
          position := position + n;
          offset := offset + n;
          return;
        }
        n := n - balance;
        position := position + balance;
        current := current + 1;
        if current == |bufs| {
          assert n == 0;
          currentBuffer := EMPTY;
          offset := 0;
          return;
        }
        currentBuffer := bufs[current];
        offset := 0;
      }
    }

    method AdvanceBackward(distance: nat)
      requires Valid() && distance > 0 && position >= distance
      modifies this
      ensures Valid() && position == old(position) - distance
    {
      var n := distance;
      while true
        invariant At(bufs, current, offset, position) && (current < |bufs| ==> currentBuffer == bufs[current])
        invariant 0 < n <= position && position - n == old(position) - distance
        decreases current
      {
        if offset >= n {
          position := position - n;
          offset := offset - n;
          return;
        }
        n := n - offset;
        position := position - offset;
        // the source's begin-of-buffers branch is never taken
        assert current != 0;
        StepBack();
      }
    }

    /** The inner loop of `advance`: moves to the end of the previous non-empty buffer. */
    method StepBack()
      requires current <= |bufs| && 0 < position == Before(bufs, current)
      modifies `current, `currentBuffer, `offset
      ensures current < old(current) && currentBuffer == bufs[current] && offset == currentBuffer.size
      ensures At(bufs, current, offset, position)
    {
      var i := current;
      while i != 0
        invariant current == old(current)
        invariant 0 <= i <= current <= |bufs| && forall k | i <= k < current :: bufs[k].size == 0
      {
        i := i - 1;
        if bufs[i].size > 0 {
          BeforeSkipsEmpty(bufs, i + 1, current);
          current, currentBuffer, offset := i, bufs[i], bufs[i].size;
          return;
        }
      }
      BeforeSkipsEmpty(bufs, 0, current);
      assert false;
    }
  }

  // ---------- Every run of operations ----------

  datatype Op = Inc | Dec | Add(n: int) | Sub(n: int)

  function Delta(op: Op): int {
    match op
    case Inc => 1
    case Dec => -1
    case Add(n) => n
    case Sub(n) => -n
  }

  /** Plain indexing: where the operations lead from index `p`. */
  function Index(p: int, ops: seq<Op>): int
    decreases ops
  {
    if ops == [] then p else Index(p + Delta(ops[0]), ops[1..])
  }

  /** No operation leaves the range from 0 to the total. */
  predicate InRange(p: int, ops: seq<Op>, total: nat)
    decreases ops
  {
    0 <= p <= total && (ops == [] || InRange(p + Delta(ops[0]), ops[1..], total))
  }

  /** Operations one after the other. */
  lemma {:induction false} IndexOfConcat(p: int, a: seq<Op>, b: seq<Op>)
    ensures Index(p, a + b) == Index(Index(p, a), b)
    decreases a
  {
    if a == [] {
      assert a + b == b;
    } else {
      assert (a + b)[1..] == a[1..] + b;
      IndexOfConcat(p + Delta(a[0]), a[1..], b);
    }
  }

  /** What the single operations do to an index; and += and -= undo each other. */
  lemma IndexOfOne(p: int, n: int)
    ensures Index(p, [Inc]) == p + 1 && Index(p, [Dec]) == p - 1
    ensures Index(p, [Add(n)]) == p + n && Index(p, [Sub(n)]) == p - n
    ensures Index(p, [Add(n), Sub(n)]) == p == Index(p, [Sub(n), Add(n)])
  {
    assert [Add(n)] + [Sub(n)] == [Add(n), Sub(n)] && [Sub(n)] + [Add(n)] == [Sub(n), Add(n)];
    IndexOfConcat(p, [Add(n)], [Sub(n)]);
    IndexOfConcat(p, [Sub(n)], [Add(n)]);
  }

  /** Any in-range sequence of ++, --, += and -= moves the iterator as it would move an index. */
  method Run(it: Iterator, ops: seq<Op>)
    requires it.Valid() && InRange(it.position, ops, Total(it.bufs))
    modifies it
    ensures it.Valid() && it.position == Index(old(it.position), ops)
  {
    var i := 0;
    assert ops[0..] == ops;
    while i < |ops|
      invariant i <= |ops| && it.Valid() && InRange(it.position, ops[i..], Total(it.bufs))
      invariant Index(it.position, ops[i..]) == Index(old(it.position), ops)
    {
      assert ops[i..][0] == ops[i] && ops[i..][1..] == ops[i + 1..];
      match ops[i] {
        case Inc => it.Increment();
        case Dec => it.Decrement();
        case Add(n) => it.PlusAssign(n);
        case Sub(n) => it.MinusAssign(n);
      }
      i := i + 1;
    }
  }

  /** Reading after any in-range run from `buffers_begin` is indexing the concatenation. */
  method ReadAfter(mem: array<byte>, bs: seq<Buffer>, ops: seq<Op>) returns (b: byte)
    requires AllFit(bs, mem.Length) && InRange(0, ops, Total(bs)) && 0 <= Index(0, ops) < Total(bs)
    ensures b == Flat(mem[..], bs)[Index(0, ops)]
  {
    var it := new Iterator.Begin(bs);
    Run(it, ops);
    b := it.Dereference(mem);
  }

  /** ==, < and - on iterators over the same list. */
  method Compare(a: Iterator, b: Iterator) returns (equal: bool, less: bool, distance: int)
    requires a.Valid() && b.Valid() && a.bufs == b.bufs
    ensures equal <==> a.current == b.current && a.offset == b.offset
    ensures less <==> a.position < b.position
    ensures distance == b.position - a.position
    ensures equal <==> !less && !(b.position < a.position)
  {
    equal := a.position == b.position;
    distance := b.position - a.position;
    less := distance > 0;
    if equal {
      CursorUnique(a.bufs, a.current, a.offset, b.current, b.offset, a.position);
    }
  }

  /**
   `advance(n)` reaches the same buffer, offset and position as |n| single steps, and as
   `advance(m)` followed by `advance(n - m)`.
   */
  method AdvanceAgrees(a: Iterator, b: Iterator, c: Iterator, n: int, m: int)
    requires a.Valid() && b.Valid() && c.Valid() && a != b && b != c && a != c
    requires a.bufs == b.bufs == c.bufs && a.position == b.position == c.position
    requires 0 <= a.position + n <= Total(a.bufs) && 0 <= a.position + m <= Total(a.bufs)
    modifies a, b, c
    ensures a.Valid() && a.position == b.position == c.position == old(a.position) + n
    ensures a.current == b.current == c.current && a.offset == b.offset == c.offset
  {
    a.Advance(n);
    var i := 0;
    while i != n
      invariant b.Valid() && b.position == old(b.position) + i && (if n > 0 then 0 <= i <= n else n <= i <= 0)
      invariant a.Valid() && a.position == old(a.position) + n && c.Valid() && c.position == old(c.position)
      decreases if n > 0 then n - i else i - n
    {
      if n > 0 {
        b.Increment();
        i := i + 1;
      } else {
        b.Decrement();
        i := i - 1;
      }
    }
    c.Advance(m);
    c.Advance(n - m);
    CursorUnique(a.bufs, a.current, a.offset, b.current, b.offset, a.position);
    CursorUnique(a.bufs, a.current, a.offset, c.current, c.offset, a.position);
  }

  /** Walking from `buffers_begin` to `buffers_end` reads exactly the concatenated bytes. */
  method Walk(mem: array<byte>, bs: seq<Buffer>) returns (bytes: seq<byte>)
    requires AllFit(bs, mem.Length)
    ensures bytes == Flat(mem[..], bs)
  {
    bytes := [];
    var it := new Iterator.Begin(bs);
    var end := new Iterator.End(bs);
    while it.position != end.position
      invariant fresh(it) && it.Valid() && it.bufs == bs && it.position <= Total(bs) == end.position
      invariant bytes == Flat(mem[..], bs)[..it.position]
      decreases Total(bs) - it.position
    {
      var b := it.Dereference(mem);
      bytes := bytes + [b];
      it.Increment();
    }
  }

  /** Linearising a list with `buffer_copy` stores exactly the bytes that walking it reads. */
  method LineariseAgreesWithWalk(mem: array<byte>, to: Buffer, bs: seq<Buffer>) returns (bytes: seq<byte>)
    requires BufferCopy.Copyable([to], bs, mem.Length) && to.size == Total(bs)
    modifies mem
    ensures bytes == Flat(old(mem[..]), bs) == Flat(mem[..], [to])
  {
    bytes := Walk(mem, bs);
    ghost var m := mem[..];
    var n := BufferCopy.CopyToOne(mem, to, bs);
    CopiedMeaning(m, [to], bs, n);
  }
}
