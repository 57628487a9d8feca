/**
 The growing byte queue behind asio::streambuf (asio/asio/basic_streambuf.hpp).

 One vector of bytes holds both areas; gptr, egptr, pptr and epptr are offsets into it.
 `Unread` is the input sequence, [gptr, pptr).  The class is proved to be a bounded FIFO.
 The inherited sputc and sbumpc follow section 27.6.3.2 of ISO C++11.
 */
module Streambuf {
  import opened Buffers

  const BUFFER_DELTA: nat := 128
  const INT_MAX: nat := 0x7fff_ffff
  const UINT_RANGE: nat := 0x1_0000_0000
  /** Range of size_t and of addresses. */
  const ADDRESSES: nat := 0x1_0000_0000_0000_0000
  const EOF: int := -1

  datatype Outcome = Done | LengthError

  function Max(a: nat, b: nat): nat {
    if a < b then b else a
  }

  /** vector::resize: new bytes are zero. */
  function Resize(v: seq<byte>, n: nat): (r: seq<byte>)
    ensures |r| == n
  {
    seq(n, i requires 0 <= i => if i < |v| then v[i] else 0)
  }

  /** memmove of the bytes [g, p) to the front. */
  function MoveToFront(v: seq<byte>, g: nat, p: nat): (r: seq<byte>)
    requires g <= p <= |v|
    ensures |r| == |v|
  {
    seq(|v|, i requires 0 <= i < |v| => if i < p - g then v[g + i] else v[i])
  }

  /** The bytes from `at` on overwritten by `data`. */
  function Overwrite(v: seq<byte>, at: nat, data: seq<byte>): (r: seq<byte>)
    requires at + |data| <= |v|
    ensures |r| == |v|
  {
    seq(|v|, i requires 0 <= i < |v| => if at <= i < at + |data| then data[i - at] else v[i])
  }

  /** The bytes [lo, hi). */
  function Slice(v: seq<byte>, lo: nat, hi: nat): (r: seq<byte>)
    requires lo <= hi <= |v|
    ensures |r| == hi - lo
  {
    seq(hi - lo, i requires 0 <= i < hi - lo => v[lo + i])
  }

  // ---------- Counts and pointers of the machine ----------

  /** static_cast<int> of a size_t */
  function ToInt(n: nat): int {
    if n <= INT_MAX then n else
      var r := n % UINT_RANGE;
      if r <= INT_MAX then r else r - UINT_RANGE
  }

  /** The clamp of `commit` and `consume`, which compares the addresses base + p + n and base + e. */
  function MachineClamp(base: nat, p: nat, e: nat, n: nat): nat
    requires p <= e
  {
    if (base + p + n) % ADDRESSES > base + e then e - p else n
  }

  /** What `commit` and `consume` add to the pointer at offset `p` with end `e`. */
  function Bump(base: nat, p: nat, e: nat, n: nat): int
    requires p <= e
  {
    ToInt(MachineClamp(base, p, e, n))
  }

  /** The count fits an int; or the pointer sum wraps and the low 32 bits of `n` happen to be the room left. */
  predicate InRange(base: nat, p: nat, e: nat, n: nat)
    requires p <= e
  {
    if base + p + n < ADDRESSES then Min(n, e - p) <= INT_MAX
    else e - p <= INT_MAX && n % UINT_RANGE == e - p
  }

  /** The pointer moves by the documented minimum exactly when the count is in range. */
  lemma BumpExact(base: nat, p: nat, e: nat, n: nat)
    requires p <= e && base + e < ADDRESSES && n < ADDRESSES
    ensures Bump(base, p, e, n) == Min(n, e - p) <==> InRange(base, p, e, n)
  {
    if base + p + n < ADDRESSES {
      assert (base + p + n) % ADDRESSES == base + p + n;
    } else {
      assert (base + p + n) % ADDRESSES == base + p + n - ADDRESSES;
    }
  }

  /** The common part of `commit` and `consume`: the clamp by addresses, and pbump or gbump by the cast count. */
  method Bumped(base: nat, p: nat, e: nat, n: nat) returns (p': int)
    requires p <= e && base + e < ADDRESSES && n < ADDRESSES
    ensures p' == p + Bump(base, p, e, n)
    ensures p' == p + Min(n, e - p) <==> InRange(base, p, e, n)
  {
    BumpExact(base, p, e, n);
    var count := n;
    if (base + p + count) % ADDRESSES > base + e {
      count := e - p;
    }
    p' := p + ToInt(count);
  }

  /** The largest count moves the pointer back by one, whatever the end. */
  lemma LargestCountGoesBack(base: nat, p: nat, e: nat)
    requires p <= e && 0 < base + p && base + e < ADDRESSES
    ensures Bump(base, p, e, ADDRESSES - 1) == -1 && !InRange(base, p, e, ADDRESSES - 1)
  {
    assert (base + p + (ADDRESSES - 1)) % ADDRESSES == base + p - 1;
  }

  /** The bytes of [g, p) after they were moved to the front while the pointers stayed: the first `g` are
      gone, the others come `g` places earlier, and the last `g` places keep theirs. */
  function Slid(unread: seq<byte>, g: nat): (r: seq<byte>)
    ensures |r| == |unread|
  {
    seq(|unread|, j requires 0 <= j < |unread| => if j + g < |unread| then unread[j + g] else unread[j])
  }

  lemma SlidByNothing(unread: seq<byte>)
    ensures Slid(unread, 0) == unread
  {
  }

  lemma MovedToFront(v: seq<byte>, g: nat, p: nat)
    requires g <= p <= |v|
    ensures Slice(MoveToFront(v, g, p), 0, p - g) == Slice(v, g, p)
    ensures Slice(MoveToFront(v, g, p), g, p) == Slid(Slice(v, g, p), g)
    ensures g == 0 ==> MoveToFront(v, g, p) == v
  {
  }

  lemma SliceResized(v: seq<byte>, n: nat, lo: nat, hi: nat)
    requires lo <= hi <= |v| && hi <= n
    ensures Slice(Resize(v, n), lo, hi) == Slice(v, lo, hi)
  {
  }

  /** Cutting [g, e) at p and the second part after k bytes. */
  lemma Slices(v: seq<byte>, g: nat, p: nat, e: nat, k: nat)
    requires g <= p <= p + k <= e <= |v|
    ensures Slice(v, g, p + k) == Slice(v, g, p) + Slice(v, p, e)[..k]
    ensures Slice(v, p + k, e) == Slice(v, p, e)[k..]
  {
  }

  lemma AppendByte(v: seq<byte>, g: nat, p: nat, c: byte)
    requires g <= p < |v|
    ensures Slice(v[p := c], g, p + 1) == Slice(v, g, p) + [c]
  {
  }

  lemma AfterByte(v: seq<byte>, p: nat, e: nat, c: byte)
    requires p < e <= |v|
    ensures Slice(v[p := c], p + 1, e) == Slice(v, p, e)[1..]
  {
  }

  lemma Overwritten(v: seq<byte>, g: nat, p: nat, e: nat, data: seq<byte>)
    requires g <= p && p + |data| <= e <= |v|
    ensures Slice(Overwrite(v, p, data), g, p) == Slice(v, g, p)
    ensures data <= Slice(Overwrite(v, p, data), p, e)
  {
  }

  class Streambuf {
    const maxSize: nat
    var buffer: seq<byte>
    /** Address of the first byte of the storage; the pointers are offsets from it. */
    var base: nat
    var gptr: int
    var egptr: int
    var pptr: int
    var epptr: int

    ghost predicate Valid()
      reads this
    {
      && 0 <= gptr <= egptr <= pptr <= epptr <= maxSize
      && |buffer| == Max(epptr, 1) && maxSize < ADDRESSES && base + epptr < ADDRESSES
    }

    function Unread(): seq<byte>
      reads this
      requires Valid()
    {
      Slice(buffer, gptr, pptr)
    }

    /** The output sequence. */
    function Spare(): seq<byte>
      reads this
      requires Valid()
    {
      Slice(buffer, pptr, epptr)
    }

    constructor (maximumSize: nat)
      requires maximumSize < ADDRESSES
      ensures Valid() && maxSize == maximumSize && Unread() == []
      ensures gptr == pptr == 0 && epptr == Min(maximumSize, 128)
    {
      maxSize := maximumSize;
      var pend := Min(maximumSize, BUFFER_DELTA);
      buffer := Resize([], Max(pend, 1));
      var address: nat :| address + pend < ADDRESSES;
      base := address;
      gptr, egptr, pptr, epptr := 0, 0, 0, pend;
    }

    /**
     Makes room for `n` more bytes.  Fails exactly when the unread bytes and `n` more would
     exceed the maximum; the storage grows only when they do not fit below the put end, and
     then to exactly their sum.  On failure the pointers stay although the bytes were moved.
     */
    method Reserve(n: nat) returns (r: Outcome)
      requires Valid()
      modifies this
      ensures Valid()
      ensures r == LengthError <==> old(|Unread()|) + n > maxSize
      ensures r == Done ==> Unread() == old(Unread()) && n <= |Spare()|
      ensures r == Done ==> epptr == Max(old(epptr), old(|Unread()|) + n)
      ensures n <= old(epptr - pptr) ==> unchanged(this)
      ensures r == Done && n > old(epptr - pptr) ==> gptr == 0 && egptr == pptr
      ensures r == LengthError ==> unchanged(`base, `gptr, `egptr, `pptr, `epptr)
      ensures r == LengthError ==> Unread() == Slid(old(Unread()), gptr)
    {
      var gnext, pnext, pend := gptr, pptr, epptr;
      if n <= pend - pnext {
        return Done;
      }
      MovedToFront(buffer, gptr, pptr);
      if gnext > 0 {
        pnext := pnext - gnext;
        buffer := MoveToFront(buffer, gnext, gnext + pnext);
      }
      if n > pend - pnext {
        if n <= maxSize && pnext <= maxSize - n {
          pend := pnext + n;
          SliceResized(buffer, Max(pend, 1), 0, pnext);
          buffer := Resize(buffer, Max(pend, 1));
          // the vector may be reallocated
          var address: nat :| address + pend < ADDRESSES;
          base := address;
        } else {
          return LengthError;
        }
      }
      gptr, egptr := 0, pnext;
      pptr, epptr := pnext, pend;
      return Done;
    }

    /** Returns where the `n` writable bytes start: inside the storage and past the unread bytes. */
    method Prepare(n: nat) returns (r: Outcome, start: nat)
      requires Valid()
      modifies this
      ensures Valid()
      ensures r == LengthError <==> old(|Unread()|) + n > maxSize
      ensures r == Done ==> Unread() == old(Unread()) && start == pptr && start + n <= epptr
      ensures r == Done ==> epptr == Max(old(epptr), old(|Unread()|) + n)
      ensures n <= old(epptr - pptr) ==> unchanged(this)
      ensures r == LengthError ==> unchanged(`base, `gptr, `egptr, `pptr, `epptr)
      ensures r == LengthError ==> Unread() == Slid(old(Unread()), gptr)
    {
      r := Reserve(n);
      start := pptr;
    }

    /** The caller writes `data` to the start of a prepared area. */
    method Fill(data: seq<byte>)
      requires Valid() && |data| <= |Spare()|
      modifies `buffer
      ensures Valid() && Unread() == old(Unread()) && data <= Spare()
    {
      Overwritten(buffer, gptr, pptr, epptr, data);
      buffer := Overwrite(buffer, pptr, data);
    }

    /** Moves at most `n` bytes from the output sequence to the input sequence, if the count is in range. */
    method Commit(n: nat)
      requires Valid() && n < ADDRESSES
      modifies this
      ensures unchanged(`buffer, `base, `gptr, `epptr) && egptr == pptr == old(pptr + Bump(base, pptr, epptr, n))
      ensures old(InRange(base, pptr, epptr, n))
              <==> Valid() && Unread() == old(Unread() + Spare()[..Min(n, |Spare()|)])
      ensures old(InRange(base, pptr, epptr, n)) ==> Spare() == old(Spare()[Min(n, |Spare()|)..])
    {
      Slices(buffer, gptr, pptr, epptr, Min(n, epptr - pptr));
      pptr := Bumped(base, pptr, epptr, n);
      egptr := pptr;
    }

    /** Removes at most `n` bytes from the front of the input sequence, if the count is in range. */
    method Consume(n: nat)
      requires Valid() && n < ADDRESSES
      modifies this
      ensures unchanged(`buffer, `base, `pptr, `epptr) && egptr == pptr
      ensures gptr == old(gptr + Bump(base, gptr, pptr, n))
      ensures old(InRange(base, gptr, pptr, n)) <==> Valid() && Unread() == old(Unread()[Min(n, |Unread()|)..])
    {
      Slices(buffer, gptr, gptr, pptr, Min(n, pptr - gptr));
      if egptr < pptr {
        egptr := pptr;
      }
      gptr := Bumped(base, gptr, pptr, n);
    }

    method Underflow() returns (c: int)
      requires Valid()
      modifies `egptr
      ensures Valid() && Unread() == old(Unread())
      ensures if Unread() == [] then c == EOF else c == Unread()[0] as int && egptr == pptr
    {
      if gptr < pptr {
        egptr := pptr;
        c := buffer[gptr] as int;
      } else {
        c := EOF;
      }
    }

    /** Appends a character; fails exactly when the queue is full, and then changes no unread byte. */
    method Overflow(c: int) returns (r: Outcome, ret: int)
      requires Valid() && (c == EOF || 0 <= c < 256)
      modifies this
      ensures Valid()
      ensures r == LengthError <==> c != EOF && old(|Unread()|) == maxSize
      ensures c == EOF ==> unchanged(this) && ret != EOF
      ensures c != EOF && r == Done ==> Unread() == old(Unread()) + [c as byte] && ret == c
      ensures r == LengthError ==> gptr == 0 && Unread() == old(Unread())
      ensures c != EOF && r == Done ==>
                epptr == if old(pptr < epptr) then old(epptr)
                         else Max(old(epptr), Min(maxSize, old(|Unread()|) + 128))
    {
      if c != EOF {
        if pptr == epptr {
          var size := pptr - gptr;
          if size < maxSize && maxSize - size < BUFFER_DELTA {
            r := Reserve(maxSize - size);
          } else {
            r := Reserve(BUFFER_DELTA);
          }
          if r == LengthError {
            SlidByNothing(old(Unread()));
            return LengthError, EOF;
          }
        }
        AppendByte(buffer, gptr, pptr, c as byte);
        buffer := buffer[pptr := c as byte];
        pptr := pptr + 1;
        return Done, c;
      }
      return Done, 0;
    }

    /** std::streambuf::sputc */
    method Sputc(c: byte) returns (r: Outcome)
      requires Valid()
      modifies this
      ensures Valid()
      ensures r == LengthError <==> old(|Unread()|) == maxSize
      ensures Unread() == if r == Done then old(Unread()) + [c] else old(Unread())
      ensures r == LengthError ==> gptr == 0
      ensures old(pptr < epptr) ==> unchanged(`base, `gptr, `egptr, `epptr) && Spare() == old(Spare())[1..]
    {
      if pptr < epptr {
        AppendByte(buffer, gptr, pptr, c);
        AfterByte(buffer, pptr, epptr, c);
        buffer := buffer[pptr := c];
        pptr := pptr + 1;
        r := Done;
      } else {
        var ret;
        r, ret := Overflow(c as int);
      }
    }

    /** std::streambuf::sbumpc */
    method Sbumpc() returns (c: int)
      requires Valid()
      modifies this
      ensures Valid() && Spare() == old(Spare()) && unchanged(`buffer, `base, `pptr, `epptr)
      ensures if old(Unread()) == [] then c == EOF && Unread() == []
              else c == old(Unread())[0] as int && Unread() == old(Unread())[1..] && gptr == old(gptr) + 1
    {
      if gptr < pptr {
        Slices(buffer, gptr, gptr, pptr, 1);
      }
      if gptr < egptr {
        c := buffer[gptr] as int;
        gptr := gptr + 1;
      } else {
        c := Underflow();
        if c != EOF {
          gptr := gptr + 1;
        }
      }
    }

    /**
     read_size_helper, both forms: only the friend form looks at the vector's capacity.
     No subtraction underflows, and the result can be prepared.
     */
    method ReadSizeHelper(capacity: nat, useCapacity: bool, limit: nat) returns (n: nat)
      requires Valid() && capacity >= |buffer|
      ensures n <= limit && |Unread()| + n <= maxSize
      ensures n == 0 <==> limit == 0 || |Unread()| == maxSize
      ensures n <= 512 || (useCapacity && n <= capacity - |Unread()|)
      ensures n < limit && |Unread()| + n < maxSize ==> n >= 512 && (useCapacity ==> n >= capacity - |Unread()|)
    {
      var size := pptr - gptr;
      var room: nat := capacity - size;
      var left: nat := maxSize - size;
      n := Min(if useCapacity then Max(512, room) else 512, Min(limit, left));
    }

    /** The reading loop's use of the helper: preparing the suggested size never throws. */
    method PrepareForReading(capacity: nat, useCapacity: bool, limit: nat) returns (r: Outcome, start: nat, n: nat)
      requires Valid() && capacity >= |buffer|
      modifies this
      ensures Valid() && r == Done && Unread() == old(Unread()) && n <= limit && start + n <= epptr
    {
      n := ReadSizeHelper(capacity, useCapacity, limit);
      r, start := Prepare(n);
    }
  }

  // ---------- Every run ----------

  /** `PrepareFill(data)` is prepare(|data|) and writing `data` there. */
  datatype Op = Put(c: byte) | Get | PrepareFill(data: seq<byte>) | Commit(n: nat) | Drop(n: nat)

  /** The input sequence and the output sequence, and where they are: at offset `get` from address `base`. */
  datatype View = View(base: nat, get: nat, unread: seq<byte>, spare: seq<byte>)

  /** The bytes an operation appends to the input sequence. */
  function Added(v: View, op: Op): seq<byte> {
    match op
    case Put(c) => [c]
    case Commit(n) => v.spare[..Min(n, |v.spare|)]
    case _ => []
  }

  /** How many bytes it removes from the front. */
  function Removed(v: View, op: Op): (n: nat)
    ensures n <= |v.unread|
  {
    match op
    case Get => Min(1, |v.unread|)
    case Drop(n) => Min(n, |v.unread|)
    case _ => 0
  }

  function Reply(v: View, op: Op): int {
    match op
    case Put(c) => c as int
    case Get => if v.unread == [] then EOF else v.unread[0] as int
    case _ => 0
  }

  /** The operation takes `v` to `w`. */
  ghost predicate Follows(v: View, op: Op, w: View) {
    && w.unread == v.unread[Removed(v, op)..] + Added(v, op)
    && match op
       case Put(c) => v.spare != [] ==> w.spare == v.spare[1..]
       case PrepareFill(data) => data <= w.spare
       case Commit(n) => w.spare == v.spare[Min(n, |v.spare|)..]
       case _ => w.spare == v.spare
  }

  predicate Throws(v: View, maxSize: nat, op: Op) {
    match op
    case Put(c) => |v.unread| == maxSize
    case PrepareFill(data) => |v.unread| + |data| > maxSize
    case _ => false
  }

  /** The count of a commit or consume is out of range. */
  predicate Strays(v: View, op: Op) {
    var put := v.get + |v.unread|;
    match op
    case Commit(n) => !InRange(v.base, put, put + |v.spare|, n)
    case Drop(n) => !InRange(v.base, v.get, put, n)
    case _ => false
  }

  function ViewOf(sb: Streambuf): View
    reads sb
    requires sb.Valid()
  {
    View(sb.base, sb.gptr, sb.Unread(), sb.Spare())
  }

  predicate ProperOp(op: Op) {
    (op.Commit? || op.Drop?) ==> op.n < ADDRESSES
  }

  /** The operation takes `v` to `w`, neither throwing nor straying. */
  ghost predicate Smooth(v: View, maxSize: nat, op: Op, w: View) {
    !Throws(v, maxSize, op) && !Strays(v, op) && Follows(v, op, w)
  }

  ghost predicate SmoothAt(h: seq<View>, ops: seq<Op>, maxSize: nat, i: nat)
    requires i < |ops| && i + 1 < |h|
  {
    Smooth(h[i], maxSize, ops[i], h[i + 1])
  }

  datatype Ending = Finished | Threw | Strayed

  method ApplyCommit(sb: Streambuf, op: Op) returns (ending: Ending)
    requires sb.Valid() && ProperOp(op) && op.Commit?
    modifies sb
    ensures ending == if Strays(old(ViewOf(sb)), op) then Strayed else Finished
    ensures ending.Finished? ==> sb.Valid() && Smooth(old(ViewOf(sb)), sb.maxSize, op, ViewOf(sb))
  {
    ending := if Strays(ViewOf(sb), op) then Strayed else Finished;
    ghost var unread := sb.Unread();
    assert unread[0..] == unread;
    sb.Commit(op.n);
  }

  method ApplyDrop(sb: Streambuf, op: Op) returns (ending: Ending)
    requires sb.Valid() && ProperOp(op) && op.Drop?
    modifies sb
    ensures ending == if Strays(old(ViewOf(sb)), op) then Strayed else Finished
    ensures ending.Finished? ==> sb.Valid() && Smooth(old(ViewOf(sb)), sb.maxSize, op, ViewOf(sb))
  {
    ending := if Strays(ViewOf(sb), op) then Strayed else Finished;
    ghost var left := sb.Unread()[Min(op.n, |sb.Unread()|)..];
    assert left + [] == left;
    sb.Consume(op.n);
  }

  method Apply(sb: Streambuf, op: Op) returns (ending: Ending, reply: int)
    requires sb.Valid() && ProperOp(op)
    modifies sb
    ensures var v := old(ViewOf(sb));
            && ending == (if Throws(v, sb.maxSize, op) then Threw else if Strays(v, op) then Strayed else Finished)
            && (ending.Finished? ==> sb.Valid() && Smooth(v, sb.maxSize, op, ViewOf(sb)) && reply == Reply(v, op))
            && (ending.Threw? ==> sb.Valid() && sb.Unread() == Slid(v.unread, sb.gptr))
    ensures ending.Finished? && op.Put? ==> reply == op.c as int
    ensures op.Get? ==> reply == if |old(sb.Unread())| > 0 then old(sb.Unread())[0] as int else -1
  {
    ending, reply := Finished, 0;
    match op {
      case Put(c) =>
        var r := sb.Sputc(c);
        ending := if r == LengthError then Threw else Finished;
        reply := c as int;
        SlidByNothing(sb.Unread());
      case Get =>
        reply := sb.Sbumpc();
      case PrepareFill(data) =>
        var r, start := sb.Prepare(|data|);
        if r == LengthError {
          ending := Threw;
        } else {
          sb.Fill(data);
        }
      case Commit(_) =>
        ending := ApplyCommit(sb, op);
      case Drop(_) =>
        ending := ApplyDrop(sb, op);
    }
  }

  /** The views `h[0]`, `h[1]`, ... before and after each operation of a run, none of which threw or strayed. */
  ghost predicate History(h: seq<View>, ops: seq<Op>, maxSize: nat) {
    && |h| == |ops| + 1
    && (forall i | 0 <= i < |h| :: |h[i].unread| + |h[i].spare| <= maxSize)
    && forall i | 0 <= i < |ops| :: SmoothAt(h, ops, maxSize, i)
  }

  lemma HistoryGrows(h: seq<View>, ops: seq<Op>, maxSize: nat, op: Op, v: View)
    requires History(h, ops, maxSize) && |v.unread| + |v.spare| <= maxSize
    requires Smooth(h[|ops|], maxSize, op, v)
    ensures History(h + [v], ops + [op], maxSize)
  {
    var h', ops' := h + [v], ops + [op];
    forall i | 0 <= i < |ops'| ensures SmoothAt(h', ops', maxSize, i) {
      if i < |ops| {
        assert SmoothAt(h, ops, maxSize, i);
        assert h'[i] == h[i] && ops'[i] == ops[i] && h'[i + 1] == h[i + 1];
      }
    }
  }

  /**
   Every run of puts, gets, prepares, commits and consumes, in any order and with any counts, is a
   history: each operation does to input and output sequence what `Follows` says and replies so.
   It ends early exactly at an operation that throws or whose count is out of range.
   */
  method Run(sb: Streambuf, ops: seq<Op>) returns (done: nat, replies: seq<int>, ending: Ending, ghost h: seq<View>)
    requires sb.Valid() && forall i | 0 <= i < |ops| :: ProperOp(ops[i])
    modifies sb
    ensures done <= |ops| && History(h, ops[..done], sb.maxSize) && h[0] == old(ViewOf(sb))
    ensures |replies| == done && forall i | 0 <= i < done :: replies[i] == Reply(h[i], ops[i])
    ensures ending == if done == |ops| then Finished
                      else if Throws(h[done], sb.maxSize, ops[done]) then Threw else Strayed
    ensures ending.Finished? ==> sb.Valid() && h[done] == ViewOf(sb)
    ensures ending.Threw? ==> sb.Valid() && sb.Unread() == Slid(h[done].unread, sb.gptr)
    ensures ending.Strayed? ==> Strays(h[done], ops[done])
  {
    done, replies, ending := 0, [], Finished;
    h := [ViewOf(sb)];
    while done < |ops|
      invariant done <= |ops| && ending.Finished? && sb.Valid() && History(h, ops[..done], sb.maxSize)
      invariant h[0] == old(ViewOf(sb)) && h[done] == ViewOf(sb)
      invariant |replies| == done && forall i | 0 <= i < done :: replies[i] == Reply(h[i], ops[i])
    {
      var reply;
      ending, reply := Apply(sb, ops[done]);
      if ending != Finished {
        return;
      }
      HistoryGrows(h, ops[..done], sb.maxSize, ops[done], ViewOf(sb));
      assert ops[..done + 1] == ops[..done] + [ops[done]];
      h := h + [ViewOf(sb)];
      replies := replies + [reply];
      done := done + 1;
    }
  }

  // ---------- What every history keeps ----------

  function AllAdded(h: seq<View>, ops: seq<Op>, i: nat): seq<byte>
    requires i <= |ops| < |h|
  {
    if i == 0 then [] else AllAdded(h, ops, i - 1) + Added(h[i - 1], ops[i - 1])
  }

  function AllRemoved(h: seq<View>, ops: seq<Op>, i: nat): seq<byte>
    requires i <= |ops| < |h|
  {
    if i == 0 then [] else AllRemoved(h, ops, i - 1) + h[i - 1].unread[..Removed(h[i - 1], ops[i - 1])]
  }

  /** Bytes removed so far followed by the unread ones are the bytes committed or put so far, in order. */
  lemma {:induction false} Conservation(h: seq<View>, ops: seq<Op>, maxSize: nat, i: nat)
    requires History(h, ops, maxSize) && i <= |ops|
    ensures AllRemoved(h, ops, i) + h[i].unread == h[0].unread + AllAdded(h, ops, i)
    ensures |h[i].unread| <= maxSize
  {
    if i > 0 {
      Conservation(h, ops, maxSize, i - 1);
      var v, op := h[i - 1], ops[i - 1];
      assert SmoothAt(h, ops, maxSize, i - 1);
      MoveAcross(AllRemoved(h, ops, i - 1), v.unread, Removed(v, op),
                 h[0].unread, AllAdded(h, ops, i - 1), Added(v, op));
    }
  }

  lemma MoveAcross(removed: seq<byte>, queue: seq<byte>, k: nat, first: seq<byte>, added: seq<byte>, more: seq<byte>)
    requires k <= |queue| && removed + queue == first + added
    ensures (removed + queue[..k]) + (queue[k..] + more) == first + (added + more)
  {
    assert (removed + queue[..k]) + (queue[k..] + more) == (removed + queue) + more;
  }

  /** A queue and the bytes known to lie in front of the output sequence; `Unknown` once more is committed. */
  datatype Queue = Queue(bytes: seq<byte>, known: seq<byte>) | Unknown

  function QueueStep(q: Queue, op: Op): Queue {
    if q.Unknown? then q else
      match op
      case Put(c) => Queue(q.bytes + [c], q.known[Min(1, |q.known|)..])
      case Get => q.(bytes := q.bytes[Min(1, |q.bytes|)..])
      case PrepareFill(data) => q.(known := data)
      case Commit(n) => if n <= |q.known| then Queue(q.bytes + q.known[..n], q.known[n..]) else Unknown
      case Drop(n) => q.(bytes := q.bytes[Min(n, |q.bytes|)..])
  }

  function QueueAfter(ops: seq<Op>, i: nat): Queue
    requires i <= |ops|
  {
    if i == 0 then Queue([], []) else QueueStep(QueueAfter(ops, i - 1), ops[i - 1])
  }

  /**
   As long as no more is committed than was written into prepared space, also over several commits
   and with puts in between, an empty streambuf holds exactly what the queue of the operations holds;
   so its replies and throws, which depend on the unread bytes alone, are those of a bounded FIFO.
   */
  lemma {:induction false} HistoryIsFifo(h: seq<View>, ops: seq<Op>, maxSize: nat, i: nat)
    requires History(h, ops, maxSize) && i <= |ops| && h[0].unread == []
    ensures QueueAfter(ops, i).Queue? ==>
              h[i].unread == QueueAfter(ops, i).bytes && QueueAfter(ops, i).known <= h[i].spare
    ensures i < |ops| && ops[i].Get? && QueueAfter(ops, i).Queue? ==>
              var q := QueueAfter(ops, i).bytes; Reply(h[i], ops[i]) == if |q| > 0 then q[0] as int else -1
  {
    if i > 0 {
      HistoryIsFifo(h, ops, maxSize, i - 1);
      assert SmoothAt(h, ops, maxSize, i - 1);
      if QueueAfter(ops, i).Queue? {
        FollowsQueue(h[i - 1], ops[i - 1], h[i], QueueAfter(ops, i - 1));
      }
    }
  }

  lemma FollowsQueue(v: View, op: Op, w: View, q: Queue)
    requires q.Queue? && v.unread == q.bytes && q.known <= v.spare && Follows(v, op, w)
    ensures var q' := QueueStep(q, op); q'.Queue? ==> w.unread == q'.bytes && q'.known <= w.spare
  {
    if op.Commit? && op.n <= |q.known| {
      assert v.spare[..op.n] == q.known[..op.n];
      assert q.known[op.n..] == v.spare[op.n..][..|q.known| - op.n];
    }
  }

  // ---------- Where the code and its documentation part ----------

  /** The byte at `j` comes again `g` places later. */
  predicate RepeatsAt(s: seq<byte>, g: nat, j: nat)
    requires j + g < |s|
  {
    s[j] == s[j + g]
  }

  /** A throwing `prepare` keeps the unread bytes exactly when they repeat with the period of the get offset. */
  lemma FailedPrepareKeeps(unread: seq<byte>, g: nat)
    ensures Slid(unread, g) == unread <==> forall j: nat | j + g < |unread| :: RepeatsAt(unread, g, j)
  {
    var slid := Slid(unread, g);
    if j: nat :| j + g < |unread| && !RepeatsAt(unread, g, j) {
      assert slid[j] == unread[j + g] != unread[j];
    } else {
      forall j | 0 <= j < |unread| ensures slid[j] == unread[j] {
        assert j + g < |unread| ==> RepeatsAt(unread, g, j);
      }
    }
  }

  /** So it keeps any `size` unread bytes just when the get offset is 0 or at least `size`. */
  lemma FailedPrepareSafe(size: nat, g: nat)
    ensures (forall unread: seq<byte> | |unread| == size :: Slid(unread, g) == unread) <==> g == 0 || g >= size
  {
    if 0 < g < size {
      var other: seq<byte> := seq(size, j => if j == 0 then 1 else 0);
      assert Slid(other, g)[0] == other[g] != other[0];
    }
  }

  /** A streambuf with unread bytes 1, 2 at get offset 1. */
  method TwoUnread() returns (sb: Streambuf)
    ensures fresh(sb) && sb.Valid() && sb.maxSize == 3 && sb.gptr == 1 && sb.Unread() == [1, 2]
    ensures sb.buffer[..3] == [0, 1, 2] && sb.pptr == 3
  {
    sb := new Streambuf(3);
    var r := sb.Sputc(0);
    r := sb.Sputc(1);
    r := sb.Sputc(2);
    assert sb.Unread() == [0, 1, 2] && sb.gptr == 0;
    assert sb.buffer[..3] == sb.Unread();
    var c := sb.Sbumpc();
  }

  /** Concretely: unread bytes 1, 2 at get offset 1 read as 2, 2 after a throwing `prepare`. */
  method FailedPrepareDamages(n: nat) returns (sb: Streambuf, r: Outcome, ghost before: seq<byte>)
    requires n > 1
    ensures before == [1, 2] && r == LengthError
    ensures fresh(sb) && sb.Valid() && sb.gptr == 1 && sb.Unread() == [2, 2]
  {
    sb := TwoUnread();
    before := sb.Unread();
    var start;
    r, start := sb.Prepare(n);
  }

  /** Concretely: consuming all of the unread bytes 1, 2 with the largest count brings back the byte 0 before them. */
  method ConsumeAllRestores() returns (sb: Streambuf, ghost before: seq<byte>)
    ensures before == [1, 2]
    ensures fresh(sb) && sb.Valid() && sb.gptr == 0 && sb.Unread() == [0, 1, 2]
  {
    sb := TwoUnread();
    before := sb.Unread();
    LargestCountGoesBack(sb.base, 1, 3);
    sb.Consume(ADDRESSES - 1);
    assert sb.Unread() == sb.buffer[..3];
  }
}
