/**
 The packed member list of a configuration action: written by gcs/src/gcs_group.cpp and walked
 by garb/garb_recv_loop.cpp to find the id of the state-transfer donor.

 A member is three NUL-terminated strings and an 8-byte cached seqno, whose bytes may be zero.
 */
module MemberList {
  import opened Buffers

  const SEQNO_SIZE: nat := 8

  datatype Member = Member(id: seq<byte>, name: seq<byte>, addr: seq<byte>, seqno: seq<byte>)

  predicate NulFree(s: seq<byte>) {
    forall k | 0 <= k < |s| :: s[k] != 0
  }

  predicate Proper(m: Member) {
    NulFree(m.id) && NulFree(m.name) && NulFree(m.addr) && |m.seqno| == SEQNO_SIZE
  }

  predicate AllProper(ms: seq<Member>) {
    forall i | 0 <= i < |ms| :: Proper(ms[i])
  }

  function Packed(m: Member): (r: seq<byte>)
    ensures |r| == |m.id| + |m.name| + |m.addr| + 3 + |m.seqno|
  {
    m.id + [0] + m.name + [0] + m.addr + [0] + m.seqno
  }

  /** The first `i` members, one after the other. */
  function PackedUpTo(ms: seq<Member>, i: nat): seq<byte>
    requires i <= |ms|
  {
    if i == 0 then [] else PackedUpTo(ms, i - 1) + Packed(ms[i - 1])
  }

  lemma {:induction false} PackedPrefix(ms: seq<Member>, i: nat, j: nat)
    requires i <= j <= |ms|
    ensures PackedUpTo(ms, i) <= PackedUpTo(ms, j)
    decreases j
  {
    if i < j {
      PackedPrefix(ms, i, j - 1);
    }
  }

  /** The string `s` and its terminator lie at `p`. */
  ghost predicate StringAt(data: seq<byte>, p: nat, s: seq<byte>) {
    p + |s| < |data| && data[p + |s|] == 0 && forall k | 0 <= k < |s| :: data[p + k] == s[k]
  }

  /** The bytes `part` lie at `at`. */
  ghost predicate Holds(data: seq<byte>, at: nat, part: seq<byte>) {
    at + |part| <= |data| && forall k | 0 <= k < |part| :: data[at + k] == part[k]
  }

  /** Where the strings and the seqno of a member lie in its packed form. */
  lemma FieldsOfMember(m: Member)
    ensures StringAt(Packed(m), 0, m.id)
    ensures StringAt(Packed(m), |m.id| + 1, m.name)
    ensures StringAt(Packed(m), |m.id| + 1 + |m.name| + 1, m.addr)
    ensures Holds(Packed(m), |m.id| + 1 + |m.name| + 1 + |m.addr| + 1, m.seqno)
  {
  }

  lemma ConcatHolds(data: seq<byte>, front: seq<byte>, part: seq<byte>)
    requires front + part <= data
    ensures Holds(data, |front|, part)
  {
    forall k | 0 <= k < |part| ensures data[|front| + k] == part[k] {
      assert data[|front| + k] == (front + part)[|front| + k];
    }
  }

  lemma StringInside(data: seq<byte>, at: nat, part: seq<byte>, p: nat, s: seq<byte>)
    requires Holds(data, at, part) && StringAt(part, p, s)
    ensures StringAt(data, at + p, s)
  {
    assert data[at + (p + |s|)] == part[p + |s|];
    forall k | 0 <= k < |s| ensures data[at + p + k] == s[k] {
      assert data[at + (p + k)] == part[p + k];
    }
  }

  lemma BytesInside(data: seq<byte>, at: nat, part: seq<byte>, p: nat, s: seq<byte>)
    requires Holds(data, at, part) && Holds(part, p, s)
    ensures Holds(data, at + p, s)
  {
    forall k | 0 <= k < |s| ensures data[at + p + k] == s[k] {
      assert data[at + (p + k)] == part[p + k];
    }
  }

  /** A member lies at `p`: its three strings, each with its terminator, and the bytes of its seqno. */
  ghost predicate FieldsAt(data: seq<byte>, p: nat, m: Member) {
    && StringAt(data, p, m.id)
    && StringAt(data, p + |m.id| + 1, m.name)
    && StringAt(data, p + |m.id| + 1 + |m.name| + 1, m.addr)
    && Holds(data, p + |m.id| + 1 + |m.name| + 1 + |m.addr| + 1, m.seqno)
  }

  lemma MemberInside(data: seq<byte>, at: nat, m: Member)
    requires Holds(data, at, Packed(m))
    ensures FieldsAt(data, at, m)
  {
    FieldsOfMember(m);
    BytesInside(data, at, Packed(m), |m.id| + 1 + |m.name| + 1 + |m.addr| + 1, m.seqno);
    StringInside(data, at, Packed(m), 0, m.id);
    StringInside(data, at, Packed(m), |m.id| + 1, m.name);
    StringInside(data, at, Packed(m), |m.id| + 1 + |m.name| + 1, m.addr);
  }

  /** Member `i` of a packed list lies behind the members before it. */
  lemma MemberAt(data: seq<byte>, ms: seq<Member>, i: nat)
    requires i < |ms| && PackedUpTo(ms, |ms|) <= data
    ensures FieldsAt(data, |PackedUpTo(ms, i)|, ms[i])
    ensures |PackedUpTo(ms, i)| + |Packed(ms[i])| == |PackedUpTo(ms, i + 1)|
  {
    PackedPrefix(ms, i + 1, |ms|);
    ConcatHolds(data, PackedUpTo(ms, i), Packed(ms[i]));
    MemberInside(data, |PackedUpTo(ms, i)|, ms[i]);
  }

  /** group_memb_record_size */
  method RecordSize(ms: seq<Member>) returns (size: nat)
    requires AllProper(ms)
    ensures size == |PackedUpTo(ms, |ms|)|
  {
    size := 0;
    for i := 0 to |ms|
      invariant size == |PackedUpTo(ms, i)|
    {
      size := size + (|ms[i].id| + 1) + (|ms[i].name| + 1) + (|ms[i].addr| + 1) + SEQNO_SIZE;
    }
  }

  /** strlen: reads no byte past the terminator of the string at `p`. */
  method Strlen(data: seq<byte>, p: nat, ghost s: seq<byte>) returns (n: nat)
    requires NulFree(s) && StringAt(data, p, s)
    ensures n == |s|
  {
    n := 0;
    while data[p + n] != 0
      invariant n <= |s| && (n < |s| ==> data[p + n] == s[n] && s[n] != 0)
      decreases |s| - n
    {
      n := n + 1;
    }
  }

  /** Skips one member: three strings and the seqno. */
  method SkipMember(data: seq<byte>, p: nat, ghost m: Member) returns (q: nat)
    requires Proper(m) && FieldsAt(data, p, m)
    ensures q == p + (|m.id| + 1) + (|m.name| + 1) + (|m.addr| + 1) + 8 == p + |Packed(m)|
  {
    q := p;
    var n := Strlen(data, q, m.id);
    q := q + n + 1;
    n := Strlen(data, q, m.name);
    q := q + n + 1;
    n := Strlen(data, q, m.addr);
    q := q + n + 1;
    q := q + SEQNO_SIZE;
  }

  /**
   The walk of the receive loop over exactly the packed bytes: it stops at the first string of
   member `source`, or at the end when there is no such member.  Indexing is checked, so no byte
   past the packed data is read.
   */
  method Walk(data: seq<byte>, count: nat, source: int, ghost ms: seq<Member>) returns (p: nat, found: bool)
    requires AllProper(ms) && count == |ms| && data == PackedUpTo(ms, |ms|)
    ensures found <==> 0 <= source < count
    ensures found ==> FieldsAt(data, p, ms[source])
    ensures p == |PackedUpTo(ms, if found then source else count)|
  {
    p, found := 0, false;
    for i := 0 to count
      invariant p == |PackedUpTo(ms, i)| && !(0 <= source < i)
    {
      MemberAt(data, ms, i);
      if i == source {
        found := true;
        return;
      }
      assert Proper(ms[i]);
      p := SkipMember(data, p, ms[i]);
    }
  }

  /** How many of the first `i` members have an address, which an arbitrator has not. */
  function Addressed(ms: seq<Member>, i: nat): nat
    requires i <= |ms|
  {
    if i == 0 then 0 else Addressed(ms, i - 1) + if |ms[i - 1].addr| > 0 then 1 else 0
  }

  /** The walk with which the group connection counts the members that are no arbitrators. */
  method CountNonArbitrators(data: seq<byte>, count: nat, ghost ms: seq<Member>) returns (n: nat)
    requires AllProper(ms) && count == |ms| && data == PackedUpTo(ms, |ms|)
    ensures n == Addressed(ms, count)
  {
    n := 0;
    var p := 0;
    for i := 0 to count
      invariant p == |PackedUpTo(ms, i)| && n == Addressed(ms, i)
    {
      MemberAt(data, ms, i);
      ghost var m := ms[i];
      assert Proper(m);
      var len := Strlen(data, p, m.id);
      p := p + len + 1;
      len := Strlen(data, p, m.name);
      p := p + len + 1;
      assert |m.addr| > 0 ==> data[p + 0] == m.addr[0];
      if data[p] != 0 {
        n := n + 1;
      }
      len := Strlen(data, p, m.addr);
      p := p + len + 1 + SEQNO_SIZE;
    }
  }

  /** memcpy to `p`, behind the bytes `front`. */
  method PutBytes(data: array<byte>, p: nat, s: seq<byte>, ghost front: seq<byte>) returns (q: nat)
    requires p + |s| <= data.Length && data[..p] == front
    modifies data
    ensures q == p + |s| && data[..q] == front + s
    ensures forall a | q <= a < data.Length :: data[a] == old(data[a])
  {
    forall k | 0 <= k < |s| {
      data[p + k] := s[k];
    }
    q := p + |s|;
  }

  /** The packing of one member in gcs_group_act_conf: strcpy also copies the terminator. */
  method PackMember(data: array<byte>, p: nat, m: Member, ghost front: seq<byte>) returns (q: nat)
    requires p + |Packed(m)| <= data.Length && data[..p] == front
    modifies data
    ensures q == p + |Packed(m)| && data[..q] == front + Packed(m)
    ensures forall a | q <= a < data.Length :: data[a] == old(data[a])
  {
    q := PutBytes(data, p, m.id + [0], front);
    q := PutBytes(data, q, m.name + [0], front + (m.id + [0]));
    q := PutBytes(data, q, m.addr + [0], front + (m.id + [0]) + (m.name + [0]));
    q := PutBytes(data, q, m.seqno, front + (m.id + [0]) + (m.name + [0]) + (m.addr + [0]));
    assert front + (m.id + [0]) + (m.name + [0]) + (m.addr + [0]) + m.seqno == front + Packed(m);
  }

  /** The packing loop writes the members in order and nothing behind them. */
  method Pack(data: array<byte>, ms: seq<Member>) returns (p: nat)
    requires |PackedUpTo(ms, |ms|)| <= data.Length
    modifies data
    ensures p == |PackedUpTo(ms, |ms|)|
    ensures data[..p] == PackedUpTo(ms, |ms|) && data[p..] == old(data[p..])
  {
    p := 0;
    for i := 0 to |ms|
      invariant p == |PackedUpTo(ms, i)| <= data.Length
      invariant data[..p] == PackedUpTo(ms, i)
      invariant forall a | p <= a < data.Length :: data[a] == old(data[a])
    {
      PackedPrefix(ms, i + 1, |ms|);
      p := PackMember(data, p, ms[i], PackedUpTo(ms, i));
    }
  }

  /** The member at `p`, field by field. */
  method ReadMember(data: seq<byte>, p: nat, ghost m: Member) returns (r: Member, q: nat)
    requires Proper(m) && FieldsAt(data, p, m)
    ensures r == m && q == p + |Packed(m)|
  {
    q := p;
    var id, name, addr;
    id, q := ReadString(data, q, m.id);
    name, q := ReadString(data, q, m.name);
    addr, q := ReadString(data, q, m.addr);
    r := Member(id, name, addr, data[q..q + SEQNO_SIZE]);
    q := q + SEQNO_SIZE;
  }

  method ReadString(data: seq<byte>, p: nat, ghost s: seq<byte>) returns (r: seq<byte>, q: nat)
    requires NulFree(s) && StringAt(data, p, s)
    ensures r == s && q == p + |s| + 1
  {
    var n := Strlen(data, p, s);
    r, q := data[p..p + n], p + n + 1;
  }

  /** Reading all members of a packed list. */
  method Unpack(data: seq<byte>, count: nat, ghost ms: seq<Member>) returns (rs: seq<Member>)
    requires AllProper(ms) && count == |ms| && data == PackedUpTo(ms, |ms|)
    ensures rs == ms
  {
    rs := [];
    var p := 0;
    for i := 0 to count
      invariant p == |PackedUpTo(ms, i)| && |rs| == i && forall k | 0 <= k < i :: rs[k] == ms[k]
    {
      MemberAt(data, ms, i);
      assert Proper(ms[i]);
      var r;
      r, p := ReadMember(data, p, ms[i]);
      rs := rs + [r];
    }
  }

  /** What the group packs can be read back whole: every member with every field, in order. */
  method PackThenRead(ms: seq<Member>) returns (rs: seq<Member>)
    requires AllProper(ms)
    ensures rs == ms
  {
    var size := RecordSize(ms);
    var data := new byte[size];
    var p := Pack(data, ms);
    assert data[..] == PackedUpTo(ms, |ms|);
    rs := Unpack(data[..], |ms|, ms);
  }

  /** What the group packs, garbd finds: the donor's id, and its other fields, lie where the walk stops. */
  method PackThenFind(ms: seq<Member>, donor: nat) returns (id: seq<byte>, seqno: seq<byte>)
    requires AllProper(ms) && donor < |ms|
    ensures id == ms[donor].id && seqno == ms[donor].seqno
  {
    var size := RecordSize(ms);
    var data := new byte[size];
    var p := Pack(data, ms);
    assert data[..] == PackedUpTo(ms, |ms|);
    var q, found := Walk(data[..], |ms|, donor, ms);
    assert Proper(ms[donor]);
    var r;
    r, q := ReadMember(data[..], q, ms[donor]);
    id, seqno := r.id, r.seqno;
  }
}
