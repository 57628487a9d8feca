/**
 The data path of a socket iostream's buffer (asio/asio/basic_socket_streambuf.hpp).

 The socket is an environment: a send accepts any positive number of the offered bytes or
 fails, a receive hands over any positive number of bytes or fails, and the expiry timer
 may fire during either.  What each call does is read from arbitrary functions of a step
 counter, so every statement here holds for every behaviour of the network.
 */
module SocketStreambuf {
  import opened Buffers
  import T = SocketTimer

  const PUTBACK_MAX: nat := 8
  const BUFFER_SIZE: nat := 512
  const EOF: int := -1
  const NO_ERROR: int := 0
  const OPERATION_ABORTED: int := 125

  datatype Result = Ok(n: nat) | Error(code: int)

  /** What a flush does: how many bytes it sends, the step and the expiry flag it ends with, and the error. */
  datatype Flushed = Flushed(sent: nat, step: nat, expired: bool, ec: int)

  function Ahead(n: nat, f: Flushed): Flushed {
    f.(sent := n + f.sent)
  }

  /** The first `n` bytes are sent, and `data` is left. */
  ghost predicate Sent(before: seq<byte>, all: seq<byte>, n: nat, data: seq<byte>, accepted: seq<byte>) {
    n + |data| == |all| && data == all[n..] && accepted == before + all[..n]
  }

  lemma SentMore(before: seq<byte>, all: seq<byte>, n: nat, data: seq<byte>, accepted: seq<byte>, k: nat)
    requires Sent(before, all, n, data, accepted) && k <= |data|
    ensures Sent(before, all, n + k, data[k..], accepted + data[..k])
  {
    assert all[..n] + all[n..][..k] == all[..n + k];
  }

  lemma FirstAndRest(a: array<byte>, i: nat, j: nat)
    requires i < j <= a.Length
    ensures a[i..j] == [a[i]] + a[i + 1..j]
  {
  }

  class Network {
    const results: nat -> Result
    const incoming: (nat, nat) -> byte
    const timerFires: nat -> bool
    var step: nat
    /** All bytes the socket has taken for sending, and all bytes it has handed over. */
    ghost var accepted: seq<byte>
    ghost var handed: seq<byte>

    constructor (results: nat -> Result, incoming: (nat, nat) -> byte, timerFires: nat -> bool)
      ensures this.results == results && this.incoming == incoming && this.timerFires == timerFires
      ensures step == 0 && accepted == [] && handed == []
    {
      this.results, this.incoming, this.timerFires := results, incoming, timerFires;
      step, accepted, handed := 0, [], [];
    }

    /** Between two steps a call failed or the timer fired. */
    ghost predicate Trouble(from: nat, to: nat) {
      exists k: nat | from <= k < to :: results(k).Error? || timerFires(k)
    }

    /** How many of `offered` bytes a call at step `s` transfers when it succeeds. */
    function Taken(s: nat, offered: nat): (n: nat)
      requires offered > 0 && results(s).Ok?
      ensures 0 < n <= offered
    {
      if results(s).n == 0 then 1 else Min(results(s).n, offered)
    }

    /** From step `s` on, no call fails and the timer does not fire before the one taking the last of `left` bytes. */
    predicate FlushSucceeds(s: nat, left: nat, expired: bool)
      decreases left
    {
      left == 0 ||
      (!expired && results(s).Ok? && FlushSucceeds(s + 1, left - Taken(s, left), timerFires(s)))
    }

    /** The error code of a call that fails; a socket reports no success then. */
    function Code(s: nat): (c: int)
      requires results(s).Error?
      ensures c != NO_ERROR && (results(s).code != NO_ERROR ==> c == results(s).code)
    {
      if results(s).code == NO_ERROR then OPERATION_ABORTED else results(s).code
    }

    /** Flushing `left` bytes from step `s` on. */
    function Flush(s: nat, left: nat, expired: bool): (f: Flushed)
      ensures s <= f.step && f.sent <= left
      decreases left
    {
      if left == 0 then Flushed(0, s, expired, NO_ERROR)
      else if expired then Flushed(0, s, expired, OPERATION_ABORTED)
      else if results(s).Error? then Flushed(0, s + 1, timerFires(s), Code(s))
      else
        var n := Taken(s, left);
        Ahead(n, Flush(s + 1, left - n, timerFires(s)))
    }

    /** A timer that fires during a call ends the flush after it, unless the call takes the last bytes. */
    lemma FiringEndsFlush(s: nat, left: nat)
      requires left > 0 && results(s).Ok? && timerFires(s) && Taken(s, left) < left
      ensures Flush(s, left, false) == Flushed(Taken(s, left), s + 1, true, OPERATION_ABORTED)
      ensures !FlushSucceeds(s, left, false)
    {
    }

    /** A failing call ends it at once, with the code of that call. */
    lemma FailureEndsFlush(s: nat, left: nat)
      requires left > 0 && results(s).Error? && results(s).code != NO_ERROR
      ensures Flush(s, left, false) == Flushed(0, s + 1, timerFires(s), results(s).code)
    {
    }

    /** Two bytes: the first call takes one, the second fails; and later a call takes both. */
    lemma PartialFlush()
      requires results(0) == Ok(1) && results(1) == Error(104) && results(2) == Ok(2)
      requires !timerFires(0) && !timerFires(1)
      ensures Flush(0, 2, false) == Flushed(1, 2, false, 104) && FlushSucceeds(2, 2, false)
    {
      assert Flush(1, 1, false) == Flushed(0, 2, false, 104);
    }

    lemma {:induction false} FlushSendsAll(s: nat, left: nat, expired: bool)
      ensures Flush(s, left, expired).sent == left <==> FlushSucceeds(s, left, expired)
      decreases left
    {
      if left > 0 && !expired && results(s).Ok? {
        FlushSendsAll(s + 1, left - Taken(s, left), timerFires(s));
      }
    }

    /** A flush fails, or ends with the timer expired, only after trouble. */
    lemma {:induction false} FlushTrouble(s: nat, left: nat, expired: bool)
      ensures var f := Flush(s, left, expired);
              f.sent < left || f.expired ==> expired || Trouble(s, f.step)
      decreases left
    {
      if left > 0 && !expired && results(s).Ok? {
        var n := Taken(s, left);
        var rest := Flush(s + 1, left - n, timerFires(s));
        FlushTrouble(s + 1, left - n, timerFires(s));
        if rest.sent < left - n || rest.expired {
          assert timerFires(s) || Trouble(s + 1, rest.step);
          assert Trouble(s, rest.step);
        }
      }
    }

    method Send(data: seq<byte>) returns (ec: int, n: nat, fired: bool)
      requires |data| > 0
      modifies this
      ensures handed == old(handed) && step == old(step) + 1 && fired == timerFires(old(step))
      ensures ec == NO_ERROR <==> results(old(step)).Ok?
      ensures results(old(step)).Error? ==> ec == Code(old(step))
      ensures if ec == NO_ERROR then n == Taken(old(step), |data|) && accepted == old(accepted) + data[..n]
              else n == 0 && accepted == old(accepted)
    {
      fired := timerFires(step);
      match results(step) {
        case Ok(k) =>
          ec, n := NO_ERROR, Taken(step, |data|);
          accepted := accepted + data[..n];
        case Error(code) =>
          ec, n := Code(step), 0;
      }
      step := step + 1;
    }

    method Receive(limit: nat) returns (ec: int, data: seq<byte>, fired: bool)
      requires limit > 0
      modifies this
      ensures accepted == old(accepted) && handed == old(handed) + data
      ensures step == old(step) + 1 && fired == timerFires(old(step))
      ensures ec == NO_ERROR <==> results(old(step)).Ok?
      ensures results(old(step)).Error? ==> ec == Code(old(step))
      ensures if ec == NO_ERROR then 0 < |data| <= limit else data == []
    {
      fired := timerFires(step);
      match results(step) {
        case Ok(k) =>
          ec := NO_ERROR;
          var s := step;
          data := seq(Taken(step, limit), i requires 0 <= i => incoming(s, i));
          handed := handed + data;
        case Error(code) =>
          ec, data := Code(step), [];
      }
      step := step + 1;
    }
  }

  class SocketStreambuf {
    const net: Network
    const getBuffer: array<byte>
    const putBuffer: array<byte>
    var gptr: nat
    var egptr: nat
    /** Put area: pbase is 0; after switching to unbuffered both pointers are 0. */
    var pptr: nat
    var epptr: nat
    var unbuffered: bool
    var ec: int
    /** timer_state_ */
    var timer: T.State

    ghost predicate Valid()
      reads this
    {
      && getBuffer != putBuffer && getBuffer.Length == putBuffer.Length == BUFFER_SIZE
      && PUTBACK_MAX <= gptr <= egptr <= BUFFER_SIZE
      && pptr <= epptr && epptr == (if unbuffered then 0 else BUFFER_SIZE)
    }

    predicate TimerExpired()
      reads this
    {
      timer == T.HasExpired
    }

    /** Bytes written and not yet sent. */
    ghost function Pending(): seq<byte>
      reads this, putBuffer
      requires Valid()
    {
      putBuffer[..pptr]
    }

    /** Bytes received and not yet read. */
    ghost function Available(): seq<byte>
      reads this, getBuffer
      requires Valid()
    {
      getBuffer[gptr..egptr]
    }

    /** How many bytes an overflow with `c` sends. */
    ghost function Load(c: int): nat
      reads this
    {
      if !unbuffered then pptr else if c == EOF then 0 else 1
    }

    constructor (network: Network)
      ensures Valid() && net == network && !unbuffered && Pending() == [] && Available() == []
      ensures ec == NO_ERROR && !TimerExpired()
      ensures getBuffer.Length == putBuffer.Length == epptr == 512 && gptr == egptr == 8
      ensures fresh(getBuffer) && fresh(putBuffer)
    {
      net := network;
      getBuffer := new byte[BUFFER_SIZE];
      putBuffer := new byte[BUFFER_SIZE];
      gptr, egptr, pptr, epptr := PUTBACK_MAX, PUTBACK_MAX, 0, BUFFER_SIZE;
      unbuffered, ec, timer := false, NO_ERROR, T.NoTimer;
    }

    method InitBuffers()
      requires Valid()
      modifies `gptr, `egptr, `pptr, `epptr
      ensures Valid() && Pending() == [] && Available() == []
    {
      gptr, egptr := PUTBACK_MAX, PUTBACK_MAX;
      if unbuffered {
        pptr, epptr := 0, 0;
      } else {
        pptr, epptr := 0, BUFFER_SIZE;
      }
    }

    /** One round of the flush: offers the bytes left, unless the timer has expired. */
    method SendSome(data: seq<byte>) returns (ok: bool, n: nat)
      requires data != []
      modifies `ec, `timer, net
      ensures n <= |data| && (ok <==> n > 0) && (ok <==> ec == NO_ERROR)
      ensures net.handed == old(net.handed) && net.accepted == old(net.accepted) + data[..n]
      ensures old(net.Flush(net.step, |data|, TimerExpired())) ==
                if ok then Ahead(n, net.Flush(net.step, |data| - n, TimerExpired()))
                else Flushed(0, net.step, TimerExpired(), ec)
      ensures old(TimerExpired()) ==> ec == OPERATION_ABORTED
    {
      if TimerExpired() {
        ec := OPERATION_ABORTED;
        return false, 0;
      }
      var fired;
      ec, n, fired := net.Send(data);
      if fired {
        timer := T.HasExpired;
      }
      return ec == NO_ERROR, n;
    }

    /** One round as part of the flush `whole`, which has sent `sent` bytes of `all` before. */
    method SendRound(data: seq<byte>, ghost all: seq<byte>, ghost sent: nat, ghost before: seq<byte>,
                     ghost whole: Flushed)
      returns (ok: bool, rest: seq<byte>, ghost sent': nat)
      requires data != [] && Sent(before, all, sent, data, net.accepted)
      requires whole == Ahead(sent, net.Flush(net.step, |data|, TimerExpired()))
      modifies `ec, `timer, net
      ensures net.handed == old(net.handed) && Sent(before, all, sent', rest, net.accepted)
      ensures ok ==> |rest| < |data| && sent' > sent && !old(TimerExpired()) && ec == NO_ERROR
      ensures ok ==> whole == Ahead(sent', net.Flush(net.step, |rest|, TimerExpired()))
      ensures !ok ==> whole == Flushed(sent, net.step, TimerExpired(), ec) && sent' == sent && ec != NO_ERROR
      ensures !ok && old(TimerExpired()) ==> ec == OPERATION_ABORTED
    {
      var n;
      ok, n := SendSome(data);
      SentMore(before, all, sent, data, old(net.accepted), n);
      rest, sent' := data[n..], sent + n;
    }

    /** The loop of the flush: it ends when all bytes are sent, a call fails or the timer has expired. */
    method SendAll(all: seq<byte>) returns (ok: bool)
      modifies `ec, `timer, net
      ensures var f := old(net.Flush(net.step, |all|, TimerExpired()));
              && (ok <==> f.sent == |all|) && net.step == f.step && TimerExpired() == f.expired
              && (all != [] ==> ec == f.ec)
              && net.accepted == old(net.accepted) + all[..f.sent]
      ensures net.handed == old(net.handed)
      ensures all != [] ==> (ok <==> ec == NO_ERROR)
      ensures old(TimerExpired()) && all != [] ==> ec == OPERATION_ABORTED
    {
      var data := all;
      ghost var sent, before := 0, net.accepted;
      ghost var whole := net.Flush(net.step, |all|, TimerExpired());
      while data != []
        invariant Sent(before, all, sent, data, net.accepted) && net.handed == old(net.handed)
        invariant whole == Ahead(sent, net.Flush(net.step, |data|, TimerExpired()))
        invariant if sent == 0 then TimerExpired() == old(TimerExpired()) else !old(TimerExpired()) && ec == NO_ERROR
        decreases |data|
      {
        var sending;
        sending, data, sent := SendRound(data, all, sent, before, whole);
        if !sending {
          return false;
        }
      }
      return true;
    }

    /**
     Flushes and appends `c`.  Success delivers all pending bytes in order.  Failure delivers
     a prefix of them and leaves the put area as it was.  The network alone decides which.
     */
    method Overflow(c: int) returns (r: int)
      requires Valid() && (c == EOF || 0 <= c < 256)
      modifies this, net, putBuffer
      ensures Valid() && unbuffered == old(unbuffered) && net.handed == old(net.handed)
      ensures gptr == old(gptr) && egptr == old(egptr)
      ensures r != EOF && !unbuffered ==> net.accepted == old(net.accepted + Pending())
      ensures r != EOF && !unbuffered ==> Pending() == if c == EOF then [] else [c as byte]
      ensures r != EOF && unbuffered ==> net.accepted == old(net.accepted) + if c == EOF then [] else [c as byte]
      ensures r != EOF ==> r == if c == EOF then 0 else c
      ensures r == EOF ==> Pending() == old(Pending()) && ec != NO_ERROR && (unbuffered ==> c != EOF)
      ensures r == EOF ==> old(net.accepted) <= net.accepted <= old(net.accepted + Pending())
      ensures r == EOF && !unbuffered ==> |net.accepted| < old(|net.accepted + Pending()|)
      ensures unbuffered ==> Pending() == []
      ensures r != EOF && (if unbuffered then c != EOF else old(Pending()) != []) ==> ec == NO_ERROR
      ensures var f := old(net.Flush(net.step, Load(c), TimerExpired()));
              && (r != EOF <==> f.sent == old(Load(c)))
              && net.step == f.step && TimerExpired() == f.expired && (old(Load(c)) > 0 ==> ec == f.ec)
              && (!unbuffered ==> net.accepted == old(net.accepted) + old(Pending())[..f.sent])
      ensures r == EOF ==> old(TimerExpired()) || net.Trouble(old(net.step), net.step)
      ensures old(net.step) <= net.step
      ensures TimerExpired() ==> old(TimerExpired()) || net.Trouble(old(net.step), net.step)
      ensures old(TimerExpired()) && (if unbuffered then c != EOF else old(Pending()) != []) ==>
                r == EOF && ec == OPERATION_ABORTED && net.accepted == old(net.accepted)
    {
      net.FlushTrouble(net.step, Load(c), TimerExpired());
      if unbuffered {
        if c == EOF {
          return 0;
        }
        if TimerExpired() {
          ec := OPERATION_ABORTED;
          return EOF;
        }
        var n, fired;
        ec, n, fired := net.Send([c as byte]);
        if fired {
          timer := T.HasExpired;
        }
        if ec != NO_ERROR {
          return EOF;
        }
        return c;
      }
      var flushed := SendAll(putBuffer[..pptr]);
      if !flushed {
        return EOF;
      }
      pptr, epptr := 0, BUFFER_SIZE;
      if c == EOF {
        return 0;
      }
      putBuffer[pptr] := c as byte;
      pptr := pptr + 1;
      return c;
    }

    /** Returns 0, or -1 when the flush fails. */
    method Sync() returns (r: int)
      requires Valid()
      modifies this, net, putBuffer
      ensures Valid() && unbuffered == old(unbuffered) && net.handed == old(net.handed)
      ensures gptr == old(gptr) && egptr == old(egptr)
      ensures r == 0 || r == EOF
      ensures r == 0 ==> net.accepted == old(net.accepted + Pending()) && Pending() == []
      ensures r == EOF ==> Pending() == old(Pending()) && !unbuffered
      ensures r == EOF ==> old(net.accepted) <= net.accepted < old(net.accepted + Pending())
      ensures r == 0 <==> old(net.FlushSucceeds(net.step, |Pending()|, TimerExpired()))
      ensures var f := old(net.Flush(net.step, |Pending()|, TimerExpired()));
              && net.step == f.step && TimerExpired() == f.expired && (r == EOF ==> ec == f.ec)
              && net.accepted == old(net.accepted) + old(Pending())[..f.sent]
      ensures r == EOF ==> old(TimerExpired()) || net.Trouble(old(net.step), net.step)
      ensures old(net.step) <= net.step
      ensures TimerExpired() ==> old(TimerExpired()) || net.Trouble(old(net.step), net.step)
    {
      ghost var p := Pending();
      net.FlushSendsAll(net.step, |p|, TimerExpired());
      r := Overflow(EOF);
      if unbuffered {
        assert old(net.accepted) + p == old(net.accepted);
      }
    }

    /** Switches to unbuffered mode, which is refused while bytes are pending. */
    method SetBuf(isNull: bool, n: int) returns (ok: bool)
      requires Valid()
      modifies `unbuffered, `pptr, `epptr
      ensures Valid() && Pending() == old(Pending()) && Available() == old(Available())
      ensures ok <==> isNull && n == 0 && Pending() == []
      ensures unbuffered == (ok || old(unbuffered))
    {
      if pptr == 0 && isNull && n == 0 {
        unbuffered := true;
        pptr, epptr := 0, 0;
        return true;
      }
      return false;
    }

    /** std::streambuf::sputc: a successful put adds one byte behind everything written before. */
    method Sputc(c: byte) returns (r: int)
      requires Valid()
      modifies this, net, putBuffer
      ensures Valid() && unbuffered == old(unbuffered) && net.handed == old(net.handed)
      ensures gptr == old(gptr) && egptr == old(egptr)
      ensures r != EOF ==> net.accepted + Pending() == old(net.accepted + Pending()) + [c]
      ensures old(pptr < epptr) ==> r == c as int && unchanged(net) && Pending() == old(Pending()) + [c]
      ensures old(pptr < epptr) ==> TimerExpired() == old(TimerExpired())
      ensures r == EOF ==> Pending() == old(Pending())
      ensures r == EOF ==> old(net.accepted) <= net.accepted <= old(net.accepted + Pending())
      ensures r == EOF ==> old(TimerExpired()) || net.Trouble(old(net.step), net.step)
      ensures old(net.step) <= net.step
      ensures TimerExpired() ==> old(TimerExpired()) || net.Trouble(old(net.step), net.step)
    {
      if pptr < epptr {
        putBuffer[pptr] := c;
        pptr := pptr + 1;
        r := c as int;
        assert Pending() == old(Pending()) + [c];
      } else {
        r := Overflow(c as int);
      }
    }

    /** Fills an empty get area from the socket, behind the putback bytes. */
    method Underflow() returns (r: int)
      requires Valid()
      modifies this, net, getBuffer
      ensures Valid() && unbuffered == old(unbuffered) && net.accepted == old(net.accepted)
      ensures pptr == old(pptr) && epptr == old(epptr)
      ensures old(Available()) != [] ==> r == EOF && Available() == old(Available()) && net.handed == old(net.handed)
      ensures old(Available()) == [] ==> net.handed == old(net.handed) + Available()
      ensures old(Available()) == [] ==> if r == EOF then Available() == [] && ec != NO_ERROR
                                         else Available() != [] && r == Available()[0] as int
      ensures old(TimerExpired()) && old(Available()) == [] ==> r == EOF && ec == OPERATION_ABORTED
      ensures old(Available()) == [] ==>
                (r == EOF <==> old(TimerExpired()) || net.results(old(net.step)).Error?)
      ensures old(Available()) == [] && r == EOF ==>
                ec == if old(TimerExpired()) then OPERATION_ABORTED else net.Code(old(net.step))
      ensures old(Available()) == [] && r == EOF ==> old(TimerExpired()) || net.Trouble(old(net.step), net.step)
      ensures old(net.step) <= net.step
      ensures TimerExpired() ==> old(TimerExpired()) || net.Trouble(old(net.step), net.step)
    {
      if gptr != egptr {
        return EOF;
      }
      if TimerExpired() {
        ec := OPERATION_ABORTED;
        return EOF;
      }
      var data, fired;
      ec, data, fired := net.Receive(BUFFER_SIZE - PUTBACK_MAX);
      if fired {
        timer := T.HasExpired;
      }
      if ec != NO_ERROR {
        return EOF;
      }
      forall i | 0 <= i < |data| {
        getBuffer[PUTBACK_MAX + i] := data[i];
      }
      gptr, egptr := PUTBACK_MAX, PUTBACK_MAX + |data|;
      assert Available() == data;
      return getBuffer[gptr] as int;
    }

    method Take() returns (r: int)
      requires Valid() && gptr < egptr
      modifies `gptr
      ensures Valid() && 0 <= r < 256 && [r as byte] + Available() == old(Available())
    {
      FirstAndRest(getBuffer, gptr, egptr);
      r := getBuffer[gptr] as int;
      gptr := gptr + 1;
    }

    /** std::streambuf::sbumpc: reading takes the bytes handed over by the socket in order, none twice. */
    method Sbumpc() returns (r: int)
      requires Valid()
      modifies this, net, getBuffer
      ensures Valid() && unbuffered == old(unbuffered) && net.accepted == old(net.accepted)
      ensures pptr == old(pptr) && epptr == old(epptr)
      ensures old(net.handed) <= net.handed
      ensures r == EOF ==> old(Available()) == Available() == [] && net.handed == old(net.handed)
      ensures r == EOF <==>
                old(Available()) == [] && (old(TimerExpired()) || net.results(old(net.step)).Error?)
      ensures r == EOF ==> ec == if old(TimerExpired()) then OPERATION_ABORTED else net.Code(old(net.step))
      ensures r == EOF ==> old(TimerExpired()) || net.Trouble(old(net.step), net.step)
      ensures old(net.step) <= net.step
      ensures TimerExpired() ==> old(TimerExpired()) || net.Trouble(old(net.step), net.step)
      ensures r == EOF || 0 <= r < 256
      ensures r != EOF ==> [r as byte] + Available() == old(Available()) + net.handed[|old(net.handed)|..]
    {
      if gptr == egptr {
        r := Underflow();
        if r == EOF {
          return;
        }
        assert net.handed[|old(net.handed)|..] == Available();
      } else {
        assert net.handed[|old(net.handed)|..] == [];
      }
      r := Take();
    }

    /** expires_at, as `SocketTimer.ExpiresAt` changes the state; `passed` tells whether that time has passed. */
    method ExpiresAt(passed: bool)
      modifies `timer
      ensures old(timer) == T.IsPending ==> timer == T.IsPending
      ensures old(timer) != T.IsPending ==> timer == if passed then T.HasExpired else T.IsPending
    {
      if timer != T.IsPending {
        timer := if passed then T.HasExpired else T.IsPending;
      }
    }

    /**
     Flushes and closes.  The result tells only whether the socket closed: when the flush failed
     it is still a success, and the unsent bytes are dropped.  That is so exactly when the network
     does not let the flush succeed.
     */
    method Close(closeError: int) returns (ok: bool)
      requires Valid()
      modifies this, net, putBuffer
      ensures Valid() && ok == (closeError == NO_ERROR)
      ensures old(net.accepted) <= net.accepted <= old(net.accepted + Pending())
      ensures net.accepted == old(net.accepted + Pending()) <==>
                old(net.FlushSucceeds(net.step, |Pending()|, TimerExpired()))
      ensures net.accepted ==
                old(net.accepted + Pending()[..net.Flush(net.step, |Pending()|, TimerExpired()).sent])
      ensures net.accepted == old(net.accepted + Pending()) || old(TimerExpired())
              || net.Trouble(old(net.step), net.step)
      ensures Pending() == if ok || net.accepted == old(net.accepted + Pending()) then [] else old(Pending())
    {
      ghost var all := net.accepted + Pending();
      var r := Sync();
      ec := closeError;
      if ec == NO_ERROR {
        InitBuffers();
      }
      return ec == NO_ERROR;
    }
  }

  // ---------- Every run within one connection ----------

  /** `Expire` sets an expiry time, which has passed already or not. */
  datatype Op = Put(c: byte) | Flush | Unbuffer | Get | Expire(passed: bool)

  /** One of the first `n` operations sets an expiry time that has passed. */
  ghost predicate ExpiredByThen(ops: seq<Op>, n: nat)
    requires n <= |ops|
  {
    exists i | 0 <= i < n :: ops[i] == Expire(true)
  }

  function Written(ops: seq<Op>, i: nat): seq<byte>
    requires i <= |ops|
  {
    if i == 0 then [] else
      match ops[i - 1]
      case Put(c) => Written(ops, i - 1) + [c]
      case _ => Written(ops, i - 1)
  }

  /**
   One operation: adds its byte behind all others, or fails with all pending bytes kept; and what it
   reads is the first of the bytes received and not read before.
   */
  method Apply(sb: SocketStreambuf, op: Op) returns (failed: bool, read: seq<byte>)
    requires sb.Valid()
    modifies sb, sb.net, sb.putBuffer, sb.getBuffer
    ensures sb.Valid() && old(sb.net.step) <= sb.net.step
    ensures !failed ==> sb.net.accepted + sb.Pending()
                        == old(sb.net.accepted + sb.Pending()) + if op.Put? then [op.c] else []
    ensures failed ==> sb.Pending() == old(sb.Pending())
    ensures failed ==> old(sb.net.accepted) <= sb.net.accepted <= old(sb.net.accepted + sb.Pending())
    ensures failed ==> old(sb.TimerExpired()) || sb.net.Trouble(old(sb.net.step), sb.net.step)
    ensures sb.TimerExpired() ==> op == Expire(true) || old(sb.TimerExpired())
                                  || sb.net.Trouble(old(sb.net.step), sb.net.step)
    ensures op == Expire(false) ==> !sb.TimerExpired()
    ensures |read| == if op.Get? && !failed then 1 else 0
    ensures old(sb.net.handed) <= sb.net.handed
    ensures read + sb.Available() == old(sb.Available()) + sb.net.handed[|old(sb.net.handed)|..]
  {
    failed, read := false, [];
    ghost var handed := sb.net.handed;
    match op {
      case Put(c) =>
        var r := sb.Sputc(c);
        failed := r == EOF;
      case Flush =>
        var r := sb.Sync();
        failed := r == EOF;
      case Unbuffer =>
        var ok := sb.SetBuf(true, 0);
      case Get =>
        var r := sb.Sbumpc();
        failed := r == EOF;
        read := if failed then [] else [r as byte];
      case Expire(passed) =>
        sb.ExpiresAt(passed);
    }
    assert !op.Get? ==> sb.net.handed[|handed|..] == [];
  }

  /**
   For any pattern of partial sends and receives: as long as no operation fails, the bytes accepted
   by the socket followed by the pending ones are all bytes written, in order, buffered or not; and
   always the bytes read followed by the available ones are all bytes the socket handed over.
   A failing operation keeps the bytes and repeats those it had sent: they are accepted and still
   pending.  An operation fails only when a call failed, or the timer fired or was set to a time passed.
   */
  method Run(sb: SocketStreambuf, ops: seq<Op>)
    returns (done: nat, failed: bool, read: seq<byte>, ghost repeated: nat)
    requires sb.Valid() && sb.net.accepted == [] && sb.Pending() == []
    requires sb.net.handed == sb.Available()
    modifies sb, sb.net, sb.putBuffer, sb.getBuffer
    ensures sb.Valid() && done <= |ops| && (failed <==> done < |ops|)
    ensures repeated <= |sb.net.accepted| && repeated <= |sb.Pending()|
    ensures sb.net.accepted + sb.Pending()[repeated..] == Written(ops, done)
    ensures sb.net.accepted[|sb.net.accepted| - repeated..] == sb.Pending()[..repeated]
    ensures !failed ==> repeated == 0
    ensures failed ==> old(sb.TimerExpired()) || ExpiredByThen(ops, done)
                       || sb.net.Trouble(old(sb.net.step), sb.net.step)
    ensures read + sb.Available() == sb.net.handed
  {
    done, failed, read, repeated := 0, false, [], 0;
    while done < |ops|
      invariant done <= |ops| && sb.Valid() && old(sb.net.step) <= sb.net.step
      invariant sb.net.accepted + sb.Pending() == Written(ops, done)
      invariant read + sb.Available() == sb.net.handed
      invariant sb.TimerExpired() ==> old(sb.TimerExpired()) || ExpiredByThen(ops, done)
                                      || sb.net.Trouble(old(sb.net.step), sb.net.step)
    {
      ghost var before, pending, available, handed := sb.net.accepted, sb.Pending(), sb.Available(), sb.net.handed;
      var more;
      failed, more := Apply(sb, ops[done]);
      ReadOn(read, more, available, sb.Available(), handed, sb.net.handed);
      read := read + more;
      if failed {
        repeated := |sb.net.accepted| - |before|;
        Repeats(before, pending, sb.net.accepted);
        return;
      }
      done := done + 1;
    }
  }

  lemma Repeats(before: seq<byte>, pending: seq<byte>, accepted: seq<byte>)
    requires before <= accepted <= before + pending
    ensures var k := |accepted| - |before|;
            && k <= |pending| && accepted[|accepted| - k..] == pending[..k]
            && accepted + pending[k..] == before + pending
  {
    var k := |accepted| - |before|;
    assert accepted == (before + pending)[..|before| + k];
    assert accepted + pending[k..] == before + pending;
  }

  lemma ReadOn(read: seq<byte>, more: seq<byte>, before: seq<byte>, after: seq<byte>, was: seq<byte>, handed: seq<byte>)
    requires was <= handed && read + before == was && more + after == before + handed[|was|..]
    ensures (read + more) + after == handed
  {
    assert (read + more) + after == read + (more + after);
    assert read + (before + handed[|was|..]) == was + handed[|was|..];
  }

  // ---------- Where the code parts from what a caller expects ----------

  /** Retrying a flush that failed delivers the bytes the first one had sent twice. */
  method RetryAfterFailedFlush(sb: SocketStreambuf) returns (first: int, second: int)
    requires sb.Valid()
    modifies sb, sb.net, sb.putBuffer
    ensures sb.Valid()
    ensures var pending, f := old(sb.Pending()), old(sb.net.Flush(sb.net.step, |sb.Pending()|, sb.TimerExpired()));
            && (first == 0 || first == EOF) && (first == 0 <==> f.sent == |pending|)
            && (first == 0 ==> second == 0 && sb.net.accepted == old(sb.net.accepted) + pending)
            && (first == EOF ==> (second == 0 <==> sb.net.FlushSucceeds(f.step, |pending|, f.expired)))
            && (first == EOF && second == 0 ==>
                  sb.net.accepted == old(sb.net.accepted) + pending[..f.sent] + pending && sb.Pending() == [])
  {
    first := sb.Sync();
    second := 0;
    if first == EOF {
      second := sb.Sync();
    }
  }

  /** Concretely: of the bytes 1, 2 the first flush sends one before it fails, and the socket gets 1, 1, 2. */
  method RetryDuplicates() returns (sb: SocketStreambuf, first: int, second: int)
    ensures fresh(sb) && fresh(sb.net) && sb.Valid() && first == EOF && second == 0
    ensures sb.net.accepted == [1, 1, 2] && sb.Pending() == []
  {
    var results: nat -> Result := s => if s == 0 then Ok(1) else if s == 1 then Error(104) else Ok(2);
    var net := new Network(results, (s, i) => 0, s => false);
    sb := new SocketStreambuf(net);
    net.PartialFlush();
    var r := sb.Sputc(1);
    r := sb.Sputc(2);
    assert sb.Pending() == [1, 2];
    first, second := RetryAfterFailedFlush(sb);
  }

  /** Concretely: the byte 1 is neither sent nor pending after a close that succeeds. */
  method CloseLoses() returns (sb: SocketStreambuf, ok: bool, ghost before: seq<byte>)
    ensures fresh(sb) && fresh(sb.net) && sb.Valid() && before == [1] && ok
    ensures sb.net.accepted == [] && sb.Pending() == []
  {
    var net := new Network(s => Error(1), (s, i) => 0, s => false);
    sb := new SocketStreambuf(net);
    var r := sb.Sputc(1);
    before := sb.Pending();
    ok := sb.Close(NO_ERROR);
  }
}
