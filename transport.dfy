/**
 * The TCP connection the client talks through, seen only as far as the
 * client uses it: it is open or closed, it records every buffer written to
 * it, each `Write` is taken or refused as the peer decides, and each `Read`
 * returns whatever the peer delivers next, cut to the size of the caller's
 * buffer. The bytes a `Read` does not take stay in the stream for the next one.
 */
module Transport {
  import opened Wrappers
  import opened Bytes

  /** What the peer makes the next `Read` see: some bytes, or a failure (reset, timeout, end of stream). */
  datatype Delivery = Chunk(data: seq<byte>) | Broken

  /**
   * The observable state of a connection. `accepts` says how the coming
   * writes on the open connection end, one entry per write: `true` taken,
   * `false` refused (peer reset, broken pipe). Writes past its end are taken.
   */
  datatype Link = Link(open: bool, incoming: seq<Delivery>, accepts: seq<bool>, sent: seq<seq<byte>>)

  /** The bytes the peer has yet to deliver, in order. */
  function Pending(incoming: seq<Delivery>): seq<byte> {
    if incoming == [] then []
    else (if incoming[0].Chunk? then incoming[0].data else []) + Pending(incoming[1..])
  }

  /** Whether the next write is taken: the connection is open and the peer does not refuse it. */
  predicate WriteAccepted(l: Link) {
    l.open && (l.accepts == [] || l.accepts[0])
  }

  /**
   * `Write`: a closed connection fails at once; on an open one the write uses
   * up one entry of `accepts`, and either takes the whole buffer or fails and
   * records nothing. The connection stays open either way.
   */
  function SendStep(l: Link, payload: seq<byte>): (Link, bool) {
    if !l.open then (l, false)
    else
      var rest := if l.accepts == [] then [] else l.accepts[1..];
      if WriteAccepted(l) then (l.(accepts := rest, sent := l.sent + [payload]), true)
      else (l.(accepts := rest), false)
  }

  /**
   * `Read` into a buffer of `capacity` bytes: a closed connection fails; an
   * open one asked for zero bytes returns none at once and consumes nothing;
   * an exhausted one fails; a failure delivery is consumed and fails; a
   * chunk fills at most the buffer and leaves the rest for later.
   */
  function ReceiveStep(l: Link, capacity: nat): (Link, Option<seq<byte>>) {
    if !l.open then (l, None)
    else if capacity == 0 then (l, Some([]))
    else if l.incoming == [] then (l, None)
    else match l.incoming[0]
      case Broken => (l.(incoming := l.incoming[1..]), None)
      case Chunk(data) =>
        if |data| <= capacity then (l.(incoming := l.incoming[1..]), Some(data))
        else (l.(incoming := [Chunk(data[capacity..])] + l.incoming[1..]), Some(data[..capacity]))
  }

  /** A write never touches what is still to be read, and sends exactly one buffer when it succeeds. */
  lemma SendStepSpec(l: Link, payload: seq<byte>)
    ensures var (l', ok) := SendStep(l, payload);
      && (ok <==> WriteAccepted(l))
      && l'.open == l.open && l'.incoming == l.incoming
      && l'.sent == (if ok then l.sent + [payload] else l.sent)
      && (!l.open ==> l' == l)
  {
  }

  /**
   * A live connection can refuse a write: an open connection whose peer
   * refuses the next write fails it, logs nothing and stays open, and a
   * later write it does not refuse is taken.
   */
  lemma WriteRefusedWhileOpen(l: Link, first: seq<byte>, second: seq<byte>)
    requires l.open && |l.accepts| >= 2 && !l.accepts[0] && l.accepts[1]
    ensures var (l1, ok1) := SendStep(l, first);
      var (l2, ok2) := SendStep(l1, second);
      && !ok1 && l1.open && l1.sent == l.sent
      && ok2 && l2.sent == l.sent + [second]
  {
    assert SendStep(l, first).0.accepts == l.accepts[1..];
  }

  /**
   * A read loses no bytes and reorders none: what it returns, followed by
   * what is still pending, is what was pending before; it returns no more
   * than the buffer holds; and it neither writes nor opens or closes.
   */
  lemma ReceiveStepSpec(l: Link, capacity: nat)
    ensures var (l', got) := ReceiveStep(l, capacity);
      && l'.open == l.open && l'.sent == l.sent
      && (got.Some? ==> |got.value| <= capacity && Pending(l.incoming) == got.value + Pending(l'.incoming))
      && (got.None? ==> Pending(l'.incoming) == Pending(l.incoming))
      && (got.Some? <==> l.open && (capacity == 0 || (l.incoming != [] && l.incoming[0].Chunk?)))
      && (l.open && capacity == 0 ==> l' == l && got == Some([]))
  {
    if l.open && capacity > 0 && l.incoming != [] {
      var rest := l.incoming[1..];
      match l.incoming[0]
      case Broken =>
      case Chunk(data) =>
        if |data| > capacity {
          var more := [Chunk(data[capacity..])] + rest;
          assert more[0] == Chunk(data[capacity..]) && more[1..] == rest;
          assert Pending(more) == data[capacity..] + Pending(rest);
          assert data == data[..capacity] + data[capacity..];
        }
    }
  }

  /**
   * The two directions of the stream are independent: a write, taken or
   * refused, changes neither what the next read returns nor what it leaves
   * pending, and the read leaves the write's log and outcomes as they were.
   */
  lemma WriteThenRead(l: Link, payload: seq<byte>, capacity: nat)
    ensures var sentState := SendStep(l, payload).0;
      var after := ReceiveStep(sentState, capacity);
      && after.1 == ReceiveStep(l, capacity).1
      && after.0 == ReceiveStep(l, capacity).0.(accepts := sentState.accepts, sent := sentState.sent)
  {
  }

  /** An open connection whose peer has a chunk ready hands over some of it when the buffer has room. */
  lemma ReceiveStepProgress(l: Link, capacity: nat)
    requires l.open && l.incoming != [] && l.incoming[0].Chunk? && capacity > 0 && l.incoming[0].data != []
    ensures ReceiveStep(l, capacity).1.Some? && ReceiveStep(l, capacity).1.value != []
  {
  }

  /** The `net.TCPConn` the client holds; its fields change as it is written, read and closed. */
  class Connection {
    var open: bool
    var incoming: seq<Delivery>
    var accepts: seq<bool>
    var sent: seq<seq<byte>>

    function State(): Link
      reads this
    {
      Link(open, incoming, accepts, sent)
    }

    /**
     * A freshly dialled connection: open, nothing written; `incoming` is what
     * the peer will answer and `accepts` how it will take the coming writes.
     */
    constructor (incoming: seq<Delivery>, accepts: seq<bool>)
      ensures State() == Link(true, incoming, accepts, [])
    {
      this.open := true;
      this.incoming := incoming;
      this.accepts := accepts;
      this.sent := [];
    }

    method Write(payload: seq<byte>) returns (ok: bool)
      modifies this
      ensures (State(), ok) == SendStep(old(State()), payload)
    {
      if !open {
        return false;
      }
      ok := accepts == [] || accepts[0];
      if accepts != [] {
        accepts := accepts[1..];
      }
      if ok {
        sent := sent + [payload];
      }
    }

    /**
     * Reads into `buf`: `n` bytes are copied to its front and the rest of
     * `buf` is left as it was.
     */
    method Read(buf: array<byte>) returns (n: nat, ok: bool)
      modifies this, buf
      ensures var (l, got) := ReceiveStep(old(State()), buf.Length);
        && State() == l
        && ok == got.Some?
        && n <= buf.Length
        && (ok ==> buf[..n] == got.value)
        && (!ok ==> n == 0)
      ensures buf[n..] == old(buf[n..])
    {
      if !open {
        return 0, false;
      }
      if buf.Length == 0 {
        return 0, true;
      }
      if incoming == [] {
        return 0, false;
      }
      match incoming[0]
      case Broken =>
        incoming := incoming[1..];
        return 0, false;
      case Chunk(data) =>
        n := if |data| <= buf.Length then |data| else buf.Length;
        var i := 0;
        while i < n
          modifies buf
          invariant 0 <= i <= n
          invariant buf[..i] == data[..i]
          invariant buf[i..] == old(buf[i..])
        {
          buf[i] := data[i];
          i := i + 1;
          assert buf[..i] == buf[..i - 1] + [data[i - 1]];
        }
        assert data[..n] == (if |data| <= buf.Length then data else data[..buf.Length]);
        if |data| <= buf.Length {
          incoming := incoming[1..];
        } else {
          incoming := [Chunk(data[n..])] + incoming[1..];
        }
        ok := true;
    }

    /** `Close`: later writes and reads fail; what was written stays written. */
    method Close()
      modifies this
      ensures State() == old(State()).(open := false)
    {
      open := false;
    }
  }
}
