/** Cutting the received bytes into messages.

    Both ends read whatever the socket gives and then parse what is complete.  `Parse`
    is the loop as a function; the main result is that the cuts between reads do not
    show in what is parsed. */
module Frames {
  import opened Wrappers
  import opened Words
  import opened RingBuffers
  import opened Connections

  /** What one message does to the receiver: its new state, and whether to go on.  The
      header and the message are given separately, as the size field may be wrong. */
  type Handler<!S> = (S, seq<Byte>, seq<Byte>) -> (S, bool)

  datatype Parsed<S> = Parsed(state: S, rest: seq<Byte>, stopped: bool)

  function FrameSize(s: seq<Byte>): (n: nat)
    requires |s| >= 8
    ensures n < 0x1_0000
  {
    ReadWord(s[4..8]) / 0x1_0000
  }

  /** The parse loop on the bytes that are pending. */
  function Parse<S>(h: Handler<S>, st: S, s: seq<Byte>): (p: Parsed<S>)
    decreases |s|
  {
    if |s| < 8 || |s| < FrameSize(s) then Parsed(st, s, false)
    else
      var n := FrameSize(s);
      var (st', ok) := h(st, s[..8], s[..n]);
      if !ok then Parsed(st', [], true)
      else if n == 0 then Parsed(st', s, false)
      else Parse(h, st', s[n..])
  }

  /** A stream of complete messages of 8 to 4096 bytes. */
  predicate WellFormed(s: seq<Byte>)
    decreases |s|
  {
    s == [] || (|s| >= 8 && 8 <= FrameSize(s) <= SIZE && FrameSize(s) <= |s| && WellFormed(s[FrameSize(s)..]))
  }

  /** Parsing a first part, then the rest together with what follows, is parsing both;
      the rest of the first part is less than one message. */
  lemma {:induction false} ParseTwoReads<S>(h: Handler<S>, st: S, a: seq<Byte>, b: seq<Byte>, tail: seq<Byte>)
    requires WellFormed(a + b + tail)
    ensures var p := Parse(h, st, a);
            Parse(h, st, a + b) == if p.stopped then p else Parse(h, p.state, p.rest + b)
    ensures var p := Parse(h, st, a);
            !p.stopped ==> |p.rest| < SIZE && WellFormed(p.rest + b + tail) && Parse(h, p.state, p.rest) == p
    decreases |a|
  {
    if |a| >= 8 {
      var n := FrameSize(a);
      assert (a + b)[4..8] == a[4..8] && (a + b + tail)[4..8] == a[4..8];
      if |a| >= n {
        var (st', ok) := h(st, a[..8], a[..n]);
        assert (a + b)[..8] == a[..8] && (a + b)[..n] == a[..n];
        assert (a + b)[n..] == a[n..] + b && (a + b + tail)[n..] == a[n..] + b + tail;
        if ok {
          ParseTwoReads(h, st', a[n..], b, tail);
        }
      }
    }
  }

  /** Parsing after every read, until a message stops the receiver. */
  function ParseReads<S>(h: Handler<S>, p: Parsed<S>, chunks: seq<seq<Byte>>): (r: Parsed<S>)
    decreases |chunks|
  {
    if chunks == [] || p.stopped then p
    else ParseReads(h, Parse(h, p.state, p.rest + chunks[0]), chunks[1..])
  }

  /** Every way of splitting a well-formed stream into reads gives what parsing the whole
      stream gives, with nothing left over. */
  lemma {:induction false} SplittingDoesNotShow<S>(h: Handler<S>, st: S, pending: seq<Byte>, chunks: seq<seq<Byte>>)
    requires WellFormed(pending + Concat(chunks)) && Parse(h, st, pending) == Parsed(st, pending, false)
    ensures ParseReads(h, Parsed(st, pending, false), chunks) == Parse(h, st, pending + Concat(chunks))
    ensures ParseReads(h, Parsed(st, pending, false), chunks).rest == []
    decreases |chunks|
  {
    if chunks == [] {
      assert pending + Concat(chunks) == pending;
      WellFormedLeavesNothing(h, st, pending);
    } else {
      var a, tail := pending + chunks[0], Concat(chunks[1..]);
      assert pending + Concat(chunks) == a + tail == a + tail + [];
      ParseTwoReads(h, st, a, tail, []);
      var p := Parse(h, st, a);
      if p.stopped {
        WellFormedLeavesNothing(h, st, a + tail);
      } else {
        assert p.rest + tail == p.rest + tail + [];
        SplittingDoesNotShow(h, p.state, p.rest, chunks[1..]);
      }
    }
  }

  lemma {:induction false} WellFormedLeavesNothing<S>(h: Handler<S>, st: S, s: seq<Byte>)
    requires WellFormed(s)
    ensures Parse(h, st, s).rest == []
    decreases |s|
  {
    if s != [] {
      var n := FrameSize(s);
      var (st', ok) := h(st, s[..8], s[..n]);
      if ok {
        WellFormedLeavesNothing(h, st', s[n..]);
      }
    }
  }

  // -------------------------------------------------------------- the two loops

  /** A receiver that refuses a message shorter than its header, as demarshalling does. */
  ghost predicate RefusesShort<S(!new)>(h: Handler<S>) {
    forall st, header, message :: |message| < 8 ==> !h(st, header, message).1
  }

  /** Looks at the header of the pending bytes and, if it is complete, at the message. */
  method Peek(b: RingBuffer) returns (size: nat, header: seq<Byte>, message: seq<Byte>)
    requires b.Valid() && b.Size() >= 8
    ensures var s := b.Contents();
            && size == FrameSize(s) && header == s[..8]
            && (size <= |s| ==> message == s[..size])
  {
    header := b.Copy(8);
    assert header[4..8] == b.Contents()[4..8];
    size := FrameSize(header);
    message := [];
    if size <= b.Size() {
      message := b.Copy(size);
    }
  }

  /** The server's loop: it asks again how much is pending after every message. */
  method ServerLoop<S(!new)>(b: RingBuffer, h: Handler<S>, st0: S, total: nat) returns (st: S, stopped: bool)
    requires b.Valid() && total == b.Size() && RefusesShort(h)
    modifies b`tail
    ensures b.Valid()
    ensures Parse(h, st0, old(b.Contents())) == Parsed(st, if stopped then [] else b.Contents(), stopped)
  {
    st := st0;
    var len := total;
    while len >= 8
      invariant b.Valid() && len == b.Size()
      invariant Parse(h, st0, old(b.Contents())) == Parse(h, st, b.Contents())
      decreases len
    {
      var size, header, message := Peek(b);
      if len < size {
        return st, false;
      }
      var (st', ok) := h(st, header, message);
      st := st';
      b.Consume(size);
      if !ok {
        return st, true;
      }
      len := b.Size();
    }
    return st, false;
  }

  /** The client's loop: it counts down what it has parsed, and leaves an empty message
      where it is. */
  method ClientLoop<S>(b: RingBuffer, h: Handler<S>, st0: S, total: nat) returns (st: S, stopped: bool)
    requires b.Valid() && total == b.Size()
    modifies b`tail
    ensures b.Valid()
    ensures Parse(h, st0, old(b.Contents())) == Parsed(st, if stopped then [] else b.Contents(), stopped)
  {
    st := st0;
    var rem := total;
    while rem >= 8
      invariant b.Valid() && rem == b.Size()
      invariant Parse(h, st0, old(b.Contents())) == Parse(h, st, b.Contents())
      decreases rem
    {
      var size, header, message := Peek(b);
      if rem < size {
        return st, false;
      }
      var (st', ok) := h(st, header, message);
      st := st';
      b.Consume(size);
      if !ok {
        return st, true;
      }
      if size == 0 {
        return st, false;
      }
      rem := rem - size;
    }
    return st, false;
  }

  /** Either loop, on the input of a connection. */
  method ParsePending<S(!new)>(c: Connection, h: Handler<S>, st0: S, total: nat, client: bool)
    returns (st: S, stopped: bool)
    requires c.Valid() && total == c.input.Size() && (client || RefusesShort(h))
    modifies c.input`tail
    ensures c.Valid()
    ensures Parse(h, st0, old(c.input.Contents())) == Parsed(st, if stopped then [] else c.input.Contents(), stopped)
  {
    if client {
      st, stopped := ClientLoop(c.input, h, st0, total);
    } else {
      st, stopped := ServerLoop(c.input, h, st0, total);
    }
  }

  /** One round of a receiver: a read, and the parse loop on what is then pending. */
  method ReadAndParse<S(!new)>(c: Connection, h: Handler<S>, st0: S, client: bool)
    returns (st: S, stopped: bool, gone: bool, ghost bytes: seq<Byte>)
    requires c.Valid() && (client || RefusesShort(h))
    modifies c`account, c.input, c.input.data, c.fdsIn, c.fdsIn.data
    modifies c.kernel`incoming, c.kernel`received, c.kernel`closed
    ensures c.Valid()
    ensures gone ==> st == st0 && !stopped && bytes == [] && c.input.Contents() == old(c.input.Contents())
    ensures bytes == [] ==> st == st0 && !stopped && c.input.Contents() == old(c.input.Contents())
    ensures !gone ==> old(c.kernel.incoming) == bytes + c.kernel.incoming
    ensures bytes != [] ==>
              Parse(h, st0, old(c.input.Contents()) + bytes)
              == Parsed(st, if stopped then [] else c.input.Contents(), stopped)
  {
    var r;
    ghost var cmsgs;
    r, bytes, cmsgs := c.Read();
    if r == Err(EAGAIN) {
      return st0, false, false, bytes;
    } else if r.Err? || r.value == 0 {
      return st0, false, true, [];
    }
    gone := false;
    st, stopped := ParsePending(c, h, st0, r.value, client);
  }

  /** A receiver at work: any number of reads, each followed by the parse loop, until the
      peer is gone, a read fails, or a message stops it.  On a well-formed stream the
      state is that of parsing all received bytes at once, and there is always room to
      read more. */
  method Serve<S(!new)>(c: Connection, h: Handler<S>, st0: S, client: bool, rounds: nat)
    returns (st: S, stopped: bool, ghost received: seq<Byte>)
    requires c.Valid() && c.input.Contents() == [] && WellFormed(c.kernel.incoming)
    requires client || RefusesShort(h)
    modifies c`account, c.input, c.input.data, c.fdsIn, c.fdsIn.data
    modifies c.kernel`incoming, c.kernel`received, c.kernel`closed
    ensures c.Valid() && received <= old(c.kernel.incoming)
    ensures var p := Parse(h, st0, received);
            p.stopped == stopped && p.state == st
    ensures !stopped ==> c.input.Size() < SIZE
  {
    st, stopped, received := st0, false, [];
    ghost var whole := c.kernel.incoming;
    for i := 0 to rounds
      invariant c.Valid() && !stopped && received + c.kernel.incoming == whole
      invariant Parse(h, st0, received) == Parsed(st, c.input.Contents(), false)
      invariant c.input.Size() < SIZE
    {
      ghost var before, bytes := received, [];
      var gone;
      st, stopped, gone, bytes := ReadAndParse(c, h, st, client);
      if gone {
        return;
      }
      received := received + bytes;
      NextRound(h, st0, before, bytes, c.kernel.incoming, whole,
                Parsed(st, if stopped then [] else c.input.Contents(), stopped));
      if stopped {
        return;
      }
    }
  }

  /** After one more round, the state is still that of parsing all received bytes. */
  lemma NextRound<S>(h: Handler<S>, st: S, received: seq<Byte>, bytes: seq<Byte>, incoming: seq<Byte>,
                     whole: seq<Byte>, after: Parsed<S>)
    requires WellFormed(whole) && whole == received + (bytes + incoming) && !Parse(h, st, received).stopped
    requires var p := Parse(h, st, received);
             if bytes == [] then after == p else after == Parse(h, p.state, p.rest + bytes)
    ensures Parse(h, st, received + bytes) == after && (received + bytes) + incoming == whole
    ensures !after.stopped ==> |after.rest| < SIZE
  {
    assert whole == received + bytes + incoming == (received + bytes) + incoming + [];
    ParseTwoReads(h, st, received, bytes, incoming);
    ParseTwoReads(h, st, received + bytes, incoming, []);
    assert bytes == [] ==> received + bytes == received;
  }
}
