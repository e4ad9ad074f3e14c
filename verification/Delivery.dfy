/** The whole way of a stream of closures: encoded one after the other, sent in packets with
    their fds, received in reads that cut the packets anywhere, framed and decoded. */
module Delivery {
  import opened Wrappers
  import opened ObjectMap
  import opened Words
  import opened RingBuffers
  import opened Connections
  import opened Signatures
  import opened Frames
  import opened Closures

  /** A receiver: the closures it has got, the received fds it has not used, and its map. */
  datatype Receiver<T> = Receiver(closures: seq<Closure>, fds: seq<Fd>, objects: ObjectMap<T>)

  /** What a receiver is: how it finds the signature of a message, given the closures it has
      got, its map, the sender and the opcode; and what becomes of the map before the next
      message is decoded, when handlers and the application bind and free ids. */
  datatype Behaviour<!T> = Behaviour(
    signature: (seq<Closure>, ObjectMap<T>, Word, Word) -> string,
    react: (seq<Closure>, ObjectMap<T>) -> ObjectMap<T>)

  /** What a receiver does with one message. */
  function DecodeMessage<T>(peer: Behaviour<T>, st: Receiver<T>, message: seq<Byte>): (r: (Receiver<T>, bool)) {
    if |message| < 8 then (st, false)
    else
      var sender, opcode := ReadWord(message[..4]), ReadWord(message[4..8]) % 0x1_0000;
      var signature := peer.signature(st.closures, st.objects, sender, opcode);
      if Refused(message, signature) then (st, false)
      else
        var d := Decode(message, Arguments(signature), st.fds, st.objects);
        if d.error.Some? then (Receiver(st.closures, d.fds, d.objects), false)
        else
          var got := st.closures + [ClosureOf(message, signature, d.values)];
          (Receiver(got, d.fds, peer.react(got, d.objects)), true)
  }

  function Decoder<T>(peer: Behaviour<T>): Handler<Receiver<T>> {
    (st, header, message) => DecodeMessage(peer, st, message)
  }

  /** A receiver at work: after every read, whose bytes and fds join what is pending, it
      parses what is complete.  A read for whose fds there is no room fails, and with it the
      receiver. */
  function ParseRounds<T>(peer: Behaviour<T>, st: Receiver<T>, rounds: seq<Packet>): (p: Parsed<Receiver<T>>)
    decreases |rounds|
  {
    if rounds == [] then Parsed(st, [], false)
    else
      var p, r := ParseRounds(peer, st, rounds[..|rounds| - 1]), rounds[|rounds| - 1];
      if p.stopped then p
      else if |p.state.fds| + |r.fds| > FD_SLOTS then p.(stopped := true)
      else Parse(Decoder(peer), p.state.(fds := p.state.fds + r.fds), p.rest + r.bytes)
  }

  // ------------------------------------------------------------------ closures

  /** The values as they are on the wire: objects by their ids. */
  function OnTheWire(vals: seq<Value>): (r: seq<Value>) {
    if vals == [] then []
    else
      var v := match vals[0] case Object(o) => Id(if o.Some? then o.value else 0) case v => v;
      [v] + OnTheWire(vals[1..])
  }

  /** With its own fds first in line, a closure is delivered as it was sent. */
  lemma {:induction false} DeliveredAsSent(vals: seq<Value>, rest: seq<Fd>)
    ensures Delivered(vals, Handles(vals) + rest) == OnTheWire(vals)
  {
    if vals != [] {
      DeliveredAsSent(vals[1..], rest);
      HandlesRest(vals, rest);
    }
  }

  lemma HandlesRest(vals: seq<Value>, rest: seq<Fd>)
    requires vals != []
    ensures var fds := Handles(vals) + rest;
            if vals[0].Handle? then fds[0] == vals[0].fd && fds[1..] == Handles(vals[1..]) + rest
            else fds == Handles(vals[1..]) + rest
  {
    var tail := Handles(vals[1..]);
    if vals[0].Handle? {
      Front(vals[0].fd, tail, rest);
    } else {
      assert [] + tail == tail;
    }
  }

  lemma Front(x: Fd, tail: seq<Fd>, rest: seq<Fd>)
    ensures ([x] + tail + rest)[0] == x && ([x] + tail + rest)[1..] == tail + rest
  {
  }

  /** The closures that arrive when these are sent. */
  function Arriving(cs: seq<Closure>): (r: seq<Closure>) {
    if cs == [] then []
    else
      var c := cs[|cs| - 1];
      Arriving(cs[..|cs| - 1]) + [Closure(c.sender, c.opcode, c.signature, OnTheWire(c.values))]
  }

  /** The receiver's map when it has reserved the new ids of these closures and reacted to
      each of them. */
  function ObjectsAfter<T>(peer: Behaviour<T>, cs: seq<Closure>, m: ObjectMap<T>): (r: Result<ObjectMap<T>>) {
    if cs == [] then Ok(m)
    else
      match ObjectsAfter(peer, cs[..|cs| - 1], m)
      case Err(e) => Err(e)
      case Ok(m') =>
        match ReserveAll(cs[|cs| - 1].values, m')
        case Err(e) => Err(e)
        case Ok(m'') => Ok(peer.react(Arriving(cs), m''))
  }

  /** This message is this closure, with its fds. */
  ghost predicate Carries(m: Message, c: Closure) {
    EncodesMessage(m.bytes, c) && |m.bytes| <= SIZE && c.opcode < 0x1_0000 && m.fds == Handles(c.values)
  }

  /** A receiver that has got these closures and has this map takes the closure's message to
      be of the signature it was sent with. */
  predicate Understands<T>(peer: Behaviour<T>, got: seq<Closure>, m: ObjectMap<T>, c: Closure) {
    && c.signature == peer.signature(got, m, c.sender, c.opcode) && |Arguments(c.signature)| <= MAX_ARGS
    && AllSendable(c.values, Arguments(c.signature))
  }

  /** When its turn comes, closure i is understood, and its new ids can be reserved. */
  predicate UnderstoodInTurn<T>(peer: Behaviour<T>, cs: seq<Closure>, m: ObjectMap<T>, i: nat)
    requires i < |cs|
  {
    match ObjectsAfter(peer, cs[..i], m)
    case Err(_) => false
    case Ok(m') => Understands(peer, Arriving(cs[..i]), m', cs[i]) && ReserveAll(cs[i].values, m').Ok?
  }

  ghost predicate AllCarried(msgs: seq<Message>, cs: seq<Closure>) {
    |cs| == |msgs| && forall i :: 0 <= i < |cs| ==> Carries(msgs[i], cs[i])
  }

  ghost predicate AllSentAs<T>(peer: Behaviour<T>, cs: seq<Closure>, msgs: seq<Message>, m: ObjectMap<T>) {
    AllCarried(msgs, cs) && forall i :: 0 <= i < |cs| ==> UnderstoodInTurn(peer, cs, m, i)
  }

  lemma ReservedBefore<T>(peer: Behaviour<T>, cs: seq<Closure>, msgs: seq<Message>, m: ObjectMap<T>, k: nat)
    requires AllSentAs(peer, cs, msgs, m) && k <= |cs|
    ensures ObjectsAfter(peer, cs[..k], m).Ok?
  {
    if k > 0 {
      assert UnderstoodInTurn(peer, cs, m, k - 1);
      assert cs[..k][..k - 1] == cs[..k - 1];
    }
  }

  /** One message, whose fds are the next in line, gives the closure that was sent. */
  lemma OneDelivered<T>(peer: Behaviour<T>, c: Closure, m: Message, st: Receiver<T>)
    requires Carries(m, c) && Understands(peer, st.closures, st.objects, c)
    requires m.fds <= st.fds && ReserveAll(c.values, st.objects).Ok?
    ensures var got := st.closures + [Closure(c.sender, c.opcode, c.signature, OnTheWire(c.values))];
            DecodeMessage(peer, st, m.bytes)
            == (Receiver(got, st.fds[|m.fds|..], peer.react(got, ReserveAll(c.values, st.objects).value)), true)
  {
    HeaderRead(m.bytes, c);
    RoundTrip(c, m.bytes, st.fds, st.objects);
    DeliveredAsSent(c.values, st.fds[|m.fds|..]);
    assert st.fds == m.fds + st.fds[|m.fds|..];
  }

  // ----------------------------------------------------------- bytes and messages

  lemma {:induction false} BytesPrefix(msgs: seq<Message>, k: nat)
    requires k <= |msgs|
    ensures AllBytes(msgs[..k]) <= AllBytes(msgs)
  {
    if k < |msgs| {
      BytesPrefix(msgs[..|msgs| - 1], k);
      assert msgs[..|msgs| - 1][..k] == msgs[..k];
    } else {
      assert msgs[..k] == msgs;
    }
  }

  /** How many messages the first b bytes hold completely. */
  function Whole(msgs: seq<Message>, b: nat): (k: nat)
    ensures k <= |msgs|
  {
    if msgs == [] || |AllBytes(msgs)| <= b then |msgs| else Whole(msgs[..|msgs| - 1], b)
  }

  lemma {:induction false} WholeFits(msgs: seq<Message>, b: nat, k: nat)
    requires k <= |msgs|
    ensures var n := Whole(msgs, b);
            && (msgs != [] ==> |AllBytes(msgs[..n])| <= b) && (k > n ==> |AllBytes(msgs[..k])| > b)
  {
    if msgs != [] && |AllBytes(msgs)| > b {
      var rest, n := msgs[..|msgs| - 1], Whole(msgs, b);
      WholeFits(rest, b, if k < |msgs| then k else n);
      assert rest[..n] == msgs[..n];
      assert k < |msgs| ==> rest[..k] == msgs[..k];
      assert k == |msgs| ==> msgs[..k] == msgs;
    } else {
      assert msgs[..|msgs|] == msgs;
    }
  }

  /** Where message k lies in the stream. */
  lemma MessageAt(msgs: seq<Message>, k: nat)
    requires k < |msgs|
    ensures AllBytes(msgs[..k + 1]) == AllBytes(msgs[..k]) + msgs[k].bytes
    ensures AllFds(msgs[..k + 1]) == AllFds(msgs[..k]) + msgs[k].fds
    ensures AllBytes(msgs[..k + 1]) <= AllBytes(msgs)
  {
    assert msgs[..k + 1][..k] == msgs[..k];
    BytesPrefix(msgs, k + 1);
  }

  // ---------------------------------------------------------------- the receiver

  /** The state of a receiver that got the first k closures, with these fds received. */
  ghost function StateAt<T>(peer: Behaviour<T>, cs: seq<Closure>, msgs: seq<Message>, k: nat, fds: seq<Fd>,
                            m: ObjectMap<T>): Receiver<T>
    requires k <= |cs| == |msgs| && ObjectsAfter(peer, cs[..k], m).Ok? && AllFds(msgs[..k]) <= fds
  {
    Receiver(Arriving(cs[..k]), fds[|AllFds(msgs[..k])|..], ObjectsAfter(peer, cs[..k], m).value)
  }

  /** Every message that the first b bytes hold completely finds its fds. */
  ghost predicate Supplied(msgs: seq<Message>, b: nat, fds: seq<Fd>) {
    forall k :: 0 <= k <= |msgs| && |AllBytes(msgs[..k])| <= b ==> AllFds(msgs[..k]) <= fds
  }

  /** The pending bytes: what follows the first k messages in the first b bytes. */
  function Pending(msgs: seq<Message>, k: nat, b: nat): (s: seq<Byte>)
    requires k <= |msgs| && |AllBytes(msgs[..k])| <= b <= |AllBytes(msgs)|
  {
    AllBytes(msgs)[|AllBytes(msgs[..k])|..b]
  }

  /** Cutting the part x out of a stream that starts with p + x. */
  lemma Slices(s: seq<Byte>, p: seq<Byte>, x: seq<Byte>, b: nat)
    requires p + x <= s && |p| <= b <= |s|
    ensures b < |p + x| ==> s[|p|..b] == x[..b - |p|]
    ensures |p + x| <= b ==> x <= s[|p|..b] && s[|p|..b][|x|..] == s[|p + x|..b]
  {
  }

  /** An incomplete message stays pending. */
  lemma IncompletePends<T>(peer: Behaviour<T>, cs: seq<Closure>, msgs: seq<Message>, k: nat, b: nat, st: Receiver<T>)
    requires AllCarried(msgs, cs) && k <= |msgs| && |AllBytes(msgs[..k])| <= b <= |AllBytes(msgs)|
    requires k < |msgs| ==> |AllBytes(msgs[..k + 1])| > b
    ensures Parse(Decoder(peer), st, Pending(msgs, k, b)) == Parsed(st, Pending(msgs, k, b), false)
  {
    var s := Pending(msgs, k, b);
    if k < |msgs| {
      MessageAt(msgs, k);
      assert Carries(msgs[k], cs[k]);
      Slices(AllBytes(msgs), AllBytes(msgs[..k]), msgs[k].bytes, b);
      PartOfMessage(msgs[k].bytes, cs[k], |s|);
    } else {
      assert msgs[..k] == msgs;
    }
  }

  lemma PartOfMessage(bytes: seq<Byte>, c: Closure, n: nat)
    requires EncodesMessage(bytes, c) && |bytes| <= SIZE && c.opcode < 0x1_0000 && n < |bytes|
    ensures n < 8 || n < FrameSize(bytes[..n])
  {
    HeaderRead(bytes, c);
    if n >= 8 {
      assert bytes[..n][4..8] == bytes[4..8];
    }
  }

  /** The first pending message is cut out as it was put in. */
  lemma FirstPending(cs: seq<Closure>, msgs: seq<Message>, k: nat, b: nat)
    requires AllCarried(msgs, cs) && k < |msgs| && |AllBytes(msgs[..k + 1])| <= b <= |AllBytes(msgs)|
    ensures |AllBytes(msgs[..k])| <= b
    ensures var s := Pending(msgs, k, b);
            && |s| >= 8 && FrameSize(s) == |msgs[k].bytes| <= |s|
            && s[..FrameSize(s)] == msgs[k].bytes && s[FrameSize(s)..] == Pending(msgs, k + 1, b)
  {
    MessageAt(msgs, k);
    assert Carries(msgs[k], cs[k]);
    Slices(AllBytes(msgs), AllBytes(msgs[..k]), msgs[k].bytes, b);
    WholeMessage(msgs[k].bytes, cs[k], Pending(msgs, k, b));
  }

  lemma WholeMessage(bytes: seq<Byte>, c: Closure, s: seq<Byte>)
    requires EncodesMessage(bytes, c) && |bytes| <= SIZE && c.opcode < 0x1_0000 && bytes <= s
    ensures |s| >= 8 && FrameSize(s) == |bytes|
  {
    HeaderRead(bytes, c);
    assert s[4..8] == bytes[4..8];
  }

  /** Parsing what is pending gives exactly the closures that have come completely, each
      with its own fds, and leaves the rest. */
  lemma {:induction false} ParsePendingStream<T>(peer: Behaviour<T>, cs: seq<Closure>, msgs: seq<Message>,
                                                 k: nat, b: nat, fds: seq<Fd>, m: ObjectMap<T>)
    requires AllSentAs(peer, cs, msgs, m) && Supplied(msgs, b, fds)
    requires k <= Whole(msgs, b) && |AllBytes(msgs[..k])| <= b <= |AllBytes(msgs)|
    ensures var n := Whole(msgs, b);
            && |AllBytes(msgs[..n])| <= b
            && ObjectsAfter(peer, cs[..k], m).Ok? && ObjectsAfter(peer, cs[..n], m).Ok?
            && Parse(Decoder(peer), StateAt(peer, cs, msgs, k, fds, m), Pending(msgs, k, b))
               == Parsed(StateAt(peer, cs, msgs, n, fds, m), Pending(msgs, n, b), false)
    decreases |msgs| - k
  {
    var n := Whole(msgs, b);
    ReservedBefore(peer, cs, msgs, m, k);
    if k == n {
      if k < |msgs| {
        WholeFits(msgs, b, k + 1);
      }
      IncompletePends(peer, cs, msgs, k, b, StateAt(peer, cs, msgs, k, fds, m));
    } else {
      FitsBefore(msgs, b, k + 1);
      ReservedBefore(peer, cs, msgs, m, k + 1);
      NextParsed(peer, cs, msgs, k, b, fds, m);
      ParsePendingStream(peer, cs, msgs, k + 1, b, fds, m);
    }
  }

  /** The next message that has come completely is parsed. */
  lemma NextParsed<T>(peer: Behaviour<T>, cs: seq<Closure>, msgs: seq<Message>, k: nat, b: nat, fds: seq<Fd>,
                      m: ObjectMap<T>)
    requires AllSentAs(peer, cs, msgs, m) && Supplied(msgs, b, fds) && k < |msgs|
    requires |AllBytes(msgs[..k])| <= b && |AllBytes(msgs[..k + 1])| <= b <= |AllBytes(msgs)|
    requires ObjectsAfter(peer, cs[..k], m).Ok? && ObjectsAfter(peer, cs[..k + 1], m).Ok?
    ensures Parse(Decoder(peer), StateAt(peer, cs, msgs, k, fds, m), Pending(msgs, k, b))
         == Parse(Decoder(peer), StateAt(peer, cs, msgs, k + 1, fds, m), Pending(msgs, k + 1, b))
  {
    FirstPending(cs, msgs, k, b);
    OneParsed(peer, cs, msgs, k, fds, m);
    FrameParsed(peer, StateAt(peer, cs, msgs, k, fds, m), StateAt(peer, cs, msgs, k + 1, fds, m), Pending(msgs, k, b));
  }

  lemma FrameParsed<T>(peer: Behaviour<T>, st: Receiver<T>, st': Receiver<T>, s: seq<Byte>)
    requires |s| >= 8 && 8 <= FrameSize(s) <= |s| && DecodeMessage(peer, st, s[..FrameSize(s)]) == (st', true)
    ensures Parse(Decoder(peer), st, s) == Parse(Decoder(peer), st', s[FrameSize(s)..])
  {
  }

  lemma FitsBefore(msgs: seq<Message>, b: nat, k: nat)
    requires k <= Whole(msgs, b) && msgs != []
    ensures |AllBytes(msgs[..k])| <= b
  {
    WholeFits(msgs, b, k);
    var n := Whole(msgs, b);
    BytesPrefix(msgs[..n], k);
    assert msgs[..n][..k] == msgs[..k];
  }

  lemma OneParsed<T>(peer: Behaviour<T>, cs: seq<Closure>, msgs: seq<Message>, k: nat, fds: seq<Fd>, m: ObjectMap<T>)
    requires AllSentAs(peer, cs, msgs, m) && k < |msgs|
    requires AllFds(msgs[..k]) <= fds && AllFds(msgs[..k + 1]) <= fds
    ensures ObjectsAfter(peer, cs[..k], m).Ok? && ObjectsAfter(peer, cs[..k + 1], m).Ok?
    ensures DecodeMessage(peer, StateAt(peer, cs, msgs, k, fds, m), msgs[k].bytes)
         == (StateAt(peer, cs, msgs, k + 1, fds, m), true)
  {
    MessageAt(msgs, k);
    ReservedBefore(peer, cs, msgs, m, k);
    ReservedBefore(peer, cs, msgs, m, k + 1);
    assert cs[..k + 1][..k] == cs[..k];
    assert Carries(msgs[k], cs[k]);
    assert UnderstoodInTurn(peer, cs, m, k);
    var st := StateAt(peer, cs, msgs, k, fds, m);
    assert msgs[k].fds <= st.fds;
    OneDelivered(peer, cs[k], msgs[k], st);
    assert st.fds[|msgs[k].fds|..] == fds[|AllFds(msgs[..k + 1])|..];
  }

  // ----------------------------------------------------------------- the socket

  /** How many packets have their first byte among the first b. */
  function Begun(log: seq<Packet>, b: nat): (k: nat)
    ensures k <= |log|
  {
    if log == [] || |SentBytes(log[..|log| - 1])| < b then |log| else Begun(log[..|log| - 1], b)
  }

  /** What a socket may make of the packets: the bytes come in order, in any pieces; the fds
      come in order, those of a packet at the latest with its first byte. */
  ghost predicate Delivers(log: seq<Packet>, rounds: seq<Packet>) {
    && SentBytes(rounds) <= SentBytes(log) && SentFds(rounds) <= SentFds(log)
    && forall i :: 0 <= i <= |rounds| ==> FdsCame(log, rounds, i)
  }

  predicate FdsCame(log: seq<Packet>, rounds: seq<Packet>, i: nat)
    requires i <= |rounds|
  {
    SentFds(log[..Begun(log, |SentBytes(rounds[..i])|)]) <= SentFds(rounds[..i])
  }

  /** The first b bytes are those of packets that have begun. */
  lemma {:induction false} BegunHolds(log: seq<Packet>, b: nat)
    requires b <= |SentBytes(log)|
    ensures |SentBytes(log[..Begun(log, b)])| >= b
  {
    if log == [] || |SentBytes(log[..|log| - 1])| < b {
      assert log[..|log|] == log;
    } else {
      var rest := log[..|log| - 1];
      BegunHolds(rest, b);
      assert rest[..Begun(rest, b)] == log[..Begun(rest, b)];
    }
  }

  /** Because fds are sent ahead of the bytes they belong to, whoever has received a message
      completely has received its fds. */
  lemma SuppliedByLedger(log: seq<Packet>, msgs: seq<Message>, b: nat, fds: seq<Fd>)
    requires FdsFirst(log, msgs) && b <= |SentBytes(log)| && SentFds(log[..Begun(log, b)]) <= fds
    requires forall i :: 0 <= i < |msgs| ==> msgs[i].bytes != []
    ensures Supplied(msgs, b, fds)
  {
    var n := Begun(log, b);
    BegunHolds(log, b);
    forall k | 0 <= k <= |msgs| && |AllBytes(msgs[..k])| <= b ensures AllFds(msgs[..k]) <= fds {
      if k > 0 {
        MessageAt(msgs, k - 1);
        assert FdsBeforeBytes(log, msgs, n, k - 1);
      }
    }
  }

  // ------------------------------------------------------------------ end to end

  /** The receiver is where it should be: it has got exactly the closures whose messages have
      come completely, as they were sent, with their fds taken in order; what is left is the
      beginning of the next message and the fds that came early. */
  ghost predicate InStep<T>(peer: Behaviour<T>, cs: seq<Closure>, msgs: seq<Message>, rounds: seq<Packet>,
                            m: ObjectMap<T>, p: Parsed<Receiver<T>>)
    requires |cs| == |msgs|
  {
    var k := Whole(msgs, |SentBytes(rounds)|);
    && !p.stopped && p.state.closures == Arriving(cs[..k])
    && AllFds(msgs[..k]) + p.state.fds == SentFds(rounds)
    && AllBytes(msgs[..k]) + p.rest == SentBytes(rounds)
    && ObjectsAfter(peer, cs[..k], m) == Ok(p.state.objects)
  }

  /** One more read: if all messages received completely are supplied, the receiver stays
      where it should be. */
  lemma RoundInStep<T>(peer: Behaviour<T>, cs: seq<Closure>, msgs: seq<Message>, before: seq<Packet>, r: Packet,
                       m: ObjectMap<T>, p: Parsed<Receiver<T>>)
    requires AllSentAs(peer, cs, msgs, m) && InStep(peer, cs, msgs, before, m, p)
    requires SentBytes(before + [r]) <= AllBytes(msgs)
    requires Supplied(msgs, |SentBytes(before + [r])|, SentFds(before + [r]))
    ensures InStep(peer, cs, msgs, before + [r], m,
                   Parse(Decoder(peer), p.state.(fds := p.state.fds + r.fds), p.rest + r.bytes))
  {
    var rounds := before + [r];
    assert rounds[..|before|] == before;
    var b, b', fds' := |SentBytes(before)|, |SentBytes(rounds)|, SentFds(rounds);
    var k := Whole(msgs, b);
    WholeFits(msgs, b, k);
    WholeFits(msgs, b', k);
    StateGrows(peer, cs, msgs, k, before, r, m, p);
    ParsePendingStream(peer, cs, msgs, k, b', fds', m);
    StateIsInStep(peer, cs, msgs, rounds, m);
  }

  lemma StateIsInStep<T>(peer: Behaviour<T>, cs: seq<Closure>, msgs: seq<Message>, rounds: seq<Packet>, m: ObjectMap<T>)
    requires |cs| == |msgs| && SentBytes(rounds) <= AllBytes(msgs)
    requires var n := Whole(msgs, |SentBytes(rounds)|);
             && ObjectsAfter(peer, cs[..n], m).Ok? && AllFds(msgs[..n]) <= SentFds(rounds)
             && |AllBytes(msgs[..n])| <= |SentBytes(rounds)|
    ensures var n := Whole(msgs, |SentBytes(rounds)|);
            InStep(peer, cs, msgs, rounds, m, Parsed(StateAt(peer, cs, msgs, n, SentFds(rounds), m),
                                               Pending(msgs, n, |SentBytes(rounds)|), false))
  {
    var n, b := Whole(msgs, |SentBytes(rounds)|), |SentBytes(rounds)|;
    BytesPrefix(msgs, n);
    assert AllBytes(msgs[..n]) + Pending(msgs, n, b) == AllBytes(msgs)[..b];
  }

  lemma StateGrows<T>(peer: Behaviour<T>, cs: seq<Closure>, msgs: seq<Message>, k: nat, before: seq<Packet>,
                      r: Packet, m: ObjectMap<T>, p: Parsed<Receiver<T>>)
    requires |cs| == |msgs| && k == Whole(msgs, |SentBytes(before)|) && InStep(peer, cs, msgs, before, m, p)
    requires |AllBytes(msgs[..k])| <= |SentBytes(before)| && SentBytes(before + [r]) <= AllBytes(msgs)
    ensures AllFds(msgs[..k]) <= SentFds(before + [r])
    ensures p.state.(fds := p.state.fds + r.fds) == StateAt(peer, cs, msgs, k, SentFds(before + [r]), m)
    ensures |AllBytes(msgs[..k])| <= |SentBytes(before + [r])| <= |AllBytes(msgs)|
    ensures p.rest + r.bytes == Pending(msgs, k, |SentBytes(before + [r])|)
  {
    var rounds := before + [r];
    assert rounds[..|before|] == before;
    assert SentFds(rounds) == AllFds(msgs[..k]) + (p.state.fds + r.fds);
    assert SentBytes(rounds) == AllBytes(msgs[..k]) + (p.rest + r.bytes);
    assert SentBytes(rounds) == AllBytes(msgs)[..|SentBytes(rounds)|];
  }

  /** At its i-th read the receiver has room for the fds that came ahead: it has taken those
      of the messages that had come completely before. */
  predicate RoundFits(msgs: seq<Message>, rounds: seq<Packet>, i: nat)
    requires 0 < i <= |rounds|
  {
    var done := Whole(msgs, |SentBytes(rounds[..i - 1])|);
    |SentFds(rounds[..i])| <= |AllFds(msgs[..done])| + FD_SLOTS
  }

  ghost predicate FdsFit(msgs: seq<Message>, rounds: seq<Packet>) {
    forall i :: 0 < i <= |rounds| ==> RoundFits(msgs, rounds, i)
  }

  lemma FdsFitNext(msgs: seq<Message>, rounds: seq<Packet>)
    requires rounds != []
    ensures FdsFit(msgs, rounds) <==> FdsFit(msgs, rounds[..|rounds| - 1]) && RoundFits(msgs, rounds, |rounds|)
  {
    var before := rounds[..|rounds| - 1];
    forall i | 0 < i <= |before| ensures RoundFits(msgs, before, i) <==> RoundFits(msgs, rounds, i) {
      assert before[..i] == rounds[..i] && before[..i - 1] == rounds[..i - 1];
    }
  }

  /** What parsing after reads must come to: the receiver is in step, unless more fds came
      ahead of their messages than it has room for; then, and only then, it has failed. */
  ghost predicate Reached<T>(peer: Behaviour<T>, cs: seq<Closure>, msgs: seq<Message>, rounds: seq<Packet>,
                             m: ObjectMap<T>, p: Parsed<Receiver<T>>)
    requires |cs| == |msgs|
  {
    if FdsFit(msgs, rounds) then InStep(peer, cs, msgs, rounds, m, p) else p.stopped
  }

  /** There is room for the fds of a read if and only if they fit beside those pending. */
  lemma RoomForFds<T>(peer: Behaviour<T>, cs: seq<Closure>, msgs: seq<Message>, before: seq<Packet>, r: Packet,
                      m: ObjectMap<T>, p: Parsed<Receiver<T>>)
    requires |cs| == |msgs| && InStep(peer, cs, msgs, before, m, p)
    ensures RoundFits(msgs, before + [r], |before| + 1) <==> |p.state.fds| + |r.fds| <= FD_SLOTS
  {
    var rounds := before + [r];
    assert rounds[..|before|] == before && rounds[..|rounds|] == rounds;
    assert |SentFds(rounds)| == |SentFds(before)| + |r.fds|;
  }

  /** At any time, however the sender's packets were cut and the receiver's reads cut them
      again: a receiver that started with no fds has parsed exactly the messages that came
      completely, into the closures that were sent, each with its own fds, and no message ever
      lacked an fd; or a read failed, if and only if more fds were pending after it than the
      fd buffer holds. */
  lemma {:induction false} ReceiverInStep<T>(peer: Behaviour<T>, cs: seq<Closure>, msgs: seq<Message>,
                                             log: seq<Packet>, rounds: seq<Packet>, m: ObjectMap<T>)
    requires AllSentAs(peer, cs, msgs, m)
    requires SentBytes(log) <= AllBytes(msgs) && FdsFirst(log, msgs) && Delivers(log, rounds)
    ensures Reached(peer, cs, msgs, rounds, m, ParseRounds(peer, Receiver([], [], m), rounds))
    decreases |rounds|
  {
    forall i | 0 <= i < |msgs| ensures msgs[i].bytes != [] {
      assert Carries(msgs[i], cs[i]);
    }
    if rounds == [] {
      WholeFits(msgs, 0, 0);
      NothingWhole(msgs);
    } else {
      var before, r := rounds[..|rounds| - 1], rounds[|rounds| - 1];
      assert rounds == before + [r] && rounds[..|rounds|] == rounds;
      DeliversBefore(log, rounds);
      ReceiverInStep(peer, cs, msgs, log, before, m);
      assert FdsCame(log, rounds, |rounds|);
      SuppliedByLedger(log, msgs, |SentBytes(rounds)|, SentFds(rounds));
      FdsFitNext(msgs, rounds);
      var p := ParseRounds(peer, Receiver([], [], m), before);
      if FdsFit(msgs, before) {
        RoomForFds(peer, cs, msgs, before, r, m, p);
        RoundInStep(peer, cs, msgs, before, r, m, p);
      }
    }
  }

  lemma NothingWhole(msgs: seq<Message>)
    requires forall i :: 0 <= i < |msgs| ==> msgs[i].bytes != []
    ensures Whole(msgs, 0) == 0
  {
    var n := Whole(msgs, 0);
    WholeFits(msgs, 0, n);
    if n > 0 {
      MessageAt(msgs, n - 1);
    }
  }

  lemma DeliversBefore(log: seq<Packet>, rounds: seq<Packet>)
    requires rounds != [] && Delivers(log, rounds)
    ensures Delivers(log, rounds[..|rounds| - 1])
  {
    var before := rounds[..|rounds| - 1];
    forall i | 0 <= i <= |before| ensures FdsCame(log, before, i) {
      assert before[..i] == rounds[..i] && FdsCame(log, rounds, i);
    }
  }

  /** The receiver has got exactly these closures, and no byte and no fd is left. */
  ghost predicate ArrivedWhole<T>(peer: Behaviour<T>, cs: seq<Closure>, m: ObjectMap<T>, p: Parsed<Receiver<T>>) {
    && !p.stopped && p.state.closures == Arriving(cs) && p.state.fds == [] && p.rest == []
    && ObjectsAfter(peer, cs, m) == Ok(p.state.objects)
  }

  /** From end to end: once everything a connection accepted has been sent and read, with no
      more fds ahead than fit, the receiver has exactly the closures that were sent, and no byte
      and no fd is left. */
  lemma SentStreamArrives<T>(peer: Behaviour<T>, cs: seq<Closure>, msgs: seq<Message>, log: seq<Packet>,
                             rounds: seq<Packet>, m: ObjectMap<T>)
    requires AllSentAs(peer, cs, msgs, m)
    requires Conserved(log, msgs, [], [], []) && FdsFirst(log, msgs) && NoEmptyPacket(log)
    requires Delivers(log, rounds) && SentBytes(rounds) == SentBytes(log) && FdsFit(msgs, rounds)
    ensures ArrivedWhole(peer, cs, m, ParseRounds(peer, Receiver([], [], m), rounds))
  {
    assert SentBytes(log) + [] == SentBytes(log) && SentFds(log) + [] == SentFds(log);
    assert AllFds(msgs) + [] == AllFds(msgs);
    ReceiverInStep(peer, cs, msgs, log, rounds, m);
    assert Whole(msgs, |SentBytes(rounds)|) == |msgs|;
    assert msgs[..|msgs|] == msgs && cs[..|cs|] == cs;
    AllBegun(log);
    assert FdsCame(log, rounds, |rounds|);
    assert rounds[..|rounds|] == rounds && log[..|log|] == log;
  }

  /** With all bytes, all packets have begun. */
  lemma AllBegun(log: seq<Packet>)
    requires NoEmptyPacket(log)
    ensures Begun(log, |SentBytes(log)|) == |log|
  {
  }

  /** Whatever closures the messages are and however the socket cuts what was sent: the peer
      keeps in step until, if ever, more fds come ahead than fit. */
  ghost predicate PeerInStep<T(!new)>(peer: Behaviour<T>, m: ObjectMap<T>, log: seq<Packet>, msgs: seq<Message>) {
    forall cs, rounds :: AllSentAs(peer, cs, msgs, m) && Delivers(log, rounds) ==>
      Reached(peer, cs, msgs, rounds, m, ParseRounds(peer, Receiver([], [], m), rounds))
  }

  /** And once it has read all that was sent, if the fds fit, it has got all closures, and nothing
      is left. */
  ghost predicate PeerGotAll<T(!new)>(peer: Behaviour<T>, m: ObjectMap<T>, log: seq<Packet>, msgs: seq<Message>) {
    forall cs, rounds ::
      AllSentAs(peer, cs, msgs, m) && Delivers(log, rounds) && SentBytes(rounds) == SentBytes(log)
      && FdsFit(msgs, rounds) ==>
        ArrivedWhole(peer, cs, m, ParseRounds(peer, Receiver([], [], m), rounds))
  }

  lemma LogArrives<T(!new)>(peer: Behaviour<T>, m: ObjectMap<T>, log: seq<Packet>, msgs: seq<Message>, out: seq<Byte>)
    requires SentBytes(log) + out == AllBytes(msgs) && FdsFirst(log, msgs) && NoEmptyPacket(log)
    ensures PeerInStep(peer, m, log, msgs)
    ensures Conserved(log, msgs, [], [], []) ==> PeerGotAll(peer, m, log, msgs)
  {
    assert SentBytes(log) <= AllBytes(msgs);
    forall cs, rounds | AllSentAs(peer, cs, msgs, m) && Delivers(log, rounds)
      ensures Reached(peer, cs, msgs, rounds, m, ParseRounds(peer, Receiver([], [], m), rounds))
      ensures Conserved(log, msgs, [], [], []) && SentBytes(rounds) == SentBytes(log) && FdsFit(msgs, rounds) ==>
                ArrivedWhole(peer, cs, m, ParseRounds(peer, Receiver([], [], m), rounds))
    {
      ReceiverInStep(peer, cs, msgs, log, rounds, m);
      if Conserved(log, msgs, [], [], []) && SentBytes(rounds) == SentBytes(log) && FdsFit(msgs, rounds) {
        SentStreamArrives(peer, cs, msgs, log, rounds, m);
      }
    }
  }

  /** Any run of a new connection, seen from its peer: at whatever time the run ends and
      however the socket cuts what was sent, the peer has parsed exactly the closures that
      came completely, with their own fds, unless a read brought more fds than it had room for;
      and if no message was refused and nothing is buffered, then with the last byte it has got
      every closure that was accepted, and all fds are used. */
  method RunToPeer<T(!new)>(c: Connection, ops: seq<Op>, ghost peer: Behaviour<T>, ghost m: ObjectMap<T>)
    returns (oks: seq<bool>, taken: seq<Fd>)
    requires c.Idle() && c.account == NEW_ACCOUNT
    requires forall i :: 0 <= i < |ops| && ops[i].SendMsg? ==> ops[i].bytes != [] && |ops[i].fds| <= MAX_ARGS
    modifies c`wantFlush, c`failed, c`account, c.input, c.input.data, c.output, c.output.data
    modifies c.fdsIn, c.fdsIn.data, c.fdsOut, c.fdsOut.data, c.kernel
    ensures |oks| == |ops| && c.Idle() && PeerInStep(peer, m, c.kernel.log, Accepted(ops, oks))
    ensures c.failed <==> Refusal(ops, oks)
    ensures !c.failed && c.output.Contents() == [] ==> PeerGotAll(peer, m, c.kernel.log, Accepted(ops, oks))
  {
    oks, taken := RunConnection(c, ops);
    LogArrives(peer, m, c.kernel.log, Accepted(ops, oks), c.output.Contents());
    if !c.failed && c.output.Contents() == [] {
      AllSent(c.account);
    }
  }

  /** A sound account with nothing half sent and no bytes buffered has all fds sent too. */
  lemma AllSent(a: Account)
    requires a.Valid() && a.partial == [] && a.outBytes == []
    ensures Conserved(a.log, a.msgs, [], [], [])
  {
  }

  // ------------------------------------------------------------- too many fds

  /** However a connection is used, a peer that has room for all the fds it is ever sent has room
      at every read. */
  lemma FewFdsFit(log: seq<Packet>, msgs: seq<Message>, rounds: seq<Packet>)
    requires Delivers(log, rounds) && |SentFds(log)| <= FD_SLOTS
    ensures FdsFit(msgs, rounds)
  {
    forall i | 0 < i <= |rounds| ensures RoundFits(msgs, rounds, i) {
      FdsGrow(rounds, i);
    }
  }

  lemma {:induction false} FdsGrow(rounds: seq<Packet>, i: nat)
    requires i <= |rounds|
    ensures |SentFds(rounds[..i])| <= |SentFds(rounds)|
  {
    if i < |rounds| {
      var before := rounds[..|rounds| - 1];
      FdsGrow(before, i);
      assert before[..i] == rounds[..i];
    } else {
      assert rounds[..i] == rounds;
    }
  }

  function Repeat<X>(x: X, n: nat): (s: seq<X>) {
    seq(n, _ => x)
  }

  lemma RepeatLast<X>(x: X, n: nat)
    requires n > 0
    ensures Repeat(x, n) == Repeat(x, n - 1) + [x] == [x] + Repeat(x, n - 1)
  {
  }

  lemma RepeatPrefix<X>(x: X, n: nat, k: nat)
    requires k <= n
    ensures Repeat(x, n)[..k] == Repeat(x, k)
  {
  }

  /** A message of n fds and nothing else. */
  function Bundle(n: nat): (c: Closure) {
    Closure(1, 0, Repeat('h', n), Repeat(Handle(3), n))
  }

  const BUNDLE_HEADER: seq<Byte> := WordBytes(1) + WordBytes(0x8_0000)

  lemma {:induction false} BundleParts<T>(n: nat, m: ObjectMap<T>)
    ensures Encodes([], Repeat(Handle(3), n)) && Handles(Repeat(Handle(3), n)) == Repeat(3, n)
    ensures ReserveAll(Repeat(Handle(3), n), m) == Ok(m)
    ensures AllSendable(Repeat(Handle(3), n), Arguments(Repeat('h', n)))
  {
    if n > 0 {
      BundleParts(n - 1, m);
      RepeatLast(Handle(3), n);
      RepeatLast('h', n);
      RepeatLast(3 as Fd, n);
      assert Repeat(Handle(3), n)[1..] == Repeat(Handle(3), n - 1);
      assert Repeat('h', n)[1..] == Repeat('h', n - 1);
    }
  }

  /** Receivers for which every message has this signature, and which change nothing. */
  function Expecting<T>(signature: string): (peer: Behaviour<T>) {
    Behaviour((_, _, _, _) => signature, (_, m) => m)
  }

  lemma {:induction false} NothingReserved<T>(signature: string, c: Closure, m: ObjectMap<T>, n: nat)
    requires ReserveAll(c.values, m) == Ok(m)
    ensures ObjectsAfter(Expecting(signature), Repeat(c, n), m) == Ok(m)
  {
    if n > 0 {
      NothingReserved(signature, c, m, n - 1);
      RepeatLast(c, n);
      assert Repeat(c, n)[..n - 1] == Repeat(c, n - 1);
    }
  }

  /** Packets of one byte each, with the same fds. */
  function Trickle(bytes: seq<Byte>, fds: seq<Fd>): (log: seq<Packet>) {
    seq(|bytes|, i requires 0 <= i < |bytes| => Packet([bytes[i]], fds))
  }

  lemma {:induction false} TrickleSends(bytes: seq<Byte>, m: Message)
    ensures SentBytes(Trickle(bytes, m.fds)) == bytes
    ensures SentFds(Trickle(bytes, m.fds)) == AllFds(Repeat(m, |bytes|))
  {
    if bytes != [] {
      var n := |bytes| - 1;
      TrickleSends(bytes[..n], m);
      assert Trickle(bytes, m.fds)[..n] == Trickle(bytes[..n], m.fds);
      RepeatPrefix(m, n + 1, n);
      assert bytes[..n] + [bytes[n]] == bytes;
    }
  }

  lemma {:induction false} RepeatedSizes(m: Message, n: nat)
    requires |m.bytes| == 8 && |m.fds| == MAX_ARGS
    ensures |AllBytes(Repeat(m, n))| == 8 * n && |AllFds(Repeat(m, n))| == MAX_ARGS * n
  {
    if n > 0 {
      RepeatedSizes(m, n - 1);
      RepeatPrefix(m, n, n - 1);
    }
  }

  lemma {:induction false} RepeatedFds(m: Message, j: nat, k: nat)
    requires j <= k
    ensures AllFds(Repeat(m, j)) <= AllFds(Repeat(m, k))
  {
    if j < k {
      RepeatedFds(m, j, k - 1);
      RepeatPrefix(m, k, k - 1);
    }
  }

  /** A socket may deliver the packets as they were sent. */
  lemma DeliversItself(log: seq<Packet>)
    requires NoEmptyPacket(log)
    ensures Delivers(log, log)
  {
    forall i | 0 <= i <= |log| ensures FdsCame(log, log, i) {
      BegunSoFar(log, i);
    }
  }

  lemma {:induction false} BegunSoFar(log: seq<Packet>, i: nat)
    requires NoEmptyPacket(log) && i <= |log|
    ensures Begun(log, |SentBytes(log[..i])|) == i
  {
    if i < |log| {
      var before := log[..|log| - 1];
      BegunSoFar(before, i);
      assert before[..i] == log[..i];
      SentMonotone(before, i);
    } else {
      assert log[..i] == log;
    }
  }

  /** The first bytes of equal messages of twenty fds, sent one at a time. */
  lemma TrickleIsFdsFirst(m: Message, n: nat)
    requires |m.bytes| == 8 && |m.fds| == MAX_ARGS
    ensures n <= |AllBytes(Repeat(m, n))| && FdsFirst(Trickle(AllBytes(Repeat(m, n))[..n], m.fds), Repeat(m, n))
  {
    RepeatedSizes(m, n);
    var msgs, bytes := Repeat(m, n), AllBytes(Repeat(m, n))[..n];
    var log := Trickle(bytes, m.fds);
    forall k, i | 0 <= k <= n && 0 <= i < n ensures FdsBeforeBytes(log, msgs, k, i) {
      assert log[..k] == Trickle(bytes[..k], m.fds);
      TrickleSends(bytes[..k], m);
      RepeatPrefix(m, n, i);
      RepeatPrefix(m, n, i + 1);
      RepeatedSizes(m, i);
      if k > 8 * i {
        RepeatedFds(m, i + 1, k);
      }
    }
  }

  /** Seven messages come with sixty bytes, but the fds of sixty: too many by 36. */
  lemma TrickleDoesNotFit(m: Message)
    requires |m.bytes| == 8 && |m.fds| == MAX_ARGS
    ensures var bytes := AllBytes(Repeat(m, 60));
            |bytes| == 480 && !FdsFit(Repeat(m, 60), Trickle(bytes[..60], m.fds))
  {
    RepeatedSizes(m, 60);
    var msgs, bytes := Repeat(m, 60), AllBytes(Repeat(m, 60))[..60];
    var rounds := Trickle(bytes, m.fds);
    TrickleSends(bytes, m);
    TrickleSends(bytes[..59], m);
    assert rounds[..60] == rounds && rounds[..59] == Trickle(bytes[..59], m.fds);
    var done := Whole(msgs, 59);
    WholeFits(msgs, 59, 0);
    RepeatPrefix(m, 60, done);
    RepeatedSizes(m, done);
    assert !RoundFits(msgs, rounds, 60);
  }

  lemma HeaderParts()
    ensures BUNDLE_HEADER[..4] == WordBytes(1) && BUNDLE_HEADER[4..8] == WordBytes(0x8_0000)
    ensures |BUNDLE_HEADER| == 8 && BUNDLE_HEADER[8..] == []
  {
  }

  lemma BundleIsCarried(c: Closure)
    requires c.sender == 1 && c.opcode == 0 && Encodes([], c.values)
    ensures Carries(Message(BUNDLE_HEADER, Handles(c.values)), c)
  {
    HeaderParts();
  }

  lemma AllRepeated<T>(c: Closure, message: Message, m: ObjectMap<T>, n: nat)
    requires Carries(message, c) && |Arguments(c.signature)| <= MAX_ARGS
    requires AllSendable(c.values, Arguments(c.signature)) && ReserveAll(c.values, m) == Ok(m)
    ensures AllSentAs(Expecting(c.signature), Repeat(c, n), Repeat(message, n), m)
  {
    forall i | 0 <= i < n ensures UnderstoodInTurn(Expecting(c.signature), Repeat(c, n), m, i) {
      RepeatPrefix(c, n, i);
      NothingReserved(c.signature, c, m, i);
    }
  }

  /** A connection to whose messages of twenty fds the socket gives way one byte at a time, which
      is within what any connection guarantees, fills the fd buffer of its peer: the peer fails,
      although it understands all the messages. */
  lemma FdsOverrunPeer<T(!new)>(m: ObjectMap<T>)
    returns (peer: Behaviour<T>, cs: seq<Closure>, msgs: seq<Message>, log: seq<Packet>)
    ensures AllSentAs(peer, cs, msgs, m)
    ensures SentBytes(log) <= AllBytes(msgs) && FdsFirst(log, msgs) && NoEmptyPacket(log)
    ensures forall i :: 0 <= i < |log| ==> |log[i].fds| <= MAX_FDS_OUT
    ensures Delivers(log, log) && ParseRounds(peer, Receiver([], [], m), log).stopped
  {
    var c := Bundle(MAX_ARGS);
    var message := Message(BUNDLE_HEADER, Handles(c.values));
    BundleParts(MAX_ARGS, m);
    RepeatedSizes(message, 60);
    peer, cs, msgs := Expecting(c.signature), Repeat(c, 60), Repeat(message, 60);
    log := Trickle(AllBytes(msgs)[..60], message.fds);
    BundleIsCarried(c);
    AllRepeated(c, message, m, 60);
    TrickleSends(AllBytes(msgs)[..60], message);
    TrickleIsFdsFirst(message, 60);
    DeliversItself(log);
    TrickleDoesNotFit(message);
    ReceiverInStep(peer, cs, msgs, log, log, m);
  }
}
