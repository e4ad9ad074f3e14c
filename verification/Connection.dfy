/** A connection: byte buffers and fd buffers in both directions over a socket.

    The history fields record what the owner sent; the invariant `Valid` says that
    nothing is lost or reordered and that fds never arrive after the bytes they
    belong to. */
module Connections {
  import opened Wrappers
  import opened Words
  import opened RingBuffers
  import opened Signatures

  type Fd = Word

  const MAX_FDS_OUT: nat := 28

  /** What one sendmsg call put on the socket. */
  datatype Packet = Packet(bytes: seq<Byte>, fds: seq<Fd>)

  /** A serialized closure and the fds it carries. */
  datatype Message = Message(bytes: seq<Byte>, fds: seq<Fd>)

  // ------------------------------------------------------------------ ledgers

  function SentBytes(log: seq<Packet>): (b: seq<Byte>) {
    if log == [] then [] else SentBytes(log[..|log| - 1]) + log[|log| - 1].bytes
  }

  function SentFds(log: seq<Packet>): (f: seq<Fd>) {
    if log == [] then [] else SentFds(log[..|log| - 1]) + log[|log| - 1].fds
  }

  function AllBytes(msgs: seq<Message>): (b: seq<Byte>) {
    if msgs == [] then [] else AllBytes(msgs[..|msgs| - 1]) + msgs[|msgs| - 1].bytes
  }

  function AllFds(msgs: seq<Message>): (f: seq<Fd>) {
    if msgs == [] then [] else AllFds(msgs[..|msgs| - 1]) + msgs[|msgs| - 1].fds
  }

  /** Sent, then buffered, is what was accepted; for fds, followed by those of the
      message whose bytes are not buffered yet. */
  ghost predicate Conserved(log: seq<Packet>, msgs: seq<Message>, partial: seq<Fd>, outBytes: seq<Byte>,
                            outFds: seq<Fd>)
  {
    && SentBytes(log) + outBytes == AllBytes(msgs)
    && SentFds(log) + outFds == AllFds(msgs) + partial
  }

  /** Once a byte of message i is among the first k packets, so are all its fds, after
      those of the messages before it. */
  predicate FdsBeforeBytes(log: seq<Packet>, msgs: seq<Message>, k: nat, i: nat)
    requires k <= |log| && i < |msgs|
  {
    |SentBytes(log[..k])| > |AllBytes(msgs[..i])| ==> AllFds(msgs[..i + 1]) <= SentFds(log[..k])
  }

  ghost predicate FdsFirst(log: seq<Packet>, msgs: seq<Message>) {
    forall k, i :: 0 <= k <= |log| && 0 <= i < |msgs| ==> FdsBeforeBytes(log, msgs, k, i)
  }

  /** A send that succeeds takes at least one byte. */
  predicate NoEmptyPacket(log: seq<Packet>) {
    forall i :: 0 <= i < |log| ==> log[i].bytes != []
  }

  lemma {:induction false} SentMonotone(log: seq<Packet>, k: nat)
    requires k <= |log|
    ensures |SentBytes(log[..k])| <= |SentBytes(log)|
  {
    if k < |log| {
      SentMonotone(log[..|log| - 1], k);
      assert log[..|log| - 1][..k] == log[..k];
    } else {
      assert log[..k] == log;
    }
  }

  lemma {:induction false} FdsPrefix(msgs: seq<Message>, k: nat)
    requires k <= |msgs|
    ensures AllFds(msgs[..k]) <= AllFds(msgs)
  {
    if k < |msgs| {
      FdsPrefix(msgs[..|msgs| - 1], k);
      assert msgs[..|msgs| - 1][..k] == msgs[..k];
    } else {
      assert msgs[..k] == msgs;
    }
  }

  /** A send that takes some of the buffered bytes takes all the buffered fds. */
  lemma PacketKeepsLedger(log: seq<Packet>, msgs: seq<Message>, partial: seq<Fd>, outBytes: seq<Byte>,
                          outFds: seq<Fd>, n: nat)
    requires Conserved(log, msgs, partial, outBytes, outFds) && FdsFirst(log, msgs) && n <= |outBytes|
    ensures var log' := log + [Packet(outBytes[..n], outFds)];
            Conserved(log', msgs, partial, outBytes[n..], []) && FdsFirst(log', msgs)
  {
    var log' := log + [Packet(outBytes[..n], outFds)];
    assert log'[..|log|] == log;
    assert SentBytes(log') + outBytes[n..] == SentBytes(log) + outBytes;
    forall k, i | 0 <= k <= |log'| && 0 <= i < |msgs| ensures FdsBeforeBytes(log', msgs, k, i) {
      if k == |log'| {
        assert log'[..k] == log';
        FdsPrefix(msgs, i + 1);
      } else {
        assert log'[..k] == log[..k] && FdsBeforeBytes(log, msgs, k, i);
      }
    }
  }

  /** A message joins the ledger once its fds are buffered or sent. */
  lemma AcceptKeepsLedger(log: seq<Packet>, msgs: seq<Message>, outBytes: seq<Byte>, outFds: seq<Fd>, m: Message)
    requires Conserved(log, msgs, m.fds, outBytes, outFds) && FdsFirst(log, msgs)
    ensures Conserved(log, msgs + [m], [], outBytes + m.bytes, outFds) && FdsFirst(log, msgs + [m])
  {
    var msgs' := msgs + [m];
    assert msgs'[..|msgs|] == msgs;
    assert SentBytes(log) + (outBytes + m.bytes) == (SentBytes(log) + outBytes) + m.bytes;
    forall k, i | 0 <= k <= |log| && 0 <= i < |msgs'| ensures FdsBeforeBytes(log, msgs', k, i) {
      SentMonotone(log, k);
      assert |SentBytes(log[..k])| <= |AllBytes(msgs)| && msgs[..|msgs|] == msgs;
      assert msgs'[..i] == msgs[..i];
      if i < |msgs| {
        assert msgs'[..i + 1] == msgs[..i + 1] && FdsBeforeBytes(log, msgs, k, i);
      }
    }
  }

  /** The history of a connection and what its buffers hold, as values. */
  datatype Account = Account(
    log: seq<Packet>, msgs: seq<Message>, partial: seq<Fd>, outBytes: seq<Byte>, outFds: seq<Fd>,
    posted: nat, wantFlush: bool, failed: bool,
    duplicated: seq<Fd>, received: seq<Fd>, arriving: seq<Fd>, inFds: seq<Fd>, held: multiset<Fd>, closed: seq<Fd>)
  {
    ghost predicate Valid() {
      && Conserved(log, msgs, partial, outBytes, outFds)
      && FdsFirst(log, msgs) && NoEmptyPacket(log)
      && |partial| <= MAX_ARGS && |outFds| <= MAX_FDS_OUT
      && (outBytes == [] ==> |outFds| <= |partial|)
      && posted <= |AllBytes(msgs)| && (posted > |SentBytes(log)| ==> wantFlush)
      // every fd that was duplicated or received is in exactly one place
      && multiset(duplicated) + multiset(received)
         == multiset(closed) + multiset(arriving) + multiset(inFds) + multiset(outFds) + held
    }
  }

  /** Sending n of the buffered bytes takes along, and then closes, all buffered fds. */
  ghost function Sent(a: Account, n: nat): Account
    requires n <= |a.outBytes|
  {
    a.(log := a.log + [Packet(a.outBytes[..n], a.outFds)], outBytes := a.outBytes[n..], outFds := [],
       closed := a.closed + a.outFds)
  }

  lemma SendKeepsAccount(a: Account, n: nat)
    requires a.Valid() && 1 <= n <= |a.outBytes|
    ensures Sent(a, n).Valid()
  {
    PacketKeepsLedger(a.log, a.msgs, a.partial, a.outBytes, a.outFds, n);
    var log' := a.log + [Packet(a.outBytes[..n], a.outFds)];
    assert log'[..|a.log|] == a.log;
    assert |SentBytes(log')| == |SentBytes(a.log)| + n;
  }

  const NEW_ACCOUNT := Account([], [], [], [], [], 0, false, false, [], [], [], [], multiset{}, [])

  lemma NewAccountValid()
    ensures NEW_ACCOUNT.Valid()
  {
  }

  /** b is a after any number of packets: bytes stay in order, and the first packet takes
      every buffered fd. */
  ghost predicate Flushed(a: Account, b: Account) {
    && a.log <= b.log
    && SentBytes(b.log) + b.outBytes == SentBytes(a.log) + a.outBytes
    && b == a.(log := b.log, outBytes := b.outBytes, outFds := b.outFds, closed := b.closed, wantFlush := b.wantFlush)
    && (b.log == a.log ==> b.outBytes == a.outBytes && b.outFds == a.outFds && b.closed == a.closed)
    && (b.log != a.log ==> b.outFds == [] && b.closed == a.closed + a.outFds)
  }

  lemma FlushedNothing(a: Account)
    ensures Flushed(a, a)
  {
  }

  /** Once everything is sent no flush is needed. */
  lemma AllSentMayRest(a: Account, b: Account)
    requires b.Valid() && b.outBytes == [] && Flushed(a, b)
    ensures b.(wantFlush := false).Valid() && Flushed(a, b.(wantFlush := false))
  {
  }

  lemma FlushedAgain(a: Account, b: Account, n: nat)
    requires Flushed(a, b) && n <= |b.outBytes|
    ensures Flushed(a, Sent(b, n))
  {
    var log' := b.log + [Packet(b.outBytes[..n], b.outFds)];
    assert log'[..|b.log|] == b.log;
    assert SentBytes(log') + b.outBytes[n..] == SentBytes(b.log) + b.outBytes;
    assert b.closed + [] == b.closed;
  }

  /** Moving an fd of a closure into the buffer of outgoing fds. */
  ghost function WithFd(a: Account, fd: Fd): Account {
    a.(partial := a.partial + [fd], outFds := a.outFds + [fd], held := a.held - multiset{fd})
  }

  lemma BufferFdKeepsAccount(a: Account, fd: Fd)
    requires a.Valid() && |a.partial| < MAX_ARGS && |a.outFds| < MAX_FDS_OUT && fd in a.held
    ensures WithFd(a, fd).Valid()
  {
    assert SentFds(a.log) + (a.outFds + [fd]) == (SentFds(a.log) + a.outFds) + [fd];
    assert AllFds(a.msgs) + (a.partial + [fd]) == (AllFds(a.msgs) + a.partial) + [fd];
  }

  /** Buffering the bytes of the message whose fds were just put. */
  ghost function WithMessage(a: Account, bytes: seq<Byte>, post: bool): Account {
    var msgs := a.msgs + [Message(bytes, a.partial)];
    a.(msgs := msgs, partial := [], outBytes := a.outBytes + bytes,
       posted := if post then |AllBytes(msgs)| else a.posted, wantFlush := post || a.wantFlush)
  }

  lemma AcceptKeepsAccount(a: Account, bytes: seq<Byte>, post: bool)
    requires a.Valid() && bytes != []
    ensures WithMessage(a, bytes, post).Valid()
  {
    AcceptKeepsLedger(a.log, a.msgs, a.outBytes, a.outFds, Message(bytes, a.partial));
    assert (a.msgs + [Message(bytes, a.partial)])[..|a.msgs|] == a.msgs;
  }

  lemma FailKeepsAccount(a: Account)
    requires a.Valid()
    ensures a.(failed := true).Valid()
  {
  }

  ghost function WithClosed(a: Account, fd: Fd): Account {
    a.(held := a.held - multiset{fd}, closed := a.closed + [fd])
  }

  ghost function WithAllClosed(a: Account, fds: seq<Fd>): Account {
    a.(held := a.held - multiset(fds), closed := a.closed + fds)
  }

  /** After i of the fds, the next one is still held. */
  lemma NextHeld(held: multiset<Fd>, fds: seq<Fd>, i: nat)
    requires i < |fds| && multiset(fds) <= held
    ensures fds[i] in held - multiset(fds[..i])
    ensures held - multiset(fds[..i]) - multiset{fds[i]} == held - multiset(fds[..i + 1])
  {
    assert fds[..i + 1] == fds[..i] + [fds[i]];
    assert fds == fds[..i + 1] + fds[i + 1..];
  }

  lemma NextClosed(a: Account, fds: seq<Fd>, i: nat)
    requires i < |fds| && multiset(fds) <= a.held
    ensures fds[i] in WithAllClosed(a, fds[..i]).held
    ensures WithClosed(WithAllClosed(a, fds[..i]), fds[i]) == WithAllClosed(a, fds[..i + 1])
  {
    NextHeld(a.held, fds, i);
    assert a.closed + fds[..i] + [fds[i]] == a.closed + fds[..i + 1];
  }

  lemma CloseKeepsAccount(a: Account, fd: Fd)
    requires a.Valid() && fd in a.held
    ensures WithClosed(a, fd).Valid()
  {
  }

  /** a and b agree on what came in. */
  predicate SameIntake(a: Account, b: Account) {
    b.duplicated == a.duplicated && b.received == a.received && b.arriving == a.arriving && b.inFds == a.inFds
  }

  /** b is a with the first i fds of a closure passed on, and possibly some packets sent. */
  ghost predicate FdsPassed(a: Account, b: Account, fds: seq<Fd>, i: nat)
    requires i <= |fds|
  {
    && a.log <= b.log && SameIntake(a, b)
    && b.msgs == a.msgs && b.posted == a.posted && b.failed == a.failed
    && b.partial == a.partial + fds[..i] && b.held == a.held - multiset(fds[..i])
  }

  lemma NoFdPassed(a: Account, fds: seq<Fd>)
    ensures FdsPassed(a, a, fds, 0)
  {
    assert a.partial + fds[..0] == a.partial;
  }

  lemma NextFdPassed(a: Account, b: Account, c: Account, fds: seq<Fd>, i: nat)
    requires i < |fds| && FdsPassed(a, b, fds, i) && Flushed(b, c) && multiset(fds) <= a.held
    ensures fds[i] in b.held && FdsPassed(a, WithFd(c, fds[i]), fds, i + 1) && FdsPassed(a, c, fds, i)
  {
    NextHeld(a.held, fds, i);
    assert a.partial + fds[..i] + [fds[i]] == a.partial + fds[..i + 1];
  }

  /** What became of a closure's parts: all accepted, or the first i fds passed on. */
  ghost predicate PartsSent(a: Account, b: Account, bytes: seq<Byte>, fds: seq<Fd>, post: bool, ok: bool, i: nat)
    requires i <= |fds|
  {
    && a.log <= b.log && SameIntake(a, b) && b.failed == a.failed && b.held == a.held - multiset(fds[..i])
    && b.msgs == a.msgs + (if ok then [Message(bytes, fds)] else [])
    && b.posted == (if ok && post then |AllBytes(b.msgs)| else a.posted)
    && (ok ==> b.partial == [])
  }

  lemma PartsAccepted(a: Account, b: Account, c: Account, bytes: seq<Byte>, fds: seq<Fd>, post: bool)
    requires a.partial == [] && FdsPassed(a, b, fds, |fds|) && Flushed(b, c)
    ensures PartsSent(a, WithMessage(c, bytes, post), bytes, fds, post, true, |fds|)
  {
    assert fds[..|fds|] == fds && a.partial + fds == fds;
  }

  lemma PartsRest(a: Account, b: Account, bytes: seq<Byte>, fds: seq<Fd>, post: bool, ok: bool, i: nat)
    requires i <= |fds| && PartsSent(a, b, bytes, fds, post, ok, i) && multiset(fds) <= a.held
    ensures multiset(fds[i..]) <= b.held && b.held - multiset(fds[i..]) == a.held - multiset(fds)
  {
    assert fds == fds[..i] + fds[i..];
  }

  ghost function WithHeld(a: Account, fds: seq<Fd>): Account {
    a.(duplicated := a.duplicated + fds, held := a.held + multiset(fds))
  }

  lemma HeldValid(a: Account, fds: seq<Fd>)
    requires a.Valid()
    ensures WithHeld(a, fds).Valid()
  {
    var all := multiset(a.duplicated) + multiset(a.received);
    var rest := multiset(a.closed) + multiset(a.arriving) + multiset(a.inFds) + multiset(a.outFds);
    assert multiset(a.duplicated + fds) + multiset(a.received) == all + multiset(fds);
    assert rest + (a.held + multiset(fds)) == rest + a.held + multiset(fds);
  }

  // ------------------------------------------------------------- received fds

  const FD_SLOTS: nat := 1024

  function FdBytes(fds: seq<Fd>): (b: seq<Byte>)
    ensures |b| == 4 * |fds|
  {
    if fds == [] then [] else FdBytes(fds[..|fds| - 1]) + WordBytes(fds[|fds| - 1])
  }

  lemma {:induction false} FdBlock(fds: seq<Fd>)
    ensures ReadWords(FdBytes(fds)) == fds
  {
    if fds != [] {
      FdBlock(fds[..|fds| - 1]);
      ReadWordsAppend(FdBytes(fds[..|fds| - 1]), fds[|fds| - 1]);
    }
  }

  /** Received fds that were kept and, from the first control message that did not fit,
      closed. */
  datatype Intake = Intake(kept: seq<Fd>, dropped: seq<Fd>, overflow: bool)

  function Admit(t: Intake, room: int, fds: seq<Fd>): Intake {
    if t.overflow || |t.kept| + |fds| > room then Intake(t.kept, t.dropped + fds, true)
    else Intake(t.kept + fds, t.dropped, false)
  }

  function AdmitAll(t: Intake, room: int, cmsgs: seq<seq<Fd>>): Intake
    decreases |cmsgs|
  {
    if cmsgs == [] then t else AdmitAll(Admit(t, room, cmsgs[0]), room, cmsgs[1..])
  }

  /** What a receive with these control messages keeps and drops. */
  ghost function Received(a: Account, cmsgs: seq<seq<Fd>>): Intake {
    AdmitAll(Intake([], [], false), FD_SLOTS - |a.inFds|, cmsgs)
  }

  /** What a receive adds: every fd is counted as received, and kept or closed. */
  ghost function WithIntake(a: Account, t: Intake): Account {
    a.(received := a.received + t.kept + t.dropped, inFds := a.inFds + t.kept, closed := a.closed + t.dropped)
  }

  /** Fds that recvmsg has just delivered are the library's to keep or close. */
  ghost function WithArrived(a: Account, fds: seq<Fd>): Account {
    a.(received := a.received + fds, arriving := a.arriving + fds)
  }

  lemma ArrivedValid(a: Account, fds: seq<Fd>)
    requires a.Valid()
    ensures WithArrived(a, fds).Valid()
  {
    var all, rest := multiset(a.duplicated) + multiset(a.received), multiset(a.inFds) + multiset(a.outFds) + a.held;
    assert multiset(a.duplicated) + multiset(a.received + fds) == all + multiset(fds);
    assert multiset(a.closed) + multiset(a.arriving + fds) + multiset(a.inFds) + multiset(a.outFds) + a.held
        == multiset(a.closed) + multiset(a.arriving) + rest + multiset(fds);
    assert all == multiset(a.closed) + multiset(a.arriving) + rest;
  }

  /** The first n fds that are arriving join the buffer. */
  ghost function WithKept(a: Account, n: nat): Account
    requires n <= |a.arriving|
  {
    a.(arriving := a.arriving[n..], inFds := a.inFds + a.arriving[..n])
  }

  /** The first n fds that are arriving are closed. */
  ghost function WithDropped(a: Account, n: nat): Account
    requires n <= |a.arriving|
  {
    a.(arriving := a.arriving[n..], closed := a.closed + a.arriving[..n])
  }

  lemma ArrivingSettled(a: Account, n: nat)
    requires a.Valid() && n <= |a.arriving|
    ensures WithKept(a, n).Valid() && WithDropped(a, n).Valid()
  {
    assert a.arriving == a.arriving[..n] + a.arriving[n..];
    assert multiset(a.inFds + a.arriving[..n]) == multiset(a.inFds) + multiset(a.arriving[..n]);
    assert multiset(a.closed + a.arriving[..n]) == multiset(a.closed) + multiset(a.arriving[..n]);
  }

  /** In the middle of decoding: t was settled, the fds of the rest are still arriving. */
  ghost function Decoded(a: Account, t: Intake, rest: seq<Fd>): Account {
    a.(arriving := rest, inFds := a.inFds + t.kept, closed := a.closed + t.dropped)
  }

  /** One more control message is settled. */
  lemma DecodedStep(a: Account, t: Intake, fds: seq<Fd>, rest: seq<Fd>)
    ensures var b, t' := Decoded(a, t, fds + rest), Admit(t, FD_SLOTS - |a.inFds|, fds);
            && fds <= b.arriving
            && t'.overflow == (t.overflow || |b.inFds| + |fds| > FD_SLOTS)
            && Decoded(a, t', rest) == if t'.overflow then WithDropped(b, |fds|) else WithKept(b, |fds|)
  {
    assert (fds + rest)[..|fds|] == fds && (fds + rest)[|fds|..] == rest;
    assert a.inFds + t.kept + fds == a.inFds + (t.kept + fds);
    assert a.closed + t.dropped + fds == a.closed + (t.dropped + fds);
  }

  lemma NothingDecoded(a: Account)
    ensures Decoded(a, Intake([], [], false), a.arriving) == a
    ensures WithIntake(a, Intake([], [], false)) == a
  {
    assert a.inFds + [] == a.inFds && a.closed + [] == a.closed && a.received + [] + [] == a.received;
  }

  lemma NothingKept(a: Account)
    ensures AllKept(a, []) == a
  {
    assert a.inFds + [] == a.inFds && a.received + [] == a.received;
  }

  /** Kept, then dropped, is everything the control messages carried, in order; and what
      is dropped is dropped because of an overflow. */
  lemma {:induction false} AdmitsEverything(t: Intake, room: int, cmsgs: seq<seq<Fd>>)
    requires !t.overflow ==> t.dropped == []
    ensures var t' := AdmitAll(t, room, cmsgs);
            && t'.kept + t'.dropped == t.kept + t.dropped + Concat(cmsgs)
            && (!t'.overflow ==> t'.dropped == [])
    decreases |cmsgs|
  {
    if cmsgs != [] {
      var t1 := Admit(t, room, cmsgs[0]);
      AdmitsEverything(t1, room, cmsgs[1..]);
      assert t1.kept + t1.dropped == t.kept + t.dropped + cmsgs[0];
      assert t.kept + t.dropped + cmsgs[0] + Concat(cmsgs[1..]) == t.kept + t.dropped + Concat(cmsgs);
    }
  }

  /** Once all control messages are settled, every fd that arrived is kept or closed. */
  lemma AllDecoded(a: Account, b: Account, cmsgs: seq<seq<Fd>>)
    requires a.arriving == [] && b == WithArrived(a, Concat(cmsgs))
    ensures var t := Received(a, cmsgs);
            && Received(b, cmsgs) == t && Decoded(b, t, []) == WithIntake(a, t)
            && t.kept + t.dropped == Concat(cmsgs)
            && (!t.overflow ==> WithIntake(a, t) == AllKept(a, Concat(cmsgs)))
  {
    var t := Received(a, cmsgs);
    AdmitsEverything(Intake([], [], false), FD_SLOTS - |a.inFds|, cmsgs);
    assert [] + [] + Concat(cmsgs) == Concat(cmsgs);
    assert a.received + (t.kept + t.dropped) == a.received + t.kept + t.dropped;
    assert t.kept + [] == t.kept && a.closed + [] == a.closed;
  }

  /** A receive without overflow keeps every fd. */
  ghost function AllKept(a: Account, fds: seq<Fd>): Account {
    a.(received := a.received + fds, inFds := a.inFds + fds)
  }

  /** The first received fd passes to the closure that is being demarshalled. */
  ghost function WithTaken(a: Account): Account
    requires a.inFds != []
  {
    a.(inFds := a.inFds[1..], held := a.held + multiset{a.inFds[0]})
  }

  lemma TakeKeepsAccount(a: Account)
    requires a.Valid() && a.inFds != []
    ensures WithTaken(a).Valid()
  {
    assert a.inFds == [a.inFds[0]] + a.inFds[1..];
  }

  /** The first k received fds are closed unused. */
  ghost function WithDiscarded(a: Account, k: nat): Account
    requires k <= |a.inFds|
  {
    a.(inFds := a.inFds[k..], closed := a.closed + a.inFds[..k])
  }

  lemma DiscardKeepsAccount(a: Account, k: nat)
    requires a.Valid() && k <= |a.inFds|
    ensures WithDiscarded(a, k).Valid()
  {
    assert a.inFds == a.inFds[..k] + a.inFds[k..];
  }

  lemma FreeCellsDistinct(head: Word, n: nat)
    requires n <= SIZE
    ensures forall i, j :: 0 <= i < j < n ==> CellRange(head, n)[i] != CellRange(head, n)[j]
  {
    forall i, j | 0 <= i < j < n ensures CellRange(head, n)[i] != CellRange(head, n)[j] {
      CellsDistinct(head, i, j);
    }
  }

  // -------------------------------------------------------------- the machine

  /** The operating system's side: what was sent, what is still to be received, and every
      fd it made for the process by duplicating or receiving, or closed for it. */
  class Kernel {
    var log: seq<Packet>
    var incoming: seq<Byte>
    var duplicated: seq<Fd>
    var received: seq<Fd>
    var closed: seq<Fd>

    constructor (incoming: seq<Byte>)
      ensures log == [] && duplicated == received == closed == [] && this.incoming == incoming
    {
      log, this.incoming := [], incoming;
      duplicated, received, closed := [], [], [];
    }

    /** Duplicates the fds of a closure; these are the new ones. */
    method Duplicate(fds: seq<Fd>)
      modifies this`duplicated
      ensures duplicated == old(duplicated) + fds
    {
      duplicated := duplicated + fds;
    }

    /** Sends at least one byte, with all the given fds, or fails and sends nothing. */
    method SendMsg(bytes: seq<Byte>, fds: seq<Fd>) returns (len: int)
      requires bytes != []
      modifies this`log
      ensures len == -1 ==> log == old(log)
      ensures len != -1 ==> 1 <= len <= |bytes| && log == old(log) + [Packet(bytes[..len], fds)]
    {
      len := *;
      if !(1 <= len <= |bytes|) {
        len := -1;
      }
      if len != -1 {
        log := log + [Packet(bytes[..len], fds)];
      }
    }

    /** Receives up to `room` bytes with some control messages, whose fds the process then
        owns, or nothing: 0 when the peer is gone, -1 on an error. */
    method RecvMsg(room: nat) returns (len: int, bytes: seq<Byte>, cmsgs: seq<seq<Fd>>)
      requires room > 0
      modifies this`incoming, this`received
      ensures -1 <= len && |bytes| <= room && |bytes| == (if len > 0 then len else 0)
      ensures old(incoming) == bytes + incoming
      ensures len <= 0 ==> cmsgs == []
      ensures received == old(received) + Concat(cmsgs)
    {
      len := *;
      if !(0 <= len <= room && len <= |incoming|) {
        len := -1;
      }
      var n := if len > 0 then len else 0;
      bytes := incoming[..n];
      incoming := incoming[n..];
      cmsgs := [];
      if len > 0 {
        cmsgs := *;
      }
      received := received + Concat(cmsgs);
    }

    method Close(fd: Fd)
      modifies this`closed
      ensures closed == old(closed) + [fd]
    {
      closed := closed + [fd];
    }
  }

  /** The words in a ring buffer: fd buffers hold whole 32-bit fds. */
  ghost function FdsIn(b: RingBuffer): (f: seq<Fd>)
    requires b.Valid()
    reads b, b.data
  {
    ReadWords(b.Contents())
  }

  /** Closes the first fds of a buffer: at most `max` of them if max > 0, else all. */
  method CloseFds(b: RingBuffer, max: int, kernel: Kernel)
    requires b.Valid() && |b.Contents()| % 4 == 0
    modifies b`tail, kernel`closed
    ensures b.Valid() && |b.Contents()| % 4 == 0
    ensures var all := old(FdsIn(b));
            var k := if 0 < max < |all| then max else |all|;
            && kernel.closed == old(kernel.closed) + all[..k]
            && FdsIn(b) == all[k..]
  {
    var size := b.Size();
    if size == 0 {
      return;
    }
    var bytes := b.Copy(size);
    assert bytes == b.Contents();
    var fds := ReadWords(bytes);
    assert fds == FdsIn(b);
    var count := size / 4;
    if max > 0 && max < count {
      count := max;
    }
    for i := 0 to count
      modifies kernel`closed
      invariant kernel.closed == old(kernel.closed) + fds[..i]
    {
      kernel.Close(fds[i]);
    }
    ReadWordsDrop(b.Contents(), count);
    b.Consume(4 * count);
  }

  /** Takes the next received fd. */
  method PopFd(b: RingBuffer) returns (fd: Fd)
    requires b.Valid() && |b.Contents()| % 4 == 0 && b.Size() > 0
    modifies b`tail
    ensures b.Valid() && |b.Contents()| % 4 == 0
    ensures old(FdsIn(b)) != [] && fd == old(FdsIn(b))[0] && FdsIn(b) == old(FdsIn(b))[1..]
  {
    ghost var c := b.Contents();
    var bytes := b.Copy(4);
    fd := ReadWord(bytes);
    ReadWordsDrop(c, 1);
    assert ReadWords(c)[0] == ReadWord(c[0..4]) && c[0..4] == c[..4];
    b.Consume(4);
  }

  /** Bytes that arrive through the free segments of a ring follow its contents. */
  method Land(b: RingBuffer, iov: seq<Iov>, bytes: seq<Byte>)
    requires b.Valid() && b.Size() + |bytes| <= SIZE
    requires InRange(iov) && Cells(iov) == CellRange(b.head, SIZE - b.Size())
    modifies b.data
    ensures b.Contents() == old(b.Contents())
    ensures Window(b.data[..], b.tail, b.Size() + |bytes|) == old(b.Contents()) + bytes
  {
    ghost var before := b.data[..];
    FreeCellsDistinct(b.head, SIZE - b.Size());
    ScatterBytes(b.data, iov, bytes);
    ScatterExtends(before, b.data[..], b.head, b.tail, bytes);
    assert b.Contents() == Window(b.data[..], b.tail, b.Size() + |bytes|)[..b.Size()];
  }

  class Connection {
    const input: RingBuffer
    const output: RingBuffer
    const fdsIn: RingBuffer
    const fdsOut: RingBuffer
    const kernel: Kernel
    var wantFlush: bool
    var failed: bool  // the owner's latched error: no message is sent after it

    ghost var account: Account  // the history, with what the real fields hold

    ghost predicate Separate() {
      && input != output && input != fdsIn && input != fdsOut && output != fdsIn && output != fdsOut && fdsIn != fdsOut
      && input.data != output.data && input.data != fdsIn.data && input.data != fdsOut.data
      && output.data != fdsIn.data && output.data != fdsOut.data && fdsIn.data != fdsOut.data
    }

    ghost function Rings(): set<object> {
      {input, input.data, output, output.data, fdsIn, fdsIn.data, fdsOut, fdsOut.data}
    }

    ghost predicate Buffers()
      reads input, input.data, output, output.data, fdsIn, fdsIn.data, fdsOut, fdsOut.data
    {
      && Separate() && input.Valid() && output.Valid() && fdsIn.Valid() && fdsOut.Valid()
      && |fdsIn.Contents()| % 4 == 0 && |fdsOut.Contents()| % 4 == 0
    }

    /** An account agrees with the fields. */
    ghost predicate Agrees(a: Account)
      requires Buffers()
      reads this, kernel, input, input.data, output, output.data, fdsIn, fdsIn.data, fdsOut, fdsOut.data
    {
      && a.log == kernel.log
      && a.duplicated == kernel.duplicated && a.received == kernel.received && a.closed == kernel.closed
      && a.outBytes == output.Contents() && a.outFds == FdsIn(fdsOut) && a.inFds == FdsIn(fdsIn)
      && a.wantFlush == wantFlush && a.failed == failed
    }

    /** Brings the account up to date with the fields. */
    ghost method Record(a: Account)
      requires Buffers() && Agrees(a) && a.Valid()
      modifies this`account
      ensures Settled() && account == a
    {
      account := a;
    }

    ghost predicate Settled()
      reads this, kernel, input, input.data, output, output.data, fdsIn, fdsIn.data, fdsOut, fdsOut.data
    {
      Buffers() && Agrees(account) && account.Valid()
    }

    /** No fd is on its way from a recvmsg to the buffer. */
    ghost predicate Valid()
      reads this, kernel, input, input.data, output, output.data, fdsIn, fdsIn.data, fdsOut, fdsOut.data
    {
      Settled() && account.arriving == []
    }

    /** No message is half sent unless the owner's error is latched. */
    ghost predicate Idle()
      reads this, kernel, input, input.data, output, output.data, fdsIn, fdsIn.data, fdsOut, fdsOut.data
    {
      Valid() && (!failed ==> account.partial == [])
    }

    constructor (kernel: Kernel)
      requires kernel.log == [] && kernel.duplicated == kernel.received == kernel.closed == []
      ensures Idle() && fresh(Rings()) && this.kernel == kernel
      ensures input.Contents() == []
      ensures account == NEW_ACCOUNT
    {
      input := new RingBuffer();
      output := new RingBuffer();
      fdsIn := new RingBuffer();
      fdsOut := new RingBuffer();
      this.kernel := kernel;
      wantFlush, failed := false, false;
      account := NEW_ACCOUNT;
      new;
      assert Separate();
      assert Agrees(NEW_ACCOUNT);
      NewAccountValid();
    }

    /** The sendmsg call of a flush: all buffered bytes are offered, with all buffered fds. */
    method Transmit() returns (len: int)
      requires Buffers() && output.Contents() != [] && |FdsIn(fdsOut)| <= MAX_FDS_OUT
      modifies kernel`log
      ensures len == -1 ==> kernel.log == old(kernel.log)
      ensures len != -1 ==> 1 <= len <= |output.Contents()|
      ensures len != -1 ==> kernel.log == old(kernel.log) + [Packet(output.Contents()[..len], FdsIn(fdsOut))]
    {
      var iov := output.GetIov();
      var bytes := GatherBytes(output.data, iov);
      assert bytes == output.Contents();
      var n := fdsOut.Size();
      if n > 4 * MAX_FDS_OUT {
        n := 4 * MAX_FDS_OUT;
      }
      var control := fdsOut.Copy(n);
      assert control == fdsOut.Contents();
      len := kernel.SendMsg(bytes, ReadWords(control));
    }

    /** After a send of `len` bytes: closes the fds that went along and drops the bytes. */
    method DropSent(len: nat)
      requires Buffers() && len <= output.Size() && |FdsIn(fdsOut)| <= MAX_FDS_OUT
      modifies output`tail, fdsOut`tail, kernel`closed
      ensures Buffers() && FdsIn(fdsOut) == [] && output.Contents() == old(output.Contents())[len..]
      ensures kernel.closed == old(kernel.closed) + old(FdsIn(fdsOut)) && FdsIn(fdsIn) == old(FdsIn(fdsIn))
    {
      ghost var fds := FdsIn(fdsOut);
      CloseFds(fdsOut, MAX_FDS_OUT, kernel);
      output.Consume(len);
      assert fds[..|fds|] == fds && fds[|fds|..] == [];
    }

    /** One round of a flush: sends some buffered bytes with all buffered fds, and closes
        the library's copies of the fds. */
    method SendSome() returns (len: int)
      requires Valid() && output.Contents() != []
      modifies this`account, output`tail, fdsOut`tail, kernel`log, kernel`closed
      ensures Valid()
      ensures len == -1 ==> account == old(account)
      ensures len != -1 ==> 1 <= len <= |old(account.outBytes)| && account == Sent(old(account), len)
    {
      len := Transmit();
      if len != -1 {
        SendKeepsAccount(account, len);
        DropSent(len);
        Record(Sent(account, len));
      }
    }

    /** Rounds of sending until nothing is buffered or the socket refuses. */
    method SendAll() returns (ok: bool)
      requires Valid()
      modifies this`account, output`tail, fdsOut`tail, kernel`log, kernel`closed
      ensures Valid() && Flushed(old(account), account)
      ensures ok <==> output.Contents() == []
    {
      FlushedNothing(account);
      while output.Size() > 0
        invariant Valid() && Flushed(old(account), account)
        decreases output.Size()
      {
        ghost var b := account;
        var len := SendSome();
        if len == -1 {
          return false;
        }
        FlushedAgain(old(account), b, len);
      }
      return true;
    }

    /** Sends everything that is buffered, if a flush is wanted. */
    method Flush() returns (r: Result<nat>)
      requires Valid()
      modifies this`wantFlush, this`account, output`tail, fdsOut`tail, kernel`log, kernel`closed
      ensures Valid() && Flushed(old(account), account)
      ensures !old(wantFlush) ==> r == Ok(0) && account == old(account)
      ensures old(wantFlush) && r.Ok? ==> output.Contents() == [] && !wantFlush && r.value == |old(output.Contents())|
      ensures r.Err? ==> wantFlush && output.Contents() != []
    {
      if !wantFlush {
        FlushedNothing(account);
        return Ok(0);
      }
      var tail := output.tail;
      var ok := SendAll();
      if !ok {
        return Err(EAGAIN);
      }
      AllSentMayRest(old(account), account);
      Rest();
      return Ok(Wrap(output.head - tail));
    }

    /** Everything is sent: no flush is wanted any more. */
    method Rest()
      requires Valid() && account.(wantFlush := false).Valid()
      modifies this`wantFlush, this`account
      ensures Valid() && account == old(account).(wantFlush := false)
    {
      wantFlush := false;
      Record(account.(wantFlush := false));
    }

    method BufferFd(fd: Fd)
      requires Buffers() && |FdsIn(fdsOut)| < MAX_FDS_OUT
      modifies fdsOut, fdsOut.data
      ensures Buffers() && FdsIn(fdsOut) == old(FdsIn(fdsOut)) + [fd]
      ensures FdsIn(fdsIn) == old(FdsIn(fdsIn)) && output.Contents() == old(output.Contents())
    {
      ReadWordsAppend(fdsOut.Contents(), fd);
      var _ := fdsOut.Put(WordBytes(fd));
    }

    /** The fd passes from its closure to the buffer of outgoing fds. */
    method AppendFd(fd: Fd)
      requires Valid() && |account.partial| < MAX_ARGS && |account.outFds| < MAX_FDS_OUT && fd in account.held
      modifies this`account, fdsOut, fdsOut.data
      ensures Valid() && account == WithFd(old(account), fd)
    {
      BufferFdKeepsAccount(account, fd);
      BufferFd(fd);
      Record(WithFd(account, fd));
    }

    /** Asks for a flush and does it. */
    method ForceFlush() returns (r: Result<nat>)
      requires Valid()
      modifies this`wantFlush, this`account, output`tail, fdsOut`tail, kernel`log, kernel`closed
      ensures Valid() && Flushed(old(account), account)
      ensures r.Ok? ==> account.outBytes == [] && (old(account.outBytes) != [] ==> account.outFds == [])
      ensures r.Err? ==> wantFlush
    {
      wantFlush := true;
      Record(account.(wantFlush := true));
      r := Flush();
    }

    /** Buffers an fd, flushing first if 28 are buffered: some bytes are then buffered
        too, because a single message has at most 20 fds, so the flush takes the fds. */
    method PutFd(fd: Fd) returns (r: Result<()>, ghost flushed: Account)
      requires Valid() && |account.partial| < MAX_ARGS && fd in account.held
      modifies this`wantFlush, this`account, output`tail, fdsOut, fdsOut.data, kernel`log, kernel`closed
      ensures Valid()
      ensures Flushed(old(account), flushed) && account == if r.Ok? then WithFd(flushed, fd) else flushed
      ensures r.Err? ==> wantFlush
      // a flush is forced exactly by 28 buffered fds, and takes all of them
      ensures |old(account.outFds)| < MAX_FDS_OUT ==> r.Ok? && account == WithFd(old(account), fd)
      ensures |old(account.outFds)| == MAX_FDS_OUT && r.Ok? ==> account.outBytes == [] && account.outFds == [fd]
    {
      FlushedNothing(account);
      if fdsOut.Size() == 4 * MAX_FDS_OUT {
        var f := ForceFlush();
        if f.Err? {
          return Err(f.errno), account;
        }
      }
      flushed := account;
      AppendFd(fd);
      return Ok(()), flushed;
    }

    /** Makes room for a message, flushing if it does not fit behind what is buffered. */
    method MakeRoom(count: nat) returns (r: Result<()>)
      requires Valid()
      modifies this`wantFlush, this`account, output`tail, fdsOut`tail, kernel`log, kernel`closed
      ensures Valid() && Flushed(old(account), account)
      ensures r.Ok? ==> output.Size() + count <= SIZE || (count > SIZE && output.Size() == 0)
      ensures r.Err? ==> wantFlush
      ensures if old(output.Size()) + count <= SIZE then r.Ok? && account == old(account)
              else r.Ok? ==> account.outBytes == []
    {
      FlushedNothing(account);
      if output.Size() + count > SIZE {
        var f := ForceFlush();
        if f.Err? {
          return Err(f.errno);
        }
      }
      return Ok(());
    }

    method BufferBytes(bytes: seq<Byte>) returns (r: Result<()>)
      requires Buffers() && (|bytes| > SIZE || output.Size() + |bytes| <= SIZE)
      modifies output, output.data
      ensures Buffers() && r == if |bytes| > SIZE then Err(E2BIG) else Ok(())
      ensures output.Contents() == old(output.Contents()) + (if r.Ok? then bytes else [])
      ensures FdsIn(fdsIn) == old(FdsIn(fdsIn)) && FdsIn(fdsOut) == old(FdsIn(fdsOut))
    {
      r := output.Put(bytes);
    }

    /** The bytes of a message join the output, and the message counts as accepted. */
    method AppendMessage(bytes: seq<Byte>, post: bool) returns (r: Result<()>)
      requires Valid() && bytes != [] && (|bytes| > SIZE || output.Size() + |bytes| <= SIZE)
      modifies this`wantFlush, this`account, output, output.data
      ensures Valid() && r == if |bytes| > SIZE then Err(E2BIG) else Ok(())
      ensures account == if r.Ok? then WithMessage(old(account), bytes, post) else old(account)
    {
      AcceptKeepsAccount(account, bytes, post);
      r := BufferBytes(bytes);
      if r.Ok? {
        wantFlush := wantFlush || post;
        Record(WithMessage(account, bytes, post));
      }
    }

    /** Buffers the bytes of a message and, if it is posted rather than queued, asks for
        them to be flushed. */
    method PutMessage(bytes: seq<Byte>, post: bool) returns (r: Result<()>, ghost flushed: Account)
      requires Valid() && bytes != []
      modifies this`wantFlush, this`account, output, output.data, fdsOut`tail, kernel`log, kernel`closed
      ensures Valid()
      ensures Flushed(old(account), flushed)
      ensures account == if r.Ok? then WithMessage(flushed, bytes, post) else flushed
      ensures r.Err? ==> |bytes| > SIZE || wantFlush
      ensures |bytes| > SIZE ==> r.Err?
      // a flush is forced exactly by a message that does not fit, and takes all bytes
      ensures |old(account.outBytes)| + |bytes| <= SIZE ==>
                r.Ok? && account == WithMessage(old(account), bytes, post)
      ensures |old(account.outBytes)| + |bytes| > SIZE && r.Ok? ==> account.outBytes == bytes
    {
      r := MakeRoom(|bytes|);
      flushed := account;
      if r.Err? {
        return;
      }
      r := AppendMessage(bytes, post);
    }

    /** Latches the owner's error. */
    method Fail()
      requires Valid()
      modifies this`failed, this`account
      ensures Valid() && failed && account == old(account).(failed := true)
    {
      failed := true;
      FailKeepsAccount(account);
      Record(account.(failed := true));
    }

    /** Closes an fd that a closure still holds. */
    method CloseHeld(fd: Fd)
      requires Valid() && fd in account.held
      modifies this`account, kernel`closed
      ensures Valid() && account == WithClosed(old(account), fd)
    {
      CloseKeepsAccount(account, fd);
      kernel.Close(fd);
      Record(WithClosed(account, fd));
    }

    /** Destroying a closure closes the fds that were not passed on. */
    method DestroyClosure(fds: seq<Fd>)
      requires Valid() && multiset(fds) <= account.held
      modifies this`account, kernel`closed
      ensures Valid() && account == WithAllClosed(old(account), fds)
    {
      for i := 0 to |fds|
        invariant Valid() && account == WithAllClosed(old(account), fds[..i])
      {
        NextClosed(old(account), fds, i);
        CloseHeld(fds[i]);
      }
      assert fds[..|fds|] == fds;
    }

    /** Passes the fds of a closure to the connection, in argument order; on a failure
        the first i were passed. */
    method CopyFds(fds: seq<Fd>) returns (ok: bool, i: nat)
      requires Valid() && account.partial == [] && |fds| <= MAX_ARGS && multiset(fds) <= account.held
      modifies this`wantFlush, this`account, output`tail, fdsOut, fdsOut.data, kernel`log, kernel`closed
      ensures Valid() && i <= |fds| && (ok ==> i == |fds|) && FdsPassed(old(account), account, fds, i)
    {
      i := 0;
      NoFdPassed(account, fds);
      while i < |fds|
        invariant Valid() && i <= |fds| && FdsPassed(old(account), account, fds, i)
      {
        ok := PassFd(fds, i, old(account));
        if !ok {
          return;
        }
        i := i + 1;
      }
      return true, i;
    }

    method PassFd(fds: seq<Fd>, i: nat, ghost a: Account) returns (ok: bool)
      requires Valid() && i < |fds| <= MAX_ARGS && multiset(fds) <= a.held && a.partial == []
      requires FdsPassed(a, account, fds, i)
      modifies this`wantFlush, this`account, output`tail, fdsOut, fdsOut.data, kernel`log, kernel`closed
      ensures Valid() && FdsPassed(a, account, fds, if ok then i + 1 else i)
    {
      ghost var b := account;
      FlushedNothing(b);
      NextFdPassed(a, b, b, fds, i);
      var r;
      ghost var c;
      r, c := PutFd(fds[i]);
      NextFdPassed(a, b, c, fds, i);
      return r.Ok?;
    }

    /** The fds of a closure, then its bytes; on a failure the first i fds were passed. */
    method SendParts(bytes: seq<Byte>, fds: seq<Fd>, post: bool) returns (ok: bool, i: nat)
      requires Idle() && !failed && bytes != [] && |fds| <= MAX_ARGS && multiset(fds) <= account.held
      modifies this`wantFlush, this`account, output, output.data, fdsOut, fdsOut.data, kernel`log, kernel`closed
      ensures Valid() && i <= |fds| && (ok ==> i == |fds|) && PartsSent(old(account), account, bytes, fds, post, ok, i)
      ensures |bytes| > SIZE ==> !ok
    {
      ok, i := CopyFds(fds);
      ghost var b := account;
      if ok {
        var r;
        ghost var c;
        r, c := PutMessage(bytes, post);
        ok := r.Ok?;
        if ok {
          PartsAccepted(old(account), b, c, bytes, fds, post);
        }
      }
    }

    /** Sends or queues a closure and destroys it.  Its bytes are buffered after all its
        fds; on any failure the owner's error is latched. */
    method Send(bytes: seq<Byte>, fds: seq<Fd>, post: bool) returns (ok: bool)
      requires Idle() && !failed && bytes != [] && |fds| <= MAX_ARGS && multiset(fds) <= account.held
      modifies this`wantFlush, this`failed, this`account
      modifies output, output.data, fdsOut, fdsOut.data, kernel`log, kernel`closed
      ensures Idle() && old(kernel.log) <= kernel.log
      ensures account.held == old(account.held) - multiset(fds) && SameIntake(old(account), account)
      ensures ok ==> !failed && account.msgs == old(account.msgs) + [Message(bytes, fds)]
      ensures account.posted == if ok && post then |AllBytes(account.msgs)| else old(account.posted)
      ensures !ok ==> failed && account.msgs == old(account.msgs)
      ensures |bytes| > SIZE ==> !ok
    {
      var i;
      ok, i := SendParts(bytes, fds, post);
      PartsRest(old(account), account, bytes, fds, post, ok, i);
      if !ok {
        Fail();
      }
      DestroyClosure(fds[i..]);
    }

    /** decode_cmsg: control messages are kept whole while they fit; from the first that
        does not fit on, their fds are closed and an overflow is reported. */
    method DecodeCmsgs(cmsgs: seq<seq<Fd>>) returns (ok: bool)
      requires Settled() && account.arriving == Concat(cmsgs)
      modifies this`account, fdsIn, fdsIn.data, kernel`closed
      ensures Settled() && account == Decoded(old(account), Received(old(account), cmsgs), [])
      ensures ok <==> !Received(old(account), cmsgs).overflow
    {
      var overflow := false;
      ghost var a, t := account, Intake([], [], false);
      NothingDecoded(a);
      var rest := cmsgs;
      while rest != []
        invariant Settled() && account == Decoded(a, t, Concat(rest)) && overflow == t.overflow
        invariant Received(a, cmsgs) == AdmitAll(t, FD_SLOTS - |a.inFds|, rest)
        decreases |rest|
      {
        overflow, t := DecodeNext(rest[0], overflow, a, t, Concat(rest[1..]));
        rest := rest[1..];
      }
      return !overflow;
    }

    method DecodeNext(fds: seq<Fd>, overflow: bool, ghost a: Account, ghost t: Intake, ghost rest: seq<Fd>)
      returns (overflow': bool, ghost t': Intake)
      requires Settled() && account == Decoded(a, t, fds + rest) && overflow == t.overflow
      modifies this`account, fdsIn, fdsIn.data, kernel`closed
      ensures Settled() && account == Decoded(a, t', rest) && overflow' == t'.overflow
      ensures t' == Admit(t, FD_SLOTS - |a.inFds|, fds)
    {
      DecodedStep(a, t, fds, rest);
      overflow' := DecodeCmsg(fds, overflow);
      t' := Admit(t, FD_SLOTS - |a.inFds|, fds);
    }

    method DecodeCmsg(fds: seq<Fd>, overflow: bool) returns (overflow': bool)
      requires Settled() && fds <= account.arriving
      modifies this`account, fdsIn, fdsIn.data, kernel`closed
      ensures Settled() && overflow' == (overflow || |old(account.inFds)| + |fds| > FD_SLOTS)
      ensures account == if overflow' then WithDropped(old(account), |fds|) else WithKept(old(account), |fds|)
    {
      var max := SIZE - fdsIn.Size();
      if 4 * |fds| > max || overflow {
        overflow' := true;
        CloseReceived(fds);
      } else {
        overflow' := false;
        KeepReceived(fds);
      }
    }

    method KeepReceived(fds: seq<Fd>)
      requires Settled() && fds <= account.arriving && 4 * |fds| <= SIZE - fdsIn.Size()
      modifies this`account, fdsIn, fdsIn.data
      ensures Settled() && account == WithKept(old(account), |fds|)
    {
      ArrivingSettled(account, |fds|);
      PutFds(fds);
      Record(WithKept(account, |fds|));
    }

    method CloseReceived(fds: seq<Fd>)
      requires Settled() && fds <= account.arriving
      modifies this`account, kernel`closed
      ensures Settled() && account == WithDropped(old(account), |fds|)
    {
      ArrivingSettled(account, |fds|);
      CloseEach(fds);
      Record(WithDropped(account, |fds|));
    }

    method CloseEach(fds: seq<Fd>)
      modifies kernel`closed
      ensures kernel.closed == old(kernel.closed) + fds
    {
      for i := 0 to |fds|
        invariant kernel.closed == old(kernel.closed) + fds[..i]
      {
        kernel.Close(fds[i]);
        assert fds[..i + 1] == fds[..i] + [fds[i]];
      }
      assert fds[..|fds|] == fds;
    }

    method PutFds(fds: seq<Fd>)
      requires Buffers() && 4 * |fds| <= SIZE - fdsIn.Size()
      modifies fdsIn, fdsIn.data
      ensures Buffers() && FdsIn(fdsIn) == old(FdsIn(fdsIn)) + fds
      ensures FdsIn(fdsOut) == old(FdsIn(fdsOut)) && output.Contents() == old(output.Contents())
    {
      FdBlock(fds);
      ReadWordsConcat(fdsIn.Contents(), FdBytes(fds));
      var _ := fdsIn.Put(FdBytes(fds));
    }

    /** The recvmsg call: its bytes land in the first free cells of the input, uncounted. */
    method Receive() returns (len: int, ghost bytes: seq<Byte>, cmsgs: seq<seq<Fd>>)
      requires Buffers() && input.Size() < SIZE
      modifies input.data, kernel`incoming, kernel`received
      ensures Buffers() && -1 <= len && |bytes| == (if len > 0 then len else 0) && input.Size() + |bytes| <= SIZE
      ensures old(kernel.incoming) == bytes + kernel.incoming
      ensures kernel.received == old(kernel.received) + Concat(cmsgs) && (len <= 0 ==> cmsgs == [])
      ensures input.Contents() == old(input.Contents())
      ensures Window(input.data[..], input.tail, input.Size() + |bytes|) == old(input.Contents()) + bytes
    {
      var iov := input.PutIov();
      var received;
      len, received, cmsgs := kernel.RecvMsg(SIZE - input.Size());
      bytes := received;
      Land(input, iov, received);
    }

    /** Reads from the socket into the input buffer: the number of bytes pending after it,
        0 when the peer is gone, or an error.  Every fd that recvmsg delivered is then
        buffered or, after an overflow, closed. */
    method Read() returns (r: Result<nat>, ghost bytes: seq<Byte>, ghost cmsgs: seq<seq<Fd>>)
      requires Valid()
      modifies this`account, input`head, input.data, fdsIn, fdsIn.data
      modifies kernel`incoming, kernel`received, kernel`closed
      ensures Valid() && old(kernel.incoming) == bytes + kernel.incoming
      ensures kernel.received == old(kernel.received) + Concat(cmsgs)
      ensures account == WithIntake(old(account), Received(old(account), cmsgs))
      ensures r.Ok? ==> account == AllKept(old(account), Concat(cmsgs))
      ensures r.Ok? && r.value > 0 ==>
                bytes != [] && input.Contents() == old(input.Contents()) + bytes && r.value == input.Size()
      ensures r.Ok? && r.value == 0 ==> bytes == [] && account == old(account)
      ensures r == Err(EAGAIN) ==> bytes == [] && account == old(account)
      ensures (r.Ok? && r.value == 0) || r.Err? ==> input.Contents() == old(input.Contents())
      ensures old(input.Size()) == SIZE ==> r == Err(EOVERFLOW) && account == old(account)
    {
      NothingDecoded(account);
      NothingKept(account);
      if input.Size() >= SIZE {
        return Err(EOVERFLOW), [], [];
      }
      var len, received;
      len, bytes, received := Receive();
      cmsgs := received;
      if len <= 0 {
        return (if len == 0 then Ok(0) else Err(EAGAIN)), bytes, cmsgs;
      }
      r := CountIn(len, bytes, received);
    }

    /** Takes in the fds that recvmsg delivered. */
    method TakeIn(cmsgs: seq<seq<Fd>>) returns (ok: bool)
      requires Buffers() && account.Valid() && account.arriving == []
      requires Agrees(account.(received := kernel.received)) && kernel.received == account.received + Concat(cmsgs)
      modifies this`account, fdsIn, fdsIn.data, kernel`closed
      ensures Valid() && account == WithIntake(old(account), Received(old(account), cmsgs))
      ensures ok ==> account == AllKept(old(account), Concat(cmsgs))
    {
      ghost var a := account;
      ArrivedValid(a, Concat(cmsgs));
      Record(WithArrived(a, Concat(cmsgs)));
      AllDecoded(a, account, cmsgs);
      ok := DecodeCmsgs(cmsgs);
    }

    /** After the fds of a receive, unless they overflow, counts its bytes in. */
    method CountIn(len: nat, ghost bytes: seq<Byte>, cmsgs: seq<seq<Fd>>) returns (r: Result<nat>)
      requires Buffers() && account.Valid() && account.arriving == []
      requires Agrees(account.(received := kernel.received)) && kernel.received == account.received + Concat(cmsgs)
      requires len == |bytes| > 0 && input.Size() + len <= SIZE
      requires Window(input.data[..], input.tail, input.Size() + len) == input.Contents() + bytes
      modifies this`account, input`head, fdsIn, fdsIn.data, kernel`closed
      ensures Valid() && account == WithIntake(old(account), Received(old(account), cmsgs))
      ensures r.Ok? ==> account == AllKept(old(account), Concat(cmsgs))
      ensures r.Ok? ==> input.Contents() == old(input.Contents()) + bytes && r.value == input.Size()
      ensures r.Err? ==> r == Err(EOVERFLOW) && input.Contents() == old(input.Contents())
    {
      var ok := TakeIn(cmsgs);
      if !ok {
        return Err(EOVERFLOW);
      }
      input.Produce(len);
      return Ok(input.Size());
    }

    /** Demarshalling takes the next received fd, if there is one. */
    method TakeFd() returns (fd: Option<Fd>)
      requires Valid()
      modifies this`account, fdsIn`tail
      ensures Valid()
      ensures fd == if old(account.inFds) == [] then None else Some(old(account.inFds)[0])
      ensures account == if fd.None? then old(account) else WithTaken(old(account))
    {
      if fdsIn.Size() == 0 {
        return None;
      }
      var f := PopFd(fdsIn);
      TakeKeepsAccount(account);
      Record(WithTaken(account));
      return Some(f);
    }

    /** wl_connection_close_fds_in: the fds of a discarded event are closed. */
    method CloseFdsIn(max: nat)
      requires Valid()
      modifies this`account, fdsIn`tail, kernel`closed
      ensures Valid()
      ensures var n := |old(account.inFds)|;
              account == WithDiscarded(old(account), if 0 < max < n then max else n)
    {
      ghost var n := |account.inFds|;
      ghost var k := if 0 < max < n then max else n;
      DiscardKeepsAccount(account, k);
      CloseFds(fdsIn, max, kernel);
      Record(WithDiscarded(account, k));
    }

    /** Marshalling a closure duplicates its fds; the duplicates are the library's to close. */
    method Hold(fds: seq<Fd>)
      requires Valid()
      modifies this`account, kernel`duplicated
      ensures Valid() && account == WithHeld(old(account), fds)
    {
      HeldValid(account, fds);
      kernel.Duplicate(fds);
      Record(WithHeld(account, fds));
    }

    /** Destroying the connection closes every buffered fd, outgoing ones first: every fd the
        kernel made for the library is then closed, as often as it was made, or still in
        the hands of a closure. */
    method Destroy()
      requires Valid()
      modifies fdsIn`tail, fdsOut`tail, kernel`closed
      ensures kernel.closed == old(kernel.closed) + old(FdsIn(fdsOut)) + old(FdsIn(fdsIn))
      ensures multiset(kernel.closed) + account.held == multiset(kernel.duplicated) + multiset(kernel.received)
    {
      ghost var outFds, inFds := FdsIn(fdsOut), FdsIn(fdsIn);
      CloseFds(fdsOut, -1, kernel);
      CloseFds(fdsIn, -1, kernel);
      assert outFds[..|outFds|] == outFds && inFds[..|inFds|] == inFds;
    }

    /** What a sender does: a message is marshalled and sent only while no error is latched;
        a flush may come at any time. */
    method PerformSend(op: Op) returns (ok: bool)
      requires Idle() && (op.SendMsg? || op.FlushMsgs?)
      requires op.SendMsg? ==> op.bytes != [] && |op.fds| <= MAX_ARGS
      modifies this`wantFlush, this`failed, this`account
      modifies output, output.data, fdsOut, fdsOut.data, kernel`log, kernel`duplicated, kernel`closed
      ensures Idle() && Performed(old(account), account, op, ok)
      ensures account.held == old(account.held)
    {
      if op.FlushMsgs? {
        var r := Flush();
        ok := r.Ok?;
        PerformedFlush(old(account), account, op, ok);
      } else if failed {
        return false;
      } else {
        Hold(op.fds);
        ok := Send(op.bytes, op.fds, op.post);
      }
    }

    /** A received fd joins those in the hands of closures. */
    method TakeInto(taken: seq<Fd>) returns (taken': seq<Fd>)
      requires Idle() && account.held == multiset(taken)
      modifies this`account, fdsIn`tail
      ensures Idle() && account.held == multiset(taken') && SameOutput(old(account), account)
    {
      taken' := taken;
      var fd := TakeFd();
      if fd.Some? {
        taken' := taken + [fd.value];
      }
    }

    /** A closure or its handler closes one of its fds. */
    method CloseTakenFd(taken: seq<Fd>, k: nat) returns (taken': seq<Fd>)
      requires Idle() && account.held == multiset(taken) && k < |taken|
      modifies this`account, kernel`closed
      ensures Idle() && account.held == multiset(taken') && SameOutput(old(account), account)
    {
      assert taken == taken[..k] + [taken[k]] + taken[k + 1..];
      taken' := taken[..k] + taken[k + 1..];
      CloseHeld(taken[k]);
    }

    /** What a receiver does: it reads, takes fds for closures, closes those of discarded
        events and those of destroyed closures. */
    method PerformReceive(op: Op, taken: seq<Fd>) returns (taken': seq<Fd>)
      requires Idle() && !op.SendMsg? && !op.FlushMsgs? && account.held == multiset(taken)
      modifies this`account, input`head, input.data, fdsIn, fdsIn.data
      modifies kernel`incoming, kernel`received, kernel`closed
      ensures Idle() && account.held == multiset(taken') && SameOutput(old(account), account)
    {
      taken' := taken;
      if op.ReadSocket? {
        var r;
        ghost var bytes, cmsgs;
        r, bytes, cmsgs := Read();
      } else if op.TakeReceived? {
        taken' := TakeInto(taken);
      } else if op.DiscardReceived? {
        CloseFdsIn(op.max);
      } else if op.k < |taken| {
        taken' := CloseTakenFd(taken, op.k);
      }
    }
  }

  datatype Op =
    | SendMsg(bytes: seq<Byte>, fds: seq<Fd>, post: bool)
    | FlushMsgs
    | ReadSocket
    | TakeReceived
    | DiscardReceived(max: nat)
    | CloseTaken(k: nat)

  /** a and b agree on the sending side. */
  predicate SameOutput(a: Account, b: Account) {
    && b.msgs == a.msgs && b.posted == a.posted && b.failed == a.failed && b.duplicated == a.duplicated
  }

  /** What an operation does to the sending side: an accepted message joins, and its bytes
      count as posted if it was posted; a refused one latches the error, after which
      nothing is duplicated any more. */
  ghost predicate Performed(a: Account, b: Account, op: Op, ok: bool) {
    if !op.SendMsg? then SameOutput(a, b)
    else
      && b.msgs == a.msgs + (if ok then [Message(op.bytes, op.fds)] else [])
      && b.posted == (if ok && op.post then |AllBytes(b.msgs)| else a.posted)
      && b.failed == (a.failed || !ok)
      && b.duplicated == a.duplicated + (if a.failed then [] else op.fds)
  }

  lemma PerformedFlush(a: Account, b: Account, op: Op, ok: bool)
    requires op.FlushMsgs? && Flushed(a, b)
    ensures Performed(a, b, op, ok) && b.held == a.held && b.arriving == a.arriving
  {
  }

  /** The messages whose sending was reported as successful. */
  function Accepted(ops: seq<Op>, oks: seq<bool>): (m: seq<Message>)
    requires |ops| == |oks|
  {
    if ops == [] then []
    else
      var n := |ops| - 1;
      Accepted(ops[..n], oks[..n]) + (if oks[n] && ops[n].SendMsg? then [Message(ops[n].bytes, ops[n].fds)] else [])
  }

  /** The bytes of all messages up to the last accepted one that was posted. */
  function Posted(ops: seq<Op>, oks: seq<bool>): (n: nat)
    requires |ops| == |oks|
  {
    if ops == [] then 0
    else
      var n := |ops| - 1;
      if oks[n] && ops[n].SendMsg? && ops[n].post then |AllBytes(Accepted(ops, oks))| else Posted(ops[..n], oks[..n])
  }

  /** Some message was refused. */
  predicate Refusal(ops: seq<Op>, oks: seq<bool>)
    requires |ops| == |oks|
  {
    exists i :: 0 <= i < |ops| && ops[i].SendMsg? && !oks[i]
  }

  /** The fds of all messages up to the first refused one. */
  function Duplicates(ops: seq<Op>, oks: seq<bool>): (f: seq<Fd>)
    requires |ops| == |oks|
  {
    if ops == [] then []
    else
      var n := |ops| - 1;
      Duplicates(ops[..n], oks[..n]) + (if ops[n].SendMsg? && !Refusal(ops[..n], oks[..n]) then ops[n].fds else [])
  }

  /** The sending side of an account is what the operations and their results say. */
  ghost predicate Explains(a: Account, ops: seq<Op>, oks: seq<bool>)
    requires |ops| == |oks|
  {
    && a.msgs == Accepted(ops, oks) && a.posted == Posted(ops, oks)
    && a.failed == Refusal(ops, oks) && a.duplicated == Duplicates(ops, oks)
  }

  lemma ExplainsNext(a: Account, b: Account, all: seq<Op>, n: nat, oks: seq<bool>, ok: bool)
    requires |oks| == n < |all| && Explains(a, all[..n], oks) && Performed(a, b, all[n], ok)
    ensures Explains(b, all[..n + 1], oks + [ok])
  {
    var ops, ops', oks' := all[..n], all[..n + 1], oks + [ok];
    assert ops'[..n] == ops && oks'[..n] == oks && ops'[n] == all[n] && oks'[n] == ok;
    assert Refusal(ops', oks') == (Refusal(ops, oks) || (all[n].SendMsg? && !ok)) by {
      if Refusal(ops, oks) {
        var i :| 0 <= i < |ops| && ops[i].SendMsg? && !oks[i];
        assert ops'[i].SendMsg? && !oks'[i];
      }
    }
  }

  /** One operation of either kind; taken are the received fds in the hands of closures. */
  method Perform(c: Connection, op: Op, taken: seq<Fd>) returns (ok: bool, taken': seq<Fd>)
    requires c.Idle() && c.account.held == multiset(taken)
    requires op.SendMsg? ==> op.bytes != [] && |op.fds| <= MAX_ARGS
    modifies c`wantFlush, c`failed, c`account, c.input, c.input.data, c.output, c.output.data
    modifies c.fdsIn, c.fdsIn.data, c.fdsOut, c.fdsOut.data, c.kernel
    ensures c.Idle() && c.account.held == multiset(taken') && Performed(old(c.account), c.account, op, ok)
  {
    if op.SendMsg? || op.FlushMsgs? {
      ok := c.PerformSend(op);
      taken' := taken;
    } else {
      ok := true;
      taken' := c.PerformReceive(op, taken);
    }
  }

  /** Any run of a new connection, with the socket accepting and giving as much or as little
      as it likes.  The bytes sent are a prefix of the accepted messages, in order; however
      many packets the peer has seen, every message of which it has a byte has all its fds
      there; a flush is wanted while posted bytes are unsent; and every fd that the kernel
      duplicated or delivered is closed, buffered or in the hands of a closure. */
  method RunConnection(c: Connection, ops: seq<Op>) returns (oks: seq<bool>, taken: seq<Fd>)
    requires c.Idle() && c.account == NEW_ACCOUNT
    requires forall i :: 0 <= i < |ops| && ops[i].SendMsg? ==> ops[i].bytes != [] && |ops[i].fds| <= MAX_ARGS
    modifies c`wantFlush, c`failed, c`account, c.input, c.input.data, c.output, c.output.data
    modifies c.fdsIn, c.fdsIn.data, c.fdsOut, c.fdsOut.data, c.kernel
    ensures |oks| == |ops| && c.Idle() && c.account.msgs == Accepted(ops, oks)
    ensures c.account.held == multiset(taken)
    ensures SentBytes(c.kernel.log) + c.output.Contents() == AllBytes(Accepted(ops, oks))
    ensures forall k, i :: 0 <= k <= |c.kernel.log| && 0 <= i < |Accepted(ops, oks)| ==>
              FdsBeforeBytes(c.kernel.log, Accepted(ops, oks), k, i)
    ensures NoEmptyPacket(c.kernel.log) && |FdsIn(c.fdsOut)| <= MAX_FDS_OUT
    ensures Posted(ops, oks) > |SentBytes(c.kernel.log)| ==> c.wantFlush
    ensures c.failed <==> Refusal(ops, oks)
    ensures c.kernel.duplicated == Duplicates(ops, oks)
    ensures multiset(c.kernel.duplicated) + multiset(c.kernel.received)
         == multiset(c.kernel.closed) + multiset(FdsIn(c.fdsIn)) + multiset(FdsIn(c.fdsOut)) + multiset(taken)
  {
    oks, taken := [], [];
    for n := 0 to |ops|
      invariant |oks| == n && c.Idle() && Explains(c.account, ops[..n], oks)
      invariant c.account.held == multiset(taken)
    {
      ghost var a := c.account;
      var ok;
      ok, taken := Perform(c, ops[n], taken);
      ExplainsNext(a, c.account, ops, n, oks, ok);
      oks := oks + [ok];
    }
    assert ops[..|ops|] == ops;
  }

  /** After any run and the destruction of the connection, every fd that the kernel made for
      it was closed exactly as often as it was made, but for those that closures took. */
  method RunToTheEnd(c: Connection, ops: seq<Op>) returns (taken: seq<Fd>)
    requires c.Idle() && c.account == NEW_ACCOUNT
    requires forall i :: 0 <= i < |ops| && ops[i].SendMsg? ==> ops[i].bytes != [] && |ops[i].fds| <= MAX_ARGS
    modifies c`wantFlush, c`failed, c`account, c.input, c.input.data, c.output, c.output.data
    modifies c.fdsIn, c.fdsIn.data, c.fdsOut, c.fdsOut.data, c.kernel
    ensures multiset(c.kernel.closed) + multiset(taken)
         == multiset(c.kernel.duplicated) + multiset(c.kernel.received)
  {
    var oks;
    oks, taken := RunConnection(c, ops);
    c.Destroy();
  }
}
