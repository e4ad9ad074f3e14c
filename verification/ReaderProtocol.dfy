/** Reading from the display's socket by any number of threads.

    Every operation runs under the display's mutex, so a run is a sequence of operations,
    each by some thread.  A thread that sleeps in wl_display_read_events holds the serial
    it saw when it fell asleep. */
module ReaderProtocol {
  import opened Wrappers

  const ENOMEM := 12
  const EFAULT := 14
  const EINVAL := 22
  const EPIPE := 32
  const EPROTO := 71

  // the error codes of the display interface
  const INVALID_OBJECT := 0
  const INVALID_METHOD := 1
  const NO_MEMORY := 2
  const IMPLEMENTATION := 3

  type Thread = nat
  type Queue = nat
  type Event = nat

  /** A prepared thread remembers, for the statement of the promise made to it, how many
      socket reads there had been. */
  datatype Status = Idle | Prepared(queue: Queue, readsThen: nat) | Sleeping(queue: Queue, serial: nat)

  /** What the socket gives to the thread that reads. */
  datatype Input =
    | NothingYet                                                 // EAGAIN
    | Failure(error: int)
    | HungUp                                                     // the peer has closed the socket
    | Arrived(events: seq<(Queue, Event)>, broken: Option<int>)  // then perhaps a message in error

  /** What is latched for an error number; 0 is no error. */
  function NonZero(error: int): (e: int)
    ensures e != 0
  {
    if error == 0 then EFAULT else error
  }

  /** An error event: its code, the object in error, and whether that is a display. */
  datatype Report = Report(code: nat, id: nat, onDisplay: bool)

  /** The error number of an error event; codes have a meaning only on the display. */
  function ProtocolErrno(r: Report): (e: int)
    ensures e != 0
  {
    if !r.onDisplay then EPROTO
    else if r.code == INVALID_OBJECT || r.code == INVALID_METHOD then EINVAL
    else if r.code == NO_MEMORY then ENOMEM
    else if r.code == IMPLEMENTATION then EPROTO
    else EFAULT
  }

  /** The error that reading this input latches, 0 for none. */
  function ErrorOf(input: Input): int {
    match input
    case NothingYet => 0
    case Failure(error) => NonZero(error)
    case HungUp => EPIPE
    case Arrived(_, broken) => if broken.Some? then NonZero(broken.value) else 0
  }

  function StatusOf(threads: map<Thread, Status>, t: Thread): Status {
    if t in threads then threads[t] else Idle
  }

  function EventsOf(queues: map<Queue, seq<Event>>, q: Queue): seq<Event> {
    if q in queues then queues[q] else []
  }

  function PreparedThreads(threads: map<Thread, Status>): (s: set<Thread>)
    ensures forall t :: t in s <==> StatusOf(threads, t).Prepared?
  {
    set t | t in threads && threads[t].Prepared?
  }

  /** Threads that would not wake up if the condition variable were signalled now. */
  predicate Asleep(threads: map<Thread, Status>, serial: nat, t: Thread) {
    StatusOf(threads, t).Sleeping? && threads[t].serial == serial
  }

  /** The queues after more events have arrived for them. */
  function Extended(queues: map<Queue, seq<Event>>, events: seq<(Queue, Event)>): (m: map<Queue, seq<Event>>) {
    if events == [] then queues
    else
      var m, last := Extended(queues, events[..|events| - 1]), events[|events| - 1];
      m[last.0 := EventsOf(m, last.0) + [last.1]]
  }

  lemma ExtendedNext(queues: map<Queue, seq<Event>>, events: seq<(Queue, Event)>, i: nat)
    requires i < |events|
    ensures var m, (q, e) := Extended(queues, events[..i]), events[i];
            Extended(queues, events[..i + 1]) == m[q := EventsOf(m, q) + [e]]
  {
    assert events[..i + 1][..i] == events[..i];
  }

  /** Every queue holds the events for it that have arrived and were not yet dispatched, in
      the order of arrival. */
  ghost predicate InOrder(arrived: map<Queue, seq<Event>>, dispatched: map<Queue, seq<Event>>,
                          queues: map<Queue, seq<Event>>)
  {
    forall q: Queue :: EventsOf(arrived, q) == EventsOf(dispatched, q) + EventsOf(queues, q)
  }

  lemma EventArrives(arrived: map<Queue, seq<Event>>, dispatched: map<Queue, seq<Event>>,
                     queues: map<Queue, seq<Event>>, q: Queue, e: Event)
    requires InOrder(arrived, dispatched, queues)
    ensures InOrder(arrived[q := EventsOf(arrived, q) + [e]], dispatched, queues[q := EventsOf(queues, q) + [e]])
  {
    assert EventsOf(dispatched, q) + EventsOf(queues, q) + [e]
        == EventsOf(dispatched, q) + (EventsOf(queues, q) + [e]);
  }

  lemma EventLeaves(arrived: map<Queue, seq<Event>>, dispatched: map<Queue, seq<Event>>,
                    queues: map<Queue, seq<Event>>, q: Queue)
    requires InOrder(arrived, dispatched, queues) && EventsOf(queues, q) != []
    ensures InOrder(arrived, dispatched[q := EventsOf(dispatched, q) + [queues[q][0]]], queues[q := queues[q][1..]])
  {
    assert EventsOf(dispatched, q) + queues[q] == EventsOf(dispatched, q) + [queues[q][0]] + queues[q][1..];
  }

  /** The reader count is the number of prepared threads, whose queues are empty and who
      have missed no read; a sleeper that nobody has woken waits for a prepared thread, and
      its queue is empty too. */
  ghost predicate ThreadsOk(threads: map<Thread, Status>, queues: map<Queue, seq<Event>>, readerCount: int,
                            readSerial: nat, readsDone: nat)
  {
    && readerCount == |PreparedThreads(threads)|
    && (forall t :: t in threads && threads[t].Prepared? ==>
          EventsOf(queues, threads[t].queue) == [] && threads[t].readsThen == readsDone)
    && (forall t :: t in threads && threads[t].Sleeping? ==> threads[t].serial <= readSerial)
    && (forall t :: t in threads && Asleep(threads, readSerial, t) ==>
          readerCount > 0 && EventsOf(queues, threads[t].queue) == [])
  }

  /** A prepared thread leaves; the last one to leave wakes the others. */
  lemma LeavesOk(threads: map<Thread, Status>, queues: map<Queue, seq<Event>>, n: int, serial: nat, readsDone: nat,
                 t: Thread, s: Status)
    requires ThreadsOk(threads, queues, n, serial, readsDone) && StatusOf(threads, t).Prepared?
    requires s == Idle || (s == Sleeping(threads[t].queue, serial) && n > 1)
    ensures ThreadsOk(threads[t := s], queues, n - 1, if n == 1 then serial + 1 else serial, readsDone)
  {
    Leave(threads, t, s);
  }

  class Display {
    var readerCount: int
    var readSerial: nat
    var lastError: int
    var protocolError: Option<Report>          // the error event behind the latched error
    var reporting: seq<Report>                 // error events found to be the first error, not latched yet
    var queues: map<Queue, seq<Event>>
    var threads: map<Thread, Status>
    var readsDone: nat                         // socket reads so far
    ghost var arrived: map<Queue, seq<Event>>     // for each queue, all events read so far
    ghost var dispatched: map<Queue, seq<Event>>  // and all events dispatched so far

    ghost predicate Valid()
      reads this
    {
      && ThreadsOk(threads, queues, readerCount, readSerial, readsDone)
      && InOrder(arrived, dispatched, queues)
    }

    function Latched(): Latch
      reads `lastError, `protocolError, `reporting
    {
      Latch(lastError, protocolError, reporting)
    }

    constructor ()
      ensures Valid() && threads == map[] && queues == map[] && arrived == dispatched == map[]
      ensures lastError == 0 && readSerial == 0 && readsDone == 0 && protocolError == None && reporting == []
    {
      readerCount, readSerial, lastError, readsDone := 0, 0, 0, 0;
      queues, threads := map[], map[];
      arrived, dispatched := map[], map[];
      protocolError, reporting := None, [];
    }

    /** display_wakeup_threads: every sleeper now sees another serial. */
    method WakeupThreads()
      modifies `readSerial
      ensures readSerial == old(readSerial) + 1
    {
      readSerial := readSerial + 1;
    }

    /** display_fatal_error. */
    method FatalError(error: int)
      modifies `readSerial, `lastError
      ensures if old(lastError) != 0 then lastError == old(lastError) && readSerial == old(readSerial)
              else lastError == NonZero(error) && readSerial == old(readSerial) + 1
    {
      if lastError != 0 {
        return;
      }
      lastError := if error == 0 then EFAULT else error;
      WakeupThreads();
    }

    /** cancel_read: a prepared thread leaves, and the last one to leave wakes the others. */
    method CancelReadLocked(t: Thread)
      requires Valid() && StatusOf(threads, t).Prepared?
      modifies `readerCount, `readSerial, `threads
      ensures Valid() && threads == old(threads)[t := Idle]
      ensures readSerial == if readerCount == 0 then old(readSerial) + 1 else old(readSerial)
    {
      LeavesOk(threads, queues, readerCount, readSerial, readsDone, t, Idle);
      threads := threads[t := Idle];
      readerCount := readerCount - 1;
      if readerCount == 0 {
        WakeupThreads();
      }
    }

    /** wl_display_prepare_read_queue. */
    method PrepareReadQueue(t: Thread, q: Queue) returns (error: Option<Errno>)
      requires Valid() && StatusOf(threads, t).Idle?
      modifies `readerCount, `threads
      ensures Valid()
      ensures error == if EventsOf(queues, q) == [] then None else Some(EAGAIN)
      ensures threads == if error.None? then old(threads)[t := Prepared(q, readsDone)] else old(threads)
    {
      if EventsOf(queues, q) != [] {
        return Some(EAGAIN);
      }
      Enter(threads, t, q, readsDone);
      readerCount := readerCount + 1;
      threads := threads[t := Prepared(q, readsDone)];
      return None;
    }

    /** Events from the socket join the queues of their objects, as queue_event does. */
    method QueueEvents(events: seq<(Queue, Event)>)
      requires InOrder(arrived, dispatched, queues)
      modifies `queues, `arrived
      ensures arrived == Extended(old(arrived), events) && InOrder(arrived, dispatched, queues)
    {
      for i := 0 to |events|
        invariant arrived == Extended(old(arrived), events[..i]) && InOrder(arrived, dispatched, queues)
      {
        var (q, e) := events[i];
        EventArrives(arrived, dispatched, queues, q, e);
        ExtendedNext(old(arrived), events, i);
        queues := queues[q := EventsOf(queues, q) + [e]];
        arrived := arrived[q := EventsOf(arrived, q) + [e]];
      }
      assert events[..|events|] == events;
    }

    /** The part of read_events that the last prepared thread runs. */
    method ReadSocket(input: Input) returns (failed: bool)
      requires lastError == 0 && InOrder(arrived, dispatched, queues)
      modifies `readSerial, `lastError, `queues, `arrived, `readsDone
      ensures InOrder(arrived, dispatched, queues) && readSerial == old(readSerial) + 1
      ensures readsDone == old(readsDone) + 1
      ensures arrived == if input.Arrived? then Extended(old(arrived), input.events) else old(arrived)
      ensures lastError == ErrorOf(input) && failed == (lastError != 0)
    {
      readsDone := readsDone + 1;
      match input {
      case NothingYet =>
        WakeupThreads();
        failed := false;
      case Failure(error) =>
        FatalError(error);
        failed := true;
      case HungUp =>
        FatalError(EPIPE);
        failed := true;
      case Arrived(events, broken) =>
        QueueEvents(events);
        if broken.Some? {
          FatalError(broken.value);
        } else {
          WakeupThreads();
        }
        failed := broken.Some?;
      }
    }

    /** wl_display_read_events up to the point where a thread may sleep: after an error the
        thread only leaves; otherwise the last prepared thread reads the socket and wakes
        the sleepers, and the others fall asleep.  The socket is read exactly when nobody
        else is prepared. */
    method ReadEvents(t: Thread, input: Input) returns (failed: bool)
      requires Valid() && StatusOf(threads, t).Prepared?
      modifies this
      ensures Valid() && dispatched == old(dispatched)
      ensures reporting == old(reporting) && protocolError == old(protocolError)
      ensures var last := old(PreparedThreads(threads)) == {t};
              var reading := last && old(lastError) == 0;
              && readsDone == old(readsDone) + (if reading then 1 else 0)
              && arrived == (if reading && input.Arrived? then Extended(old(arrived), input.events) else old(arrived))
              && (!reading ==> queues == old(queues) && lastError == old(lastError))
              && threads == old(threads)[t := if last || old(lastError) != 0 then Idle
                                           else Sleeping(old(threads)[t].queue, readSerial)]
              && readSerial == old(readSerial) + (if last then 1 else 0)
              && (old(lastError) != 0 ==> failed)
              && (reading ==> lastError == ErrorOf(input) && failed == (lastError != 0))
              && (!reading && old(lastError) == 0 ==> !failed)
    {
      OnlyOne(threads, t);
      if lastError != 0 {
        Leave(threads, t, Idle);
        CancelReadLocked(t);
        return true;
      }
      readerCount := readerCount - 1;
      if readerCount == 0 {
        Leave(threads, t, Idle);
        threads := threads[t := Idle];
        failed := ReadSocket(input);
        NonePrepared(threads);
      } else {
        LeavesOk(threads, queues, readerCount + 1, readSerial, readsDone, t, Sleeping(threads[t].queue, readSerial));
        threads := threads[t := Sleeping(threads[t].queue, readSerial)];
        failed := false;
      }
    }

    /** wl_display_cancel_read. */
    method CancelRead(t: Thread)
      requires Valid() && StatusOf(threads, t).Prepared?
      modifies `readerCount, `readSerial, `threads
      ensures Valid() && threads == old(threads)[t := Idle]
      ensures PreparedThreads(old(threads)) == {t} ==> readSerial == old(readSerial) + 1
      ensures PreparedThreads(old(threads)) != {t} ==> readSerial == old(readSerial)
    {
      OnlyOne(threads, t);
      Leave(threads, t, Idle);
      CancelReadLocked(t);
    }

    /** A sleeper looks at the serial again, after a signal or for no reason at all, and
        returns if it has changed. */
    method WakeUp(t: Thread) returns (returned: bool, failed: bool)
      requires Valid() && StatusOf(threads, t).Sleeping?
      modifies `threads
      ensures Valid() && returned == !old(Asleep(threads, readSerial, t)) && failed == (returned && lastError != 0)
      ensures threads == if returned then old(threads)[t := Idle] else old(threads)
    {
      returned, failed := false, false;
      if threads[t].serial != readSerial {
        assert PreparedThreads(threads[t := Idle]) == PreparedThreads(threads);
        threads := threads[t := Idle];
        returned, failed := true, lastError != 0;
      }
    }

    /** The locked part of dispatch_event: the first event leaves its queue. */
    method DispatchEvent(q: Queue) returns (e: Event)
      requires Valid() && EventsOf(queues, q) != []
      modifies `queues, `dispatched
      ensures Valid() && old(EventsOf(queues, q)) == [e] + EventsOf(queues, q)
      ensures dispatched == old(dispatched)[q := EventsOf(old(dispatched), q) + [e]]
    {
      EventLeaves(arrived, dispatched, queues, q);
      e := queues[q][0];
      queues := queues[q := queues[q][1..]];
      dispatched := dispatched[q := EventsOf(dispatched, q) + [e]];
    }

    /** A local error, such as a failed flush. */
    method FailLocally(error: int)
      requires Valid()
      modifies `readSerial, `lastError
      ensures Valid() && lastError == if old(lastError) != 0 then old(lastError) else NonZero(error)
    {
      FatalError(error);
    }

    /** The first half of display_protocol_error, which looks at the latched error without the
        mutex: only if there is none yet will this one be latched. */
    method CheckProtocolError(r: Report) returns (first: bool)
      requires Valid()
      modifies `reporting
      ensures Valid() && first == (lastError == 0)
      ensures reporting == old(reporting) + (if first then [r] else [])
    {
      if lastError != 0 {
        return false;
      }
      reporting := reporting + [r];
      return true;
    }

    /** The second half, under the mutex, which wakes nobody and does not look again. */
    method LatchProtocolError(k: nat)
      requires Valid() && k < |reporting|
      modifies `lastError, `protocolError, `reporting
      ensures Valid() && lastError == ProtocolErrno(old(reporting)[k]) != 0
      ensures protocolError == Some(old(reporting)[k])
      ensures reporting == old(reporting)[..k] + old(reporting)[k + 1..]
    {
      lastError := ProtocolErrno(reporting[k]);
      protocolError := Some(reporting[k]);
      reporting := reporting[..k] + reporting[k + 1..];
    }

    /** display_protocol_error with nothing in between: the first error stays. */
    method ProtocolError(r: Report)
      requires Valid()
      modifies `lastError, `protocolError, `reporting
      ensures Valid() && reporting == old(reporting)
      ensures if old(lastError) != 0 then lastError == old(lastError) && protocolError == old(protocolError)
              else lastError == ProtocolErrno(r) && protocolError == Some(r)
    {
      var first := CheckProtocolError(r);
      if first {
        LatchProtocolError(|reporting| - 1);
      }
    }

    /** Nobody sleeps in vain: as long as a sleeper has not been woken, some thread is
        prepared and has still to read or to cancel, and nothing waits in the sleeper's
        queue. */
    lemma SleeperHasReader(t: Thread) returns (u: Thread)
      requires Valid() && Asleep(threads, readSerial, t)
      ensures StatusOf(threads, u).Prepared? && u != t && EventsOf(queues, threads[t].queue) == []
    {
      assert t in threads;
      var s := PreparedThreads(threads);
      assert s != {};
      u :| u in s;
    }

    /** The promise of wl_display_prepare_read_queue: a prepared thread's queue is empty, and
        nobody has read the socket since it prepared. */
    lemma PreparedMissesNothing(t: Thread)
      requires Valid() && StatusOf(threads, t).Prepared?
      ensures EventsOf(queues, threads[t].queue) == [] && threads[t].readsThen == readsDone
    {
      assert t in threads && threads[t].Prepared?;
    }

    /** Once every prepared thread has read or cancelled, every sleeper can return. */
    method Settle()
      requires Valid()
      modifies this
      ensures Valid() && PreparedThreads(threads) == {}
      ensures forall t :: t in threads ==> !Asleep(threads, readSerial, t)
    {
      while readerCount > 0
        invariant Valid()
        decreases readerCount
      {
        var s := PreparedThreads(threads);
        assert s != {};
        var t :| t in s;
        var reading: bool, input: Input := *, *;
        OnlyOne(threads, t);
        Leave(threads, t, Idle);
        Leave(threads, t, Sleeping(threads[t].queue, readSerial));
        if reading {
          var failed := ReadEvents(t, input);
        } else {
          CancelRead(t);
        }
      }
    }
  }

  lemma Enter(threads: map<Thread, Status>, t: Thread, q: Queue, n: nat)
    requires !StatusOf(threads, t).Prepared?
    ensures |PreparedThreads(threads[t := Prepared(q, n)])| == |PreparedThreads(threads)| + 1
  {
    assert PreparedThreads(threads[t := Prepared(q, n)]) == PreparedThreads(threads) + {t};
  }

  lemma Leave(threads: map<Thread, Status>, t: Thread, s: Status)
    requires StatusOf(threads, t).Prepared? && !s.Prepared?
    ensures |PreparedThreads(threads[t := s])| == |PreparedThreads(threads)| - 1 >= 0
  {
    assert PreparedThreads(threads) == PreparedThreads(threads[t := s]) + {t};
  }

  lemma OnlyOne(threads: map<Thread, Status>, t: Thread)
    requires StatusOf(threads, t).Prepared?
    ensures |PreparedThreads(threads)| == 1 <==> PreparedThreads(threads) == {t}
  {
    var s := PreparedThreads(threads);
    assert s == (s - {t}) + {t};
    if |s| == 1 {
      assert |s - {t}| == 0;
    }
  }

  lemma NonePrepared(threads: map<Thread, Status>)
    requires |PreparedThreads(threads)| == 0
    ensures forall t :: t in threads ==> !threads[t].Prepared?
  {
    forall t | t in threads ensures !threads[t].Prepared? {
      assert t !in PreparedThreads(threads);
    }
  }

  /** One step of some thread. */
  datatype Action =
    | Prepare(t: Thread, q: Queue)
    | Read(t: Thread, input: Input)
    | Cancel(t: Thread)
    | Wake(t: Thread)
    | Dispatch(q: Queue)
    | LocalError(error: int)
    | RemoteError(report: Report)
    | RemoteCheck(report: Report)
    | RemoteLatch(k: nat)

  /** What is latched, the error event behind it, and the error events that were found to be
      the first error and wait for the mutex. */
  datatype Latch = Latch(error: int, report: Option<Report>, reporting: seq<Report>)

  /** After a step, once an error is latched. */
  function AfterAction(l: Latch, a: Action): Latch {
    if a.RemoteLatch? && a.k < |l.reporting| then
      Latch(ProtocolErrno(l.reporting[a.k]), Some(l.reporting[a.k]), l.reporting[..a.k] + l.reporting[a.k + 1..])
    else l
  }

  function AfterActions(l: Latch, actions: seq<Action>): (l': Latch)
    decreases |actions|
  {
    if actions == [] then l
    else AfterAction(AfterActions(l, actions[..|actions| - 1]), actions[|actions| - 1])
  }

  /** Performs a step; what the interface forbids in the current state is left out.  A
      latched error changes exactly if an error event is latched that was checked before and
      has another number. */
  method Perform(d: Display, a: Action)
    requires d.Valid()
    modifies d
    ensures d.Valid()
    ensures old(d.lastError) != 0 ==>
              (d.lastError != old(d.lastError) <==>
                 a.RemoteLatch? && a.k < |old(d.reporting)| && ProtocolErrno(old(d.reporting)[a.k]) != old(d.lastError))
    ensures old(d.lastError) != 0 ==> d.Latched() == AfterAction(old(d.Latched()), a) && d.lastError != 0
  {
    match a
    case Prepare(t, q) =>
      if StatusOf(d.threads, t).Idle? {
        var error := d.PrepareReadQueue(t, q);
      }
    case Read(t, input) =>
      if StatusOf(d.threads, t).Prepared? {
        var failed := d.ReadEvents(t, input);
      }
    case Cancel(t) =>
      if StatusOf(d.threads, t).Prepared? {
        d.CancelRead(t);
      }
    case Wake(t) =>
      if StatusOf(d.threads, t).Sleeping? {
        var returned, failed := d.WakeUp(t);
      }
    case Dispatch(q) =>
      if EventsOf(d.queues, q) != [] {
        var e := d.DispatchEvent(q);
      }
    case LocalError(error) =>
      d.FailLocally(error);
    case RemoteError(report) =>
      d.ProtocolError(report);
    case RemoteCheck(report) =>
      var first := d.CheckProtocolError(report);
    case RemoteLatch(k) =>
      if k < |d.reporting| {
        d.LatchProtocolError(k);
      }
  }

  /** Every run of any number of threads: the reader count is right, no sleeper is forgotten,
      prepared threads miss nothing, and every queue delivers in the order of arrival. */
  method Run(actions: seq<Action>) returns (d: Display)
    ensures fresh(d) && d.Valid()
    ensures d.readerCount == |PreparedThreads(d.threads)|
    ensures (exists t :: t in d.threads && Asleep(d.threads, d.readSerial, t)) ==> PreparedThreads(d.threads) != {}
    ensures forall q: Queue :: EventsOf(d.dispatched, q) <= EventsOf(d.arrived, q)
  {
    d := new Display();
    for i := 0 to |actions|
      invariant fresh(d) && d.Valid()
    {
      Perform(d, actions[i]);
    }
    forall q: Queue ensures EventsOf(d.dispatched, q) <= EventsOf(d.arrived, q) {
      assert EventsOf(d.arrived, q) == EventsOf(d.dispatched, q) + EventsOf(d.queues, q);
    }
  }

  /** Thread 0 reads one event for queue 0. */
  method OneEvent() returns (d: Display)
    ensures fresh(d) && d.Valid() && d.threads == map[0 := Idle] && d.lastError == 0
    ensures forall q: Queue :: EventsOf(d.queues, q) == if q == 0 then [7] else []
  {
    d := new Display();
    var error := d.PrepareReadQueue(0, 0);
    assert PreparedThreads(d.threads) == {0};
    var failed := d.ReadEvents(0, Arrived([(0, 7)], None));
    OnlyEvent(d.arrived, d.dispatched, d.queues);
  }

  lemma OnlyEvent(arrived: map<Queue, seq<Event>>, dispatched: map<Queue, seq<Event>>, queues: map<Queue, seq<Event>>)
    requires InOrder(arrived, dispatched, queues) && arrived == Extended(map[], [(0, 7)]) && dispatched == map[]
    ensures forall q: Queue :: EventsOf(queues, q) == if q == 0 then [7] else []
  {
    ExtendedNext(map[], [(0, 7)], 0);
    assert [(0, 7)][..1] == [(0, 7)];
    forall q: Queue ensures EventsOf(queues, q) == if q == 0 then [7] else [] {
      assert EventsOf(dispatched, q) + EventsOf(queues, q) == EventsOf(queues, q);
      assert EventsOf(arrived, q) == if q == 0 then [7] else [];
    }
  }

  /** Threads 1 and 2 prepare to read for an empty queue, and thread 1 falls asleep. */
  method FallAsleep(d: Display, q: Queue)
    requires d.Valid() && d.threads == map[0 := Idle] && d.lastError == 0 && EventsOf(d.queues, q) == []
    modifies d
    ensures d.Valid() && d.lastError == 0 && Asleep(d.threads, d.readSerial, 1) && d.threads[1].queue == q
  {
    var error := d.PrepareReadQueue(1, q);
    error := d.PrepareReadQueue(2, q);
    assert 2 in PreparedThreads(d.threads);
    var failed := d.ReadEvents(1, NothingYet);
  }

  /** A thread can be asleep in wl_display_read_events while an error event is handled,
      although the comment in display_protocol_error denies it, and whatever queue it waits
      for: thread 0 takes the only event from queue 0, and before it is handled thread 1
      falls asleep.  It is not forgotten, as thread 2 is prepared. */
  method ErrorWhileAsleep(q: Queue) returns (d: Display)
    ensures fresh(d) && d.Valid() && d.lastError == EPROTO
    ensures Asleep(d.threads, d.readSerial, 1) && d.threads[1].queue == q
  {
    d := OneEvent();
    var e := d.DispatchEvent(0);
    FallAsleep(d, q);
    d.ProtocolError(Report(IMPLEMENTATION, 1, true));
  }

  /** The first error can be lost: an error event is found to be the first error, another
      thread latches a local one, and then the error event overwrites it. */
  method FirstErrorLost() returns (d: Display)
    ensures fresh(d) && d.Valid() && d.lastError == EPROTO != EPIPE
    ensures d.protocolError == Some(Report(0, 7, false))
  {
    d := new Display();
    var first := d.CheckProtocolError(Report(0, 7, false));
    assert first;
    d.FailLocally(EPIPE);
    assert d.lastError == EPIPE;
    d.LatchProtocolError(0);
  }

  /** Any run of a display with a latched error: what is latched changes by the error events
      that were checked before, and by nothing else. */
  method RunLatched(d: Display, actions: seq<Action>)
    requires d.Valid() && d.lastError != 0
    modifies d
    ensures d.Valid() && d.Latched() == AfterActions(old(d.Latched()), actions)
  {
    for i := 0 to |actions|
      invariant d.Valid() && d.lastError != 0
      invariant d.Latched() == AfterActions(old(d.Latched()), actions[..i])
    {
      Perform(d, actions[i]);
      assert actions[..i + 1][..i] == actions[..i];
    }
    assert actions[..|actions|] == actions;
  }

  /** Whatever runs, the latched error number stays if and only if every error event that
      was found to be the first error, but is not latched yet, has this number; and the
      error event behind it stays too if and only if they are all the same event. */
  lemma ErrorStaysIff(l: Latch)
    ensures (forall actions :: AfterActions(l, actions).error == l.error) <==>
              forall k :: 0 <= k < |l.reporting| ==> ProtocolErrno(l.reporting[k]) == l.error
    ensures (forall actions :: SameError(l, AfterActions(l, actions))) <==>
              forall k :: 0 <= k < |l.reporting| ==> Repeats(l, l.reporting[k])
  {
    forall actions ensures Keeps(l, AfterActions(l, actions)) {
      LatchedKept(l, actions);
    }
    if k :| 0 <= k < |l.reporting| && ProtocolErrno(l.reporting[k]) != l.error {
      LatchedOne(l, k);
      assert AfterActions(l, [RemoteLatch(k)]).error != l.error;
    }
    if k :| 0 <= k < |l.reporting| && !Repeats(l, l.reporting[k]) {
      LatchedOne(l, k);
      assert !SameError(l, AfterActions(l, [RemoteLatch(k)]));
    }
  }

  lemma LatchedOne(l: Latch, k: nat)
    requires k < |l.reporting|
    ensures AfterActions(l, [RemoteLatch(k)]) == AfterAction(l, RemoteLatch(k))
  {
    assert [RemoteLatch(k)][..0] == [];
  }

  predicate SameError(l: Latch, l': Latch) {
    l'.error == l.error && l'.report == l.report
  }

  predicate Repeats(l: Latch, r: Report) {
    ProtocolErrno(r) == l.error && Some(r) == l.report
  }

  /** The waiting error events are among those that waited before; the error is the same or
      that of one of them. */
  predicate Keeps(l: Latch, l': Latch) {
    && (forall r :: r in l'.reporting ==> r in l.reporting)
    && (SameError(l, l') || exists r :: r in l.reporting && l'.error == ProtocolErrno(r) && l'.report == Some(r))
  }

  lemma {:induction false} LatchedKept(l: Latch, actions: seq<Action>)
    ensures Keeps(l, AfterActions(l, actions))
    decreases |actions|
  {
    if actions != [] {
      LatchedKept(l, actions[..|actions| - 1]);
    }
  }
}
