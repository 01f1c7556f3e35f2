/** The coalescing mailbox of one open inbox (apps/api/src/notifications/inbox-hint-hub.ts,
    class LatestSignal), against an unbounded queue that forgets nothing. */
module LatestSignals {
  import opened Wrappers

  datatype Signal = Changed(revision: string) | Resync

  /** What a promise of next() resolves to. */
  datatype Result = Value(signal: Signal) | Done

  /** The fields of a LatestSignal, and the promises its next() calls have returned so far:
      None is unresolved, and `waiter` is the promise the stored resolver belongs to. */
  datatype Mailbox = Mailbox(pending: Option<Signal>, waiter: Option<nat>, closed: bool, promises: seq<Option<Result>>) {
    predicate Valid() { waiter.Some? ==> waiter.value < |promises| && promises[waiter.value] == None }
  }

  const EMPTY := Mailbox(None, None, false, [])

  function Merge(pending: Option<Signal>, signal: Signal): Signal {
    if pending == Some(Resync) || signal == Resync then Resync else signal
  }

  function Pushed(m: Mailbox, signal: Signal): (r: Mailbox)
    requires m.Valid()
    ensures r.Valid() && r.closed == m.closed
  {
    if m.closed then m
    else if m.waiter.Some? then m.(waiter := None, promises := m.promises[m.waiter.value := Some(Value(signal))])
    else m.(pending := Some(Merge(m.pending, signal)))
  }

  function Closed(m: Mailbox): (r: Mailbox)
    requires m.Valid()
    ensures r.Valid() && r.closed
  {
    if m.closed then m
    else
      Mailbox(None, None, true,
              if m.waiter.Some? then m.promises[m.waiter.value := Some(Done)] else m.promises)
  }

  /** One more next(); its promise is the last one. */
  function Asked(m: Mailbox): (r: Mailbox)
    requires m.Valid()
    ensures r.Valid() && |r.promises| == |m.promises| + 1 && r.closed == m.closed
  {
    if m.pending.Some? then m.(pending := None, promises := m.promises + [Some(Value(m.pending.value))])
    else if m.closed then m.(promises := m.promises + [Some(Done)])
    else m.(waiter := Some(|m.promises|), promises := m.promises + [None])
  }

  // ----- Runs -----

  datatype Use = Pushing(signal: Signal) | Asking | Closing

  function Used(m: Mailbox, e: Use): (r: Mailbox)
    requires m.Valid()
    ensures r.Valid()
  {
    match e
    case Pushing(signal) => Pushed(m, signal)
    case Asking => Asked(m)
    case Closing => Closed(m)
  }

  function UseAll(m: Mailbox, uses: seq<Use>): (r: Mailbox)
    requires m.Valid()
    ensures r.Valid()
    decreases |uses|
  {
    if uses == [] then m else UseAll(Used(m, uses[0]), uses[1..])
  }

  /** The reader waits for each promise before it asks again. */
  predicate OneConsumer(m: Mailbox, uses: seq<Use>)
    requires m.Valid()
    decreases |uses|
  {
    uses == [] || ((uses[0] == Asking ==> m.waiter == None) && OneConsumer(Used(m, uses[0]), uses[1..]))
  }

  // ----- A queue that keeps every signal -----

  datatype Batch = Batch(signals: seq<Signal>) | Ended

  datatype Queue = Queue(
    undelivered: seq<Signal>,
    reading: bool,
    closed: bool,
    handed: seq<Batch>,
    dropped: seq<Signal>)

  const EMPTY_QUEUE := Queue([], false, false, [], [])

  /** Readers get whole batches: everything pushed since the previous one. */
  function QueueStep(q: Queue, e: Use): Queue {
    match e
    case Pushing(signal) =>
      if q.closed then q
      else if q.reading then q.(reading := false, handed := q.handed + [Batch([signal])])
      else q.(undelivered := q.undelivered + [signal])
    case Asking =>
      if q.undelivered != [] then q.(undelivered := [], handed := q.handed + [Batch(q.undelivered)])
      else if q.closed then q.(handed := q.handed + [Ended])
      else q.(reading := true)
    case Closing =>
      if q.closed then q
      else
        Queue([], false, true, if q.reading then q.handed + [Ended] else q.handed, q.dropped + q.undelivered)
  }

  function QueueRun(q: Queue, uses: seq<Use>): Queue
    decreases |uses|
  {
    if uses == [] then q else QueueRun(QueueStep(q, uses[0]), uses[1..])
  }

  /** Resync when any of them asks for it, and otherwise the newest. */
  function Coalesce(signals: seq<Signal>): Signal
    requires signals != []
  {
    if Resync in signals then Resync else signals[|signals| - 1]
  }

  predicate Delivers(promise: Option<Result>, batch: Batch) {
    match batch
    case Batch(signals) => signals != [] && promise == Some(Value(Coalesce(signals)))
    case Ended => promise == Some(Done)
  }

  /** The mailbox shows the queue: promises are the handed batches, coalesced, and the last promise
      is open exactly while the queue's reader waits. */
  predicate Shows(m: Mailbox, q: Queue) {
    && m.Valid()
    && m.closed == q.closed
    && m.pending == (if q.undelivered == [] then None else Some(Coalesce(q.undelivered)))
    && |m.promises| == |q.handed| + (if q.reading then 1 else 0)
    && m.waiter == (if q.reading then Some(|q.handed|) else None)
    && (forall i :: 0 <= i < |q.handed| ==> Delivers(m.promises[i], q.handed[i]))
    && (q.reading || q.closed ==> q.undelivered == [])
    && (q.reading ==> !q.closed)
  }

  lemma CoalesceOneMore(signals: seq<Signal>, signal: Signal)
    ensures Coalesce(signals + [signal])
         == Merge(if signals == [] then None else Some(Coalesce(signals)), signal)
  {
    assert Resync in signals + [signal] <==> Resync in signals || signal == Resync;
  }

  lemma StepShows(m: Mailbox, q: Queue, e: Use)
    requires Shows(m, q) && (e == Asking ==> m.waiter == None)
    ensures Shows(Used(m, e), QueueStep(q, e))
  {
    if e.Pushing? && !q.closed && !q.reading {
      CoalesceOneMore(q.undelivered, e.signal);
    }
  }

  /** Every delivery of a single-consumer run is the coalescing of all signals pushed since the last. */
  lemma {:induction false} MailboxRefinesQueue(m: Mailbox, q: Queue, uses: seq<Use>)
    requires Shows(m, q) && OneConsumer(m, uses)
    ensures Shows(UseAll(m, uses), QueueRun(q, uses))
    decreases |uses|
  {
    if uses != [] {
      StepShows(m, q, uses[0]);
      MailboxRefinesQueue(Used(m, uses[0]), QueueStep(q, uses[0]), uses[1..]);
    }
  }

  /** A pending signal and a waiting reader never coexist. */
  lemma NeverBoth(uses: seq<Use>)
    requires OneConsumer(EMPTY, uses)
    ensures var m := UseAll(EMPTY, uses); m.pending.Some? ==> m.waiter == None && !m.closed
  {
    MailboxRefinesQueue(EMPTY, EMPTY_QUEUE, uses);
  }

  // ----- The queue loses nothing -----

  function Flat(batches: seq<Batch>): seq<Signal> {
    if batches == [] then []
    else Flat(batches[..|batches| - 1]) + match batches[|batches| - 1] case Batch(signals) => signals case Ended => []
  }

  /** The signals pushed before the inbox was closed. */
  function Accepted(uses: seq<Use>): seq<Signal>
    decreases |uses|
  {
    if uses == [] || uses[0] == Closing then []
    else (if uses[0].Pushing? then [uses[0].signal] else []) + Accepted(uses[1..])
  }

  predicate Settled(q: Queue) {
    (q.reading || q.closed ==> q.undelivered == []) && (!q.closed ==> q.dropped == [])
  }

  lemma StepConserves(q: Queue, e: Use)
    requires Settled(q)
    ensures var r := QueueStep(q, e);
            && Settled(r)
            && Flat(r.handed) + r.dropped + r.undelivered
            == (Flat(q.handed) + q.dropped + q.undelivered) + (if e.Pushing? && !q.closed then [e.signal] else [])
  {
    var r := QueueStep(q, e);
    if |r.handed| > |q.handed| {
      assert r.handed[..|r.handed| - 1] == q.handed;
    }
  }

  /** Handed, dropped at close, or still waiting: each accepted signal exactly once, in order. */
  lemma {:induction false} QueueConserves(q: Queue, uses: seq<Use>)
    requires Settled(q)
    ensures var r := QueueRun(q, uses);
            Flat(r.handed) + r.dropped + r.undelivered
            == Flat(q.handed) + q.dropped + q.undelivered + (if q.closed then [] else Accepted(uses))
    decreases |uses|
  {
    if uses != [] {
      var e, next := uses[0], QueueStep(q, uses[0]);
      StepConserves(q, e);
      QueueConserves(next, uses[1..]);
    }
  }

  /** For a single consumer: the promises read, in order, coalesce a partition of the accepted signals. */
  lemma NothingIsLost(uses: seq<Use>)
    requires OneConsumer(EMPTY, uses)
    ensures var m, q := UseAll(EMPTY, uses), QueueRun(EMPTY_QUEUE, uses);
            Shows(m, q) && Flat(q.handed) + q.dropped + q.undelivered == Accepted(uses)
  {
    MailboxRefinesQueue(EMPTY, EMPTY_QUEUE, uses);
    QueueConserves(EMPTY_QUEUE, uses);
  }

  // ----- After close, and with a second reader -----

  /** After close nothing is delivered: earlier promises stand, later ones say done. */
  lemma {:induction false} ClosedStaysSilent(m: Mailbox, uses: seq<Use>)
    requires m.Valid() && m.closed && m.pending == None && m.waiter == None
    ensures var r := UseAll(m, uses);
            && r.closed && r.pending == None && r.waiter == None && m.promises <= r.promises
            && forall i :: |m.promises| <= i < |r.promises| ==> r.promises[i] == Some(Done)
    decreases |uses|
  {
    if uses != [] {
      ClosedStaysSilent(Used(m, uses[0]), uses[1..]);
    }
  }

  lemma CloseSilences(m: Mailbox, uses: seq<Use>)
    requires m.Valid() && !m.closed
    ensures var r := UseAll(Closed(m), uses);
            && (forall i :: |m.promises| <= i < |r.promises| ==> r.promises[i] == Some(Done))
            && (m.waiter.Some? ==> m.waiter.value < |r.promises| && r.promises[m.waiter.value] == Some(Done))
  {
    ClosedStaysSilent(Closed(m), uses);
  }

  /** A second next() while one waits replaces the resolver: the first promise never resolves. */
  lemma {:induction false} SecondReaderLosesTheFirst(m: Mailbox, lost: nat, uses: seq<Use>)
    requires m.Valid() && lost < |m.promises| && m.promises[lost] == None && m.waiter != Some(lost)
    ensures var r := UseAll(m, uses); lost < |r.promises| && r.promises[lost] == None
    decreases |uses|
  {
    if uses != [] {
      SecondReaderLosesTheFirst(Used(m, uses[0]), lost, uses[1..]);
    }
  }

  lemma TwoReaders(m: Mailbox, uses: seq<Use>)
    requires m.Valid() && !m.closed && m.pending == None && m.waiter.Some?
    ensures var r := UseAll(Asked(m), uses);
            m.waiter.value < |r.promises| && r.promises[m.waiter.value] == None
  {
    SecondReaderLosesTheFirst(Asked(m), m.waiter.value, uses);
  }

  // ----- The object itself -----

  /** `queue` is the queue that the mailbox stands for as long as nobody reads twice at once. */
  class LatestSignal {
    var pending: Option<Signal>
    var waiter: Option<nat>
    var closed: bool
    // promises belong to the runtime; the object holds a resolver only
    var promises: seq<Option<Result>>
    ghost var queue: Queue

    function Contents(): Mailbox
      reads this
    {
      Mailbox(pending, waiter, closed, promises)
    }

    ghost predicate Valid()
      reads this
    {
      Shows(Contents(), queue)
    }

    constructor ()
      ensures Valid() && queue == EMPTY_QUEUE && Contents() == EMPTY
    {
      pending, waiter, closed, promises := None, None, false, [];
      queue := EMPTY_QUEUE;
    }

    method Push(signal: Signal)
      requires Contents().Valid()
      modifies this
      ensures Contents() == Pushed(old(Contents()), signal)
      ensures old(Valid()) ==> Valid() && queue == QueueStep(old(queue), Pushing(signal))
    {
      if Valid() {
        StepShows(Contents(), queue, Pushing(signal));
      }
      queue := QueueStep(queue, Pushing(signal));
      if closed {
        return;
      }
      if waiter.Some? {
        promises := promises[waiter.value := Some(Value(signal))];
        waiter := None;
        return;
      }
      pending := if pending == Some(Resync) || signal == Resync then Some(Resync) else Some(signal);
    }

    /** `release` says whether onClose has to be called. */
    method Close() returns (release: bool)
      requires Contents().Valid()
      modifies this
      ensures Contents() == Closed(old(Contents())) && release == !old(closed)
      ensures old(Valid()) ==> Valid() && queue == QueueStep(old(queue), Closing)
    {
      if Valid() {
        StepShows(Contents(), queue, Closing);
      }
      queue := QueueStep(queue, Closing);
      if closed {
        return false;
      }
      closed := true;
      pending := None;
      if waiter.Some? {
        promises := promises[waiter.value := Some(Done)];
      }
      waiter := None;
      return true;
    }

    /** For a reader that is not already waiting, the promise is the queue's next batch, now or later. */
    method Next() returns (promise: nat)
      requires Contents().Valid()
      modifies this
      ensures Contents() == Asked(old(Contents())) && promise == old(|promises|)
      ensures old(Valid()) && old(waiter) == None ==> Valid() && queue == QueueStep(old(queue), Asking)
      ensures old(Valid()) && old(waiter) == None ==>
                if promise < |queue.handed| then Delivers(promises[promise], queue.handed[promise]) else queue.reading
    {
      if Valid() && waiter == None {
        StepShows(Contents(), queue, Asking);
      }
      queue := QueueStep(queue, Asking);
      promise := |promises|;
      if pending.Some? {
        promises := promises + [Some(Value(pending.value))];
        pending := None;
      } else if closed {
        promises := promises + [Some(Done)];
      } else {
        promises := promises + [None];
        waiter := Some(promise);
      }
    }
  }
}
