/**
  The sequential task queue (lib/util/seq-queue.js) as an explicit state
  machine.

  The event loop is made explicit.  `ticks` is the FIFO of deferred
  `_next(tid)` calls (`process.nextTick`), consumed one at a time by a
  `Tick` event; a `Fire` event is the armed timer going off, and since
  Node drains the next-tick queue before it runs timers, `Fire` does
  nothing while `ticks` is non-empty.  A task's `fn` is opaque: whether
  it throws when run is a field of the task, and its later calls of the
  handle's `done()` are `DoneCall(id)` events carrying the id of the task
  the handle belongs to.  What the queue emits, and the callbacks it
  runs, are recorded as outputs.

  The queue is an EventEmitter, and emitting 'error' with no listener
  throws.  Whether a listener is attached (`queue.on('error', ...)`, the
  `ListenError` event) is therefore part of the state: without one, the
  error of a throwing task escapes `_next` before `_next` is deferred.
 */
module SeqQueue {
  import opened Common

  const DefaultTimeout: int := 3000
  const InitId: nat := 0

  datatype Status = Idle | Busy | Closed | Drained

  /** A pushed task: `isFunction` is `typeof fn === 'function'`,
      `timeout` is the per-task timeout (0 when absent), `throws` says
      whether running `fn` throws. */
  datatype Task = Task(isFunction: bool, hasOnTimeout: bool, timeout: int, throws: bool)

  /** The armed `setTimeout` of the running task. */
  datatype Timer = Timer(task: nat, delay: int, hasOnTimeout: bool)

  datatype Queue = Queue(
    timeout: int,
    status: Status,
    curId: nat,
    queue: seq<Task>,
    timer: Option<Timer>,
    ticks: seq<nat>,
    errorListener: bool)

  datatype Output =
    | Ran(id: nat)                // task.fn invoked for the task with this id
    | EmittedClosed
    | EmittedDrained
    | EmittedTimeout(id: nat)
    | CalledOnTimeout(id: nat)
    | EmittedError(id: nat)
    | ErrorEscaped(id: nat)       // 'error' emitted with no listener: the error is thrown out of `_next`

  datatype PushReply = Added | Ignored | NotAFunction

  /** The constructor and `createQueue(timeout)`; `None` is an absent
      timeout. */
  function NewQueue(timeout: Option<int>): (q: Queue)
    ensures timeout.Some? && timeout.value > 0 ==> q.timeout == timeout.value
    ensures timeout.None? || timeout.value <= 0 ==> q.timeout == DefaultTimeout
    ensures q.status == Idle && q.curId == 0 && q.queue == [] && q.timer.None? && q.ticks == []
    ensures !q.errorListener
  {
    Queue(if timeout.Some? && timeout.value > 0 then timeout.value else DefaultTimeout, Idle, InitId, [], None, [], false)
  }

  predicate Open(q: Queue) {
    q.status == Idle || q.status == Busy
  }

  /** The consistency every reachable queue keeps: a positive default
      timeout, a timer only for the running task of a working queue, and
      an idle queue holds no task. */
  ghost predicate Inv(q: Queue) {
    && q.timeout > 0
    && (q.timer.Some? ==> q.timer.value.task == q.curId && (q.status == Busy || q.status == Closed))
    && (q.status == Idle ==> q.queue == [])
  }

  /** `push(fn, onTimeout, timeout)`.  Never runs the task inline: an idle
      queue becomes busy and defers `_next(curId)`. */
  function Push(q: Queue, t: Task): (r: (Queue, PushReply))
    ensures !Open(q) ==> r == (q, Ignored)
    ensures Open(q) && !t.isFunction ==> r == (q, NotAFunction)
    ensures r.1 == Added <==> Open(q) && t.isFunction
    ensures r.1 == Added ==>
              && r.0.queue == q.queue + [t] && r.0.status == Busy
              && r.0.ticks == (if q.status == Idle then q.ticks + [q.curId] else q.ticks)
              && r.0.curId == q.curId && r.0.timer == q.timer
  {
    if !Open(q) then (q, Ignored)
    else if !t.isFunction then (q, NotAFunction)
    else if q.status == Idle then (q.(queue := q.queue + [t], status := Busy, ticks := q.ticks + [q.curId]), Added)
    else (q.(queue := q.queue + [t]), Added)
  }

  /** `close(force)`: ignored unless idle or busy; forcing drains at once
      and clears the timer, otherwise the remaining tasks still run. */
  function Close(q: Queue, force: bool): (r: (Queue, seq<Output>))
    ensures !Open(q) ==> r == (q, [])
    ensures Open(q) && force ==> r.0 == q.(status := Drained, timer := None) && r.1 == [EmittedDrained]
    ensures Open(q) && !force ==> r.0 == q.(status := Closed) && r.1 == [EmittedClosed]
  {
    if !Open(q) then (q, [])
    else if force then (q.(status := Drained, timer := None), [EmittedDrained])
    else (q.(status := Closed), [EmittedClosed])
  }

  /** The delay of a started task's timer: its own positive timeout
      replaces the queue's (it is not a bound on it). */
  function Delay(q: Queue, t: Task): int {
    var timeout := if t.timeout > 0 then t.timeout else q.timeout;
    if timeout > 0 then timeout else DefaultTimeout
  }

  /** `_next(tid)`. */
  function Next(q: Queue, tid: nat): (r: (Queue, seq<Output>))
    // a stale id, or a queue that is neither busy nor closed: nothing happens
    ensures tid != q.curId || !(q.status == Busy || q.status == Closed) ==> r == (q, [])
    // an effective call always invalidates `tid`
    ensures tid == q.curId && (q.status == Busy || q.status == Closed) ==>
              r.0.curId > tid || r.0.status == Drained
    ensures r.0.curId >= q.curId && r.0.timeout == q.timeout && r.0.errorListener == q.errorListener
    ensures q.status == Drained ==> r.0.status == Drained
    // draining the last task
    ensures tid == q.curId && q.queue == [] && q.status == Busy ==>
              r == (q.(status := Idle, curId := q.curId + 1, timer := None), [])
    ensures tid == q.curId && q.queue == [] && q.status == Closed ==>
              r == (q.(status := Drained, timer := None), [EmittedDrained])
    // starting the next task
    ensures tid == q.curId && q.queue != [] && (q.status == Busy || q.status == Closed) ==>
              && r.0.curId == q.curId + 1 && r.0.queue == q.queue[1..] && r.0.status == q.status
              && r.0.timer == Some(Timer(q.curId + 1, Delay(q, q.queue[0]), q.queue[0].hasOnTimeout))
              // a caught error is emitted and `_next` deferred only when a listener takes it
              && (q.queue[0].throws && q.errorListener ==>
                    r.1 == [Ran(q.curId + 1), EmittedError(q.curId + 1)] && r.0.ticks == q.ticks + [q.curId + 1])
              && (q.queue[0].throws && !q.errorListener ==>
                    r.1 == [Ran(q.curId + 1), ErrorEscaped(q.curId + 1)] && r.0.ticks == q.ticks)
              && (!q.queue[0].throws ==> r.1 == [Ran(q.curId + 1)] && r.0.ticks == q.ticks)
  {
    if tid != q.curId || !(q.status == Busy || q.status == Closed) then (q, [])
    else
      var q1 := q.(timer := None);
      if q.queue == [] then
        if q.status == Busy then (q1.(status := Idle, curId := q.curId + 1), [])
        else (q1.(status := Drained), [EmittedDrained])
      else
        var t := q.queue[0];
        var id := q.curId + 1;
        var q2 := q1.(queue := q.queue[1..], curId := id, timer := Some(Timer(id, Delay(q, t), t.hasOnTimeout)));
        if !t.throws then (q2, [Ran(id)])
        else if q.errorListener then (q2.(ticks := q2.ticks + [id]), [Ran(id), EmittedError(id)])
        else (q2, [Ran(id), ErrorEscaped(id)])
  }

  /** The per-task timeout is used whenever it is positive, even when it
      is longer than the queue's; otherwise the queue's applies. */
  lemma TaskTimeoutReplacesDefault(q: Queue, t: Task)
    requires Inv(q)
    ensures t.timeout > 0 ==> Delay(q, t) == t.timeout
    ensures t.timeout <= 0 ==> Delay(q, t) == q.timeout
  {
  }

  /** A call of a task handle's `done()`: defers `_next(id)` and answers
      whether the task is still the current one. */
  function Done(q: Queue, id: nat): (r: (Queue, bool))
    ensures r.1 <==> id == q.curId
    ensures r.0 == q.(ticks := q.ticks + [id])
  {
    (q.(ticks := q.ticks + [id]), id == q.curId)
  }

  /** One deferred `_next` call leaves the next-tick queue. */
  function Tick(q: Queue): (r: (Queue, seq<Output>))
    ensures q.ticks == [] ==> r == (q, [])
    ensures q.ticks != [] ==> r == Next(q.(ticks := q.ticks[1..]), q.ticks[0])
  {
    if q.ticks == [] then (q, []) else Next(q.(ticks := q.ticks[1..]), q.ticks[0])
  }

  /** The armed timer goes off: `_next(task.id)` is deferred, "timeout" is
      emitted and `ontimeout` is called when given. */
  function Fire(q: Queue): (r: (Queue, seq<Output>))
    ensures q.ticks != [] || q.timer.None? ==> r == (q, [])
    ensures q.ticks == [] && q.timer.Some? ==>
              && r.0 == q.(timer := None, ticks := [q.timer.value.task])
              && r.1 == [EmittedTimeout(q.timer.value.task)] +
                        (if q.timer.value.hasOnTimeout then [CalledOnTimeout(q.timer.value.task)] else [])
  {
    if q.ticks != [] || q.timer.None? then (q, [])
    else
      var id := q.timer.value.task;
      (q.(timer := None, ticks := q.ticks + [id]),
       [EmittedTimeout(id)] + (if q.timer.value.hasOnTimeout then [CalledOnTimeout(id)] else []))
  }

  datatype Event =
    | PushTask(task: Task)
    | CloseQueue(force: bool)
    | TickEvent
    | FireEvent
    | DoneCall(id: nat)
    | ListenError                 // `queue.on('error', listener)`

  function Step(q: Queue, e: Event): (Queue, seq<Output>) {
    match e
    case PushTask(t) => (Push(q, t).0, [])
    case CloseQueue(force) => Close(q, force)
    case TickEvent => Tick(q)
    case FireEvent => Fire(q)
    case DoneCall(id) => (Done(q, id).0, [])
    case ListenError => (q.(errorListener := true), [])
  }

  /** Runs a trace of events and collects what is emitted. */
  function Run(q: Queue, evs: seq<Event>): (Queue, seq<Output>)
    decreases |evs|
  {
    if evs == [] then (q, [])
    else
      var (q1, out1) := Step(q, evs[0]);
      var (q2, out2) := Run(q1, evs[1..]);
      (q2, out1 + out2)
  }

  lemma NewQueueValid(timeout: Option<int>)
    ensures Inv(NewQueue(timeout))
  {
  }

  lemma StepPreservesInv(q: Queue, e: Event)
    requires Inv(q)
    ensures Inv(Step(q, e).0)
  {
  }

  /** Drained is final and ids only grow, so once `_next(tid)` has been
      effective no later `_next(tid)` ever is: each task advances the
      queue at most once however many `done()` calls, timeouts or errors
      ask for it. */
  ghost predicate Stale(q: Queue, tid: nat) {
    q.curId > tid || q.status == Drained
  }

  lemma {:induction false} StaleForever(q: Queue, tid: nat, evs: seq<Event>)
    requires Stale(q, tid)
    ensures Stale(Run(q, evs).0, tid)
    ensures Next(Run(q, evs).0, tid) == (Run(q, evs).0, [])
    decreases |evs|
  {
    if evs != [] {
      StaleForever(Step(q, evs[0]).0, tid, evs[1..]);
    }
  }

  lemma AdvancesOncePerId(q: Queue, tid: nat, evs: seq<Event>)
    requires tid == q.curId && (q.status == Busy || q.status == Closed)
    ensures var after := Run(Next(q, tid).0, evs).0;
            Next(after, tid) == (after, [])
  {
    StaleForever(Next(q, tid).0, tid, evs);
  }

  /** `id`'s timer is armed only while a deferred `_next(id)` that will
      disarm it is pending. */
  ghost predicate Covered(q: Queue, id: nat) {
    && Inv(q)
    && q.curId >= id
    && (q.timer.Some? && q.timer.value.task == id ==> id in q.ticks)
  }

  lemma {:induction false} CoveredNeverTimesOut(q: Queue, id: nat, evs: seq<Event>)
    requires Covered(q, id)
    ensures EmittedTimeout(id) !in Run(q, evs).1
    ensures CalledOnTimeout(id) !in Run(q, evs).1
    decreases |evs|
  {
    if evs != [] {
      var (q1, out1) := Step(q, evs[0]);
      StepPreservesInv(q, evs[0]);
      CoveredStep(q, id, evs[0]);
      CoveredNeverTimesOut(q1, id, evs[1..]);
    }
  }

  lemma CoveredStep(q: Queue, id: nat, e: Event)
    requires Covered(q, id)
    ensures Covered(Step(q, e).0, id)
    ensures EmittedTimeout(id) !in Step(q, e).1
    ensures CalledOnTimeout(id) !in Step(q, e).1
  {
    StepPreservesInv(q, e);
    if e.TickEvent? && q.ticks != [] {
      var h := q.ticks[0];
      if q.timer.Some? && q.timer.value.task == id && h != id {
        assert id in q.ticks[1..] by {
          var k :| 0 <= k < |q.ticks| && q.ticks[k] == id;
          assert k != 0;
          assert q.ticks[1..][k - 1] == id;
        }
      }
    }
  }

  /** A task that calls `done()` while it is current never times out, and
      neither does any task once the queue is force-closed. */
  lemma DoneSuppressesTimeout(q: Queue, evs: seq<Event>)
    requires Inv(q)
    ensures EmittedTimeout(q.curId) !in Run(Done(q, q.curId).0, evs).1
  {
    assert q.curId in Done(q, q.curId).0.ticks;
    CoveredNeverTimesOut(Done(q, q.curId).0, q.curId, evs);
  }

  lemma ForcedCloseSuppressesTimeout(q: Queue, evs: seq<Event>, id: nat)
    requires Inv(q) && Open(q) && id <= q.curId
    ensures EmittedTimeout(id) !in Run(Close(q, true).0, evs).1
  {
    CoveredNeverTimesOut(Close(q, true).0, id, evs);
  }

  /** After a forced close the queue stays drained and runs nothing more. */
  lemma {:induction false} DrainedIsSilent(q: Queue, evs: seq<Event>)
    requires q.status == Drained && q.timer.None?
    ensures Run(q, evs).0.status == Drained && Run(q, evs).1 == []
    decreases |evs|
  {
    if evs != [] {
      var q1 := Step(q, evs[0]).0;
      assert q1.status == Drained && q1.timer.None? && Step(q, evs[0]).1 == [];
      DrainedIsSilent(q1, evs[1..]);
    }
  }

  /** How often `o` occurs in `outs`. */
  function Occurrences(outs: seq<Output>, o: Output): nat {
    if outs == [] then 0
    else (if outs[0] == o then 1 else 0) + Occurrences(outs[1..], o)
  }

  lemma {:induction false} OccurrencesAppend(a: seq<Output>, b: seq<Output>, o: Output)
    ensures Occurrences(a + b, o) == Occurrences(a, o) + Occurrences(b, o)
    decreases |a|
  {
    if a == [] {
      assert a + b == b;
    } else {
      assert (a + b)[1..] == a[1..] + b;
      OccurrencesAppend(a[1..], b, o);
    }
  }

  lemma {:induction false} AbsentOccursNever(outs: seq<Output>, o: Output)
    requires o !in outs
    ensures Occurrences(outs, o) == 0
    decreases |outs|
  {
    if outs != [] {
      assert outs[0] != o;
      AbsentOccursNever(outs[1..], o);
    }
  }

  /** What one expiry of `id`'s timer emits: "timeout" once and, at most,
      one call of `ontimeout`. */
  lemma FireOccurrences(q: Queue, id: nat)
    requires q.ticks == [] && q.timer.Some? && q.timer.value.task == id
    ensures Occurrences(Fire(q).1, EmittedTimeout(id)) == 1
    ensures Occurrences(Fire(q).1, CalledOnTimeout(id)) <= 1
  {
    var out := Fire(q).1;
    assert out[0] == EmittedTimeout(id);
    AbsentOccursNever(out[1..], EmittedTimeout(id));
    if q.timer.value.hasOnTimeout {
      assert out[1..] == [CalledOnTimeout(id)];
      assert out[1..][1..] == [];
      assert Occurrences(out[1..], CalledOnTimeout(id)) == 1;
    } else {
      assert out[1..] == [];
    }
  }

  /** Each task times out at most once, and its `ontimeout` runs at most
      once. */
  lemma {:induction false} TimesOutAtMostOnce(q: Queue, evs: seq<Event>, id: nat)
    requires Inv(q)
    ensures Occurrences(Run(q, evs).1, EmittedTimeout(id)) <= 1
    ensures Occurrences(Run(q, evs).1, CalledOnTimeout(id)) <= 1
    decreases |evs|
  {
    if evs != [] {
      var (q1, out1) := Step(q, evs[0]);
      var out2 := Run(q1, evs[1..]).1;
      StepPreservesInv(q, evs[0]);
      OccurrencesAppend(out1, out2, EmittedTimeout(id));
      OccurrencesAppend(out1, out2, CalledOnTimeout(id));
      if EmittedTimeout(id) in out1 || CalledOnTimeout(id) in out1 {
        assert evs[0].FireEvent? && q.ticks == [] && q.timer.Some? && q.timer.value.task == id;
        assert q1.timer.None? && q1.curId == id;
        CoveredNeverTimesOut(q1, id, evs[1..]);
        AbsentOccursNever(out2, EmittedTimeout(id));
        AbsentOccursNever(out2, CalledOnTimeout(id));
        FireOccurrences(q, id);
      } else {
        AbsentOccursNever(out1, EmittedTimeout(id));
        AbsentOccursNever(out1, CalledOnTimeout(id));
        TimesOutAtMostOnce(q1, evs[1..], id);
      }
    }
  }

  /** A current task that never calls `done()` times out when its timer
      goes off: no other work is pending, so the timer's turn comes. */
  lemma UnfinishedTaskTimesOut(q: Queue)
    requires Inv(q) && q.ticks == [] && q.timer.Some?
    ensures EmittedTimeout(q.curId) in Fire(q).1
    ensures q.timer.value.hasOnTimeout ==> CalledOnTimeout(q.curId) in Fire(q).1
  {
  }

  /** A task that throws while a listener takes the 'error' has its
      `_next` deferred like a finished task, so it never times out ... */
  lemma ThrowWithListenerNeverTimesOut(q: Queue, evs: seq<Event>)
    requires Inv(q) && (q.status == Busy || q.status == Closed) && q.queue != []
    requires q.queue[0].throws && q.errorListener
    ensures EmittedTimeout(q.curId + 1) !in Run(Next(q, q.curId).0, evs).1
  {
    CoveredNeverTimesOut(Next(q, q.curId).0, q.curId + 1, evs);
  }

  /** ... but without a listener the error escapes before `_next` is
      deferred: the timer stays armed and, with no other work pending,
      the task times out when it goes off. */
  lemma ThrowWithoutListenerTimesOut(q: Queue)
    requires Inv(q) && (q.status == Busy || q.status == Closed) && q.queue != []
    requires q.queue[0].throws && !q.errorListener && q.ticks == []
    ensures var q1 := Next(q, q.curId).0;
            && q1.timer == Some(Timer(q.curId + 1, Delay(q, q.queue[0]), q.queue[0].hasOnTimeout))
            && q1.ticks == []
            && EmittedTimeout(q.curId + 1) in Fire(q1).1
  {
  }
}
