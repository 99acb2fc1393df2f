/**
  The key → queue manager (lib/common/manager/taskManager.js) and the
  serial handler filter built on it (lib/filters/handler/serial.js).

  The manager's module-level `queues` table and its `timeout` setting are
  a value.  A queue removed by `closeQueue` keeps working on its own, so
  it is handed back to the caller.
 */
module TaskManager {
  import opened Common
  import opened SeqQueue

  datatype Manager = Manager(timeout: int, queues: map<string, Queue>)

  const DefaultManagerTimeout: int := 3000

  function NewManager(): (m: Manager)
    ensures m.timeout == DefaultManagerTimeout && m.queues == map[]
  {
    Manager(DefaultManagerTimeout, map[])
  }

  ghost predicate ManagerValid(m: Manager) {
    forall k :: k in m.queues ==> Inv(m.queues[k])
  }

  /** `addTask(key, fn, onTimeout, timeout)`: the key's queue, created with
      the manager's timeout on first use, receives the task; the reply is
      the queue's. */
  function AddTask(m: Manager, key: string, t: Task): (r: (Manager, PushReply))
    ensures key in r.0.queues && r.0.timeout == m.timeout
    ensures key in m.queues ==> r == (m.(queues := m.queues[key := Push(m.queues[key], t).0]), Push(m.queues[key], t).1)
    ensures key !in m.queues ==>
              var created := NewQueue(Some(m.timeout));
              r == (m.(queues := m.queues[key := Push(created, t).0]), Push(created, t).1)
    ensures forall k :: k != key ==> (k in r.0.queues <==> k in m.queues) &&
                                     (k in m.queues ==> r.0.queues[k] == m.queues[k])
  {
    var q := if key in m.queues then m.queues[key] else NewQueue(Some(m.timeout));
    var (q', reply) := Push(q, t);
    (m.(queues := m.queues[key := q']), reply)
  }

  /** `closeQueue(key, force)`: an unknown key is ignored; otherwise the
      queue is closed and forgotten, and returned with what it emitted. */
  function CloseQueue(m: Manager, key: string, force: bool): (r: (Manager, Option<Queue>, seq<Output>))
    ensures key !in m.queues ==> r == (m, None, [])
    ensures key in m.queues ==>
              && r.0 == m.(queues := m.queues - {key})
              && r.1 == Some(Close(m.queues[key], force).0)
              && r.2 == Close(m.queues[key], force).1
  {
    if key !in m.queues then (m, None, [])
    else
      var (closed, out) := Close(m.queues[key], force);
      (m.(queues := m.queues - {key}), Some(closed), out)
  }

  lemma AddTaskPreservesValid(m: Manager, key: string, t: Task)
    requires ManagerValid(m) && m.timeout > 0
    ensures ManagerValid(AddTask(m, key, t).0)
  {
    NewQueueValid(Some(m.timeout));
  }

  /** The first task for a key is accepted by a queue of its own, which
      uses the manager's timeout and will start the task on the next tick.
      The manager attaches no 'error' listener to it. */
  lemma FirstTaskStartsQueue(m: Manager, key: string, t: Task)
    requires key !in m.queues && t.isFunction && m.timeout > 0
    ensures var (m', reply) := AddTask(m, key, t);
            && reply == Added
            && m'.queues[key].timeout == m.timeout
            && m'.queues[key].queue == [t] && m'.queues[key].status == Busy
            && m'.queues[key].ticks == [InitId]
            && !m'.queues[key].errorListener
  {
  }

  /** Closing forgets the key, so the next `addTask` starts a fresh queue
      even if the closed one is still draining. */
  lemma CloseThenAddIsFresh(m: Manager, key: string, force: bool, t: Task)
    requires key in m.queues && t.isFunction
    ensures var m1 := CloseQueue(m, key, force).0;
            var (m2, reply) := AddTask(m1, key, t);
            && reply == Added
            && m2.queues[key] == Push(NewQueue(Some(m.timeout)), t).0
  {
  }

  /** Closing an unknown key changes nothing, and closing twice is
      closing once. */
  lemma CloseQueueIdempotent(m: Manager, key: string, force: bool)
    ensures var m1 := CloseQueue(m, key, force).0;
            CloseQueue(m1, key, force) == (m1, None, [])
  {
  }

  // ----- the serial filter -----

  /** The serial filter's configured timeout; `0` when none is given. */
  datatype Filter = Filter(timeout: int)

  /** The task `before` queues: it always is a function, has a timeout
      callback, and does not throw (it stores its handle and calls
      `next()`). */
  function SerialTask(f: Filter): (t: Task)
    ensures t.isFunction && t.hasOnTimeout && !t.throws && t.timeout == f.timeout
  {
    Task(true, true, f.timeout, false)
  }

  /** `before(msg, session, next)`: one task keyed by the session id (as
      an object key, a string). */
  function Before(f: Filter, m: Manager, sessionId: string): (r: (Manager, PushReply))
    ensures r.1 == Added <==> sessionId !in m.queues || Open(m.queues[sessionId])
    ensures sessionId in r.0.queues
    ensures sessionId in m.queues && m.queues[sessionId].status == Busy ==>
              r.0.queues[sessionId].queue == m.queues[sessionId].queue + [SerialTask(f)]
  {
    AddTask(m, sessionId, SerialTask(f))
  }

  datatype FilterError = Passed(message: string) | TaskTimeOut

  /** `after(err, msg, session, resp, next)`.  `task` is the id of the
      handle the running task stored on the session, if any; its `done()`
      is always called.  The error handed to `next`: the original one if
      given; "task time out" when the handle was no longer current; none
      otherwise. */
  function After(err: Option<FilterError>, task: Option<nat>, q: Queue): (r: (Queue, Option<FilterError>))
    ensures task.None? ==> r == (q, err)
    ensures task.Some? ==> r.0 == Done(q, task.value).0
    ensures err.Some? ==> r.1 == err
    ensures err.None? ==> (r.1 == Some(TaskTimeOut) <==> task.Some? && task.value != q.curId)
    ensures err.None? ==> r.1.None? || r.1 == Some(TaskTimeOut)
  {
    if task.None? then (q, err)
    else
      var (q', stillCurrent) := Done(q, task.value);
      (q', if !stillCurrent && err.None? then Some(TaskTimeOut) else err)
  }

  /** A request whose task has already timed out (the queue moved past its
      id) is reported as timed out unless it already failed. */
  lemma TimedOutTaskReportsTimeout(q: Queue, id: nat)
    requires q.curId > id
    ensures After(None, Some(id), q).1 == Some(TaskTimeOut)
    ensures forall e :: After(Some(e), Some(id), q).1 == Some(e)
  {
  }
}
