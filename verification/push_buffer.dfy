/**
  The buffered push scheduler (lib/pushSchedulers/buffer.js): messages
  are appended to a per-session queue and a periodic flush hands each
  live session its whole queue in one batch.

  The interval timer is abstract: `running` counts the live intervals
  started by `start` and `hasTid` says whether `tid` holds one; a flush
  is an explicit step.  Listener registration with `session.once` is
  recorded as an event.
 */
module PushBuffer {
  import opened Common
  import opened SessionService

  const DefaultFlushInterval: int := 20

  datatype Buffer = Buffer(
    flushInterval: int,
    queues: map<SessionId, seq<string>>,
    hasTid: bool,
    running: nat,
    listeners: seq<SessionId>)   // sessions given a once('closed') listener, in order

  datatype Batch = SendBatch(sid: SessionId, msgs: seq<string>)

  /** The constructor: `opts.flushInterval || 20`; `None` and `Some(0)` are
      the falsy settings. */
  function NewBuffer(flushInterval: Option<int>): (b: Buffer)
    ensures flushInterval.None? || flushInterval.value == 0 ==> b.flushInterval == DefaultFlushInterval
    ensures flushInterval.Some? && flushInterval.value != 0 ==> b.flushInterval == flushInterval.value
    ensures b.queues == map[] && !b.hasTid && b.running == 0 && b.listeners == []
  {
    var interval := if flushInterval.None? || flushInterval.value == 0 then DefaultFlushInterval
                    else flushInterval.value;
    Buffer(interval, map[], false, 0, [])
  }

  /** `start(cb)`: sets up a new interval (an earlier one is not cleared). */
  function Start(b: Buffer): (r: Buffer)
    ensures r.hasTid && r.running == b.running + 1
    ensures r.queues == b.queues && r.listeners == b.listeners
  {
    b.(hasTid := true, running := b.running + 1)
  }

  /** `stop(force, cb)`: clears the interval held in `tid`, if any. */
  function Stop(b: Buffer): (r: Buffer)
    ensures !r.hasTid
    ensures r.running == if b.hasTid && b.running > 0 then b.running - 1 else b.running
    ensures r.queues == b.queues && r.listeners == b.listeners
  {
    b.(hasTid := false, running := if b.hasTid && b.running > 0 then b.running - 1 else b.running)
  }

  /** Stopping twice is stopping once, and stop undoes a single start. */
  lemma StopIdempotent(b: Buffer)
    ensures Stop(Stop(b)) == Stop(b)
    ensures !b.hasTid ==> Stop(Start(b)).running == b.running
  {
  }

  /** `enqueue(self, session, msg)`: the first message for a session
      creates its queue and registers the close listener; later ones are
      appended. */
  function Enqueue(b: Buffer, sid: SessionId, msg: string): (r: Buffer)
    ensures sid in r.queues && r.queues[sid] == QueueOf(b, sid) + [msg]
    ensures forall x :: x != sid ==> (x in r.queues <==> x in b.queues) &&
                                     (x in b.queues ==> r.queues[x] == b.queues[x])
    ensures r.listeners == if sid in b.queues then b.listeners else b.listeners + [sid]
  {
    if sid in b.queues then b.(queues := b.queues[sid := b.queues[sid] + [msg]])
    else b.(queues := b.queues[sid := [msg]], listeners := b.listeners + [sid])
  }

  function QueueOf(b: Buffer, sid: SessionId): seq<string> {
    if sid in b.queues then b.queues[sid] else []
  }

  /** `onClose(self, session)`: the pending queue is dropped unsent. */
  function OnClose(b: Buffer, sid: SessionId): (r: Buffer)
    ensures sid !in r.queues
    ensures forall x :: x != sid ==> (x in r.queues <==> x in b.queues) &&
                                     (x in b.queues ==> r.queues[x] == b.queues[x])
  {
    b.(queues := b.queues - {sid})
  }

  /** `doBatchPush`: enqueue for each receiver that resolves to a session. */
  function DoBatchPush(b: Buffer, svc: Service, msg: string, recvs: seq<SessionId>): (r: Buffer)
    decreases |recvs|
  {
    if recvs == [] then b
    else
      var b1 := if recvs[0] in svc.sessions then Enqueue(b, recvs[0], msg) else b;
      DoBatchPush(b1, svc, msg, recvs[1..])
  }

  /** Times `sid` occurs in `recvs`. */
  function Occurrences(recvs: seq<SessionId>, sid: SessionId): nat {
    if recvs == [] then 0
    else (if recvs[0] == sid then 1 else 0) + Occurrences(recvs[1..], sid)
  }

  function Repeat(msg: string, n: nat): (r: seq<string>)
    ensures |r| == n && forall i :: 0 <= i < n ==> r[i] == msg
  {
    if n == 0 then [] else [msg] + Repeat(msg, n - 1)
  }

  /** A batch push appends the message to a live session's queue once per
      occurrence of its id, leaves every other queue alone, and registers
      a listener only for a session that had no queue. */
  lemma {:induction false} BatchPushAppends(b: Buffer, svc: Service, msg: string, recvs: seq<SessionId>, sid: SessionId)
    ensures var r := DoBatchPush(b, svc, msg, recvs);
            && (sid in svc.sessions ==> QueueOf(r, sid) == QueueOf(b, sid) + Repeat(msg, Occurrences(recvs, sid)))
            && (sid !in svc.sessions ==> (sid in r.queues <==> sid in b.queues) && QueueOf(r, sid) == QueueOf(b, sid))
            && (sid in b.queues ==> sid in r.queues && Count(r.listeners, sid) == Count(b.listeners, sid))
            && (sid !in b.queues && sid in svc.sessions && Occurrences(recvs, sid) > 0 ==>
                  Count(r.listeners, sid) == Count(b.listeners, sid) + 1)
    decreases |recvs|
  {
    if recvs != [] {
      var b1 := if recvs[0] in svc.sessions then Enqueue(b, recvs[0], msg) else b;
      BatchPushAppends(b1, svc, msg, recvs[1..], sid);
      if recvs[0] == sid && sid in svc.sessions {
        assert Repeat(msg, Occurrences(recvs, sid)) == [msg] + Repeat(msg, Occurrences(recvs[1..], sid));
        CountAppend(b.listeners, sid, if sid in b.queues then [] else [sid]);
        if sid in b.queues {
          assert b1.listeners == b.listeners;
        }
      } else if recvs[0] in svc.sessions {
        CountAppend(b.listeners, sid, if recvs[0] in b.queues then [] else [recvs[0]]);
        if recvs[0] in b.queues {
          assert b1.listeners == b.listeners;
        }
      }
    }
  }

  /** Times `x` occurs in `xs`. */
  function Count(xs: seq<SessionId>, x: SessionId): nat {
    if xs == [] then 0 else (if xs[0] == x then 1 else 0) + Count(xs[1..], x)
  }

  lemma {:induction false} CountAppend(xs: seq<SessionId>, x: SessionId, ys: seq<SessionId>)
    ensures Count(xs + ys, x) == Count(xs, x) + Count(ys, x)
    decreases |xs|
  {
    if xs == [] {
      assert xs + ys == ys;
    } else {
      assert (xs + ys)[1..] == xs[1..] + ys;
      CountAppend(xs[1..], x, ys);
    }
  }

  /** `doBroadcast`: enqueue for every visited session the filter accepts. */
  function EnqueueAll(b: Buffer, svc: Service, msg: string, filter: Option<(Session, string) -> bool>,
                      visits: seq<SessionId>): (r: Buffer)
    decreases |visits|
  {
    if visits == [] then b
    else
      var accepted := visits[0] in svc.sessions &&
                      (filter.None? || filter.value(svc.sessions[visits[0]], msg));
      EnqueueAll(if accepted then Enqueue(b, visits[0], msg) else b, svc, msg, filter, visits[1..])
  }

  /** `schedule(reqId, route, msg, recvs, opts, cb)`: enqueues and then
      calls back once; `invokeCallback` skips a missing callback. */
  function Schedule(b: Buffer, svc: Service, msg: string, broadcast: bool, binded: bool, recvs: seq<SessionId>,
                    filter: Option<(Session, string) -> bool>, uidOrder: seq<string>, sidOrder: seq<SessionId>,
                    hasCallback: bool): (r: (Buffer, nat))
    ensures r.1 == if hasCallback then 1 else 0
    ensures !broadcast ==> r.0 == DoBatchPush(b, svc, msg, recvs)
    ensures broadcast && binded ==> r.0 == EnqueueAll(b, svc, msg, filter, ForEachBindedSession(svc, uidOrder))
    ensures broadcast && !binded ==> r.0 == EnqueueAll(b, svc, msg, filter, ForEachSession(svc, sidOrder))
  {
    var b' :=
      if !broadcast then DoBatchPush(b, svc, msg, recvs)
      else if binded then EnqueueAll(b, svc, msg, filter, ForEachBindedSession(svc, uidOrder))
      else EnqueueAll(b, svc, msg, filter, ForEachSession(svc, sidOrder));
    (b', if hasCallback then 1 else 0)
  }

  /** An unfiltered broadcast queues the message exactly once for each
      visited session, whatever the visiting order. */
  lemma {:induction false} BroadcastQueuesOnce(b: Buffer, svc: Service, msg: string, visits: seq<SessionId>, sid: SessionId)
    requires Distinct(visits)
    requires forall i :: 0 <= i < |visits| ==> visits[i] in svc.sessions
    ensures sid in visits ==> QueueOf(EnqueueAll(b, svc, msg, None, visits), sid) == QueueOf(b, sid) + [msg]
    ensures sid !in visits ==> QueueOf(EnqueueAll(b, svc, msg, None, visits), sid) == QueueOf(b, sid)
    decreases |visits|
  {
    if visits != [] {
      var b1 := Enqueue(b, visits[0], msg);
      assert Distinct(visits[1..]) by {
        forall i, j | 0 <= i < j < |visits[1..]| ensures visits[1..][i] != visits[1..][j] {
          assert visits[1..][i] == visits[i + 1] && visits[1..][j] == visits[j + 1];
        }
      }
      assert visits[0] !in visits[1..] by {
        forall i | 0 <= i < |visits[1..]| ensures visits[1..][i] != visits[0] {
          assert visits[1..][i] == visits[i + 1];
        }
      }
      BroadcastQueuesOnce(b1, svc, msg, visits[1..], sid);
    }
  }

  /** One `flush`: for each queued session id, in the order `order` the
      queue table is visited, a live session with a non-empty queue gets
      one `sendBatch` of it and its queue becomes empty; ids without a
      live session, and empty queues, are skipped. */
  function Flush(b: Buffer, svc: Service, order: seq<SessionId>): (r: (Buffer, seq<Batch>))
    ensures r.0.queues.Keys == b.queues.Keys
    ensures r.0.listeners == b.listeners && r.0.running == b.running && r.0.hasTid == b.hasTid
    decreases |order|
  {
    if order == [] then (b, [])
    else
      var sid := order[0];
      if sid in b.queues && sid in svc.sessions && b.queues[sid] != [] then
        var (b', batches) := Flush(b.(queues := b.queues[sid := []]), svc, order[1..]);
        (b', [SendBatch(sid, b.queues[sid])] + batches)
      else Flush(b, svc, order[1..])
  }

  /** Visiting each queued id once, a flush sends each live, non-empty
      queue exactly once as one batch, empties exactly those queues, and
      leaves the others untouched. */
  lemma FlushSendsEachQueueOnce(b: Buffer, svc: Service, order: seq<SessionId>)
    requires Distinct(order) && forall i :: 0 <= i < |order| ==> order[i] in b.queues
    ensures var (r, batches) := Flush(b, svc, order);
            && (forall sid :: sid in b.queues ==>
                  r.queues[sid] == (if sid in order && sid in svc.sessions then [] else b.queues[sid]))
            && (forall batch :: batch in batches <==>
                  batch.sid in order && batch.sid in svc.sessions && b.queues[batch.sid] != [] &&
                  batch.msgs == b.queues[batch.sid])
            && Distinct(SidsOf(batches))
  {
    FlushEmptiesQueues(b, svc, order);
    FlushBatches(b, svc, order);
  }

  /** The tail of a duplicate-free visiting order. */
  lemma OrderTail(order: seq<SessionId>)
    requires Distinct(order) && order != []
    ensures Distinct(order[1..]) && order[0] !in order[1..]
    ensures forall x :: x in order <==> x == order[0] || x in order[1..]
  {
    forall i, j | 0 <= i < j < |order[1..]| ensures order[1..][i] != order[1..][j] {
      assert order[1..][i] == order[i + 1] && order[1..][j] == order[j + 1];
    }
    forall i | 0 <= i < |order[1..]| ensures order[1..][i] != order[0] {
      assert order[1..][i] == order[i + 1];
    }
    assert order == [order[0]] + order[1..];
  }

  lemma {:induction false} FlushEmptiesQueues(b: Buffer, svc: Service, order: seq<SessionId>)
    requires Distinct(order) && forall i :: 0 <= i < |order| ==> order[i] in b.queues
    ensures forall sid :: sid in b.queues ==>
              Flush(b, svc, order).0.queues[sid] == (if sid in order && sid in svc.sessions then [] else b.queues[sid])
    decreases |order|
  {
    if order != [] {
      var sid := order[0];
      OrderTail(order);
      if sid in svc.sessions && b.queues[sid] != [] {
        FlushEmptiesQueues(b.(queues := b.queues[sid := []]), svc, order[1..]);
      } else {
        FlushEmptiesQueues(b, svc, order[1..]);
      }
    }
  }

  lemma {:induction false} FlushBatches(b: Buffer, svc: Service, order: seq<SessionId>)
    requires Distinct(order) && forall i :: 0 <= i < |order| ==> order[i] in b.queues
    ensures var batches := Flush(b, svc, order).1;
            && (forall batch :: batch in batches <==>
                  batch.sid in order && batch.sid in svc.sessions && b.queues[batch.sid] != [] &&
                  batch.msgs == b.queues[batch.sid])
            && Distinct(SidsOf(batches))
    decreases |order|
  {
    if order != [] {
      var sid := order[0];
      OrderTail(order);
      if sid in svc.sessions && b.queues[sid] != [] {
        var b1 := b.(queues := b.queues[sid := []]);
        FlushBatches(b1, svc, order[1..]);
        var rest := Flush(b1, svc, order[1..]).1;
        assert sid !in SidsOf(rest);
        assert SidsOf([SendBatch(sid, b.queues[sid])] + rest) == [sid] + SidsOf(rest);
        DistinctCons(sid, SidsOf(rest));
      } else {
        FlushBatches(b, svc, order[1..]);
      }
    }
  }

  function SidsOf(batches: seq<Batch>): (r: seq<SessionId>)
    ensures |r| == |batches|
    ensures forall i :: 0 <= i < |batches| ==> r[i] == batches[i].sid
  {
    if batches == [] then [] else [batches[0].sid] + SidsOf(batches[1..])
  }

  lemma DistinctCons(x: SessionId, xs: seq<SessionId>)
    requires Distinct(xs) && x !in xs
    ensures Distinct([x] + xs)
  {
    forall i, j | 0 <= i < j < |[x] + xs| ensures ([x] + xs)[i] != ([x] + xs)[j] {
      if i == 0 {
        assert ([x] + xs)[j] == xs[j - 1];
      } else {
        assert ([x] + xs)[i] == xs[i - 1] && ([x] + xs)[j] == xs[j - 1];
      }
    }
  }

  /** Closing a session drops its pending messages: the next flush sends
      it nothing. */
  lemma CloseDropsPending(b: Buffer, svc: Service, sid: SessionId, order: seq<SessionId>)
    ensures forall batch :: batch in Flush(OnClose(b, sid), svc, order).1 ==> batch.sid != sid
  {
    FlushOnlyQueued(OnClose(b, sid), svc, order);
  }

  lemma {:induction false} FlushOnlyQueued(b: Buffer, svc: Service, order: seq<SessionId>)
    ensures forall batch :: batch in Flush(b, svc, order).1 ==> batch.sid in b.queues
    decreases |order|
  {
    if order != [] {
      var sid := order[0];
      if sid in b.queues && sid in svc.sessions && b.queues[sid] != [] {
        FlushOnlyQueued(b.(queues := b.queues[sid := []]), svc, order[1..]);
      } else {
        FlushOnlyQueued(b, svc, order[1..]);
      }
    }
  }
}
