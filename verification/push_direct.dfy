/**
  The direct push scheduler (lib/pushSchedulers/direct.js): every
  message is handed to the session service at once.

  The channel service's optional `broadcastFilter(session, msg,
  filterParam)` is a parameter with the filter parameter already bound.
  The object-key visiting orders of the session service's tables are
  parameters, as in `SessionService`.
 */
module PushDirect {
  import opened Common
  import opened SessionService

  type BroadcastFilter = Option<(Session, string) -> bool>

  datatype Request =
    | BatchPush(recvs: seq<SessionId>)      // opts.type !== 'broadcast'
    | Broadcast(binded: bool)                // opts.type === 'broadcast', opts.userOptions.binded

  /** The deliveries a schedule call makes, and how many times it calls
      back (`process.nextTick(cb)` when a callback is given). */
  datatype Scheduled = Scheduled(deliveries: seq<Delivery>, callbacks: nat)

  predicate Accepts(filter: BroadcastFilter, s: Session, msg: string) {
    filter.None? || filter.value(s, msg)
  }

  /** `doBatchPush`: `sendMessage(recv, msg)` for each receiver in order;
      unknown ids deliver nothing. */
  function DoBatchPush(svc: Service, msg: string, recvs: seq<SessionId>): (r: seq<Delivery>)
  {
    if recvs == [] then []
    else SendMessage(svc, recvs[0], msg).1 + DoBatchPush(svc, msg, recvs[1..])
  }

  /** The receivers that are registered, in order (repeats kept). */
  function Live(svc: Service, recvs: seq<SessionId>): (r: seq<SessionId>)
    ensures forall x :: x in r <==> x in recvs && x in svc.sessions
  {
    if recvs == [] then []
    else (if recvs[0] in svc.sessions then [recvs[0]] else []) + Live(svc, recvs[1..])
  }

  /** A batch push sends the message once per registered receiver, in
      receiver order, and to nobody else. */
  lemma {:induction false} BatchPushSendsToLive(svc: Service, msg: string, recvs: seq<SessionId>)
    ensures DoBatchPush(svc, msg, recvs) == SendAll(Live(svc, recvs), msg)
    decreases |recvs|
  {
    if recvs != [] {
      BatchPushSendsToLive(svc, msg, recvs[1..]);
      var here := if recvs[0] in svc.sessions then [recvs[0]] else [];
      SendAllAppend(here, Live(svc, recvs[1..]), msg);
    }
  }

  lemma SendAllAppend(a: seq<SessionId>, b: seq<SessionId>, msg: string)
    ensures SendAll(a + b, msg) == SendAll(a, msg) + SendAll(b, msg)
  {
  }

  /** `doBroadcast` with `binded`: for each bound session the filter
      accepts, `sendMessageByUid(session.uid, msg)`. */
  function BindedBroadcast(svc: Service, msg: string, filter: BroadcastFilter, visits: seq<SessionId>): (r: seq<Delivery>)
  {
    if visits == [] then []
    else
      var here :=
        if visits[0] in svc.sessions && Accepts(filter, svc.sessions[visits[0]], msg)
        then SendMessageByUid(svc, svc.sessions[visits[0]].uid, msg).1
        else [];
      here + BindedBroadcast(svc, msg, filter, visits[1..])
  }

  /** `doBroadcast` without `binded`: for each session the filter accepts,
      `sendMessage(session.id, msg)`. */
  function UnbindedBroadcast(svc: Service, msg: string, filter: BroadcastFilter, visits: seq<SessionId>): (r: seq<Delivery>)
  {
    if visits == [] then []
    else
      var here :=
        if visits[0] in svc.sessions && Accepts(filter, svc.sessions[visits[0]], msg)
        then SendMessage(svc, visits[0], msg).1
        else [];
      here + UnbindedBroadcast(svc, msg, filter, visits[1..])
  }

  /** `schedule(reqId, route, msg, recvs, opts, cb)`.  `uidOrder` and
      `sidOrder` are the visiting orders of the uid and session tables. */
  function Schedule(svc: Service, msg: string, request: Request, filter: BroadcastFilter,
                    uidOrder: seq<string>, sidOrder: seq<SessionId>, hasCallback: bool): (r: Scheduled)
    ensures r.callbacks == if hasCallback then 1 else 0
    ensures request.BatchPush? ==> r.deliveries == DoBatchPush(svc, msg, request.recvs)
    ensures request.Broadcast? && request.binded ==>
              r.deliveries == BindedBroadcast(svc, msg, filter, ForEachBindedSession(svc, uidOrder))
    ensures request.Broadcast? && !request.binded ==>
              r.deliveries == UnbindedBroadcast(svc, msg, filter, ForEachSession(svc, sidOrder))
  {
    var deliveries :=
      match request
      case BatchPush(recvs) => DoBatchPush(svc, msg, recvs)
      case Broadcast(binded) =>
        if binded then BindedBroadcast(svc, msg, filter, ForEachBindedSession(svc, uidOrder))
        else UnbindedBroadcast(svc, msg, filter, ForEachSession(svc, sidOrder));
    Scheduled(deliveries, if hasCallback then 1 else 0)
  }

  /** An unfiltered broadcast to all sessions sends exactly one message to
      each registered session, in visiting order. */
  lemma UnbindedBroadcastReachesEachOnce(svc: Service, msg: string, sidOrder: seq<SessionId>)
    requires IsEnumeration(sidOrder, svc.sessions.Keys)
    ensures UnbindedBroadcast(svc, msg, None, ForEachSession(svc, sidOrder)) == SendAll(sidOrder, msg)
  {
    ForEachSessionVisitsAll(svc, sidOrder);
    AllRegisteredUnbinded(svc, msg, sidOrder);
  }

  lemma {:induction false} AllRegisteredUnbinded(svc: Service, msg: string, visits: seq<SessionId>)
    requires forall i :: 0 <= i < |visits| ==> visits[i] in svc.sessions
    ensures UnbindedBroadcast(svc, msg, None, visits) == SendAll(visits, msg)
    decreases |visits|
  {
    if visits != [] {
      AllRegisteredUnbinded(svc, msg, visits[1..]);
    }
  }

  /** Reference count for the binded broadcast: a uid with `k` sessions is
      visited `k` times and each visit sends to all `k` sessions. */
  function SquaredSessions(svc: Service, uidOrder: seq<string>): nat {
    if uidOrder == [] then 0
    else
      var k := if uidOrder[0] in svc.uidMap then |svc.uidMap[uidOrder[0]]| else 0;
      k * k + SquaredSessions(svc, uidOrder[1..])
  }

  /** An unfiltered binded broadcast sends k·k messages for a uid bound
      to k sessions: the callback of `forEachBindedSession` runs once per
      session and `sendMessageByUid` reaches all of the uid's sessions. */
  lemma {:induction false} BindedBroadcastSendsSquares(svc: Service, msg: string, uidOrder: seq<string>)
    requires Valid(svc)
    ensures |BindedBroadcast(svc, msg, None, ForEachBindedSession(svc, uidOrder))| == SquaredSessions(svc, uidOrder)
    decreases |uidOrder|
  {
    if uidOrder != [] {
      var u := uidOrder[0];
      var here := if u in svc.uidMap then svc.uidMap[u] else [];
      var rest := ForEachBindedSession(svc, uidOrder[1..]);
      assert ForEachBindedSession(svc, uidOrder) == here + rest;
      BindedBroadcastAppend(svc, msg, here, rest);
      BindedBroadcastSendsSquares(svc, msg, uidOrder[1..]);
      if u in svc.uidMap {
        SessionsOfOneUid(svc, msg, u, here);
      }
    }
  }

  lemma {:induction false} BindedBroadcastAppend(svc: Service, msg: string, a: seq<SessionId>, b: seq<SessionId>)
    ensures BindedBroadcast(svc, msg, None, a + b) == BindedBroadcast(svc, msg, None, a) + BindedBroadcast(svc, msg, None, b)
    decreases |a|
  {
    if a == [] {
      assert a + b == b;
    } else {
      assert (a + b)[0] == a[0] && (a + b)[1..] == a[1..] + b;
      BindedBroadcastAppend(svc, msg, a[1..], b);
    }
  }

  /** Visiting any `n` of a uid's sessions sends `n` times its whole list. */
  lemma {:induction false} SessionsOfOneUid(svc: Service, msg: string, u: string, visits: seq<SessionId>)
    requires Valid(svc) && u in svc.uidMap
    requires forall i :: 0 <= i < |visits| ==> visits[i] in svc.uidMap[u]
    ensures |BindedBroadcast(svc, msg, None, visits)| == |visits| * |svc.uidMap[u]|
    decreases |visits|
  {
    if visits != [] {
      var x := visits[0];
      var list := svc.uidMap[u];
      var k :| 0 <= k < |list| && list[k] == x;
      assert x in svc.sessions && svc.sessions[x].uid == u;
      var here := SendMessageByUid(svc, u, msg).1;
      assert |here| == |list|;
      SessionsOfOneUid(svc, msg, u, visits[1..]);
      assert |BindedBroadcast(svc, msg, None, visits)| == |here| + (|visits| - 1) * |list|;
      assert |here| + (|visits| - 1) * |list| == |visits| * |list| by {
        MulStep(|visits|, |list|);
      }
    }
  }

  lemma MulStep(n: nat, k: nat)
    requires n > 0
    ensures k + (n - 1) * k == n * k
  {
  }
}
