/**
  The frontend end of channel pushes
  (lib/common/remote/frontend/channelRemote.js): resolving uids to the
  session ids bound on this server and handing them to the connector.

  The connector is opaque: the model returns the request made of it, and
  the error it reports back is a parameter.
 */
module ChannelRemote {
  import opened Common
  import opened SessionService

  datatype RemoteError = EmptyMessage | ConnectorError

  /** `connector.send(null, route, msg, receivers, opts, cb)`; `None`
      receivers means every session (a broadcast). */
  datatype ConnectorSend = ConnectorSend(receivers: Option<seq<SessionId>>, msg: string)

  /** The request made of the connector, if any, and the arguments the
      callback receives. */
  datatype PushOutcome = PushOutcome(send: Option<ConnectorSend>, error: Option<RemoteError>, fails: seq<string>)

  /** The loop of `pushMessage`: the ids of every session of every uid
      that has sessions, in order, and the uids that have none. */
  function Resolve(svc: Service, userIds: seq<string>): (r: (seq<SessionId>, seq<string>))
    ensures forall u :: u in r.1 <==> u in userIds && u !in svc.uidMap
    ensures |r.1| <= |userIds|
  {
    if userIds == [] then ([], [])
    else
      var (sids, fails) := Resolve(svc, userIds[1..]);
      if userIds[0] in svc.uidMap then (svc.uidMap[userIds[0]] + sids, fails)
      else (sids, [userIds[0]] + fails)
  }

  /** `pushMessage(route, msg, userIds, opts, cb)`.  A falsy message is
      refused before anything is sent.  Otherwise the connector is asked
      once to send to the resolved ids, and the callback gets its error
      and the uids that had no session. */
  function PushMessage(svc: Service, msg: string, userIds: seq<string>, connectorFails: bool): (r: PushOutcome)
    ensures !Truthy(msg) ==> r == PushOutcome(None, Some(EmptyMessage), [])
    ensures Truthy(msg) ==>
              && r.send == Some(ConnectorSend(Some(Resolve(svc, userIds).0), msg))
              && r.fails == Resolve(svc, userIds).1
              && (r.error.Some? <==> connectorFails)
  {
    if !Truthy(msg) then PushOutcome(None, Some(EmptyMessage), [])
    else
      var (sids, fails) := Resolve(svc, userIds);
      PushOutcome(Some(ConnectorSend(Some(sids), msg)), if connectorFails then Some(ConnectorError) else None, fails)
  }

  /** Reference definition of the fail list: the uids without sessions,
      in input order (repeats kept). */
  function Unbound(svc: Service, userIds: seq<string>): seq<string> {
    if userIds == [] then []
    else (if userIds[0] in svc.uidMap then [] else [userIds[0]]) + Unbound(svc, userIds[1..])
  }

  /** Reference definition of the receivers: each uid's session list, in
      input order. */
  function SessionsOf(svc: Service, userIds: seq<string>): seq<SessionId> {
    if userIds == [] then []
    else (if userIds[0] in svc.uidMap then svc.uidMap[userIds[0]] else []) + SessionsOf(svc, userIds[1..])
  }

  /** The fail list is the uids without sessions and the receiver list is
      the concatenated session lists, both in input order. */
  lemma {:induction false} ResolveSplitsUids(svc: Service, userIds: seq<string>)
    ensures Resolve(svc, userIds) == (SessionsOf(svc, userIds), Unbound(svc, userIds))
    decreases |userIds|
  {
    if userIds != [] {
      ResolveSplitsUids(svc, userIds[1..]);
      var rest := Resolve(svc, userIds[1..]);
      if userIds[0] in svc.uidMap {
        assert Resolve(svc, userIds) == (svc.uidMap[userIds[0]] + rest.0, rest.1);
        assert Unbound(svc, userIds) == [] + Unbound(svc, userIds[1..]) == rest.1;
      } else {
        assert Resolve(svc, userIds) == (rest.0, [userIds[0]] + rest.1);
        assert SessionsOf(svc, userIds) == [] + SessionsOf(svc, userIds[1..]) == rest.0;
        assert Unbound(svc, userIds) == [userIds[0]] + Unbound(svc, userIds[1..]);
      }
    }
  }

  /** With consistent indexes, a session receives the push exactly when it
      is registered and bound to one of the uids. */
  lemma {:induction false} ResolveReachesBoundSessions(svc: Service, userIds: seq<string>)
    requires Valid(svc)
    ensures forall x :: x in Resolve(svc, userIds).0 <==>
              x in svc.sessions && Truthy(svc.sessions[x].uid) && svc.sessions[x].uid in userIds
    decreases |userIds|
  {
    if userIds != [] {
      ResolveReachesBoundSessions(svc, userIds[1..]);
      var u := userIds[0];
      forall x | x in svc.sessions
        ensures (u in svc.uidMap && x in svc.uidMap[u]) <==> Truthy(u) && svc.sessions[x].uid == u
      {
        if u in svc.uidMap && x in svc.uidMap[u] {
          var k :| 0 <= k < |svc.uidMap[u]| && svc.uidMap[u][k] == x;
        }
      }
      forall x | u in svc.uidMap && x in svc.uidMap[u] ensures x in svc.sessions {
        var k :| 0 <= k < |svc.uidMap[u]| && svc.uidMap[u][k] == x;
      }
    }
  }

  /** `broadcast(route, msg, opts, cb)`: forwards to the connector with no
      receiver list when a connector exists; without one nothing happens
      and the callback is never invoked. */
  function Broadcast(hasConnector: bool, msg: string): (r: Option<ConnectorSend>)
    ensures r.Some? <==> hasConnector
    ensures r.Some? ==> r.value.receivers.None? && r.value.msg == msg
  {
    if hasConnector then Some(ConnectorSend(None, msg)) else None
  }
}
