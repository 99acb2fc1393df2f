/**
  The per-process session registry of a frontend server
  (lib/common/service/sessionService.js): the table `sid -> session`,
  the index `uid -> [session]`, binding, unbinding, settings import,
  idempotent close and the lookups used for message delivery.

  The index stores session ids; the sessions themselves live in
  `sessions`.  Callbacks that the source defers with `process.nextTick`
  are represented by the returned error value.
 */
module SessionService {
  import opened Common

  type SessionId = nat

  datatype SessionState = Inited | Closed

  /** `uid == ""` means "not bound" (the source stores `null`). */
  datatype Session = Session(
    id: SessionId,
    frontendId: string,
    uid: string,
    settings: map<string, Value>,
    state: SessionState)

  datatype Service = Service(
    singleSession: bool,
    sessions: map<SessionId, Session>,
    uidMap: map<string, seq<SessionId>>)

  datatype Error =
    | SessionNotFound               // "session does not exist, sid: ..."
    | AlreadyBound(current: string) // "session has already bind with ..."
    | SingleSessionConflict         // "singleSession is enabled, ..."
    | NotBound(current: string)     // "session has not bind with ..."

  datatype Outcome = Outcome(service: Service, error: Option<Error>, events: seq<Event>)

  /** What a session and its socket emit. */
  datatype Event =
    | Bound(sid: SessionId, uid: string)              // session emits 'bind'
    | Unbound(sid: SessionId, uid: string)            // session emits 'unbind'
    | SessionClosed(sid: SessionId, reason: string)   // session emits 'closed'
    | SocketClosing(sid: SessionId, reason: string)   // socket emits 'closing'
    | SocketDisconnect(sid: SessionId)                // next tick: socket.disconnect()

  datatype Delivery = Send(sid: SessionId, msg: string)

  function NewService(singleSession: bool): Service {
    Service(singleSession, map[], map[])
  }

  /** The two indexes agree: every session listed under `uid` is
      registered and bound to `uid`, lists are non-empty and
      duplicate-free, and every bound session is listed under its uid. */
  ghost predicate Valid(svc: Service) {
    && SessionsWellFormed(svc)
    && ListsWellFormed(svc)
    && ListsSound(svc)
    && ListsComplete(svc)
  }

  ghost predicate SessionsWellFormed(svc: Service) {
    forall sid :: sid in svc.sessions ==>
      svc.sessions[sid].id == sid && svc.sessions[sid].state == Inited
  }

  ghost predicate ListsWellFormed(svc: Service) {
    forall uid :: uid in svc.uidMap ==>
      Truthy(uid) && svc.uidMap[uid] != [] && Distinct(svc.uidMap[uid])
  }

  ghost predicate ListsSound(svc: Service) {
    forall uid, i :: uid in svc.uidMap && 0 <= i < |svc.uidMap[uid]| ==>
      svc.uidMap[uid][i] in svc.sessions &&
      svc.sessions[svc.uidMap[uid][i]].uid == uid
  }

  ghost predicate ListsComplete(svc: Service) {
    forall sid :: sid in svc.sessions && Truthy(svc.sessions[sid].uid) ==>
      svc.sessions[sid].uid in svc.uidMap &&
      sid in svc.uidMap[svc.sessions[sid].uid]
  }

  lemma NewServiceValid(singleSession: bool)
    ensures Valid(NewService(singleSession))
  {
  }

  /** `create(sid, frontendId, socket)`: registers a fresh, unbound session. */
  function Create(svc: Service, sid: SessionId, frontendId: string): (r: (Service, Session))
    ensures r.1.id == sid && r.1.frontendId == frontendId
    ensures !Truthy(r.1.uid) && r.1.settings == map[] && r.1.state == Inited
    ensures sid in r.0.sessions && r.0.sessions[sid] == r.1
    ensures forall other :: other != sid ==>
              (other in r.0.sessions <==> other in svc.sessions) &&
              (other in svc.sessions ==> r.0.sessions[other] == svc.sessions[other])
    ensures r.0.uidMap == svc.uidMap
  {
    var s := Session(sid, frontendId, "", map[], Inited);
    (svc.(sessions := svc.sessions[sid := s]), s)
  }

  lemma CreatePreservesValid(svc: Service, sid: SessionId, frontendId: string)
    requires Valid(svc) && sid !in svc.sessions
    ensures Valid(Create(svc, sid, frontendId).0)
  {
    var svc' := Create(svc, sid, frontendId).0;
    forall uid, i | uid in svc'.uidMap && 0 <= i < |svc'.uidMap[uid]|
      ensures svc'.uidMap[uid][i] in svc'.sessions && svc'.sessions[svc'.uidMap[uid][i]].uid == uid
    {
      assert svc'.uidMap[uid][i] in svc.sessions;
    }
  }

  function Get(svc: Service, sid: SessionId): (r: Option<Session>)
    ensures r.Some? <==> sid in svc.sessions
    ensures r.Some? ==> r.value == svc.sessions[sid]
  {
    if sid in svc.sessions then Some(svc.sessions[sid]) else None
  }

  function GetByUid(svc: Service, uid: string): (r: Option<seq<SessionId>>)
    ensures r.Some? <==> uid in svc.uidMap
    ensures r.Some? ==> r.value == svc.uidMap[uid]
  {
    if uid in svc.uidMap then Some(svc.uidMap[uid]) else None
  }

  /** `bind(sid, uid, cb)`. */
  function Bind(svc: Service, sid: SessionId, uid: string): (r: Outcome)
    ensures sid !in svc.sessions ==> r == Outcome(svc, Some(SessionNotFound), [])
    ensures sid in svc.sessions && Truthy(svc.sessions[sid].uid) ==>
              r.service == svc &&
              (r.error.None? <==> svc.sessions[sid].uid == uid)
    ensures sid in svc.sessions && !Truthy(svc.sessions[sid].uid) &&
            svc.singleSession && uid in svc.uidMap ==>
              r == Outcome(svc, Some(SingleSessionConflict), [])
    ensures r.error.Some? ==> r.service == svc
    // the session emits 'bind' once when it is actually bound, and never on
    // the no-op or error paths
    ensures r.events == (if r.error.None? && r.service != svc then [Bound(sid, uid)] else [])
    // an unbound session with no single-session conflict is bound: it ends
    // up in the uid's list, and nothing changes only when it already was
    ensures sid in svc.sessions && !Truthy(svc.sessions[sid].uid) &&
            !(svc.singleSession && uid in svc.uidMap) ==>
              && r.error.None?
              && uid in r.service.uidMap && sid in r.service.uidMap[uid]
              && (r.service == svc <==> uid in svc.uidMap && sid in svc.uidMap[uid])
              && (r.service != svc ==> sid in r.service.sessions && r.service.sessions[sid].uid == uid)
    ensures r.error.None? && r.service != svc ==>
              && sid in svc.sessions && !Truthy(svc.sessions[sid].uid)
              && r.service.sessions == svc.sessions[sid := svc.sessions[sid].(uid := uid)]
              && uid in r.service.uidMap
              && r.service.uidMap[uid] == (if uid in svc.uidMap then svc.uidMap[uid] else []) + [sid]
              && (uid in svc.uidMap ==> sid !in svc.uidMap[uid])
              && (forall u :: u != uid ==>
                    (u in r.service.uidMap <==> u in svc.uidMap) &&
                    (u in svc.uidMap ==> r.service.uidMap[u] == svc.uidMap[u]))
  {
    if sid !in svc.sessions then Outcome(svc, Some(SessionNotFound), [])
    else
      var s := svc.sessions[sid];
      if Truthy(s.uid) then
        if s.uid == uid then Outcome(svc, None, [])
        else Outcome(svc, Some(AlreadyBound(s.uid)), [])
      else if svc.singleSession && uid in svc.uidMap then
        Outcome(svc, Some(SingleSessionConflict), [])
      else
        var list := if uid in svc.uidMap then svc.uidMap[uid] else [];
        if sid in list then Outcome(svc, None, [])
        else
          Outcome(svc.(sessions := svc.sessions[sid := s.(uid := uid)],
                       uidMap := svc.uidMap[uid := list + [sid]]), None, [Bound(sid, uid)])
  }

  /** A successful bind of a real uid leaves the indexes consistent. */
  lemma BindPreservesValid(svc: Service, sid: SessionId, uid: string)
    requires Valid(svc) && Truthy(uid)
    ensures Valid(Bind(svc, sid, uid).service)
  {
    var r := Bind(svc, sid, uid);
    if r.service != svc {
      var svc' := r.service;
      var list := if uid in svc.uidMap then svc.uidMap[uid] else [];
      assert sid !in list;
      assert !Truthy(svc.sessions[sid].uid);
      assert svc'.uidMap[uid] == list + [sid];
      assert Distinct(list + [sid]) by {
        forall i, j | 0 <= i < j < |list + [sid]| ensures (list + [sid])[i] != (list + [sid])[j] {
          if j == |list| { assert (list + [sid])[i] == list[i]; assert list[i] in list; }
        }
      }
      forall u, i | u in svc'.uidMap && 0 <= i < |svc'.uidMap[u]|
        ensures svc'.uidMap[u][i] in svc'.sessions && svc'.sessions[svc'.uidMap[u][i]].uid == u
      {
        if u == uid {
          if i < |list| {
            assert svc'.uidMap[u][i] == list[i];
            assert list[i] != sid by { assert list[i] in list; }
          }
        } else {
          var x := svc.uidMap[u][i];
          assert svc.sessions[x].uid == u && Truthy(u);
          assert x != sid;
        }
      }
    }
  }

  /** After a successful bind the session is found through its uid. */
  lemma BindThenGetByUid(svc: Service, sid: SessionId, uid: string)
    requires Valid(svc) && Truthy(uid)
    requires Bind(svc, sid, uid).error.None?
    ensures GetByUid(Bind(svc, sid, uid).service, uid).Some?
    ensures sid in GetByUid(Bind(svc, sid, uid).service, uid).value
    ensures Bind(svc, sid, uid).service.sessions[sid].uid == uid
  {
  }

  /** The source does not reject a falsy uid: binding one puts the session
      under that key while it still reads as unbound, so a later bind to a
      real uid lists the same session under two uids. */
  lemma BindFalsyUidBreaksIndex()
    ensures var svc := Create(NewService(false), 1, "connector-1").0;
            var once := Bind(svc, 1, "").service;
            var twice := Bind(once, 1, "u1").service;
            && Valid(svc)
            && Bind(svc, 1, "").error.None?
            && Bind(once, 1, "u1").error.None?
            && 1 in twice.uidMap[""] && 1 in twice.uidMap["u1"]
            && !Valid(twice)
  {
    var svc := Create(NewService(false), 1, "connector-1").0;
    CreatePreservesValid(NewService(false), 1, "connector-1");
    var once := Bind(svc, 1, "").service;
    var twice := Bind(once, 1, "u1").service;
    assert twice.uidMap[""] == [1];
    assert twice.sessions[1].uid == "u1";
  }

  /** Drops `sid` from the list indexed by `uid`, deleting the entry
      when the list becomes empty. */
  function DropFromIndex(uidMap: map<string, seq<SessionId>>, uid: string, sid: SessionId)
    : (r: map<string, seq<SessionId>>)
    ensures forall u :: u != uid ==>
              (u in r <==> u in uidMap) && (u in uidMap ==> r[u] == uidMap[u])
    ensures uid in r <==> uid in uidMap && RemoveFirst(uidMap[uid], sid) != []
    ensures uid in r ==> r[uid] == RemoveFirst(uidMap[uid], sid)
  {
    if uid !in uidMap then uidMap
    else
      var l := RemoveFirst(uidMap[uid], sid);
      if l == [] then uidMap - {uid} else uidMap[uid := l]
  }

  /** `unbind(sid, uid, cb)`. */
  function Unbind(svc: Service, sid: SessionId, uid: string): (r: Outcome)
    ensures sid !in svc.sessions ==> r == Outcome(svc, Some(SessionNotFound), [])
    ensures sid in svc.sessions ==>
              (r.error.None? <==> Truthy(svc.sessions[sid].uid) && svc.sessions[sid].uid == uid)
    ensures r.error.Some? ==> r.service == svc
    // the session emits 'unbind' exactly once on success
    ensures r.events == (if r.error.None? then [Unbound(sid, uid)] else [])
    ensures r.error.None? ==>
              && r.service.sessions == svc.sessions[sid := svc.sessions[sid].(uid := "")]
              && !Truthy(r.service.sessions[sid].uid)
              && (uid in r.service.uidMap <==>
                    uid in svc.uidMap && RemoveFirst(svc.uidMap[uid], sid) != [])
              && (uid in r.service.uidMap ==>
                    r.service.uidMap[uid] == RemoveFirst(svc.uidMap[uid], sid))
              && (forall u :: u != uid ==>
                    (u in r.service.uidMap <==> u in svc.uidMap) &&
                    (u in svc.uidMap ==> r.service.uidMap[u] == svc.uidMap[u]))
  {
    if sid !in svc.sessions then Outcome(svc, Some(SessionNotFound), [])
    else
      var s := svc.sessions[sid];
      if !Truthy(s.uid) || s.uid != uid then Outcome(svc, Some(NotBound(s.uid)), [])
      else
        Outcome(Detach(svc, sid, uid), None, [Unbound(sid, uid)])
  }

  /** The successful half of `unbind`: clears the session's uid and drops
      it from the uid's list. */
  function Detach(svc: Service, sid: SessionId, uid: string): Service
    requires sid in svc.sessions
  {
    svc.(sessions := svc.sessions[sid := svc.sessions[sid].(uid := "")],
         uidMap := DropFromIndex(svc.uidMap, uid, sid))
  }

  lemma UnbindPreservesValid(svc: Service, sid: SessionId, uid: string)
    requires Valid(svc)
    ensures Valid(Unbind(svc, sid, uid).service)
  {
    if Unbind(svc, sid, uid).error.None? {
      DetachPreservesValid(svc, sid, uid);
    }
  }

  /** Clearing the uid of a bound session and dropping it from the uid's list. */
  lemma DetachPreservesValid(svc: Service, sid: SessionId, uid: string)
    requires Valid(svc) && sid in svc.sessions && svc.sessions[sid].uid == uid && Truthy(uid)
    ensures Valid(Detach(svc, sid, uid))
  {
    DropPreservesValid(svc, Detach(svc, sid, uid), sid);
  }

  /** `after` is `svc` with the binding of `sid` forgotten: the session is
      gone or unbound, the others are untouched, and `sid` has left its
      uid's list. */
  ghost predicate ForgetsBinding(svc: Service, after: Service, sid: SessionId)
    requires sid in svc.sessions
  {
    && after.sessions.Keys <= svc.sessions.Keys
    && (forall x :: x in svc.sessions && x != sid ==> x in after.sessions)
    && (forall x :: x in after.sessions && x != sid ==> after.sessions[x] == svc.sessions[x])
    && (sid in after.sessions ==> after.sessions[sid] == svc.sessions[sid].(uid := ""))
    && after.uidMap == DropFromIndex(svc.uidMap, svc.sessions[sid].uid, sid)
  }

  lemma DropPreservesValid(svc: Service, after: Service, sid: SessionId)
    requires Valid(svc) && sid in svc.sessions && Truthy(svc.sessions[sid].uid)
    requires ForgetsBinding(svc, after, sid)
    ensures Valid(after)
  {
    var uid := svc.sessions[sid].uid;
    RemoveFirstDistinct(svc.uidMap[uid], sid);
    DropKeepsWellFormed(svc, after, sid);
    DropKeepsListsSound(svc, after, sid);
    DropKeepsListsComplete(svc, after, sid);
  }

  lemma DropKeepsWellFormed(svc: Service, after: Service, sid: SessionId)
    requires Valid(svc) && sid in svc.sessions && Truthy(svc.sessions[sid].uid)
    requires ForgetsBinding(svc, after, sid)
    requires Distinct(RemoveFirst(svc.uidMap[svc.sessions[sid].uid], sid))
    ensures SessionsWellFormed(after) && ListsWellFormed(after)
  {
  }

  lemma DropKeepsListsSound(svc: Service, after: Service, sid: SessionId)
    requires Valid(svc) && sid in svc.sessions && Truthy(svc.sessions[sid].uid)
    requires ForgetsBinding(svc, after, sid)
    requires forall y :: y in RemoveFirst(svc.uidMap[svc.sessions[sid].uid], sid) <==>
                         y in svc.uidMap[svc.sessions[sid].uid] && y != sid
    ensures ListsSound(after)
  {
    var uid := svc.sessions[sid].uid;
    forall u, i | u in after.uidMap && 0 <= i < |after.uidMap[u]|
      ensures after.uidMap[u][i] in after.sessions && after.sessions[after.uidMap[u][i]].uid == u
    {
      var x := after.uidMap[u][i];
      if u == uid {
        assert x in RemoveFirst(svc.uidMap[uid], sid);
        var k :| 0 <= k < |svc.uidMap[uid]| && svc.uidMap[uid][k] == x;
        assert svc.sessions[x].uid == u;
      } else {
        assert x == svc.uidMap[u][i];
        assert svc.sessions[x].uid == u;
      }
      assert x != sid;
    }
  }

  lemma DropKeepsListsComplete(svc: Service, after: Service, sid: SessionId)
    requires Valid(svc) && sid in svc.sessions && Truthy(svc.sessions[sid].uid)
    requires ForgetsBinding(svc, after, sid)
    requires forall y :: y in RemoveFirst(svc.uidMap[svc.sessions[sid].uid], sid) <==>
                         y in svc.uidMap[svc.sessions[sid].uid] && y != sid
    ensures ListsComplete(after)
  {
    var uid := svc.sessions[sid].uid;
    forall other | other in after.sessions && Truthy(after.sessions[other].uid)
      ensures after.sessions[other].uid in after.uidMap &&
              other in after.uidMap[after.sessions[other].uid]
    {
      assert other != sid;
      var u := svc.sessions[other].uid;
      assert after.sessions[other] == svc.sessions[other];
      assert u in svc.uidMap && other in svc.uidMap[u];
      if u == uid {
        assert other in RemoveFirst(svc.uidMap[uid], sid);
      } else {
        assert after.uidMap[u] == svc.uidMap[u];
      }
    }
  }

  /** After a successful unbind the session is no longer found through the uid. */
  lemma UnbindThenGetByUid(svc: Service, sid: SessionId, uid: string)
    requires Valid(svc)
    requires Unbind(svc, sid, uid).error.None?
    ensures var found := GetByUid(Unbind(svc, sid, uid).service, uid);
            found.None? || sid !in found.value
  {
    RemoveFirstDistinct(svc.uidMap[uid], sid);
  }

  /** `remove(sid)`: forgets the session in both indexes; unknown ids are ignored. */
  function Remove(svc: Service, sid: SessionId): (r: Service)
    ensures sid !in svc.sessions ==> r == svc
    ensures r.sessions == svc.sessions - {sid}
    ensures r.singleSession == svc.singleSession
    ensures sid in svc.sessions ==>
              var uid := svc.sessions[sid].uid;
              && (forall u :: u != uid ==>
                    (u in r.uidMap <==> u in svc.uidMap) &&
                    (u in svc.uidMap ==> r.uidMap[u] == svc.uidMap[u]))
              && (uid in r.uidMap ==> uid in svc.uidMap &&
                                      r.uidMap[uid] == RemoveFirst(svc.uidMap[uid], sid))
              && (uid in svc.uidMap && sid in svc.uidMap[uid] ==>
                    (uid in r.uidMap <==> RemoveFirst(svc.uidMap[uid], sid) != []))
  {
    if sid !in svc.sessions then svc
    else
      var uid := svc.sessions[sid].uid;
      var sessions := svc.sessions - {sid};
      if uid !in svc.uidMap || sid !in svc.uidMap[uid] then
        svc.(sessions := sessions)
      else
        svc.(sessions := sessions, uidMap := DropFromIndex(svc.uidMap, uid, sid))
  }

  lemma RemovePreservesValid(svc: Service, sid: SessionId)
    requires Valid(svc)
    ensures Valid(Remove(svc, sid))
  {
    if sid in svc.sessions {
      var svc' := Remove(svc, sid);
      var uid := svc.sessions[sid].uid;
      if Truthy(uid) {
        RemoveFirstDistinct(svc.uidMap[uid], sid);
        assert svc'.uidMap == DropFromIndex(svc.uidMap, uid, sid);
        IndexSoundAfterDrop(svc, sid, uid);
      } else {
        assert svc'.uidMap == svc.uidMap;
        forall u, i | u in svc'.uidMap && 0 <= i < |svc'.uidMap[u]|
          ensures svc'.uidMap[u][i] in svc'.sessions && svc'.sessions[svc'.uidMap[u][i]].uid == u
        {
          var x := svc.uidMap[u][i];
          assert svc.sessions[x].uid == u && Truthy(u);
        }
      }
    }
  }

  /** The list part of `Valid` after `sid`, bound to `uid`, leaves both indexes. */
  lemma IndexSoundAfterDrop(svc: Service, sid: SessionId, uid: string)
    requires Valid(svc) && sid in svc.sessions && svc.sessions[sid].uid == uid && Truthy(uid)
    ensures var svc' := svc.(sessions := svc.sessions - {sid},
                             uidMap := DropFromIndex(svc.uidMap, uid, sid));
            Valid(svc')
  {
    DropPreservesValid(svc, svc.(sessions := svc.sessions - {sid}, uidMap := DropFromIndex(svc.uidMap, uid, sid)), sid);
  }

  /** A removed session is found neither by id nor through any uid. */
  lemma RemoveForgetsSession(svc: Service, sid: SessionId)
    requires Valid(svc)
    ensures Get(Remove(svc, sid), sid).None?
    ensures forall u :: u in Remove(svc, sid).uidMap ==> sid !in Remove(svc, sid).uidMap[u]
  {
    RemovePreservesValid(svc, sid);
  }

  lemma RemoveForgetsWhenValid(svc: Service, sid: SessionId)
    ensures Valid(svc) ==>
              && Valid(Remove(svc, sid))
              && Get(Remove(svc, sid), sid).None?
              && (forall u :: u in Remove(svc, sid).uidMap ==> sid !in Remove(svc, sid).uidMap[u])
  {
    if Valid(svc) {
      RemovePreservesValid(svc, sid);
      RemoveForgetsSession(svc, sid);
    }
  }

  /** `import(sid, key, value, cb)`: writes one setting of a registered session. */
  function Import(svc: Service, sid: SessionId, key: string, value: Value): (r: Outcome)
    ensures sid !in svc.sessions ==> r == Outcome(svc, Some(SessionNotFound), [])
    ensures r.events == []
    ensures sid in svc.sessions ==>
              && r.error.None?
              && r.service.uidMap == svc.uidMap
              && r.service.sessions.Keys == svc.sessions.Keys
              && r.service.sessions[sid].settings.Keys == svc.sessions[sid].settings.Keys + {key}
              && r.service.sessions[sid].settings[key] == value
              && (forall k :: k in svc.sessions[sid].settings && k != key ==>
                    r.service.sessions[sid].settings[k] == svc.sessions[sid].settings[k])
              && r.service.sessions[sid].uid == svc.sessions[sid].uid
              && (forall other :: other in svc.sessions && other != sid ==>
                    r.service.sessions[other] == svc.sessions[other])
  {
    if sid !in svc.sessions then Outcome(svc, Some(SessionNotFound), [])
    else
      var s := svc.sessions[sid];
      Outcome(svc.(sessions := svc.sessions[sid := s.(settings := s.settings[key := value])]), None, [])
  }

  /** `importAll(sid, settings, cb)`: copies every key of `settings`, and
      only those, into a registered session. */
  function ImportAll(svc: Service, sid: SessionId, settings: map<string, Value>): (r: Outcome)
    ensures sid !in svc.sessions ==> r == Outcome(svc, Some(SessionNotFound), [])
    ensures r.events == []
    ensures sid in svc.sessions ==>
              && r.error.None?
              && r.service.uidMap == svc.uidMap
              && r.service.sessions.Keys == svc.sessions.Keys
              && r.service.sessions[sid].settings.Keys == svc.sessions[sid].settings.Keys + settings.Keys
              && (forall k :: k in settings ==> r.service.sessions[sid].settings[k] == settings[k])
              && (forall k :: k in svc.sessions[sid].settings && k !in settings ==>
                    r.service.sessions[sid].settings[k] == svc.sessions[sid].settings[k])
              && r.service.sessions[sid].uid == svc.sessions[sid].uid
              && (forall other :: other in svc.sessions && other != sid ==>
                    r.service.sessions[other] == svc.sessions[other])
  {
    if sid !in svc.sessions then Outcome(svc, Some(SessionNotFound), [])
    else
      var s := svc.sessions[sid];
      Outcome(svc.(sessions := svc.sessions[sid := s.(settings := s.settings + settings)]), None, [])
  }

  /** Settings never touch the indexes, so both imports keep them consistent. */
  lemma ImportsPreserveValid(svc: Service, sid: SessionId, key: string, value: Value,
                             settings: map<string, Value>)
    requires Valid(svc)
    ensures Valid(Import(svc, sid, key, value).service)
    ensures Valid(ImportAll(svc, sid, settings).service)
  {
    if sid in svc.sessions {
      var s := svc.sessions[sid];
      SameBindingsValid(svc, sid, s.(settings := s.settings[key := value]));
      SameBindingsValid(svc, sid, s.(settings := s.settings + settings));
    }
  }

  /** Replacing a session by one with the same id, uid and state keeps
      the indexes consistent. */
  lemma SameBindingsValid(svc: Service, sid: SessionId, s: Session)
    requires Valid(svc) && sid in svc.sessions
    requires s.id == sid && s.uid == svc.sessions[sid].uid && s.state == svc.sessions[sid].state
    ensures Valid(svc.(sessions := svc.sessions[sid := s]))
  {
    var after := svc.(sessions := svc.sessions[sid := s]);
    assert forall x :: x in svc.sessions ==> after.sessions[x].uid == svc.sessions[x].uid;
  }

  datatype CloseOutcome = CloseOutcome(service: Service, session: Session, events: seq<Event>)

  /** `Session.closed(reason)`: the first call marks the session closed,
      removes it from the registry, emits 'closed' and 'closing' and asks
      the socket to disconnect; later calls do nothing. */
  function Close(svc: Service, s: Session, reason: string): (r: CloseOutcome)
    ensures s.state == Closed ==> r == CloseOutcome(svc, s, [])
    ensures s.state == Inited ==>
              && r.session == s.(state := Closed)
              && r.service == Remove(svc, s.id)
              && r.events == [SessionClosed(s.id, reason), SocketClosing(s.id, reason),
                              SocketDisconnect(s.id)]
  {
    if s.state == Closed then CloseOutcome(svc, s, [])
    else
      CloseOutcome(Remove(svc, s.id), s.(state := Closed),
                   [SessionClosed(s.id, reason), SocketClosing(s.id, reason), SocketDisconnect(s.id)])
  }

  /** Closing twice is the same as closing once. */
  lemma CloseIdempotent(svc: Service, s: Session, reason: string, reason2: string)
    ensures var first := Close(svc, s, reason);
            var second := Close(first.service, first.session, reason2);
            second.service == first.service && second.session == first.session &&
            second.events == [] && first.session.state == Closed
  {
  }

  datatype KickOutcome = KickOutcome(service: Service, events: seq<Event>, faulted: bool)

  /** Closes, in order, the sessions listed in a snapshot of a uid's list.
      A listed id that is no longer registered makes the source throw
      (`this.sessions[sid]` is undefined); the model stops with `faulted`. */
  function CloseListed(svc: Service, sids: seq<SessionId>, reason: string): (r: KickOutcome)
    ensures SessionsWellFormed(r.service) <== SessionsWellFormed(svc)
    ensures SessionsWellFormed(svc) && !r.faulted ==>
              r.service.sessions == svc.sessions - (set x | x in sids)
    ensures SessionsWellFormed(svc) && Distinct(sids) && (forall x :: x in sids ==> x in svc.sessions) ==>
              !r.faulted
    decreases |sids|
  {
    if sids == [] then KickOutcome(svc, [], false)
    else if sids[0] !in svc.sessions then KickOutcome(svc, [], true)
    else
      var c := Close(svc, svc.sessions[sids[0]], reason);
      var rest := CloseListed(c.service, sids[1..], reason);
      DistinctTail(sids);
      KickOutcome(rest.service, c.events + rest.events, rest.faulted)
  }

  lemma DistinctTail(sids: seq<SessionId>)
    requires sids != []
    ensures Distinct(sids) ==> Distinct(sids[1..]) && sids[0] !in sids[1..]
    ensures (set x | x in sids) == {sids[0]} + (set x | x in sids[1..])
  {
    if Distinct(sids) {
      forall i, j | 0 <= i < j < |sids[1..]| ensures sids[1..][i] != sids[1..][j] {
        assert sids[1..][i] == sids[i + 1] && sids[1..][j] == sids[j + 1];
      }
      forall i | 0 <= i < |sids[1..]| ensures sids[1..][i] != sids[0] {
        assert sids[1..][i] == sids[i + 1];
      }
    }
    assert sids == [sids[0]] + sids[1..];
  }

  lemma {:induction false} CloseListedPreservesValid(svc: Service, sids: seq<SessionId>, reason: string)
    requires Valid(svc)
    ensures Valid(CloseListed(svc, sids, reason).service)
    decreases |sids|
  {
    if sids != [] && sids[0] in svc.sessions {
      var c := Close(svc, svc.sessions[sids[0]], reason);
      RemovePreservesValid(svc, sids[0]);
      CloseListedPreservesValid(c.service, sids[1..], reason);
    }
  }

  /** Kicking a uid closes every session bound to it and nothing else:
      afterwards the uid has no sessions and the indexes stay consistent. */
  lemma KickClosesAllOfUid(svc: Service, uid: string, reason: string)
    requires Valid(svc)
    ensures var r := Kick(svc, uid, reason);
            && !r.faulted
            && Valid(r.service)
            && uid !in r.service.uidMap
            && (forall x :: x in r.service.sessions <==>
                  x in svc.sessions && (svc.sessions[x].uid != uid || !Truthy(uid)))
  {
    var r := Kick(svc, uid, reason);
    if uid in svc.uidMap {
      var list := svc.uidMap[uid];
      CloseListedPreservesValid(svc, list, reason);
      assert forall x :: x in list ==> x in svc.sessions by {
        forall x | x in list ensures x in svc.sessions {
          var k :| 0 <= k < |list| && list[k] == x;
        }
      }
      forall x | x in svc.sessions
        ensures x in list <==> svc.sessions[x].uid == uid
      {
        if x in list {
          var k :| 0 <= k < |list| && list[k] == x;
        }
      }
      forall x | x in r.service.sessions ensures r.service.sessions[x].uid != uid {
        assert x in svc.sessions && x !in list;
      }
      ListedUidHasHolder(r.service, uid);
    }
  }

  /** A uid that has a list has a registered session bound to it. */
  lemma ListedUidHasHolder(svc: Service, uid: string)
    requires Valid(svc)
    ensures uid in svc.uidMap ==> exists x :: x in svc.sessions && svc.sessions[x].uid == uid
  {
    if uid in svc.uidMap {
      var x := svc.uidMap[uid][0];
      assert x in svc.sessions && svc.sessions[x].uid == uid;
    }
  }

  /** `kick(uid, reason, cb)`: closes every session bound to `uid`. */
  function Kick(svc: Service, uid: string, reason: string): (r: KickOutcome)
    ensures uid !in svc.uidMap ==> r == KickOutcome(svc, [], false)
  {
    if uid !in svc.uidMap then KickOutcome(svc, [], false)
    else CloseListed(svc, svc.uidMap[uid], reason)
  }

  /** `kickBySessionId(sid, reason, cb)`: closing a registered session
      removes it from both indexes. */
  function KickBySessionId(svc: Service, sid: SessionId, reason: string): (r: CloseOutcome)
    requires SessionsWellFormed(svc)
    ensures sid !in svc.sessions ==> r.service == svc && r.events == []
    ensures sid in svc.sessions ==>
              && r.service == Remove(svc, sid)
              && r.service.sessions == svc.sessions - {sid}
              && r.events == [SessionClosed(sid, reason), SocketClosing(sid, reason), SocketDisconnect(sid)]
    // with consistent indexes the kicked session is gone from the uid lists
    // too, and the indexes stay consistent
    ensures Valid(svc) ==>
              && Valid(r.service)
              && Get(r.service, sid).None?
              && (forall u :: u in r.service.uidMap ==> sid !in r.service.uidMap[u])
  {
    RemoveForgetsWhenValid(svc, sid);
    if sid in svc.sessions then Close(svc, svc.sessions[sid], reason)
    else CloseOutcome(svc, Session(sid, "", "", map[], Closed), [])
  }

  /** `sendMessage(sid, msg)`: false for an unknown session, otherwise one
      message handed to that session's socket. */
  function SendMessage(svc: Service, sid: SessionId, msg: string): (r: (bool, seq<Delivery>))
    ensures r.0 <==> sid in svc.sessions
    ensures r.1 == if r.0 then [Send(sid, msg)] else []
  {
    if sid !in svc.sessions then (false, []) else (true, [Send(sid, msg)])
  }

  /** `sendMessageByUid(uid, msg)`: false iff the uid has no sessions;
      otherwise one message per session bound to it, in list order. */
  function SendMessageByUid(svc: Service, uid: string, msg: string): (r: (bool, seq<Delivery>))
    ensures r.0 <==> uid in svc.uidMap
    ensures r.0 ==> |r.1| == |svc.uidMap[uid]| &&
                    forall i :: 0 <= i < |r.1| ==> r.1[i] == Send(svc.uidMap[uid][i], msg)
    ensures !r.0 ==> r.1 == []
  {
    if uid !in svc.uidMap then (false, [])
    else (true, SendAll(svc.uidMap[uid], msg))
  }

  function SendAll(sids: seq<SessionId>, msg: string): (r: seq<Delivery>)
    ensures |r| == |sids|
    ensures forall i :: 0 <= i < |r| ==> r[i] == Send(sids[i], msg)
  {
    if sids == [] then [] else [Send(sids[0], msg)] + SendAll(sids[1..], msg)
  }

  /** `forEachSession(cb)`: the ids of the registered sessions, in the
      order `order` in which the `sessions` object is visited. */
  function ForEachSession(svc: Service, order: seq<SessionId>): (r: seq<SessionId>)
    ensures forall x :: x in r <==> x in order && x in svc.sessions
    ensures |r| <= |order|
  {
    if order == [] then []
    else
      (if order[0] in svc.sessions then [order[0]] else []) + ForEachSession(svc, order[1..])
  }

  /** Visiting the keys of `sessions` once each reaches every session once. */
  lemma {:induction false} ForEachSessionVisitsAll(svc: Service, order: seq<SessionId>)
    requires IsEnumeration(order, svc.sessions.Keys)
    ensures Distinct(ForEachSession(svc, order))
    ensures forall x :: x in ForEachSession(svc, order) <==> x in svc.sessions
    ensures ForEachSession(svc, order) == order
  {
    FilterOfEnumeration(svc, order);
  }

  lemma {:induction false} FilterOfEnumeration(svc: Service, order: seq<SessionId>)
    requires forall i :: 0 <= i < |order| ==> order[i] in svc.sessions
    ensures ForEachSession(svc, order) == order
  {
    if order != [] {
      FilterOfEnumeration(svc, order[1..]);
    }
  }

  /** `forEachBindedSession(cb)`: for each uid key in `uidOrder`, the ids in
      its list, in list order. */
  function ForEachBindedSession(svc: Service, uidOrder: seq<string>): (r: seq<SessionId>)
    ensures forall x :: x in r <==>
              exists i :: 0 <= i < |uidOrder| && uidOrder[i] in svc.uidMap && x in svc.uidMap[uidOrder[i]]
  {
    if uidOrder == [] then []
    else
      var here := if uidOrder[0] in svc.uidMap then svc.uidMap[uidOrder[0]] else [];
      var rest := ForEachBindedSession(svc, uidOrder[1..]);
      assert forall x :: x in rest <==>
        exists i :: 1 <= i < |uidOrder| && uidOrder[i] in svc.uidMap && x in svc.uidMap[uidOrder[i]] by {
        forall x | x in rest
          ensures exists i :: 1 <= i < |uidOrder| && uidOrder[i] in svc.uidMap && x in svc.uidMap[uidOrder[i]]
        {
          var j :| 0 <= j < |uidOrder[1..]| && uidOrder[1..][j] in svc.uidMap && x in svc.uidMap[uidOrder[1..][j]];
          assert uidOrder[j + 1] == uidOrder[1..][j];
        }
        forall x, i | 1 <= i < |uidOrder| && uidOrder[i] in svc.uidMap && x in svc.uidMap[uidOrder[i]]
          ensures x in rest
        {
          assert uidOrder[1..][i - 1] == uidOrder[i];
        }
      }
      here + rest
  }

  /** Under the index invariant, visiting every uid key once reaches
      exactly the bound sessions. */
  lemma ForEachBindedSessionVisitsBound(svc: Service, uidOrder: seq<string>)
    requires Valid(svc) && IsEnumeration(uidOrder, svc.uidMap.Keys)
    ensures forall x :: x in ForEachBindedSession(svc, uidOrder) <==>
              x in svc.sessions && Truthy(svc.sessions[x].uid)
  {
    forall x | x in svc.sessions && Truthy(svc.sessions[x].uid)
      ensures x in ForEachBindedSession(svc, uidOrder)
    {
      var u := svc.sessions[x].uid;
      assert u in (set i | 0 <= i < |uidOrder| :: uidOrder[i]);
      var i :| 0 <= i < |uidOrder| && uidOrder[i] == u;
    }
    forall x | x in ForEachBindedSession(svc, uidOrder)
      ensures x in svc.sessions && Truthy(svc.sessions[x].uid)
    {
      var i :| 0 <= i < |uidOrder| && uidOrder[i] in svc.uidMap && x in svc.uidMap[uidOrder[i]];
      var k :| 0 <= k < |svc.uidMap[uidOrder[i]]| && svc.uidMap[uidOrder[i]][k] == x;
    }
  }
}
