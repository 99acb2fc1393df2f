/**
  Connection statistics of a frontend server
  (lib/common/service/connectionService.js): a connection counter, a
  login counter and the logined users' records.

  A record is a plain object, modelled by its own properties.  The source
  stores the caller's `info` object itself and writes `uid` into it; the
  model keeps a copy.
 */
module ConnectionService {
  import opened Common

  type Record = map<string, Value>

  datatype Stats = Stats(serverId: string, connCount: nat, loginedCount: int, logined: map<string, Record>)

  /** What `getStatisticsInfo` reports. */
  datatype StatisticsInfo = StatisticsInfo(serverId: string, totalConnCount: nat, loginedCount: int, loginedList: seq<Record>)

  function NewStats(serverId: string): (s: Stats)
    ensures s.connCount == 0 && s.loginedCount == 0 && s.logined == map[] && s.serverId == serverId
  {
    Stats(serverId, 0, 0, map[])
  }

  /** The login counter counts the records. */
  ghost predicate Valid(s: Stats) {
    s.loginedCount == |s.logined.Keys|
  }

  /** `addLoginedUser(uid, info)`: counts a uid once, however often it
      logs in, and stores `info` with `uid` set, replacing an older record. */
  function AddLoginedUser(s: Stats, uid: string, info: Record): (r: Stats)
    ensures r.logined == s.logined[uid := info["uid" := Data(uid)]]
    ensures r.loginedCount == if uid in s.logined then s.loginedCount else s.loginedCount + 1
    ensures r.connCount == s.connCount
  {
    s.(loginedCount := if uid in s.logined then s.loginedCount else s.loginedCount + 1,
       logined := s.logined[uid := info["uid" := Data(uid)]])
  }

  /** The own, non-function properties of `info`. */
  function Copyable(info: Record): (r: Record)
    ensures forall p :: p in r <==> p in info && !info[p].Function?
    ensures forall p :: p in r ==> r[p] == info[p]
  {
    map p | p in info && !info[p].Function? :: info[p]
  }

  /** `updateUserInfo(uid, info)`: an unknown uid is ignored; otherwise the
      record takes every own non-function property of `info` and keeps
      the rest of its own. */
  function UpdateUserInfo(s: Stats, uid: string, info: Record): (r: Stats)
    ensures uid !in s.logined ==> r == s
    ensures uid in s.logined ==>
              && r.logined.Keys == s.logined.Keys && r.loginedCount == s.loginedCount
              && (forall u :: u in s.logined && u != uid ==> r.logined[u] == s.logined[u])
              && (forall p :: p in r.logined[uid] <==> p in s.logined[uid] || (p in info && !info[p].Function?))
              && (forall p :: p in info && !info[p].Function? ==> r.logined[uid][p] == info[p])
              && (forall p :: p in s.logined[uid] && (p !in info || info[p].Function?) ==>
                    r.logined[uid][p] == s.logined[uid][p])
  {
    if uid !in s.logined then s
    else s.(logined := s.logined[uid := s.logined[uid] + Copyable(info)])
  }

  function IncreaseConnectionCount(s: Stats): (r: Stats)
    ensures r.connCount == s.connCount + 1
    ensures r.logined == s.logined && r.loginedCount == s.loginedCount
  {
    s.(connCount := s.connCount + 1)
  }

  /** `removeLoginedUser(uid)`: uncounts and forgets a known uid only. */
  function RemoveLoginedUser(s: Stats, uid: string): (r: Stats)
    ensures uid !in r.logined
    ensures r.logined == s.logined - {uid}
    ensures r.loginedCount == if uid in s.logined then s.loginedCount - 1 else s.loginedCount
    ensures uid !in s.logined ==> r == s
  {
    if uid in s.logined then s.(loginedCount := s.loginedCount - 1, logined := s.logined - {uid})
    else s.(logined := s.logined - {uid})
  }

  /** `decreaseConnectionCount(uid)`: the counter stops at zero, and a
      given (truthy) uid is logged out as well. */
  function DecreaseConnectionCount(s: Stats, uid: string): (r: Stats)
    ensures r.connCount == if s.connCount > 0 then s.connCount - 1 else 0
    ensures Truthy(uid) ==> r.logined == s.logined - {uid}
    ensures !Truthy(uid) ==> r.logined == s.logined && r.loginedCount == s.loginedCount
  {
    var s1 := if s.connCount > 0 then s.(connCount := s.connCount - 1) else s;
    if Truthy(uid) then RemoveLoginedUser(s1, uid) else s1
  }

  /** `getStatisticsInfo()`; `order` is the visiting order of the
      records' table. */
  function GetStatisticsInfo(s: Stats, order: seq<string>): (r: StatisticsInfo)
    requires forall i :: 0 <= i < |order| ==> order[i] in s.logined
    ensures r.serverId == s.serverId && r.totalConnCount == s.connCount && r.loginedCount == s.loginedCount
    ensures |r.loginedList| == |order|
    ensures forall i :: 0 <= i < |order| ==> r.loginedList[i] == s.logined[order[i]]
  {
    StatisticsInfo(s.serverId, s.connCount, s.loginedCount, seq(|order|, i requires 0 <= i < |order| => s.logined[order[i]]))
  }

  /** Every operation keeps the login counter equal to the number of
      records, so it is never negative. */
  lemma OperationsPreserveValid(s: Stats, uid: string, info: Record)
    requires Valid(s)
    ensures Valid(AddLoginedUser(s, uid, info))
    ensures Valid(UpdateUserInfo(s, uid, info))
    ensures Valid(IncreaseConnectionCount(s))
    ensures Valid(RemoveLoginedUser(s, uid))
    ensures Valid(DecreaseConnectionCount(s, uid))
    ensures s.loginedCount >= 0
  {
  }

  /** The reported list holds one record per logined user. */
  lemma StatisticsListsEveryUser(s: Stats, order: seq<string>)
    requires Valid(s) && IsEnumeration(order, s.logined.Keys)
    ensures |GetStatisticsInfo(s, order).loginedList| == GetStatisticsInfo(s, order).loginedCount
    ensures forall u :: u in s.logined ==> s.logined[u] in GetStatisticsInfo(s, order).loginedList
  {
    EnumerationSize(order, s.logined.Keys);
    forall u | u in s.logined ensures s.logined[u] in GetStatisticsInfo(s, order).loginedList {
      var i :| 0 <= i < |order| && order[i] == u;
      assert GetStatisticsInfo(s, order).loginedList[i] == s.logined[u];
    }
  }

  /** Logging in and out again restores the statistics of a uid that was
      not logged in. */
  lemma AddThenRemoveRestores(s: Stats, uid: string, info: Record)
    requires uid !in s.logined
    ensures RemoveLoginedUser(AddLoginedUser(s, uid, info), uid) == s
  {
    assert s.logined[uid := info["uid" := Data(uid)]] - {uid} == s.logined;
  }
}
