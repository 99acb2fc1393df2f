/**
  The server component's request gate and cron bookkeeping
  (lib/server/server.js): the INITED / STARTED / STOPED life cycle,
  route parsing, the decision `globalHandle` and `handle` take before
  the filter and handler chains (which are not part of this model), and
  the cron list and job table kept across `afterStart`, `addCron`,
  `removeCron` and `updateCron`.

  Scheduling with node-schedule is opaque: `scheduleJob` either returns
  a job or null, and `accepts(time)` says which.  The jobs node-schedule
  runs are kept beside the table, so that a job the table no longer
  reaches can be seen.  The cron handler
  modules are a map from handler name to the names of its functions.
 */
module Server {
  import opened Common

  datatype State = Inited | Started | Stopped

  datatype RouteRecord = RouteRecord(route: string, serverType: string, handler: string, methodName: string)

  // ----- route parsing -----

  /** `s.split('.')`: the dot-free pieces between the dots, in order; an
      empty string splits into one empty piece. */
  function Split(s: string): (r: seq<string>)
    ensures |r| >= 1
    ensures forall i :: 0 <= i < |r| ==> '.' !in r[i]
    ensures Join(r) == s
    decreases |s|
  {
    if s == [] then [""]
    else
      var rest := Split(s[1..]);
      if s[0] == '.' then
        assert Join([""] + rest) == "." + Join(rest) by {
          assert ([""] + rest)[1..] == rest;
        }
        assert s == "." + s[1..];
        [""] + rest
      else
        JoinConsHead([s[0]], rest);
        assert s == [s[0]] + s[1..];
        [[s[0]] + rest[0]] + rest[1..]
  }

  /** The pieces glued back together with dots. */
  function Join(pieces: seq<string>): string
    requires |pieces| >= 1
    decreases |pieces|
  {
    if |pieces| == 1 then pieces[0] else pieces[0] + "." + Join(pieces[1..])
  }

  lemma {:induction false} JoinConsHead(x: string, pieces: seq<string>)
    requires |pieces| >= 1
    ensures Join([x + pieces[0]] + pieces[1..]) == x + Join(pieces)
  {
    var p := [x + pieces[0]] + pieces[1..];
    if |pieces| > 1 {
      assert p[1..] == pieces[1..];
      var tail := Join(pieces[1..]);
      assert Join(p) == (x + pieces[0]) + "." + tail;
      assert Join(pieces) == pieces[0] + "." + tail;
      assert (x + pieces[0]) + "." + tail == x + (pieces[0] + "." + tail);
    }
  }

  /** Splitting undoes joining dot-free pieces. */
  lemma {:induction false} SplitJoin(pieces: seq<string>)
    requires |pieces| >= 1 && forall i :: 0 <= i < |pieces| ==> '.' !in pieces[i]
    ensures Split(Join(pieces)) == pieces
    decreases |pieces|
  {
    if |pieces| == 1 {
      SplitDotFree(pieces[0]);
    } else {
      var rest := pieces[1..];
      assert forall i :: 0 <= i < |rest| ==> rest[i] == pieces[i + 1];
      SplitJoin(rest);
      SplitDotPrefix(pieces[0], Join(rest));
      assert Join(pieces) == pieces[0] + "." + Join(rest);
      assert [pieces[0]] + rest == pieces;
    }
  }

  lemma {:induction false} SplitDotFree(a: string)
    requires '.' !in a
    ensures Split(a) == [a]
    decreases |a|
  {
    if a != [] {
      assert '.' !in a[1..];
      SplitDotFree(a[1..]);
    }
  }

  /** A dot-free prefix followed by a dot is the first piece. */
  lemma {:induction false} SplitDotPrefix(a: string, t: string)
    requires '.' !in a
    ensures Split(a + "." + t) == [a] + Split(t)
    decreases |a|
  {
    if a == [] {
      assert a + "." + t == "." + t;
      assert ("." + t)[1..] == t;
    } else {
      var s := a + "." + t;
      assert s[0] == a[0] && s[1..] == a[1..] + "." + t;
      assert '.' !in a[1..];
      SplitDotPrefix(a[1..], t);
      assert [a[0]] + a[1..] == a;
    }
  }

  /** `parseRoute(route)`: null for an empty route or one that does not
      split into exactly three pieces. */
  function ParseRoute(route: string): (r: Option<RouteRecord>)
    ensures !Truthy(route) ==> r.None?
    ensures r.Some? ==> r.value.route == route &&
                        route == r.value.serverType + "." + r.value.handler + "." + r.value.methodName
    ensures r.Some? ==> '.' !in r.value.serverType && '.' !in r.value.handler && '.' !in r.value.methodName
  {
    if !Truthy(route) then None
    else
      var ts := Split(route);
      if |ts| != 3 then None
      else
        assert route == ts[0] + "." + ts[1] + "." + ts[2] by {
          JoinThree(ts);
        }
        Some(RouteRecord(route, ts[0], ts[1], ts[2]))
  }

  /** A route parses exactly when it is three dot-free pieces joined by
      dots, and then it parses into those pieces. */
  lemma ParseRouteRoundTrip(serverType: string, handler: string, methodName: string)
    requires '.' !in serverType && '.' !in handler && '.' !in methodName
    ensures var route := serverType + "." + handler + "." + methodName;
            ParseRoute(route) == Some(RouteRecord(route, serverType, handler, methodName))
  {
    var pieces := [serverType, handler, methodName];
    SplitJoin(pieces);
    JoinThree(pieces);
  }

  lemma JoinThree(ts: seq<string>)
    requires |ts| == 3
    ensures Join(ts) == ts[0] + "." + ts[1] + "." + ts[2]
  {
    assert ts[1..][1..] == [ts[2]];
    assert Join(ts[1..]) == ts[1] + "." + ts[2];
    assert Join(ts) == ts[0] + "." + (ts[1] + "." + ts[2]);
  }

  // ----- life cycle and request gate -----

  datatype Cron = Cron(id: string, time: string, action: string, serverId: string)

  datatype Srv = Srv(state: State, crons: seq<Cron>, jobs: Jobs)

  function NewServer(): (s: Srv)
    ensures s.state == Inited && s.crons == [] && s.jobs.handles == map[] && s.jobs.running == []
    ensures Tracked(s.jobs)
  {
    Srv(Inited, [], Jobs(map[], []))
  }

  /** `start()`: only an inited server starts; it loads the crons of the
      configuration (`config` is `None` when no cron file exists) meant
      for this server: those with no server id or with `serverId`. */
  function Start(s: Srv, config: Option<seq<Cron>>, serverId: string): (r: Srv)
    ensures s.state != Inited ==> r == s
    ensures s.state == Inited ==> r.state == Started && r.jobs == s.jobs
    ensures s.state == Inited && config.None? ==> r.crons == s.crons
    ensures s.state == Inited && config.Some? ==>
              r.crons == AddAll(s.crons, ForServer(config.value, serverId))
  {
    if s.state != Inited then s
    else
      var crons := if config.None? then s.crons else AddAll(s.crons, ForServer(config.value, serverId));
      s.(state := Started, crons := crons)
  }

  /** The configured crons `loadCronConfig` keeps for this server. */
  function ForServer(config: seq<Cron>, serverId: string): (r: seq<Cron>)
    ensures forall c :: c in r <==> c in config && (!Truthy(c.serverId) || c.serverId == serverId)
  {
    if config == [] then []
    else
      (if !Truthy(config[0].serverId) || config[0].serverId == serverId then [config[0]] else []) +
      ForServer(config[1..], serverId)
  }

  function Stop(s: Srv): (r: Srv)
    ensures r.state == Stopped && r.crons == s.crons && r.jobs == s.jobs
  {
    s.(state := Stopped)
  }

  datatype ServerError = NotStarted | UnknownRoute

  /** What a request turns into before the filter and handler chains:
      an error for the callback, a kick with no callback at all, or a
      dispatch to a local handler or a forward to another server type. */
  datatype Outcome =
    | Rejected(error: ServerError)
    | KickedAttack(sessionId: nat)
    | Forwarded(record: RouteRecord)
    | Handled(parsed: Option<RouteRecord>)

  /** `globalHandle(msg, session, cb)` on a server of type `serverType`. */
  function GlobalHandle(s: Srv, route: string, sessionId: nat, serverType: string): (r: Outcome)
    ensures s.state != Started <==> r == Rejected(NotStarted)
    ensures s.state == Started ==>
              && (ParseRoute(route).None? <==> r == Rejected(UnknownRoute))
              && (r.KickedAttack? <==> ParseRoute(route).Some? && ParseRoute(route).value.methodName == "constructor")
              && (r.KickedAttack? ==> r.sessionId == sessionId)
              && (r.Forwarded? <==> ParseRoute(route).Some? && ParseRoute(route).value.methodName != "constructor" &&
                                    ParseRoute(route).value.serverType != serverType)
              && (r.Handled? ==> r.parsed == ParseRoute(route) && r.parsed.Some? && r.parsed.value.serverType == serverType)
  {
    if s.state != Started then Rejected(NotStarted)
    else
      var record := ParseRoute(route);
      if record.None? then Rejected(UnknownRoute)
      else if record.value.methodName == "constructor" then KickedAttack(sessionId)
      else if record.value.serverType != serverType then Forwarded(record.value)
      else Handled(record)
  }

  /** `handle(msg, session, cb)`: only the state is checked; an unparsable
      route reaches the handler as null. */
  function Handle(s: Srv, route: string): (r: Outcome)
    ensures s.state != Started <==> r == Rejected(NotStarted)
    ensures s.state == Started ==> r == Handled(ParseRoute(route))
  {
    if s.state != Started then Rejected(NotStarted) else Handled(ParseRoute(route))
  }

  /** Requests are served only between a successful start and a stop. */
  lemma ServesOnlyWhenStarted(config: Option<seq<Cron>>, serverId: string, route: string, sid: nat, serverType: string)
    ensures GlobalHandle(NewServer(), route, sid, serverType) == Rejected(NotStarted)
    ensures GlobalHandle(Start(NewServer(), config, serverId), route, sid, serverType) != Rejected(NotStarted)
    ensures GlobalHandle(Stop(Start(NewServer(), config, serverId)), route, sid, serverType) == Rejected(NotStarted)
    ensures Start(Stop(Start(NewServer(), config, serverId)), config, serverId).state == Stopped
  {
  }

  // ----- cron bookkeeping -----

  /** `containCron(id, cronList)`. */
  function ContainCron(id: string, crons: seq<Cron>): (r: bool)
    ensures r <==> exists i :: 0 <= i < |crons| && crons[i].id == id
  {
    if crons == [] then false
    else if crons[0].id == id then true
    else
      assert forall i :: 0 < i < |crons| ==> crons[i] == crons[1..][i - 1];
      ContainCron(id, crons[1..])
  }

  /** `checkAndAdd(cron, cronList, server)`: appends unless the id is
      already listed. */
  function CheckAndAdd(cron: Cron, crons: seq<Cron>): (r: seq<Cron>)
    ensures ContainCron(cron.id, crons) ==> r == crons
    ensures !ContainCron(cron.id, crons) ==> r == crons + [cron]
  {
    if ContainCron(cron.id, crons) then crons else crons + [cron]
  }

  function AddAll(crons: seq<Cron>, list: seq<Cron>): seq<Cron>
    decreases |list|
  {
    if list == [] then crons else AddAll(CheckAndAdd(list[0], crons), list[1..])
  }

  /** No two listed crons share an id. */
  ghost predicate UniqueIds(crons: seq<Cron>) {
    forall i, j :: 0 <= i < j < |crons| ==> crons[i].id != crons[j].id
  }

  /** Adding keeps ids unique and leaves the id listed. */
  lemma CheckAndAddKeepsUnique(cron: Cron, crons: seq<Cron>)
    requires UniqueIds(crons)
    ensures UniqueIds(CheckAndAdd(cron, crons))
    ensures ContainCron(cron.id, CheckAndAdd(cron, crons))
  {
    var r := CheckAndAdd(cron, crons);
    if !ContainCron(cron.id, crons) {
      assert r[|r| - 1].id == cron.id;
    }
  }

  lemma {:induction false} AddAllKeepsUnique(crons: seq<Cron>, list: seq<Cron>)
    requires UniqueIds(crons)
    ensures UniqueIds(AddAll(crons, list))
    ensures forall c :: c in list ==> ContainCron(c.id, AddAll(crons, list))
    ensures forall c :: c in crons ==> c in AddAll(crons, list)
    decreases |list|
  {
    if list != [] {
      CheckAndAddKeepsUnique(list[0], crons);
      var next := CheckAndAdd(list[0], crons);
      AddAllKeepsUnique(next, list[1..]);
      ContainStays(list[0].id, next, AddAll(next, list[1..]));
      forall c | c in list ensures ContainCron(c.id, AddAll(crons, list)) {
        if c != list[0] {
          assert c in list[1..];
        }
      }
    }
  }

  lemma ContainStays(id: string, a: seq<Cron>, b: seq<Cron>)
    requires ContainCron(id, a) && forall c :: c in a ==> c in b
    ensures ContainCron(id, b)
  {
    var i :| 0 <= i < |a| && a[i].id == id;
    assert a[i] in b;
  }

  /** The index of the first cron with the given id, if any. */
  function FirstIndex(id: string, crons: seq<Cron>): (r: Option<nat>)
    ensures r.None? <==> !ContainCron(id, crons)
    ensures r.Some? ==> r.value < |crons| && crons[r.value].id == id &&
                        forall j :: 0 <= j < r.value ==> crons[j].id != id
  {
    if crons == [] then None
    else if crons[0].id == id then Some(0)
    else
      var rest := FirstIndex(id, crons[1..]);
      assert forall i :: 0 < i < |crons| ==> crons[i] == crons[1..][i - 1];
      if rest.None? then None else Some(rest.value + 1)
  }

  /** `checkAndUpdate(cron, cronList)`: the first cron with the same id is
      replaced and the answer is true; without one nothing changes. */
  function CheckAndUpdate(cron: Cron, crons: seq<Cron>): (r: (seq<Cron>, bool))
    ensures r.1 <==> ContainCron(cron.id, crons)
    ensures !r.1 ==> r.0 == crons
    ensures |r.0| == |crons|
    ensures r.1 ==> exists i :: 0 <= i < |crons| && crons[i].id == cron.id && r.0 == crons[i := cron] &&
                                (forall j :: 0 <= j < i ==> crons[j].id != cron.id)
  {
    var i := FirstIndex(cron.id, crons);
    if i.None? then (crons, false) else (crons[i.value := cron], true)
  }

  /** Updating keeps ids unique, and the updated cron is listed in the end. */
  lemma CheckAndUpdateKeepsUnique(cron: Cron, crons: seq<Cron>)
    requires UniqueIds(crons)
    ensures UniqueIds(CheckAndUpdate(cron, crons).0)
    ensures CheckAndUpdate(cron, crons).1 ==> cron in CheckAndUpdate(cron, crons).0
  {
    var (r, found) := CheckAndUpdate(cron, crons);
    if found {
      var i :| 0 <= i < |crons| && crons[i].id == cron.id && r == crons[i := cron];
      assert r[i] == cron;
    }
  }

  // ----- the job table -----

  /** `server.jobs` with what node-schedule is running for it: a handle
      per id, `true` for a job and `false` for the null that `scheduleJob`
      returns on a time it does not accept, and one entry per job that
      node-schedule runs, named by the id it was scheduled under. */
  datatype Jobs = Jobs(handles: map<string, bool>, running: seq<string>)

  /** Every running job is reachable through its id's handle, and every
      job handle names exactly one running job. */
  ghost predicate Tracked(j: Jobs) {
    forall id :: multiset(j.running)[id] == (if id in j.handles && j.handles[id] then 1 else 0)
  }

  /** `schedule.cancelJob(jobs[id]); delete jobs[id]` when the handle is a job. */
  function Cancel(j: Jobs, id: string): (r: Jobs)
    ensures forall x :: x in r.handles <==> x in j.handles && !(x == id && j.handles[x])
    ensures forall x :: x in r.handles ==> r.handles[x] == j.handles[x]
    ensures Tracked(j) ==> Tracked(r)
  {
    if id in j.handles && j.handles[id] then Jobs(j.handles - {id}, RemoveFirst(j.running, id))
    else j
  }

  /** `removeCron(cronList)`: cancels and forgets the job of each listed id
      that holds one; other ids are left alone. */
  function RemoveCron(j: Jobs, list: seq<Cron>): (r: Jobs)
    ensures forall id :: id in r.handles <==>
              id in j.handles && !(j.handles[id] && exists c :: c in list && c.id == id)
    ensures forall id :: id in r.handles ==> r.handles[id] == j.handles[id]
    decreases |list|
  {
    if list == [] then j
    else
      var r := RemoveCron(Cancel(j, list[0].id), list[1..]);
      assert forall c :: c in list <==> c == list[0] || c in list[1..];
      r
  }

  /** Cancelling keeps every running job reachable. */
  lemma {:induction false} RemoveCronKeepsTracked(j: Jobs, list: seq<Cron>)
    requires Tracked(j)
    ensures Tracked(RemoveCron(j, list))
    decreases |list|
  {
    if list != [] {
      RemoveCronKeepsTracked(Cancel(j, list[0].id), list[1..]);
    }
  }

  /** With every job reachable, removing a cron stops its job. */
  lemma RemovedJobsStop(j: Jobs, list: seq<Cron>, c: Cron)
    requires Tracked(j) && c in list
    ensures c.id !in RemoveCron(j, list).running
  {
    RemoveCronKeepsTracked(j, list);
    var r := RemoveCron(j, list);
    assert multiset(r.running)[c.id] == 0;
  }

  /** `server.jobs[id] = schedule.scheduleJob(time, fn)` for a cron the
      scheduler takes, after cancelling the job the id held (see
      `ScheduleAsWritten` for the assignment alone). */
  function Schedule(j: Jobs, id: string, accepted: bool): (r: Jobs)
    ensures r.handles == j.handles[id := accepted]
    ensures Tracked(j) ==> Tracked(r)
  {
    var kept := Cancel(j, id);
    Jobs(j.handles[id := accepted], if accepted then kept.running + [id] else kept.running)
  }

  /** The assignment as `scheduleCron` makes it: a job the id already held
      is overwritten without being cancelled. */
  function ScheduleAsWritten(j: Jobs, id: string, accepted: bool): (r: Jobs)
    ensures r.handles == Schedule(j, id, accepted).handles
    ensures multiset(j.running) <= multiset(r.running)
  {
    Jobs(j.handles[id := accepted], if accepted then j.running + [id] else j.running)
  }

  /** A cron the scheduler takes: time, action and id given, an action
      `name.fn` naming an existing function of an existing handler. */
  predicate Schedulable(c: Cron, handlers: map<string, set<string>>) {
    && Truthy(c.time) && Truthy(c.action) && Truthy(c.id)
    && '.' in c.action
    && var pieces := Split(c.action);
       |pieces| >= 2 && pieces[0] in handlers && pieces[1] in handlers[pieces[0]]
  }

  function ScheduledIds(list: seq<Cron>, handlers: Option<map<string, set<string>>>): set<string> {
    if handlers.None? then {}
    else set c | c in list && Schedulable(c, handlers.value) :: c.id
  }

  /** The time of the last cron of `list` the scheduler takes for `id`:
      the one whose job the id ends up holding. */
  function LastTime(list: seq<Cron>, handlers: map<string, set<string>>, id: string): Option<string>
    decreases |list|
  {
    if list == [] then None
    else
      var later := LastTime(list[1..], handlers, id);
      if later.Some? then later
      else if Schedulable(list[0], handlers) && list[0].id == id then Some(list[0].time)
      else None
  }

  /** Each id of `after` holds the job of its last cron of `list` the
      scheduler takes, or, without one, what it held in `before`. */
  ghost predicate HoldsLastJobs(after: map<string, bool>, before: map<string, bool>, list: seq<Cron>,
                                handlers: map<string, set<string>>, accepts: string -> bool) {
    forall id :: id in after ==>
      match LastTime(list, handlers, id)
      case Some(t) => after[id] == accepts(t)
      case None => id in before && after[id] == before[id]
  }

  /** An id has a last schedulable cron exactly when some cron of the list
      is scheduled under it. */
  lemma {:induction false} LastTimeScheduled(list: seq<Cron>, handlers: map<string, set<string>>, id: string)
    ensures LastTime(list, handlers, id).Some? <==> id in ScheduledIds(list, Some(handlers))
    decreases |list|
  {
    if list != [] {
      LastTimeScheduled(list[1..], handlers, id);
      assert forall c :: c in list <==> c == list[0] || c in list[1..];
      if LastTime(list[1..], handlers, id).None? && !(Schedulable(list[0], handlers) && list[0].id == id) {
        assert id !in ScheduledIds(list[1..], Some(handlers));
      }
    }
  }

  /** `scheduleCron(server, cronList)` with a job that is replaced
      cancelled first: nothing happens without handlers; otherwise each
      well-formed cron with a handler function is scheduled in turn, so an
      id ends up with the job of its last such cron, and other ids keep
      theirs. */
  function ScheduleCron(j: Jobs, list: seq<Cron>, handlers: Option<map<string, set<string>>>,
                        accepts: string -> bool): (r: Jobs)
    ensures handlers.None? ==> r == j
    ensures r.handles.Keys == j.handles.Keys + ScheduledIds(list, handlers)
    ensures handlers.Some? ==> HoldsLastJobs(r.handles, j.handles, list, handlers.value, accepts)
    decreases |list|
  {
    if list == [] || handlers.None? then j
    else
      var c := list[0];
      var next := if Schedulable(c, handlers.value) then Schedule(j, c.id, accepts(c.time)) else j;
      var r := ScheduleCron(next, list[1..], handlers, accepts);
      HoldsLastStep(r.handles, j.handles, next.handles, list, handlers.value, accepts);
      ScheduledIdsStep(list, handlers);
      r
  }

  lemma HoldsLastStep(after: map<string, bool>, before: map<string, bool>, next: map<string, bool>, list: seq<Cron>,
                      handlers: map<string, set<string>>, accepts: string -> bool)
    requires list != []
    requires next == if Schedulable(list[0], handlers) then before[list[0].id := accepts(list[0].time)] else before
    requires HoldsLastJobs(after, next, list[1..], handlers, accepts)
    ensures HoldsLastJobs(after, before, list, handlers, accepts)
  {
    forall id | id in after
      ensures match LastTime(list, handlers, id)
              case Some(t) => after[id] == accepts(t)
              case None => id in before && after[id] == before[id]
    {
      assert LastTime(list, handlers, id) ==
        var later := LastTime(list[1..], handlers, id);
        if later.Some? then later
        else if Schedulable(list[0], handlers) && list[0].id == id then Some(list[0].time)
        else None;
    }
  }

  lemma ScheduledIdsStep(list: seq<Cron>, handlers: Option<map<string, set<string>>>)
    requires list != [] && handlers.Some?
    ensures ScheduledIds(list, handlers) ==
              (if Schedulable(list[0], handlers.value) then {list[0].id} else {}) + ScheduledIds(list[1..], handlers)
  {
    assert forall c :: c in list <==> c == list[0] || c in list[1..];
  }

  /** Scheduling keeps every running job reachable. */
  lemma {:induction false} ScheduleCronKeepsTracked(j: Jobs, list: seq<Cron>, handlers: Option<map<string, set<string>>>,
                                                    accepts: string -> bool)
    requires Tracked(j)
    ensures Tracked(ScheduleCron(j, list, handlers, accepts))
    decreases |list|
  {
    if list != [] && handlers.Some? {
      var c := list[0];
      var next := if Schedulable(c, handlers.value) then Schedule(j, c.id, accepts(c.time)) else j;
      ScheduleCronKeepsTracked(next, list[1..], handlers, accepts);
    }
  }

  /** `scheduleCron(server, cronList)` as written: the same job table, but
      a replaced job keeps running. */
  function ScheduleCronAsWritten(j: Jobs, list: seq<Cron>, handlers: Option<map<string, set<string>>>,
                                 accepts: string -> bool): (r: Jobs)
    ensures r.handles == ScheduleCron(j, list, handlers, accepts).handles
    ensures multiset(j.running) <= multiset(r.running)
    decreases |list|
  {
    if list == [] || handlers.None? then j
    else
      var c := list[0];
      var next := if Schedulable(c, handlers.value) then ScheduleAsWritten(j, c.id, accepts(c.time)) else j;
      var nextFixed := if Schedulable(c, handlers.value) then Schedule(j, c.id, accepts(c.time)) else j;
      var r := ScheduleCronAsWritten(next, list[1..], handlers, accepts);
      SameHandlesSameSchedule(next, nextFixed, list[1..], handlers, accepts);
      r
  }

  /** The job table `ScheduleCron` builds depends only on the handles it
      starts from. */
  lemma {:induction false} SameHandlesSameSchedule(a: Jobs, b: Jobs, list: seq<Cron>,
                                                   handlers: Option<map<string, set<string>>>, accepts: string -> bool)
    requires a.handles == b.handles
    ensures ScheduleCron(a, list, handlers, accepts).handles == ScheduleCron(b, list, handlers, accepts).handles
    decreases |list|
  {
    if list != [] && handlers.Some? {
      var c := list[0];
      var na := if Schedulable(c, handlers.value) then Schedule(a, c.id, accepts(c.time)) else a;
      var nb := if Schedulable(c, handlers.value) then Schedule(b, c.id, accepts(c.time)) else b;
      SameHandlesSameSchedule(na, nb, list[1..], handlers, accepts);
    }
  }

  /** A cron added twice, as written: the first job is overwritten but
      keeps running, and once the cron is removed it still runs with no
      handle left to cancel it. */
  lemma OrphanedJob(j: Jobs, c: Cron, handlers: map<string, set<string>>, accepts: string -> bool)
    requires Tracked(j) && Schedulable(c, handlers) && accepts(c.time)
    ensures var twice := ScheduleCronAsWritten(j, [c, c], Some(handlers), accepts);
            && !Tracked(twice)
            && c.id !in RemoveCron(twice, [c]).handles
            && c.id in RemoveCron(twice, [c]).running
  {
    var twice := ScheduleCronAsWritten(j, [c, c], Some(handlers), accepts);
    ScheduledTwiceAsWritten(j, c, handlers, accepts);
    assert twice.running == j.running + [c.id] + [c.id];
    assert twice.handles == j.handles[c.id := true][c.id := true];
    assert multiset(twice.running)[c.id] == multiset(j.running)[c.id] + 2;
    assert RemoveCron(twice, [c]) == Cancel(twice, c.id) by {
      assert [c][1..] == [];
    }
    assert multiset(Cancel(twice, c.id).running)[c.id] == multiset(j.running)[c.id] + 1;
  }

  /** The cron of the example below: id "a", handler function "h.f". */
  const ExampleCron := Cron("a", "0 * * * *", "h.f", "")
  const ExampleHandlers := map["h" := {"f"}]

  /** Adding the cron "a" twice to a server without jobs leaves a job
      that no handle reaches. */
  lemma ExampleOrphanedJob()
    ensures !Tracked(ScheduleCronAsWritten(Jobs(map[], []), [ExampleCron, ExampleCron], Some(ExampleHandlers), AcceptAll))
  {
    ActionSchedulable();
    OrphanedJob(Jobs(map[], []), ExampleCron, ExampleHandlers, AcceptAll);
  }

  /** A cron the scheduler takes, listed twice, is scheduled twice. */
  lemma ScheduledTwiceAsWritten(j: Jobs, c: Cron, handlers: map<string, set<string>>, accepts: string -> bool)
    requires Schedulable(c, handlers)
    ensures ScheduleCronAsWritten(j, [c, c], Some(handlers), accepts) ==
            ScheduleAsWritten(ScheduleAsWritten(j, c.id, accepts(c.time)), c.id, accepts(c.time))
  {
    AsWrittenStep(j, [c, c], handlers, accepts);
    assert [c, c][1..] == [c];
    AsWrittenSingle(ScheduleAsWritten(j, c.id, accepts(c.time)), c, handlers, accepts);
  }

  lemma AsWrittenSingle(j: Jobs, c: Cron, handlers: map<string, set<string>>, accepts: string -> bool)
    requires Schedulable(c, handlers)
    ensures ScheduleCronAsWritten(j, [c], Some(handlers), accepts) == ScheduleAsWritten(j, c.id, accepts(c.time))
  {
    AsWrittenStep(j, [c], handlers, accepts);
    assert [c][1..] == [];
  }

  /** One turn of the as-written loop on a cron the scheduler takes. */
  lemma AsWrittenStep(j: Jobs, list: seq<Cron>, handlers: map<string, set<string>>, accepts: string -> bool)
    requires list != [] && Schedulable(list[0], handlers)
    ensures ScheduleCronAsWritten(j, list, Some(handlers), accepts) ==
            ScheduleCronAsWritten(ScheduleAsWritten(j, list[0].id, accepts(list[0].time)), list[1..], Some(handlers), accepts)
  {
  }

  /** A scheduler that takes every time. */
  function AcceptAll(time: string): bool { true }

  lemma ActionSchedulable()
    ensures Schedulable(ExampleCron, ExampleHandlers)
  {
    SplitAction();
  }

  lemma SplitAction()
    ensures Split("h.f") == ["h", "f"]
  {
    assert "f"[1..] == "" && "f"[0] == 'f';
    assert Split("") == [""];
    assert Split("f") == [['f'] + ""] + [""][1..];
    assert Split("f") == ["f"];
    assert ".f"[1..] == "f";
    assert Split(".f") == ["", "f"];
    assert "h.f"[1..] == ".f" && "h.f"[0] == 'h';
    assert Split("h.f") == [['h'] + ""] + ["", "f"][1..];
    assert ['h'] + "" == "h" && ["", "f"][1..] == ["f"];
  }

  /** `addCron(cronList)`: ignored when the server has no cron handlers;
      otherwise new ids join the cron list and the listed crons are
      scheduled.  Scheduling is the corrected `ScheduleCron`, which
      cancels the job an id held before replacing it; the source's loop
      overwrites the handle without cancelling (`ScheduleCronAsWritten`),
      and builds the same handles. */
  function AddCron(s: Srv, list: seq<Cron>, handlers: Option<map<string, set<string>>>, accepts: string -> bool): (r: Srv)
    ensures handlers.None? ==> r == s
    ensures handlers.Some? ==> r.crons == AddAll(s.crons, list) && r.state == s.state
    ensures r.jobs.handles.Keys == s.jobs.handles.Keys + ScheduledIds(list, handlers)
    ensures handlers.Some? ==> HoldsLastJobs(r.jobs.handles, s.jobs.handles, list, handlers.value, accepts)
  {
    if handlers.None? then s
    else s.(crons := AddAll(s.crons, list), jobs := ScheduleCron(s.jobs, list, handlers, accepts))
  }

  /** `afterStart()`: schedules the crons the server holds, with the
      corrected `ScheduleCron` (same handles as the source's loop). */
  function AfterStart(s: Srv, handlers: Option<map<string, set<string>>>, accepts: string -> bool): (r: Srv)
    ensures r.state == s.state && r.crons == s.crons
    ensures r.jobs.handles.Keys == s.jobs.handles.Keys + ScheduledIds(s.crons, handlers)
    ensures handlers.Some? ==> HoldsLastJobs(r.jobs.handles, s.jobs.handles, s.crons, handlers.value, accepts)
  {
    s.(jobs := ScheduleCron(s.jobs, s.crons, handlers, accepts))
  }

  /** The loop of `updateCron`: update in place, or add when absent. */
  function Upsert(crons: seq<Cron>, list: seq<Cron>): seq<Cron>
    decreases |list|
  {
    if list == [] then crons
    else
      var (updated, found) := CheckAndUpdate(list[0], crons);
      Upsert(if found then updated else CheckAndAdd(list[0], crons), list[1..])
  }

  /** `updateCron(cronList)`: ignored without cron handlers; otherwise the
      listed jobs are removed, the crons updated or added, and scheduled
      with the corrected `ScheduleCron` (same handles as the source's
      loop): a listed id ends up with the job of its last schedulable
      cron, or without a handle when it had a job and has no such cron. */
  function UpdateCron(s: Srv, list: seq<Cron>, handlers: Option<map<string, set<string>>>, accepts: string -> bool): (r: Srv)
    ensures handlers.None? ==> r == s
    ensures handlers.Some? ==> r.crons == Upsert(s.crons, list) && r.state == s.state
    ensures handlers.Some? ==> forall id :: id in r.jobs.handles <==>
              || (id in s.jobs.handles && !(s.jobs.handles[id] && exists c :: c in list && c.id == id))
              || id in ScheduledIds(list, handlers)
    ensures handlers.Some? ==> HoldsLastJobs(r.jobs.handles, s.jobs.handles, list, handlers.value, accepts)
  {
    if handlers.None? then s
    else s.(crons := Upsert(s.crons, list), jobs := ScheduleCron(RemoveCron(s.jobs, list), list, handlers, accepts))
  }

  /** With the corrected scheduling, the server's jobs stay reachable
      across every cron operation.  The source's scheduling does not keep
      this (`OrphanedJob`). */
  lemma CronOperationsKeepTracked(s: Srv, list: seq<Cron>, handlers: Option<map<string, set<string>>>,
                                  accepts: string -> bool)
    requires Tracked(s.jobs)
    ensures Tracked(AddCron(s, list, handlers, accepts).jobs)
    ensures Tracked(AfterStart(s, handlers, accepts).jobs)
    ensures Tracked(UpdateCron(s, list, handlers, accepts).jobs)
    ensures Tracked(RemoveCron(s.jobs, list))
  {
    ScheduleCronKeepsTracked(s.jobs, list, handlers, accepts);
    ScheduleCronKeepsTracked(s.jobs, s.crons, handlers, accepts);
    RemoveCronKeepsTracked(s.jobs, list);
    ScheduleCronKeepsTracked(RemoveCron(s.jobs, list), list, handlers, accepts);
  }

  /** After an update every listed id is present once, and the last cron
      given for an id is the one kept when it was already listed or is
      the only one given. */
  lemma {:induction false} UpsertKeepsUnique(crons: seq<Cron>, list: seq<Cron>)
    requires UniqueIds(crons)
    ensures UniqueIds(Upsert(crons, list))
    ensures forall c :: c in list ==> ContainCron(c.id, Upsert(crons, list))
    decreases |list|
  {
    if list != [] {
      var (updated, found) := CheckAndUpdate(list[0], crons);
      var next := if found then updated else CheckAndAdd(list[0], crons);
      CheckAndUpdateKeepsUnique(list[0], crons);
      CheckAndAddKeepsUnique(list[0], crons);
      assert ContainCron(list[0].id, next) by {
        if found {
          var i :| 0 <= i < |updated| && updated[i] == list[0];
        }
      }
      UpsertKeepsUnique(next, list[1..]);
      UpsertKeepsIds(next, list[1..], list[0].id);
      forall c | c in list ensures ContainCron(c.id, Upsert(crons, list)) {
        if c != list[0] {
          assert c in list[1..];
        }
      }
    }
  }

  lemma {:induction false} UpsertKeepsIds(crons: seq<Cron>, list: seq<Cron>, id: string)
    requires ContainCron(id, crons)
    ensures ContainCron(id, Upsert(crons, list))
    decreases |list|
  {
    if list != [] {
      var (updated, found) := CheckAndUpdate(list[0], crons);
      var next := if found then updated else CheckAndAdd(list[0], crons);
      assert ContainCron(id, next) by {
        var i :| 0 <= i < |crons| && crons[i].id == id;
        if found {
          var k :| 0 <= k < |crons| && crons[k].id == list[0].id && updated == crons[k := list[0]];
          assert updated[i].id == id;
        } else if !ContainCron(list[0].id, crons) {
          assert next[i] == crons[i];
        }
      }
      UpsertKeepsIds(next, list[1..], id);
    }
  }
}
