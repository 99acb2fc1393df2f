# pomelo frontend core in Dafny

This project models the frontend bookkeeping of the pomelo game-server
framework (the `pomelo-upgrade` fork). It covers these parts, each stated
as immutable data and pure functions, with the properties the code
promises proved about them:

- **Session registry.** The table `sid -> session` and the index
  `uid -> [session]`, with binding, unbinding, settings import, kick and
  idempotent close (`SessionService`).
- **Channels.** Membership groups keyed by frontend server, and group
  pushes through a count-down latch. These cover the channel service's
  registry, `add`, `leave`, `getMembers` and `destroy`, and its push and
  broadcast paths (`ChannelService`, `CountDownLatch`). The frontend side
  of a channel push is in `ChannelRemote`.
- **Push schedulers.** The direct scheduler (`PushDirect`), and the
  buffered scheduler with its per-session queues and interval flushes
  (`PushBuffer`).
- **Task queues.** The sequential task queue `seq-queue`, modelled as an
  event machine over Node's next-tick queue and timers (`SeqQueue`). On
  top of it sit the key → queue manager and the serial handler filter
  (`TaskManager`).
- **Connection statistics.** A frontend's connection and login counters
  (`ConnectionService`).
- **Server bookkeeping.** In `server.js`: route parsing, the start/stop
  gate on requests, and the cron list's de-duplication, update and
  scheduling (`Server`). The job table is modelled together with the
  jobs node-schedule keeps running, so that a job no handle reaches can
  be stated.
- **TCP framing.** The hybrid connector's TCP frame reassembler
  (`TcpSocket`). It is checked against a reference cutting of the byte
  stream into packages (`Deframe`), with the four-byte head of the TCP
  processor.
- **Handshake gate.** The connector's package dispatcher (`ConnectorHandler`).
- **Helpers.** The `utils.js` helpers the core relies on (`Utils`).

The modelling conventions are:

- **Falsy values.** JavaScript's falsy values for ids, uids, server ids
  and messages are all written as the empty string.
- **Key order.** The key order of a `for … in` loop is an explicit
  parameter. Lemmas that need every key visited once require it to
  enumerate the keys.
- **Collaborators.** RPC replies, the connector, sockets and timers are
  not modelled as code. Their answers become parameters, and the effects
  handed to them become returned lists.

## Model

| member | source | states |
|---|---|---|
| SessionService.Create | lib/common/service/sessionService.js:42-47 | the new session is registered unbound, with no settings, and no other session or list changes |
| SessionService.CreatePreservesValid | lib/common/service/sessionService.js:42-47 | creating a session under an unused id keeps the two indexes consistent |
| SessionService.NewServiceValid | lib/common/service/sessionService.js:24-30 | an empty registry is consistent |
| SessionService.Get | lib/common/service/sessionService.js:182-185 | the session is found exactly when its id is registered |
| SessionService.GetByUid | lib/common/service/sessionService.js:194-197 | the list is found exactly when the uid has one |
| SessionService.Bind | lib/common/service/sessionService.js:55-118 | an unknown sid fails; a bound session succeeds as a no-op only for the same uid; with singleSession an existing uid list refuses; an unbound session with no such conflict always succeeds and ends up in the uid's list, changing nothing exactly when it was already listed; otherwise the sid is appended once, the session's uid is set and the session emits exactly one 'bind' (Session.bind, line 537); the no-op and error paths emit nothing and every error changes nothing |
| SessionService.BindPreservesValid | lib/common/service/sessionService.js:55-118 | binding a truthy uid keeps every listed session registered and bound to its key, lists duplicate-free, and every bound session listed |
| SessionService.BindThenGetByUid | lib/common/service/sessionService.js:96-117 | after a successful bind the session is found through its uid |
| SessionService.BindFalsyUidBreaksIndex | lib/common/service/sessionService.js:55-118 | a falsy uid is not rejected, so a session can be listed under two uids and the index invariant breaks |
| SessionService.DropFromIndex | lib/common/service/sessionService.js:150-164 | the sid is removed from the uid's list, the entry disappears when the list empties, other uids are untouched |
| SessionService.Unbind | lib/common/service/sessionService.js:126-171 | succeeds exactly for a registered session bound to that uid; then the uid is cleared, the sid leaves the list and the session emits exactly one 'unbind' (Session.unbind, line 549); errors change nothing and emit nothing |
| SessionService.UnbindPreservesValid | lib/common/service/sessionService.js:126-171 | unbinding keeps the indexes consistent |
| SessionService.DetachPreservesValid | lib/common/service/sessionService.js:148-165 | clearing a bound session's uid and dropping it from the list keeps the indexes consistent |
| SessionService.UnbindThenGetByUid | lib/common/service/sessionService.js:126-171 | after a successful unbind the session is no longer found through the uid |
| SessionService.Remove | lib/common/service/sessionService.js:207-234 | the sid leaves the table and its uid's list, an emptied list is dropped, an unknown sid changes nothing |
| SessionService.RemovePreservesValid | lib/common/service/sessionService.js:207-234 | removing keeps the indexes consistent |
| SessionService.IndexSoundAfterDrop | lib/common/service/sessionService.js:207-234 | dropping a bound session from both indexes keeps them consistent |
| SessionService.RemoveForgetsSession | lib/common/service/sessionService.js:207-234 | a removed session is found neither by id nor in any uid list |
| SessionService.Import | lib/common/service/sessionService.js:241-251 | an unknown sid fails; otherwise exactly one setting is written and nothing else changes |
| SessionService.ImportAll | lib/common/service/sessionService.js:261-274 | an unknown sid fails; otherwise exactly the keys of `settings` are written and nothing else changes |
| SessionService.ImportsPreserveValid | lib/common/service/sessionService.js:241-274 | imports never disturb the indexes |
| SessionService.Close | lib/common/service/sessionService.js:622-639 | the first close marks the session closed, removes it and emits closed, closing and a disconnect; a closed session does nothing |
| SessionService.CloseIdempotent | lib/common/service/sessionService.js:622-639 | closing twice is closing once |
| SessionService.CloseListed | lib/common/service/sessionService.js:294-312 | closing a snapshot of ids removes exactly those ids; distinct registered ids never fault |
| SessionService.CloseListedPreservesValid | lib/common/service/sessionService.js:294-312 | closing listed sessions keeps the indexes consistent |
| SessionService.KickClosesAllOfUid | lib/common/service/sessionService.js:284-320 | kick closes every session bound to the uid and no other, without faulting, and the uid loses its list |
| SessionService.ListedUidHasHolder | lib/common/service/sessionService.js:194-197 | a uid with a list has a registered session bound to it |
| SessionService.Kick | lib/common/service/sessionService.js:284-320 | a uid without sessions is a no-op |
| SessionService.KickBySessionId | lib/common/service/sessionService.js:331-357 | an unknown sid does nothing; a known one is closed with its three events and removed from the registry and from its uid's list exactly as `remove` does; with consistent indexes they stay consistent and the sid is found neither by id nor under any uid |
| SessionService.SendMessage | lib/common/service/sessionService.js:389-400 | false for an unknown sid; otherwise one delivery to that session |
| SessionService.SendMessageByUid | lib/common/service/sessionService.js:411-427 | false iff the uid has no list; otherwise one delivery per listed session, in list order |
| SessionService.ForEachSession | lib/common/service/sessionService.js:435-441 | visits exactly the registered ids among the visited keys |
| SessionService.ForEachSessionVisitsAll | lib/common/service/sessionService.js:435-441 | visiting every key once reaches every session exactly once |
| SessionService.ForEachBindedSession | lib/common/service/sessionService.js:449-460 | visits exactly the ids listed under the visited uids |
| SessionService.ForEachBindedSessionVisitsBound | lib/common/service/sessionService.js:449-460 | with consistent indexes, visiting every uid once reaches exactly the bound sessions |
| CountDownLatch.Create | lib/common/service/channelService.js:513-521 | a latch counts down from the number of groups |
| CountDownLatch.Done | lib/common/service/channelService.js:525-540 | a signal fires the callback exactly when it is the last one awaited; the count never grows |
| CountDownLatch.FiresOnceAtCount | lib/common/service/channelService.js:513-540 | a latch of count n fires exactly once, at the n-th signal, and never before |
| CountDownLatch.NeverFiresAtZero | lib/common/service/channelService.js:513-540 | an exhausted latch never fires again |
| ChannelService.AddToGroups | lib/common/service/channelService.js:447-464 | a falsy sid is refused; otherwise the uid is appended to the sid's group, duplicates included |
| ChannelService.TotalUpdate | lib/common/service/channelService.js:304-323 | the entry count changes by the size difference of the rewritten group |
| ChannelService.NewChannel | lib/common/service/channelService.js:288-296 | a new channel is running, empty and consistent |
| ChannelService.Add | lib/common/service/channelService.js:304-323 | add succeeds exactly on a running channel with a truthy sid; then the uid is appended, recorded and counted |
| ChannelService.AddPreservesValid | lib/common/service/channelService.js:304-323 | add keeps the counter equal to the number of group entries |
| ChannelService.DeleteFrom | lib/common/service/channelService.js:469-482 | succeeds exactly when the uid is in the sid's group; it removes the first occurrence and drops an emptied group |
| ChannelService.DeleteFromUndoesAdd | lib/common/service/channelService.js:447-482 | deleting a uid just appended restores the groups |
| ChannelService.Leave | lib/common/service/channelService.js:332-351 | succeeds exactly when the uid is in the sid's group; then the record goes and the counter drops; there is no state check |
| ChannelService.LeavePreservesValid | lib/common/service/channelService.js:332-351 | leave keeps the counter equal to the number of group entries |
| ChannelService.LeaveUndoesAdd | lib/common/service/channelService.js:304-351 | leaving right after joining restores groups and counter and forgets the record |
| ChannelService.GetMembersCountsEntries | lib/common/service/channelService.js:366-380 | visiting every sid once lists as many members as the counter says, including every group entry |
| ChannelService.ConcatLength | lib/common/service/channelService.js:366-380 | the member list is as long as all groups together |
| ChannelService.GetMember | lib/common/service/channelService.js:388-391 | the record is found exactly when the uid has one |
| ChannelService.AddThenGetMember | lib/common/service/channelService.js:304-391 | after add, the record names the joined server and the uid is among the members |
| ChannelService.CreateChannel | lib/common/service/channelService.js:99-110 | a known name returns the registered channel, including every add or leave recorded on it since, and registers nothing; a new name registers a fresh, empty channel with a new instance |
| ChannelService.GetChannel | lib/common/service/channelService.js:120-129 | a known name returns the registered channel as last changed; an unknown one is created only when asked |
| ChannelService.DestroyChannel | lib/common/service/channelService.js:137-142 | the name is forgotten and no other channel changes |
| ChannelService.Destroy | lib/common/service/channelService.js:396-400 | the channel is marked destroyed and its name forgotten |
| ChannelService.DestroyThenCreateIsFresh | lib/common/service/channelService.js:99-142 | a destroyed name can be created again and yields a new, empty channel |
| ChannelService.LookupsAgree | lib/common/service/channelService.js:99-129 | with no change in between, createChannel on a known name returns the channel it returned before, and getChannel finds that channel without registering anything |
| ChannelService.Store | lib/common/service/channelService.js:99-129 | the registry and its callers share one channel object: a change to a channel the registry still holds (same name, same instance) is what it then holds, a channel it no longer holds changes nothing, and a valid running channel keeps the registry valid |
| ChannelService.AddSeenByLookup | lib/common/service/channelService.js:120-129 | after `getChannel(name).add(uid, sid)`, a later getChannel returns the changed channel: its record and member list hold the uid, its count grew by one, and the registry stays valid |
| ChannelService.LeaveSeenByLookup | lib/common/service/channelService.js:120-129 | after `getChannel(name).leave(uid, sid)`, a later getChannel returns the changed channel; a successful leave drops the uid's record and lowers the count by one |
| ChannelService.DestroyedChannelIsDetached | lib/common/service/channelService.js:137-142 | a destroyed channel no longer reaches the registry, even after the name is created again |
| ChannelService.GroupReceiversAppends | lib/common/service/channelService.js:171-183 | grouping appends each receiver's uid to its truthy server's group, in order |
| ChannelService.GroupsPartitionReceivers | lib/common/service/channelService.js:171-183 | the groups hold exactly the receivers with a truthy server id |
| ChannelService.PlanGroups | lib/common/service/channelService.js:568-580 | the plan has at most one dispatch per visited server |
| ChannelService.OneDispatchPerGroup | lib/common/service/channelService.js:568-580 | with non-empty groups, each server gets one local or remote dispatch, local exactly for this server |
| ChannelService.SendMessageByGroup | lib/common/service/channelService.js:495-580 | no groups calls back at once; otherwise one dispatch per group and a latch of that size |
| ChannelService.PushMessageByUids | lib/common/service/channelService.js:155-184 | an empty receiver list fails at once; otherwise the grouped receivers are sent |
| ChannelService.PushMessage | lib/common/service/channelService.js:410-433 | a destroyed channel never calls back; a running one sends to its groups |
| ChannelService.PushByUidsDispatchesPerServer | lib/common/service/channelService.js:155-184 | receivers without server ids call back at once; otherwise every server gets one dispatch |
| ChannelService.ChannelPushCallsBackOnce | lib/common/service/channelService.js:410-433 | a running channel's push calls back exactly once after every group has answered, and never before |
| ChannelService.Broadcast | lib/common/service/channelService.js:198-277 | no frontend servers calls back at once; otherwise one dispatch per server and a latch of that size |
| ChannelService.PlanBroadcast | lib/common/service/channelService.js:242-276 | each server gets one dispatch, local exactly for this server |
| ChannelService.Receive | lib/common/service/channelService.js:523-541 | any success sets the flag, and only a successful reply's fail list is collected |
| ChannelService.CallsBackOnce | lib/common/service/channelService.js:513-541 | the callback comes exactly once, at the count-th reply: an error iff all replies failed, else the fail ids the callback sees, collected in arrival order |
| ChannelService.CollectAfterFiring | lib/common/service/channelService.js:513-541 | replies after the latch fired call nothing back |
| ChannelService.BroadcastFailsIffAllFail | lib/common/service/channelService.js:210-240 | a broadcast reports failure exactly when every server failed, and never passes on fail ids, whatever the replies carry (its callback is `function(err)`) |
| ChannelRemote.Resolve | lib/common/remote/frontend/channelRemote.js:36-52 | the fail list is exactly the uids without sessions |
| ChannelRemote.PushMessage | lib/common/remote/frontend/channelRemote.js:24-57 | a falsy message fails at once; otherwise the resolved sessions are sent and the fail list reported |
| ChannelRemote.ResolveSplitsUids | lib/common/remote/frontend/channelRemote.js:36-52 | the receivers are each uid's list in order, and the fails are the unbound uids in order |
| ChannelRemote.ResolveReachesBoundSessions | lib/common/remote/frontend/channelRemote.js:36-52 | with consistent indexes, a session receives the push exactly when it is bound to one of the uids |
| ChannelRemote.Broadcast | lib/common/remote/frontend/channelRemote.js:68-73 | forwards to the connector, with no receiver list, exactly when there is one |
| PushDirect.Live | lib/pushSchedulers/direct.js:70-77 | keeps exactly the registered receivers |
| PushDirect.BatchPushSendsToLive | lib/pushSchedulers/direct.js:70-77 | a batch push sends once per registered receiver, in order |
| PushDirect.Schedule | lib/pushSchedulers/direct.js:16-35 | the callback is called once if given; batch pushes and broadcasts deliver as their helpers do |
| PushDirect.UnbindedBroadcastReachesEachOnce | lib/pushSchedulers/direct.js:55-66 | an unfiltered broadcast sends exactly one message per registered session |
| PushDirect.BindedBroadcastSendsSquares | lib/pushSchedulers/direct.js:42-53 | an unfiltered binded broadcast sends k·k messages for a uid with k sessions |
| PushDirect.SessionsOfOneUid | lib/pushSchedulers/direct.js:42-53 | visiting n sessions of one uid sends n times that uid's whole list |
| PushBuffer.NewBuffer | lib/pushSchedulers/buffer.js:4-14 | the flush interval is the option, or 20 when absent or zero; no queues |
| PushBuffer.Start | lib/pushSchedulers/buffer.js:18-23 | every start adds a running interval, even over an earlier one |
| PushBuffer.Stop | lib/pushSchedulers/buffer.js:25-33 | stop clears only the interval last started |
| PushBuffer.StopIdempotent | lib/pushSchedulers/buffer.js:18-33 | stopping twice is stopping once, and stop undoes one start |
| PushBuffer.Enqueue | lib/pushSchedulers/buffer.js:86-94 | the message joins the session's queue; the first one registers a close listener |
| PushBuffer.OnClose | lib/pushSchedulers/buffer.js:96-98 | the session's queue is dropped unsent |
| PushBuffer.BatchPushAppends | lib/pushSchedulers/buffer.js:75-84 | a live receiver's queue gets the message once per occurrence in the list; others are untouched |
| PushBuffer.Schedule | lib/pushSchedulers/buffer.js:35-73 | a given callback is called once and a missing one never; batch pushes and broadcasts enqueue through their helpers |
| PushBuffer.BroadcastQueuesOnce | lib/pushSchedulers/buffer.js:49-73 | an unfiltered broadcast over distinct registered sessions queues the message exactly once each |
| PushBuffer.Flush | lib/pushSchedulers/buffer.js:100-117 | a flush keeps the queue keys, listeners and timer |
| PushBuffer.FlushSendsEachQueueOnce | lib/pushSchedulers/buffer.js:100-117 | a flush sends each live, non-empty queue exactly once as one batch, empties exactly those queues, and sends nothing else |
| PushBuffer.CloseDropsPending | lib/pushSchedulers/buffer.js:96-117 | after a close, no batch is sent to that session |
| PushBuffer.FlushOnlyQueued | lib/pushSchedulers/buffer.js:100-117 | batches go only to sessions that had a queue |
| SeqQueue.NewQueue | lib/util/seq-queue.js:18-33 | a positive timeout is kept, anything else gives 3000; the queue starts idle and empty, with no 'error' listener |
| SeqQueue.Push | lib/util/seq-queue.js:43-66 | a closed or drained queue ignores the task; a non-function is refused; otherwise the task is queued and an idle queue schedules `_next` |
| SeqQueue.Close | lib/util/seq-queue.js:73-96 | only an idle or busy queue closes; force drains at once and clears the timer |
| SeqQueue.Next | lib/util/seq-queue.js:104-163 | a stale id does nothing; an effective call invalidates it, drains or starts the next task with a fresh id and timer; a throwing task's error is emitted and its `_next` deferred only when an 'error' listener is attached, otherwise the error escapes and nothing is deferred |
| SeqQueue.TaskTimeoutReplacesDefault | lib/util/seq-queue.js:135-136 | a positive per-task timeout replaces the queue default, even when larger |
| SeqQueue.Done | lib/util/seq-queue.js:149-155 | done reports whether the task is still current and always defers `_next` |
| SeqQueue.Tick | lib/util/seq-queue.js:63 | the oldest deferred `_next` runs |
| SeqQueue.Fire | lib/util/seq-queue.js:137-145 | an expired timer emits timeout, calls onTimeout if given, and defers `_next` |
| SeqQueue.StepPreservesInv | lib/util/seq-queue.js:43-163 | every event keeps the queue consistent |
| SeqQueue.StaleForever | lib/util/seq-queue.js:104-111 | an outdated id stays outdated, so its `_next` never acts again |
| SeqQueue.AdvancesOncePerId | lib/util/seq-queue.js:104-133 | each task id advances the queue at most once |
| SeqQueue.CoveredNeverTimesOut | lib/util/seq-queue.js:112-117 | a task whose `_next` is already deferred never times out |
| SeqQueue.DoneSuppressesTimeout | lib/util/seq-queue.js:149-155 | a task calling done while current never times out |
| SeqQueue.ForcedCloseSuppressesTimeout | lib/util/seq-queue.js:81-90 | after a forced close no task times out |
| SeqQueue.DrainedIsSilent | lib/util/seq-queue.js:75-79 | a drained queue stays drained and emits nothing |
| SeqQueue.TimesOutAtMostOnce | lib/util/seq-queue.js:137-145 | each task emits timeout at most once and has its onTimeout called at most once |
| SeqQueue.ThrowWithListenerNeverTimesOut | lib/util/seq-queue.js:157-162 | a throwing task whose error a listener takes is deferred like a finished one and never times out |
| SeqQueue.ThrowWithoutListenerTimesOut | lib/util/seq-queue.js:147-162 | with no 'error' listener the emit throws before `_next` is deferred, so the timer stays armed and the task times out when it fires |
| SeqQueue.UnfinishedTaskTimesOut | lib/util/seq-queue.js:137-145 | a current task whose timer expires emits timeout and calls its onTimeout |
| TaskManager.NewManager | lib/common/manager/taskManager.js:6-8 | no queues and a 3000 ms timeout |
| TaskManager.AddTask | lib/common/manager/taskManager.js:18-28 | the key's queue, created with the manager's timeout on first use, gets the task; other keys are untouched |
| TaskManager.CloseQueue | lib/common/manager/taskManager.js:36-46 | an unknown key is ignored; otherwise the queue is closed and forgotten |
| TaskManager.AddTaskPreservesValid | lib/common/manager/taskManager.js:18-28 | adding keeps every queue consistent |
| TaskManager.FirstTaskStartsQueue | lib/common/manager/taskManager.js:18-28 | a key's first task is accepted by a new busy queue that starts it next tick; no 'error' listener is attached to it |
| TaskManager.CloseThenAddIsFresh | lib/common/manager/taskManager.js:18-46 | after a close the next task starts a fresh queue |
| TaskManager.CloseQueueIdempotent | lib/common/manager/taskManager.js:36-46 | closing twice is closing once |
| TaskManager.Before | lib/filters/handler/serial.js:20-30 | the request is queued exactly when the session's queue is absent or open, behind the pending ones |
| TaskManager.After | lib/filters/handler/serial.js:35-46 | done is always called; an existing error passes through; otherwise the error is "task time out" exactly when the task was no longer current |
| TaskManager.TimedOutTaskReportsTimeout | lib/filters/handler/serial.js:35-46 | a request whose task was overtaken reports a timeout unless it already failed |
| ConnectionService.AddLoginedUser | lib/common/service/connectionService.js:24-32 | a uid is counted once however often it logs in; the record is stored with its uid |
| ConnectionService.Copyable | lib/common/service/connectionService.js:47-53 | exactly the non-function properties are copied |
| ConnectionService.UpdateUserInfo | lib/common/service/connectionService.js:39-54 | an unknown uid is ignored; otherwise non-function properties overwrite and the rest of the record stays |
| ConnectionService.IncreaseConnectionCount | lib/common/service/connectionService.js:59-62 | the connection count goes up by one |
| ConnectionService.RemoveLoginedUser | lib/common/service/connectionService.js:69-76 | only a known uid is uncounted and forgotten |
| ConnectionService.DecreaseConnectionCount | lib/common/service/connectionService.js:83-93 | the count stops at zero, and a truthy uid is logged out |
| ConnectionService.GetStatisticsInfo | lib/common/service/connectionService.js:100-114 | the report lists the records in visiting order with the counters |
| ConnectionService.OperationsPreserveValid | lib/common/service/connectionService.js:24-93 | every operation keeps the login count equal to the number of records |
| ConnectionService.StatisticsListsEveryUser | lib/common/service/connectionService.js:100-114 | the list has one record per logined user |
| ConnectionService.AddThenRemoveRestores | lib/common/service/connectionService.js:24-76 | logging a new uid in and out restores the statistics |
| Server.Split | lib/server/server.js:392-410 | the pieces are dot-free and rejoin to the input |
| Server.SplitJoin | lib/server/server.js:392-410 | splitting undoes joining dot-free pieces |
| Server.ParseRoute | lib/server/server.js:392-410 | an empty route fails; a parse keeps the route and three dot-free parts |
| Server.ParseRouteRoundTrip | lib/server/server.js:392-410 | a route parses exactly when it is three dot-free pieces joined by dots, and gives those pieces back |
| Server.NewServer | lib/server/server.js:24-38 | a new server is inited with no crons, no job handles and nothing running, so every job is reachable |
| Server.Start | lib/server/server.js:43-56 | only an inited server starts; it loads the crons configured for it |
| Server.ForServer | lib/server/server.js:259-285 | keeps exactly the crons without a server id or with this server's id |
| Server.Stop | lib/server/server.js:67-70 | the server is stopped and its crons kept |
| Server.GlobalHandle | lib/server/server.js:80-127 | a server not started refuses; otherwise a bad route is an error and a good one is forwarded or handled by server type |
| Server.Handle | lib/server/server.js:134-141 | a server not started refuses; otherwise the parsed route is handled |
| Server.ServesOnlyWhenStarted | lib/server/server.js:43-91 | requests are served only between a start and a stop, and a stopped server cannot start again |
| Server.ContainCron | lib/server/server.js:553-563 | true exactly when some listed cron has the id |
| Server.CheckAndAdd | lib/server/server.js:538-548 | appends the cron exactly when its id is not listed |
| Server.CheckAndAddKeepsUnique | lib/server/server.js:538-548 | adding keeps ids unique and leaves the id listed |
| Server.AddAllKeepsUnique | lib/server/server.js:149-160 | adding a list keeps ids unique and lists every id |
| Server.CheckAndUpdate | lib/server/server.js:571-582 | the first cron with the id is replaced; an unknown id changes nothing |
| Server.CheckAndUpdateKeepsUnique | lib/server/server.js:571-582 | updating keeps ids unique and lists the new cron |
| Server.Cancel | lib/server/server.js:174-178 | a job handle is cancelled and deleted, other handles are kept, and every running job stays reachable |
| Server.RemoveCron | lib/server/server.js:167-183 | exactly the job handles of listed ids are cancelled and forgotten; other handles keep their values |
| Server.RemoveCronKeepsTracked | lib/server/server.js:167-183 | removing crons keeps every running job reachable through its handle |
| Server.RemovedJobsStop | lib/server/server.js:167-183 | with every job reachable, a removed cron's job no longer runs |
| Server.Schedule | lib/server/server.js:529 | the id's handle becomes the scheduler's answer, with the job it replaces cancelled, so every running job stays reachable |
| Server.ScheduleAsWritten | lib/server/server.js:529 | the same handle, but the replaced job is never cancelled |
| Server.LastTimeScheduled | lib/server/server.js:505-531 | an id has a last schedulable cron exactly when some listed cron is scheduled under it |
| Server.ScheduleCron | lib/server/server.js:490-533 | without handlers nothing is scheduled; otherwise exactly the well-formed crons with a handler function get a handle, each id holding the scheduler's answer for its last such cron and other ids keeping theirs |
| Server.ScheduleCronKeepsTracked | lib/server/server.js:490-533 | scheduling with replaced jobs cancelled keeps every running job reachable |
| Server.ScheduleCronAsWritten | lib/server/server.js:490-533 | the loop as written builds the same handles but never stops a job |
| Server.SameHandlesSameSchedule | lib/server/server.js:490-533 | the handles scheduling builds depend only on the handles it starts from |
| Server.OrphanedJob | lib/server/server.js:149-183 | as written, a cron scheduled twice leaves a job no handle reaches, which still runs after the cron is removed |
| Server.ExampleOrphanedJob | lib/server/server.js:149-160 | adding cron "a" with action "h.f" twice leaves an unreachable job |
| Server.AddCron | lib/server/server.js:144-160 | without handlers nothing happens; otherwise new ids are appended to the cron list and the listed crons are scheduled, each id holding the answer for its last schedulable cron; the scheduling is the corrected one of the Findings table, which cancels a replaced job (line 529 does not) and builds the same handles as the source |
| Server.AfterStart | lib/server/server.js:58-61 | the held crons are scheduled, each id holding the answer for its last schedulable cron; state and crons are kept; scheduling is the corrected one, with the source's handles |
| Server.UpdateCron | lib/server/server.js:185-200 | without handlers nothing happens; otherwise listed crons replace or join the list; a listed id that had a job loses it unless a listed cron reschedules it, and each scheduled id holds the answer for its last schedulable cron; scheduling is the corrected one, with the source's handles |
| Server.CronOperationsKeepTracked | lib/server/server.js:58-200 | with the corrected scheduling of the Findings table, adding, scheduling, updating and removing crons keep every running job reachable; as written the source does not (Server.OrphanedJob) |
| Server.UpsertKeepsUnique | lib/server/server.js:185-200 | after an update every listed id is present exactly once |
| Server.UpsertKeepsIds | lib/server/server.js:185-200 | an update never loses an id |
| TcpSocket.NewSocket | lib/connectors/hybrid/tcpsocket.js:16-50 | a missing socket or options, a falsy head size or a non-function handler throw; otherwise the socket waits for a head |
| TcpSocket.ReadHead | lib/connectors/hybrid/tcpsocket.js:154-191 | bytes are only moved, never lost; a complete head of a valid type starts the body; a negative size throws with the size the handler read from that head, leaving the whole head in the socket; an invalid type with a non-negative size requests close and swallows the chunk; either rejection happens only when the stream from there starts with a bad head |
| TcpSocket.NoFrameStarts | lib/connectors/hybrid/tcpsocket.js:170-187 | a stream that starts with a bad head is neither a package nor the start of one, and the reference cutting rejects it |
| TcpSocket.ReadBody | lib/connectors/hybrid/tcpsocket.js:201-221 | a completed package is a well-formed frame made of the collected bytes, and the socket resets |
| TcpSocket.Iterate | lib/connectors/hybrid/tcpsocket.js:116-128 | one loop turn conserves the stream and emits only well-formed frames |
| TcpSocket.LoopStep | lib/connectors/hybrid/tcpsocket.js:116-128 | a loop turn keeps the emitted messages followed by the unread bytes equal to the stream, or, on a close request, leaves a stream that cannot be cut |
| TcpSocket.OnData | lib/connectors/hybrid/tcpsocket.js:99-132 | a closed socket or a bad chunk throw with nothing emitted; otherwise the chunk passes exactly when the pending bytes plus the chunk cut cleanly into packages, which are the emitted messages, with the rest kept; when they do not, the messages emitted are the packages in front of the first bad head, and the call throws with that head's size exactly when the size is negative, leaving that head in the socket, and otherwise requests close; an empty chunk changes nothing; a socket already holding a rejected head emits nothing for any further chunk and throws the same size again or requests close again |
| TcpSocket.CutAtBadHeadUnique | lib/connectors/hybrid/tcpsocket.js:116-191 | the packages in front of a bad head are determined by the stream, so the messages a rejecting call emits are fixed |
| TcpSocket.OnEnd | lib/connectors/hybrid/tcpsocket.js:134-144 | the final chunk is written back and the socket ends waiting for a head, not closed |
| TcpSocket.DeframeAfterFrames | lib/connectors/hybrid/tcpsocket.js:116-128 | complete packages in front of a stream are cut off one by one |
| TcpSocket.FrameRoundTrip | lib/connectors/hybrid/tcpsocket.js:99-132 | packages written back to back are read back as exactly those packages |
| TcpSocket.ChunkingIrrelevant | lib/connectors/hybrid/tcpsocket.js:99-132 | two chunks in turn yield the same packages and rest as their concatenation |
| TcpSocket.DeframeSplits | lib/connectors/hybrid/tcpsocket.js:99-132 | what is cut is well-formed packages followed by the start of one |
| TcpSocket.EncodedPackageIsFrame | template/web-server/public/js/lib/build/build.js:502-514 | a sender's encoded package is a complete frame for the four-byte head |
| TcpSocket.EncodedPackagesRoundTrip | lib/connectors/hybrid/tcpprocessor.js:25-36 | encoded packages sent back to back are received as exactly those packages |
| TcpSocket.RejectedHeadSticks | lib/connectors/hybrid/tcpsocket.js:154-191 | a socket holding a rejected head stays stuck: after a negative length every later chunk throws the same size, after an unknown type every later chunk is swallowed whole and close is requested again |
| ConnectorHandler.Handle | lib/connectors/common/handler.js:12-73 | a handshake is answered only in INITED, as HandshakeEffects states; ack moves WAIT_ACK to WORKING with a heartbeat; heartbeat and data act only in WORKING; other types disconnect |
| ConnectorHandler.HandshakeEffects | lib/connectors/common/handler.js:12-26 | an unparsable body emits `{}`; a parsed body is emitted, and when the listener throws on it `{}` is emitted next; an exception the listener throws on `{}` escapes |
| ConnectorHandler.HandshakeEmitsAtMostTwice | lib/connectors/common/handler.js:12-26 | the listener hears a handshake at most twice, the second time as `{}`, exactly when it threw on a parsed body; the exception escapes exactly when it throws on `{}` |
| ConnectorHandler.RunFinalState | lib/connectors/common/handler.js:28-36 | over any packages, the state ends WORKING iff it waited for an ack and one came; otherwise it is unchanged |
| ConnectorHandler.WorkingPassesData | lib/connectors/common/handler.js:47-54 | a working socket emits exactly its data packages as messages, in order |
| ConnectorHandler.NothingBeforeAck | lib/connectors/common/handler.js:12-54 | before the acknowledgement no message or heartbeat is emitted |
| ConnectorHandler.UnknownTypesDisconnect | lib/connectors/common/handler.js:61-73 | a disconnect happens exactly for types without a handler |
| Utils.InvokeCallback | lib/util/utils.js:13-44 | the callback is called with the arguments exactly when it is a function |
| Utils.SizeCountsDataKeys | lib/util/utils.js:49-60 | the size is the number of own non-function properties, whatever the visiting order |
| Utils.StartsWith | lib/util/utils.js:77-84 | true exactly for two strings where the prefix begins the string |
| Utils.EndsWith | lib/util/utils.js:65-73 | true exactly for two strings where the suffix ends the string |
| Utils.AffixesOfConcatenation | lib/util/utils.js:65-86 | a concatenation starts with its first part and ends with its second |
| Utils.WithoutKeepsMultiplicity | lib/util/utils.js:89-105 | the difference keeps each surviving element as often as the first array has it |
| Utils.ArrayDiffAsWritten | lib/util/utils.js:89-105 | as written, elements named like `Object.prototype` members are dropped too |
| Utils.ArrayDiffDropsPrototypeNames | lib/util/utils.js:89-105 | `["toString"]` minus `[]` comes out empty as written |
| Utils.ArrayDiff | lib/util/utils.js:89-105 | the elements of the first array not in the second, in order, with repeats |
| Utils.HeadHandler | lib/util/utils.js:374-386 | a four-byte head gives bytes 1 to 3 read big-endian; a shorter head throws |
| Utils.HeadRoundTrip | lib/util/utils.js:374-386 | reading the length back from an encoded head gives the length |

## Left out

- **Channel persistence.** `start` and the store helpers in
  channelService.js talk to an external store, so they are not modelled.
  `countDownLatch.js` itself is not part of this model. The latch is
  modelled from its use in channelService.js: it fires once, when the
  count is reached.
- **RPC and sockets as parameters.** RPC, the connector, sockets and
  `JSON.parse` are opaque. Their replies are parameters: reply lists in
  arrival order, a parse result, or whether a callback is given.
- **Listeners of 'bind' and 'unbind'.** `SessionService.Bind` and
  `SessionService.Unbind` return the events the session emits. The
  connector's listeners for them (lib/components/connector.js:418-439)
  are not modelled: they call the connection statistics and re-emit
  application events.
- **Time is not modelled.** The push buffer's interval and the queue's
  timers are events. The model does not track delays, only the order in
  which timers fire relative to Node's next-tick queue.
- **Handler and filter chains.** Only the serial filter is modelled. The
  filters and handlers around `globalHandle` and `handle` are not, and
  neither is the remote dispatch that `doForward` starts.
- **Session members outside the registry.** `Session.set`, `get` and
  `remove` are plain map operations, and imports use them. Also left out
  are `toFrontendSession`, `FrontendSession`,
  `getClientAddressBySessionId` and `getSessionsCount`: they only read
  sockets or counts.
- **Shared objects.** The records kept by the connection statistics are
  copies, whereas the source stores the caller's object and writes its
  `uid` into it. Aliasing between these objects is not modelled. Channels
  are the one shared object the model follows: a caller that changes a
  channel records the change with `ChannelService.Store`, which stands
  for the registry and the caller holding the same object.
- **String chunks.** `TcpSocket.OnData` takes a string chunk as its UTF-8
  bytes, because encoding is not modelled. `close()` asking the socket to
  end or destroy is an output.
- **JavaScript values.** `TcpSocket.NewSocket` treats the head size as an
  integer; fractional sizes are not modelled.
- **The disconnect itself.** What `socket.disconnect()` does to the
  handshake state belongs to the socket and is not modelled.
- **Escaping errors.** When a task throws and the queue has no 'error'
  listener, the error leaves `_next` from a next-tick callback. Whether
  the process survives that (an 'uncaughtException' handler) is outside
  the model; `SeqQueue.Next` records it as `ErrorEscaped` and keeps
  going as a surviving process would. Likewise, when a socket's
  'handshake' listener throws on `{}`, the exception leaves `handle`.
  `ConnectorHandler.Handle` records it as `Escape`, and `Run` goes on
  with the next package. What the socket's caller does with the
  exception is not modelled.
- SeqQueue.UnfinishedTaskTimesOut: shows the timeout when the timer
  fires. That the event loop eventually fires it is a liveness property
  and is not stated.
- SessionService.Kick: its own contract covers only the unknown uid.
  What a kick does otherwise is stated by
  SessionService.KickClosesAllOfUid.
- PushBuffer.Flush: its own contract only keeps keys, listeners and the
  timer. The batches it sends are stated by
  PushBuffer.FlushSendsEachQueueOnce, which requires each queued id to be
  visited once.
- **Inherited object members.** The source keeps its tables in plain
  `{}` objects, and a lookup there also finds `Object.prototype` members
  such as `toString` or `constructor`. The model's maps hold only their
  own keys. So it does not follow the source for such names: a cron
  action "x.toString" or "toString.call", a uid named like one in the
  session service, or a job id named like one. Only `arrayDiff`
  models the inherited lookup (see Findings).
- Server.Schedulable: a handler or function name that only an inherited
  member matches is not schedulable here, though the source schedules it.
- SessionService.Bind: a uid named like an inherited member is treated as
  a fresh uid; in the source `this.uidMap[uid]` is then a function and
  `bind` throws.
- ChannelService.PlanGroups: bounds the plan by the visited servers.
  ChannelService.OneDispatchPerGroup states the one dispatch per group.

## Findings

| source | as written | input that shows it | evidently intended | confidence | as-written member | corrected member |
|---|---|---|---|---|---|---|
| lib/server/server.js:505-531 | `scheduleCron` assigns `server.jobs[id]` without cancelling the job the id already holds, while `addCron` skips a duplicate id only in the cron list | adding the cron "a" with action "h.f" twice, or one list holding it twice, then removing it: one job keeps running with no handle | the job an id held is cancelled before it is replaced, so `removeCron` stops every job | not executed | Server.ScheduleCronAsWritten, Server.OrphanedJob, Server.ExampleOrphanedJob | Server.ScheduleCron, Server.ScheduleCronKeepsTracked, Server.RemovedJobsStop, Server.CronOperationsKeepTracked |
| lib/util/utils.js:89-105 | the marks of `array2` live in a plain `{}`, so a lookup of an element named like an `Object.prototype` member is truthy | `arrayDiff(["toString"], [])` gives `[]` | the elements of `array1` that are not in `array2`, in order | not executed | Utils.ArrayDiffAsWritten, Utils.ArrayDiffDropsPrototypeNames | Utils.ArrayDiff |
