/**
  Channels and their fan-out on a backend server
  (lib/common/service/channelService.js).

  A channel maps frontend server ids to the uids connected through them
  (`groups`), remembers the last `{sid, uid}` record of each uid and
  keeps a running `userAmount`.  Pushing to a channel, or to an explicit
  receiver list, groups the uids by frontend server and makes one
  dispatch per server: a local call when the server is the current one,
  an rpc otherwise.  The replies are collected with a count-down latch.
  The model returns the dispatches it would make, and the callback
  results follow from a list of replies in arrival order.
 */
module ChannelService {
  import opened Common
  import opened CountDownLatch

  type Groups = map<string, seq<string>>

  datatype ChannelState = Inited | Destroyed

  datatype Member = Member(sid: string, uid: string)

  /** `instance` is the identity of the JavaScript object; two channels
      created under the same name are different instances. */
  datatype Channel = Channel(
    name: string,
    instance: nat,
    groups: Groups,
    records: map<string, Member>,
    state: ChannelState,
    userAmount: nat)

  datatype Registry = Registry(channels: map<string, Channel>, nextInstance: nat)

  datatype PushError =
    | EmptyReceiverList   // "uids should not be empty"
    | AllPushesFailed     // "all uids push message fail"
    | BroadcastFailed     // "broadcast fails"

  /** One call made on behalf of a push or a broadcast.  `PushEmpty`'s
      reply is always a success with no fails (`rpcCB(sid)` called with no
      arguments); in the replies it is `Reply(false, [])`.  No plan the
      model builds contains one: a valid channel's groups and the groups
      built from receivers are never empty (`OneDispatchPerGroup`,
      `GroupsPartitionReceivers`). */
  datatype Dispatch =
    | PushLocal(sid: string, uids: seq<string>)      // channelRemote.pushMessage in-process
    | PushRemote(sid: string, uids: seq<string>)     // app.rpcInvoke(sid, ...pushMessage)
    | PushEmpty(sid: string)                         // nextTick(rpcCB(sid)) for an empty group
    | BroadcastLocal                                 // channelRemote.broadcast in-process
    | BroadcastRemote(serverId: string)              // app.rpcInvoke(serverId, ...broadcast)

  /** A reply from one dispatch: whether it carried an error, and the
      uids the frontend could not reach. */
  datatype Reply = Reply(failed: bool, fails: seq<string>)

  /** The arguments the callback receives. */
  datatype PushResult = PushResult(error: Option<PushError>, fails: seq<string>)

  /** What a push does at once: call back immediately, dispatch and wait
      for `count` replies, or (a destroyed channel) neither.  `keepsFails`
      says whether the reply callback takes a reply's fail list: the one
      of `sendMessageByGroup` does, the broadcast one, `function(err)`,
      does not. */
  datatype Send =
    | Immediate(result: PushResult)
    | Dispatched(plan: seq<Dispatch>, count: nat, allFailed: PushError, keepsFails: bool)
    | Silent

  // ---------------------------------------------------------------------
  // Group bookkeeping (the module-level helpers `add` and `deleteFrom`)

  function GroupOf(groups: Groups, sid: string): seq<string> {
    if sid in groups then groups[sid] else []
  }

  /** The helper `add(uid, sid, groups)`: ignores a falsy sid, otherwise
      appends the uid to the sid's group, creating it when absent. */
  function AddToGroups(groups: Groups, uid: string, sid: string): (r: (Groups, bool))
    ensures r.1 <==> Truthy(sid)
    ensures !r.1 ==> r.0 == groups
    ensures r.1 ==> r.0.Keys == groups.Keys + {sid} && r.0[sid] == GroupOf(groups, sid) + [uid]
    ensures forall s :: s != sid && s in groups ==> r.0[s] == groups[s]
  {
    if !Truthy(sid) then (groups, false)
    else (groups[sid := GroupOf(groups, sid) + [uid]], true)
  }

  /** Total number of uid entries over all groups. */
  ghost function Total(groups: Groups): nat
    decreases |groups|
  {
    if groups == map[] then 0
    else
      var k :| k in groups;
      assert (groups - {k}).Keys == groups.Keys - {k};
      |groups[k]| + Total(groups - {k})
  }

  lemma {:induction false} TotalRemoveKey(groups: Groups, k: string)
    requires k in groups
    ensures Total(groups) == |groups[k]| + Total(groups - {k})
    decreases |groups|
  {
    var j :| j in groups && Total(groups) == |groups[j]| + Total(groups - {j});
    if j != k {
      assert (groups - {j}).Keys == groups.Keys - {j};
      assert (groups - {k}).Keys == groups.Keys - {k};
      TotalRemoveKey(groups - {j}, k);
      TotalRemoveKey(groups - {k}, j);
      assert groups - {j} - {k} == groups - {k} - {j};
    }
  }

  lemma TotalUpdate(groups: Groups, k: string, v: seq<string>)
    ensures Total(groups[k := v]) == Total(groups) - |GroupOf(groups, k)| + |v|
  {
    TotalRemoveKey(groups[k := v], k);
    assert groups[k := v] - {k} == groups - {k};
    if k in groups {
      TotalRemoveKey(groups, k);
    } else {
      assert groups - {k} == groups;
    }
  }

  lemma TotalDelete(groups: Groups, k: string)
    requires k in groups
    ensures Total(groups - {k}) == Total(groups) - |groups[k]|
  {
    TotalRemoveKey(groups, k);
  }

  // ---------------------------------------------------------------------
  // Channel

  /** The counter matches the entries, and every group is keyed by a
      truthy server id and is non-empty. */
  ghost predicate ChannelValid(ch: Channel) {
    && ch.userAmount == Total(ch.groups)
    && (forall sid :: sid in ch.groups ==> Truthy(sid) && ch.groups[sid] != [])
  }

  function NewChannel(name: string, instance: nat): (ch: Channel)
    ensures ch.state == Inited && ch.userAmount == 0 && ch.groups == map[]
    ensures ChannelValid(ch)
  {
    Channel(name, instance, map[], map[], Inited, 0)
  }

  /** `Channel.add(uid, sid)`.  A destroyed channel and a falsy sid refuse;
      otherwise the uid is appended to its server's group (a uid already
      present is appended again) and the record and count are updated. */
  function Add(ch: Channel, uid: string, sid: string): (r: (Channel, bool))
    ensures r.1 <==> ch.state == Inited && Truthy(sid)
    ensures !r.1 ==> r.0 == ch
    ensures r.1 ==>
              && r.0.groups.Keys == ch.groups.Keys + {sid}
              && r.0.groups[sid] == GroupOf(ch.groups, sid) + [uid]
              && (forall s :: s in ch.groups && s != sid ==> r.0.groups[s] == ch.groups[s])
              && r.0.records == ch.records[uid := Member(sid, uid)]
              && r.0.userAmount == ch.userAmount + 1
    ensures r.0.name == ch.name && r.0.instance == ch.instance && r.0.state == ch.state
  {
    if ch.state != Inited then (ch, false)
    else
      var (groups, added) := AddToGroups(ch.groups, uid, sid);
      if added then
        (ch.(groups := groups, records := ch.records[uid := Member(sid, uid)],
             userAmount := ch.userAmount + 1), true)
      else (ch, false)
  }

  lemma AddPreservesValid(ch: Channel, uid: string, sid: string)
    requires ChannelValid(ch)
    ensures ChannelValid(Add(ch, uid, sid).0)
  {
    if Add(ch, uid, sid).1 {
      TotalUpdate(ch.groups, sid, GroupOf(ch.groups, sid) + [uid]);
    }
  }

  /** The helper `deleteFrom(uid, sid, groups[sid])`, which splices out
      the first occurrence of the uid, followed by `leave`'s deletion of a
      group left empty. */
  function DeleteFrom(groups: Groups, uid: string, sid: string): (r: (Groups, bool))
    ensures r.1 <==> Truthy(uid) && Truthy(sid) && sid in groups && uid in groups[sid]
    ensures forall s :: s != sid ==> (s in r.0 <==> s in groups) &&
                                     (s in groups ==> r.0[s] == groups[s])
    ensures var shrunk := if r.1 then RemoveFirst(groups[sid], uid) else GroupOf(groups, sid);
            && (sid in r.0 <==> shrunk != [])
            && (sid in r.0 ==> r.0[sid] == shrunk)
    ensures r.1 ==> r.0 == if RemoveFirst(groups[sid], uid) == [] then groups - {sid}
                           else groups[sid := RemoveFirst(groups[sid], uid)]
  {
    var removed := Truthy(uid) && Truthy(sid) && sid in groups && uid in groups[sid];
    if !removed then
      (if sid in groups && groups[sid] == [] then groups - {sid} else groups, false)
    else
      var shrunk := RemoveFirst(groups[sid], uid);
      (if shrunk == [] then groups - {sid} else groups[sid := shrunk], true)
  }

  /** Deleting a uid just appended to a group restores the groups. */
  lemma DeleteFromUndoesAdd(groups: Groups, uid: string, sid: string)
    requires forall s :: s in groups ==> groups[s] != []
    requires Truthy(uid) && Truthy(sid) && uid !in GroupOf(groups, sid)
    ensures DeleteFrom(AddToGroups(groups, uid, sid).0, uid, sid) == (groups, true)
  {
    var before := GroupOf(groups, sid);
    var joined := groups[sid := before + [uid]];
    assert AddToGroups(groups, uid, sid).0 == joined;
    RemoveFirstAppended(before, uid);
    assert DeleteFrom(joined, uid, sid).1;
    if sid in groups {
      assert DeleteFrom(joined, uid, sid).0 == joined[sid := before];
      RestoreEntry(groups, sid, before + [uid]);
    } else {
      assert DeleteFrom(joined, uid, sid).0 == joined - {sid};
      RestoreEntry(groups, sid, before + [uid]);
    }
  }

  /** Overwriting an entry and then putting back the old one (or removing
      a fresh entry) gives back the map. */
  lemma RestoreEntry(groups: Groups, sid: string, v: seq<string>)
    ensures sid in groups ==> groups[sid := v][sid := groups[sid]] == groups
    ensures sid !in groups ==> groups[sid := v] - {sid} == groups
  {
  }

  /** `Channel.leave(uid, sid)`.  No state check.  A falsy uid or sid, or a
      uid absent from the server's group, fails; otherwise one occurrence
      leaves the group, the uid's record is deleted and the count drops
      (clamped at zero).  A group left empty is deleted either way. */
  function Leave(ch: Channel, uid: string, sid: string): (r: (Channel, bool))
    ensures r.1 <==> Truthy(uid) && Truthy(sid) && sid in ch.groups && uid in ch.groups[sid]
    ensures !Truthy(uid) || !Truthy(sid) ==> r.0 == ch
    ensures Truthy(uid) && Truthy(sid) ==> r.0.groups == DeleteFrom(ch.groups, uid, sid).0
    ensures r.1 ==>
              && r.0.records == ch.records - {uid}
              && r.0.userAmount == (if ch.userAmount == 0 then 0 else ch.userAmount - 1)
    ensures !r.1 ==> r.0.records == ch.records && r.0.userAmount == ch.userAmount
    ensures r.0.name == ch.name && r.0.instance == ch.instance && r.0.state == ch.state
  {
    if !Truthy(uid) || !Truthy(sid) then (ch, false)
    else
      var (groups, removed) := DeleteFrom(ch.groups, uid, sid);
      if removed then
        (ch.(groups := groups, records := ch.records - {uid},
             userAmount := if ch.userAmount == 0 then 0 else ch.userAmount - 1), true)
      else (ch.(groups := groups), false)
  }

  lemma LeavePreservesValid(ch: Channel, uid: string, sid: string)
    requires ChannelValid(ch)
    ensures ChannelValid(Leave(ch, uid, sid).0)
  {
    var (r, ok) := Leave(ch, uid, sid);
    if ok {
      var g := RemoveFirst(ch.groups[sid], uid);
      var groups := if g == [] then ch.groups - {sid} else ch.groups[sid := g];
      assert r.groups == groups;
      ShrinkGroup(ch.groups, sid, g);
      assert r.userAmount == Total(groups);
    } else if Truthy(uid) && Truthy(sid) {
      assert r.groups == ch.groups;
    }
  }

  /** Shrinking a group by one entry, deleting it when it becomes empty,
      lowers the total by one and keeps every group non-empty. */
  lemma ShrinkGroup(groups: Groups, sid: string, g: seq<string>)
    requires sid in groups && |g| == |groups[sid]| - 1
    requires forall s :: s in groups ==> Truthy(s) && groups[s] != []
    ensures var after := if g == [] then groups - {sid} else groups[sid := g];
            && Total(groups) >= 1
            && Total(after) == Total(groups) - 1
            && (forall s :: s in after ==> Truthy(s) && after[s] != [])
  {
    TotalRemoveKey(groups, sid);
    if g == [] {
      TotalDelete(groups, sid);
    } else {
      TotalUpdate(groups, sid, g);
    }
  }

  /** Leaving right after joining undoes the join on the groups and the
      count, provided the uid was not already in that server's group. */
  lemma LeaveUndoesAdd(ch: Channel, uid: string, sid: string)
    requires ChannelValid(ch) && ch.state == Inited
    requires Truthy(uid) && Truthy(sid) && uid !in GroupOf(ch.groups, sid)
    ensures Add(ch, uid, sid).1 && Leave(Add(ch, uid, sid).0, uid, sid).1
    ensures Leave(Add(ch, uid, sid).0, uid, sid).0.groups == ch.groups
    ensures Leave(Add(ch, uid, sid).0, uid, sid).0.userAmount == ch.userAmount
    ensures Leave(Add(ch, uid, sid).0, uid, sid).0.records == ch.records - {uid}
  {
    DeleteFromUndoesAdd(ch.groups, uid, sid);
    assert ch.records[uid := Member(sid, uid)] - {uid} == ch.records - {uid};
  }

  lemma {:induction false} RemoveFirstAppended(xs: seq<string>, x: string)
    requires x !in xs
    ensures RemoveFirst(xs + [x], x) == xs
  {
    if xs != [] {
      assert (xs + [x])[1..] == xs[1..] + [x];
      RemoveFirstAppended(xs[1..], x);
      assert xs == [xs[0]] + xs[1..];
    }
  }

  /** `Channel.getMembers()`: the groups concatenated, visiting the server
      ids in the order `order` the object enumerates them. */
  function GetMembers(ch: Channel, order: seq<string>): (r: seq<string>)
  {
    Concat(ch.groups, order)
  }

  function Concat(groups: Groups, order: seq<string>): (r: seq<string>)
    ensures forall x :: x in r ==> exists i :: 0 <= i < |order| && order[i] in groups && x in groups[order[i]]
  {
    if order == [] then []
    else
      var rest := Concat(groups, order[1..]);
      assert forall x :: x in rest ==> exists i :: 0 <= i < |order| && order[i] in groups && x in groups[order[i]] by {
        forall x | x in rest
          ensures exists i :: 0 <= i < |order| && order[i] in groups && x in groups[order[i]]
        {
          var j :| 0 <= j < |order[1..]| && order[1..][j] in groups && x in groups[order[1..][j]];
          assert order[j + 1] == order[1..][j];
        }
      }
      GroupOf(groups, order[0]) + rest
  }

  /** Visiting each server id once, `getMembers` lists every entry of every
      group: its length is the number of entries, which the channel's
      count tracks. */
  lemma {:induction false} GetMembersCountsEntries(ch: Channel, order: seq<string>)
    requires ChannelValid(ch) && IsEnumeration(order, ch.groups.Keys)
    ensures |GetMembers(ch, order)| == ch.userAmount
    ensures forall sid, uid :: sid in ch.groups && uid in ch.groups[sid] ==> uid in GetMembers(ch, order)
  {
    ConcatLength(ch.groups, order);
    forall sid, uid | sid in ch.groups && uid in ch.groups[sid]
      ensures uid in GetMembers(ch, order)
    {
      ConcatContains(ch.groups, order, sid, uid);
    }
  }

  lemma {:induction false} ConcatLength(groups: Groups, order: seq<string>)
    requires IsEnumeration(order, groups.Keys)
    ensures |Concat(groups, order)| == Total(groups)
    decreases |order|
  {
    if order == [] {
      EnumerationEmpty(groups.Keys);
      assert groups == map[];
    } else {
      var k := order[0];
      EnumerationTail(order, groups.Keys);
      var smaller := groups - {k};
      assert smaller.Keys == groups.Keys - {k};
      ConcatLength(smaller, order[1..]);
      ConcatAgrees(groups, smaller, order[1..]);
      TotalRemoveKey(groups, k);
    }
  }

  /** Concat only looks at the listed keys. */
  lemma {:induction false} ConcatAgrees(a: Groups, b: Groups, order: seq<string>)
    requires forall i :: 0 <= i < |order| ==> GroupOf(a, order[i]) == GroupOf(b, order[i])
    ensures Concat(a, order) == Concat(b, order)
    decreases |order|
  {
    if order != [] {
      ConcatAgrees(a, b, order[1..]);
    }
  }

  lemma {:induction false} ConcatContains(groups: Groups, order: seq<string>, sid: string, uid: string)
    requires sid in groups && uid in groups[sid] && sid in order
    ensures uid in Concat(groups, order)
    decreases |order|
  {
    if order[0] != sid {
      ConcatContains(groups, order[1..], sid, uid);
    }
  }

  /** `Channel.getMember(uid)`. */
  function GetMember(ch: Channel, uid: string): (r: Option<Member>)
    ensures r.Some? <==> uid in ch.records
    ensures r.Some? ==> r.value == ch.records[uid]
  {
    if uid in ch.records then Some(ch.records[uid]) else None
  }

  /** After a successful `add`, the uid's record names the server it joined
      through and `getMembers` includes it. */
  lemma AddThenGetMember(ch: Channel, uid: string, sid: string, order: seq<string>)
    requires ch.state == Inited && Truthy(sid)
    requires IsEnumeration(order, Add(ch, uid, sid).0.groups.Keys)
    ensures GetMember(Add(ch, uid, sid).0, uid) == Some(Member(sid, uid))
    ensures uid in GetMembers(Add(ch, uid, sid).0, order)
  {
    var joined := Add(ch, uid, sid).0;
    EnumeratedContains(order, joined.groups.Keys, sid);
    ConcatContains(joined.groups, order, sid, uid);
  }

  lemma EnumeratedContains(order: seq<string>, keys: set<string>, k: string)
    requires IsEnumeration(order, keys) && k in keys
    ensures k in order
  {
    assert k in (set i | 0 <= i < |order| :: order[i]);
    var i :| 0 <= i < |order| && order[i] == k;
  }

  // ---------------------------------------------------------------------
  // Registry of channels

  function NewRegistry(): Registry {
    Registry(map[], 0)
  }

  /** Every channel is registered under its own name with an instance
      number below the next one to hand out, and keeps its invariant. */
  ghost predicate RegistryValid(reg: Registry) {
    forall name :: name in reg.channels ==>
      && reg.channels[name].name == name
      && reg.channels[name].instance < reg.nextInstance
      && reg.channels[name].state == Inited
      && ChannelValid(reg.channels[name])
  }

  /** `createChannel(name)`: the registered channel when there is one
      (with every change recorded through `Store`), otherwise a new,
      empty channel registered under `name`. */
  function CreateChannel(reg: Registry, name: string): (r: (Registry, Channel))
    ensures name in reg.channels ==> r == (reg, reg.channels[name])
    ensures name !in reg.channels ==>
              && r.1.name == name && r.1.state == Inited && r.1.groups == map[] && r.1.userAmount == 0
              && r.1.instance == reg.nextInstance
              && r.0.channels == reg.channels[name := r.1]
    ensures RegistryValid(reg) ==> RegistryValid(r.0)
  {
    if name in reg.channels then (reg, reg.channels[name])
    else
      var c := NewChannel(name, reg.nextInstance);
      (Registry(reg.channels[name := c], reg.nextInstance + 1), c)
  }

  /** `getChannel(name, create)`: looks the name up, returning the
      channel as last recorded through `Store`; only with `create` does a
      missing name get a new channel. */
  function GetChannel(reg: Registry, name: string, create: bool): (r: (Registry, Option<Channel>))
    ensures name in reg.channels ==> r == (reg, Some(reg.channels[name]))
    ensures name !in reg.channels && !create ==> r == (reg, None)
    ensures name !in reg.channels && create ==>
              var (reg', c) := CreateChannel(reg, name);
              r == (reg', Some(c))
  {
    if name in reg.channels then (reg, Some(reg.channels[name]))
    else if !create then (reg, None)
    else
      var (reg', c) := CreateChannel(reg, name);
      (reg', Some(c))
  }

  /** `destroyChannel(name)`: forgets the name. */
  function DestroyChannel(reg: Registry, name: string): (r: Registry)
    ensures name !in r.channels
    ensures forall n :: n != name ==> (n in r.channels <==> n in reg.channels) &&
                                      (n in reg.channels ==> r.channels[n] == reg.channels[n])
    ensures r.nextInstance == reg.nextInstance
  {
    reg.(channels := reg.channels - {name})
  }

  /** `Channel.destroy()`: marks the channel destroyed and removes its name
      from the registry. */
  function Destroy(reg: Registry, ch: Channel): (r: (Registry, Channel))
    ensures r.1 == ch.(state := Destroyed)
    ensures r.0 == DestroyChannel(reg, ch.name)
  {
    (DestroyChannel(reg, ch.name), ch.(state := Destroyed))
  }

  /** A destroyed channel's name can be created again, and the result is a
      fresh, empty, running channel rather than the destroyed one. */
  lemma DestroyThenCreateIsFresh(reg: Registry, name: string)
    requires RegistryValid(reg) && name in reg.channels
    ensures var previous := reg.channels[name];
            var (reg1, gone) := Destroy(reg, previous);
            var (reg2, again) := CreateChannel(reg1, name);
            && gone.state == Destroyed
            && again.instance != previous.instance
            && again.state == Inited && again.userAmount == 0 && again.groups == map[]
            && RegistryValid(reg2)
  {
  }

  /** `createChannel` on a known name returns the very same channel, and
      `getChannel` without `create` never registers anything.  Changes made
      to the channel in between are covered by `AddSeenByLookup` and
      `LeaveSeenByLookup`. */
  lemma LookupsAgree(reg: Registry, name: string)
    ensures CreateChannel(reg, name).1 == CreateChannel(CreateChannel(reg, name).0, name).1
    ensures GetChannel(reg, name, false).0 == reg
    ensures GetChannel(CreateChannel(reg, name).0, name, false).1 == Some(CreateChannel(reg, name).1)
  {
  }

  /** Whether the registry still holds this very channel object under its
      name: it was neither destroyed nor replaced by a newer instance. */
  predicate Holds(reg: Registry, ch: Channel) {
    ch.name in reg.channels && reg.channels[ch.name].instance == ch.instance
  }

  /** The registry and the caller share one channel object, so a change
      `add` or `leave` makes to it is what later lookups return.  `Store`
      records such a change: a channel the registry holds replaces its
      entry, and one it no longer holds changes nothing. */
  function Store(reg: Registry, ch: Channel): (r: Registry)
    ensures Holds(reg, ch) ==> r.channels == reg.channels[ch.name := ch] && Holds(r, ch)
    ensures !Holds(reg, ch) ==> r == reg
    ensures r.nextInstance == reg.nextInstance && r.channels.Keys == reg.channels.Keys
    ensures RegistryValid(reg) && ChannelValid(ch) && ch.state == Inited ==> RegistryValid(r)
  {
    if Holds(reg, ch) then reg.(channels := reg.channels[ch.name := ch]) else reg
  }

  /** A user added to a registered channel is seen through a later
      `getChannel`: the lookup returns the changed channel, whose record
      and member list hold the user, and the registry stays valid. */
  lemma AddSeenByLookup(reg: Registry, name: string, uid: string, sid: string, order: seq<string>)
    requires RegistryValid(reg) && name in reg.channels && Truthy(sid)
    requires IsEnumeration(order, Add(reg.channels[name], uid, sid).0.groups.Keys)
    ensures var ch := GetChannel(reg, name, false).1.value;
            var (joined, added) := Add(ch, uid, sid);
            var reg1 := Store(reg, joined);
            && added
            && RegistryValid(reg1)
            && GetChannel(reg1, name, false).1 == Some(joined)
            && GetMember(GetChannel(reg1, name, false).1.value, uid) == Some(Member(sid, uid))
            && uid in GetMembers(GetChannel(reg1, name, false).1.value, order)
            && GetChannel(reg1, name, false).1.value.userAmount == ch.userAmount + 1
  {
    var ch := reg.channels[name];
    AddPreservesValid(ch, uid, sid);
    AddThenGetMember(ch, uid, sid, order);
  }

  /** A user that leaves a registered channel is gone from what a later
      `getChannel` returns, and the registry stays valid. */
  lemma LeaveSeenByLookup(reg: Registry, name: string, uid: string, sid: string)
    requires RegistryValid(reg) && name in reg.channels
    ensures var ch := GetChannel(reg, name, false).1.value;
            var (left, removed) := Leave(ch, uid, sid);
            var reg1 := Store(reg, left);
            && RegistryValid(reg1)
            && GetChannel(reg1, name, false).1 == Some(left)
            && (removed ==> GetMember(GetChannel(reg1, name, false).1.value, uid).None?
                            && GetChannel(reg1, name, false).1.value.userAmount == ch.userAmount - 1)
  {
    var ch := reg.channels[name];
    LeavePreservesValid(ch, uid, sid);
    if Leave(ch, uid, sid).1 {
      TotalRemoveKey(ch.groups, sid);
    }
  }

  /** A destroyed channel, or one whose name now holds a newer instance,
      no longer reaches the registry. */
  lemma DestroyedChannelIsDetached(reg: Registry, ch: Channel)
    requires RegistryValid(reg) && Holds(reg, ch)
    ensures var (reg1, gone) := Destroy(reg, ch);
            && !Holds(reg1, gone)
            && Store(reg1, gone) == reg1
            && !Holds(CreateChannel(reg1, ch.name).0, gone)
  {
  }

  // ---------------------------------------------------------------------
  // Push by uids: grouping

  datatype Receiver = Receiver(uid: string, sid: string)

  /** Reference definition: the uids of the receivers on server `sid`, in
      list order. */
  function UidsOn(receivers: seq<Receiver>, sid: string): (r: seq<string>)
    ensures |r| <= |receivers|
  {
    if receivers == [] then []
    else (if receivers[0].sid == sid then [receivers[0].uid] else []) + UidsOn(receivers[1..], sid)
  }

  /** The loop of `pushMessageByUids` calling `add(record.uid, record.sid,
      groups)` for each receiver in turn. */
  function GroupReceivers(groups: Groups, receivers: seq<Receiver>): (r: Groups)
    decreases |receivers|
  {
    if receivers == [] then groups
    else
      var head := receivers[0];
      GroupReceivers(AddToGroups(groups, head.uid, head.sid).0, receivers[1..])
  }

  /** Grouping appends, to each truthy server's group, the uids of the
      receivers on that server in list order, and creates the groups it
      needs; falsy server ids are skipped. */
  lemma GroupReceiversAppends(groups: Groups, receivers: seq<Receiver>, sid: string)
    ensures var r := GroupReceivers(groups, receivers);
            && (sid in r <==> sid in groups || (Truthy(sid) && UidsOn(receivers, sid) != []))
            && GroupOf(r, sid) == GroupOf(groups, sid) + (if Truthy(sid) then UidsOn(receivers, sid) else [])
  {
    GroupReceiversKeys(groups, receivers, sid);
    if Truthy(sid) {
      GroupReceiversContent(groups, receivers, sid);
    } else {
      GroupReceiversSkip(groups, receivers, sid);
      assert GroupOf(groups, sid) + [] == GroupOf(groups, sid);
    }
  }

  lemma {:induction false} GroupReceiversKeys(groups: Groups, receivers: seq<Receiver>, sid: string)
    ensures sid in GroupReceivers(groups, receivers) <==> sid in groups || (Truthy(sid) && UidsOn(receivers, sid) != [])
    decreases |receivers|
  {
    if receivers != [] {
      var head := receivers[0];
      var next := AddToGroups(groups, head.uid, head.sid).0;
      GroupReceiversKeys(next, receivers[1..], sid);
      AddOneGroup(groups, head, sid);
      var mine := if head.sid == sid then [head.uid] else [];
      assert UidsOn(receivers, sid) == mine + UidsOn(receivers[1..], sid);
    }
  }

  lemma {:induction false} GroupReceiversContent(groups: Groups, receivers: seq<Receiver>, sid: string)
    requires Truthy(sid)
    ensures GroupOf(GroupReceivers(groups, receivers), sid) == GroupOf(groups, sid) + UidsOn(receivers, sid)
    decreases |receivers|
  {
    if receivers == [] {
      assert GroupOf(groups, sid) + [] == GroupOf(groups, sid);
    } else {
      var head := receivers[0];
      var next := AddToGroups(groups, head.uid, head.sid).0;
      GroupReceiversContent(next, receivers[1..], sid);
      AddOneGroup(groups, head, sid);
      var mine := if head.sid == sid then [head.uid] else [];
      var later := UidsOn(receivers[1..], sid);
      assert UidsOn(receivers, sid) == mine + later;
      Associate(GroupOf(groups, sid), mine, later);
    }
  }

  lemma {:induction false} GroupReceiversSkip(groups: Groups, receivers: seq<Receiver>, sid: string)
    requires !Truthy(sid)
    ensures GroupOf(GroupReceivers(groups, receivers), sid) == GroupOf(groups, sid)
    decreases |receivers|
  {
    if receivers != [] {
      var head := receivers[0];
      var next := AddToGroups(groups, head.uid, head.sid).0;
      GroupReceiversSkip(next, receivers[1..], sid);
      AddOneGroup(groups, head, sid);
    }
  }

  lemma Associate(a: seq<string>, b: seq<string>, c: seq<string>)
    ensures (a + b) + c == a + (b + c)
  {
  }

  /** What adding one receiver does to the group of `sid`. */
  lemma AddOneGroup(groups: Groups, head: Receiver, sid: string)
    ensures var next := AddToGroups(groups, head.uid, head.sid).0;
            && (sid in next <==> sid in groups || (Truthy(sid) && head.sid == sid))
            && GroupOf(next, sid) == GroupOf(groups, sid) + (if Truthy(sid) && head.sid == sid then [head.uid] else [])
  {
    var next := AddToGroups(groups, head.uid, head.sid).0;
    if !(Truthy(sid) && head.sid == sid) {
      assert GroupOf(groups, sid) + [] == GroupOf(groups, sid);
    }
  }

  /** The groups hold exactly the receivers with a truthy server id: one
      group per such server, listing its uids in receiver order. */
  lemma GroupsPartitionReceivers(receivers: seq<Receiver>)
    ensures var groups := GroupReceivers(map[], receivers);
            && (forall sid :: sid in groups ==> Truthy(sid) && groups[sid] != [])
            && (forall i :: 0 <= i < |receivers| && Truthy(receivers[i].sid) ==>
                  receivers[i].sid in groups && receivers[i].uid in groups[receivers[i].sid])
            && (forall sid :: sid in groups ==> groups[sid] == UidsOn(receivers, sid))
  {
    var groups := GroupReceivers(map[], receivers);
    forall sid | sid in groups ensures Truthy(sid) && groups[sid] != [] && groups[sid] == UidsOn(receivers, sid) {
      GroupFromNothing(receivers, sid);
    }
    forall i | 0 <= i < |receivers| && Truthy(receivers[i].sid)
      ensures receivers[i].sid in groups && receivers[i].uid in groups[receivers[i].sid]
    {
      UidsOnContains(receivers, i);
      GroupFromNothing(receivers, receivers[i].sid);
    }
  }

  /** The group of one server after grouping from no groups at all. */
  lemma GroupFromNothing(receivers: seq<Receiver>, sid: string)
    ensures var groups := GroupReceivers(map[], receivers);
            && (sid in groups <==> Truthy(sid) && UidsOn(receivers, sid) != [])
            && (sid in groups ==> groups[sid] == UidsOn(receivers, sid))
  {
    GroupReceiversKeys(map[], receivers, sid);
    if Truthy(sid) {
      GroupReceiversContent(map[], receivers, sid);
      assert GroupOf(map[], sid) + UidsOn(receivers, sid) == UidsOn(receivers, sid);
    }
  }

  lemma {:induction false} UidsOnContains(receivers: seq<Receiver>, i: nat)
    requires i < |receivers|
    ensures receivers[i].uid in UidsOn(receivers, receivers[i].sid)
  {
    if i > 0 {
      UidsOnContains(receivers[1..], i - 1);
    }
  }

  // ---------------------------------------------------------------------
  // sendMessageByGroup: one dispatch per server

  /** The `for (const sid in groups)` loop of `sendMessageByGroup`, keys
      visited in the order `order`: a non-empty group is pushed locally
      when it belongs to the current server and by rpc otherwise; an empty
      group gets a deferred success callback. */
  function PlanGroups(serverId: string, groups: Groups, order: seq<string>): (r: seq<Dispatch>)
    ensures |r| <= |order|
    ensures forall d :: d in r ==> d.PushLocal? || d.PushRemote? || d.PushEmpty?
  {
    if order == [] then []
    else
      var sid := order[0];
      var here :=
        if sid !in groups then []
        else if groups[sid] == [] then [PushEmpty(sid)]
        else if sid == serverId then [PushLocal(sid, groups[sid])]
        else [PushRemote(sid, groups[sid])];
      here + PlanGroups(serverId, groups, order[1..])
  }

  /** Visiting the keys once each, the plan makes exactly one dispatch per
      group, in visiting order, carrying that group's uids; it is local iff
      the group's server is the current one. */
  lemma {:induction false} OneDispatchPerGroup(serverId: string, groups: Groups, order: seq<string>)
    requires forall i :: 0 <= i < |order| ==> order[i] in groups
    requires forall sid :: sid in groups ==> groups[sid] != []
    ensures var plan := PlanGroups(serverId, groups, order);
            && |plan| == |order|
            && (forall i :: 0 <= i < |order| ==>
                  && (plan[i].PushLocal? || plan[i].PushRemote?)
                  && plan[i].sid == order[i]
                  && plan[i].uids == groups[order[i]]
                  && (plan[i].PushLocal? <==> order[i] == serverId))
    decreases |order|
  {
    if order != [] {
      OneDispatchPerGroup(serverId, groups, order[1..]);
    }
  }

  /** `sendMessageByGroup`: no groups means an immediate callback without
      error; otherwise the plan, and a latch waiting for one reply per
      group (`utils.size(groups)`; every value is an array). */
  function SendMessageByGroup(serverId: string, groups: Groups, order: seq<string>): (r: Send)
    ensures |groups| == 0 ==> r == Immediate(PushResult(None, []))
    ensures |groups| > 0 ==> r == Dispatched(PlanGroups(serverId, groups, order), |groups|, AllPushesFailed, true)
  {
    if |groups| == 0 then Immediate(PushResult(None, []))
    else Dispatched(PlanGroups(serverId, groups, order), |groups|, AllPushesFailed, true)
  }

  /** `pushMessageByUids(route, msg, uids, opts, cb)`, `order` being the
      order in which the built groups are visited. */
  function PushMessageByUids(serverId: string, receivers: seq<Receiver>, order: seq<string>): (r: Send)
    ensures receivers == [] ==> r == Immediate(PushResult(Some(EmptyReceiverList), []))
    ensures receivers != [] ==> r == SendMessageByGroup(serverId, GroupReceivers(map[], receivers), order)
  {
    if receivers == [] then Immediate(PushResult(Some(EmptyReceiverList), []))
    else SendMessageByGroup(serverId, GroupReceivers(map[], receivers), order)
  }

  /** `Channel.pushMessage`: a running channel sends to its groups.  A
      destroyed one neither dispatches nor calls back, because the error
      is handed to `invokeCallback` in place of the callback. */
  function PushMessage(ch: Channel, serverId: string, order: seq<string>): (r: Send)
    ensures ch.state == Destroyed ==> r == Silent
    ensures ch.state == Inited ==> r == SendMessageByGroup(serverId, ch.groups, order)
  {
    if ch.state != Inited then Silent
    else SendMessageByGroup(serverId, ch.groups, order)
  }

  /** A receiver list with at least one truthy server id is pushed with
      one dispatch per server, carrying that server's uids in list order,
      and the latch waits for exactly that many replies; a list whose
      server ids are all falsy calls back at once without error. */
  lemma PushByUidsDispatchesPerServer(serverId: string, receivers: seq<Receiver>, order: seq<string>)
    requires receivers != []
    requires IsEnumeration(order, GroupReceivers(map[], receivers).Keys)
    ensures (forall i :: 0 <= i < |receivers| ==> !Truthy(receivers[i].sid)) ==>
              PushMessageByUids(serverId, receivers, order) == Immediate(PushResult(None, []))
    ensures (exists i :: 0 <= i < |receivers| && Truthy(receivers[i].sid)) ==>
              var send := PushMessageByUids(serverId, receivers, order);
              && send.Dispatched?
              && send.count == |send.plan| == |order|
              && (forall j :: 0 <= j < |order| ==>
                    && (send.plan[j].PushLocal? <==> order[j] == serverId)
                    && (send.plan[j].PushLocal? || send.plan[j].PushRemote?)
                    && send.plan[j].uids == UidsOn(receivers, order[j]))
  {
    var groups := GroupReceivers(map[], receivers);
    GroupsPartitionReceivers(receivers);
    if exists i :: 0 <= i < |receivers| && Truthy(receivers[i].sid) {
      var i :| 0 <= i < |receivers| && Truthy(receivers[i].sid);
      assert receivers[i].sid in groups;
      EnumerationSize(order, groups.Keys);
      assert |groups| > 0;
      forall j | 0 <= j < |order| ensures order[j] in groups {
        EnumeratedInKeys(order, groups.Keys, j);
      }
      OneDispatchPerGroup(serverId, groups, order);
      assert PushMessageByUids(serverId, receivers, order) ==
             Dispatched(PlanGroups(serverId, groups, order), |groups|, AllPushesFailed, true);
    } else {
      forall sid | sid in groups ensures false {
        GroupReceiversAppends(map[], receivers, sid);
        UidsOnNonEmpty(receivers, sid);
      }
      assert groups == map[];
    }
  }

  lemma {:induction false} UidsOnNonEmpty(receivers: seq<Receiver>, sid: string)
    requires UidsOn(receivers, sid) != []
    ensures exists i :: 0 <= i < |receivers| && receivers[i].sid == sid
  {
    if receivers[0].sid != sid {
      UidsOnNonEmpty(receivers[1..], sid);
      var i :| 0 <= i < |receivers[1..]| && receivers[1..][i].sid == sid;
      assert receivers[i + 1].sid == sid;
    }
  }

  /** Pushing to a running channel calls back exactly once when every
      server has replied, and not before. */
  lemma ChannelPushCallsBackOnce(ch: Channel, serverId: string, order: seq<string>, replies: seq<Reply>)
    requires ChannelValid(ch) && ch.state == Inited
    requires IsEnumeration(order, ch.groups.Keys)
    ensures |replies| >= |order| ==> |Complete(PushMessage(ch, serverId, order), replies)| == 1
    ensures |replies| < |order| ==> Complete(PushMessage(ch, serverId, order), replies) == []
  {
    EnumerationSize(order, ch.groups.Keys);
    if |ch.groups| > 0 {
      CallsBackOnce(PlanGroups(serverId, ch.groups, order), |ch.groups|, AllPushesFailed, true, replies);
    }
  }

  // ---------------------------------------------------------------------
  // broadcast

  /** `broadcast(serverType, route, msg, opts, cb)` given the ids of the
      frontend servers of that type: no server means an immediate
      callback without error; otherwise one call per server, local for
      the current server. */
  function Broadcast(serverId: string, servers: seq<string>): (r: Send)
    ensures servers == [] ==> r == Immediate(PushResult(None, []))
    ensures servers != [] ==>
              && r.Dispatched? && r.count == |servers| && r.allFailed == BroadcastFailed && !r.keepsFails
              && |r.plan| == |servers|
              && (forall i :: 0 <= i < |servers| ==>
                    r.plan[i] == if servers[i] == serverId then BroadcastLocal
                                 else BroadcastRemote(servers[i]))
  {
    if servers == [] then Immediate(PushResult(None, []))
    else Dispatched(PlanBroadcast(serverId, servers), |servers|, BroadcastFailed, false)
  }

  function PlanBroadcast(serverId: string, servers: seq<string>): (r: seq<Dispatch>)
    ensures |r| == |servers|
    ensures forall i :: 0 <= i < |servers| ==>
              r[i] == if servers[i] == serverId then BroadcastLocal else BroadcastRemote(servers[i])
  {
    if servers == [] then []
    else
      [if servers[0] == serverId then BroadcastLocal else BroadcastRemote(servers[0])]
      + PlanBroadcast(serverId, servers[1..])
  }

  // ---------------------------------------------------------------------
  // Collecting the replies

  /** The state shared by the reply callbacks: the latch, `successFlag`,
      `failIds`, and the callback invocations made so far. */
  datatype Collector = Collector(latch: Latch, success: bool, failIds: seq<string>, calls: seq<PushResult>)

  function Finish(success: bool, failIds: seq<string>, allFailed: PushError): PushResult {
    if success then PushResult(None, failIds) else PushResult(Some(allFailed), [])
  }

  /** One reply: an error only counts down; a success sets the flag,
      appends its fails, and counts down.  Reaching zero calls back. */
  function Receive(c: Collector, reply: Reply, allFailed: PushError): (r: Collector)
    ensures r.success == (c.success || !reply.failed)
    ensures r.failIds == c.failIds + (if reply.failed then [] else reply.fails)
  {
    var success := c.success || !reply.failed;
    var failIds := c.failIds + (if reply.failed then [] else reply.fails);
    var (latch, fire) := Done(c.latch);
    Collector(latch, success, failIds, c.calls + (if fire then [Finish(success, failIds, allFailed)] else []))
  }

  function ReceiveAll(c: Collector, replies: seq<Reply>, allFailed: PushError): Collector
    decreases |replies|
  {
    if replies == [] then c else ReceiveAll(Receive(c, replies[0], allFailed), replies[1..], allFailed)
  }

  /** Reference definitions over the replies that arrived. */
  predicate AnySuccess(replies: seq<Reply>) {
    exists i :: 0 <= i < |replies| && !replies[i].failed
  }

  function SuccessFails(replies: seq<Reply>): seq<string> {
    if replies == [] then []
    else (if replies[0].failed then [] else replies[0].fails) + SuccessFails(replies[1..])
  }

  /** The callback invocations a dispatch produces, given its replies in
      arrival order. */
  function Complete(send: Send, replies: seq<Reply>): (r: seq<PushResult>)
  {
    match send
    case Immediate(result) => [result]
    case Silent => []
    case Dispatched(_, count, allFailed, keepsFails) =>
      ReceiveAll(Collector(Create(count), false, [], []), Seen(keepsFails, replies), allFailed).calls
  }

  /** The replies as the reply callback sees them. */
  function Seen(keepsFails: bool, replies: seq<Reply>): (r: seq<Reply>)
    ensures |r| == |replies|
    ensures forall i :: 0 <= i < |replies| ==>
              r[i] == if keepsFails then replies[i] else Reply(replies[i].failed, [])
  {
    if keepsFails then replies else ErrorsOnly(replies)
  }

  /** The latch calls back exactly once, when the `count`-th reply arrives,
      and never before.  The error is the all-failed one iff none of those
      replies succeeded; otherwise it is none, with the fail lists the
      callback sees of the successful replies concatenated in arrival
      order. */
  lemma CallsBackOnce(plan: seq<Dispatch>, count: nat, allFailed: PushError, keepsFails: bool, replies: seq<Reply>)
    requires count > 0
    ensures |replies| < count ==> Complete(Dispatched(plan, count, allFailed, keepsFails), replies) == []
    ensures |replies| >= count ==>
              var seen := Seen(keepsFails, replies)[..count];
              Complete(Dispatched(plan, count, allFailed, keepsFails), replies) ==
                [if AnySuccess(seen) then PushResult(None, SuccessFails(seen))
                 else PushResult(Some(allFailed), [])]
  {
    var seen := Seen(keepsFails, replies);
    Collect(Collector(Create(count), false, [], []), seen, allFailed);
    if |replies| >= count {
      assert [] + SuccessFails(seen[..count]) == SuccessFails(seen[..count]);
    }
  }

  lemma {:induction false} Collect(c: Collector, replies: seq<Reply>, allFailed: PushError)
    requires c.latch.remaining > 0
    ensures var m := c.latch.remaining;
            var r := ReceiveAll(c, replies, allFailed);
            && (|replies| < m ==> r.calls == c.calls)
            && (|replies| >= m ==>
                  r.calls == c.calls + [Finish(c.success || AnySuccess(replies[..m]),
                                               c.failIds + SuccessFails(replies[..m]), allFailed)])
    decreases |replies|
  {
    var m := c.latch.remaining;
    if replies != [] {
      var next := Receive(c, replies[0], allFailed);
      var rest := replies[1..];
      assert ReceiveAll(c, replies, allFailed) == ReceiveAll(next, rest, allFailed);
      if m == 1 {
        assert next.calls == c.calls + [Finish(next.success, next.failIds, allFailed)];
        CollectAfterFiring(next, rest, allFailed);
        var prefix := replies[..1];
        assert prefix == [replies[0]];
        assert AnySuccess(prefix) <==> !replies[0].failed;
        assert SuccessFails(prefix) == (if replies[0].failed then [] else replies[0].fails);
      } else {
        assert next.calls == c.calls && next.latch.remaining == m - 1;
        Collect(next, rest, allFailed);
        if |replies| >= m {
          var prefix := replies[..m];
          assert rest[..m - 1] == prefix[1..];
          assert prefix[0] == replies[0];
          PrefixSplit(prefix);
          assert c.failIds + SuccessFails(prefix) == next.failIds + SuccessFails(rest[..m - 1]);
        }
      }
    }
  }

  lemma PrefixSplit(prefix: seq<Reply>)
    requires prefix != []
    ensures AnySuccess(prefix) <==> !prefix[0].failed || AnySuccess(prefix[1..])
    ensures SuccessFails(prefix) == (if prefix[0].failed then [] else prefix[0].fails) + SuccessFails(prefix[1..])
  {
    if AnySuccess(prefix[1..]) {
      var i :| 0 <= i < |prefix[1..]| && !prefix[1..][i].failed;
      assert prefix[i + 1] == prefix[1..][i];
    }
    if AnySuccess(prefix) && prefix[0].failed {
      var i :| 0 <= i < |prefix| && !prefix[i].failed;
      assert i > 0 && prefix[1..][i - 1] == prefix[i];
    }
  }

  /** Once the latch has fired, further replies call nothing back. */
  lemma {:induction false} CollectAfterFiring(c: Collector, replies: seq<Reply>, allFailed: PushError)
    requires c.latch.remaining == 0
    ensures ReceiveAll(c, replies, allFailed).calls == c.calls
    decreases |replies|
  {
    if replies != [] {
      CollectAfterFiring(Receive(c, replies[0], allFailed), replies[1..], allFailed);
    }
  }

  /** The replies with their fail lists dropped. */
  function ErrorsOnly(replies: seq<Reply>): (r: seq<Reply>)
    ensures |r| == |replies|
    ensures forall i :: 0 <= i < |replies| ==> r[i] == Reply(replies[i].failed, [])
  {
    if replies == [] then [] else [Reply(replies[0].failed, [])] + ErrorsOnly(replies[1..])
  }

  /** Once every server has answered, a broadcast calls back exactly once,
      with "broadcast fails" iff every call failed, and never with fail
      ids, whatever the replies carry. */
  lemma BroadcastFailsIffAllFail(serverId: string, servers: seq<string>, replies: seq<Reply>)
    requires servers != [] && |replies| >= |servers|
    ensures Complete(Broadcast(serverId, servers), replies) ==
              [PushResult(if forall i :: 0 <= i < |servers| ==> replies[i].failed then Some(BroadcastFailed) else None,
                          [])]
  {
    var n := |servers|;
    CallsBackOnce(PlanBroadcast(serverId, servers), n, BroadcastFailed, false, replies);
    SucceedsUnlessAllFail(replies, n);
    NoFailLists(ErrorsOnly(replies)[..n]);
  }

  lemma SucceedsUnlessAllFail(replies: seq<Reply>, n: nat)
    requires n <= |replies|
    ensures AnySuccess(ErrorsOnly(replies)[..n]) <==> !(forall i :: 0 <= i < n ==> replies[i].failed)
    ensures forall i :: 0 <= i < n ==> ErrorsOnly(replies)[..n][i].fails == []
  {
    var seen := ErrorsOnly(replies)[..n];
    forall i | 0 <= i < n ensures seen[i] == Reply(replies[i].failed, []) {
      assert seen[i] == ErrorsOnly(replies)[i];
    }
    if !(forall i :: 0 <= i < n ==> replies[i].failed) {
      var i :| 0 <= i < n && !replies[i].failed;
      assert !seen[i].failed;
    } else {
      assert forall i :: 0 <= i < |seen| ==> seen[i].failed;
    }
  }

  lemma {:induction false} NoFailLists(replies: seq<Reply>)
    requires forall i :: 0 <= i < |replies| ==> replies[i].fails == []
    ensures SuccessFails(replies) == []
  {
    if replies != [] {
      NoFailLists(replies[1..]);
    }
  }
}
