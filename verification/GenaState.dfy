// Event delivery of a device (src/gena/gena_server.c, src/genlib/service_table/service_table.c)
// as a state machine: each action is what one thread does between taking and releasing the
// handle lock. Transmission happens between Pick and Finish, outside the lock.
module GenaState {
  import opened EventKeys

  type Sid = string
  type Body = string

  datatype Sub = Sub(sid: Sid, eventKey: Key, toSendEventKey: Key, expireTime: int, active: bool)

  // A notify_thread_struct; cell is the address of the reference count it shares with the other
  // jobs of its notification.
  datatype Job = Job(sid: Sid, eventKey: Key, body: Body, cell: nat)

  // What genaNotify is given to transmit.
  datatype Notice = Notice(sid: Sid, seqKey: Key, body: Body)

  // refs holds the reference counts that are allocated. used, initial and sent are history: the
  // SIDs ever given out, the body of each accepted subscription's first event, all transmissions.
  datatype State = State(valid: bool, active: bool, max: int, subs: seq<Sub>, total: int,
                         pool: seq<Job>, transit: seq<Job>, refs: map<nat, int>,
                         used: set<Sid>, initial: map<Sid, Body>, sent: seq<Notice>)

  predicate Expired(sub: Sub, now: int) {
    sub.expireTime != 0 && sub.expireTime < now
  }

  // The index of the first subscription with this SID, or the length of the list.
  function IndexOf(subs: seq<Sub>, sid: Sid): (i: nat)
    ensures i <= |subs| && (i < |subs| ==> subs[i].sid == sid)
    ensures forall j :: 0 <= j < i ==> subs[j].sid != sid
  {
    if subs == [] || subs[0].sid == sid then 0 else 1 + IndexOf(subs[1..], sid)
  }

  // GetSubscriptionSID: an expired subscription is unlinked and not found.
  predicate Finds(subs: seq<Sub>, sid: Sid, now: int) {
    IndexOf(subs, sid) < |subs| && !Expired(subs[IndexOf(subs, sid)], now)
  }

  function Lookup(subs: seq<Sub>, sid: Sid, now: int): seq<Sub> {
    var i := IndexOf(subs, sid);
    if i < |subs| && Expired(subs[i], now) then subs[..i] + subs[i + 1..] else subs
  }

  // RemoveSubscriptionSID: the first subscription with the SID is unlinked.
  function Removed(subs: seq<Sub>, sid: Sid): (r: seq<Sub>)
    ensures |r| <= |subs|
  {
    var i := IndexOf(subs, sid);
    if i < |subs| then subs[..i] + subs[i + 1..] else subs
  }

  // A shorter list, with the counter adjusted.
  function Shrunk(s: State, subs: seq<Sub>): State {
    s.(subs := subs, total := s.total - (|s.subs| - |subs|))
  }

  // free_notify_struct: the count is decremented, and freed at zero.
  function Release(refs: map<nat, int>, cell: nat): map<nat, int> {
    if cell !in refs then refs
    else if refs[cell] == 1 then refs - {cell} else refs[cell := refs[cell] - 1]
  }

  function Drop(s: State, j: Job): State {
    s.(refs := Release(s.refs, j.cell))
  }

  // GetFirstSubscription and GetNextSubscription in a loop: expired subscriptions are unlinked,
  // inactive ones passed, and each other one gets a job with its next event key. The clock is
  // read anew after each.
  function Traverse(subs: seq<Sub>, clock: seq<int>, body: Body, cell: nat): (r: (seq<Sub>, seq<Job>))
    ensures |r.0| <= |subs|
    decreases |subs|
  {
    if subs == [] then ([], [])
    else
      var now := if clock == [] then 0 else clock[0];
      var sub, rest := subs[0], subs[1..];
      if Expired(sub, now) then Traverse(rest, clock, body, cell)
      else if !sub.active then
        var (kept, jobs) := Traverse(rest, clock, body, cell);
        ([sub] + kept, jobs)
      else
        var (kept, jobs) := Traverse(rest, if clock == [] then [] else clock[1..], body, cell);
        ([sub.(eventKey := NextKey(sub.eventKey))] + kept, [Job(sub.sid, sub.eventKey, body, cell)] + jobs)
  }

  function RemoveAt<T>(q: seq<T>, i: nat): seq<T>
    requires i < |q|
  {
    q[..i] + q[i + 1..]
  }

  // A critical section. Subscribe, Renew and Unsubscribe are the requests of control points,
  // Accept and NotifyAll calls of the device, Pick and Finish the two ends of genaNotifyThread.
  datatype Action =
    | Subscribe(sid: Sid, expireTime: int, responds: bool)
    | Accept(sid: Sid, now: int, body: Body, cell: nat)
    | NotifyAll(clock: seq<int>, body: Body, cell: nat)
    | Pick(i: nat, now: int)
    | Finish(i: nat, now: int, remove: bool)
    | Unsubscribe(sid: Sid, now: int)
    | Renew(sid: Sid, now: int, expireTime: int, responds: bool)
    | Unregister

  // genaSubscriptionRequest after the headers are checked.
  function OnSubscribe(s: State, sid: Sid, expireTime: int, responds: bool): State {
    if !s.valid || !s.active || (s.max != -1 && s.total >= s.max) || !responds then s
    else s.(subs := [Sub(sid, 0, 0, expireTime, false)] + s.subs, total := s.total + 1, used := s.used + {sid})
  }

  // genaInitNotify.
  function OnAccept(s: State, sid: Sid, now: int, body: Body, cell: nat): State {
    if !s.valid then s
    else
      var t := Shrunk(s, Lookup(s.subs, sid, now));
      if !Finds(s.subs, sid, now) then t
      else
        var i := IndexOf(s.subs, sid);
        var sub := s.subs[i];
        if sub.active then t
        else t.(subs := t.subs[i := sub.(active := true, eventKey := NextKey(sub.eventKey))],
                pool := t.pool + [Job(sid, sub.eventKey, body, cell)],
                refs := t.refs[cell := 1], initial := t.initial[sid := body])
  }

  function OnNotifyAll(s: State, clock: seq<int>, body: Body, cell: nat): State {
    if !s.valid then s
    else
      var (subs, jobs) := Traverse(s.subs, clock, body, cell);
      var t := Shrunk(s, subs);
      t.(pool := t.pool + jobs, refs := if jobs == [] then t.refs else t.refs[cell := |jobs|])
  }

  // The first half of genaNotifyThread: the job is dropped, put back, or transmitted.
  function OnPick(s: State, i: nat, now: int): State
    requires i < |s.pool|
  {
    var j := s.pool[i];
    var t := s.(pool := RemoveAt(s.pool, i));
    if !s.valid || !s.active then Drop(t, j)
    else
      var u := Shrunk(t, Lookup(t.subs, j.sid, now));
      if !Finds(t.subs, j.sid, now) then Drop(u, j)
      else
        var sub := t.subs[IndexOf(t.subs, j.sid)];
        if j.eventKey != sub.toSendEventKey then u.(pool := u.pool + [j])
        else u.(transit := u.transit + [j], sent := u.sent + [Notice(j.sid, sub.toSendEventKey, j.body)])
  }

  // The second half: remove is the answer that the subscriber does not know its SID.
  function OnFinish(s: State, i: nat, now: int, remove: bool): State
    requires i < |s.transit|
  {
    var j := s.transit[i];
    var t := s.(transit := RemoveAt(s.transit, i));
    if !s.valid || !s.active then Drop(t, j)
    else
      var u := Shrunk(t, Lookup(t.subs, j.sid, now));
      if !Finds(t.subs, j.sid, now) then Drop(u, j)
      else
        var k := IndexOf(t.subs, j.sid);
        var v := u.(subs := t.subs[k := t.subs[k].(toSendEventKey := NextKey(t.subs[k].toSendEventKey))]);
        Drop(if remove then Shrunk(v, Removed(v.subs, j.sid)) else v, j)
  }

  function OnUnsubscribe(s: State, sid: Sid, now: int): State {
    if !s.valid || !s.active then s
    else
      var t := Shrunk(s, Lookup(s.subs, sid, now));
      if Finds(s.subs, sid, now) then Shrunk(t, Removed(t.subs, sid)) else t
  }

  function OnRenew(s: State, sid: Sid, now: int, expireTime: int, responds: bool): State {
    if !s.valid || !s.active then s
    else
      var t := Shrunk(s, Lookup(s.subs, sid, now));
      if !Finds(s.subs, sid, now) then t
      else if (s.max != -1 && s.total > s.max) || !responds then Shrunk(t, Removed(t.subs, sid))
      else
        var i := IndexOf(s.subs, sid);
        t.(subs := t.subs[i := t.subs[i].(expireTime := expireTime)])
  }

  function Next(s: State, a: Action): State
    requires Possible(s, a)
  {
    match a
    case Subscribe(sid, expireTime, responds) => OnSubscribe(s, sid, expireTime, responds)
    case Accept(sid, now, body, cell) => OnAccept(s, sid, now, body, cell)
    case NotifyAll(clock, body, cell) => OnNotifyAll(s, clock, body, cell)
    case Pick(i, now) => OnPick(s, i, now)
    case Finish(i, now, remove) => OnFinish(s, i, now, remove)
    case Unsubscribe(sid, now) => OnUnsubscribe(s, sid, now)
    case Renew(sid, now, expireTime, responds) => OnRenew(s, sid, now, expireTime, responds)
    case Unregister => s.(valid := false, subs := [], total := 0)
  }

  // SIDs are fresh, malloc returns an address that is not in use, a job is picked from the pool
  // and finished by the thread that transmitted it.
  predicate Possible(s: State, a: Action) {
    match a
    case Subscribe(sid, _, _) => sid !in s.used
    case Accept(_, _, _, cell) => cell !in s.refs
    case NotifyAll(_, _, cell) => cell !in s.refs
    case Pick(i, _) => i < |s.pool|
    case Finish(i, _, _) => i < |s.transit|
    case _ => true
  }

  // A registered device with no subscriptions.
  function Initial(max: int): State {
    State(true, true, max, [], 0, [], [], map[], {}, map[], [])
  }
}
