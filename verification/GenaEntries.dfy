// What each action makes of a subscription, seen by its SID alone (src/gena/gena_server.c,
// src/genlib/service_table/service_table.c): whether it is listed, and with what keys, expiry and state.
module GenaEntries {
  import opened Bytes
  import opened EventKeys
  import opened GenaState
  import opened GenaInvariant
  import opened GenaSteps
  import opened GenaRuns

  function EntryOf(subs: seq<Sub>, sid: Sid): (r: Option<Sub>)
    ensures r.Some? ==> r.value in subs && r.value.sid == sid
    ensures r.None? ==> forall sub :: sub in subs ==> sub.sid != sid
  {
    if subs == [] then None else if subs[0].sid == sid then Some(subs[0]) else EntryOf(subs[1..], sid)
  }

  // A subscription that is not for ever is over when its time has passed.
  predicate Lapsed(sub: Sub, now: int) {
    sub.expireTime != 0 && now > sub.expireTime
  }

  // By which reading of the clock a traversal comes to a subscription.
  function ReadingOf(subs: seq<Sub>, clock: seq<int>, sid: Sid): int {
    if subs == [] then 0
    else
      var now := Readings(subs, clock)[0];
      if subs[0].sid == sid then now
      else
        var passed := Lapsed(subs[0], now) || !subs[0].active;
        ReadingOf(subs[1..], if passed || clock == [] then clock else clock[1..], sid)
  }

  // Only a running device with room for one more takes a subscription, and only when it can answer.
  predicate Takes(s: State, responds: bool) {
    s.valid && s.active && (s.max == -1 || s.total < s.max) && responds
  }

  // The subscription with a SID after an action.
  function EntryAfter(s: State, a: Action, sid: Sid): Option<Sub>
    requires Possible(s, a)
  {
    var e := EntryOf(s.subs, sid);
    match a
    case Subscribe(made, expireTime, responds) =>
      if sid == made && Takes(s, responds) then Some(Sub(sid, 0, 0, expireTime, false)) else e
    case Accept(of, now, _, _) =>
      if sid != of || !s.valid || e.None? then e
      else if Lapsed(e.value, now) then None
      else if e.value.active then e
      else Some(e.value.(active := true, eventKey := NextKey(e.value.eventKey)))
    case NotifyAll(clock, _, _) =>
      if !s.valid || e.None? then e
      else if Lapsed(e.value, ReadingOf(s.subs, clock, sid)) then None
      else if !e.value.active then e
      else Some(e.value.(eventKey := NextKey(e.value.eventKey)))
    case Pick(i, now) =>
      if sid != s.pool[i].sid || !s.valid || !s.active || e.None? then e
      else if Lapsed(e.value, now) then None
      else e
    case Finish(i, now, remove) =>
      if sid != s.transit[i].sid || !s.valid || !s.active || e.None? then e
      else if Lapsed(e.value, now) || remove then None
      else Some(e.value.(toSendEventKey := NextKey(e.value.toSendEventKey)))
    case Unsubscribe(of, _) =>
      if sid != of || !s.valid || !s.active then e else None
    case Renew(of, now, expireTime, responds) =>
      if sid != of || !s.valid || !s.active || e.None? then e
      else if Lapsed(e.value, now) || (s.max != -1 && s.total > s.max) || !responds then None
      else Some(e.value.(expireTime := expireTime))
    case Unregister => None
  }

  // ---- lists

  lemma {:induction false} EntryIs(subs: seq<Sub>, sid: Sid)
    ensures var i := IndexOf(subs, sid); EntryOf(subs, sid) == if i < |subs| then Some(subs[i]) else None
    decreases |subs|
  {
    if subs != [] && subs[0].sid != sid {
      EntryIs(subs[1..], sid);
    }
  }

  lemma {:induction false} EntryWithout(subs: seq<Sub>, i: nat, sid: Sid)
    requires Unique(subs) && i < |subs|
    ensures EntryOf(RemoveAt(subs, i), sid) == if sid == subs[i].sid then None else EntryOf(subs, sid)
    decreases |subs|
  {
    var rest := RemoveAt(subs, i);
    UniqueRest(subs);
    if i == 0 {
      assert rest == subs[1..];
      if sid == subs[0].sid {
        OtherSids(subs, 0);
        assert EntryOf(rest, sid).None?;
      }
    } else {
      assert rest[0] == subs[0] && rest[1..] == RemoveAt(subs[1..], i - 1);
      UniqueApart(subs, 0, i);
      EntryWithout(subs[1..], i - 1, sid);
    }
  }

  lemma {:induction false} EntryChanged(subs: seq<Sub>, i: nat, sub: Sub, sid: Sid)
    requires Unique(subs) && i < |subs| && sub.sid == subs[i].sid
    ensures EntryOf(subs[i := sub], sid) == if sid == sub.sid then Some(sub) else EntryOf(subs, sid)
    decreases |subs|
  {
    var next := subs[i := sub];
    UniqueRest(subs);
    if i > 0 {
      assert next[0] == subs[0] && next[1..] == subs[1..][i - 1 := sub];
      UniqueApart(subs, 0, i);
      EntryChanged(subs[1..], i - 1, sub, sid);
    } else {
      assert next[1..] == subs[1..];
    }
  }

  lemma LookupEntry(subs: seq<Sub>, of: Sid, now: int, sid: Sid)
    requires Unique(subs)
    ensures var e := EntryOf(subs, sid);
      EntryOf(Lookup(subs, of, now), sid) == if sid == of && e.Some? && Lapsed(e.value, now) then None else e
    ensures Finds(subs, of, now) <==> EntryOf(subs, of).Some? && !Lapsed(EntryOf(subs, of).value, now)
    ensures Finds(subs, of, now) ==> Lookup(subs, of, now) == subs && EntryOf(subs, of) == Some(subs[IndexOf(subs, of)])
    ensures Unique(Lookup(subs, of, now))
  {
    hide EntryOf, Unique;
    EntryIs(subs, of);
    var i := IndexOf(subs, of);
    if i < |subs| {
      EntryWithout(subs, i, sid);
      UniqueWithout(subs, i);
    }
  }

  lemma RemovedEntry(subs: seq<Sub>, of: Sid, sid: Sid)
    requires Unique(subs)
    ensures EntryOf(Removed(subs, of), sid) == if sid == of then None else EntryOf(subs, sid)
  {
    hide *;
    EntryIs(subs, of);
    RemovedIs(subs, of);
    var i := IndexOf(subs, of);
    if i < |subs| {
      EntryWithout(subs, i, sid);
    }
  }

  // A traversal looks at each subscription by itself.
  lemma {:induction false} TraverseEntry(subs: seq<Sub>, clock: seq<int>, body: Body, cell: nat, sid: Sid)
    requires Unique(subs)
    ensures var e := EntryOf(subs, sid);
      EntryOf(Traverse(subs, clock, body, cell).0, sid) ==
        if e.None? || Lapsed(e.value, ReadingOf(subs, clock, sid)) then None
        else if !e.value.active then e
        else Some(e.value.(eventKey := NextKey(e.value.eventKey)))
    decreases |subs|
  {
    if subs != [] {
      var sub, rest, later := subs[0], subs[1..], Later(subs[0], clock);
      UniqueRest(subs);
      TraverseEntry(rest, later, body, cell, sid);
      TraverseStep(subs, clock, body, cell);
      HeadReading(subs, clock, sid);
      hide Traverse, Unique, ReadingOf, Later;
      if sid == sub.sid {
        NotBehind(subs);
      }
    }
  }

  lemma NotBehind(subs: seq<Sub>)
    requires Unique(subs) && subs != []
    ensures EntryOf(subs[1..], subs[0].sid) == None
  {
    OtherSids(subs, 0);
    assert RemoveAt(subs, 0) == subs[1..];
  }

  lemma HeadReading(subs: seq<Sub>, clock: seq<int>, sid: Sid)
    requires subs != []
    ensures ReadingOf(subs, clock, sid) ==
      if subs[0].sid == sid then (if clock == [] then 0 else clock[0])
      else ReadingOf(subs[1..], Later(subs[0], clock), sid)
  {
  }

  lemma TraverseStep(subs: seq<Sub>, clock: seq<int>, body: Body, cell: nat)
    requires subs != []
    ensures var (sub, now) := (subs[0], if clock == [] then 0 else clock[0]);
      var (kept, jobs) := Traverse(subs[1..], Later(sub, clock), body, cell);
      Traverse(subs, clock, body, cell) ==
        if Lapsed(sub, now) then (kept, jobs)
        else if !sub.active then ([sub] + kept, jobs)
        else ([sub.(eventKey := NextKey(sub.eventKey))] + kept, [Job(sub.sid, sub.eventKey, body, cell)] + jobs)
  {
  }

  // ---- every action

  lemma AcceptEntry(s: State, of: Sid, now: int, body: Body, cell: nat, sid: Sid)
    requires Unique(s.subs) && cell !in s.refs
    ensures EntryOf(OnAccept(s, of, now, body, cell).subs, sid) == EntryAfter(s, Accept(of, now, body, cell), sid)
  {
    hide EntryOf, Unique, Lookup, Finds, Lapsed;
    if s.valid {
      LookupEntry(s.subs, of, now, sid);
      if Finds(s.subs, of, now) {
        var i := IndexOf(s.subs, of);
        EntryIs(s.subs, of);
        EntryChanged(s.subs, i, s.subs[i].(active := true, eventKey := NextKey(s.subs[i].eventKey)), sid);
      }
    }
  }

  lemma FinishEntry(s: State, i: nat, now: int, remove: bool, sid: Sid)
    requires Unique(s.subs) && i < |s.transit|
    ensures EntryOf(OnFinish(s, i, now, remove).subs, sid) == EntryAfter(s, Finish(i, now, remove), sid)
  {
    hide EntryOf, Unique, Lookup, Finds, Lapsed, Removed, RemoveAt, Release;
    var of := s.transit[i].sid;
    if s.valid && s.active {
      LookupEntry(s.subs, of, now, sid);
      if Finds(s.subs, of, now) {
        var k := IndexOf(s.subs, of);
        EntryIs(s.subs, of);
        var sub := s.subs[k].(toSendEventKey := NextKey(s.subs[k].toSendEventKey));
        EntryChanged(s.subs, k, sub, sid);
        SameSids(s.subs, k, sub);
        RemovedEntry(s.subs[k := sub], of, sid);
      }
    }
  }

  lemma SameSids(subs: seq<Sub>, k: nat, sub: Sub)
    requires Unique(subs) && k < |subs| && sub.sid == subs[k].sid
    ensures Unique(subs[k := sub])
  {
  }

  lemma RenewEntry(s: State, of: Sid, now: int, expireTime: int, responds: bool, sid: Sid)
    requires Unique(s.subs)
    ensures EntryOf(OnRenew(s, of, now, expireTime, responds).subs, sid) ==
      EntryAfter(s, Renew(of, now, expireTime, responds), sid)
  {
    hide EntryOf, Unique, Lookup, Finds, Lapsed, Removed;
    if s.valid && s.active {
      LookupEntry(s.subs, of, now, sid);
      if Finds(s.subs, of, now) {
        var k := IndexOf(s.subs, of);
        EntryIs(s.subs, of);
        EntryChanged(s.subs, k, s.subs[k].(expireTime := expireTime), sid);
        RemovedEntry(s.subs, of, sid);
      }
    }
  }

  lemma UnsubscribeEntry(s: State, of: Sid, now: int, sid: Sid)
    requires Unique(s.subs)
    ensures EntryOf(OnUnsubscribe(s, of, now).subs, sid) == EntryAfter(s, Unsubscribe(of, now), sid)
  {
    hide EntryOf, Unique, Lookup, Finds, Lapsed, Removed;
    if s.valid && s.active {
      LookupEntry(s.subs, of, now, sid);
      RemovedEntry(s.subs, of, sid);
    }
  }

  lemma PickEntry(s: State, i: nat, now: int, sid: Sid)
    requires Unique(s.subs) && i < |s.pool|
    ensures EntryOf(OnPick(s, i, now).subs, sid) == EntryAfter(s, Pick(i, now), sid)
  {
    hide EntryOf, Unique, Lookup, Finds, Lapsed, RemoveAt, Release;
    LookupEntry(s.subs, s.pool[i].sid, now, sid);
  }

  lemma SubscribeEntry(s: State, made: Sid, expireTime: int, responds: bool, sid: Sid)
    requires made !in s.used
    ensures EntryOf(OnSubscribe(s, made, expireTime, responds).subs, sid) ==
      EntryAfter(s, Subscribe(made, expireTime, responds), sid)
  {
    var sub := Sub(made, 0, 0, expireTime, false);
    assert ([sub] + s.subs)[1..] == s.subs;
  }

  lemma NotifyEntry(s: State, clock: seq<int>, body: Body, cell: nat, sid: Sid)
    requires Unique(s.subs) && cell !in s.refs
    ensures EntryOf(OnNotifyAll(s, clock, body, cell).subs, sid) == EntryAfter(s, NotifyAll(clock, body, cell), sid)
  {
    hide EntryOf, Unique, Lapsed, Traverse, ReadingOf;
    TraverseEntry(s.subs, clock, body, cell, sid);
  }

  // Every action does with each subscription what it is for, and nothing with the others.
  lemma NextEntry(s: State, a: Action, sid: Sid)
    requires Unique(s.subs) && Possible(s, a)
    ensures EntryOf(Next(s, a).subs, sid) == EntryAfter(s, a, sid)
  {
    hide EntryOf, EntryAfter, Unique, OnSubscribe, OnAccept, OnNotifyAll, OnPick, OnFinish, OnUnsubscribe, OnRenew;
    match a
    case Subscribe(made, expireTime, responds) => SubscribeEntry(s, made, expireTime, responds, sid);
    case Accept(of, now, body, cell) => AcceptEntry(s, of, now, body, cell, sid);
    case NotifyAll(clock, body, cell) => NotifyEntry(s, clock, body, cell, sid);
    case Pick(i, now) => PickEntry(s, i, now, sid);
    case Finish(i, now, remove) => FinishEntry(s, i, now, remove, sid);
    case Unsubscribe(of, now) => UnsubscribeEntry(s, of, now, sid);
    case Renew(of, now, expireTime, responds) => RenewEntry(s, of, now, expireTime, responds, sid);
    case Unregister => UnregisterEntry(s, sid);
  }

  lemma UnregisterEntry(s: State, sid: Sid)
    ensures EntryOf([], sid) == EntryAfter(s, Unregister, sid)
  {
  }
}
