// The device side of eventing (src/gena/gena_server.c:249-261, 364-586, 935-1073, 1075-1453): the
// critical sections on the linked subscription list, each doing what its action says.
module GenaServer {
  import opened EventKeys
  import opened GenaState
  import opened GenaInvariant
  import opened GenaSteps
  import opened GenaRuns
  import opened ServiceTable

  function Now(clock: seq<int>): int {
    if clock == [] then 0 else clock[0]
  }

  function Tail(clock: seq<int>): seq<int> {
    if clock == [] then [] else clock[1..]
  }

  // A traversal: what it passes, and the rest from the first entry it finds.
  lemma {:induction false} TraversePasses(subs: seq<Sub>, clock: seq<int>, body: Body, cell: nat)
    ensures var (kept, jobs) := Traverse(FoundSubs(subs, Now(clock)), clock, body, cell);
      Traverse(subs, clock, body, cell) == (PassedSubs(subs, Now(clock)) + kept, jobs)
    decreases |subs|
  {
    hide Expired;
    var kept := Traverse(FoundSubs(subs, Now(clock)), clock, body, cell).0;
    if subs == [] || (!Expired(subs[0], Now(clock)) && subs[0].active) {
      assert [] + kept == kept;
    } else {
      TraversePasses(subs[1..], clock, body, cell);
      var passed := PassedSubs(subs[1..], Now(clock));
      assert [subs[0]] + (passed + kept) == ([subs[0]] + passed) + kept;
    }
  }

  // The entry after its event key is taken.
  function Bumped(sub: Sub): Sub {
    sub.(eventKey := NextKey(sub.eventKey))
  }

  // The n-th entry is found: it gets its job and next key, and the traversal goes on behind it.
  lemma TraverseStep(all: seq<Sub>, n: nat, clock: seq<int>, body: Body, cell: nat)
    requires n < |all| && !Expired(all[n], Now(clock)) && all[n].active
    ensures var v, now := Bumped(all[n]), Now(Tail(clock));
      var all' := all[n := v][..n + 1] + (PassedSubs(all[n := v][n + 1..], now) + FoundSubs(all[n := v][n + 1..], now));
      var n' := n + 1 + |PassedSubs(all[n := v][n + 1..], now)|;
      && n' <= |all'| && all'[n'..] == FoundSubs(all[n := v][n + 1..], now)
      && |all'| - n' < |all| - n
      && var (kept, jobs) := Traverse(all'[n'..], Tail(clock), body, cell);
         && all[..n] + Traverse(all[n..], clock, body, cell).0 == all'[..n'] + kept
         && Traverse(all[n..], clock, body, cell).1 == [Job(all[n].sid, all[n].eventKey, body, cell)] + jobs
  {
    hide *;
    var v, now, rest := Bumped(all[n]), Now(Tail(clock)), all[n + 1..];
    TraverseActive(all[n..], clock, body, cell);
    assert all[n..][1..] == rest && all[n := v][n + 1..] == rest && all[n := v][..n + 1] == all[..n] + [v];
    TraversePasses(rest, Tail(clock), body, cell);
    var passed, found := PassedSubs(rest, now), FoundSubs(rest, now);
    Regroup(all[..n], v, passed, found);
    Regroup(all[..n], v, passed, Traverse(found, Tail(clock), body, cell).0);
  }

  lemma TraverseActive(subs: seq<Sub>, clock: seq<int>, body: Body, cell: nat)
    requires subs != [] && !Expired(subs[0], Now(clock)) && subs[0].active
    ensures Traverse(subs, clock, body, cell).0 == [Bumped(subs[0])] + Traverse(subs[1..], Tail(clock), body, cell).0
    ensures Traverse(subs, clock, body, cell).1 ==
      [Job(subs[0].sid, subs[0].eventKey, body, cell)] + Traverse(subs[1..], Tail(clock), body, cell).1
  {
  }

  lemma Regroup(front: seq<Sub>, v: Sub, passed: seq<Sub>, rest: seq<Sub>)
    ensures front + [v] + (passed + rest) == front + [v] + passed + rest == front + ([v] + (passed + rest))
    ensures (front + [v] + (passed + rest))[|front| + 1 + |passed|..] == rest
    ensures (front + [v] + (passed + rest))[..|front| + 1 + |passed|] == front + [v] + passed
  {
  }

  class Device {
    var valid: bool
    const max: int
    const service: ServiceInfo
    var pool: seq<Job>
    var transit: seq<Job>
    var refs: map<nat, int>
    ghost var used: set<Sid>
    ghost var initial: map<Sid, Body>
    ghost var sent: seq<Notice>

    constructor (max: int)
      ensures Valid() && Model() == Initial(max)
    {
      var table := new ServiceInfo();
      service := table;
      this.max := max;
      valid := true;
      pool, transit, refs := [], [], map[];
      used, initial, sent := {}, map[], [];
    }

    ghost predicate Valid()
      reads this, service, service.nodes
    {
      service.Valid()
    }

    ghost function Model(): State
      reads this, service, service.nodes
    {
      State(valid, service.active, max, service.Subs(), service.TotalSubscriptions,
            pool, transit, refs, used, initial, sent)
    }

    // free_notify_struct.
    method FreeNotify(j: Job)
      requires j.cell in refs
      modifies this`refs
      ensures refs == Release(old(refs), j.cell)
    {
      refs := refs[j.cell := refs[j.cell] - 1];
      if refs[j.cell] == 0 {
        refs := refs - {j.cell};
      }
    }

    // genaSubscriptionRequest, from the lock on; responds says that the answer could be sent.
    method SubscriptionRequest(sid: Sid, expireTime: int, responds: bool)
      requires Valid() && sid !in used
      modifies this`used, service, service.nodes
      ensures Valid() && Model() == OnSubscribe(old(Model()), sid, expireTime, responds)
    {
      if !valid || !service.active || (max != -1 && service.TotalSubscriptions >= max) {
        return;
      }
      var sub := new Subscription(sid, expireTime);
      if !responds {
        return;
      }
      service.PushFront(sub);
      used := used + {sid};
    }

    // genaInitNotify, with a freshly allocated reference count.
    method InitNotify(sid: Sid, now: int, body: Body, cell: nat)
      requires Valid() && cell !in refs
      modifies this`pool, this`refs, this`initial, service, service.nodes
      ensures Valid() && Model() == OnAccept(old(Model()), sid, now, body, cell)
    {
      hide Values, IndexOf, Lookup, Finds, ServiceInfo.Subs, ServiceInfo.Valid;
      if !valid {
        return;
      }
      ghost var subs := service.Subs();
      var sub := service.GetSubscriptionSID(sid, now);
      if sub == null {
        return;
      }
      FoundIs(service, subs, sid, now, sub);
      if sub.active {
        return;
      }
      var key := sub.eventKey;
      service.Store(sub, sub.Value().(active := true, eventKey := NextKey(key)), IndexOf(subs, sid));
      pool := pool + [Job(sid, key, body, cell)];
      refs := refs[cell := 1];
      initial := initial[sid := body];
    }

    // genaNotifyThread up to the transmission: the i-th job of the pool is taken by a worker.
    method PickJob(i: nat, now: int)
      requires Valid() && i < |pool| && pool[i].cell in refs
      modifies this`pool, this`transit, this`refs, this`sent, service, service.nodes
      ensures Valid() && Model() == OnPick(old(Model()), i, now)
    {
      hide Values, IndexOf, Lookup, Finds, ServiceInfo.Subs, ServiceInfo.Valid, Release;
      var input := pool[i];
      pool := pool[..i] + pool[i + 1..];
      if !valid || !service.active {
        FreeNotify(input);
        return;
      }
      ghost var subs := service.Subs();
      var sub := service.GetSubscriptionSID(input.sid, now);
      if sub == null {
        FreeNotify(input);
        return;
      }
      FoundIs(service, subs, input.sid, now, sub);
      if input.eventKey != sub.ToSendEventKey {
        pool := pool + [input];
        return;
      }
      transit := transit + [input];
      sent := sent + [Notice(input.sid, sub.ToSendEventKey, input.body)];
    }

    // The rest of genaNotifyThread; remove says that the subscriber refused the SID.
    method FinishJob(i: nat, now: int, remove: bool)
      requires Valid() && i < |transit| && transit[i].cell in refs
      modifies this`transit, this`refs, service, service.nodes
      ensures Valid() && Model() == OnFinish(old(Model()), i, now, remove)
    {
      hide Values, IndexOf, Lookup, Finds, ServiceInfo.Subs, ServiceInfo.Valid, Release, Removed;
      var input := transit[i];
      transit := transit[..i] + transit[i + 1..];
      if !valid || !service.active {
        FreeNotify(input);
        return;
      }
      ghost var subs := service.Subs();
      var sub := service.GetSubscriptionSID(input.sid, now);
      if sub == null {
        FreeNotify(input);
        return;
      }
      FoundIs(service, subs, input.sid, now, sub);
      service.Store(sub, sub.Value().(toSendEventKey := NextKey(sub.ToSendEventKey)), IndexOf(subs, input.sid));
      if remove {
        service.RemoveSubscriptionSID(input.sid);
      }
      FreeNotify(input);
    }

    // genaUnsubscribeRequest, from the lock on.
    method UnsubscribeRequest(sid: Sid, now: int)
      requires Valid()
      modifies service, service.nodes
      ensures Valid() && Model() == OnUnsubscribe(old(Model()), sid, now)
    {
      hide Values, IndexOf, Lookup, Finds, ServiceInfo.Subs, ServiceInfo.Valid, Removed;
      if !valid || !service.active {
        return;
      }
      var sub := service.GetSubscriptionSID(sid, now);
      if sub == null {
        return;
      }
      service.RemoveSubscriptionSID(sid);
    }

    // genaRenewRequest, from the lock on.
    method RenewRequest(sid: Sid, now: int, expireTime: int, responds: bool)
      requires Valid()
      modifies service, service.nodes
      ensures Valid() && Model() == OnRenew(old(Model()), sid, now, expireTime, responds)
    {
      hide Values, IndexOf, Lookup, Finds, ServiceInfo.Subs, ServiceInfo.Valid, Removed;
      if !valid || !service.active {
        return;
      }
      ghost var subs := service.Subs();
      var sub := service.GetSubscriptionSID(sid, now);
      if sub == null {
        return;
      }
      FoundIs(service, subs, sid, now, sub);
      if max != -1 && service.TotalSubscriptions > max {
        service.RemoveSubscriptionSID(sid);
        return;
      }
      service.Store(sub, sub.Value().(expireTime := expireTime), IndexOf(subs, sid));
      if !responds {
        RemovedUpdated(subs, sid, service.Subs()[IndexOf(subs, sid)]);
        service.RemoveSubscriptionSID(sid);
      }
    }

    // genaNotifyAll, with a freshly allocated reference count and the times its searches read.
    method NotifyAll(clock: seq<int>, body: Body, cell: nat)
      requires Valid() && cell !in refs
      modifies this`pool, this`refs, service, service.nodes
      ensures Valid() && Model() == OnNotifyAll(old(Model()), clock, body, cell)
    {
      hide Values, Traverse, PassedSubs, FoundSubs, ServiceInfo.Valid, ServiceInfo.Subs;
      refs := refs[cell := 0];
      ghost var jobs: seq<Job> := [];
      if valid {
        jobs := NotifyList(clock, body, cell);
      }
      if refs[cell] == 0 {
        refs := refs - {cell};
        assert refs == old(refs);
      }
    }

    // One job for the entry found, and on to the next.
    method NotifyOne(finger: Subscription, now: int, body: Body, cell: nat, ghost n: nat) returns (next: Subscription?)
      requires service.Valid() && n < |service.nodes| && finger == service.nodes[n] && cell in refs
      modifies this`pool, this`refs, service`TotalSubscriptions, service`nodes, service.nodes
      ensures service.Valid() && |service.Subs()| == |service.nodes|
      ensures n < |old(service.Subs())|
      ensures pool == old(pool) + [Job(old(service.Subs())[n].sid, old(service.Subs())[n].eventKey, body, cell)]
      ensures refs == old(refs)[cell := old(refs)[cell] + 1]
      ensures var all := old(service.Subs())[n := Bumped(old(service.Subs())[n])];
        var passed, found := PassedSubs(all[n + 1..], now), FoundSubs(all[n + 1..], now);
        && service.Subs() == all[..n + 1] + (passed + found) && n + 1 + |passed| <= |service.nodes|
        && next == if found == [] then null else Head(service.nodes[n + 1 + |passed|..])
      ensures service.TotalSubscriptions == old(service.TotalSubscriptions) - (|old(service.nodes)| - |service.nodes|)
      ensures forall x :: x in service.nodes ==> x in old(service.nodes)
    {
      hide *;
      service.SubsAre();
      BumpedIs(finger);
      var key := finger.eventKey;
      refs := refs[cell := refs[cell] + 1];
      pool := pool + [Job(finger.sid, key, body, cell)];
      assert finger in service.nodes;
      service.Store(finger, Bumped(finger.Value()), n);
      next := service.GetNextInList(finger, now, n);
    }

    // The loop over the subscriptions.
    method NotifyList(clock: seq<int>, body: Body, cell: nat) returns (ghost jobs: seq<Job>)
      requires service.Valid() && cell in refs && refs[cell] == 0
      modifies this`pool, this`refs, service, service.nodes
      ensures service.Valid() && service.active == old(service.active)
      ensures (service.Subs(), jobs) == Traverse(old(service.Subs()), clock, body, cell)
      ensures service.TotalSubscriptions == old(service.TotalSubscriptions) - (|old(service.Subs())| - |service.Subs()|)
      ensures pool == old(pool) + jobs && refs == old(refs)[cell := |jobs|]
    {
      hide *;
      ghost var subs, n := service.Subs(), 0;
      jobs := [];
      service.SubsAreValues();
      TraversePasses(subs, clock, body, cell);
      var ticks := clock;
      var finger := service.GetFirstSubscription(Now(ticks));
      n := |PassedSubs(subs, Now(ticks))|;
      Split(PassedSubs(subs, Now(ticks)), FoundSubs(subs, Now(ticks)));
      HeadIs(service.nodes, n);
      NothingYet(pool, refs, cell, Traverse(service.Subs()[n..], ticks, body, cell).1);
      while finger != null
        invariant service.Valid() && service.active == old(service.active) && |service.Subs()| == |service.nodes|
        invariant 0 <= n <= |service.nodes| && finger == if n == |service.nodes| then null else service.nodes[n]
        invariant finger != null ==> !Expired(service.Subs()[n], Now(ticks)) && service.Subs()[n].active
        invariant forall x :: x in service.nodes ==> x in old(service.nodes)
        invariant Traverse(subs, clock, body, cell).0 ==
          service.Subs()[..n] + Traverse(service.Subs()[n..], ticks, body, cell).0
        invariant Traverse(subs, clock, body, cell).1 == jobs + Traverse(service.Subs()[n..], ticks, body, cell).1
        invariant service.TotalSubscriptions == old(service.TotalSubscriptions) - (|subs| - |service.Subs()|)
        invariant pool == old(pool) + jobs && refs == old(refs)[cell := |jobs|]
        decreases |service.nodes| - n
      {
        ghost var all, at := service.Subs(), n;
        assert forall k :: 0 <= k < |service.nodes| ==> service.nodes[k] in service.nodes;
        finger := NotifyOne(finger, Now(Tail(ticks)), body, cell, n);
        n := LoopStep(subs, clock, all, at, ticks, jobs, service.Subs(), body, cell);
        OneMore(old(pool), jobs, Job(all[at].sid, all[at].eventKey, body, cell), old(refs), cell);
        jobs := jobs + [Job(all[at].sid, all[at].eventKey, body, cell)];
        ticks := Tail(ticks);
        HeadIs(service.nodes, n);
      }
      AllVisited(subs, clock, service.Subs(), n, ticks, jobs, body, cell);
    }
  }

  // A changed entry is removed like the old one.
  lemma RemovedUpdated(subs: seq<Sub>, sid: Sid, v: Sub)
    requires IndexOf(subs, sid) < |subs| && v.sid == sid
    ensures Removed(subs[IndexOf(subs, sid) := v], sid) == Removed(subs, sid)
  {
    var i := IndexOf(subs, sid);
    IndexFirst(subs[i := v], sid, i);
  }

  lemma IndexFirst(subs: seq<Sub>, sid: Sid, i: nat)
    requires i < |subs| && subs[i].sid == sid && forall k :: 0 <= k < i ==> subs[k].sid != sid
    ensures IndexOf(subs, sid) == i
  {
  }

  // One turn of the loop: n' is where the search stops.
  lemma LoopStep(subs: seq<Sub>, clock: seq<int>, all: seq<Sub>, n: nat, ticks: seq<int>, jobs: seq<Job>,
                 all': seq<Sub>, body: Body, cell: nat)
    returns (n': nat)
    requires n < |all| && !Expired(all[n], Now(ticks)) && all[n].active
    requires Traverse(subs, clock, body, cell).0 == all[..n] + Traverse(all[n..], ticks, body, cell).0
    requires Traverse(subs, clock, body, cell).1 == jobs + Traverse(all[n..], ticks, body, cell).1
    requires var after := all[n := Bumped(all[n])];
      all' == after[..n + 1]
              + (PassedSubs(after[n + 1..], Now(Tail(ticks))) + FoundSubs(after[n + 1..], Now(Tail(ticks))))
    ensures n' == n + 1 + |PassedSubs(all[n := Bumped(all[n])][n + 1..], Now(Tail(ticks)))| <= |all'|
    ensures |all'| - n' < |all| - n
    ensures (n' == |all'|) == (FoundSubs(all[n := Bumped(all[n])][n + 1..], Now(Tail(ticks))) == [])
    ensures n' < |all'| ==> !Expired(all'[n'], Now(Tail(ticks))) && all'[n'].active
    ensures Traverse(subs, clock, body, cell).0 == all'[..n'] + Traverse(all'[n'..], Tail(ticks), body, cell).0
    ensures Traverse(subs, clock, body, cell).1
         == jobs + [Job(all[n].sid, all[n].eventKey, body, cell)] + Traverse(all'[n'..], Tail(ticks), body, cell).1
  {
    hide *;
    TraverseStep(all, n, ticks, body, cell);
    n' := n + 1 + |PassedSubs(all[n := Bumped(all[n])][n + 1..], Now(Tail(ticks)))|;
    Append(jobs, Job(all[n].sid, all[n].eventKey, body, cell), Traverse(all'[n'..], Tail(ticks), body, cell).1);
    var found := FoundSubs(all[n := Bumped(all[n])][n + 1..], Now(Tail(ticks)));
    assert found == all'[n'..];
    if found != [] {
      assert found[0] == all'[n'];
    }
  }

  lemma Append(jobs: seq<Job>, j: Job, rest: seq<Job>)
    ensures jobs + ([j] + rest) == (jobs + [j]) + rest
  {
  }

  lemma NothingYet(pool: seq<Job>, refs: map<nat, int>, cell: nat, rest: seq<Job>)
    requires cell in refs && refs[cell] == 0
    ensures pool == pool + [] && refs == refs[cell := 0] && [] + rest == rest
  {
  }

  lemma OneMore(before: seq<Job>, jobs: seq<Job>, j: Job, refs: map<nat, int>, cell: nat)
    ensures before + jobs + [j] == before + (jobs + [j]) && |jobs + [j]| == |jobs| + 1
    ensures refs[cell := |jobs|][cell := |jobs| + 1] == refs[cell := |jobs| + 1] && refs[cell := |jobs|][cell] == |jobs|
  {
  }

  // The traversal is over when nothing is left to visit.
  lemma AllVisited(subs: seq<Sub>, clock: seq<int>, all: seq<Sub>, n: nat, ticks: seq<int>, jobs: seq<Job>,
                   body: Body, cell: nat)
    requires n == |all|
    requires Traverse(subs, clock, body, cell).0 == all[..n] + Traverse(all[n..], ticks, body, cell).0
    requires Traverse(subs, clock, body, cell).1 == jobs + Traverse(all[n..], ticks, body, cell).1
    ensures Traverse(subs, clock, body, cell) == (all, jobs)
  {
    assert all[n..] == [] && all[..n] == all;
    assert Traverse([], ticks, body, cell) == ([], []);
    assert all + [] == all && jobs + [] == jobs;
  }

  lemma BumpedIs(n: Subscription)
    ensures n.Value() == Sub(n.sid, n.eventKey, n.ToSendEventKey, n.expireTime, n.active)
    ensures Bumped(n.Value()).sid == n.sid
  {
  }

  lemma Split(p: seq<Sub>, f: seq<Sub>)
    ensures (p + f)[..|p|] == p && (p + f)[|p|..] == f
  {
  }

  lemma HeadIs(nodes: seq<Subscription>, n: nat)
    requires n <= |nodes|
    ensures Head(nodes[n..]) == if n == |nodes| then null else nodes[n]
  {
  }

  // The entry GetSubscriptionSID returns is the one the list has for the SID.
  lemma FoundIs(service: ServiceInfo, subs: seq<Sub>, sid: Sid, now: int, found: Subscription)
    requires Finds(subs, sid, now) && service.Subs() == Lookup(subs, sid, now)
    requires IndexOf(subs, sid) < |service.nodes| && found == service.nodes[IndexOf(subs, sid)]
    ensures service.Subs() == subs && IndexOf(subs, sid) < |subs| && subs[IndexOf(subs, sid)] == found.Value()
    ensures found.sid == sid
  {
    ValueAt(service.nodes, IndexOf(subs, sid));
  }
}
