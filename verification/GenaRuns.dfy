// Event delivery over whole runs: what holds in every reachable state, for every interleaving
// of requests, notifications and workers.
module GenaRuns {
  import opened EventKeys
  import opened GenaState
  import opened GenaInvariant
  import opened GenaSteps

  function Run(s: State, actions: seq<Action>): State
    requires PossibleRun(s, actions)
    decreases actions
  {
    if actions == [] then s else Run(Next(s, actions[0]), actions[1..])
  }

  predicate PossibleRun(s: State, actions: seq<Action>)
    decreases actions
  {
    actions == [] || (Possible(s, actions[0]) && PossibleRun(Next(s, actions[0]), actions[1..]))
  }

  // Fewer jobs than keys are outstanding all along.
  ghost predicate BoundedRun(s: State, actions: seq<Action>)
    requires PossibleRun(s, actions)
    decreases actions
  {
    Bounded(s) && (actions == [] || BoundedRun(Next(s, actions[0]), actions[1..]))
  }

  // A subscriber has at most one transmission in flight, even after its subscription is gone.
  ghost predicate OneInFlight(s: State) {
    forall sid {:trigger Keys(s.transit, sid)} :: |Keys(s.transit, sid)| <= 1
  }

  lemma InitialInv(max: int)
    ensures Inv(Initial(max)) && OneInFlight(Initial(max))
  {
  }

  lemma FlightSame(s: State, t: State)
    requires OneInFlight(s) && t.transit == s.transit
    ensures OneInFlight(t)
  {
  }

  lemma FlightLess(s: State, t: State, i: nat)
    requires OneInFlight(s) && i < |s.transit| && t.transit == RemoveAt(s.transit, i)
    ensures OneInFlight(t)
  {
    forall sid ensures |Keys(t.transit, sid)| <= 1 {
      KeysRemoveAt(s.transit, i, sid);
    }
  }

  lemma FlightMore(s: State, t: State, i: nat, n: nat)
    requires Inv(s) && OneInFlight(s) && i < |s.pool| && n < |s.subs| && s.subs[n].sid == s.pool[i].sid
    requires s.subs[n].toSendEventKey == s.pool[i].eventKey && t.transit == s.transit + [s.pool[i]]
    ensures OneInFlight(t)
  {
    var j := s.pool[i];
    InvParts(s);
    SubsAre(s, n);
    KeyIn(s.pool, i);
    NotInTransit(s.subs[n], Outstanding(s, j.sid), Keys(s.pool, j.sid), Keys(s.transit, j.sid),
      KeysSent(s.sent, j.sid));
    hide Inv, Keys, KeysSent, SubsOk, Unique;
    forall sid ensures |Keys(t.transit, sid)| <= 1 {
      KeysConcat(s.transit, [j], sid);
      KeysOne(j, sid);
    }
  }

  lemma FlightKeeps(s: State, a: Action)
    requires Inv(s) && OneInFlight(s) && Possible(s, a)
    ensures OneInFlight(Next(s, a))
  {
    hide Inv, OneInFlight, Traverse, Lookup, Removed, Release;
    match a
    case Pick(i, now) =>
      var j := s.pool[i];
      var n := IndexOf(s.subs, j.sid);
      if OnPick(s, i, now).transit == s.transit {
        FlightSame(s, OnPick(s, i, now));
      } else {
        FlightMore(s, OnPick(s, i, now), i, n);
      }
    case Finish(i, now, remove) => FlightLess(s, OnFinish(s, i, now, remove), i);
    case _ => FlightSame(s, Next(s, a));
  }

  // Every reachable state meets the invariant.
  lemma {:induction false} RunKeeps(s: State, actions: seq<Action>)
    requires Inv(s) && OneInFlight(s) && PossibleRun(s, actions) && BoundedRun(s, actions)
    ensures Inv(Run(s, actions)) && OneInFlight(Run(s, actions))
    decreases actions
  {
    hide Inv, OneInFlight, Bounded, Next, Possible;
    if actions != [] {
      BoundedNow(Next(s, actions[0]), actions[1..]);
      NextKeeps(s, actions[0]);
      FlightKeeps(s, actions[0]);
      RunKeeps(Next(s, actions[0]), actions[1..]);
    }
  }

  lemma BoundedNow(s: State, actions: seq<Action>)
    requires PossibleRun(s, actions) && BoundedRun(s, actions)
    ensures Bounded(s)
  {
  }

  // The jobs of a live subscription hold exactly the keys from ToSendEventKey up to, not
  // including, eventKey, each once.
  lemma KeysAreConsecutive(max: int, actions: seq<Action>, i: nat, x: Key)
    requires PossibleRun(Initial(max), actions) && BoundedRun(Initial(max), actions)
    requires i < |Run(Initial(max), actions).subs|
    ensures var s := Run(Initial(max), actions);
      var sub, n := s.subs[i], |Outstanding(s, s.subs[i].sid)|;
      && Outstanding(s, sub.sid) == RunFrom(sub.toSendEventKey, n) && sub.eventKey == Advance(sub.toSendEventKey, n)
      && Outstanding(s, sub.sid)[x] <= 1
  {
    hide *;
    var s := Run(Initial(max), actions);
    InitialInv(max);
    RunKeeps(Initial(max), actions);
    InvParts(s);
    SubsAre(s, i);
    FitsParts(s, s.subs[i]);
    KeysOnce(s.subs[i].toSendEventKey, |Outstanding(s, s.subs[i].sid)|, x);
  }

  lemma FitsParts(s: State, sub: Sub)
    requires SubOk(s, sub)
    ensures var n := |Outstanding(s, sub.sid)|;
      && n <= MAX_KEY && Outstanding(s, sub.sid) == RunFrom(sub.toSendEventKey, n)
      && sub.eventKey == Advance(sub.toSendEventKey, n)
    ensures Advance(0, |KeysSent(s.sent, sub.sid)|) ==
      if Keys(s.transit, sub.sid) == multiset{} then sub.toSendEventKey else NextKey(sub.toSendEventKey)
  {
    hide Keys, KeysSent;
  }

  // What is transmitted to one subscriber is 0, 1, 2, ..., wrapping to 1, one at a time; key 0
  // carries the body given at acceptance.
  lemma SentInSequence(max: int, actions: seq<Action>, sid: Sid, i: nat)
    requires PossibleRun(Initial(max), actions) && BoundedRun(Initial(max), actions)
    requires i < |KeysSent(Run(Initial(max), actions).sent, sid)|
    ensures var s := Run(Initial(max), actions);
      KeysSent(s.sent, sid)[i] == if i == 0 then 0 else 1 + (i - 1) % MAX_KEY
  {
    hide *;
    var s := Run(Initial(max), actions);
    InitialInv(max);
    RunKeeps(Initial(max), actions);
    InvParts(s);
    OrderOf(s, sid, i);
    FirstKeyIs(i);
  }

  lemma OrderOf(s: State, sid: Sid, i: nat)
    requires InOrder(s) && i < |KeysSent(s.sent, sid)|
    ensures KeysSent(s.sent, sid)[i] == Advance(0, i)
  {
    var n := |KeysSent(s.sent, sid)|;
    assert KeysSent(s.sent, sid) == FirstKeys(n);
  }

  lemma OneAtATime(max: int, actions: seq<Action>, sid: Sid)
    requires PossibleRun(Initial(max), actions) && BoundedRun(Initial(max), actions)
    ensures |Keys(Run(Initial(max), actions).transit, sid)| <= 1
  {
    hide Run, PossibleRun, BoundedRun, Inv, Keys, Initial;
    InitialInv(max);
    RunKeeps(Initial(max), actions);
  }

  lemma ZeroIsInitial(max: int, actions: seq<Action>, n: Notice)
    requires PossibleRun(Initial(max), actions) && BoundedRun(Initial(max), actions)
    requires n in Run(Initial(max), actions).sent && n.seqKey == 0
    ensures var s := Run(Initial(max), actions); n.sid in s.initial && s.initial[n.sid] == n.body
  {
    hide Run, PossibleRun, BoundedRun, Inv, Initial;
    InitialInv(max);
    RunKeeps(Initial(max), actions);
    InvParts(Run(Initial(max), actions));
    assert NoticeIsInitial(Run(Initial(max), actions).initial, n);
  }

  // A reference count is allocated exactly while jobs share it, and is their number; so the
  // payload of a queued or transmitted job is never freed, and the last release frees it.
  lemma CountsAreJobs(max: int, actions: seq<Action>, c: nat)
    requires PossibleRun(Initial(max), actions) && BoundedRun(Initial(max), actions)
    ensures var s := Run(Initial(max), actions);
      && (c in s.refs <==> AllSharing(s, c) > 0) && (c in s.refs ==> s.refs[c] == AllSharing(s, c))
  {
    hide Run, PossibleRun, BoundedRun, Inv, Initial;
    InitialInv(max);
    RunKeeps(Initial(max), actions);
    InvParts(Run(Initial(max), actions));
    assert AllSharing(Run(Initial(max), actions), c) >= 0;
  }

  lemma {:induction false} SharingIn(jobs: seq<Job>, j: Job)
    requires j in jobs
    ensures Sharing(jobs, j.cell) > 0
  {
    if jobs[0] != j {
      SharingIn(jobs[1..], j);
    }
  }

  // No job, queued or in transit, outlives its payload, and none is released twice.
  lemma PayloadIsLive(s: State, j: Job)
    requires Inv(s) && (j in s.pool || j in s.transit)
    ensures j.cell in s.refs && s.refs[j.cell] > 0
  {
    InvParts(s);
    if j in s.pool {
      SharingIn(s.pool, j);
    } else {
      SharingIn(s.transit, j);
    }
    assert AllSharing(s, j.cell) > 0;
  }

  // The counter is the length of the list, and no action takes it over the limit.
  lemma CappedStep(s: State, a: Action)
    requires Inv(s) && Possible(s, a)
    ensures Next(s, a).max == s.max
    ensures s.max >= 0 ==> Next(s, a).total <= if s.total <= s.max then s.max else s.total
  {
    hide Inv, Traverse, Lookup, Removed, Release;
    InvParts(s);
    hide SidsUsed, SubsOk, InOrder, CountsOk, FirstIsInitial, Unique;
    Shorter(s, a);
  }

  lemma Shorter(s: State, a: Action)
    ensures forall sid, now :: |Lookup(s.subs, sid, now)| <= |s.subs|
    ensures forall subs: seq<Sub>, sid :: |Removed(subs, sid)| <= |subs|
  {
  }

  lemma {:induction false} CappedRun(s: State, actions: seq<Action>)
    requires Inv(s) && OneInFlight(s) && PossibleRun(s, actions) && BoundedRun(s, actions) && 0 <= s.total <= s.max
    ensures var t := Run(s, actions); t.total == |t.subs| <= t.max == s.max
    decreases actions
  {
    hide Inv, OneInFlight, Bounded, Next, Possible;
    InvParts(s);
    if actions != [] {
      BoundedNow(Next(s, actions[0]), actions[1..]);
      NextKeeps(s, actions[0]);
      FlightKeeps(s, actions[0]);
      CappedStep(s, actions[0]);
      InvParts(Next(s, actions[0]));
      CappedRun(Next(s, actions[0]), actions[1..]);
    }
  }

  // ---- one traversal

  // The subscriptions that have not expired when they are come to, each by its own reading.
  function Unexpired(subs: seq<Sub>, readings: seq<int>): seq<Sub>
    requires |readings| == |subs|
  {
    if subs == [] then []
    else (if Expired(subs[0], readings[0]) then [] else [subs[0]]) + Unexpired(subs[1..], readings[1..])
  }

  // The active subscriptions, in order, get one job each.
  function JobsFor(subs: seq<Sub>, body: Body, cell: nat): seq<Job> {
    if subs == [] then []
    else
      (if subs[0].active then [Job(subs[0].sid, subs[0].eventKey, body, cell)] else []) + JobsFor(subs[1..], body, cell)
  }

  function AllBumped(subs: seq<Sub>): seq<Sub> {
    if subs == [] then []
    else [if subs[0].active then subs[0].(eventKey := NextKey(subs[0].eventKey)) else subs[0]] + AllBumped(subs[1..])
  }

  // The reading of the clock by which each subscription is looked at.
  function Readings(subs: seq<Sub>, clock: seq<int>): (r: seq<int>)
    ensures |r| == |subs|
    decreases |subs|
  {
    if subs == [] then []
    else
      var now := if clock == [] then 0 else clock[0];
      [now] + Readings(subs[1..], if Expired(subs[0], now) || !subs[0].active || clock == [] then clock else clock[1..])
  }

  // A full traversal visits exactly the active unexpired subscriptions, in list order, and
  // unlinks exactly the expired ones, however the clock moves while it goes on.
  lemma {:induction false} TraverseIs(subs: seq<Sub>, clock: seq<int>, body: Body, cell: nat)
    ensures var live := Unexpired(subs, Readings(subs, clock));
      Traverse(subs, clock, body, cell) == (AllBumped(live), JobsFor(live, body, cell))
    decreases |subs|
  {
    if subs != [] {
      var readings := Readings(subs, clock);
      var more := if Expired(subs[0], readings[0]) || !subs[0].active || clock == [] then clock else clock[1..];
      TraverseIs(subs[1..], more, body, cell);
      assert readings[1..] == Readings(subs[1..], more);
      var rest := Unexpired(subs[1..], readings[1..]);
      if Expired(subs[0], readings[0]) {
        assert [] + rest == rest;
      } else {
        assert ([subs[0]] + rest)[1..] == rest;
        assert [] + JobsFor(rest, body, cell) == JobsFor(rest, body, cell);
      }
    }
  }

  // The clock is read once more for each subscription that gets a job: the k-th is looked at by
  // the reading after as many as there were jobs before it.
  lemma {:induction false} ReadingIs(subs: seq<Sub>, clock: seq<int>, k: nat, body: Body, cell: nat)
    requires k < |subs| <= |clock|
    ensures var readings := Readings(subs, clock);
      var jobs := |JobsFor(Unexpired(subs[..k], readings[..k]), body, cell)|;
      jobs <= k && readings[k] == clock[jobs]
    decreases k
  {
    var readings := Readings(subs, clock);
    if k == 0 {
      assert subs[..0] == [] && readings[..0] == [];
    } else {
      var passed := Expired(subs[0], clock[0]) || !subs[0].active;
      var more := if passed then clock else clock[1..];
      ReadingIs(subs[1..], more, k - 1, body, cell);
      assert readings[1..] == Readings(subs[1..], more);
      assert readings[..k][1..] == readings[1..][..k - 1] && subs[..k][1..] == subs[1..][..k - 1];
      var rest := Unexpired(subs[1..][..k - 1], readings[1..][..k - 1]);
      if Expired(subs[0], clock[0]) {
        assert [] + rest == rest;
      } else {
        assert ([subs[0]] + rest)[1..] == rest;
      }
    }
  }
}
