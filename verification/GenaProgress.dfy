// Requeueing cannot livelock: with a first-in first-out pool, however the workers are scheduled,
// only boundedly many steps do anything but wait for a transmission, and at the end of them every
// job has been sent or dropped.
module GenaProgress {
  import opened EventKeys
  import opened GenaState
  import opened GenaInvariant
  import opened GenaSteps
  import opened GenaRuns

  // A job that a worker will not put back: its subscription is gone or it is its turn.
  predicate Enabled(s: State, j: Job) {
    var i := IndexOf(s.subs, j.sid);
    !s.valid || i == |s.subs| || s.subs[i].toSendEventKey == j.eventKey
  }

  // Where the first such job stands in the pool, or the length of the pool.
  function FirstEnabled(s: State, jobs: seq<Job>): (n: nat)
    ensures n <= |jobs| && (n < |jobs| ==> Enabled(s, jobs[n]))
    ensures forall k :: 0 <= k < n ==> !Enabled(s, jobs[k])
    decreases |jobs|
  {
    if jobs == [] || Enabled(s, jobs[0]) then 0 else 1 + FirstEnabled(s, jobs[1..])
  }

  // A queued job weighs two, as it is picked and finished.
  function Work(s: State): nat {
    2 * |s.pool| + |s.transit|
  }

  // With jobs outstanding for a live subscription, one is enabled in the pool or in transit.
  lemma SomeEnabled(s: State, n: nat)
    requires Inv(s) && n < |s.subs| && Outstanding(s, s.subs[n].sid) != multiset{}
    ensures
      || Keys(s.transit, s.subs[n].sid) != multiset{}
      || exists k :: 0 <= k < |s.pool| && Enabled(s, s.pool[k]) && s.pool[k].sid == s.subs[n].sid
  {
    var sub := s.subs[n];
    InvParts(s);
    SubsAre(s, n);
    FitsParts(s, sub);
    var all := Outstanding(s, sub.sid);
    KeysOnce(sub.toSendEventKey, |all|, sub.toSendEventKey);
    if Keys(s.transit, sub.sid) == multiset{} {
      assert Keys(s.pool, sub.sid)[sub.toSendEventKey] > 0;
      var k := JobWithKey(s.pool, sub.sid, sub.toSendEventKey);
      IndexOfThis(s.subs, n);
      assert Enabled(s, s.pool[k]);
    }
  }

  lemma IndexOfThis(subs: seq<Sub>, n: nat)
    requires Unique(subs) && n < |subs|
    ensures IndexOf(subs, subs[n].sid) == n
  {
  }

  lemma {:induction false} JobWithKey(jobs: seq<Job>, sid: Sid, x: Key) returns (k: nat)
    requires Keys(jobs, sid)[x] > 0
    ensures k < |jobs| && jobs[k].sid == sid && jobs[k].eventKey == x
    decreases jobs
  {
    if jobs[0].sid == sid && jobs[0].eventKey == x {
      k := 0;
    } else {
      k := JobWithKey(jobs[1..], sid, x);
      k := k + 1;
    }
  }

  // A worker that finds no enabled job can only be waiting for a transmission to end.
  lemma SpinWaits(s: State)
    requires Inv(s) && s.pool != [] && FirstEnabled(s, s.pool) == |s.pool|
    ensures s.transit != []
  {
    var j := s.pool[0];
    assert !Enabled(s, j);
    var n := IndexOf(s.subs, j.sid);
    KeyIn(s.pool, 0);
    SomeEnabled(s, n);
  }

  // An enabled job leaves the pool when it is picked.
  lemma EnabledLeaves(s: State, i: nat, now: int)
    requires Inv(s) && i < |s.pool| && Enabled(s, s.pool[i])
    ensures Work(OnPick(s, i, now)) < Work(s)
  {
    hide Inv, Lookup, Release;
  }

  // A job that is not enabled is put back behind all others, and nothing else changes, or its
  // subscription has expired and it is dropped.
  lemma DisabledWaits(s: State, i: nat, now: int)
    requires Inv(s) && i < |s.pool| && !Enabled(s, s.pool[i])
    ensures OnPick(s, i, now) == Requeued(s, i) || Work(OnPick(s, i, now)) < Work(s)
  {
    InvParts(s);
    hide Inv, Release;
    LookedUp(s, s.pool[i].sid, now);
    hide Lookup;
  }

  lemma FinishWorks(s: State, i: nat, now: int, remove: bool)
    requires Inv(s) && i < |s.transit|
    ensures Work(OnFinish(s, i, now, remove)) < Work(s) && OnFinish(s, i, now, remove).pool == s.pool
  {
    hide Inv, Lookup, Release, Removed;
  }

  lemma {:induction false} FirstEnabledKept(s: State, t: State, jobs: seq<Job>, j: Job)
    requires t.subs == s.subs && t.valid == s.valid && FirstEnabled(s, jobs) < |jobs|
    ensures FirstEnabled(t, jobs + [j]) == FirstEnabled(s, jobs)
    decreases jobs
  {
    assert (jobs + [j])[0] == jobs[0];
    if !Enabled(s, jobs[0]) {
      assert (jobs + [j])[1..] == jobs[1..] + [j];
      FirstEnabledKept(s, t, jobs[1..], j);
    }
  }

  // One step of a worker, with a pool that hands out its oldest job.
  predicate WorkerStep(s: State, a: Action) {
    match a
    case Pick(i, _) => i == 0 && FirstEnabled(s, s.pool) < |s.pool|
    case Finish(i, _, _) => i < |s.transit|
    case _ => false
  }

  // Every such step brings the end nearer: less work, or the first enabled job one place
  // further to the front. Only a pick with no enabled job in the pool does not, and then a
  // transmission is in flight.
  lemma RankFalls(s: State, a: Action)
    requires Inv(s) && WorkerStep(s, a)
    ensures Possible(s, a)
    ensures var t := Next(s, a);
      Work(t) < Work(s) || (Work(t) == Work(s) && FirstEnabled(t, t.pool) < FirstEnabled(s, s.pool))
  {
    match a
    case Pick(i, now) =>
      hide Inv, OnPick, Work;
      if Enabled(s, s.pool[0]) {
        EnabledLeaves(s, 0, now);
      } else {
        DisabledWaits(s, 0, now);
        if OnPick(s, 0, now) == Requeued(s, 0) {
          RequeueMoves(s);
        }
      }
    case Finish(i, now, remove) =>
      hide Inv, OnFinish, Work;
      FinishWorks(s, i, now, remove);
  }

  lemma RequeueMoves(s: State)
    requires s.pool != [] && FirstEnabled(s, s.pool) < |s.pool| && !Enabled(s, s.pool[0])
    ensures var t := Requeued(s, 0); Work(t) == Work(s) && FirstEnabled(t, t.pool) < FirstEnabled(s, s.pool)
  {
    hide Enabled;
    assert RemoveAt(s.pool, 0) == s.pool[1..];
    FirstEnabledKept(s, Requeued(s, 0), s.pool[1..], s.pool[0]);
  }

  // ---- every schedule of the workers

  // A worker picks the oldest job, or finishes a transmission in flight.
  predicate WorkerAction(s: State, a: Action) {
    match a
    case Pick(i, _) => i == 0 && s.pool != []
    case Finish(i, _, _) => i < |s.transit|
    case _ => false
  }

  // A pick with no enabled job in the pool.
  predicate Spins(s: State, a: Action) {
    WorkerAction(s, a) && !WorkerStep(s, a)
  }

  predicate WorkerRun(s: State, actions: seq<Action>)
    decreases |actions|
  {
    || actions == []
    || (WorkerAction(s, actions[0]) && Possible(s, actions[0]) && WorkerRun(Next(s, actions[0]), actions[1..]))
  }

  // How many steps of a run are not spins.
  function Moves(s: State, actions: seq<Action>): nat
    requires WorkerRun(s, actions)
    decreases |actions|
  {
    if actions == [] then 0
    else (if Spins(s, actions[0]) then 0 else 1) + Moves(Next(s, actions[0]), actions[1..])
  }

  function After(s: State, actions: seq<Action>): State
    requires WorkerRun(s, actions)
    decreases |actions|
  {
    if actions == [] then s else After(Next(s, actions[0]), actions[1..])
  }

  // A bound on the moves still to come.
  function Budget(s: State): nat {
    Work(s) * (Work(s) + 1) + FirstEnabled(s, s.pool)
  }

  // A spin makes no more work, and brings no enabled job behind others.
  lemma SpinKeeps(s: State, now: int)
    requires Inv(s) && s.pool != [] && FirstEnabled(s, s.pool) == |s.pool|
    ensures var t := OnPick(s, 0, now);
      Work(t) < Work(s) || (Work(t) == Work(s) && FirstEnabled(t, t.pool) == FirstEnabled(s, s.pool))
  {
    hide Inv, OnPick, Work;
    assert !Enabled(s, s.pool[0]);
    DisabledWaits(s, 0, now);
    if OnPick(s, 0, now) == Requeued(s, 0) {
      SpinRequeues(s);
    }
  }

  lemma SpinRequeues(s: State)
    requires s.pool != [] && FirstEnabled(s, s.pool) == |s.pool|
    ensures var t := Requeued(s, 0); Work(t) == Work(s) && FirstEnabled(t, t.pool) == FirstEnabled(s, s.pool)
  {
    var t := Requeued(s, 0);
    assert t.pool == s.pool[1..] + [s.pool[0]];
    forall k | 0 <= k < |t.pool| ensures !Enabled(t, t.pool[k]) {
      assert t.pool[k] == s.pool[if k + 1 < |s.pool| then k + 1 else 0];
    }
  }

  lemma BudgetFalls(s: State, t: State)
    requires Work(t) < Work(s) || (Work(t) == Work(s) && FirstEnabled(t, t.pool) < FirstEnabled(s, s.pool))
    ensures Budget(t) < Budget(s)
  {
    var v, w, e, f := Work(t), Work(s), FirstEnabled(t, t.pool), FirstEnabled(s, s.pool);
    assert e <= v;
    hide *;
    if v < w {
      Squares(v, w);
    }
    BudgetIs(s);
    BudgetIs(t);
  }

  lemma BudgetIs(s: State)
    ensures Budget(s) == Work(s) * (Work(s) + 1) + FirstEnabled(s, s.pool)
  {
  }

  lemma Squares(v: nat, w: nat)
    requires v < w
    ensures v * (v + 1) + v < w * (w + 1)
  {
    assert v * (v + 1) <= w * v;
    assert w * v + v < w * w + w;
  }

  lemma WorkerKeepsInv(s: State, a: Action)
    requires Inv(s) && WorkerAction(s, a)
    ensures Possible(s, a) && Inv(Next(s, a))
    ensures if Spins(s, a) then Budget(Next(s, a)) <= Budget(s) else Budget(Next(s, a)) < Budget(s)
  {
    hide Inv, OnPick, OnFinish, Work, FirstEnabled, Budget;
    match a
    case Pick(i, now) =>
      PickKeeps(s, 0, now);
      if Spins(s, a) {
        SpinKeeps(s, now);
        SpinBudget(s, Next(s, a));
      } else {
        RankFalls(s, a);
        BudgetFalls(s, Next(s, a));
      }
    case Finish(i, now, remove) =>
      FinishKeeps(s, i, now, remove);
      RankFalls(s, a);
      BudgetFalls(s, Next(s, a));
  }

  lemma SpinBudget(s: State, t: State)
    requires Work(t) < Work(s) || (Work(t) == Work(s) && FirstEnabled(t, t.pool) == FirstEnabled(s, s.pool))
    ensures Budget(t) <= Budget(s)
  {
    hide Work, FirstEnabled;
    if Work(t) < Work(s) {
      BudgetFalls(s, t);
    }
  }

  // However the workers are scheduled, whatever expires and whatever the subscribers answer: a
  // run has a bounded number of steps that are not spins.
  lemma {:induction false} AllSchedules(s: State, actions: seq<Action>)
    requires Inv(s) && WorkerRun(s, actions)
    ensures Inv(After(s, actions))
    ensures Moves(s, actions) + Budget(After(s, actions)) <= Budget(s)
    decreases |actions|
  {
    hide Inv, Next, Budget, WorkerAction, Spins;
    if actions != [] {
      WorkerKeepsInv(s, actions[0]);
      AllSchedules(Next(s, actions[0]), actions[1..]);
    }
  }

  // A worker can do nothing but spin exactly when it has nothing to do: nothing is queued and
  // nothing in flight.
  lemma NothingLeft(s: State)
    requires Inv(s)
    ensures (forall a :: !WorkerStep(s, a)) <==> s.pool == [] && s.transit == []
  {
    if s.pool != [] || s.transit != [] {
      hide Inv, FirstEnabled;
      ChosenIs(s, 0);
    }
  }

  // Where a run ends that no step but a spin can carry on, nothing is queued or in flight, and
  // every subscription that is left has been sent all its events.
  lemma AllDelivered(s: State, actions: seq<Action>)
    requires Inv(s) && WorkerRun(s, actions) && forall a :: !WorkerStep(After(s, actions), a)
    ensures var t := After(s, actions);
      t.pool == [] && t.transit == [] && forall k :: 0 <= k < |t.subs| ==>
        t.subs[k].toSendEventKey == t.subs[k].eventKey
  {
    hide Inv, WorkerStep;
    var t := After(s, actions);
    AllSchedules(s, actions);
    NothingLeft(t);
    forall k | 0 <= k < |t.subs| ensures t.subs[k].toSendEventKey == t.subs[k].eventKey {
      AllSent(t, k);
    }
  }

  // ---- one schedule, with nothing lost

  // Workers alone empty the pool. When no subscription is expired and no subscriber answers
  // that it does not know its SID, every outstanding event is transmitted on the way.
  lemma {:induction false} Drain(s: State, now: int) returns (actions: seq<Action>)
    requires Inv(s) && forall sub :: sub in s.subs ==> !Expired(sub, now)
    ensures PossibleRun(s, actions)
    ensures var t := Run(s, actions);
      && t.pool == [] && t.transit == [] && Inv(t)
      && |t.subs| == |s.subs| && t.valid == s.valid
      && forall k :: 0 <= k < |s.subs| ==> t.subs[k] == s.subs[k].(toSendEventKey := s.subs[k].eventKey)
    decreases Work(s), FirstEnabled(s, s.pool)
  {
    if s.pool == [] && s.transit == [] {
      actions := [];
      forall k | 0 <= k < |s.subs| ensures s.subs[k].toSendEventKey == s.subs[k].eventKey {
        AllSent(s, k);
      }
    } else {
      hide *;
      var a := Chosen(s, now);
      ChosenIs(s, now);
      RankFalls(s, a);
      WorkerKeeps(s, now);
      var t := Next(s, a);
      var rest := Drain(t, now);
      actions := [a] + rest;
      RunCons(s, a, rest);
    }
  }

  lemma RunCons(s: State, a: Action, rest: seq<Action>)
    requires Possible(s, a) && PossibleRun(Next(s, a), rest)
    ensures PossibleRun(s, [a] + rest) && Run(s, [a] + rest) == Run(Next(s, a), rest)
  {
    hide Possible, Next;
    assert ([a] + rest)[0] == a && ([a] + rest)[1..] == rest;
  }

  // A transmission in flight ends, or else the oldest job is picked.
  function Chosen(s: State, now: int): Action {
    if s.transit != [] then Finish(0, now, false) else Pick(0, now)
  }

  lemma ChosenIs(s: State, now: int)
    requires Inv(s) && (s.pool != [] || s.transit != [])
    ensures WorkerStep(s, Chosen(s, now))
  {
    if s.transit == [] && FirstEnabled(s, s.pool) == |s.pool| {
      SpinWaits(s);
    }
  }

  // With no key outstanding, everything has been transmitted.
  lemma AllSent(s: State, k: nat)
    requires Inv(s) && k < |s.subs| && s.pool == [] && s.transit == []
    ensures s.subs[k].toSendEventKey == s.subs[k].eventKey
  {
    InvParts(s);
    SubsAre(s, k);
    FitsParts(s, s.subs[k]);
  }

  // A chosen step keeps every subscription, but for the key to send next.
  lemma WorkerKeeps(s: State, now: int)
    requires Inv(s) && (forall sub :: sub in s.subs ==> !Expired(sub, now)) && WorkerStep(s, Chosen(s, now))
    ensures Possible(s, Chosen(s, now))
    ensures var t := Next(s, Chosen(s, now));
      && Inv(t) && t.valid == s.valid && |t.subs| == |s.subs|
      && (forall sub :: sub in t.subs ==> !Expired(sub, now))
      && forall k :: 0 <= k < |s.subs| ==> t.subs[k] == s.subs[k].(toSendEventKey := t.subs[k].toSendEventKey)
  {
    var a := Chosen(s, now);
    var t := Next(s, a);
    if a.Pick? {
      PickKeeps(s, 0, now);
      PickLeaves(s, now);
      InvParts(t);
    } else {
      FinishKeeps(s, 0, now, false);
      FinishLeaves(s, now);
    }
    hide Inv, OnPick, OnFinish;
    forall sub | sub in t.subs ensures !Expired(sub, now) {
      var k :| 0 <= k < |t.subs| && t.subs[k] == sub;
      assert s.subs[k] in s.subs;
    }
  }

  lemma PickLeaves(s: State, now: int)
    requires s.pool != [] && forall sub :: sub in s.subs ==> !Expired(sub, now)
    ensures var t := OnPick(s, 0, now); t.valid == s.valid && t.subs == s.subs
  {
    hide Expired, Release;
  }

  lemma FinishLeaves(s: State, now: int)
    requires s.transit != [] && forall sub :: sub in s.subs ==> !Expired(sub, now)
    ensures var t := OnFinish(s, 0, now, false);
      && t.valid == s.valid && |t.subs| == |s.subs|
      && forall k :: 0 <= k < |s.subs| ==> t.subs[k] == s.subs[k].(toSendEventKey := t.subs[k].toSendEventKey)
  {
    hide Expired, Release, Removed;
  }
}
