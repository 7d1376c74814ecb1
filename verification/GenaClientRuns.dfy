// Which events a control point accepts, over whole runs: those whose SID stood in its list when they were
// looked up, and no SID gets into the list that no publisher gave out (src/gena/gena_client.c:286-349,
// 533-650, 677-844).
module GenaClientRuns {
  import opened Bytes
  import opened GenaClient

  // All states of a run, the first and the last included.
  function Trace(s: State, actions: seq<Action>): (r: seq<State>)
    requires PossibleRun(s, actions)
    ensures |r| == |actions| + 1 && r[0] == s && r[|actions|] == Run(s, actions)
    decreases actions
  {
    if actions == [] then [s] else [s] + Trace(Next(s, actions[0]), actions[1..])
  }

  // The SIDs in the answers that publishers give to subscribers and renewers.
  function GivenOut(s: State, actions: seq<Action>): set<Sid>
    requires PossibleRun(s, actions)
    decreases actions
  {
    if actions == [] then {}
    else Answer(s, actions[0]) + GivenOut(Next(s, actions[0]), actions[1..])
  }

  function Answer(s: State, a: Action): set<Sid> {
    if a.Step? && a.t < |s.threads| && a.response.Some?
       && (s.threads[a.t].pc == SubExchanging || s.threads[a.t].pc == RenewExchanging)
    then {a.response.value} else {}
  }

  // The SID of an event is the front part of one in the list.
  predicate FrontOfListed(subs: seq<Entry>, sid: Sid) {
    exists i :: 0 <= i < |subs| && sid <= subs[i].actual
  }

  lemma KnowsIsFront(subs: seq<Entry>, sid: Sid)
    ensures Knows(subs, sid) <==> FrontOfListed(subs, sid)
  {
    if Knows(subs, sid) {
      var i :| 0 <= i < |subs| && Matches(subs[i].actual, sid);
      assert sid <= subs[i].actual;
    }
    if FrontOfListed(subs, sid) {
      var i :| 0 <= i < |subs| && sid <= subs[i].actual;
      assert Matches(subs[i].actual, sid);
    }
  }

  // ---- what is listed was given out

  // All SIDs in the list, and in the answers that threads have yet to record, are among these.
  ghost predicate Among(s: State, given: set<Sid>) {
    && (forall i :: 0 <= i < |s.subs| ==> s.subs[i].actual in given)
    && (forall t :: 0 <= t < |s.threads| && s.threads[t].response.Some? ==> s.threads[t].response.value in given)
  }

  lemma AmongParts(s: State, given: set<Sid>)
    requires Among(s, given)
    ensures forall e :: e in s.subs ==> e.actual in given
    ensures forall th :: th in s.threads && th.response.Some? ==> th.response.value in given
  {
  }

  lemma AmongKept(s: State, a: Action, given: set<Sid>)
    requires Among(s, given) && Possible(s, a)
    ensures Among(Next(s, a), given + Answer(s, a))
  {
    hide Finds, IndexOf, HandleLockAfter, SubscribeLockAfter, Blocked;
    AmongParts(s, given);
    if a.Step? {
      StepAmong(s, a.t, a.response, a.good, given);
    }
  }

  lemma StepAmong(s: State, t: nat, response: Option<Sid>, good: bool, given: set<Sid>)
    requires Among(s, given) && CanStep(s, t)
    ensures Among(StepThread(s, t, response, good), given + Answer(s, Step(t, response, good)))
  {
    var n := StepThread(s, t, response, good);
    var all := given + Answer(s, Step(t, response, good));
    OnlyItsPlace(s, t, response, good);
    ResponseAfter(s.threads[t], s.valid, Finds(s.subs, s.threads[t]), response, good);
    SubsAfter(s, t, response, good);
    hide StepThread, Finds, Blocked, After;
    forall i | 0 <= i < |n.subs| ensures n.subs[i].actual in all {
      if n.subs[i] in s.subs {
        AmongParts(s, given);
      } else {
        assert n.subs[i].actual in given;
      }
    }
  }

  lemma ResponseAfter(th: Thread, valid: bool, known: bool, response: Option<Sid>, good: bool)
    ensures After(th, valid, known, response, good).response ==
      if th.pc == SubExchanging || th.pc == RenewExchanging then response else th.response
  {
  }

  // A step puts nothing into the list but the SID of its thread's answer.
  lemma SubsAfter(s: State, t: nat, response: Option<Sid>, good: bool)
    requires CanStep(s, t)
    ensures forall e :: e in StepThread(s, t, response, good).subs ==>
      e in s.subs || (s.threads[t].response.Some? && e.actual == s.threads[t].response.value)
  {
    hide Finds, After, HandleLockAfter, SubscribeLockAfter, Blocked;
  }

  lemma {:induction false} RunAmong(s: State, actions: seq<Action>, given: set<Sid>)
    requires PossibleRun(s, actions) && Among(s, given)
    ensures Among(Run(s, actions), given + GivenOut(s, actions))
    decreases actions
  {
    hide Next, Possible, Among, Answer;
    if actions == [] {
      assert given + {} == given;
    } else {
      AmongKept(s, actions[0], given);
      RunAmong(Next(s, actions[0]), actions[1..], given + Answer(s, actions[0]));
      assert given + Answer(s, actions[0]) + GivenOut(Next(s, actions[0]), actions[1..])
          == given + (Answer(s, actions[0]) + GivenOut(Next(s, actions[0]), actions[1..]));
    }
  }

  // Whatever is in the list was given out in an answer before.
  lemma ListedWasGiven(actions: seq<Action>, i: nat)
    requires PossibleRun(INITIAL, actions) && i < |Run(INITIAL, actions).subs|
    ensures Run(INITIAL, actions).subs[i].actual in GivenOut(INITIAL, actions)
  {
    RunAmong(INITIAL, actions, {});
  }

  // ---- what becomes of an event

  // A notifier looks its event's SID up in the list, once or twice.
  predicate LooksUp(s: State, a: Action, t: nat) {
    && a.Step? && a.t == t && t < |s.threads| && s.threads[t].notifier
    && (s.threads[t].pc == NotifyLooking || s.threads[t].pc == NotifyLookingAgain)
  }

  // Only a first event whose SID is not listed is looked up again.
  predicate Settles(s: State, th: Thread) {
    th.pc == NotifyLookingAgain || !s.valid || FrontOfListed(s.subs, th.sid) || th.seqKey != 0
  }

  // The look that settles it is the one of action k; end is the notifier when it is done.
  predicate SettledAt(trace: seq<State>, actions: seq<Action>, t: nat, k: nat, end: Thread)
    requires |trace| == |actions| + 1
  {
    && k < |actions| && LooksUp(trace[k], actions[k], t)
    && SameEvent(trace[k].threads[t], end) && Settles(trace[k], trace[k].threads[t])
    && (end.ok <==> trace[k].valid && FrontOfListed(trace[k].subs, end.sid))
  }

  // A notifier that has not settled its event yet.
  predicate Unsettled(th: Thread) {
    && th.notifier
    && (th.pc == NotifyStart || th.pc == NotifyLooking || th.pc == NotifyWantsLock || th.pc == NotifyWantsHandle
        || th.pc == NotifyLookingAgain)
  }

  predicate Settled(th: Thread) {
    th.notifier && (th.pc == NotifyLeaving || th.pc == Done)
  }

  // What an action does to a thread that has been started.
  lemma OneThread(s: State, a: Action, t: nat)
    requires Possible(s, a) && t < |s.threads|
    ensures t < |Next(s, a).threads|
    ensures var th := s.threads[t];
      Next(s, a).threads[t] == (if a.Step? && a.t == t
                                then After(th, s.valid, Finds(s.subs, th), a.response, a.good) else th)
  {
    hide StepThread, Finds, After, Blocked, FrontOfListed;
    if a.Step? {
      OnlyItsPlace(s, a.t, a.response, a.good);
    }
  }

  lemma StartsAs(s: State, a: Action, t: nat)
    requires Possible(s, a) && |s.threads| <= t < |Next(s, a).threads|
    ensures var th := Next(s, a).threads[t]; !th.notifier || Unsettled(th)
  {
    hide StepThread, Finds, After, Blocked, FrontOfListed;
    if a.Step? {
      OnlyItsPlace(s, a.t, a.response, a.good);
    }
  }

  // One step of a notifier that has not settled its event: it still has not, or this was the look.
  lemma LookStep(s: State, th: Thread, response: Option<Sid>, good: bool)
    requires Unsettled(th)
    ensures var n := After(th, s.valid, Finds(s.subs, th), response, good);
      && SameEvent(th, n)
      && (Unsettled(n) || (Settled(n) && (th.pc == NotifyLooking || th.pc == NotifyLookingAgain) && Settles(s, th)
                           && (n.ok <==> s.valid && FrontOfListed(s.subs, th.sid))))
  {
    KnowsIsFront(s.subs, th.sid);
    hide Knows, FrontOfListed;
  }

  lemma SettledStays(th: Thread, valid: bool, known: bool, response: Option<Sid>, good: bool)
    requires Settled(th)
    ensures var n := After(th, valid, known, response, good); Settled(n) && n.ok == th.ok && SameEvent(th, n)
  {
  }

  lemma {:induction false} OkStays(s: State, actions: seq<Action>, t: nat)
    requires PossibleRun(s, actions) && t < |s.threads| && Settled(s.threads[t])
    ensures t < |Run(s, actions).threads| && SameEvent(s.threads[t], Run(s, actions).threads[t])
    ensures Run(s, actions).threads[t].ok == s.threads[t].ok
    decreases actions
  {
    hide Next, Possible, After, Finds, Settled;
    if actions != [] {
      var a, n := actions[0], Next(s, actions[0]);
      OneThread(s, a, t);
      if a.Step? && a.t == t {
        SettledStays(s.threads[t], s.valid, Finds(s.subs, s.threads[t]), a.response, a.good);
      }
      OkStays(n, actions[1..], t);
    }
  }

  lemma {:induction false} StaysNoNotifier(s: State, actions: seq<Action>, t: nat)
    requires PossibleRun(s, actions) && t < |s.threads| && !s.threads[t].notifier
    ensures t < |Run(s, actions).threads| && !Run(s, actions).threads[t].notifier
    decreases actions
  {
    hide Next, Possible, After, Finds;
    if actions != [] {
      var a, n := actions[0], Next(s, actions[0]);
      OneThread(s, a, t);
      if a.Step? && a.t == t {
        SameEventAfter(s.threads[t], s.valid, Finds(s.subs, s.threads[t]), a.response, a.good);
      }
      StaysNoNotifier(n, actions[1..], t);
    }
  }

  // The position of the look that settles the event of notifier t.
  lemma {:induction false} LookOf(s: State, actions: seq<Action>, t: nat) returns (k: nat)
    requires PossibleRun(s, actions) && t < |Run(s, actions).threads|
    requires Run(s, actions).threads[t].notifier && Run(s, actions).threads[t].pc == Done
    requires t < |s.threads| ==> Unsettled(s.threads[t])
    ensures SettledAt(Trace(s, actions), actions, t, k, Run(s, actions).threads[t])
    decreases actions
  {
    hide Next, Possible, After, Finds, Settles, FrontOfListed;
    assert actions != [];
    var a, n, rest := actions[0], Next(s, actions[0]), actions[1..];
    assert Trace(s, actions) == [s] + Trace(n, rest);
    if t < |s.threads| {
      OneThread(s, a, t);
    }
    if t < |s.threads| && !Unsettled(n.threads[t]) {
      LookStep(s, s.threads[t], a.response, a.good);
      OkStays(n, rest, t);
      return 0;
    } else {
      StillUnsettled(s, a, rest, t);
      var i := LookOf(n, rest, t);
      assert Trace(s, actions)[i + 1] == Trace(n, rest)[i] && actions[i + 1] == rest[i];
      return i + 1;
    }
  }

  lemma StillUnsettled(s: State, a: Action, rest: seq<Action>, t: nat)
    requires Possible(s, a) && PossibleRun(Next(s, a), rest) && t < |Run(Next(s, a), rest).threads|
    requires Run(Next(s, a), rest).threads[t].notifier
    requires t < |s.threads| ==> t < |Next(s, a).threads| && Unsettled(Next(s, a).threads[t])
    ensures t < |Next(s, a).threads| ==> Unsettled(Next(s, a).threads[t])
  {
    hide *;
    var n := Next(s, a);
    if |s.threads| <= t < |n.threads| {
      StartsAs(s, a, t);
      if !n.threads[t].notifier {
        StaysNoNotifier(n, rest, t);
      }
    }
  }

  // In every interleaving, and for every SEQ: an event that has been handled was looked up in the list
  // by its thread, a second time where the first look did not settle it, and it was accepted if and only
  // if the client was registered then and the event's SID was the front part of one in the list.
  lemma AcceptedIfListed(actions: seq<Action>, t: nat)
    requires PossibleRun(INITIAL, actions) && t < |Run(INITIAL, actions).threads|
    requires Run(INITIAL, actions).threads[t].notifier && Run(INITIAL, actions).threads[t].pc == Done
    ensures exists k: nat :: SettledAt(Trace(INITIAL, actions), actions, t, k, Run(INITIAL, actions).threads[t])
  {
    hide Run, PossibleRun, Trace, SettledAt;
    var k := LookOf(INITIAL, actions, t);
  }

  // ---- states of a run are ends of shorter runs

  lemma {:induction false} TraceAt(s: State, actions: seq<Action>, k: nat)
    requires PossibleRun(s, actions) && k <= |actions|
    ensures PossibleRun(s, actions[..k]) && Trace(s, actions)[k] == Run(s, actions[..k])
    ensures GivenOut(s, actions[..k]) <= GivenOut(s, actions)
    decreases actions
  {
    hide Next, Possible, Answer;
    if k > 0 {
      var n, rest := Next(s, actions[0]), actions[1..];
      TraceAt(n, rest, k - 1);
      assert actions[..k][0] == actions[0] && actions[..k][1..] == rest[..k - 1];
    }
  }

  lemma {:induction false} RunOn(s: State, actions: seq<Action>, k: nat)
    requires PossibleRun(s, actions) && k <= |actions|
    ensures PossibleRun(Trace(s, actions)[k], actions[k..])
    ensures Run(Trace(s, actions)[k], actions[k..]) == Run(s, actions)
    ensures k < |actions| ==> Possible(Trace(s, actions)[k], actions[k])
    ensures k < |actions| ==> Trace(s, actions)[k + 1] == Next(Trace(s, actions)[k], actions[k])
    decreases actions
  {
    hide Next, Possible;
    if k > 0 {
      RunOn(Next(s, actions[0]), actions[1..], k - 1);
      assert actions[1..][k - 1..] == actions[k..];
    } else {
      assert actions[0..] == actions;
    }
  }

  // So an event is accepted only with the front part of a SID that some publisher gave out, to a
  // subscriber or a renewer, and that stood in the list.
  lemma AcceptedWasGiven(actions: seq<Action>, t: nat) returns (k: nat, i: nat)
    requires PossibleRun(INITIAL, actions) && t < |Run(INITIAL, actions).threads|
    requires Run(INITIAL, actions).threads[t].notifier && Run(INITIAL, actions).threads[t].pc == Done
    requires Run(INITIAL, actions).threads[t].ok
    ensures k < |actions| && i < |Trace(INITIAL, actions)[k].subs|
    ensures var given := Trace(INITIAL, actions)[k].subs[i].actual;
      Run(INITIAL, actions).threads[t].sid <= given && given in GivenOut(INITIAL, actions)
  {
    hide Run, PossibleRun, Trace, GivenOut;
    k := LookOf(INITIAL, actions, t);
    var s := Trace(INITIAL, actions)[k];
    var sid := Run(INITIAL, actions).threads[t].sid;
    i :| 0 <= i < |s.subs| && sid <= s.subs[i].actual;
    TraceAt(INITIAL, actions, k);
    ListedWasGiven(actions[..k], i);
  }

  // ---- what becomes of a subscription

  predicate Recorder(th: Thread) {
    th.pc == SubLeaving || th.pc == Done
  }

  lemma {:induction false} RecorderStays(s: State, actions: seq<Action>, t: nat)
    requires PossibleRun(s, actions) && t < |s.threads| && Recorder(s.threads[t])
    ensures t < |Run(s, actions).threads|
    ensures var th := Run(s, actions).threads[t];
      th.ok == s.threads[t].ok && th.response == s.threads[t].response
    decreases actions
  {
    hide Next, Possible, After, Finds, Recorder;
    if actions != [] {
      var a := actions[0];
      OneThread(s, a, t);
      if a.Step? && a.t == t {
        StaysRecorder(s.threads[t], s.valid, Finds(s.subs, s.threads[t]), a.response, a.good);
      }
      RecorderStays(Next(s, a), actions[1..], t);
    }
  }

  lemma StaysRecorder(th: Thread, valid: bool, known: bool, response: Option<Sid>, good: bool)
    requires Recorder(th)
    ensures var n := After(th, valid, known, response, good);
      Recorder(n) && n.ok == th.ok && n.response == th.response
  {
  }

  lemma RecordStep(s: State, t: nat, response: Option<Sid>, good: bool)
    requires CanStep(s, t) && s.threads[t].pc == SubRecording
    ensures var n := StepThread(s, t, response, good);
      && t < |n.threads| && Recorder(n.threads[t])
      && n.threads[t].response == s.threads[t].response
      && (n.threads[t].ok <==> s.threads[t].response.Some? && s.threads[t].good && s.valid)
      && n.subs == (if n.threads[t].ok then [Entry(t, n.threads[t].response.value)] + s.subs else s.subs)
  {
    hide Finds, Blocked, HandleLockAfter, SubscribeLockAfter, IndexOf;
  }

  // A subscriber succeeds if and only if it was given a SID in a good answer and the client is still
  // registered; it has then put this SID in front of the list, under its own number, and otherwise has
  // left the list as it was.
  lemma SubscribedIsListed(actions: seq<Action>, t: nat, k: nat)
    requires PossibleRun(INITIAL, actions) && k < |actions|
    requires actions[k].Step? && actions[k].t == t && t < |Trace(INITIAL, actions)[k].threads|
    requires Trace(INITIAL, actions)[k].threads[t].pc == SubRecording
    ensures t < |Run(INITIAL, actions).threads|
    ensures var trace, end := Trace(INITIAL, actions), Run(INITIAL, actions).threads[t];
      && end.response == trace[k].threads[t].response
      && (end.ok <==> end.response.Some? && trace[k].threads[t].good && trace[k].valid)
    ensures var trace, end := Trace(INITIAL, actions), Run(INITIAL, actions).threads[t];
      if end.ok then end.response.Some? && trace[k + 1].subs == [Entry(t, end.response.value)] + trace[k].subs
      else trace[k + 1].subs == trace[k].subs
  {
    RunOn(INITIAL, actions, k);
    hide Run, PossibleRun, Trace, StepThread, CanStep, Recorder;
    var s := Trace(INITIAL, actions)[k];
    RecordStep(s, t, actions[k].response, actions[k].good);
    RunOn(INITIAL, actions, k + 1);
    RecorderStays(Trace(INITIAL, actions)[k + 1], actions[k + 1..], t);
  }
}
