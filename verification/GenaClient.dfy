// The control point side of eventing (src/gena/gena_client.c:286-349, 533-650 and 677-844):
// subscribing and renewing threads and threads that handle incoming events, under the handle lock
// and the subscribe lock.
module GenaClient {
  import opened Bytes

  type Sid = string

  // Where a thread is. A subscriber checks its handle, takes the subscribe lock for the whole
  // exchange, and the handle lock to record the result; response is the SID the publisher gave
  // out, good says that the answer can be used. A notifier takes the handle lock, and for a first
  // event it does not know both locks, the subscribe lock first. A renewer takes the handle lock to
  // look its subscription up, and again to record the answer, but never the subscribe lock.
  datatype Pc =
    | SubStart | SubChecking | SubWantsLock | SubExchanging | SubWantsHandle | SubRecording | SubLeaving
    | NotifyStart | NotifyLooking | NotifyWantsLock | NotifyWantsHandle | NotifyLookingAgain | NotifyLeaving
    | RenewStart | RenewChecking | RenewExchanging | RenewWantsHandle | RenewRecording
    | Done

  // For a notifier the SID and SEQ of the event, and whether the publisher had given out the
  // SID when the event came; for a renewer the subscription. response and good are what a
  // subscriber or a renewer is answered, ok is the result.
  datatype Thread = Thread(pc: Pc, notifier: bool, sid: Sid, seqKey: int, promised: bool, id: nat,
                           response: Option<Sid>, good: bool, ok: bool)

  // An entry of the subscription list: the SID made up by the client, of which the number of its
  // thread stands here, and the one given out by the publisher.
  datatype Entry = Entry(id: nat, actual: Sid)

  // valid says that the client handle is registered, subs is its subscription list. issued, failed,
  // gone and replaced are history: SIDs given out to subscribers, those whose subscribe did not
  // succeed, those removed later, and those that a renewal put another in the place of.
  datatype State = State(handleLock: Option<nat>, subscribeLock: Option<nat>, threads: seq<Thread>, valid: bool,
                         subs: seq<Entry>, issued: set<Sid>, failed: set<Sid>, gone: set<Sid>, replaced: set<Sid>)

  // GetClientSubActualSID compares as many bytes as the event's SID has.
  predicate Matches(actual: Sid, sid: Sid) {
    |sid| <= |actual| && actual[..|sid|] == sid
  }

  predicate Knows(subs: seq<Entry>, sid: Sid) {
    exists i :: 0 <= i < |subs| && Matches(subs[i].actual, sid)
  }

  predicate Listed(subs: seq<Entry>, sid: Sid) {
    exists i :: 0 <= i < |subs| && subs[i].actual == sid
  }

  // GetClientSubClientSID: the first entry of a client SID, or the length of the list.
  function IndexOf(subs: seq<Entry>, id: nat): (i: nat)
    ensures i <= |subs| && (i < |subs| ==> subs[i].id == id)
  {
    if subs == [] || subs[0].id == id then 0 else 1 + IndexOf(subs[1..], id)
  }

  // What a thread finds when it looks: its event's SID, or the subscription it is to renew.
  predicate Finds(subs: seq<Entry>, th: Thread) {
    if th.pc.RenewChecking? then IndexOf(subs, th.id) < |subs| else Knows(subs, th.sid)
  }

  predicate HoldsHandle(pc: Pc) {
    || pc.SubChecking? || pc.SubRecording? || pc.NotifyLooking? || pc.NotifyLookingAgain? || pc.NotifyLeaving?
    || pc.RenewChecking? || pc.RenewRecording?
  }

  predicate HoldsSubscribe(pc: Pc) {
    || pc.SubExchanging? || pc.SubWantsHandle? || pc.SubRecording? || pc.SubLeaving?
    || pc.NotifyWantsHandle? || pc.NotifyLookingAgain?
  }

  // A thread waits for a lock that is taken.
  predicate Blocked(s: State, pc: Pc) {
    || ((pc.SubStart? || pc.SubWantsHandle? || pc.NotifyStart? || pc.NotifyWantsHandle?) && s.handleLock.Some?)
    || ((pc.RenewStart? || pc.RenewWantsHandle?) && s.handleLock.Some?)
    || ((pc.SubWantsLock? || pc.NotifyWantsLock?) && s.subscribeLock.Some?)
  }

  predicate CanStep(s: State, t: nat) {
    t < |s.threads| && !s.threads[t].pc.Done? && !Blocked(s, s.threads[t].pc)
  }

  // The next place; look says that a first event's SID is not listed and may be yet, or that a
  // subscription to renew is there.
  function PcAfter(pc: Pc, valid: bool, look: bool): Pc {
    match pc
    case SubStart => SubChecking
    case SubChecking => if valid then SubWantsLock else Done
    case SubWantsLock => SubExchanging
    case SubExchanging => SubWantsHandle
    case SubWantsHandle => SubRecording
    case SubRecording => SubLeaving
    case SubLeaving => Done
    case NotifyStart => NotifyLooking
    case NotifyLooking => if valid && look then NotifyWantsLock else Done
    case NotifyWantsLock => NotifyWantsHandle
    case NotifyWantsHandle => NotifyLookingAgain
    case NotifyLookingAgain => NotifyLeaving
    case NotifyLeaving => Done
    case RenewStart => RenewChecking
    case RenewChecking => if valid && look then RenewExchanging else Done
    case RenewExchanging => RenewWantsHandle
    case RenewWantsHandle => RenewRecording
    case RenewRecording => Done
    case Done => Done
  }

  function Look(th: Thread, known: bool): bool {
    if th.pc.RenewChecking? then known else !known && th.seqKey == 0
  }

  predicate Exchanging(pc: Pc) {
    pc.SubExchanging? || pc.RenewExchanging?
  }

  // A thread after its next step; response and good are what an exchange brings, known says
  // what it finds.
  function After(th: Thread, valid: bool, known: bool, response: Option<Sid>, good: bool): Thread {
    th.(pc := PcAfter(th.pc, valid, Look(th, known)),
        response := if Exchanging(th.pc) then response else th.response,
        good := if Exchanging(th.pc) then good else th.good,
        ok := if th.pc.SubChecking? then false
              else if th.pc.SubRecording? then th.response.Some? && th.good && valid
              else if th.pc.NotifyLooking? || th.pc.NotifyLookingAgain? then valid && known
              else th.ok)
  }

  // The locks after the step of thread t at pc.
  function HandleLockAfter(pc: Pc, t: nat, lock: Option<nat>): Option<nat> {
    match pc
    case SubStart => Some(t)
    case SubWantsHandle => Some(t)
    case NotifyStart => Some(t)
    case NotifyWantsHandle => Some(t)
    case RenewStart => Some(t)
    case RenewWantsHandle => Some(t)
    case RenewChecking => None
    case RenewRecording => None
    case SubChecking => None
    case SubRecording => None
    case NotifyLooking => None
    case NotifyLeaving => None
    case _ => lock
  }

  function SubscribeLockAfter(pc: Pc, t: nat, lock: Option<nat>): Option<nat> {
    match pc
    case SubWantsLock => Some(t)
    case NotifyWantsLock => Some(t)
    case SubLeaving => None
    case NotifyLookingAgain => None
    case _ => lock
  }

  // A new subscription is put in front, or is noted as failed.
  function Recorded(s: State, t: nat): State
    requires t < |s.threads|
  {
    var th := s.threads[t];
    if !th.pc.SubRecording? || th.response.None? then s
    else if th.good && s.valid then s.(subs := [Entry(t, th.response.value)] + s.subs)
    else s.(failed := s.failed + {th.response.value})
  }

  // A renewed subscription takes over whatever SID the answer has; without a good answer it is removed.
  function Renewed(s: State, th: Thread): State {
    var i := IndexOf(s.subs, th.id);
    if !th.pc.RenewRecording? || !s.valid || i == |s.subs| then s
    else
      var was := s.subs[i].actual;
      if th.good && th.response.Some? then
        s.(subs := s.subs[i := s.subs[i].(actual := th.response.value)],
           replaced := if th.response.value == was then s.replaced else s.replaced + {was})
      else s.(subs := s.subs[..i] + s.subs[i + 1..], gone := s.gone + {was})
  }

  function Issued(s: State, th: Thread, response: Option<Sid>): State {
    if th.pc.SubExchanging? && response.Some? then s.(issued := s.issued + {response.value}) else s
  }

  // One step of a thread: its own place, the locks it takes or releases, and what it records.
  function StepThread(s: State, t: nat, response: Option<Sid>, good: bool): State
    requires CanStep(s, t)
  {
    var th := s.threads[t];
    Issued(Renewed(Recorded(s, t), th), th, response).(
      threads := s.threads[t := After(th, s.valid, Finds(s.subs, th), response, good)],
      handleLock := HandleLockAfter(th.pc, t, s.handleLock),
      subscribeLock := SubscribeLockAfter(th.pc, t, s.subscribeLock))
  }

  // Threads start, run, and entries are removed under the handle lock.
  datatype Action =
    | Subscribe
    | Notify(sid: Sid, seqKey: int)
    | Renew(id: nat)
    | Step(t: nat, response: Option<Sid>, good: bool)
    | Remove(i: nat)
    | UnregisterClient

  // A publisher gives out each SID once to a subscriber; to a renewer it may answer any.
  predicate Possible(s: State, a: Action) {
    match a
    case Step(t, response, _) =>
      CanStep(s, t) && (s.threads[t].pc.SubExchanging? && response.Some? ==> response.value !in s.issued)
    case Remove(i) => i < |s.subs| && s.handleLock == None
    case UnregisterClient => s.handleLock == None
    case _ => true
  }

  function Next(s: State, a: Action): State
    requires Possible(s, a)
  {
    match a
    case Subscribe => s.(threads := s.threads + [Thread(SubStart, false, [], 0, false, 0, None, false, false)])
    case Notify(sid, seqKey) =>
      s.(threads := s.threads + [Thread(NotifyStart, true, sid, seqKey, sid in s.issued, 0, None, false, false)])
    case Renew(id) => s.(threads := s.threads + [Thread(RenewStart, false, [], 0, false, id, None, false, false)])
    case Step(t, response, good) => StepThread(s, t, response, good)
    case Remove(i) => s.(subs := s.subs[..i] + s.subs[i + 1..], gone := s.gone + {s.subs[i].actual})
    case UnregisterClient => s.(valid := false, subs := [], gone := s.gone + set e | e in s.subs :: e.actual)
  }

  const INITIAL := State(None, None, [], true, [], {}, {}, {}, {})

  // ---- what every step keeps

  // A thread holds a lock exactly at the places where it has taken and not yet released it.
  ghost predicate LocksOk(s: State) {
    && (forall t {:trigger s.threads[t]} :: 0 <= t < |s.threads| ==>
          && (HoldsHandle(s.threads[t].pc) <==> s.handleLock == Some(t))
          && (HoldsSubscribe(s.threads[t].pc) <==> s.subscribeLock == Some(t)))
    && (s.handleLock.Some? ==> s.handleLock.value < |s.threads|)
    && (s.subscribeLock.Some? ==> s.subscribeLock.value < |s.threads|)
  }

  ghost predicate Pending(s: State, x: Sid) {
    s.subscribeLock.Some? && s.subscribeLock.value < |s.threads| && PendingAt(s.threads[s.subscribeLock.value], x)
  }

  predicate PendingAt(th: Thread, x: Sid) {
    (th.pc.SubWantsHandle? || th.pc.SubRecording?) && th.response == Some(x)
  }

  // A SID given out is listed, or lost, or its subscriber is still at work under the lock.
  ghost predicate Accounted(s: State) {
    forall x :: x in s.issued ==> Listed(s.subs, x) || Lost(s, x) || Pending(s, x)
  }

  predicate Lost(s: State, x: Sid) {
    x in s.failed || x in s.gone || x in s.replaced || !s.valid
  }

  predicate Refused(th: Thread) {
    (th.pc.Done? || th.pc.NotifyLeaving?) && !th.ok
  }

  // A first event for a SID given out is refused only when its subscription is lost.
  ghost predicate FirstEventsKept(s: State) {
    forall t {:trigger s.threads[t]} :: 0 <= t < |s.threads| ==> ThreadOk(s, s.threads[t])
  }

  predicate NotifierPlace(pc: Pc) {
    || pc.NotifyStart? || pc.NotifyLooking? || pc.NotifyWantsLock? || pc.NotifyWantsHandle?
    || pc.NotifyLookingAgain? || pc.NotifyLeaving? || pc.Done?
  }

  ghost predicate ThreadOk(s: State, th: Thread) {
    && (th.notifier ==> NotifierPlace(th.pc))
    && (th.notifier && th.promised ==> th.sid in s.issued)
    && (th.notifier && th.promised && th.seqKey == 0 && Refused(th) ==> Lost(s, th.sid))
  }

  ghost predicate Inv(s: State) {
    LocksOk(s) && Accounted(s) && FirstEventsKept(s)
  }

  lemma KnowsListed(subs: seq<Entry>, x: Sid)
    requires Listed(subs, x)
    ensures Knows(subs, x)
  {
    var i :| 0 <= i < |subs| && subs[i].actual == x;
    assert Matches(subs[i].actual, x);
  }

  predicate SameEvent(th: Thread, th': Thread) {
    th.notifier == th'.notifier && th.sid == th'.sid && th.seqKey == th'.seqKey && th.promised == th'.promised
  }

  // A step changes the place of its own thread only.
  lemma OnlyItsPlace(s: State, t: nat, response: Option<Sid>, good: bool)
    requires CanStep(s, t)
    ensures var n := StepThread(s, t, response, good);
      && |n.threads| == |s.threads| && n.threads == s.threads[t := n.threads[t]] && n.valid == s.valid
      && n.threads[t] == After(s.threads[t], s.valid, Finds(s.subs, s.threads[t]), response, good)
      && n.handleLock == HandleLockAfter(s.threads[t].pc, t, s.handleLock)
      && n.subscribeLock == SubscribeLockAfter(s.threads[t].pc, t, s.subscribeLock)
  {
    hide Finds, Blocked, After, HandleLockAfter, SubscribeLockAfter, IndexOf;
  }

  lemma SameEventAfter(th: Thread, valid: bool, known: bool, response: Option<Sid>, good: bool)
    ensures SameEvent(After(th, valid, known, response, good), th)
  {
  }

  // A lock is taken only when it is free, and released only by its holder.
  lemma LockMoves(pc: Pc, t: nat, valid: bool, look: bool, lock: Option<nat>)
    ensures var pc' := PcAfter(pc, valid, look);
      && HandleLockAfter(pc, t, lock) == (if HoldsHandle(pc') then (if HoldsHandle(pc) then lock else Some(t))
                                          else if HoldsHandle(pc) then None else lock)
      && SubscribeLockAfter(pc, t, lock) == (if HoldsSubscribe(pc') then (if HoldsSubscribe(pc) then lock else Some(t))
                                             else if HoldsSubscribe(pc) then None else lock)
  {
  }

  lemma TakenWhenFree(s: State, pc: Pc, valid: bool, look: bool)
    requires !Blocked(s, pc)
    ensures var pc' := PcAfter(pc, valid, look);
      && (HoldsHandle(pc') && !HoldsHandle(pc) ==> s.handleLock == None)
      && (HoldsSubscribe(pc') && !HoldsSubscribe(pc) ==> s.subscribeLock == None)
  {
  }

  lemma LocksKept(s: State, a: Action)
    requires LocksOk(s) && Possible(s, a)
    ensures LocksOk(Next(s, a))
  {
    hide Finds, StepThread;
    if a.Step? {
      hide LocksOk;
      LocksKeptByStep(s, a.t, a.response, a.good);
    }
  }

  lemma LocksKeptByStep(s: State, t: nat, response: Option<Sid>, good: bool)
    requires LocksOk(s) && CanStep(s, t)
    ensures LocksOk(StepThread(s, t, response, good))
  {
    OnlyItsPlace(s, t, response, good);
    var th := s.threads[t];
    var look := Look(th, Finds(s.subs, th));
    LockMoves(th.pc, t, s.valid, look, s.handleLock);
    LockMoves(th.pc, t, s.valid, look, s.subscribeLock);
    TakenWhenFree(s, th.pc, s.valid, look);
    hide HoldsHandle, HoldsSubscribe, StepThread, Blocked, PcAfter, HandleLockAfter, SubscribeLockAfter, Finds, Look;
  }

  lemma AccountedKept(s: State, a: Action)
    requires LocksOk(s) && Accounted(s) && Possible(s, a)
    ensures Accounted(Next(s, a))
  {
    hide Next, Possible, LocksOk;
    forall x | x in Next(s, a).issued
      ensures Listed(Next(s, a).subs, x) || Lost(Next(s, a), x) || Pending(Next(s, a), x)
    {
      OneAccounted(s, a, x);
    }
  }

  lemma OneAccounted(s: State, a: Action, x: Sid)
    requires LocksOk(s) && Accounted(s) && Possible(s, a) && x in Next(s, a).issued
    ensures Listed(Next(s, a).subs, x) || Lost(Next(s, a), x) || Pending(Next(s, a), x)
  {
    hide Next, Possible, LocksOk;
    if Listed(s.subs, x) {
      ListedStays(s, a, x);
    } else if x in s.issued && Lost(s, x) {
      LostStays(s, a, x);
    } else if x in s.issued {
      PendingGoesOn(s, a, x);
    } else {
      NewlyIssued(s, a, x);
    }
  }

  // The subscriber goes on to record the SID, under both locks.
  lemma PendingGoesOn(s: State, a: Action, x: Sid)
    requires LocksOk(s) && Possible(s, a) && Pending(s, x)
    ensures Listed(Next(s, a).subs, x) || Lost(Next(s, a), x) || Pending(Next(s, a), x)
  {
    hide Finds, IndexOf;
    var t := s.subscribeLock.value;
    if a.Step? && a.t == t && s.threads[t].pc.SubRecording? && s.threads[t].good && s.valid {
      assert Next(s, a).subs[0].actual == x;
    }
  }

  lemma NewlyIssued(s: State, a: Action, x: Sid)
    requires LocksOk(s) && Possible(s, a) && x in Next(s, a).issued && x !in s.issued
    ensures Pending(Next(s, a), x)
  {
    hide Finds, IndexOf;
    assert a.Step? && s.threads[a.t].pc.SubExchanging?;
  }

  // A SID leaves the list only when it is lost.
  lemma ListedStays(s: State, a: Action, x: Sid)
    requires Possible(s, a) && Listed(s.subs, x)
    ensures Listed(Next(s, a).subs, x) || Lost(Next(s, a), x)
  {
    hide Finds, IndexOf, After, HandleLockAfter, SubscribeLockAfter, Blocked;
    var n := Next(s, a);
    var k :| 0 <= k < |s.subs| && s.subs[k].actual == x;
    match a
    case Remove(i) =>
      if k != i {
        assert n.subs[if k < i then k else k - 1].actual == x;
      }
    case UnregisterClient =>
    case Step(t, response, good) =>
      hide StepThread;
      ListedStaysStep(s, t, response, good, x, k);
    case _ =>
      assert n.subs[k].actual == x;
  }

  lemma ListedStaysStep(s: State, t: nat, response: Option<Sid>, good: bool, x: Sid, k: nat)
    requires CanStep(s, t) && k < |s.subs| && s.subs[k].actual == x
    ensures var n := StepThread(s, t, response, good); Listed(n.subs, x) || Lost(n, x)
  {
    hide Finds, IndexOf, After, HandleLockAfter, SubscribeLockAfter, Blocked;
    var n, th := StepThread(s, t, response, good), s.threads[t];
    var i := IndexOf(s.subs, th.id);
    if th.pc.SubRecording? && th.response.Some? && th.good && s.valid {
      assert n.subs[k + 1].actual == x;
    } else if th.pc.RenewRecording? && s.valid && i < |s.subs| {
      if k != i {
        assert n.subs[if (th.good && th.response.Some?) || k < i then k else k - 1].actual == x;
      } else if th.good && th.response == Some(x) {
        assert n.subs[k].actual == x;
      }
    } else {
      assert n.subs[k].actual == x;
    }
  }

  // The thread that looks again holds both locks, so no subscriber is at work.
  lemma SecondLook(s: State, t: nat, x: Sid)
    requires LocksOk(s) && Accounted(s) && t < |s.threads| && s.threads[t].pc.NotifyLookingAgain? && x in s.issued
    requires s.valid
    ensures Knows(s.subs, x) || Lost(s, x)
  {
    assert HoldsSubscribe(s.threads[t].pc);
    assert !Pending(s, x);
    if Listed(s.subs, x) {
      KnowsListed(s.subs, x);
    }
  }

  lemma LostStays(s: State, a: Action, x: Sid)
    requires Possible(s, a)
    ensures Lost(s, x) ==> Lost(Next(s, a), x)
    ensures s.issued <= Next(s, a).issued
  {
    hide Knows;
  }

  // Where a notifier can go in one step, and when it ends up refusing.
  lemma NotifierGoes(th: Thread, valid: bool, known: bool, response: Option<Sid>, good: bool)
    requires th.notifier && NotifierPlace(th.pc)
    ensures var th' := After(th, valid, known, response, good);
      && NotifierPlace(th'.pc)
      && (Refused(th') ==> Refused(th) || !valid || th.seqKey != 0 || (th.pc.NotifyLookingAgain? && !known))
  {
  }

  lemma OtherThreads(s: State, a: Action, th: Thread)
    requires Possible(s, a) && ThreadOk(s, th)
    ensures ThreadOk(Next(s, a), th)
  {
    LostStays(s, a, th.sid);
    hide Next, Possible, Lost;
  }

  lemma OwnThread(s: State, t: nat, response: Option<Sid>, good: bool)
    requires Inv(s) && Possible(s, Step(t, response, good))
    ensures t < |StepThread(s, t, response, good).threads|
    ensures ThreadOk(StepThread(s, t, response, good), StepThread(s, t, response, good).threads[t])
  {
    var th := s.threads[t];
    assert ThreadOk(s, th);
    OnlyItsPlace(s, t, response, good);
    SameEventAfter(th, s.valid, Finds(s.subs, th), response, good);
    LostStays(s, Step(t, response, good), th.sid);
    if th.notifier {
      NotifierGoes(th, s.valid, Finds(s.subs, th), response, good);
      if th.pc.NotifyLookingAgain? && s.valid && th.sid in s.issued {
        SecondLook(s, t, th.sid);
      }
    }
    hide Knows, LocksOk, Accounted, StepThread, Blocked, FirstEventsKept, After, NotifierPlace, IndexOf;
  }

  lemma FirstEventsKeptBy(s: State, a: Action)
    requires Inv(s) && Possible(s, a)
    ensures FirstEventsKept(Next(s, a))
  {
    var n := Next(s, a);
    if a.Step? {
      OnlyItsPlace(s, a.t, a.response, a.good);
      OwnThread(s, a.t, a.response, a.good);
    }
    forall t | 0 <= t < |n.threads| ensures ThreadOk(n, n.threads[t]) {
      if t < |s.threads| {
        assert ThreadOk(s, s.threads[t]);
        OtherThreads(s, a, s.threads[t]);
      }
      hide Knows, LocksOk, Accounted, ThreadOk, StepThread;
      NewThreads(s, a);
    }
  }

  lemma NewThreads(s: State, a: Action)
    requires Possible(s, a)
    ensures !a.Step? ==> |Next(s, a).threads| >= |s.threads| && Next(s, a).threads[..|s.threads|] == s.threads
    ensures !a.Step? && |Next(s, a).threads| > |s.threads| ==>
      |Next(s, a).threads| == |s.threads| + 1 && ThreadOk(Next(s, a), Next(s, a).threads[|s.threads|])
  {
    hide Knows, StepThread;
  }

  function Run(s: State, actions: seq<Action>): State
    requires PossibleRun(s, actions)
    decreases actions
  {
    if actions == [] then s else Run(Next(s, actions[0]), actions[1..])
  }

  predicate PossibleRun(s: State, actions: seq<Action>)
    decreases actions
  {
    actions == [] || (Possible(s, actions[0]) && PossibleRun(Next(s, actions[0]), actions[1..]))
  }

  lemma {:induction false} RunKeeps(s: State, actions: seq<Action>)
    requires Inv(s) && PossibleRun(s, actions)
    ensures Inv(Run(s, actions))
    decreases actions
  {
    hide Next, Possible, LocksOk, Accounted, FirstEventsKept;
    if actions != [] {
      LocksKept(s, actions[0]);
      AccountedKept(s, actions[0]);
      FirstEventsKeptBy(s, actions[0]);
      RunKeeps(Next(s, actions[0]), actions[1..]);
    }
  }

  // In every interleaving: a SEQ 0 event whose SID the publisher had given out is refused only
  // if that subscribe fails, the subscription is removed, a renewal puts another SID in the place of
  // this one, or the client unregistered.
  lemma FirstEventIsNotRefused(actions: seq<Action>, t: nat)
    requires PossibleRun(INITIAL, actions) && t < |Run(INITIAL, actions).threads|
    ensures var s := Run(INITIAL, actions);
      var th := s.threads[t];
      th.notifier && th.promised && th.seqKey == 0 && th.pc == Done && !th.ok ==> Lost(s, th.sid)
  {
    RunKeeps(INITIAL, actions);
    hide Run, PossibleRun;
    assert ThreadOk(Run(INITIAL, actions), Run(INITIAL, actions).threads[t]);
  }

  // A publisher that answers every renewal with the SID it had given out.
  predicate KeepsSid(s: State, a: Action) {
    a.Step? && a.t < |s.threads| && s.threads[a.t].pc.RenewRecording? ==>
      var th := s.threads[a.t];
      var i := IndexOf(s.subs, th.id);
      th.good && th.response.Some? && i < |s.subs| ==> th.response.value == s.subs[i].actual
  }

  predicate KeepsSids(s: State, actions: seq<Action>)
    requires PossibleRun(s, actions)
    decreases actions
  {
    actions == [] || (KeepsSid(s, actions[0]) && KeepsSids(Next(s, actions[0]), actions[1..]))
  }

  // With such publishers no renewal ever makes an event be refused.
  lemma {:induction false} NothingReplaced(s: State, actions: seq<Action>)
    requires PossibleRun(s, actions) && KeepsSids(s, actions)
    ensures Run(s, actions).replaced == s.replaced
    decreases actions
  {
    hide Next, Possible, KeepsSid;
    if actions != [] {
      NoneReplaced(s, actions[0]);
      NothingReplaced(Next(s, actions[0]), actions[1..]);
    }
  }

  lemma NoneReplaced(s: State, a: Action)
    requires Possible(s, a) && KeepsSid(s, a)
    ensures Next(s, a).replaced == s.replaced
  {
    hide Finds, IndexOf, After, HandleLockAfter, SubscribeLockAfter;
  }

  // ---- a first event refused because of a renewal

  // One more step, taken before the others.
  lemma RunCons(s: State, a: Action, n: State, rest: seq<Action>, end: State)
    requires Possible(s, a) && Next(s, a) == n && PossibleRun(n, rest) && Run(n, rest) == end
    ensures PossibleRun(s, [a] + rest) && Run(s, [a] + rest) == end
  {
    hide Possible, Next;
    assert ([a] + rest)[0] == a && ([a] + rest)[1..] == rest;
  }

  // Thread t takes its next steps by itself, with one answer for its exchange.
  function Alone(t: nat, response: Option<Sid>, n: nat): seq<Action> {
    if n == 0 then [] else [Step(t, response, true)] + Alone(t, response, n - 1)
  }

  lemma OneStep(s: State, t: nat, response: Option<Sid>, n: nat, next: State, end: State)
    requires n > 0 && CanStep(s, t) && Possible(s, Step(t, response, true)) && StepThread(s, t, response, true) == next
    requires PossibleRun(next, Alone(t, response, n - 1)) && Run(next, Alone(t, response, n - 1)) == end
    ensures PossibleRun(s, Alone(t, response, n)) && Run(s, Alone(t, response, n)) == end
  {
    hide StepThread, CanStep;
    RunCons(s, Step(t, response, true), next, Alone(t, response, n - 1), end);
  }

  const OLD: Sid := "a"
  const NEW: Sid := "b"

  // A state with the last thread at a place, and the locks it holds there.
  function At(s: State, th: Thread): State
    requires s.threads != []
  {
    var t := |s.threads| - 1;
    s.(threads := s.threads[t := th],
       handleLock := if HoldsHandle(th.pc) then Some(t) else None,
       subscribeLock := if HoldsSubscribe(th.pc) then Some(t) else None)
  }

  // One step of the last thread, when nothing is recorded in it.
  lemma LastSteps(s: State, th: Thread, response: Option<Sid>)
    requires s.threads != [] && !th.pc.Done? && !th.pc.SubRecording? && !th.pc.RenewRecording? && !th.pc.SubExchanging?
    ensures var t := |s.threads| - 1;
      var th' := After(th, s.valid, Finds(s.subs, th), response, true);
      && CanStep(At(s, th), t) && Possible(At(s, th), Step(t, response, true))
      && StepThread(At(s, th), t, response, true) == At(s, th')
  {
    hide Finds, IndexOf;
    var t, now := |s.threads| - 1, At(s, th);
    assert s.threads[t := th][t := After(th, s.valid, Finds(s.subs, th), response, true)]
        == s.threads[t := After(th, s.valid, Finds(s.subs, th), response, true)];
  }

  function Subscriber(pc: Pc, response: Option<Sid>, ok: bool): Thread {
    Thread(pc, false, [], 0, false, 0, response, response.Some?, ok)
  }

  function Renewer(pc: Pc, response: Option<Sid>): Thread {
    Thread(pc, false, [], 0, false, 0, response, response.Some?, false)
  }

  function Notifier(pc: Pc): Thread {
    Thread(pc, true, OLD, 0, true, 0, None, false, false)
  }

  // A subscription is made, with the SID OLD; it is renewed, and answered NEW; a first event for
  // OLD comes after that.
  const SUBSCRIBED := State(None, None, [Subscriber(Done, Some(OLD), true)], true, [Entry(0, OLD)], {OLD}, {}, {}, {})
  const RENEWED := SUBSCRIBED.(
    threads := SUBSCRIBED.threads + [Renewer(Done, Some(NEW))], subs := [Entry(0, NEW)], replaced := {OLD})
  const REFUSED := RENEWED.(threads := RENEWED.threads + [Notifier(Done)])

  // A step that records nothing, of a thread that finds what known says or does not look.
  predicate Moves(s: State, th: Thread, th': Thread, response: Option<Sid>) {
    && !th.pc.Done? && !th.pc.SubRecording? && !th.pc.RenewRecording? && !th.pc.SubExchanging?
    && After(th, s.valid, Finds(s.subs, th), response, true) == th'
  }

  // One such step in front of the others.
  lemma OneMove(s: State, th: Thread, th': Thread, response: Option<Sid>, n: nat, end: State)
    requires s.threads != [] && n > 0 && Moves(s, th, th', response)
    requires var t := |s.threads| - 1;
      PossibleRun(At(s, th'), Alone(t, response, n - 1)) && Run(At(s, th'), Alone(t, response, n - 1)) == end
    ensures var t := |s.threads| - 1;
      PossibleRun(At(s, th), Alone(t, response, n)) && Run(At(s, th), Alone(t, response, n)) == end
  {
    MovesParts(s, th, th', response);
    hide *;
    LastSteps(s, th, response);
    OneStep(At(s, th), |s.threads| - 1, response, n, At(s, th'), end);
  }

  lemma MovesParts(s: State, th: Thread, th': Thread, response: Option<Sid>)
    requires Moves(s, th, th', response)
    ensures !th.pc.Done? && !th.pc.SubRecording? && !th.pc.RenewRecording? && !th.pc.SubExchanging?
    ensures After(th, s.valid, Finds(s.subs, th), response, true) == th'
  {
    hide After, Finds;
  }

  lemma StepsToSubscribed()
    ensures var s := INITIAL.(threads := [Subscriber(SubStart, None, false)]);
      && Next(INITIAL, Subscribe) == s
      && PossibleRun(s, Alone(0, Some(OLD), 7)) && Run(s, Alone(0, Some(OLD), 7)) == SUBSCRIBED
  {
    var s0 := INITIAL.(threads := [Subscriber(SubStart, None, false)]);
    var s1 := s0.(issued := {OLD});
    var s2 := s1.(subs := [Entry(0, OLD)]);
    hide *;
    FirstStates(s0, s1, s2);
    SubRecords(s1, s2);
    SubExchanges(s0, s1);
    SubEnds(s1, s2);
    OneStep(At(s0, Subscriber(SubExchanging, None, false)), 0, Some(OLD), 4,
      At(s1, Subscriber(SubWantsHandle, Some(OLD), false)), SUBSCRIBED);
    SubMoves(s0);
    OneMove(s0, Subscriber(SubWantsLock, None, false), Subscriber(SubExchanging, None, false), Some(OLD), 5,
      SUBSCRIBED);
    OneMove(s0, Subscriber(SubChecking, None, false), Subscriber(SubWantsLock, None, false), Some(OLD), 6, SUBSCRIBED);
    OneMove(s0, Subscriber(SubStart, None, false), Subscriber(SubChecking, None, false), Some(OLD), 7, SUBSCRIBED);
  }

  lemma FirstStates(s0: State, s1: State, s2: State)
    requires s0 == INITIAL.(threads := [Subscriber(SubStart, None, false)])
    requires s1 == s0.(issued := {OLD}) && s2 == s1.(subs := [Entry(0, OLD)])
    ensures At(s0, Subscriber(SubStart, None, false)) == s0 && At(s2, Subscriber(Done, Some(OLD), true)) == SUBSCRIBED
    ensures |s0.threads| == 1 && s0.valid && s0.issued == {} && s1.subs == [] && Possible(INITIAL, Subscribe)
    ensures Next(INITIAL, Subscribe) == s0
  {
    hide OLD;
  }

  lemma SubMoves(s: State)
    requires s.valid
    ensures Moves(s, Subscriber(SubStart, None, false), Subscriber(SubChecking, None, false), Some(OLD))
    ensures Moves(s, Subscriber(SubChecking, None, false), Subscriber(SubWantsLock, None, false), Some(OLD))
    ensures Moves(s, Subscriber(SubWantsLock, None, false), Subscriber(SubExchanging, None, false), Some(OLD))
    ensures Moves(s, Subscriber(SubWantsHandle, Some(OLD), false), Subscriber(SubRecording, Some(OLD), false),
      Some(OLD))
    ensures Moves(s, Subscriber(SubLeaving, Some(OLD), true), Subscriber(Done, Some(OLD), true), Some(OLD))
  {
    hide Knows, IndexOf, OLD, NEW;
  }

  lemma SubEnds(s1: State, s2: State)
    requires |s1.threads| == 1 && s2 == s1.(subs := [Entry(0, OLD)]) && s1.valid
    requires At(s2, Subscriber(Done, Some(OLD), true)) == SUBSCRIBED
    requires var a := At(s1, Subscriber(SubRecording, Some(OLD), false));
      && CanStep(a, 0) && Possible(a, Step(0, Some(OLD), true))
      && StepThread(a, 0, Some(OLD), true) == At(s2, Subscriber(SubLeaving, Some(OLD), true))
    ensures var b := At(s1, Subscriber(SubWantsHandle, Some(OLD), false));
      PossibleRun(b, Alone(0, Some(OLD), 3)) && Run(b, Alone(0, Some(OLD), 3)) == SUBSCRIBED
  {
    hide *;
    var r := Some(OLD);
    SubMoves(s1);
    SubMoves(s2);
    NoMoreSteps(SUBSCRIBED, 0, r);
    OneMove(s2, Subscriber(SubLeaving, r, true), Subscriber(Done, r, true), r, 1, SUBSCRIBED);
    OneStep(At(s1, Subscriber(SubRecording, r, false)), 0, r, 2, At(s2, Subscriber(SubLeaving, r, true)), SUBSCRIBED);
    OneMove(s1, Subscriber(SubWantsHandle, r, false), Subscriber(SubRecording, r, false), r, 3, SUBSCRIBED);
  }

  lemma SubExchanges(s: State, s': State)
    requires |s.threads| == 1 && s' == s.(issued := {OLD}) && s.issued == {} && s.valid
    ensures var a := At(s, Subscriber(SubExchanging, None, false));
      && CanStep(a, 0) && Possible(a, Step(0, Some(OLD), true))
      && StepThread(a, 0, Some(OLD), true) == At(s', Subscriber(SubWantsHandle, Some(OLD), false))
  {
    hide Finds, IndexOf;
    var a := At(s, Subscriber(SubExchanging, None, false));
    assert a.threads == [Subscriber(SubExchanging, None, false)];
  }

  lemma SubRecords(s: State, s': State)
    requires |s.threads| == 1 && s' == s.(subs := [Entry(0, OLD)]) && s.subs == [] && s.valid
    ensures var a := At(s, Subscriber(SubRecording, Some(OLD), false));
      && CanStep(a, 0) && Possible(a, Step(0, Some(OLD), true))
      && StepThread(a, 0, Some(OLD), true) == At(s', Subscriber(SubLeaving, Some(OLD), true))
  {
    hide Finds, IndexOf;
    var a := At(s, Subscriber(SubRecording, Some(OLD), false));
    assert a.threads == [Subscriber(SubRecording, Some(OLD), false)];
  }

  lemma NoMoreSteps(s: State, t: nat, response: Option<Sid>)
    ensures PossibleRun(s, Alone(t, response, 0)) && Run(s, Alone(t, response, 0)) == s
  {
  }

  lemma StepsToRenewed()
    ensures var s := SUBSCRIBED.(threads := SUBSCRIBED.threads + [Renewer(RenewStart, None)]);
      && Next(SUBSCRIBED, Renew(0)) == s
      && PossibleRun(s, Alone(1, Some(NEW), 5)) && Run(s, Alone(1, Some(NEW), 5)) == RENEWED
  {
    var r := Some(NEW);
    var s0 := SUBSCRIBED.(threads := SUBSCRIBED.threads + [Renewer(RenewStart, None)]);
    var s1 := s0.(subs := [Entry(0, NEW)], replaced := {OLD});
    assert At(s0, Renewer(RenewStart, None)) == s0 && At(s1, Renewer(Done, r)) == RENEWED;
    RenewRecords(s0, s1);
    hide *;
    NoMoreSteps(RENEWED, 1, r);
    OneStep(At(s0, Renewer(RenewRecording, r)), 1, r, 1, RENEWED, RENEWED);
    RenewWaits(s0);
  }

  lemma RenewRecords(s: State, s': State)
    requires |s.threads| == 2 && s.subs == [Entry(0, OLD)] && s.replaced == {} && s.valid
    requires s' == s.(subs := [Entry(0, NEW)], replaced := {OLD})
    ensures |s.threads| == 2 && s.valid && IndexOf(s.subs, 0) < |s.subs|
    ensures var a := At(s, Renewer(RenewRecording, Some(NEW)));
      && CanStep(a, 1) && Possible(a, Step(1, Some(NEW), true))
      && StepThread(a, 1, Some(NEW), true) == At(s', Renewer(Done, Some(NEW)))
  {
    hide Finds;
    var a := At(s, Renewer(RenewRecording, Some(NEW)));
    assert a.threads[1] == Renewer(RenewRecording, Some(NEW));
    assert IndexOf(s.subs, 0) == 0;
    assert s.subs[0 := Entry(0, NEW)] == s'.subs;
  }

  lemma RenewWaits(s: State)
    requires |s.threads| == 2 && s.valid && IndexOf(s.subs, 0) < |s.subs|
    requires PossibleRun(At(s, Renewer(RenewRecording, Some(NEW))), Alone(1, Some(NEW), 1))
    requires Run(At(s, Renewer(RenewRecording, Some(NEW))), Alone(1, Some(NEW), 1)) == RENEWED
    ensures PossibleRun(At(s, Renewer(RenewStart, None)), Alone(1, Some(NEW), 5))
    ensures Run(At(s, Renewer(RenewStart, None)), Alone(1, Some(NEW), 5)) == RENEWED
  {
    hide *;
    var r := Some(NEW);
    RenewMoves(s);
    OneMove(s, Renewer(RenewWantsHandle, r), Renewer(RenewRecording, r), r, 2, RENEWED);
    OneMove(s, Renewer(RenewExchanging, None), Renewer(RenewWantsHandle, r), r, 3, RENEWED);
    OneMove(s, Renewer(RenewChecking, None), Renewer(RenewExchanging, None), r, 4, RENEWED);
    OneMove(s, Renewer(RenewStart, None), Renewer(RenewChecking, None), r, 5, RENEWED);
  }

  lemma RenewMoves(s: State)
    requires s.valid && IndexOf(s.subs, 0) < |s.subs|
    ensures Moves(s, Renewer(RenewWantsHandle, Some(NEW)), Renewer(RenewRecording, Some(NEW)), Some(NEW))
    ensures Moves(s, Renewer(RenewExchanging, None), Renewer(RenewWantsHandle, Some(NEW)), Some(NEW))
    ensures Moves(s, Renewer(RenewChecking, None), Renewer(RenewExchanging, None), Some(NEW))
    ensures Moves(s, Renewer(RenewStart, None), Renewer(RenewChecking, None), Some(NEW))
  {
    hide Knows, IndexOf, OLD, NEW;
  }

  lemma StepsToRefused()
    ensures var s := RENEWED.(threads := RENEWED.threads + [Notifier(NotifyStart)]);
      Next(RENEWED, Notify(OLD, 0)) == s && PossibleRun(s, Alone(2, None, 6)) && Run(s, Alone(2, None, 6)) == REFUSED
  {
    var s0 := RENEWED.(threads := RENEWED.threads + [Notifier(NotifyStart)]);
    assert At(s0, Notifier(NotifyStart)) == s0 && At(s0, Notifier(Done)) == REFUSED;
    assert !Knows(s0.subs, OLD) by { assert OLD[0] != NEW[0]; }
    assert |s0.threads| == 3 && s0.valid;
    hide *;
    NoMoreSteps(REFUSED, 2, None);
    NotifyWaits(s0);
  }

  lemma NotifyWaits(s: State)
    requires |s.threads| == 3 && s.valid && !Knows(s.subs, OLD)
    requires PossibleRun(At(s, Notifier(Done)), Alone(2, None, 0))
    requires Run(At(s, Notifier(Done)), Alone(2, None, 0)) == REFUSED
    ensures PossibleRun(At(s, Notifier(NotifyStart)), Alone(2, None, 6))
    ensures Run(At(s, Notifier(NotifyStart)), Alone(2, None, 6)) == REFUSED
  {
    hide *;
    NotifyMoves(s);
    NotifyMovesOn(s);
    OneMove(s, Notifier(NotifyLeaving), Notifier(Done), None, 1, REFUSED);
    OneMove(s, Notifier(NotifyLookingAgain), Notifier(NotifyLeaving), None, 2, REFUSED);
    OneMove(s, Notifier(NotifyWantsHandle), Notifier(NotifyLookingAgain), None, 3, REFUSED);
    OneMove(s, Notifier(NotifyWantsLock), Notifier(NotifyWantsHandle), None, 4, REFUSED);
    OneMove(s, Notifier(NotifyLooking), Notifier(NotifyWantsLock), None, 5, REFUSED);
    OneMove(s, Notifier(NotifyStart), Notifier(NotifyLooking), None, 6, REFUSED);
  }

  lemma NotifyMoves(s: State)
    requires s.valid && !Knows(s.subs, OLD)
    ensures Moves(s, Notifier(NotifyStart), Notifier(NotifyLooking), None)
    ensures Moves(s, Notifier(NotifyLooking), Notifier(NotifyWantsLock), None)
    ensures Moves(s, Notifier(NotifyWantsLock), Notifier(NotifyWantsHandle), None)
  {
    hide Knows, IndexOf, OLD, NEW;
  }

  lemma NotifyMovesOn(s: State)
    requires s.valid && !Knows(s.subs, OLD)
    ensures Moves(s, Notifier(NotifyWantsHandle), Notifier(NotifyLookingAgain), None)
    ensures Moves(s, Notifier(NotifyLookingAgain), Notifier(NotifyLeaving), None)
    ensures Moves(s, Notifier(NotifyLeaving), Notifier(Done), None)
  {
    hide Knows, IndexOf, OLD, NEW;
  }

  lemma {:induction false} RunConcat(s: State, a: seq<Action>, b: seq<Action>)
    requires PossibleRun(s, a) && PossibleRun(Run(s, a), b)
    ensures PossibleRun(s, a + b) && Run(s, a + b) == Run(Run(s, a), b)
    decreases a
  {
    hide Possible, Next;
    if a == [] {
      assert a + b == b;
    } else {
      assert (a + b)[0] == a[0] && (a + b)[1..] == a[1..] + b;
      RunConcat(Next(s, a[0]), a[1..], b);
    }
  }

  lemma {:induction false} Starts(s: State, a: Action, rest: seq<Action>, end: State)
    requires Possible(s, a) && PossibleRun(Next(s, a), rest) && Run(Next(s, a), rest) == end
    ensures PossibleRun(s, [a] + rest) && Run(s, [a] + rest) == end
  {
    hide *;
    RunCons(s, a, Next(s, a), rest, end);
  }

  // The code can refuse a first event although its subscribe succeeded, nothing was removed, and the
  // client is registered: a renewal has put another SID in the place of the one it comes with.
  lemma RefusedAfterRenewal() returns (actions: seq<Action>)
    ensures PossibleRun(INITIAL, actions) && Run(INITIAL, actions) == REFUSED
    ensures var th := REFUSED.threads[2];
      && th.notifier && th.promised && th.seqKey == 0 && th.pc == Done && !th.ok
      && REFUSED.valid && REFUSED.failed == {} && REFUSED.gone == {}
  {
    assert Possible(INITIAL, Subscribe) && Possible(SUBSCRIBED, Renew(0)) && Possible(RENEWED, Notify(OLD, 0));
    StepsToSubscribed();
    StepsToRenewed();
    StepsToRefused();
    hide Run, PossibleRun, Possible, Next, Alone;
    var a, b, c := Alone(0, Some(OLD), 7), Alone(1, Some(NEW), 5), Alone(2, None, 6);
    Starts(INITIAL, Subscribe, a, SUBSCRIBED);
    Starts(SUBSCRIBED, Renew(0), b, RENEWED);
    Starts(RENEWED, Notify(OLD, 0), c, REFUSED);
    RunConcat(INITIAL, [Subscribe] + a, [Renew(0)] + b);
    actions := ([Subscribe] + a) + ([Renew(0)] + b);
    RunConcat(INITIAL, actions, [Notify(OLD, 0)] + c);
    actions := actions + ([Notify(OLD, 0)] + c);
  }

  // The two locks never deadlock: while a thread is not done, some thread can go on.
  lemma NoDeadlock(actions: seq<Action>, t: nat)
    requires PossibleRun(INITIAL, actions) && t < |Run(INITIAL, actions).threads|
    requires !Run(INITIAL, actions).threads[t].pc.Done?
    ensures exists u :: CanStep(Run(INITIAL, actions), u)
  {
    RunKeeps(INITIAL, actions);
    hide Run, PossibleRun;
    var s := Run(INITIAL, actions);
    var u := if s.handleLock.Some? then s.handleLock.value
             else if s.subscribeLock.Some? then s.subscribeLock.value
             else t;
    assert CanStep(s, u);
  }

  // How many steps a thread has left at most; no thread goes round in circles.
  function StepsLeft(pc: Pc): nat {
    match pc
    case SubStart => 7 case SubChecking => 6 case SubWantsLock => 5 case SubExchanging => 4
    case SubWantsHandle => 3 case SubRecording => 2 case SubLeaving => 1
    case NotifyStart => 6 case NotifyLooking => 5 case NotifyWantsLock => 4 case NotifyWantsHandle => 3
    case NotifyLookingAgain => 2 case NotifyLeaving => 1
    case RenewStart => 5 case RenewChecking => 4 case RenewExchanging => 3 case RenewWantsHandle => 2
    case RenewRecording => 1
    case Done => 0
  }

  lemma StepsRunOut(s: State, t: nat, response: Option<Sid>, good: bool)
    requires CanStep(s, t)
    ensures var n := StepThread(s, t, response, good);
      |n.threads| == |s.threads| && StepsLeft(n.threads[t].pc) < StepsLeft(s.threads[t].pc)
      && forall u :: 0 <= u < |s.threads| && u != t ==> n.threads[u] == s.threads[u]
  {
    OnlyItsPlace(s, t, response, good);
    StepsFall(s.threads[t].pc, s.valid, Look(s.threads[t], Finds(s.subs, s.threads[t])));
    hide StepThread, StepsLeft, Blocked, PcAfter, Finds;
  }

  lemma StepsFall(pc: Pc, valid: bool, look: bool)
    requires pc != Done
    ensures StepsLeft(PcAfter(pc, valid, look)) < StepsLeft(pc)
  {
  }
}
