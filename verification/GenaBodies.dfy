// What the events carry: the n-th event transmitted to a subscriber has the property set that was handed
// over when it was made, at acceptance for the first and by the n-th notification that found the
// subscription for the others (src/gena/gena_server.c:408-410, 905-907, 1042).
module GenaBodies {
  import opened Bytes
  import opened EventKeys
  import opened GenaState
  import opened GenaInvariant
  import opened GenaSteps
  import opened GenaRuns
  import opened GenaEntries

  // The transmissions to one subscriber, in order.
  function NoticesTo(sent: seq<Notice>, sid: Sid): seq<Notice> {
    if sent == [] then []
    else
      var last := sent[|sent| - 1];
      NoticesTo(sent[..|sent| - 1], sid) + if last.sid == sid then [last] else []
  }

  // ---- the property sets handed over in a run

  // An acceptance makes the first event of a subscription that is listed, not over, and not yet accepted.
  predicate AcceptMakes(s: State, a: Action, sid: Sid) {
    a.Accept? && a.sid == sid && s.valid && EntryOf(s.subs, sid).Some?
    && !Lapsed(EntryOf(s.subs, sid).value, a.now) && !EntryOf(s.subs, sid).value.active
  }

  // A notification makes an event for each subscription that it comes to accepted and not over.
  predicate NotifyMakes(s: State, a: Action, sid: Sid) {
    a.NotifyAll? && s.valid && EntryOf(s.subs, sid).Some?
    && !Lapsed(EntryOf(s.subs, sid).value, ReadingOf(s.subs, a.clock, sid)) && EntryOf(s.subs, sid).value.active
  }

  function Accepted(s: State, actions: seq<Action>, sid: Sid): seq<Body>
    requires PossibleRun(s, actions)
    decreases actions
  {
    if actions == [] then []
    else
      var a := actions[0];
      (if AcceptMakes(s, a, sid) then [a.body] else []) + Accepted(Next(s, a), actions[1..], sid)
  }

  function Notified(s: State, actions: seq<Action>, sid: Sid): seq<Body>
    requires PossibleRun(s, actions)
    decreases actions
  {
    if actions == [] then []
    else
      var a := actions[0];
      (if NotifyMakes(s, a, sid) then [a.body] else []) + Notified(Next(s, a), actions[1..], sid)
  }

  // ---- what waits in the pool

  // Key and body of the jobs of one subscriber.
  ghost function Waiting(jobs: seq<Job>, sid: Sid): multiset<(Key, Body)> {
    if jobs == [] then multiset{}
    else
      var first := if jobs[0].sid == sid then multiset{(jobs[0].eventKey, jobs[0].body)} else multiset{};
      first + Waiting(jobs[1..], sid)
  }

  // What the events from the m-th on would be.
  ghost function Due(bodies: seq<Body>, m: nat): multiset<(Key, Body)>
    decreases |bodies| - m
  {
    if m >= |bodies| then multiset{} else multiset{(Advance(0, m), bodies[m])} + Due(bodies, m + 1)
  }

  lemma {:induction false} WaitingConcat(a: seq<Job>, b: seq<Job>, sid: Sid)
    ensures Waiting(a + b, sid) == Waiting(a, sid) + Waiting(b, sid)
  {
    if a == [] {
      assert a + b == b;
    } else {
      assert (a + b)[1..] == a[1..] + b;
      WaitingConcat(a[1..], b, sid);
    }
  }

  lemma WaitingOne(j: Job, sid: Sid)
    ensures Waiting([j], sid) == if j.sid == sid then multiset{(j.eventKey, j.body)} else multiset{}
  {
    assert [j][1..] == [];
  }

  lemma WaitingRemoveAt(jobs: seq<Job>, i: nat, sid: Sid)
    requires i < |jobs|
    ensures Waiting(jobs, sid) == Waiting(RemoveAt(jobs, i), sid)
      + if jobs[i].sid == sid then multiset{(jobs[i].eventKey, jobs[i].body)} else multiset{}
  {
    assert jobs == jobs[..i] + ([jobs[i]] + jobs[i + 1..]);
    WaitingConcat(jobs[..i], [jobs[i]] + jobs[i + 1..], sid);
    WaitingConcat([jobs[i]], jobs[i + 1..], sid);
    WaitingOne(jobs[i], sid);
    WaitingConcat(jobs[..i], jobs[i + 1..], sid);
  }

  lemma {:induction false} NoneWaiting(jobs: seq<Job>, sid: Sid)
    requires forall j :: j in jobs ==> j.sid != sid
    ensures Waiting(jobs, sid) == multiset{}
  {
    if jobs != [] {
      NoneWaiting(jobs[1..], sid);
    }
  }

  lemma {:induction false} WaitingSize(jobs: seq<Job>, sid: Sid)
    ensures |Waiting(jobs, sid)| == |Keys(jobs, sid)|
  {
    if jobs != [] {
      WaitingSize(jobs[1..], sid);
    }
  }

  lemma {:induction false} DueSize(bodies: seq<Body>, m: nat)
    requires m <= |bodies|
    ensures |Due(bodies, m)| == |bodies| - m
    decreases |bodies| - m
  {
    if m < |bodies| {
      DueSize(bodies, m + 1);
    }
  }

  lemma {:induction false} DueIs(bodies: seq<Body>, m: nat, x: (Key, Body)) returns (k: nat)
    requires x in Due(bodies, m)
    ensures m <= k < |bodies| && x == (Advance(0, k), bodies[k])
    decreases |bodies| - m
  {
    if x == (Advance(0, m), bodies[m]) {
      k := m;
    } else {
      k := DueIs(bodies, m + 1, x);
    }
  }

  lemma {:induction false} DueGrows(bodies: seq<Body>, m: nat, body: Body)
    requires m <= |bodies|
    ensures Due(bodies + [body], m) == Due(bodies, m) + multiset{(Advance(0, |bodies|), body)}
    decreases |bodies| - m
  {
    if m < |bodies| {
      DueGrows(bodies, m + 1, body);
    } else {
      assert Due(bodies + [body], m + 1) == multiset{};
    }
  }

  // Within one round of keys an event is known by its key.
  lemma SameEvent(k: nat, m: nat)
    requires m <= k && k - m < MAX_KEY && Advance(0, k) == Advance(0, m)
    ensures k == m
  {
    FirstKeyIs(k);
    FirstKeyIs(m);
    if m > 0 {
      SameRest(k - 1, m - 1);
    }
  }

  lemma SameRest(a: nat, b: nat)
    requires b <= a && a - b < MAX_KEY && a % MAX_KEY == b % MAX_KEY
    ensures a == b
  {
    var p, q := a / MAX_KEY, b / MAX_KEY;
    assert a - b == (p - q) * MAX_KEY;
  }

  // ---- what every action keeps

  // With the bodies first and then others handed over for a subscriber: those transmitted are the first of
  // them, and while its subscription is listed the jobs in the pool are for the rest.
  ghost predicate Follows(s: State, sid: Sid, first: seq<Body>, others: seq<Body>) {
    var (bodies, told) := (first + others, NoticesTo(s.sent, sid));
    && |told| <= |bodies| && (forall i :: 0 <= i < |told| ==> told[i].body == bodies[i])
    && (sid !in s.used ==> bodies == []) && |first| <= 1 && (first == [] ==> others == [])
    && (EntryOf(s.subs, sid).Some? ==>
          Pending(EntryOf(s.subs, sid).value, first, bodies, |told|, Waiting(s.pool, sid)))
  }

  ghost predicate Pending(sub: Sub, first: seq<Body>, bodies: seq<Body>, told: nat, waiting: multiset<(Key, Body)>) {
    |first| == (if sub.active then 1 else 0) && sub.eventKey == Advance(0, |bodies|) && waiting == Due(bodies, told)
  }

  lemma FollowsParts(s: State, sid: Sid, first: seq<Body>, others: seq<Body>)
    requires Follows(s, sid, first, others)
    ensures var (bodies, told) := (first + others, NoticesTo(s.sent, sid));
      && |told| <= |bodies| && (forall i :: 0 <= i < |told| ==> told[i].body == bodies[i])
      && (sid !in s.used ==> bodies == []) && |first| <= 1 && (first == [] ==> others == [])
      && (EntryOf(s.subs, sid).Some? ==>
            Pending(EntryOf(s.subs, sid).value, first, bodies, |told|, Waiting(s.pool, sid)))
  {
    hide *;
    FollowsDef(s, sid, first, others);
  }

  lemma FollowsDef(s: State, sid: Sid, first: seq<Body>, others: seq<Body>)
    ensures Follows(s, sid, first, others) == (
      var (bodies, told) := (first + others, NoticesTo(s.sent, sid));
      && |told| <= |bodies| && (forall i :: 0 <= i < |told| ==> told[i].body == bodies[i])
      && (sid !in s.used ==> bodies == []) && |first| <= 1 && (first == [] ==> others == [])
      && (EntryOf(s.subs, sid).Some? ==>
            Pending(EntryOf(s.subs, sid).value, first, bodies, |told|, Waiting(s.pool, sid))))
  {
    hide Pending, EntryOf, NoticesTo, Waiting;
  }

  // An action that makes no event for the subscriber and transmits none to it.
  lemma FollowsSame(s: State, t: State, sid: Sid, first: seq<Body>, others: seq<Body>)
    requires Follows(s, sid, first, others) && (sid !in t.used ==> sid !in s.used)
    requires NoticesTo(t.sent, sid) == NoticesTo(s.sent, sid)
    requires EntryOf(t.subs, sid).Some? ==>
      && Waiting(t.pool, sid) == Waiting(s.pool, sid) && EntryOf(s.subs, sid).Some?
      && EntryOf(t.subs, sid).value.active == EntryOf(s.subs, sid).value.active
      && EntryOf(t.subs, sid).value.eventKey == EntryOf(s.subs, sid).value.eventKey
    ensures Follows(t, sid, first, others)
  {
    hide EntryOf, NoticesTo, Waiting, Due;
  }

  lemma FollowsNew(s: State, t: State, sid: Sid, first: seq<Body>, others: seq<Body>)
    requires Inv(s) && Follows(s, sid, first, others) && t.sent == s.sent && t.pool == s.pool && sid !in s.used
    requires var e := EntryOf(t.subs, sid); e.Some? ==> e.value.eventKey == 0 && !e.value.active
    ensures Follows(t, sid, first, others)
  {
    InvParts(s);
    NoneTold(s.sent, sid);
    NoneWaiting(s.pool, sid);
    hide Inv, EntryOf, NoticesTo, Waiting;
    assert first + others == [];
  }

  lemma {:induction false} NoneTold(sent: seq<Notice>, sid: Sid)
    requires forall n :: n in sent ==> n.sid != sid
    ensures NoticesTo(sent, sid) == []
  {
    if sent != [] {
      NoneTold(sent[..|sent| - 1], sid);
    }
  }

  lemma {:induction false} ToldKeys(sent: seq<Notice>, sid: Sid)
    ensures |NoticesTo(sent, sid)| == |KeysSent(sent, sid)|
    ensures forall i :: 0 <= i < |NoticesTo(sent, sid)| ==> NoticesTo(sent, sid)[i].seqKey == KeysSent(sent, sid)[i]
  {
    if sent != [] {
      ToldKeys(sent[..|sent| - 1], sid);
    }
  }

  lemma ToldSnoc(sent: seq<Notice>, n: Notice, sid: Sid)
    ensures NoticesTo(sent + [n], sid) == NoticesTo(sent, sid) + if n.sid == sid then [n] else []
  {
    assert (sent + [n])[..|sent + [n]| - 1] == sent;
  }

  // An event is made: its job waits, with the next key.
  lemma PendingMore(sub: Sub, first: seq<Body>, bodies: seq<Body>, told: nat, waiting: multiset<(Key, Body)>,
                    body: Body, first': seq<Body>)
    requires Pending(sub, first, bodies, told, waiting) && told <= |bodies| && |first'| == 1
    ensures Pending(sub.(active := true, eventKey := NextKey(sub.eventKey)), first', bodies + [body], told,
      waiting + multiset{(sub.eventKey, body)})
  {
    DueGrows(bodies, told, body);
    AdvanceNext(0, |bodies|);
  }

  lemma FollowsMade(s: State, t: State, sid: Sid, first: seq<Body>, others: seq<Body>, first': seq<Body>,
                    others': seq<Body>, body: Body)
    requires Follows(s, sid, first, others) && t.sent == s.sent && sid in s.used && EntryOf(s.subs, sid).Some?
    requires first' + others' == first + others + [body] && |first'| == 1
    requires var sub := EntryOf(s.subs, sid).value;
      && EntryOf(t.subs, sid) == Some(sub.(active := true, eventKey := NextKey(sub.eventKey)))
      && Waiting(t.pool, sid) == Waiting(s.pool, sid) + multiset{(sub.eventKey, body)}
      && t.used == s.used
    ensures Follows(t, sid, first', others')
  {
    hide *;
    var (bodies, told) := (first + others, NoticesTo(s.sent, sid));
    FollowsParts(s, sid, first, others);
    PendingMore(EntryOf(s.subs, sid).value, first, bodies, |told|, Waiting(s.pool, sid), body, first');
    FollowsDef(t, sid, first', others');
    assert forall i :: 0 <= i < |told| ==> (bodies + [body])[i] == bodies[i];
  }

  // The job that is transmitted is the first of those that are due.
  lemma FirstDue(bodies: seq<Body>, m: nat, waiting: multiset<(Key, Body)>, key: Key, body: Body)
    requires waiting == Due(bodies, m) && m <= |bodies| && |bodies| - m <= MAX_KEY
    requires (key, body) in waiting && key == Advance(0, m)
    ensures m < |bodies| && body == bodies[m] && waiting - multiset{(key, body)} == Due(bodies, m + 1)
  {
    var k := DueIs(bodies, m, (key, body));
    SameEvent(k, m);
  }

  lemma NextKeyToSend(s: State, i: nat, n: nat)
    requires Inv(s) && i < |s.pool| && n < |s.subs| && s.subs[n].sid == s.pool[i].sid
    requires s.subs[n].toSendEventKey == s.pool[i].eventKey
    ensures s.pool[i].eventKey == Advance(0, |KeysSent(s.sent, s.pool[i].sid)|)
    ensures |Keys(s.pool, s.pool[i].sid)| <= MAX_KEY
  {
    hide *;
    var sid := s.pool[i].sid;
    InvParts(s);
    SubsAre(s, n);
    KeyIn(s.pool, i);
    OutstandingIs(s, sid);
    SubFits(s, s.subs[n]);
    NotInTransit(s.subs[n], Outstanding(s, sid), Keys(s.pool, sid), Keys(s.transit, sid), KeysSent(s.sent, sid));
    FitsParts(s, s.subs[n]);
    PartSize(Keys(s.pool, sid), Keys(s.transit, sid));
  }

  lemma SubFits(s: State, sub: Sub)
    requires SubOk(s, sub)
    ensures Fits(sub, Outstanding(s, sub.sid), Keys(s.transit, sub.sid), KeysSent(s.sent, sub.sid))
  {
    hide Fits;
  }

  lemma PartSize(a: multiset<Key>, b: multiset<Key>)
    ensures |a| <= |a + b|
  {
  }

  lemma {:induction false} JobWaits(jobs: seq<Job>, i: nat)
    requires i < |jobs|
    ensures (jobs[i].eventKey, jobs[i].body) in Waiting(jobs, jobs[i].sid)
  {
    if i > 0 {
      JobWaits(jobs[1..], i - 1);
    }
  }

  lemma FollowsTold(s: State, i: nat, n: nat, first: seq<Body>, others: seq<Body>)
    requires Inv(s) && i < |s.pool| && n < |s.subs| && s.subs[n].sid == s.pool[i].sid
    requires s.subs[n].toSendEventKey == s.pool[i].eventKey && EntryOf(s.subs, s.pool[i].sid).Some?
    requires Follows(s, s.pool[i].sid, first, others)
    ensures Follows(Transmitted(s, i, s.subs[n].toSendEventKey), s.pool[i].sid, first, others)
  {
    hide *;
    var j, t := s.pool[i], Transmitted(s, i, s.subs[n].toSendEventKey);
    var (bodies, told) := (first + others, NoticesTo(s.sent, j.sid));
    var note := Notice(j.sid, j.eventKey, j.body);
    FollowsParts(s, j.sid, first, others);
    PendingParts(EntryOf(s.subs, j.sid).value, first, bodies, |told|, Waiting(s.pool, j.sid));
    NextKeyToSend(s, i, n);
    ToldKeys(s.sent, j.sid);
    WaitingSize(s.pool, j.sid);
    DueSize(bodies, |told|);
    JobWaits(s.pool, i);
    FirstDue(bodies, |told|, Waiting(s.pool, j.sid), j.eventKey, j.body);
    WaitingRemoveAt(s.pool, i, j.sid);
    ToldSnoc(s.sent, note, j.sid);
    TransmittedIs(s, i, j.eventKey);
    Without1(Waiting(s.pool, j.sid), Waiting(t.pool, j.sid), (j.eventKey, j.body));
    PendingFewer(EntryOf(s.subs, j.sid).value, first, bodies, |told|, Waiting(s.pool, j.sid), Waiting(t.pool, j.sid));
    FollowsDef(t, j.sid, first, others);
    ToldMore(told, note, bodies);
  }

  lemma ToldMore(told: seq<Notice>, note: Notice, bodies: seq<Body>)
    requires |told| < |bodies| && note.body == bodies[|told|]
    requires forall i :: 0 <= i < |told| ==> told[i].body == bodies[i]
    ensures |told + [note]| == |told| + 1 <= |bodies|
    ensures forall i :: 0 <= i < |told + [note]| ==> (told + [note])[i].body == bodies[i]
  {
  }

  lemma Without1(a: multiset<(Key, Body)>, b: multiset<(Key, Body)>, x: (Key, Body))
    requires a == b + multiset{x}
    ensures b == a - multiset{x}
  {
  }

  lemma TransmittedIs(s: State, i: nat, key: Key)
    requires i < |s.pool|
    ensures var (j, t) := (s.pool[i], Transmitted(s, i, key));
      && t.subs == s.subs && t.used == s.used && t.pool == RemoveAt(s.pool, i)
      && t.sent == s.sent + [Notice(j.sid, key, j.body)]
  {
    hide RemoveAt;
  }

  lemma PendingParts(sub: Sub, first: seq<Body>, bodies: seq<Body>, told: nat, waiting: multiset<(Key, Body)>)
    requires Pending(sub, first, bodies, told, waiting)
    ensures |first| == (if sub.active then 1 else 0) && sub.eventKey == Advance(0, |bodies|)
    ensures waiting == Due(bodies, told)
  {
    hide Due;
  }

  lemma PendingFewer(sub: Sub, first: seq<Body>, bodies: seq<Body>, told: nat, waiting: multiset<(Key, Body)>,
                     fewer: multiset<(Key, Body)>)
    requires Pending(sub, first, bodies, told, waiting) && fewer == Due(bodies, told + 1)
    ensures Pending(sub, first, bodies, told + 1, fewer)
  {
    hide Due;
  }

  // A transmission to another subscriber, or a job of another subscriber dropped or put back.
  lemma OthersWaiting(s: State, i: nat, sid: Sid)
    requires i < |s.pool| && s.pool[i].sid != sid
    ensures Waiting(RemoveAt(s.pool, i), sid) == Waiting(s.pool, sid)
  {
    WaitingRemoveAt(s.pool, i, sid);
  }

  lemma RequeuedWaiting(s: State, i: nat, sid: Sid)
    requires i < |s.pool|
    ensures Waiting(RemoveAt(s.pool, i) + [s.pool[i]], sid) == Waiting(s.pool, sid)
  {
    hide Waiting, RemoveAt;
    WaitingRemoveAt(s.pool, i, sid);
    WaitingConcat(RemoveAt(s.pool, i), [s.pool[i]], sid);
    WaitingOne(s.pool[i], sid);
  }

  lemma PickFollows(s: State, i: nat, now: int, sid: Sid, first: seq<Body>, others: seq<Body>)
    requires Inv(s) && i < |s.pool| && Follows(s, sid, first, others)
    ensures Follows(OnPick(s, i, now), sid, first, others)
  {
    hide *;
    var (j, t) := (s.pool[i], OnPick(s, i, now));
    InvParts(s);
    PickEntry(s, i, now, sid);
    PickIs(s, i, now);
    KeptByPick(s, i, now, sid);
    LookupEntry(s.subs, j.sid, now, sid);
    if t.sent == s.sent {
      if j.sid != sid {
        OthersWaiting(s, i, sid);
      }
      RequeuedWaiting(s, i, sid);
      FollowsSame(s, t, sid, first, others);
    } else {
      var n := IndexOf(s.subs, j.sid);
      EntryIs(s.subs, j.sid);
      if j.sid == sid {
        FollowsTold(s, i, n, first, others);
      } else {
        OthersWaiting(s, i, sid);
        ToldSnoc(s.sent, Notice(j.sid, j.eventKey, j.body), sid);
        FollowsSame(s, t, sid, first, others);
      }
    }
  }

  // The four ways in which picking a job ends.
  lemma PickIs(s: State, i: nat, now: int)
    requires s.active && i < |s.pool| && (!s.valid ==> s.subs == [])
    ensures var (j, t, n) := (s.pool[i], OnPick(s, i, now), IndexOf(s.subs, s.pool[i].sid));
      && t.used == s.used
      && (if !s.valid || !Finds(s.subs, j.sid, now) then t.pool == RemoveAt(s.pool, i) && t.sent == s.sent
          else if j.eventKey != s.subs[n].toSendEventKey then
            t.pool == RemoveAt(s.pool, i) + [j] && t.sent == s.sent
          else
            && t == Transmitted(s, i, s.subs[n].toSendEventKey) && n < |s.subs| && s.subs[n].sid == j.sid
            && t.sent == s.sent + [Notice(j.sid, j.eventKey, j.body)] && t.pool == RemoveAt(s.pool, i))
  {
    hide RemoveAt, Release, Expired, Unique;
  }

  lemma KeptByPick(s: State, i: nat, now: int, sid: Sid)
    requires s.active && i < |s.pool| && (!s.valid ==> s.subs == [])
    ensures var (j, e) := (s.pool[i], EntryOf(s.subs, sid));
      EntryAfter(s, Pick(i, now), sid) ==
        if j.sid == sid && e.Some? && Lapsed(e.value, now) then None else e
    ensures !s.valid ==> EntryOf(s.subs, sid) == None
  {
    hide Lapsed;
  }

  lemma AcceptIs(s: State, of: Sid, now: int, body: Body, cell: nat)
    requires Unique(s.subs) && cell !in s.refs
    ensures var (t, e) := (OnAccept(s, of, now, body, cell), EntryOf(s.subs, of));
      && t.used == s.used && t.sent == s.sent
      && t.pool == (if AcceptMakes(s, Accept(of, now, body, cell), of)
                    then s.pool + [Job(of, e.value.eventKey, body, cell)] else s.pool)
  {
    hide EntryOf, Unique, Lookup, Finds, Lapsed;
    if s.valid {
      LookupEntry(s.subs, of, now, of);
    }
  }

  // What is handed over by one action.
  function First(s: State, a: Action, sid: Sid): seq<Body> {
    if AcceptMakes(s, a, sid) then [a.body] else []
  }

  function Other(s: State, a: Action, sid: Sid): seq<Body> {
    if NotifyMakes(s, a, sid) then [a.body] else []
  }

  lemma AcceptFollows(s: State, of: Sid, now: int, body: Body, cell: nat, sid: Sid, first: seq<Body>, others: seq<Body>)
    requires Inv(s) && cell !in s.refs && Follows(s, sid, first, others)
    ensures Follows(OnAccept(s, of, now, body, cell), sid, first + First(s, Accept(of, now, body, cell), sid), others)
  {
    hide *;
    var (a, t) := (Accept(of, now, body, cell), OnAccept(s, of, now, body, cell));
    InvParts(s);
    AcceptEntry(s, of, now, body, cell, sid);
    AcceptIs(s, of, now, body, cell);
    AcceptAfter(s, a, sid);
    AcceptAfter(s, a, of);
    if AcceptMakes(s, a, sid) {
      var sub := EntryOf(s.subs, sid).value;
      var j := Job(sid, sub.eventKey, body, cell);
      FollowsParts(s, sid, first, others);
      PendingParts(sub, first, first + others, |NoticesTo(s.sent, sid)|, Waiting(s.pool, sid));
      WaitingConcat(s.pool, [j], sid);
      WaitingOne(j, sid);
      SidUsed(s, sub);
      FollowsMade(s, t, sid, first, others, first + [body], others, body);
    } else {
      if AcceptMakes(s, a, of) {
        var j := Job(of, EntryOf(s.subs, of).value.eventKey, body, cell);
        WaitingConcat(s.pool, [j], sid);
        WaitingOne(j, sid);
      }
      assert first + [] == first;
      FollowsSame(s, t, sid, first, others);
    }
  }

  lemma AcceptAfter(s: State, a: Action, sid: Sid)
    requires a.Accept? && a.cell !in s.refs
    ensures First(s, a, sid) == if AcceptMakes(s, a, sid) then [a.body] else []
    ensures AcceptMakes(s, a, sid) ==> a.sid == sid && EntryOf(s.subs, sid).Some? && !EntryOf(s.subs, sid).value.active
    ensures AcceptMakes(s, a, sid) ==>
      var sub := EntryOf(s.subs, sid).value;
      EntryAfter(s, a, sid) == Some(sub.(active := true, eventKey := NextKey(sub.eventKey)))
    ensures !AcceptMakes(s, a, sid) ==> EntryAfter(s, a, sid) == None || EntryAfter(s, a, sid) == EntryOf(s.subs, sid)
    ensures AcceptMakes(s, a, a.sid) && a.sid != sid ==> !AcceptMakes(s, a, sid)
    ensures !AcceptMakes(s, a, sid) && AcceptMakes(s, a, a.sid) ==> a.sid != sid
  {
    hide Lapsed, EntryOf;
  }

  lemma SidUsed(s: State, sub: Sub)
    requires SidsUsed(s) && EntryOf(s.subs, sub.sid) == Some(sub)
    ensures sub.sid in s.used
  {
  }

  lemma {:induction false} JobsWaiting(subs: seq<Sub>, clock: seq<int>, body: Body, cell: nat, sid: Sid)
    requires Unique(subs)
    ensures var e := EntryOf(subs, sid);
      Waiting(Traverse(subs, clock, body, cell).1, sid) ==
        if e.Some? && !Lapsed(e.value, ReadingOf(subs, clock, sid)) && e.value.active
        then multiset{(e.value.eventKey, body)} else multiset{}
    decreases |subs|
  {
    if subs != [] {
      var sub, rest, later := subs[0], subs[1..], Later(subs[0], clock);
      UniqueRest(subs);
      JobsWaiting(rest, later, body, cell, sid);
      TraverseStep(subs, clock, body, cell);
      HeadReading(subs, clock, sid);
      NotBehind(subs);
      HeadWaits(Job(sub.sid, sub.eventKey, body, cell), Traverse(rest, later, body, cell).1, sid);
      hide Traverse, Unique, ReadingOf, Later, Waiting;
    }
  }

  lemma HeadWaits(j: Job, jobs: seq<Job>, sid: Sid)
    ensures Waiting([j] + jobs, sid) ==
      (if j.sid == sid then multiset{(j.eventKey, j.body)} else multiset{}) + Waiting(jobs, sid)
  {
    WaitingConcat([j], jobs, sid);
    WaitingOne(j, sid);
  }

  lemma NotifyIs(s: State, clock: seq<int>, body: Body, cell: nat)
    ensures var t := OnNotifyAll(s, clock, body, cell);
      && t.used == s.used && t.sent == s.sent
      && t.pool == if s.valid then s.pool + Traverse(s.subs, clock, body, cell).1 else s.pool
  {
    hide Traverse;
  }

  lemma NotifyAfter(s: State, a: Action, sid: Sid)
    requires a.NotifyAll? && a.cell !in s.refs
    ensures Other(s, a, sid) == if NotifyMakes(s, a, sid) then [a.body] else []
    ensures NotifyMakes(s, a, sid) ==>
      s.valid && EntryOf(s.subs, sid).Some? && EntryOf(s.subs, sid).value.active
    ensures NotifyMakes(s, a, sid) ==>
      var sub := EntryOf(s.subs, sid).value;
      && !Lapsed(sub, ReadingOf(s.subs, a.clock, sid))
      && EntryAfter(s, a, sid) == Some(sub.(active := true, eventKey := NextKey(sub.eventKey)))
    ensures !NotifyMakes(s, a, sid) ==> EntryAfter(s, a, sid) == None || EntryAfter(s, a, sid) == EntryOf(s.subs, sid)
    ensures !NotifyMakes(s, a, sid) && s.valid ==>
      !(EntryOf(s.subs, sid).Some? && !Lapsed(EntryOf(s.subs, sid).value, ReadingOf(s.subs, a.clock, sid))
        && EntryOf(s.subs, sid).value.active)
  {
    hide Lapsed, EntryOf, ReadingOf;
  }

  lemma NotifyFollows(s: State, clock: seq<int>, body: Body, cell: nat, sid: Sid, first: seq<Body>, others: seq<Body>)
    requires Inv(s) && cell !in s.refs && Follows(s, sid, first, others)
    ensures Follows(OnNotifyAll(s, clock, body, cell), sid, first, others + Other(s, NotifyAll(clock, body, cell), sid))
  {
    hide *;
    var (a, t) := (NotifyAll(clock, body, cell), OnNotifyAll(s, clock, body, cell));
    InvParts(s);
    NotifyEntry(s, clock, body, cell, sid);
    NotifyIs(s, clock, body, cell);
    NotifyAfter(s, a, sid);
    JobsWaiting(s.subs, clock, body, cell, sid);
    WaitingConcat(s.pool, Traverse(s.subs, clock, body, cell).1, sid);
    if NotifyMakes(s, a, sid) {
      var sub := EntryOf(s.subs, sid).value;
      FollowsParts(s, sid, first, others);
      PendingParts(sub, first, first + others, |NoticesTo(s.sent, sid)|, Waiting(s.pool, sid));
      SidUsed(s, sub);
      assert first + (others + [body]) == first + others + [body];
      FollowsMade(s, t, sid, first, others, first, others + [body], body);
    } else {
      assert others + [] == others;
      FollowsSame(s, t, sid, first, others);
    }
  }

  lemma NoneMade(s: State, a: Action, sid: Sid)
    ensures !a.Accept? ==> First(s, a, sid) == []
    ensures !a.NotifyAll? ==> Other(s, a, sid) == []
  {
    hide EntryOf, ReadingOf, Lapsed;
  }

  // Subscribing, finishing, renewing and unsubscribing make no event and transmit none.
  lemma OthersFollow(s: State, a: Action, sid: Sid, first: seq<Body>, others: seq<Body>)
    requires Inv(s) && Possible(s, a) && Follows(s, sid, first, others)
    requires !a.Accept? && !a.NotifyAll? && !a.Pick?
    ensures Follows(Next(s, a), sid, first, others)
  {
    hide *;
    var t := Next(s, a);
    InvParts(s);
    NextEntry(s, a, sid);
    SameEvents(s, a, sid);
    SameEntry(s, a, sid);
    if a.Subscribe? && a.sid == sid {
      UnusedSid(s, sid);
      FollowsNew(s, t, sid, first, others);
    } else {
      FollowsSame(s, t, sid, first, others);
    }
  }

  lemma SameEvents(s: State, a: Action, sid: Sid)
    requires Possible(s, a) && !a.Accept? && !a.NotifyAll? && !a.Pick?
    ensures Next(s, a).pool == s.pool && Next(s, a).sent == s.sent
    ensures sid !in Next(s, a).used ==> sid !in s.used
  {
    hide Lookup, Removed, RemoveAt, Release, Finds;
  }

  lemma SameEntry(s: State, a: Action, sid: Sid)
    requires Possible(s, a) && !a.Accept? && !a.NotifyAll? && !a.Pick?
    ensures var (e, e') := (EntryOf(s.subs, sid), EntryAfter(s, a, sid));
      if a.Subscribe? && a.sid == sid then sid !in s.used && (e'.Some? && e' != e ==> e'.value.eventKey == 0)
      else e'.Some? ==> e.Some? && e'.value.active == e.value.active && e'.value.eventKey == e.value.eventKey
    ensures a.Subscribe? && a.sid == sid ==>
      var (e, e') := (EntryOf(s.subs, sid), EntryAfter(s, a, sid)); e'.Some? && e' != e ==> !e'.value.active
  {
    hide Lapsed, EntryOf, Takes;
  }

  lemma UnusedSid(s: State, sid: Sid)
    requires SidsUsed(s) && sid !in s.used
    ensures EntryOf(s.subs, sid) == None
  {
  }

  lemma NextFollows(s: State, a: Action, sid: Sid, first: seq<Body>, others: seq<Body>)
    requires Inv(s) && Possible(s, a) && Follows(s, sid, first, others)
    ensures Follows(Next(s, a), sid, first + First(s, a, sid), others + Other(s, a, sid))
  {
    hide Inv, Follows, First, Other, OnAccept, OnNotifyAll, OnPick, OnSubscribe, OnFinish, OnRenew, OnUnsubscribe;
    NoneMade(s, a, sid);
    assert first + [] == first && others + [] == others;
    match a
    case Accept(of, now, body, cell) => AcceptFollows(s, of, now, body, cell, sid, first, others);
    case NotifyAll(clock, body, cell) => NotifyFollows(s, clock, body, cell, sid, first, others);
    case Pick(i, now) => PickFollows(s, i, now, sid, first, others);
    case _ => OthersFollow(s, a, sid, first, others);
  }

  // ---- whole runs

  lemma {:induction false} RunFollows(s: State, actions: seq<Action>, sid: Sid, first: seq<Body>, others: seq<Body>)
    requires Inv(s) && OneInFlight(s) && PossibleRun(s, actions) && BoundedRun(s, actions)
    requires Follows(s, sid, first, others)
    ensures Follows(Run(s, actions), sid, first + Accepted(s, actions, sid), others + Notified(s, actions, sid))
    decreases actions
  {
    hide *;
    RunIs(s, actions, sid);
    if actions == [] {
      assert first + [] == first && others + [] == others;
    } else {
      var (a, n, rest) := (actions[0], Next(s, actions[0]), actions[1..]);
      BoundedNow(n, rest);
      NextKeeps(s, a);
      FlightKeeps(s, a);
      NextFollows(s, a, sid, first, others);
      RunFollows(n, rest, sid, first + First(s, a, sid), others + Other(s, a, sid));
      assert first + First(s, a, sid) + Accepted(n, rest, sid) == first + (First(s, a, sid) + Accepted(n, rest, sid));
      assert others + Other(s, a, sid) + Notified(n, rest, sid) == others + (Other(s, a, sid) + Notified(n, rest, sid));
    }
  }

  lemma RunIs(s: State, actions: seq<Action>, sid: Sid)
    requires PossibleRun(s, actions) && BoundedRun(s, actions)
    ensures actions == [] ==>
      Run(s, actions) == s && Accepted(s, actions, sid) == [] && Notified(s, actions, sid) == []
    ensures actions != [] ==>
      var (a, n, rest) := (actions[0], Next(s, actions[0]), actions[1..]);
      && Possible(s, a) && PossibleRun(n, rest) && BoundedRun(n, rest) && Run(s, actions) == Run(n, rest)
      && Accepted(s, actions, sid) == First(s, a, sid) + Accepted(n, rest, sid)
      && Notified(s, actions, sid) == Other(s, a, sid) + Notified(n, rest, sid)
  {
    hide Possible, Next, Bounded, AcceptMakes, NotifyMakes;
  }

  // The i-th event transmitted to a subscriber carries the property set of its acceptance if it is the first,
  // and otherwise that of the i-th notification of the run that came to the subscription while it was
  // accepted and not over; its key is the i-th in order.
  lemma BodiesAreThose(max: int, actions: seq<Action>, sid: Sid, i: nat)
    requires PossibleRun(Initial(max), actions) && BoundedRun(Initial(max), actions)
    requires i < |NoticesTo(Run(Initial(max), actions).sent, sid)|
    ensures var (first, others) := (Accepted(Initial(max), actions, sid), Notified(Initial(max), actions, sid));
      var body := NoticesTo(Run(Initial(max), actions).sent, sid)[i].body;
      |first| == 1 && if i == 0 then body == first[0] else i - 1 < |others| && body == others[i - 1]
    ensures NoticesTo(Run(Initial(max), actions).sent, sid)[i].seqKey == if i == 0 then 0 else 1 + (i - 1) % MAX_KEY
  {
    hide *;
    var s := Initial(max);
    InitialInv(max);
    InitialFollows(max, sid);
    RunFollows(s, actions, sid, [], []);
    var (first, others) := (Accepted(s, actions, sid), Notified(s, actions, sid));
    assert [] + first == first && [] + others == others;
    FollowsParts(Run(s, actions), sid, first, others);
    ToldKeys(Run(s, actions).sent, sid);
    SentInSequence(max, actions, sid, i);
  }

  lemma InitialFollows(max: int, sid: Sid)
    ensures Follows(Initial(max), sid, [], [])
  {
  }
}
