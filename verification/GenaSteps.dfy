// Each critical section of event delivery keeps the invariant.
module GenaSteps {
  import opened EventKeys
  import opened GenaState
  import opened GenaInvariant

  lemma Without<T>(q: seq<T>, i: nat)
    requires i < |q|
    ensures |RemoveAt(q, i)| == |q| - 1
    ensures forall k :: 0 <= k < |q| - 1 ==> RemoveAt(q, i)[k] == q[if k < i then k else k + 1]
    ensures forall x :: x in RemoveAt(q, i) ==> x in q
  {
  }

  // ---- subscriptions leave the list

  lemma RemovedIs(subs: seq<Sub>, sid: Sid)
    ensures Removed(subs, sid) == if IndexOf(subs, sid) < |subs| then RemoveAt(subs, IndexOf(subs, sid)) else subs
  {
  }

  // What does not look at the subscriptions is as it was.
  ghost predicate SameDelivery(s: State, t: State) {
    && t.pool == s.pool && t.transit == s.transit && t.refs == s.refs && t.used == s.used
    && t.initial == s.initial && t.sent == s.sent && t.valid == s.valid && t.active == s.active
  }

  lemma Unlinked(s: State, i: nat)
    requires Inv(s) && i < |s.subs|
    ensures Inv(Shrunk(s, RemoveAt(s.subs, i)))
  {
    hide *;
    var t := Shrunk(s, RemoveAt(s.subs, i));
    ShrunkIs(s, i);
    InvParts(s);
    Without(s.subs, i);
    UniqueWithout(s.subs, i);
    FewerSubs(s, t);
    SameCells(s, t);
    SameOrder(s, t);
    forall k | 0 <= k < |t.subs| ensures SubOk(t, t.subs[k]) {
      SubsAre(s, if k < i then k else k + 1);
      SubKept(s, t, t.subs[k]);
    }
    SubsOkFrom(t);
    PartsInv(t);
  }

  lemma ShrunkIs(s: State, i: nat)
    requires i < |s.subs|
    ensures var t := Shrunk(s, RemoveAt(s.subs, i));
      SameDelivery(s, t) && t.subs == RemoveAt(s.subs, i) && t.total == s.total - 1 && SameJobs(s, t)
      && t.pool == s.pool && t.transit == s.transit && t.refs == s.refs && t.sent == s.sent && t.valid == s.valid
      && t.active == s.active
  {
  }

  ghost predicate SameJobs(s: State, t: State) {
    && (forall sid :: Outstanding(t, sid) == Outstanding(s, sid))
    && (forall sid :: Keys(t.transit, sid) == Keys(s.transit, sid))
    && (forall sid :: KeysSent(t.sent, sid) == KeysSent(s.sent, sid))
  }

  lemma UniqueWithout(subs: seq<Sub>, i: nat)
    requires Unique(subs) && i < |subs|
    ensures Unique(RemoveAt(subs, i))
  {
  }

  lemma FewerSubs(s: State, t: State)
    requires SidsUsed(s) && FirstIsInitial(s) && SameDelivery(s, t)
    requires forall sub :: sub in t.subs ==> sub in s.subs
    ensures SidsUsed(t) && FirstIsInitial(t)
  {
    hide JobIsInitial, NoticeIsInitial;
  }

  lemma SameCells(s: State, t: State)
    requires CountsOk(s) && t.pool == s.pool && t.transit == s.transit && t.refs == s.refs
    ensures CountsOk(t)
  {
    forall c: nat ensures AllSharing(t, c) == AllSharing(s, c) {
    }
  }

  lemma LookedUp(s: State, sid: Sid, now: int)
    requires Inv(s)
    ensures Inv(Shrunk(s, Lookup(s.subs, sid, now)))
    ensures !Finds(s.subs, sid, now) ==> forall sub :: sub in Lookup(s.subs, sid, now) ==> sub.sid != sid
    ensures Finds(s.subs, sid, now) ==> Shrunk(s, Lookup(s.subs, sid, now)) == s
  {
    var i := IndexOf(s.subs, sid);
    if i < |s.subs| && Expired(s.subs[i], now) {
      Unlinked(s, i);
      assert RemoveAt(s.subs, i) == Lookup(s.subs, sid, now);
      OtherSids(s.subs, i) by { InvParts(s); }
    }
  }

  lemma OtherSids(subs: seq<Sub>, i: nat)
    requires Unique(subs) && i < |subs|
    ensures forall sub :: sub in RemoveAt(subs, i) ==> sub.sid != subs[i].sid
  {
  }

  lemma AllRemoved(s: State, sid: Sid)
    requires Inv(s)
    ensures Inv(Shrunk(s, Removed(s.subs, sid)))
  {
    hide *;
    InvParts(s);
    RemovedIs(s.subs, sid);
    if IndexOf(s.subs, sid) < |s.subs| {
      Unlinked(s, IndexOf(s.subs, sid));
    } else {
      ShrunkToSame(s);
    }
  }

  lemma ShrunkToSame(s: State)
    ensures Shrunk(s, s.subs) == s
  {
  }

  // ---- subscriptions that a change does not concern

  lemma SubKept(s: State, t: State, sub: Sub)
    requires SubOk(s, sub)
    requires Outstanding(t, sub.sid) == Outstanding(s, sub.sid) && Keys(t.transit, sub.sid) == Keys(s.transit, sub.sid)
    requires KeysSent(t.sent, sub.sid) == KeysSent(s.sent, sub.sid)
    ensures SubOk(t, sub)
  {
  }

  // ---- Subscribe

  lemma SubscribeKeeps(s: State, sid: Sid, expireTime: int, responds: bool)
    requires Inv(s) && sid !in s.used
    ensures Inv(OnSubscribe(s, sid, expireTime, responds))
  {
    if s.valid && s.active && !(s.max != -1 && s.total >= s.max) && responds {
      SubscribedKeeps(s, Sub(sid, 0, 0, expireTime, false));
    }
  }

  ghost function Subscribed(s: State, sub: Sub): State {
    s.(subs := [sub] + s.subs, total := s.total + 1, used := s.used + {sub.sid})
  }

  lemma SubscribedKeeps(s: State, sub: Sub)
    requires Inv(s) && s.valid && sub.sid !in s.used && !sub.active && sub == Sub(sub.sid, 0, 0, sub.expireTime, false)
    ensures Inv(Subscribed(s, sub))
  {
    hide *;
    var t := Subscribed(s, sub);
    InvParts(s);
    SubscribedParts(s, sub);
    SameCells(s, t);
    SameOrder(s, t);
    forall k | 0 <= k < |t.subs| ensures SubOk(t, t.subs[k]) {
      if k == 0 {
        NewSubOk(s, t, sub);
      } else {
        SubsAre(s, k - 1);
        OutstandingIs(s, s.subs[k - 1].sid);
        OutstandingIs(t, s.subs[k - 1].sid);
        SubKept(s, t, s.subs[k - 1]);
      }
    }
    SubsOkFrom(t);
    PartsInv(t);
  }

  lemma SubscribedParts(s: State, sub: Sub)
    requires Unique(s.subs) && SidsUsed(s) && FirstIsInitial(s) && sub.sid !in s.used && !sub.active
    ensures var t := Subscribed(s, sub);
      && Unique(t.subs) && SidsUsed(t) && FirstIsInitial(t) && t.subs == [sub] + s.subs && t.total == s.total + 1
      && t.pool == s.pool && t.transit == s.transit && t.refs == s.refs && t.sent == s.sent && t.valid == s.valid
      && t.active == s.active
  {
    hide JobIsInitial, NoticeIsInitial, Unique, SidsUsed, FirstIsInitial, Outstanding, Keys, KeysSent;
    var t := Subscribed(s, sub);
    SidsOf(s);
    UniqueMore(sub, s.subs);
    FrontUsed(s, t, sub);
  }

  lemma SidsOf(s: State)
    requires SidsUsed(s)
    ensures forall x :: x in s.subs ==> x.sid in s.used
  {
  }

  lemma FrontUsed(s: State, t: State, sub: Sub)
    requires SidsUsed(s) && FirstIsInitial(s) && sub.sid !in s.used && !sub.active && t == Subscribed(s, sub)
    ensures SidsUsed(t) && FirstIsInitial(t)
  {
    hide JobIsInitial, NoticeIsInitial;
    assert forall x :: x in t.subs ==> x == sub || x in s.subs;
  }

  lemma NewSubOk(s: State, t: State, sub: Sub)
    requires SidsUsed(s) && sub.sid !in s.used && t.pool == s.pool && t.transit == s.transit && t.sent == s.sent
    requires sub == Sub(sub.sid, 0, 0, sub.expireTime, false)
    ensures SubOk(t, sub)
  {
    NoKeys(s.pool, sub.sid);
    NoKeys(s.transit, sub.sid);
    NoneSent(s.sent, sub.sid);
    FitsNew(sub.sid, sub.expireTime);
  }

  // ---- Accept

  lemma AcceptKeeps(s: State, sid: Sid, now: int, body: Body, cell: nat)
    requires Inv(s) && cell !in s.refs
    ensures Inv(OnAccept(s, sid, now, body, cell))
  {
    hide Inv;
    if s.valid {
      LookedUp(s, sid, now);
      if Finds(s.subs, sid, now) && !s.subs[IndexOf(s.subs, sid)].active {
        AcceptedKeeps(s, IndexOf(s.subs, sid), body, cell);
      }
    }
  }

  ghost function Accepted(s: State, i: nat, body: Body, cell: nat): State
    requires i < |s.subs|
  {
    var sub := s.subs[i];
    s.(subs := s.subs[i := sub.(active := true, eventKey := NextKey(sub.eventKey))],
       pool := s.pool + [Job(sub.sid, sub.eventKey, body, cell)],
       refs := s.refs[cell := 1], initial := s.initial[sub.sid := body])
  }

  lemma AcceptedKeeps(s: State, i: nat, body: Body, cell: nat)
    requires Inv(s) && i < |s.subs| && !s.subs[i].active && cell !in s.refs
    ensures Inv(Accepted(s, i, body, cell))
  {
    hide *;
    var t, sub := Accepted(s, i, body, cell), s.subs[i];
    var j := Job(sub.sid, sub.eventKey, body, cell);
    InvParts(s);
    AcceptedParts(s, i, body, cell);
    SharingOne(j, cell);
    OthersShare([j], cell);
    AddedCell(s, t, [j], cell, 1);
    SameOrder(s, t);
    forall k | 0 <= k < |t.subs| ensures SubOk(t, t.subs[k]) {
      SubsAre(s, k);
      KeysConcat(s.pool, [j], t.subs[k].sid);
      KeysOne(j, t.subs[k].sid);
      OutstandingIs(s, t.subs[k].sid);
      OutstandingIs(t, t.subs[k].sid);
      if k == i {
        AcceptedSubOk(s, t, sub);
      } else {
        UniqueApart(s.subs, k, i);
        SubKept(s, t, s.subs[k]);
      }
    }
    SubsOkFrom(t);
    PartsInv(t);
  }

  lemma OutstandingIs(s: State, sid: Sid)
    ensures Outstanding(s, sid) == Keys(s.pool, sid) + Keys(s.transit, sid)
  {
  }

  lemma UniqueApart(subs: seq<Sub>, k: nat, i: nat)
    requires Unique(subs) && k < |subs| && i < |subs| && k != i
    ensures subs[k].sid != subs[i].sid
  {
  }

  lemma AcceptedSubOk(s: State, t: State, sub: Sub)
    requires SubOk(s, sub) && !sub.active && t.transit == s.transit && t.sent == s.sent
    requires Outstanding(t, sub.sid) == Outstanding(s, sub.sid) + multiset{sub.eventKey}
    ensures SubOk(t, sub.(active := true, eventKey := NextKey(sub.eventKey)))
  {
    FitsAccepted(sub, Outstanding(s, sub.sid), Keys(s.transit, sub.sid), KeysSent(s.sent, sub.sid));
  }

  lemma AcceptedParts(s: State, i: nat, body: Body, cell: nat)
    requires i < |s.subs| && !s.subs[i].active && Unique(s.subs) && SidsUsed(s) && FirstIsInitial(s) && s.active
    requires !s.valid ==> s.subs == []
    ensures var t, sub := Accepted(s, i, body, cell), s.subs[i];
      && t.valid == s.valid && t.active && Unique(t.subs) && SidsUsed(t) && FirstIsInitial(t) && t.total == s.total
      && t.pool == s.pool + [Job(sub.sid, sub.eventKey, body, cell)] && t.transit == s.transit && t.sent == s.sent
      && t.refs == s.refs[cell := 1] && t.subs == s.subs[i := sub.(active := true, eventKey := NextKey(sub.eventKey))]
      && s.valid
  {
    var t, sub := Accepted(s, i, body, cell), s.subs[i];
    var sub' := sub.(active := true, eventKey := NextKey(sub.eventKey));
    InitialKept(s, sub.sid, body);
    hide JobIsInitial, NoticeIsInitial;
    assert forall x :: x in t.subs ==> x == sub' || x in s.subs;
    assert JobIsInitial(t.initial, Job(sub.sid, sub.eventKey, body, cell)) by {
      NewIsInitial(s.initial, sub, body, cell);
    }
    forall x | x in t.subs && !x.active ensures x.sid !in t.initial {
      var k :| 0 <= k < |t.subs| && t.subs[k] == x;
      assert k != i && x == s.subs[k] && x in s.subs;
    }
  }

  lemma NewIsInitial(initial: map<Sid, Body>, sub: Sub, body: Body, cell: nat)
    ensures JobIsInitial(initial[sub.sid := body], Job(sub.sid, sub.eventKey, body, cell))
  {
  }

  // Jobs and transmissions of other subscriptions keep their initial body; this one has none yet.
  lemma InitialKept(s: State, sid: Sid, body: Body)
    requires FirstIsInitial(s) && sid !in s.initial
    ensures forall j :: j in s.pool ==> JobIsInitial(s.initial[sid := body], j)
    ensures forall j :: j in s.transit ==> JobIsInitial(s.initial[sid := body], j)
    ensures forall n :: n in s.sent ==> NoticeIsInitial(s.initial[sid := body], n)
  {
  }

  // ---- reference counts

  lemma {:induction false} OthersShare(jobs: seq<Job>, cell: nat)
    requires forall i :: 0 <= i < |jobs| ==> jobs[i].cell == cell
    ensures Sharing(jobs, cell) == |jobs| && forall c: nat :: c != cell ==> Sharing(jobs, c) == 0
  {
    if jobs != [] {
      OthersShare(jobs[1..], cell);
    }
  }

  // New jobs share a new count.
  lemma AddedCell(s: State, t: State, jobs: seq<Job>, cell: nat, n: nat)
    requires CountsOk(s) && cell !in s.refs && t.pool == s.pool + jobs && t.transit == s.transit
    requires n > 0 && t.refs == s.refs[cell := n] && Sharing(jobs, cell) == n
    requires forall c: nat :: c != cell ==> Sharing(jobs, c) == 0
    ensures CountsOk(t)
  {
    forall c: nat
      ensures if AllSharing(t, c) > 0 then c in t.refs && t.refs[c] == AllSharing(t, c) else c !in t.refs
    {
      SharingConcat(s.pool, jobs, c);
      assert AllSharing(t, c) == AllSharing(s, c) + Sharing(jobs, c);
    }
  }

  // A released job gives up its share, and the last one frees the count.
  lemma ReleasedCell(s: State, t: State, j: Job)
    requires CountsOk(s) && t.refs == Release(s.refs, j.cell)
    requires forall c: nat :: AllSharing(s, c) == AllSharing(t, c) + if c == j.cell then 1 else 0
    ensures CountsOk(t)
  {
    assert AllSharing(s, j.cell) > 0;
    forall c: nat
      ensures if AllSharing(t, c) > 0 then c in t.refs && t.refs[c] == AllSharing(t, c) else c !in t.refs
    {
      assert AllSharing(s, c) == AllSharing(t, c) + if c == j.cell then 1 else 0;
    }
  }

  // ---- jobs of subscriptions that are gone

  ghost function FromPool(s: State, i: nat): State
    requires i < |s.pool|
  {
    Drop(s.(pool := RemoveAt(s.pool, i)), s.pool[i])
  }

  ghost function FromTransit(s: State, i: nat): State
    requires i < |s.transit|
  {
    Drop(s.(transit := RemoveAt(s.transit, i)), s.transit[i])
  }

  lemma DropFromPool(s: State, i: nat)
    requires Inv(s) && i < |s.pool| && forall sub :: sub in s.subs ==> sub.sid != s.pool[i].sid
    ensures Inv(FromPool(s, i))
  {
    hide *;
    var j, t := s.pool[i], FromPool(s, i);
    InvParts(s);
    FromPoolParts(s, i);
    SameOrder(s, t);
    forall k | 0 <= k < |t.subs| ensures SubOk(t, t.subs[k]) {
      SubsAre(s, k);
      assert s.subs[k] in s.subs;
      KeysRemoveAt(s.pool, i, s.subs[k].sid);
      OutstandingIs(s, s.subs[k].sid);
      OutstandingIs(t, s.subs[k].sid);
      SubKept(s, t, s.subs[k]);
    }
    SubsOkFrom(t);
    PartsInv(t);
  }

  lemma FromPoolParts(s: State, i: nat)
    requires CountsOk(s) && SidsUsed(s) && FirstIsInitial(s) && i < |s.pool|
    ensures var t := FromPool(s, i);
      && CountsOk(t) && SidsUsed(t) && FirstIsInitial(t) && t.valid == s.valid && t.active == s.active
      && t.subs == s.subs && t.total == s.total && t.sent == s.sent && t.transit == s.transit
      && t.pool == RemoveAt(s.pool, i)
  {
    var j, t := s.pool[i], FromPool(s, i);
    Without(s.pool, i);
    forall c: nat ensures AllSharing(s, c) == AllSharing(t, c) + if c == j.cell then 1 else 0 {
      SharingRemoveAt(s.pool, i, c);
    }
    ReleasedCell(s, t, j);
    hide JobIsInitial, NoticeIsInitial, CountsOk, Release, RemoveAt;
  }

  lemma FromTransitParts(s: State, i: nat)
    requires CountsOk(s) && SidsUsed(s) && FirstIsInitial(s) && i < |s.transit|
    ensures var t := FromTransit(s, i);
      && CountsOk(t) && SidsUsed(t) && FirstIsInitial(t) && t.valid == s.valid && t.active == s.active
      && t.subs == s.subs && t.total == s.total && t.sent == s.sent && t.pool == s.pool
      && t.transit == RemoveAt(s.transit, i)
  {
    var j, t := s.transit[i], FromTransit(s, i);
    Without(s.transit, i);
    forall c: nat ensures AllSharing(s, c) == AllSharing(t, c) + if c == j.cell then 1 else 0 {
      SharingRemoveAt(s.transit, i, c);
    }
    ReleasedCell(s, t, j);
    hide JobIsInitial, NoticeIsInitial, CountsOk, Release, RemoveAt;
  }

  lemma DropFromTransit(s: State, i: nat)
    requires Inv(s) && i < |s.transit| && forall sub :: sub in s.subs ==> sub.sid != s.transit[i].sid
    ensures Inv(FromTransit(s, i))
  {
    hide *;
    var j, t := s.transit[i], FromTransit(s, i);
    InvParts(s);
    FromTransitParts(s, i);
    SameOrder(s, t);
    forall k | 0 <= k < |t.subs| ensures SubOk(t, t.subs[k]) {
      SubsAre(s, k);
      assert s.subs[k] in s.subs;
      KeysRemoveAt(s.transit, i, s.subs[k].sid);
      OutstandingIs(s, s.subs[k].sid);
      OutstandingIs(t, s.subs[k].sid);
      SubKept(s, t, s.subs[k]);
    }
    SubsOkFrom(t);
    PartsInv(t);
  }

  // ---- Pick

  lemma PickKeeps(s: State, i: nat, now: int)
    requires Inv(s) && i < |s.pool|
    ensures Inv(OnPick(s, i, now))
  {
    hide Inv;
    var j := s.pool[i];
    InvParts(s);
    hide SidsUsed, SubsOk, InOrder, CountsOk, FirstIsInitial, Unique;
    if !s.valid {
      DropFromPool(s, i);
    } else {
      LookedUp(s, j.sid, now);
      if !Finds(s.subs, j.sid, now) {
        DropFromPool(Shrunk(s, Lookup(s.subs, j.sid, now)), i);
      } else if j.eventKey != s.subs[IndexOf(s.subs, j.sid)].toSendEventKey {
        RequeueKeeps(s, i);
      } else {
        TransmitKeeps(s, i, IndexOf(s.subs, j.sid));
      }
    }
  }

  ghost function Requeued(s: State, i: nat): State
    requires i < |s.pool|
  {
    s.(pool := RemoveAt(s.pool, i) + [s.pool[i]])
  }

  // A job that is put back stays what it was, at the end of the pool.
  lemma RequeueKeeps(s: State, i: nat)
    requires Inv(s) && i < |s.pool|
    ensures Inv(Requeued(s, i))
  {
    hide *;
    var j, t := s.pool[i], Requeued(s, i);
    InvParts(s);
    RequeuedParts(s, i);
    SameOrder(s, t);
    forall k | 0 <= k < |t.subs| ensures SubOk(t, t.subs[k]) {
      SubsAre(s, k);
      KeysRemoveAt(s.pool, i, s.subs[k].sid);
      KeysConcat(RemoveAt(s.pool, i), [j], s.subs[k].sid);
      KeysOne(j, s.subs[k].sid);
      OutstandingIs(s, s.subs[k].sid);
      OutstandingIs(t, s.subs[k].sid);
      SubKept(s, t, s.subs[k]);
    }
    SubsOkFrom(t);
    PartsInv(t);
  }

  lemma RequeuedParts(s: State, i: nat)
    requires CountsOk(s) && SidsUsed(s) && FirstIsInitial(s) && i < |s.pool|
    ensures var t := Requeued(s, i);
      && CountsOk(t) && SidsUsed(t) && FirstIsInitial(t) && t.valid == s.valid && t.active == s.active
      && t.subs == s.subs && t.total == s.total && t.sent == s.sent && t.transit == s.transit
      && t.pool == RemoveAt(s.pool, i) + [s.pool[i]]
  {
    var j, t := s.pool[i], Requeued(s, i);
    Without(s.pool, i);
    forall c: nat ensures AllSharing(t, c) == AllSharing(s, c) {
      SharingRemoveAt(s.pool, i, c);
      SharingConcat(RemoveAt(s.pool, i), [j], c);
      SharingOne(j, c);
    }
    assert CountsOk(t);
    hide JobIsInitial, NoticeIsInitial, CountsOk, RemoveAt;
  }

  ghost function Transmitted(s: State, i: nat, key: Key): State
    requires i < |s.pool|
  {
    var j := s.pool[i];
    s.(pool := RemoveAt(s.pool, i), transit := s.transit + [j], sent := s.sent + [Notice(j.sid, key, j.body)])
  }

  lemma TransmitKeeps(s: State, i: nat, n: nat)
    requires Inv(s) && i < |s.pool| && n < |s.subs| && s.subs[n].sid == s.pool[i].sid
    requires s.subs[n].toSendEventKey == s.pool[i].eventKey
    ensures Inv(Transmitted(s, i, s.subs[n].toSendEventKey))
  {
    hide *;
    var j, sub := s.pool[i], s.subs[n];
    var t, note := Transmitted(s, i, sub.toSendEventKey), Notice(j.sid, sub.toSendEventKey, j.body);
    InvParts(s);
    SubsAre(s, n);
    TransmittedParts(s, i, sub.toSendEventKey);
    TransmittedSubOk(s, t, i, sub);
    forall k | 0 <= k < |t.subs| ensures SubOk(t, t.subs[k]) {
      if k != n {
        var sid := s.subs[k].sid;
        UniqueApart(s.subs, k, n);
        SubsAre(s, k);
        KeysRemoveAt(s.pool, i, sid);
        KeysConcat(s.transit, [j], sid);
        KeysOne(j, sid);
        SentSnoc(s.sent, note, sid);
        OutstandingIs(s, sid);
        OutstandingIs(t, sid);
        SubKept(s, t, s.subs[k]);
      }
    }
    SubsOkFrom(t);
    PartsInv(t);
  }

  lemma TransmittedSubOk(s: State, t: State, i: nat, sub: Sub)
    requires InOrder(s) && SubOk(s, sub) && i < |s.pool| && s.pool[i].sid == sub.sid
    requires s.pool[i].eventKey == sub.toSendEventKey
    requires t.pool == RemoveAt(s.pool, i) && t.transit == s.transit + [s.pool[i]]
    requires t.sent == s.sent + [Notice(sub.sid, sub.toSendEventKey, s.pool[i].body)]
    ensures SubOk(t, sub) && InOrder(t)
  {
    var j, note := s.pool[i], Notice(sub.sid, sub.toSendEventKey, s.pool[i].body);
    var all, wait, inTransit, sent :=
      Outstanding(s, sub.sid), Keys(s.pool, sub.sid), Keys(s.transit, sub.sid), KeysSent(s.sent, sub.sid);
    KeyIn(s.pool, i);
    NotInTransit(sub, all, wait, inTransit, sent);
    FitsPicked(sub, all, inTransit, sent);
    SentInOrder(s, t, sub, note);
    hide Fits, InOrder, RemoveAt;
    KeysRemoveAt(s.pool, i, sub.sid);
    KeysConcat(s.transit, [j], sub.sid);
    KeysOne(j, sub.sid);
    SentSnoc(s.sent, note, sub.sid);
    assert Outstanding(t, sub.sid) == all;
  }

  lemma TransmittedParts(s: State, i: nat, key: Key)
    requires CountsOk(s) && SidsUsed(s) && FirstIsInitial(s) && i < |s.pool| && s.pool[i].eventKey == key
    ensures var t := Transmitted(s, i, key);
      && CountsOk(t) && SidsUsed(t) && FirstIsInitial(t) && t.valid == s.valid && t.active == s.active
      && t.subs == s.subs && t.total == s.total && t.pool == RemoveAt(s.pool, i) && t.transit == s.transit + [s.pool[i]]
      && t.sent == s.sent + [Notice(s.pool[i].sid, key, s.pool[i].body)]
  {
    var j, t := s.pool[i], Transmitted(s, i, key);
    Without(s.pool, i);
    MovedCell(s, t, i);
    assert j in s.pool;
    NoticeOfJob(s.initial, j);
    hide JobIsInitial, NoticeIsInitial, CountsOk, RemoveAt;
  }

  lemma NoticeOfJob(initial: map<Sid, Body>, j: Job)
    ensures JobIsInitial(initial, j) ==> NoticeIsInitial(initial, Notice(j.sid, j.eventKey, j.body))
  {
  }

  lemma MovedCell(s: State, t: State, i: nat)
    requires CountsOk(s) && i < |s.pool| && t.refs == s.refs
    requires t.pool == RemoveAt(s.pool, i) && t.transit == s.transit + [s.pool[i]]
    ensures CountsOk(t)
  {
    forall c: nat ensures AllSharing(t, c) == AllSharing(s, c) {
      SharingRemoveAt(s.pool, i, c);
      SharingConcat(s.transit, [s.pool[i]], c);
      SharingOne(s.pool[i], c);
    }
  }

  // The key sent next is the next in order.
  lemma SentInOrder(s: State, t: State, sub: Sub, n: Notice)
    requires InOrder(s) && n.sid == sub.sid && n.seqKey == sub.toSendEventKey && t.sent == s.sent + [n]
    requires Advance(0, |KeysSent(s.sent, sub.sid)|) == sub.toSendEventKey
    ensures InOrder(t)
  {
    forall sid ensures KeysSent(t.sent, sid) == FirstKeys(|KeysSent(t.sent, sid)|) {
      SentSnoc(s.sent, n, sid);
      if sid == sub.sid {
        FirstKeysSnoc(|KeysSent(s.sent, sid)|);
      }
    }
  }

  // ---- Finish

  lemma FinishKeeps(s: State, i: nat, now: int, remove: bool)
    requires Inv(s) && i < |s.transit|
    ensures Inv(OnFinish(s, i, now, remove))
  {
    hide Inv;
    var j := s.transit[i];
    InvParts(s);
    hide SidsUsed, SubsOk, InOrder, CountsOk, FirstIsInitial, Unique;
    if !s.valid {
      DropFromTransit(s, i);
    } else {
      LookedUp(s, j.sid, now);
      if !Finds(s.subs, j.sid, now) {
        DropFromTransit(Shrunk(s, Lookup(s.subs, j.sid, now)), i);
      } else {
        var t := Finished(s, i, IndexOf(s.subs, j.sid));
        FinishedKeeps(s, i, IndexOf(s.subs, j.sid));
        if remove {
          AllRemoved(t, j.sid);
        }
      }
    }
  }

  ghost function Finished(s: State, i: nat, n: nat): State
    requires i < |s.transit| && n < |s.subs|
  {
    FromTransit(s, i).(subs := s.subs[n := s.subs[n].(toSendEventKey := NextKey(s.subs[n].toSendEventKey))])
  }

  lemma FinishedKeeps(s: State, i: nat, n: nat)
    requires Inv(s) && i < |s.transit| && n < |s.subs| && s.subs[n].sid == s.transit[i].sid
    ensures Inv(Finished(s, i, n))
  {
    hide *;
    var j, sub, t := s.transit[i], s.subs[n], Finished(s, i, n);
    InvParts(s);
    FinishedParts(s, i, n);
    SameOrder(s, t);
    forall k | 0 <= k < |t.subs| ensures SubOk(t, t.subs[k]) {
      var sid := s.subs[k].sid;
      SubsAre(s, k);
      KeysRemoveAt(s.transit, i, sid);
      OutstandingIs(s, sid);
      OutstandingIs(t, sid);
      if k == n {
        FinishedSubOk(s, t, i, sub);
      } else {
        UniqueApart(s.subs, k, n);
        SubKept(s, t, s.subs[k]);
      }
    }
    SubsOkFrom(t);
    PartsInv(t);
  }

  lemma FinishedSubOk(s: State, t: State, i: nat, sub: Sub)
    requires SubOk(s, sub) && i < |s.transit| && s.transit[i].sid == sub.sid
    requires t.pool == s.pool && t.transit == RemoveAt(s.transit, i) && t.sent == s.sent
    ensures SubOk(t, sub.(toSendEventKey := NextKey(sub.toSendEventKey)))
  {
    var k, inTransit := Outstanding(s, sub.sid), Keys(s.transit, sub.sid);
    KeyIn(s.transit, i);
    assert s.transit[i].eventKey in multiset{sub.toSendEventKey};
    FitsFinished(sub, k, inTransit, KeysSent(s.sent, sub.sid));
    hide Fits, RemoveAt;
    KeysRemoveAt(s.transit, i, sub.sid);
    assert Keys(t.transit, sub.sid) == inTransit - multiset{sub.toSendEventKey};
    assert Outstanding(t, sub.sid) == k - multiset{sub.toSendEventKey};
  }

  lemma FinishedParts(s: State, i: nat, n: nat)
    requires CountsOk(s) && SidsUsed(s) && FirstIsInitial(s) && Unique(s.subs) && i < |s.transit| && n < |s.subs|
    requires !s.valid ==> s.subs == []
    ensures var t := Finished(s, i, n);
      && CountsOk(t) && SidsUsed(t) && FirstIsInitial(t) && Unique(t.subs) && t.valid == s.valid && t.active == s.active
      && t.total == s.total && t.pool == s.pool && t.transit == RemoveAt(s.transit, i) && t.sent == s.sent && s.valid
      && t.subs == s.subs[n := s.subs[n].(toSendEventKey := NextKey(s.subs[n].toSendEventKey))]
  {
    var u, t := FromTransit(s, i), Finished(s, i, n);
    FromTransitParts(s, i);
    hide FromTransit;
    SameCells(u, t);
    UpdatedSubs(u, t, n);
  }

  // A subscription changes, but not its SID nor whether it is active.
  lemma UpdatedSubs(s: State, t: State, n: nat)
    requires SidsUsed(s) && FirstIsInitial(s) && Unique(s.subs) && n < |s.subs| && |t.subs| == |s.subs|
    requires t.used == s.used && t.pool == s.pool && t.transit == s.transit && t.initial == s.initial
    requires t.sent == s.sent
    requires t.subs == s.subs[n := t.subs[n]] && t.subs[n].sid == s.subs[n].sid && t.subs[n].active == s.subs[n].active
    ensures SidsUsed(t) && FirstIsInitial(t) && Unique(t.subs)
  {
    hide JobIsInitial, NoticeIsInitial;
    assert s.subs[n] in s.subs;
    assert forall x :: x in t.subs ==> x == t.subs[n] || x in s.subs;
  }

  // ---- Unsubscribe and Renew

  lemma UnsubscribeKeeps(s: State, sid: Sid, now: int)
    requires Inv(s)
    ensures Inv(OnUnsubscribe(s, sid, now))
  {
    hide Inv;
    LookedUp(s, sid, now);
    AllRemoved(Shrunk(s, Lookup(s.subs, sid, now)), sid);
  }

  lemma RenewKeeps(s: State, sid: Sid, now: int, expireTime: int, responds: bool)
    requires Inv(s)
    ensures Inv(OnRenew(s, sid, now, expireTime, responds))
  {
    hide Inv;
    LookedUp(s, sid, now);
    AllRemoved(Shrunk(s, Lookup(s.subs, sid, now)), sid);
    if Finds(s.subs, sid, now) {
      RenewedKeeps(s, IndexOf(s.subs, sid), expireTime);
    }
  }

  ghost function Renewed(s: State, n: nat, expireTime: int): State
    requires n < |s.subs|
  {
    s.(subs := s.subs[n := s.subs[n].(expireTime := expireTime)])
  }

  lemma RenewedKeeps(s: State, n: nat, expireTime: int)
    requires Inv(s) && n < |s.subs|
    ensures Inv(Renewed(s, n, expireTime))
  {
    var t := Renewed(s, n, expireTime);
    InvParts(s);
    hide Inv, SubsOk, InOrder, CountsOk, FirstIsInitial, SidsUsed, Unique, Fits, Keys, KeysSent, Outstanding;
    SameCells(s, t);
    SameOrder(s, t);
    UpdatedSubs(s, t, n);
    forall k | 0 <= k < |t.subs| ensures SubOk(t, t.subs[k]) {
      SubsAre(s, k);
      if k == n {
        RenewedSubOk(s, t, s.subs[n], expireTime);
      } else {
        SubKept(s, t, s.subs[k]);
      }
    }
    SubsOkFrom(t);
    PartsInv(t);
  }

  lemma RenewedSubOk(s: State, t: State, sub: Sub, expireTime: int)
    requires SubOk(s, sub) && t.pool == s.pool && t.transit == s.transit && t.sent == s.sent
    ensures SubOk(t, sub.(expireTime := expireTime))
  {
    hide Keys, KeysSent;
  }

  // ---- Unregister

  lemma UnregisterKeeps(s: State)
    requires Inv(s)
    ensures Inv(s.(valid := false, subs := [], total := 0))
  {
    var t := s.(valid := false, subs := [], total := 0);
    InvParts(s);
    SameCells(s, t);
    SameOrder(s, t);
    FewerSubs(s.(valid := false), t);
    hide SubOk, CountsOk, InOrder, FirstIsInitial, SidsUsed;
  }

  // ---- NotifyAll

  // What a traversal makes of a subscription: the same, or the next event key and one job.
  ghost predicate Visited(sub: Sub, sub': Sub, jobs: seq<Job>) {
    if sub.active then sub' == sub.(eventKey := NextKey(sub.eventKey)) && Keys(jobs, sub.sid) == multiset{sub.eventKey}
    else sub' == sub && Keys(jobs, sub.sid) == multiset{}
  }

  ghost predicate FromSubs(subs: seq<Sub>, sub': Sub, jobs: seq<Job>) {
    exists m :: 0 <= m < |subs| && Visited(subs[m], sub', jobs)
  }

  // All jobs are for active subscriptions of the list, with their keys, and share the cell.
  ghost predicate JobsOf(subs: seq<Sub>, jobs: seq<Job>, body: Body, cell: nat) {
    forall j :: j in jobs ==> j.cell == cell && j.body == body && exists m :: 0 <= m < |subs| && JobOf(subs[m], j)
  }

  ghost predicate JobOf(sub: Sub, j: Job) {
    sub.active && j.sid == sub.sid && j.eventKey == sub.eventKey
  }

  lemma {:induction false} TraverseJobs(subs: seq<Sub>, clock: seq<int>, body: Body, cell: nat)
    ensures JobsOf(subs, Traverse(subs, clock, body, cell).1, body, cell)
    decreases |subs|
  {
    if subs != [] {
      var later := if clock == [] then [] else clock[1..];
      TraverseJobs(subs[1..], clock, body, cell);
      TraverseJobs(subs[1..], later, body, cell);
      JobsOfMore(subs, Traverse(subs[1..], clock, body, cell).1, body, cell);
      JobsOfMore(subs, Traverse(subs[1..], later, body, cell).1, body, cell);
      hide JobsOf;
      if subs[0].active {
        JobsOfHead(subs, Traverse(subs[1..], later, body, cell).1, body, cell);
      }
    }
  }

  lemma JobsOfMore(subs: seq<Sub>, jobs: seq<Job>, body: Body, cell: nat)
    requires subs != [] && JobsOf(subs[1..], jobs, body, cell)
    ensures JobsOf(subs, jobs, body, cell)
  {
    hide JobOf;
    forall j | j in jobs ensures exists m :: 0 <= m < |subs| && JobOf(subs[m], j) {
      var m :| 0 <= m < |subs[1..]| && JobOf(subs[1..][m], j);
      assert JobOf(subs[m + 1], j);
    }
  }

  lemma JobsOfHead(subs: seq<Sub>, jobs: seq<Job>, body: Body, cell: nat)
    requires subs != [] && subs[0].active && JobsOf(subs, jobs, body, cell)
    ensures JobsOf(subs, [Job(subs[0].sid, subs[0].eventKey, body, cell)] + jobs, body, cell)
  {
    assert JobOf(subs[0], Job(subs[0].sid, subs[0].eventKey, body, cell));
    hide JobOf;
  }

  // The first subscription of a traversal.
  ghost function Later(sub: Sub, clock: seq<int>): seq<int> {
    if Expired(sub, if clock == [] then 0 else clock[0]) || !sub.active || clock == [] then clock else clock[1..]
  }

  lemma TraverseHead(subs: seq<Sub>, clock: seq<int>, body: Body, cell: nat)
    requires subs != []
    ensures var (kept, jobs) := Traverse(subs[1..], Later(subs[0], clock), body, cell);
      var (kept', all) := Traverse(subs, clock, body, cell);
      || (kept' == kept && all == jobs)
      || (kept' == [subs[0]] + kept && all == jobs && !subs[0].active)
      || (kept' == [subs[0].(eventKey := NextKey(subs[0].eventKey))] + kept && subs[0].active
          && all == [Job(subs[0].sid, subs[0].eventKey, body, cell)] + jobs)
  {
  }

  lemma {:induction false} TraverseSubs(subs: seq<Sub>, clock: seq<int>, body: Body, cell: nat)
    requires Unique(subs)
    ensures Unique(Traverse(subs, clock, body, cell).0)
    ensures forall sub' :: sub' in Traverse(subs, clock, body, cell).0 ==>
      FromSubs(subs, sub', Traverse(subs, clock, body, cell).1)
    decreases |subs|
  {
    if subs == [] {
      assert Traverse(subs, clock, body, cell).0 == [];
    } else {
      hide *;
      var sub, rest := subs[0], subs[1..];
      UniqueRest(subs);
      TraverseHead(subs, clock, body, cell);
      var (kept, jobs) := Traverse(rest, Later(sub, clock), body, cell);
      var (kept', all) := Traverse(subs, clock, body, cell);
      TraverseSubs(rest, Later(sub, clock), body, cell);
      TraverseJobs(rest, Later(sub, clock), body, cell);
      NoJobsFor(sub, rest, jobs, body, cell);
      forall sub' | sub' in kept ensures FromSubs(subs, sub', all) && sub'.sid != sub.sid {
        StillVisited(sub, rest, sub', jobs, all, body, cell);
      }
      if kept' != kept {
        HeadVisited(subs, kept'[0], jobs, all, body, cell);
        UniqueMore(kept'[0], kept);
      }
    }
  }

  lemma UniqueRest(subs: seq<Sub>)
    requires subs != [] && Unique(subs)
    ensures Unique(subs[1..]) && subs == [subs[0]] + subs[1..]
  {
  }

  lemma UniqueMore(sub: Sub, rest: seq<Sub>)
    requires Unique(rest) && forall sub' :: sub' in rest ==> sub'.sid != sub.sid
    ensures Unique([sub] + rest) && forall x :: x in [sub] + rest ==> x == sub || x in rest
  {
    var more := [sub] + rest;
    forall i, j | 0 <= i < j < |more| ensures more[i].sid != more[j].sid {
      assert more[j] == rest[j - 1] && rest[j - 1] in rest;
    }
  }

  lemma HeadVisited(subs: seq<Sub>, sub': Sub, jobs: seq<Job>, all: seq<Job>, body: Body, cell: nat)
    requires subs != [] && Keys(jobs, subs[0].sid) == multiset{}
    requires if subs[0].active then
        && sub' == subs[0].(eventKey := NextKey(subs[0].eventKey))
        && all == [Job(subs[0].sid, subs[0].eventKey, body, cell)] + jobs
      else sub' == subs[0] && all == jobs
    ensures FromSubs(subs, sub', all) && sub'.sid == subs[0].sid
  {
    var j := Job(subs[0].sid, subs[0].eventKey, body, cell);
    KeysOne(j, subs[0].sid);
    KeysConcat([j], jobs, subs[0].sid);
    hide Keys;
    assert Visited(subs[0], sub', all);
  }

  lemma RestApart(sub: Sub, rest: seq<Sub>, m: nat)
    requires Unique([sub] + rest) && m < |rest|
    ensures rest[m].sid != sub.sid && rest[m] == ([sub] + rest)[m + 1]
  {
    assert ([sub] + rest)[0] == sub && ([sub] + rest)[m + 1] == rest[m];
  }

  lemma NoJobsFor(sub: Sub, rest: seq<Sub>, jobs: seq<Job>, body: Body, cell: nat)
    requires Unique([sub] + rest) && JobsOf(rest, jobs, body, cell)
    ensures Keys(jobs, sub.sid) == multiset{}
  {
    forall j | j in jobs ensures j.sid != sub.sid {
      var m :| 0 <= m < |rest| && JobOf(rest[m], j);
      RestApart(sub, rest, m);
    }
    NoKeys(jobs, sub.sid);
  }

  // The head's job is not for a subscription behind it.
  lemma OtherKeys(sub: Sub, other: Sid, jobs: seq<Job>, all: seq<Job>, body: Body, cell: nat)
    requires all == jobs || all == [Job(sub.sid, sub.eventKey, body, cell)] + jobs
    requires other != sub.sid
    ensures Keys(all, other) == Keys(jobs, other)
  {
    var j := Job(sub.sid, sub.eventKey, body, cell);
    if all != jobs {
      KeysConcat([j], jobs, other);
      KeysOne(j, other);
      hide Keys;
      assert multiset{} + Keys(jobs, other) == Keys(jobs, other);
    }
  }

  lemma StillVisited(sub: Sub, rest: seq<Sub>, sub': Sub, jobs: seq<Job>, all: seq<Job>, body: Body, cell: nat)
    requires Unique([sub] + rest) && FromSubs(rest, sub', jobs)
    requires all == jobs || all == [Job(sub.sid, sub.eventKey, body, cell)] + jobs
    ensures FromSubs([sub] + rest, sub', all) && sub'.sid != sub.sid
  {
    var m :| 0 <= m < |rest| && Visited(rest[m], sub', jobs);
    RestApart(sub, rest, m);
    OtherKeys(sub, rest[m].sid, jobs, all, body, cell);
    VisitedSame(rest[m], sub', jobs, all);
    hide Visited, Unique;
    assert Visited(([sub] + rest)[m + 1], sub', all);
  }

  lemma VisitedSame(sub: Sub, sub': Sub, jobs: seq<Job>, all: seq<Job>)
    requires Visited(sub, sub', jobs) && Keys(all, sub.sid) == Keys(jobs, sub.sid)
    ensures Visited(sub, sub', all) && sub'.sid == sub.sid
  {
    hide Keys;
  }

  ghost function Notified(s: State, clock: seq<int>, body: Body, cell: nat): State {
    var (subs, jobs) := Traverse(s.subs, clock, body, cell);
    Shrunk(s, subs).(pool := s.pool + jobs, refs := if jobs == [] then s.refs else s.refs[cell := |jobs|])
  }

  lemma NotifyAllKeeps(s: State, clock: seq<int>, body: Body, cell: nat)
    requires Inv(s) && cell !in s.refs && Bounded(OnNotifyAll(s, clock, body, cell))
    ensures Inv(OnNotifyAll(s, clock, body, cell))
  {
    hide Inv, Traverse, Bounded;
    if s.valid {
      NotifiedKeeps(s, clock, body, cell);
    }
  }

  lemma NotifiedKeeps(s: State, clock: seq<int>, body: Body, cell: nat)
    requires Inv(s) && s.valid && cell !in s.refs && Bounded(Notified(s, clock, body, cell))
    ensures Inv(Notified(s, clock, body, cell))
  {
    hide *;
    var t := Notified(s, clock, body, cell);
    var (kept, jobs) := Traverse(s.subs, clock, body, cell);
    InvParts(s);
    TraverseSubs(s.subs, clock, body, cell);
    TraverseJobs(s.subs, clock, body, cell);
    NotifiedParts(s, clock, body, cell);
    SameOrder(s, t);
    forall k | 0 <= k < |t.subs| ensures SubOk(t, t.subs[k]) {
      BoundedAt(t, k);
      VisitedSubOk(s, t, t.subs[k], jobs);
    }
    SubsOkFrom(t);
    PartsInv(t);
  }

  lemma BoundedAt(s: State, k: nat)
    requires Bounded(s) && k < |s.subs|
    ensures |Outstanding(s, s.subs[k].sid)| <= MAX_KEY && s.subs[k] in s.subs
  {
  }

  lemma VisitedSubOk(s: State, t: State, sub': Sub, jobs: seq<Job>)
    requires SubsOk(s) && FromSubs(s.subs, sub', jobs) && |Outstanding(t, sub'.sid)| <= MAX_KEY
    requires t.pool == s.pool + jobs && t.transit == s.transit && t.sent == s.sent
    ensures SubOk(t, sub')
  {
    var m :| 0 <= m < |s.subs| && Visited(s.subs[m], sub', jobs);
    var sub := s.subs[m];
    SubsAre(s, m);
    KeysConcat(s.pool, jobs, sub.sid);
    hide Keys, KeysSent, SubsOk;
    if sub.active {
      var all := Outstanding(s, sub.sid);
      assert Outstanding(t, sub.sid) == all + multiset{sub.eventKey};
      assert |all + multiset{sub.eventKey}| == |all| + 1;
      FitsNotified(sub, all, Keys(s.transit, sub.sid), KeysSent(s.sent, sub.sid));
    } else {
      assert Outstanding(t, sub.sid) == Outstanding(s, sub.sid);
    }
  }

  lemma JobKeysPositive(s: State, jobs: seq<Job>, body: Body, cell: nat)
    requires SubsOk(s) && SidsUsed(s) && JobsOf(s.subs, jobs, body, cell)
    ensures forall j :: j in jobs ==> JobIsInitial(s.initial, j) && j.sid in s.used
  {
    forall j | j in jobs ensures JobIsInitial(s.initial, j) && j.sid in s.used {
      var m :| 0 <= m < |s.subs| && JobOf(s.subs[m], j);
      SubsAre(s, m);
      assert s.subs[m] in s.subs;
    }
  }

  lemma NotifiedParts(s: State, clock: seq<int>, body: Body, cell: nat)
    requires SubsOk(s) && SidsUsed(s) && FirstIsInitial(s) && CountsOk(s) && cell !in s.refs && s.total == |s.subs|
    requires var (kept, jobs) := Traverse(s.subs, clock, body, cell);
      JobsOf(s.subs, jobs, body, cell) && forall sub' :: sub' in kept ==> FromSubs(s.subs, sub', jobs)
    ensures var (t, (kept, jobs)) := (Notified(s, clock, body, cell), Traverse(s.subs, clock, body, cell));
      && SidsUsed(t) && FirstIsInitial(t) && CountsOk(t) && t.valid == s.valid && t.active == s.active
      && t.subs == kept && t.total == |t.subs| && t.pool == s.pool + jobs && t.transit == s.transit && t.sent == s.sent
  {
    var t := Notified(s, clock, body, cell);
    var (kept, jobs) := Traverse(s.subs, clock, body, cell);
    JobKeysPositive(s, jobs, body, cell);
    NotifiedCells(s, t, jobs, cell) by {
      assert forall i :: 0 <= i < |jobs| ==> jobs[i] in jobs;
    }
    KeptSubs(s, kept, jobs);
    hide JobIsInitial, NoticeIsInitial, CountsOk, SubsOk, Traverse, JobsOf, FromSubs;
    assert forall j :: j in t.pool ==> j in s.pool || j in jobs;
  }

  lemma NotifiedCells(s: State, t: State, jobs: seq<Job>, cell: nat)
    requires CountsOk(s) && cell !in s.refs && t.pool == s.pool + jobs && t.transit == s.transit
    requires t.refs == (if jobs == [] then s.refs else s.refs[cell := |jobs|])
    requires forall i :: 0 <= i < |jobs| ==> jobs[i].cell == cell
    ensures CountsOk(t)
  {
    OthersShare(jobs, cell);
    if jobs == [] {
      assert s.pool + jobs == s.pool;
      SameCells(s, t);
    } else {
      AddedCell(s, t, jobs, cell, |jobs|);
    }
  }

  lemma KeptSubs(s: State, kept: seq<Sub>, jobs: seq<Job>)
    requires SidsUsed(s) && FirstIsInitial(s) && forall sub' :: sub' in kept ==> FromSubs(s.subs, sub', jobs)
    ensures forall sub' :: sub' in kept ==> sub'.sid in s.used && (!sub'.active ==> sub'.sid !in s.initial)
  {
    forall sub' | sub' in kept ensures sub'.sid in s.used && (!sub'.active ==> sub'.sid !in s.initial) {
      var m :| 0 <= m < |s.subs| && Visited(s.subs[m], sub', jobs);
      assert s.subs[m] in s.subs;
    }
  }

  // ---- every action

  lemma NextKeeps(s: State, a: Action)
    requires Inv(s) && Possible(s, a) && Bounded(Next(s, a))
    ensures Inv(Next(s, a))
  {
    hide Inv, Bounded, OnSubscribe, OnAccept, OnNotifyAll, OnPick, OnFinish, OnUnsubscribe, OnRenew;
    match a
    case Subscribe(sid, expireTime, responds) => SubscribeKeeps(s, sid, expireTime, responds);
    case Accept(sid, now, body, cell) => AcceptKeeps(s, sid, now, body, cell);
    case NotifyAll(clock, body, cell) => NotifyAllKeeps(s, clock, body, cell);
    case Pick(i, now) => PickKeeps(s, i, now);
    case Finish(i, now, remove) => FinishKeeps(s, i, now, remove);
    case Unsubscribe(sid, now) => UnsubscribeKeeps(s, sid, now);
    case Renew(sid, now, expireTime, responds) => RenewKeeps(s, sid, now, expireTime, responds);
    case Unregister => UnregisterKeeps(s);
  }
}
