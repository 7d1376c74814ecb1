// What every critical section of event delivery keeps.
module GenaInvariant {
  import opened EventKeys
  import opened GenaState

  // The event keys of the jobs for one subscriber.
  ghost function Keys(jobs: seq<Job>, sid: Sid): multiset<Key> {
    if jobs == [] then multiset{}
    else (if jobs[0].sid == sid then multiset{jobs[0].eventKey} else multiset{}) + Keys(jobs[1..], sid)
  }

  // The keys of all jobs for a subscriber, queued or in transit.
  ghost function Outstanding(s: State, sid: Sid): multiset<Key> {
    Keys(s.pool, sid) + Keys(s.transit, sid)
  }

  // The keys transmitted to one subscriber, in order.
  ghost function KeysSent(sent: seq<Notice>, sid: Sid): seq<Key> {
    if sent == [] then []
    else
      var last := sent[|sent| - 1];
      KeysSent(sent[..|sent| - 1], sid) + if last.sid == sid then [last.seqKey] else []
  }

  // How many jobs share a reference count.
  ghost function Sharing(jobs: seq<Job>, cell: nat): nat {
    if jobs == [] then 0 else (if jobs[0].cell == cell then 1 else 0) + Sharing(jobs[1..], cell)
  }

  ghost function AllSharing(s: State, cell: nat): nat {
    Sharing(s.pool, cell) + Sharing(s.transit, cell)
  }

  // A subscription with keys k outstanding, t of them in transit, and l transmitted so far.
  ghost predicate Fits(sub: Sub, k: multiset<Key>, t: multiset<Key>, l: seq<Key>) {
    && |k| <= MAX_KEY && k == RunFrom(sub.toSendEventKey, |k|) && sub.eventKey == Advance(sub.toSendEventKey, |k|)
    && t <= multiset{sub.toSendEventKey}
    && Advance(0, |l|) == (if t == multiset{} then sub.toSendEventKey else NextKey(sub.toSendEventKey))
    && if sub.active then sub.eventKey > 0 else k == multiset{} && l == [] && sub.eventKey == 0
  }

  ghost predicate SubOk(s: State, sub: Sub) {
    Fits(sub, Outstanding(s, sub.sid), Keys(s.transit, sub.sid), KeysSent(s.sent, sub.sid))
  }

  ghost predicate Unique(subs: seq<Sub>) {
    forall i, j :: 0 <= i < j < |subs| ==> subs[i].sid != subs[j].sid
  }

  // Subscriptions, jobs and transmissions have SIDs that were given out.
  ghost predicate SidsUsed(s: State) {
    && (forall sub :: sub in s.subs ==> sub.sid in s.used)
    && (forall j :: j in s.pool ==> j.sid in s.used)
    && (forall j :: j in s.transit ==> j.sid in s.used)
    && (forall n :: n in s.sent ==> n.sid in s.used)
    && (forall sid :: sid in s.initial ==> sid in s.used)
  }

  // Key 0 belongs to the body given when the subscription was accepted.
  ghost predicate FirstIsInitial(s: State) {
    && (forall j :: j in s.pool ==> JobIsInitial(s.initial, j))
    && (forall j :: j in s.transit ==> JobIsInitial(s.initial, j))
    && (forall n :: n in s.sent ==> NoticeIsInitial(s.initial, n))
    && (forall sub :: sub in s.subs && !sub.active ==> sub.sid !in s.initial)
  }

  ghost predicate JobIsInitial(initial: map<Sid, Body>, j: Job) {
    j.eventKey == 0 ==> j.sid in initial && initial[j.sid] == j.body
  }

  ghost predicate NoticeIsInitial(initial: map<Sid, Body>, n: Notice) {
    n.seqKey == 0 ==> n.sid in initial && initial[n.sid] == n.body
  }

  // Each allocated reference count is the number of live jobs that share it.
  ghost predicate CountsOk(s: State) {
    forall c: nat {:trigger AllSharing(s, c)} ::
      if AllSharing(s, c) > 0 then c in s.refs && s.refs[c] == AllSharing(s, c) else c !in s.refs
  }

  ghost predicate InOrder(s: State) {
    forall sid {:trigger KeysSent(s.sent, sid)} :: KeysSent(s.sent, sid) == FirstKeys(|KeysSent(s.sent, sid)|)
  }

  ghost predicate SubsOk(s: State) {
    forall i {:trigger SubOk(s, s.subs[i])} :: 0 <= i < |s.subs| ==> SubOk(s, s.subs[i])
  }

  ghost predicate Inv(s: State) {
    && s.active && (!s.valid ==> s.subs == [])
    && Unique(s.subs) && s.total == |s.subs| && SidsUsed(s)
    && SubsOk(s) && InOrder(s) && CountsOk(s) && FirstIsInitial(s)
  }

  lemma InvParts(s: State)
    requires Inv(s)
    ensures s.active && (!s.valid ==> s.subs == []) && Unique(s.subs) && s.total == |s.subs| && SidsUsed(s)
    ensures SubsOk(s) && InOrder(s) && CountsOk(s) && FirstIsInitial(s)
  {
  }

  lemma PartsInv(s: State)
    requires s.active && (!s.valid ==> s.subs == []) && Unique(s.subs) && s.total == |s.subs| && SidsUsed(s)
    requires SubsOk(s) && InOrder(s) && CountsOk(s) && FirstIsInitial(s)
    ensures Inv(s)
  {
  }

  lemma SubsAre(s: State, i: nat)
    requires SubsOk(s) && i < |s.subs|
    ensures SubOk(s, s.subs[i])
  {
  }

  lemma SubsOkFrom(s: State)
    requires forall i :: 0 <= i < |s.subs| ==> SubOk(s, s.subs[i])
    ensures SubsOk(s)
  {
    hide SubOk;
  }

  lemma SameOrder(s: State, t: State)
    requires InOrder(s) && t.sent == s.sent
    ensures InOrder(t)
  {
  }

  // Fewer jobs than keys are outstanding for each subscription.
  ghost predicate Bounded(s: State) {
    forall i {:trigger s.subs[i]} :: 0 <= i < |s.subs| ==> |Outstanding(s, s.subs[i].sid)| <= MAX_KEY
  }

  // ---- jobs come and go

  lemma {:induction false} KeysConcat(a: seq<Job>, b: seq<Job>, sid: Sid)
    ensures Keys(a + b, sid) == Keys(a, sid) + Keys(b, sid)
  {
    if a == [] {
      assert a + b == b;
    } else {
      assert (a + b)[1..] == a[1..] + b;
      KeysConcat(a[1..], b, sid);
    }
  }

  lemma KeysOne(j: Job, sid: Sid)
    ensures Keys([j], sid) == if j.sid == sid then multiset{j.eventKey} else multiset{}
  {
    assert [j][1..] == [];
  }

  lemma KeysRemoveAt(jobs: seq<Job>, i: nat, sid: Sid)
    requires i < |jobs|
    ensures Keys(jobs, sid) ==
      Keys(RemoveAt(jobs, i), sid) + if jobs[i].sid == sid then multiset{jobs[i].eventKey} else multiset{}
  {
    assert jobs == jobs[..i] + ([jobs[i]] + jobs[i + 1..]);
    KeysConcat(jobs[..i], [jobs[i]] + jobs[i + 1..], sid);
    KeysConcat([jobs[i]], jobs[i + 1..], sid);
    KeysOne(jobs[i], sid);
    KeysConcat(jobs[..i], jobs[i + 1..], sid);
  }

  lemma {:induction false} SharingConcat(a: seq<Job>, b: seq<Job>, cell: nat)
    ensures Sharing(a + b, cell) == Sharing(a, cell) + Sharing(b, cell)
  {
    if a == [] {
      assert a + b == b;
    } else {
      assert (a + b)[1..] == a[1..] + b;
      SharingConcat(a[1..], b, cell);
    }
  }

  lemma SharingOne(j: Job, cell: nat)
    ensures Sharing([j], cell) == if j.cell == cell then 1 else 0
  {
    assert [j][1..] == [];
  }

  lemma SharingRemoveAt(jobs: seq<Job>, i: nat, cell: nat)
    requires i < |jobs|
    ensures Sharing(jobs, cell) == Sharing(RemoveAt(jobs, i), cell) + if jobs[i].cell == cell then 1 else 0
  {
    assert jobs == jobs[..i] + ([jobs[i]] + jobs[i + 1..]);
    SharingConcat(jobs[..i], [jobs[i]] + jobs[i + 1..], cell);
    SharingConcat([jobs[i]], jobs[i + 1..], cell);
    SharingOne(jobs[i], cell);
    SharingConcat(jobs[..i], jobs[i + 1..], cell);
  }

  lemma {:induction false} NoKeys(jobs: seq<Job>, sid: Sid)
    requires forall j :: j in jobs ==> j.sid != sid
    ensures Keys(jobs, sid) == multiset{}
  {
    if jobs != [] {
      NoKeys(jobs[1..], sid);
    }
  }

  lemma {:induction false} NoneSent(sent: seq<Notice>, sid: Sid)
    requires forall n :: n in sent ==> n.sid != sid
    ensures KeysSent(sent, sid) == []
  {
    if sent != [] {
      NoneSent(sent[..|sent| - 1], sid);
    }
  }

  lemma SentSnoc(sent: seq<Notice>, n: Notice, sid: Sid)
    ensures KeysSent(sent + [n], sid) == KeysSent(sent, sid) + if n.sid == sid then [n.seqKey] else []
  {
    assert (sent + [n])[..|sent + [n]| - 1] == sent;
  }

  lemma {:induction false} KeyIn(jobs: seq<Job>, i: nat)
    requires i < |jobs|
    ensures Keys(jobs, jobs[i].sid)[jobs[i].eventKey] > 0
  {
    if i > 0 {
      KeyIn(jobs[1..], i - 1);
    }
  }

  // ---- one subscription

  lemma FitsNew(sid: Sid, expireTime: int)
    ensures Fits(Sub(sid, 0, 0, expireTime, false), multiset{}, multiset{}, [])
  {
  }

  lemma FitsAccepted(sub: Sub, k: multiset<Key>, t: multiset<Key>, l: seq<Key>)
    requires Fits(sub, k, t, l) && !sub.active && t <= k
    ensures sub.eventKey == 0 && k == multiset{}
    ensures Fits(sub.(active := true, eventKey := NextKey(sub.eventKey)), k + multiset{sub.eventKey}, t, l)
  {
    assert |k| == 0;
    RunGrows(sub.toSendEventKey, 0);
    AdvanceNext(sub.toSendEventKey, 0);
  }

  lemma FitsNotified(sub: Sub, k: multiset<Key>, t: multiset<Key>, l: seq<Key>)
    requires Fits(sub, k, t, l) && sub.active && |k| + 1 <= MAX_KEY
    ensures Fits(sub.(eventKey := NextKey(sub.eventKey)), k + multiset{sub.eventKey}, t, l)
  {
    RunGrows(sub.toSendEventKey, |k|);
    AdvanceNext(sub.toSendEventKey, |k|);
    assert |k + multiset{sub.eventKey}| == |k| + 1;
  }

  // A key that waits in the pool and is next to be sent is not in transit.
  lemma NotInTransit(sub: Sub, k: multiset<Key>, p: multiset<Key>, t: multiset<Key>, l: seq<Key>)
    requires Fits(sub, k, t, l) && k == p + t && p[sub.toSendEventKey] > 0
    ensures t == multiset{}
  {
    KeysOnce(sub.toSendEventKey, |k|, sub.toSendEventKey);
    assert k[sub.toSendEventKey] == p[sub.toSendEventKey] + t[sub.toSendEventKey];
    assert forall x :: x in t ==> x == sub.toSendEventKey;
  }

  lemma FitsPicked(sub: Sub, k: multiset<Key>, t: multiset<Key>, l: seq<Key>)
    requires Fits(sub, k, t, l) && t == multiset{} && sub.toSendEventKey in k
    ensures Fits(sub, k, t + multiset{sub.toSendEventKey}, l + [sub.toSendEventKey])
  {
    AdvanceNext(0, |l|);
  }

  lemma FitsFinished(sub: Sub, k: multiset<Key>, t: multiset<Key>, l: seq<Key>)
    requires Fits(sub, k, t, l) && t[sub.toSendEventKey] > 0 && t <= k
    ensures Fits(sub.(toSendEventKey := NextKey(sub.toSendEventKey)), k - multiset{sub.toSendEventKey},
      t - multiset{sub.toSendEventKey}, l)
  {
    var rest := RunFrom(NextKey(sub.toSendEventKey), |k| - 1);
    assert k == multiset{sub.toSendEventKey} + rest;
    assert k - multiset{sub.toSendEventKey} == rest;
    assert t == multiset{sub.toSendEventKey};
    assert t - multiset{sub.toSendEventKey} == multiset{};
  }
}
