// The subscription list of a service (src/genlib/service_table/service_table.c:57-171): a linked
// list that loses its expired entries while it is searched and traversed.
module ServiceTable {
  import opened EventKeys
  import opened GenaState

  class Subscription {
    const sid: Sid
    var eventKey: Key
    var ToSendEventKey: Key
    var expireTime: int
    var active: bool
    var next: Subscription?

    constructor (sid: Sid, expireTime: int)
      ensures Value() == Sub(sid, 0, 0, expireTime, false) && next == null && this.sid == sid
    {
      this.sid := sid;
      this.expireTime := expireTime;
      eventKey, ToSendEventKey := 0, 0;
      active := false;
      next := null;
    }

    function Value(): Sub
      reads this
    {
      Sub(sid, eventKey, ToSendEventKey, expireTime, active)
    }
  }

  // ---- lists of nodes

  ghost function Head(nodes: seq<Subscription>): Subscription? {
    if nodes == [] then null else nodes[0]
  }

  // Each node points to the one behind it.
  ghost predicate Linked(nodes: seq<Subscription>)
    reads nodes
  {
    nodes == [] || (nodes[0].next == Head(nodes[1..]) && Linked(nodes[1..]))
  }

  ghost predicate NoRepeats(nodes: seq<Subscription>) {
    forall i, j :: 0 <= i < j < |nodes| ==> nodes[i] != nodes[j]
  }

  ghost function Values(nodes: seq<Subscription>): (r: seq<Sub>)
    reads nodes
    ensures |r| == |nodes|
  {
    if nodes == [] then [] else [nodes[0].Value()] + Values(nodes[1..])
  }

  lemma {:induction false} ValueAt(nodes: seq<Subscription>, i: nat)
    requires i < |nodes|
    ensures Values(nodes)[i] == nodes[i].Value()
  {
    if i > 0 {
      ValueAt(nodes[1..], i - 1);
    }
  }

  lemma {:induction false} ValuesConcat(a: seq<Subscription>, b: seq<Subscription>)
    ensures Values(a + b) == Values(a) + Values(b)
  {
    if a == [] {
      assert a + b == b;
    } else {
      assert (a + b)[1..] == a[1..] + b;
      ValuesConcat(a[1..], b);
    }
  }

  // Values from the fields of the nodes.
  lemma ValuesAre(nodes: seq<Subscription>)
    ensures forall k :: 0 <= k < |nodes| ==> Values(nodes)[k] == nodes[k].Value()
  {
    forall k | 0 <= k < |nodes| ensures Values(nodes)[k] == nodes[k].Value() {
      ValueAt(nodes, k);
    }
  }

  // The node before the list, or the list's own head pointer, decides what the list is: a front
  // part may be any nodes linked up to the rest.
  lemma {:induction false} LinkedSplit(a: seq<Subscription>, b: seq<Subscription>)
    ensures Linked(a + b) <==> Linked(b) && LinkedTo(a, Head(b))
  {
    if a == [] {
      assert a + b == b;
    } else {
      assert (a + b)[1..] == a[1..] + b;
      LinkedSplit(a[1..], b);
    }
  }

  // The nodes are linked in order and the last one points to p.
  ghost predicate LinkedTo(nodes: seq<Subscription>, p: Subscription?)
    reads nodes
  {
    nodes == [] || (nodes[0].next == (if |nodes| == 1 then p else nodes[1]) && LinkedTo(nodes[1..], p))
  }

  lemma {:induction false} LinkedToSnoc(nodes: seq<Subscription>, n: Subscription, p: Subscription?)
    requires LinkedTo(nodes, n) && n.next == p
    ensures LinkedTo(nodes + [n], p)
  {
    if nodes != [] {
      assert (nodes + [n])[1..] == nodes[1..] + [n];
      LinkedToSnoc(nodes[1..], n, p);
    } else {
      assert nodes + [n] == [n] && [n][1..] == [];
    }
  }

  lemma {:induction false} LinkedToInit(nodes: seq<Subscription>, n: Subscription, p: Subscription?)
    requires LinkedTo(nodes + [n], p)
    ensures LinkedTo(nodes, n) && n.next == p
  {
    if nodes != [] {
      assert (nodes + [n])[1..] == nodes[1..] + [n];
      LinkedToInit(nodes[1..], n, p);
    } else {
      assert nodes + [n] == [n];
    }
  }

  // ---- what a traversal passes

  // The nodes before the first active unexpired one that stay: the inactive unexpired ones.
  ghost function Passed(rest: seq<Subscription>, now: int): seq<Subscription>
    reads rest
  {
    if rest == [] then []
    else if Expired(rest[0].Value(), now) then Passed(rest[1..], now)
    else if rest[0].active then []
    else [rest[0]] + Passed(rest[1..], now)
  }

  // The nodes from the first active unexpired one on.
  ghost function Found(rest: seq<Subscription>, now: int): seq<Subscription>
    reads rest
  {
    if rest == [] then []
    else if !Expired(rest[0].Value(), now) && rest[0].active then rest
    else Found(rest[1..], now)
  }

  // The same for the values.
  function PassedSubs(subs: seq<Sub>, now: int): seq<Sub> {
    if subs == [] then []
    else if Expired(subs[0], now) then PassedSubs(subs[1..], now)
    else if subs[0].active then []
    else [subs[0]] + PassedSubs(subs[1..], now)
  }

  function FoundSubs(subs: seq<Sub>, now: int): (r: seq<Sub>)
    ensures r != [] ==> !Expired(r[0], now) && r[0].active
    ensures |PassedSubs(subs, now)| + |r| <= |subs|
  {
    if subs == [] then []
    else if !Expired(subs[0], now) && subs[0].active then subs
    else FoundSubs(subs[1..], now)
  }

  lemma {:induction false} PassedValues(rest: seq<Subscription>, now: int)
    ensures Values(Passed(rest, now)) == PassedSubs(Values(rest), now)
    ensures Values(Found(rest, now)) == FoundSubs(Values(rest), now)
  {
    if rest != [] {
      assert Values(rest)[0] == rest[0].Value() && Values(rest)[1..] == Values(rest[1..]);
      PassedValues(rest[1..], now);
      var kept := [rest[0]] + Passed(rest[1..], now);
      assert kept[1..] == Passed(rest[1..], now);
    }
  }

  lemma ValuesFields(nodes: seq<Subscription>)
    ensures forall k :: 0 <= k < |nodes| ==>
      Values(nodes)[k] == Sub(nodes[k].sid, nodes[k].eventKey, nodes[k].ToSendEventKey, nodes[k].expireTime,
        nodes[k].active)
  {
    ValuesAre(nodes);
  }

  lemma ValuesFrom(nodes: seq<Subscription>, vals: seq<Sub>)
    requires |vals| == |nodes| && forall k :: 0 <= k < |nodes| ==>
      vals[k] == Sub(nodes[k].sid, nodes[k].eventKey, nodes[k].ToSendEventKey, nodes[k].expireTime, nodes[k].active)
    ensures Values(nodes) == vals
  {
    ValuesAre(nodes);
  }

  class ServiceInfo {
    var active: bool
    var subscriptionList: Subscription?
    var TotalSubscriptions: int
    ghost var nodes: seq<Subscription>

    constructor ()
      ensures Valid() && active && nodes == [] && TotalSubscriptions == 0
    {
      active := true;
      subscriptionList := null;
      TotalSubscriptions := 0;
      nodes := [];
    }

    ghost predicate Valid()
      reads this, nodes
    {
      subscriptionList == Head(nodes) && Linked(nodes) && NoRepeats(nodes)
    }

    ghost function Subs(): seq<Sub>
      reads this, nodes
    {
      Values(nodes)
    }

    // Takes the i-th node out of the list; previous is the node before it.
    method Unlink(previous: Subscription?, finger: Subscription, ghost i: nat)
      requires Valid() && i < |nodes| && finger == nodes[i] && previous == if i == 0 then null else nodes[i - 1]
      modifies this, nodes`next
      ensures Valid() && nodes == RemoveAt(old(nodes), i) && TotalSubscriptions == old(TotalSubscriptions) - 1
      ensures Subs() == RemoveAt(old(Subs()), i) && active == old(active)
    {
      hide *;
      ghost var before, a, b := nodes, nodes[..i], nodes[i + 1..];
      ghost var vals := Subs();
      ValidParts();
      SubsAre();
      Around(nodes, i);
      if previous != null {
        FrontParts(nodes, i);
        previous.next := finger.next;
      } else {
        subscriptionList := finger.next;
      }
      finger.next := null;
      TotalSubscriptions := TotalSubscriptions - 1;
      nodes := a + b;
      Closed(before, i);
      SubsWithout(before, vals, i);
    }

    lemma ValidParts()
      requires Valid()
      ensures subscriptionList == Head(nodes) && Linked(nodes) && NoRepeats(nodes)
    {
    }

    lemma SubsAre()
      ensures |Subs()| == |nodes| && forall k :: 0 <= k < |nodes| ==>
        Subs()[k] == Sub(nodes[k].sid, nodes[k].eventKey, nodes[k].ToSendEventKey, nodes[k].expireTime, nodes[k].active)
    {
      ValuesAre(nodes);
    }

    // The list is closed up where the i-th node was.
    lemma Closed(before: seq<Subscription>, i: nat)
      requires i < |before| && NoRepeats(before) && nodes == before[..i] + before[i + 1..]
      requires Linked(before[i + 1..])
      requires if i == 0 then subscriptionList == Head(before[1..])
        else && subscriptionList == before[0] && LinkedTo(before[..i - 1], before[i - 1])
             && before[i - 1].next == Head(before[i + 1..])
      ensures Valid()
    {
      var a, b := before[..i], before[i + 1..];
      if i > 0 {
        assert a == before[..i - 1] + [before[i - 1]];
        LinkedToSnoc(before[..i - 1], before[i - 1], Head(b));
      }
      LinkedSplit(a, b);
      hide Linked, LinkedTo;
    }

    lemma SubsWithout(before: seq<Subscription>, vals: seq<Sub>, i: nat)
      requires i < |before| && nodes == before[..i] + before[i + 1..] && |vals| == |before|
      requires forall k :: 0 <= k < |before| ==>
        vals[k] == Sub(before[k].sid, before[k].eventKey, before[k].ToSendEventKey, before[k].expireTime,
          before[k].active)
      ensures nodes == RemoveAt(before, i) && Subs() == RemoveAt(vals, i)
    {
      ValuesAre(nodes);
      forall k | 0 <= k < |nodes| ensures Subs()[k] == RemoveAt(vals, i)[k] {
        assert nodes[k] == before[if k < i then k else k + 1];
      }
    }

    // GetSubscriptionSID: the first entry with the SID, unless it has expired and is unlinked.
    method GetSubscriptionSID(sid: Sid, now: int) returns (found: Subscription?)
      requires Valid()
      modifies this, nodes`next
      ensures Valid() && Subs() == Lookup(old(Subs()), sid, now) && active == old(active)
      ensures TotalSubscriptions == old(TotalSubscriptions) - (|old(Subs())| - |Subs()|)
      ensures found != null <==> Finds(old(Subs()), sid, now)
      ensures found != null ==> IndexOf(old(Subs()), sid) < |nodes| && found == nodes[IndexOf(old(Subs()), sid)]
      ensures
        var i := IndexOf(old(Subs()), sid);
        nodes == old(nodes) || (found == null && i < |old(nodes)| && nodes == RemoveAt(old(nodes), i))
    {
      var previous: Subscription? := null;
      var next := subscriptionList;
      found := null;
      ghost var i := 0;
      SubsAre();
      hide Valid, Values, IndexOf;
      ValidParts();
      while next != null && found == null
        invariant 0 <= i <= |nodes| && next == Head(nodes[i..])
        invariant previous == if i == 0 then null else nodes[i - 1]
        invariant IndexOf(Subs(), sid) >= i
        invariant found != null ==> i < |nodes| && found == nodes[i] && IndexOf(Subs(), sid) == i
        invariant Valid() && nodes == old(nodes) && Subs() == old(Subs()) && Linked(nodes)
        invariant TotalSubscriptions == old(TotalSubscriptions) && active == old(active)
        decreases |nodes| - i, found == null
      {
        SubsAre();
        IndexStep(Subs(), sid, i);
        if next.sid == sid {
          found := next;
        } else {
          LinkAt(nodes, i);
          previous := next;
          next := next.next;
          i := i + 1;
        }
      }
      SubsAre();
      if found != null {
        if found.expireTime != 0 && found.expireTime < now {
          Unlink(previous, found, i);
          found := null;
        }
      } else {
        IndexBound(Subs(), sid);
      }
    }

    // The entry finger behind previous is taken out.
    method UnlinkBehind(previous: Subscription, finger: Subscription, ghost all: seq<Subscription>, ghost n: nat)
      requires 0 < n < |all| && previous == all[n - 1] && finger == all[n] && Linked(all) && NoRepeats(all)
      modifies this`TotalSubscriptions, previous`next, finger`next
      ensures Linked(RemoveAt(all, n)) && TotalSubscriptions == old(TotalSubscriptions) - 1
    {
      hide *;
      Around(all, n);
      FrontParts(all, n);
      previous.next := finger.next;
      finger.next := null;
      TotalSubscriptions := TotalSubscriptions - 1;
      Rejoined(all, n);
    }

    // GetNextSubscription: unlinks the expired entries behind current up to the next active
    // unexpired one; rest are the entries behind current, kept what is left of them.
    method GetNextSubscription(current: Subscription, now: int, ghost rest: seq<Subscription>)
      returns (next: Subscription?, ghost kept: seq<Subscription>)
      requires Linked([current] + rest) && NoRepeats([current] + rest)
      modifies this`TotalSubscriptions, current`next, rest`next
      ensures kept == old(Passed(rest, now)) + old(Found(rest, now)) && next == old(Head(Found(rest, now)))
      ensures Linked([current] + kept) && NoRepeats([current] + kept) && forall n :: n in kept ==> n in rest
      ensures TotalSubscriptions == old(TotalSubscriptions) - (|rest| - |kept|)
    {
      hide *;
      var cur: Subscription? := current;
      ghost var i := 0;
      ghost var done: seq<Subscription> := [];
      ghost var all := [current] + rest;
      assert rest[0..] == rest && [current] + done == [current];
      while true
        invariant 0 <= i <= |rest| && cur == ([current] + done)[|done|]
        invariant forall n :: n in done ==> n in rest
        invariant all == [current] + done + rest[i..] && Linked(all) && NoRepeats(all)
        invariant old(Passed(rest, now)) == done + Passed(rest[i..], now)
        invariant old(Found(rest, now)) == Found(rest[i..], now)
        invariant TotalSubscriptions == old(TotalSubscriptions) - (i - |done|)
        decreases |rest| - i
      {
        var previous := cur;
        LastOfFront([current] + done, rest[i..]);
        PreviousIs(current, done, rest);
        cur := cur.next;
        if cur == null {
          AtEnd(rest, i, now);
          return null, done;
        }
        InRest(rest, i);
        PassStep(rest, i, now);
        if cur.expireTime != 0 && cur.expireTime < now {
          ghost var n := |done| + 1;
          ApartInList(all, done, current, rest, i);
          UnlinkBehind(previous, cur, all, n);
          cur := previous;
          all := RemoveAt(all, n);
          i := i + 1;
        } else if cur.active {
          WholeList(current, done, rest, i);
          assert forall n :: n in rest[i..] ==> n in rest;
          return cur, done + rest[i..];
        } else {
          OneFurther(current, done, rest, i);
          done := done + [cur];
          i := i + 1;
        }
      }
    }

    // GetFirstSubscription: a stand-in node before the list is the start of the search.
    method GetFirstSubscription(now: int) returns (next: Subscription?)
      requires Valid()
      modifies this, nodes`next
      ensures Valid() && nodes == old(Passed(nodes, now)) + old(Found(nodes, now))
      ensures next == old(Head(Found(nodes, now)))
      ensures TotalSubscriptions == old(TotalSubscriptions) - (|old(nodes)| - |nodes|) && active == old(active)
      ensures forall n :: n in nodes ==> n in old(nodes)
      ensures Subs() == PassedSubs(old(Subs()), now) + FoundSubs(old(Subs()), now) && |Subs()| == |nodes|
      ensures next == if FoundSubs(old(Subs()), now) == [] then null else Head(nodes[|PassedSubs(old(Subs()), now)|..])
    {
      hide *;
      ValidParts();
      SubsAreValues();
      ghost var rest := nodes;
      var temp := new Subscription([], 0);
      temp.next := subscriptionList;
      StandIn(temp, rest);
      ghost var kept;
      next, kept := SearchBehind(temp, now, rest);
      Behind(temp, kept);
      subscriptionList := temp.next;
      nodes := kept;
      PartsValid();
      SubsAreValues();
    }

    // The search, with what it means for the values.
    method SearchBehind(current: Subscription, now: int, ghost rest: seq<Subscription>)
      returns (next: Subscription?, ghost kept: seq<Subscription>)
      requires Linked([current] + rest) && NoRepeats([current] + rest)
      modifies this`TotalSubscriptions, current`next, rest`next
      ensures kept == old(Passed(rest, now)) + old(Found(rest, now)) && next == old(Head(Found(rest, now)))
      ensures Linked([current] + kept) && NoRepeats([current] + kept) && forall n :: n in kept ==> n in rest
      ensures TotalSubscriptions == old(TotalSubscriptions) - (|rest| - |kept|)
      ensures Values(kept) == PassedSubs(old(Values(rest)), now) + FoundSubs(old(Values(rest)), now)
      ensures |Values(kept)| == |kept|
      ensures next == if FoundSubs(old(Values(rest)), now) == [] then null
        else Head(kept[|PassedSubs(old(Values(rest)), now)|..])
    {
      hide *;
      ghost var vals := KeptValues(rest, now);
      ghost var was := Passed(rest, now) + Found(rest, now);
      next, kept := GetNextSubscription(current, now, rest);
      assert kept == was && forall k :: 0 <= k < |kept| ==> kept[k] in rest;
      ValuesFrom(kept, vals);
    }

    lemma SubsAreValues()
      ensures Subs() == Values(nodes) && |Subs()| == |nodes|
    {
    }

    lemma PartsValid()
      requires subscriptionList == Head(nodes) && Linked(nodes) && NoRepeats(nodes)
      ensures Valid()
    {
    }

    // The search from the i-th entry of the list on.
    method GetNextInList(current: Subscription, now: int, ghost i: nat) returns (next: Subscription?)
      requires Valid() && i < |nodes| && current == nodes[i]
      modifies this`TotalSubscriptions, this`nodes, nodes`next
      ensures Valid()
      ensures TotalSubscriptions == old(TotalSubscriptions) - (|old(nodes)| - |nodes|)
      ensures i < |old(Subs())|
      ensures Subs() ==
        old(Subs())[..i + 1] + (PassedSubs(old(Subs())[i + 1..], now) + FoundSubs(old(Subs())[i + 1..], now))
      ensures forall n :: n in nodes ==> n in old(nodes)
      ensures |Subs()| == |nodes| && i + 1 + |PassedSubs(old(Subs())[i + 1..], now)| <= |nodes|
      ensures next == if FoundSubs(old(Subs())[i + 1..], now) == [] then null
        else Head(nodes[i + 1 + |PassedSubs(old(Subs())[i + 1..], now)|..])
    {
      hide *;
      ValidParts();
      ghost var before, rest := nodes, nodes[i + 1..];
      SubsAreValues();
      ghost var all := Subs();
      ValuesFields(nodes);
      ValuesSplit(nodes, i + 1);
      MiddleOf(nodes, i);
      ghost var kept;
      next, kept := SearchBehind(current, now, rest);
      nodes := before[..i + 1] + kept;
      RejoinedAfter(before, i, kept);
      PartsValid();
      ValuesFrom(before[..i + 1], all[..i + 1]);
      ValuesConcat(before[..i + 1], kept);
      SubsAreValues();
      TailOfBoth(before[..i + 1], kept, |PassedSubs(all[i + 1..], now)|);
    }

    // Stores new keys, time and flag in the i-th entry.
    method Store(sub: Subscription, v: Sub, ghost i: nat)
      requires Valid() && i < |nodes| && sub == nodes[i] && v.sid == sub.sid
      modifies sub`eventKey, sub`ToSendEventKey, sub`expireTime, sub`active
      ensures Valid() && i < |old(Subs())| && Subs() == old(Subs())[i := v]
    {
      hide *;
      ValidParts();
      SubsAre();
      ghost var vals := Subs();
      NextsOf(nodes);
      sub.eventKey, sub.ToSendEventKey, sub.expireTime, sub.active :=
        v.eventKey, v.toSendEventKey, v.expireTime, v.active;
      NextsLinked(nodes);
      PartsValid();
      SubsChanged(vals, v, i);
    }

    lemma SubsChanged(vals: seq<Sub>, v: Sub, i: nat)
      requires i < |nodes| == |vals| && NoRepeats(nodes)
      requires nodes[i].sid == v.sid && nodes[i].eventKey == v.eventKey && nodes[i].ToSendEventKey == v.toSendEventKey
      requires nodes[i].expireTime == v.expireTime && nodes[i].active == v.active
      requires forall k :: 0 <= k < |nodes| && k != i ==>
        vals[k] == Sub(nodes[k].sid, nodes[k].eventKey, nodes[k].ToSendEventKey, nodes[k].expireTime, nodes[k].active)
      ensures Subs() == vals[i := v]
    {
      ValuesAre(nodes);
      forall k | 0 <= k < |nodes| ensures Subs()[k] == vals[i := v][k] {
      }
    }

    // A new entry is put in front.
    method PushFront(sub: Subscription)
      requires Valid() && sub !in nodes
      modifies this, sub`next
      ensures Valid() && Subs() == [sub.Value()] + old(Subs()) && nodes == [sub] + old(nodes)
      ensures TotalSubscriptions == old(TotalSubscriptions) + 1 && active == old(active)
    {
      ghost var rest := nodes;
      sub.next := subscriptionList;
      subscriptionList := sub;
      TotalSubscriptions := TotalSubscriptions + 1;
      assert Linked(rest);
      StandIn(sub, rest);
      nodes := [sub] + nodes;
      assert nodes[1..] == rest;
    }

    // RemoveSubscriptionSID: the loop stops after the entry it unlinks.
    method RemoveSubscriptionSID(sid: Sid)
      requires Valid()
      modifies this, nodes`next
      ensures Valid() && Subs() == Removed(old(Subs()), sid) && active == old(active)
      ensures TotalSubscriptions == old(TotalSubscriptions) - (|old(Subs())| - |Subs()|)
      ensures forall n :: n in nodes ==> n in old(nodes)
    {
      hide *;
      var previous: Subscription? := null;
      var finger := subscriptionList;
      ghost var i := 0;
      ghost var subs := Subs();
      ValidParts();
      SubsAre();
      IndexBound(subs, sid);
      assert nodes[0..] == nodes;
      while finger != null
        invariant 0 <= i <= |nodes| && finger == Head(nodes[i..])
        invariant previous == if i == 0 then null else nodes[i - 1]
        invariant IndexOf(subs, sid) >= i
        invariant Valid() && nodes == old(nodes) && Subs() == subs && Linked(nodes)
        invariant TotalSubscriptions == old(TotalSubscriptions) && active == old(active)
        decreases |nodes| - i
      {
        SubsAre();
        InRest(nodes, i);
        IndexStep(subs, sid, i);
        if finger.sid == sid {
          RemovedAt(subs, sid, i);
          Unlink(previous, finger, i);
          KeptInside(old(nodes), nodes, i);
          return;
        }
        LinkAt(nodes, i);
        previous := finger;
        finger := finger.next;
        i := i + 1;
      }
      EndReached(nodes, i);
      SubsAre();
      RemovedAt(subs, sid, i);
    }
  }

  lemma EndReached(nodes: seq<Subscription>, i: nat)
    requires i <= |nodes| && Head(nodes[i..]) == null
    ensures i == |nodes|
  {
  }

  lemma KeptInside(before: seq<Subscription>, after: seq<Subscription>, i: nat)
    requires i < |before| && after == RemoveAt(before, i)
    ensures forall n :: n in after ==> n in before
  {
  }

  lemma RemovedAt(subs: seq<Sub>, sid: Sid, i: nat)
    requires i <= |subs| && IndexOf(subs, sid) >= i && (i < |subs| ==> IndexOf(subs, sid) == i)
    ensures i < |subs| ==> Removed(subs, sid) == RemoveAt(subs, i) && |RemoveAt(subs, i)| == |subs| - 1
    ensures i == |subs| ==> Removed(subs, sid) == subs
  {
  }

  lemma NextsOf(nodes: seq<Subscription>)
    requires Linked(nodes)
    ensures forall k :: 0 <= k < |nodes| ==> nodes[k].next == Head(nodes[k + 1..])
  {
    forall k | 0 <= k < |nodes| ensures nodes[k].next == Head(nodes[k + 1..]) {
      LinkAt(nodes, k);
    }
  }

  lemma {:induction false} NextsLinked(nodes: seq<Subscription>)
    requires forall k :: 0 <= k < |nodes| ==> nodes[k].next == Head(nodes[k + 1..])
    ensures Linked(nodes)
  {
    if nodes != [] {
      forall k | 0 <= k < |nodes[1..]| ensures nodes[1..][k].next == Head(nodes[1..][k + 1..]) {
        assert nodes[1..][k] == nodes[k + 1] && nodes[1..][k + 1..] == nodes[k + 2..];
      }
      NextsLinked(nodes[1..]);
    }
  }

  lemma ValuesSplit(nodes: seq<Subscription>, i: nat)
    requires i <= |nodes|
    ensures Values(nodes[..i]) == Values(nodes)[..i] && Values(nodes[i..]) == Values(nodes)[i..]
  {
    assert nodes == nodes[..i] + nodes[i..];
    ValuesConcat(nodes[..i], nodes[i..]);
  }

  // The values a search keeps, field by field.
  lemma KeptValues(rest: seq<Subscription>, now: int) returns (vals: seq<Sub>)
    ensures vals == PassedSubs(Values(rest), now) + FoundSubs(Values(rest), now)
    ensures var kept := Passed(rest, now) + Found(rest, now);
      && |vals| == |kept| && |PassedSubs(Values(rest), now)| == |Passed(rest, now)|
      && |FoundSubs(Values(rest), now)| == |Found(rest, now)|
      && (forall k :: 0 <= k < |kept| ==>
            vals[k] == Sub(kept[k].sid, kept[k].eventKey, kept[k].ToSendEventKey, kept[k].expireTime, kept[k].active))
      && kept[|Passed(rest, now)|..] == Found(rest, now) && (Found(rest, now) == [] ==> Head(Found(rest, now)) == null)
  {
    var kept := Passed(rest, now) + Found(rest, now);
    PassedValues(rest, now);
    ValuesConcat(Passed(rest, now), Found(rest, now));
    vals := Values(kept);
    ValuesFields(kept);
  }

  lemma TailOfBoth(front: seq<Subscription>, kept: seq<Subscription>, k: nat)
    requires k <= |kept|
    ensures (front + kept)[|front| + k..] == kept[k..]
  {
  }

  lemma StandIn(temp: Subscription, rest: seq<Subscription>)
    requires Linked(rest) && NoRepeats(rest) && temp.next == Head(rest) && temp !in rest
    ensures Linked([temp] + rest) && NoRepeats([temp] + rest)
  {
    assert ([temp] + rest)[1..] == rest;
  }

  lemma Behind(temp: Subscription, kept: seq<Subscription>)
    requires Linked([temp] + kept) && NoRepeats([temp] + kept)
    ensures temp.next == Head(kept) && Linked(kept) && NoRepeats(kept)
  {
    assert ([temp] + kept)[1..] == kept;
    assert forall k :: 0 <= k < |kept| ==> kept[k] == ([temp] + kept)[k + 1];
  }

  lemma RejoinedAfter(before: seq<Subscription>, i: nat, kept: seq<Subscription>)
    requires i < |before| && NoRepeats(before) && Linked([before[i]] + kept) && NoRepeats([before[i]] + kept)
    requires LinkedTo(before[..i], before[i]) && forall n :: n in kept ==> n in before[i + 1..]
    ensures Linked(before[..i + 1] + kept) && NoRepeats(before[..i + 1] + kept)
    ensures Head(before[..i + 1] + kept) == Head(before)
  {
    var tail := [before[i]] + kept;
    assert before[..i + 1] + kept == before[..i] + tail;
    LinkedSplit(before[..i], tail);
    hide Linked, LinkedTo;
    forall k, m | 0 <= k < i && 0 <= m < |tail| ensures before[k] != tail[m] {
      if m > 0 {
        assert tail[m] in kept;
      }
    }
  }

  lemma MiddleOf(nodes: seq<Subscription>, i: nat)
    requires Linked(nodes) && NoRepeats(nodes) && i < |nodes|
    ensures Linked([nodes[i]] + nodes[i + 1..]) && NoRepeats([nodes[i]] + nodes[i + 1..])
    ensures LinkedTo(nodes[..i], nodes[i])
    ensures forall n :: n in nodes[..i] ==> n != nodes[i] && n !in nodes[i + 1..]
    ensures forall n :: n in nodes[i + 1..] ==> n in nodes
  {
    assert nodes == nodes[..i] + nodes[i..] && nodes[i..] == [nodes[i]] + nodes[i + 1..];
    LinkedSplit(nodes[..i], nodes[i..]);
  }

  // The last node of the front part points to the rest.
  lemma LastOfFront(front: seq<Subscription>, rest: seq<Subscription>)
    requires front != [] && Linked(front + rest)
    ensures front[|front| - 1].next == Head(rest)
  {
    LinkAt(front + rest, |front| - 1);
    assert (front + rest)[|front| - 1 + 1..] == rest;
  }

  lemma PreviousIs(current: Subscription, done: seq<Subscription>, rest: seq<Subscription>)
    requires forall n :: n in done ==> n in rest
    ensures ([current] + done)[|done|] == current || ([current] + done)[|done|] in rest
  {
  }

  lemma AtEnd(rest: seq<Subscription>, i: nat, now: int)
    requires i <= |rest| && Head(rest[i..]) == null
    ensures i == |rest| && Passed(rest[i..], now) == [] && Found(rest[i..], now) == []
    ensures Head(Found(rest[i..], now)) == null
    ensures forall s: seq<Subscription> :: s + rest[i..] == s
  {
  }

  lemma InRest(rest: seq<Subscription>, i: nat)
    requires i <= |rest| && Head(rest[i..]) != null
    ensures i < |rest| && Head(rest[i..]) == rest[i]
  {
  }

  lemma PassStep(rest: seq<Subscription>, i: nat, now: int)
    requires i < |rest|
    ensures if rest[i].expireTime != 0 && rest[i].expireTime < now then
        Passed(rest[i..], now) == Passed(rest[i + 1..], now) && Found(rest[i..], now) == Found(rest[i + 1..], now)
      else if rest[i].active then
        Passed(rest[i..], now) == [] && Found(rest[i..], now) == rest[i..] && Head(Found(rest[i..], now)) == rest[i]
      else
        && Passed(rest[i..], now) == [rest[i]] + Passed(rest[i + 1..], now)
        && Found(rest[i..], now) == Found(rest[i + 1..], now)
  {
    assert rest[i..][1..] == rest[i + 1..] && rest[i..][0] == rest[i];
  }

  lemma ApartInList(all: seq<Subscription>, done: seq<Subscription>, current: Subscription, rest: seq<Subscription>,
                    i: nat)
    requires i < |rest| && all == [current] + done + rest[i..] && NoRepeats(all)
    ensures var n := |done| + 1;
      && n < |all| && all[n] == rest[i] && all[n - 1] == ([current] + done)[|done|] && all[n + 1..] == rest[i + 1..]
      && RemoveAt(all, n) == [current] + done + rest[i + 1..] && NoRepeats(RemoveAt(all, n))
      && rest[i] !in rest[i + 1..] && all[n - 1] !in rest[i + 1..]
  {
    assert all[|done| + 2..] == rest[i + 1..];
  }

  lemma Rejoined(before: seq<Subscription>, i: nat)
    requires 0 < i < |before| && Linked(before[i + 1..]) && LinkedTo(before[..i - 1], before[i - 1])
    requires before[i - 1].next == Head(before[i + 1..])
    ensures Linked(RemoveAt(before, i))
  {
    assert before[..i] == before[..i - 1] + [before[i - 1]];
    LinkedToSnoc(before[..i - 1], before[i - 1], Head(before[i + 1..]));
    LinkedSplit(before[..i], before[i + 1..]);
  }

  lemma WholeList(current: Subscription, done: seq<Subscription>, rest: seq<Subscription>, i: nat)
    requires i < |rest|
    ensures [current] + done + rest[i..] == [current] + (done + rest[i..]) && done + [] == done
  {
  }

  lemma OneFurther(current: Subscription, done: seq<Subscription>, rest: seq<Subscription>, i: nat)
    requires i < |rest|
    ensures [current] + done + rest[i..] == [current] + (done + [rest[i]]) + rest[i + 1..]
    ensures ([current] + (done + [rest[i]]))[|done| + 1] == rest[i]
    ensures forall tail: seq<Subscription> :: done + ([rest[i]] + tail) == (done + [rest[i]]) + tail
  {
  }

  lemma IndexStep(subs: seq<Sub>, sid: Sid, i: nat)
    requires i < |subs| && IndexOf(subs, sid) >= i
    ensures if subs[i].sid == sid then IndexOf(subs, sid) == i else IndexOf(subs, sid) >= i + 1
  {
  }

  lemma IndexBound(subs: seq<Sub>, sid: Sid)
    ensures 0 <= IndexOf(subs, sid) <= |subs|
  {
  }

  lemma {:induction false} LinkAt(nodes: seq<Subscription>, i: nat)
    requires Linked(nodes) && i < |nodes|
    ensures nodes[i].next == Head(nodes[i + 1..])
  {
    if i > 0 {
      LinkAt(nodes[1..], i - 1);
      assert nodes[1..][i..] == nodes[i + 1..];
    }
  }

  // The links around the i-th node.
  lemma Around(nodes: seq<Subscription>, i: nat)
    requires Linked(nodes) && NoRepeats(nodes) && i < |nodes|
    ensures nodes[i].next == Head(nodes[i + 1..]) && Linked(nodes[i + 1..]) && LinkedTo(nodes[..i], nodes[i])
    ensures nodes[i] !in nodes[..i] && nodes[i] !in nodes[i + 1..]
    ensures i > 0 ==> Head(nodes) == nodes[0]
    ensures i == 0 ==> nodes[i + 1..] == nodes[1..]
  {
    assert nodes == nodes[..i] + nodes[i..];
    LinkedSplit(nodes[..i], nodes[i..]);
    assert nodes[i..][1..] == nodes[i + 1..];
  }

  lemma FrontParts(nodes: seq<Subscription>, i: nat)
    requires 0 < i < |nodes| && NoRepeats(nodes) && LinkedTo(nodes[..i], nodes[i])
    ensures LinkedTo(nodes[..i - 1], nodes[i - 1])
    ensures nodes[i - 1] !in nodes[..i - 1] && nodes[i - 1] !in nodes[i + 1..] && nodes[i] !in nodes[..i - 1]
    ensures nodes[i - 1] != nodes[i]
  {
    assert nodes[..i] == nodes[..i - 1] + [nodes[i - 1]];
    LinkedToInit(nodes[..i - 1], nodes[i - 1], nodes[i]);
  }
}
