// Event keys of a subscription: 0, 1, 2, ... and from 2147483647 back to 1
// (src/gena/gena_server.c:433-436 and 905-907).
module EventKeys {
  const MAX_KEY := 0x7FFF_FFFF

  // An event key; the C int overflows to a negative value and is then set to 1.
  type Key = k: int | 0 <= k <= MAX_KEY

  function NextKey(k: Key): (r: Key)
    ensures r > 0
  {
    if k == MAX_KEY then 1 else k + 1
  }

  // The key n events after k.
  function Advance(k: Key, n: nat): (r: Key)
    ensures n > 0 ==> r > 0
    decreases n
  {
    if n == 0 then k else Advance(NextKey(k), n - 1)
  }

  // The n keys from k on, each as often as it occurs.
  ghost function RunFrom(k: Key, n: nat): (r: multiset<Key>)
    ensures |r| == n
    decreases n
  {
    if n == 0 then multiset{} else multiset{k} + RunFrom(NextKey(k), n - 1)
  }

  lemma {:induction false} AdvanceNext(k: Key, n: nat)
    ensures Advance(k, n + 1) == NextKey(Advance(k, n))
    decreases n
  {
    if n > 0 {
      AdvanceNext(NextKey(k), n - 1);
    }
  }

  // One more event extends the run at its end.
  lemma {:induction false} RunGrows(k: Key, n: nat)
    ensures RunFrom(k, n + 1) == RunFrom(k, n) + multiset{Advance(k, n)}
    decreases n
  {
    if n > 0 {
      RunGrows(NextKey(k), n - 1);
      assert RunFrom(k, n + 1) == multiset{k} + (RunFrom(NextKey(k), n - 1) + multiset{Advance(NextKey(k), n - 1)});
    } else {
      assert RunFrom(k, 1) == multiset{k} + RunFrom(NextKey(k), 0);
    }
  }

  // How many events after the positive key k the key x comes.
  function Distance(k: Key, x: Key): (d: nat)
    requires k > 0 && x > 0
    ensures d < MAX_KEY
  {
    if x >= k then x - k else x - k + MAX_KEY
  }

  // The first key of a run comes back last; every other is one step nearer to the next key.
  lemma DistanceSteps(k: Key, x: Key)
    requires k > 0 && x > 0
    ensures if x == k then Distance(k, x) == 0 && Distance(NextKey(k), x) == MAX_KEY - 1
            else Distance(k, x) == Distance(NextKey(k), x) + 1
  {
  }

  lemma RunStep(k: Key, n: nat, x: Key)
    requires n > 0
    ensures RunFrom(k, n)[x] == RunFrom(NextKey(k), n - 1)[x] + if x == k then 1 else 0
  {
  }

  // Among fewer than a full round of keys, each occurs at most once.
  lemma {:induction false} RunHolds(k: Key, n: nat, x: Key)
    requires k > 0 && n <= MAX_KEY
    ensures RunFrom(k, n)[x] == if x > 0 && Distance(k, x) < n then 1 else 0
    decreases n
  {
    if n > 0 {
      RunStep(k, n, x);
      RunHolds(NextKey(k), n - 1, x);
      if x > 0 {
        DistanceSteps(k, x);
      }
    }
  }

  lemma KeysOnce(k: Key, n: nat, x: Key)
    requires n <= MAX_KEY
    ensures RunFrom(k, n)[x] <= 1
    ensures n > 0 ==> RunFrom(k, n)[k] == 1
  {
    if k > 0 {
      RunHolds(k, n, x);
      RunHolds(k, n, k);
    } else if n > 0 {
      RunHolds(1, n - 1, x);
      RunHolds(1, n - 1, k);
    }
  }

  // The keys a subscriber is to receive first: 0, 1, 2, ...
  ghost function FirstKeys(n: nat): (r: seq<Key>)
    ensures |r| == n
  {
    seq(n, i requires 0 <= i < n => Advance(0, i))
  }

  lemma FirstKeysSnoc(n: nat)
    ensures FirstKeys(n + 1) == FirstKeys(n) + [Advance(0, n)]
  {
  }

  // Written out: the i-th key is i until the counter wraps, and then cycles through 1 to MAX_KEY.
  lemma {:induction false} FirstKeyIs(i: nat)
    ensures Advance(0, i) == if i == 0 then 0 else 1 + (i - 1) % MAX_KEY
    decreases i
  {
    if i > 0 {
      AdvanceNext(0, i - 1);
      FirstKeyIs(i - 1);
      if i > 1 {
        ModNext(i - 2);
      }
    }
  }

  lemma ModNext(a: nat)
    ensures (a + 1) % MAX_KEY == if a % MAX_KEY == MAX_KEY - 1 then 0 else a % MAX_KEY + 1
  {
    var q, r := a / MAX_KEY, a % MAX_KEY;
    assert a == q * MAX_KEY + r;
    if r == MAX_KEY - 1 {
      assert a + 1 == (q + 1) * MAX_KEY;
    } else {
      assert a + 1 == q * MAX_KEY + (r + 1);
    }
  }
}
