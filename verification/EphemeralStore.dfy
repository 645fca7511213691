/** The ephemeral store of backend/src/alpha/store.py: expiring values, counters and leases.
    The functions on Store give the meaning of one call at one instant; MemoryStore carries them out on
    its three dictionaries. The caller's clock reading and the fresh random token are parameters. */
module EphemeralStore {
  import opened Basics

  /** `_values` holds both cached JSON objects and rate-limit counts, under disjoint families of keys. */
  datatype Value<V> = Json(payload: V) | Count(n: nat)

  datatype Entry<V> = Entry(expires: real, value: Value<V>)

  datatype Lease = Lease(expires: real, token: nat)

  datatype Store<K(==), V> = Store(values: map<K, Entry<V>>, counters: map<K, nat>, leases: map<K, Lease>)

  datatype RateResult = RateResult(allowed: bool, retryAfter: int)

  // ---------- what each call means ----------

  /** A fixed window: when it ends and how many requests it has seen. */
  datatype Window = Window(expires: real, count: nat)

  /** One request against a window, which a first or late request opens anew. */
  function Hit(current: Option<Window>, limit: int, seconds: nat, now: real): (Window, RateResult) {
    var live := current.Some? && current.value.expires > now;
    var expires := if live then current.value.expires else now + seconds as real;
    var count := (if live then current.value.count else 0) + 1;
    (Window(expires, count),
     if count > limit then RateResult(false, Max(1, (expires - now).Floor + 1)) else RateResult(true, 0))
  }

  function WindowAt<K, V>(values: map<K, Entry<V>>, key: K): Option<Window> {
    if key in values && values[key].value.Count? then Some(Window(values[key].expires, values[key].value.n)) else None
  }

  function CheckRateAt<K, V>(s: Store<K, V>, key: K, limit: int, seconds: nat, now: real): (Store<K, V>, RateResult) {
    var (w, r) := Hit(WindowAt(s.values, key), limit, seconds, now);
    (s.(values := s.values[key := Entry(w.expires, Count(w.count))]), r)
  }

  function JsonAt<K, V>(s: Store<K, V>, key: K, now: real): (Store<K, V>, Option<V>) {
    if key !in s.values then (s, None)
    else if s.values[key].expires <= now then (s.(values := s.values - {key}), None)
    else match s.values[key].value
      case Json(payload) => (s, Some(payload))
      case Count(_) => (s, None)
  }

  function WithJson<K, V>(s: Store<K, V>, key: K, payload: V, ttl: real, now: real): Store<K, V> {
    if ttl <= 0.0 then s else s.(values := s.values[key := Entry(now + ttl, Json(payload))])
  }

  function WithoutKey<K, V>(s: Store<K, V>, key: K): Store<K, V> {
    s.(values := s.values - {key})
  }

  function CounterAt<K, V>(s: Store<K, V>, key: K): nat {
    if key in s.counters then s.counters[key] else 0
  }

  function Incremented<K, V>(s: Store<K, V>, key: K): (Store<K, V>, nat) {
    var value := CounterAt(s, key) + 1;
    (s.(counters := s.counters[key := value]), value)
  }

  predicate LeaseHeld<K, V>(s: Store<K, V>, key: K, now: real) {
    key in s.leases && s.leases[key].expires > now
  }

  /** The caller of acquire_lease must pass a positive time to live; the store raises ValueError otherwise. */
  function LeaseTaken<K, V>(s: Store<K, V>, key: K, ttl: real, now: real, newToken: nat): (Store<K, V>, Option<nat>) {
    if LeaseHeld(s, key, now) then (s, None)
    else (s.(leases := s.leases[key := Lease(now + ttl, newToken)]), Some(newToken))
  }

  function LeaseReturned<K, V>(s: Store<K, V>, key: K, token: nat): (Store<K, V>, bool) {
    if key in s.leases && s.leases[key].token == token then (s.(leases := s.leases - {key}), true) else (s, false)
  }

  /** A stored object is there until its time to live has passed, and then is not; without a positive one nothing is
      stored. A deleted one is gone, and no other key is touched. */
  lemma ObjectsLast<K, V>(s: Store<K, V>, key: K, payload: V, ttl: real, now: real, later: real)
    ensures ttl > 0.0 ==>
              JsonAt(WithJson(s, key, payload, ttl, now), key, later).1
              == if later < now + ttl then Some(payload) else None
    ensures ttl <= 0.0 ==> WithJson(s, key, payload, ttl, now) == s
    ensures JsonAt(WithoutKey(s, key), key, later).1 == None
    ensures forall k :: k != key ==>
              && JsonAt(WithJson(s, key, payload, ttl, now), k, later).1 == JsonAt(s, k, later).1
              && JsonAt(WithoutKey(s, key), k, later).1 == JsonAt(s, k, later).1
  {
  }

  /** A lease is given back, and then gone, exactly when it is there under this token; no other lease is touched. */
  lemma LeaseReturns<K, V>(s: Store<K, V>, key: K, token: nat)
    ensures var (s', released) := LeaseReturned(s, key, token);
            && (released <==> key in s.leases && s.leases[key].token == token)
            && (released <==> key in s.leases && key !in s'.leases)
            && (forall k :: k != key ==> (k in s'.leases <==> k in s.leases)
                                         && (k in s.leases ==> s'.leases[k] == s.leases[k]))
            && s'.values == s.values && s'.counters == s.counters
  {
  }

  // ---------- the in-memory implementation ----------

  class MemoryStore<K(==), V> {
    var values: map<K, Entry<V>>
    var counters: map<K, nat>
    var leases: map<K, Lease>

    constructor ()
      ensures State() == Store(map[], map[], map[])
    {
      values, counters, leases := map[], map[], map[];
    }

    function State(): Store<K, V>
      reads this
    {
      Store(values, counters, leases)
    }

    /** Rate keys and JSON keys never meet, so a rate key never holds a JSON object. */
    method CheckRate(key: K, limit: int, seconds: nat, now: real) returns (r: RateResult)
      requires key in values ==> values[key].value.Count?
      modifies this`values
      ensures (State(), r) == CheckRateAt(old(State()), key, limit, seconds, now)
    {
      var expires, count := now + seconds as real, 0;
      if key in values {
        expires, count := values[key].expires, values[key].value.n;
      }
      if expires <= now {
        expires, count := now + seconds as real, 0;
      }
      count := count + 1;
      values := values[key := Entry(expires, Count(count))];
      if count > limit {
        return RateResult(false, Max(1, (expires - now).Floor + 1));
      }
      return RateResult(true, 0);
    }

    method GetJson(key: K, now: real) returns (r: Option<V>)
      modifies this`values
      ensures (State(), r) == JsonAt(old(State()), key, now)
    {
      if key !in values {
        return None;
      }
      var item := values[key];
      if item.expires <= now {
        values := values - {key};
        return None;
      }
      return if item.value.Json? then Some(item.value.payload) else None;
    }

    method SetJson(key: K, payload: V, ttl: real, now: real)
      modifies this`values
      ensures State() == WithJson(old(State()), key, payload, ttl, now)
    {
      if ttl <= 0.0 {
        return;
      }
      values := values[key := Entry(now + ttl, Json(payload))];
    }

    method Delete(key: K)
      modifies this`values
      ensures State() == WithoutKey(old(State()), key)
    {
      values := values - {key};
    }

    method Increment(key: K) returns (value: nat)
      modifies this`counters
      ensures (State(), value) == Incremented(old(State()), key)
    {
      value := (if key in counters then counters[key] else 0) + 1;
      counters := counters[key := value];
    }

    method AcquireLease(key: K, ttl: real, now: real, newToken: nat) returns (token: Option<nat>)
      requires ttl > 0.0
      modifies this`leases
      ensures (State(), token) == LeaseTaken(old(State()), key, ttl, now, newToken)
    {
      if key in leases && leases[key].expires > now {
        return None;
      }
      leases := leases[key := Lease(now + ttl, newToken)];
      return Some(newToken);
    }

    method ReleaseLease(key: K, token: nat) returns (released: bool)
      modifies this`leases
      ensures (State(), released) == LeaseReturned(old(State()), key, token)
    {
      if key !in leases || leases[key].token != token {
        return false;
      }
      leases := leases - {key};
      return true;
    }
  }

  // ---------- every request trace on one rate key ----------

  predicate Chronological(times: seq<real>) {
    forall i, j :: 0 <= i <= j < |times| ==> times[i] <= times[j]
  }

  /** The window left behind by these requests. */
  function After(times: seq<real>, limit: int, seconds: nat): Option<Window> {
    if times == [] then None
    else Some(Hit(After(times[..|times| - 1], limit, seconds), limit, seconds, times[|times| - 1]).0)
  }

  /** The answer to the i-th request of the trace. */
  function Answer(times: seq<real>, limit: int, seconds: nat, i: nat): RateResult
    requires i < |times|
  {
    Hit(After(times[..i], limit, seconds), limit, seconds, times[i]).1
  }

  /** The index of the request that opened the window the i-th request falls into. */
  function Opening(times: seq<real>, seconds: nat, i: nat): (o: nat)
    requires i < |times|
    ensures o <= i
  {
    if i == 0 then 0
    else
      var o := Opening(times, seconds, i - 1);
      if times[o] + seconds as real <= times[i] then i else o
  }

  /** The stored window is the one its opening request describes: it ends `seconds` later and has
      counted every request since. */
  lemma {:induction false} AfterIsWindow(times: seq<real>, limit: int, seconds: nat, i: nat)
    requires i < |times|
    ensures var o := Opening(times, seconds, i);
            After(times[..i + 1], limit, seconds) == Some(Window(times[o] + seconds as real, i - o + 1))
  {
    var upto := times[..i + 1];
    assert upto[..i] == times[..i] && upto[i] == times[i];
    if i > 0 {
      AfterIsWindow(times, limit, seconds, i - 1);
    }
  }

  /** What is left of the window at the i-th request. */
  function Rest(times: seq<real>, seconds: nat, i: nat): real
    requires i < |times|
  {
    times[Opening(times, seconds, i)] + seconds as real - times[i]
  }

  /** Exactly the first `limit` requests of each window are allowed. A request that waits out the advised delay after
      a denial has left the denying window; the delay is at least a second, and at most one more than that takes. */
  lemma FirstRequestsAllowed(times: seq<real>, limit: int, seconds: nat, i: nat)
    requires i < |times|
    ensures var o := Opening(times, seconds, i);
            Answer(times, limit, seconds, i).allowed <==> i - o < limit
    ensures !Answer(times, limit, seconds, i).allowed ==>
              var retry := Answer(times, limit, seconds, i).retryAfter;
              && retry >= 1 && (retry > 1 ==> Rest(times, seconds, i) >= (retry - 1) as real)
              && forall j :: i < j < |times| && times[i] + retry as real <= times[j]
                   ==> Opening(times, seconds, j) != Opening(times, seconds, i)
  {
    var o := Opening(times, seconds, i);
    if i > 0 { AfterIsWindow(times, limit, seconds, i - 1); }
    var answer := Answer(times, limit, seconds, i);
    if !answer.allowed {
      forall j | i < j < |times| && times[i] + answer.retryAfter as real <= times[j]
        ensures Opening(times, seconds, j) != o
      {
        OpeningWithin(times, seconds, j);
      }
    }
  }

  lemma {:induction false} OpeningWithin(times: seq<real>, seconds: nat, j: nat)
    requires j < |times|
    ensures var o := Opening(times, seconds, j); o < j ==> times[j] < times[o] + seconds as real
    ensures Opening(times, seconds, Opening(times, seconds, j)) == Opening(times, seconds, j)
  {
    if j > 0 { OpeningWithin(times, seconds, j - 1); }
  }

  /** Windows are runs of consecutive requests. */
  lemma {:induction false} OpeningAdvances(times: seq<real>, seconds: nat, i: nat, j: nat)
    requires i <= j < |times|
    ensures Opening(times, seconds, j) == Opening(times, seconds, i) || Opening(times, seconds, j) > i
    decreases j
  {
    if i < j { OpeningAdvances(times, seconds, i, j - 1); }
  }

  /** A second window cannot open less than `seconds` after an earlier one. */
  lemma OpeningsApart(times: seq<real>, seconds: nat, p: nat, q: nat)
    requires Chronological(times) && p < q < |times|
    requires Opening(times, seconds, p) == p && Opening(times, seconds, q) == q
    ensures times[p] + seconds as real <= times[q]
  {
    OpeningAdvances(times, seconds, p, q - 1);
    assert times[p] <= times[Opening(times, seconds, q - 1)];
  }

  predicate Within(times: seq<real>, seconds: nat, a: real, i: int) {
    0 <= i < |times| && a <= times[i] < a + seconds as real
  }

  function AllowedIn(times: seq<real>, limit: int, seconds: nat, a: real): set<nat> {
    set i: nat | i < |times| && Within(times, seconds, a, i) && Answer(times, limit, seconds, i).allowed
  }

  lemma TwoWindows(times: seq<real>, seconds: nat, a: real, lo: nat, i: nat, j: nat)
    requires Chronological(times) && Within(times, seconds, a, lo)
    requires lo <= i && lo <= j && Within(times, seconds, a, i) && Within(times, seconds, a, j)
    ensures var base := Opening(times, seconds, lo);
            Opening(times, seconds, i) == base || Opening(times, seconds, j) == base
            || Opening(times, seconds, i) == Opening(times, seconds, j)
  {
    var p, q := Opening(times, seconds, i), Opening(times, seconds, j);
    OpeningAdvances(times, seconds, lo, i);
    OpeningAdvances(times, seconds, lo, j);
    OpeningWithin(times, seconds, i);
    OpeningWithin(times, seconds, j);
    if p > lo && q > lo {
      if p < q { OpeningsApart(times, seconds, p, q); }
      if q < p { OpeningsApart(times, seconds, q, p); }
    }
  }

  predicate InRun(start: nat, length: nat, i: nat) {
    start <= i < start + length
  }

  function Run(start: nat, length: nat): set<nat> {
    set i: nat | i < start + length && InRun(start, length, i)
  }

  lemma {:induction false} RunSize(start: nat, length: nat)
    ensures |Run(start, length)| == length
  {
    if length > 0 {
      RunSize(start, length - 1);
      assert Run(start, length) == Run(start, length - 1) + {start + length - 1};
    }
  }

  lemma {:induction false} FirstWithin(times: seq<real>, seconds: nat, a: real, i: nat) returns (lo: nat)
    requires Within(times, seconds, a, i)
    ensures Within(times, seconds, a, lo) && forall k :: Within(times, seconds, a, k) ==> lo <= k
    decreases i
  {
    if k :| Within(times, seconds, a, k) && k < i {
      lo := FirstWithin(times, seconds, a, k);
    } else {
      lo := i;
    }
  }

  /** The window a request of the interval falls into, other than the interval's first one. */
  predicate SecondWindow(times: seq<real>, seconds: nat, a: real, base: nat, k: nat) {
    Within(times, seconds, a, k) && Opening(times, seconds, k) != base
  }

  /** In any half-open interval as long as the window, at most twice the limit gets through. */
  lemma AtMostTwiceTheLimit(times: seq<real>, limit: nat, seconds: nat, a: real)
    requires Chronological(times)
    ensures |AllowedIn(times, limit, seconds, a)| <= 2 * limit
  {
    var allowed := AllowedIn(times, limit, seconds, a);
    if allowed != {} {
      var some :| some in allowed;
      var lo := FirstWithin(times, seconds, a, some);
      var base := Opening(times, seconds, lo);
      var next := base;
      if k: nat :| SecondWindow(times, seconds, a, base, k) {
        next := Opening(times, seconds, k);
        forall i: nat | SecondWindow(times, seconds, a, base, i) ensures Opening(times, seconds, i) == next {
          TwoWindows(times, seconds, a, lo, i, k);
        }
      }
      var cover := Run(base, limit) + Run(next, limit);
      RunSize(base, limit);
      RunSize(next, limit);
      forall i | i in allowed ensures i in cover {
        FirstRequestsAllowed(times, limit, seconds, i);
        var o := Opening(times, seconds, i);
        assert o == base || SecondWindow(times, seconds, a, base, i);
        assert InRun(o, limit, i);
      }
      SubsetCardinality(allowed, cover);
    }
  }

  /** Requests on other keys leave a window alone, so the trace of one key is its own. */
  lemma RateKeysAreSeparate<K, V>(s: Store<K, V>, key: K, other: K, limit: int, seconds: nat, now: real)
    requires key != other
    ensures WindowAt(CheckRateAt(s, other, limit, seconds, now).0.values, key) == WindowAt(s.values, key)
    ensures CheckRateAt(s, other, limit, seconds, now).0.counters == s.counters
    ensures CheckRateAt(s, other, limit, seconds, now).0.leases == s.leases
    ensures WindowAt(CheckRateAt(s, key, limit, seconds, now).0.values, key)
            == Some(Hit(WindowAt(s.values, key), limit, seconds, now).0)
  {
  }
}
