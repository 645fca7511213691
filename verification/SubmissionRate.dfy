/** _check_submission_rate of backend/src/alpha/routes_participant.py: the team, address and challenge
    windows are charged one after another, and the first denial ends it. */
module SubmissionRate {
  import opened Basics
  import opened EphemeralStore

  datatype Limit<K> = Limit(key: K, limit: int)

  /** The windows hold counts, and the keys differ. */
  ghost predicate RateKeys<K, V>(values: map<K, Entry<V>>, limits: seq<Limit<K>>) {
    && (forall i :: 0 <= i < |limits| && limits[i].key in values ==> values[limits[i].key].value.Count?)
    && (forall i, j :: 0 <= i < j < |limits| ==> limits[i].key != limits[j].key)
  }

  /** What the window of one limit would answer, if it were asked alone. */
  function Alone<K, V>(s: Store<K, V>, l: Limit<K>, seconds: nat, now: real): (Window, RateResult) {
    Hit(WindowAt(s.values, l.key), l.limit, seconds, now)
  }

  /** The first n windows, and no others, have been charged once. */
  ghost predicate Charged<K(!new), V>(
    s: Store<K, V>, t: Store<K, V>, limits: seq<Limit<K>>, n: nat, seconds: nat, now: real)
    requires n <= |limits|
  {
    && t.counters == s.counters && t.leases == s.leases
    && (forall i :: 0 <= i < n ==>
          limits[i].key in t.values && WindowAt(t.values, limits[i].key) == Some(Alone(s, limits[i], seconds, now).0))
    && (forall k :: (forall i :: 0 <= i < n ==> limits[i].key != k) ==>
          (k in t.values <==> k in s.values) && (k in s.values ==> t.values[k] == s.values[k]))
  }

  /** Denied exactly when some window alone would deny; the first of them answers, and those after it are not
      charged. */
  method CheckSubmissionRate<K(==, !new), V>(store: MemoryStore<K, V>, limits: seq<Limit<K>>, seconds: nat, now: real)
    returns (denied: Option<RateResult>, charged: nat)
    requires RateKeys(store.values, limits)
    modifies store`values
    ensures charged <= |limits| && Charged(old(store.State()), store.State(), limits, charged, seconds, now)
    ensures denied.None? ==>
              && charged == |limits|
              && forall i :: 0 <= i < |limits| ==> Alone(old(store.State()), limits[i], seconds, now).1.allowed
    ensures denied.Some? ==>
              && 0 < charged && denied.value == Alone(old(store.State()), limits[charged - 1], seconds, now).1
                 && !denied.value.allowed
              && forall i :: 0 <= i < charged - 1 ==> Alone(old(store.State()), limits[i], seconds, now).1.allowed
  {
    hide Hit, Charged;
    ghost var s := store.State();
    NothingCharged(s, limits, seconds, now);
    charged := 0;
    while charged < |limits|
      invariant charged <= |limits| && Charged(s, store.State(), limits, charged, seconds, now)
      invariant RateKeys(store.values, limits)
      invariant forall i :: 0 <= i < charged ==> Alone(s, limits[i], seconds, now).1.allowed
    {
      ghost var t := store.State();
      var l := limits[charged];
      NotYetCharged(s, t, limits, charged, seconds, now);
      var result := store.CheckRate(l.key, l.limit, seconds, now);
      OneMoreCharged(s, t, store.State(), limits, charged, seconds, now);
      charged := charged + 1;
      if !result.allowed {
        return Some(result), charged;
      }
    }
    denied := None;
  }

  lemma NothingCharged<K(!new), V>(s: Store<K, V>, limits: seq<Limit<K>>, seconds: nat, now: real)
    ensures Charged(s, s, limits, 0, seconds, now)
  {
  }

  lemma NotYetCharged<K(!new), V>(
    s: Store<K, V>, t: Store<K, V>, limits: seq<Limit<K>>, n: nat, seconds: nat, now: real)
    requires n < |limits| && RateKeys(s.values, limits) && Charged(s, t, limits, n, seconds, now)
    ensures WindowAt(t.values, limits[n].key) == WindowAt(s.values, limits[n].key)
  {
  }

  lemma OneMoreCharged<K(!new), V>(
    s: Store<K, V>, t: Store<K, V>, u: Store<K, V>, limits: seq<Limit<K>>, n: nat, seconds: nat, now: real)
    requires n < |limits| && RateKeys(s.values, limits) && RateKeys(t.values, limits)
             && Charged(s, t, limits, n, seconds, now)
    requires u == CheckRateAt(t, limits[n].key, limits[n].limit, seconds, now).0
    ensures Charged(s, u, limits, n + 1, seconds, now) && RateKeys(u.values, limits)
  {
    hide Hit;
    NotYetCharged(s, t, limits, n, seconds, now);
  }
}
