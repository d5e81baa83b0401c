/**
 * The memcached client as both distributed limiters use it: a store of
 * named counters with `incr(name, delta, initial, expiry)` and `getBulk(names)`.
 * The network, the server and its expiry eviction are not part of this
 * model; the expiry passed with each new counter is recorded.
 */
module Counters {

  /** A stored counter and the expiry (seconds) it was created with. */
  datatype Counter = Counter(value: int, expirySeconds: int)

  /**
   * `incr(name, delta, initial, expiry)`: an absent counter is created holding
   * `initial` with that expiry; a present one gains `delta` and keeps its expiry.
   * No other counter changes.
   */
  function Incremented(counters: map<string, Counter>, name: string, delta: int, initial: int, expirySeconds: int): (r: map<string, Counter>)
    ensures r.Keys == counters.Keys + {name}
    ensures forall k :: k in counters && k != name ==> r[k] == counters[k]
    ensures name in counters ==> r[name] == Counter(counters[name].value + delta, counters[name].expirySeconds)
    ensures name !in counters ==> r[name] == Counter(initial, expirySeconds)
  {
    if name in counters then counters[name := Counter(counters[name].value + delta, counters[name].expirySeconds)]
    else counters[name := Counter(initial, expirySeconds)]
  }

  /** A counter's value, an absent counter reading as zero. */
  function Lookup(counters: map<string, Counter>, name: string): int {
    if name in counters then counters[name].value else 0
  }

  /** The total of the named counters, absent ones reading as zero. */
  function StoredSum(names: seq<string>, counters: map<string, Counter>): int
    decreases |names|
  {
    if |names| == 0 then 0 else StoredSum(names[..|names| - 1], counters) + Lookup(counters, names[|names| - 1])
  }

  /** The total of the names found in a bulk read, names not found adding nothing. */
  function FoundSum(names: seq<string>, found: map<string, int>): int
    decreases |names|
  {
    if |names| == 0 then 0
    else
      var name := names[|names| - 1];
      FoundSum(names[..|names| - 1], found) + (if name in found then found[name] else 0)
  }

  predicate Distinct(names: seq<string>) {
    forall i, j :: 0 <= i < j < |names| ==> names[i] != names[j]
  }

  /**
   * With `initial` equal to `delta`, as both limiters call it, `incr` adds `delta`
   * to the counter whether or not it existed, reading absent as zero.
   */
  lemma IncrAddsToLookup(counters: map<string, Counter>, name: string, delta: int, expirySeconds: int, k: string)
    ensures Lookup(Incremented(counters, name, delta, delta, expirySeconds), k)
         == Lookup(counters, k) + (if k == name then delta else 0)
  {
  }

  /**
   * Incrementing one counter by `delta` raises the total over a list of
   * distinct names by `delta` when the counter is on the list, and leaves it
   * unchanged otherwise.
   */
  lemma {:induction false} IncrRaisesSum(names: seq<string>, counters: map<string, Counter>, name: string, delta: int, expirySeconds: int)
    requires Distinct(names)
    ensures StoredSum(names, Incremented(counters, name, delta, delta, expirySeconds))
         == StoredSum(names, counters) + (if name in names then delta else 0)
    decreases |names|
  {
    if |names| > 0 {
      var prefix := names[..|names| - 1];
      var last := names[|names| - 1];
      assert names == prefix + [last];
      assert name in names <==> name in prefix || name == last;
      assert Distinct(prefix);
      assert name == last ==> name !in prefix;
      IncrRaisesSum(prefix, counters, name, delta, expirySeconds);
      IncrAddsToLookup(counters, name, delta, expirySeconds, last);
    }
  }

  /** Adding up a bulk read of the store gives the stored total, absent names counting zero. */
  lemma {:induction false} FoundSumIsStoredSum(names: seq<string>, found: map<string, int>, counters: map<string, Counter>)
    requires forall k :: k in names ==> (k in found <==> k in counters)
    requires forall k :: k in found && k in counters ==> found[k] == counters[k].value
    ensures FoundSum(names, found) == StoredSum(names, counters)
    decreases |names|
  {
    if |names| > 0 {
      var prefix := names[..|names| - 1];
      assert forall k :: k in prefix ==> k in names;
      FoundSumIsStoredSum(prefix, found, counters);
    }
  }

  /** The memcached client: its counters are the state `incr` changes. */
  class CounterStore {
    var counters: map<string, Counter>

    constructor ()
      ensures counters == map[]
    {
      counters := map[];
    }

    /** `incr(name, delta, initial, expiry)`. */
    method Incr(name: string, delta: int, initial: int, expirySeconds: int)
      modifies this
      ensures counters == Incremented(old(counters), name, delta, initial, expirySeconds)
    {
      counters := Incremented(counters, name, delta, initial, expirySeconds);
    }

    /**
     * `getBulk(names)`: the values of exactly those requested names that
     * are present; names absent from the store are absent from the result.
     */
    method GetBulk(names: seq<string>) returns (found: map<string, int>)
      ensures forall k :: k in found <==> k in names && k in counters
      ensures forall k :: k in found ==> found[k] == counters[k].value
    {
      found := map k | k in names && k in counters :: counters[k].value;
    }
  }
}
