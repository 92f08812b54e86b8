/** Small shared vocabulary: optional values and the clock's unit. */
module Wrappers {

  datatype Option<+T> = None | Some(value: T)

  /** Clocks count milliseconds from an arbitrary origin; durations in the source are whole seconds. */
  const SECOND: nat := 1000

  /** The clock readings of a run, in call order, never step backwards. */
  ghost predicate Nondecreasing(times: seq<nat>) {
    forall i, j :: 0 <= i < j < |times| ==> times[i] <= times[j]
  }

  function Lookup<K, V>(m: map<K, V>, key: K): Option<V> {
    if key in m then Some(m[key]) else None
  }

  /** Some element of a non-empty set. */
  ghost function Pick<T>(s: set<T>): (x: T)
    requires s != {}
    ensures x in s
  {
    var x :| x in s;
    x
  }
}
