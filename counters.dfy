/** Counter dictionaries that are incremented in place. */
module Counters {
  import opened Wrappers

  /** The value stored under `k`, or 0 when there is none. */
  function ValueOr0(d: map<string, real>, k: string): real
  {
    if k in d then d[k] else 0.0
  }

  /** The dictionary after adding `amount` under `entry`: a missing amount leaves
      it as it is, an absent key starts at the amount, a present key grows by it. */
  function Incremented(d: map<string, real>, entry: string, amount: Option<real>): (r: map<string, real>)
    ensures amount.None? ==> r == d
    ensures amount.Some? ==> r == d[entry := ValueOr0(d, entry) + amount.value]
  {
    if amount.None? then d
    else if entry !in d then d[entry := amount.value]
    else d[entry := d[entry] + amount.value]
  }

  /** A dictionary of running totals, updated in place. */
  class Counter {
    var entries: map<string, real>

    constructor ()
      ensures entries == map[]
    {
      entries := map[];
    }

    method Increment(entry: string, amount: Option<real>)
      modifies this
      ensures entries == Incremented(old(entries), entry, amount)
    {
      if amount.None? {
        return;
      }
      if entry !in entries {
        entries := entries[entry := amount.value];
      } else {
        entries := entries[entry := entries[entry] + amount.value];
      }
    }
  }
}
