/** The object the pair implements: one map from u64 to text, each half holding at most MAX_KEYS keys. */
module Atomic {
  import opened Bytes
  import opened Kv

  predicate SameHalf(a: U64, b: U64) {
    a % 2 == b % 2
  }

  /** The keys of `m` that live with `k`. */
  function Half(m: Entries, k: U64): Entries {
    map x | x in m && SameHalf(x, k) :: m[x]
  }

  /** One operation on the whole map, at once. */
  function Apply(m: Entries, op: Op): (Entries, Reply) {
    match op
    case Get(k) => (m, if k in m then Value(m[k]) else Nil)
    case Rm(k) => (m - {k}, if k in m then Done else Nil)
    case Put(k, v) =>
      if k !in m && |Half(m, k)| >= MAX_KEYS then (m, Refused(FULL)) else (m[k := v], Done)
  }

  /** The map after a sequence of operations on an empty one. */
  function ApplyAll(ops: seq<Op>): Entries {
    if ops == [] then map[] else Apply(ApplyAll(ops[..|ops| - 1]), ops[|ops| - 1]).0
  }

  /** Every key of `m` is of `k`'s half. */
  predicate AllWith(m: Entries, k: U64) {
    forall x | x in m :: SameHalf(x, k)
  }

  predicate NoneWith(m: Entries, k: U64) {
    forall x | x in m :: !SameHalf(x, k)
  }

  lemma MergeCommutes(a: Entries, b: Entries)
    requires a.Keys !! b.Keys
    ensures a + b == b + a
  {
  }

  lemma HalfOfMerge(home: Entries, away: Entries, k: U64)
    requires AllWith(home, k) && NoneWith(away, k)
    ensures k !in away && Half(home + away, k) == home
  {
    if k in away {
      assert SameHalf(k, k);
    }
  }

  lemma MergeRemove(home: Entries, away: Entries, k: U64)
    requires k !in away
    ensures (home + away) - {k} == (home - {k}) + away
  {
  }

  lemma MergeUpdate(home: Entries, away: Entries, k: U64, v: string)
    requires k !in away
    ensures (home + away)[k := v] == home[k := v] + away
  {
  }

  /** Executing at the key's home is applying to the merged map: same answer, same map after. */
  lemma HomeExecutionIsAtomic(home: Entries, away: Entries, op: Op)
    requires AllWith(home, op.k) && NoneWith(away, op.k)
    ensures Apply(home + away, op) == (Execute(home, op).0 + away, Execute(home, op).1)
  {
    HalfOfMerge(home, away, op.k);
    match op {
      case Get(k) =>
      case Rm(k) =>
        MergeRemove(home, away, k);
      case Put(k, v) =>
        MergeUpdate(home, away, k, v);
    }
  }
}
