/**
 The content-addressed intern pool behind `staticize`, `is_staticized` and
 `destaticize`.

 The process-wide set of leaked strings is modelled by two pieces of state:
 an append-only arena standing for the allocations `Box::leak` has made (they
 are never freed), and a map from content to the arena index of the tracked
 allocation with that content, standing for the `HashSet<&'static str>`.
 A `&'static str` handed to a caller is a `StaticStr`: either a literal baked
 into the program, or an index into the arena.
 */
module Interning {

  type Str = seq<char>

  /** A reference with process lifetime: a string literal of the program, or a leaked allocation. */
  datatype StaticStr = Literal(text: Str) | Leaked(index: nat)

  /** The pool as a value: the leaked allocations and the tracking set over them. */
  datatype PoolState = PoolState(arena: seq<Str>, entries: map<Str, nat>)

  /** The empty pool, as `lazy_static` creates it on first use. */
  function EmptyPool(): (p: PoolState)
    ensures Consistent(p) && p.arena == [] && p.entries == map[]
  {
    PoolState([], map[])
  }

  /**
   The pool invariant: every tracked content refers to an allocation that
   exists and holds that content. Since `entries` is keyed by content, there is
   at most one tracked entry per content.
   */
  ghost predicate Consistent(p: PoolState)
  {
    forall s :: s in p.entries ==> p.entries[s] < |p.arena| && p.arena[p.entries[s]] == s
  }

  /** A reference is valid (never dangling) in pool `p`. */
  predicate Resolves(p: PoolState, r: StaticStr)
  {
    match r
    case Literal(_) => true
    case Leaked(i) => i < |p.arena|
  }

  /** The text a valid reference points to. */
  function Deref(p: PoolState, r: StaticStr): (text: Str)
    requires Resolves(p, r)
  {
    match r
    case Literal(t) => t
    case Leaked(i) => p.arena[i]
  }

  /** A reference valid in `p` stays valid, with the same text, in any pool whose arena extends `p`'s. */
  lemma PrefixKeepsReferences(p: PoolState, q: PoolState, r: StaticStr)
    requires p.arena <= q.arena && Resolves(p, r)
    ensures Resolves(q, r) && Deref(q, r) == Deref(p, r)
  {
  }

  /** `p` and `q` agree on whether `t` is tracked and, if so, on its allocation. */
  predicate SameEntry(p: PoolState, q: PoolState, t: Str)
  {
    (t in p.entries <==> t in q.entries) && (t in p.entries ==> p.entries[t] == q.entries[t])
  }

  /**
   `staticize(s)` on pool `p`: the new pool and the returned reference.
   If equal content is tracked, its allocation is returned and nothing changes;
   otherwise `s` is leaked into a fresh arena slot and tracked.
   */
  function Staticized(p: PoolState, s: Str): (res: (PoolState, StaticStr))
    requires Consistent(p)
    ensures Consistent(res.0)
    ensures res.1.Leaked? && Resolves(res.0, res.1) && Deref(res.0, res.1) == s
    ensures s in res.0.entries && res.0.entries[s] == res.1.index
    ensures p.arena <= res.0.arena
    ensures forall t :: t != s ==> SameEntry(p, res.0, t)
    ensures s in p.entries ==> res.0 == p && res.1 == Leaked(p.entries[s])
    ensures s !in p.entries ==> res.0.arena == p.arena + [s] && res.1 == Leaked(|p.arena|)
  {
    if s in p.entries then
      (p, Leaked(p.entries[s]))
    else
      var i := |p.arena|;
      (PoolState(p.arena + [s], p.entries[s := i]), Leaked(i))
  }

  /**
   `destaticize(s)` on pool `p`: the new pool and whether `s` was tracked.
   The tracking entry goes; the allocation stays in the arena.
   */
  function Destaticized(p: PoolState, s: Str): (res: (PoolState, bool))
    requires Consistent(p)
    ensures Consistent(res.0)
    ensures res.1 <==> s in p.entries
    ensures s !in res.0.entries
    ensures res.0.arena == p.arena
    ensures forall t :: t != s ==> SameEntry(p, res.0, t)
  {
    (PoolState(p.arena, p.entries - {s}), s in p.entries)
  }

  /** Distinct tracked contents never share an allocation. */
  lemma DistinctContentsDistinctAllocations(p: PoolState, s: Str, t: Str)
    requires Consistent(p)
    requires s in p.entries && t in p.entries && s != t
    ensures p.entries[s] != p.entries[t]
  {
  }

  /** Staticizing twice returns the same allocation and the second call changes nothing. */
  lemma StaticizeIdempotent(p: PoolState, s: Str)
    requires Consistent(p)
    ensures Staticized(Staticized(p, s).0, s) == (Staticized(p, s).0, Staticized(p, s).1)
  {
  }

  /**
   Evicting and re-interning: `destaticize` reports the content as present, the
   re-interned content gets a fresh allocation distinct from the evicted one,
   and the evicted one still resolves to the same text.
   */
  lemma EvictThenReintern(p: PoolState, s: Str)
    requires Consistent(p) && s in p.entries
    ensures var (q, present) := Destaticized(p, s);
            var (q', r) := Staticized(q, s);
            var old_r := Leaked(p.entries[s]);
            present && r == Leaked(|p.arena|) && r != old_r &&
            Resolves(q', old_r) && Deref(q', old_r) == s && Deref(q', r) == s
  {
  }

  /**
   The life cycle exercised by the crate's tests: content that is not tracked
   is reported absent, present after `staticize`, present to the first
   `destaticize`, absent afterwards, and absent to a second `destaticize`.
   */
  lemma StaticizeDestaticizeCycle(p: PoolState, s: Str)
    requires Consistent(p) && s !in p.entries
    ensures var (p1, r) := Staticized(p, s);
            var (p2, first) := Destaticized(p1, s);
            var (p3, second) := Destaticized(p2, s);
            Deref(p1, r) == s && s in p1.entries &&
            first && s !in p2.entries && !second && p3 == p2 &&
            Resolves(p3, r) && Deref(p3, r) == s
  {
  }

  /** One pool operation as a caller issues it. */
  datatype Op = Staticize(s: Str) | IsStaticized(s: Str) | Destaticize(s: Str)

  /** The pool after one operation; the membership query leaves it as it is. */
  function Apply(p: PoolState, op: Op): (q: PoolState)
    requires Consistent(p)
    ensures Consistent(q) && p.arena <= q.arena
    ensures op.Staticize? ==> q == Staticized(p, op.s).0
    ensures op.IsStaticized? ==> q == p
    ensures op.Destaticize? ==> q == Destaticized(p, op.s).0
  {
    match op
    case Staticize(s) => Staticized(p, s).0
    case IsStaticized(_) => p
    case Destaticize(s) => Destaticized(p, s).0
  }

  /** The pool after a sequence of operations, applied in order (the lock totally orders them). */
  function Run(p: PoolState, ops: seq<Op>): (q: PoolState)
    requires Consistent(p)
    decreases |ops|
  {
    if ops == [] then p else Run(Apply(p, ops[0]), ops[1..])
  }

  /**
   Whatever operations follow, the pool stays consistent, the arena only grows,
   and every reference handed out earlier still resolves to the same text.
   */
  lemma {:induction false} RunKeepsReferences(p: PoolState, ops: seq<Op>)
    requires Consistent(p)
    ensures var q := Run(p, ops);
            Consistent(q) && p.arena <= q.arena &&
            forall r :: Resolves(p, r) ==> Resolves(q, r) && Deref(q, r) == Deref(p, r)
    decreases |ops|
  {
    if ops != [] {
      var p1 := Apply(p, ops[0]);
      RunKeepsReferences(p1, ops[1..]);
      var q := Run(p, ops);
      assert q == Run(p1, ops[1..]);
      forall r | Resolves(p, r) ensures Resolves(q, r) && Deref(q, r) == Deref(p, r) {
        assert Resolves(p1, r) && Deref(p1, r) == Deref(p, r);
      }
    }
  }

  /** The intern pool as the mutable object the program keeps behind its lock. */
  class Pool {
    var arena: seq<Str>
    var entries: map<Str, nat>

    /** The pool's current value. */
    function State(): PoolState
      reads this
    {
      PoolState(arena, entries)
    }

    ghost predicate Valid()
      reads this
    {
      Consistent(State())
    }

    constructor ()
      ensures Valid() && State() == EmptyPool()
    {
      arena := [];
      entries := map[];
    }

    /** `staticize`: look the content up; on a miss leak a fresh allocation and track it. */
    method Staticize(s: Str) returns (r: StaticStr)
      requires Valid()
      modifies this
      ensures Valid()
      ensures (State(), r) == Staticized(old(State()), s)
      ensures Resolves(State(), r) && Deref(State(), r) == s && s in entries
    {
      if s in entries {
        r := Leaked(entries[s]);
      } else {
        arena := arena + [s];
        r := Leaked(|arena| - 1);
        entries := entries[s := |arena| - 1];
      }
    }

    /** `is_staticized`: whether some tracked allocation has this content. */
    method IsStaticized(s: Str) returns (b: bool)
      requires Valid()
      ensures b <==> s in entries
      ensures b ==> entries[s] < |arena| && arena[entries[s]] == s
    {
      b := s in entries;
    }

    /** `destaticize`: forget the tracking entry, keep the allocation, report whether it was tracked. */
    method Destaticize(s: Str) returns (present: bool)
      requires Valid()
      modifies this`entries
      ensures Valid()
      ensures (State(), present) == Destaticized(old(State()), s)
      ensures arena == old(arena) && s !in entries
    {
      present := s in entries;
      entries := entries - {s};
    }
  }
}
