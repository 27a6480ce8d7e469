/**
 `static_concat!`: intern the concatenation of a list of fragments. The
 zero-argument form expands to the literal `""` and never reaches the pool.
 */
module Concat {

  import opened Interning

  /**
   The `concat!` step: the fragments joined in order. The joined text starts
   with the first fragment and ends with the last one.
   */
  function Join(frags: seq<Str>): (r: Str)
    ensures frags == [] ==> r == ""
    ensures frags != [] ==> frags[0] <= r
    ensures frags != [] ==> var last := frags[|frags| - 1];
                            |last| <= |r| && r[|r| - |last|..] == last
    decreases |frags|
  {
    if frags == [] then "" else frags[0] + Join(frags[1..])
  }

  /** Joining splits over appending lists of fragments. */
  lemma {:induction false} JoinAppend(a: seq<Str>, b: seq<Str>)
    ensures Join(a + b) == Join(a) + Join(b)
    decreases |a|
  {
    if a == [] {
      assert a + b == b;
    } else {
      assert (a + b)[1..] == a[1..] + b;
      JoinAppend(a[1..], b);
    }
  }

  /** `static_concat!(frags...)` on pool `p`: the new pool and the returned reference. */
  function StaticConcatStep(p: PoolState, frags: seq<Str>): (res: (PoolState, StaticStr))
    requires Consistent(p)
    ensures Consistent(res.0) && p.arena <= res.0.arena
    ensures Resolves(res.0, res.1) && Deref(res.0, res.1) == Join(frags)
    ensures frags == [] ==> res.0 == p && res.1 == Literal("")
    ensures frags != [] ==> Join(frags) in res.0.entries && res.1 == Leaked(res.0.entries[Join(frags)])
  {
    if |frags| == 0 then (p, Literal("")) else Staticized(p, Join(frags))
  }

  /**
   The empty invocation and a single empty fragment both yield `""`, but only
   the latter tracks `""` in the pool.
   */
  lemma EmptyInvocationLeavesPool(p: PoolState)
    requires Consistent(p) && "" !in p.entries
    ensures var (q, r) := StaticConcatStep(p, []);
            Deref(q, r) == "" && "" !in q.entries && q == p
    ensures var (q, r) := StaticConcatStep(p, [""]);
            Deref(q, r) == "" && "" in q.entries && q.arena == p.arena + [""]
  {
  }

  /** The crate's own example: four fragments intern "hello world!". */
  lemma HelloWorld(p: PoolState)
    requires Consistent(p)
    ensures var (q, r) := StaticConcatStep(p, ["hello", " ", "world", "!"]);
            Deref(q, r) == "hello world!" && "hello world!" in q.entries
  {
  }

  /** The macro as the program runs it against the shared pool. */
  method StaticConcat(pool: Pool, frags: seq<Str>) returns (r: StaticStr)
    requires pool.Valid()
    modifies pool
    ensures pool.Valid()
    ensures (pool.State(), r) == StaticConcatStep(old(pool.State()), frags)
    ensures frags == [] ==> unchanged(pool)
  {
    if |frags| == 0 {
      r := Literal("");
    } else {
      r := pool.Staticize(Join(frags));
    }
  }
}
