/**
 `staticize_once!`: a per-call-site cell that evaluates its body on the first
 call only, interns the result, caches the reference and returns the cached
 reference on every call. Each call site owns one cell; the `std::sync::Once`
 barrier is reduced to the `done` flag of sequential calls.
 */
module Once {

  import opened Interning

  /**
   A cell as a value: whether its body has run, the cached reference (the
   static slot starts out as the literal `""`), and how often the body ran.
   */
  datatype CellState = CellState(done: bool, cached: StaticStr, evaluations: nat)

  /** A call site's cell before its first call. */
  function FreshCell(): (c: CellState)
    ensures !c.done && c.evaluations == 0 && c.cached == Literal("")
  {
    CellState(false, Literal(""), 0)
  }

  /**
   The cell invariant relative to the pool: the body has run exactly once if
   the cell is done and not at all otherwise, and the cached reference is valid.
   */
  ghost predicate CellValid(c: CellState, p: PoolState)
  {
    && (c.done ==> c.evaluations == 1 && Resolves(p, c.cached))
    && (!c.done ==> c.evaluations == 0 && c.cached == Literal(""))
  }

  /** A cell stays valid when the pool's arena grows. */
  lemma CellValidGrows(c: CellState, p: PoolState, q: PoolState)
    requires CellValid(c, p) && p.arena <= q.arena
    ensures CellValid(c, q)
  {
  }

  /**
   One call of the cell with body result `body` on pool `p`: the new cell, the
   new pool and the returned reference. The body's result is used only when the
   cell is not yet done.
   */
  function OnceCall(c: CellState, p: PoolState, body: Str): (res: (CellState, PoolState, StaticStr))
    requires Consistent(p) && CellValid(c, p)
    ensures Consistent(res.1) && CellValid(res.0, res.1) && p.arena <= res.1.arena
    ensures res.0.done && res.2 == res.0.cached
    ensures c.done ==> res.0 == c && res.1 == p
    ensures !c.done ==> res.0.evaluations == 1 && (res.1, res.2) == Staticized(p, body)
    ensures !c.done ==> Deref(res.1, res.2) == body
  {
    if c.done then
      (c, p, c.cached)
    else
      var (q, r) := Staticized(p, body);
      (CellState(true, r, c.evaluations + 1), q, r)
  }

  /** What happens between calls: the call site's own call, or any pool operation elsewhere. */
  datatype Event = Call(body: Str) | PoolOp(op: Op)

  /** The bodies passed to the call site, in order. */
  function CallBodies(events: seq<Event>): (bodies: seq<Str>)
    decreases |events|
  {
    if events == [] then []
    else if events[0].Call? then [events[0].body] + CallBodies(events[1..])
    else CallBodies(events[1..])
  }

  /** Replay events against one cell and the pool; collect the references the calls return. */
  function Session(c: CellState, p: PoolState, events: seq<Event>): (CellState, PoolState, seq<StaticStr>)
    requires Consistent(p) && CellValid(c, p)
    decreases |events|
  {
    if events == [] then
      (c, p, [])
    else
      match events[0]
      case Call(body) =>
        var (c1, p1, r) := OnceCall(c, p, body);
        var (c2, p2, rs) := Session(c1, p1, events[1..]);
        (c2, p2, [r] + rs)
      case PoolOp(op) =>
        var p1 := Apply(p, op);
        CellValidGrows(c, p, p1);
        Session(c, p1, events[1..])
  }

  /**
   The once-only guarantee over any sequence of calls interleaved with other
   pool operations: the body runs at most once, every call returns the same
   reference (the cached one), and that reference keeps pointing at the first
   call's body result, even if that content is later destaticized.
   */
  lemma {:induction false} SessionOnce(c: CellState, p: PoolState, events: seq<Event>)
    requires Consistent(p) && CellValid(c, p)
    ensures var (c', p', rs) := Session(c, p, events);
            && Consistent(p') && CellValid(c', p') && p.arena <= p'.arena
            && |rs| == |CallBodies(events)|
            && c'.evaluations <= 1
            && (c'.done <==> c.done || |rs| > 0)
            && (c.done ==> c' == c && Deref(p', c'.cached) == Deref(p, c.cached))
            && (forall i :: 0 <= i < |rs| ==> rs[i] == c'.cached)
            && (!c.done && |rs| > 0 ==> Deref(p', c'.cached) == CallBodies(events)[0])
    decreases |events|
  {
    if events != [] {
      var rest := events[1..];
      match events[0]
      case Call(body) =>
        var (c1, p1, r) := OnceCall(c, p, body);
        SessionOnce(c1, p1, rest);
        var (c2, p2, rs) := Session(c1, p1, rest);
        assert CallBodies(events) == [body] + CallBodies(rest);
        if c.done {
          assert c1 == c && p1 == p;
        } else {
          PrefixKeepsReferences(p1, p2, r);
        }
      case PoolOp(op) =>
        var p1 := Apply(p, op);
        CellValidGrows(c, p, p1);
        SessionOnce(c, p1, rest);
        assert CallBodies(events) == CallBodies(rest);
        if c.done {
          PrefixKeepsReferences(p, p1, c.cached);
        }
    }
  }

  /**
   Two call sites with the same body result each run their body once; the pool
   then hands the second the first one's allocation.
   */
  lemma TwoSitesShareAllocation(p: PoolState, body: Str)
    requires Consistent(p)
    ensures var (c1, p1, r1) := OnceCall(FreshCell(), p, body);
            var (c2, p2, r2) := OnceCall(FreshCell(), p1, body);
            c1.evaluations == 1 && c2.evaluations == 1 && r1 == r2 && p2 == p1
  {
  }

  /** The cell of one call site, as the macro's two statics. */
  class OnceCell {
    var done: bool
    var cached: StaticStr
    ghost var evaluations: nat

    ghost function State(): CellState
      reads this
    {
      CellState(done, cached, evaluations)
    }

    ghost predicate Valid(pool: Pool)
      reads this, pool
    {
      CellValid(State(), pool.State())
    }

    constructor ()
      ensures State() == FreshCell()
    {
      done := false;
      cached := Literal("");
      evaluations := 0;
    }

    /** One evaluation of `staticize_once!` at this call site; `body` is what its block yields. */
    method Call(pool: Pool, body: Str) returns (r: StaticStr)
      requires pool.Valid() && Valid(pool)
      modifies this, pool
      ensures pool.Valid() && Valid(pool)
      ensures (State(), pool.State(), r) == OnceCall(old(State()), old(pool.State()), body)
      ensures old(done) ==> unchanged(this) && unchanged(pool) && r == cached
    {
      if !done {
        cached := pool.Staticize(body);
        done := true;
        evaluations := evaluations + 1;
      }
      r := cached;
    }
  }

  /** Three calls from one call site, as in the crate's test: one evaluation, one reference. */
  method ThreeCalls(pool: Pool, body: Str) returns (cell: OnceCell, s1: StaticStr, s2: StaticStr, s3: StaticStr)
    requires pool.Valid()
    modifies pool
    ensures fresh(cell) && pool.Valid() && cell.Valid(pool)
    ensures s1 == s2 == s3 && cell.evaluations == 1
    ensures Resolves(pool.State(), s1) && Deref(pool.State(), s1) == body
  {
    cell := new OnceCell();
    s1 := cell.Call(pool, body);
    s2 := cell.Call(pool, body);
    s3 := cell.Call(pool, body);
  }
}
