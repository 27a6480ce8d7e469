# static_str_ops: a verified model of the intern pool and the once cell

The crate turns strings built at run time into `&'static str` values. It has
two pieces, and each one is modelled here.

- **The intern pool.** `STATIC_STRINGS` is a process-wide `HashSet<&'static str>`
  of leaked strings, compared by content. `staticize` returns the tracked string
  whose content equals its argument. When there is none, it leaks a new
  allocation and tracks it. `is_staticized` asks whether a content is tracked.
  `destaticize` removes the tracking entry and never frees the allocation.
- **The once cell.** `staticize_once!` gives each call site a static slot and a
  `std::sync::Once` barrier. The first call evaluates the block, staticizes the
  result and caches the reference. Every later call returns the cached reference.
  `static_concat!` staticizes the concatenation of its literal fragments.

Files:

- `pool.dfy` (module `Interning`):
  - A reference handed to a caller is `StaticStr`. It is either a `Literal` of
    the program text or `Leaked(i)`, allocation `i` of an append-only arena.
  - `PoolState` is the arena together with `entries`, a map from content to
    arena index. It stands for the `HashSet`.
  - `Consistent` is the pool invariant.
  - `Staticized` and `Destaticized` specify the operations on values.
  - The class `Pool` holds the same two fields and updates them in place.
  - `Run` replays any sequence of pool operations.
- `concat.dfy` (module `Concat`): the `concat!` step, `Join`, and the
  `static_concat!` expansion, as a spec function and as a method on the pool.
- `once.dfy` (module `Once`):
  - The cell state is `done`, `cached` and a ghost evaluation counter.
  - `OnceCall` specifies one call.
  - The class `OnceCell` is one call site's statics.
  - `Session` replays the cell's calls interleaved with arbitrary pool operations.

Each state-changing class method is proved against its spec function: it
states its new state as that spec function of the old state, and the spec
functions carry the properties themselves. `Pool.IsStaticized` changes nothing
and states its result directly.

Two behaviours of the macros are worth stating outright:

- `static_concat!()` with no fragments expands to the literal `""`. It does not
  reach the pool, so `""` stays untracked afterwards (`src/lib.rs:163`).
- The once cell always staticizes its block's result (`src/lib.rs:203`), so the
  cached value is always a pool allocation.

## Model

| member | source | states |
|---|---|---|
| `Interning.EmptyPool` | src/lib.rs:83-85 | the pool starts with no allocations and no tracked entries, and is consistent |
| `Interning.PrefixKeepsReferences` | src/lib.rs:113 | leaked allocations are never freed: a reference valid before the arena grows stays valid and keeps its text |
| `Interning.Staticized` | src/lib.rs:107-118 | keeps the pool consistent; the returned reference points to an allocation holding exactly `s`, and that allocation is now the tracked entry for `s`; the arena only grows; no other content's entry changes; if `s` was tracked, its existing allocation is returned and the pool is unchanged; otherwise one allocation holding `s` is appended and returned |
| `Interning.Destaticized` | src/lib.rs:143-145 | reports `true` exactly when `s` was tracked; afterwards `s` is untracked, every other entry is unchanged, the arena is unchanged (nothing is freed) and the pool stays consistent |
| `Interning.DistinctContentsDistinctAllocations` | src/lib.rs:84 | in a consistent pool, two different tracked contents never refer to the same allocation |
| `Interning.StaticizeIdempotent` | src/lib.rs:110-111 | a second `staticize` of the same content returns the same reference and does not change the pool |
| `Interning.EvictThenReintern` | src/lib.rs:107-145 | after `destaticize` of a tracked content, `staticize` of it appends a new allocation distinct from the evicted one; both the new and the evicted reference still read as that content |
| `Interning.StaticizeDestaticizeCycle` | src/lib.rs:258-275 | for untracked content: after `staticize` it is tracked and the reference reads as it; the first `destaticize` returns `true`, a second returns `false` and changes nothing; the reference stays valid throughout |
| `Interning.Apply` | src/lib.rs:107-145 | every pool operation keeps the pool consistent and only grows the arena; `staticize` and `destaticize` act as `Staticized` and `Destaticized`; the membership query leaves the pool unchanged |
| `Interning.RunKeepsReferences` | src/lib.rs:107-145 | after any sequence of `staticize`, `is_staticized` and `destaticize` calls, the pool is consistent, the arena extends the old one, and every earlier reference resolves to the same text |
| `Interning.Pool.constructor` | src/lib.rs:83-85 | a new pool object is the empty, consistent pool |
| `Interning.Pool.Staticize` | src/lib.rs:107-118 | updates the fields in place to exactly `Staticized` of the old state and returns its reference; the reference reads as `s` and `s` is tracked afterwards |
| `Interning.Pool.IsStaticized` | src/lib.rs:129-131 | returns whether `s` is tracked, and if so the tracked allocation holds `s`; it has no `modifies` clause, so it changes nothing |
| `Interning.Pool.Destaticize` | src/lib.rs:143-145 | updates only the tracking map, to exactly `Destaticized` of the old state; the arena is untouched and `s` is untracked afterwards |
| `Concat.Join` | src/lib.rs:165 | the fragments concatenated in order: no fragments give `""`; otherwise the text starts with the first fragment and ends with the last |
| `Concat.JoinAppend` | src/lib.rs:165 | joining fragments distributes over appending fragment lists |
| `Concat.StaticConcatStep` | src/lib.rs:162-167 | the returned reference reads as the concatenation of the fragments, the pool stays consistent and the arena only grows; with no fragments the result is the literal `""` and the pool is untouched; otherwise the concatenation is tracked and the reference is its tracked allocation |
| `Concat.EmptyInvocationLeavesPool` | src/lib.rs:163-165 | `static_concat!()` and `static_concat!("")` both read as `""`, but only the second tracks `""` and appends an allocation |
| `Concat.HelloWorld` | src/lib.rs:277-281 | the fragments `"hello"`, `" "`, `"world"`, `"!"` yield a reference reading `"hello world!"`, which is then tracked |
| `Concat.StaticConcat` | src/lib.rs:162-167 | the macro on the shared pool object has exactly the effect and result of `StaticConcatStep`; with no fragments the pool object is unchanged |
| `Once.FreshCell` | src/lib.rs:200-201 | a call site's cell starts not done, with no evaluations, and with the slot holding the literal `""` |
| `Once.CellValidGrows` | src/lib.rs:200-205 | a cell's cached reference stays valid however the pool's arena grows |
| `Once.OnceCall` | src/lib.rs:196-206 | a call leaves the cell done and returns its cached reference; on a done cell the body's result is ignored and neither the cell nor the pool changes; on a fresh cell the body runs once, the pool and result are exactly `Staticized` of that body's result, and the result reads as it |
| `Once.SessionOnce` | src/lib.rs:196-206 | over any sequence of calls interleaved with other pool operations, including `destaticize` of the cached content: the body runs at most once; the cell is done exactly when it was already done or was called; every call returns the cached reference; that reference reads as the first call's body result or, on a done cell, keeps its old text; a done cell never changes |
| `Once.TwoSitesShareAllocation` | src/lib.rs:236-240 | two call sites with equal body results each evaluate their body once, and the second receives the first's allocation without growing the pool |
| `Once.OnceCell.constructor` | src/lib.rs:200-201 | a new cell object is the fresh cell |
| `Once.OnceCell.Call` | src/lib.rs:196-206 | updates the cell and the pool object in place to exactly `OnceCall` of their old states; on a done cell nothing changes and the cached reference is returned |
| `Once.ThreeCalls` | src/lib.rs:314-332 | three calls from one call site return the same reference, the body is evaluated once, and the reference reads as the body's result |

## Left out

- Locking: the `Mutex` around the pool and the panic from `unwrap()` on a poisoned lock (`src/lib.rs:109`, `130`, `144`). Calls are modelled as sequential operations on one pool object, in the total order the lock imposes.
- `std::sync::Once`: blocking of concurrent callers and its "running" state. The cell goes from not done to done within one sequential call.
- A block of `staticize_once!` that panics is not modelled: the block is always a string, so a call always completes.
- `lazy_static` initialisation: the pool object is constructed explicitly.
- Memory: `Box::leak`, the `static mut` slot and `unsafe`. They appear only as the append-only arena and the cell's `cached` field. A real address is an arena index.
- `static_format!` (`src/lib.rs:186-191`): formatting is done by the standard library's `format!`. Given the formatted string, the macro is `Pool.Staticize`. Like `static_concat!()`, `static_format!()` with no arguments expands to the literal `""` and never reaches the pool (`src/lib.rs:187`).
- The build-time check that every `static_concat!` argument is a literal, and the trailing-comma syntax. Fragments are ordinary strings.
- `gensym` and macro hygiene (`src/lib.rs:81`, `236-240`). Each call site owns one `OnceCell` object.
- The block given to `staticize_once!` becomes the string it yields, passed as an argument to `OnceCell.Call`. That argument is used only on the first call. The ghost counter `evaluations` stands for the block's side effects.
- The `Into<String>` conversion in `staticize`: arguments are already strings.
- The `Typename` test helpers (`src/lib.rs:289-312`).
