/**
 * The external allocator engine, seen only through the entry points the
 * adapter calls. Its internals (size classes, quarantine, header checks) are
 * not modelled: it is a map of live chunks, the global lock flag, and a log of
 * every call made into it and every chunk it reports back.
 *
 * The engine's free choices are parameters: whether an allocation succeeds
 * and at which address (`Grant`), and the order in which it reports chunks
 * (`order`). Predicates state what the engine may choose.
 */
module Engine {

  /** `size_of::<*const c_void>()` on the 64-bit targets the adapter is built for. */
  const POINTER_SIZE: nat := 8

  /** `usize::MAX` on a 64-bit target. */
  const USIZE_MAX: nat := 0xFFFF_FFFF_FFFF_FFFF

  /** The null pointer. */
  const NULL: nat := 0

  /** One live allocation as the engine reports it: its user address and requested size. */
  datatype Chunk = Chunk(base: nat, size: nat)

  /** A call into the engine, or a report the engine makes back to its caller. */
  datatype Event =
    | CallPosixMemalign(alignment: nat, size: nat)
    | CallFree(ptr: nat)
    | CallDisable
    | CallIterate(base: nat, size: nat)
    | ChunkReported(chunk: Chunk)
    | CallEnable
    | CallPrintStats

  /** The engine's observable state. `enabled` is false while the global lock is held. */
  datatype State = State(live: map<nat, nat>, enabled: bool, log: seq<Event>)

  /** Every live chunk sits at a non-null address below `usize::MAX`. */
  predicate Valid(e: State)
  {
    forall p :: p in e.live ==> NULL < p < USIZE_MAX
  }

  predicate IsPowerOfTwo(n: nat)
    decreases n
  {
    n == 1 || (n >= 2 && n % 2 == 0 && IsPowerOfTwo(n / 2))
  }

  /** An alignment `posix_memalign` accepts: a power of two that is a multiple of the pointer size. */
  predicate PosixAlignment(a: nat)
  {
    IsPowerOfTwo(a) && a % POINTER_SIZE == 0
  }

  // ---------------------------------------------------------------------
  // Allocation and release.
  // ---------------------------------------------------------------------

  /** The engine's answer to one `posix_memalign` call. */
  datatype Grant = Granted(ptr: nat) | Refused(status: int)

  /**
   * The answers the engine may give: a grant is a fresh, non-null address
   * aligned as asked, and only for an alignment `posix_memalign` accepts; a
   * refusal carries a nonzero status.
   */
  predicate MayAnswer(e: State, alignment: nat, g: Grant)
  {
    match g
    case Granted(p) => PosixAlignment(alignment) && NULL < p < USIZE_MAX && p !in e.live && p % alignment == 0
    case Refused(status) => status != 0
  }

  /** What `posix_memalign` returns: its status, the out-pointer, and the engine afterwards. */
  datatype MemalignResult = MemalignResult(status: int, memptr: nat, engine: State)

  /**
   * `posix_memalign(&memptr, alignment, size)`. On success the status is 0,
   * the out-pointer holds the new chunk and the chunk is live; on failure the
   * out-pointer is left as it was and nothing is allocated.
   */
  function PosixMemalign(e: State, memptr: nat, alignment: nat, size: nat, g: Grant): (r: MemalignResult)
    requires MayAnswer(e, alignment, g)
    ensures r.status == 0 <==> g.Granted?
    ensures Valid(e) ==> Valid(r.engine)
  {
    var log := e.log + [CallPosixMemalign(alignment, size)];
    match g
    case Granted(p) => MemalignResult(0, p, e.(live := e.live[p := size], log := log))
    case Refused(status) => MemalignResult(status, memptr, e.(log := log))
  }

  /** What `free` leads to: the engine afterwards, or the engine's own fail-fast abort. */
  datatype FreeResult = Freed(engine: State) | FatalCorruption(ptr: nat)

  /**
   * `free(ptr)`. Null is ignored, a live chunk is released, and anything else
   * makes the engine abort the process (double free, foreign pointer).
   */
  function Free(e: State, ptr: nat): (r: FreeResult)
    ensures r.Freed? <==> ptr == NULL || ptr in e.live
    ensures Valid(e) && r.Freed? ==> Valid(r.engine)
  {
    if ptr == NULL then Freed(e.(log := e.log + [CallFree(ptr)]))
    else if ptr in e.live then Freed(e.(live := e.live - {ptr}, log := e.log + [CallFree(ptr)]))
    else FatalCorruption(ptr)
  }

  /** `print_stats`: writes diagnostics to the engine's own output and changes nothing modelled. */
  function ScudoPrintStats(e: State): State
  {
    e.(log := e.log + [CallPrintStats])
  }

  // ---------------------------------------------------------------------
  // The global lock and chunk iteration.
  // ---------------------------------------------------------------------

  /** `malloc_disable`: takes the engine's global lock. */
  function Disable(e: State): (r: State)
    ensures !r.enabled && r.live == e.live && r.log == e.log + [CallDisable]
  {
    e.(enabled := false, log := e.log + [CallDisable])
  }

  /** `malloc_enable`: releases the engine's global lock. */
  function Enable(e: State): (r: State)
    ensures r.enabled && r.live == e.live && r.log == e.log + [CallEnable]
  {
    e.(enabled := true, log := e.log + [CallEnable])
  }

  /** The live chunks. */
  function LiveChunks(e: State): set<Chunk>
  {
    set p | p in e.live :: Chunk(p, e.live[p])
  }

  /** The live chunks whose address lies in `[base, base + size)`. */
  function WindowChunks(e: State, base: nat, size: nat): set<Chunk>
  {
    set c | c in LiveChunks(e) && base <= c.base < base + size
  }

  /** The chunks of `chunks` with exactly the given size. */
  function ChunksOfSize(chunks: set<Chunk>, size: nat): set<Chunk>
  {
    set c | c in chunks && c.size == size
  }

  predicate NoDuplicates(s: seq<Chunk>)
  {
    forall i, j :: 0 <= i < j < |s| ==> s[i] != s[j]
  }

  /** The chunks appearing in `order`. */
  function Elements(order: seq<Chunk>): set<Chunk>
  {
    set c | c in order
  }

  /** The orders in which the engine may report a window: every chunk in it, each once. */
  predicate Enumerates(e: State, base: nat, size: nat, order: seq<Chunk>)
  {
    NoDuplicates(order) && Elements(order) == WindowChunks(e, base, size)
  }

  /** The report events for the chunks of `order`, in order. */
  function Reports(order: seq<Chunk>): seq<Event>
  {
    if |order| == 0 then [] else [ChunkReported(order[0])] + Reports(order[1..])
  }

  /** The callback applied to each reported chunk in turn, threading its context argument. */
  function Visit<S>(callback: (S, Chunk) -> S, context: S, order: seq<Chunk>): S
  {
    if |order| == 0 then context else Visit(callback, callback(context, order[0]), order[1..])
  }

  /** A finished iteration: the callback's context argument and the engine afterwards. */
  datatype Iteration<S> = Iteration(context: S, engine: State)

  /**
   * `malloc_iterate(base, size, callback, context)`, with `base` and `size`
   * of type `usize`: the callback runs once per live chunk of the window, in
   * the engine's order. The call is recorded, then one report per chunk of
   * the window and nothing else; no chunk changes and the lock is untouched.
   */
  function Iterate<S>(e: State, base: nat, size: nat, callback: (S, Chunk) -> S, context: S, order: seq<Chunk>): (r: Iteration<S>)
    requires base <= USIZE_MAX && size <= USIZE_MAX
    requires Enumerates(e, base, size, order)
    ensures r.engine.live == e.live && r.engine.enabled == e.enabled
    ensures |r.engine.log| > |e.log| && r.engine.log[..|e.log| + 1] == e.log + [CallIterate(base, size)]
    ensures forall i :: |e.log| < i < |r.engine.log| ==> r.engine.log[i].ChunkReported?
    ensures forall c :: ChunkReported(c) in r.engine.log[|e.log| + 1..] <==> c in WindowChunks(e, base, size)
  {
    ReportsContain(order);
    var head := e.log + [CallIterate(base, size)];
    assert (head + Reports(order))[..|head|] == head;
    assert (head + Reports(order))[|head|..] == Reports(order);
    Iteration(Visit(callback, context, order), e.(log := e.log + [CallIterate(base, size)] + Reports(order)))
  }

  /** The reports of an order are one chunk report per element, and nothing else. */
  lemma {:induction false} ReportsContain(order: seq<Chunk>)
    ensures |Reports(order)| == |order|
    ensures forall i :: 0 <= i < |order| ==> Reports(order)[i] == ChunkReported(order[i])
    ensures forall c :: ChunkReported(c) in Reports(order) <==> c in Elements(order)
    decreases |order|
  {
    if |order| > 0 {
      ReportsContain(order[1..]);
      assert Elements(order) == {order[0]} + Elements(order[1..]);
      forall c ensures ChunkReported(c) in Reports(order) <==> c in Elements(order) {
        assert ChunkReported(c) in Reports(order) <==> c == order[0] || ChunkReported(c) in Reports(order[1..]);
      }
    }
  }

  /** The calls of a locked iteration: disable, iterate with its reports, enable. */
  function LockedTrace(base: nat, size: nat, order: seq<Chunk>): seq<Event>
  {
    [CallDisable, CallIterate(base, size)] + Reports(order) + [CallEnable]
  }

  /** Whether the engine is enabled after `events`, starting from `enabled`. */
  function EnabledAfter(enabled: bool, events: seq<Event>): bool
    decreases |events|
  {
    if |events| == 0 then enabled
    else
      var next := if events[0].CallDisable? then false else if events[0].CallEnable? then true else enabled;
      EnabledAfter(next, events[1..])
  }

  lemma {:induction false} EnabledAfterAppend(enabled: bool, xs: seq<Event>, ys: seq<Event>)
    ensures EnabledAfter(enabled, xs + ys) == EnabledAfter(EnabledAfter(enabled, xs), ys)
    decreases |xs|
  {
    if |xs| == 0 {
      assert xs + ys == ys;
    } else {
      assert (xs + ys)[0] == xs[0] && (xs + ys)[1..] == xs[1..] + ys;
      var next := if xs[0].CallDisable? then false else if xs[0].CallEnable? then true else enabled;
      EnabledAfterAppend(next, xs[1..], ys);
    }
  }

  lemma {:induction false} ReportsKeepLock(enabled: bool, order: seq<Chunk>, k: nat)
    requires k <= |order|
    ensures |Reports(order)| == |order|
    ensures EnabledAfter(enabled, Reports(order)[..k]) == enabled
    ensures forall i :: 0 <= i < |order| ==> Reports(order)[i] == ChunkReported(order[i])
    decreases |order|
  {
    if |order| > 0 {
      ReportsKeepLock(enabled, order[1..], if k == 0 then 0 else k - 1);
      if k > 0 {
        assert Reports(order)[..k] == [ChunkReported(order[0])] + Reports(order[1..])[..k - 1];
      }
    }
  }

  /**
   * The lock discipline of a locked iteration: whatever the lock state
   * before, every chunk report happens while the lock is held, and the
   * engine is enabled again at the end.
   */
  lemma LockHeldDuringReports(enabled: bool, base: nat, size: nat, order: seq<Chunk>)
    ensures var t := LockedTrace(base, size, order);
      && EnabledAfter(enabled, t)
      && (forall i :: 0 <= i < |t| && t[i].ChunkReported? ==> !EnabledAfter(enabled, t[..i]))
  {
    var t := LockedTrace(base, size, order);
    var head := [CallDisable, CallIterate(base, size)];
    ReportsKeepLock(false, order, |order|);
    assert !EnabledAfter(enabled, head) by {
      assert head[1..] == [CallIterate(base, size)] && head[1..][1..] == [];
      assert EnabledAfter(false, head[1..]) == EnabledAfter(false, []);
    }
    EnabledAfterAppend(enabled, head, Reports(order));
    assert Reports(order)[..|order|] == Reports(order);
    EnabledAfterAppend(enabled, head + Reports(order), [CallEnable]);
    forall i | 0 <= i < |t| && t[i].ChunkReported?
      ensures !EnabledAfter(enabled, t[..i])
    {
      assert 2 <= i < 2 + |order|;
      ReportsKeepLock(false, order, i - 2);
      assert t[..i] == head + Reports(order)[..i - 2];
      EnabledAfterAppend(enabled, head, Reports(order)[..i - 2]);
    }
  }

  /** With a full-range window, every live chunk of a valid engine is in the window. */
  lemma FullWindow(e: State)
    requires Valid(e)
    ensures WindowChunks(e, 0, USIZE_MAX) == LiveChunks(e)
  {
  }

  lemma NoElementsNoOrder(order: seq<Chunk>)
    ensures Elements(order) == {} <==> order == []
  {
    if order != [] {
      assert order[0] in Elements(order);
    }
  }

  /** An empty window holds no chunk, so the only order for it is empty. */
  lemma EmptyWindow(e: State, base: nat, order: seq<Chunk>)
    requires Enumerates(e, base, 0, order)
    ensures order == []
  {
    NoElementsNoOrder(order);
    assert WindowChunks(e, base, 0) == {};
  }

  /** Allocating at a fresh address adds exactly that chunk to the live set. */
  lemma LiveChunksInsert(e: State, p: nat, size: nat)
    requires p !in e.live
    ensures LiveChunks(e.(live := e.live[p := size])) == LiveChunks(e) + {Chunk(p, size)}
    ensures Chunk(p, size) !in LiveChunks(e)
  {
    var after := e.(live := e.live[p := size]);
    forall c ensures c in LiveChunks(after) <==> c in LiveChunks(e) + {Chunk(p, size)} {
      if c in LiveChunks(after) {
        assert c.base in after.live && c.size == after.live[c.base];
        if c.base != p {
          assert c == Chunk(c.base, e.live[c.base]);
        }
      }
      if c in LiveChunks(e) {
        assert c.base in e.live && c.base != p;
        assert c == Chunk(c.base, after.live[c.base]);
      }
      if c == Chunk(p, size) {
        assert p in after.live && after.live[p] == size;
      }
    }
  }

  /** Freeing a live address removes exactly its chunk from the live set. */
  lemma LiveChunksRemove(e: State, p: nat)
    requires p in e.live
    ensures LiveChunks(e.(live := e.live - {p})) == LiveChunks(e) - {Chunk(p, e.live[p])}
    ensures Chunk(p, e.live[p]) in LiveChunks(e)
  {
    var after := e.(live := e.live - {p});
    forall c ensures c in LiveChunks(after) <==> c in LiveChunks(e) - {Chunk(p, e.live[p])} {
      if c in LiveChunks(after) {
        assert c.base in after.live && c.base != p;
        assert c == Chunk(c.base, e.live[c.base]);
      }
      if c in LiveChunks(e) && c != Chunk(p, e.live[p]) {
        assert c.base in e.live && c.size == e.live[c.base];
        assert c.base != p;
        assert c == Chunk(c.base, after.live[c.base]);
      }
    }
  }
}
