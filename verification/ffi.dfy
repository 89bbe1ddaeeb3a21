/**
 * The chunk-enumeration bridge: `map_chunks` runs a host closure over every
 * live chunk of an address window while the engine's global lock is held,
 * reaching it through a fixed C callback (the trampoline) that receives the
 * closure as its context argument.
 */
module Ffi {
  import opened Engine

  /**
   * A host visitor `FnMut(c_ulong, size_t)`: given its captured state and one
   * chunk's address and size, it yields its new captured state.
   */
  type ChunkVisitor<!S> = (S, nat, nat) -> S

  /** The trampoline: recovers the visitor from the context and calls it with the chunk as reported. */
  function Callback<S>(f: ChunkVisitor<S>, state: S, chunk: Chunk): S
  {
    f(state, chunk.base, chunk.size)
  }

  /** The visitor called on every chunk of `order` in turn, with its address and size as given. */
  function VisitEach<S>(f: ChunkVisitor<S>, state: S, order: seq<Chunk>): S
  {
    if |order| == 0 then state else VisitEach(f, f(state, order[0].base, order[0].size), order[1..])
  }

  lemma {:induction false} TrampolineForwards<S>(f: ChunkVisitor<S>, state: S, order: seq<Chunk>)
    ensures Visit((s: S, c: Chunk) => Callback(f, s, c), state, order) == VisitEach(f, state, order)
    decreases |order|
  {
    if |order| > 0 {
      TrampolineForwards(f, f(state, order[0].base, order[0].size), order[1..]);
    }
  }

  /**
   * `map_chunks(f, base_address, size)`: disable, iterate over the window
   * exactly as given (no range check) with the trampoline, enable. The
   * visitor sees every reported chunk once, in the engine's order, with its
   * address and size unchanged; the engine's chunks do not change and the
   * engine ends enabled.
   */
  function MapChunks<S>(e: State, f: ChunkVisitor<S>, state: S, baseAddress: nat, size: nat, order: seq<Chunk>): (r: Iteration<S>)
    requires baseAddress <= USIZE_MAX && size <= USIZE_MAX
    requires Enumerates(e, baseAddress, size, order)
    ensures r.engine.live == e.live && r.engine.enabled
    ensures r.engine.log == e.log + LockedTrace(baseAddress, size, order)
    ensures r.context == VisitEach(f, state, order)
  {
    var locked := Disable(e);
    var it := Iterate(locked, baseAddress, size, (s: S, c: Chunk) => Callback(f, s, c), state, order);
    TrampolineForwards(f, state, order);
    Iteration(it.context, Enable(it.engine))
  }

  /** A visitor that records every call it receives. */
  function Recorder(): ChunkVisitor<seq<(nat, nat)>>
  {
    (calls: seq<(nat, nat)>, base: nat, size: nat) => calls + [(base, size)]
  }

  lemma {:induction false} RecorderSeesOrder(calls: seq<(nat, nat)>, order: seq<Chunk>)
    ensures var seen := VisitEach(Recorder(), calls, order);
      |seen| == |calls| + |order|
      && seen[..|calls|] == calls
      && forall i :: 0 <= i < |order| ==> seen[|calls| + i] == (order[i].base, order[i].size)
    decreases |order|
  {
    if |order| > 0 {
      var next := calls + [(order[0].base, order[0].size)];
      RecorderSeesOrder(next, order[1..]);
      var seen := VisitEach(Recorder(), next, order[1..]);
      assert seen[..|next|][..|calls|] == seen[..|calls|];
      forall i | 0 <= i < |order|
        ensures seen[|calls| + i] == (order[i].base, order[i].size)
      {
        if i == 0 {
          assert seen[..|next|][|calls|] == seen[|calls|];
        } else {
          assert seen[|next| + (i - 1)] == (order[1..][i - 1].base, order[1..][i - 1].size);
        }
      }
    }
  }

  /**
   * The visitor is called once per chunk of the window, with that chunk's
   * address and size: recording its calls yields one entry per chunk, no
   * repeats, and exactly the window's chunks.
   */
  lemma MapChunksVisitsWindowOnce(e: State, baseAddress: nat, size: nat, order: seq<Chunk>)
    requires baseAddress <= USIZE_MAX && size <= USIZE_MAX
    requires Enumerates(e, baseAddress, size, order)
    ensures var calls := MapChunks(e, Recorder(), [], baseAddress, size, order).context;
      && |calls| == |order|
      && (forall i, j :: 0 <= i < j < |calls| ==> calls[i] != calls[j])
      && (forall c :: c in WindowChunks(e, baseAddress, size) <==> (c.base, c.size) in calls)
  {
    var calls := MapChunks(e, Recorder(), [], baseAddress, size, order).context;
    RecorderSeesOrder([], order);
    forall i, j | 0 <= i < j < |calls| ensures calls[i] != calls[j] {
      assert order[i] != order[j];
    }
    forall c ensures c in WindowChunks(e, baseAddress, size) <==> (c.base, c.size) in calls {
      if c in WindowChunks(e, baseAddress, size) {
        assert c in Elements(order);
        var i :| 0 <= i < |order| && order[i] == c;
        assert calls[i] == (c.base, c.size);
      }
      if (c.base, c.size) in calls {
        var i :| 0 <= i < |calls| && calls[i] == (c.base, c.size);
        assert order[i] == c;
        assert c in Elements(order);
      }
    }
  }

  /** An empty window reports nothing: the visitor is never called. */
  lemma EmptyWindowNoCalls<S>(e: State, f: ChunkVisitor<S>, state: S, baseAddress: nat, order: seq<Chunk>)
    requires baseAddress <= USIZE_MAX
    requires Enumerates(e, baseAddress, 0, order)
    ensures MapChunks(e, f, state, baseAddress, 0, order).context == state
    ensures MapChunks(e, f, state, baseAddress, 0, order).engine.log
         == e.log + [CallDisable, CallIterate(baseAddress, 0), CallEnable]
  {
    EmptyWindow(e, baseAddress, order);
  }

  /** `print_stats`: a pass-through that leaves the live chunks and the lock as they were. */
  function PrintStats(e: State): (r: State)
    ensures r.live == e.live && r.enabled == e.enabled
    ensures r.log == e.log + [CallPrintStats]
  {
    ScudoPrintStats(e)
  }

  // ---------------------------------------------------------------------
  // The test `test_map_allocator`.
  // ---------------------------------------------------------------------

  /**
   * The test's closure: its flag becomes set on a chunk of exactly `target`
   * bytes and otherwise stays as it was; the address plays no part.
   */
  function SeenSize(target: nat): (f: ChunkVisitor<bool>)
    ensures forall seen, address, chunkSize :: f(seen, address, chunkSize) <==> seen || chunkSize == target
  {
    (seen: bool, address: nat, chunkSize: nat) => if chunkSize == target then true else seen
  }

  lemma {:induction false} SeenSizeFinds(target: nat, seen: bool, order: seq<Chunk>)
    ensures VisitEach(SeenSize(target), seen, order)
        <==> seen || exists c :: c in Elements(order) && c.size == target
    decreases |order|
  {
    if |order| > 0 {
      var next := if order[0].size == target then true else seen;
      SeenSizeFinds(target, next, order[1..]);
      assert Elements(order) == {order[0]} + Elements(order[1..]);
    } else {
      NoElementsNoOrder(order);
    }
  }

  /** Whether `map_chunks` over `[0, usize::MAX)` sees a chunk of exactly `target` bytes. */
  function HasChunkWithSize(e: State, target: nat, order: seq<Chunk>): (r: (bool, State))
    requires Enumerates(e, 0, USIZE_MAX, order)
    ensures Valid(e) ==> (r.0 <==> exists c :: c in LiveChunks(e) && c.size == target)
    ensures r.1.live == e.live && r.1.enabled
  {
    var it := MapChunks(e, SeenSize(target), false, 0, USIZE_MAX, order);
    SeenSizeFinds(target, false, order);
    if Valid(e) then FullWindow(e); (it.context, it.engine) else (it.context, it.engine)
  }

  /** The large allocation of the test. */
  const MAP_ALLOCATOR_SIZE: nat := 13378200

  /**
   * `test_map_allocator`: with no live chunk of 13378200 bytes, a granted
   * `posix_memalign` at alignment 16 yields a non-null pointer and such a
   * chunk is seen; after `free` it is not seen any more.
   */
  lemma MapAllocatorScenario(e: State, g: Grant)
    requires Valid(e)
    requires forall c :: c in LiveChunks(e) ==> c.size != MAP_ALLOCATOR_SIZE
    requires MayAnswer(e, 16, g) && g.Granted?
    ensures var m := PosixMemalign(e, NULL, 16, MAP_ALLOCATOR_SIZE, g);
      && m.status == 0
      && m.memptr != NULL
      && (forall order :: Enumerates(m.engine, 0, USIZE_MAX, order) ==> HasChunkWithSize(m.engine, MAP_ALLOCATOR_SIZE, order).0)
      && Free(m.engine, m.memptr).Freed?
      && (forall order :: Enumerates(Free(m.engine, m.memptr).engine, 0, USIZE_MAX, order) ==>
            !HasChunkWithSize(Free(m.engine, m.memptr).engine, MAP_ALLOCATOR_SIZE, order).0)
  {
    var m := PosixMemalign(e, NULL, 16, MAP_ALLOCATOR_SIZE, g);
    var p := m.memptr;
    LiveChunksInsert(e, p, MAP_ALLOCATOR_SIZE);
    assert m.engine.live == e.live[p := MAP_ALLOCATOR_SIZE];
    assert LiveChunks(m.engine) == LiveChunks(e.(live := e.live[p := MAP_ALLOCATOR_SIZE]));
    assert Chunk(p, MAP_ALLOCATOR_SIZE) in LiveChunks(m.engine);
    var freed := Free(m.engine, p).engine;
    LiveChunksRemove(m.engine, p);
    assert freed.live == m.engine.live - {p};
    assert LiveChunks(freed) == LiveChunks(m.engine.(live := m.engine.live - {p}));
    assert LiveChunks(freed) == LiveChunks(e);
  }
}
