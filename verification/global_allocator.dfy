/**
 * `GlobalScudoAllocator`, the host-allocator adapter: `alloc` asks the engine
 * for `posix_memalign` with the alignment raised to at least the pointer size
 * and turns a nonzero status into null; `dealloc` frees the pointer and
 * ignores the layout. The same adapter appears in two crate generations
 * with identical logic; this module models both. Also the test helper that
 * counts live chunks of one size under the engine's lock.
 */
module GlobalAllocator {
  import opened Engine

  /** `isize::MAX` on a 64-bit target. */
  const ISIZE_MAX: nat := 0x7FFF_FFFF_FFFF_FFFF

  /** A host allocation request. */
  datatype Layout = Layout(size: nat, align: nat)

  /**
   * The layouts the host can construct: a power-of-two alignment, and a size
   * that stays within `isize::MAX` once rounded up to that alignment.
   */
  predicate ValidLayout(l: Layout)
  {
    IsPowerOfTwo(l.align) && l.size + (l.align - 1) <= ISIZE_MAX
  }

  function Max(a: nat, b: nat): nat
  {
    if a >= b then a else b
  }

  /** The alignment handed to the engine: never below the pointer size. */
  function Alignment(layout: Layout): nat
  {
    Max(POINTER_SIZE, layout.align)
  }

  /** Monotonicity of multiplication by a positive factor. */
  lemma {:induction false} MulMonotone(t: nat, b: nat)
    ensures t >= 1 ==> t * b >= b
    decreases t
  {
    if t > 0 {
      MulMonotone(t - 1, b);
      assert t * b == (t - 1) * b + b;
    }
  }

  /** A multiple of `b` leaves no remainder. */
  lemma MultipleHasNoRemainder(k: nat, b: nat)
    requires b > 0
    ensures (k * b) % b == 0
  {
    var x := k * b;
    var q := x / b;
    assert x == q * b + x % b;
    assert q <= k;
    var t: nat := k - q;
    assert x % b == t * b;
    MulMonotone(t, b);
  }

  /** Of two powers of two, the smaller divides the larger. */
  lemma {:induction false} PowerOfTwoDivides(a: nat, b: nat)
    requires IsPowerOfTwo(a) && IsPowerOfTwo(b) && a <= b
    ensures b % a == 0
    decreases a
  {
    if a == 1 {
      MultipleHasNoRemainder(b, 1);
    } else {
      PowerOfTwoDivides(a / 2, b / 2);
      var k := (b / 2) / (a / 2);
      assert b / 2 == k * (a / 2);
      assert b == k * a by {
        assert b == 2 * (b / 2) && a == 2 * (a / 2);
        assert 2 * (k * (a / 2)) == k * (2 * (a / 2));
      }
      MultipleHasNoRemainder(k, a);
    }
  }

  lemma DividesTransitive(x: nat, a: nat, b: nat)
    requires a > 0 && b > 0 && x % a == 0 && a % b == 0
    ensures x % b == 0
  {
    var m := x / a;
    var n := a / b;
    assert x == m * a;
    assert a == n * b;
    assert x == (m * n) * b by {
      assert m * (n * b) == (m * n) * b;
    }
    MultipleHasNoRemainder(m * n, b);
  }

  /**
   * The alignment rule: the engine sees the larger of the pointer size and
   * the requested alignment, so it is one of the two, never below either, a
   * power of two, a multiple of the requested alignment, and an alignment
   * `posix_memalign` accepts.
   */
  lemma AlignmentFloor(layout: Layout)
    requires ValidLayout(layout)
    ensures Alignment(layout) == POINTER_SIZE || Alignment(layout) == layout.align
    ensures Alignment(layout) >= POINTER_SIZE && Alignment(layout) >= layout.align
    ensures IsPowerOfTwo(Alignment(layout))
    ensures Alignment(layout) % layout.align == 0
    ensures PosixAlignment(Alignment(layout))
  {
    assert IsPowerOfTwo(4) by { assert IsPowerOfTwo(2) by { assert IsPowerOfTwo(1); } }
    assert IsPowerOfTwo(POINTER_SIZE);
    var a := Alignment(layout);
    if layout.align <= POINTER_SIZE {
      PowerOfTwoDivides(layout.align, POINTER_SIZE);
    } else {
      PowerOfTwoDivides(POINTER_SIZE, layout.align);
    }
  }

  /** What `alloc` returns: the pointer (null on failure) and the engine afterwards. */
  datatype Allocation = Allocation(ptr: nat, engine: State)

  /**
   * `alloc(layout)`: exactly one `posix_memalign` call, with the layout's size
   * unchanged and the raised alignment; the engine's pointer is returned when
   * its status is 0 and null otherwise, with no retry.
   */
  function Alloc(e: State, layout: Layout, g: Grant): (r: Allocation)
    requires ValidLayout(layout)
    requires MayAnswer(e, Alignment(layout), g)
    ensures r.engine.log == e.log + [CallPosixMemalign(Alignment(layout), layout.size)]
    ensures r.engine.enabled == e.enabled
    ensures r.ptr != NULL <==> g.Granted?
    ensures r.ptr != NULL ==>
      && r.ptr == g.ptr
      && r.ptr !in e.live
      && r.ptr % layout.align == 0
      && r.ptr % POINTER_SIZE == 0
      && r.engine.live == e.live[r.ptr := layout.size]
    ensures r.ptr == NULL ==> r.engine.live == e.live
    ensures Valid(e) ==> Valid(r.engine)
  {
    AlignmentFloor(layout);
    var m := PosixMemalign(e, NULL, Alignment(layout), layout.size, g);
    if m.status == 0 then
      DividesTransitive(m.memptr, Alignment(layout), layout.align);
      DividesTransitive(m.memptr, Alignment(layout), POINTER_SIZE);
      Allocation(m.memptr, m.engine)
    else
      Allocation(NULL, m.engine)
  }

  /**
   * `dealloc(ptr, layout)`: one `free(ptr)`, with the pointer unchanged and no
   * null check of its own. Null is ignored by the engine, a live pointer is
   * released, and any other pointer makes the engine abort.
   */
  function Dealloc(e: State, ptr: nat, layout: Layout): (r: FreeResult)
    ensures r.Freed? <==> ptr == NULL || ptr in e.live
    ensures r.Freed? ==> r.engine.log == e.log + [CallFree(ptr)] && r.engine.enabled == e.enabled
    ensures r.Freed? && ptr != NULL ==> r.engine.live == e.live - {ptr}
    ensures r.Freed? && ptr == NULL ==> r.engine.live == e.live
    ensures Valid(e) && r.Freed? ==> Valid(r.engine)
  {
    Free(e, ptr)
  }

  /** The layout given to `dealloc` plays no part in what it does. */
  lemma DeallocIgnoresLayout(e: State, ptr: nat, l1: Layout, l2: Layout)
    ensures Dealloc(e, ptr, l1) == Dealloc(e, ptr, l2)
  {
  }

  /** Freeing what `alloc` just returned succeeds and leaves the same live chunks as before. */
  lemma AllocThenDealloc(e: State, layout: Layout, g: Grant)
    requires ValidLayout(layout)
    requires MayAnswer(e, Alignment(layout), g)
    ensures var a := Alloc(e, layout, g);
      var d := Dealloc(a.engine, a.ptr, layout);
      d.Freed? && d.engine.live == e.live
  {
    var a := Alloc(e, layout, g);
    if a.ptr != NULL {
      assert a.engine.live - {a.ptr} == e.live;
    }
  }

  /** `print_stats`: a pass-through that leaves the live chunks and the lock as they were. */
  function PrintStats(e: State): (r: State)
    ensures r.live == e.live && r.enabled == e.enabled
    ensures r.log == e.log + [CallPrintStats]
  {
    ScudoPrintStats(e)
  }

  // ---------------------------------------------------------------------
  // The test helper `count_allocations_by_size`.
  // ---------------------------------------------------------------------

  /** The `contains` callback: its context is (target size, count), bumped on an exact size match. */
  function Contains(pair: (nat, nat), c: Chunk): (r: (nat, nat))
    ensures r.0 == pair.0
    ensures r.1 == pair.1 + 1 <==> c.size == pair.0
    ensures r.1 == pair.1 <==> c.size != pair.0
  {
    if c.size == pair.0 then (pair.0, pair.1 + 1) else pair
  }

  lemma {:induction false} ChunksOfSizeCons(c: Chunk, order: seq<Chunk>, size: nat)
    requires c !in order
    ensures |ChunksOfSize(Elements([c] + order), size)|
         == (if c.size == size then 1 else 0) + |ChunksOfSize(Elements(order), size)|
  {
    var rest := ChunksOfSize(Elements(order), size);
    if c.size == size {
      assert ChunksOfSize(Elements([c] + order), size) == rest + {c};
      assert c !in rest;
    } else {
      assert ChunksOfSize(Elements([c] + order), size) == rest;
    }
  }

  /** Counting with `contains` over an order without repeats counts the distinct chunks of that size. */
  lemma {:induction false} CountByVisit(order: seq<Chunk>, size: nat, count: nat)
    requires NoDuplicates(order)
    ensures Visit(Contains, (size, count), order) == (size, count + |ChunksOfSize(Elements(order), size)|)
    decreases |order|
  {
    if |order| == 0 {
      assert ChunksOfSize(Elements(order), size) == {};
    } else {
      var c := order[0];
      assert order == [c] + order[1..];
      assert c !in order[1..];
      CountByVisit(order[1..], size, Contains((size, count), c).1);
      ChunksOfSizeCons(c, order[1..], size);
    }
  }

  /**
   * `count_allocations_by_size(size)`: disable, iterate over `[0, usize::MAX)`
   * with `contains`, enable. It returns the number of live chunks of exactly
   * that size in the window (in a valid engine, of all live chunks of that
   * size), and leaves the chunks unchanged and the engine enabled.
   */
  function CountAllocationsBySize(e: State, size: nat, order: seq<Chunk>): (r: (nat, State))
    requires Enumerates(e, 0, USIZE_MAX, order)
    ensures r.0 == |ChunksOfSize(WindowChunks(e, 0, USIZE_MAX), size)|
    ensures Valid(e) ==> r.0 == |ChunksOfSize(LiveChunks(e), size)|
    ensures r.1.live == e.live && r.1.enabled
    ensures r.1.log == e.log + LockedTrace(0, USIZE_MAX, order)
  {
    var locked := Disable(e);
    var it := Iterate(locked, 0, USIZE_MAX, Contains, (size, 0), order);
    CountByVisit(order, size, 0);
    if Valid(e) then FullWindow(e); (it.context.1, Enable(it.engine))
    else (it.context.1, Enable(it.engine))
  }

  /** A granted allocation adds one live chunk of its size and none of any other size. */
  lemma AllocAddsOneChunk(e: State, layout: Layout, g: Grant, size: nat)
    requires ValidLayout(layout)
    requires MayAnswer(e, Alignment(layout), g) && g.Granted?
    ensures var a := Alloc(e, layout, g);
      |ChunksOfSize(LiveChunks(a.engine), size)|
        == |ChunksOfSize(LiveChunks(e), size)| + (if size == layout.size then 1 else 0)
  {
    var a := Alloc(e, layout, g);
    var c := Chunk(a.ptr, layout.size);
    LiveChunksInsert(e, a.ptr, layout.size);
    assert a.engine == a.engine.(live := e.live[a.ptr := layout.size]);
    var before := ChunksOfSize(LiveChunks(e), size);
    if size == layout.size {
      assert ChunksOfSize(LiveChunks(a.engine), size) == before + {c};
      assert c !in before;
    } else {
      assert ChunksOfSize(LiveChunks(a.engine), size) == before;
    }
  }

  /** Freeing a live pointer removes one live chunk of its size and none of any other size. */
  lemma DeallocRemovesOneChunk(e: State, ptr: nat, layout: Layout, size: nat)
    requires ptr in e.live && ptr != NULL
    ensures var d := Dealloc(e, ptr, layout);
      d.Freed?
      && |ChunksOfSize(LiveChunks(d.engine), size)|
        == |ChunksOfSize(LiveChunks(e), size)| - (if size == e.live[ptr] then 1 else 0)
  {
    var d := Dealloc(e, ptr, layout);
    var c := Chunk(ptr, e.live[ptr]);
    LiveChunksRemove(e, ptr);
    assert d.engine.live == e.live - {ptr};
    assert LiveChunks(d.engine) == LiveChunks(e.(live := e.live - {ptr}));
    var before := ChunksOfSize(LiveChunks(e), size);
    if size == e.live[ptr] {
      assert ChunksOfSize(LiveChunks(d.engine), size) == before - {c};
      assert c in before;
    } else {
      assert ChunksOfSize(LiveChunks(d.engine), size) == before;
    }
  }

  /**
   * The adapter test: starting with no live 4242-byte chunk, `alloc` of 4242
   * bytes at alignment 16 returns a non-null pointer exactly when the engine
   * grants it, and then the count is 1; `dealloc` with the same layout brings
   * it back to 0. A refusal leaves the count at 0, which is when the test's
   * first assertion fails. This holds whatever order the engine reports
   * chunks in.
   */
  lemma AllocDeallocCountScenario(e: State, g: Grant)
    requires Valid(e)
    requires |ChunksOfSize(LiveChunks(e), 4242)| == 0
    requires MayAnswer(e, Alignment(Layout(4242, 16)), g)
    ensures var a := Alloc(e, Layout(4242, 16), g);
      && (a.ptr != NULL <==> g.Granted?)
      && (forall order :: Enumerates(a.engine, 0, USIZE_MAX, order) ==>
            CountAllocationsBySize(a.engine, 4242, order).0 == (if g.Granted? then 1 else 0))
      && Dealloc(a.engine, a.ptr, Layout(4242, 16)).Freed?
      && (forall order :: Enumerates(Dealloc(a.engine, a.ptr, Layout(4242, 16)).engine, 0, USIZE_MAX, order) ==>
            CountAllocationsBySize(Dealloc(a.engine, a.ptr, Layout(4242, 16)).engine, 4242, order).0 == 0)
  {
    var layout := Layout(4242, 16);
    assert ValidLayout(layout) by {
      assert IsPowerOfTwo(16) by {
        assert IsPowerOfTwo(8) by { assert IsPowerOfTwo(4) by { assert IsPowerOfTwo(2) by { assert IsPowerOfTwo(1); } } }
      }
    }
    var a := Alloc(e, layout, g);
    if g.Granted? {
      AllocAddsOneChunk(e, layout, g, 4242);
      DeallocRemovesOneChunk(a.engine, a.ptr, layout, 4242);
    } else {
      assert LiveChunks(a.engine) == LiveChunks(e);
      var d := Dealloc(a.engine, a.ptr, layout);
      assert LiveChunks(d.engine) == LiveChunks(e);
    }
  }
}
