/**
 * Resource management of src/resource.cc: the growing scratch allocators of ResourceTempSpace, the round-robin
 * counter, and the seeds of ResourceParallelRandom. size_t is 64 bits and uint32_t 32 bits wide.
 */
module Resources {
  import opened Residues

  // ---- Blocks and handles ----

  /** A storage handle; an empty one has size 0. */
  datatype Handle = Handle(block: nat, size: nat)

  const NO_HANDLE := Handle(0, 0)

  /** The storage manager as the allocators see it: live blocks with their sizes, and every block freed so far. */
  datatype Heap = Heap(next: nat, live: map<nat, nat>, freed: seq<nat>)

  const NEW_HEAP := Heap(0, map[], [])

  function Freed(heap: Heap, b: nat): Heap {
    heap.(live := heap.live - {b}, freed := heap.freed + [b])
  }

  function Allocated(heap: Heap, size: nat): Heap {
    heap.(next := heap.next + 1, live := heap.live[heap.next := size])
  }

  /** Blocks are numbered in order of allocation; each is live or was freed, and was freed once. */
  ghost predicate WellKept(heap: Heap) {
    && (forall b: nat :: b < heap.next <==> b in heap.live || b in heap.freed)
    && (forall b :: b in heap.freed ==> b !in heap.live)
    && FreedOnce(heap.freed)
  }

  ghost predicate FreedOnce(freed: seq<nat>) {
    forall i, j :: 0 <= i < j < |freed| ==> freed[i] != freed[j]
  }

  ghost predicate Holds(h: Handle, b: nat) {
    h.size != 0 && h.block == b
  }

  /** Every non-empty handle names a live block of its size. */
  ghost predicate Backed(heap: Heap, hs: seq<Handle>) {
    forall i :: 0 <= i < |hs| && hs[i].size != 0 ==> hs[i].block in heap.live && heap.live[hs[i].block] == hs[i].size
  }

  /** Every live block is named by a non-empty handle. */
  ghost predicate Named(heap: Heap, hs: seq<Handle>) {
    forall b :: b in heap.live ==> exists i :: 0 <= i < |hs| && Holds(hs[i], b)
  }

  /** No block is named by two non-empty handles. */
  ghost predicate Exclusive(hs: seq<Handle>) {
    forall i, j :: 0 <= i < j < |hs| && hs[i].size != 0 && hs[j].size != 0 ==> hs[i].block != hs[j].block
  }

  /** The live blocks are exactly the non-empty handles, one each. */
  ghost predicate Exact(heap: Heap, hs: seq<Handle>) {
    WellKept(heap) && Backed(heap, hs) && Named(heap, hs) && Exclusive(hs)
  }

  lemma FreeKeepsBooks(heap: Heap, b: nat)
    requires WellKept(heap) && b in heap.live
    ensures WellKept(Freed(heap, b))
  {
    var heap' := Freed(heap, b);
    assert heap'.freed[|heap.freed|] == b;
    forall c: nat | c in heap.freed ensures c in heap'.freed {
      var i :| 0 <= i < |heap.freed| && heap.freed[i] == c;
      assert heap'.freed[i] == c;
    }
  }

  /** Freeing the block of one handle and emptying the handle. */
  lemma ReleaseKeepsExact(heap: Heap, hs: seq<Handle>, i: nat)
    requires Exact(heap, hs) && i < |hs| && hs[i].size != 0
    ensures Exact(Freed(heap, hs[i].block), hs[i := NO_HANDLE])
  {
    var heap', hs' := Freed(heap, hs[i].block), hs[i := NO_HANDLE];
    FreeKeepsBooks(heap, hs[i].block);
    forall c | c in heap'.live ensures exists j :: 0 <= j < |hs'| && Holds(hs'[j], c) {
      var j :| 0 <= j < |hs| && Holds(hs[j], c);
      assert Holds(hs'[j], c);
    }
  }

  /** Storing a new block in an empty handle. */
  lemma AllocateKeepsExact(heap: Heap, hs: seq<Handle>, i: nat, size: nat)
    requires Exact(heap, hs) && i < |hs| && hs[i].size == 0 && size > 0
    ensures Exact(Allocated(heap, size), hs[i := Handle(heap.next, size)])
  {
    var heap', hs' := Allocated(heap, size), hs[i := Handle(heap.next, size)];
    assert hs'[i] == Handle(heap.next, size);
    forall c | c in heap'.live ensures exists j :: 0 <= j < |hs'| && Holds(hs'[j], c) {
      if c == heap.next {
        assert Holds(hs'[i], c);
      } else {
        var j :| 0 <= j < |hs| && Holds(hs[j], c);
        assert Holds(hs'[j], c);
      }
    }
  }

  // ---- Temporary space ----

  /** What one request does to the heap and to the handles. */
  datatype Served = Served(heap: Heap, handles: seq<Handle>)

  function Serve(heap: Heap, hs: seq<Handle>, i: nat, size: nat): Served
    requires i < |hs|
  {
    if hs[i].size >= size then Served(heap, hs)
    else
      var h := if hs[i].size != 0 then Freed(heap, hs[i].block) else heap;
      Served(Allocated(h, size), hs[i := Handle(h.next, size)])
  }

  /** The handle is large enough, and unless it is empty it names a live block of its size. */
  ghost predicate Granted(heap: Heap, h: Handle, size: nat) {
    h.size >= size && (h.size > 0 ==> h.block in heap.live && heap.live[h.block] == h.size)
  }

  /**
   * A request keeps the books exact, grants at least the size asked for in a live block, never shrinks the handle,
   * and leaves the other handles and their blocks alone.
   */
  lemma ServeIsSafe(heap: Heap, hs: seq<Handle>, i: nat, size: nat)
    requires Exact(heap, hs) && i < |hs|
    ensures var s := Serve(heap, hs, i, size);
      && Exact(s.heap, s.handles)
      && |s.handles| == |hs|
      && Granted(s.heap, s.handles[i], size)
      && s.handles[i].size >= hs[i].size
      && (hs[i].size >= size ==> s.heap == heap && s.handles == hs)
      && (hs[i].size < size ==> s.handles[i].size == size && s.heap.next == heap.next + 1)
      && (hs[i].size < size ==> s.heap.freed == heap.freed + if hs[i].size != 0 then [hs[i].block] else [])
      && (forall j :: 0 <= j < |hs| && j != i ==> s.handles[j] == hs[j])
  {
    if hs[i].size < size {
      if hs[i].size != 0 {
        ReleaseKeepsExact(heap, hs, i);
        AllocateKeepsExact(Freed(heap, hs[i].block), hs[i := NO_HANDLE], i, size);
        assert hs[i := NO_HANDLE][i := Handle(heap.next, size)] == hs[i := Handle(heap.next, size)];
      } else {
        AllocateKeepsExact(heap, hs, i, size);
      }
    }
  }

  /** Freeing the block of a handle unless the handle is empty. */
  function Release(heap: Heap, hs: seq<Handle>, i: nat): Served
    requires i < |hs|
  {
    if hs[i].size != 0 then Served(Freed(heap, hs[i].block), hs[i := NO_HANDLE]) else Served(heap, hs)
  }

  ghost predicate Emptied(hs: seq<Handle>, i: nat) {
    i < |hs| && hs[i].size == 0
  }

  lemma ReleaseIsSafe(heap: Heap, hs: seq<Handle>, i: nat)
    requires Exact(heap, hs) && i < |hs|
    ensures var s := Release(heap, hs, i);
      && Exact(s.heap, s.handles)
      && |s.handles| == |hs| && s.heap.next == heap.next
      && Emptied(s.handles, i)
      && (forall j :: 0 <= j < |hs| && j != i ==> s.handles[j] == hs[j])
  {
    if hs[i].size != 0 {
      ReleaseKeepsExact(heap, hs, i);
    }
  }

  function ReleaseBoth(heap: Heap, hs: seq<Handle>, i: nat, j: nat): Served
    requires i < |hs| && j < |hs|
  {
    var first := Release(heap, hs, i);
    Release(first.heap, first.handles, j)
  }

  lemma ReleaseBothIsSafe(heap: Heap, hs: seq<Handle>, i: nat, j: nat)
    requires Exact(heap, hs) && i < |hs| && j < |hs|
    ensures var s := ReleaseBoth(heap, hs, i, j);
      && s.heap.next == heap.next
      && (forall k :: 0 <= k < |hs| && (Emptied(hs, k) || k == i || k == j) ==> Emptied(s.handles, k))
  {
    ReleaseIsSafe(heap, hs, i);
    var first := Release(heap, hs, i);
    ReleaseIsSafe(first.heap, first.handles, j);
  }

  /** With every handle empty, every block ever allocated was freed exactly once. */
  lemma EmptyHandlesMeanAllFreed(heap: Heap, hs: seq<Handle>)
    requires Exact(heap, hs) && forall i :: 0 <= i < |hs| ==> Emptied(hs, i)
    ensures AllFreedOnce(heap)
  {
    forall b ensures b !in heap.live {
      assert forall i :: 0 <= i < |hs| ==> Emptied(hs, i) && !Holds(hs[i], b);
    }
  }

  /** Nothing is live and the freed list holds each block ever allocated at one position. */
  ghost predicate AllFreedOnce(heap: Heap) {
    && heap.live == map[]
    && (forall b: nat :: b < heap.next <==> b in heap.freed)
    && FreedOnce(heap.freed)
  }

  /** A request to one of the allocators: GetHostSpace when host, else GetSpace. */
  datatype Request = Request(copy: nat, host: bool, size: nat)

  /** ResourceTempSpace with its allocators: handles[i] and handles[copies + i] are the two handles of space[i]. */
  class TempSpace {
    const copies: nat
    var handles: seq<Handle>
    var heap: Heap
    var counter: nat

    ghost predicate Valid()
      reads this
    {
      0 < copies <= MAX_DIGIT / 2 && |handles| == 2 * copies && Exact(heap, handles) && counter <= MAX_DIGIT
    }

    constructor (copies: nat)
      requires 0 < copies <= MAX_DIGIT / 2
      ensures Valid() && this.copies == copies && heap == NEW_HEAP && counter == 0
      ensures forall i :: 0 <= i < |handles| ==> Emptied(handles, i)
    {
      this.copies := copies;
      handles := seq(2 * copies, _ => NO_HANDLE);
      heap := NEW_HEAP;
      counter := 0;
    }

    method GetSpace(k: nat, size: nat) returns (h: Handle)
      requires Valid() && k < copies
      modifies this`handles, this`heap
      ensures Valid() && Served(heap, handles) == Serve(old(heap), old(handles), k, size)
      ensures h == handles[k] && Granted(heap, h, size)
      ensures old(handles)[k].size >= size ==> h == old(handles)[k] && heap == old(heap)
    {
      ServeIsSafe(heap, handles, k, size);
      if handles[k].size >= size {
        return handles[k];
      }
      if handles[k].size != 0 {
        heap := Freed(heap, handles[k].block);
      }
      h := Handle(heap.next, size);
      heap := Allocated(heap, size);
      handles := handles[k := h];
    }

    method GetHostSpace(k: nat, size: nat) returns (h: Handle)
      requires Valid() && k < copies
      modifies this`handles, this`heap
      ensures Valid() && Served(heap, handles) == Serve(old(heap), old(handles), copies + k, size)
      ensures h == handles[copies + k] && Granted(heap, h, size)
      ensures old(handles)[copies + k].size >= size ==> h == old(handles)[copies + k] && heap == old(heap)
    {
      var i := copies + k;
      ServeIsSafe(heap, handles, i, size);
      if handles[i].size >= size {
        return handles[i];
      }
      if handles[i].size != 0 {
        heap := Freed(heap, handles[i].block);
      }
      h := Handle(heap.next, size);
      heap := Allocated(heap, size);
      handles := handles[i := h];
    }

    /** ReleaseAll of one allocator. */
    method ReleaseAll(k: nat)
      requires Valid() && k < copies
      modifies this`handles, this`heap
      ensures Valid() && Served(heap, handles) == ReleaseBoth(old(heap), old(handles), k, copies + k)
    {
      FreeHandle(k);
      FreeHandle(copies + k);
    }

    method FreeHandle(i: nat)
      requires Valid() && i < |handles|
      modifies this`handles, this`heap
      ensures Valid() && Served(heap, handles) == Release(old(heap), old(handles), i)
    {
      ReleaseIsSafe(heap, handles, i);
      if handles[i].size != 0 {
        heap := Freed(heap, handles[i].block);
        handles := handles[i := NO_HANDLE];
      }
    }

    /** The destructor. */
    method Destroy()
      requires Valid()
      modifies this`handles, this`heap
      ensures AllFreedOnce(heap) && heap.next == old(heap.next)
    {
      for i := 0 to copies
        invariant Valid() && heap.next == old(heap.next)
        invariant forall j :: 0 <= j < i || copies <= j < copies + i ==> Emptied(handles, j)
      {
        ReleaseBothIsSafe(heap, handles, i, copies + i);
        ReleaseAll(i);
      }
      EmptyHandlesMeanAllFreed(heap, handles);
    }

    method GetNext() returns (i: nat)
      requires Valid()
      modifies this`counter
      ensures Valid() && i == Chosen(old(counter), copies) && counter == Advance(old(counter), copies)
    {
      var ptr := Increment(counter);
      counter := ptr;
      if ptr > MAX_DIGIT {
        counter := Increment(ptr) % copies;
      }
      i := ptr % copies;
    }
  }

  /**
   * Any run of requests ended by the destructor: every request is granted enough, nothing stays live, and each of
   * the blocks ever allocated was freed exactly once.
   */
  method Session(copies: nat, requests: seq<Request>) returns (granted: seq<Handle>, heap: Heap)
    requires 0 < copies <= MAX_DIGIT / 2 && forall r :: r in requests ==> r.copy < copies
    ensures |granted| == |requests|
    ensures forall i :: 0 <= i < |requests| ==> granted[i].size >= requests[i].size
    ensures forall i :: 0 <= i < |requests| && requests[i].size > 0 ==> granted[i].block in heap.freed
    ensures AllFreedOnce(heap)
  {
    var space := new TempSpace(copies);
    granted := [];
    for i := 0 to |requests|
      invariant space.Valid() && space.copies == copies
      invariant |granted| == i
      invariant forall j :: 0 <= j < i ==> granted[j].size >= requests[j].size
      invariant forall j :: 0 <= j < i && requests[j].size > 0 ==> granted[j].block < space.heap.next
    {
      var r := requests[i];
      assert r in requests;
      var h;
      if r.host {
        h := space.GetHostSpace(r.copy, r.size);
      } else {
        h := space.GetSpace(r.copy, r.size);
      }
      granted := granted + [h];
    }
    space.Destroy();
    heap := space.heap;
  }

  // ---- The round-robin counter ----

  const TWO_64: nat := 0x1_0000_0000_0000_0000

  /** kMaxDigit: half of the largest size_t. */
  const MAX_DIGIT: nat := 0x7FFF_FFFF_FFFF_FFFF

  /** Adding one to a size_t. */
  function Increment(x: nat): nat {
    if x + 1 < TWO_64 then x + 1 else 0
  }

  /** The resource picked when the counter holds c. */
  function Chosen(c: nat, n: nat): (i: nat)
    requires n > 0
    ensures i < n
  {
    Increment(c) % n
  }

  /** The counter afterwards. */
  function Advance(c: nat, n: nat): (r: nat)
    requires n > 0
    ensures c <= MAX_DIGIT && n <= MAX_DIGIT ==> r <= MAX_DIGIT
  {
    var ptr := Increment(c);
    if ptr > MAX_DIGIT then Increment(ptr) % n else ptr
  }

  /** The counter after k requests. */
  function CounterAfter(c: nat, n: nat, k: nat): nat
    requires n > 0
  {
    if k == 0 then c else Advance(CounterAfter(c, n, k - 1), n)
  }

  /** The resource given to the request number k, counted from 0. */
  function Picked(c: nat, n: nat, k: nat): nat
    requires n > 0
  {
    Chosen(CounterAfter(c, n, k), n)
  }

  /** The counter is never left above kMaxDigit, so the incremented value is at most kMaxDigit + 1. */
  lemma {:induction false} CounterStaysInRange(c: nat, n: nat, k: nat)
    requires 0 < n <= MAX_DIGIT && c <= MAX_DIGIT
    ensures CounterAfter(c, n, k) <= MAX_DIGIT
    ensures Picked(c, n, k) == (CounterAfter(c, n, k) + 1) % n
  {
    if k > 0 {
      CounterStaysInRange(c, n, k - 1);
    }
  }

  lemma {:induction false} CounterBeforeReset(c: nat, n: nat, k: nat)
    requires 0 < n && c + k <= MAX_DIGIT
    ensures CounterAfter(c, n, k) == c + k && Picked(c, n, k) == (c + k + 1) % n
  {
    if k > 0 {
      CounterBeforeReset(c, n, k - 1);
    }
  }

  /** From the reset on, the counter runs one ahead: the pick that was due is passed over. */
  lemma {:induction false} CounterAfterReset(c: nat, n: nat, t: nat)
    requires 0 < n && c <= MAX_DIGIT && n + t <= MAX_DIGIT
    ensures CounterAfter(c, n, MAX_DIGIT + 1 - c + t) == (MAX_DIGIT + 2) % n + t
    ensures Picked(c, n, MAX_DIGIT + 1 - c + t) == (MAX_DIGIT + 3 + t) % n
  {
    if t == 0 {
      CounterBeforeReset(c, n, MAX_DIGIT - c);
    } else {
      CounterAfterReset(c, n, t - 1);
    }
    ResidueShift(MAX_DIGIT + 2, t + 1, n);
  }

  ghost predicate Visited(c: nat, n: nat, r: nat)
    requires n > 0
  {
    exists k :: 0 <= k < n && Picked(c, n, k) == r
  }

  /** Starting from any counter the code can leave, n requests reach all n resources iff none but the last resets. */
  lemma RoundVisitsAllIff(c: nat, n: nat)
    requires 0 < n <= MAX_DIGIT / 2 && c <= MAX_DIGIT
    ensures (forall r :: 0 <= r < n ==> Visited(c, n, r)) <==> c + n <= MAX_DIGIT + 1
  {
    if c + n <= MAX_DIGIT + 1 {
      forall r | 0 <= r < n ensures Visited(c, n, r) {
        var d := ResidueOccurs(c + 1, n, r);
        CounterBeforeReset(c, n, d);
      }
    } else {
      ResetSkipsResource(c, n);
    }
  }

  /** A round interrupted by the reset never gives out resource (kMaxDigit + 2) mod n. */
  lemma ResetSkipsResource(c: nat, n: nat)
    requires 0 < n <= MAX_DIGIT / 2 && c <= MAX_DIGIT && c + n > MAX_DIGIT + 1
    ensures !Visited(c, n, (MAX_DIGIT + 2) % n)
  {
    forall k | 0 <= k < n ensures Picked(c, n, k) != (MAX_DIGIT + 2) % n {
      if c + k <= MAX_DIGIT {
        CounterBeforeReset(c, n, k);
        NearResiduesDiffer(c + k + 1, MAX_DIGIT + 2, n);
      } else {
        var t := c + k - MAX_DIGIT - 1;
        CounterAfterReset(c, n, t);
        NearResiduesDiffer(MAX_DIGIT + 2, MAX_DIGIT + 3 + t, n);
      }
    }
  }

  /** Within such a round no resource is given out twice. */
  lemma RoundRepeatsNothing(c: nat, n: nat, j: nat, k: nat)
    requires 0 < n && j < k < n && c + k <= MAX_DIGIT
    ensures Picked(c, n, j) != Picked(c, n, k)
  {
    CounterBeforeReset(c, n, j);
    CounterBeforeReset(c, n, k);
    NearResiduesDiffer(c + j + 1, c + k + 1, n);
  }

  // ---- Seeds ----

  const TWO_32: nat := 0x1_0000_0000
  const MAX_GPUS: nat := 16
  const RAND_MAGIC: nat := 127

  /** The seed of sampler i on a device. */
  function SeedOf(dev: nat, i: nat, g: nat): nat {
    (dev + i * MAX_GPUS + g * RAND_MAGIC) % TWO_32
  }

  /** The seed formula: the device number to begin with, 16 more for the next copy, 127 more for the next seed. */
  lemma SeedLaw(dev: nat, i: nat, g: nat)
    ensures dev < TWO_32 ==> SeedOf(dev, 0, 0) == dev
    ensures SeedOf(dev, i + 1, g) == (SeedOf(dev, i, g) + 16) % 0x1_0000_0000
    ensures SeedOf(dev, i, g + 1) == (SeedOf(dev, i, g) + 127) % 0x1_0000_0000
  {
    ResidueShift(dev + i * MAX_GPUS + g * RAND_MAGIC, 16, TWO_32);
    ResidueShift(dev + i * MAX_GPUS + g * RAND_MAGIC, 127, TWO_32);
  }

  lemma ResiduesAgree(a: nat, b: nat, n: nat) returns (k: nat)
    requires n > 0 && a <= b && a % n == b % n
    ensures b - a == k * n
  {
    k := b / n - a / n;
    assert b == b / n * n + b % n && a == a / n * n + a % n;
  }

  /** Samplers of different devices or copies never share a seed, exactly as long as there are at most 2^28 copies. */
  lemma SeedsDistinctIff(copies: nat, g: nat)
    ensures copies <= TWO_32 / MAX_GPUS <==>
      forall d, i, e, j ::
        (0 <= d < MAX_GPUS && 0 <= e < MAX_GPUS && 0 <= i < copies && 0 <= j < copies
        && SeedOf(d, i, g) == SeedOf(e, j, g)) ==> d == e && i == j
  {
    if copies <= TWO_32 / MAX_GPUS {
      forall d, i, e, j | 0 <= d < MAX_GPUS && 0 <= e < MAX_GPUS && 0 <= i < copies && 0 <= j < copies
        && SeedOf(d, i, g) == SeedOf(e, j, g)
        ensures d == e && i == j
      {
        if d + i * MAX_GPUS <= e + j * MAX_GPUS {
          EqualSeedsEqualSamplers(d, i, e, j, g);
        } else {
          EqualSeedsEqualSamplers(e, j, d, i, g);
        }
      }
    } else {
      assert SeedOf(0, 0, g) == SeedOf(0, TWO_32 / MAX_GPUS, g);
    }
  }

  lemma EqualSeedsEqualSamplers(d: nat, i: nat, e: nat, j: nat, g: nat)
    requires d < MAX_GPUS && e < MAX_GPUS && i < TWO_32 / MAX_GPUS && j < TWO_32 / MAX_GPUS
    requires d + i * MAX_GPUS <= e + j * MAX_GPUS
    requires SeedOf(d, i, g) == SeedOf(e, j, g)
    ensures d == e && i == j
  {
    var k := ResiduesAgree(d + i * MAX_GPUS + g * RAND_MAGIC, e + j * MAX_GPUS + g * RAND_MAGIC, TWO_32);
    assert k == 0;
  }

  /** 127 is invertible modulo 2^32, with the inverse 4024418175: 127 * 4024418175 == 119 * 2^32 + 1. */
  lemma MagicIsInvertible(d: nat, k: nat)
    requires d * RAND_MAGIC == k * TWO_32
    ensures d == (4024418175 * k - 119 * d) * TWO_32
  {
  }

  /** Different 32-bit global seeds give a sampler different seeds. */
  lemma GlobalSeedsDistinct(dev: nat, i: nat, g: nat, h: nat)
    requires g <= h < TWO_32 && SeedOf(dev, i, g) == SeedOf(dev, i, h)
    ensures g == h
  {
    var base := dev + i * MAX_GPUS;
    var k := ResiduesAgree(base + g * RAND_MAGIC, base + h * RAND_MAGIC, TWO_32);
    MagicIsInvertible(h - g, k);
  }

  /** The seeds of all samplers of a device, in order. */
  function AllSeeds(dev: nat, n: nat, g: nat): seq<nat> {
    seq(n, i requires 0 <= i => SeedOf(dev, i, g))
  }

  /** What one request hands out: the sampler's index and the seed it was last given. */
  datatype Draw = Draw(index: nat, seed: nat)

  /** The first k draws after reseeding with g: they depend on nothing that happened before. */
  function DrawsAfterSeeding(dev: nat, n: nat, g: nat, k: nat): seq<Draw>
    requires n > 0
  {
    seq(k, j requires 0 <= j => Draw(Picked(0, n, j), SeedOf(dev, Picked(0, n, j), g)))
  }

  /** ResourceParallelRandom: the seed each sampler was last given, and the round-robin counter. */
  class ParallelRandom {
    const dev: nat
    var seeds: seq<nat>
    var counter: nat

    ghost predicate Valid()
      reads this
    {
      0 < |seeds| <= MAX_DIGIT / 2 && counter <= MAX_DIGIT
    }

    constructor (dev: nat, copies: nat, g: nat)
      requires 0 < copies <= MAX_DIGIT / 2
      ensures Valid() && this.dev == dev && counter == 0 && seeds == AllSeeds(dev, copies, g)
    {
      this.dev := dev;
      var made := [];
      for i := 0 to copies
        invariant made == AllSeeds(dev, i, g)
      {
        made := made + [SeedOf(dev, i, g)];
      }
      seeds := made;
      counter := 0;
    }

    method SeedWithDeviceID(g: nat)
      requires Valid()
      modifies this
      ensures Valid() && counter == 0 && seeds == AllSeeds(dev, old(|seeds|), g)
    {
      Reseed(dev, g);
    }

    /** Seed: the same without the device number. */
    method Seed(seed: nat)
      requires Valid()
      modifies this
      ensures Valid() && counter == 0 && seeds == AllSeeds(0, old(|seeds|), seed)
    {
      Reseed(0, seed);
    }

    method Reseed(offset: nat, g: nat)
      requires Valid()
      modifies this
      ensures Valid() && counter == 0 && seeds == AllSeeds(offset, old(|seeds|), g)
    {
      for i := 0 to |seeds|
        invariant |seeds| == old(|seeds|) && counter == old(counter)
        invariant seeds[..i] == AllSeeds(offset, i, g)
      {
        seeds := seeds[i := SeedOf(offset, i, g)];
      }
      assert seeds[..|seeds|] == seeds;
      counter := 0;
    }

    method GetNext() returns (draw: Draw)
      requires Valid()
      modifies this`counter
      ensures Valid() && counter == Advance(old(counter), |seeds|)
      ensures draw.index == Chosen(old(counter), |seeds|) < |seeds| && draw.seed == seeds[draw.index]
    {
      var ptr := Increment(counter);
      counter := ptr;
      if ptr > MAX_DIGIT {
        counter := Increment(ptr) % |seeds|;
      }
      draw := Draw(ptr % |seeds|, seeds[ptr % |seeds|]);
    }

    /** The next k requests after a reseeding. */
    method DrawMany(ghost offset: nat, ghost g: nat, k: nat) returns (draws: seq<Draw>)
      requires Valid() && counter == 0 && seeds == AllSeeds(offset, |seeds|, g)
      modifies this`counter
      ensures Valid() && draws == DrawsAfterSeeding(offset, |seeds|, g, k)
    {
      draws := [];
      for j := 0 to k
        invariant Valid() && counter == CounterAfter(0, |seeds|, j)
        invariant draws == DrawsAfterSeeding(offset, |seeds|, g, j)
      {
        var draw := GetNext();
        draws := draws + [draw];
      }
    }

    /** Reseeding and then drawing gives the same samplers and seeds whatever was done before. */
    method SeedAndDraw(g: nat, k: nat) returns (draws: seq<Draw>)
      requires Valid()
      modifies this
      ensures Valid() && |seeds| == old(|seeds|)
      ensures draws == DrawsAfterSeeding(dev, |seeds|, g, k)
    {
      SeedWithDeviceID(g);
      draws := DrawMany(dev, g, k);
    }

    /** The same for the seeding of one context; the samplers of all devices are then given the same seeds. */
    method ContextSeedAndDraw(seed: nat, k: nat) returns (draws: seq<Draw>)
      requires Valid()
      modifies this
      ensures Valid() && |seeds| == old(|seeds|)
      ensures draws == DrawsAfterSeeding(0, |seeds|, seed, k)
    {
      Seed(seed);
      draws := DrawMany(0, seed, k);
    }
  }
}
