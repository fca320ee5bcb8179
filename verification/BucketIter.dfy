/**
 * BucketSentenceIter of example/bi-lstm-sort/sort_io.py: sentences are put in buckets by length, each bucket is cut
 * to a multiple of the batch size, and an epoch walks a shuffled plan of bucket numbers. The two random choices are
 * parameters: a shuffle of the plan, and one permutation of the rows for every bucket.
 */
module BucketIter {
  import opened Basics
  import opened BucketRows

  // ---- The plan ----

  ghost predicate IsShuffle<T>(a: seq<T>, b: seq<T>) {
    multiset(a) == multiset(b)
  }

  /** How often x occurs. */
  function Count(s: seq<nat>, x: nat): nat {
    if s == [] then 0 else Count(s[..|s| - 1], x) + if s[|s| - 1] == x then 1 else 0
  }

  lemma {:induction false} CountIsMultiplicity(s: seq<nat>, x: nat)
    ensures Count(s, x) == multiset(s)[x]
  {
    if s != [] {
      CountIsMultiplicity(s[..|s| - 1], x);
      assert s == s[..|s| - 1] + [s[|s| - 1]];
    }
  }

  lemma {:induction false} CountInPrefix(s: seq<nat>, n: nat, x: nat)
    requires n <= |s|
    ensures Count(s[..n], x) <= Count(s, x)
    ensures n < |s| && s[n] == x ==> Count(s[..n], x) < Count(s, x)
    decreases |s|
  {
    if n == |s| {
      assert s[..n] == s;
    } else {
      assert s[..|s| - 1][..n] == s[..n];
      CountInPrefix(s[..|s| - 1], n, x);
      if n == |s| - 1 {
        assert s[..n] == s[..|s| - 1];
      }
    }
  }

  /** n copies of i. */
  function Repeat(i: nat, n: nat): seq<nat> {
    seq(n, _ => i)
  }

  lemma {:induction false} CountRepeat(s: seq<nat>, i: nat, n: nat, x: nat)
    ensures Count(s + Repeat(i, n), x) == Count(s, x) + if x == i then n else 0
  {
    var t := s + Repeat(i, n);
    if n == 0 {
      assert t == s;
    } else {
      CountRepeat(s, i, n - 1, x);
      assert t[..|t| - 1] == s + Repeat(i, n - 1);
    }
  }

  /** Bucket 0 n[0] times, then bucket 1 n[1] times, and so on. */
  function Blocks(n: seq<nat>): seq<nat> {
    if n == [] then [] else Blocks(n[..|n| - 1]) + Repeat(|n| - 1, n[|n| - 1])
  }

  lemma {:induction false} CountBlocks(n: seq<nat>, i: nat)
    ensures Count(Blocks(n), i) == if i < |n| then n[i] else 0
  {
    if n != [] {
      CountBlocks(n[..|n| - 1], i);
      CountRepeat(Blocks(n[..|n| - 1]), |n| - 1, n[|n| - 1], i);
    }
  }

  lemma ShuffleCounts(plan: seq<nat>, n: seq<nat>, i: nat)
    requires IsShuffle(plan, Blocks(n))
    ensures Count(plan, i) == if i < |n| then n[i] else 0
  {
    CountIsMultiplicity(plan, i);
    CountIsMultiplicity(Blocks(n), i);
    CountBlocks(n, i);
  }

  // ---- Gathering rows by a permutation ----

  predicate InRange(idx: seq<nat>, n: nat) {
    forall k :: 0 <= k < |idx| ==> idx[k] < n
  }

  function Gather(rows: seq<Row>, idx: seq<nat>): (r: seq<Row>)
    requires InRange(idx, |rows|)
    ensures |r| == |idx| && forall k :: 0 <= k < |idx| ==> r[k] == rows[idx[k]]
  {
    seq(|idx|, k requires 0 <= k < |idx| => rows[idx[k]])
  }

  /** Gathering in another order of the same indices gives the same rows as often. */
  lemma {:induction false} GatherShuffled(rows: seq<Row>, a: seq<nat>, b: seq<nat>)
    requires IsShuffle(a, b) && InRange(a, |rows|) && InRange(b, |rows|)
    ensures multiset(Gather(rows, a)) == multiset(Gather(rows, b))
    decreases |a|
  {
    if a == [] {
      assert |multiset(b)| == |multiset(a)| == 0;
      assert a == b;
    } else {
      var k := Position(a, b);
      var rest := b[..k] + b[k + 1..];
      GatherShuffled(rows, a[1..], rest);
      GatherSplits(rows, a, 0, a[1..]);
      GatherSplits(rows, b, k, rest);
    }
  }

  /** Where the first element of a is in b; without it both still hold the same. */
  lemma Position(a: seq<nat>, b: seq<nat>) returns (k: nat)
    requires a != [] && IsShuffle(a, b)
    ensures k < |b| && b[k] == a[0] && IsShuffle(a[1..], b[..k] + b[k + 1..])
  {
    assert a[0] in b by {
      assert a[0] in multiset(a);
    }
    k :| 0 <= k < |b| && b[k] == a[0];
    RemoveAt(a, 0, a[1..]);
    RemoveAt(b, k, b[..k] + b[k + 1..]);
  }

  lemma RemoveAt(s: seq<nat>, k: nat, rest: seq<nat>)
    requires k < |s| && rest == s[..k] + s[k + 1..]
    ensures multiset(rest) == multiset(s) - multiset{s[k]}
  {
    assert s == s[..k] + [s[k]] + s[k + 1..];
  }

  lemma GatherSplits(rows: seq<Row>, s: seq<nat>, k: nat, rest: seq<nat>)
    requires InRange(s, |rows|) && k < |s| && rest == s[..k] + s[k + 1..]
    ensures InRange(rest, |rows|)
    ensures multiset(Gather(rows, s)) == multiset([rows[s[k]]]) + multiset(Gather(rows, rest))
  {
    var left, right := s[..k], s[k + 1..];
    assert Gather(rows, s) == Gather(rows, left) + [rows[s[k]]] + Gather(rows, right);
    assert Gather(rows, rest) == Gather(rows, left) + Gather(rows, right);
  }

  /** Gathering by a permutation of all row numbers gives every row exactly once. */
  lemma PermutationGathersAll(rows: seq<Row>, idx: seq<nat>)
    requires IsShuffle(idx, UpTo(|rows|))
    ensures |idx| == |rows| && InRange(idx, |rows|)
    ensures multiset(Gather(rows, idx)) == multiset(rows)
  {
    assert |multiset(idx)| == |multiset(UpTo(|rows|))|;
    forall k | 0 <= k < |idx| ensures idx[k] < |rows| {
      assert idx[k] in multiset(idx);
      assert idx[k] in UpTo(|rows|);
    }
    GatherShuffled(rows, idx, UpTo(|rows|));
    assert Gather(rows, UpTo(|rows|)) == rows;
  }

  // ---- The iterator ----

  /** One yielded batch: the bucket it came from, its rows and its labels. */
  datatype Batch = Batch(bucket: nat, rows: seq<Row>, labels: seq<Row>)

  /** The number of whole batches in n rows. */
  function Whole(n: nat, batchSize: nat): (q: nat)
    requires batchSize > 0
    ensures q * batchSize <= n < q * batchSize + batchSize
  {
    assert n == n / batchSize * batchSize + n % batchSize;
    n / batchSize
  }

  lemma MoreBatches(c: nat, n: nat, batchSize: nat)
    requires c < n
    ensures c * batchSize + batchSize <= n * batchSize
  {
    assert (n - c - 1) * batchSize >= 0;
  }

  /** A full batch whose labels are its rows, each one sorted. */
  ghost predicate WellFormed(batch: Batch, batchSize: nat) {
    && |batch.rows| == |batch.labels| == batchSize
    && forall k :: 0 <= k < batchSize ==> Ascending(batch.labels[k]) && IsShuffle(batch.labels[k], batch.rows[k])
  }

  /** The rows that the batches of bucket i delivered, in order. */
  function Delivered(batches: seq<Batch>, i: nat): seq<Row> {
    if batches == [] then [] else
    var last := batches[|batches| - 1];
    Delivered(batches[..|batches| - 1], i) + if last.bucket == i then last.rows else []
  }

  /** What one pass over the plan must deliver: full batches, and every kept row of every bucket exactly once. */
  ghost predicate FullEpoch(data: seq<seq<Row>>, batchSize: nat, plan: seq<nat>, batches: seq<Batch>) {
    && |batches| == |plan| && Follows(batches, plan, batchSize)
    && (forall i :: 0 <= i < |data| ==> multiset(Delivered(batches, i)) == multiset(data[i]))
  }

  method LabelRows(rows: seq<Row>) returns (labels: seq<Row>)
    ensures |labels| == |rows|
    ensures forall k :: 0 <= k < |rows| ==> Ascending(labels[k]) && IsShuffle(labels[k], rows[k])
  {
    labels := [];
    for k := 0 to |rows|
      invariant |labels| == k
      invariant forall j :: 0 <= j < k ==> Ascending(labels[j]) && IsShuffle(labels[j], rows[j])
    {
      labels := labels + [Sorted(rows[k])];
    }
  }

  /** Each bucket holds n[i] whole batches, the plan names it n[i] times, and its order is a permutation of its rows. */
  ghost predicate Planned(data: seq<seq<Row>>, batchSize: nat, n: seq<nat>, plan: seq<nat>, order: seq<seq<nat>>) {
    && |n| == |order| == |data|
    && (forall i :: 0 <= i < |data| ==> |data[i]| == n[i] * batchSize && IsShuffle(order[i], UpTo(|data[i]|)))
    && IsShuffle(plan, Blocks(n))
  }

  /** Every bucket the plan names exists. */
  lemma PlanInRange(n: seq<nat>, plan: seq<nat>, t: nat)
    requires IsShuffle(plan, Blocks(n)) && t < |plan|
    ensures plan[t] < |n|
  {
    ShuffleCounts(plan, n, plan[t]);
    CountInPrefix(plan, t, plan[t]);
  }

  /** After t steps of the plan bucket i has been read up to cursor[i]. */
  ghost predicate CursorAt(batchSize: nat, plan: seq<nat>, t: nat, cursor: seq<nat>) {
    t <= |plan| && forall i :: 0 <= i < |cursor| ==> cursor[i] == Count(plan[..t], i) * batchSize
  }

  /** When the plan reaches a bucket, the bucket has a full batch left. */
  lemma SliceIsFull(
    data: seq<seq<Row>>, batchSize: nat, n: seq<nat>, plan: seq<nat>, order: seq<seq<nat>>, t: nat,
    cursor: seq<nat>)
    requires Planned(data, batchSize, n, plan, order) && t < |plan| && |cursor| == |data|
    requires CursorAt(batchSize, plan, t, cursor)
    ensures plan[t] < |data| && cursor[plan[t]] + batchSize <= |order[plan[t]]| == |data[plan[t]]|
    ensures InRange(order[plan[t]], |data[plan[t]]|)
  {
    var i := plan[t];
    PlanInRange(n, plan, t);
    ShuffleCounts(plan, n, i);
    CountInPrefix(plan, t, i);
    PermutationGathersAll(data[i], order[i]);
    MoreBatches(Count(plan[..t], i), n[i], batchSize);
  }

  lemma CursorMoves(batchSize: nat, plan: seq<nat>, t: nat, cursor: seq<nat>)
    requires t < |plan| && CursorAt(batchSize, plan, t, cursor) && plan[t] < |cursor|
    ensures CursorAt(batchSize, plan, t + 1, cursor[plan[t] := cursor[plan[t]] + batchSize])
  {
    assert plan[..t + 1][..t] == plan[..t];
    NextMultiple(Count(plan[..t], plan[t]), batchSize);
  }

  lemma NextMultiple(c: nat, batchSize: nat)
    ensures (c + 1) * batchSize == c * batchSize + batchSize
  {
  }

  /** Bucket i has delivered its rows in the given order up to its cursor. */
  ghost predicate Progress(rows: seq<Row>, order: seq<nat>, cursor: nat, delivered: seq<Row>) {
    InRange(order, |rows|) && cursor <= |order| && delivered == Gather(rows, order[..cursor])
  }

  lemma ProgressGrows(rows: seq<Row>, order: seq<nat>, cursor: nat, size: nat, delivered: seq<Row>)
    requires Progress(rows, order, cursor, delivered) && cursor + size <= |order|
    ensures Progress(rows, order, cursor + size, delivered + Gather(rows, order[cursor..cursor + size]))
  {
    assert order[..cursor + size] == order[..cursor] + order[cursor..cursor + size];
  }

  ghost predicate AllProgress(data: seq<seq<Row>>, order: seq<seq<nat>>, cursor: seq<nat>, batches: seq<Batch>) {
    |data| == |order| == |cursor|
    && forall i :: 0 <= i < |data| ==> Progress(data[i], order[i], cursor[i], Delivered(batches, i))
  }

  /** Yielding the next slice of bucket b. */
  lemma YieldKeepsProgress(
    data: seq<seq<Row>>, order: seq<seq<nat>>, cursor: seq<nat>, batches: seq<Batch>, b: nat, size: nat, batch: Batch)
    requires AllProgress(data, order, cursor, batches) && b < |data|
    requires batch.bucket == b && IsSlice(data[b], order[b], cursor[b], size, batch)
    ensures AllProgress(data, order, cursor[b := cursor[b] + size], batches + [batch])
  {
    var batches' := batches + [batch];
    assert batches'[..|batches'| - 1] == batches;
    ProgressGrows(data[b], order[b], cursor[b], size, Delivered(batches, b));
    forall i | 0 <= i < |data| && i != b ensures Delivered(batches', i) == Delivered(batches, i) {
    }
  }

  /** At the end of the plan every cursor is at the end of its bucket. */
  lemma PlanEndsAtBucketEnds(
    data: seq<seq<Row>>, batchSize: nat, n: seq<nat>, plan: seq<nat>, order: seq<seq<nat>>, cursor: seq<nat>)
    requires Planned(data, batchSize, n, plan, order) && |cursor| == |data|
    requires CursorAt(batchSize, plan, |plan|, cursor)
    ensures forall i :: 0 <= i < |data| ==> cursor[i] == |data[i]|
  {
    assert plan[..|plan|] == plan;
    forall i | 0 <= i < |data| ensures cursor[i] == |data[i]| {
      ShuffleCounts(plan, n, i);
    }
  }

  lemma FullProgressDeliversAll(rows: seq<Row>, order: seq<nat>, delivered: seq<Row>)
    requires IsShuffle(order, UpTo(|rows|)) && Progress(rows, order, |rows|, delivered)
    ensures multiset(delivered) == multiset(rows)
  {
    PermutationGathersAll(rows, order);
    assert order[..|rows|] == order;
  }

  lemma EpochIsFull(
    data: seq<seq<Row>>, batchSize: nat, n: seq<nat>, plan: seq<nat>, order: seq<seq<nat>>, cursor: seq<nat>,
    batches: seq<Batch>)
    requires Planned(data, batchSize, n, plan, order)
    requires Walked(data, batchSize, plan, order, cursor, batches)
    requires |batches| == |plan| && Follows(batches, plan, batchSize)
    ensures FullEpoch(data, batchSize, plan, batches)
    ensures forall i :: 0 <= i < |data| ==> cursor[i] == |data[i]|
  {
    PlanEndsAtBucketEnds(data, batchSize, n, plan, order, cursor);
    forall i | 0 <= i < |data| ensures multiset(Delivered(batches, i)) == multiset(data[i]) {
      FullProgressDeliversAll(data[i], order[i], Delivered(batches, i));
    }
  }

  lemma StartOfEpoch(
    data: seq<seq<Row>>, batchSize: nat, n: seq<nat>, plan: seq<nat>, order: seq<seq<nat>>, cursor: seq<nat>)
    requires Planned(data, batchSize, n, plan, order)
    requires |cursor| == |data| && forall i :: 0 <= i < |cursor| ==> cursor[i] == 0
    ensures Walked(data, batchSize, plan, order, cursor, [])
  {
    forall i | 0 <= i < |data| ensures Progress(data[i], order[i], cursor[i], []) {
      PermutationGathersAll(data[i], order[i]);
    }
  }

  /** After t steps bucket i has been read Count(plan[..t], i) times more, and each time it had rows left. */
  ghost predicate ReadAlong(plan: seq<nat>, t: nat, n: seq<nat>, before: seq<nat>, read: seq<nat>)
    requires t <= |plan|
  {
    && |before| == |read| == |n|
    && forall i :: 0 <= i < |n| ==>
         && read[i] == before[i] + Count(plan[..t], i)
         && (Count(plan[..t], i) > 0 ==> read[i] <= n[i])
  }

  lemma ReadNext(plan: seq<nat>, t: nat, n: seq<nat>, before: seq<nat>, read: seq<nat>)
    requires t < |plan| && ReadAlong(plan, t, n, before, read) && plan[t] < |n|
    ensures read[plan[t]] < n[plan[t]] ==> ReadAlong(plan, t + 1, n, before, read[plan[t] := read[plan[t]] + 1])
  {
    assert plan[..t + 1][..t] == plan[..t];
  }

  /** A walk that meets an exhausted bucket had begun with that bucket partly read. */
  lemma ExhaustedWasRead(plan: seq<nat>, t: nat, n: seq<nat>, before: seq<nat>, read: seq<nat>)
    requires t < |plan| && IsShuffle(plan, Blocks(n)) && ReadAlong(plan, t, n, before, read)
    ensures plan[t] < |n| && (read[plan[t]] >= n[plan[t]] ==> !NoBatchRead(n, before))
  {
    PlanInRange(n, plan, t);
    ShuffleCounts(plan, n, plan[t]);
    CountInPrefix(plan, t, plan[t]);
  }

  /** A whole walk had begun with no bucket partly read. */
  lemma WholeWalkWasFresh(plan: seq<nat>, n: seq<nat>, before: seq<nat>, read: seq<nat>)
    requires IsShuffle(plan, Blocks(n)) && ReadAlong(plan, |plan|, n, before, read)
    ensures NoBatchRead(n, before)
  {
    assert plan[..|plan|] == plan;
    forall i | 0 <= i < |n| && n[i] > 0 ensures before[i] == 0 {
      ShuffleCounts(plan, n, i);
    }
  }

  /** How many batches of each bucket have been read after t steps of the plan. */
  ghost function ReadsAfter(plan: seq<nat>, t: nat, first: seq<nat>): (r: seq<nat>)
    requires t <= |plan| && InRange(plan, |first|)
    ensures |r| == |first|
  {
    if t == 0 then first else
    OneMore(ReadsAfter(plan, t - 1, first), plan[t - 1])
  }

  ghost function OneMore(read: seq<nat>, b: nat): (r: seq<nat>)
    requires b < |read|
    ensures |r| == |read|
  {
    read[b := read[b] + 1]
  }

  /** In each of the first t steps the bucket had a batch left. */
  ghost predicate Served(plan: seq<nat>, t: nat, n: seq<nat>, first: seq<nat>)
    requires t <= |plan| && InRange(plan, |first|) && |n| == |first|
  {
    t == 0 ||
    (Served(plan, t - 1, n, first) && ReadsAfter(plan, t - 1, first)[plan[t - 1]] < n[plan[t - 1]])
  }

  lemma OneMoreRead(plan: seq<nat>, t: nat, first: seq<nat>, before: seq<nat>, read: seq<nat>)
    requires t < |plan| && InRange(plan, |first|) && Same(before, ReadsAfter(plan, t, first))
    requires Same(read, OneMore(before, plan[t]))
    ensures Same(read, ReadsAfter(plan, t + 1, first))
  {
  }

  lemma {:induction false} ServedReads(plan: seq<nat>, t: nat, n: seq<nat>, first: seq<nat>)
    requires t <= |plan| && InRange(plan, |first|) && |n| == |first| && Served(plan, t, n, first)
    ensures ReadAlong(plan, t, n, first, ReadsAfter(plan, t, first))
  {
    if t > 0 {
      ServedReads(plan, t - 1, n, first);
      ReadNext(plan, t - 1, n, first, ReadsAfter(plan, t - 1, first));
    }
  }

  /** A walk begun with no bucket partly read always finds a batch. */
  lemma {:induction false} FreshIsServed(plan: seq<nat>, t: nat, n: seq<nat>, first: seq<nat>)
    requires t <= |plan| && InRange(plan, |first|) && |n| == |first| && IsShuffle(plan, Blocks(n))
    ensures NoBatchRead(n, first) ==> Served(plan, t, n, first)
  {
    if t > 0 && NoBatchRead(n, first) {
      FreshIsServed(plan, t - 1, n, first);
      ServedReads(plan, t - 1, n, first);
      ExhaustedWasRead(plan, t - 1, n, first, ReadsAfter(plan, t - 1, first));
    }
  }

  /** A walk that always found a batch was begun with no bucket partly read. */
  lemma ServedWasFresh(plan: seq<nat>, n: seq<nat>, first: seq<nat>)
    requires InRange(plan, |first|) && |n| == |first| && IsShuffle(plan, Blocks(n))
    ensures Served(plan, |plan|, n, first) ==> NoBatchRead(n, first)
  {
    if Served(plan, |plan|, n, first) {
      ServedReads(plan, |plan|, n, first);
      WholeWalkWasFresh(plan, n, first, ReadsAfter(plan, |plan|, first));
    }
  }

  lemma PlanStaysInRange(n: seq<nat>, plan: seq<nat>)
    requires IsShuffle(plan, Blocks(n))
    ensures InRange(plan, |n|)
  {
    forall t | 0 <= t < |plan| ensures plan[t] < |n| {
      PlanInRange(n, plan, t);
    }
  }

  function Min(a: nat, b: nat): nat {
    if a <= b then a else b
  }

  /** The batch holds the rows that order lists from position at on. */
  ghost predicate IsSlice(rows: seq<Row>, order: seq<nat>, at: nat, size: nat, batch: Batch) {
    InRange(order, |rows|) && at + size <= |order| && batch.rows == Gather(rows, order[at..at + size])
  }

  /** Bucket i has been read in whole batches, read[i] of them, so its next slice is a full batch or empty. */
  ghost predicate AtBoundaries(cursor: seq<nat>, read: seq<nat>, batchSize: nat) {
    |read| == |cursor| && forall i :: 0 <= i < |cursor| ==> cursor[i] == read[i] * batchSize
  }

  lemma FullOrEmpty(c: nat, n: nat, batchSize: nat)
    requires batchSize > 0
    ensures c * batchSize < n * batchSize <==> c < n
    ensures c * batchSize < n * batchSize ==> c * batchSize + batchSize <= n * batchSize
    ensures (c + 1) * batchSize == c * batchSize + batchSize
  {
    NextMultiple(c, batchSize);
    if c < n {
      MoreBatches(c, n, batchSize);
    } else {
      assert (c - n) * batchSize >= 0;
    }
  }

  /** Reading on in bucket b. */
  lemma ReadOn(
    data: seq<seq<Row>>, batchSize: nat, n: seq<nat>, plan: seq<nat>, order: seq<seq<nat>>,
    cursor: seq<nat>, read: seq<nat>, b: nat)
    requires batchSize > 0 && Planned(data, batchSize, n, plan, order) && |cursor| == |data| && b < |data|
    requires AtBoundaries(cursor, read, batchSize)
    ensures |order[b]| == |data[b]| && InRange(order[b], |data[b]|)
    ensures cursor[b] < |data[b]| <==> read[b] < n[b]
    ensures cursor[b] < |data[b]| ==> cursor[b] + batchSize <= |data[b]|
    ensures AtBoundaries(cursor[b := cursor[b] + batchSize], read[b := read[b] + 1], batchSize)
  {
    FullOrEmpty(read[b], n[b], batchSize);
    PermutationGathersAll(data[b], order[b]);
  }

  /** No bucket with rows has been read from. */
  ghost predicate NoneRead(data: seq<seq<Row>>, cursor: seq<nat>)
    requires |cursor| == |data|
  {
    forall i :: 0 <= i < |data| && data[i] != [] ==> cursor[i] == 0
  }

  /** The same in batches. */
  ghost predicate NoBatchRead(n: seq<nat>, read: seq<nat>)
    requires |read| == |n|
  {
    forall i :: 0 <= i < |n| && n[i] > 0 ==> read[i] == 0
  }

  lemma NoneReadIff(
    data: seq<seq<Row>>, batchSize: nat, n: seq<nat>, plan: seq<nat>, order: seq<seq<nat>>,
    cursor: seq<nat>, read: seq<nat>)
    requires batchSize > 0 && Planned(data, batchSize, n, plan, order) && |cursor| == |data|
    requires AtBoundaries(cursor, read, batchSize)
    ensures NoneRead(data, cursor) <==> NoBatchRead(n, read)
  {
    forall i | 0 <= i < |data| ensures (data[i] == [] <==> n[i] == 0) && (cursor[i] == 0 <==> read[i] == 0) {
      ZeroProduct(n[i], batchSize);
      ZeroProduct(read[i], batchSize);
    }
  }

  lemma ZeroProduct(c: nat, batchSize: nat)
    requires batchSize > 0
    ensures c * batchSize == 0 <==> c == 0
  {
  }

  /** What holds after t steps of an epoch. */
  ghost predicate Walked(
    data: seq<seq<Row>>, batchSize: nat, plan: seq<nat>, order: seq<seq<nat>>, cursor: seq<nat>, batches: seq<Batch>)
  {
    CursorAt(batchSize, plan, |batches|, cursor) && AllProgress(data, order, cursor, batches)
  }

  lemma WalkStep(
    data: seq<seq<Row>>, batchSize: nat, plan: seq<nat>, order: seq<seq<nat>>,
    cursor: seq<nat>, batches: seq<Batch>, batch: Batch)
    requires Walked(data, batchSize, plan, order, cursor, batches)
    requires |batches| < |plan| && batch.bucket == plan[|batches|] < |data|
    requires IsSlice(data[batch.bucket], order[batch.bucket], cursor[batch.bucket], batchSize, batch)
    ensures var cursor' := cursor[batch.bucket := cursor[batch.bucket] + batchSize];
      Walked(data, batchSize, plan, order, cursor', batches + [batch])
  {
    CursorMoves(batchSize, plan, |batches|, cursor);
    YieldKeepsProgress(data, order, cursor, batches, batch.bucket, batchSize, batch);
  }

  /** The batches follow the plan and are full. */
  ghost predicate Follows(batches: seq<Batch>, plan: seq<nat>, batchSize: nat) {
    |batches| <= |plan|
    && forall t :: 0 <= t < |batches| ==> batches[t].bucket == plan[t] && WellFormed(batches[t], batchSize)
  }

  lemma FollowsNext(batches: seq<Batch>, plan: seq<nat>, batchSize: nat, batch: Batch)
    requires Follows(batches, plan, batchSize) && |batches| < |plan|
    requires batch.bucket == plan[|batches|] && WellFormed(batch, batchSize)
    ensures Follows(batches + [batch], plan, batchSize)
  {
  }

  /** The rows each bucket keeps: those of the whole batches. */
  ghost predicate Truncated(full: seq<seq<Row>>, batchSize: nat, n: seq<nat>, data: seq<seq<Row>>)
    requires batchSize > 0
  {
    |data| == |n| == |full|
    && forall i :: 0 <= i < |full| ==>
      n[i] == Whole(|full[i]|, batchSize) && data[i] == full[i][..n[i] * batchSize]
  }

  /** The loop that cuts every bucket to a multiple of the batch size. */
  method Truncate(full: seq<seq<Row>>, batchSize: nat) returns (n: seq<nat>, data: seq<seq<Row>>)
    requires batchSize > 0
    ensures Truncated(full, batchSize, n, data)
  {
    n, data := [], [];
    for i := 0 to |full|
      invariant |n| == i && Truncated(full[..i], batchSize, n, data)
    {
      var k := Whole(|full[i]|, batchSize);
      n, data := n + [k], data + [full[i][..k * batchSize]];
    }
    assert full[..|full|] == full;
  }

  lemma PlanMade(
    full: seq<seq<Row>>, data: seq<seq<Row>>, batchSize: nat, n: seq<nat>, plan: seq<nat>, order: seq<seq<nat>>)
    requires batchSize > 0 && |order| == |data|
    ensures
      Truncated(full, batchSize, n, data) && IsShuffle(plan, Blocks(n))
      && (forall i :: 0 <= i < |data| ==> IsShuffle(order[i], UpTo(|data[i]|))) ==>
        Planned(data, batchSize, n, plan, order)
  {
  }

  class Iterator {
    const batchSize: nat
    var buckets: seq<int>
    var data: seq<seq<Row>>
    var plan: seq<nat>
    var order: seq<seq<nat>>
    var cursor: seq<nat>
    ghost var whole: seq<nat>
    ghost var read: seq<nat>

    ghost predicate Valid()
      reads this
    {
      && batchSize > 0
      && |cursor| == |data| == |buckets|
      && Planned(data, batchSize, whole, plan, order)
      && AtBoundaries(cursor, read, batchSize)
    }

    ghost predicate AtStart()
      reads this
    {
      forall i :: 0 <= i < |cursor| ==> cursor[i] == 0
    }

    ghost predicate AtEnd()
      reads this
    {
      |cursor| == |data| && forall i :: 0 <= i < |cursor| ==> cursor[i] == |data[i]|
    }

    /** Sorts and fills the buckets, cuts them and makes the plan. */
    constructor (
      sentences: seq<seq<int>>, buckets: seq<int>, batchSize: nat,
      shuffle: seq<nat> -> seq<nat>, permutation: (nat, nat) -> seq<nat>)
      requires batchSize > 0 && buckets != [] && forall i :: 0 <= i < |buckets| ==> buckets[i] >= 0
      requires forall s :: IsShuffle(shuffle(s), s)
      requires forall i, k :: IsShuffle(permutation(i, k), UpTo(k))
      ensures Valid() && AtStart() && this.batchSize == batchSize
      ensures this.buckets == Sorted(buckets)
      ensures |data| == |whole| == |this.buckets|
      ensures forall i :: 0 <= i < |data| ==>
        && whole[i] == Whole(|Rows(sentences, this.buckets, i)|, batchSize)
        && data[i] == Rows(sentences, this.buckets, i)[..whole[i] * batchSize]
        && HoldsSentences(sentences, this.buckets, i, Rows(sentences, this.buckets, i))
    {
      this.batchSize := batchSize;
      this.buckets := Sorted(buckets);
      var full := Distribute(sentences, Sorted(buckets));
      data := full;
      new;
      MakePlan(shuffle, permutation);
    }

    method MakePlan(shuffle: seq<nat> -> seq<nat>, permutation: (nat, nat) -> seq<nat>)
      requires batchSize > 0 && |data| == |buckets|
      requires forall s :: IsShuffle(shuffle(s), s)
      requires forall i, k :: IsShuffle(permutation(i, k), UpTo(k))
      modifies this
      ensures Valid() && AtStart() && buckets == old(buckets)
      ensures Truncated(old(data), batchSize, whole, data)
    {
      var n, kept := Truncate(data, batchSize);
      data := kept;
      plan := shuffle(Blocks(n));
      order := seq(|kept|, i requires 0 <= i < |kept| => permutation(i, |kept[i]|));
      cursor := seq(|data|, _ => 0);
      whole, read := n, cursor;
      PlanMade(old(data), data, batchSize, n, plan, order);
    }

    /** reset. */
    method Reset()
      requires Valid()
      modifies this`cursor, this`read
      ensures Valid() && AtStart()
    {
      cursor := seq(|data|, _ => 0);
      read := cursor;
    }

    /** The next batch of bucket b; numpy refuses to copy the empty slice of an exhausted bucket into the buffer. */
    method NextBatch(b: nat) returns (r: Option<Batch>)
      requires Valid() && b < |data|
      modifies this`cursor, this`read
      ensures Valid() && cursor == old(cursor)[b := old(cursor)[b] + batchSize]
      ensures Same(read, OneMore(old(read), b))
      ensures r.Some? <==> old(cursor)[b] < |data[b]|
      ensures r.Some? <==> old(read)[b] < whole[b]
      ensures r.Some? ==> IsSlice(data[b], order[b], old(cursor)[b], batchSize, r.value)
      ensures r.Some? ==> r.value.bucket == b && WellFormed(r.value, batchSize)
    {
      var at := cursor[b];
      ReadOn(data, batchSize, whole, plan, order, cursor, read, b);
      var idx := order[b][Min(at, |order[b]|)..Min(at + batchSize, |order[b]|)];
      cursor, read := cursor[b := at + batchSize], read[b := read[b] + 1];
      if idx == [] {
        return None;
      }
      var rows := Gather(data[b], idx);
      var labels := LabelRows(rows);
      r := Some(Batch(b, rows, labels));
    }

    /** The body of the loop: the batch that follows those already yielded. */
    method Step(batches: seq<Batch>, ghost fromStart: bool, ghost first: seq<nat>) returns (r: Option<Batch>)
      requires |batches| < |plan| && Walking(batches, fromStart, first)
      modifies this`cursor, this`read
      ensures Valid() && (fromStart ==> r.Some?)
      ensures if r.Some? then Walking(batches + [r.value], fromStart, first) else !NoBatchRead(whole, first)
    {
      ghost var before, readBefore := cursor, read;
      if fromStart {
        SliceIsFull(data, batchSize, whole, plan, order, |batches|, cursor);
      }
      r := NextBatch(plan[|batches|]);
      OneMoreRead(plan, |batches|, first, readBefore, read);
      FreshIsServed(plan, |batches| + 1, whole, first);
      if r.Some? {
        FollowsNext(batches, plan, batchSize, r.value);
      }
      if fromStart {
        WalkStep(data, batchSize, plan, order, before, batches, r.value);
      }
    }

    /** Where the loop over the plan stands when it has yielded the given batches. */
    ghost predicate Walking(batches: seq<Batch>, fromStart: bool, first: seq<nat>)
      reads this
    {
      && Valid() && InRange(plan, |whole|) && |first| == |whole|
      && Follows(batches, plan, batchSize)
      && Same(read, ReadsAfter(plan, |batches|, first)) && Served(plan, |batches|, whole, first)
      && (fromStart ==> Walked(data, batchSize, plan, order, cursor, batches))
    }

    /** The loop over the plan. */
    method Walk(ghost fromStart: bool) returns (r: Option<seq<Batch>>)
      requires Walking([], fromStart, read)
      modifies this`cursor, this`read
      ensures Valid() && (fromStart ==> r.Some?)
      ensures r.Some? ==> |r.value| == |plan| && Walking(r.value, fromStart, old(read))
      ensures r.None? ==> !NoBatchRead(whole, old(read))
    {
      var batches: seq<Batch> := [];
      for t := 0 to |plan|
        invariant |batches| == t && Walking(batches, fromStart, old(read))
      {
        var next := Step(batches, fromStart, old(read));
        if next.None? {
          return None;
        }
        batches := batches + [next.value];
      }
      r := Some(batches);
    }

    /** One walk over the plan; it gets to the end exactly when no bucket with rows had been read before. */
    method Iterate() returns (r: Option<seq<Batch>>)
      requires Valid()
      modifies this`cursor, this`read
      ensures Valid()
      ensures old(AtStart()) ==> r.Some? && FullEpoch(data, batchSize, plan, r.value) && AtEnd()
      ensures r.Some? <==> NoneRead(data, old(cursor))
      ensures r.Some? ==> |r.value| == |plan| && Follows(r.value, plan, batchSize)
    {
      NoneReadIff(data, batchSize, whole, plan, order, cursor, read);
      ghost var start := AtStart();
      if start {
        StartOfEpoch(data, batchSize, whole, plan, order, cursor);
      }
      PlanStaysInRange(whole, plan);
      r := Walk(start);
      ServedWasFresh(plan, whole, old(read));
      if start {
        EpochIsFull(data, batchSize, whole, plan, order, cursor, r.value);
      }
    }

    /** An epoch begun by reset is full, whatever was read before. */
    method Epoch() returns (batches: seq<Batch>)
      requires Valid()
      modifies this`cursor, this`read
      ensures Valid() && FullEpoch(data, batchSize, plan, batches)
    {
      Reset();
      var r := Iterate();
      batches := r.value;
    }
  }
}
