/**
 * How example/bi-lstm-sort/sort_io.py fills its buckets: every sentence goes to the narrowest bucket that holds it and
 * is filled up with zeros.
 */
module BucketRows {

  type Row = seq<int>

  // ---- Sorting ----

  ghost predicate Ascending(s: seq<int>) {
    forall i, j :: 0 <= i < j < |s| ==> s[i] <= s[j]
  }

  function Insert(s: seq<int>, x: int): (r: seq<int>)
    requires Ascending(s)
    ensures Ascending(r) && multiset(r) == multiset(s) + multiset{x}
    ensures forall y :: y in r <==> y == x || y in s
  {
    if s == [] || x <= s[0] then
      [x] + s
    else
      var t := Insert(s[1..], x);
      assert s == [s[0]] + s[1..];
      LeastFirst(s[0], s[1..], x, t);
      [s[0]] + t
  }

  /** Putting in front what is no larger than any element keeps the order. */
  lemma LeastFirst(a: int, s: seq<int>, x: int, t: seq<int>)
    requires Ascending([a] + s) && a <= x && Ascending(t) && forall y :: y in t <==> y == x || y in s
    ensures Ascending([a] + t)
  {
    forall k | 0 <= k < |t| ensures a <= t[k] {
      assert t[k] in t;
      if t[k] != x {
        var j :| 0 <= j < |s| && s[j] == t[k];
        assert ([a] + s)[0] <= ([a] + s)[j + 1];
      }
    }
  }

  /** Python's sorted. */
  function Sorted(s: seq<int>): (r: seq<int>)
    ensures Ascending(r) && multiset(r) == multiset(s)
  {
    if s == [] then
      []
    else
      assert s == s[..|s| - 1] + [s[|s| - 1]];
      Insert(Sorted(s[..|s| - 1]), s[|s| - 1])
  }

  // ---- Buckets ----

  /** The first bucket at least as long as the sentence, or the number of buckets when there is none. */
  function Slot(buckets: seq<int>, length: nat): (i: nat)
    ensures i <= |buckets| && (i < |buckets| ==> buckets[i] >= length)
    ensures forall j :: 0 <= j < i ==> buckets[j] < length
  {
    if buckets == [] || buckets[0] >= length then 0 else 1 + Slot(buckets[1..], length)
  }

  function Zeros(n: nat): seq<int> {
    seq(n, _ => 0)
  }

  /** A sentence filled up with zeros to the length of its bucket. */
  function Padded(s: seq<int>, width: int): Row {
    if |s| <= width then s + Zeros(width - |s|) else s
  }

  /** The non-empty sentences that go to bucket i, padded and in order. */
  function Rows(sentences: seq<seq<int>>, buckets: seq<int>, i: nat): seq<Row>
    requires i < |buckets|
  {
    if sentences == [] then [] else
    var s := sentences[|sentences| - 1];
    Rows(sentences[..|sentences| - 1], buckets, i)
      + if s != [] && Slot(buckets, |s|) == i then [Padded(s, buckets[i])] else []
  }

  /** The bucket a sentence goes to is the narrowest of those that can hold it. */
  lemma SlotIsSmallestFit(buckets: seq<int>, length: nat)
    requires Ascending(buckets)
    ensures var i := Slot(buckets, length);
      if i < |buckets| then
        buckets[i] >= length && forall j :: 0 <= j < |buckets| && buckets[j] >= length ==> buckets[i] <= buckets[j]
      else
        forall j :: 0 <= j < |buckets| ==> buckets[j] < length
  {
  }

  /** A row of bucket i is exactly a non-empty sentence, filled up with zeros, whose narrowest fit is bucket i. */
  lemma {:induction false} RowsAreFittingSentences(sentences: seq<seq<int>>, buckets: seq<int>, i: nat, row: Row)
    requires i < |buckets|
    ensures row in Rows(sentences, buckets, i) <==>
      exists k :: 0 <= k < |sentences| && BecomesRow(sentences[k], buckets, i, row)
  {
    if sentences != [] {
      var last := |sentences| - 1;
      var before := sentences[..last];
      RowsAreFittingSentences(before, buckets, i, row);
      LastSentence(sentences, buckets, i, row);
      if k :| 0 <= k < |sentences| && BecomesRow(sentences[k], buckets, i, row) {
        assert k < last ==> BecomesRow(before[k], buckets, i, row);
      }
      if k :| 0 <= k < last && BecomesRow(before[k], buckets, i, row) {
        assert BecomesRow(sentences[k], buckets, i, row);
      }
    }
  }

  lemma LastSentence(sentences: seq<seq<int>>, buckets: seq<int>, i: nat, row: Row)
    requires i < |buckets| && sentences != []
    ensures var n := |sentences| - 1;
      row in Rows(sentences, buckets, i) <==>
      row in Rows(sentences[..n], buckets, i) || BecomesRow(sentences[n], buckets, i, row)
  {
    var s := sentences[|sentences| - 1];
    if GoesTo(s, buckets, i) {
      PaddedIsFilledUp(s, buckets[i], row);
    }
  }

  /** The row begins with the sentence and goes on with zeros to the width of its bucket. */
  ghost predicate IsFilledUp(row: Row, s: seq<int>, width: int) {
    |s| <= |row| == width && row[..|s|] == s && forall j :: |s| <= j < |row| ==> row[j] == 0
  }

  lemma PaddedIsFilledUp(s: seq<int>, width: int, row: Row)
    requires |s| <= width
    ensures row == Padded(s, width) <==> IsFilledUp(row, s, width)
  {
    if IsFilledUp(row, s, width) {
      assert row == row[..|s|] + row[|s|..];
    }
  }

  /** The sentence is not empty and bucket i is the one it goes to. */
  ghost predicate GoesTo(s: seq<int>, buckets: seq<int>, i: nat) {
    s != [] && Slot(buckets, |s|) == i
  }

  ghost predicate BecomesRow(s: seq<int>, buckets: seq<int>, i: nat, row: Row)
    requires i < |buckets|
  {
    GoesTo(s, buckets, i) && IsFilledUp(row, s, buckets[i])
  }

  /** How many of the first k sentences go to bucket i. */
  ghost function Earlier(sentences: seq<seq<int>>, buckets: seq<int>, i: nat, k: nat): nat
    requires k <= |sentences|
  {
    |set j: nat | j < k && GoesTo(sentences[j], buckets, i)|
  }

  /** The rows are the sentences that go to bucket i, filled up, each once and in the order of the list. */
  ghost predicate HoldsSentences(sentences: seq<seq<int>>, buckets: seq<int>, i: nat, rows: seq<Row>)
    requires i < |buckets|
  {
    && |rows| == Earlier(sentences, buckets, i, |sentences|)
    && forall k :: 0 <= k < |sentences| && GoesTo(sentences[k], buckets, i) ==>
         RowHolds(sentences, buckets, i, rows, k)
  }

  ghost predicate RowHolds(sentences: seq<seq<int>>, buckets: seq<int>, i: nat, rows: seq<Row>, k: nat)
    requires i < |buckets| && k < |sentences|
  {
    && Earlier(sentences, buckets, i, k) < |rows|
    && IsFilledUp(rows[Earlier(sentences, buckets, i, k)], sentences[k], buckets[i])
  }

  lemma EarlierInPrefix(sentences: seq<seq<int>>, buckets: seq<int>, i: nat, n: nat, k: nat)
    requires k <= n <= |sentences|
    ensures Earlier(sentences[..n], buckets, i, k) == Earlier(sentences, buckets, i, k)
  {
    assert (set j: nat | j < k && GoesTo(sentences[..n][j], buckets, i))
        == (set j: nat | j < k && GoesTo(sentences[j], buckets, i));
  }

  lemma EarlierNext(sentences: seq<seq<int>>, buckets: seq<int>, i: nat, k: nat)
    requires k < |sentences|
    ensures Earlier(sentences, buckets, i, k + 1) ==
      Earlier(sentences, buckets, i, k) + if GoesTo(sentences[k], buckets, i) then 1 else 0
  {
    var a := set j: nat | j < k && GoesTo(sentences[j], buckets, i);
    var b := set j: nat | j < k + 1 && GoesTo(sentences[j], buckets, i);
    if GoesTo(sentences[k], buckets, i) {
      assert b == a + {k};
    } else {
      assert b == a;
    }
  }

  lemma {:induction false} RowsHoldSentences(sentences: seq<seq<int>>, buckets: seq<int>, i: nat)
    requires i < |buckets|
    ensures HoldsSentences(sentences, buckets, i, Rows(sentences, buckets, i))
  {
    if sentences != [] {
      var n := |sentences| - 1;
      var before, rows := sentences[..n], Rows(sentences, buckets, i);
      RowsHoldSentences(before, buckets, i);
      EarlierInPrefix(sentences, buckets, i, n, n);
      EarlierNext(sentences, buckets, i, n);
      forall k | 0 <= k < |sentences| && GoesTo(sentences[k], buckets, i)
        ensures RowHolds(sentences, buckets, i, rows, k)
      {
        if k < n {
          EarlierInPrefix(sentences, buckets, i, n, k);
          assert RowHolds(before, buckets, i, Rows(before, buckets, i), k);
        } else {
          PaddedIsFilledUp(sentences[n], buckets[i], Padded(sentences[n], buckets[i]));
        }
      }
    }
  }

  ghost predicate Distributed(sentences: seq<seq<int>>, buckets: seq<int>, data: seq<seq<Row>>) {
    |data| == |buckets| && forall i :: 0 <= i < |data| ==> data[i] == Rows(sentences, buckets, i)
  }

  /** The loops of the constructor that fill the buckets. */
  method Distribute(sentences: seq<seq<int>>, buckets: seq<int>) returns (data: seq<seq<Row>>)
    ensures Distributed(sentences, buckets, data)
    ensures forall i :: 0 <= i < |buckets| ==> HoldsSentences(sentences, buckets, i, data[i])
  {
    data := seq(|buckets|, _ => []);
    for n := 0 to |sentences|
      invariant Distributed(sentences[..n], buckets, data)
    {
      var s := sentences[n];
      assert sentences[..n + 1][..n] == sentences[..n];
      ghost var before := data;
      if s != [] {
        var i := 0;
        while i < |buckets| && buckets[i] < |s|
          invariant 0 <= i <= |buckets| && forall j :: 0 <= j < i ==> buckets[j] < |s|
        {
          i := i + 1;
        }
        assert i == Slot(buckets, |s|);
        if i < |buckets| {
          data := data[i := data[i] + [Padded(s, buckets[i])]];
        }
      }
      forall j | 0 <= j < |data| ensures data[j] == Rows(sentences[..n + 1], buckets, j) {
        assert before[j] == Rows(sentences[..n], buckets, j);
      }
    }
    assert sentences[..|sentences|] == sentences;
    forall i | 0 <= i < |buckets| ensures HoldsSentences(sentences, buckets, i, data[i]) {
      RowsHoldSentences(sentences, buckets, i);
    }
  }
}
