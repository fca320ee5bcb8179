/**
 * The record writer of tools/im2rec.py: one feeder, a number of reader processes and one
 * writer process, connected by bounded queues. Every interleaving is a sequence of actions.
 */
module RecordPipeline {
  import opened Basics
  import opened Residues

  type Bytes = seq<bv8>

  /** One line of the .lst file; `key` is item[0], the index given to write_idx. */
  datatype Item = Item(key: int, path: string, labels: seq<real>)

  /** `encode` stands for image_encode: the packed record, or None when reading or packing fails. */
  datatype Job = Job(items: seq<Item>, readers: nat, capacity: nat, encode: Item -> Option<Bytes>)

  ghost predicate ValidJob(job: Job) {
    job.readers > 0 && job.capacity > 0
  }

  /** What travels in q_in[r]: a pair, or the None sentinel. */
  datatype Task = Work(index: nat, item: Item) | Stop

  /** What travels in q_out: a triple, or the None sentinel. */
  datatype Parcel = Packed(index: nat, bytes: Option<Bytes>, item: Item) | Finish

  /** A reader is blocked in get, has taken an item and not yet put its parcel, or has returned. */
  datatype Reader = Waiting | Holding(index: nat, item: Item) | Exited

  /** Program counter of the main process. */
  datatype Feeder =
    | Feeding(next: nat)
    | Stopping(next: nat)
    | Joining(next: nat)
    | Finishing
    | AwaitWriter
    | Done

  /** Locals of write_worker; `draining` is the inner loop, `record` the file written so far. */
  datatype Writer = Writer(
    buf: map<nat, (Option<Bytes>, Item)>,
    count: nat,
    more: bool,
    draining: bool,
    record: seq<(int, Bytes)>)
  {
    predicate Stopped() { !more && !draining }
  }

  datatype State = State(
    feeder: Feeder,
    inbox: seq<seq<Task>>,
    readers: seq<Reader>,
    outbox: seq<Parcel>,
    writer: Writer)

  /** One atomic step of one process. */
  datatype Action = Feed | Take(r: nat) | Put(r: nat) | Receive | Drain

  function Lane(job: Job, i: nat): (r: nat)
    requires job.readers > 0
    ensures r < job.readers
  {
    i % job.readers
  }

  function ParcelOf(job: Job, i: nat): Parcel
    requires i < |job.items|
  {
    Packed(i, job.encode(job.items[i]), job.items[i])
  }

  function StartWriter(): Writer {
    Writer(map[], 0, true, false, [])
  }

  function Start(job: Job): State {
    State(Feeding(0), seq(job.readers, _ => []), seq(job.readers, _ => Waiting), [], StartWriter())
  }

  // ---- The steps of each process ----

  ghost predicate WellShaped(job: Job, s: State) {
    |s.inbox| == job.readers && |s.readers| == job.readers
  }

  ghost predicate CanFeed(job: Job, s: State)
    requires ValidJob(job) && WellShaped(job, s)
  {
    match s.feeder
    case Feeding(i) => i < |job.items| ==> |s.inbox[Lane(job, i)]| < job.capacity
    case Stopping(k) => k < job.readers ==> |s.inbox[k]| < job.capacity
    case Joining(k) => k < job.readers ==> s.readers[k].Exited?
    case Finishing => |s.outbox| < job.capacity
    case AwaitWriter => s.writer.Stopped()
    case Done => false
  }

  ghost predicate Enabled(job: Job, s: State, a: Action) {
    ValidJob(job) && WellShaped(job, s) &&
    match a
    case Feed => CanFeed(job, s)
    case Take(r) => r < job.readers && s.readers[r].Waiting? && s.inbox[r] != []
    case Put(r) => r < job.readers && s.readers[r].Holding? && |s.outbox| < job.capacity
    case Receive => s.writer.more && !s.writer.draining && s.outbox != []
    case Drain => s.writer.draining
  }

  ghost function FeedNext(job: Job, s: State): State
    requires Enabled(job, s, Feed)
  {
    match s.feeder
    case Feeding(i) =>
      if i < |job.items| then
        var r := Lane(job, i);
        s.(feeder := Feeding(i + 1), inbox := s.inbox[r := s.inbox[r] + [Work(i, job.items[i])]])
      else s.(feeder := Stopping(0))
    case Stopping(k) =>
      if k < job.readers then
        s.(feeder := Stopping(k + 1), inbox := s.inbox[k := s.inbox[k] + [Stop]])
      else s.(feeder := Joining(0))
    case Joining(k) =>
      if k < job.readers then s.(feeder := Joining(k + 1)) else s.(feeder := Finishing)
    case Finishing => s.(feeder := AwaitWriter, outbox := s.outbox + [Finish])
    case AwaitWriter => s.(feeder := Done)
    case Done => s
  }

  function ReaderAfter(t: Task): Reader {
    match t
    case Work(i, item) => Holding(i, item)
    case Stop => Exited
  }

  /** The effect of one q_out.get() in write_worker. */
  function Accept(w: Writer, p: Parcel): Writer {
    match p
    case Packed(i, bytes, item) => w.(buf := w.buf[i := (bytes, item)], draining := true)
    case Finish => w.(more := false, draining := true)
  }

  /** One test of the inner loop, with the body when it holds. */
  function DrainOne(w: Writer): Writer {
    if w.count in w.buf then
      var (bytes, item) := w.buf[w.count];
      w.(buf := w.buf - {w.count},
         record := if bytes.Some? then w.record + [(item.key, bytes.value)] else w.record,
         count := w.count + 1)
    else
      w.(draining := false)
  }

  ghost function Next(job: Job, s: State, a: Action): State
    requires Enabled(job, s, a)
  {
    match a
    case Feed => FeedNext(job, s)
    case Take(r) =>
      s.(inbox := s.inbox[r := s.inbox[r][1..]], readers := s.readers[r := ReaderAfter(s.inbox[r][0])])
    case Put(r) =>
      var h := s.readers[r];
      s.(readers := s.readers[r := Waiting], outbox := s.outbox + [Packed(h.index, job.encode(h.item), h.item)])
    case Receive => s.(outbox := s.outbox[1..], writer := Accept(s.writer, s.outbox[0]))
    case Drain => s.(writer := DrainOne(s.writer))
  }

  /** A schedule is a choice of which process moves next, each choice being possible when made. */
  ghost predicate IsRun(job: Job, s: State, schedule: seq<Action>)
    decreases |schedule|
  {
    schedule == [] || (Enabled(job, s, schedule[0]) && IsRun(job, Next(job, s, schedule[0]), schedule[1..]))
  }

  ghost function After(job: Job, s: State, schedule: seq<Action>): State
    requires IsRun(job, s, schedule)
    decreases |schedule|
  {
    if schedule == [] then s else After(job, Next(job, s, schedule[0]), schedule[1..])
  }

  // ---- What the record file should hold ----

  /** The successful encodings of the first k items, in list order. */
  function Written(job: Job, k: nat): seq<(int, Bytes)>
    requires k <= |job.items|
  {
    if k == 0 then []
    else
      var item := job.items[k - 1];
      var e := job.encode(item);
      if e.Some? then Written(job, k - 1) + [(item.key, e.value)] else Written(job, k - 1)
  }

  /** How many of the first k items can be encoded. */
  ghost function EncodableBefore(job: Job, k: nat): nat
    requires k <= |job.items|
  {
    |set i: nat | i < k && job.encode(job.items[i]).Some?|
  }

  /**
   * The file holds the encodable ones of the first k items and nothing else: each at its place among them, under the
   * key its line gives, with its own encoding.
   */
  ghost predicate HoldsEncodings(job: Job, k: nat, file: seq<(int, Bytes)>)
    requires k <= |job.items|
  {
    && |file| == EncodableBefore(job, k)
    && forall i :: 0 <= i < k && job.encode(job.items[i]).Some? ==> HoldsAt(job, i, file)
  }

  ghost predicate HoldsAt(job: Job, i: nat, file: seq<(int, Bytes)>)
    requires i < |job.items| && job.encode(job.items[i]).Some?
  {
    && EncodableBefore(job, i) < |file|
    && file[EncodableBefore(job, i)] == (job.items[i].key, job.encode(job.items[i]).value)
  }

  lemma EncodableNext(job: Job, k: nat)
    requires k < |job.items|
    ensures EncodableBefore(job, k + 1) == EncodableBefore(job, k) + if job.encode(job.items[k]).Some? then 1 else 0
  {
    var a := set i: nat | i < k && job.encode(job.items[i]).Some?;
    var b := set i: nat | i < k + 1 && job.encode(job.items[i]).Some?;
    if job.encode(job.items[k]).Some? {
      assert b == a + {k};
    } else {
      assert b == a;
    }
  }

  lemma {:induction false} WrittenHolds(job: Job, k: nat)
    requires k <= |job.items|
    ensures HoldsEncodings(job, k, Written(job, k))
  {
    if k == 0 {
      assert EncodableBefore(job, 0) == 0;
    } else {
      WrittenHolds(job, k - 1);
      EncodableNext(job, k - 1);
      forall i | 0 <= i < k && job.encode(job.items[i]).Some? ensures HoldsAt(job, i, Written(job, k)) {
        assert i < k - 1 ==> HoldsAt(job, i, Written(job, k - 1));
      }
    }
  }

  /** Any readers items in a row go to different readers. */
  lemma LanesRotate(job: Job, i: nat, j: nat)
    requires i < j < i + job.readers
    ensures Lane(job, i) != Lane(job, j)
  {
    NearResiduesDiffer(i, j, job.readers);
  }

  // ---- The invariant ----

  /** Number of items already handed to a reader queue. */
  function Fed(job: Job, f: Feeder): nat {
    if f.Feeding? then f.next else |job.items|
  }

  /** In how many places of the pipeline item i now is: reader queue, reader, q_out, buffer, or written. */
  ghost function Places(job: Job, s: State, i: nat): nat
    requires ValidJob(job) && WellShaped(job, s) && i < |job.items|
  {
    var r := Lane(job, i);
    multiset(s.inbox[r])[Work(i, job.items[i])]
    + (if s.readers[r] == Holding(i, job.items[i]) then 1 else 0)
    + multiset(s.outbox)[ParcelOf(job, i)]
    + (if i in s.writer.buf then 1 else 0)
    + (if i < s.writer.count then 1 else 0)
  }

  ghost predicate FeederInRange(job: Job, f: Feeder) {
    match f
    case Feeding(i) => i <= |job.items|
    case Stopping(k) => k <= job.readers
    case Joining(k) => k <= job.readers
    case _ => true
  }

  /** The feeder has put the sentinel of reader r. */
  predicate StopSent(f: Feeder, r: nat) {
    match f
    case Feeding(_) => false
    case Stopping(k) => r < k
    case _ => true
  }

  ghost predicate GoodTask(job: Job, r: nat, t: Task)
    requires ValidJob(job)
  {
    t.Work? ==> t.index < |job.items| && t.item == job.items[t.index] && Lane(job, t.index) == r
  }

  /** Queue and state of reader r: payloads are right, and the sentinel is last or already taken. */
  ghost predicate GoodLane(job: Job, f: Feeder, r: nat, q: seq<Task>, reader: Reader)
    requires ValidJob(job)
  {
    && (forall j :: 0 <= j < |q| ==> GoodTask(job, r, q[j]))
    && (forall j :: 0 <= j < |q| - 1 ==> q[j].Work?)
    && (reader.Holding? ==> GoodTask(job, r, Work(reader.index, reader.item)))
    && (if StopSent(f, r)
        then if reader.Exited? then q == [] else q != [] && q[|q| - 1].Stop?
        else !reader.Exited? && (q != [] ==> q[|q| - 1].Work?))
  }

  ghost predicate GoodLanes(job: Job, s: State) {
    ValidJob(job) && WellShaped(job, s) &&
    forall r :: 0 <= r < job.readers ==> GoodLane(job, s.feeder, r, s.inbox[r], s.readers[r])
  }

  /** Readers below k have returned. */
  ghost predicate Joined(s: State, k: nat) {
    forall r :: 0 <= r < k && r < |s.readers| ==> s.readers[r].Exited?
  }

  ghost predicate JoinProgress(job: Job, s: State) {
    match s.feeder
    case Joining(k) => Joined(s, k)
    case Finishing => Joined(s, job.readers)
    case AwaitWriter => Joined(s, job.readers)
    case Done => Joined(s, job.readers) && s.writer.Stopped()
    case _ => true
  }

  predicate FinishSent(f: Feeder) {
    f.AwaitWriter? || f.Done?
  }

  ghost predicate GoodParcel(job: Job, p: Parcel) {
    p.Packed? ==> p.index < |job.items| && p == ParcelOf(job, p.index)
  }

  /** q_out: payloads are right, and the sentinel is last or already taken. */
  ghost predicate GoodOutbox(job: Job, s: State) {
    && (forall j :: 0 <= j < |s.outbox| ==> GoodParcel(job, s.outbox[j]))
    && (forall j :: 0 <= j < |s.outbox| - 1 ==> s.outbox[j].Packed?)
    && (if FinishSent(s.feeder)
        then if s.writer.more then s.outbox != [] && s.outbox[|s.outbox| - 1].Finish? else s.outbox == []
        else s.writer.more && (s.outbox != [] ==> s.outbox[|s.outbox| - 1].Packed?))
  }

  ghost predicate GoodWriter(job: Job, w: Writer) {
    && w.count <= |job.items|
    && w.record == Written(job, w.count)
    && (forall i :: i in w.buf ==> i < |job.items| && w.buf[i] == (job.encode(job.items[i]), job.items[i]))
    && (!w.draining ==> w.count !in w.buf)
  }

  /** Conservation: a fed item is in exactly one place, an unfed one in none. */
  ghost predicate OnePlaceEach(job: Job, s: State) {
    ValidJob(job) && WellShaped(job, s) &&
    forall i :: 0 <= i < |job.items| ==> Places(job, s, i) == if i < Fed(job, s.feeder) then 1 else 0
  }

  ghost predicate Bounded(job: Job, s: State) {
    |s.outbox| <= job.capacity && forall r :: 0 <= r < |s.inbox| ==> |s.inbox[r]| <= job.capacity
  }

  ghost predicate Inv(job: Job, s: State) {
    && ValidJob(job) && WellShaped(job, s)
    && FeederInRange(job, s.feeder)
    && GoodLanes(job, s)
    && JoinProgress(job, s)
    && GoodOutbox(job, s)
    && GoodWriter(job, s.writer)
    && OnePlaceEach(job, s)
    && Bounded(job, s)
  }

  lemma StartInv(job: Job)
    requires ValidJob(job)
    ensures Inv(job, Start(job))
  {
  }

  /** Feeding item i puts it in one more place; nothing else changes where an item is. */
  lemma FeedMovesItem(job: Job, s: State, i: nat)
    requires Enabled(job, s, Feed) && i < |job.items|
    ensures Places(job, FeedNext(job, s), i) == Places(job, s, i) + if s.feeder == Feeding(i) then 1 else 0
  {
  }

  lemma TakeKeepsPlaces(job: Job, s: State, r: nat, i: nat)
    requires Enabled(job, s, Take(r)) && GoodTask(job, r, s.inbox[r][0]) && i < |job.items|
    ensures Places(job, Next(job, s, Take(r)), i) == Places(job, s, i)
  {
    var q := s.inbox[r];
    assert q == [q[0]] + q[1..];
  }

  lemma PutKeepsPlaces(job: Job, s: State, r: nat, i: nat)
    requires Enabled(job, s, Put(r)) && GoodTask(job, r, Work(s.readers[r].index, s.readers[r].item)) && i < |job.items|
    ensures Places(job, Next(job, s, Put(r)), i) == Places(job, s, i)
  {
  }

  lemma ReceiveKeepsPlaces(job: Job, s: State, i: nat)
    requires Enabled(job, s, Receive) && GoodParcel(job, s.outbox[0]) && i < |job.items| && Places(job, s, i) <= 1
    ensures Places(job, Next(job, s, Receive), i) == Places(job, s, i)
  {
    assert s.outbox == [s.outbox[0]] + s.outbox[1..];
  }

  lemma FeedKeepsLanes(job: Job, s: State)
    requires Enabled(job, s, Feed) && FeederInRange(job, s.feeder) && GoodLanes(job, s)
    ensures GoodLanes(job, FeedNext(job, s))
  {
    var s' := FeedNext(job, s);
    forall r | 0 <= r < job.readers
      ensures GoodLane(job, s'.feeder, r, s'.inbox[r], s'.readers[r])
    {
      assert GoodLane(job, s.feeder, r, s.inbox[r], s.readers[r]);
    }
  }

  lemma TakeKeepsLanes(job: Job, s: State, r: nat)
    requires Enabled(job, s, Take(r)) && GoodLanes(job, s)
    ensures GoodLanes(job, Next(job, s, Take(r)))
  {
    assert GoodLane(job, s.feeder, r, s.inbox[r], s.readers[r]);
  }

  lemma FeedConserves(job: Job, s: State)
    requires Enabled(job, s, Feed) && FeederInRange(job, s.feeder) && OnePlaceEach(job, s)
    ensures OnePlaceEach(job, FeedNext(job, s))
  {
    var s' := FeedNext(job, s);
    forall i | 0 <= i < |job.items|
      ensures Places(job, s', i) == if i < Fed(job, s'.feeder) then 1 else 0
    {
      FeedMovesItem(job, s, i);
    }
  }

  lemma FeedKeepsInv(job: Job, s: State)
    requires Inv(job, s) && Enabled(job, s, Feed)
    ensures Inv(job, FeedNext(job, s))
  {
    FeedKeepsLanes(job, s);
    FeedConserves(job, s);
  }

  lemma TakeKeepsInv(job: Job, s: State, r: nat)
    requires Inv(job, s) && Enabled(job, s, Take(r))
    ensures Inv(job, Next(job, s, Take(r)))
  {
    assert GoodLane(job, s.feeder, r, s.inbox[r], s.readers[r]);
    TakeKeepsLanes(job, s, r);
    forall i | 0 <= i < |job.items|
      ensures Places(job, Next(job, s, Take(r)), i) == Places(job, s, i)
    {
      TakeKeepsPlaces(job, s, r, i);
    }
  }

  lemma PutKeepsInv(job: Job, s: State, r: nat)
    requires Inv(job, s) && Enabled(job, s, Put(r))
    ensures Inv(job, Next(job, s, Put(r)))
  {
    PutConserves(job, s, r);
    PutKeepsQueues(job, s, r);
  }

  lemma PutConserves(job: Job, s: State, r: nat)
    requires Inv(job, s) && Enabled(job, s, Put(r))
    ensures OnePlaceEach(job, Next(job, s, Put(r)))
  {
    assert GoodLane(job, s.feeder, r, s.inbox[r], s.readers[r]);
    forall i | 0 <= i < |job.items|
      ensures Places(job, Next(job, s, Put(r)), i) == Places(job, s, i)
    {
      PutKeepsPlaces(job, s, r, i);
    }
  }

  lemma PutKeepsQueues(job: Job, s: State, r: nat)
    requires Inv(job, s) && Enabled(job, s, Put(r))
    ensures GoodLanes(job, Next(job, s, Put(r))) && GoodOutbox(job, Next(job, s, Put(r)))
  {
    assert GoodLane(job, s.feeder, r, s.inbox[r], s.readers[r]);
  }

  lemma ReceiveKeepsInv(job: Job, s: State)
    requires Inv(job, s) && Enabled(job, s, Receive)
    ensures Inv(job, Next(job, s, Receive))
  {
    assert GoodParcel(job, s.outbox[0]);
    forall i | 0 <= i < |job.items|
      ensures Places(job, Next(job, s, Receive), i) == Places(job, s, i)
    {
      ReceiveKeepsPlaces(job, s, i);
    }
  }

  lemma DrainKeepsInv(job: Job, s: State)
    requires Inv(job, s) && Enabled(job, s, Drain)
    ensures Inv(job, Next(job, s, Drain))
  {
    forall i | 0 <= i < |job.items|
      ensures Places(job, Next(job, s, Drain), i) == Places(job, s, i)
    {
    }
  }

  lemma StepKeepsInv(job: Job, s: State, a: Action)
    requires Inv(job, s) && Enabled(job, s, a)
    ensures Inv(job, Next(job, s, a))
  {
    match a
    case Feed => FeedKeepsInv(job, s);
    case Take(r) => TakeKeepsInv(job, s, r);
    case Put(r) => PutKeepsInv(job, s, r);
    case Receive => ReceiveKeepsInv(job, s);
    case Drain => DrainKeepsInv(job, s);
  }

  lemma {:induction false} RunKeepsInv(job: Job, s: State, schedule: seq<Action>)
    requires Inv(job, s) && IsRun(job, s, schedule)
    ensures Inv(job, After(job, s, schedule))
    decreases |schedule|
  {
    if schedule != [] {
      StepKeepsInv(job, s, schedule[0]);
      RunKeepsInv(job, Next(job, s, schedule[0]), schedule[1..]);
    }
  }

  // ---- No deadlock ----

  /** Some process can move in every state the invariant allows, until the main process is done. */
  lemma NeverStuck(job: Job, s: State) returns (a: Action)
    requires Inv(job, s) && !s.feeder.Done?
    ensures Enabled(job, s, a)
  {
    if s.writer.draining {
      return Drain;
    }
    if s.writer.more && s.outbox != [] {
      return Receive;
    }
    if s.outbox == [] && exists r: nat :: r < job.readers && s.readers[r].Holding? {
      var r: nat :| r < job.readers && s.readers[r].Holding?;
      return Put(r);
    }
    if exists r: nat :: r < job.readers && s.readers[r].Waiting? && s.inbox[r] != [] {
      var r: nat :| r < job.readers && s.readers[r].Waiting? && s.inbox[r] != [];
      return Take(r);
    }
    forall r: nat | r < job.readers
      ensures GoodLane(job, s.feeder, r, s.inbox[r], s.readers[r])
    {
    }
    return Feed;
  }

  // ---- Termination ----

  function Sum(w: seq<nat>): nat {
    if w == [] then 0 else w[0] + Sum(w[1..])
  }

  lemma {:induction false} SumUpdate(w: seq<nat>, k: nat, v: nat)
    requires k < |w|
    ensures Sum(w[k := v]) + w[k] == Sum(w) + v
  {
    if k > 0 {
      assert w[k := v][1..] == w[1..][k - 1 := v];
      SumUpdate(w[1..], k - 1, v);
    }
  }

  function LaneLoad(q: seq<Task>, reader: Reader): nat {
    5 * |q| + if reader.Holding? then 4 else 0
  }

  ghost function Loads(s: State): (w: seq<nat>)
    requires |s.inbox| == |s.readers|
    ensures |w| == |s.readers|
  {
    seq(|s.readers|, r requires 0 <= r < |s.readers| => LaneLoad(s.inbox[r], s.readers[r]))
  }

  function FeederLoad(job: Job, f: Feeder): int {
    match f
    case Feeding(i) => 6 * (|job.items| - i) + 7 * job.readers + 20
    case Stopping(k) => 6 * (job.readers - k) + job.readers + 19
    case Joining(k) => (job.readers - k) + 18
    case Finishing => 10
    case AwaitWriter => 1
    case Done => 0
  }

  /** An upper bound on the number of steps still to come. */
  ghost function Measure(job: Job, s: State): int
    requires |s.inbox| == |s.readers|
  {
    FeederLoad(job, s.feeder) + Sum(Loads(s)) + 3 * |s.outbox| + |s.writer.buf| + if s.writer.draining then 1 else 0
  }

  lemma LaneChange(s: State, s': State, r: nat)
    requires |s.inbox| == |s.readers| == |s'.inbox| == |s'.readers| && r < |s.readers|
    requires s'.inbox == s.inbox[r := s'.inbox[r]] && s'.readers == s.readers[r := s'.readers[r]]
    ensures Sum(Loads(s')) - Sum(Loads(s)) == LaneLoad(s'.inbox[r], s'.readers[r]) - LaneLoad(s.inbox[r], s.readers[r])
  {
    assert Loads(s') == Loads(s)[r := LaneLoad(s'.inbox[r], s'.readers[r])];
    SumUpdate(Loads(s), r, LaneLoad(s'.inbox[r], s'.readers[r]));
  }

  lemma FeedLowersMeasure(job: Job, s: State)
    requires Enabled(job, s, Feed) && FeederInRange(job, s.feeder)
    ensures Measure(job, FeedNext(job, s)) < Measure(job, s)
  {
    var s' := FeedNext(job, s);
    if s.feeder.Feeding? && s.feeder.next < |job.items| {
      LaneChange(s, s', Lane(job, s.feeder.next));
    } else if s.feeder.Stopping? && s.feeder.next < job.readers {
      LaneChange(s, s', s.feeder.next);
    } else {
      assert Loads(s') == Loads(s);
    }
  }

  lemma WriterLowersMeasure(job: Job, s: State, a: Action)
    requires Enabled(job, s, a) && (a.Receive? || a.Drain?)
    ensures Measure(job, Next(job, s, a)) < Measure(job, s)
  {
    var s' := Next(job, s, a);
    assert Loads(s') == Loads(s);
    if a.Receive? && s.outbox[0].Packed? {
      assert s'.writer.buf.Keys == s.writer.buf.Keys + {s.outbox[0].index};
    }
    if a.Drain? && s.writer.count in s.writer.buf {
      assert s'.writer.buf.Keys == s.writer.buf.Keys - {s.writer.count};
    }
  }

  lemma MeasureNonNegative(job: Job, s: State)
    requires Inv(job, s)
    ensures Measure(job, s) >= 0
  {
  }

  lemma MeasureFalls(job: Job, s: State, a: Action)
    requires Inv(job, s) && Enabled(job, s, a)
    ensures 0 <= Measure(job, Next(job, s, a)) < Measure(job, s)
  {
    StepKeepsInv(job, s, a);
    MeasureNonNegative(job, Next(job, s, a));
    match a
    case Feed => FeedLowersMeasure(job, s);
    case Take(r) => LaneChange(s, Next(job, s, a), r);
    case Put(r) => LaneChange(s, Next(job, s, a), r);
    case _ => WriterLowersMeasure(job, s, a);
  }

  /** No run, whatever the schedule, is longer than the measure of its first state. */
  lemma {:induction false} RunIsBounded(job: Job, s: State, schedule: seq<Action>)
    requires Inv(job, s) && IsRun(job, s, schedule)
    ensures Inv(job, After(job, s, schedule))
    ensures 0 <= Measure(job, After(job, s, schedule)) <= Measure(job, s) - |schedule|
    decreases |schedule|
  {
    if schedule == [] {
      MeasureNonNegative(job, s);
    } else {
      MeasureFalls(job, s, schedule[0]);
      StepKeepsInv(job, s, schedule[0]);
      RunIsBounded(job, Next(job, s, schedule[0]), schedule[1..]);
    }
  }

  // ---- Main results ----

  /** In every reachable state the file holds the successful encodings of a prefix of the list, in list order. */
  lemma RecordIsAlwaysAPrefix(job: Job, schedule: seq<Action>)
    requires ValidJob(job) && IsRun(job, Start(job), schedule)
    ensures
      var w := After(job, Start(job), schedule).writer;
      && w.count <= |job.items| && w.record == Written(job, w.count)
      && HoldsEncodings(job, w.count, w.record)
  {
    StartInv(job);
    RunKeepsInv(job, Start(job), schedule);
    WrittenHolds(job, After(job, Start(job), schedule).writer.count);
  }

  /** In every reachable state a fed item is in exactly one place and an unfed one in none; queues never overflow. */
  lemma ItemsAreConserved(job: Job, schedule: seq<Action>)
    requires ValidJob(job) && IsRun(job, Start(job), schedule)
    ensures
      var s := After(job, Start(job), schedule);
      OnePlaceEach(job, s) && Bounded(job, s)
  {
    StartInv(job);
    RunKeepsInv(job, Start(job), schedule);
  }

  lemma StoppedWriterIsComplete(job: Job, s: State)
    requires Inv(job, s) && s.writer.Stopped()
    ensures s.writer.count == |job.items| && s.writer.buf == map[]
    ensures s.outbox == [] && forall r :: 0 <= r < job.readers ==> s.inbox[r] == [] && s.readers[r].Exited?
  {
    assert FinishSent(s.feeder);
    forall r | 0 <= r < job.readers
      ensures s.inbox[r] == [] && s.readers[r].Exited?
    {
      assert GoodLane(job, s.feeder, r, s.inbox[r], s.readers[r]);
    }
    forall i | 0 <= i < |job.items|
      ensures i in s.writer.buf <==> i >= s.writer.count
    {
      assert Places(job, s, i) == 1;
    }
  }

  /** When the writer stops, in any interleaving, it has written the whole list and holds nothing back. */
  lemma WriterStopsOnlyWhenComplete(job: Job, schedule: seq<Action>)
    requires ValidJob(job) && IsRun(job, Start(job), schedule)
    requires After(job, Start(job), schedule).writer.Stopped()
    ensures
      var s := After(job, Start(job), schedule);
      && s.writer.count == |job.items| && s.writer.buf == map[] && s.outbox == []
      && s.writer.record == Written(job, |job.items|)
      && HoldsEncodings(job, |job.items|, s.writer.record)
  {
    StartInv(job);
    RunKeepsInv(job, Start(job), schedule);
    StoppedWriterIsComplete(job, After(job, Start(job), schedule));
    WrittenHolds(job, |job.items|);
  }

  /** A run that no process can extend has ended properly, and its file is the whole list in order. */
  lemma MaximalRunsSucceed(job: Job, schedule: seq<Action>)
    requires ValidJob(job) && IsRun(job, Start(job), schedule)
    requires forall a :: !Enabled(job, After(job, Start(job), schedule), a)
    ensures
      var s := After(job, Start(job), schedule);
      && s.feeder.Done? && s.writer.Stopped() && s.writer.record == Written(job, |job.items|)
      && HoldsEncodings(job, |job.items|, s.writer.record)
  {
    StartInv(job);
    RunKeepsInv(job, Start(job), schedule);
    var s := After(job, Start(job), schedule);
    if !s.feeder.Done? {
      var a := NeverStuck(job, s);
    }
    StoppedWriterIsComplete(job, s);
    WrittenHolds(job, |job.items|);
  }

  lemma {:induction false} RunAppend(job: Job, s: State, schedule: seq<Action>, a: Action)
    requires IsRun(job, s, schedule) && Enabled(job, After(job, s, schedule), a)
    ensures IsRun(job, s, schedule + [a]) && After(job, s, schedule + [a]) == Next(job, After(job, s, schedule), a)
    decreases |schedule|
  {
    if schedule == [] {
      assert (schedule + [a])[1..] == [];
    } else {
      RunAppend(job, Next(job, s, schedule[0]), schedule[1..], a);
      assert (schedule + [a])[1..] == schedule[1..] + [a];
    }
  }

  /** Every partial run can be completed, and no schedule at all runs for more than a fixed number of steps. */
  lemma {:induction false} EveryRunCompletes(job: Job, schedule: seq<Action>) returns (whole: seq<Action>)
    requires ValidJob(job) && IsRun(job, Start(job), schedule)
    ensures schedule <= whole && IsRun(job, Start(job), whole)
    ensures After(job, Start(job), whole).feeder.Done?
    ensures |whole| <= Measure(job, Start(job))
    decreases Measure(job, Start(job)) - |schedule|
  {
    StartInv(job);
    RunKeepsInv(job, Start(job), schedule);
    RunIsBounded(job, Start(job), schedule);
    var s := After(job, Start(job), schedule);
    if s.feeder.Done? {
      whole := schedule;
    } else {
      var a := NeverStuck(job, s);
      RunAppend(job, Start(job), schedule, a);
      MeasureFalls(job, s, a);
      whole := EveryRunCompletes(job, schedule + [a]);
    }
  }

  // ---- write_worker by itself, and the single-threaded branch ----

  /** Index i has arrived in the given parcels. */
  ghost predicate Arrived(parcels: seq<Parcel>, i: nat) {
    exists j :: 0 <= j < |parcels| && parcels[j].Packed? && parcels[j].index == i
  }

  /** What the writer knows after receiving the given parcels: each is buffered or already counted. */
  ghost predicate Collected(job: Job, w: Writer, parcels: seq<Parcel>) {
    && GoodWriter(job, w)
    && (forall i: nat :: i < w.count || i in w.buf ==> Arrived(parcels, i))
    && (forall i: nat :: Arrived(parcels, i) ==> i < w.count || i in w.buf)
  }

  lemma ArrivedAppend(parcels: seq<Parcel>, p: Parcel, i: nat)
    requires p.Packed?
    ensures Arrived(parcels + [p], i) <==> Arrived(parcels, i) || p.index == i
  {
    var all := parcels + [p];
    assert all[|parcels|] == p;
    if Arrived(parcels, i) {
      var j :| 0 <= j < |parcels| && parcels[j].Packed? && parcels[j].index == i;
      assert all[j] == parcels[j];
    }
  }

  lemma AcceptCollects(job: Job, w: Writer, parcels: seq<Parcel>, p: Parcel)
    requires Collected(job, w, parcels) && p.Packed? && GoodParcel(job, p)
    ensures Collected(job, Accept(w, p), parcels + [p])
  {
    forall i: nat
      ensures Arrived(parcels + [p], i) <==> Arrived(parcels, i) || p.index == i
    {
      ArrivedAppend(parcels, p, i);
    }
  }

  lemma DrainCollects(job: Job, w: Writer, parcels: seq<Parcel>)
    requires Collected(job, w, parcels)
    ensures Collected(job, DrainOne(w), parcels)
    ensures w.count in w.buf ==> |DrainOne(w).buf| < |w.buf|
  {
    var w' := DrainOne(w);
    if w.count in w.buf {
      assert w'.buf.Keys == w.buf.Keys - {w.count};
    }
  }

  /**
   * write_worker on the messages it receives before the sentinel, in any order and with any indices
   * missing or repeated: it writes exactly the items below the first index that never arrived.
   */
  method WriteWorker(ghost job: Job, parcels: seq<Parcel>) returns (count: nat, record: seq<(int, Bytes)>)
    requires forall j :: 0 <= j < |parcels| ==> parcels[j].Packed? && GoodParcel(job, parcels[j])
    ensures count <= |job.items| && record == Written(job, count)
    ensures HoldsEncodings(job, count, record)
    ensures forall i: nat :: i < count ==> Arrived(parcels, i)
    ensures !Arrived(parcels, count)
  {
    var w := StartWriter();
    var next := 0;
    while w.more
      invariant next <= |parcels| && (!w.more ==> next == |parcels|)
      invariant !w.draining && Collected(job, w, parcels[..next])
      decreases |parcels| - next, w.more
    {
      if next < |parcels| {
        AcceptCollects(job, w, parcels[..next], parcels[next]);
        assert parcels[..next] + [parcels[next]] == parcels[..next + 1];
        w := Accept(w, parcels[next]);
        next := next + 1;
      } else {
        w := Accept(w, Finish);
      }
      ghost var more := w.more;
      while w.draining
        invariant w.more == more && Collected(job, w, parcels[..next])
        decreases w.draining, |w.buf|
      {
        DrainCollects(job, w, parcels[..next]);
        w := DrainOne(w);
      }
    }
    assert parcels[..next] == parcels;
    count, record := w.count, w.record;
    assert HoldsEncodings(job, count, record) by {
      WrittenHolds(job, count);
    }
  }

  /** When the parcels are those of the whole list, in any order whatever, every index arrives. */
  lemma AnyOrderIsComplete(job: Job, parcels: seq<Parcel>, i: nat)
    requires multiset(parcels) == multiset(seq(|job.items|, j requires 0 <= j < |job.items| => ParcelOf(job, j)))
    requires i < |job.items|
    ensures Arrived(parcels, i)
  {
    var all := seq(|job.items|, j requires 0 <= j < |job.items| => ParcelOf(job, j));
    assert all[i] in multiset(all);
    assert ParcelOf(job, i) in parcels;
  }

  /** Index of the first item that cannot be encoded, or the length of the list. */
  function FirstFailure(job: Job): (k: nat)
    ensures k <= |job.items|
    ensures forall i :: 0 <= i < k ==> job.encode(job.items[i]).Some?
    ensures k < |job.items| ==> job.encode(job.items[k]).None?
  {
    FirstFailureFrom(job, 0)
  }

  function FirstFailureFrom(job: Job, from: nat): (k: nat)
    requires from <= |job.items|
    ensures from <= k <= |job.items|
    ensures forall i :: from <= i < k ==> job.encode(job.items[i]).Some?
    ensures k < |job.items| ==> job.encode(job.items[k]).None?
    decreases |job.items| - from
  {
    if from == |job.items| || job.encode(job.items[from]).None? then from else FirstFailureFrom(job, from + 1)
  }

  /**
   * The branch without multiprocessing. It hands the encoding to write_idx unchecked, which raises on
   * None, so it stops at the first failure with the records before it in the file.
   */
  method SingleThread(job: Job) returns (raised: bool, record: seq<(int, Bytes)>)
    ensures raised <==> FirstFailure(job) < |job.items|
    ensures record == Written(job, FirstFailure(job))
    ensures |record| == FirstFailure(job) && HoldsEncodings(job, FirstFailure(job), record)
  {
    assert HoldsEncodings(job, FirstFailure(job), Written(job, FirstFailure(job))) by {
      WrittenHolds(job, FirstFailure(job));
    }
    record := [];
    for i := 0 to |job.items|
      invariant i <= FirstFailure(job)
      invariant record == Written(job, i) && |record| == i
    {
      var s := job.encode(job.items[i]);
      if s.None? {
        return true, record;
      }
      record := record + [(job.items[i].key, s.value)];
    }
    return false, record;
  }

  lemma {:induction false} WrittenGrows(job: Job, j: nat, k: nat)
    requires j <= k <= |job.items|
    ensures Written(job, j) <= Written(job, k)
  {
    if j < k {
      WrittenGrows(job, j, k - 1);
    }
  }

  /** Going on from item j to item k adds nothing to the file exactly when no item between them can be encoded. */
  lemma {:induction false} WrittenStaysIff(job: Job, j: nat, k: nat)
    requires j <= k <= |job.items|
    ensures Written(job, k) == Written(job, j) <==> forall i :: j <= i < k ==> job.encode(job.items[i]).None?
  {
    if j < k {
      WrittenStaysIff(job, j, k - 1);
      WrittenGrows(job, j, k - 1);
    }
  }

  /**
   * The two branches of the program: every completed parallel run writes a file that extends the
   * single-threaded one, and the two files are equal exactly when nothing after the first failure can be encoded.
   */
  lemma ParallelMatchesSingleThread(job: Job, schedule: seq<Action>)
    requires ValidJob(job) && IsRun(job, Start(job), schedule)
    requires After(job, Start(job), schedule).feeder.Done?
    ensures
      var file := After(job, Start(job), schedule).writer.record;
      && Written(job, FirstFailure(job)) <= file
      && (file == Written(job, FirstFailure(job)) <==>
          forall i :: FirstFailure(job) < i < |job.items| ==> job.encode(job.items[i]).None?)
  {
    StartInv(job);
    RunKeepsInv(job, Start(job), schedule);
    StoppedWriterIsComplete(job, After(job, Start(job), schedule));
    WrittenGrows(job, FirstFailure(job), |job.items|);
    WrittenStaysIff(job, FirstFailure(job), |job.items|);
  }

  /** Two items, of which only the second can be encoded. */
  function TwoItems(): Job {
    Job([Item(1, "a.jpg", []), Item(2, "b.jpg", [])], 1, 1, (item: Item) => if item.key == 2 then Some([7]) else None)
  }

  /** A job on which the branches differ: the single thread writes nothing, a finished parallel run item 2. */
  lemma BranchesDifferExample() returns (schedule: seq<Action>)
    ensures ValidJob(TwoItems()) && IsRun(TwoItems(), Start(TwoItems()), schedule)
    ensures After(TwoItems(), Start(TwoItems()), schedule).feeder.Done?
    ensures After(TwoItems(), Start(TwoItems()), schedule).writer.record == [(2, [7])]
    ensures FirstFailure(TwoItems()) == 0 && Written(TwoItems(), 0) == []
  {
    var job := TwoItems();
    schedule := EveryRunCompletes(job, []);
    StartInv(job);
    RunKeepsInv(job, Start(job), schedule);
    StoppedWriterIsComplete(job, After(job, Start(job), schedule));
    assert job.encode(job.items[0]).None? && job.encode(job.items[1]) == Some([7]);
    assert Written(job, 1) == [];
    assert Written(job, 2) == [(2, [7])];
  }
}
