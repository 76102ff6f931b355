/** The bounded producer/consumer queue between the row generator and the training loop.

The producer thread and the consumer interleave arbitrarily; every queue operation is one step. */
module Prefetch {
  import opened Options
  import opened Modular
  import opened CyclicRows

  /** A queue entry: an encoded row, or the error that ended the producer. */
  type Entry = Option<Sample>

  datatype State = State(
    prefetch: nat,             // how many batches the queue should hold
    started: bool,             // the queue and the producer exist
    base: nat,                 // the cursor at the last restore
    pulled: nat,               // rows the producer took from the generator since then
    inflight: seq<Entry>,      // encoded but not yet queued
    queue: seq<Entry>,
    capacity: nat,
    chunk: nat,
    producing: bool,           // the producer has not ended with an error
    waiting: Option<nat>,      // the size of the batch under construction
    partial: seq<Sample>,      // its rows so far
    delivered: seq<Sample>,    // the rows of completed batches since the last restore
    rowsConsumed: nat,
    raised: bool)              // the consumer was handed the error

  datatype Step = Fetch | Put | Begin(size: nat) | Get | Complete | Restore(cursor: nat)

  /** A source at a cursor; its queue is sized and its producer started by the next batch. */
  function Opened(cursor: nat, prefetch: nat): State
    requires prefetch >= 1
  {
    State(prefetch, false, cursor, 0, [], [], 0, 0, true, None, [], [], cursor, false)
  }

  function Started(s: State, batchSize: nat): State {
    if s.started then s else
    s.(started := true,
       capacity := if batchSize * s.prefetch > batchSize then batchSize * s.prefetch else batchSize,
       chunk := if batchSize < 256 then batchSize else 256)
  }

  predicate Enabled(s: State, step: Step) {
    match step
    case Fetch => s.started && s.producing && s.inflight == []
    case Put => s.inflight != [] && |s.queue| < s.capacity
    case Begin(size) => s.waiting.None? && size >= 1
    case Get => s.waiting.Some? && |s.partial| < s.waiting.value && s.queue != []
    case Complete => s.waiting.Some? && |s.partial| == s.waiting.value
    case Restore(_) => s.waiting.None?
  }

  ghost function Apply(items: seq<Row>, encode: Encoder, s: State, step: Step): State
    requires items != []
  {
    if !Enabled(s, step) then s else
    match step
    case Fetch =>
      var rows := Cycle(items, s.base + s.pulled, s.chunk);
      if AllEncode(encode, rows) then
        s.(pulled := s.pulled + s.chunk,
           inflight := seq(s.chunk, i requires 0 <= i < s.chunk => encode(rows[i])))
      else
        // a row that does not encode costs its whole chunk
        s.(pulled := s.pulled + s.chunk, inflight := [None], producing := false)
    case Put => s.(queue := s.queue + [s.inflight[0]], inflight := s.inflight[1..])
    case Begin(size) => Started(s, size).(waiting := Some(size), partial := [])
    case Get =>
      if s.queue[0].Some?
      then s.(queue := s.queue[1..], partial := s.partial + [s.queue[0].value])
      else s.(queue := s.queue[1..], partial := [], waiting := None, raised := true)
    case Complete =>
      s.(waiting := None, partial := [], delivered := s.delivered + s.partial,
         rowsConsumed := s.rowsConsumed + |s.partial|)
    case Restore(cursor) =>
      // the producer is stopped, its queue dropped, and a new generator is put at the cursor
      if s.prefetch >= 1 then Opened(cursor, s.prefetch) else s
  }

  ghost function Exec(items: seq<Row>, encode: Encoder, s: State, steps: seq<Step>): State
    requires items != []
    decreases |steps|
  {
    if steps == [] then s
    else Apply(items, encode, Exec(items, encode, s, steps[..|steps| - 1]), steps[|steps| - 1])
  }

  // ---------------------------------------------------------------- the invariant

  function Entries(samples: seq<Sample>): (entries: seq<Entry>)
    ensures |entries| == |samples| && forall i :: 0 <= i < |samples| ==> entries[i] == Some(samples[i])
  {
    seq(|samples|, i requires 0 <= i < |samples| => Some(samples[i]))
  }

  /** Everything that left the generator and was not dropped, in order. */
  function Line(s: State): seq<Entry> {
    Entries(s.delivered + s.partial) + s.queue + s.inflight
  }

  /** The line is the encoded repetition from the base cursor, up to an error at its very end. */
  ghost predicate InOrder(items: seq<Row>, encode: Encoder, s: State)
    requires items != []
  {
    var line := Line(s);
    var good := if s.producing || s.raised || line == [] then |line| else |line| - 1;
    && (!s.producing && !s.raised ==> line != [] && line[|line| - 1] == None && (s.queue + s.inflight != []))
    && forall i :: 0 <= i < good ==> line[i].Some? && line[i] == encode(items[(s.base + i) % |items|])
  }

  ghost predicate Inv(items: seq<Row>, encode: Encoder, s: State)
    requires items != []
  {
    && s.prefetch >= 1
    && (s.started ==> s.chunk >= 1 && s.capacity >= 1)
    && (s.waiting.Some? || s.raised ==> s.started)
    && (s.producing ==> |Line(s)| == s.pulled)
    && (s.raised ==> !s.producing && s.queue == [] && s.inflight == [])
    && (s.waiting.Some? ==> |s.partial| <= s.waiting.value)
    && (s.waiting.None? ==> s.partial == [])
    && s.rowsConsumed == s.base + |s.delivered|
    && InOrder(items, encode, s)
  }

  lemma FetchKeeps(items: seq<Row>, encode: Encoder, s: State)
    requires items != [] && Inv(items, encode, s) && Enabled(s, Fetch)
    ensures Inv(items, encode, Apply(items, encode, s, Fetch))
  {
    hide Line, InOrder, Cycle, AllEncode;
    FetchGrowsLine(items, encode, s);
    FetchInOrder(items, encode, s);
  }

  lemma FetchGrowsLine(items: seq<Row>, encode: Encoder, s: State)
    requires items != [] && Enabled(s, Fetch)
    ensures var s' := Apply(items, encode, s, Fetch);
      Line(s') == Line(s) + s'.inflight && |s'.inflight| == if s'.producing then s.chunk else 1
  {
    hide Cycle, AllEncode;
  }

  lemma FetchInOrder(items: seq<Row>, encode: Encoder, s: State)
    requires items != [] && Inv(items, encode, s) && Enabled(s, Fetch)
    ensures InOrder(items, encode, Apply(items, encode, s, Fetch))
  {
    hide Line;
    FetchGrowsLine(items, encode, s);
    var s' := Apply(items, encode, s, Fetch);
    var rows := Cycle(items, s.base + s.pulled, s.chunk);
    if AllEncode(encode, rows) {
      forall i | 0 <= i < |Line(s')|
        ensures Line(s')[i].Some? && Line(s')[i] == encode(items[(s.base + i) % |items|])
      {
        if i >= |Line(s)| {
          assert Line(s')[i] == s'.inflight[i - s.pulled] == encode(rows[i - s.pulled]);
          assert s.base + s.pulled + (i - s.pulled) == s.base + i;
        }
      }
    }
  }

  /** Moving entries along the line keeps it. */
  lemma SameLineKeeps(items: seq<Row>, encode: Encoder, s: State, s': State)
    requires items != [] && Inv(items, encode, s)
    requires Line(s') == Line(s) && s'.base == s.base && s'.pulled == s.pulled
    requires s'.producing == s.producing && s'.raised == s.raised
    requires |s'.queue + s'.inflight| == |s.queue + s.inflight|
             || (s.queue != [] && s.queue[0].Some? && s'.queue == s.queue[1..] && s'.inflight == s.inflight)
    ensures InOrder(items, encode, s')
    ensures s'.producing ==> |Line(s')| == s'.pulled
  {
    assert s.queue != [] ==> Line(s)[|s.delivered + s.partial|] == s.queue[0];
  }

  lemma QueueStepMoves(items: seq<Row>, encode: Encoder, s: State, step: Step)
    requires items != [] && Enabled(s, step) && (s.waiting.None? ==> s.partial == [])
    requires step.Put? || step.Complete? || step.Begin? || (step.Get? && s.queue[0].Some?)
    ensures Line(Apply(items, encode, s, step)) == Line(s)
  {
    hide Cycle, AllEncode;
  }

  lemma QueueStepKeeps(items: seq<Row>, encode: Encoder, s: State, step: Step)
    requires items != [] && Inv(items, encode, s) && Enabled(s, step)
    requires step.Put? || step.Complete? || step.Begin? || (step.Get? && s.queue[0].Some?)
    ensures Inv(items, encode, Apply(items, encode, s, step))
  {
    hide Line, InOrder, Cycle, AllEncode;
    QueueStepMoves(items, encode, s, step);
    SameLineKeeps(items, encode, s, Apply(items, encode, s, step));
  }

  lemma RaiseKeeps(items: seq<Row>, encode: Encoder, s: State)
    requires items != [] && Inv(items, encode, s) && Enabled(s, Get) && s.queue[0].None?
    ensures Inv(items, encode, Apply(items, encode, s, Get))
  {
    // the error is the last entry, so nothing is behind it
    var s' := Apply(items, encode, s, Get);
    var at := |s.delivered + s.partial|;
    assert Line(s)[at] == None;
    assert at == |Line(s)| - 1;
    assert |s.queue| + |s.inflight| == 1;
    forall i | 0 <= i < |Line(s')|
      ensures Line(s')[i].Some? && Line(s')[i] == encode(items[(s.base + i) % |items|])
    {
      assert Line(s')[i] == Line(s)[i];
    }
  }

  lemma {:induction false} InvExec(items: seq<Row>, encode: Encoder, s: State, steps: seq<Step>)
    requires items != [] && Inv(items, encode, s)
    ensures Inv(items, encode, Exec(items, encode, s, steps))
    decreases |steps|
  {
    if steps != [] {
      var init, last := steps[..|steps| - 1], steps[|steps| - 1];
      InvExec(items, encode, s, init);
      var now := Exec(items, encode, s, init);
      if Enabled(now, last) {
        match last
        case Fetch => FetchKeeps(items, encode, now);
        case Restore(_) =>
        case Get =>
          if now.queue[0].Some? { QueueStepKeeps(items, encode, now, last); } else { RaiseKeeps(items, encode, now); }
        case _ => QueueStepKeeps(items, encode, now, last);
      }
    }
  }

  /** The first batch sizes the queue for `prefetch` batches, and the chunk to a batch but at most 256 rows; later
      batches leave both alone. */
  lemma FirstBatchSizesQueue(items: seq<Row>, encode: Encoder, s: State, size: nat)
    requires items != [] && Enabled(s, Begin(size))
    ensures var t := Apply(items, encode, s, Begin(size));
      if s.started then t.capacity == s.capacity && t.chunk == s.chunk
      else t.capacity == size * (if s.prefetch == 0 then 1 else s.prefetch) && 1 <= t.chunk <= size && t.chunk <= 256
           && (t.chunk == size || t.chunk == 256)
  {
    hide Cycle, AllEncode;
    if s.prefetch >= 2 { MulMonotone(size, 2, s.prefetch); }
  }

  ghost predicate Bounded(s: State) {
    && |s.queue| <= s.capacity && |s.inflight| <= 256 && s.chunk <= 256
    && (s.started ==> s.chunk >= 1) && (!s.started ==> s.queue == [] && s.inflight == [])
  }

  /** The producer never runs ahead of what was handed out by more than the queue and one chunk. */
  lemma LookAheadIsBounded(items: seq<Row>, encode: Encoder, cursor: nat, prefetch: nat,
                           steps: seq<Step>)
    requires items != [] && prefetch >= 1
    ensures var s := Exec(items, encode, Opened(cursor, prefetch), steps);
      && Bounded(s)
      && (s.producing ==> s.pulled <= |s.delivered| + |s.partial| + s.capacity + 256)
  {
    hide Line, InOrder, Apply, Exec, Bounded, Inv;
    var s0 := Opened(cursor, prefetch);
    InvOpened(items, encode, cursor, prefetch);
    InvExec(items, encode, s0, steps);
    assert Bounded(s0) by { BoundedOpened(cursor, prefetch); }
    BoundedExec(items, encode, s0, steps);
    AheadOf(items, encode, Exec(items, encode, s0, steps));
  }

  lemma BoundedOpened(cursor: nat, prefetch: nat)
    requires prefetch >= 1
    ensures Bounded(Opened(cursor, prefetch))
  {
  }

  lemma {:induction false} BoundedExec(items: seq<Row>, encode: Encoder, s: State, steps: seq<Step>)
    requires items != [] && Bounded(s)
    ensures Bounded(Exec(items, encode, s, steps))
    decreases |steps|
  {
    hide Apply, Bounded;
    if steps != [] {
      BoundedExec(items, encode, s, steps[..|steps| - 1]);
      BoundedStep(items, encode, Exec(items, encode, s, steps[..|steps| - 1]), steps[|steps| - 1]);
    }
  }

  lemma BoundedStep(items: seq<Row>, encode: Encoder, s: State, step: Step)
    requires items != [] && Bounded(s)
    ensures Bounded(Apply(items, encode, s, step))
  {
    hide Cycle, AllEncode;
    if step.Begin? && Enabled(s, step) { FirstBatchSizesQueue(items, encode, s, step.size); }
  }

  lemma AheadOf(items: seq<Row>, encode: Encoder, s: State)
    requires items != [] && Inv(items, encode, s) && Bounded(s)
    ensures s.producing ==> s.pulled <= |s.delivered| + |s.partial| + s.capacity + 256
  {
    hide Line, InOrder;
    LineLength(s);
  }

  lemma LineLength(s: State)
    ensures |Line(s)| == |s.delivered| + |s.partial| + |s.queue| + |s.inflight|
  {
  }

  // ---------------------------------------------------------------- what the consumer sees

  /** For every schedule of producer and consumer steps, batch sizes and restores: the rows delivered since
      the last restore are the synchronous ones, none lost, repeated or reordered, and the cursor counts
      exactly those, however far the producer ran ahead. */
  lemma PrefetchRefinesSynchronous(items: seq<Row>, encode: Encoder, cursor: nat, prefetch: nat, steps: seq<Step>)
    requires items != [] && prefetch >= 1
    ensures var s := Exec(items, encode, Opened(cursor, prefetch), steps);
      && s.rowsConsumed == s.base + |s.delivered|
      && AllEncode(encode, Cycle(items, s.base, |s.delivered|))
      && s.delivered == Encoded(encode, Cycle(items, s.base, |s.delivered|))
  {
    var s0 := Opened(cursor, prefetch);
    InvExec(items, encode, s0, steps);
    var s := Exec(items, encode, s0, steps);
    var due := Cycle(items, s.base, |s.delivered|);
    forall i | 0 <= i < |s.delivered| ensures encode(due[i]) == Some(s.delivered[i]) {
      assert Line(s)[i] == Some(s.delivered[i]);
    }
  }

  /** A batch that is waiting can always make progress, by the producer or the consumer, exactly until an
      error has been handed out; after that nothing will ever reach the queue again. */
  lemma ProgressIff(items: seq<Row>, encode: Encoder, s: State)
    requires items != [] && Inv(items, encode, s) && s.waiting.Some?
    ensures (Enabled(s, Fetch) || Enabled(s, Put) || Enabled(s, Get) || Enabled(s, Complete))
            <==> !s.raised || |s.partial| == s.waiting.value
  {
    if !s.raised && |s.partial| < s.waiting.value && s.queue == [] && s.inflight == [] {
      assert s.producing;
    }
  }

  /** A batch that waits after the error was handed out waits for ever: no schedule changes anything. */
  lemma {:induction false} StuckForEver(items: seq<Row>, encode: Encoder, s: State, steps: seq<Step>)
    requires items != [] && Inv(items, encode, s)
    requires s.raised && s.waiting.Some? && |s.partial| < s.waiting.value
    ensures Exec(items, encode, s, steps) == s
    decreases |steps|
  {
    hide InOrder;
    if steps != [] { StuckForEver(items, encode, s, steps[..|steps| - 1]); }
  }

  /** Between batches, with nothing pulled ahead. */
  predicate Quiet(s: State) {
    && s.prefetch >= 1 && s.producing && !s.raised && s.queue == [] && s.inflight == []
    && s.waiting.None? && s.partial == [] && (s.started ==> s.capacity >= 1 && s.chunk >= 1)
  }

  /** How many rows the producer of such a source pulls at a time once a batch of this size was asked for. */
  function ChunkFor(s: State, size: nat): nat {
    if s.started then s.chunk else if size < 256 then size else 256
  }

  lemma CapacityIsPositive(size: nat, prefetch: nat)
    requires size >= 1 && prefetch >= 1
    ensures size * prefetch >= 1
  {
  }

  lemma BeginQuiet(items: seq<Row>, encode: Encoder, s: State, size: nat)
    requires items != [] && Quiet(s) && size >= 1
    ensures var t := Apply(items, encode, s, Begin(size));
      t.capacity >= 1 &&
      t == s.(started := true, capacity := t.capacity, chunk := ChunkFor(s, size), waiting := Some(size))
  {
    hide Cycle, AllEncode;
    CapacityIsPositive(size, s.prefetch);
  }

  lemma FetchError(items: seq<Row>, encode: Encoder, s: State)
    requires items != [] && Enabled(s, Fetch) && !AllEncode(encode, Cycle(items, s.base + s.pulled, s.chunk))
    ensures Apply(items, encode, s, Fetch) == s.(pulled := s.pulled + s.chunk, inflight := [None], producing := false)
  {
    hide Cycle, AllEncode;
  }

  lemma FetchOne(items: seq<Row>, encode: Encoder, s: State)
    requires items != [] && Enabled(s, Fetch) && s.chunk == 1
    requires encode(items[(s.base + s.pulled) % |items|]).Some?
    ensures Apply(items, encode, s, Fetch) ==
      s.(pulled := s.pulled + 1, inflight := [encode(items[(s.base + s.pulled) % |items|])])
  {
    var rows := Cycle(items, s.base + s.pulled, 1);
    assert rows[0] == items[(s.base + s.pulled) % |items|];
    assert AllEncode(encode, rows);
    assert seq(1, i requires 0 <= i < 1 => encode(rows[i])) == [encode(rows[0])];
  }

  lemma PutOne(items: seq<Row>, encode: Encoder, s: State, e: Entry)
    requires items != [] && s.inflight == [e] && s.queue == [] && s.capacity >= 1
    ensures Apply(items, encode, s, Put) == s.(queue := [e], inflight := [])
  {
    hide Cycle, AllEncode;
  }

  lemma GetError(items: seq<Row>, encode: Encoder, s: State)
    requires items != [] && s.waiting.Some? && |s.partial| < s.waiting.value && s.queue == [None]
    ensures Apply(items, encode, s, Get) == s.(queue := [], partial := [], waiting := None, raised := true)
  {
    hide Cycle, AllEncode;
  }

  lemma GetOne(items: seq<Row>, encode: Encoder, s: State, v: Sample)
    requires items != [] && s.waiting == Some(1) && s.partial == [] && s.queue == [Some(v)]
    ensures Apply(items, encode, s, Get) == s.(queue := [], partial := [v])
  {
    hide Cycle, AllEncode;
  }

  lemma CompleteOne(items: seq<Row>, encode: Encoder, s: State, v: Sample)
    requires items != [] && s.waiting == Some(1) && s.partial == [v]
    ensures Apply(items, encode, s, Complete) ==
      s.(waiting := None, partial := [], delivered := s.delivered + [v], rowsConsumed := s.rowsConsumed + 1)
  {
    hide Cycle, AllEncode;
  }

  lemma BeginAgain(items: seq<Row>, encode: Encoder, s: State, size: nat)
    requires items != [] && s.started && s.waiting.None? && s.partial == [] && size >= 1
    ensures Apply(items, encode, s, Begin(size)) == s.(waiting := Some(size))
  {
    hide Cycle, AllEncode;
  }

  /** A quiet source whose next chunk does not encode raises at its next batch; the one after that is stuck. */
  lemma NextBatchRaises(items: seq<Row>, encode: Encoder, s: State, size: nat)
    requires items != [] && Quiet(s) && size >= 1
    requires !AllEncode(encode, Cycle(items, s.base + s.pulled, ChunkFor(s, size)))
    ensures var s' := Exec(items, encode, s, [Begin(size), Fetch, Put, Get, Begin(size)]);
      s'.raised && s'.waiting == Some(size) && s'.partial == [] && s'.rowsConsumed == s.rowsConsumed
  {
    hide Cycle, AllEncode, Apply, Exec;
    BeginQuiet(items, encode, s, size);
    var s1 := Apply(items, encode, s, Begin(size));
    FetchError(items, encode, s1);
    var s2 := Apply(items, encode, s1, Fetch);
    PutOne(items, encode, s2, None);
    var s3 := Apply(items, encode, s2, Put);
    GetError(items, encode, s3);
    var s4 := Apply(items, encode, s3, Get);
    BeginAgain(items, encode, s4, size);
    FiveSteps(items, encode, s, Begin(size), Fetch, Put, Get, Begin(size));
  }

  /** And one whose next row encodes can deliver it alone and be quiet again. */
  lemma NextRowDelivers(items: seq<Row>, encode: Encoder, s: State)
    requires items != [] && Quiet(s) && ChunkFor(s, 1) == 1
    requires encode(items[(s.base + s.pulled) % |items|]).Some?
    ensures var s' := Exec(items, encode, s, [Begin(1), Fetch, Put, Get, Complete]);
      Quiet(s') && ChunkFor(s', 1) == 1 && s'.base == s.base && s'.pulled == s.pulled + 1
  {
    hide Cycle, AllEncode, Apply, Exec;
    var e := encode(items[(s.base + s.pulled) % |items|]);
    BeginQuiet(items, encode, s, 1);
    var s1 := Apply(items, encode, s, Begin(1));
    FetchOne(items, encode, s1);
    var s2 := Apply(items, encode, s1, Fetch);
    PutOne(items, encode, s2, e);
    var s3 := Apply(items, encode, s2, Put);
    GetOne(items, encode, s3, e.value);
    var s4 := Apply(items, encode, s3, Get);
    CompleteOne(items, encode, s4, e.value);
    FiveSteps(items, encode, s, Begin(1), Fetch, Put, Get, Complete);
  }

  /** A schedule that reads row by row up to an unencodable one, d rows ahead. */
  lemma {:induction false} ScheduleToError(items: seq<Row>, encode: Encoder, s: State, d: nat)
    returns (steps: seq<Step>)
    requires items != [] && Quiet(s) && ChunkFor(s, 1) == 1
    requires encode(items[(s.base + s.pulled + d) % |items|]).None?
    ensures var s' := Exec(items, encode, s, steps);
      s'.raised && s'.waiting == Some(1) && s'.partial == []
    decreases d
  {
    hide Exec, Quiet, ChunkFor;
    if encode(items[(s.base + s.pulled) % |items|]).None? {
      OneRowDoesNotEncode(items, encode, s.base + s.pulled);
      NextBatchRaises(items, encode, s, 1);
      steps := [Begin(1), Fetch, Put, Get, Begin(1)];
    } else {
      NextRowDelivers(items, encode, s);
      var first := [Begin(1), Fetch, Put, Get, Complete];
      var rest := ScheduleToError(items, encode, Exec(items, encode, s, first), d - 1);
      ExecConcat(items, encode, s, first, rest);
      steps := first + rest;
    }
  }

  lemma OneRowDoesNotEncode(items: seq<Row>, encode: Encoder, at: nat)
    requires items != [] && encode(items[at % |items|]).None?
    ensures !AllEncode(encode, Cycle(items, at, 1))
  {
    assert Cycle(items, at, 1)[0] == items[at % |items|];
  }

  lemma {:induction false} ExecConcat(items: seq<Row>, encode: Encoder, s: State, a: seq<Step>, b: seq<Step>)
    requires items != []
    ensures Exec(items, encode, s, a + b) == Exec(items, encode, Exec(items, encode, s, a), b)
    decreases |b|
  {
    hide Apply;
    if b == [] {
      assert a + b == a;
    } else {
      assert (a + b)[..|a + b| - 1] == a + b[..|b| - 1];
      ExecConcat(items, encode, s, a, b[..|b| - 1]);
    }
  }

  /** Any source with an unencodable row in its first chunk gets there: its first batch raises, and the next
      one is stuck. */
  lemma UnencodableChunkSticks(items: seq<Row>, encode: Encoder, cursor: nat, prefetch: nat, size: nat)
    requires items != [] && prefetch >= 1 && size >= 1
    requires !AllEncode(encode, Cycle(items, cursor, if size < 256 then size else 256))
    ensures var s := Exec(items, encode, Opened(cursor, prefetch), [Begin(size), Fetch, Put, Get, Begin(size)]);
      && s.raised && s.waiting == Some(size) && s.partial == [] && s.rowsConsumed == cursor
      && forall steps :: Exec(items, encode, s, steps) == s
  {
    hide Exec, Inv, Cycle, AllEncode;
    var s0 := Opened(cursor, prefetch);
    NextBatchRaises(items, encode, s0, size);
    var steps := [Begin(size), Fetch, Put, Get, Begin(size)];
    StuckFrom(items, encode, cursor, prefetch, steps);
  }

  lemma StuckFrom(items: seq<Row>, encode: Encoder, cursor: nat, prefetch: nat, steps: seq<Step>)
    requires items != [] && prefetch >= 1
    requires var s := Exec(items, encode, Opened(cursor, prefetch), steps);
      s.raised && s.waiting.Some? && |s.partial| < s.waiting.value
    ensures var s := Exec(items, encode, Opened(cursor, prefetch), steps);
      forall more :: Exec(items, encode, s, more) == s
  {
    hide Exec, Inv, Opened;
    InvOpened(items, encode, cursor, prefetch);
    InvExec(items, encode, Opened(cursor, prefetch), steps);
    var s := Exec(items, encode, Opened(cursor, prefetch), steps);
    forall more ensures Exec(items, encode, s, more) == s { StuckForEver(items, encode, s, more); }
  }

  /** A source, opened anywhere, has a schedule that raises, and one that ends with a batch waiting for ever,
      exactly when some row of its split does not encode. */
  lemma SticksIff(items: seq<Row>, encode: Encoder, cursor: nat, prefetch: nat)
    requires items != [] && prefetch >= 1
    ensures (exists steps :: Exec(items, encode, Opened(cursor, prefetch), steps).raised) <==> !AllEncode(encode, items)
    ensures !AllEncode(encode, items) ==>
      exists steps :: StuckAfter(items, encode, Opened(cursor, prefetch), steps)
  {
    hide Exec;
    var s0 := Opened(cursor, prefetch);
    if AllEncode(encode, items) {
      forall steps ensures !Exec(items, encode, s0, steps).raised { CleanSourceNeverRaises(items, encode, s0, steps); }
    } else {
      var p :| 0 <= p < |items| && encode(items[p]).None?;
      var d := p + cursor * (|items| - 1);
      assert cursor + d == cursor * |items| + p;
      AddMultiple(cursor, p, |items|);
      SmallResidue(p, |items|);
      var steps := ScheduleToError(items, encode, s0, d);
      StuckFrom(items, encode, cursor, prefetch, steps);
      assert StuckAfter(items, encode, s0, steps);
    }
  }

  /** After these steps a batch waits, and no further step changes anything. */
  ghost predicate StuckAfter(items: seq<Row>, encode: Encoder, s: State, steps: seq<Step>)
    requires items != []
  {
    var s' := Exec(items, encode, s, steps);
    s'.raised && s'.waiting.Some? && forall more :: Exec(items, encode, s', more) == s'
  }

  lemma FiveSteps(items: seq<Row>, encode: Encoder, s: State, a: Step, b: Step, c: Step, d: Step, e: Step)
    requires items != []
    ensures var s2 := Apply(items, encode, Apply(items, encode, s, a), b);
      Exec(items, encode, s, [a, b, c, d, e]) ==
      Apply(items, encode, Apply(items, encode, Apply(items, encode, s2, c), d), e)
  {
    hide Apply, Exec;
    NoSteps(items, encode, s);
    ExecMore(items, encode, s, [], a);
    ExecMore(items, encode, s, [a], b);
    ExecMore(items, encode, s, [a, b], c);
    ExecMore(items, encode, s, [a, b, c], d);
    ExecMore(items, encode, s, [a, b, c, d], e);
    assert [] + [a] == [a] && [a] + [b] == [a, b] && [a, b] + [c] == [a, b, c];
    assert [a, b, c] + [d] == [a, b, c, d] && [a, b, c, d] + [e] == [a, b, c, d, e];
  }

  lemma NoSteps(items: seq<Row>, encode: Encoder, s: State)
    requires items != []
    ensures Exec(items, encode, s, []) == s
  {
  }

  lemma InvOpened(items: seq<Row>, encode: Encoder, cursor: nat, prefetch: nat)
    requires items != [] && prefetch >= 1
    ensures Inv(items, encode, Opened(cursor, prefetch))
  {
  }

  lemma ExecMore(items: seq<Row>, encode: Encoder, s: State, steps: seq<Step>, step: Step)
    requires items != []
    ensures Exec(items, encode, s, steps + [step]) == Apply(items, encode, Exec(items, encode, s, steps), step)
  {
    assert (steps + [step])[..|steps|] == steps;
  }

  /** A source whose rows all encode never raises. */
  lemma {:induction false} CleanSourceNeverRaises(items: seq<Row>, encode: Encoder, s: State, steps: seq<Step>)
    requires items != [] && s.producing && !s.raised && AllEncode(encode, items)
    requires forall i :: 0 <= i < |s.queue| ==> s.queue[i].Some?
    requires forall i :: 0 <= i < |s.inflight| ==> s.inflight[i].Some?
    ensures var s' := Exec(items, encode, s, steps);
      && s'.producing && !s'.raised
      && (forall i :: 0 <= i < |s'.queue| ==> s'.queue[i].Some?)
      && (forall i :: 0 <= i < |s'.inflight| ==> s'.inflight[i].Some?)
    decreases |steps|
  {
    if steps != [] {
      CleanSourceNeverRaises(items, encode, s, steps[..|steps| - 1]);
    }
  }
}
