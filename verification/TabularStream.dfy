/** The synchronous streaming source and the generator behind it. */
module TabularStream {
  import opened Options
  import opened Modular
  import opened CyclicRows

  datatype DatasetError = NoTrainingRows | Closed | NonPositiveBatch | InvalidCursor | NotEncodable

  /** The endless generator of training rows. */
  class TrainingRows {
    const rows: seq<Row>
    const train: Selector
    var index: nat
    var emitted: nat
    ghost var taken: nat  // how many rows the generator has yielded so far

    ghost predicate Valid()
      reads this
    {
      && index <= |rows| && emitted == |Selected(rows, train, index)|
      && var items := TrainRows(rows, train); items != [] ==> taken % |items| == emitted % |items|
    }

    constructor (rows: seq<Row>, train: Selector)
      ensures Valid() && taken == 0 && this.rows == rows && this.train == train
    {
      this.rows, this.train := rows, train;
      index, emitted, taken := 0, 0, 0;
    }

    /** Yields the next row of the repetition; fails exactly when the split is empty. */
    method Next() returns (r: Result<Row, DatasetError>)
      requires Valid()
      modifies this
      ensures Valid()
      ensures var items := TrainRows(rows, train);
        if items == [] then r == Err(NoTrainingRows)
        else r == Ok(items[old(taken) % |items|]) && taken == old(taken) + 1
    {
      ghost var items := TrainRows(rows, train);
      while true
        invariant Valid()
        invariant taken == old(taken)
        decreases emitted, |rows| - index
      {
        if index == |rows| {
          if emitted == 0 { return Err(NoTrainingRows); }
          SelfResidue(emitted);
          index, emitted := 0, 0;
        } else {
          var row := rows[index];
          if train(index, row) {
            NextSelected(rows, train, index);
            SmallResidue(emitted, |items|);
            SameResidueAfter(taken, emitted, 1, |items|);
            index, emitted, taken := index + 1, emitted + 1, taken + 1;
            return Ok(row);
          }
          index := index + 1;
        }
      }
    }
  }

  class StreamingTabularSource {
    const rows: seq<Row>
    const train: Selector
    const encode: Encoder
    const trainRecords: nat
    var generator: TrainingRows
    var rowsConsumed: nat
    var epoch: nat
    var closed: bool

    ghost predicate Valid()
      reads this, generator
    {
      && trainRecords >= 1
      && generator.rows == rows && generator.train == train && generator.Valid()
      && epoch == rowsConsumed / trainRecords
    }

    ghost function Items(): seq<Row> {
      TrainRows(rows, train)
    }

    /** The generator stands where the checkpoint cursor says it does. */
    ghost predicate InStep()
      reads this, generator
    {
      Items() != [] && generator.taken % |Items()| == rowsConsumed % |Items()|
    }

    constructor (rows: seq<Row>, train: Selector, encode: Encoder, trainRecords: nat)
      requires trainRecords >= 1
      ensures Valid() && fresh(generator) && rowsConsumed == 0 && !closed
      ensures this.rows == rows && this.train == train && this.encode == encode
      ensures this.trainRecords == trainRecords
      ensures Items() != [] ==> InStep()
    {
      this.rows, this.train, this.encode, this.trainRecords := rows, train, encode, trainRecords;
      generator := new TrainingRows(rows, train);
      rowsConsumed, epoch, closed := 0, 0, false;
    }

    /** Pull `count` rows from the generator. */
    method Pull(count: nat) returns (r: Result<seq<Row>, DatasetError>)
      requires Valid()
      modifies generator
      ensures Valid()
      ensures r.Err? <==> Items() == [] && count > 0
      ensures r.Err? ==> r.error == NoTrainingRows
      ensures r.Ok? && Items() != [] ==>
        r.value == Cycle(Items(), old(generator.taken), count) && generator.taken == old(generator.taken) + count
    {
      var pulled: seq<Row> := [];
      ghost var from := generator.taken;
      while |pulled| < count
        invariant |pulled| <= count && Valid()
        invariant Items() == [] ==> pulled == []
        invariant Items() != [] ==> pulled == Cycle(Items(), from, |pulled|) && generator.taken == from + |pulled|
        decreases count - |pulled|
      {
        var next := generator.Next();
        if next.Err? { return Err(next.error); }
        pulled := pulled + [next.value];
      }
      r := Ok(pulled);
    }

    method EncodeMany(pulled: seq<Row>) returns (r: Result<seq<Sample>, DatasetError>)
      ensures r.Ok? <==> AllEncode(encode, pulled)
      ensures r.Ok? ==> r.value == Encoded(encode, pulled)
      ensures r.Err? ==> r.error == NotEncodable
    {
      var values: seq<Sample> := [];
      while |values| < |pulled|
        invariant |values| <= |pulled|
        invariant AllEncode(encode, pulled[..|values|])
        invariant values == Encoded(encode, pulled[..|values|])
        decreases |pulled| - |values|
      {
        var sample := encode(pulled[|values|]);
        if sample.None? { return Err(NotEncodable); }
        values := values + [sample.value];
      }
      assert pulled[..|values|] == pulled;
      r := Ok(values);
    }

    /** A batch is the next stretch of the repetition at the cursor; the cursor counts delivered rows only. */
    method NextBatch(batchSize: int) returns (r: Result<seq<Sample>, DatasetError>)
      requires Valid()
      modifies this`rowsConsumed, this`epoch, generator
      ensures Valid()
      ensures r.Err? ==> rowsConsumed == old(rowsConsumed)
      ensures closed ==> r == Err(Closed)
      ensures !closed && batchSize < 1 ==> r == Err(NonPositiveBatch)
      ensures !closed && batchSize >= 1 && Items() == [] ==> r == Err(NoTrainingRows)
      // an unencodable row costs its whole batch: the cursor stays, the generator has moved on
      ensures !closed && batchSize >= 1 && old(InStep()) && r.Err? ==>
        r.error == NotEncodable && (InStep() <==> batchSize % |Items()| == 0)
      ensures !closed && batchSize >= 1 && old(InStep()) ==>
        var due := Cycle(Items(), old(rowsConsumed), batchSize);
        && (r.Ok? <==> AllEncode(encode, due))
        && (r.Ok? ==> r.value == Encoded(encode, due) && InStep() && rowsConsumed == old(rowsConsumed) + batchSize)
    {
      if closed { return Err(Closed); }
      if batchSize < 1 { return Err(NonPositiveBatch); }
      ghost var taken := generator.taken;
      var pulled := Pull(batchSize);
      if pulled.Err? { return Err(pulled.error); }
      if Items() != [] && taken % |Items()| == rowsConsumed % |Items()| {
        CycleShift(Items(), taken, rowsConsumed, batchSize);
        SameResidueAfter(taken, rowsConsumed, batchSize, |Items()|);
        SameResidueIff(rowsConsumed, batchSize, |Items()|);
      }
      r := EncodeMany(pulled.value);
      if r.Ok? {
        rowsConsumed := rowsConsumed + |r.value|;
        epoch := rowsConsumed / trainRecords;
      }
    }

    /** Restoring puts a fresh generator at the cursor modulo the declared number of training rows. That is
        the right place exactly when the two residues agree, and always when the declared number is exact. */
    method RestoreRows(cursor: int) returns (r: Result<(), DatasetError>)
      requires Valid()
      modifies this`generator, this`rowsConsumed, this`epoch
      ensures Valid()
      ensures cursor < 0 ==> r == Err(InvalidCursor) && rowsConsumed == old(rowsConsumed)
      ensures cursor >= 0 && Items() != [] ==>
        && r.Ok? && rowsConsumed == cursor && fresh(generator)
        && (InStep() <==> (cursor % trainRecords) % |Items()| == cursor % |Items()|)
        && (trainRecords == |Items()| ==> InStep())
    {
      if cursor < 0 { return Err(InvalidCursor); }
      SmallResidue(cursor % trainRecords, trainRecords);
      generator := new TrainingRows(rows, train);
      var skipped := Pull(cursor % trainRecords);
      if skipped.Err? {
        return Err(skipped.error);
      }
      rowsConsumed, epoch := cursor, cursor / trainRecords;
      r := Ok(());
    }
  }

  // ---------------------------------------------------------------- whole sessions

  /** One session read batch by batch, up to the first error. */
  method ReadSession(source: StreamingTabularSource, sizes: seq<nat>) returns (received: Received)
    requires source.Valid() && source.InStep() && !source.closed
    requires forall i :: 0 <= i < |sizes| ==> sizes[i] >= 1
    modifies source`rowsConsumed, source`epoch, source.generator
    ensures source.Valid()
    ensures received == Receive(source.encode, Session(source.Items(), old(source.rowsConsumed), sizes))
    ensures received.whole ==> source.InStep() && source.rowsConsumed == old(source.rowsConsumed) + Sum(sizes)
    decreases |sizes|
  {
    hide Cycle, AllEncode;
    if sizes == [] { return Received([], true); }
    ghost var due := Session(source.Items(), source.rowsConsumed, sizes);
    assert due[1..] == Session(source.Items(), source.rowsConsumed + sizes[0], sizes[1..]);
    var batch := source.NextBatch(sizes[0]);
    if batch.Err? { return Received([], false); }
    var rest := ReadSession(source, sizes[1..]);
    received := Received([batch.value] + rest.batches, rest.whole);
  }

  /** Resume equivalence: one source reads `before` and then `after`; another, whatever it did until now, is
      restored at the cursor that the first one had in between, and reads `after`. Both receive the same, down
      to the batch that does not encode, whenever the declared number of training rows is a multiple of the
      actual one. */
  method ReadAndResume(source: StreamingTabularSource, other: StreamingTabularSource, before: seq<nat>, after: seq<nat>)
    returns (first: Received, uninterrupted: Received, resumed: Received)
    requires source.Valid() && source.InStep() && !source.closed && other.Valid() && !other.closed
    requires source != other && source.generator != other.generator
    requires source.rows == other.rows && source.train == other.train && source.encode == other.encode
    requires other.trainRecords % |source.Items()| == 0
    requires forall i :: 0 <= i < |before| ==> before[i] >= 1
    requires forall i :: 0 <= i < |after| ==> after[i] >= 1
    modifies source`rowsConsumed, source`epoch, source.generator, other`generator, other`rowsConsumed, other`epoch
    ensures first == Receive(source.encode, Session(source.Items(), old(source.rowsConsumed), before))
    ensures first.whole ==> uninterrupted == resumed
    ensures first.whole ==>
      resumed == Receive(source.encode, Session(source.Items(), old(source.rowsConsumed) + Sum(before), after))
    ensures !first.whole ==> uninterrupted == resumed == Received([], false)
  {
    hide Cycle, AllEncode, Session, Receive, StreamingTabularSource.Items;
    SameItems(source, other);
    first := ReadSession(source, before);
    if !first.whole { return first, Received([], false), Received([], false); }
    var cursor := source.rowsConsumed;
    FinerResidue(cursor, other.trainRecords, |source.Items()|);
    var restored := other.RestoreRows(cursor);
    uninterrupted := ReadSession(source, after);
    resumed := ReadSession(other, after);
  }

  lemma SameItems(a: StreamingTabularSource, b: StreamingTabularSource)
    requires a.rows == b.rows && a.train == b.train
    ensures a.Items() == b.Items()
  {
  }
}
