/** The native file cursor: it reads line by line and rewinds only when it meets the end of the file. */
module NativeStream {
  import opened Options
  import opened Modular
  import opened CyclicRows

  class NumericCsvStream {
    const lines: seq<Row>
    const selected: Selector        // split of a line's index is the selected one
    const encode: Encoder
    const selectedRecords: nat
    var rowIndex: nat               // the file position, as a count of lines since the last rewind
    var rowsConsumed: nat
    ghost var taken: nat            // selected lines read since the last restore

    ghost function Items(): seq<Row> {
      TrainRows(lines, selected)
    }

    ghost predicate Valid()
      reads this
    {
      && rowIndex <= |lines| && selectedRecords >= 1
      && (Items() != [] ==> taken % |Items()| == |Selected(lines, selected, rowIndex)| % |Items()|)
    }

    ghost predicate InStep()
      reads this
    {
      Items() != [] && taken % |Items()| == rowsConsumed % |Items()|
    }

    constructor (lines: seq<Row>, selected: Selector, encode: Encoder, selectedRecords: nat)
      requires selectedRecords >= 1
      ensures Valid() && rowsConsumed == 0 && taken == 0
      ensures this.lines == lines && this.selected == selected && this.encode == encode
      ensures this.selectedRecords == selectedRecords
    {
      this.lines, this.selected, this.encode, this.selectedRecords := lines, selected, encode, selectedRecords;
      rowIndex, rowsConsumed, taken := 0, 0, 0;
    }

    /** How many selected lines lie ahead before the end of the file. */
    ghost function Ahead(): nat
      requires Valid()
      reads this
    {
      SelectedPrefix(lines, selected, rowIndex, |lines|);
      |Items()| - |Selected(lines, selected, rowIndex)|
    }

    /** One `getline` with the lazy rewind: `None` after rewinding at the end of the file. */
    method NextLine() returns (line: Option<Row>)
      requires Valid()
      modifies this`rowIndex
      ensures Valid()
      ensures old(rowIndex) < |lines| ==> line == Some(lines[old(rowIndex)]) && rowIndex == old(rowIndex)
      ensures old(rowIndex) == |lines| ==>
        line == None && rowIndex == 0 && old(Ahead()) == 0 && Ahead() == |Items()|
    {
      if rowIndex == |lines| {
        if Items() != [] { SelfResidue(|Items()|); SmallResidue(0, |Items()|); }
        rowIndex := 0;
        return None;
      }
      line := Some(lines[rowIndex]);
    }

    /** Consume the line at the cursor; true when it belongs to the selected split. */
    method Advance() returns (mine: bool)
      requires Valid() && rowIndex < |lines|
      modifies this`rowIndex, this`taken
      ensures Valid() && rowIndex == old(rowIndex) + 1
      ensures mine <==> selected(old(rowIndex), lines[old(rowIndex)])
      ensures !mine ==> taken == old(taken) && Ahead() == old(Ahead())
      ensures mine ==> taken == old(taken) + 1
      ensures mine ==> Items() != [] && lines[old(rowIndex)] == Items()[old(taken) % |Items()|]
    {
      mine := selected(rowIndex, lines[rowIndex]);
      if mine {
        NextSelected(lines, selected, rowIndex);
        ghost var e := |Selected(lines, selected, rowIndex)|;
        SmallResidue(e, |Items()|);
        SameResidueAfter(taken, e, 1, |Items()|);
        taken := taken + 1;
      }
      rowIndex := rowIndex + 1;
    }

    /** Fills the buffer with the next stretch of the repetition; terminates because the split is not
        empty. False reports the first line of that stretch that does not encode. */
    method NextBatch(buffer: array<Sample>) returns (ok: bool)
      requires Valid() && Items() != [] && buffer.Length >= 1
      modifies this, buffer
      ensures Valid()
      ensures !ok ==> rowsConsumed == old(rowsConsumed)
      ensures var due := Cycle(Items(), old(taken), buffer.Length);
        && (ok <==> AllEncode(encode, due))
        && (ok ==> buffer[..] == Encoded(encode, due))
        && (ok ==> taken == old(taken) + buffer.Length && rowsConsumed == old(rowsConsumed) + buffer.Length)
      ensures old(InStep()) ==>
        (ok <==> AllEncode(encode, Cycle(Items(), old(rowsConsumed), buffer.Length)))
      ensures old(InStep()) && ok ==>
        InStep() && buffer[..] == Encoded(encode, Cycle(Items(), old(rowsConsumed), buffer.Length))
    {
      hide NumericCsvStream.Items, NumericCsvStream.Ahead, TrainRows, Selected;
      var produced := 0;
      ghost var due := Cycle(Items(), taken, buffer.Length);
      if InStep() { CycleShift(Items(), taken, rowsConsumed, buffer.Length); }
      while produced < buffer.Length
        invariant 0 <= produced <= buffer.Length && Valid()
        invariant taken == old(taken) + produced && rowsConsumed == old(rowsConsumed)
        invariant AllEncode(encode, due[..produced])
        invariant buffer[..produced] == Encoded(encode, due[..produced])
        decreases buffer.Length - produced, if Ahead() > 0 then 0 else 1, |lines| - rowIndex
      {
        var line := NextLine();
        if line.None? { continue; }
        var mine := Advance();
        if !mine { continue; }
        assert due[produced] == line.value;
        var sample := encode(line.value);
        if sample.None? { return false; }
        buffer[produced] := sample.value;
        assert due[..produced + 1] == due[..produced] + [line.value];
        produced := produced + 1;
      }
      assert due[..produced] == due && buffer[..produced] == buffer[..];
      rowsConsumed := rowsConsumed + produced;
      if old(InStep()) { SameResidueAfter(old(taken), old(rowsConsumed), buffer.Length, |Items()|); }
      ok := true;
    }

    /** Rewind and skip to the cursor modulo the declared record count; fails exactly when the declared
        count promises more selected lines than the file holds. */
    method Restore(cursor: nat) returns (ok: bool)
      requires Valid()
      modifies this
      ensures Valid()
      ensures ok <==> cursor % selectedRecords <= |Items()|
      ensures ok ==> rowsConsumed == cursor && taken == cursor % selectedRecords
      ensures ok && Items() != [] ==> (InStep() <==> (cursor % selectedRecords) % |Items()| == cursor % |Items()|)
    {
      rowIndex, taken := 0, 0;
      var offset := cursor % selectedRecords;
      SmallResidue(offset, selectedRecords);
      var skipped := 0;
      if Items() != [] { SmallResidue(0, |Items()|); }
      while skipped < offset
        invariant Valid() && skipped <= offset && taken == skipped == |Selected(lines, selected, rowIndex)|
        decreases |lines| - rowIndex
      {
        SelectedPrefix(lines, selected, rowIndex, |lines|);
        if rowIndex == |lines| { return false; }
        var mine := Advance();
        if mine { skipped := skipped + 1; }
      }
      SelectedPrefix(lines, selected, rowIndex, |lines|);
      rowsConsumed := cursor;
      ok := true;
    }
  }

  /** One session read batch by batch, up to the first error. */
  method ReadSession(stream: NumericCsvStream, sizes: seq<nat>) returns (received: Received)
    requires stream.Valid() && stream.InStep()
    requires forall i :: 0 <= i < |sizes| ==> sizes[i] >= 1
    modifies stream
    ensures stream.Valid()
    ensures received == Receive(stream.encode, Session(stream.Items(), old(stream.rowsConsumed), sizes))
    ensures received.whole ==> stream.InStep() && stream.rowsConsumed == old(stream.rowsConsumed) + Sum(sizes)
    decreases |sizes|
  {
    hide Cycle, AllEncode, Encoded, NumericCsvStream.Items;
    if sizes == [] { return Received([], true); }
    ghost var due := Session(stream.Items(), stream.rowsConsumed, sizes);
    assert due[1..] == Session(stream.Items(), stream.rowsConsumed + sizes[0], sizes[1..]);
    var buffer := new Sample[sizes[0]](_ => ([], 0.0));
    var ok := stream.NextBatch(buffer);
    if !ok { return Received([], false); }
    var batch := buffer[..];
    var rest := ReadSession(stream, sizes[1..]);
    received := Received([batch] + rest.batches, rest.whole);
  }

  /** Resume equivalence for the native stream. It can be restored at a cursor exactly when the declared count
      does not promise more rows than the file holds; then both streams receive the same whenever that count is
      a multiple of the actual one. */
  method ReadAndResume(stream: NumericCsvStream, other: NumericCsvStream, before: seq<nat>, after: seq<nat>)
    returns (first: Received, uninterrupted: Received, restored: bool, resumed: Received)
    requires stream.Valid() && stream.InStep() && other.Valid() && stream != other
    requires stream.lines == other.lines && stream.selected == other.selected && stream.encode == other.encode
    requires other.selectedRecords % |stream.Items()| == 0
    requires forall i :: 0 <= i < |before| ==> before[i] >= 1
    requires forall i :: 0 <= i < |after| ==> after[i] >= 1
    modifies stream, other
    ensures first == Receive(stream.encode, Session(stream.Items(), old(stream.rowsConsumed), before))
    ensures first.whole ==>
      var cursor := old(stream.rowsConsumed) + Sum(before);
      && uninterrupted == Receive(stream.encode, Session(stream.Items(), cursor, after))
      && (restored <==> cursor % other.selectedRecords <= |stream.Items()|)
      && (restored ==> resumed == uninterrupted)
  {
    hide Cycle, AllEncode, Session, Receive, NumericCsvStream.Items;
    restored, uninterrupted, resumed := false, Received([], false), Received([], false);
    first := ReadSession(stream, before);
    if !first.whole { return; }
    var cursor := stream.rowsConsumed;
    SameItems(stream, other);
    FinerResidue(cursor, other.selectedRecords, |stream.Items()|);
    restored := other.Restore(cursor);
    uninterrupted := ReadSession(stream, after);
    if restored { resumed := ReadSession(other, after); }
  }

  lemma SameItems(a: NumericCsvStream, b: NumericCsvStream)
    requires a.lines == b.lines && a.selected == b.selected
    ensures a.Items() == b.Items()
  {
  }
}
