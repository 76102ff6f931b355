/** The one thing every training stream must deliver: the rows of a split, repeated for ever. */
module CyclicRows {
  import opened Options
  import opened Modular
  import opened Sequences

  type Row = seq<string>

  type Sample = (seq<real>, real)

  type Selector = (nat, Row) -> bool

  type Encoder = Row -> Option<Sample>

  /** The selected rows among the first n, in file order. */
  function Selected(rows: seq<Row>, train: Selector, n: nat): (s: seq<Row>)
    requires n <= |rows|
    ensures |s| <= n
  {
    if n == 0 then []
    else Selected(rows, train, n - 1) + if train(n - 1, rows[n - 1]) then [rows[n - 1]] else []
  }

  function TrainRows(rows: seq<Row>, train: Selector): seq<Row> {
    Selected(rows, train, |rows|)
  }

  lemma {:induction false} SelectedPrefix(rows: seq<Row>, train: Selector, m: nat, n: nat)
    requires m <= n <= |rows|
    ensures Selected(rows, train, m) <= Selected(rows, train, n)
    decreases n - m
  {
    if m < n { SelectedPrefix(rows, train, m, n - 1); }
  }

  /** The row found at position `index` is the next one of the selection. */
  lemma NextSelected(rows: seq<Row>, train: Selector, index: nat)
    requires index < |rows| && train(index, rows[index])
    ensures var e := |Selected(rows, train, index)|;
      e < |TrainRows(rows, train)| && TrainRows(rows, train)[e] == rows[index]
      && |Selected(rows, train, index + 1)| == e + 1
  {
    SelectedPrefix(rows, train, index + 1, |rows|);
  }

  /** The selection is made of the rows that the selector accepts, each once and in file order. */
  lemma {:induction false} SelectedInOrder(rows: seq<Row>, train: Selector, n: nat) returns (at: seq<nat>)
    requires n <= |rows|
    ensures |at| == |Selected(rows, train, n)|
    ensures forall k :: 0 <= k < |at| ==> at[k] < n && Selected(rows, train, n)[k] == rows[at[k]]
    ensures forall j, k :: 0 <= j < k < |at| ==> at[j] < at[k]
    ensures forall i :: 0 <= i < n ==> (i in at <==> train(i, rows[i]))
  {
    at := [];
    if n > 0 {
      at := SelectedInOrder(rows, train, n - 1);
      assert n - 1 !in at;
      if train(n - 1, rows[n - 1]) { at := at + [n - 1]; }
    }
  }

  /** `count` rows of the endless repetition, starting at position `from`. */
  function Cycle<T>(items: seq<T>, from: nat, count: nat): (c: seq<T>)
    requires items != []
    ensures |c| == count
  {
    seq(count, i requires 0 <= i < count => items[(from + i) % |items|])
  }

  lemma CycleConcat<T>(items: seq<T>, from: nat, a: nat, b: nat)
    requires items != []
    ensures Cycle(items, from, a) + Cycle(items, from + a, b) == Cycle(items, from, a + b)
  {
  }

  /** The repetition depends on the start only through its residue. */
  lemma CycleShift<T>(items: seq<T>, a: nat, b: nat, count: nat)
    requires items != [] && a % |items| == b % |items|
    ensures Cycle(items, a, count) == Cycle(items, b, count)
  {
    var ca, cb := Cycle(items, a, count), Cycle(items, b, count);
    forall i | 0 <= i < count ensures ca[i] == cb[i] {
      SameResidueAfter(a, b, i, |items|);
    }
  }

  // ---------------------------------------------------------------- encoding

  ghost predicate AllEncode(encode: Encoder, rows: seq<Row>) {
    forall i :: 0 <= i < |rows| ==> encode(rows[i]).Some?
  }

  ghost function Encoded(encode: Encoder, rows: seq<Row>): (s: seq<Sample>)
    requires AllEncode(encode, rows)
    ensures |s| == |rows|
  {
    seq(|rows|, i requires 0 <= i < |rows| => encode(rows[i]).value)
  }

  // ---------------------------------------------------------------- sessions

  /** The batches of rows that are due from a cursor on. */
  function Session(items: seq<Row>, cursor: nat, sizes: seq<nat>): (batches: seq<seq<Row>>)
    requires items != []
    ensures |batches| == |sizes|
    decreases |sizes|
  {
    if sizes == [] then [] else [Cycle(items, cursor, sizes[0])] + Session(items, cursor + sizes[0], sizes[1..])
  }

  lemma {:induction false} SessionSplits(items: seq<Row>, cursor: nat, before: seq<nat>, after: seq<nat>)
    requires items != []
    ensures Session(items, cursor, before + after) ==
            Session(items, cursor, before) + Session(items, cursor + Sum(before), after)
    decreases |before|
  {
    if before == [] {
      assert before + after == after;
    } else {
      assert (before + after)[1..] == before[1..] + after;
      SessionSplits(items, cursor + before[0], before[1..], after);
    }
  }

  lemma {:induction false} SessionSizes(items: seq<Row>, cursor: nat, sizes: seq<nat>)
    requires items != []
    ensures forall i :: 0 <= i < |sizes| ==> |Session(items, cursor, sizes)[i]| == sizes[i]
    decreases |sizes|
  {
    if sizes != [] { SessionSizes(items, cursor + sizes[0], sizes[1..]); }
  }

  /** However a session is cut into batches, it delivers one stretch of the repetition. */
  lemma {:induction false} BatchSizesDoNotMatter(items: seq<Row>, cursor: nat, sizes: seq<nat>)
    requires items != []
    ensures Flatten(Session(items, cursor, sizes)) == Cycle(items, cursor, Sum(sizes))
    decreases |sizes|
  {
    if sizes != [] {
      BatchSizesDoNotMatter(items, cursor + sizes[0], sizes[1..]);
      CycleConcat(items, cursor, sizes[0], Sum(sizes[1..]));
      FlattenCons(Cycle(items, cursor, sizes[0]), Session(items, cursor + sizes[0], sizes[1..]));
    }
  }

  /** What a reader receives when it asks for these rows batch by batch: the encoded batches up to the first
      one that holds an unencodable row, where it stops. */
  datatype Received = Received(batches: seq<seq<Sample>>, whole: bool)

  ghost function Receive(encode: Encoder, due: seq<seq<Row>>): Received {
    if due == [] then Received([], true)
    else if !AllEncode(encode, due[0]) then Received([], false)
    else
      var rest := Receive(encode, due[1..]);
      Received([Encoded(encode, due[0])] + rest.batches, rest.whole)
  }

  /** The batches received are the leading ones, row by row encoded; the first one missing does not encode. */
  lemma {:induction false} ReceivedMeans(encode: Encoder, due: seq<seq<Row>>)
    ensures var r := Receive(encode, due);
      && |r.batches| <= |due| && (r.whole <==> |r.batches| == |due|)
      && (forall i :: 0 <= i < |r.batches| ==> |r.batches[i]| == |due[i]|)
      && (forall i, j :: 0 <= i < |r.batches| && 0 <= j < |due[i]| ==> encode(due[i][j]) == Some(r.batches[i][j]))
      && (!r.whole ==> exists j :: 0 <= j < |due[|r.batches|]| && encode(due[|r.batches|][j]).None?)
  {
    if due != [] && AllEncode(encode, due[0]) {
      ReceivedMeans(encode, due[1..]);
      var rest := Receive(encode, due[1..]);
      assert !rest.whole ==> due[1..][|rest.batches|] == due[|rest.batches| + 1];
    }
  }

  // ---------------------------------------------------------------- the resume condition

  /** Reducing a cursor modulo `declared` before skipping lands on the right row for EVERY cursor exactly
      when the declared number of training rows is a multiple of the real one. */
  lemma ResumeIsExactIff(declared: nat, actual: nat)
    requires declared >= 1 && actual >= 1
    ensures (forall n: nat :: (n % declared) % actual == n % actual) <==> declared % actual == 0
  {
    if declared % actual == 0 {
      forall n: nat ensures (n % declared) % actual == n % actual {
        FinerResidue(n, declared, actual);
      }
    } else {
      DivisionIsUnique(declared, declared, 1, 0);
      assert (declared % declared) % actual != declared % actual;
    }
  }

  lemma FinerResidue(n: nat, declared: nat, actual: nat)
    requires declared >= 1 && actual >= 1 && declared % actual == 0
    ensures (n % declared) % actual == n % actual
  {
    var p, q := n / declared, declared / actual;
    assert n == p * declared + n % declared;
    assert declared == q * actual;
    assert p * declared == (p * q) * actual;
    assert p * q >= 0;
    AddMultiple(p * q, n % declared, actual);
  }
}
