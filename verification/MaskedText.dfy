/** Causal examples with loss masks, and their padded batches. */
module MaskedText {
  import opened Options
  import opened Modular
  import opened Sequences
  import opened Utf8
  import opened TextChunks

  datatype TextError = OutsideVocabulary | NotUtf8 | NoExamples | BadLimit | ExampleTooLong | BadBatchSize

  // ---------------------------------------------------------------- the byte tokenizer

  datatype ByteTokenizer = ByteTokenizer(bosId: int, padId: int) {

    function EncodeText(text: seq<Scalar>): seq<int> {
      Encode(text)
    }

    predicate Special(token: int) {
      token == bosId || token == padId
    }

    /** The bytes left after the special tokens, unless a token is neither special nor a byte. */
    function Kept(tokens: seq<int>): Option<seq<Byte>> {
      if tokens == [] then Some([])
      else
        var token, rest := tokens[0], Kept(tokens[1..]);
        if Special(token) then rest
        else if !(0 <= token < 256) || rest.None? then None
        else Some([token as Byte] + rest.value)
    }

    method DecodeTokens(tokens: seq<int>) returns (r: Result<seq<Scalar>, TextError>)
      ensures r == match Kept(tokens)
        case None => Err(OutsideVocabulary)
        case Some(raw) => match Decode(raw) { case None => Err(NotUtf8) case Some(text) => Ok(text) }
    {
      var raw: seq<Byte> := [];
      var i := 0;
      assert tokens[0..] == tokens && forall rest: seq<Byte> :: raw + rest == rest;
      while i < |tokens|
        invariant 0 <= i <= |tokens|
        invariant match Kept(tokens[i..])
          case None => Kept(tokens) == None
          case Some(rest) => Kept(tokens) == Some(raw + rest)
      {
        var value := tokens[i];
        assert tokens[i..][1..] == tokens[i + 1..];
        i := i + 1;
        if Special(value) { continue; }
        if !(0 <= value <= 255) { return Err(OutsideVocabulary); }
        ghost var before := raw;
        raw := raw + [value as Byte];
        assert forall rest: seq<Byte> :: raw + rest == before + ([value as Byte] + rest);
      }
      assert raw + [] == raw;
      match Decode(raw)
      case None => r := Err(NotUtf8);
      case Some(text) => r := Ok(text);
    }
  }

  const DEFAULT_TOKENIZER := ByteTokenizer(256, 257)

  lemma {:induction false} KeptOfBytes(tokenizer: ByteTokenizer, bytes: seq<Byte>)
    ensures tokenizer.Kept(bytes).Some?
    ensures |tokenizer.Kept(bytes).value| <= |bytes|
    ensures tokenizer.Kept(bytes).value == bytes <==> forall b :: b in bytes ==> !tokenizer.Special(b)
    ensures (exists b :: b in bytes && tokenizer.Special(b)) ==> |tokenizer.Kept(bytes).value| < |bytes|
  {
    if bytes != [] {
      KeptOfBytes(tokenizer, bytes[1..]);
      assert bytes == [bytes[0]] + bytes[1..];
    }
  }

  /** One token: a special one vanishes, a byte stays, and anything else is refused. */
  lemma KeptOfOne(tokenizer: ByteTokenizer, token: int)
    ensures tokenizer.Kept([token]) ==
      if token == tokenizer.bosId || token == tokenizer.padId then Some([])
      else if 0 <= token <= 255 then Some([token as Byte]) else None
  {
    assert [token][1..] == [] && tokenizer.Kept([]) == Some([]);
    if 0 <= token < 256 { assert [token as Byte] + [] == [token as Byte]; }
  }

  /** Joined tokens keep what their parts keep, and are refused when one of the parts is. */
  lemma {:induction false} KeptOfJoined(tokenizer: ByteTokenizer, front: seq<int>, rest: seq<int>)
    ensures var a, b, whole := tokenizer.Kept(front), tokenizer.Kept(rest), tokenizer.Kept(front + rest);
      && (whole.Some? <==> a.Some? && b.Some?)
      && (whole.Some? ==> whole.value == a.value + b.value)
    decreases |front|
  {
    if front == [] {
      assert front + rest == rest;
    } else {
      KeptOfJoined(tokenizer, front[1..], rest);
      assert (front + rest)[1..] == front[1..] + rest;
    }
  }

  /** Exactly the tokens that are neither special nor bytes are refused. */
  lemma {:induction false} RefusedTokensIff(tokenizer: ByteTokenizer, tokens: seq<int>)
    ensures tokenizer.Kept(tokens).None? <==> exists token :: token in tokens && Foreign(tokenizer, token)
  {
    if tokens != [] {
      RefusedTokensIff(tokenizer, tokens[1..]);
      assert forall token :: token in tokens <==> token == tokens[0] || token in tokens[1..];
      assert Foreign(tokenizer, tokens[0]) ==> tokenizer.Kept(tokens).None?;
    }
  }

  predicate Foreign(tokenizer: ByteTokenizer, token: int) {
    token != tokenizer.bosId && token != tokenizer.padId && (token < 0 || token > 255)
  }

  /** The tokenizer is reversible on a text exactly when neither special id is one of its bytes; with the
      default ids above 255 that is every text. */
  lemma TokenizerRoundTripIff(tokenizer: ByteTokenizer, text: seq<Scalar>)
    ensures (tokenizer.Kept(tokenizer.EncodeText(text)).Some? &&
             Decode(tokenizer.Kept(tokenizer.EncodeText(text)).value) == Some(text))
            <==> (forall b :: b in Encode(text) ==> !tokenizer.Special(b))
    ensures forall b :: b in Encode(text) ==> !DEFAULT_TOKENIZER.Special(b)
  {
    var bytes := Encode(text);
    KeptOfBytes(tokenizer, bytes);
    DecodeEncode(text);
    var kept := tokenizer.Kept(bytes).value;
    if Decode(kept) == Some(text) { EncodeDecode(kept); }
  }

  // ---------------------------------------------------------------- examples

  datatype Example = Example(inputs: seq<int>, targets: seq<int>, mask: seq<real>, prefix: nat, content: nat)

  predicate WellFormed(e: Example) {
    |e.inputs| == |e.targets| == |e.mask|
  }

  /** The example of a span: it predicts each byte of the span from the one before it, and only the content
      bytes carry loss. */
  ghost predicate Faithful(e: Example, tokenizer: ByteTokenizer, payload: seq<Byte>, span: Span) {
    && span.contextStart <= span.contentStart < span.end <= |payload|
    && WellFormed(e)
    && e.targets == payload[span.contextStart..span.end]
    && e.inputs[0] == tokenizer.bosId
    && (forall i :: 1 <= i < |e.inputs| ==> e.inputs[i] == e.targets[i - 1])
    && (forall i :: 0 <= i < |e.mask| ==> e.mask[i] == if span.contextStart + i < span.contentStart then 0.0 else 1.0)
    && e.prefix == span.contentStart - span.contextStart && e.content == span.end - span.contentStart
  }

  method PrepareExamples(ghost text: seq<Scalar>, tokenizer: ByteTokenizer, payload: seq<Byte>, spans: seq<Span>)
    returns (examples: seq<Example>)
    requires payload == Encode(text) && Contiguous(payload, spans) && OnBoundaries(payload, spans)
    ensures |examples| == |spans|
    ensures forall i :: 0 <= i < |spans| ==> Faithful(examples[i], tokenizer, payload, spans[i])
  {
    hide Faithful, Encode, EncodeChar, Boundary, ContentStart;
    examples := [];
    var i := 0;
    while i < |spans|
      invariant 0 <= i <= |spans| && |examples| == i
      invariant forall j :: 0 <= j < i ==> Faithful(examples[j], tokenizer, payload, spans[j])
    {
      assert spans[i].contentStart == ContentStart(spans, i);
      var e := PrepareExample(text, tokenizer, payload, spans[i]);
      examples := examples + [e];
      i := i + 1;
    }
  }

  method PrepareExample(ghost text: seq<Scalar>, tokenizer: ByteTokenizer, payload: seq<Byte>, span: Span)
    returns (e: Example)
    requires payload == Encode(text)
    requires span.contextStart <= span.contentStart < span.end <= |payload|
    requires Boundary(payload, span.contextStart) && Boundary(payload, span.end)
    ensures Faithful(e, tokenizer, payload, span)
  {
    hide Encode, Decode, EncodeChar, Boundary;
    ghost var part := SliceBetweenBoundaries(text, span.contextStart, span.end);
    // the chunk's context is kept as text and tokenized again
    var context := Decode(payload[span.contextStart..span.end]).value;
    var tokens: seq<int> := tokenizer.EncodeText(context);
    var prefix := span.contentStart - span.contextStart;
    var sequence := [tokenizer.bosId] + tokens;
    var zeros, ones := seq(prefix, _ => 0.0), seq(|tokens| - prefix, _ => 1.0);
    e := Example(sequence[..|sequence| - 1], sequence[1..], zeros + ones, prefix, |tokens| - prefix);
    assert sequence[1..] == tokens;
  }

  /** The targets that carry loss. */
  function Supervised(targets: seq<int>, mask: seq<real>): seq<int>
  {
    if targets == [] || mask == [] then []
    else (if mask[0] == 1.0 then [targets[0]] else []) + Supervised(targets[1..], mask[1..])
  }

  lemma {:induction false} SupervisedSuffix(targets: seq<int>, mask: seq<real>, prefix: nat)
    requires |targets| == |mask| && prefix <= |targets|
    requires forall i :: 0 <= i < |mask| ==> mask[i] == if i < prefix then 0.0 else 1.0
    ensures Supervised(targets, mask) == targets[prefix..]
  {
    if targets != [] {
      SupervisedSuffix(targets[1..], mask[1..], if prefix == 0 then 0 else prefix - 1);
      if prefix == 0 { assert targets == [targets[0]] + targets[1..]; }
    }
  }

  lemma {:induction false} SupervisedUnpadded(targets: seq<int>, mask: seq<real>,
                                             morePads: seq<int>, moreZeros: seq<real>)
    requires |targets| == |mask| && |morePads| == |moreZeros|
    requires forall i :: 0 <= i < |moreZeros| ==> moreZeros[i] == 0.0
    ensures Supervised(targets + morePads, mask + moreZeros) == Supervised(targets, mask)
    decreases |targets|, |morePads|
  {
    if targets != [] {
      assert (targets + morePads)[1..] == targets[1..] + morePads;
      assert (mask + moreZeros)[1..] == mask[1..] + moreZeros;
      SupervisedUnpadded(targets[1..], mask[1..], morePads, moreZeros);
    } else if morePads != [] {
      assert targets + morePads == morePads && mask + moreZeros == moreZeros;
      SupervisedUnpadded([], [], morePads[1..], moreZeros[1..]);
      assert [] + morePads[1..] == morePads[1..] && [] + moreZeros[1..] == moreZeros[1..];
    }
  }

  function AllSupervised(examples: seq<Example>): seq<int> {
    if examples == [] then []
    else
      var init, last := examples[..|examples| - 1], examples[|examples| - 1];
      AllSupervised(init) + Supervised(last.targets, last.mask)
  }

  lemma {:induction false} SupervisedUpTo(tokenizer: ByteTokenizer, payload: seq<Byte>, spans: seq<Span>,
                                         examples: seq<Example>)
    requires Contiguous(payload, spans) && |examples| == |spans|
    requires forall i :: 0 <= i < |spans| ==> Faithful(examples[i], tokenizer, payload, spans[i])
    ensures ContentStart(spans, |spans|) <= |payload|
    ensures AllSupervised(examples) == payload[..ContentStart(spans, |spans|)]
    decreases |spans|
  {
    hide Faithful, Boundary, Contiguous, Supervised;
    if spans != [] {
      var init, last := spans[..|spans| - 1], spans[|spans| - 1];
      ContiguousInit(payload, spans);
      SupervisedUpTo(tokenizer, payload, init, examples[..|init|]);
      SupervisedContent(tokenizer, payload, last, examples[|init|]);
      assert payload[..last.end] == payload[..last.contentStart] + payload[last.contentStart..last.end];
    }
  }

  lemma ContiguousInit(payload: seq<Byte>, spans: seq<Span>)
    requires Contiguous(payload, spans) && spans != []
    ensures var init, last := spans[..|spans| - 1], spans[|spans| - 1];
      && Contiguous(payload, init) && ContentStart(init, |init|) == last.contentStart
      && last.contextStart <= last.contentStart < last.end <= |payload|
  {
    hide Boundary;
    var init := spans[..|spans| - 1];
    forall i | 0 <= i < |init|
      ensures init[i].contextStart <= init[i].contentStart == ContentStart(init, i) < init[i].end <= |payload|
    {
      assert init[i] == spans[i] && ContentStart(init, i) == ContentStart(spans, i);
    }
    assert spans[|init|].contentStart == ContentStart(spans, |init|);
  }

  lemma SupervisedContent(tokenizer: ByteTokenizer, payload: seq<Byte>, span: Span, e: Example)
    requires Faithful(e, tokenizer, payload, span)
    ensures Supervised(e.targets, e.mask) == payload[span.contentStart..span.end]
  {
    SupervisedSuffix(e.targets, e.mask, e.prefix);
    assert e.targets[e.prefix..] == payload[span.contentStart..span.end];
  }

  /** The document is supervised up to where the plan ends: every byte exactly once and in order, by whichever
      plan, exactly when that plan covers it. */
  lemma EveryByteSupervisedIff(text: seq<Scalar>, tokenizer: ByteTokenizer, payload: seq<Byte>, spans: seq<Span>,
                               examples: seq<Example>)
    requires payload == Encode(text) && |examples| == |spans|
    requires Contiguous(payload, spans) && OnBoundaries(payload, spans)
    requires forall i :: 0 <= i < |spans| ==> Faithful(examples[i], tokenizer, payload, spans[i])
    ensures ContentStart(spans, |spans|) <= |payload|
    ensures AllSupervised(examples) == payload[..ContentStart(spans, |spans|)]
    ensures AllSupervised(examples) == payload <==> ValidPlan(payload, spans)
    ensures Decode(payload) == Some(text)
  {
    hide Encode, Decode, Faithful, Contiguous, OnBoundaries, AllSupervised;
    SupervisedUpTo(tokenizer, payload, spans, examples);
    assert payload[..|payload|] == payload;
    DecodeEncode(text);
  }

  /** From a text to its examples. Nothing is lost unless a native planner announced no spans for a text that
      has bytes; then nothing at all is supervised. */
  method PrepareMaskedTextExamples(ghost text: seq<Scalar>, tokenizer: ByteTokenizer, payload: seq<Byte>, minimum: int,
                                   target: int, maximum: int, overlap: int, native: Option<NativeAnswer>)
    returns (r: Result<seq<Example>, PlanError>)
    requires payload == Encode(text)
    ensures r.Ok? <==>
      LegalRequest(minimum, target, maximum, overlap) &&
      ((native.Some? && Passes(native.value, payload)) || EveryCharFits(text, maximum))
    ensures r.Ok? ==>
      AllSupervised(r.value) ==
      if native.Some? && native.value.required == 0 then [] else payload
  {
    hide Encode, Decode, Faithful, Contiguous, OnBoundaries, AllSupervised, EveryCharFits, Passes, ValidPlan;
    var plan := PlanTextForTraining(text, payload, minimum, target, maximum, overlap, native);
    if plan.Err? { return Err(plan.error); }
    var examples := PrepareExamples(text, tokenizer, payload, plan.value);
    EveryByteSupervisedIff(text, tokenizer, payload, plan.value, examples);
    if native.Some? && native.value.required == 0 {
      NoSpansPass(native.value, payload);
      assert plan.value == [] && payload[..0] == [];
    }
    r := Ok(examples);
  }

  // ---------------------------------------------------------------- batches

  datatype Batch = Batch(inputs: array2<int>, targets: array2<int>, loss: array2<real>, attention: array2<real>)

  predicate Shaped(batch: Batch, rows: nat, width: nat) {
    && batch.inputs.Length0 == batch.targets.Length0 == batch.loss.Length0 == batch.attention.Length0 == rows
    && batch.inputs.Length1 == batch.targets.Length1 == batch.loss.Length1 == batch.attention.Length1 == width
  }

  predicate Distinct(batch: Batch) {
    var inputs: object := batch.inputs;
    var targets: object := batch.targets;
    var loss: object := batch.loss;
    var attention: object := batch.attention;
    && inputs != targets && inputs != loss && inputs != attention
    && targets != loss && targets != attention && loss != attention
  }

  /** Row r is the example followed by padding that carries neither loss nor attention. */
  ghost predicate RowHolds(batch: Batch, r: nat, e: Example, padId: int)
    requires exists rows, width :: Shaped(batch, rows, width)
    requires r < batch.inputs.Length0 && WellFormed(e)
    reads batch.inputs, batch.targets, batch.loss, batch.attention
  {
    var n := |e.inputs|;
    && n <= batch.inputs.Length1
    && forall j :: 0 <= j < batch.inputs.Length1 ==>
      && batch.inputs[r, j] == (if j < n then e.inputs[j] else padId)
      && batch.targets[r, j] == (if j < n then e.targets[j] else padId)
      && batch.loss[r, j] == (if j < n then e.mask[j] else 0.0)
      && batch.attention[r, j] == (if j < n then 1.0 else 0.0)
  }

  ghost predicate Holds(batch: Batch, examples: seq<Example>, padId: int)
    requires forall i :: 0 <= i < |examples| ==> WellFormed(examples[i])
    reads batch.inputs, batch.targets, batch.loss, batch.attention
  {
    && Shaped(batch, |examples|, batch.inputs.Length1)
    && forall r :: 0 <= r < |examples| ==> RowHolds(batch, r, examples[r], padId)
  }

  function Width(examples: seq<Example>): (w: nat)
    ensures forall i :: 0 <= i < |examples| ==> |examples[i].inputs| <= w
    ensures examples != [] ==> exists i :: 0 <= i < |examples| && |examples[i].inputs| == w
  {
    if examples == [] then 0
    else
      var rest := Width(examples[..|examples| - 1]);
      var last := |examples[|examples| - 1].inputs|;
      if last >= rest then last else rest
  }

  method BatchExamples(examples: seq<Example>, tokenizer: ByteTokenizer, maxTokens: Option<int>)
    returns (r: Result<Batch, TextError>)
    requires forall i :: 0 <= i < |examples| ==> WellFormed(examples[i])
    ensures r == Err(NoExamples) <==> examples == []
    ensures r.Err? <==>
      examples == [] || (maxTokens.Some? && (!(1 <= maxTokens.value <= MAX_CHUNK) || Width(examples) > maxTokens.value))
    ensures r.Ok? ==>
      && fresh(r.value.inputs) && fresh(r.value.targets) && fresh(r.value.loss) && fresh(r.value.attention)
      && r.value.inputs.Length1 == (if maxTokens.Some? then maxTokens.value else Width(examples))
      && Holds(r.value, examples, tokenizer.padId)
  {
    if examples == [] { return Err(NoExamples); }
    hide WellFormed, Width, RowHolds, BlankFrom;
    var width := Width(examples);
    if maxTokens.Some? {
      var limit := maxTokens.value;
      if !(1 <= limit <= MAX_CHUNK) { return Err(BadLimit); }
      if width > limit { return Err(ExampleTooLong); }
      width := limit;
    }
    var n := |examples|;
    var inputs := new int[n, width]((_, _) => tokenizer.padId);
    var targets := new int[n, width]((_, _) => tokenizer.padId);
    var loss := new real[n, width]((_, _) => 0.0);
    var attention := new real[n, width]((_, _) => 0.0);
    var batch := Batch(inputs, targets, loss, attention);
    assert Shaped(batch, n, width) && Distinct(batch);
    AllBlank(batch, tokenizer.padId);
    var row := 0;
    while row < n
      invariant 0 <= row <= n
      invariant RowsHold(batch, row, examples, tokenizer.padId) && BlankFrom(batch, row, tokenizer.padId)
    {
      AddRow(batch, row, examples, tokenizer.padId);
      row := row + 1;
    }
    r := Ok(batch);
  }

  lemma AllBlank(batch: Batch, padId: int)
    requires exists rows, width :: Shaped(batch, rows, width)
    requires forall i, j :: 0 <= i < batch.inputs.Length0 && 0 <= j < batch.inputs.Length1 ==>
      && batch.inputs[i, j] == padId && batch.targets[i, j] == padId
      && batch.loss[i, j] == 0.0 && batch.attention[i, j] == 0.0
    ensures BlankFrom(batch, 0, padId)
  {
  }

  /** The first rows are the first examples. */
  ghost predicate RowsHold(batch: Batch, n: nat, examples: seq<Example>, padId: int)
    requires exists rows, width :: Shaped(batch, rows, width)
    requires n <= batch.inputs.Length0 && n <= |examples| && forall i :: 0 <= i < |examples| ==> WellFormed(examples[i])
    reads batch.inputs, batch.targets, batch.loss, batch.attention
  {
    forall i :: 0 <= i < n ==> RowHolds(batch, i, examples[i], padId)
  }

  method AddRow(batch: Batch, row: nat, examples: seq<Example>, padId: int)
    requires exists rows, width :: Shaped(batch, rows, width)
    requires row < batch.inputs.Length0 && row < |examples|
    requires forall i :: 0 <= i < |examples| ==> WellFormed(examples[i])
    requires |examples[row].inputs| <= batch.inputs.Length1 && Distinct(batch)
    requires RowsHold(batch, row, examples, padId) && BlankFrom(batch, row, padId)
    modifies batch.inputs, batch.targets, batch.loss, batch.attention
    ensures RowsHold(batch, row + 1, examples, padId) && BlankFrom(batch, row + 1, padId)
  {
    hide BlankFrom, Distinct, WellFormed;
    FillRow(batch, row, examples[row], padId);
  }

  ghost predicate BlankFrom(batch: Batch, row: nat, padId: int)
    requires exists rows, width :: Shaped(batch, rows, width)
    reads batch.inputs, batch.targets, batch.loss, batch.attention
  {
    forall i, j :: row <= i < batch.inputs.Length0 && 0 <= j < batch.inputs.Length1 ==>
      && batch.inputs[i, j] == padId && batch.targets[i, j] == padId
      && batch.loss[i, j] == 0.0 && batch.attention[i, j] == 0.0
  }

  method FillRow(batch: Batch, row: nat, item: Example, padId: int)
    requires exists rows, width :: Shaped(batch, rows, width)
    requires row < batch.inputs.Length0 && WellFormed(item) && |item.inputs| <= batch.inputs.Length1
    requires Distinct(batch) && BlankFrom(batch, row, padId)
    modifies batch.inputs, batch.targets, batch.loss, batch.attention
    ensures RowHolds(batch, row, item, padId) && BlankFrom(batch, row + 1, padId)
    ensures forall i, j :: 0 <= i < batch.inputs.Length0 && i != row && 0 <= j < batch.inputs.Length1 ==>
      && batch.inputs[i, j] == old(batch.inputs[i, j]) && batch.targets[i, j] == old(batch.targets[i, j])
      && batch.loss[i, j] == old(batch.loss[i, j]) && batch.attention[i, j] == old(batch.attention[i, j])
  {
    var n := |item.inputs|;
    forall j | 0 <= j < n { batch.inputs[row, j] := item.inputs[j]; }
    forall j | 0 <= j < n { batch.targets[row, j] := item.targets[j]; }
    forall j | 0 <= j < n { batch.loss[row, j] := item.mask[j]; }
    forall j | 0 <= j < n { batch.attention[row, j] := 1.0; }
  }

  function RowOf<T>(a: array2<T>, r: nat): (s: seq<T>)
    requires r < a.Length0
    reads a
    ensures |s| == a.Length1 && forall j :: 0 <= j < a.Length1 ==> s[j] == a[r, j]
  {
    seq(a.Length1, j requires 0 <= j < a.Length1 reads a => a[r, j])
  }

  /** Padding neither adds nor drops a supervised target. */
  lemma PaddingKeepsSupervision(batch: Batch, examples: seq<Example>, padId: int, r: nat)
    requires r < |examples| && forall i :: 0 <= i < |examples| ==> WellFormed(examples[i])
    requires Holds(batch, examples, padId)
    ensures Supervised(RowOf(batch.targets, r), RowOf(batch.loss, r)) ==
      Supervised(examples[r].targets, examples[r].mask)
    ensures forall j :: 0 <= j < batch.inputs.Length1 ==>
      (batch.attention[r, j] == 1.0 <==> j < |examples[r].inputs|)
  {
    var e := examples[r];
    assert RowHolds(batch, r, e, padId);
    var n := |e.inputs|;
    var targets, loss := RowOf(batch.targets, r), RowOf(batch.loss, r);
    assert targets == e.targets + targets[n..];
    assert loss == e.mask + loss[n..];
    SupervisedUnpadded(e.targets, e.mask, targets[n..], loss[n..]);
  }

  /** One batch of a run: between one and `limit` examples, held by the arrays of the batch. */
  ghost predicate SliceHolds(batch: Batch, slice: seq<Example>, limit: int, padId: int)
    reads batch.inputs, batch.targets, batch.loss, batch.attention
  {
    && 1 <= |slice| <= limit
    && (forall i :: 0 <= i < |slice| ==> WellFormed(slice[i]))
    && Holds(batch, slice, padId)
  }

  /** The next batch of a run. */
  method NextBatch(slice: seq<Example>, tokenizer: ByteTokenizer, limit: int) returns (batch: Batch)
    requires 1 <= |slice| <= limit
    requires forall i :: 0 <= i < |slice| ==> WellFormed(slice[i])
    ensures fresh(batch.inputs) && fresh(batch.targets) && fresh(batch.loss) && fresh(batch.attention)
    ensures SliceHolds(batch, slice, limit, tokenizer.padId)
  {
    hide WellFormed, Holds, Width;
    var made := BatchExamples(slice, tokenizer, None);
    batch := made.value;
  }

  /** The batches of a run: consecutive slices of the examples, in order, none left out. */
  method IterBatches(examples: seq<Example>, tokenizer: ByteTokenizer, batchSize: int)
    returns (r: Result<seq<Batch>, TextError>, ghost slices: seq<seq<Example>>)
    requires forall i :: 0 <= i < |examples| ==> WellFormed(examples[i])
    ensures r.Err? <==> batchSize < 1
    ensures r.Ok? ==>
      && |slices| == |r.value| && Flatten(slices) == examples
      && forall k :: 0 <= k < |slices| ==> SliceHolds(r.value[k], slices[k], batchSize, tokenizer.padId)
  {
    hide WellFormed, SliceHolds;
    slices := [];
    if batchSize < 1 { return Err(BadBatchSize), []; }
    var batches: seq<Batch> := [];
    var start := 0;
    while start < |examples|
      invariant 0 <= start <= |examples|
      invariant |slices| == |batches| && Flatten(slices) == examples[..start]
      invariant forall k :: 0 <= k < |slices| ==> SliceHolds(batches[k], slices[k], batchSize, tokenizer.padId)
      decreases |examples| - start
    {
      var stop := Min(|examples|, start + batchSize);
      var batch := NextBatch(examples[start..stop], tokenizer, batchSize);
      forall k | 0 <= k < |slices| ensures SliceHolds(batches[k], slices[k], batchSize, tokenizer.padId) {
        var earlier := batches[k];
        assert allocated(earlier.inputs) && allocated(earlier.targets);
        assert allocated(earlier.loss) && allocated(earlier.attention);
      }
      FlattenMore(slices, examples[start..stop]);
      assert examples[..stop] == examples[..start] + examples[start..stop];
      batches := batches + [batch];
      slices := slices + [examples[start..stop]];
      start := stop;
    }
    assert examples[..start] == examples;
    r := Ok(batches);
  }

  // ---------------------------------------------------------------- what a whole run supervises

  /** The targets that carry loss in the first n rows of a batch. */
  ghost function RowsSupervised(batch: Batch, n: nat): seq<int>
    requires n <= batch.targets.Length0 && n <= batch.loss.Length0
    reads batch.targets, batch.loss
  {
    if n == 0 then []
    else RowsSupervised(batch, n - 1) + Supervised(RowOf(batch.targets, n - 1), RowOf(batch.loss, n - 1))
  }

  /** The same over all the batches of a run. */
  ghost function RunSupervised(batches: seq<Batch>): seq<int>
    requires forall batch :: batch in batches ==> batch.targets.Length0 == batch.loss.Length0
    reads set batch | batch in batches :: batch.targets
    reads set batch | batch in batches :: batch.loss
  {
    if batches == [] then []
    else
      var last := batches[|batches| - 1];
      RunSupervised(batches[..|batches| - 1]) + RowsSupervised(last, last.targets.Length0)
  }

  lemma {:induction false} AllSupervisedConcat(a: seq<Example>, b: seq<Example>)
    ensures AllSupervised(a + b) == AllSupervised(a) + AllSupervised(b)
    decreases |b|
  {
    hide Supervised;
    if b == [] {
      assert a + b == a;
    } else {
      assert (a + b)[..|a + b| - 1] == a + b[..|b| - 1];
      AllSupervisedConcat(a, b[..|b| - 1]);
    }
  }

  lemma {:induction false} RowsAreExamples(batch: Batch, slice: seq<Example>, limit: int, padId: int, n: nat)
    requires SliceHolds(batch, slice, limit, padId) && n <= |slice|
    ensures RowsSupervised(batch, n) == AllSupervised(slice[..n])
  {
    hide Supervised, RowHolds, WellFormed;
    if n > 0 {
      RowsAreExamples(batch, slice, limit, padId, n - 1);
      PaddingKeepsSupervision(batch, slice, padId, n - 1);
      assert slice[..n][..n - 1] == slice[..n - 1];
    }
  }

  lemma {:induction false} RunIsExamples(batches: seq<Batch>, slices: seq<seq<Example>>, limit: int, padId: int)
    requires |batches| == |slices|
    requires forall k :: 0 <= k < |slices| ==> SliceHolds(batches[k], slices[k], limit, padId)
    ensures forall batch :: batch in batches ==> batch.targets.Length0 == batch.loss.Length0
    ensures RunSupervised(batches) == AllSupervised(Flatten(slices))
    decreases |slices|
  {
    hide Supervised, RowHolds, WellFormed, AllSupervised, RowsSupervised;
    if slices == [] {
      assert AllSupervised([]) == [] by { EmptyRun(); }
    } else {
      var n := |slices| - 1;
      RunIsExamples(batches[..n], slices[..n], limit, padId);
      RowsAreExamples(batches[n], slices[n], limit, padId, |slices[n]|);
      assert slices[n][..|slices[n]|] == slices[n];
      AllSupervisedConcat(Flatten(slices[..n]), slices[n]);
    }
  }

  lemma EmptyRun()
    ensures AllSupervised([]) == []
  {
  }

  /** From document to padded batches, by any valid plan and any batch size: reading off the targets that
      carry loss, row by row and batch by batch, gives the bytes of the document, which decode to it. */
  lemma RunSupervisesTheDocument(text: seq<Scalar>, tokenizer: ByteTokenizer, payload: seq<Byte>, spans: seq<Span>,
                                 examples: seq<Example>, batches: seq<Batch>, slices: seq<seq<Example>>, limit: int)
    requires payload == Encode(text) && ValidPlan(payload, spans) && |examples| == |spans|
    requires forall i :: 0 <= i < |spans| ==> Faithful(examples[i], tokenizer, payload, spans[i])
    requires |batches| == |slices| && Flatten(slices) == examples
    requires forall k :: 0 <= k < |slices| ==> SliceHolds(batches[k], slices[k], limit, tokenizer.padId)
    ensures forall batch :: batch in batches ==> batch.targets.Length0 == batch.loss.Length0
    ensures RunSupervised(batches) == payload
    ensures Decode(payload) == Some(text)
  {
    hide Encode, Decode, Contiguous, OnBoundaries, Faithful, SliceHolds, AllSupervised, Flatten;
    EveryByteSupervisedIff(text, tokenizer, payload, spans, examples);
    RunIsExamples(batches, slices, limit, tokenizer.padId);
  }
}
