/** Text chunk plans: spans that carry overlap as context and cover every byte as content once. */
module TextChunks {
  import opened Options
  import opened Modular
  import opened Utf8

  datatype Span = Span(contextStart: nat, contentStart: nat, end: nat)

  datatype PlanError =
    | BadBounds | BadOverlap | CharacterTooLong
    | PlannerFailed | InconsistentCount | InvalidBoundaries | SplitSequence | Incomplete

  const MAX_CHUNK := 16 * 1024 * 1024

  // ---------------------------------------------------------------- valid plans

  /** Where the content of span i has to start. */
  function ContentStart(spans: seq<Span>, i: nat): nat
    requires i <= |spans|
  {
    if i == 0 then 0 else spans[i - 1].end
  }

  /** Contiguous, non-empty content spans from the first byte, each with a context before it. */
  ghost predicate Contiguous(payload: seq<Byte>, spans: seq<Span>) {
    forall i {:trigger ContentStart(spans, i)} :: 0 <= i < |spans| ==>
      spans[i].contextStart <= spans[i].contentStart == ContentStart(spans, i) < spans[i].end <= |payload|
  }

  ghost predicate OnBoundaries(payload: seq<Byte>, spans: seq<Span>) {
    forall i :: 0 <= i < |spans| ==>
      && Boundary(payload, spans[i].contextStart)
      && Boundary(payload, spans[i].contentStart)
      && Boundary(payload, spans[i].end)
  }

  ghost predicate ValidPlan(payload: seq<Byte>, spans: seq<Span>) {
    && Contiguous(payload, spans)
    && OnBoundaries(payload, spans)
    && ContentStart(spans, |spans|) == |payload|
  }

  // ---------------------------------------------------------------- boundaries

  /** The last boundary at or before an index. */
  function Floor(payload: seq<Byte>, index: nat): (r: nat)
    requires index <= |payload|
    ensures r <= index && Boundary(payload, r)
    ensures forall i :: r < i <= index ==> !Boundary(payload, i)
  {
    if Boundary(payload, index) then index else Floor(payload, index - 1)
  }

  method FloorUtf8Boundary(payload: seq<Byte>, position: int) returns (index: nat)
    ensures index == Floor(payload, if position < 0 then 0 else Min(|payload|, position))
  {
    index := if position < 0 then 0 else Min(|payload|, position);
    ghost var from := index;
    while 0 < index < |payload| && Continuation(payload[index])
      invariant index <= from <= |payload| && Floor(payload, index) == Floor(payload, from)
      decreases index
    {
      index := index - 1;
    }
  }

  /** A character is at most four bytes, so the floor moves by at most three. */
  lemma FloorIsNear(text: seq<Scalar>, index: nat)
    requires index <= |Encode(text)|
    ensures index - 3 <= Floor(Encode(text), index)
  {
    hide EncodeChar, Encode;
    if index < |Encode(text)| {
      var k := CharCovering(text, index);
      CharStart(text, k);
    }
  }

  lemma CharStart(text: seq<Scalar>, k: nat)
    requires k < |text|
    ensures var at := |Encode(text[..k])|;
      && Encode(text) == Encode(text[..k]) + EncodeChar(text[k]) + Encode(text[k + 1..])
      && at < |Encode(text)| && Boundary(Encode(text), at)
      && Boundary(Encode(text), at + |EncodeChar(text[k])|)
      && forall i :: at < i < at + |EncodeChar(text[k])| ==> !Boundary(Encode(text), i)
  {
    hide EncodeChar;
    EncodeSplit(text, k);
    var rest := text[k..];
    assert rest[0] == text[k] && rest[1..] == text[k + 1..];
    var b, at, n := Encode(text), |Encode(text[..k])|, |EncodeChar(text[k])|;
    assert b == Encode(text[..k]) + (EncodeChar(text[k]) + Encode(text[k + 1..]));
    forall i | at <= i < at + n ensures b[i] == EncodeChar(text[k])[i - at] {}
    if k + 1 < |text| {
      var next := text[k + 1..];
      assert Encode(next) == EncodeChar(next[0]) + Encode(next[1..]);
      assert b[at + n] == EncodeChar(next[0])[0];
    }
  }

  /** Flooring `step` bytes ahead of a character makes progress exactly when the character fits. */
  lemma ProgressIff(text: seq<Scalar>, k: nat, step: nat)
    requires k < |text| && step >= 1
    ensures var b, at := Encode(text), |Encode(text[..k])|;
      && at < |b|
      && (Floor(b, Min(|b|, at + step)) > at <==> |EncodeChar(text[k])| <= step)
  {
    hide EncodeChar, Encode;
    CharStart(text, k);
    var b, at, n := Encode(text), |Encode(text[..k])|, |EncodeChar(text[k])|;
    var f := Floor(b, Min(|b|, at + step));
    if n <= step {
      assert at + n <= Min(|b|, at + step);
      assert f >= at + n;
    } else {
      assert Boundary(b, f) && f < at + n;
    }
  }

  // ---------------------------------------------------------------- preferred ends

  const SEPARATORS: seq<Byte> := [10, 32, 46, 33, 63]   // newline, space, full stop, ! and ?

  /** The last occurrence in [lo, hi), or -1. */
  function RFind(payload: seq<Byte>, separator: Byte, lo: nat, hi: nat): (r: int)
    requires hi <= |payload|
    ensures r == -1 || lo <= r < hi
    ensures r != -1 ==> payload[r] == separator && forall i :: r < i < hi ==> payload[i] != separator
    ensures r == -1 ==> forall i :: lo <= i < hi ==> payload[i] != separator
    decreases hi
  {
    if lo >= hi then -1
    else if payload[hi - 1] == separator then hi - 1
    else RFind(payload, separator, lo, hi - 1)
  }

  /** The end directly follows the last occurrence of the most preferred separator that occurs in the
      window; without one it is the end of the window. */
  ghost predicate BestBreak(payload: seq<Byte>, lo: nat, hi: nat, end: nat)
    requires hi <= |payload|
  {
    if exists j :: 0 <= j < |SEPARATORS| && RFind(payload, SEPARATORS[j], lo, hi) >= 0 then
      exists j :: 0 <= j < |SEPARATORS| && end == RFind(payload, SEPARATORS[j], lo, hi) + 1 && lo < end
        && forall i :: 0 <= i < j ==> RFind(payload, SEPARATORS[i], lo, hi) == -1
    else end == hi
  }

  /** The byte after an ASCII byte starts a character. */
  lemma AfterAscii(text: seq<Scalar>, point: nat)
    requires point < |Encode(text)| && Encode(text)[point] < 0x80
    ensures Boundary(Encode(text), point + 1)
  {
    hide EncodeChar, Encode;
    var k := CharCovering(text, point);
    CharStart(text, k);
    OnlyAsciiIsSingle(text[k]);
    var at := |Encode(text[..k])|;
    assert Encode(text)[point] == EncodeChar(text[k])[point - at];
  }

  method BreakPoint(ghost text: seq<Scalar>, payload: seq<Byte>, lo: nat, hi: nat, start: nat) returns (end: nat)
    requires payload == Encode(text)
    requires start <= lo && start < hi <= |payload| && Boundary(payload, hi)
    ensures BestBreak(payload, lo, hi, end)
    ensures start < end <= hi && (end == hi || lo < end) && Boundary(payload, end)
  {
    hide Encode;
    var j := 0;
    while j < |SEPARATORS|
      invariant 0 <= j <= |SEPARATORS|
      invariant forall i :: 0 <= i < j ==> RFind(payload, SEPARATORS[i], lo, hi) == -1
    {
      var point := RFind(payload, SEPARATORS[j], lo, hi);
      if point >= lo {
        AfterAscii(text, point);
        end := FloorUtf8Boundary(payload, point + 1);
        return;
      }
      j := j + 1;
    }
    end := hi;
  }

  // ---------------------------------------------------------------- the fallback planner

  /** The furthest a chunk may reach, and the window in which its end is chosen. */
  function Ceiling(payload: seq<Byte>, start: nat, maximum: nat): nat {
    Floor(payload, Min(|payload|, start + maximum))
  }

  function WindowLow(payload: seq<Byte>, start: nat, minimum: nat, maximum: nat): nat {
    Floor(payload, Min(Ceiling(payload, start, maximum), start + minimum))
  }

  function WindowHigh(payload: seq<Byte>, start: nat, target: nat, maximum: nat): (hi: nat)
    ensures hi <= |payload|
  {
    var ceiling := Ceiling(payload, start, maximum);
    var preferred := Floor(payload, Min(ceiling, start + target));
    if preferred > start then preferred else ceiling
  }

  datatype Bounds = Bounds(minimum: nat, target: nat, maximum: nat, overlap: nat)

  predicate LegalBounds(bounds: Bounds) {
    1 <= bounds.minimum <= bounds.target <= bounds.maximum <= MAX_CHUNK && bounds.overlap < bounds.maximum
  }

  /** How much a byte is preferred as the end of a chunk; five is not at all. */
  function Rank(b: Byte): nat {
    if b == 10 then 0 else if b == 32 then 1 else if b == 46 then 2 else if b == 33 then 3 else if b == 63 then 4 else 5
  }

  /** A chunk of the window [low, high) ends behind the last of its most preferred separators; without any it
      takes the whole window. */
  ghost predicate EndsWell(payload: seq<Byte>, low: nat, high: nat, end: nat) {
    && high <= |payload|
    && if forall i :: low <= i < high ==> Rank(payload[i]) == 5 then end == high
       else
         && low < end <= high && Rank(payload[end - 1]) < 5
         && (forall i :: low <= i < high ==> Rank(payload[i]) >= Rank(payload[end - 1]))
         && (forall i :: end <= i < high ==> payload[i] != payload[end - 1])
  }

  /** The last boundary within `size` bytes of a start. */
  function Within(payload: seq<Byte>, start: nat, size: nat): (r: nat)
    requires start <= |payload|
    ensures r <= |payload| && r <= start + size && Boundary(payload, r)
    ensures forall i :: r < i <= |payload| && i <= start + size ==> !Boundary(payload, i)
  {
    Floor(payload, Min(|payload|, start + size))
  }

  /** What the fallback promises for one span beyond validity: it keeps to the target, unless the character at
      its start is longer, and ends as well as it can between the minimum and there; at most the maximum in all;
      and its context is the overlap before it, extended to a boundary. */
  ghost predicate WellCut(payload: seq<Byte>, span: Span, bounds: Bounds) {
    && span.contextStart <= span.contentStart < span.end <= |payload| && span.end <= span.contentStart + bounds.maximum
    && (span.end < |payload| ==> span.end + 3 >= span.contentStart + bounds.minimum)
    && (span.end > span.contentStart + bounds.target ==>
          forall i :: span.contentStart < i <= span.contentStart + bounds.target ==> !Boundary(payload, i))
    && Min(span.contentStart, bounds.overlap) <= span.contentStart - span.contextStart <= bounds.overlap + 3
    && Boundary(payload, span.contextStart)
    && (forall i :: span.contextStart < i <= span.contentStart - bounds.overlap ==> !Boundary(payload, i))
    && var wish := Within(payload, span.contentStart, bounds.target);
       EndsWell(payload, Within(payload, span.contentStart, bounds.minimum),
                if wish > span.contentStart then wish else Within(payload, span.contentStart, bounds.maximum), span.end)
  }

  /** The code's window is the one between the minimum and the target. */
  lemma WindowsAgree(payload: seq<Byte>, start: nat, bounds: Bounds)
    requires start <= |payload| && bounds.minimum <= bounds.target <= bounds.maximum
    ensures WindowLow(payload, start, bounds.minimum, bounds.maximum) == Within(payload, start, bounds.minimum)
    ensures var wish := Within(payload, start, bounds.target);
      WindowHigh(payload, start, bounds.target, bounds.maximum) ==
        if wish > start then wish else Within(payload, start, bounds.maximum)
  {
    hide Floor, Boundary;
    var most := Min(|payload|, start + bounds.maximum);
    FloorWithin(payload, Min(|payload|, start + bounds.minimum), most, start + bounds.minimum);
    FloorWithin(payload, Min(|payload|, start + bounds.target), most, start + bounds.target);
  }

  /** Flooring twice is flooring once, at the smaller limit. */
  lemma FloorWithin(payload: seq<Byte>, small: nat, large: nat, limit: nat)
    requires small <= large <= |payload| && small == Min(|payload|, limit)
    ensures Floor(payload, Min(Floor(payload, large), limit)) == Floor(payload, small)
  {
    hide Floor, Boundary;
    var a, b := Floor(payload, Min(Floor(payload, large), limit)), Floor(payload, small);
    assert b <= Floor(payload, large);
  }

  lemma RankOf(b: Byte)
    ensures Rank(b) <= 5 && (Rank(b) < 5 ==> b == SEPARATORS[Rank(b)])
  {
  }

  lemma RankOfSeparator(j: nat)
    requires j < |SEPARATORS|
    ensures Rank(SEPARATORS[j]) == j < 5
  {
  }

  lemma NotFound(payload: seq<Byte>, low: nat, high: nat, k: nat, i: nat)
    requires low <= i < high <= |payload| && k < |SEPARATORS|
    requires RFind(payload, SEPARATORS[k], low, high) == -1
    ensures payload[i] != SEPARATORS[k]
  {
  }

  /** Where none of the first separators occurs, every byte ranks behind them. */
  lemma RankedBehind(payload: seq<Byte>, low: nat, high: nat, j: nat)
    requires high <= |payload| && j <= |SEPARATORS|
    requires forall k :: 0 <= k < j ==> RFind(payload, SEPARATORS[k], low, high) == -1
    ensures forall i :: low <= i < high ==> j <= Rank(payload[i])
  {
    hide RFind, Rank;
    forall i | low <= i < high ensures j <= Rank(payload[i]) {
      forall k | 0 <= k < j ensures payload[i] != SEPARATORS[k] { NotFound(payload, low, high, k, i); }
      RankOf(payload[i]);
    }
  }

  /** The break that the code chooses is the preferred one. */
  lemma BestBreakEndsWell(payload: seq<Byte>, low: nat, high: nat, end: nat)
    requires high <= |payload| && BestBreak(payload, low, high, end)
    ensures EndsWell(payload, low, high, end)
  {
    hide RFind, Rank;
    if exists j :: 0 <= j < |SEPARATORS| && RFind(payload, SEPARATORS[j], low, high) >= 0 {
      var j :| 0 <= j < |SEPARATORS| && end == RFind(payload, SEPARATORS[j], low, high) + 1 && low < end
        && forall i :: 0 <= i < j ==> RFind(payload, SEPARATORS[i], low, high) == -1;
      RankedBehind(payload, low, high, j);
      RankOfSeparator(j);
      assert payload[end - 1] == SEPARATORS[j];
    } else {
      forall k | 0 <= k < |SEPARATORS| ensures RFind(payload, SEPARATORS[k], low, high) == -1 {}
      RankedBehind(payload, low, high, 5);
      forall i | low <= i < high ensures Rank(payload[i]) == 5 { RankOf(payload[i]); }
    }
  }

  ghost predicate EveryCharFits(text: seq<Scalar>, maximum: nat) {
    forall i :: 0 <= i < |text| ==> |EncodeChar(text[i])| <= maximum
  }

  /** The characters up to a later boundary are those up to an earlier one and those between. */
  lemma ExtendPrefix(text: seq<Scalar>, k: nat, start: nat, end: nat) returns (k': nat)
    requires start <= end && Boundary(Encode(text), start) && Boundary(Encode(text), end)
    requires k <= |text| && Encode(text)[..start] == Encode(text[..k])
    ensures k <= k' <= |text| && Encode(text)[..end] == Encode(text[..k'])
    ensures forall i :: k <= i < k' ==> |EncodeChar(text[i])| <= end - start
  {
    hide EncodeChar, Encode, Decode;
    var b := Encode(text);
    k' := SplitAtBoundary(text, end);
    var part := SliceBetweenBoundaries(text, start, end);
    EncodeConcat(text[..k], part);
    assert b[..end] == b[..start] + b[start..end];
    DecodeEncode(text[..k] + part);
    DecodeEncode(text[..k']);
    assert text[..k'] == text[..k] + part;
    forall i | k <= i < k' ensures |EncodeChar(text[i])| <= end - start {
      assert text[i] == text[..k'][i] == part[i - k];
    }
  }

  /** One chunk from a boundary: it fails exactly when the character there does not fit. */
  method CutOne(ghost text: seq<Scalar>, payload: seq<Byte>, start: nat, ghost k: nat, bounds: Bounds)
    returns (r: Option<Span>)
    requires payload == Encode(text) && start < |payload| && Boundary(payload, start)
    requires k <= |text| && payload[..start] == Encode(text[..k])
    requires LegalBounds(bounds)
    ensures k < |text|
    ensures r.None? <==> |EncodeChar(text[k])| > bounds.maximum
    ensures r.Some? ==>
      && r.value.contentStart == start < r.value.end <= |payload|
      && Boundary(payload, r.value.contextStart) && Boundary(payload, r.value.end)
      && WellCut(payload, r.value, bounds)
  {
    hide EncodeChar, Encode, BestBreak, EndsWell, Within, Floor, Boundary, Ceiling, WindowLow, WindowHigh;
    WholePrefix(text, k, start);
    assert start == |Encode(text[..k])|;
    CeilingIff(text, k, bounds.maximum);
    var ceiling, low, high := Window(payload, start, bounds);
    if ceiling <= start { return None; }
    WindowIsOrdered(payload, start, bounds);
    var end := BreakPoint(text, payload, low, high, start);
    LongEnough(text, start, end, bounds);
    var contextStart := ContextBefore(text, payload, start, bounds.overlap);
    WindowsAgree(payload, start, bounds);
    BestBreakEndsWell(payload, low, high, end);
    r := Some(Span(contextStart, start, end));
  }

  method Window(payload: seq<Byte>, start: nat, bounds: Bounds) returns (ceiling: nat, low: nat, high: nat)
    ensures ceiling == Ceiling(payload, start, bounds.maximum)
    ensures low == WindowLow(payload, start, bounds.minimum, bounds.maximum)
    ensures high == WindowHigh(payload, start, bounds.target, bounds.maximum)
  {
    hide Floor;
    ceiling := FloorUtf8Boundary(payload, Min(|payload|, start + bounds.maximum));
    var preferred := FloorUtf8Boundary(payload, Min(ceiling, start + bounds.target));
    low := FloorUtf8Boundary(payload, Min(ceiling, start + bounds.minimum));
    high := if preferred > start then preferred else ceiling;
  }

  lemma CeilingIff(text: seq<Scalar>, k: nat, maximum: nat)
    requires k < |text| && maximum >= 1
    ensures var b, at := Encode(text), |Encode(text[..k])|;
      at < |b| && (Ceiling(b, at, maximum) > at <==> |EncodeChar(text[k])| <= maximum)
  {
    hide EncodeChar, Encode, Floor;
    ProgressIff(text, k, maximum);
  }

  lemma WindowIsOrdered(payload: seq<Byte>, start: nat, bounds: Bounds)
    requires Boundary(payload, start) && start < Ceiling(payload, start, bounds.maximum)
    ensures var ceiling := Ceiling(payload, start, bounds.maximum);
      var low := WindowLow(payload, start, bounds.minimum, bounds.maximum);
      var high := WindowHigh(payload, start, bounds.target, bounds.maximum);
      && start <= low && start < high <= ceiling <= start + bounds.maximum
      && ceiling <= |payload| && Boundary(payload, high)
  {
    hide Floor, Boundary;
    FloorOfBoundary(payload, start, Min(Ceiling(payload, start, bounds.maximum), start + bounds.minimum));
  }

  method ContextBefore(ghost text: seq<Scalar>, payload: seq<Byte>, start: nat, overlap: nat) returns (at: nat)
    requires payload == Encode(text) && start <= |payload|
    ensures at <= start && Boundary(payload, at)
    ensures Min(start, overlap) <= start - at <= overlap + 3
    ensures forall i :: at < i <= start - overlap ==> !Boundary(payload, i)
  {
    hide EncodeChar, Encode, Floor, Boundary;
    FloorIsNear(text, if start > overlap then start - overlap else 0);
    at := FloorUtf8Boundary(payload, start - overlap);
  }

  lemma FloorOfBoundary(payload: seq<Byte>, start: nat, index: nat)
    requires start <= index <= |payload| && Boundary(payload, start)
    ensures start <= Floor(payload, index)
  {
  }

  /** Only the last chunk can be more than three bytes short of the minimum. */
  lemma LongEnough(text: seq<Scalar>, start: nat, end: nat, bounds: Bounds)
    requires LegalBounds(bounds) && start < |Encode(text)|
    requires var b := Encode(text);
      && start < Ceiling(b, start, bounds.maximum)
      && (end == WindowHigh(b, start, bounds.target, bounds.maximum)
          || end > WindowLow(b, start, bounds.minimum, bounds.maximum))
    ensures end < |Encode(text)| ==> end + 3 >= start + bounds.minimum
  {
    hide EncodeChar, Encode, Floor, Boundary;
    var b := Encode(text);
    var ceiling := Ceiling(b, start, bounds.maximum);
    FloorIsNear(text, Min(|b|, start + bounds.maximum));
    FloorIsNear(text, Min(ceiling, start + bounds.target));
    FloorIsNear(text, Min(ceiling, start + bounds.minimum));
    FloorOfItself(b, ceiling);
    FloorOfItself(b, |b|);
  }

  lemma FloorOfItself(payload: seq<Byte>, index: nat)
    requires index <= |payload|
    ensures Floor(payload, Floor(payload, index)) == Floor(payload, index)
    ensures Floor(payload, |payload|) == |payload|
  {
  }

  lemma WholePrefix(text: seq<Scalar>, k: nat, start: nat)
    requires k <= |text| && start < |Encode(text)| && Encode(text)[..start] == Encode(text[..k])
    ensures k < |text|
  {
    assert text[..|text|] == text;
  }

  /** For any text and legal bounds the fallback plans every byte, unless some character is longer than
      the maximum, which is the only way it can fail. */
  method PythonChunkPlan(ghost text: seq<Scalar>, payload: seq<Byte>, bounds: Bounds)
    returns (r: Result<seq<Span>, PlanError>)
    requires payload == Encode(text) && LegalBounds(bounds)
    ensures r.Ok? <==> EveryCharFits(text, bounds.maximum)
    ensures r.Err? ==> r.error == CharacterTooLong
    ensures r.Ok? ==> ValidPlan(payload, r.value)
    ensures r.Ok? ==> forall i :: 0 <= i < |r.value| ==> WellCut(payload, r.value[i], bounds)
  {
    hide EncodeChar, Encode, Decode, WellCut, Boundary;
    var spans: seq<Span> := [];
    var start := 0;
    ghost var k := 0;
    EmptyPrefix(text);
    while start < |payload|
      invariant start <= |payload| && Planned(payload, spans, start, bounds)
      invariant k <= |text| && payload[..start] == Encode(text[..k])
      invariant forall i :: 0 <= i < k ==> |EncodeChar(text[i])| <= bounds.maximum
      decreases |payload| - start
    {
      var cut := CutOne(text, payload, start, k, bounds);
      if cut.None? { return Err(CharacterTooLong); }
      WellCutSize(payload, cut.value, bounds);
      k := ExtendPrefix(text, k, start, cut.value.end);
      PlannedMore(payload, spans, start, cut.value, bounds);
      spans := spans + [cut.value];
      start := cut.value.end;
    }
    assert payload[..start] == payload;
    DecodeEncode(text);
    DecodeEncode(text[..k]);
    r := Ok(spans);
  }

  /** The plan made so far, up to a boundary. */
  ghost predicate Planned(payload: seq<Byte>, spans: seq<Span>, start: nat, bounds: Bounds) {
    && start == ContentStart(spans, |spans|) && Boundary(payload, start)
    && Contiguous(payload, spans) && OnBoundaries(payload, spans)
    && forall i :: 0 <= i < |spans| ==> WellCut(payload, spans[i], bounds)
  }

  lemma PlannedMore(payload: seq<Byte>, spans: seq<Span>, start: nat, span: Span, bounds: Bounds)
    requires Planned(payload, spans, start, bounds)
    requires span.contextStart <= span.contentStart == start < span.end <= |payload|
    requires Boundary(payload, span.contextStart) && Boundary(payload, span.end) && WellCut(payload, span, bounds)
    ensures Planned(payload, spans + [span], span.end, bounds)
  {
    hide WellCut, Boundary;
    var spans' := spans + [span];
    forall i | 0 <= i < |spans'|
      ensures spans'[i].contextStart <= spans'[i].contentStart == ContentStart(spans', i) < spans'[i].end <= |payload|
    {
      if i < |spans| { assert ContentStart(spans', i) == ContentStart(spans, i); }
    }
  }

  lemma EmptyPrefix(text: seq<Scalar>)
    ensures Encode(text)[..0] == Encode(text[..0]) && Boundary(Encode(text), 0)
  {
  }

  lemma WellCutSize(payload: seq<Byte>, span: Span, bounds: Bounds)
    requires WellCut(payload, span, bounds)
    ensures span.contextStart <= span.contentStart < span.end <= span.contentStart + bounds.maximum
  {
  }

  /** A maximum of four bytes holds every character. */
  lemma FourBytesAlwaysFit(text: seq<Scalar>, maximum: nat)
    requires maximum >= 4
    ensures EveryCharFits(text, maximum)
  {
  }

  // ---------------------------------------------------------------- the validator of foreign plans

  /** The checks made on spans that an untrusted planner returned: they are accepted exactly when they are
      a valid plan of the payload. */
  method ValidatePlan(ghost text: seq<Scalar>, payload: seq<Byte>, raw: seq<Span>)
    returns (r: Result<seq<Span>, PlanError>)
    requires payload == Encode(text)
    ensures r.Ok? <==> ValidPlan(payload, raw)
    ensures r.Ok? ==> r.value == raw
  {
    hide EncodeChar, Encode, Decode, Boundary;
    var result: seq<Span> := [];
    var expectedStart := 0;
    var i := 0;
    while i < |raw|
      invariant 0 <= i <= |raw| && result == raw[..i]
      invariant expectedStart == ContentStart(raw, i)
      invariant forall j :: 0 <= j < i ==> Acceptable(payload, raw, j)
    {
      var span := raw[i];
      if !(span.contextStart <= span.contentStart == expectedStart < span.end <= |payload|) {
        NotAcceptable(payload, raw, i);
        return Err(InvalidBoundaries);
      }
      SliceDecodesIff(text, span.contextStart, span.end);
      SliceDecodesIff(text, span.contentStart, span.end);
      if Decode(payload[span.contextStart..span.end]).None? || Decode(payload[span.contentStart..span.end]).None? {
        NotAcceptable(payload, raw, i);
        return Err(SplitSequence);
      }
      result := result + [span];
      expectedStart := span.end;
      i := i + 1;
    }
    AllAcceptable(payload, raw);
    if expectedStart != |payload| { return Err(Incomplete); }
    assert result == raw;
    r := Ok(result);
  }

  /** What the validator demands of one span. */
  predicate Acceptable(payload: seq<Byte>, raw: seq<Span>, i: nat)
    requires i < |raw|
  {
    && raw[i].contextStart <= raw[i].contentStart == ContentStart(raw, i) < raw[i].end <= |payload|
    && Boundary(payload, raw[i].contextStart) && Boundary(payload, raw[i].contentStart) && Boundary(payload, raw[i].end)
  }

  lemma NotAcceptable(payload: seq<Byte>, raw: seq<Span>, i: nat)
    requires i < |raw| && !Acceptable(payload, raw, i)
    ensures !ValidPlan(payload, raw)
  {
    var due := ContentStart(raw, i);
  }

  lemma AllAcceptable(payload: seq<Byte>, raw: seq<Span>)
    requires forall j :: 0 <= j < |raw| ==> Acceptable(payload, raw, j)
    ensures Contiguous(payload, raw) && OnBoundaries(payload, raw)
  {
    hide Boundary, ContentStart;
    forall i | 0 <= i < |raw|
      ensures Boundary(payload, raw[i].contextStart) && Boundary(payload, raw[i].contentStart)
      ensures Boundary(payload, raw[i].end)
      ensures raw[i].contextStart <= raw[i].contentStart == ContentStart(raw, i) < raw[i].end <= |payload|
    {
      assert Acceptable(payload, raw, i);
    }
  }

  // ---------------------------------------------------------------- asking the native planner

  const SIZE_ERROR: nat := 0xFFFF_FFFF_FFFF_FFFF

  /** What an untrusted planner does: the span count it announces, the count it reports writing, and what it
      leaves in the buffer, which has room for as many spans as it announced. */
  datatype NativeAnswer = NativeAnswer(required: nat, written: nat, buffer: nat -> Span) {
    function Spans(): (spans: seq<Span>)
      ensures |spans| == required
    {
      seq(required, i requires 0 <= i => buffer(i))
    }
  }

  /** An announcement of no spans passes unchecked; any other answer passes when it is consistent and its
      spans are a valid plan. */
  ghost predicate Passes(answer: NativeAnswer, payload: seq<Byte>) {
    || answer.required == 0
    || (answer.required != SIZE_ERROR && answer.written == answer.required && ValidPlan(payload, answer.Spans()))
  }

  method PlanTextChunks(ghost text: seq<Scalar>, payload: seq<Byte>, answer: NativeAnswer)
    returns (r: Result<seq<Span>, PlanError>)
    requires payload == Encode(text)
    ensures r.Ok? <==> Passes(answer, payload)
    ensures r.Ok? ==> r.value == answer.Spans()
  {
    hide ValidPlan, Encode;
    if answer.required == SIZE_ERROR { return Err(PlannerFailed); }
    if answer.required == 0 { return Ok([]); }
    if answer.written != answer.required { return Err(InconsistentCount); }
    r := ValidatePlan(text, payload, answer.Spans());
  }

  /** A plan without spans is valid for the empty text only. */
  lemma EmptyPlan(payload: seq<Byte>)
    ensures Contiguous(payload, []) && OnBoundaries(payload, [])
    ensures ValidPlan(payload, []) <==> payload == []
  {
  }

  /** So an answer that passes is a valid plan exactly when it announced spans or there was nothing to plan. */
  lemma PassedPlanIsValidIff(answer: NativeAnswer, payload: seq<Byte>)
    requires Passes(answer, payload)
    ensures ValidPlan(payload, answer.Spans()) <==> answer.required != 0 || payload == []
    ensures Contiguous(payload, answer.Spans()) && OnBoundaries(payload, answer.Spans())
  {
    EmptyPlan(payload);
    if answer.required == 0 { assert answer.Spans() == []; }
  }

  /** For example: a planner that announces no spans for the letter A is believed, and A is never planned. */
  lemma UnplannedLetter(written: nat, buffer: nat -> Span)
    ensures var answer := NativeAnswer(0, written, buffer);
      Passes(answer, Encode([65])) && !ValidPlan(Encode([65]), answer.Spans())
  {
    var answer := NativeAnswer(0, written, buffer);
    assert Encode([65]) != [] by { assert EncodeChar(65) == [65]; }
    PassedPlanIsValidIff(answer, Encode([65]));
  }

  // ---------------------------------------------------------------- the entry point

  ghost predicate LegalRequest(minimum: int, target: int, maximum: int, overlap: int) {
    1 <= minimum <= target <= maximum <= MAX_CHUNK && 0 <= overlap < maximum
  }

  /** Checks the requested bounds, prefers the spans of a native planner if it returned any that pass, and
      falls back otherwise. The plan covers the text exactly unless the native planner announced no spans for
      a text that has bytes. */
  method PlanTextForTraining(ghost text: seq<Scalar>, payload: seq<Byte>, minimum: int, target: int, maximum: int,
                             overlap: int, native: Option<NativeAnswer>)
    returns (r: Result<seq<Span>, PlanError>)
    requires payload == Encode(text)
    ensures r == Err(BadBounds) <==> !(1 <= minimum <= target <= maximum <= MAX_CHUNK)
    ensures r == Err(BadOverlap) <==>
      1 <= minimum <= target <= maximum <= MAX_CHUNK && !(0 <= overlap < maximum)
    ensures r.Ok? <==>
      LegalRequest(minimum, target, maximum, overlap) &&
      ((native.Some? && Passes(native.value, payload)) || EveryCharFits(text, maximum))
    ensures r.Ok? && native.Some? && Passes(native.value, payload) ==> r.value == native.value.Spans()
    ensures r.Ok? ==> Contiguous(payload, r.value) && OnBoundaries(payload, r.value)
    ensures r.Ok? ==>
      (ValidPlan(payload, r.value) <==> !(native.Some? && native.value.required == 0) || payload == [])
  {
    hide Encode, EveryCharFits, Passes, Contiguous, OnBoundaries;
    if !(1 <= minimum <= target <= maximum <= MAX_CHUNK) { return Err(BadBounds); }
    if !(0 <= overlap < maximum) { return Err(BadOverlap); }
    if native.Some? {
      var accepted := PlanTextChunks(text, payload, native.value);
      if accepted.Ok? {
        PassedPlanIsValidIff(native.value, payload);
        return accepted;
      }
      NoSpansPass(native.value, payload);
    }
    r := PythonChunkPlan(text, payload, Bounds(minimum, target, maximum, overlap));
  }

  lemma NoSpansPass(answer: NativeAnswer, payload: seq<Byte>)
    ensures answer.required == 0 ==> Passes(answer, payload)
  {
  }
}
