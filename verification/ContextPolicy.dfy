/** Split and chunk policy: the portable planner on unbounded integers and the native one on words. */
module ContextPolicy {
  import opened Options
  import opened Modular
  import opened Mixer

  // ---------------------------------------------------------------- splits

  datatype Split = Train | Validation | Test

  /** The portable split of a context key of any size. */
  function SplitFor(key: int, validation: nat, test: nat): Split {
    var bucket := MixMasked(key % TWO64) % 100;
    if bucket < validation then Validation else if bucket < validation + test then Test else Train
  }

  const INVALID_SPLIT: nat := 0xFFFF_FFFF

  /** The native split: 0, 1 or 2, or the invalid marker. */
  function SplitForContext(key: Word, validation: nat, test: nat): nat {
    if validation > 95 || test > 95 || validation + test > 95 then INVALID_SPLIT
    else
      var bucket := MixWord(key) % 100;
      if bucket < validation then 1 else if bucket < validation + test then 2 else 0
  }

  /** The 15/15 split of a record by its index, which is not masked before it is mixed. */
  function SplitForIndex(index: nat): Split {
    var bucket := MixMasked(index) % 100;
    if bucket < 15 then Validation else if bucket < 30 then Test else Train
  }

  function SplitName(id: nat): Option<Split> {
    if id == 0 then Some(Train) else if id == 1 then Some(Validation) else if id == 2 then Some(Test) else None
  }

  /** For every key and every legal pair of percentages the two policies choose the same split, and the
      record split is the context split at fifteen and fifteen. */
  lemma SplitsAgree(key: int, index: nat, validation: nat, test: nat)
    requires validation <= 95 && test <= 95 && validation + test <= 95
    ensures SplitName(SplitForContext(Wrap(key), validation, test)) == Some(SplitFor(key, validation, test))
    ensures SplitForIndex(index) == SplitFor(index, 15, 15)
    ensures index < TWO64 ==> SplitName(SplitForContext(index, 15, 15)) == Some(SplitForIndex(index))
  {
    hide MixMasked, MixWord;
    MixersAgree(key % TWO64);
    MixersAgree(index);
    MixersAgree(index % TWO64);
    SmallResidue(key % TWO64, TWO64);
    SmallResidue(index % TWO64, TWO64);
    if index < TWO64 { SmallResidue(index, TWO64); }
  }

  /** Of a hundred residues of the mixed key the first go to validation and the next to test; the native policy
      refuses percentages that leave the training split less than five. */
  lemma SplitByBucket(key: Word, validation: nat, test: nat)
    ensures var bucket := MixWord(key) % 100;
      && (SplitFor(key, validation, test) == Validation <==> bucket < validation)
      && (SplitFor(key, validation, test) == Test <==> validation <= bucket < validation + test)
      && (SplitForContext(key, validation, test) == 0xFFFF_FFFF <==>
            validation > 95 || test > 95 || validation + test > 95)
  {
    hide MixMasked, MixWord;
    MixersAgree(key % TWO64);
    SmallResidue(key, TWO64);
  }

  /** Every residue is drawn by some context: with a hundred of them each split gets its percentage. */
  lemma EveryBucketIsDrawn(bucket: nat, validation: nat, test: nat)
    requires bucket < 100
    ensures SplitFor(Unmix(bucket), validation, test) ==
      if bucket < validation then Validation else if bucket - validation < test then Test else Train
  {
    hide MixMasked, MixWord, Unmix, SplitFor;
    MixUnmix(bucket);
    SplitByBucket(Unmix(bucket), validation, test);
    SmallResidue(bucket, 100);
  }

  /** The items of one split, in their original order. */
  function Chosen<T>(items: seq<(int, T)>, validation: nat, test: nat, split: Split): seq<T> {
    if items == [] then []
    else
      var last := items[|items| - 1];
      Chosen(items[..|items| - 1], validation, test, split)
        + if SplitFor(last.0, validation, test) == split then [last.1] else []
  }

  /** Splitting neither loses, repeats nor reorders an item. */
  method Partition<T>(items: seq<(int, T)>, validation: nat, test: nat)
    returns (train: seq<T>, valid: seq<T>, held: seq<T>)
    ensures train == Chosen(items, validation, test, Train)
    ensures valid == Chosen(items, validation, test, Validation)
    ensures held == Chosen(items, validation, test, Test)
    ensures |train| + |valid| + |held| == |items|
  {
    hide SplitFor;
    train, valid, held := [], [], [];
    var i := 0;
    while i < |items|
      invariant 0 <= i <= |items| && |train| + |valid| + |held| == i
      invariant train == Chosen(items[..i], validation, test, Train)
      invariant valid == Chosen(items[..i], validation, test, Validation)
      invariant held == Chosen(items[..i], validation, test, Test)
    {
      assert items[..i + 1][..i] == items[..i];
      match SplitFor(items[i].0, validation, test) {
        case Train => train := train + [items[i].1];
        case Validation => valid := valid + [items[i].1];
        case Test => held := held + [items[i].1];
      }
      i := i + 1;
    }
    assert items[..i] == items;
  }

  lemma {:induction false} ChosenIff<T>(items: seq<(int, T)>, validation: nat, test: nat, split: Split,
                                     context: int, item: T)
    ensures (context, item) in items && SplitFor(context, validation, test) == split ==>
      item in Chosen(items, validation, test, split)
    ensures item in Chosen(items, validation, test, split) ==>
      exists i :: 0 <= i < |items| && items[i].1 == item && SplitFor(items[i].0, validation, test) == split
  {
    if items != [] {
      var init, last := items[..|items| - 1], items[|items| - 1];
      ChosenIff(init, validation, test, split, context, item);
      assert items == init + [last];
      if item in Chosen(init, validation, test, split) {
        var i :| 0 <= i < |init| && init[i].1 == item && SplitFor(init[i].0, validation, test) == split;
        assert items[i] == init[i];
      }
    }
  }

  /** The items chosen are those at the positions of the split, ascending: nothing is reordered. */
  lemma {:induction false} ChosenInOrder<T>(items: seq<(int, T)>, validation: nat, test: nat, split: Split)
    returns (at: seq<nat>)
    ensures var chosen := Chosen(items, validation, test, split);
      |at| == |chosen| && forall k :: 0 <= k < |at| ==> at[k] < |items| && chosen[k] == items[at[k]].1
    ensures forall j, k :: 0 <= j < k < |at| ==> at[j] < at[k]
    ensures forall i :: 0 <= i < |items| ==> (i in at <==> SplitFor(items[i].0, validation, test) == split)
  {
    hide SplitFor;
    at := [];
    if items != [] {
      var n := |items| - 1;
      at := ChosenInOrder(items[..n], validation, test, split);
      assert forall i :: 0 <= i < n ==> items[..n][i] == items[i];
      assert n !in at;
      if SplitFor(items[n].0, validation, test) == split { at := at + [n]; }
    }
  }

  // ---------------------------------------------------------------- chunk sizes

  datatype Limits = Limits(target: nat, minimum: nat, maximum: nat)

  /** What the planner's constructor accepts. */
  predicate Legal(limits: Limits) {
    1 <= limits.minimum <= limits.target <= limits.maximum
  }

  function Clamp(value: int, low: int, high: int): (r: int)
    requires low <= high
    ensures low <= r <= high
  {
    if value < low then low else if value > high then high else value
  }

  function Lower(limits: Limits): int {
    Min(Max(limits.target * 3 / 4, limits.minimum), limits.maximum)
  }

  function Upper(limits: Limits): int {
    Min(Max(limits.target * 5 / 4, Lower(limits)), limits.maximum)
  }

  /** The portable chunk size. */
  function ChunkSize(limits: Limits, seed: Word, remaining: nat, sequence: nat): int
    requires limits.minimum <= limits.maximum
  {
    var proposed := Lower(limits) + MixMasked(Xor(seed, sequence)) % (Upper(limits) - Lower(limits) + 1);
    Max(Min(proposed, remaining), Min(remaining, limits.minimum))
  }

  /** The range reaches from three quarters of the target to five, as far as the limits allow. */
  lemma BoundsAreQuarters(limits: Limits)
    requires Legal(limits)
    ensures 4 * Lower(limits) <= 3 * limits.target < 4 * Lower(limits) + 4 ||
      (Lower(limits) == limits.minimum && 4 * limits.minimum >= 3 * limits.target)
    ensures 4 * Upper(limits) <= 5 * limits.target < 4 * Upper(limits) + 4 ||
      (Upper(limits) == limits.maximum && 4 * limits.maximum <= 5 * limits.target)
    ensures limits.minimum <= Lower(limits) <= limits.target <= Upper(limits) <= limits.maximum
  {
  }

  /** Whatever the sequence number, every size of the range is drawn by some seed; and a short remainder is
      taken whole. */
  lemma EverySizeIsDrawn(limits: Limits, sequence: Word, remaining: nat, size: nat)
    requires Legal(limits) && limits.maximum < TWO64 && Lower(limits) <= size <= Upper(limits)
    ensures var seed := WordXor(Unmix(size - Lower(limits)), sequence);
      ChunkSize(limits, seed, remaining, sequence) == Min(size, remaining)
  {
    hide MixMasked, MixWord, Unmix, Xor, WordXor, Lower, Upper;
    BoundsAreQuarters(limits);
    var key := Unmix(size - Lower(limits));
    WordXorIsXor(key, sequence);
    XorCancel(key, sequence);
    MixUnmix(size - Lower(limits));
    MixersAgree(key);
    WrapSmall(key);
    SmallResidue(size - Lower(limits), Upper(limits) - Lower(limits) + 1);
  }

  /** The native bounds: the products wrap, and `std::clamp` demands ordered limits. */
  function WordLower(limits: Limits): (r: nat)
    requires limits.minimum <= limits.maximum
    ensures limits.minimum <= r <= limits.maximum
  {
    Clamp(Wrap(limits.target * 3) / 4, limits.minimum, limits.maximum)
  }

  function WordUpper(limits: Limits): (r: nat)
    requires limits.minimum <= limits.maximum
    ensures WordLower(limits) <= r <= limits.maximum
  {
    Clamp(Wrap(limits.target * 5) / 4, WordLower(limits), limits.maximum)
  }

  /** The native chunk size. No addition in it wraps and no modulus is zero, because the minimum is at
      least one: the result is between one and what remains. */
  function NextChunkSize(remaining: Word, limits: Limits, sequence: Word, seed: Word): (size: nat)
    requires limits.target < TWO64 && limits.minimum < TWO64 && limits.maximum < TWO64
    ensures remaining > 0 && limits.target > 0 && 0 < limits.minimum <= limits.maximum ==>
      && 1 <= size <= remaining
      && (size < limits.minimum ==> size == remaining)
      && size <= limits.maximum
    ensures remaining == 0 ==> size == 0
  {
    if remaining == 0 || limits.target == 0 || limits.minimum == 0 || limits.maximum < limits.minimum then 0
    else
      var lower, upper := WordLower(limits), WordUpper(limits);
      var modulus := Wrap(Wrap(upper - lower) + 1);
      SmallResidue(upper - lower, TWO64);
      SmallResidue(upper - lower + 1, TWO64);
      var drawn := MixWord(WordXor(seed, sequence)) % modulus;
      SmallResidue(lower + drawn, TWO64);
      var proposed := Wrap(lower + drawn);
      Max(Min(proposed, remaining), Min(remaining, limits.minimum))
  }

  lemma BoundsAgree(limits: Limits)
    requires Legal(limits) && limits.maximum < TWO64 && limits.target * 5 < TWO64
    ensures WordLower(limits) == Lower(limits) && WordUpper(limits) == Upper(limits)
  {
    SmallResidue(limits.target * 3, TWO64);
    SmallResidue(limits.target * 5, TWO64);
  }

  lemma WordXorIsXor(a: Word, b: Word)
    ensures WordXor(a, b) == Xor(a, b)
  {
  }

  /** While five times the target fits a word, the native size is the portable one, bit for bit. */
  lemma ChunkSizesAgree(limits: Limits, seed: Word, remaining: Word, sequence: Word)
    requires Legal(limits) && limits.maximum < TWO64 && limits.target * 5 < TWO64 && remaining > 0
    ensures NextChunkSize(remaining, limits, sequence, seed) == ChunkSize(limits, seed, remaining, sequence)
  {
    hide MixMasked, MixWord, Lower, Upper, WordLower, WordUpper, WordXor, Xor, Wrap;
    BoundsAgree(limits);
    var lower, upper := WordLower(limits), WordUpper(limits);
    WrapSmall(upper - lower);
    WrapSmall(upper - lower + 1);
    var key := WordXor(seed, sequence);
    assert key == Xor(seed, sequence) by { WordXorIsXor(seed, sequence); }
    MixersAgree(key);
    WrapSmall(key);
    WrapSmall(lower + MixWord(key) % (upper - lower + 1));
  }

  lemma WrapSmall(x: nat)
    requires x < TWO64
    ensures Wrap(x) == x
  {
    SmallResidue(x, TWO64);
  }

  /** With the default limits of three and five quarters that bound is sharp: the two policies draw from
      the same range exactly when five times the target fits a word. */
  lemma DefaultRangesAgreeIff(target: nat)
    requires target >= 2 && target * 5 / 4 < TWO64
    ensures var limits := Limits(target, target * 3 / 4, target * 5 / 4);
      (WordLower(limits) == Lower(limits) && WordUpper(limits) == Upper(limits)) <==> target * 5 < TWO64
  {
    var limits := Limits(target, target * 3 / 4, target * 5 / 4);
    assert Lower(limits) == target * 3 / 4 && Upper(limits) == target * 5 / 4;
    if target * 5 < TWO64 {
      SmallResidue(target * 3, TWO64);
      SmallResidue(target * 5, TWO64);
    } else {
      // the wrapped product falls short of the true upper limit
      assert Wrap(target * 5) / 4 < TWO64 / 4 <= target * 5 / 4;
      assert target * 3 / 4 < target * 5 / 4;
    }
  }

  ghost predicate SizesAgree(limits: Limits)
    requires limits.target < TWO64 && limits.minimum < TWO64 && limits.maximum < TWO64
    requires limits.minimum <= limits.maximum
  {
    forall seed: Word, remaining: Word, sequence: Word :: remaining > 0 ==>
      NextChunkSize(remaining, limits, sequence, seed) == ChunkSize(limits, seed, remaining, sequence)
  }

  /** With the default limits the sizes agree for every seed, sequence and remainder exactly when five times the
      target fits a word: beyond that, some seed draws a size that only the portable range holds. */
  lemma DefaultSizesAgreeIff(target: nat)
    requires target >= 2 && target * 5 / 4 < TWO64
    ensures SizesAgree(Limits(target, target * 3 / 4, target * 5 / 4)) <==> target * 5 < TWO64
  {
    hide NextChunkSize, ChunkSize, Unmix, MixWord;
    var limits := Limits(target, target * 3 / 4, target * 5 / 4);
    if target * 5 < TWO64 {
      forall seed: Word, remaining: Word, sequence: Word | remaining > 0
        ensures NextChunkSize(remaining, limits, sequence, seed) == ChunkSize(limits, seed, remaining, sequence)
      {
        ChunkSizesAgree(limits, seed, remaining, sequence);
      }
    } else {
      var key := Unmix(limits.maximum - limits.minimum);
      MixUnmix(limits.maximum - limits.minimum);
      PortableDrawsMaximum(limits, key);
      NativeStaysBelow(limits, key);
      assert NextChunkSize(limits.maximum, limits, 0, key) != ChunkSize(limits, key, limits.maximum, 0);
    }
  }

  lemma PortableDrawsMaximum(limits: Limits, key: Word)
    requires limits.target >= 2 && limits.minimum == limits.target * 3 / 4
    requires limits.maximum == limits.target * 5 / 4 < TWO64
    requires MixWord(key) == limits.maximum - limits.minimum
    ensures ChunkSize(limits, key, limits.maximum, 0) == limits.maximum
  {
    hide MixMasked, MixWord, Xor;
    XorZero(key);
    MixersAgree(key);
    WrapSmall(key);
    assert Lower(limits) == limits.minimum && Upper(limits) == limits.maximum;
    SmallResidue(limits.maximum - limits.minimum, limits.maximum - limits.minimum + 1);
  }

  lemma NativeStaysBelow(limits: Limits, key: Word)
    requires limits.target >= 2 && limits.minimum == limits.target * 3 / 4
    requires limits.maximum == limits.target * 5 / 4 < TWO64
    requires limits.target * 5 >= TWO64
    ensures NextChunkSize(limits.maximum, limits, 0, key) < limits.maximum
  {
    hide MixWord, WordXor, Wrap, WordLower, WordUpper;
    NarrowRange(limits);
    var lower, upper := WordLower(limits), WordUpper(limits);
    WrapSmall(upper - lower);
    WrapSmall(upper - lower + 1);
    var drawn := MixWord(WordXor(key, 0)) % (upper - lower + 1);
    WrapSmall(lower + drawn);
  }

  lemma NarrowRange(limits: Limits)
    requires limits.target >= 2 && limits.minimum == limits.target * 3 / 4
    requires limits.maximum == limits.target * 5 / 4 < TWO64
    requires limits.target * 5 >= TWO64
    ensures WordUpper(limits) < limits.maximum
  {
    // the wrapped products fall short of the true ones
    assert Wrap(limits.target * 5) / 4 < TWO64 / 4 <= limits.maximum;
    assert Wrap(limits.target * 3) <= limits.target * 3;
    assert WordLower(limits) == limits.minimum < limits.maximum;
  }

  // ---------------------------------------------------------------- exact cover

  datatype Chunk = Chunk(start: nat, stop: nat)

  datatype PlanError = NegativeTotal | InvalidSize

  function From(ranges: seq<Chunk>, i: nat): nat
    requires i <= |ranges|
  {
    if i == 0 then 0 else ranges[i - 1].stop
  }

  /** Contiguous non-empty ranges from zero, each within the limits except that the last may be short. */
  ghost predicate Covers(ranges: seq<Chunk>, limits: Limits, covered: nat, total: nat) {
    && From(ranges, |ranges|) == covered <= total
    && forall i {:trigger From(ranges, i)} :: 0 <= i < |ranges| ==>
      && ranges[i].start == From(ranges, i) < ranges[i].stop <= total
      && ranges[i].stop - ranges[i].start <= limits.maximum
      && (ranges[i].stop - ranges[i].start < limits.minimum ==> ranges[i].stop == total)
  }

  lemma ChunkSizeFits(limits: Limits, seed: Word, remaining: nat, sequence: nat)
    requires Legal(limits) && remaining > 0
    ensures var size := ChunkSize(limits, seed, remaining, sequence);
      && 1 <= size <= remaining && size <= limits.maximum
      && (size < limits.minimum ==> size == remaining)
  {
    hide MixMasked;
    var lower, upper := Lower(limits), Upper(limits);
    assert limits.minimum <= lower <= upper <= limits.maximum;
    var drawn := MixMasked(Xor(seed, sequence)) % (upper - lower + 1);
  }

  /** The size of the range number i is drawn with the sequence number i from what is left before it. */
  ghost predicate Drawn(ranges: seq<Chunk>, limits: Limits, seed: Word, total: nat)
    requires limits.minimum <= limits.maximum
  {
    forall i :: 0 <= i < |ranges| ==>
      ranges[i].start <= total &&
      ranges[i].stop == ranges[i].start + ChunkSize(limits, seed, total - ranges[i].start, i)
  }

  /** The ranges cover the records exactly, for any seed; the size check inside can never fire. */
  method ChunkRanges(limits: Limits, seed: Word, total: int) returns (r: Result<seq<Chunk>, PlanError>)
    requires Legal(limits)
    ensures r.Err? <==> total < 0
    ensures r.Ok? ==> Covers(r.value, limits, total, total) && Drawn(r.value, limits, seed, total)
  {
    hide ChunkSize, From;
    if total < 0 { return Err(NegativeTotal); }
    var remaining: nat := total;
    var ranges: seq<Chunk> := [];
    var start, sequence := 0, 0;
    NothingCovered(limits, total);
    while remaining != 0
      invariant start + remaining == total && Covers(ranges, limits, start, total)
      invariant sequence == |ranges| && Drawn(ranges, limits, seed, total)
      decreases remaining
    {
      var size := ChunkSize(limits, seed, remaining, sequence);
      ChunkSizeFits(limits, seed, remaining, sequence);
      if size <= 0 || size > remaining { return Err(InvalidSize); }
      var stop := start + size;
      CoversMore(ranges, limits, start, stop, total);
      ranges := ranges + [Chunk(start, stop)];
      remaining := remaining - size;
      start := stop;
      sequence := sequence + 1;
    }
    r := Ok(ranges);
  }

  lemma NothingCovered(limits: Limits, total: nat)
    ensures Covers([], limits, 0, total)
  {
  }

  lemma CoversMore(ranges: seq<Chunk>, limits: Limits, start: nat, stop: nat, total: nat)
    requires Covers(ranges, limits, start, total) && start < stop <= total
    requires stop - start <= limits.maximum && (stop - start < limits.minimum ==> stop == total)
    ensures Covers(ranges + [Chunk(start, stop)], limits, stop, total)
  {
    var more := ranges + [Chunk(start, stop)];
    forall i | 0 <= i < |more|
      ensures more[i].start == From(more, i) < more[i].stop <= total
      ensures more[i].stop - more[i].start <= limits.maximum
      ensures more[i].stop - more[i].start < limits.minimum ==> more[i].stop == total
    {
      if i < |ranges| { assert more[i] == ranges[i] && From(more, i) == From(ranges, i); }
    }
  }

  lemma {:induction false} RangesAscend(ranges: seq<Chunk>, limits: Limits, covered: nat, total: nat, i: nat, j: nat)
    requires Covers(ranges, limits, covered, total) && i <= j <= |ranges|
    ensures From(ranges, i) <= From(ranges, j) && (i < j ==> ranges[i].stop <= From(ranges, j))
    decreases j - i
  {
    if i < j {
      RangesAscend(ranges, limits, covered, total, i, j - 1);
      assert ranges[j - 1].start == From(ranges, j - 1);
    }
  }

  /** Every record lies in exactly one range. */
  lemma {:induction false} EveryRecordOnce(ranges: seq<Chunk>, limits: Limits, total: nat, record: nat, k: nat)
    returns (i: nat)
    requires Covers(ranges, limits, total, total) && k <= |ranges| && record < From(ranges, k)
    ensures i < |ranges| && ranges[i].start <= record < ranges[i].stop
    ensures forall j :: 0 <= j < |ranges| && ranges[j].start <= record < ranges[j].stop ==> j == i
    decreases k
  {
    assert ranges[k - 1].start == From(ranges, k - 1);
    if record < From(ranges, k - 1) {
      i := EveryRecordOnce(ranges, limits, total, record, k - 1);
    } else {
      i := k - 1;
      forall j | 0 <= j < |ranges| && j != i ensures !(ranges[j].start <= record < ranges[j].stop) {
        assert ranges[j].start == From(ranges, j);
        if j < i { RangesAscend(ranges, limits, total, total, j, i); }
        else { RangesAscend(ranges, limits, total, total, i, j); }
      }
    }
  }
}
