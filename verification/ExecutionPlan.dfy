/** The C execution plan and the chunk cursor it configures. `size_t` has 64 bits. */
module ExecutionPlan {
  import opened Options
  import opened Modular
  import opened Mixer
  import opened ContextPolicy

  const SIZE_MAX: nat := TWO64 - 1
  const ABI_VERSION: nat := 8

  type Word32 = x: int | 0 <= x < 0x1_0000_0000

  datatype Status = PolicyOk | InvalidArgument | IncompatibleAbi | UnavailableAccelerator

  datatype Execution = AutoExecution | CpuExecution | HybridExecution | OtherExecution

  datatype Pack = Careful | Balanced | Throughput | Maximum | OtherPack

  datatype Request = Request(
    abiVersion: Word32, execution: Execution, pack: Pack, cpuPercent: Word32, ramPercent: Word32,
    gpuPercent: Word32, requestedThreads: Word32, logicalThreads: Word32, accelerator: bool,
    availableMemory: Word, datasetRecords: Word, recordBytes: Word)

  /** Saturating `value * percent / 100`. */
  function ScaleSize(value: Word, percent: Word32): Word {
    if value == 0 || percent == 0 then 0
    else if value > SIZE_MAX / percent then SIZE_MAX
    else
      ScaleFits(value, percent);
      value * percent / 100
  }

  lemma ScaleFits(value: nat, percent: nat)
    requires percent >= 1
    ensures value > SIZE_MAX / percent <==> value * percent > SIZE_MAX
  {
    var q := SIZE_MAX / percent;
    assert SIZE_MAX == q * percent + SIZE_MAX % percent;
    if value <= q {
      MulMonotone(percent, value, q);
    } else {
      MulMonotone(percent, q + 1, value);
      assert percent * (q + 1) == q * percent + percent;
    }
  }

  /** Divide-before-multiply: no product wraps, and nothing is lost against the exact quotient. */
  lemma DividedPercentIsExact(u: Word, percent: nat)
    requires percent <= 100
    ensures (u / 100) * percent + (u % 100) * percent / 100 == u * percent / 100 <= u
    ensures (u / 100) * percent < TWO64 && (u % 100) * percent < TWO64
  {
    var a, b := u / 100, u % 100;
    MulMonotone(a, percent, 100);
    MulMonotone(b, percent, 100);
    var f, g := b * percent / 100, b * percent % 100;
    assert u * percent == (a * 100 + b) * percent == (a * percent) * 100 + b * percent;
    assert b * percent == f * 100 + g;
    DivisionIsUnique(u * percent, 100, a * percent + f, g);
  }

  function RecordsFromMemory(bytes: Word, ramPercent: nat, recordBytes: Word, reserve: nat): (r: Word)
    requires ramPercent <= 100
    ensures bytes != 0 && ramPercent != 0 && recordBytes != 0 && reserve != 0 ==>
      r == (bytes / reserve) * ramPercent / 100 / recordBytes
  {
    if bytes == 0 || ramPercent == 0 || recordBytes == 0 || reserve == 0 then 0
    else
      QuotientFits(bytes, reserve);
      var usable: Word := bytes / reserve;
      DividedPercentIsExact(usable, ramPercent);
      var share: Word := (usable / 100) * ramPercent + (usable % 100) * ramPercent / 100;
      QuotientFits(share, recordBytes);
      share / recordBytes
  }

  lemma QuotientFits(a: nat, b: nat)
    requires b >= 1
    ensures 0 <= a / b <= a && (a / b) * b <= a
  {
    var q := a / b;
    assert a == q * b + a % b;
    if q >= 0 { MulMonotone(q, 1, b); }
    if q < 0 { MulMonotone(b, q, -1); }
  }

  function Reserve(pack: Pack): nat {
    match pack case Careful => 16 case Balanced => 10 case Throughput => 7 case _ => 5
  }

  function MinimumPercent(pack: Pack): nat {
    match pack case Careful => 50 case Balanced => 70 case _ => 90
  }

  function MaximumPercent(pack: Pack): nat {
    match pack case Careful => 110 case Balanced => 135 case Throughput => 190 case _ => 280
  }

  function WorkerCap(pack: Pack): nat {
    match pack case Careful => 1 case Balanced => 2 case Throughput => 4 case _ => 8
  }

  function Prefetch(pack: Pack): nat {
    match pack case Careful => 1 case Balanced => 2 case Throughput => 3 case _ => 4
  }

  function Aggression(pack: Pack): nat {
    match pack case Careful => 0 case Balanced => 35 case Throughput => 70 case _ => 100
  }

  const PACKS: seq<Pack> := [Careful, Balanced, Throughput, Maximum]

  /** The four packs in rows: memory divisor, percentages, worker cap, prefetch depth, aggression. */
  lemma PackTable(i: nat)
    requires i < 4
    ensures Reserve(PACKS[i]) == [16, 10, 7, 5][i]
    ensures MinimumPercent(PACKS[i]) == [50, 70, 90, 90][i] && MaximumPercent(PACKS[i]) == [110, 135, 190, 280][i]
    ensures WorkerCap(PACKS[i]) == [1, 2, 4, 8][i]
    ensures Prefetch(PACKS[i]) == [1, 2, 3, 4][i] && Aggression(PACKS[i]) == [0, 35, 70, 100][i]
  {
  }

  class Plan {
    var hybrid: bool
    var explicitThreads: bool
    var nativeThreads: nat
    var dataWorkers: nat
    var prefetch: nat
    var memoryPressure: nat
    var aggression: nat
    var target: nat
    var minimum: nat
    var maximum: nat

    constructor () {}

    /** A configuration that a chunk cursor accepts. */
    predicate LegalCursor()
      reads this
    {
      && 1 <= minimum <= maximum < TWO64
      && 1 <= target <= maximum
      && memoryPressure <= 100 && aggression <= 100
    }
  }

  /** The record count before any dataset bound. */
  function MemoryTarget(request: Request): Word
    requires request.ramPercent <= 100
  {
    RecordsFromMemory(request.availableMemory, request.ramPercent, request.recordBytes, Reserve(request.pack))
  }

  function Refusal(request: Request): Status {
    if request.abiVersion != ABI_VERSION then IncompatibleAbi
    else if request.logicalThreads == 0 || request.recordBytes == 0 || request.availableMemory == 0
      || request.cpuPercent == 0 || request.cpuPercent > 100 || request.ramPercent == 0 || request.ramPercent > 100
      || request.gpuPercent > 100 || request.execution == OtherExecution || request.pack == OtherPack
    then InvalidArgument
    else if request.execution == CpuExecution && request.gpuPercent != 0 then InvalidArgument
    else if request.execution == HybridExecution && !request.accelerator then UnavailableAccelerator
    else if request.requestedThreads > request.logicalThreads then InvalidArgument
    else PolicyOk
  }

  /** Which requests are refused, and as what: the version first; a missing accelerator before too many threads,
      but after every other invalid argument. */
  lemma RefusalIff(r: Request)
    ensures Refusal(r) == IncompatibleAbi <==> r.abiVersion != 8
    ensures Refusal(r) == PolicyOk <==>
      && r.abiVersion == 8 && WellFormed(r) && (r.execution == HybridExecution ==> r.accelerator)
      && r.requestedThreads <= r.logicalThreads
    ensures Refusal(r) == UnavailableAccelerator <==>
      r.abiVersion == 8 && WellFormed(r) && r.execution == HybridExecution && !r.accelerator
  {
  }

  predicate WellFormed(r: Request) {
    && r.logicalThreads >= 1 && r.recordBytes >= 1 && r.availableMemory >= 1
    && 1 <= r.cpuPercent <= 100 && 1 <= r.ramPercent <= 100 && r.gpuPercent <= 100
    && (r.execution == AutoExecution || r.execution == HybridExecution
        || (r.execution == CpuExecution && r.gpuPercent == 0))
    && r.pack in PACKS
  }

  /** The target in one quotient: what fits the granted share of the memory, but no more than the dataset. */
  lemma TargetMeans(r: Request, i: nat)
    requires Refusal(r) == PolicyOk && i < 4 && r.pack == PACKS[i]
    ensures var fits := (r.availableMemory / [16, 10, 7, 5][i]) * r.ramPercent / 100 / r.recordBytes;
      Target(r) == if r.datasetRecords != 0 && r.datasetRecords < fits then r.datasetRecords else fits
  {
    PackTable(i);
  }

  /** A share is the percentage rounded down, and all that can be expressed once the product no longer fits. */
  lemma ShareMeans(count: nat, percent: nat, datasetRecords: nat)
    ensures var share := Share(count, percent, 0);
      && (count * percent < 0x1_0000_0000_0000_0000 ==> 100 * share <= count * percent < 100 * share + 100)
      && (count * percent >= 0x1_0000_0000_0000_0000 ==> share == 0xFFFF_FFFF_FFFF_FFFF)
      && Share(count, percent, datasetRecords) ==
           if 0 < datasetRecords < share then datasetRecords else share
  {
  }

  /** A share of a record count, without wrapping: all of it that can be expressed once the product of count
      and percentage no longer fits, and never more than the dataset holds. */
  function Share(count: nat, percent: nat, datasetRecords: nat): nat {
    var share := if count * percent > SIZE_MAX then SIZE_MAX else count * percent / 100;
    if datasetRecords != 0 then Min(share, datasetRecords) else share
  }

  /** The record count a plan aims at. */
  function Target(request: Request): Word
    requires request.ramPercent <= 100
  {
    var target := MemoryTarget(request);
    if request.datasetRecords != 0 then Min(request.datasetRecords, target) else target
  }

  method MakePlan(request: Option<Request>, plan: Plan?) returns (status: Status)
    modifies plan
    ensures request.None? || (plan == null && request.value.abiVersion == ABI_VERSION) ==> status == InvalidArgument
    ensures request.Some? && plan != null && Refusal(request.value) != PolicyOk ==> status == Refusal(request.value)
    ensures request.Some? && plan != null && Refusal(request.value) == PolicyOk ==>
      (status == PolicyOk <==> MemoryTarget(request.value) > 0)
    ensures status == PolicyOk ==>
      && request.Some? && plan != null && Refusal(request.value) == PolicyOk
      && plan.LegalCursor()
      && plan.target == Target(request.value)
      && plan.minimum == Max(1, Share(plan.target, MinimumPercent(request.value.pack), request.value.datasetRecords))
      && plan.maximum ==
           Max(plan.minimum, Share(plan.target, MaximumPercent(request.value.pack), request.value.datasetRecords))
      && plan.memoryPressure + request.value.ramPercent == 100
      && plan.prefetch == Prefetch(request.value.pack) && plan.aggression == Aggression(request.value.pack)
      && plan.hybrid == (request.value.execution == HybridExecution)
      && plan.explicitThreads == (request.value.requestedThreads != 0)
    // threads: the requested number, or the percentage of the logical ones rounded up
    ensures status == PolicyOk ==> Threads(request.value, plan.nativeThreads, plan.dataWorkers)
    // the minimum exceeds the target only when scaling the target saturates
    ensures status == PolicyOk ==>
      (plan.minimum <= plan.target <==>
        plan.target * MinimumPercent(request.value.pack) <= SIZE_MAX || plan.target == SIZE_MAX
        || plan.target == request.value.datasetRecords)
  {
    if request.None? || plan == null || request.value.abiVersion != ABI_VERSION {
      return if request.Some? && request.value.abiVersion != ABI_VERSION then IncompatibleAbi else InvalidArgument;
    }
    var r := request.value;
    var refusal := Refusal(r);
    if refusal != PolicyOk { return refusal; }
    hide MemoryTarget, Share, Threads;
    plan.prefetch := Prefetch(r.pack);
    plan.aggression := Aggression(r.pack);
    var target: Word := MemoryTarget(r);
    if r.datasetRecords != 0 && r.datasetRecords < target { target := r.datasetRecords; }
    if target == 0 { return InvalidArgument; }
    var minimum, maximum;
    target, minimum, maximum := MakeLimits(r.pack, target, r.datasetRecords);
    plan.nativeThreads, plan.dataWorkers := ChooseThreads(r);
    plan.memoryPressure := 100 - r.ramPercent;
    plan.target, plan.minimum, plan.maximum := target, minimum, maximum;
    plan.hybrid := r.execution == HybridExecution;
    plan.explicitThreads := r.requestedThreads != 0;
    status := PolicyOk;
  }

  lemma ShareIsScaled(count: Word, percent: Word32, datasetRecords: Word)
    requires percent >= 1
    ensures Share(count, percent, datasetRecords) ==
      if datasetRecords != 0 then Min(ScaleSize(count, percent), datasetRecords) else ScaleSize(count, percent)
    ensures percent >= 100 ==> ScaleSize(count, percent) >= count
  {
    ScaleFits(count, percent);
    if percent >= 100 && count * percent <= SIZE_MAX { MulMonotone(count, 100, percent); }
  }

  /** A share of less than everything stays below the whole unless its product saturates. */
  lemma MinimumBelowTargetIff(count: Word, percent: nat, datasetRecords: Word)
    requires count >= 1 && 1 <= percent <= 100 && (datasetRecords != 0 ==> count <= datasetRecords)
    ensures Max(1, Share(count, percent, datasetRecords)) <= count <==>
      count * percent <= SIZE_MAX || count == SIZE_MAX || count == datasetRecords
  {
    if count * percent <= SIZE_MAX { MulMonotone(count, percent, 100); }
  }

  /** The chunk limits around a non-zero target, bounded by the dataset. */
  method MakeLimits(pack: Pack, wanted: Word, datasetRecords: Word)
    returns (target: nat, minimum: nat, maximum: nat)
    requires wanted >= 1 && (datasetRecords != 0 ==> wanted <= datasetRecords)
    ensures target == wanted && 1 <= minimum <= maximum < TWO64 && target <= maximum
    ensures minimum == Max(1, Share(wanted, MinimumPercent(pack), datasetRecords))
    ensures maximum == Max(minimum, Share(wanted, MaximumPercent(pack), datasetRecords))
    ensures minimum <= target <==>
      wanted * MinimumPercent(pack) <= SIZE_MAX || wanted == SIZE_MAX || wanted == datasetRecords
  {
    hide ScaleSize, Share;
    ShareIsScaled(wanted, MinimumPercent(pack), datasetRecords);
    ShareIsScaled(wanted, MaximumPercent(pack), datasetRecords);
    MinimumBelowTargetIff(wanted, MinimumPercent(pack), datasetRecords);
    target := wanted;
    minimum := Max(1, ScaleSize(target, MinimumPercent(pack)));
    maximum := Max(minimum, ScaleSize(target, MaximumPercent(pack)));
    if datasetRecords != 0 {
      minimum := Min(minimum, datasetRecords);
      maximum := Min(maximum, datasetRecords);
      target := Min(target, datasetRecords);
    }
  }

  /** The threads to compute with, and how many of them may load data. */
  ghost predicate Threads(request: Request, native: nat, workers: nat) {
    && workers == Min(WorkerCap(request.pack), native - 1)
    && workers < native <= request.logicalThreads
    && if request.requestedThreads != 0 then native == request.requestedThreads
       else native * 100 - 100 < request.logicalThreads * request.cpuPercent <= native * 100
  }

  method ChooseThreads(request: Request) returns (native: nat, workers: nat)
    requires 1 <= request.cpuPercent <= 100 && request.requestedThreads <= request.logicalThreads
    requires request.logicalThreads >= 1
    ensures Threads(request, native, workers)
  {
    ThreadsFit(request.logicalThreads, request.cpuPercent);
    MulMonotone(request.logicalThreads, 1, request.cpuPercent);
    native := if request.requestedThreads != 0 then request.requestedThreads
              else Max(1, (request.logicalThreads * request.cpuPercent + 99) / 100);
    workers := if native > 1 then Min(WorkerCap(request.pack), native - 1) else 0;
  }

  lemma ThreadsFit(logical: nat, percent: nat)
    requires percent <= 100 && logical < 0x1_0000_0000
    ensures var n := (logical * percent + 99) / 100;
      0 <= n <= logical && n * 100 - 100 < logical * percent <= n * 100
    ensures logical * percent + 99 < TWO64
  {
    MulMonotone(logical, percent, 100);
    assert logical * percent >= 0;
  }

  // ---------------------------------------------------------------- the cursor

  /** Full pressure leaves 45 percent of the target, none leaves all of it. */
  function PressureScale(pressure: nat): (r: nat)
    ensures 45 <= r <= 100 && (pressure >= 100 ==> r == 45)
    ensures pressure <= 100 ==> 100 * (r - 45) <= 55 * (100 - pressure) < 100 * (r - 45) + 100
  {
    45 + (100 - Min(100, pressure)) * 55 / 100
  }

  /** Full aggression adds 35 percent. */
  function AggressionScale(aggression: nat): (r: nat)
    ensures 100 <= r <= 135 && (aggression >= 100 ==> r == 135)
    ensures aggression <= 100 ==> 100 * (r - 100) <= 35 * aggression < 100 * (r - 100) + 100
  {
    100 + Min(100, aggression) * 35 / 100
  }

  /** The C++ fallback of the adaptive size: the scaled target may wrap, and is clamped afterwards. */
  function AdaptiveChunkSize(remaining: Word, limits: Limits, sequence: Word, seed: Word,
                             pressure: nat, aggression: nat): (size: nat)
    requires limits.target < TWO64 && limits.minimum < TWO64 && limits.maximum < TWO64
    ensures remaining > 0 && limits.target > 0 && 0 < limits.minimum <= limits.maximum ==>
      && 1 <= size <= remaining && size <= limits.maximum
      && (size < limits.minimum ==> size == remaining)
  {
    if remaining == 0 || limits.target == 0 || limits.minimum == 0 || limits.maximum < limits.minimum then 0
    else
      var eased := Wrap(limits.target / 100 * PressureScale(pressure));
      var scaled := Wrap(eased / 100 * AggressionScale(aggression));
      var target := Clamp(scaled, limits.minimum, limits.maximum);
      NextChunkSize(remaining, limits.(target := target), sequence, seed)
  }

  /** Between the limits, a target of `n` ten thousands is scaled by exactly the two percentages; without pressure
      and aggression the chunk is the one that the policy draws for the target itself. */
  lemma AdaptiveTarget(n: nat, limits: Limits, remaining: Word, sequence: Word, seed: Word,
                       pressure: nat, aggression: nat)
    requires Legal(limits) && limits.maximum < TWO64 && limits.target == n * 10000 && n * 13500 < TWO64
    requires remaining > 0
    ensures var wanted := n * PressureScale(pressure) * AggressionScale(aggression);
      AdaptiveChunkSize(remaining, limits, sequence, seed, pressure, aggression) ==
      NextChunkSize(remaining, limits.(target := Clamp(wanted, limits.minimum, limits.maximum)), sequence, seed)
    ensures pressure == aggression == 0 ==>
      AdaptiveChunkSize(remaining, limits, sequence, seed, pressure, aggression) ==
      NextChunkSize(remaining, limits, sequence, seed)
  {
    hide NextChunkSize, Wrap, Clamp;
    ScalesExactly(n, PressureScale(pressure), AggressionScale(aggression));
    ClampInside(limits.target, limits.minimum, limits.maximum);
  }

  lemma ClampInside(value: int, low: int, high: int)
    requires low <= value <= high
    ensures Clamp(value, low, high) == value
  {
  }

  lemma ScalesExactly(n: nat, p: nat, a: nat)
    requires p <= 100 && a <= 135 && n * 13500 < TWO64
    ensures Wrap(Wrap(n * 10000 / 100 * p) / 100 * a) == n * p * a
  {
    hide Wrap;
    var product := n * p;
    MulMonotone(n, p, 100);
    MulMonotone(product, a, 135);
    assert n * 10000 / 100 == n * 100;
    assert n * 100 * p == product * 100;
    WrapSmall(product * 100);
    assert product * 100 / 100 == product;
    WrapSmall(product * a);
  }

  datatype CursorState = CursorState(
    remaining: Word, limits: Limits, sequence: Word, seed: Word, pressure: nat, aggression: nat)

  predicate LegalState(c: CursorState) {
    && 1 <= c.limits.minimum <= c.limits.maximum < TWO64
    && 1 <= c.limits.target < TWO64
  }

  function ChunkOf(c: CursorState): (chunk: nat)
    requires LegalState(c) && c.remaining > 0
    ensures 1 <= chunk <= c.remaining
  {
    AdaptiveChunkSize(c.remaining, c.limits, c.sequence, c.seed, c.pressure, c.aggression)
  }

  function Advanced(c: CursorState): CursorState
    requires LegalState(c) && c.remaining > 0
  {
    c.(remaining := c.remaining - ChunkOf(c), sequence := Wrap(c.sequence + 1))
  }

  /** The chunks that a cursor hands out until it is exhausted. */
  function Chunks(c: CursorState): seq<nat>
    requires LegalState(c)
    decreases c.remaining
  {
    if c.remaining == 0 then [] else [ChunkOf(c)] + Chunks(Advanced(c))
  }

  /** A cursor's chunks sum to its records, whatever wraps inside; none is larger than the maximum and only
      the last can be smaller than the minimum. */
  lemma {:induction false} ChunksCoverRecords(c: CursorState)
    requires LegalState(c)
    ensures Sum(Chunks(c)) == c.remaining
    ensures forall i :: 0 <= i < |Chunks(c)| ==>
      1 <= Chunks(c)[i] <= c.limits.maximum && (i < |Chunks(c)| - 1 ==> Chunks(c)[i] >= c.limits.minimum)
    decreases c.remaining
  {
    hide AdaptiveChunkSize;
    if c.remaining > 0 {
      ChunksCoverRecords(Advanced(c));
      assert Chunks(c)[1..] == Chunks(Advanced(c));
      if ChunkOf(c) < c.limits.minimum { assert Chunks(Advanced(c)) == []; }
    }
  }

  /** Each chunk is drawn with its own sequence number, which wraps, from what the earlier ones left. */
  lemma {:induction false} ChunksAreDrawn(c: CursorState, i: nat)
    requires LegalState(c) && i < |Chunks(c)|
    ensures var handed := Sum(Chunks(c)[..i]);
      && handed < c.remaining
      && Chunks(c)[i] == AdaptiveChunkSize(c.remaining - handed, c.limits, (c.sequence + i) % 0x1_0000_0000_0000_0000,
                                           c.seed, c.pressure, c.aggression)
    decreases i
  {
    hide AdaptiveChunkSize, ChunkOf;
    SmallResidue(c.sequence, TWO64);
    if i > 0 {
      var next := Advanced(c);
      ChunksAreDrawn(next, i - 1);
      assert Chunks(c)[1..] == Chunks(next);
      assert Chunks(c)[..i][1..] == Chunks(next)[..i - 1] && Chunks(c)[..i][0] == ChunkOf(c);
      ModSum(c.sequence + 1, i - 1, TWO64);
    } else {
      ChunkOfIs(c);
    }
  }

  lemma ChunkOfIs(c: CursorState)
    requires LegalState(c) && c.remaining > 0
    ensures ChunkOf(c) == AdaptiveChunkSize(c.remaining, c.limits, c.sequence, c.seed, c.pressure, c.aggression)
  {
  }

  class ChunkCursor {
    var remaining: Word
    var limits: Limits
    var sequence: Word
    var seed: Word
    var pressure: nat
    var aggression: nat

    constructor () {}

    ghost function Now(): CursorState
      reads this
    {
      CursorState(remaining, limits, sequence, seed, pressure, aggression)
    }

    method Init(records: Word, target: Word, minimum: Word, maximum: Word, seed: Word) returns (status: Status)
      modifies this
      ensures status == PolicyOk <==> target != 0 && minimum != 0 && minimum <= maximum
      ensures status != PolicyOk ==> status == InvalidArgument && Now() == old(Now())
      ensures status == PolicyOk ==>
        LegalState(Now()) && Now() == CursorState(records, Limits(target, minimum, maximum), 0, seed, 0, 0)
    {
      if target == 0 || minimum == 0 || maximum < minimum { return InvalidArgument; }
      remaining, limits, sequence := records, Limits(target, minimum, maximum), 0;
      this.seed := seed;
      pressure, aggression := 0, 0;
      status := PolicyOk;
    }

    /** Every plan that was made configures a cursor. */
    method InitFromPlan(records: Word, plan: Plan, seed: Word) returns (status: Status)
      requires plan.target < TWO64 && plan.minimum < TWO64 && plan.maximum < TWO64
      modifies this
      ensures plan.LegalCursor() ==> status == PolicyOk
      ensures status == PolicyOk ==>
        && LegalState(Now())
        && Now() == CursorState(records, Limits(plan.target, plan.minimum, plan.maximum), 0, seed,
                                plan.memoryPressure, plan.aggression)
    {
      status := Init(records, plan.target, plan.minimum, plan.maximum, seed);
      if status != PolicyOk { return; }
      pressure := plan.memoryPressure;
      aggression := plan.aggression;
    }

    /** The next chunk, or zero once every record was handed out. */
    method Next() returns (chunk: nat)
      requires LegalState(Now())
      modifies this
      ensures LegalState(Now())
      ensures if old(remaining) == 0 then chunk == 0 && Now() == old(Now())
              else [chunk] + Chunks(Now()) == Chunks(old(Now())) && chunk >= 1
    {
      hide AdaptiveChunkSize;
      if remaining == 0 { return 0; }
      chunk := AdaptiveChunkSize(remaining, limits, sequence, seed, pressure, aggression);
      if chunk == 0 || chunk > remaining { return 0; }
      remaining := remaining - chunk;
      sequence := Wrap(sequence + 1);
    }
  }
}
