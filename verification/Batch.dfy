/** The safe batch range of a run. */
module Batch {
  import opened Options
  import opened Modular

  datatype Profile = Eco | LowMemory | Balanced | Performance | Workstation | Custom

  datatype Mode = Auto | Manual

  datatype Risk = Safe | Caution | High

  datatype BatchPlan = BatchPlan(
    trainRecords: int, mode: Mode, recommended: int, requested: Option<int>, applied: int,
    safeMin: int, safeMax: int, risk: Risk, requiresConfirmation: bool)

  datatype ConfigurationError = MissingRequest | NonPositiveRequest

  const GIB: real := 1073741824.0

  predicate PowerOfTwo(n: int) {
    n == 1 || (n > 1 && n % 2 == 0 && PowerOfTwo(n / 2))
  }

  function MinR(a: real, b: real): real { if a <= b then a else b }

  function MaxR(a: real, b: real): real { if a >= b then a else b }

  /** The leading bit of a positive integer. */
  function LeadingPower(n: int): int
    requires n >= 1
  {
    if n == 1 then 1 else 2 * LeadingPower(n / 2)
  }

  function PowerFloor(value: int): int {
    LeadingPower(Max(2, value))
  }

  lemma {:induction false} LeadingPowerIsFloor(n: int)
    requires n >= 1
    ensures PowerOfTwo(LeadingPower(n)) && 1 <= LeadingPower(n) <= n < 2 * LeadingPower(n)
  {
    if n > 1 { LeadingPowerIsFloor(n / 2); }
  }

  /** The largest power of two not above the value, but at least two. */
  lemma PowerFloorIsFloor(value: int)
    ensures var p := PowerFloor(value);
      PowerOfTwo(p) && p >= 2 && p <= Max(2, value) < 2 * p
  {
    LeadingPowerIsFloor(Max(2, value));
    LeadingPowerIsFloor(Max(2, value) / 2);
  }

  function ProfileCap(profile: Profile): int {
    match profile
    case Eco | LowMemory => 64
    case Balanced | Custom => 256
    case Performance => 512
    case Workstation => 65536
  }

  function TrainRecords(records: int): int {
    Max(2, records - Min(480, Max(32, records / 5)))
  }

  function UsableBytes(profile: Profile, ramPercent: int, ramGb: real): real {
    UsableOf(profile, Max(10, Min(95, ramPercent)), MaxR(1.0, ramGb) * GIB)
  }

  function UsableOf(profile: Profile, percent: int, total: real): real {
    var reserve := if profile == Workstation then MaxR(2.0 * GIB, total * 0.05) else 0.0;
    var requested := total * (percent as real / 100.0);
    MaxR(268435456.0, MinR(requested, total - reserve) * (if profile == Workstation then 0.80 else 0.35))
  }

  function BytesPerSample(features: int): int {
    Max(2048, features * 4 * 12)
  }

  function Recommended(trainRecords: int, features: int): int {
    var base := if trainRecords < 64 then 4 else if trainRecords < 256 then 8
                else if trainRecords < 1024 then 16 else if trainRecords < 10000 then 32
                else if trainRecords < 100000 then 64 else 128;
    if features > 4096 then Max(2, base / 4) else if features > 512 then Max(2, base / 2) else base
  }

  function SafeMax(profileCap: int, memoryCap: int, datasetCap: int): int {
    Max(2, Min(profileCap, Min(memoryCap, datasetCap)))
  }

  function PlanBatch(records: int, features: int, profile: Profile, ramPercent: int, ramGb: real,
                     mode: Mode, requested: Option<int>): Result<BatchPlan, ConfigurationError>
  {
    var trainRecords := TrainRecords(records);
    var memoryCap := PowerFloor((UsableBytes(profile, ramPercent, ramGb) / BytesPerSample(features) as real).Floor);
    var datasetCap := PowerFloor(Max(2, trainRecords / 2));
    var safeMax := SafeMax(ProfileCap(profile), memoryCap, datasetCap);
    var recommended := Min(safeMax, PowerFloor(Recommended(trainRecords, features)));
    var safeMin := Min(safeMax, Max(2, recommended / 2));
    match mode
    case Auto => Ok(BatchPlan(trainRecords, mode, recommended, None, recommended, safeMin, safeMax, Safe, false))
    case Manual =>
      if requested.None? then Err(MissingRequest)
      else if requested.value < 1 then Err(NonPositiveRequest)
      else
        var hardMax := Min(if profile == Workstation then 65536 else 4096, trainRecords);
        var applied := Max(1, Min(requested.value, hardMax));
        var risk := if applied > safeMax then High
                    else if applied < safeMin || applied != recommended then Caution else Safe;
        Ok(BatchPlan(trainRecords, mode, recommended, requested, applied, safeMin, safeMax, risk, risk == High))
  }

  lemma PowerMin(a: int, b: int)
    requires PowerOfTwo(a) && PowerOfTwo(b)
    ensures PowerOfTwo(Min(a, b))
  {
  }

  lemma DoublePower(n: int)
    requires PowerOfTwo(n)
    ensures n >= 1 && PowerOfTwo(2 * n)
  {
  }

  lemma ProfileCapIsPower(profile: Profile)
    ensures PowerOfTwo(ProfileCap(profile)) && ProfileCap(profile) >= 64
  {
    hide PowerOfTwo;
    SixtyFour();
    DoublePower(64);
    DoublePower(128);
    DoublePower(256);
    DoublePower(512);
    DoublePower(1024);
    DoublePower(2048);
    DoublePower(4096);
    DoublePower(8192);
    DoublePower(16384);
    DoublePower(32768);
  }

  lemma SixtyFour()
    ensures PowerOfTwo(2) && PowerOfTwo(64)
  {
    assert PowerOfTwo(1);
    DoublePower(1);
    DoublePower(2);
    DoublePower(4);
    DoublePower(8);
    DoublePower(16);
    DoublePower(32);
  }

  /** A quotient rounded down, times the divisor, stays within the dividend. */
  lemma FloorFits(total: real, each: int, count: int)
    requires each > 0 && count <= (total / each as real).Floor
    ensures count as real * each as real <= total
  {
    var quotient := total / each as real;
    assert count as real <= quotient;
    assert quotient * each as real == total;
    assert (quotient - count as real) * each as real >= 0.0;
  }

  /** The range is non-empty and ordered, its top is a power of two that fits the memory, and a batch is
      confirmed by the user exactly when it lies above the range. */
  lemma PlanIsSafe(records: int, features: int, profile: Profile, ramPercent: int, ramGb: real,
                   mode: Mode, requested: Option<int>)
    ensures var r := PlanBatch(records, features, profile, ramPercent, ramGb, mode, requested);
      && (r.Err? <==> mode == Manual && (requested == None || requested.value < 1))
      && (r.Ok? ==>
            var plan := r.value;
            && 2 <= plan.safeMin <= plan.recommended <= plan.safeMax <= ProfileCap(profile)
            && PowerOfTwo(plan.safeMax) && PowerOfTwo(plan.recommended)
            && (plan.safeMax != 2 ==>
                  plan.safeMax as real * BytesPerSample(features) as real <= UsableBytes(profile, ramPercent, ramGb))
            && (plan.safeMax != 2 ==> plan.safeMax <= plan.trainRecords / 2)
            && (mode == Auto ==> plan.applied == plan.recommended)
            && (mode == Manual ==> 1 <= plan.applied <= requested.value && plan.applied <= plan.trainRecords)
            && (plan.requiresConfirmation <==> plan.applied > plan.safeMax)
            && (plan.risk == Safe <==> plan.applied == plan.recommended))
  {
    hide UsableBytes, SafeMax, PowerFloor, Recommended, PowerOfTwo;
    ProfileCapIsPower(profile);
    RangeIsSafe(ProfileCap(profile), UsableBytes(profile, ramPercent, ramGb), BytesPerSample(features),
                TrainRecords(records), Recommended(TrainRecords(records), features));
  }

  lemma RangeIsSafe(cap: int, usable: real, each: int, trainRecords: int, wanted: int)
    requires PowerOfTwo(cap) && cap >= 64 && each > 0
    ensures var fits := (usable / each as real).Floor;
      var safeMax := SafeMax(cap, PowerFloor(fits), PowerFloor(Max(2, trainRecords / 2)));
      var recommended := Min(safeMax, PowerFloor(wanted));
      && 2 <= Min(safeMax, Max(2, recommended / 2)) <= recommended <= safeMax <= cap
      && PowerOfTwo(safeMax) && PowerOfTwo(recommended)
      && (safeMax != 2 ==> safeMax as real * each as real <= usable)
      && (safeMax != 2 ==> safeMax <= trainRecords / 2)
  {
    var fits := (usable / each as real).Floor;
    var memoryCap, datasetCap := PowerFloor(fits), PowerFloor(Max(2, trainRecords / 2));
    PowerFloorIsFloor(fits);
    PowerFloorIsFloor(Max(2, trainRecords / 2));
    PowerFloorIsFloor(wanted);
    PowerMin(memoryCap, datasetCap);
    PowerMin(cap, Min(memoryCap, datasetCap));
    var safeMax := Min(cap, Min(memoryCap, datasetCap));
    assert safeMax == SafeMax(cap, memoryCap, datasetCap);
    if safeMax != 2 { FloorFits(usable, each, safeMax); }
    PowerMin(safeMax, PowerFloor(wanted));
  }

  // ---------------------------------------------------------------- what the numbers are

  /** Two powers of two closer than a factor of two are the same. */
  lemma {:induction false} NoPowerBetween(p: int, q: int)
    requires PowerOfTwo(p) && PowerOfTwo(q) && p < 2 * q
    ensures p <= q
    decreases p
  {
    if p > 1 && q > 1 { NoPowerBetween(p / 2, q / 2); }
  }

  lemma PowerFloorIsLargest(p: int, value: int)
    requires PowerOfTwo(p) && p <= value && 2 <= value
    ensures p <= PowerFloor(value)
  {
    hide PowerOfTwo, PowerFloor;
    PowerFloorIsFloor(value);
    NoPowerBetween(p, PowerFloor(value));
  }

  /** A fifth of the records is held out, but from 32 to 480 of them, and two stay for training. */
  lemma HeldOut(records: int)
    ensures records <= 34 ==> TrainRecords(records) == 2
    ensures 34 < records < 160 ==> TrainRecords(records) == records - 32
    ensures 160 <= records < 2400 ==> 4 * records <= 5 * TrainRecords(records) < 4 * records + 5
    ensures records >= 2400 ==> TrainRecords(records) == records - 480
  {
  }

  /** The wish doubles from four at each of five dataset sizes; wide rows halve or quarter it. */
  lemma WishSteps(trainRecords: int, features: int)
    ensures var narrow, wish := Recommended(trainRecords, 0), Recommended(trainRecords, features);
      && narrow in {4, 8, 16, 32, 64, 128}
      && (narrow >= 8 <==> trainRecords >= 64) && (narrow >= 16 <==> trainRecords >= 256)
      && (narrow >= 32 <==> trainRecords >= 1024) && (narrow >= 64 <==> trainRecords >= 10_000)
      && (narrow >= 128 <==> trainRecords >= 100_000)
      && (features <= 512 ==> wish == narrow)
      && (512 < features <= 4096 ==> 2 * wish == narrow)
      && (features > 4096 ==> 4 * wish == narrow || (narrow == 4 && wish == 2))
  {
  }

  lemma WishIsPower(trainRecords: int, features: int)
    ensures PowerOfTwo(Recommended(trainRecords, features)) && Recommended(trainRecords, features) >= 2
  {
    hide PowerOfTwo;
    SixtyFour();
    DoublePower(2);
    DoublePower(4);
    DoublePower(8);
    DoublePower(16);
    DoublePower(32);
    DoublePower(64);
  }

  /** The usable memory: 35 percent of the granted share, 80 percent on a workstation; there the reserve of two
      gibibytes or a twentieth matters only below forty, and 256 mebibytes are always assumed. */
  lemma UsableMeans(profile: Profile, percent: int, ramGb: real)
    requires 10 <= percent <= 95 && ramGb >= 1.0
    ensures var granted := ramGb * percent as real / 100.0;
      UsableBytes(profile, percent, ramGb) == MaxR(0.25 * GIB,
        if profile != Workstation then granted * 0.35 * GIB
        else if ramGb >= 40.0 || ramGb - 2.0 >= granted then granted * 0.8 * GIB
        else (ramGb - 2.0) * 0.8 * GIB)
  {
    var total := ramGb * GIB;
    var share := percent as real / 100.0;
    assert total * share == ramGb * percent as real / 100.0 * GIB by { GrantedBytes(ramGb, percent as real); }
    ShareLeavesReserve(total, share);
    UsableCases(profile, percent, ramGb, ramGb * percent as real / 100.0);
  }

  lemma GrantedBytes(ramGb: real, percent: real)
    ensures ramGb * GIB * (percent / 100.0) == ramGb * percent / 100.0 * GIB
  {
    var product := ramGb * percent;
    assert ramGb * GIB * (percent / 100.0) == product * GIB / 100.0;
  }

  lemma UsableCases(profile: Profile, percent: int, ramGb: real, granted: real)
    requires ramGb * GIB * (percent as real / 100.0) == granted * GIB && granted <= ramGb - ramGb * 0.05
    requires 10 <= percent <= 95 && ramGb >= 1.0
    ensures UsableBytes(profile, percent, ramGb) == MaxR(0.25 * GIB,
        if profile != Workstation then granted * 0.35 * GIB
        else if ramGb >= 40.0 || ramGb - 2.0 >= granted then granted * 0.8 * GIB
        else (ramGb - 2.0) * 0.8 * GIB)
  {
  }

  lemma ShareLeavesReserve(total: real, share: real)
    requires 0.0 <= share <= 0.95 && total >= 0.0
    ensures 0.0 <= total * share <= total - total * 0.05
  {
    assert total * (0.95 - share) >= 0.0;
  }

  /** Outside their ranges the percentage and the memory are taken at the nearest end. */
  lemma UsableClips(profile: Profile, percent: int, ramGb: real)
    ensures UsableBytes(profile, percent, ramGb) ==
            UsableBytes(profile, if percent < 10 then 10 else if percent > 95 then 95 else percent,
                        if ramGb < 1.0 then 1.0 else ramGb)
  {
    hide UsableOf;
  }

  /** The top of the range is the LARGEST power of two that the profile, the memory and half of the training
      records admit; the recommendation is the wish cut to it; the bottom is half the recommendation. */
  lemma RangeIsLargest(records: int, features: int, profile: Profile, ramPercent: int, ramGb: real,
                       mode: Mode, requested: Option<int>, p: int)
    requires PlanBatch(records, features, profile, ramPercent, ramGb, mode, requested).Ok?
    ensures var plan := PlanBatch(records, features, profile, ramPercent, ramGb, mode, requested).value;
      && plan.trainRecords == TrainRecords(records)
      && (PowerOfTwo(p) && Admitted(p, records, features, profile, ramPercent, ramGb) ==> p <= plan.safeMax)
      && plan.recommended == Min(plan.safeMax, Recommended(plan.trainRecords, features))
      && (plan.recommended > 2 ==> 2 * plan.safeMin == plan.recommended)
      && (plan.recommended == 2 ==> plan.safeMin == 2)
  {
    hide UsableBytes, PowerFloor, Recommended, PowerOfTwo, TrainRecords;
    var train := TrainRecords(records);
    var plan := PlanBatch(records, features, profile, ramPercent, ramGb, mode, requested).value;
    var usable, each := UsableBytes(profile, ramPercent, ramGb), BytesPerSample(features);
    var fits := (usable / each as real).Floor;
    if PowerOfTwo(p) && Admitted(p, records, features, profile, ramPercent, ramGb) && p > 2 {
      CountFits(usable, each, p);
      PowerFloorIsLargest(p, fits);
      PowerFloorIsLargest(p, Max(2, train / 2));
    }
    var wish := Recommended(train, features);
    WishIsPower(train, features);
    PowerFloorIsLargest(wish, wish);
    PowerFloorIsFloor(wish);
    PlanIsSafe(records, features, profile, ramPercent, ramGb, mode, requested);
    assert plan.recommended % 2 == 0 by { EvenPower(plan.recommended); }
  }

  lemma EvenPower(p: int)
    requires PowerOfTwo(p) && p >= 2
    ensures p % 2 == 0
  {
  }

  predicate Admitted(p: int, records: int, features: int, profile: Profile, ramPercent: int, ramGb: real) {
    && p <= (match profile case Eco | LowMemory => 64 case Balanced | Custom => 256 case Performance => 512
             case Workstation => 65536)
    && (p * (if features <= 42 then 2048 else 48 * features)) as real <= UsableBytes(profile, ramPercent, ramGb)
    && 2 * p <= TrainRecords(records)
  }

  /** As many fit as the rounded quotient says. */
  lemma CountFits(total: real, each: int, count: int)
    requires each > 0 && (count * each) as real <= total
    ensures count <= (total / each as real).Floor
  {
    var quotient := total / each as real;
    assert quotient * each as real == total;
    assert quotient - count as real == (total - (count * each) as real) / each as real >= 0.0;
  }

  /** A manual request is applied as it is, unless it exceeds the training records or the profile's bound. */
  lemma RequestIsHonoured(records: int, features: int, profile: Profile, ramPercent: int, ramGb: real,
                          requested: int)
    requires requested >= 1
    ensures var r := PlanBatch(records, features, profile, ramPercent, ramGb, Manual, Some(requested));
      var bound := if profile == Workstation then 65536 else 4096;
      && r.Ok?
      && (requested <= bound && requested <= r.value.trainRecords ==> r.value.applied == requested)
      && (requested > bound || requested > r.value.trainRecords ==>
            r.value.applied == if bound <= r.value.trainRecords then bound else r.value.trainRecords)
      && (r.value.risk == Caution <==> r.value.applied <= r.value.safeMax && r.value.applied != r.value.recommended)
  {
    hide UsableBytes, PowerFloor, Recommended, PowerOfTwo, BytesPerSample;
    PlanIsSafe(records, features, profile, ramPercent, ramGb, Manual, Some(requested));
  }
}
