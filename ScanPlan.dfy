// The sequence of combining steps the builder's clustered inclusive scan
// emits, as data: which channels each step reads and writes. The builder
// turns every step into instructions; the lemmas here say that every step
// folds a lower channel into a higher one of the same cluster, that the
// plan splits into per-half plans the way the builder's recursion does,
// and that a scan of single-channel clusters emits nothing.

module ScanPlan {
  import opened Ir

  /** One combining step: at SIMD width `width`, lane `j` folds channel
      `Left(j)` into channel `Right(j)` of the register `tmp`, whose
      channel 0 is channel `base` of the whole value. */
  datatype ScanStep<R> = ScanStep(width: nat, tmp: R, leftOffset: nat, leftStride: nat,
                               rightOffset: nat, rightStride: nat, base: nat)
  {
    function Left(j: nat): nat {
      base + leftOffset + j * leftStride
    }

    function Right(j: nat): nat {
      base + rightOffset + j * rightStride
    }
  }

  function Min(a: nat, b: nat): nat {
    if a < b then a else b
  }

  /** The scan's width check holds at every level of its splitting: each
      level is at least 8 wide, and a level whose value spans more than two
      registers is split in two halves. */
  predicate ScanWidthOk(width: nat, size: nat)
    decreases width
  {
    width >= 8 && (width * size > 2 * RegSize ==> ScanWidthOk(width / 2, size))
  }

  /** The steps of the first `k` iterations of the 64-bit loop: a 2-wide
      step folding channel `4k+1` into channels `4k+2` and `4k+3`. */
  function WideSteps<R>(k: nat, tmp: R, base: nat): seq<ScanStep<R>> {
    if k == 0 then []
    else WideSteps(k - 1, tmp, base) + [ScanStep(2, tmp, 4 * (k - 1) + 1, 0, 4 * (k - 1) + 2, 1, base)]
  }

  /** One iteration of the doubling loop at block size `i`: the last
      channel of each even block of `i` channels is folded into the whole
      next block. */
  function DoublingIteration<R>(i: nat, width: nat, tmp: R, base: nat): seq<ScanStep<R>>
    requires i >= 1
  {
    [ScanStep(i, tmp, i - 1, 0, i, 1, base)]
    + (if width > i * 2 then [ScanStep(i, tmp, i * 3 - 1, 0, i * 3, 1, base)] else [])
    + (if width > i * 4 then [ScanStep(i, tmp, i * 5 - 1, 0, i * 5, 1, base),
                              ScanStep(i, tmp, i * 7 - 1, 0, i * 7, 1, base)] else [])
  }

  /** One more 2-wide step, for the block of four at channel `i`. */
  lemma WideStepsNext<R>(k: nat, i: nat, tmp: R, base: nat)
    requires i == 4 * k
    ensures WideSteps(k + 1, tmp, base) == WideSteps(k, tmp, base) + [ScanStep(2, tmp, i + 1, 0, i + 2, 1, base)]
  {
  }

  /** One more doubling iteration, at block size `i`. */
  lemma DoublingStepsNext<R>(k: nat, i: nat, width: nat, tmp: R, base: nat)
    requires i == 4 * Pow2(k)
    ensures DoublingSteps(k + 1, width, tmp, base) == DoublingSteps(k, width, tmp, base) + DoublingIteration(i, width, tmp, base)
    ensures 2 * i == 4 * Pow2(k + 1)
  {
  }

  /** The cases of one doubling iteration, spelled out. */
  lemma DoublingIterationShape<R>(i: nat, width: nat, tmp: R, base: nat)
    requires i >= 1
    ensures width <= i * 2 ==> DoublingIteration(i, width, tmp, base) == [ScanStep(i, tmp, i - 1, 0, i, 1, base)]
    ensures i * 2 < width <= i * 4 ==>
              DoublingIteration(i, width, tmp, base) ==
              [ScanStep(i, tmp, i - 1, 0, i, 1, base), ScanStep(i, tmp, i * 3 - 1, 0, i * 3, 1, base)]
    ensures i * 4 < width ==>
              DoublingIteration(i, width, tmp, base) ==
              [ScanStep(i, tmp, i - 1, 0, i, 1, base), ScanStep(i, tmp, i * 3 - 1, 0, i * 3, 1, base)]
              + [ScanStep(i, tmp, i * 5 - 1, 0, i * 5, 1, base), ScanStep(i, tmp, i * 7 - 1, 0, i * 7, 1, base)]
  {
  }

  /** The steps of the first `k` iterations of the doubling loop, whose
      block sizes are 4, 8, 16, ... */
  function DoublingSteps<R>(k: nat, width: nat, tmp: R, base: nat): seq<ScanStep<R>> {
    if k == 0 then []
    else DoublingSteps(k - 1, width, tmp, base) + DoublingIteration(4 * Pow2(k - 1), width, tmp, base)
  }

  /** How many times the doubling loop runs from block size `i` while the
      block size stays below `limit`. */
  function DoublingCount(i: nat, limit: nat): nat
    requires i >= 1
    decreases limit - i
  {
    if i >= limit then 0 else 1 + DoublingCount(2 * i, limit)
  }

  /** A level's first step: each odd channel takes in the even one
      before it. */
  function PairPart<R>(width: nat, cluster: nat, tmp: R, base: nat): seq<ScanStep<R>> {
    if cluster > 1 then [ScanStep(width / 2, tmp, 0, 2, 1, 2, base)] else []
  }

  /** The steps completing blocks of four channels: two 4-strided steps,
      or for 64-bit elements one 2-wide step per block. */
  function QuadPart<R>(width: nat, size: nat, cluster: nat, tmp: R, base: nat): seq<ScanStep<R>> {
    if cluster > 2 then
      (if size <= 4 then [ScanStep(width / 4, tmp, 1, 4, 2, 4, base), ScanStep(width / 4, tmp, 1, 4, 3, 4, base)]
       else WideSteps((width + 3) / 4, tmp, base))
    else []
  }

  /** The doubling loop, from blocks of 4 up to the cluster or the
      width. */
  function DoublingPart<R>(width: nat, cluster: nat, tmp: R, base: nat): seq<ScanStep<R>> {
    DoublingSteps(DoublingCount(4, Min(cluster, width)), width, tmp, base)
  }

  /** On a split level, the step folding the last channel of the lower
      half into the whole upper half, when a cluster spans both. */
  function CrossStep<R>(width: nat, cluster: nat, tmp: R, base: nat): seq<ScanStep<R>>
    requires width >= 2
  {
    var half := width / 2;
    if cluster > half then [ScanStep(half, tmp, half - 1, 0, half, 1, base)] else []
  }

  /** The steps of a clustered scan of `tmp` at SIMD width `width`, for
      elements of `size` bytes and clusters of `cluster` channels. */
  function Plan<R>(width: nat, size: nat, cluster: nat, tmp: R, shift: (R, nat) -> R, base: nat): seq<ScanStep<R>>
    requires ScanWidthOk(width, size)
    decreases width
  {
    if width * size > 2 * RegSize then
      var half := width / 2;
      Plan(half, size, cluster, tmp, shift, base) + Plan(half, size, cluster, shift(tmp, half), shift, base + half)
      + CrossStep(width, cluster, tmp, base)
    else
      PairPart(width, cluster, tmp, base) + QuadPart(width, size, cluster, tmp, base)
      + DoublingPart(width, cluster, tmp, base)
  }

  /** One unfolding of a level that is not split. */
  lemma PlanDirect<R>(width: nat, size: nat, cluster: nat, tmp: R, shift: (R, nat) -> R, base: nat)
    requires ScanWidthOk(width, size) && width * size <= 2 * RegSize
    ensures Plan(width, size, cluster, tmp, shift, base)
         == PairPart(width, cluster, tmp, base) + QuadPart(width, size, cluster, tmp, base)
            + DoublingPart(width, cluster, tmp, base)
  {
  }

  /** A scan of single-channel clusters does nothing. */
  lemma {:induction false} PlanEmptyForSingletons<R>(width: nat, size: nat, cluster: nat, tmp: R, shift: (R, nat) -> R, base: nat)
    requires ScanWidthOk(width, size) && cluster <= 1
    ensures Plan(width, size, cluster, tmp, shift, base) == []
    decreases width
  {
    if width * size > 2 * RegSize {
      PlanEmptyForSingletons(width / 2, size, cluster, tmp, shift, base);
      PlanEmptyForSingletons(width / 2, size, cluster, shift(tmp, width / 2), shift, base + width / 2);
    } else {
      assert DoublingCount(4, Min(cluster, width)) == 0;
      assert DoublingPart(width, cluster, tmp, base) == [];
    }
  }

  /** Every supported width and element size passes the scan's check. */
  lemma ScanWidthOkForSupported(width: nat, size: nat)
    requires width == 8 || width == 16 || width == 32
    requires size == 1 || size == 2 || size == 4 || size == 8
    ensures ScanWidthOk(width, size)
  {
    assert ScanWidthOk(8, size);
    if width >= 16 {
      assert ScanWidthOk(16, size);
    }
  }

  // ---------------------------------------------------------------------
  // Locality: each step stays inside one cluster
  // ---------------------------------------------------------------------

  /** `base` is a multiple of `width` (one of 8, 16, 32). */
  predicate Aligned(base: nat, width: nat) {
    base % 8 == 0 && (width >= 16 ==> base % 16 == 0) && (width >= 32 ==> base % 32 == 0)
  }

  /** Every lane of `s` folds a lower channel into a higher one, both in
      `[lo, hi)` and in the same cluster of `Pow2(ce)` channels. */
  predicate StepLocal<R>(s: ScanStep<R>, lo: nat, hi: nat, ce: nat) {
    forall j :: 0 <= j < s.width ==>
      lo <= s.Left(j) < s.Right(j) < hi && s.Left(j) / Pow2(ce) == s.Right(j) / Pow2(ce)
  }

  predicate PlanLocal<R>(steps: seq<ScanStep<R>>, lo: nat, hi: nat, ce: nat) {
    forall t :: 0 <= t < |steps| ==> StepLocal(steps[t], lo, hi, ce)
  }

  /** For clusters of `Pow2(ce)` channels on a supported width, every step
      of the scan folds a lower channel into a higher channel of the same
      cluster, inside the channels being scanned. */
  lemma {:induction false} PlanStaysInCluster<R>(width: nat, size: nat, ce: nat, tmp: R, shift: (R, nat) -> R, base: nat)
    requires width == 8 || width == 16 || width == 32
    requires size == 1 || size == 2 || size == 4 || size == 8
    requires Aligned(base, width)
    ensures ScanWidthOk(width, size)
    ensures PlanLocal(Plan(width, size, Pow2(ce), tmp, shift, base), base, base + width, ce)
    decreases width, 1
  {
    ScanWidthOkForSupported(width, size);
    if width * size > 2 * RegSize {
      SplitLevelLocal(width, size, ce, tmp, shift, base);
    } else {
      DirectPlanLocal(width, size, ce, tmp, shift, base);
    }
  }

  /** The split case of `PlanStaysInCluster`: both halves by induction,
      then the step joining them. */
  lemma {:induction false} SplitLevelLocal<R>(width: nat, size: nat, ce: nat, tmp: R, shift: (R, nat) -> R, base: nat)
    requires width == 16 || width == 32
    requires size == 1 || size == 2 || size == 4 || size == 8
    requires Aligned(base, width) && ScanWidthOk(width, size) && width * size > 2 * RegSize
    ensures PlanLocal(Plan(width, size, Pow2(ce), tmp, shift, base), base, base + width, ce)
    decreases width, 0
  {
    var c := Pow2(ce);
    var half := width / 2;
    AlignedHalves(base, width);
    PlanSplit(width, size, c, tmp, shift, base);
    var lower := Plan(half, size, c, tmp, shift, base);
    var upper := Plan(half, size, c, shift(tmp, half), shift, base + half);
    assert PlanLocal(lower, base, base + half, ce) by {
      PlanStaysInCluster(half, size, ce, tmp, shift, base);
    }
    assert PlanLocal(upper, base + half, base + width, ce) by {
      PlanStaysInCluster(half, size, ce, shift(tmp, half), shift, base + half);
    }
    SplitPlanLocal(lower, upper, width, ce, tmp, base);
  }

  /** Both halves of an aligned level are aligned at half the width. */
  lemma AlignedHalves(base: nat, width: nat)
    requires width == 16 || width == 32
    requires Aligned(base, width)
    ensures width / 2 == 8 || width / 2 == 16
    ensures Aligned(base, width / 2) && Aligned(base + width / 2, width / 2)
  {
    if width == 16 {
      var d := base / 16;
      assert base == 16 * d;
      assert base == 8 * (2 * d) && base + 8 == 8 * (2 * d + 1);
    } else {
      var d := base / 32;
      assert base == 32 * d;
      assert base == 8 * (4 * d) && base == 16 * (2 * d);
      assert base + 16 == 8 * (4 * d + 2) && base + 16 == 16 * (2 * d + 1);
    }
  }

  /** A split level is local when both halves are. */
  lemma SplitPlanLocal<R>(a: seq<ScanStep<R>>, b: seq<ScanStep<R>>, width: nat, ce: nat, tmp: R, base: nat)
    requires width == 16 || width == 32
    requires Aligned(base, width)
    requires PlanLocal(a, base, base + width / 2, ce) && PlanLocal(b, base + width / 2, base + width, ce)
    ensures PlanLocal(a + b + CrossStep(width, Pow2(ce), tmp, base), base, base + width, ce)
  {
    var half := width / 2;
    var cross := CrossStep(width, Pow2(ce), tmp, base);
    PlanLocalWiden(a, base, base + half, base, base + width, ce);
    PlanLocalWiden(b, base + half, base + width, base, base + width, ce);
    PlanLocalConcat(a, b, base, base + width, ce);
    if Pow2(ce) > half {
      CrossStepLocal(width, ce, tmp, base);
    }
    PlanLocalConcat(a + b, cross, base, base + width, ce);
  }

  /** One unfolding of a split level. */
  lemma PlanSplit<R>(width: nat, size: nat, cluster: nat, tmp: R, shift: (R, nat) -> R, base: nat)
    requires ScanWidthOk(width, size) && width * size > 2 * RegSize
    ensures ScanWidthOk(width / 2, size)
    ensures Plan(width, size, cluster, tmp, shift, base)
         == Plan(width / 2, size, cluster, tmp, shift, base)
            + Plan(width / 2, size, cluster, shift(tmp, width / 2), shift, base + width / 2)
            + CrossStep(width, cluster, tmp, base)
  {
  }

  /** The step joining two scanned halves stays in the cluster when the
      cluster spans both halves. */
  lemma CrossStepLocal<R>(width: nat, ce: nat, tmp: R, base: nat)
    requires width == 16 || width == 32
    requires Aligned(base, width) && Pow2(ce) > width / 2
    ensures StepLocal(ScanStep(width / 2, tmp, width / 2 - 1, 0, width / 2, 1, base), base, base + width, ce)
  {
    var we := if width == 16 then 4 else 5;
    Pow2Values();
    Pow2Below(we - 1, ce);
    assert base % Pow2(we) == 0;
    var s := ScanStep(width / 2, tmp, width / 2 - 1, 0, width / 2, 1, base);
    forall j | 0 <= j < s.width
      ensures base <= s.Left(j) < s.Right(j) < base + width && s.Left(j) / Pow2(ce) == s.Right(j) / Pow2(ce)
    {
      assert s.Left(j) == base + width / 2 - 1 && s.Right(j) == base + width / 2 + j;
      SameCluster(s.Left(j), s.Right(j), base, we, ce);
    }
  }

  /** The steps of a level that is not split. */
  lemma DirectPlanLocal<R>(width: nat, size: nat, ce: nat, tmp: R, shift: (R, nat) -> R, base: nat)
    requires width == 8 || width == 16 || width == 32
    requires size == 1 || size == 2 || size == 4 || size == 8
    requires Aligned(base, width) && width * size <= 2 * RegSize
    ensures ScanWidthOk(width, size)
    ensures PlanLocal(Plan(width, size, Pow2(ce), tmp, shift, base), base, base + width, ce)
  {
    ScanWidthOkForSupported(width, size);
    var c := Pow2(ce);
    var pair := PairPart(width, c, tmp, base);
    var quad := QuadPart(width, size, c, tmp, base);
    var doubling := DoublingPart(width, c, tmp, base);
    if c > 1 {
      PairStepLocal(width, ce, tmp, base);
    }
    QuadPartLocal(width, size, ce, tmp, base);
    DoublingPartLocal(width, ce, tmp, base);
    PlanLocalConcat(pair, quad, base, base + width, ce);
    PlanLocalConcat(pair + quad, doubling, base, base + width, ce);
  }

  lemma QuadPartLocal<R>(width: nat, size: nat, ce: nat, tmp: R, base: nat)
    requires width == 8 || width == 16 || width == 32
    requires Aligned(base, width)
    ensures PlanLocal(QuadPart(width, size, Pow2(ce), tmp, base), base, base + width, ce)
  {
    if Pow2(ce) > 2 {
      Pow2Values();
      Pow2Below(1, ce);
      if size <= 4 {
        QuadStepLocal(width, ce, tmp, base, 2);
        QuadStepLocal(width, ce, tmp, base, 3);
        PlanLocalConcat([ScanStep(width / 4, tmp, 1, 4, 2, 4, base)], [ScanStep(width / 4, tmp, 1, 4, 3, 4, base)],
                        base, base + width, ce);
      } else {
        WideStepsLocal((width + 3) / 4, width, ce, tmp, base);
      }
    }
  }

  lemma DoublingPartLocal<R>(width: nat, ce: nat, tmp: R, base: nat)
    requires width == 8 || width == 16 || width == 32
    requires Aligned(base, width)
    ensures PlanLocal(DoublingPart(width, Pow2(ce), tmp, base), base, base + width, ce)
  {
    var k := DoublingCount(4, Min(Pow2(ce), width));
    if k >= 1 {
      DoublingCountBelow(4, Min(Pow2(ce), width), k);
    }
    DoublingStepsLocal(k, width, ce, tmp, base);
  }

  lemma PairStepLocal<R>(width: nat, ce: nat, tmp: R, base: nat)
    requires width == 8 || width == 16 || width == 32
    requires Aligned(base, width) && Pow2(ce) > 1
    ensures StepLocal(ScanStep(width / 2, tmp, 0, 2, 1, 2, base), base, base + width, ce)
  {
    Pow2Below(0, ce);
    var s := ScanStep(width / 2, tmp, 0, 2, 1, 2, base);
    forall j | 0 <= j < s.width
      ensures base <= s.Left(j) < s.Right(j) < base + width && s.Left(j) / Pow2(ce) == s.Right(j) / Pow2(ce)
    {
      var start := base + 2 * j;
      assert start % Pow2(1) == 0 by {
        Pow2Values();
        PairStart(base, j);
      }
      assert s.Left(j) == start && s.Right(j) == start + 1;
      LaneLocal(s, j, start, 1, width, ce);
    }
  }

  /** Lane `j` of `s` stays in its cluster when it reads and writes inside
      one aligned block of `Pow2(me)` channels. */
  lemma LaneLocal<R>(s: ScanStep<R>, j: nat, start: nat, me: nat, width: nat, ce: nat)
    requires me <= ce && start % Pow2(me) == 0 && s.base <= start
    requires start <= s.Left(j) < s.Right(j) < start + Pow2(me) && start + Pow2(me) <= s.base + width
    ensures s.base <= s.Left(j) < s.Right(j) < s.base + width && s.Left(j) / Pow2(ce) == s.Right(j) / Pow2(ce)
  {
    SameCluster(s.Left(j), s.Right(j), start, me, ce);
  }

  lemma QuadStepLocal<R>(width: nat, ce: nat, tmp: R, base: nat, right: nat)
    requires width == 8 || width == 16 || width == 32
    requires Aligned(base, width) && 2 <= ce && (right == 2 || right == 3)
    ensures StepLocal(ScanStep(width / 4, tmp, 1, 4, right, 4, base), base, base + width, ce)
  {
    var s := ScanStep(width / 4, tmp, 1, 4, right, 4, base);
    forall j | 0 <= j < s.width
      ensures base <= s.Left(j) < s.Right(j) < base + width && s.Left(j) / Pow2(ce) == s.Right(j) / Pow2(ce)
    {
      var start := base + 4 * j;
      assert start % Pow2(2) == 0 by {
        Pow2Values();
        QuadStart(base, j);
      }
      assert s.Left(j) == start + 1 && s.Right(j) == start + right;
      LaneLocal(s, j, start, 2, width, ce);
    }
  }

  lemma PairStart(base: nat, j: nat)
    requires base % 8 == 0
    ensures (base + 2 * j) % 2 == 0
  {
    var d := base / 8;
    assert base == 8 * d;
    assert base + 2 * j == 2 * (4 * d + j);
  }

  lemma QuadStart(base: nat, j: nat)
    requires base % 4 == 0
    ensures (base + 4 * j) % 4 == 0
  {
    var d := base / 4;
    assert base == 4 * d;
    assert base + 4 * j == 4 * (d + j);
  }

  lemma {:induction false} WideStepsLocal<R>(k: nat, width: nat, ce: nat, tmp: R, base: nat)
    requires 4 * k <= width && base % 4 == 0 && 2 <= ce
    ensures PlanLocal(WideSteps(k, tmp, base), base, base + width, ce)
  {
    if k > 0 {
      WideStepsLocal(k - 1, width, ce, tmp, base);
      var s := ScanStep(2, tmp, 4 * (k - 1) + 1, 0, 4 * (k - 1) + 2, 1, base);
      forall j | 0 <= j < s.width
        ensures base <= s.Left(j) < s.Right(j) < base + width && s.Left(j) / Pow2(ce) == s.Right(j) / Pow2(ce)
      {
        var start := base + 4 * (k - 1);
        assert start % Pow2(2) == 0 by {
          Pow2Values();
          QuadStart(base, k - 1);
        }
        SameCluster(s.Left(j), s.Right(j), start, 2, ce);
      }
      PlanLocalConcat(WideSteps(k - 1, tmp, base), [s], base, base + width, ce);
    }
  }

  lemma {:induction false} DoublingStepsLocal<R>(k: nat, width: nat, ce: nat, tmp: R, base: nat)
    requires width == 8 || width == 16 || width == 32
    requires Aligned(base, width)
    requires k >= 1 ==> 4 * Pow2(k - 1) < Min(Pow2(ce), width)
    ensures PlanLocal(DoublingSteps(k, width, tmp, base), base, base + width, ce)
  {
    if k > 0 {
      if k >= 2 {
        assert Pow2(k - 1) == 2 * Pow2(k - 2);
      }
      DoublingStepsLocal(k - 1, width, ce, tmp, base);
      var e := k + 1;
      assert 4 * Pow2(k - 1) == Pow2(e) by {
        assert Pow2(k + 1) == 2 * (2 * Pow2(k - 1));
      }
      assert e <= 4;
      Pow2Below(e, ce);
      IterationLocal(Pow2(e), e, width, ce, tmp, base);
      PlanLocalConcat(DoublingSteps(k - 1, width, tmp, base), DoublingIteration(Pow2(e), width, tmp, base),
                      base, base + width, ce);
    }
  }

  lemma IterationLocal<R>(i: nat, e: nat, width: nat, ce: nat, tmp: R, base: nat)
    requires width == 8 || width == 16 || width == 32
    requires Aligned(base, width) && 2 <= e <= 4 && i == Pow2(e) && i < width && e < ce
    ensures PlanLocal(DoublingIteration(i, width, tmp, base), base, base + width, ce)
  {
    Pow2Values();
    var steps := DoublingIteration(i, width, tmp, base);
    if i == 4 {
      BlockStepLocal(4, 2, 0, width, ce, tmp, base);
      if width > 8 {
        BlockStepLocal(4, 2, 8, width, ce, tmp, base);
      }
      if width > 16 {
        BlockStepLocal(4, 2, 16, width, ce, tmp, base);
        BlockStepLocal(4, 2, 24, width, ce, tmp, base);
      }
    } else if i == 8 {
      BlockStepLocal(8, 3, 0, width, ce, tmp, base);
      if width > 16 {
        BlockStepLocal(8, 3, 16, width, ce, tmp, base);
      }
    } else {
      BlockStepLocal(16, 4, 0, width, ce, tmp, base);
    }
  }

  /** The step folding the last channel of the block of `i` channels at
      `off` into the whole block after it. */
  lemma BlockStepLocal<R>(i: nat, e: nat, off: nat, width: nat, ce: nat, tmp: R, base: nat)
    requires width == 8 || width == 16 || width == 32
    requires Aligned(base, width) && 2 <= e <= 4 && i == Pow2(e) && e < ce
    requires Aligned(off, 2 * i) && off + 2 * i <= width
    ensures StepLocal(ScanStep(i, tmp, off + i - 1, 0, off + i, 1, base), base, base + width, ce)
  {
    var start := base + off;
    BlockStartAligned(i, e, off, width, base);
    var s := ScanStep(i, tmp, off + i - 1, 0, off + i, 1, base);
    forall j | 0 <= j < s.width
      ensures base <= s.Left(j) < s.Right(j) < base + width && s.Left(j) / Pow2(ce) == s.Right(j) / Pow2(ce)
    {
      LaneLocal(s, j, start, e + 1, width, ce);
    }
  }

  /** A block of `2 * i` channels at an offset aligned to its size starts
      on a multiple of its size. */
  lemma BlockStartAligned(i: nat, e: nat, off: nat, width: nat, base: nat)
    requires width == 8 || width == 16 || width == 32
    requires Aligned(base, width) && 2 <= e <= 4 && i == Pow2(e)
    requires Aligned(off, 2 * i) && off + 2 * i <= width
    ensures Pow2(e + 1) == 2 * i && (base + off) % Pow2(e + 1) == 0
  {
    Pow2Values();
    if e == 2 {
      SumAligned8(base, off);
    } else if e == 3 {
      SumAligned16(base, off);
    } else {
      SumAligned32(base, off);
    }
  }

  /** The sum of two multiples of 8, 16 or 32 is one. */
  lemma SumAligned8(a: nat, b: nat)
    requires a % 8 == 0 && b % 8 == 0
    ensures (a + b) % 8 == 0
  {
    var d, e := a / 8, b / 8;
    assert a == 8 * d && b == 8 * e;
    assert a + b == 8 * (d + e);
  }

  lemma SumAligned16(a: nat, b: nat)
    requires a % 16 == 0 && b % 16 == 0
    ensures (a + b) % 16 == 0
  {
    var d, e := a / 16, b / 16;
    assert a == 16 * d && b == 16 * e;
    assert a + b == 16 * (d + e);
  }

  lemma SumAligned32(a: nat, b: nat)
    requires a % 32 == 0 && b % 32 == 0
    ensures (a + b) % 32 == 0
  {
    var d, e := a / 32, b / 32;
    assert a == 32 * d && b == 32 * e;
    assert a + b == 32 * (d + e);
  }

  lemma PlanLocalConcat<R>(a: seq<ScanStep<R>>, b: seq<ScanStep<R>>, lo: nat, hi: nat, ce: nat)
    requires PlanLocal(a, lo, hi, ce) && PlanLocal(b, lo, hi, ce)
    ensures PlanLocal(a + b, lo, hi, ce)
  {
    forall t | 0 <= t < |a + b|
      ensures StepLocal((a + b)[t], lo, hi, ce)
    {
      if t >= |a| {
        assert (a + b)[t] == b[t - |a|];
      }
    }
  }

  lemma PlanLocalWiden<R>(a: seq<ScanStep<R>>, lo: nat, hi: nat, lo2: nat, hi2: nat, ce: nat)
    requires PlanLocal(a, lo, hi, ce) && lo2 <= lo && hi <= hi2
    ensures PlanLocal(a, lo2, hi2, ce)
  {
    forall t | 0 <= t < |a|
      ensures StepLocal(a[t], lo2, hi2, ce)
    {
      assert StepLocal(a[t], lo, hi, ce);
    }
  }

  /** The doubling loop only runs with block sizes below its limit. */
  lemma {:induction false} DoublingCountBelow(i: nat, limit: nat, k: nat)
    requires i >= 1 && 1 <= k <= DoublingCount(i, limit)
    ensures i * Pow2(k - 1) < limit
    decreases limit - i
  {
    if k > 1 {
      DoublingCountBelow(2 * i, limit, k - 1);
      assert i * Pow2(k - 1) == 2 * i * Pow2(k - 2);
    }
  }

  // ---------------------------------------------------------------------
  // Powers of two
  // ---------------------------------------------------------------------

  lemma Pow2Values()
    ensures Pow2(0) == 1 && Pow2(1) == 2 && Pow2(2) == 4 && Pow2(3) == 8
    ensures Pow2(4) == 16 && Pow2(5) == 32
  {
    assert Pow2(1) == 2;
    assert Pow2(2) == 4;
    assert Pow2(3) == 8;
    assert Pow2(4) == 16;
  }

  lemma {:induction false} Pow2Add(a: nat, b: nat)
    ensures Pow2(a + b) == Pow2(a) * Pow2(b)
    decreases b
  {
    if b > 0 {
      Pow2Add(a, b - 1);
      assert Pow2(a + b) == 2 * Pow2(a + b - 1);
    }
  }

  lemma {:induction false} Pow2Monotone(a: nat, b: nat)
    requires a <= b
    ensures Pow2(a) <= Pow2(b)
    decreases b
  {
    if a < b {
      Pow2Monotone(a, b - 1);
    }
  }

  /** A power of two above `Pow2(e)` has a larger exponent. */
  lemma Pow2Below(e: nat, ce: nat)
    requires Pow2(e) < Pow2(ce)
    ensures e < ce
  {
    if ce <= e {
      Pow2Monotone(ce, e);
    }
  }

  /** An aligned block of `Pow2(me)` channels lies inside one cluster of
      `Pow2(ce)` channels when it is no larger. */
  lemma SameCluster(x: nat, y: nat, start: nat, me: nat, ce: nat)
    requires me <= ce && start % Pow2(me) == 0 && start <= x <= y < start + Pow2(me)
    ensures x / Pow2(ce) == y / Pow2(ce)
  {
    Pow2Add(me, ce - me);
    SameBlock(x, y, start, Pow2(me), Pow2(ce - me));
  }

  /** Two points of an aligned block of `m` lie in the same block of
      `m * r`. */
  lemma SameBlock(x: nat, y: nat, start: nat, m: nat, r: nat)
    requires m > 0 && r > 0 && start % m == 0 && start <= x <= y < start + m
    ensures x / (m * r) == y / (m * r)
  {
    var c := m * r;
    var q := x / c;
    var t := start / m;
    DivBounds(x, c);
    DivBounds(start, m);
    var k := (q + 1) * r;
    NextBlock(q, r, m, c);
    MulCancel(t, k, m);
    MulLe(t + 1, k, m);
    NextMultiple(t, m);
    DivUnique(y, c, q);
  }

  lemma NextBlock(q: nat, r: nat, m: nat, c: nat)
    requires c == m * r
    ensures ((q + 1) * r) * m == q * c + c
  {
    MulAssoc(q + 1, r, m);
  }

  lemma NextMultiple(t: nat, m: nat)
    ensures (t + 1) * m == t * m + m
  {
  }

  lemma DivBounds(x: nat, c: nat)
    requires c > 0
    ensures (x / c) * c <= x < (x / c) * c + c
    ensures x % c == 0 ==> (x / c) * c == x
  {
  }

  lemma MulAssoc(a: nat, b: nat, m: nat)
    ensures (a * b) * m == a * (b * m)
  {
  }

  lemma MulCancel(a: nat, b: nat, m: nat)
    requires m > 0 && a * m < b * m
    ensures a < b
  {
    if a >= b {
      MulLe(b, a, m);
    }
  }

  lemma MulLe(a: nat, b: nat, m: nat)
    requires a <= b
    ensures a * m <= b * m
  {
  }

  lemma DivUnique(y: nat, c: nat, q: nat)
    requires c > 0 && q * c <= y < q * c + c
    ensures y / c == q
  {
    var d := y / c;
    assert y == d * c + y % c;
    if d > q {
      MulLe(q + 1, d, c);
    } else if d < q {
      MulLe(d + 1, q, c);
    }
  }
}
