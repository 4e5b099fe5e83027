// The IR validator of the scalar back end: structural rules every
// instruction must satisfy, and the hardware's special restrictions on the
// register regions of sources 0 and 1. The pass only reads instructions and
// aborts at the first rule that fails; here a failed rule is a predicate
// that does not hold, and the pass's outcome is the index of the first
// failing instruction, if any.

module Validate {
  import opened Ir

  /** The IR queries the validator consults but that are defined elsewhere:
      whether a register is read as one scalar, how many registers an
      instruction writes or reads through a given source, whether an
      opcode takes three sources or is an extended-math opcode, and the
      physical sub-register number of a register. */
  datatype Queries = Queries(isUniform: Reg -> bool, regsWritten: Inst -> nat,
                             regsRead: (Inst, nat) -> nat, is3Src: Inst -> bool,
                             isMath: Inst -> bool, physSubnr: Reg -> nat)

  // -------------------------------------------------------------------
  // Structural rules (brw_fs_validate)
  // -------------------------------------------------------------------

  /** A SEND reads its two descriptor operands as scalars; a MOV has
      exactly one source. */
  predicate OperandsOk(q: Queries, inst: Inst) {
    match inst.opcode
    case Send => |inst.srcs| >= 2 && q.isUniform(inst.srcs[0]) && q.isUniform(inst.srcs[1])
    case Mov => |inst.srcs| == 1
    case _ => true
  }

  /** From generation 20 on, only the accumulator itself and the opcodes
      that carry through it (ADDC, MACH, SUBB) may write the accumulator. */
  predicate AccumulatorWriteOk(dev: DevInfo, inst: Inst) {
    dev.ver >= 20 && inst.writesAccumulator ==>
      IsAccumulator(inst.dst) || inst.opcode == Addc || inst.opcode == Mach || inst.opcode == Subb
  }

  function Count(b: bool): nat {
    if b then 1 else 0
  }

  /** The three sources of a ternary instruction are all integer or all
      floating point, counted as the rule counts them. */
  predicate ThreeSrcTypesOk(inst: Inst)
    requires |inst.srcs| >= 3
  {
    var ints := Count(IsIntType(inst.srcs[0].regType)) + Count(IsIntType(inst.srcs[1].regType)) +
                Count(IsIntType(inst.srcs[2].regType));
    var floats := Count(IsFloatType(inst.srcs[0].regType)) + Count(IsFloatType(inst.srcs[1].regType)) +
                  Count(IsFloatType(inst.srcs[2].regType));
    (ints == 3 && floats == 0) || (ints == 0 && floats == 3)
  }

  /** The encoded vertical strides a ternary source may use from
      generation 10 on: 0, 4, 8 and 16 always, 1 from generation 12 on,
      2 up to generation 11. */
  predicate VStrideOk(ver: nat, e: nat) {
    e == VStride0 || e == VStride4 || e == VStride8 || e == VStride16 ||
    (e == VStride1 && 12 <= ver) || (e == VStride2 && ver <= 11)
  }

  /** The decoded strides the same rule allows. */
  predicate StrideAllowed(ver: nat, stride: nat) {
    stride == 0 || stride == 4 || stride == 8 || stride == 16 ||
    (stride == 1 && ver >= 12) || (stride == 2 && ver <= 11)
  }

  /** The generation-10 rule for the three sources: every non-immediate
      source has an allowed vertical stride. */
  predicate Gen10RegionsOk(ver: nat, inst: Inst)
    requires |inst.srcs| >= 3
  {
    forall i :: 0 <= i < 3 && !inst.srcs[i].file.Imm? ==> VStrideOk(ver, inst.srcs[i].vstride)
  }

  /** The rule before generation 10, once registers are allocated: no
      immediate source, an encoded vertical stride of at most 1, and
      exactly 1 for types wider than four bytes (no replicate control for
      64-bit types). */
  predicate PreGen10RegionsOk(inst: Inst)
    requires |inst.srcs| >= 3
  {
    forall i :: 0 <= i < 3 ==>
      !inst.srcs[i].file.Imm? && inst.srcs[i].vstride <= VStride1 &&
      (SizeBytes(inst.srcs[i].regType) > 4 ==> inst.srcs[i].vstride == VStride1)
  }

  /** The rules for ternary instructions. The pre-generation-10 region rule
      only applies once `grfUsed` (the number of hardware registers the
      register allocator used) is nonzero. */
  predicate ThreeSrcOk(dev: DevInfo, q: Queries, grfUsed: nat, inst: Inst) {
    q.is3Src(inst) ==>
      |inst.srcs| >= 3 && ThreeSrcTypesOk(inst) &&
      (if dev.ver >= 10 then Gen10RegionsOk(dev.ver, inst)
       else grfUsed != 0 ==> PreGen10RegionsOk(inst))
  }

  /** Every virtual register the instruction writes or reads lies inside
      its allocation: the register the access starts in plus the number of
      registers accessed is at most the allocated size. */
  predicate VgrfBoundsOk(q: Queries, alloc: seq<nat>, inst: Inst) {
    (inst.dst.file.Vgrf? ==>
       inst.dst.nr < |alloc| && inst.dst.offset / RegSize + q.regsWritten(inst) <= alloc[inst.dst.nr]) &&
    forall i :: 0 <= i < |inst.srcs| && inst.srcs[i].file.Vgrf? ==>
      inst.srcs[i].nr < |alloc| && inst.srcs[i].offset / RegSize + q.regsRead(inst, i) <= alloc[inst.srcs[i].nr]
  }

  /** Workaround 14014617373: an accumulator destination at physical
      sub-register 0 has horizontal stride 1. */
  predicate AccumulatorStrideOk(dev: DevInfo, q: Queries, inst: Inst) {
    dev.needsWa14014617373 && IsAccumulator(inst.dst) && q.physSubnr(inst.dst) == 0 ==>
      inst.dst.hstride == HStride1
  }

  /** Workaround 22016140776: extended math never reads a scalar
      half-float source. */
  predicate MathHalfFloatOk(dev: DevInfo, q: Queries, inst: Inst) {
    q.isMath(inst) && dev.needsWa22016140776 ==>
      forall i :: 0 <= i < |inst.srcs| ==> !q.isUniform(inst.srcs[i]) || inst.srcs[i].regType != HF
  }

  /** All structural rules for one instruction. */
  predicate InstValid(dev: DevInfo, q: Queries, alloc: seq<nat>, grfUsed: nat, inst: Inst) {
    OperandsOk(q, inst) && AccumulatorWriteOk(dev, inst) && ThreeSrcOk(dev, q, grfUsed, inst) &&
    VgrfBoundsOk(q, alloc, inst) && AccumulatorStrideOk(dev, q, inst) && MathHalfFloatOk(dev, q, inst)
  }

  // -------------------------------------------------------------------
  // Region restrictions (brw_fs_validate_register_region_special_restrictions)
  // -------------------------------------------------------------------

  function Max1(e: nat): nat {
    if e < 1 then 1 else e
  }

  /** A source region as the restriction table reads it: vertical stride,
      width and horizontal stride in elements, where an encoded stride of
      0 reads as 1. */
  datatype Region = Region(v: nat, w: nat, h: nat)

  function DecodeRegion(src: Reg): Region {
    Region(Pow2(Max1(src.vstride) - 1), Pow2(src.width), Pow2(Max1(src.hstride) - 1))
  }

  /** The destination and source shapes under which every element has a
      dword channel of its own, which the table always allows. */
  predicate DwordPerChannel(dstSize: nat, srcSize: nat, dstStride: nat) {
    dstSize >= 4 || srcSize >= 4 || (dstSize == 2 && dstStride > 1) || (dstSize == 1 && dstStride > 2)
  }

  predicate UniformStride(rg: Region) {
    rg.w == 1 || rg.h * rg.w == rg.v
  }

  function SourceStride(rg: Region): nat {
    if rg.w == 1 then rg.v else rg.h
  }

  predicate DstDwordAligned(dst: Reg) {
    var size := SizeBytes(dst.regType);
    size >= 4 || (size == 2 && dst.subnr % 2 == 0) || (size == 1 && dst.subnr % 4 == 0)
  }

  /** The rows the source-0 and source-1 tables share: word to word, and
      word to byte at destination stride 2. */
  predicate WordRows(dst: Reg, src: Reg) {
    var rg := DecodeRegion(src);
    var stride := SourceStride(rg);
    var uniform := UniformStride(rg);
    var srcSize := SizeBytes(src.regType);
    var dstSize := SizeBytes(dst.regType);
    if srcSize == 2 && dstSize == 2 then
      stride < 2 || (stride == 2 && uniform && dst.subnr % 16 == src.subnr / 2)
    else if srcSize == 2 && dstSize == 1 && dst.hstride == 2 then
      stride < 2 || (stride == 2 && uniform && dst.subnr % 32 == src.subnr)
    else false
  }

  /** The rows only source 0 has: byte sources. */
  predicate ByteRows(dst: Reg, src: Reg) {
    var rg := DecodeRegion(src);
    var stride := SourceStride(rg);
    var uniform := UniformStride(rg);
    var srcSize := SizeBytes(src.regType);
    var dstSize := SizeBytes(dst.regType);
    var dstStride := dst.hstride;
    if srcSize == 1 && dstSize == 2 then
      stride < 4 ||
      (stride == 4 && uniform && (2 * dst.subnr) % 16 == src.subnr / 2) ||
      (stride == 8 && uniform && (2 * dst.subnr) % 8 == src.subnr / 4)
    else if srcSize == 1 && dstSize == 1 && dstStride == 2 then
      stride < 4 ||
      (stride == 4 && uniform && dst.subnr % 32 == src.subnr / 2) ||
      (stride == 8 && uniform && dst.subnr % 16 == src.subnr / 4)
    else if srcSize == 1 && dstSize == 1 && dstStride == 1 && rg.w != 2 then
      stride < 2 ||
      (stride == 2 && uniform && dst.subnr % 32 == src.subnr / 2) ||
      (stride == 4 && uniform && dst.subnr % 16 == src.subnr / 4)
    else if srcSize == 1 && dstSize == 1 && dstStride == 1 && rg.w == 2 then
      (rg.h == 0 && rg.v < 4) ||
      (rg.h == 1 && rg.v < 4) ||
      (rg.h == 2 && rg.v < 2) ||
      (rg.h == 1 && rg.v == 4 && dst.subnr % 32 == 2 * (src.subnr / 4) && src.subnr % 2 == 0) ||
      (rg.h == 2 && rg.v == 4 && dst.subnr % 32 == src.subnr / 2) ||
      (rg.h == 4 && rg.v == 8 && dst.subnr % 32 == src.subnr / 4)
    else false
  }

  /** The source-0 table: allowed when every element has a dword channel,
      or, when the source stride is uniform or the destination is dword
      aligned, when one of the listed rows matches; rejected otherwise.
      Address-register regions (`is_VxH`, `is_Vx1`) do not occur in the
      IR and are false. */
  predicate Src0RegionAllowed(dst: Reg, src: Reg) {
    var rg := DecodeRegion(src);
    if DwordPerChannel(SizeBytes(dst.regType), SizeBytes(src.regType), dst.hstride) then true
    else if UniformStride(rg) || DstDwordAligned(dst) then
      if SizeBytes(src.regType) == 2 then WordRows(dst, src) else ByteRows(dst, src)
    else false
  }

  /** The source-1 table: the same dword rule, and only the word rows. */
  predicate Src1RegionAllowed(dst: Reg, src: Reg) {
    var rg := DecodeRegion(src);
    if DwordPerChannel(SizeBytes(dst.regType), SizeBytes(src.regType), dst.hstride) then true
    else if UniformStride(rg) || DstDwordAligned(dst) then WordRows(dst, src)
    else false
  }

  predicate HardwareFile(f: RegFile) {
    f.FixedGrf? || f.Arf?
  }

  /** The region restrictions for one instruction: from generation 20 on,
      a source 0 (source 1) in a hardware file satisfies the source-0
      (source-1) table. */
  predicate RegionsOk(dev: DevInfo, inst: Inst) {
    (dev.ver >= 20 && |inst.srcs| > 0 && HardwareFile(inst.srcs[0].file) ==>
       Src0RegionAllowed(inst.dst, inst.srcs[0])) &&
    (dev.ver >= 20 && |inst.srcs| > 1 && HardwareFile(inst.srcs[1].file) ==>
       Src1RegionAllowed(inst.dst, inst.srcs[1]))
  }

  // -------------------------------------------------------------------
  // The passes
  // -------------------------------------------------------------------

  predicate AllSatisfy(ok: Inst -> bool, insts: seq<Inst>) {
    forall i :: 0 <= i < |insts| ==> ok(insts[i])
  }

  /** Walking the program in order and stopping at the first instruction
      that breaks `ok`: its index, or `None` when the walk completes. */
  function FirstFailure(ok: Inst -> bool, insts: seq<Inst>): (r: Option<nat>)
    ensures r.None? <==> AllSatisfy(ok, insts)
    ensures r.Some? ==> r.value < |insts| && !ok(insts[r.value]) &&
                        forall i :: 0 <= i < r.value ==> ok(insts[i])
  {
    if insts == [] then None
    else if !ok(insts[0]) then Some(0)
    else match FirstFailure(ok, insts[1..])
      case None => None
      case Some(k) => Some(k + 1)
  }

  /** The structural pass: where it aborts, if it does. */
  function ValidateStructure(dev: DevInfo, q: Queries, alloc: seq<nat>, grfUsed: nat, insts: seq<Inst>): Option<nat> {
    FirstFailure(inst => InstValid(dev, q, alloc, grfUsed, inst), insts)
  }

  /** The late pass, which checks the region restrictions. */
  function ValidateLate(dev: DevInfo, insts: seq<Inst>): Option<nat> {
    FirstFailure(inst => RegionsOk(dev, inst), insts)
  }

  // -------------------------------------------------------------------
  // Properties
  // -------------------------------------------------------------------

  /** The pass completes on a program exactly when every instruction
      satisfies every structural rule, and when it aborts, it aborts at an
      instruction that breaks one after all earlier ones satisfied them. */
  lemma StructureVerdict(dev: DevInfo, q: Queries, alloc: seq<nat>, grfUsed: nat, insts: seq<Inst>)
    ensures ValidateStructure(dev, q, alloc, grfUsed, insts).None? <==>
            forall i :: 0 <= i < |insts| ==> InstValid(dev, q, alloc, grfUsed, insts[i])
    ensures var r := ValidateStructure(dev, q, alloc, grfUsed, insts);
            r.Some? ==> r.value < |insts| && !InstValid(dev, q, alloc, grfUsed, insts[r.value]) &&
                        forall i :: 0 <= i < r.value ==> InstValid(dev, q, alloc, grfUsed, insts[i])
  {
    var ok := inst => InstValid(dev, q, alloc, grfUsed, inst);
    assert forall i :: 0 <= i < |insts| ==> ok(insts[i]) == InstValid(dev, q, alloc, grfUsed, insts[i]);
  }

  /** Instructions inserted by the builder into a program that passes a
      pass keep it passing when the inserted instructions pass it too. */
  lemma {:induction false} EmittedKeepsPassing(ok: Inst -> bool, before: seq<Inst>, after: seq<Inst>,
                                               cursor: nat, added: seq<Inst>)
    requires Emitted(before, after, cursor, added)
    requires FirstFailure(ok, before).None? && FirstFailure(ok, added).None?
    ensures FirstFailure(ok, after).None?
  {
    var k := |before| - cursor;
    assert after == before[..k] + added + before[k..];
    forall i | 0 <= i < |after|
      ensures ok(after[i])
    {
      if i < k {
        assert after[i] == before[i];
      } else if i < k + |added| {
        assert after[i] == added[i - k];
      } else {
        assert after[i] == before[i - |added|];
      }
    }
  }

  /** The three-source type rule holds exactly when the three sources are
      all of integer type or all of floating-point type. */
  lemma ThreeSrcTypesUniform(inst: Inst)
    requires |inst.srcs| >= 3
    ensures ThreeSrcTypesOk(inst) <==>
            (forall i :: 0 <= i < 3 ==> IsIntType(inst.srcs[i].regType)) ||
            (forall i :: 0 <= i < 3 ==> IsFloatType(inst.srcs[i].regType))
  {
    var s0, s1, s2 := inst.srcs[0].regType, inst.srcs[1].regType, inst.srcs[2].regType;
    assert IsIntType(s0) != IsFloatType(s0) && IsIntType(s1) != IsFloatType(s1) && IsIntType(s2) != IsFloatType(s2);
  }

  /** Read through the stride decoding, the generation-10 rule allows the
      strides 0, 4, 8 and 16, plus 1 from generation 12 and 2 up to
      generation 11, and no encoding beyond that of 16. */
  lemma VStrideTable(ver: nat, e: nat)
    ensures VStrideOk(ver, e) <==> e <= VStride16 && StrideAllowed(ver, DecodeStride(e))
  {
    if e <= VStride16 {
      assert Pow2(0) == 1 && Pow2(1) == 2 && Pow2(2) == 4 && Pow2(3) == 8 && Pow2(4) == 16;
    }
  }

  /** The table's decoding agrees with the IR's stride decoding, except
      that an encoded stride of 0 reads as 1; so the scalar row `h == 0`
      of the byte table never matches, and scalar horizontal strides are
      checked by the `h == 1` rows. */
  lemma RegionDecoding(src: Reg)
    ensures var rg := DecodeRegion(src);
            rg.v >= 1 && rg.w >= 1 && rg.h >= 1 &&
            (src.vstride >= 1 ==> rg.v == DecodeStride(src.vstride)) &&
            (src.hstride >= 1 ==> rg.h == DecodeStride(src.hstride)) &&
            (src.vstride == 0 ==> rg.v == 1) && (src.hstride == 0 ==> rg.h == 1)
  {
  }

  /** Every element in a dword channel of its own is allowed by both
      tables, whatever the source region. */
  lemma DwordChannelsAllowed(dst: Reg, src: Reg)
    requires DwordPerChannel(SizeBytes(dst.regType), SizeBytes(src.regType), dst.hstride)
    ensures Src0RegionAllowed(dst, src) && Src1RegionAllowed(dst, src)
  {
  }

  /** A region the source-1 table allows is allowed as source 0 too. */
  lemma Src1ImpliesSrc0(dst: Reg, src: Reg)
    requires Src1RegionAllowed(dst, src)
    ensures Src0RegionAllowed(dst, src)
  {
  }

  /** The two tables differ only on byte sources: for every other source
      type they accept exactly the same regions. */
  lemma TablesAgreeBeyondBytes(dst: Reg, src: Reg)
    requires SizeBytes(src.regType) != 1
    ensures Src0RegionAllowed(dst, src) <==> Src1RegionAllowed(dst, src)
  {
    if !DwordPerChannel(SizeBytes(dst.regType), SizeBytes(src.regType), dst.hstride) &&
       SizeBytes(src.regType) != 2 {
      assert !WordRows(dst, src) && !ByteRows(dst, src);
    }
  }
}
