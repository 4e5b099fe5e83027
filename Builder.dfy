// The SIMD instruction builder: a small value that records where and how
// instructions are emitted (dispatch width, channel group, execution-mask
// override, insertion cursor, debug annotation) and whose emit operations
// insert instructions into, and allocate virtual registers in, the shader
// it refers to.

module FsBuilder {
  import opened Ir
  import opened ScanPlan


  /** `a / b` rounded up. */
  function DivRoundUp(a: nat, b: nat): nat
    requires b > 0
  {
    (a + b - 1) / b
  }

  /** Registers allocated for `n` components of `typeSize` bytes at SIMD
      width `width`, rounded up to whole allocation units. */
  function VgrfSize(n: nat, typeSize: nat, width: nat, unit: RegUnit): nat {
    DivRoundUp(n * typeSize * width, unit * RegSize) * unit
  }

  /** The allocation is a whole number of units, holds the requested bytes,
      and is the smallest such number: one unit less would not. */
  lemma VgrfSizeIsMinimal(n: nat, typeSize: nat, width: nat, unit: RegUnit)
    ensures VgrfSize(n, typeSize, width, unit) % unit == 0
    ensures VgrfSize(n, typeSize, width, unit) * RegSize >= n * typeSize * width
    ensures VgrfSize(n, typeSize, width, unit) >= unit ==>
              (VgrfSize(n, typeSize, width, unit) - unit) * RegSize < n * typeSize * width
    ensures n * typeSize * width == 0 <==> VgrfSize(n, typeSize, width, unit) == 0
  {
    var bytes := n * typeSize * width;
    var u := unit * RegSize;
    var q := DivRoundUp(bytes, u);
    assert VgrfSize(n, typeSize, width, unit) == q * unit;
    DivRoundUpBounds(bytes, u);
    assert q * unit * RegSize == q * u;
    if q >= 1 {
      assert (q * unit - unit) * RegSize == (q - 1) * u;
    }
  }

  lemma DivRoundUpBounds(a: nat, b: nat)
    requires b > 0
    ensures DivRoundUp(a, b) * b >= a
    ensures DivRoundUp(a, b) >= 1 ==> (DivRoundUp(a, b) - 1) * b < a
    ensures a == 0 <==> DivRoundUp(a, b) == 0
  {
    var q := (a + b - 1) / b;
    var m := (a + b - 1) % b;
    assert a + b - 1 == q * b + m;
  }

  /** Operand rewrites performed before an instruction is emitted. */
  datatype FixKind = ThreeSource | UnsignedNegate

  /** Whether a source must be copied to a temporary first: for ternary
      instructions, any operand that is not an attribute, virtual
      register, uniform, immediate, or fixed register with the region
      <8;8,1>; for comparisons and selects, a negated unsigned dword. */
  predicate NeedsFix(kind: FixKind, src: Reg) {
    match kind
    case ThreeSource =>
      !(src.file.Attr? || src.file.Vgrf? || src.file.Uniform? || src.file.Imm? ||
        (src.file.FixedGrf? && src.vstride == VStride8 && src.width == Width8 && src.hstride == HStride1))
    case UnsignedNegate => src.regType == UD && src.negate
  }

  /** The opcodes whose ternary form legalises its operands. */
  predicate FixesThreeSource(op: Opcode) {
    op.Bfe? || op.Bfi2? || op.Mad? || op.Lrp?
  }

  predicate IsAlu1Op(op: Opcode) {
    op.Bfrev? || op.Cbit? || op.Fbh? || op.Fbl? || op.Frc? || op.Lzd? || op.Mov? || op.Not? ||
    op.Rndd? || op.Rnde? || op.Rndu? || op.Rndz? ||
    op.Rcp? || op.Rsq? || op.Sqrt? || op.Exp2? || op.Log2Op? || op.Sin? || op.Cos?
  }

  predicate IsAlu2Op(op: Opcode) {
    op.Add? || op.And? || op.Asr? || op.Avg? || op.Bfi1? || op.Dp2? || op.Dp3? || op.Dp4? ||
    op.Dph? || op.Line? || op.Mac? || op.Mul? || op.Or? || op.Pln? || op.Rol? || op.Ror? ||
    op.Sad2? || op.Sel? || op.Shl? || op.Shr? || op.Xor? ||
    op.Pow? || op.IntQuotient? || op.IntRemainder?
  }

  /** Two-source operations that also write the accumulator. */
  predicate IsAlu2AccOp(op: Opcode) {
    op.Addc? || op.Mach? || op.Sada2? || op.Subb?
  }

  predicate IsAlu3Op(op: Opcode) {
    op.Add3? || op.Bfe? || op.Bfi2? || op.Dp4a? || op.Mad?
  }

  predicate IsControlFlowOp(op: Opcode) {
    op.Break? || op.Do? || op.Endif? || op.Nop? || op.While? || op.Continue?
  }

  /** The destination type of a comparison: the first source's type, at
      the destination's width unless the destination is null. */
  function CmpType(dst: Reg, src0: Reg): RegType {
    if IsNull(dst) then src0.regType else WithSize(src0.regType, dst.regType.bits)
  }

  /** A comparison keeps the kind (float or integer) of its first source
      whatever the destination's type, and takes the destination's width
      unless the destination is null. */
  lemma CmpTypeFollowsSource(dst: Reg, src0: Reg)
    ensures CmpType(dst, src0).kind == src0.regType.kind
    ensures IsNull(dst) ==> CmpType(dst, src0) == src0.regType
    ensures !IsNull(dst) ==> CmpType(dst, src0).bits == dst.regType.bits
  {
  }

  /** Result of legalising a list of operands: the operands to use, the
      copies emitted and the virtual registers allocated for them. */
  datatype Fixup = Fixup(regs: seq<Reg>, insts: seq<Inst>, sizes: seq<nat>)

  /** Bytes the payload-gathering instruction writes for the non-header
      sources `srcs`. */
  function ChannelBytes(width: nat, dstStride: nat, srcs: seq<Reg>): nat {
    if srcs == [] then 0
    else ChannelBytes(width, dstStride, srcs[..|srcs| - 1]) + width * SizeBytes(srcs[|srcs| - 1].regType) * dstStride
  }

  /** `size_written` of a payload-gathering instruction: whole registers
      for the header, then one SIMD-wide component per other source. */
  function PayloadBytes(width: nat, dstStride: nat, headerSize: nat, srcs: seq<Reg>): nat {
    headerSize * RegSize + (if headerSize <= |srcs| then ChannelBytes(width, dstStride, srcs[headerSize..]) else 0)
  }

  /** Each further source adds exactly one component's bytes. */
  lemma {:induction false} PayloadBytesAppend(width: nat, dstStride: nat, headerSize: nat, srcs: seq<Reg>, x: Reg)
    requires headerSize <= |srcs|
    ensures PayloadBytes(width, dstStride, headerSize, srcs + [x]) ==
            PayloadBytes(width, dstStride, headerSize, srcs) + width * SizeBytes(x.regType) * dstStride
  {
    var tail := (srcs + [x])[headerSize..];
    assert tail[..|tail| - 1] == srcs[headerSize..];
    assert tail[|tail| - 1] == x;
  }

  /** With no header and `n` sources of one type, the payload is `n`
      components of that type. */
  lemma {:induction false} PayloadBytesUniform(width: nat, t: RegType, srcs: seq<Reg>)
    requires forall i :: 0 <= i < |srcs| ==> srcs[i].regType == t
    ensures PayloadBytes(width, 1, 0, srcs) == |srcs| * SizeBytes(t) * width
    decreases |srcs|
  {
    if srcs != [] {
      var init := srcs[..|srcs| - 1];
      PayloadBytesUniform(width, t, init);
      assert srcs[0..] == srcs && init[0..] == init;
      assert ChannelBytes(width, 1, srcs) == ChannelBytes(width, 1, init) + width * SizeBytes(t);
      assert |srcs| * SizeBytes(t) * width == (|srcs| - 1) * SizeBytes(t) * width + width * SizeBytes(t);
    }
  }

  /** Gathering `n` components into the register `vgrf(type, n)` writes
      within that register's allocation. */
  lemma MoveToVgrfFits(width: nat, t: RegType, srcs: seq<Reg>, unit: RegUnit)
    requires forall i :: 0 <= i < |srcs| ==> srcs[i].regType == t
    ensures PayloadBytes(width, 1, 0, srcs) <= VgrfSize(|srcs|, SizeBytes(t), width, unit) * RegSize
  {
    PayloadBytesUniform(width, t, srcs);
    VgrfSizeIsMinimal(|srcs|, SizeBytes(t), width, unit);
  }

  /** The unsigned 32-bit difference `a - b`. */
  function Sub32(a: nat, b: nat): nat {
    (a - b) % 0x1_0000_0000
  }

  /** What an UNDEF of `dst` declares undefined: from `dst`'s offset to the
      end of its virtual register. When the offset lies inside the
      register, offset plus size is exactly the register's byte size. */
  lemma UndefCoversRest(allocSize: nat, offset: nat)
    requires offset <= allocSize * RegSize < 0x1_0000_0000
    ensures offset + Sub32(allocSize * RegSize, offset) == allocSize * RegSize
  {
  }

  /** The SIMD instruction builder. `cursor` counts the instructions at and
      after the insertion point (0: the end of the program; None: no
      insertion point yet). */
  datatype Builder = Builder(shader: Shader, block: Option<nat>, cursor: Option<nat>,
                             dispatchWidth: nat, group: nat, forceWritemaskAll: bool,
                             annotation: Annotation)
  {
    // -------------------------------------------------------------------
    // Derived builders
    // -------------------------------------------------------------------

    /** The builder inserting in front of `cursor` in `block`. */
    function At(block: Option<nat>, cursor: nat): Builder {
      this.(block := block, cursor := Some(cursor))
    }

    /** The builder appending at the end of the program. */
    function AtEnd(): Builder {
      At(None, 0)
    }

    /** Whether channels `i*n .. i*n+n-1` lie inside this builder's
        channel range. */
    predicate IsSubgroup(n: nat, i: nat)
      requires n > 0
    {
      n <= dispatchWidth && i < dispatchWidth / n
    }

    /** The builder for SIMD width `n` and channel slot `i` (in multiples
        of `n` channels). A slot outside this builder's channels is only
        allowed with the execution mask off, and resets the group to 0. */
    function Group(n: nat, i: nat): (r: Builder)
      requires n > 0
      requires IsSubgroup(n, i) || forceWritemaskAll
      ensures r.dispatchWidth == n
      ensures r == this.(dispatchWidth := n, group := r.group)
      ensures IsSubgroup(n, i) ==> r.group == group + i * n
      ensures IsSubgroup(n, i) ==> group <= r.group && r.group + n <= group + dispatchWidth
      ensures !IsSubgroup(n, i) ==> r.group == 0
    {
      if IsSubgroup(n, i) then
        SubgroupInside(n, i);
        this.(group := group + i * n, dispatchWidth := n)
      else
        this.(group := 0, dispatchWidth := n)
    }

    lemma SubgroupInside(n: nat, i: nat)
      requires n > 0 && IsSubgroup(n, i)
      ensures i * n + n <= dispatchWidth
    {
      assert (i + 1) * n <= dispatchWidth / n * n;
    }

    /** The 8-wide builder for channel slot `i`. */
    function Quarter(i: nat): Builder
      requires IsSubgroup(8, i) || forceWritemaskAll
    {
      Group(8, i)
    }

    /** The builder with the execution mask turned off when `b` holds. */
    function ExecAll(b: bool): Builder {
      if b then this.(forceWritemaskAll := true) else this
    }

    /** The builder attaching annotation `str`/`ir` to what it emits. */
    function Annotate(str: Option<string>, ir: Option<nat>): Builder {
      this.(annotation := Annotation(str, ir))
    }

    /** `inst` with this builder's channel group, mask override and
        annotation. */
    function Stamp(inst: Inst): Inst {
      inst.(group := group, forceWritemaskAll := forceWritemaskAll, annotation := annotation)
    }

    /** The instruction this builder emits for `op` at its own width. */
    function Make(op: Opcode, dst: Reg, srcs: seq<Reg>): Inst {
      Stamp(MakeInst(op, dispatchWidth, dst, srcs))
    }

    /** This builder can emit: it has an insertion point inside the program
        and a width the hardware supports. */
    predicate Ready()
      reads shader
    {
      cursor.Some? && cursor.value <= |shader.insts| && dispatchWidth <= 32
    }

    /** The ALU destination rule: a destination of a multi-channel
        instruction has a nonzero stride. */
    predicate DstStrideOk(dst: Reg) {
      dispatchWidth == 1 || (IsVirtualFile(dst.file) && dst.stride != 0) ||
      (!IsVirtualFile(dst.file) && dst.hstride != 0)
    }

    /** The rewrite of the single operand `src` when the next free
        register is `next`: a copy into that register when `src` needs
        one, else `src` itself. */
    function FixupOf(kind: FixKind, src: Reg, next: nat): (f: Fixup)
      ensures |f.regs| == 1 && |f.insts| == |f.sizes| <= 1
      ensures !NeedsFix(kind, f.regs[0])
      ensures !NeedsFix(kind, src) <==> f.regs[0] == src
      ensures NeedsFix(kind, src) <==> |f.sizes| == 1
      ensures NeedsFix(kind, src) ==> f.regs[0].file.Vgrf? && f.regs[0].nr == next
    {
      if NeedsFix(kind, src) then
        Fixup([VgrfReg(next, src.regType)], [Make(Mov, VgrfReg(next, src.regType), [src])],
              [VgrfSize(1, SizeBytes(src.regType), dispatchWidth, shader.devinfo.regUnit)])
      else Fixup([src], [], [])
    }

    /** The operands an operand-rewrite pass produces, with the copies it
        emits, for operands `srcs` when the next free register is `next`. */
    function Fixups(kind: FixKind, srcs: seq<Reg>, next: nat): (f: Fixup)
      ensures |f.regs| == |srcs| && |f.insts| == |f.sizes|
    {
      if srcs == [] then Fixup([], [], [])
      else
        var first := FixupOf(kind, srcs[0], next);
        var rest := Fixups(kind, srcs[1..], next + |first.sizes|);
        Fixup(first.regs + rest.regs, first.insts + rest.insts, first.sizes + rest.sizes)
    }

    /** Every operand after the rewrite is legal for its use; legal
        operands are kept as they are, and every rewritten one is a new
        virtual register filled by one copy. */
    lemma {:induction false} FixupsAreLegal(kind: FixKind, srcs: seq<Reg>, next: nat)
      ensures forall i :: 0 <= i < |srcs| ==> !NeedsFix(kind, Fixups(kind, srcs, next).regs[i])
      ensures forall i :: 0 <= i < |srcs| && !NeedsFix(kind, srcs[i]) ==> Fixups(kind, srcs, next).regs[i] == srcs[i]
      ensures forall i :: 0 <= i < |srcs| && NeedsFix(kind, srcs[i]) ==>
                Fixups(kind, srcs, next).regs[i].file.Vgrf? &&
                Fixups(kind, srcs, next).regs[i].nr >= next
      ensures |Fixups(kind, srcs, next).insts| <= |srcs|
      decreases |srcs|
    {
      if srcs != [] {
        var f := Fixups(kind, srcs, next);
        var first := FixupOf(kind, srcs[0], next);
        FixupsAreLegal(kind, srcs[1..], next + |first.sizes|);
        var rest := Fixups(kind, srcs[1..], next + |first.sizes|);
        assert f.regs == first.regs + rest.regs && f.insts == first.insts + rest.insts;
        forall i | 1 <= i < |srcs|
          ensures f.regs[i] == rest.regs[i - 1] && srcs[i] == srcs[1..][i - 1]
        {
        }
      }
    }

    // -------------------------------------------------------------------
    // Allocation
    // -------------------------------------------------------------------

    /** Allocates a virtual register for `n` components of type `t` at this
        builder's width; with `n == 0` returns the null register of type
        `t` and allocates nothing. */
    method Vgrf(t: RegType, n: nat) returns (r: Reg)
      requires dispatchWidth <= 32
      modifies shader
      ensures shader.insts == old(shader.insts)
      ensures n > 0 ==> r == VgrfReg(|old(shader.alloc)|, t) &&
                        shader.alloc == old(shader.alloc) + [VgrfSize(n, SizeBytes(t), dispatchWidth, shader.devinfo.regUnit)]
      ensures n == 0 ==> r == NullReg(t) && shader.alloc == old(shader.alloc)
    {
      var unit := shader.devinfo.regUnit;
      if n > 0 {
        var nr := shader.Allocate(DivRoundUp(n * SizeBytes(t) * dispatchWidth, unit * RegSize) * unit);
        r := VgrfReg(nr, t);
      } else {
        r := Retype(NullReg(UD), t);
      }
    }

    // -------------------------------------------------------------------
    // Emission
    // -------------------------------------------------------------------

    /** Stamps `inst` with this builder's group, mask override and
        annotation and inserts it in front of the cursor. */
    method EmitInst(inst: Inst) returns (r: Inst)
      requires Ready()
      requires inst.execSize <= 32
      requires inst.execSize == dispatchWidth || forceWritemaskAll
      modifies shader
      ensures Ready()
      ensures r == Stamp(inst)
      ensures Emitted(old(shader.insts), shader.insts, cursor.value, [r])
      ensures shader.alloc == old(shader.alloc)
    {
      r := inst.(group := group, forceWritemaskAll := forceWritemaskAll, annotation := annotation);
      shader.InsertBefore(cursor.value, r);
    }

    /** The nullary, unary, binary and generic forms: an instruction at this
        builder's width with the given destination and sources. */
    method EmitRaw(op: Opcode, dst: Reg, srcs: seq<Reg>) returns (r: Inst)
      requires Ready()
      modifies shader
      ensures Ready()
      ensures r == Make(op, dst, srcs)
      ensures Emitted(old(shader.insts), shader.insts, cursor.value, [r])
      ensures shader.alloc == old(shader.alloc)
    {
      r := EmitInst(MakeInst(op, dispatchWidth, dst, srcs));
    }

    /** The instruction `inst` (built at this width) after its operands
        have gone through `Fixups`. */
    method EmitFixed(kind: FixKind, inst: Inst) returns (r: Inst)
      requires Ready()
      requires inst.execSize == dispatchWidth
      modifies shader
      ensures Ready()
      ensures var f := Fixups(kind, inst.srcs, |old(shader.alloc)|);
              r == Stamp(inst.(srcs := f.regs)) &&
              shader.alloc == old(shader.alloc) + f.sizes &&
              Emitted(old(shader.insts), shader.insts, cursor.value, f.insts + [r])
    {
      var regs := FixOperands(kind, inst.srcs);
      ghost var mid := shader.insts;
      r := EmitInst(inst.(srcs := regs));
      EmittedTrans(old(shader.insts), mid, shader.insts, cursor.value,
                   Fixups(kind, inst.srcs, |old(shader.alloc)|).insts, [r]);
    }

    /** Rewrites each operand of `srcs` in turn, left to right. */
    method FixOperands(kind: FixKind, srcs: seq<Reg>) returns (regs: seq<Reg>)
      requires Ready()
      modifies shader
      ensures Ready()
      ensures var f := Fixups(kind, srcs, |old(shader.alloc)|);
              regs == f.regs && shader.alloc == old(shader.alloc) + f.sizes &&
              Emitted(old(shader.insts), shader.insts, cursor.value, f.insts)
      decreases |srcs|
    {
      if srcs == [] {
        regs := [];
        EmittedNothing(shader.insts, cursor.value);
      } else {
        ghost var a0, i0 := shader.alloc, shader.insts;
        var first := FixOperand(kind, srcs[0]);
        ghost var a1, i1 := shader.alloc, shader.insts;
        var rest := FixOperands(kind, srcs[1..]);
        regs := [first] + rest;
        FixupsJoin(kind, srcs, first, rest, a0, a1, shader.alloc, i0, i1, shader.insts, cursor.value);
      }
    }

    /** Joins the rewrite of the first operand and that of the rest into
        the rewrite of the whole list. */
    lemma FixupsJoin(kind: FixKind, srcs: seq<Reg>, first: Reg, rest: seq<Reg>,
                     a0: seq<nat>, a1: seq<nat>, a2: seq<nat>,
                     i0: seq<Inst>, i1: seq<Inst>, i2: seq<Inst>, c: nat)
      requires srcs != []
      requires var head := Fixups(kind, [srcs[0]], |a0|);
               [first] == head.regs && a1 == a0 + head.sizes && Emitted(i0, i1, c, head.insts)
      requires var tail := Fixups(kind, srcs[1..], |a1|);
               rest == tail.regs && a2 == a1 + tail.sizes && Emitted(i1, i2, c, tail.insts)
      ensures var f := Fixups(kind, srcs, |a0|);
              [first] + rest == f.regs && a2 == a0 + f.sizes && Emitted(i0, i2, c, f.insts)
    {
      var head := Fixups(kind, [srcs[0]], |a0|);
      var tail := Fixups(kind, srcs[1..], |a1|);
      assert |a1| == |a0| + |head.sizes|;
      FixupsCons(kind, srcs, |a0|, head, tail);
      AppendTwice(a0, head.sizes, tail.sizes);
      EmittedTrans(i0, i1, i2, c, head.insts, tail.insts);
    }

    /** The rewrite of a list is the rewrite of its first operand followed
        by that of the rest, numbered from the next free register. */
    lemma FixupsCons(kind: FixKind, srcs: seq<Reg>, next: nat, head: Fixup, tail: Fixup)
      requires srcs != []
      requires head == Fixups(kind, [srcs[0]], next)
      requires tail == Fixups(kind, srcs[1..], next + |head.sizes|)
      ensures Fixups(kind, srcs, next) == Fixup(head.regs + tail.regs, head.insts + tail.insts, head.sizes + tail.sizes)
    {
      var first := FixupOf(kind, srcs[0], next);
      assert [srcs[0]][1..] == [];
      assert head == Fixup(first.regs + [], first.insts + [], first.sizes + []);
      assert head == first;
    }

    /** `fix_3src_operand` / `fix_unsigned_negate`: an operand that needs
        it is copied by one MOV into a new virtual register of its type. */
    method FixOperand(kind: FixKind, src: Reg) returns (r: Reg)
      requires Ready()
      modifies shader
      ensures Ready()
      ensures var f := Fixups(kind, [src], |old(shader.alloc)|);
              [r] == f.regs && shader.alloc == old(shader.alloc) + f.sizes &&
              Emitted(old(shader.insts), shader.insts, cursor.value, f.insts)
    {
      if NeedsFix(kind, src) {
        r := Vgrf(src.regType, 1);
        var mov := Alu1(Mov, r, src);
      } else {
        r := src;
        EmittedNothing(shader.insts, cursor.value);
      }
    }

    /** The ternary form: BFE, BFI2, MAD and LRP legalise their operands
        first; other opcodes take them as given. */
    method EmitTernary(op: Opcode, dst: Reg, src0: Reg, src1: Reg, src2: Reg) returns (r: Inst)
      requires Ready()
      modifies shader
      ensures Ready()
      ensures FixesThreeSource(op) ==>
                var f := Fixups(ThreeSource, [src0, src1, src2], |old(shader.alloc)|);
                r == Make(op, dst, f.regs) && shader.alloc == old(shader.alloc) + f.sizes &&
                Emitted(old(shader.insts), shader.insts, cursor.value, f.insts + [r])
      ensures !FixesThreeSource(op) ==>
                r == Make(op, dst, [src0, src1, src2]) && shader.alloc == old(shader.alloc) &&
                Emitted(old(shader.insts), shader.insts, cursor.value, [r])
    {
      if FixesThreeSource(op) {
        r := EmitFixed(ThreeSource, MakeInst(op, dispatchWidth, dst, [src0, src1, src2]));
      } else {
        r := EmitRaw(op, dst, [src0, src1, src2]);
      }
    }

    /** The variadic form: three sources go through the ternary form, any
        other count is emitted as given. */
    method EmitSources(op: Opcode, dst: Reg, srcs: seq<Reg>) returns (r: Inst)
      requires Ready()
      modifies shader
      ensures Ready()
      ensures |srcs| == 3 && FixesThreeSource(op) ==>
                var f := Fixups(ThreeSource, srcs, |old(shader.alloc)|);
                r == Make(op, dst, f.regs) && shader.alloc == old(shader.alloc) + f.sizes &&
                Emitted(old(shader.insts), shader.insts, cursor.value, f.insts + [r])
      ensures !(|srcs| == 3 && FixesThreeSource(op)) ==>
                r == Make(op, dst, srcs) && shader.alloc == old(shader.alloc) &&
                Emitted(old(shader.insts), shader.insts, cursor.value, [r])
    {
      if |srcs| == 3 {
        assert [srcs[0], srcs[1], srcs[2]] == srcs;
        r := EmitTernary(op, dst, srcs[0], srcs[1], srcs[2]);
      } else {
        // two sources take the binary form, which adds nothing to the
        // generic one
        r := EmitRaw(op, dst, srcs);
      }
    }

    // -------------------------------------------------------------------
    // Arithmetic families
    // -------------------------------------------------------------------

    /** One-source operation into `dst`. */
    method Alu1(op: Opcode, dst: Reg, src0: Reg) returns (r: Inst)
      requires Ready() && IsAlu1Op(op) && DstStrideOk(dst)
      modifies shader
      ensures Ready()
      ensures r == Make(op, dst, [src0]) && r.srcs == [src0]
      ensures Emitted(old(shader.insts), shader.insts, cursor.value, [r])
      ensures shader.alloc == old(shader.alloc)
    {
      r := EmitRaw(op, dst, [src0]);
    }

    /** One-source operation into a new register of the source's type. */
    method Alu1New(op: Opcode, src0: Reg) returns (dst: Reg, r: Inst)
      requires Ready() && IsAlu1Op(op)
      modifies shader
      ensures Ready()
      ensures dst == VgrfReg(|old(shader.alloc)|, src0.regType) && r == Make(op, dst, [src0])
      ensures shader.alloc == old(shader.alloc) + [VgrfSize(1, SizeBytes(src0.regType), dispatchWidth, shader.devinfo.regUnit)]
      ensures Emitted(old(shader.insts), shader.insts, cursor.value, [r])
    {
      dst := Vgrf(src0.regType, 1);
      r := Alu1(op, dst, src0);
    }

    /** Two-source operation into `dst`. */
    method Alu2(op: Opcode, dst: Reg, src0: Reg, src1: Reg) returns (r: Inst)
      requires Ready() && IsAlu2Op(op)
      modifies shader
      ensures Ready()
      ensures r == Make(op, dst, [src0, src1])
      ensures Emitted(old(shader.insts), shader.insts, cursor.value, [r])
      ensures shader.alloc == old(shader.alloc)
    {
      r := EmitRaw(op, dst, [src0, src1]);
    }

    /** Two-source operation into a new register of the wider source
        type. */
    method Alu2New(op: Opcode, src0: Reg, src1: Reg) returns (dst: Reg, r: Inst)
      requires Ready() && IsAlu2Op(op)
      modifies shader
      ensures Ready()
      ensures dst == VgrfReg(|old(shader.alloc)|, LargerOf(src0.regType, src1.regType))
      ensures dst.regType.bits >= src0.regType.bits && dst.regType.bits >= src1.regType.bits
      ensures r == Make(op, dst, [src0, src1])
      ensures shader.alloc == old(shader.alloc) + [VgrfSize(1, SizeBytes(dst.regType), dispatchWidth, shader.devinfo.regUnit)]
      ensures Emitted(old(shader.insts), shader.insts, cursor.value, [r])
    {
      dst := Vgrf(LargerOf(src0.regType, src1.regType), 1);
      r := Alu2(op, dst, src0, src1);
    }

    /** Two-source operation that also writes the accumulator. */
    method Alu2Acc(op: Opcode, dst: Reg, src0: Reg, src1: Reg) returns (r: Inst)
      requires Ready() && IsAlu2AccOp(op)
      modifies shader
      ensures Ready()
      ensures r == Make(op, dst, [src0, src1]).(writesAccumulator := true)
      ensures Emitted(old(shader.insts), shader.insts, cursor.value, [r])
      ensures shader.alloc == old(shader.alloc)
    {
      r := EmitInst(MakeInst(op, dispatchWidth, dst, [src0, src1]).(writesAccumulator := true));
    }

    /** Three-source operation into `dst`, through the ternary form. */
    method Alu3(op: Opcode, dst: Reg, src0: Reg, src1: Reg, src2: Reg) returns (r: Inst)
      requires Ready() && IsAlu3Op(op)
      modifies shader
      ensures Ready()
      ensures FixesThreeSource(op) ==>
                var f := Fixups(ThreeSource, [src0, src1, src2], |old(shader.alloc)|);
                r == Make(op, dst, f.regs) && shader.alloc == old(shader.alloc) + f.sizes &&
                Emitted(old(shader.insts), shader.insts, cursor.value, f.insts + [r])
      ensures !FixesThreeSource(op) ==>
                r == Make(op, dst, [src0, src1, src2]) && shader.alloc == old(shader.alloc) &&
                Emitted(old(shader.insts), shader.insts, cursor.value, [r])
    {
      r := EmitTernary(op, dst, src0, src1, src2);
    }

    /** BREAK, DO, ENDIF, NOP, WHILE and CONTINUE. */
    method ControlFlow(op: Opcode) returns (r: Inst)
      requires Ready() && IsControlFlowOp(op)
      modifies shader
      ensures Ready()
      ensures r == Make(op, UndefReg, [])
      ensures Emitted(old(shader.insts), shader.insts, cursor.value, [r])
      ensures shader.alloc == old(shader.alloc)
    {
      r := EmitRaw(op, UndefReg, []);
    }
  
    // -------------------------------------------------------------------
    // Null registers
    // -------------------------------------------------------------------

    /** `null_reg_f`, `null_reg_df`, `null_reg_d`, `null_reg_ud`: the null
        register at type `t`. */
    function NullRegOf(t: RegType): (r: Reg)
      ensures IsNull(r) && r.regType == t && !IsVirtualFile(r.file)
    {
      Retype(NullReg(UD), t)
    }

    // -------------------------------------------------------------------
    // Compound operations
    // -------------------------------------------------------------------

    /** SEL with conditional modifier GE (maximum) or L (minimum), its
        operands first cleared of negated unsigned dwords. */
    method EmitMinmax(dst: Reg, src0: Reg, src1: Reg, mod: CondMod) returns (r: Inst)
      requires Ready() && (mod == CondGe || mod == CondL)
      modifies shader
      ensures Ready()
      ensures var f := Fixups(UnsignedNegate, [src0, src1], |old(shader.alloc)|);
              r == Make(Sel, dst, f.regs).(condMod := mod) && shader.alloc == old(shader.alloc) + f.sizes &&
              Emitted(old(shader.insts), shader.insts, cursor.value, f.insts + [r])
    {
      r := EmitFixed(UnsignedNegate, MakeInst(Sel, dispatchWidth, dst, [src0, src1]).(condMod := mod));
    }

    /** Copies some live channel of `src` into channel 0 of a new register
        and returns that channel as a scalar. */
    method EmitUniformize(src: Reg) returns (r: Reg)
      requires Ready()
      modifies shader
      ensures Ready()
      ensures var n := |old(shader.alloc)|;
              var ubld := ExecAll(true);
              var chanIndex := VgrfReg(n, UD);
              var dst := VgrfReg(n + 1, src.regType);
              r == Component(dst, 0) &&
              shader.alloc == old(shader.alloc) + [VgrfSize(1, SizeBytes(UD), dispatchWidth, shader.devinfo.regUnit),
                                                   VgrfSize(1, SizeBytes(src.regType), dispatchWidth, shader.devinfo.regUnit)] &&
              Emitted(old(shader.insts), shader.insts, cursor.value,
                      [ubld.Make(FindLiveChannel, chanIndex, []),
                       ubld.Make(Broadcast, dst, [src, Component(chanIndex, 0)])])
      ensures r.stride == 0 && r.file.Vgrf? && r.regType == src.regType
    {
      var ubld := ExecAll(true);
      var chanIndex := Vgrf(UD, 1);
      var dst := Vgrf(src.regType, 1);
      ghost var start := shader.insts;
      var find := ubld.EmitRaw(FindLiveChannel, chanIndex, []);
      ghost var mid := shader.insts;
      var broadcast := ubld.EmitRaw(Broadcast, dst, [src, Component(chanIndex, 0)]);
      EmittedTrans(start, mid, shader.insts, cursor.value, [find], [broadcast]);
      r := Component(dst, 0);
    }

    /** The `n` SIMD-wide components of `src`, in order. */
    function Components(src: Reg, n: nat): (comps: seq<Reg>)
      ensures |comps| == n
      ensures forall i :: 0 <= i < n ==> comps[i].regType == src.regType
    {
      seq(n, (i: nat) => Offset(src, dispatchWidth, i))
    }

    /** Gathers the `n` components of `src` into one new virtual register
        (the null register when `n == 0`) with a single payload load. */
    method MoveToVgrf(src: Reg, n: nat) returns (dst: Reg)
      requires Ready()
      modifies shader
      ensures Ready()
      ensures n > 0 ==> dst == VgrfReg(|old(shader.alloc)|, src.regType) &&
                        shader.alloc == old(shader.alloc) + [VgrfSize(n, SizeBytes(src.regType), dispatchWidth, shader.devinfo.regUnit)]
      ensures n == 0 ==> dst == NullReg(src.regType) && shader.alloc == old(shader.alloc)
      ensures var comps := Components(src, n);
              Emitted(old(shader.insts), shader.insts, cursor.value,
                      [Make(LoadPayload, dst, comps).(sizeWritten := Bytes(PayloadBytes(dispatchWidth, dst.stride, 0, comps)))])
      ensures n > 0 ==> PayloadBytes(dispatchWidth, dst.stride, 0, Components(src, n)) <= shader.alloc[dst.nr] * RegSize
    {
      var comps := new Reg[n];
      var i := 0;
      while i < n
        invariant 0 <= i <= n
        invariant forall k :: 0 <= k < i ==> comps[k] == Offset(src, dispatchWidth, k)
        modifies comps
      {
        comps[i] := Offset(src, dispatchWidth, i);
        i := i + 1;
      }
      assert comps[..] == Components(src, n);
      dst := Vgrf(src.regType, n);
      var load := EmitLoadPayload(dst, comps[..], 0);
      if n > 0 {
        MoveToVgrfFits(dispatchWidth, src.regType, comps[..], shader.devinfo.regUnit);
      }
    }

    /** A comparison (CMP, or CMPN which also holds when the second source
        is NaN) with conditional modifier `cond`; the destination takes
        `CmpType`, and negated unsigned dword operands are copied first. */
    method Compare(op: Opcode, dst: Reg, src0: Reg, src1: Reg, cond: CondMod) returns (r: Inst)
      requires Ready() && (op == Cmp || op == Cmpn)
      modifies shader
      ensures Ready()
      ensures var f := Fixups(UnsignedNegate, [src0, src1], |old(shader.alloc)|);
              r == Make(op, Retype(dst, CmpType(dst, src0)), f.regs).(condMod := cond) &&
              shader.alloc == old(shader.alloc) + f.sizes &&
              Emitted(old(shader.insts), shader.insts, cursor.value, f.insts + [r])
    {
      var t := if IsNull(dst) then src0.regType else WithSize(src0.regType, dst.regType.bits);
      r := EmitFixed(UnsignedNegate, MakeInst(op, dispatchWidth, Retype(dst, t), [src0, src1]).(condMod := cond));
    }

    /** A predicated IF. */
    method IfOp(pred: PredMode) returns (r: Inst)
      requires Ready()
      modifies shader
      ensures Ready()
      ensures r == Make(If, UndefReg, []).(pred := pred)
      ensures Emitted(old(shader.insts), shader.insts, cursor.value, [r])
      ensures shader.alloc == old(shader.alloc)
    {
      r := EmitInst(MakeInst(If, dispatchWidth, UndefReg, []).(pred := pred));
    }

    /** CSEL: `dst = src2 <cond> 0.0 ? src0 : src1`, all in single-precision
        float; `src2` must already be a float. */
    method EmitCsel(dst: Reg, src0: Reg, src1: Reg, src2: Reg, cond: CondMod) returns (r: Inst)
      requires Ready() && src2.regType == F
      modifies shader
      ensures Ready()
      ensures r == Make(Csel, Retype(dst, F), [Retype(src0, F), Retype(src1, F), src2]).(condMod := cond)
      ensures forall i :: 0 <= i < |r.srcs| ==> r.srcs[i].regType == F
      ensures Emitted(old(shader.insts), shader.insts, cursor.value, [r])
      ensures shader.alloc == old(shader.alloc)
    {
      r := EmitInst(MakeInst(Csel, dispatchWidth, Retype(dst, F), [Retype(src0, F), Retype(src1, F), src2]).(condMod := cond));
    }

    /** The four instructions computing `x*(1-a) + y*a` in the temporaries
        `n`, `n+1`, `n+2`. */
    function LrpLowered(dst: Reg, x: Reg, y: Reg, a: Reg, n: nat): seq<Inst> {
      var t := dst.regType;
      [Make(Mul, VgrfReg(n, t), [y, a]),
       Make(Add, VgrfReg(n + 1, t), [Negate(a), ImmReg(F, OneF)]),
       Make(Mul, VgrfReg(n + 2, t), [x, VgrfReg(n + 1, t)]),
       Make(Add, dst, [VgrfReg(n + 2, t), VgrfReg(n, t)])]
    }

    /** Linear interpolation `x*(1-a) + y*a`: the native instruction (which
        takes its operands as a, y, x) up to version 10, three temporaries
        and four instructions after. */
    method EmitLrp(dst: Reg, x: Reg, y: Reg, a: Reg) returns (r: Inst)
      requires Ready()
      modifies shader
      ensures Ready()
      ensures shader.devinfo.ver <= 10 ==>
                var f := Fixups(ThreeSource, [a, y, x], |old(shader.alloc)|);
                r == Make(Lrp, dst, f.regs) && shader.alloc == old(shader.alloc) + f.sizes &&
                Emitted(old(shader.insts), shader.insts, cursor.value, f.insts + [r])
      ensures shader.devinfo.ver > 10 ==>
                var n := |old(shader.alloc)|;
                var size := VgrfSize(1, SizeBytes(dst.regType), dispatchWidth, shader.devinfo.regUnit);
                shader.alloc == old(shader.alloc) + [size, size, size] &&
                r == LrpLowered(dst, x, y, a, n)[3] &&
                Emitted(old(shader.insts), shader.insts, cursor.value, LrpLowered(dst, x, y, a, n))
    {
      if shader.devinfo.ver <= 10 {
        r := EmitTernary(Lrp, dst, a, y, x);
      } else {
        r := EmitLrpLowered(dst, x, y, a);
      }
    }

    /** `x*(1-a) + y*a` in three new temporaries. */
    method EmitLrpLowered(dst: Reg, x: Reg, y: Reg, a: Reg) returns (r: Inst)
      requires Ready()
      modifies shader
      ensures Ready()
      ensures var n := |old(shader.alloc)|;
              var size := VgrfSize(1, SizeBytes(dst.regType), dispatchWidth, shader.devinfo.regUnit);
              shader.alloc == old(shader.alloc) + [size, size, size] &&
              r == LrpLowered(dst, x, y, a, n)[3] &&
              Emitted(old(shader.insts), shader.insts, cursor.value, LrpLowered(dst, x, y, a, n))
    {
      ghost var n := |shader.alloc|;
      var yTimesA := Vgrf(dst.regType, 1);
      var oneMinusA := Vgrf(dst.regType, 1);
      var xTimesOneMinusA := Vgrf(dst.regType, 1);
      ghost var s0 := shader.insts;
      var i0 := Alu2(Mul, yTimesA, y, a);
      ghost var s1 := shader.insts;
      var i1 := Alu2(Add, oneMinusA, Negate(a), ImmReg(F, OneF));
      ghost var s2 := shader.insts;
      var i2 := Alu2(Mul, xTimesOneMinusA, x, oneMinusA);
      ghost var s3 := shader.insts;
      r := Alu2(Add, dst, xTimesOneMinusA, yTimesA);
      EmittedTrans(s0, s1, s2, cursor.value, [i0], [i1]);
      EmittedTrans(s0, s2, s3, cursor.value, [i0] + [i1], [i2]);
      EmittedTrans(s0, s3, shader.insts, cursor.value, [i0] + [i1] + [i2], [r]);
      assert [i0] + [i1] + [i2] + [r] == LrpLowered(dst, x, y, a, n);
    }

    /** Gathers `srcs` into consecutive registers of `dst`; the first
        `headerSize` sources fill whole registers. */
    method EmitLoadPayload(dst: Reg, srcs: seq<Reg>, headerSize: nat) returns (r: Inst)
      requires Ready()
      modifies shader
      ensures Ready()
      ensures r == Make(LoadPayload, dst, srcs).(headerSize := headerSize,
                                                 sizeWritten := Bytes(PayloadBytes(dispatchWidth, dst.stride, headerSize, srcs)))
      ensures Emitted(old(shader.insts), shader.insts, cursor.value, [r])
      ensures shader.alloc == old(shader.alloc)
    {
      var size := headerSize * RegSize;
      var i := headerSize;
      while i < |srcs|
        invariant headerSize <= |srcs| ==>
                    headerSize <= i <= |srcs| &&
                    size == headerSize * RegSize + ChannelBytes(dispatchWidth, dst.stride, srcs[headerSize..i])
        invariant headerSize > |srcs| ==> i == headerSize && size == headerSize * RegSize
        decreases |srcs| - i
      {
        assert srcs[headerSize..i + 1][..i - headerSize] == srcs[headerSize..i];
        size := size + dispatchWidth * SizeBytes(srcs[i].regType) * dst.stride;
        i := i + 1;
      }
      assert headerSize <= |srcs| ==> srcs[headerSize..i] == srcs[headerSize..];
      r := EmitInst(MakeInst(LoadPayload, dispatchWidth, dst, srcs).(headerSize := headerSize, sizeWritten := Bytes(size)));
    }

    /** One MOV per source into the consecutive components of `dst`. */
    function VecMovs(dst: Reg, srcs: seq<Reg>): seq<Inst> {
      seq(|srcs|, i requires 0 <= i < |srcs| => Make(Mov, Offset(dst, dispatchWidth, i), [srcs[i]]))
    }

    /** Fills component `i` of `dst` from `srcs[i]`, one MOV each. */
    method Vec(dst: Reg, srcs: seq<Reg>)
      requires Ready() && (|srcs| > 0 ==> DstStrideOk(dst))
      modifies shader
      ensures Ready()
      ensures Emitted(old(shader.insts), shader.insts, cursor.value, VecMovs(dst, srcs))
      ensures shader.alloc == old(shader.alloc)
    {
      EmittedNothing(shader.insts, cursor.value);
      var i := 0;
      while i < |srcs|
        invariant 0 <= i <= |srcs| && Ready()
        invariant Emitted(old(shader.insts), shader.insts, cursor.value, VecMovs(dst, srcs[..i]))
        invariant shader.alloc == old(shader.alloc)
      {
        ghost var before := shader.insts;
        var mov := Alu1(Mov, Offset(dst, dispatchWidth, i), srcs[i]);
        assert VecMovs(dst, srcs[..i + 1]) == VecMovs(dst, srcs[..i]) + [mov];
        EmittedTrans(old(shader.insts), before, shader.insts, cursor.value, VecMovs(dst, srcs[..i]), [mov]);
        i := i + 1;
      }
      assert srcs[..i] == srcs;
    }

    /** A SYNC with function `sync`. */
    method SyncOp(sync: nat) returns (r: Inst)
      requires Ready()
      modifies shader
      ensures Ready()
      ensures r == Make(Sync, NullRegOf(UD), [ImmReg(UD, sync)])
      ensures Emitted(old(shader.insts), shader.insts, cursor.value, [r])
      ensures shader.alloc == old(shader.alloc)
    {
      r := EmitRaw(Sync, NullRegOf(UD), [ImmReg(UD, sync)]);
    }

    /** Declares the rest of virtual register `dst`, from its offset on,
        undefined. */
    method UndefOp(dst: Reg) returns (r: Inst)
      requires Ready()
      requires dst.file.Vgrf? && dst.offset % RegSize == 0 && dst.nr < |shader.alloc|
      modifies shader
      ensures Ready()
      ensures r == Make(Undef, Retype(dst, UD), []).(sizeWritten := Bytes(Sub32(old(shader.alloc)[dst.nr] * RegSize, dst.offset)))
      ensures Emitted(old(shader.insts), shader.insts, cursor.value, [r])
      ensures shader.alloc == old(shader.alloc)
    {
      var size := Sub32(shader.alloc[dst.nr] * RegSize, dst.offset);
      r := EmitInst(MakeInst(Undef, dispatchWidth, Retype(dst, UD), []).(sizeWritten := Bytes(size)));
    }

    /** An UNDEF covering exactly what `old` writes. */
    method EmitUndefForDst(oldInst: Inst) returns (r: Inst)
      requires Ready() && oldInst.dst.file.Vgrf?
      modifies shader
      ensures Ready()
      ensures r == Make(Undef, Retype(oldInst.dst, UD), []).(sizeWritten := oldInst.sizeWritten)
      ensures r.dst.nr == oldInst.dst.nr && r.dst.offset == oldInst.dst.offset
      ensures Emitted(old(shader.insts), shader.insts, cursor.value, [r])
      ensures shader.alloc == old(shader.alloc)
    {
      r := EmitInst(MakeInst(Undef, dispatchWidth, Retype(oldInst.dst, UD), []).(sizeWritten := oldInst.sizeWritten));
    }

    /** Bytes a DPAS writes: `rcount` rows of one register unit, halved for
        half-float results. */
    function DpasBytes(dst: Reg, rcount: nat): nat {
      var unit := shader.devinfo.regUnit;
      if dst.regType == HF then unit * rcount * RegSize / 2 else unit * rcount * RegSize
    }

    /** The systolic dot-product-accumulate. */
    method DpasOp(dst: Reg, src0: Reg, src1: Reg, src2: Reg, sdepth: nat, rcount: nat) returns (r: Inst)
      requires Ready()
      requires dispatchWidth == 8 * shader.devinfo.regUnit
      requires sdepth == 8 && (rcount == 1 || rcount == 2 || rcount == 4 || rcount == 8)
      modifies shader
      ensures Ready()
      ensures r == Make(Dpas, dst, [src0, src1, src2]).(sdepth := sdepth, rcount := rcount,
                                                        sizeWritten := Bytes(DpasBytes(dst, rcount)))
      ensures Emitted(old(shader.insts), shader.insts, cursor.value, [r])
      ensures shader.alloc == old(shader.alloc)
    {
      var unit := shader.devinfo.regUnit;
      var size := if dst.regType == HF then unit * rcount * RegSize / 2 else unit * rcount * RegSize;
      r := EmitInst(MakeInst(Dpas, dispatchWidth, dst, [src0, src1, src2]).(sdepth := sdepth, rcount := rcount, sizeWritten := Bytes(size)));
    }

    /** At the width DPAS runs at, it writes `rcount` rows of one channel
        per lane: 2 bytes each for half floats, 4 bytes otherwise. */
    lemma DpasWritesRows(dst: Reg, rcount: nat)
      requires dispatchWidth == 8 * shader.devinfo.regUnit
      ensures dst.regType == HF ==> DpasBytes(dst, rcount) == rcount * dispatchWidth * SizeBytes(HF)
      ensures dst.regType != HF ==> DpasBytes(dst, rcount) == rcount * dispatchWidth * SizeBytes(D)
    {
      var unit := shader.devinfo.regUnit;
      assert unit * rcount * RegSize == rcount * (8 * unit) * 4;
      assert unit * rcount * RegSize / 2 == rcount * (8 * unit) * 2;
    }

    // -------------------------------------------------------------------
    // Scans
    // -------------------------------------------------------------------

    /** 64-bit integer elements the device cannot combine natively; their
        scan steps work on 32-bit halves. */
    predicate Lowered64(t: RegType) {
      (t == Q || t == UQ) && (!shader.devinfo.has64bitInt || shader.devinfo.ver >= 20)
    }

    /** The scans the builder supports on `tmp`: any operation on natively
        handled types; on lowered 64-bit types only MUL, and SEL as a
        minimum (L) or maximum (GE), of a register that is not negated and
        whose halves can be written in place. */
    predicate ScanOpOk(op: Opcode, mod: CondMod, tmp: Reg) {
      Lowered64(tmp.regType) ==> op == Mul || (op == Sel && (mod == CondL || mod == CondGe) && ScanRegOk(tmp))
    }

    /** What one step demands: the operation is supported and, for a
        lowered SEL, both halves of the right operand are legal MOV
        destinations at this builder's width. */
    predicate StepOk(op: Opcode, mod: CondMod, tmp: Reg, ro: nat, rs: nat) {
      Lowered64(tmp.regType) ==>
        op == Mul ||
        (op == Sel && (mod == CondL || mod == CondGe) && !tmp.negate &&
         DstStrideOk(Subscript(ScanOperand(tmp, ro, rs), UD, 0)) &&
         DstStrideOk(Subscript(ScanOperand(tmp, ro, rs), WithSize(tmp.regType, 32), 1)))
    }

    /** The builder every scan step runs on: mask off, width `w`, same
        channel group. */
    function StepBuilder(w: nat): Builder {
      this.(forceWritemaskAll := true, dispatchWidth := w)
    }

    /** The five instructions of a 64-bit SEL on 32-bit halves (see
        `LoweredSelFlag`): three comparisons leaving the flag set where
        `left` wins under `strict`, and two moves predicated on it. */
    function LoweredSelInsts(strict: CondMod, left: Reg, right: Reg): seq<Inst> {
      var t32 := WithSize(left.regType, 32);
      var leftLow := Subscript(left, UD, 0);
      var rightLow := Subscript(right, UD, 0);
      var leftHigh := Subscript(left, t32, 1);
      var rightHigh := Subscript(right, t32, 1);
      [CompareInst(Retype(leftLow, UD), Retype(rightLow, UD), strict, NoPredicate, false),
       CompareInst(leftHigh, rightHigh, CondEq, PredicateNormal, false),
       CompareInst(leftHigh, rightHigh, strict, PredicateNormal, true),
       Make(Mov, rightLow, [leftLow]).(pred := PredicateNormal),
       Make(Mov, rightHigh, [leftHigh]).(pred := PredicateNormal)]
    }

    /** A comparison into the null register, with its predicate set. */
    function CompareInst(a: Reg, b: Reg, cond: CondMod, pred: PredMode, inverse: bool): Inst {
      var nullUd := NullRegOf(UD);
      Make(Cmp, Retype(nullUd, CmpType(nullUd, a)), [a, b]).(condMod := cond, pred := pred, predInverse := inverse)
    }

    /** The instructions of one scan step at this builder's width: lane `j`
        combines channel `lo + j*ls` of `tmp` into channel `ro + j*rs`.
        Natively that is one instruction; a lowered 64-bit SEL compares the
        halves (low unsigned, then high for equality, then high with the
        strict condition where the flag is still clear) and moves both
        halves where the flag ends up set. */
    function StepInsts(op: Opcode, mod: CondMod, tmp: Reg, lo: nat, ls: nat, ro: nat, rs: nat): seq<Inst> {
      var left := ScanOperand(tmp, lo, ls);
      var right := ScanOperand(tmp, ro, rs);
      if Lowered64(tmp.regType) && op == Sel then
        LoweredSelInsts(if mod == CondGe then CondG else mod, left, right)
      else
        [Make(op, right, [left, right]).(condMod := mod)]
    }

    /** The instructions of one step of a scan plan, on the step builder of
        the step's width. */
    function StepOf(op: Opcode, mod: CondMod, s: ScanStep<Reg>): seq<Inst> {
      StepBuilder(s.width).StepInsts(op, mod, s.tmp, s.leftOffset, s.leftStride, s.rightOffset, s.rightStride)
    }

    /** The instructions of a list of scan steps, in order. */
    function ScanInsts(op: Opcode, mod: CondMod, steps: seq<ScanStep<Reg>>): seq<Inst> {
      ConcatMap((s: ScanStep<Reg>) => StepOf(op, mod, s), steps)
    }

    lemma ScanInstsAppend(op: Opcode, mod: CondMod, a: seq<ScanStep<Reg>>, b: seq<ScanStep<Reg>>)
      ensures ScanInsts(op, mod, a + b) == ScanInsts(op, mod, a) + ScanInsts(op, mod, b)
    {
      ConcatMapAppend((s: ScanStep<Reg>) => StepOf(op, mod, s), a, b);
    }

    lemma ScanInstsSingle(op: Opcode, mod: CondMod, s: ScanStep<Reg>)
      ensures ScanInsts(op, mod, [s]) == StepOf(op, mod, s)
    {
      ConcatMapSingle((s: ScanStep<Reg>) => StepOf(op, mod, s), s);
    }

    /** Builders that differ only in width and mask override emit the
        same scan steps. */
    lemma ScanInstsShared(other: Builder, op: Opcode, mod: CondMod, steps: seq<ScanStep<Reg>>)
      requires other.shader == shader && other.block == block && other.cursor == cursor
      requires other.group == group && other.annotation == annotation
      ensures other.ScanInsts(op, mod, steps) == ScanInsts(op, mod, steps)
    {
      var f := (s: ScanStep<Reg>) => other.StepOf(op, mod, s);
      var g := (s: ScanStep<Reg>) => StepOf(op, mod, s);
      forall i | 0 <= i < |steps|
        ensures f(steps[i]) == g(steps[i])
      {
        assert other.StepBuilder(steps[i].width) == StepBuilder(steps[i].width);
      }
      ConcatMapCongruent(f, g, steps);
    }

    /** Every instruction of a scan step runs with the mask off in this
        builder's channel group. */
    lemma StepMaskOff(op: Opcode, mod: CondMod, s: ScanStep<Reg>)
      ensures forall k :: 0 <= k < |StepOf(op, mod, s)| ==> MaskOffIn(StepOf(op, mod, s)[k], group, annotation)
    {
      var b := StepBuilder(s.width);
      var left := ScanOperand(s.tmp, s.leftOffset, s.leftStride);
      var right := ScanOperand(s.tmp, s.rightOffset, s.rightStride);
      if b.Lowered64(s.tmp.regType) && op == Sel {
        b.LoweredSelMaskOff(if mod == CondGe then CondG else mod, left, right);
      } else {
        var inst := b.Make(op, right, [left, right]).(condMod := mod);
        assert StepOf(op, mod, s) == [inst];
        assert MaskOffIn(inst, group, annotation);
      }
    }

    /** The five instructions of a lowered SEL run with the mask off when
        the builder does. */
    lemma LoweredSelMaskOff(strict: CondMod, left: Reg, right: Reg)
      requires forceWritemaskAll
      ensures forall k :: 0 <= k < |LoweredSelInsts(strict, left, right)| ==>
                MaskOffIn(LoweredSelInsts(strict, left, right)[k], group, annotation)
    {
      var insts := LoweredSelInsts(strict, left, right);
      forall k | 0 <= k < |insts|
        ensures MaskOffIn(insts[k], group, annotation)
      {
      }
    }

    /** Every instruction of a scan runs with the mask off in this
        builder's channel group, with its annotation. */
    lemma ScanInstsMaskOff(op: Opcode, mod: CondMod, steps: seq<ScanStep<Reg>>)
      ensures forall k :: 0 <= k < |ScanInsts(op, mod, steps)| ==> MaskOffIn(ScanInsts(op, mod, steps)[k], group, annotation)
    {
      var f := (s: ScanStep<Reg>) => StepOf(op, mod, s);
      forall i | 0 <= i < |steps|
        ensures forall k :: 0 <= k < |f(steps[i])| ==> MaskOffIn(f(steps[i])[k], group, annotation)
      {
        StepMaskOff(op, mod, steps[i]);
      }
      ConcatMapAll(f, steps, (inst: Inst) => MaskOffIn(inst, group, annotation));
    }

    /** Both operands of a compare that leaves no operand to copy. */
    lemma FixupsOfLegalPair(kind: FixKind, a: Reg, b: Reg, next: nat)
      requires !NeedsFix(kind, a) && !NeedsFix(kind, b)
      ensures Fixups(kind, [a, b], next) == Fixup([a, b], [], [])
    {
      assert [b][1..] == [];
      assert Fixups(kind, [b], next) == Fixup([b], [], []);
      assert [a, b][1..] == [b];
    }

    /** The halves of a lowered SEL's operands need no copy, and the
        right one's halves can be written. */
    predicate SelOperandsOk(left: Reg, right: Reg) {
      var t32 := WithSize(left.regType, 32);
      !NeedsFix(UnsignedNegate, Retype(Subscript(left, UD, 0), UD)) &&
      !NeedsFix(UnsignedNegate, Retype(Subscript(right, UD, 0), UD)) &&
      !NeedsFix(UnsignedNegate, Subscript(left, t32, 1)) &&
      !NeedsFix(UnsignedNegate, Subscript(right, t32, 1)) &&
      DstStrideOk(Subscript(right, UD, 0)) && DstStrideOk(Subscript(right, t32, 1))
    }

    /** A supported 64-bit scan step gives a lowered SEL usable operands. */
    lemma ScanSelOperands(mod: CondMod, tmp: Reg, lo: nat, ls: nat, ro: nat, rs: nat)
      requires StepOk(Sel, mod, tmp, ro, rs) && Lowered64(tmp.regType)
      ensures SelOperandsOk(ScanOperand(tmp, lo, ls), ScanOperand(tmp, ro, rs))
    {
      ScanOperandHalves(tmp, lo, ls);
      ScanOperandHalves(tmp, ro, rs);
    }

    /** `emit_scan_step`: one scan step at this builder's width (see
        `StepInsts`), the lowered SEL's predicates set on the comparisons
        and moves after they are emitted. */
    method EmitScanStep(op: Opcode, mod: CondMod, tmp: Reg, lo: nat, ls: nat, ro: nat, rs: nat)
      requires Ready() && StepOk(op, mod, tmp, ro, rs)
      modifies shader
      ensures Ready()
      ensures Emitted(old(shader.insts), shader.insts, cursor.value, StepInsts(op, mod, tmp, lo, ls, ro, rs))
      ensures shader.alloc == old(shader.alloc)
    {
      var left := ScanOperand(tmp, lo, ls);
      var right := ScanOperand(tmp, ro, rs);
      if Lowered64(tmp.regType) && op == Sel {
        ScanSelOperands(mod, tmp, lo, ls, ro, rs);
        EmitLoweredSel(if mod == CondGe then CondG else mod, left, right);
      } else {
        var r := EmitInst(MakeInst(op, dispatchWidth, right, [left, right]).(condMod := mod));
      }
    }

    /** A supported scan makes every step with a nonzero right stride
        supported, at any step width. */
    lemma ScanStepOk(op: Opcode, mod: CondMod, tmp: Reg, ro: nat, rs: nat, w: nat)
      requires ScanOpOk(op, mod, tmp) && rs != 0
      ensures StepBuilder(w).StepOk(op, mod, tmp, ro, rs)
    {
      if Lowered64(tmp.regType) {
        ScanOperandHalves(tmp, ro, rs);
      }
    }

    /** The builder `exec_all().group(w, 0)` of a scan is its step builder
        for width `w`. */
    lemma ScanGroupIsStepBuilder(w: nat)
      requires 0 < w <= dispatchWidth
      ensures ExecAll(true).Group(w, 0) == StepBuilder(w)
    {
    }

    /** `emit_scan`: the inclusive scan of `tmp` with `op` over clusters of
        `cluster` channels, as the steps of `Plan` (whose channel `base`
        is channel 0 of `tmp`). A level wider than two registers scans its
        halves and joins them. */
    method EmitScan(op: Opcode, tmp: Reg, cluster: nat, mod: CondMod, ghost base: nat)
      requires Ready() && ScanWidthOk(dispatchWidth, SizeBytes(tmp.regType)) && ScanOpOk(op, mod, tmp)
      modifies shader
      ensures Ready()
      ensures Emitted(old(shader.insts), shader.insts, cursor.value,
                      ScanInsts(op, mod, Plan(dispatchWidth, SizeBytes(tmp.regType), cluster, tmp, HorizOffset, base)))
      ensures shader.alloc == old(shader.alloc)
      decreases dispatchWidth, 4
    {
      ghost var f := (s: ScanStep<Reg>) => StepOf(op, mod, s);
      EmitScanPlan(op, tmp, cluster, mod, base, f);
      ScanInstsAre(f, op, mod, Plan(dispatchWidth, SizeBytes(tmp.regType), cluster, tmp, HorizOffset, base));
    }

    /** `f` gives the instructions of a step, as `StepOf` does. The
        emission methods below carry `f` rather than `StepOf`, so that a
        step's instructions are only worked out where a step is emitted. */
    ghost predicate StepsOf(f: ScanStep<Reg> -> seq<Inst>, op: Opcode, mod: CondMod) {
      forall s {:trigger StepOf(op, mod, s)} :: f(s) == StepOf(op, mod, s)
    }

    lemma ScanInstsAre(f: ScanStep<Reg> -> seq<Inst>, op: Opcode, mod: CondMod, steps: seq<ScanStep<Reg>>)
      requires StepsOf(f, op, mod)
      ensures ConcatMap(f, steps) == ScanInsts(op, mod, steps)
    {
      var g := (s: ScanStep<Reg>) => StepOf(op, mod, s);
      forall i | 0 <= i < |steps|
        ensures f(steps[i]) == g(steps[i])
      {
        assert g(steps[i]) == StepOf(op, mod, steps[i]);
      }
      ConcatMapCongruent(f, g, steps);
    }

    /** The steps of a plan, emitted with `f` giving each step's
        instructions. */
    method EmitScanPlan(op: Opcode, tmp: Reg, cluster: nat, mod: CondMod, ghost base: nat, ghost f: ScanStep<Reg> -> seq<Inst>)
      requires StepsOf(f, op, mod)
      requires Ready() && ScanWidthOk(dispatchWidth, SizeBytes(tmp.regType)) && ScanOpOk(op, mod, tmp)
      modifies shader
      ensures Ready()
      ensures Emitted(old(shader.insts), shader.insts, cursor.value,
                      ConcatMap(f, Plan(dispatchWidth, SizeBytes(tmp.regType), cluster, tmp, HorizOffset, base)))
      ensures shader.alloc == old(shader.alloc)
      decreases dispatchWidth, 3
    {
      var size := SizeBytes(tmp.regType);
      if dispatchWidth * size > 2 * RegSize {
        EmitSplitScan(op, tmp, cluster, mod, base, f);
      } else {
        PlanDirect(dispatchWidth, size, cluster, tmp, HorizOffset, base);
        ghost var pair := PairPart(dispatchWidth, cluster, tmp, base);
        ghost var quad := QuadPart(dispatchWidth, size, cluster, tmp, base);
        ghost var doubling := DoublingPart(dispatchWidth, cluster, tmp, base);
        ghost var i0 := shader.insts;
        EmitPairPart(op, tmp, cluster, mod, base, f);
        ghost var i1 := shader.insts;
        EmitQuadPart(op, tmp, cluster, mod, base, f);
        EmittedJoin(i0, i1, shader.insts, cursor.value, f, pair, quad);
        ghost var i2 := shader.insts;
        EmitDoublingPart(op, tmp, cluster, mod, base, f);
        EmittedJoin(i0, i2, shader.insts, cursor.value, f, pair + quad, doubling);
      }
    }

    /** A level wider than two registers: both halves scanned at half
        width, then, when a cluster spans both, the last channel of the
        lower half folded into the whole upper half. */
    method EmitSplitScan(op: Opcode, tmp: Reg, cluster: nat, mod: CondMod, ghost base: nat, ghost f: ScanStep<Reg> -> seq<Inst>)
      requires StepsOf(f, op, mod)
      requires Ready() && ScanWidthOk(dispatchWidth, SizeBytes(tmp.regType)) && ScanOpOk(op, mod, tmp)
      requires dispatchWidth * SizeBytes(tmp.regType) > 2 * RegSize
      modifies shader
      ensures Ready()
      ensures Emitted(old(shader.insts), shader.insts, cursor.value,
                      ConcatMap(f, Plan(dispatchWidth, SizeBytes(tmp.regType), cluster, tmp, HorizOffset, base)))
      ensures shader.alloc == old(shader.alloc)
      decreases dispatchWidth, 2
    {
      var size := SizeBytes(tmp.regType);
      RegPlanSplit(dispatchWidth, size, cluster, tmp, base);
      ghost var halves := Plan(dispatchWidth / 2, size, cluster, tmp, HorizOffset, base)
                          + Plan(dispatchWidth / 2, size, cluster,
                                 HorizOffset(tmp, dispatchWidth / 2), HorizOffset, base + dispatchWidth / 2);
      ghost var i0 := shader.insts;
      EmitScanHalves(op, tmp, cluster, mod, base, f);
      ghost var i1 := shader.insts;
      EmitCrossStep(op, tmp, cluster, mod, base, f);
      EmittedJoin(i0, i1, shader.insts, cursor.value, f, halves, CrossStep(dispatchWidth, cluster, tmp, base));
    }

    /** The step joining two scanned halves, when a cluster spans both. */
    method EmitCrossStep(op: Opcode, tmp: Reg, cluster: nat, mod: CondMod, ghost base: nat, ghost f: ScanStep<Reg> -> seq<Inst>)
      requires StepsOf(f, op, mod)
      requires Ready() && 2 <= dispatchWidth && ScanOpOk(op, mod, tmp)
      modifies shader
      ensures Ready()
      ensures Emitted(old(shader.insts), shader.insts, cursor.value, ConcatMap(f, CrossStep(dispatchWidth, cluster, tmp, base)))
      ensures shader.alloc == old(shader.alloc)
    {
      var half := dispatchWidth / 2;
      if cluster > half {
        EmitPlanStep(op, mod, half, tmp, half - 1, 0, half, 1, base, f);
      } else {
        EmittedNoSteps(shader.insts, cursor.value, f);
      }
    }

    /** Both halves of a split level, scanned at half width. */
    method EmitScanHalves(op: Opcode, tmp: Reg, cluster: nat, mod: CondMod, ghost base: nat, ghost f: ScanStep<Reg> -> seq<Inst>)
      requires StepsOf(f, op, mod)
      requires Ready() && ScanWidthOk(dispatchWidth, SizeBytes(tmp.regType)) && ScanOpOk(op, mod, tmp)
      requires dispatchWidth * SizeBytes(tmp.regType) > 2 * RegSize
      modifies shader
      ensures Ready()
      ensures Emitted(old(shader.insts), shader.insts, cursor.value,
                      ConcatMap(f, Plan(dispatchWidth / 2, SizeBytes(tmp.regType), cluster, tmp, HorizOffset, base)
                                         + Plan(dispatchWidth / 2, SizeBytes(tmp.regType), cluster,
                                                HorizOffset(tmp, dispatchWidth / 2), HorizOffset, base + dispatchWidth / 2)))
      ensures shader.alloc == old(shader.alloc)
      decreases dispatchWidth, 1
    {
      ghost var i0 := shader.insts;
      EmitHalfScan(op, tmp, cluster, mod, base, f);
      ghost var i1 := shader.insts;
      EmitUpperHalfScan(op, tmp, cluster, mod, base, f);
      EmittedJoin(i0, i1, shader.insts, cursor.value, f,
                      Plan(dispatchWidth / 2, SizeBytes(tmp.regType), cluster, tmp, HorizOffset, base),
                      Plan(dispatchWidth / 2, SizeBytes(tmp.regType), cluster,
                           HorizOffset(tmp, dispatchWidth / 2), HorizOffset, base + dispatchWidth / 2));
    }

    /** The scan of the upper half of `tmp`, whose channel 0 is channel
        `dispatch_width / 2` of `tmp`. */
    method EmitUpperHalfScan(op: Opcode, tmp: Reg, cluster: nat, mod: CondMod, ghost base: nat, ghost f: ScanStep<Reg> -> seq<Inst>)
      requires StepsOf(f, op, mod)
      requires Ready() && ScanWidthOk(dispatchWidth, SizeBytes(tmp.regType)) && ScanOpOk(op, mod, tmp)
      requires dispatchWidth * SizeBytes(tmp.regType) > 2 * RegSize
      modifies shader
      ensures Ready()
      ensures Emitted(old(shader.insts), shader.insts, cursor.value,
                      ConcatMap(f, Plan(dispatchWidth / 2, SizeBytes(tmp.regType), cluster,
                                              HorizOffset(tmp, dispatchWidth / 2), HorizOffset, base + dispatchWidth / 2)))
      ensures shader.alloc == old(shader.alloc)
      decreases dispatchWidth, 0
    {
      var right := HorizOffset(tmp, dispatchWidth / 2);
      HorizOffsetKeepsRegion(tmp, dispatchWidth / 2);
      EmitHalfScan(op, right, cluster, mod, base + dispatchWidth / 2, f);
    }

    /** The scan of `t` on `exec_all().group(dispatch_width / 2, 0)`. */
    method EmitHalfScan(op: Opcode, t: Reg, cluster: nat, mod: CondMod, ghost base: nat, ghost f: ScanStep<Reg> -> seq<Inst>)
      requires StepsOf(f, op, mod)
      requires Ready() && ScanWidthOk(dispatchWidth, SizeBytes(t.regType)) && ScanOpOk(op, mod, t)
      requires dispatchWidth * SizeBytes(t.regType) > 2 * RegSize
      modifies shader
      ensures Ready()
      ensures Emitted(old(shader.insts), shader.insts, cursor.value,
                      ConcatMap(f, Plan(dispatchWidth / 2, SizeBytes(t.regType), cluster, t, HorizOffset, base)))
      ensures shader.alloc == old(shader.alloc)
      decreases dispatchWidth, 0, 0
    {
      var half := dispatchWidth / 2;
      var ubld := ExecAll(true).Group(half, 0);
      ScanGroupIsStepBuilder(half);
      ubld.EmitScan(op, t, cluster, mod, base);
      ScanInstsShared(ubld, op, mod, Plan(half, SizeBytes(t.regType), cluster, t, HorizOffset, base));
      ScanInstsAre(f, op, mod, Plan(half, SizeBytes(t.regType), cluster, t, HorizOffset, base));
    }

    /** Emits the scan-plan step `ScanStep(w, tmp, lo, ls, ro, rs, base)`
        on the builder `exec_all().group(w, 0)`. */
    method EmitPlanStep(op: Opcode, mod: CondMod, w: nat, tmp: Reg, lo: nat, ls: nat, ro: nat, rs: nat, ghost base: nat, ghost f: ScanStep<Reg> -> seq<Inst>)
      requires StepsOf(f, op, mod)
      requires Ready() && 0 < w <= dispatchWidth && ScanOpOk(op, mod, tmp) && rs != 0
      modifies shader
      ensures Ready()
      ensures Emitted(old(shader.insts), shader.insts, cursor.value, ConcatMap(f, [ScanStep(w, tmp, lo, ls, ro, rs, base)]))
      ensures shader.alloc == old(shader.alloc)
    {
      var ubld := ExecAll(true).Group(w, 0);
      ScanGroupIsStepBuilder(w);
      ScanStepOk(op, mod, tmp, ro, rs, w);
      ubld.EmitScanStep(op, mod, tmp, lo, ls, ro, rs);
      ScanInstsSingle(op, mod, ScanStep(w, tmp, lo, ls, ro, rs, base));
      ScanInstsAre(f, op, mod, [ScanStep(w, tmp, lo, ls, ro, rs, base)]);
    }

    /** The first step of an unsplit level: odd channels take in the even
        channel before them. */
    method EmitPairPart(op: Opcode, tmp: Reg, cluster: nat, mod: CondMod, ghost base: nat, ghost f: ScanStep<Reg> -> seq<Inst>)
      requires StepsOf(f, op, mod)
      requires Ready() && dispatchWidth >= 2 && ScanOpOk(op, mod, tmp)
      modifies shader
      ensures Ready()
      ensures Emitted(old(shader.insts), shader.insts, cursor.value, ConcatMap(f, PairPart(dispatchWidth, cluster, tmp, base)))
      ensures shader.alloc == old(shader.alloc)
    {
      if cluster > 1 {
        EmitPlanStep(op, mod, dispatchWidth / 2, tmp, 0, 2, 1, 2, base, f);
      } else {
        EmittedNoSteps(shader.insts, cursor.value, f);
      }
    }

    /** The steps completing blocks of four channels: two 4-strided steps,
        or for 64-bit elements one 2-wide step per block. */
    method EmitQuadPart(op: Opcode, tmp: Reg, cluster: nat, mod: CondMod, ghost base: nat, ghost f: ScanStep<Reg> -> seq<Inst>)
      requires StepsOf(f, op, mod)
      requires Ready() && dispatchWidth >= 8 && ScanOpOk(op, mod, tmp)
      modifies shader
      ensures Ready()
      ensures Emitted(old(shader.insts), shader.insts, cursor.value,
                      ConcatMap(f, QuadPart(dispatchWidth, SizeBytes(tmp.regType), cluster, tmp, base)))
      ensures shader.alloc == old(shader.alloc)
    {
      if cluster > 2 {
        if SizeBytes(tmp.regType) <= 4 {
          var w := dispatchWidth / 4;
          EmitPlanStep(op, mod, w, tmp, 1, 4, 2, 4, base, f);
          ghost var i1 := shader.insts;
          EmitPlanStep(op, mod, w, tmp, 1, 4, 3, 4, base, f);
          EmittedJoin(old(shader.insts), i1, shader.insts, cursor.value, f,
                          [ScanStep(w, tmp, 1, 4, 2, 4, base)], [ScanStep(w, tmp, 1, 4, 3, 4, base)]);
          assert [ScanStep(w, tmp, 1, 4, 2, 4, base)] + [ScanStep(w, tmp, 1, 4, 3, 4, base)]
              == [ScanStep(w, tmp, 1, 4, 2, 4, base), ScanStep(w, tmp, 1, 4, 3, 4, base)];
        } else {
          EmitWideSteps(op, tmp, mod, base, f);
        }
      } else {
        EmittedNoSteps(shader.insts, cursor.value, f);
      }
    }

    /** For 64-bit elements: one 2-wide step per block of four channels,
        folding channel `4k+1` into `4k+2` and `4k+3`. */
    method EmitWideSteps(op: Opcode, tmp: Reg, mod: CondMod, ghost base: nat, ghost f: ScanStep<Reg> -> seq<Inst>)
      requires StepsOf(f, op, mod)
      requires Ready() && dispatchWidth >= 2 && ScanOpOk(op, mod, tmp)
      modifies shader
      ensures Ready()
      ensures Emitted(old(shader.insts), shader.insts, cursor.value,
                      ConcatMap(f, WideSteps((dispatchWidth + 3) / 4, tmp, base)))
      ensures shader.alloc == old(shader.alloc)
    {
      EmittedNoSteps(shader.insts, cursor.value, f);
      var i := 0;
      ghost var k := 0;
      while i < dispatchWidth
        invariant i == 4 * k && i <= dispatchWidth + 3 && Ready()
        invariant Emitted(old(shader.insts), shader.insts, cursor.value, ConcatMap(f, WideSteps(k, tmp, base)))
        invariant shader.alloc == old(shader.alloc)
        decreases dispatchWidth - i
      {
        ghost var before := shader.insts;
        EmitPlanStep(op, mod, 2, tmp, i + 1, 0, i + 2, 1, base, f);
        assert Emitted(old(shader.insts), shader.insts, cursor.value, ConcatMap(f, WideSteps(k + 1, tmp, base))) by {
          EmittedJoin(old(shader.insts), before, shader.insts, cursor.value, f,
                          WideSteps(k, tmp, base), [ScanStep(2, tmp, i + 1, 0, i + 2, 1, base)]);
          WideStepsNext(k, i, tmp, base);
        }
        i := i + 4;
        k := k + 1;
      }
      CeilQuarter(dispatchWidth, k);
    }

    /** The doubling loop: blocks of 4, 8, 16, ... channels below the
        cluster size and the width. */
    method EmitDoublingPart(op: Opcode, tmp: Reg, cluster: nat, mod: CondMod, ghost base: nat, ghost f: ScanStep<Reg> -> seq<Inst>)
      requires StepsOf(f, op, mod)
      requires Ready() && ScanOpOk(op, mod, tmp)
      modifies shader
      ensures Ready()
      ensures Emitted(old(shader.insts), shader.insts, cursor.value, ConcatMap(f, DoublingPart(dispatchWidth, cluster, tmp, base)))
      ensures shader.alloc == old(shader.alloc)
    {
      var limit := Min(cluster, dispatchWidth);
      EmittedNoSteps(shader.insts, cursor.value, f);
      var i := 4;
      ghost var k := 0;
      while i < limit
        invariant i == 4 * Pow2(k) && Ready()
        invariant k + DoublingCount(i, limit) == DoublingCount(4, limit)
        invariant Emitted(old(shader.insts), shader.insts, cursor.value, ConcatMap(f, DoublingSteps(k, dispatchWidth, tmp, base)))
        invariant shader.alloc == old(shader.alloc)
        decreases DoublingCount(i, limit)
      {
        ghost var before := shader.insts;
        EmitDoublingIteration(op, tmp, i, mod, base, f);
        assert Emitted(old(shader.insts), shader.insts, cursor.value, ConcatMap(f, DoublingSteps(k + 1, dispatchWidth, tmp, base))) by {
          EmittedJoin(old(shader.insts), before, shader.insts, cursor.value, f,
                          DoublingSteps(k, dispatchWidth, tmp, base), DoublingIteration(i, dispatchWidth, tmp, base));
          DoublingStepsNext(k, i, dispatchWidth, tmp, base);
        }
        assert DoublingCount(i, limit) == 1 + DoublingCount(2 * i, limit);
        i := i * 2;
        k := k + 1;
      }
    }

    /** One iteration of the doubling loop at block size `i`. */
    method EmitDoublingIteration(op: Opcode, tmp: Reg, i: nat, mod: CondMod, ghost base: nat, ghost f: ScanStep<Reg> -> seq<Inst>)
      requires StepsOf(f, op, mod)
      requires Ready() && 0 < i < dispatchWidth && ScanOpOk(op, mod, tmp)
      modifies shader
      ensures Ready()
      ensures Emitted(old(shader.insts), shader.insts, cursor.value, ConcatMap(f, DoublingIteration(i, dispatchWidth, tmp, base)))
      ensures shader.alloc == old(shader.alloc)
    {
      DoublingIterationShape(i, dispatchWidth, tmp, base);
      ghost var first := [ScanStep(i, tmp, i - 1, 0, i, 1, base)];
      EmitPlanStep(op, mod, i, tmp, i - 1, 0, i, 1, base, f);
      if dispatchWidth > i * 2 {
        ghost var i1 := shader.insts;
        ghost var second := [ScanStep(i, tmp, i * 3 - 1, 0, i * 3, 1, base)];
        EmitPlanStep(op, mod, i, tmp, i * 3 - 1, 0, i * 3, 1, base, f);
        EmittedJoin(old(shader.insts), i1, shader.insts, cursor.value, f, first, second);
        assert first + second == [ScanStep(i, tmp, i - 1, 0, i, 1, base), ScanStep(i, tmp, i * 3 - 1, 0, i * 3, 1, base)];
        if dispatchWidth > i * 4 {
          ghost var i2 := shader.insts;
          EmitOuterBlocks(op, tmp, i, mod, base, f);
          EmittedJoin(old(shader.insts), i2, shader.insts, cursor.value, f, first + second,
                          [ScanStep(i, tmp, i * 5 - 1, 0, i * 5, 1, base), ScanStep(i, tmp, i * 7 - 1, 0, i * 7, 1, base)]);
        }
      }
    }

    /** The third and fourth block of a doubling iteration, on widths
        above four blocks. */
    method EmitOuterBlocks(op: Opcode, tmp: Reg, i: nat, mod: CondMod, ghost base: nat, ghost f: ScanStep<Reg> -> seq<Inst>)
      requires StepsOf(f, op, mod)
      requires Ready() && 0 < i < dispatchWidth && ScanOpOk(op, mod, tmp)
      modifies shader
      ensures Ready()
      ensures Emitted(old(shader.insts), shader.insts, cursor.value,
                      ConcatMap(f, [ScanStep(i, tmp, i * 5 - 1, 0, i * 5, 1, base),
                                          ScanStep(i, tmp, i * 7 - 1, 0, i * 7, 1, base)]))
      ensures shader.alloc == old(shader.alloc)
    {
      EmitPlanStep(op, mod, i, tmp, i * 5 - 1, 0, i * 5, 1, base, f);
      ghost var i1 := shader.insts;
      EmitPlanStep(op, mod, i, tmp, i * 7 - 1, 0, i * 7, 1, base, f);
      EmittedJoin(old(shader.insts), i1, shader.insts, cursor.value, f,
                      [ScanStep(i, tmp, i * 5 - 1, 0, i * 5, 1, base)], [ScanStep(i, tmp, i * 7 - 1, 0, i * 7, 1, base)]);
      assert [ScanStep(i, tmp, i * 5 - 1, 0, i * 5, 1, base)] + [ScanStep(i, tmp, i * 7 - 1, 0, i * 7, 1, base)]
          == [ScanStep(i, tmp, i * 5 - 1, 0, i * 5, 1, base), ScanStep(i, tmp, i * 7 - 1, 0, i * 7, 1, base)];
    }

    /** The lowered 64-bit SEL of `left` into `right`. */
    method EmitLoweredSel(strict: CondMod, left: Reg, right: Reg)
      requires Ready() && SelOperandsOk(left, right)
      modifies shader
      ensures Ready()
      ensures Emitted(old(shader.insts), shader.insts, cursor.value, LoweredSelInsts(strict, left, right))
      ensures shader.alloc == old(shader.alloc)
    {
      var t32 := WithSize(left.regType, 32);
      var leftLow := Subscript(left, UD, 0);
      var rightLow := Subscript(right, UD, 0);
      var leftHigh := Subscript(left, t32, 1);
      var rightHigh := Subscript(right, t32, 1);
      ghost var i0 := shader.insts;
      var c1 := PredicatedCompare(Retype(leftLow, UD), Retype(rightLow, UD), strict, NoPredicate, false);
      ghost var i1 := shader.insts;
      ghost var done := [c1];
      var c2 := PredicatedCompare(leftHigh, rightHigh, CondEq, PredicateNormal, false);
      EmittedTrans(i0, i1, shader.insts, cursor.value, done, [c2]);
      done := done + [c2];
      ghost var i2 := shader.insts;
      var c3 := PredicatedCompare(leftHigh, rightHigh, strict, PredicateNormal, true);
      EmittedTrans(i0, i2, shader.insts, cursor.value, done, [c3]);
      done := done + [c3];
      ghost var i3 := shader.insts;
      var m1 := PredicatedMov(rightLow, leftLow);
      EmittedTrans(i0, i3, shader.insts, cursor.value, done, [m1]);
      done := done + [m1];
      ghost var i4 := shader.insts;
      var m2 := PredicatedMov(rightHigh, leftHigh);
      EmittedTrans(i0, i4, shader.insts, cursor.value, done, [m2]);
      assert done + [m2] == LoweredSelInsts(strict, left, right);
    }

    /** `set_predicate_inv(pred, inverse, CMP(null_reg_ud(), a, b, cond))`
        for operands that need no copy. */
    method PredicatedCompare(a: Reg, b: Reg, cond: CondMod, pred: PredMode, inverse: bool) returns (r: Inst)
      requires Ready() && !NeedsFix(UnsignedNegate, a) && !NeedsFix(UnsignedNegate, b)
      modifies shader
      ensures Ready()
      ensures r == CompareInst(a, b, cond, pred, inverse)
      ensures Emitted(old(shader.insts), shader.insts, cursor.value, [r])
      ensures shader.alloc == old(shader.alloc)
    {
      ghost var i0 := shader.insts;
      FixupsOfLegalPair(UnsignedNegate, a, b, |shader.alloc|);
      var c := Compare(Cmp, NullRegOf(UD), a, b, cond);
      assert Emitted(i0, shader.insts, cursor.value, [] + [c]);
      r := c.(pred := pred, predInverse := inverse);
      EmittedReplaceLast(i0, shader.insts, cursor.value, [], c, r);
      shader.Replace(|shader.insts| - cursor.value - 1, r);
    }

    /** `set_predicate(BRW_PREDICATE_NORMAL, MOV(dst, src))`. */
    method PredicatedMov(dst: Reg, src: Reg) returns (r: Inst)
      requires Ready() && DstStrideOk(dst)
      modifies shader
      ensures Ready()
      ensures r == Make(Mov, dst, [src]).(pred := PredicateNormal)
      ensures Emitted(old(shader.insts), shader.insts, cursor.value, [r])
      ensures shader.alloc == old(shader.alloc)
    {
      ghost var i0 := shader.insts;
      var m := Alu1(Mov, dst, src);
      assert Emitted(i0, shader.insts, cursor.value, [] + [m]);
      r := m.(pred := PredicateNormal);
      EmittedReplaceLast(i0, shader.insts, cursor.value, [], m, r);
      shader.Replace(|shader.insts| - cursor.value - 1, r);
    }
  }

  /** A builder inserting into `shader` with no insertion point yet, at
      width `dispatchWidth`, channel group 0, masking on, no annotation. */
  function NewBuilder(shader: Shader, dispatchWidth: nat): (b: Builder)
    ensures b.shader == shader && b.dispatchWidth == dispatchWidth
    ensures b.block == None && b.cursor == None
    ensures b.group == 0 && !b.forceWritemaskAll && b.annotation == NoAnnotation
  {
    Builder(shader, None, None, dispatchWidth, 0, false, NoAnnotation)
  }

  /** A builder at the shader's own dispatch width. */
  function ForShader(shader: Shader): (b: Builder)
    ensures b == NewBuilder(shader, shader.dispatchWidth)
  {
    NewBuilder(shader, shader.dispatchWidth)
  }

  /** A builder inserting in front of instruction `idx` of `block`,
      inheriting that instruction's width, group, mask override and
      annotation. */
  function BuilderAt(shader: Shader, block: Option<nat>, idx: nat): (b: Builder)
    requires idx < |shader.insts|
    reads shader
    ensures b.shader == shader && b.block == block && b.cursor == Some(|shader.insts| - idx)
    ensures var inst := shader.insts[idx];
            b.dispatchWidth == inst.execSize && b.group == inst.group &&
            b.forceWritemaskAll == inst.forceWritemaskAll && b.annotation == inst.annotation
  {
    var inst := shader.insts[idx];
    Builder(shader, block, Some(|shader.insts| - idx), inst.execSize, inst.group,
            inst.forceWritemaskAll, inst.annotation)
  }

  /** Emitting through a builder made for instruction `idx` puts the new
      instructions right before it, and leaves everything else in place. */
  lemma {:induction false} EmitAtInstInsertsBefore(before: seq<Inst>, after: seq<Inst>, idx: nat, added: seq<Inst>)
    requires idx < |before| && Emitted(before, after, |before| - idx, added)
    ensures |after| == |before| + |added|
    ensures after[idx..idx + |added|] == added
    ensures after[idx + |added|] == before[idx]
    ensures after[..idx] == before[..idx] && after[idx + |added|..] == before[idx..]
  {
    SpliceShape(before, idx, added);
    assert after == before[..idx] + added + before[idx..];
  }

  /** Emitting at the end appends. */
  lemma {:induction false} EmitAtEndAppends(before: seq<Inst>, after: seq<Inst>, added: seq<Inst>)
    requires Emitted(before, after, 0, added)
    ensures after == before + added
  {
    assert before[|before|..] == [];
  }

  /** A derived builder shares its parent's shader and cursor; choosing a
      subgroup of a subgroup lands inside the parent's channels. */
  lemma {:induction false} GroupNests(b: Builder, n: nat, i: nat, m: nat, j: nat)
    requires n > 0 && m > 0 && b.IsSubgroup(n, i) && b.Group(n, i).IsSubgroup(m, j)
    ensures b.Group(n, i).Group(m, j).group >= b.group
    ensures b.Group(n, i).Group(m, j).group + m <= b.group + b.dispatchWidth
    ensures b.Group(n, i).Group(m, j).shader == b.shader && b.Group(n, i).Group(m, j).cursor == b.cursor
  {
    var c := b.Group(n, i);
    assert c.group + n <= b.group + b.dispatchWidth;
    var d := c.Group(m, j);
    assert d.group + m <= c.group + n;
  }

  /** Repositioning keeps every code-generation parameter, and
      repositioning twice is repositioning once. */
  lemma AtKeepsParameters(b: Builder, block: Option<nat>, cursor: nat, block2: Option<nat>, cursor2: nat)
    ensures b.At(block, cursor).At(block2, cursor2) == b.At(block2, cursor2)
    ensures var c := b.At(block, cursor);
            c.dispatchWidth == b.dispatchWidth && c.group == b.group &&
            c.forceWritemaskAll == b.forceWritemaskAll && c.annotation == b.annotation && c.shader == b.shader
  {
  }

  /** Turning the mask off is idempotent and never turns it back on. */
  lemma ExecAllMonotone(b: Builder, x: bool, y: bool)
    ensures b.ExecAll(x).ExecAll(y) == b.ExecAll(x || y)
    ensures b.forceWritemaskAll ==> b.ExecAll(x).forceWritemaskAll
    ensures !x ==> b.ExecAll(x) == b
  {
  }

  /** The last annotation wins. */
  lemma AnnotateLastWins(b: Builder, s1: Option<string>, ir1: Option<nat>, s2: Option<string>, ir2: Option<nat>)
    ensures b.Annotate(s1, ir1).Annotate(s2, ir2) == b.Annotate(s2, ir2)
    ensures b.Annotate(s1, ir1).Stamp(MakeInst(Nop, 1, UndefReg, [])).annotation == Annotation(s1, ir1)
  {
  }

  /** The two halves of `vec` components of a virtual register do not
      overlap: component `i` ends no later than component `j` starts. */
  lemma {:induction false} ComponentsDisjoint(dst: Reg, width: nat, i: nat, j: nat)
    requires dst.file.Vgrf? && i < j
    ensures Offset(dst, width, i).offset + ComponentSize(dst, width) <= Offset(dst, width, j).offset
    ensures Offset(dst, width, i).nr == dst.nr && Offset(dst, width, j).nr == dst.nr
  {
    var c := ComponentSize(dst, width);
    assert (i + 1) * c <= j * c by {
      MulMonotone(i + 1, j, c);
    }
  }

  lemma MulMonotone(a: nat, b: nat, c: nat)
    requires a <= b
    ensures a * c <= b * c
  {
  }

  // ---------------------------------------------------------------------
  // Scan operands
  // ---------------------------------------------------------------------

  /** The operand of a scan step: channels `offset`, `offset + stride`, ...
      of `tmp`. */
  function ScanOperand(tmp: Reg, offset: nat, stride: nat): Reg {
    HorizStride(HorizOffset(tmp, offset), stride)
  }

  /** A register a lowered 64-bit scan can compare and move in halves: not
      negated, with a nonzero stride. */
  predicate ScanRegOk(tmp: Reg) {
    !tmp.negate && (IsVirtualFile(tmp.file) ==> tmp.stride != 0) && (!IsVirtualFile(tmp.file) ==> tmp.hstride != 0)
  }

  /** The number of blocks of four covering `n` channels. */
  lemma CeilQuarter(n: nat, k: nat)
    requires n <= 4 * k < n + 4
    ensures k == (n + 3) / 4
  {
  }

  /** A plan over registers wider than two registers splits into the
      plans of its halves, the upper half taken at `HorizOffset`. */
  lemma RegPlanSplit(width: nat, size: nat, cluster: nat, tmp: Reg, base: nat)
    requires ScanWidthOk(width, size) && width * size > 2 * RegSize
    ensures Plan(width, size, cluster, tmp, HorizOffset, base)
         == Plan(width / 2, size, cluster, tmp, HorizOffset, base)
            + Plan(width / 2, size, cluster, HorizOffset(tmp, width / 2), HorizOffset, base + width / 2)
            + CrossStep(width, cluster, tmp, base)
  {
    PlanSplit(width, size, cluster, tmp, HorizOffset, base);
  }

  /** Moving along the channels keeps the register's file, type, region
      strides and modifiers. */
  lemma HorizOffsetKeepsRegion(r: Reg, delta: nat)
    ensures var h := HorizOffset(r, delta);
            h.file == r.file && h.regType == r.regType && h.stride == r.stride &&
            h.hstride == r.hstride && h.negate == r.negate
  {
  }

  /** The 32-bit halves of a scan operand of a 64-bit register are not
      negated, are typed as asked, and keep a nonzero stride when the
      register and the step's stride have one. */
  lemma ScanOperandHalves(tmp: Reg, offset: nat, stride: nat)
    requires tmp.regType == Q || tmp.regType == UQ
    ensures forall t: RegType, i: nat {:trigger Subscript(ScanOperand(tmp, offset, stride), t, i)} ::
              SizeBytes(t) == 4 ==>
                var h := Subscript(ScanOperand(tmp, offset, stride), t, i);
                h.negate == tmp.negate && h.regType == t && h.file == tmp.file &&
                (ScanRegOk(tmp) && stride != 0 ==>
                   (IsVirtualFile(h.file) ==> h.stride != 0) && (!IsVirtualFile(h.file) ==> h.hstride != 0))
  {
    var op := ScanOperand(tmp, offset, stride);
    HorizOffsetKeepsRegion(tmp, offset);
    assert Log2(8) == 3 && Log2(4) == 2;
    forall t: RegType, i: nat | SizeBytes(t) == 4
      ensures var h := Subscript(op, t, i);
              h.negate == tmp.negate && h.regType == t && h.file == tmp.file &&
              (ScanRegOk(tmp) && stride != 0 ==>
                 (IsVirtualFile(h.file) ==> h.stride != 0) && (!IsVirtualFile(h.file) ==> h.hstride != 0))
    {
      if ScanRegOk(tmp) && stride != 0 && IsVirtualFile(op.file) {
        assert op.stride == tmp.stride * stride;
        MulNonzero(tmp.stride, stride);
        MulNonzero(op.stride, 2);
      }
    }
  }

  lemma MulNonzero(a: nat, b: nat)
    requires a != 0 && b != 0
    ensures a * b != 0
  {
  }

  // ---------------------------------------------------------------------
  // The lowered 64-bit SEL
  // ---------------------------------------------------------------------

  /** The high 32 bits of a 64-bit value (signed for Q, unsigned for UQ,
      as the value itself) and its low 32 bits, unsigned. */
  function High32(x: int): int {
    x / 0x1_0000_0000
  }

  function Low32(x: int): nat {
    x % 0x1_0000_0000
  }

  /** `a cond b` for the conditions the lowered SEL uses. */
  predicate Holds(cond: CondMod, a: int, b: int) {
    match cond
    case CondL => a < b
    case CondG => a > b
    case CondGe => a >= b
    case _ => a == b
  }

  /** The flag the three comparisons of a lowered SEL step leave: the low
      halves compared unsigned; then, where the flag is set, the high
      halves compared for equality; then, where it is clear, the high
      halves compared with the strict condition. */
  function LoweredSelFlag(strict: CondMod, l: int, r: int): bool {
    var f1 := Holds(strict, Low32(l), Low32(r));
    var f2 := if f1 then Holds(CondEq, High32(l), High32(r)) else f1;
    if !f2 then Holds(strict, High32(l), High32(r)) else f2
  }

  /** The three comparisons decide the strict 64-bit comparison: high
      halves first, low halves (unsigned) on a tie. */
  lemma LoweredSelFlagCompares(strict: CondMod, l: int, r: int)
    requires strict == CondL || strict == CondG
    ensures LoweredSelFlag(strict, l, r) == Holds(strict, l, r)
  {
    var hl, hr, ll, lr := High32(l), High32(r), Low32(l), Low32(r);
    assert l == hl * 0x1_0000_0000 + ll && r == hr * 0x1_0000_0000 + lr;
    if hl < hr {
      assert hl * 0x1_0000_0000 + 0x1_0000_0000 <= hr * 0x1_0000_0000;
    } else if hl > hr {
      assert hr * 0x1_0000_0000 + 0x1_0000_0000 <= hl * 0x1_0000_0000;
    }
  }

  /** The predicated moves after the comparisons leave the minimum (L) or
      the maximum (GE) of the two 64-bit values in the right operand, as a
      native SEL would. */
  lemma LoweredSelSelects(mod: CondMod, l: int, r: int)
    requires mod == CondL || mod == CondGe
    ensures var strict := if mod == CondGe then CondG else mod;
            (if LoweredSelFlag(strict, l, r) then l else r) == (if Holds(mod, l, r) then l else r)
    ensures mod == CondL ==> (if LoweredSelFlag(CondL, l, r) then l else r) == (if l < r then l else r)
    ensures mod == CondGe ==> (if LoweredSelFlag(CondG, l, r) then l else r) == (if l >= r then l else r)
  {
    var strict := if mod == CondGe then CondG else mod;
    LoweredSelFlagCompares(strict, l, r);
  }

  // ---------------------------------------------------------------------
  // Concatenation of per-item instruction lists
  // ---------------------------------------------------------------------

  /** The instruction lists of `xs` in order, one after the other. */
  function ConcatMap<T>(f: T -> seq<Inst>, xs: seq<T>): seq<Inst>
    decreases |xs|
  {
    if xs == [] then [] else ConcatMap(f, xs[..|xs| - 1]) + f(xs[|xs| - 1])
  }

  lemma ConcatMapSingle<T>(f: T -> seq<Inst>, x: T)
    ensures ConcatMap(f, [x]) == f(x)
  {
    assert [x][..0] == [];
  }

  lemma {:induction false} ConcatMapAppend<T>(f: T -> seq<Inst>, a: seq<T>, b: seq<T>)
    ensures ConcatMap(f, a + b) == ConcatMap(f, a) + ConcatMap(f, b)
    decreases |b|
  {
    if b == [] {
      assert a + b == a;
    } else {
      var b' := b[..|b| - 1];
      assert (a + b)[..|a + b| - 1] == a + b' && (a + b)[|a + b| - 1] == b[|b| - 1];
      ConcatMapAppend(f, a, b');
    }
  }

  lemma {:induction false} ConcatMapCongruent<T>(f: T -> seq<Inst>, g: T -> seq<Inst>, xs: seq<T>)
    requires forall i :: 0 <= i < |xs| ==> f(xs[i]) == g(xs[i])
    ensures ConcatMap(f, xs) == ConcatMap(g, xs)
    decreases |xs|
  {
    if xs != [] {
      ConcatMapCongruent(f, g, xs[..|xs| - 1]);
    }
  }

  /** Emitting the instructions of two lists one after the other emits
      those of the joined list. */
  lemma EmittedJoin<T>(i0: seq<Inst>, i1: seq<Inst>, i2: seq<Inst>, c: nat, f: T -> seq<Inst>, xs: seq<T>, ys: seq<T>)
    requires Emitted(i0, i1, c, ConcatMap(f, xs)) && Emitted(i1, i2, c, ConcatMap(f, ys))
    ensures Emitted(i0, i2, c, ConcatMap(f, xs + ys))
  {
    EmittedTrans(i0, i1, i2, c, ConcatMap(f, xs), ConcatMap(f, ys));
    ConcatMapAppend(f, xs, ys);
  }

  lemma EmittedNoSteps<T>(insts: seq<Inst>, c: nat, f: T -> seq<Inst>)
    requires c <= |insts|
    ensures Emitted(insts, insts, c, ConcatMap(f, []))
  {
    EmittedNothing(insts, c);
  }

  /** A property of every instruction of every list holds of every
      instruction of their concatenation. */
  lemma {:induction false} ConcatMapAll<T>(f: T -> seq<Inst>, xs: seq<T>, p: Inst -> bool)
    requires forall i :: 0 <= i < |xs| ==> forall k :: 0 <= k < |f(xs[i])| ==> p(f(xs[i])[k])
    ensures forall k :: 0 <= k < |ConcatMap(f, xs)| ==> p(ConcatMap(f, xs)[k])
    decreases |xs|
  {
    if xs != [] {
      var init := ConcatMap(f, xs[..|xs| - 1]);
      var last := f(xs[|xs| - 1]);
      ConcatMapAll(f, xs[..|xs| - 1], p);
      forall k | 0 <= k < |init + last|
        ensures p((init + last)[k])
      {
        if k >= |init| {
          assert (init + last)[k] == last[k - |init|];
        }
      }
    }
  }

  /** `inst` runs with the mask off in channel group `group`, with
      annotation `annotation`. */
  predicate MaskOffIn(inst: Inst, group: nat, annotation: Annotation) {
    inst.forceWritemaskAll && inst.group == group && inst.annotation == annotation
  }
}
