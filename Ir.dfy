// The scalar back end's intermediate representation as seen by the builder
// and the validator: register references, instructions, the device
// parameters they depend on, and the shader state (instruction list and
// virtual-register allocation table) that the builder appends to.

module Ir {

  datatype Option<T> = None | Some(value: T)

  /** Size in bytes of one hardware register. */
  const RegSize: nat := 32

  // ---------------------------------------------------------------------
  // Register files and element types
  // ---------------------------------------------------------------------

  /** Storage classes of a register reference, in the order of the IR's
      enumeration: the hardware files first, then the IR-only ones. */
  datatype RegFile = Arf | FixedGrf | Imm | Vgrf | Attr | Uniform | BadFile

  /** The files that compare `>= VGRF` in the IR's enumeration; their
      regions are described by `stride`, the others' by the encoded
      vstride/width/hstride triple. */
  predicate IsVirtualFile(f: RegFile) {
    f.Vgrf? || f.Attr? || f.Uniform? || f.BadFile?
  }

  datatype TypeKind = UInt | SInt | Float

  /** An element type: its kind and its width in bits. */
  datatype RegType = RegType(kind: TypeKind, bits: nat)

  const UB := RegType(UInt, 8)
  const B := RegType(SInt, 8)
  const UW := RegType(UInt, 16)
  const W := RegType(SInt, 16)
  const UD := RegType(UInt, 32)
  const D := RegType(SInt, 32)
  const UQ := RegType(UInt, 64)
  const Q := RegType(SInt, 64)
  const HF := RegType(Float, 16)
  const F := RegType(Float, 32)
  const DF := RegType(Float, 64)

  predicate ValidType(t: RegType) {
    t.bits == 8 || t.bits == 16 || t.bits == 32 || t.bits == 64
  }

  function SizeBytes(t: RegType): nat {
    t.bits / 8
  }

  predicate IsIntType(t: RegType) {
    t.kind.UInt? || t.kind.SInt?
  }

  predicate IsFloatType(t: RegType) {
    t.kind.Float?
  }

  /** The type of the same kind as `t` with the given width in bits. */
  function WithSize(t: RegType, bits: nat): RegType {
    RegType(t.kind, bits)
  }

  /** The wider of two types (the first on a tie); used to infer the
      destination type of a two-source operation. */
  function LargerOf(a: RegType, b: RegType): RegType {
    if b.bits > a.bits then b else a
  }

  // ---------------------------------------------------------------------
  // Region encodings of the hardware files
  // ---------------------------------------------------------------------

  const VStride0: nat := 0
  const VStride1: nat := 1
  const VStride2: nat := 2
  const VStride4: nat := 3
  const VStride8: nat := 4
  const VStride16: nat := 5
  const Width1: nat := 0
  const Width8: nat := 3
  const HStride0: nat := 0
  const HStride1: nat := 1

  /** Architecture register numbers of the null register and of the
      accumulator block. */
  const ArfNull: nat := 0x00
  const ArfAccumulator: nat := 0x20

  function Pow2(n: nat): (r: nat)
    ensures r >= 1
  {
    if n == 0 then 1 else 2 * Pow2(n - 1)
  }

  /** Decoded value of an encoded stride: 0 stays 0, e encodes 2^(e-1). */
  function DecodeStride(e: nat): nat {
    if e == 0 then 0 else Pow2(e - 1)
  }

  function Log2(n: nat): nat {
    if n <= 1 then 0 else 1 + Log2(n / 2)
  }

  // ---------------------------------------------------------------------
  // Register references
  // ---------------------------------------------------------------------

  /** A register reference. `stride` describes virtual-file regions (in
      elements), `vstride`/`width`/`hstride` the hardware files' encoded
      region, `offset` is a byte offset inside a virtual register, `subnr`
      a byte sub-register number of a hardware register, `imm` the raw bit
      pattern of an immediate. */
  datatype Reg = Reg(file: RegFile, regType: RegType, nr: nat, offset: nat,
                     stride: nat, vstride: nat, width: nat, hstride: nat,
                     subnr: nat, negate: bool, abs: bool, imm: nat)

  predicate IsNull(r: Reg) {
    r.file.Arf? && r.nr == ArfNull
  }

  /** `(nr & 0xF0) == ArfAccumulator` on an architecture register. */
  predicate IsAccumulator(r: Reg) {
    r.file.Arf? && (r.nr / 16) % 16 == ArfAccumulator / 16
  }

  /** The undefined register (`reg_undef`): destination of nullary
      control instructions. */
  const UndefReg: Reg := Reg(BadFile, UD, 0, 0, 1, 0, 0, 0, 0, false, false, 0)

  /** The null register of type `t`: an 8-wide architecture register. */
  function NullReg(t: RegType): Reg {
    Reg(Arf, t, ArfNull, 0, 1, VStride8, Width8, HStride1, 0, false, false, 0)
  }

  /** The reference to virtual register `nr`, at offset 0 with stride 1. */
  function VgrfReg(nr: nat, t: RegType): Reg {
    Reg(Vgrf, t, nr, 0, 1, 0, 0, 0, 0, false, false, 0)
  }

  /** An immediate of type `t` holding the bit pattern `bits`. */
  function ImmReg(t: RegType, bits: nat): Reg {
    Reg(Imm, t, 0, 0, 0, VStride0, Width1, HStride0, 0, false, false, bits)
  }

  /** The bit pattern of the single-precision value 1.0. */
  const OneF: nat := 0x3f80_0000

  function Retype(r: Reg, t: RegType): Reg {
    r.(regType := t)
  }

  function Negate(r: Reg): Reg {
    r.(negate := !r.negate)
  }

  /** Moves a reference `bytes` bytes further into its storage. */
  function ByteOffset(r: Reg, bytes: nat): Reg {
    match r.file
    case Vgrf | Attr | Uniform => r.(offset := r.offset + bytes)
    case Arf | FixedGrf =>
      r.(nr := r.nr + (r.subnr + bytes) / RegSize, subnr := (r.subnr + bytes) % RegSize)
    case Imm | BadFile => r
  }

  /** The reference to channel `delta` of `r` onwards. */
  function HorizOffset(r: Reg, delta: nat): Reg {
    match r.file
    case BadFile | Uniform | Imm => r
    case Vgrf | Attr => ByteOffset(r, Product(Product(delta, r.stride), SizeBytes(r.regType)))
    case Arf | FixedGrf =>
      if IsNull(r) then r
      else
        var hs := DecodeStride(r.hstride);
        var vs := DecodeStride(r.vstride);
        var w := Pow2(r.width);
        if Remainder(delta, w) == 0 then ByteOffset(r, Product(Product(Quotient(delta, w), vs), SizeBytes(r.regType)))
        else ByteOffset(r, Product(Product(delta, hs), SizeBytes(r.regType)))
  }

  /** Multiplies the stride of a reference by `s`. */
  function HorizStride(r: Reg, s: nat): Reg {
    r.(stride := Product(r.stride, s))
  }

  /** An encoded stride rescaled by `delta` powers of two (0 stays 0). */
  function ShiftEncoded(e: nat, delta: int): nat {
    if e == 0 || e + delta < 0 then 0 else e + delta
  }

  /** The `i`-th `t`-sized piece of every element of `r`. */
  function Subscript(r: Reg, t: RegType, i: nat): Reg
    requires SizeBytes(t) > 0
  {
    match r.file
    case Arf | FixedGrf =>
      var delta: int := Log2(SizeBytes(r.regType)) - Log2(SizeBytes(t));
      var r1 := r.(hstride := ShiftEncoded(r.hstride, delta), vstride := ShiftEncoded(r.vstride, delta));
      ByteOffset(Retype(r1, t), Product(i, SizeBytes(t)))
    case Imm =>
      var piece := Remainder(Quotient(r.imm, Pow2(Product(i, t.bits))), Pow2(t.bits));
      Retype(r.(imm := if t.bits <= 16 then piece + Product(piece, Pow2(16)) else piece), t)
    case Vgrf | Attr | Uniform | BadFile =>
      ByteOffset(Retype(r.(stride := Product(r.stride, Quotient(SizeBytes(r.regType), SizeBytes(t)))), t),
                 Product(i, SizeBytes(t)))
  }

  /** Channel `idx` of `r`, replicated (a scalar region). */
  function Component(r: Reg, idx: nat): Reg {
    var r1 := HorizOffset(r, idx).(stride := 0);
    if r1.file.Arf? || r1.file.FixedGrf? then r1.(vstride := VStride0, width := Width1, hstride := HStride0)
    else r1
  }

  function AtLeastOne(n: nat): (r: nat)
    ensures r >= 1
  {
    if n < 1 then 1 else n
  }

  /** Bytes spanned by one component of `r` at SIMD width `width`. */
  function ComponentSize(r: Reg, width: nat): nat {
    if r.file.Arf? || r.file.FixedGrf? then
      var rowWidth := Pow2(r.width);
      var w := AtLeastOne(if width < rowWidth then width else rowWidth);
      var rows := AtLeastOne(Quotient(width, rowWidth));
      Product(Product(rows - 1, DecodeStride(r.vstride)) + Product(w - 1, DecodeStride(r.hstride)) + 1,
              SizeBytes(r.regType))
    else
      Product(AtLeastOne(Product(width, r.stride)), SizeBytes(r.regType))
  }

  function Product(a: nat, b: nat): nat {
    a * b
  }

  function Quotient(a: nat, b: nat): nat
    requires b > 0
  {
    a / b
  }

  function Remainder(a: nat, b: nat): nat
    requires b > 0
  {
    a % b
  }

  /** Component `delta` of a logical value laid out at SIMD width `width`. */
  function Offset(r: Reg, width: nat, delta: nat): Reg {
    match r.file
    case BadFile | Imm => r
    case Arf | FixedGrf | Vgrf | Attr | Uniform => ByteOffset(r, Product(delta, ComponentSize(r, width)))
  }

  // ---------------------------------------------------------------------
  // Instructions
  // ---------------------------------------------------------------------

  datatype Opcode =
    | Mov | Sel | Not | And | Or | Xor | Shr | Shl | Asr | Rol | Ror
    | Cmp | Cmpn | Csel | Bfrev | Bfe | Bfi1 | Bfi2
    | Add | Add3 | Avg | Mul | Mac | Mach | Addc | Subb | Sad2 | Sada2
    | Dp4 | Dph | Dp3 | Dp2 | Dp4a | Line | Pln | Mad | Lrp | Frc
    | Rndu | Rndd | Rnde | Rndz | Lzd | Fbh | Fbl | Cbit | Dpas
    | If | Endif | Do | While | Break | Continue | Nop | Sync
    | Send | LoadPayload | Undef | FindLiveChannel | Broadcast
    | Rcp | Rsq | Sqrt | Exp2 | Log2Op | Pow | IntQuotient | IntRemainder | Sin | Cos
    | OtherOp(code: nat)

  datatype PredMode = NoPredicate | PredicateNormal

  datatype CondMod = CondNone | CondZ | CondNz | CondG | CondGe | CondL | CondLe | CondO | CondU

  /** EQ is the hardware's Z condition. */
  const CondEq: CondMod := CondZ

  /** Bytes written by an instruction: the value the instruction
      constructor derives from the destination, or an explicit count. */
  datatype SizeWritten = DefaultSize | Bytes(n: nat)

  /** Debug annotation: a string and an opaque reference to the IR node, either absent. */
  datatype Annotation = Annotation(str: Option<string>, ir: Option<nat>)

  const NoAnnotation: Annotation := Annotation(None, None)

  datatype Inst = Inst(opcode: Opcode, execSize: nat, dst: Reg, srcs: seq<Reg>,
                       group: nat, forceWritemaskAll: bool, annotation: Annotation,
                       pred: PredMode, predInverse: bool, condMod: CondMod,
                       writesAccumulator: bool, headerSize: nat, sizeWritten: SizeWritten,
                       sdepth: nat, rcount: nat)

  /** A freshly constructed instruction: channel group 0, masking on, no
      annotation, no predicate or conditional modifier. */
  function MakeInst(op: Opcode, execSize: nat, dst: Reg, srcs: seq<Reg>): Inst {
    Inst(op, execSize, dst, srcs, 0, false, NoAnnotation, NoPredicate, false, CondNone,
         false, 0, DefaultSize, 0, 0)
  }

  // ---------------------------------------------------------------------
  // Device parameters
  // ---------------------------------------------------------------------

  /** Allocation granularity of the register file, in registers. */
  type RegUnit = u: nat | u == 1 || u == 2 witness 1

  /** The device capabilities the core consults: hardware generation,
      native 64-bit integer support, register unit and two workaround
      flags. */
  datatype DevInfo = DevInfo(ver: nat, has64bitInt: bool, regUnit: RegUnit,
                             needsWa14014617373: bool, needsWa22016140776: bool)

  // ---------------------------------------------------------------------
  // Insertion into the instruction list
  // ---------------------------------------------------------------------

  /** `xs` inserted at position `k` of `s`. */
  function Splice<T>(s: seq<T>, k: nat, xs: seq<T>): seq<T>
    requires k <= |s|
  {
    s[..k] + xs + s[k..]
  }

  /** Removes `n` elements starting at position `k`. */
  function Cut<T>(s: seq<T>, k: nat, n: nat): seq<T>
    requires k + n <= |s|
  {
    s[..k] + s[k + n..]
  }

  /** Splicing puts `xs` at `k..k+|xs|`, keeps the elements before `k` in
      place and shifts the rest by `|xs|`, so cutting it out again gives
      back the original list. */
  lemma SpliceShape<T>(s: seq<T>, k: nat, xs: seq<T>)
    requires k <= |s|
    ensures |Splice(s, k, xs)| == |s| + |xs|
    ensures Splice(s, k, xs)[k..k + |xs|] == xs
    ensures forall i :: 0 <= i < k ==> Splice(s, k, xs)[i] == s[i]
    ensures forall i :: k <= i < |s| ==> Splice(s, k, xs)[i + |xs|] == s[i]
    ensures Cut(Splice(s, k, xs), k, |xs|) == s
  {
    var r := Splice(s, k, xs);
    assert r[..k] == s[..k];
    assert r[k + |xs|..] == s[k..];
    assert s[..k] + s[k..] == s;
  }

  /** `after` is `before` with `added` inserted in front of the cursor,
      the cursor being the number of instructions at and after it. */
  ghost predicate Emitted(before: seq<Inst>, after: seq<Inst>, cursor: nat, added: seq<Inst>) {
    cursor <= |before| && after == Splice(before, |before| - cursor, added)
  }

  /** Two insertions in front of the same cursor amount to one insertion
      of both lists, in order: the cursor still designates the same
      instruction after the first. */
  lemma {:induction false} EmittedTrans(a: seq<Inst>, b: seq<Inst>, c: seq<Inst>, cursor: nat, xs: seq<Inst>, ys: seq<Inst>)
    requires Emitted(a, b, cursor, xs)
    requires Emitted(b, c, cursor, ys)
    ensures Emitted(a, c, cursor, xs + ys)
  {
    var k := |a| - cursor;
    assert |b| == |a| + |xs|;
    assert |b| - cursor == k + |xs|;
    assert b[..k + |xs|] == a[..k] + xs;
    assert b[k + |xs|..] == a[k..];
    assert c == (a[..k] + xs) + ys + a[k..];
  }

  /** Appending two lists in turn appends their concatenation. */
  lemma AppendTwice<T>(a: seq<T>, xs: seq<T>, ys: seq<T>)
    ensures (a + xs) + ys == a + (xs + ys)
  {
  }

  /** Updating the instruction inserted last, just in front of the
      cursor, amounts to having inserted the updated one. */
  lemma {:induction false} EmittedReplaceLast(a: seq<Inst>, b: seq<Inst>, cursor: nat, xs: seq<Inst>, x: Inst, y: Inst)
    requires Emitted(a, b, cursor, xs + [x])
    ensures |b| - cursor - 1 >= 0 && b[|b| - cursor - 1] == x
    ensures Emitted(a, b[|b| - cursor - 1 := y], cursor, xs + [y])
  {
    var k := |a| - cursor;
    assert b == a[..k] + (xs + [x]) + a[k..];
    assert b[|b| - cursor - 1 := y] == a[..k] + (xs + [y]) + a[k..];
  }

  lemma EmittedNothing(a: seq<Inst>, cursor: nat)
    requires cursor <= |a|
    ensures Emitted(a, a, cursor, [])
  {
    assert a[..|a| - cursor] + a[|a| - cursor..] == a;
  }

  // ---------------------------------------------------------------------
  // Shader state
  // ---------------------------------------------------------------------

  /** The compilation state the builder appends to: the instruction list
      (flattened across blocks) and the sizes, in registers, of the
      virtual registers allocated so far. */
  class Shader {
    var insts: seq<Inst>
    var alloc: seq<nat>
    const devinfo: DevInfo
    const dispatchWidth: nat

    constructor (devinfo: DevInfo, dispatchWidth: nat)
      ensures this.devinfo == devinfo && this.dispatchWidth == dispatchWidth
      ensures insts == [] && alloc == []
    {
      this.devinfo := devinfo;
      this.dispatchWidth := dispatchWidth;
      insts := [];
      alloc := [];
    }

    /** Appends a virtual register of `size` registers and returns its
        number. */
    method Allocate(size: nat) returns (nr: nat)
      modifies this
      ensures nr == |old(alloc)| && alloc == old(alloc) + [size]
      ensures alloc[nr] == size
      ensures insts == old(insts)
    {
      nr := |alloc|;
      alloc := alloc + [size];
    }

    /** Inserts `inst` in front of the instruction `cursor` positions from
        the end (0: at the end). */
    method InsertBefore(cursor: nat, inst: Inst)
      requires cursor <= |insts|
      modifies this
      ensures Emitted(old(insts), insts, cursor, [inst])
      ensures alloc == old(alloc)
    {
      insts := Splice(insts, |insts| - cursor, [inst]);
    }

    /** Overwrites instruction `idx` with `inst` (an instruction updated
        after it was inserted). */
    method Replace(idx: nat, inst: Inst)
      requires idx < |insts|
      modifies this
      ensures insts == old(insts)[idx := inst]
      ensures alloc == old(alloc)
    {
      insts := insts[idx := inst];
    }
  }
}
