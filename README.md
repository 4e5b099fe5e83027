# Intel shader-compiler builder, IR validator, genxml canonicaliser and tile swizzles in Dafny

This project models four pieces of Mesa's Intel driver and proves properties of them.

- **The SIMD instruction builder** (`brw::fs_builder`, `brw_fs_builder.h`), in `Builder.dfy` (module `FsBuilder`).
  - The shader state is in `Ir.dfy`. It is a `Shader` class with the instruction list and the virtual-register allocation table.
  - The builder is a value: width, channel group, mask override, cursor and annotation.
  - Its derive operations (`at`, `group`, `quarter`, `exec_all`, `annotate`) are functions that return a changed copy.
  - Every `emit` overload and lowering helper is a method that changes the shader. It is proved to insert exactly the listed instructions in front of the cursor (`Ir.Emitted`) and to grow the allocation table by exactly the listed sizes.
  - The clustered inclusive scan (`emit_scan`) is specified by a plan of combining steps in `ScanPlan.dfy`. The recursive emitting methods are proved to emit that plan.
- **The IR validator** (`brw_fs_validate.cpp`), in `Validate.dfy`. Every structural check and both register-region tables are predicates on one instruction. The pass is the search for the first instruction that breaks them.
- **The genxml canonicaliser** (`intel_genxml.py`), in five files:
  - `GenxmlTree.dfy`: element trees as values, attribute lookup, `int(s, 0)`, `str.split`, `is_base_type`, and the attribute descriptor table.
  - `GenxmlSort.dfy`: Python's stable `sorted`.
  - `GenxmlAttribs.dfy`: `process_attribs` and `node_validator`.
  - `GenxmlStructs.dfy`: `add_struct_refs`, and the `Struct` class with `find_deps` and `add_xml`, over an ordered-dictionary class.
  - `GenxmlDoc.dfy`: `sort_xml`, and `GenXml.filter_engines` as a method on a class that holds the root.
- **The tile swizzle oracles** of the ISL tiled-memcpy unit test (`isl_tilememcpy_tiled_unittest.cpp`), in `Tiles.dfy` (module `TileSwizzle`).
  - `swizzle_bitops` and the Tile-Y and Tile-4 offset functions work on 32-bit unsigned values, with explicit shifts, AND and OR.
  - The fixture is a class with two byte arrays. Its `bounded_byte_fill` is a nested loop proved against a function of the old buffer.

`REG_SIZE` is 32 bytes. The register unit (1 or 2), the hardware generation and the workaround flags are fields of a device record passed in.

## Model

| member | source | states |
|---|---|---|
| FsBuilder.NewBuilder | src/intel/compiler/brw_fs_builder.h:42-50 | a builder for a shader and width has no block and no cursor, channel group 0, the mask on and no annotation |
| FsBuilder.ForShader | src/intel/compiler/brw_fs_builder.h:52 | the shader's own builder is the new builder at the shader's dispatch width |
| FsBuilder.BuilderAt | src/intel/compiler/brw_fs_builder.h:60-68 | the builder for an instruction points its cursor at that instruction and takes the instruction's width, group, mask override and annotation |
| FsBuilder.AtKeepsParameters | src/intel/compiler/brw_fs_builder.h:75-82 | `at` changes only block and cursor; a second `at` overrides the first |
| FsBuilder.EmitAtInstInsertsBefore | src/intel/compiler/brw_fs_builder.h:60-68 | emitting at an instruction puts the new instructions right in front of it and leaves the instructions before and after in place |
| FsBuilder.EmitAtEndAppends | src/intel/compiler/brw_fs_builder.h:89-93 | emitting with the cursor at the end appends the new instructions |
| FsBuilder.Builder.Group | src/intel/compiler/brw_fs_builder.h:103-126 | `group(n, i)` sets the width to `n` and nothing else but the group; for a subgroup inside the builder the group is `group + i * n` and stays inside the parent's channels; otherwise (allowed only with the mask off) the group is 0 |
| FsBuilder.Builder.SubgroupInside | src/intel/compiler/brw_fs_builder.h:108-109 | subgroup `i` of width `n` ends inside the builder's channels |
| FsBuilder.GroupNests | src/intel/compiler/brw_fs_builder.h:103-135 | a subgroup of a subgroup stays inside the outer builder's channels and shares its shader and cursor |
| FsBuilder.ExecAllMonotone | src/intel/compiler/brw_fs_builder.h:142-149 | `exec_all(x).exec_all(y)` is `exec_all(x or y)`, it never clears the flag, and `exec_all(false)` is the identity |
| FsBuilder.AnnotateLastWins | src/intel/compiler/brw_fs_builder.h:154-161 | the later annotation replaces the earlier one, and emitted instructions carry it |
| FsBuilder.VgrfSizeIsMinimal | src/intel/compiler/brw_fs_builder.h:187-200 | the allocation size is a multiple of the register unit, holds `n * size * width` bytes, is the smallest such multiple, and is zero exactly when nothing is asked for |
| FsBuilder.DivRoundUpBounds | src/intel/compiler/brw_fs_builder.h:195-196 | `DIV_ROUND_UP(a, b)` is the least multiple count covering `a` |
| FsBuilder.Builder.Vgrf | src/intel/compiler/brw_fs_builder.h:187-200 | for `n > 0` one allocation of that size is appended and the result names it; for `n == 0` the table is unchanged and the result is the null register of the type; no instruction is emitted |
| FsBuilder.Builder.NullRegOf | src/intel/compiler/brw_fs_builder.h:205-233 | the null register of a type is a null, non-virtual register of that type |
| FsBuilder.Builder.EmitInst | src/intel/compiler/brw_fs_builder.h:328-346 | under the width check, the instruction is stamped with the builder's group, mask override and annotation and inserted right in front of the cursor, with the allocations unchanged |
| FsBuilder.Builder.EmitRaw | src/intel/compiler/brw_fs_builder.h:238-279 | the opcode/destination/sources overloads insert exactly one instruction of the builder's width in front of the cursor |
| FsBuilder.Builder.EmitTernary | src/intel/compiler/brw_fs_builder.h:285-303 | BFE, BFI2, MAD and LRP get their three sources legalised, with the fix-up MOVs inserted first; any other opcode keeps its sources |
| FsBuilder.Builder.EmitSources | src/intel/compiler/brw_fs_builder.h:309-322 | the source-array overload legalises exactly when there are three sources and a ternary opcode that needs it |
| FsBuilder.Builder.EmitFixed | src/intel/compiler/brw_fs_builder.h:285-303 | the fixed-up instruction has the legalised sources, and the fix-ups' allocations and MOVs come before it |
| FsBuilder.Builder.FixupOf | src/intel/compiler/brw_fs_builder.h:876-899 | a source is kept exactly when it needs no fix; otherwise it becomes a fresh virtual register filled by one MOV; the result never needs a fix |
| FsBuilder.FixupsAreLegal | src/intel/compiler/brw_fs_builder.h:876-899 | after legalisation no source needs a fix, the legal ones are unchanged, the others are fresh virtual registers, and at most one MOV is emitted per source |
| FsBuilder.Builder.FixOperand | src/intel/compiler/brw_fs_builder.h:859-899 | one operand's legalisation emits and allocates exactly what `Fixups` of that operand lists |
| FsBuilder.Builder.FixOperands | src/intel/compiler/brw_fs_builder.h:295-301 | legalising several operands emits and allocates the fix-ups of each in turn, in the left-to-right order the model chooses (see Left out) |
| FsBuilder.Builder.FixupsJoin | src/intel/compiler/brw_fs_builder.h:295-301 | legalising the first operand and then the rest is legalising all of them |
| FsBuilder.Builder.Alu1 | src/intel/compiler/brw_fs_builder.h:548-563 | a one-source ALU operation emits one instruction with that source and allocates nothing |
| FsBuilder.Builder.Alu1New | src/intel/compiler/brw_fs_builder.h:548-563 | the destination-less form allocates one register of the source's type and writes the instruction to it |
| FsBuilder.Builder.Alu2 | src/intel/compiler/brw_fs_builder.h:567-581 | a two-source ALU operation emits one instruction with both sources |
| FsBuilder.Builder.Alu2New | src/intel/compiler/brw_fs_builder.h:567-581 | the destination-less form writes a fresh register of the larger source type, at least as wide as either source |
| FsBuilder.Builder.Alu2Acc | src/intel/compiler/brw_fs_builder.h:585-592 | ADDC, SUBB and MACH are emitted as writing the accumulator |
| FsBuilder.Builder.Alu3 | src/intel/compiler/brw_fs_builder.h:594-600 | three-source ALU operations go through the legalising ternary emit |
| FsBuilder.Builder.ControlFlow | src/intel/compiler/brw_fs_builder.h:847-852 | BREAK, DO, ENDIF, NOP, WHILE and CONTINUE emit one instruction with no operands |
| FsBuilder.Builder.EmitMinmax | src/intel/compiler/brw_fs_builder.h:354-365 | min/max is one SEL with the condition and both sources through the unsigned-negate fix, after the fix-ups |
| FsBuilder.Builder.EmitUniformize | src/intel/compiler/brw_fs_builder.h:370-388 | two mask-off instructions, FIND_LIVE_CHANNEL into a fresh UD register and BROADCAST into a fresh register of the source's type; the result is that register's channel 0 as a scalar |
| FsBuilder.Builder.Components | src/intel/compiler/brw_fs_builder.h:393-394 | `n` components, all of the source's type |
| FsBuilder.ComponentsDisjoint | src/intel/compiler/brw_fs_builder.h:393-394 | the components of a virtual register do not overlap and stay in that register |
| FsBuilder.Builder.MoveToVgrf | src/intel/compiler/brw_fs_builder.h:390-403 | one fresh allocation of `n` components (none for `n == 0`), then one LOAD_PAYLOAD of the components into it; the payload fits the allocation |
| FsBuilder.MoveToVgrfFits | src/intel/compiler/brw_fs_builder.h:390-403 | the bytes a uniform payload writes fit the register `vgrf` allocates for it |
| FsBuilder.CmpTypeFollowsSource | src/intel/compiler/brw_fs_builder.h:683-686 | the comparison's destination type has source 0's kind; it is source 0's type for a null destination and the destination's width otherwise |
| FsBuilder.Builder.Compare | src/intel/compiler/brw_fs_builder.h:671-718 | CMP and CMPN retype the destination, pass both sources through the unsigned-negate fix and set the condition |
| FsBuilder.Builder.IfOp | src/intel/compiler/brw_fs_builder.h:723-727 | IF is one predicated instruction without operands |
| FsBuilder.Builder.EmitCsel | src/intel/compiler/brw_fs_builder.h:732-748 | CSEL is emitted on float operands, with the condition set |
| FsBuilder.Builder.EmitLrp | src/intel/compiler/brw_fs_builder.h:753-774 | up to generation 10 one ternary LRP with sources `a, y, x`; later the four-instruction lowering into three fresh registers |
| FsBuilder.Builder.EmitLrpLowered | src/intel/compiler/brw_fs_builder.h:763-773 | the lowering allocates three registers of the destination's type and emits `y*a`, `1-a` (negated `a` plus the immediate 1.0), `x*(1-a)` and the final ADD into the destination, in that order |
| FsBuilder.PayloadBytesAppend | src/intel/compiler/brw_fs_builder.h:786-789 | each source past the header adds `width * size * stride` bytes to the payload |
| FsBuilder.PayloadBytesUniform | src/intel/compiler/brw_fs_builder.h:786-789 | a headerless payload of sources of one type is `count * size * width` bytes |
| FsBuilder.Builder.EmitLoadPayload | src/intel/compiler/brw_fs_builder.h:779-792 | LOAD_PAYLOAD records the header size and `size_written` as the header registers plus each further source's bytes |
| FsBuilder.Builder.Vec | src/intel/compiler/brw_fs_builder.h:794-804 | VEC emits one MOV per source into consecutive components of the destination, in order |
| FsBuilder.Builder.SyncOp | src/intel/compiler/brw_fs_builder.h:806-810 | SYNC writes the null UD register from an immediate |
| FsBuilder.Builder.UndefOp | src/intel/compiler/brw_fs_builder.h:812-822 | UNDEF writes the rest of the destination's register, from its offset to the end of the allocation, in 32-bit arithmetic |
| FsBuilder.UndefCoversRest | src/intel/compiler/brw_fs_builder.h:819 | the offset plus the bytes UNDEF writes is the allocation's size |
| FsBuilder.Builder.EmitUndefForDst | src/intel/compiler/brw_fs_builder.h:533-542 | the UNDEF for an instruction's destination covers exactly the bytes that instruction writes |
| FsBuilder.Builder.DpasOp | src/intel/compiler/brw_fs_builder.h:824-843 | DPAS records the systolic depth and repeat count and writes `rcount` rows of the destination |
| FsBuilder.Builder.DpasWritesRows | src/intel/compiler/brw_fs_builder.h:836-840 | DPAS writes `rcount * width` half-floats for an HF destination and as many dwords otherwise |
| FsBuilder.Builder.EmitScanStep | src/intel/compiler/brw_fs_builder.h:405-468 | one scan step emits exactly the instructions `StepInsts` gives: a single operation, or the CMP/MOV decomposition of a 64-bit SEL |
| FsBuilder.Builder.EmitLoweredSel | src/intel/compiler/brw_fs_builder.h:422-459 | the 64-bit SEL becomes a low-half unsigned compare, a high-half equality compare and an inverse-predicated high-half compare, then two predicated 32-bit moves |
| FsBuilder.Builder.ScanSelOperands | src/intel/compiler/brw_fs_builder.h:433-439 | the operands of a scan step with a 64-bit SEL meet the decomposition's needs |
| FsBuilder.LoweredSelFlagCompares | src/intel/compiler/brw_fs_builder.h:441-451 | on the 64-bit values, the flag the two compares leave is the strict comparison |
| FsBuilder.LoweredSelSelects | src/intel/compiler/brw_fs_builder.h:422-459 | the moves select what a 64-bit SEL with L or GE would: the minimum or the maximum |
| FsBuilder.Builder.StepMaskOff | src/intel/compiler/brw_fs_builder.h:405-468 | every instruction of a scan step runs with the mask off, in the builder's group and annotation |
| FsBuilder.Builder.ScanInstsMaskOff | src/intel/compiler/brw_fs_builder.h:470-531 | every instruction the scan emits runs with the mask off |
| FsBuilder.Builder.ScanInstsShared | src/intel/compiler/brw_fs_builder.h:470-531 | two builders on the same shader, block, cursor, group and annotation emit the same scan |
| FsBuilder.Builder.ScanStepOk | src/intel/compiler/brw_fs_builder.h:493-530 | every step of the plan meets the step's preconditions |
| FsBuilder.Builder.EmitScan | src/intel/compiler/brw_fs_builder.h:470-531 | the scan emits the instructions of `ScanPlan.Plan` for its width, type size and cluster size, and allocates nothing |
| FsBuilder.Builder.EmitSplitScan | src/intel/compiler/brw_fs_builder.h:479-491 | above two registers the scan emits the two half-width scans and then the cross-half step |
| FsBuilder.Builder.EmitCrossStep | src/intel/compiler/brw_fs_builder.h:486-489 | the cross-half step is emitted only when the cluster is wider than a half |
| FsBuilder.Builder.EmitPairPart | src/intel/compiler/brw_fs_builder.h:493-496 | the half-width step folding each even channel into the next odd one, emitted only when clusters hold more than one channel |
| FsBuilder.Builder.EmitQuadPart | src/intel/compiler/brw_fs_builder.h:498-515 | the quad steps: two strided steps, or one step per group of four for 64-bit types |
| FsBuilder.Builder.EmitWideSteps | src/intel/compiler/brw_fs_builder.h:511-513 | the loop over groups of four emits one step per group, in order |
| FsBuilder.Builder.EmitDoublingPart | src/intel/compiler/brw_fs_builder.h:517-530 | the doubling loop emits one iteration for each `i = 4, 8, ...` below both the cluster size and the width |
| FsBuilder.Builder.EmitDoublingIteration | src/intel/compiler/brw_fs_builder.h:520-529 | an iteration emits one block step, then a second and then two more only as far as the width reaches |
| FsBuilder.RegPlanSplit | src/intel/compiler/brw_fs_builder.h:479-491 | the plan of a wide scan is the lower half's plan, the upper half's plan on the shifted register, then the cross step |
| FsBuilder.HorizOffsetKeepsRegion | src/intel/compiler/brw_fs_builder.h:483 | shifting a register to its upper half keeps its file, type, stride and negation |
| ScanPlan.PlanDirect | src/intel/compiler/brw_fs_builder.h:493-530 | up to two registers the plan is the pair part, the quad part and the doubling part in that order |
| ScanPlan.PlanSplit | src/intel/compiler/brw_fs_builder.h:479-491 | above two registers the plan splits into the two half plans and the cross step, and the halves pass the width check |
| ScanPlan.PlanEmptyForSingletons | src/intel/compiler/brw_fs_builder.h:479-531 | with clusters of one channel the scan emits nothing, at every width |
| ScanPlan.ScanWidthOkForSupported | src/intel/compiler/brw_fs_builder.h:474-481 | widths 8, 16 and 32 with type sizes 1 to 8 pass the scan's width check at every level of splitting |
| ScanPlan.PlanStaysInCluster | src/intel/compiler/brw_fs_builder.h:470-531 | every step of the scan folds a lower channel into a higher one of the same power-of-two cluster, inside the scanned channels |
| ScanPlan.SplitLevelLocal | src/intel/compiler/brw_fs_builder.h:479-491 | the same for the split level: both half plans and the cross step stay inside clusters |
| ScanPlan.DoublingIterationShape | src/intel/compiler/brw_fs_builder.h:520-529 | an iteration has one, two or four block steps as the width is at most `2i`, at most `4i`, or more |
| Ir.Shader.constructor | src/intel/compiler/brw_fs_builder.h:52 | a shader starts with no instructions and no allocations, at the given device and dispatch width |
| Ir.Shader.Allocate | src/intel/compiler/brw_fs_builder.h:194-197 | appends one allocation and returns its number; instructions are unchanged |
| Ir.Shader.InsertBefore | src/intel/compiler/brw_fs_builder.h:340-343 | inserts one instruction in front of the cursor; allocations are unchanged |
| Ir.Shader.Replace | src/intel/compiler/brw_fs_builder.h:363-364 | overwrites one instruction and nothing else |
| Ir.EmittedTrans | src/intel/compiler/brw_fs_builder.h:328-346 | two insertions at one cursor are one insertion of both lists, in order |
| Ir.EmittedReplaceLast | src/intel/compiler/brw_fs_builder.h:363-364 | changing the instruction just inserted, as `set_condmod(emit(...))` does, is inserting the changed instruction |
| Ir.SpliceShape | src/intel/compiler/brw_fs_builder.h:340-343 | inserting a list keeps everything before and after it in order, and removing it again gives the original |
| Validate.FirstFailure | src/intel/compiler/brw_fs_validate.cpp:97-98 | the walk finds no failure exactly when every instruction passes; otherwise it returns the first that fails |
| Validate.StructureVerdict | src/intel/compiler/brw_fs_validate.cpp:90-229 | the structural pass completes exactly when every instruction passes all checks, and otherwise aborts at the first that breaks one |
| Validate.EmittedKeepsPassing | src/intel/compiler/brw_fs_validate.cpp:97-98 | inserting passing instructions with the builder into a passing program keeps it passing |
| Validate.ThreeSrcTypesUniform | src/intel/compiler/brw_fs_validate.cpp:122-133 | the three-source type rule holds exactly when the three source types are all integer or all float |
| Validate.VStrideTable | src/intel/compiler/brw_fs_validate.cpp:135-159 | an encoded vertical stride is allowed exactly when its decoded value is 0, 4, 8 or 16, or 1 from generation 12, or 2 up to generation 11 |
| Validate.RegionDecoding | src/intel/compiler/brw_fs_validate.cpp:243-245 | the decoded `v`, `w` and `h` are at least 1, an encoded stride `e >= 1` decodes to `2^(e-1)`, and 0 decodes to 1 |
| Validate.DwordChannelsAllowed | src/intel/compiler/brw_fs_validate.cpp:265-272 | one element per dword channel is allowed by both tables, whatever the source region |
| Validate.Src1ImpliesSrc0 | src/intel/compiler/brw_fs_validate.cpp:318-365 | every region the source-1 table allows is allowed as source 0 |
| Validate.TablesAgreeBeyondBytes | src/intel/compiler/brw_fs_validate.cpp:318-365 | for every source type but bytes the two tables allow exactly the same regions |
| TileSwizzle.SwizzleArith | src/intel/isl/tests/isl_tilememcpy_tiled_unittest.cpp:117-124 | `swizzle_bitops` is the low `field` bits of `num >> curr`, shifted left by `swz` |
| TileSwizzle.SwizzleField | src/intel/isl/tests/isl_tilememcpy_tiled_unittest.cpp:117-124 | in arithmetic: `(num / 2^curr) mod 2^field * 2^swz`, below `2^(swz + field)` |
| TileSwizzle.TileYOr | src/intel/isl/tests/isl_tilememcpy_tiled_unittest.cpp:171-173 | the three Tile-Y fields share no bit, so their OR is their sum |
| TileSwizzle.Tile4Or | src/intel/isl/tests/isl_tilememcpy_tiled_unittest.cpp:189-193 | the six Tile-4 fields share no bit, so their OR is their sum |
| TileSwizzle.TileOrIsSum | src/intel/isl/tests/isl_tilememcpy_tiled_unittest.cpp:160-196 | both offsets equal the sums of their `swizzle_bitops` fields |
| TileSwizzle.TileYFields | src/intel/isl/tests/isl_tilememcpy_tiled_unittest.cpp:163-175 | the Tile-Y offset puts x bits 0-3 at bits 0-3, y bits 0-4 at bits 4-8 and x bits 4-6 at bits 9-11 |
| TileSwizzle.Tile4Fields | src/intel/isl/tests/isl_tilememcpy_tiled_unittest.cpp:184-195 | the Tile-4 offset has the layout `v4 v3 u6 v2 u5 u4 v1 v0 u3 u2 u1 u0` |
| TileSwizzle.TileYBijection | src/intel/isl/tests/isl_tilememcpy_tiled_unittest.cpp:160-176 | Tile-Y maps the 128x32 tile one to one onto the offsets 0..4095 |
| TileSwizzle.Tile4Bijection | src/intel/isl/tests/isl_tilememcpy_tiled_unittest.cpp:178-196 | Tile-4 maps the 128x32 tile one to one onto the offsets 0..4095 |
| TileSwizzle.LinearFits | src/intel/isl/tests/isl_tilememcpy_tiled_unittest.cpp:33 | `LIN_OFF(y, tw, x)` is `y * tw + x` and lies inside a `tw` x `th` image |
| TileSwizzle.TileFixture.constructor | src/intel/isl/tests/isl_tilememcpy_tiled_unittest.cpp:91-106 | records the geometry, direction and tiling, and allocates two zeroed buffers of `tw * th` bytes (32-bit product) |
| TileSwizzle.TileFixture.BoundedByteFill | src/intel/isl/tests/isl_tilememcpy_tiled_unittest.cpp:126-137 | each coordinate of the rectangle gets its value at its offset (linear, or swizzled when filling a tile), and every byte no coordinate maps to is unchanged |
| TileSwizzle.TileFixture.FillRowAt | src/intel/isl/tests/isl_tilememcpy_tiled_unittest.cpp:133-135 | the inner loop performs the writes of one row in column order |
| TileSwizzle.TileFixture.FillFits | src/intel/isl/tests/isl_tilememcpy_tiled_unittest.cpp:126-137 | the rectangles the fill accepts lie inside the buffer |
| TileSwizzle.TileFixture.FillOneToOne | src/intel/isl/tests/isl_tilememcpy_tiled_unittest.cpp:126-137 | no two coordinates of the rectangle are written at the same offset |
| TileSwizzle.FillEffect | src/intel/isl/tests/isl_tilememcpy_tiled_unittest.cpp:131-136 | for a one-to-one placement that fits, the rows' writes leave each coordinate's value at its offset and every other byte as it was |
| TileSwizzle.RowWrites | src/intel/isl/tests/isl_tilememcpy_tiled_unittest.cpp:133-135 | one row's writes put each column's value at its offset |
| TileSwizzle.RowKeeps | src/intel/isl/tests/isl_tilememcpy_tiled_unittest.cpp:133-135 | one row's writes leave every other offset alone |
| GenTree.Lookup | src/intel/genxml/intel_genxml.py:265 | `attrib.get(key)` finds a value exactly when the key is present, and it is that key's only value |
| GenTree.GetAttr | src/intel/genxml/intel_genxml.py:266 | `attrib[key]` gives the key's value, or raises KeyError exactly when the key is absent |
| GenTree.GetFilename | src/intel/genxml/intel_genxml.py:22-23 | succeeds exactly when the element has a `filename` attribute, and gives its value |
| GenTree.GetName | src/intel/genxml/intel_genxml.py:25-26 | succeeds exactly when the element has a `name` attribute, and gives its value |
| GenTree.GetValue | src/intel/genxml/intel_genxml.py:28-29 | succeeds exactly when there is a `value` attribute that `int(s, 0)` accepts |
| GenTree.GetStart | src/intel/genxml/intel_genxml.py:31-32 | succeeds exactly when there is a `start` attribute that `int(s, 0)` accepts |
| GenTree.ParseInt | src/intel/genxml/intel_genxml.py:29 | a literal `int(s, 0)` rejects raises ValueError carrying the string |
| GenTree.ParseShow | src/intel/genxml/intel_genxml.py:29 | `int(str(n), 0) == n` and `int(str(-n), 0) == -n` |
| GenTree.ParseShowHex | src/intel/genxml/intel_genxml.py:29 | `int('0x%x' % n, 0) == n` |
| GenTree.Desc | src/intel/genxml/intel_genxml.py:85-96 | every descriptor is non-empty and starts with `name` or `count` |
| GenTree.DescDistinct | src/intel/genxml/intel_genxml.py:85-96 | no descriptor lists an attribute twice |
| GenTree.FixedMatchIsPrefix | src/intel/genxml/intel_genxml.py:46-49 | the greedy match of `(s\|u)(\d+)\.(\d+)` succeeds exactly when the name starts with `s` or `u`, digits, a dot and digits; the rest of the name is free |
| GenTree.DigitRun | src/intel/genxml/intel_genxml.py:46 | the greedy digit run: all digits, and followed by a non-digit or the end |
| GenTree.SplitJoin | src/intel/genxml/intel_genxml.py:266 | joining the pieces of `s.split(sep)` gives back `s`, and no piece holds the separator |
| GenTree.JoinSplit | src/intel/genxml/intel_genxml.py:266 | splitting a join of separator-free pieces gives back the pieces |
| GenSort.SortByKeySpec | src/intel/genxml/intel_genxml.py:137 | `sorted` orders by key, is a permutation, and keeps the elements of one key in their original order (stability) |
| GenSort.StrLtTotal | src/intel/genxml/intel_genxml.py:137 | Python's string `<` is total |
| GenSort.StrLtTransitive | src/intel/genxml/intel_genxml.py:137 | Python's string `<` is transitive |
| GenAttribs.SortAttribsMembers | src/intel/genxml/intel_genxml.py:124-127 | the new attributes are exactly the old ones whose key the descriptor lists, with their values |
| GenAttribs.SortAttribsOrder | src/intel/genxml/intel_genxml.py:124-127 | the new attributes are in descriptor order, each key once |
| GenAttribs.ProcessAttribsSucceeds | src/intel/genxml/intel_genxml.py:123-129 | `process_attribs` raises exactly when some tag in the tree has no descriptor |
| GenAttribs.ProcessAttribsSpec | src/intel/genxml/intel_genxml.py:123-129 | tag, text, tail and child count are kept, the attributes are pruned to the descriptor with their values, the children are processed the same way, and the result is canonical at every level |
| GenAttribs.ProcessAttribsIdempotent | src/intel/genxml/intel_genxml.py:123-129 | a canonical tree is left unchanged |
| GenAttribs.ProcessAllPointwise | src/intel/genxml/intel_genxml.py:128-129 | the children are processed one by one |
| GenAttribs.NodeValidatorMeaning | src/intel/genxml/intel_genxml.py:99-120 | `node_validator` returns true exactly for two equal trees whose attribute keys are all listed for their tags |
| GenAttribs.ValidateAllMeaning | src/intel/genxml/intel_genxml.py:119 | the `all(...)` over the children holds exactly when the child lists are equal and all described |
| GenAttribs.NodeValidatorTotal | src/intel/genxml/intel_genxml.py:99-120 | `node_validator` raises only for a tag of the new tree without a descriptor |
| GenAttribs.CanonicalValidates | src/intel/genxml/intel_genxml.py:99-129 | a tree `process_attribs` left canonical passes `node_validator` against itself |
| GenStructs.PutKey | src/intel/genxml/intel_genxml.py:60 | `d[k] = v`: a new key goes last, an existing key keeps its place, no key appears twice |
| GenStructs.PutAllSpec | src/intel/genxml/intel_genxml.py:51-60 | inserting keys keeps the old ones in place, adds exactly the new ones, and never repeats a key |
| GenStructs.Names.Put | src/intel/genxml/intel_genxml.py:60 | the dictionary's keys after `d[k] = v` |
| GenStructs.StructRefsMeaning | src/intel/genxml/intel_genxml.py:51-60 | a type is recorded exactly when a non-base-type `field` reaches it from the node through `struct` and `group` elements only |
| GenStructs.AddStructRefs | src/intel/genxml/intel_genxml.py:51-60 | the dictionary's keys grow by the recorded types in document order, existing keys staying in place |
| GenStructs.ScanDepsSpec | src/intel/genxml/intel_genxml.py:72-76 | the scan fails exactly when a reference names neither a struct nor an enum; otherwise the dependencies are exactly the referenced structs |
| GenStructs.ScanStops | src/intel/genxml/intel_genxml.py:72-76 | once the assertion fails nothing more is recorded |
| GenStructs.Struct.constructor | src/intel/genxml/intel_genxml.py:64-67 | a struct records its element and name and starts with no dependencies |
| GenStructs.Struct.FindDeps | src/intel/genxml/intel_genxml.py:69-76 | records the referenced structs in order and raises AssertionError exactly when a reference is neither a struct nor an enum |
| GenStructs.Struct.AddXml | src/intel/genxml/intel_genxml.py:78-81 | `add_xml` changes the dictionary as the recursive visit of the dependency graph does, and raises when that visit does |
| GenStructs.VisitGrows | src/intel/genxml/intel_genxml.py:78-81 | the visit keeps the keys already there in place, adds only struct names, and never a name twice |
| GenStructs.VisitDepsFirst | src/intel/genxml/intel_genxml.py:78-81 | after a normal return the struct is present and every name still comes after its dependencies |
| GenStructs.VisitAllDepsFirst | src/intel/genxml/intel_genxml.py:156-159 | visiting a list of structs adds all of them, dependencies first |
| GenStructs.VisitReach | src/intel/genxml/intel_genxml.py:78-81 | `add_xml` adds only the struct itself and its transitive dependencies |
| GenStructs.VisitAllReach | src/intel/genxml/intel_genxml.py:156-159 | visiting a list adds only structs reached from the list |
| GenStructs.ReachClosed | src/intel/genxml/intel_genxml.py:78-81 | a dependency-first list holds every transitive dependency of its members |
| GenStructs.VisitAllPrefix | src/intel/genxml/intel_genxml.py:156-159 | the keys after visiting a prefix of the list are a prefix of the final keys |
| GenStructs.VisitAllOrdered | src/intel/genxml/intel_genxml.py:156-159 | the visit puts `ds[i]` before a later `ds[j]` unless `ds[j]` is reached from `ds[..i+1]` |
| GenStructs.VisitRanked | src/intel/genxml/intel_genxml.py:78-81 | on an acyclic graph, with more recursion depth than the struct's rank, the visit does not raise |
| GenStructs.VisitAllRanked | src/intel/genxml/intel_genxml.py:156-159 | the same for a list of structs |
| GenStructs.PutAllAppend | src/intel/genxml/intel_genxml.py:51-60 | inserting two lists in turn is inserting their concatenation |
| GenDoc.Select | src/intel/genxml/intel_genxml.py:135 | `findall(tag)` gives exactly the root's children with that tag |
| GenDoc.KeyedBy | src/intel/genxml/intel_genxml.py:137 | reading every key succeeds exactly when each element has one, and pairs each element with its key |
| GenDoc.SortedBySpec | src/intel/genxml/intel_genxml.py:137 | `sorted(cs, key=k)` succeeds exactly when every key can be read, is a permutation, and never puts a key below an earlier one |
| GenDoc.SortEach | src/intel/genxml/intel_genxml.py:139-141 | `e[:] = sorted(e, key=k)` for each element: succeeds exactly when each sort does, and sorts each element's children |
| GenDoc.GroupFrom | src/intel/genxml/intel_genxml.py:161-163 | every element of a group is a root element of that tag with its children sorted |
| GenDoc.GroupCovers | src/intel/genxml/intel_genxml.py:161-163 | every root element of that tag is in the group, once per occurrence |
| GenDoc.GroupSorted | src/intel/genxml/intel_genxml.py:161 | a group is ordered by its name key |
| GenDoc.GroupWellFormed | src/intel/genxml/intel_genxml.py:161-163 | the group's elements are as well formed as the root's |
| GenDoc.NameKey | src/intel/genxml/intel_genxml.py:25-26 | `get_name` reads only attributes and gives the element's name |
| GenDoc.TableBy | src/intel/genxml/intel_genxml.py:147-151 | the name-keyed dictionary maps each name to an element of that name, and holds every name |
| GenDoc.DepGraphClosed | src/intel/genxml/intel_genxml.py:153-154 | the dependencies `find_deps` records form a graph over the struct names |
| GenDoc.OrderFromSpec | src/intel/genxml/intel_genxml.py:156-159 | the struct order names each struct once, after its dependencies; it holds exactly the structs the visited names reach; and `names[i]` comes before a later `names[j]` unless `names[j]` is a transitive dependency of one of `names[..i+1]` |
| GenDoc.OrderOfSpec | src/intel/genxml/intel_genxml.py:153-159 | the same four facts for `find_deps` on every struct followed by `add_xml` on each |
| GenDoc.StructOrderSpec | src/intel/genxml/intel_genxml.py:146-159 | the keys of `sorted_structs` name each struct once, after the structs it depends on, name every struct and nothing else, and otherwise keep the order of the struct list |
| GenDoc.VisitOrderAlphabetical | src/intel/genxml/intel_genxml.py:141-159 | an order that follows a name-sorted list wherever the dependencies allow puts the smaller of two names first unless the larger is needed by a name not after the smaller |
| GenDoc.StructOrderAlphabetical | src/intel/genxml/intel_genxml.py:141-159 | over structs in name order the struct order is alphabetical except where a dependency must come first |
| GenDoc.StructBlockAlphabetical | src/intel/genxml/intel_genxml.py:141-159 | in the struct block of `sort_xml`, of two structs the one with the smaller name comes first unless the other is a transitive dependency of a struct whose name is not after the smaller one |
| GenDoc.Pick | src/intel/genxml/intel_genxml.py:169-170 | the values looked up by the names, in their order |
| GenDoc.PickNames | src/intel/genxml/intel_genxml.py:169-170 | looking names up in the name table gives elements of the list with those names |
| GenDoc.StructBlock | src/intel/genxml/intel_genxml.py:169-170 | `sorted_structs.values()` are elements of the struct list whose names are the struct order |
| GenDoc.StructStepPicks | src/intel/genxml/intel_genxml.py:146-159 | the struct step returns only structs it was given |
| GenDoc.PartsTagged | src/intel/genxml/intel_genxml.py:135-167 | the five groups hold only imports, enums, structs, instructions and registers respectively |
| GenDoc.ConcatGrouped | src/intel/genxml/intel_genxml.py:169-170 | the concatenation puts imports first, then enums, structs, instructions and registers, and nothing else |
| GenDoc.PartsSorted | src/intel/genxml/intel_genxml.py:135-167 | enums, instructions and registers come out ordered by their name key |
| GenDoc.PartsNameOrdered | src/intel/genxml/intel_genxml.py:135-167 | with `sort_xml`'s own keys those three groups are in name order |
| GenDoc.PartsWellFormed | src/intel/genxml/intel_genxml.py:135-167 | the regrouped elements are as well formed as the root's children |
| GenDoc.SortXmlSpec | src/intel/genxml/intel_genxml.py:132-173 | the root keeps its tag, attributes, text and tail; its new children are the five groups in order, each put through `process_attribs` and canonical |
| GenDoc.FilterMembers | src/intel/genxml/intel_genxml.py:261-272 | an item is kept exactly when it is in the list and passes the test |
| GenDoc.FilterAppend | src/intel/genxml/intel_genxml.py:261-272 | filtering splits over concatenation, so the kept items keep their order |
| GenDoc.FilterAll | src/intel/genxml/intel_genxml.py:273-274 | nothing is dropped exactly when every item passes, so the children stay as they were |
| GenDoc.FilterShorter | src/intel/genxml/intel_genxml.py:261-272 | filtering never adds items |
| GenDoc.FilterIdempotent | src/intel/genxml/intel_genxml.py:261-272 | filtering twice drops nothing more |
| GenDoc.FilterStep | src/intel/genxml/intel_genxml.py:261-272 | one more item grows the kept list by that item exactly when it passes |
| GenDoc.DropsUnrequested | src/intel/genxml/intel_genxml.py:265-271 | an instruction tagged `a\|b\|c` is dropped exactly when none of its engines is requested |
| GenDoc.GenXml.FilterEngines | src/intel/genxml/intel_genxml.py:258-274 | the root's children become the items that pass the engine test, in order; everything else about the root is unchanged |

## Left out

- The control-flow graph, basic blocks and the intrusive instruction list. The program is a flat sequence, and the cursor counts the instructions at and after it; the block is carried along but never consulted.
- Device information (`ver`, `has_64bit_int`, the register unit, workaround queries) is a record passed in. The helpers whose bodies are not part of this model are modelled as the simple arithmetic their names describe: `is_uniform`, `regs_read`/`regs_written`, `phys_subnr`, `is_3src`, `is_math`, `brw_type_larger_of`, `brw_type_with_size`, `horiz_offset`, `horiz_stride`, `subscript` and `offset`. The validator uses them as queries of a `Queries` record.
- The validator's `fsv_assert` printing and `abort`: a failing check is the predicate being false, and the pass returns the index of the first failing instruction.
- `cfg->validate` and the structural checks of the block list, for the same reason as the control-flow graph.
- What `emit_scan` computes numerically: the model states which steps, widths, offsets and strides are emitted and that each step stays within its cluster. It does not model an execution of the SEL/CMP instructions on register contents. The only exception is the 64-bit SEL lowering, whose compare-and-select logic is proved on integers.
- Memory management: `new(mem_ctx)`, `new[]`/`delete[]` in `move_to_vgrf`, and annotation strings, which are opaque values.
- The `1.0f` immediate in the lowered LRP is an immediate operand; no floating-point arithmetic is modelled.
- Instructions are values. Writes that the source makes to an instruction after inserting it (`set_condmod`, `size_written`, `header_size`) are folded into the instruction before it is inserted. `Ir.EmittedReplaceLast` states that the two agree.
- `process_attribs`, `sort_xml` and the sorts `e[:] = sorted(...)` are modelled on tree values: they return the new tree instead of changing the elements in place. Aliasing between elements of the tree is therefore not captured.
- Python exceptions are `Raise` results. Where the source has already changed something before it raises, the model does not keep that partial change, except in `Struct.add_xml` and `find_deps`, whose dictionary updates happen step by step.
- Python's `RecursionError` in `add_xml` is modelled by a recursion depth parameter: the visit raises when the depth runs out. A cyclic dependency graph therefore raises, as it does in Python.
- GenStructs.Struct.constructor: requires the element to have a `name` attribute; without one the source raises KeyError before the object exists.
- GenTree.ParseInt: models optional sign, the `0x`/`0o`/`0b` prefixes and decimal literals; it does not model underscores between digits, surrounding whitespace or non-ASCII digits, which `int(s, 0)` also accepts.
- The regular expression's `\d` is read as the ASCII digits; Python's `\d` on `str` also matches other Unicode decimal digits.
- `GenXml.__init__`, `process_imported` and the import tool (`genxml_import.py`) read and write files and are not modelled; the `GenXml` class is built from a root value.
- The tile memcpy routines under test (`isl_memcpy_linear_to_tiled`, `isl_memcpy_tiled_to_linear`), the gtest fixtures, `calloc`/`free` and `hex_oword_print` are not part of this model.
- TileSwizzle.TileFixture.BoundedByteFill: requires, for the linear fill, `x2 <= tile_width`, `y2 <= tile_height` and a product `tile_width * tile_height` below 2^32, and for the swizzled fill `x2 <= 128`, `y2 <= 32` and `tile_sz >= 4096`. This excludes more than the writes past the end of the buffer. A linear rectangle wider than the tile wraps into the next row and stays inside the buffer while `(y2-1)*tile_width + x2-1 < tile_width*tile_height`. A swizzled rectangle beyond 128x32 is masked back into the 4096-byte tile by `swizzle_bitops`, so with `tile_sz >= 4096` it stays in bounds. Both write onto offsets that other coordinates of the rectangle also use, so later values overwrite earlier ones, and `FillOneToOne` and the per-coordinate postcondition would not hold; the model does not describe such overlapping fills. Only a swizzled fill with `tile_sz < 4096`, or a linear fill reaching past `tile_width*tile_height`, writes past the end of the buffer.
- FsBuilder.Builder.FixOperands, FsBuilder.Builder.FixupsJoin, FsBuilder.Builder.EmitFixed, FsBuilder.Builder.EmitTernary, FsBuilder.Builder.EmitMinmax, FsBuilder.Builder.Compare: the source legalises operands (`fix_3src_operand` at brw_fs_builder.h:295-301, `fix_unsigned_negate` at :363-364, :690-691 and :716-717) inside the argument list of a single call, and C++ leaves the order in which arguments are evaluated unspecified. The model legalises left to right. So the order of the fix-up MOVs, and the virtual register numbers they get, is the model's choice, not a fact about the program. Which operands are fixed, and what each fix-up emits, does not depend on that order.
- Validate.OperandsOk, Validate.ThreeSrcOk, Validate.VgrfBoundsOk: the source reads `src[1]` of a SEND (brw_fs_validate.cpp:99), `src[1]` and `src[2]` of a three-source instruction (:120-124), and `alloc.sizes[nr]` (:188-189, :194-195) without checking that they exist. For an instruction with too few sources, or a register number past the allocation table, the C++ reads out of bounds, which is undefined behaviour. The model counts such an instruction as failing the check.
- `texcompress_astc_decoder_wrap.cpp`/`.h` and `intel_genX.h` are not part of this model.
