# A verified model of the `easy` WebAssembly binary decoder

`easy` decodes the binary format of WebAssembly modules (chapter 5 of the
WebAssembly Core Specification 2.0). It turns a byte slice into a `Module`
record. Every decoder in it is a nom parser: a pure function that takes the
input and returns either a value with the unconsumed rest, or an error. This
project models those decoders in Dafny, one function per decoder, from the
LEB128 integers up to `Module::new`, and proves what they promise.

The model covers the following layers:

- **values** (`values.dfy`, module `Values`):
  - `u32`, `i32` and `i64` as LEB128;
  - `u8`;
  - `f32` and `f64` as little-endian bit patterns;
  - `Vec<T>` as a count and then exactly that many elements;
  - `Option<T>` as a probe that answers `None` without consuming input;
  - `Name` as length-prefixed raw bytes.
- **types** (`types.dfy`, module `Types`): number, vector, reference and value
  types, result types, function types, limits, and memory, table and global
  types with their mutability. `src/module/types.rs` and its older twin
  `src/types.rs` share this module.
- **instructions**:
  - `numeric.dfy` holds the numeric opcode table and the 0xFC saturating
    truncations.
  - `reference.dfy`, `parametric.dfy` and `variable.dfy` hold the other
    instruction decoders.
  - `instructions.dfy` holds the category dispatch of `Instruction::decode`
    and the 0x0B-terminated `Expression::decode`.
- **records** (`records.dfy`): the `Table` and `Memory` records. The other
  records (import, global, export, element, code, data) have a datatype and
  a decoder that always panics with `todo!()`, as in the code.
- **sections** (`section.dfy`):
  - framing: the id byte, then the size;
  - the byte accounting of custom sections;
  - dispatch on ids 0 to 12, with an `unreachable!()` panic above 12.
- **module** (`module.dfy`):
  - the magic number and the version;
  - `many0` over sections;
  - the loop that fills in an empty module section by section. It is a
    `method` with a loop invariant, proved equal to a fold function.
- **entry point** (`lib.dfy`): `Module::new`.

Results are `Ok(value, rest) | Err(error)`. An error is either `Malformed`,
nom's recoverable `Err::Error`, or `Abort(panic)`, a Rust panic (`todo!()` or
`unreachable!()`). The combinators recover only from `Malformed`: `alt` tries
the next alternative, `opt` answers `None`, `many0` stops. A panic passes
through every combinator.

## Where the code departs from the standard

The model follows the code. Each departure below has a lemma that shows it:

- **`ref.func` is read under opcode 0xD0, not 0xD2.**
  - `Reference.StandardRefFuncRejected`: the standard's 0xD2 is rejected.
  - `Reference.NullShadowsFunc`: because `ref.null` is tried first, 0xD0
    followed by 0x6F or 0x70 is always `ref.null`.
  - `Reference.FuncIndexShadowed`: function indices 0x6F and 0x70 cannot
    round-trip.
- **A section id above 12 panics** with `unreachable!()` instead of failing
  as a parse error. See `SectionProperties.UnknownIdPanics` and
  `ModuleProperties.UnknownSectionExample`. Because of this, `Module::new`
  panics on such input rather than answering `None`.
- **Trailing bytes after the last section are left over, not rejected.**
  `many0` stops at the first bytes that do not decode as a section. See
  `ModuleProperties.TrailingBytesLeftOver`: a type section whose function
  type lacks its 0x60 tag is left over, and the module before it is
  returned. See also `ModuleProperties.NoSections` and `Lib.New`, which
  returns the module whatever follows it.
- **The declared size of a non-custom section is read but never checked.**
  See `SectionProperties.SizeIgnored`.
- **Limits are not checked for min ≤ max.** See `Types.LimitsUnchecked`.
- **Variable instructions are not dispatched.** The code decodes them, but
  `Instruction::decode` has that alternative commented out, so 0x20..0x24 is
  rejected there. See `Instructions.VariableNotDispatched`.
- **0x0B ends an expression only where an instruction could start.** A 0x0B
  byte inside an operand does not end it. See
  `Instructions.TerminatorInOperand`.

Two further points where the behaviour is easy to misread:

- `Module::new` turns only nom errors into `None`. It matches
  on the `Result` of `Module::decode`, so a panic in a section decoder is not
  caught. `Lib.New` therefore returns a `Panicked` outcome beside
  `Returned(None)` and `Returned(Some(m))`.
- In the numeric table, the second entry for 0x45 (src/instructions/numeric.rs:230)
  can never be reached.

## Model

| member | source | states |
|---|---|---|
| Decoding.Alt | src/instructions.rs:42-67 | the second alternative is tried only when the first fails recoverably; a success or a panic of the first stands |
| Decoding.Map | src/module/table.rs:13-17 | a mapped decode succeeds exactly when the inner one does, with the transformed value and the same rest |
| Decoding.Take | src/module/section.rs:63 | `take(n)` succeeds iff 0 ≤ n ≤ the input length, and splits the input into n bytes and the rest |
| Decoding.Many0 | src/module.rs:58 | the loop leaves a suffix of its input, and it stops at a rest on which the element decoder fails recoverably; an error is a panic or a non-progressing element |
| Decoding.Many0Cons | src/module.rs:58 | `many0` keeps every decoded element in order: one element, then the rest of the loop |
| Values.DecodeUnsigned | src/values.rs:5-9 | unsigned LEB128 never panics, takes at least one byte and at most 1 + N/7 bytes, and yields a value below 2^N |
| Values.DecodeSigned | src/values.rs:29-39 | signed LEB128 never panics, takes at least one byte and at most 1 + (N-1)/7 bytes, and yields a value in −2^(N−1)..2^(N−1) |
| Values.DecodeU32 | src/values.rs:5-9 | a `u32` takes 1 to 5 bytes and never panics |
| Values.DecodeI32 | src/values.rs:29-33 | an `i32` takes 1 to 5 bytes and never panics |
| Values.DecodeI64 | src/values.rs:35-39 | an `i64` takes 1 to 10 bytes and never panics |
| Values.UnsignedRoundTrip | src/values.rs:5-9 | decoding the LEB128 encoding of any n < 2^N gives n back and leaves whatever followed |
| Values.SignedRoundTrip | src/values.rs:29-39 | decoding the signed LEB128 encoding of any n in range gives n back and leaves whatever followed |
| Values.U32RoundTrip | src/values.rs:5-9 | every `u32` survives encode-then-decode, whatever follows it |
| Values.I32RoundTrip | src/values.rs:29-33 | every `i32` survives encode-then-decode, whatever follows it |
| Values.I64RoundTrip | src/values.rs:35-39 | every `i64` survives encode-then-decode, whatever follows it |
| Values.UnsignedTruncatedFails | src/values.rs:5-9 | any proper prefix of an unsigned encoding fails to decode |
| Values.SignedTruncatedFails | src/values.rs:29-39 | any proper prefix of a signed encoding fails to decode |
| Values.SignedExamples | src/values.rs:29-39 | 0x7F is −1 by sign extension (as i32 and as i64); 0x08 is 8; 0x80 0x7F is −128 |
| Values.U32Overflow | src/values.rs:5-9 | 0xFFFFFFFF decodes; a fifth group carrying bits past bit 31 is rejected, and so is a sixth byte |
| Values.DecodeU8 | src/values.rs:11-15 | `u8` succeeds iff the input is non-empty, and takes exactly its first byte |
| Values.LittleEndianRoundTrip | src/values.rs:17-27 | bytes read as a little-endian number and written back give the same bytes |
| Values.ToLittleEndianRoundTrip | src/values.rs:17-27 | a number below 2^(8n) written as n little-endian bytes and read back is the same number |
| Values.DecodeF32 | src/values.rs:17-21 | `f32` succeeds iff four bytes remain, and takes exactly those four as a little-endian bit pattern |
| Values.DecodeF64 | src/values.rs:23-27 | `f64` succeeds iff eight bytes remain, and takes exactly those eight as a little-endian bit pattern |
| Values.F32RoundTrip | src/values.rs:17-21 | every 32-bit pattern survives encode-then-decode |
| Values.F64RoundTrip | src/values.rs:23-27 | every 64-bit pattern survives encode-then-decode |
| Values.DecodeCount | src/values.rs:47 | `count(n)` yields exactly n elements, leaves a suffix, and cannot panic when the element decoder cannot |
| Values.DecodeVec | src/values.rs:41-49 | a vector holds exactly as many elements as its `u32` count says; it takes at least one byte when the element decoder keeps the decoder contract, and never panics when the element decoder cannot |
| Values.CountRoundTrip | src/values.rs:47 | n encoded elements decode back to the same n elements in order |
| Values.VecRoundTrip | src/values.rs:41-49 | a count followed by the encoded elements decodes back to the same sequence |
| Values.VecEmpty | src/values.rs:41-49 | a zero count gives the empty vector and never calls the element decoder |
| Values.CountFailurePropagates | src/values.rs:47 | when element k fails, the whole count fails with that element's error |
| Values.VecOfCount | src/values.rs:45-48 | a vector is the count's worth of elements read after the count |
| Values.DecodeOption | src/values.rs:51-58 | `Some(v)` exactly when the inner decoder gives v, with its rest; `None` with the input untouched on a recoverable failure; a panic passes through |
| Values.CountBytes | src/values.rs:64-68 | reading n single bytes is taking the first n bytes; it fails exactly when fewer remain |
| Values.DecodeName | src/values.rs:60-69 | a name keeps exactly the count's worth of raw bytes after the count, with no UTF-8 check |
| Values.NameRoundTrip | src/values.rs:60-69 | any byte string with its length in front decodes back to the same name |
| Types.DecodeNumType | src/module/types.rs:20-29 | succeeds iff the first byte is one of 0x7F 0x7E 0x7D 0x7C; consumes exactly that tag byte |
| Types.DecodeVecType | src/module/types.rs:37-41 | succeeds iff the first byte is 0x7B; consumes exactly that byte |
| Types.DecodeRefType | src/module/types.rs:50-57 | succeeds iff the first byte is 0x70 or 0x6F; consumes exactly that byte |
| Types.DecodeValType | src/module/types.rs:67-75 | succeeds iff the first byte is one of the seven value-type tags; consumes exactly that byte, and the tag is the type's own |
| Types.ValTypeByteInjective | src/types.rs:61-69 | distinct value types have distinct tags, so the decoded variant is unique |
| Types.ValTypeRoundTrip | src/module/types.rs:67-75 | every value type survives encode-then-decode |
| Types.ValTypeDecoder | src/types.rs:61-69 | the value-type decoder leaves a suffix on every input and never panics |
| Types.DecodeResultType | src/module/types.rs:78 | a result type holds exactly as many value types as its `u32` count says, and the bytes after the count are exactly their tags |
| Types.ValTypesReencode | src/module/types.rs:78 | decoded value types, re-encoded, give back the bytes they were read from |
| Types.ResultTypeRoundTrip | src/module/types.rs:78 | every result type survives encode-then-decode |
| Types.ResultTypeBadEntry | src/module/types.rs:78 | a result type fails as a whole when one entry before the count runs out is not a value-type tag |
| Types.DecodeFuncType | src/module/types.rs:87-94 | a function type starts with 0x60; any other first byte is rejected |
| Types.FuncTypeRoundTrip | src/module/types.rs:87-94 | every function type survives encode-then-decode: parameters, then results |
| Types.DecodeLimits | src/module/types.rs:103-119 | flag 0x00 gives no maximum and flag 0x01 gives one; any other flag is rejected |
| Types.LimitsRoundTrip | src/module/types.rs:103-119 | every limits value, with or without a maximum, survives encode-then-decode |
| Types.LimitsMinRoundTrip | src/module/types.rs:105-110 | 0x00 followed by min gives `Limits(min, None)` |
| Types.LimitsMinMaxRoundTrip | src/module/types.rs:111-117 | 0x01 followed by min and max gives `Limits(min, Some(max))` |
| Types.LimitsUnchecked | src/module/types.rs:103-119 | limits with min > max decode: the decoder does not compare them |
| Types.DecodeMemType | src/module/types.rs:127-131 | a memory type succeeds exactly when limits decode, with the same limits and rest |
| Types.DecodeTableType | src/module/types.rs:140-147 | a table type is a reference-type byte, then limits; a first byte that is not a reference type is rejected |
| Types.TableTypeRoundTrip | src/module/types.rs:140-147 | every table type survives encode-then-decode |
| Types.DecodeMutability | src/module/types.rs:172-179 | succeeds iff the first byte is 0x00 (Const) or 0x01 (Var); consumes exactly that byte |
| Types.DecodeGlobalType | src/module/types.rs:156-163 | succeeds iff a value-type tag is followed by a mutability byte; consumes exactly those two bytes |
| Types.TagExamples | src/module/types.rs:187-224 | the unit tests of the tag decoders: each of the four number types, v128, both reference types, value types, and both mutabilities; 0x7B, 0x7A and 0x1A rejected where the tests reject them |
| Types.ResultTypeExample | src/module/types.rs:226-240 | [0x02,0x7F,0x7F] is two i32; [0x02,0xDD,0x7F] fails |
| Types.FuncTypeExample | src/module/types.rs:242-260 | [0x60,2,0x7F,0x7F,2,0x7C,0x7F] is (i32 i32) → (f64 i32) |
| Types.LimitsExamples | src/module/types.rs:262-279 | the unit tests of limits and memory types |
| Types.TableTypeExamples | src/module/types.rs:307-333 | the unit tests of table types |
| Types.GlobalTypeExamples | src/module/types.rs:335-348 | the unit tests of global types |
| Numeric.PlainNumeric | src/instructions/numeric.rs:182-353 | the operand-free opcode table answers exactly for 0x45..0xC4 |
| Numeric.I32ComparisonOp | src/instructions/numeric.rs:183-195 | the group answers exactly for 0x45..0x4F |
| Numeric.I64ComparisonOp | src/instructions/numeric.rs:196-209 | the group answers exactly for 0x50..0x5A |
| Numeric.F32ComparisonOp | src/instructions/numeric.rs:210-218 | the group answers exactly for 0x5B..0x60 |
| Numeric.F64ComparisonOp | src/instructions/numeric.rs:219-227 | the group answers exactly for 0x61..0x66 |
| Numeric.I32ArithmeticOp | src/instructions/numeric.rs:228-249 | the group answers exactly for 0x67..0x78 (its duplicate 0x45 is shadowed) |
| Numeric.I64ArithmeticOp | src/instructions/numeric.rs:250-270 | the group answers exactly for 0x79..0x8A |
| Numeric.F32ArithmeticOp | src/instructions/numeric.rs:271-287 | the group answers exactly for 0x8B..0x98 |
| Numeric.F64ArithmeticOp | src/instructions/numeric.rs:288-304 | the group answers exactly for 0x99..0xA6 |
| Numeric.I32ConversionOp | src/instructions/numeric.rs:305-313 | the group answers exactly for 0xA7..0xAB |
| Numeric.I64ConversionOp | src/instructions/numeric.rs:314-322 | the group answers exactly for 0xAC..0xB1 |
| Numeric.F32ConversionOp | src/instructions/numeric.rs:323-330 | the group answers exactly for 0xB2..0xB6 |
| Numeric.F64ConversionOp | src/instructions/numeric.rs:331-338 | the group answers exactly for 0xB7..0xBB |
| Numeric.ReinterpretOp | src/instructions/numeric.rs:339-345 | the group answers exactly for 0xBC..0xBF |
| Numeric.ExtendOp | src/instructions/numeric.rs:346-353 | the group answers exactly for 0xC0..0xC4 |
| Numeric.PlainNumericOpcode | src/instructions/numeric.rs:182-353 | every byte in 0x45..0xC4 names an operand-free instruction whose own opcode is that byte |
| Numeric.PlainNumericInverse | src/instructions/numeric.rs:182-353 | every operand-free instruction is found at its own opcode, so the table is a bijection |
| Numeric.PlainNumericGroups | src/instructions/numeric.rs:182-353 | within each group's range the nested `alt` answers with that group, as the source's order dictates |
| Numeric.DecodeNumeric | src/instructions/numeric.rs:163-356 | a first byte outside 0x41..0xC4 is rejected; every byte in 0x45..0xC4 gives an operand-free instruction and consumes one byte; a success starts with the instruction's opcode |
| Numeric.NumericRoundTrip | src/instructions/numeric.rs:163-356 | every numeric instruction, constants included, survives encode-then-decode |
| Numeric.ConstRoundTrip | src/instructions/numeric.rs:168-181 | `i32.const`, `i64.const`, `f32.const` and `f64.const` with any operand survive encode-then-decode |
| Numeric.PlainDecode | src/instructions/numeric.rs:182-353 | a table opcode decodes on its own, taking one byte, whatever follows |
| Numeric.TruncatedConstFails | src/instructions/numeric.rs:168-181 | a constant opcode whose operand is missing fails |
| Numeric.NumericExamples | src/instructions/numeric.rs:395-406 | [0xC0] is `i32.extend8_s`, [0x41,0x08] is `i32.const 8`, [0xFF] fails, 0x45 is `i32.eqz` |
| Numeric.SubOpcode | src/instructions/numeric.rs:370-387 | a sub-opcode is at most 7 |
| Numeric.SaturatingOf | src/instructions/numeric.rs:374-384 | the instruction chosen for k has sub-opcode k |
| Numeric.SubOpcodeInverse | src/instructions/numeric.rs:374-384 | sub-opcode then instruction gives the instruction back |
| Numeric.DecodeSaturating | src/instructions/numeric.rs:370-387 | 0xFC followed by a `u32` k ≤ 7 gives instruction k; a sub-opcode above 7 or another first byte is rejected |
| Numeric.SaturatingRoundTrip | src/instructions/numeric.rs:370-387 | every saturating truncation survives encode-then-decode |
| Numeric.SaturatingExamples | src/instructions/numeric.rs:408-415 | [0xFC,0x00] is `i32.trunc_sat_f32_s`; [0xFF] and [0xFC,0x08] fail |
| Reference.DecodeReference | src/instructions/reference.rs:16-28 | 0xD1 is `ref.is_null`; `ref.null` is 0xD0 and a reference-type byte; `ref.func` is 0xD0, a byte that is no reference type, and an index; any other first byte is rejected |
| Reference.NullShadowsFunc | src/instructions/reference.rs:18-25 | 0xD0 followed by a reference-type byte is always `ref.null` |
| Reference.FuncIndexShadowed | src/instructions/reference.rs:18-25 | `ref.func 0x70` and `ref.func 0x6F` come back as `ref.null` |
| Reference.ReferenceRoundTrip | src/instructions/reference.rs:16-28 | every other reference instruction survives encode-then-decode |
| Reference.FirstByteNotRefType | src/instructions/reference.rs:23 | the LEB128 form of an index other than 0x6F and 0x70 does not start with a reference-type tag |
| Reference.StandardRefFuncRejected | src/instructions/reference.rs:16-28 | the standard `ref.func` opcode 0xD2 is rejected |
| Reference.ReferenceExamples | src/instructions/reference.rs:36-47 | [0xD1] is `ref.is_null`, [0xD0,0x70] is `ref.null funcref`, [0xFF] fails, [0xD0,0x05] is `ref.func 5` |
| Parametric.DecodeParametric | src/instructions/parametric.rs:16-26 | 0x1A is `drop` and 0x1B is `select`, one byte each; 0x1C is a typed `select` with a result type after it; any other first byte is rejected |
| Parametric.ParametricRoundTrip | src/instructions/parametric.rs:16-26 | every parametric instruction survives encode-then-decode |
| Parametric.SelectTypedBadVector | src/instructions/parametric.rs:21 | a typed `select` whose type vector holds a bad entry fails as a whole |
| Parametric.ParametricExamples | src/instructions/parametric.rs:34-48 | the unit tests, and [0x1C,0x01,0x1A] rejected |
| Variable.VariableOf | src/instructions/variable.rs:22-38 | the instruction chosen for opcode b and index x has opcode b and index x |
| Variable.DecodeVariable | src/instructions/variable.rs:20-40 | an opcode in 0x20..0x24 followed by a `u32` index gives that instruction; it succeeds iff the index decodes; other first bytes are rejected |
| Variable.VariableRoundTrip | src/instructions/variable.rs:20-40 | every variable instruction survives encode-then-decode |
| Variable.TruncatedIndexFails | src/instructions/variable.rs:22-38 | an opcode whose index is cut short fails |
| Variable.VariableExamples | src/instructions/variable.rs:48-55 | [0x20,0x01] is `local.get 1`; [0xFF] and a lone 0x24 fail |
| Instructions.DecodeInstruction | src/instructions.rs:40-69 | a decode never panics and takes at least one byte; a byte that starts no dispatched category is rejected |
| Instructions.DispatchByFirstByte | src/instructions.rs:42-67 | the categories' first bytes are disjoint, so the first byte alone picks the decoder whose outcome is the whole outcome |
| Instructions.VariableNotDispatched | src/instructions.rs:52-54 | 0x20..0x24 are rejected by the instruction decoder |
| Instructions.EncodedStart | src/instructions.rs:42-67 | an instruction's binary form starts with a byte of its own category |
| Instructions.InstructionRoundTrip | src/instructions.rs:40-69 | every encodable instruction survives encode-then-decode |
| Instructions.InstructionDecoder | src/lib.rs:10-16 | the instruction decoder leaves a suffix on every input and never panics |
| Instructions.ManyTill | src/instructions.rs:21 | the loop takes at least one byte, leaves a suffix, and the byte just consumed is the terminator |
| Instructions.DecodeExpression | src/instructions.rs:19-25 | an expression ends with a consumed 0x0B and never panics |
| Instructions.UnterminatedFails | src/instructions.rs:19-25 | input without a 0x0B is never an expression |
| Instructions.ManyTillNil | src/instructions.rs:21 | the terminator is checked first: it ends the loop with nothing read |
| Instructions.ManyTillCons | src/instructions.rs:21 | one step of the loop: an element, then the rest of the loop |
| Instructions.InstructionsRoundTrip | src/instructions.rs:21 | any encodable instructions followed by 0x0B are read back in order |
| Instructions.ExpressionRoundTrip | src/instructions.rs:19-25 | every expression of encodable instructions survives encode-then-decode |
| Instructions.InstructionExample | src/instructions.rs:92-99 | [0xC0] is `i32.extend8_s` |
| Instructions.InstructionRejects | src/instructions.rs:92-99 | [0xFF] is rejected |
| Instructions.EmptyExpression | src/instructions.rs:19-25 | [0x0B] is the empty expression |
| Instructions.ExpressionExample | src/instructions.rs:77-90 | [0xC0,0xC0,0x0B] is two `i32.extend8_s` |
| Instructions.ExpressionRejects | src/instructions.rs:77-90 | [0xFF] is not an expression |
| Instructions.TerminatorInOperand | src/instructions.rs:19-25 | [0x41,0x0B,0x0B] is `i32.const 11`: the first 0x0B is an operand |
| Records.DecodeTable | src/module/table.rs:13-17 | a table succeeds exactly when its table type does, with the same bytes consumed |
| Records.TableRoundTrip | src/module/table.rs:13-17 | every table survives encode-then-decode |
| Records.DecodeMemory | src/module/memory.rs:13-17 | a memory succeeds exactly when its limits do, with the same bytes consumed |
| Records.MemoryRoundTrip | src/module/memory.rs:13-17 | every memory survives encode-then-decode |
| Records.TableAndMemoryDecoders | src/lib.rs:10-16 | both decoders leave a suffix and never panic |
| Records.TableExamples | src/module/table.rs:27-45 | the unit test, including [0x7A] rejected |
| Records.MemoryExamples | src/module/memory.rs:27-41 | the unit test, including [0x7A] rejected |
| Records.UnimplementedVector | src/module/section.rs:70-75 | a vector of `todo!()` records decodes only when empty; any other count panics |
| Sections.DecodeCustom | src/module/section.rs:60-65 | a custom section succeeds iff its name decodes and fits within `size` bytes that are present; it consumes exactly `size` bytes, name included |
| SectionDecoder.DecodeBody | src/module/section.rs:59-131 | the body is chosen by the id; an id above 12 panics with `unreachable!()` |
| SectionDecoder.DecodeSection | src/module/section.rs:54-132 | a section is an id byte and a `u32` size, then a body of that id's kind; a custom section consumes exactly `size` bytes after the size; `unreachable!()` happens exactly for an id above 12; which records a section holds is stated per id by the round-trip lemmas below |
| SectionProperties.SectionHeader | src/module/section.rs:56-57 | the header is the id byte and the size, whatever follows |
| SectionProperties.SizeIgnored | src/module/section.rs:66-129 | the size of a non-custom section does not affect the outcome |
| SectionProperties.TodoSection | src/module/section.rs:70-123 | a section of `todo!()` records decodes only when empty; any other count panics |
| SectionProperties.UnknownIdPanics | src/module/section.rs:130 | an id above 12 panics |
| SectionProperties.OptionalWithoutIndex | src/module/section.rs:104-109 | a start or data count section with no index is `None`, leaving the bytes after the header |
| SectionProperties.OptionalRoundTrip | src/module/section.rs:124-129 | a start or data count section reads back its index |
| SectionProperties.CustomRoundTrip | src/module/section.rs:60-65 | a custom section whose size covers its name and contents reads back both |
| SectionProperties.CustomNameTooLong | src/module/section.rs:63 | a name longer than the declared size makes the section fail |
| SectionProperties.TypeSectionRoundTrip | src/module/section.rs:66-69 | a type section reads back its function types |
| SectionProperties.FunctionSectionRoundTrip | src/module/section.rs:76-81 | a function section reads back its type indices, each a `u32` |
| SectionProperties.TableSectionRoundTrip | src/module/section.rs:82-85 | a table section reads back its tables |
| SectionProperties.MemorySectionRoundTrip | src/module/section.rs:86-91 | a memory section reads back its memories |
| SectionProperties.TypeSectionExample | src/module/section.rs:66-69 | a type section holding one function i32 → i32 |
| SectionProperties.BadFuncTypeSection | src/module/section.rs:66-69 | a type section whose first function type lacks the 0x60 tag fails recoverably |
| WasmModule.Field | src/module.rs:34-47 | each of the twelve fields is seen as the section of its id |
| WasmModule.FieldsDetermineModule | src/module.rs:34-47 | two modules with equal fields are equal |
| WasmModule.ApplySectionFields | src/module.rs:77-91 | a section sets the field of its own kind and leaves every other field unchanged; a custom section changes nothing |
| WasmModule.LastSectionWins | src/module.rs:77-91 | each field holds the last section of its kind, or stays empty if there is none |
| WasmModule.CustomSectionsIgnored | src/module.rs:78 | removing a custom section anywhere leaves the module unchanged |
| WasmModule.MagicHeader | src/module.rs:98-102 | succeeds iff the input starts with 00 61 73 6D, which it consumes |
| WasmModule.WasmVersion | src/module.rs:104-108 | succeeds iff the input starts with 01 00 00 00, which it consumes |
| WasmModule.PreambleExamples | src/module.rs:122-136 | the unit tests of the preamble |
| WasmModule.ModuleDecoding | src/module.rs:49-96 | a module is rejected as malformed exactly when the preamble is wrong; on success the rest is a suffix on which no further section decodes |
| WasmModule.DecodeModule | src/module.rs:49-96 | the method's result is the decoding of the module |
| WasmModule.BuildModule | src/module.rs:60-91 | the loop over the sections builds the fold of the sections into the empty module |
| ModuleProperties.PreambleThenSections | src/module.rs:58-94 | after the preamble, the module is the fold of what `many0` decodes, and it leaves what `many0` leaves |
| ModuleProperties.NoSections | src/module.rs:61-74 | with no section after the preamble, the module is empty and the input is left over |
| ModuleProperties.EmptyModuleExamples | src/module.rs:58-94 | the preamble alone is the empty module; a stray byte after it is left over, not rejected |
| ModuleProperties.TrailingBytesLeftOver | src/module.rs:58-94 | a malformed type section after the preamble is left over, and the empty module is returned |
| ModuleProperties.BadPreambleExamples | src/module.rs:52-55 | a wrong magic number or version is malformed |
| ModuleProperties.UnknownSectionExample | src/module/section.rs:130 | a module with section id 0xFF panics |
| ModuleProperties.MemoryModuleExample | src/module.rs:49-96 | a module with one memory section has that memory and every other field empty |
| Lib.New | src/lib.rs:18-27 | `Some(m)` exactly when the module decodes to m, whatever follows; `None` exactly when it is malformed, which is exactly when the preamble is wrong; a panic in a section decoder escapes |

## Left out

- `u32`, `i32` and `i64` come from the `nom_leb128` crate, which is not part
  of this model. They follow the LEB128 rules of section 5.2.2 of the
  WebAssembly 2.0 core specification. Truncated input is `Malformed`, where
  the crate may report nom's `Incomplete`. An over-long final group that the
  crate might accept is rejected here. `Incomplete` is not recoverable:
  `many0` (src/module.rs:58), `opt` (src/values.rs:56) and `count` pass it
  on, and `Module::new` turns it into `None`. The model instead treats input
  that ends inside a LEB128 number as a recoverable failure. The lines below
  name the results that rest on this.
- `Lib.New`: "`None` exactly when the preamble is wrong" assumes that a
  LEB128 number cut short by the end of the input is a recoverable failure.
  On such input, for example a section id as the last byte, the crate gives
  `None`, not the module decoded so far.
- `SectionProperties.OptionalWithoutIndex`: the `None` result assumes that a
  missing index is a recoverable failure. When the input ends right after
  the header (a start section `[0x08, 0x00]` at the end of the module), the
  crate's `u32` reports `Incomplete` and `Module::new` gives `None`.
- `ModuleProperties.EmptyModuleExamples`: the lone byte 0xFF after the
  preamble is left over only because a section size cut short by the end
  of the input is a recoverable failure here. The crate gives `None` for
  that input. `ModuleProperties.TrailingBytesLeftOver` shows the leftover
  bytes on input that fails recoverably in the crate too.
- `ModuleProperties.NoSections`: its premise, that no section decodes,
  covers input on which the crate reports `Incomplete`, for example input
  that ends inside a section header. For such input the crate gives `None`.
- Float values are not modelled. `f32` and `f64` are their bit patterns, and
  float opcodes are tags.
- The records whose decoders are `todo!()` have a datatype but no behaviour
  beyond the panic:
  - src/module/import.rs, global.rs, export.rs, element.rs, code.rs and
    data.rs;
  - the stale root copies of those files.
- Descriptor variants are renamed with a prefix (`ImportFunc`, `ExportFunc`)
  so that the names are unique within one module.
- The index newtypes are modelled as `u32`, since src/module/indices.rs is
  not part of this model.
- src/instructions/variable.rs is not compiled into the crate. The model
  still gives its decoder, on its own.
- `Sections.DecodeCustom`: the `usize` subtraction that underflows when a
  name is longer than the declared size is modelled as a failed `take`,
  which is the release-build behaviour. A debug build panics there instead.
- nom's `many0` guard against an element that consumes nothing is modelled
  as `Malformed`. Section decoding always consumes input, so the guard never
  fires.
- The tests that load `examples/module.wasm` (src/lib.rs:29-37,
  src/module.rs:116-120) are not modelled, because that file is not shown.
- src/main.rs is not modelled: it only parses command-line arguments, reads
  files and prints.
- src/module/util.rs only declares the `Decode` trait again.
- Validation and execution are not part of the code.
