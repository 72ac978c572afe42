/** Numeric instructions (src/instructions/numeric.rs, section 5.4.7 of the
    WebAssembly 2.0 core specification): the 0x41..0xC4 opcode table and the
    0xFC-prefixed saturating truncations. */
module Numeric {
  import opened Decoding
  import opened Values

  /** The numeric instructions, in the declaration order of the source;
      float constants are kept as their IEEE 754 bit patterns. The source's
      spellings `I32NeU`, `I64NeU`, `F32ConvertI64u` and `F64ConvertI64u` are
      kept. */
  datatype NumericInstruction =
    | I32Const(i32: I32)
    | I64Const(i64: I64)
    | F32Const(f32: F32Bits)
    | F64Const(f64: F64Bits)
    | I32Eqz | I32Eq | I32Ne | I32LtS | I32NeU | I32GtS | I32GtU | I32LeS
    | I32LeU | I32GeS | I32GeU | I64Eqz | I64Eq | I64Ne | I64LtS | I64NeU
    | I64GtS | I64GtU | I64LeS | I64LeU | I64GeS | I64GeU | F32Eq | F32Ne
    | F32Lt | F32Gt | F32Le | F32Ge | F64Eq | F64Ne | F64Lt | F64Gt | F64Le
    | F64Ge | I32Clz | I32Ctz | I32Popcnt | I32Add | I32Sub | I32Mul | I32DivS
    | I32DivU | I32RemS | I32RemU | I32And | I32Or | I32Xor | I32Shl | I32ShrS
    | I32ShrU | I32Rotl | I32Rotr | I64Clz | I64Ctz | I64Popcnt | I64Add
    | I64Sub | I64Mul | I64DivS | I64DivU | I64RemS | I64RemU | I64And | I64Or
    | I64Xor | I64Shl | I64ShrS | I64ShrU | I64Rotl | I64Rotr | F32Abs | F32Neg
    | F32Ceil | F32Floor | F32Trunc | F32Nearest | F32Sqrt | F32Add | F32Sub
    | F32Mul | F32Div | F32Min | F32Max | F32CopySign | F64Abs | F64Neg
    | F64Ceil | F64Floor | F64Trunc | F64Nearest | F64Sqrt | F64Add | F64Sub
    | F64Mul | F64Div | F64Min | F64Max | F64CopySign | I32WrapI64
    | I32TruncF32S | I32TruncF32U | I32TruncF64S | I32TruncF64U | I64ExtendI32S
    | I64ExtendI32U | I64TruncF32S | I64TruncF32U | I64TruncF64S | I64TruncF64U
    | F32ConvertI32S | F32ConvertI32U | F32ConvertI64S | F32ConvertI64u
    | F32DemoteF64 | F64ConvertI32S | F64ConvertI32U | F64ConvertI64S
    | F64ConvertI64u | F64PromoteF32 | I32ReinterpretF32 | I64ReinterpretF64
    | F32ReinterpretI32 | F64ReinterpretI64 | I32Extend8S | I32Extend16S
    | I64Extend8S | I64Extend16S | I64Extend32S
  {
    /** The four `*.const` instructions, the only ones that carry an operand. */
    predicate HasImmediate() {
      I32Const? || I64Const? || F32Const? || F64Const?
    }
  }

  /** nom's `alt` over alternatives that cannot panic: the first success wins. */
  function OrElse<T>(first: Option<T>, second: Option<T>): (r: Option<T>)
    ensures r.Some? <==> first.Some? || second.Some?
    ensures first.Some? ==> r == first
  {
    if first.Some? then first else second
  }

  /** The operand-free numeric instruction with opcode `b`, if any
      (src/instructions/numeric.rs:182-353): the groups of the source's nested
      `alt`s, tried in the source's order. */
  function PlainNumeric(b: Byte): (i: Option<NumericInstruction>)
    ensures i.Some? <==> 0x45 <= b <= 0xC4
  {
    OrElse(I32ComparisonOp(b),
    OrElse(I64ComparisonOp(b),
    OrElse(F32ComparisonOp(b),
    OrElse(F64ComparisonOp(b),
    OrElse(I32ArithmeticOp(b),
    OrElse(I64ArithmeticOp(b),
    OrElse(F32ArithmeticOp(b),
    OrElse(F64ArithmeticOp(b),
    OrElse(I32ConversionOp(b),
    OrElse(I64ConversionOp(b),
    OrElse(F32ConversionOp(b),
    OrElse(F64ConversionOp(b),
    OrElse(ReinterpretOp(b),
    ExtendOp(b))))))))))))))
  }

  /** Opcodes 0x45..0x4F: the i32 comparisons (src/instructions/numeric.rs:183-195). */
  function I32ComparisonOp(b: Byte): (i: Option<NumericInstruction>)
    ensures i.Some? <==> 0x45 <= b <= 0x4F
  {
    match b
    case 0x45 => Some(I32Eqz)
    case 0x46 => Some(I32Eq)
    case 0x47 => Some(I32Ne)
    case 0x48 => Some(I32LtS)
    case 0x49 => Some(I32NeU)
    case 0x4A => Some(I32GtS)
    case 0x4B => Some(I32GtU)
    case 0x4C => Some(I32LeS)
    case 0x4D => Some(I32LeU)
    case 0x4E => Some(I32GeS)
    case 0x4F => Some(I32GeU)
    case _ => None
  }

  /** Opcodes 0x50..0x5A: the i64 comparisons (src/instructions/numeric.rs:196-209). */
  function I64ComparisonOp(b: Byte): (i: Option<NumericInstruction>)
    ensures i.Some? <==> 0x50 <= b <= 0x5A
  {
    match b
    case 0x50 => Some(I64Eqz)
    case 0x51 => Some(I64Eq)
    case 0x52 => Some(I64Ne)
    case 0x53 => Some(I64LtS)
    case 0x54 => Some(I64NeU)
    case 0x55 => Some(I64GtS)
    case 0x56 => Some(I64GtU)
    case 0x57 => Some(I64LeS)
    case 0x58 => Some(I64LeU)
    case 0x59 => Some(I64GeS)
    case 0x5A => Some(I64GeU)
    case _ => None
  }

  /** Opcodes 0x5B..0x60: the f32 comparisons (src/instructions/numeric.rs:210-218). */
  function F32ComparisonOp(b: Byte): (i: Option<NumericInstruction>)
    ensures i.Some? <==> 0x5B <= b <= 0x60
  {
    match b
    case 0x5B => Some(F32Eq)
    case 0x5C => Some(F32Ne)
    case 0x5D => Some(F32Lt)
    case 0x5E => Some(F32Gt)
    case 0x5F => Some(F32Le)
    case 0x60 => Some(F32Ge)
    case _ => None
  }

  /** Opcodes 0x61..0x66: the f64 comparisons (src/instructions/numeric.rs:219-227). */
  function F64ComparisonOp(b: Byte): (i: Option<NumericInstruction>)
    ensures i.Some? <==> 0x61 <= b <= 0x66
  {
    match b
    case 0x61 => Some(F64Eq)
    case 0x62 => Some(F64Ne)
    case 0x63 => Some(F64Lt)
    case 0x64 => Some(F64Gt)
    case 0x65 => Some(F64Le)
    case 0x66 => Some(F64Ge)
    case _ => None
  }

  /** Opcodes 0x67..0x78: the i32 arithmetic (src/instructions/numeric.rs:228-249).
      The source lists 0x45 (`i32.eqz`) here a second time. */
  function I32ArithmeticOp(b: Byte): (i: Option<NumericInstruction>)
    ensures i.Some? <==> b == 0x45 || 0x67 <= b <= 0x78
  {
    match b
    case 0x45 => Some(I32Eqz)
    case 0x67 => Some(I32Clz)
    case 0x68 => Some(I32Ctz)
    case 0x69 => Some(I32Popcnt)
    case 0x6A => Some(I32Add)
    case 0x6B => Some(I32Sub)
    case 0x6C => Some(I32Mul)
    case 0x6D => Some(I32DivS)
    case 0x6E => Some(I32DivU)
    case 0x6F => Some(I32RemS)
    case 0x70 => Some(I32RemU)
    case 0x71 => Some(I32And)
    case 0x72 => Some(I32Or)
    case 0x73 => Some(I32Xor)
    case 0x74 => Some(I32Shl)
    case 0x75 => Some(I32ShrS)
    case 0x76 => Some(I32ShrU)
    case 0x77 => Some(I32Rotl)
    case 0x78 => Some(I32Rotr)
    case _ => None
  }

  /** Opcodes 0x79..0x8A: the i64 arithmetic (src/instructions/numeric.rs:250-270). */
  function I64ArithmeticOp(b: Byte): (i: Option<NumericInstruction>)
    ensures i.Some? <==> 0x79 <= b <= 0x8A
  {
    match b
    case 0x79 => Some(I64Clz)
    case 0x7A => Some(I64Ctz)
    case 0x7B => Some(I64Popcnt)
    case 0x7C => Some(I64Add)
    case 0x7D => Some(I64Sub)
    case 0x7E => Some(I64Mul)
    case 0x7F => Some(I64DivS)
    case 0x80 => Some(I64DivU)
    case 0x81 => Some(I64RemS)
    case 0x82 => Some(I64RemU)
    case 0x83 => Some(I64And)
    case 0x84 => Some(I64Or)
    case 0x85 => Some(I64Xor)
    case 0x86 => Some(I64Shl)
    case 0x87 => Some(I64ShrS)
    case 0x88 => Some(I64ShrU)
    case 0x89 => Some(I64Rotl)
    case 0x8A => Some(I64Rotr)
    case _ => None
  }

  /** Opcodes 0x8B..0x98: the f32 arithmetic (src/instructions/numeric.rs:271-287). */
  function F32ArithmeticOp(b: Byte): (i: Option<NumericInstruction>)
    ensures i.Some? <==> 0x8B <= b <= 0x98
  {
    match b
    case 0x8B => Some(F32Abs)
    case 0x8C => Some(F32Neg)
    case 0x8D => Some(F32Ceil)
    case 0x8E => Some(F32Floor)
    case 0x8F => Some(F32Trunc)
    case 0x90 => Some(F32Nearest)
    case 0x91 => Some(F32Sqrt)
    case 0x92 => Some(F32Add)
    case 0x93 => Some(F32Sub)
    case 0x94 => Some(F32Mul)
    case 0x95 => Some(F32Div)
    case 0x96 => Some(F32Min)
    case 0x97 => Some(F32Max)
    case 0x98 => Some(F32CopySign)
    case _ => None
  }

  /** Opcodes 0x99..0xA6: the f64 arithmetic (src/instructions/numeric.rs:288-304). */
  function F64ArithmeticOp(b: Byte): (i: Option<NumericInstruction>)
    ensures i.Some? <==> 0x99 <= b <= 0xA6
  {
    match b
    case 0x99 => Some(F64Abs)
    case 0x9A => Some(F64Neg)
    case 0x9B => Some(F64Ceil)
    case 0x9C => Some(F64Floor)
    case 0x9D => Some(F64Trunc)
    case 0x9E => Some(F64Nearest)
    case 0x9F => Some(F64Sqrt)
    case 0xA0 => Some(F64Add)
    case 0xA1 => Some(F64Sub)
    case 0xA2 => Some(F64Mul)
    case 0xA3 => Some(F64Div)
    case 0xA4 => Some(F64Min)
    case 0xA5 => Some(F64Max)
    case 0xA6 => Some(F64CopySign)
    case _ => None
  }

  /** Opcodes 0xA7..0xAB: the conversions to i32 (src/instructions/numeric.rs:305-313). */
  function I32ConversionOp(b: Byte): (i: Option<NumericInstruction>)
    ensures i.Some? <==> 0xA7 <= b <= 0xAB
  {
    match b
    case 0xA7 => Some(I32WrapI64)
    case 0xA8 => Some(I32TruncF32S)
    case 0xA9 => Some(I32TruncF32U)
    case 0xAA => Some(I32TruncF64S)
    case 0xAB => Some(I32TruncF64U)
    case _ => None
  }

  /** Opcodes 0xAC..0xB1: the conversions to i64 (src/instructions/numeric.rs:314-322). */
  function I64ConversionOp(b: Byte): (i: Option<NumericInstruction>)
    ensures i.Some? <==> 0xAC <= b <= 0xB1
  {
    match b
    case 0xAC => Some(I64ExtendI32S)
    case 0xAD => Some(I64ExtendI32U)
    case 0xAE => Some(I64TruncF32S)
    case 0xAF => Some(I64TruncF32U)
    case 0xB0 => Some(I64TruncF64S)
    case 0xB1 => Some(I64TruncF64U)
    case _ => None
  }

  /** Opcodes 0xB2..0xB6: the conversions to f32 (src/instructions/numeric.rs:323-330). */
  function F32ConversionOp(b: Byte): (i: Option<NumericInstruction>)
    ensures i.Some? <==> 0xB2 <= b <= 0xB6
  {
    match b
    case 0xB2 => Some(F32ConvertI32S)
    case 0xB3 => Some(F32ConvertI32U)
    case 0xB4 => Some(F32ConvertI64S)
    case 0xB5 => Some(F32ConvertI64u)
    case 0xB6 => Some(F32DemoteF64)
    case _ => None
  }

  /** Opcodes 0xB7..0xBB: the conversions to f64 (src/instructions/numeric.rs:331-338). */
  function F64ConversionOp(b: Byte): (i: Option<NumericInstruction>)
    ensures i.Some? <==> 0xB7 <= b <= 0xBB
  {
    match b
    case 0xB7 => Some(F64ConvertI32S)
    case 0xB8 => Some(F64ConvertI32U)
    case 0xB9 => Some(F64ConvertI64S)
    case 0xBA => Some(F64ConvertI64u)
    case 0xBB => Some(F64PromoteF32)
    case _ => None
  }

  /** Opcodes 0xBC..0xBF: the reinterpretations (src/instructions/numeric.rs:339-345). */
  function ReinterpretOp(b: Byte): (i: Option<NumericInstruction>)
    ensures i.Some? <==> 0xBC <= b <= 0xBF
  {
    match b
    case 0xBC => Some(I32ReinterpretF32)
    case 0xBD => Some(I64ReinterpretF64)
    case 0xBE => Some(F32ReinterpretI32)
    case 0xBF => Some(F64ReinterpretI64)
    case _ => None
  }

  /** Opcodes 0xC0..0xC4: the sign extensions (src/instructions/numeric.rs:346-353). */
  function ExtendOp(b: Byte): (i: Option<NumericInstruction>)
    ensures i.Some? <==> 0xC0 <= b <= 0xC4
  {
    match b
    case 0xC0 => Some(I32Extend8S)
    case 0xC1 => Some(I32Extend16S)
    case 0xC2 => Some(I64Extend8S)
    case 0xC3 => Some(I64Extend16S)
    case 0xC4 => Some(I64Extend32S)
    case _ => None
  }

  /** The opcode byte of every numeric instruction (section 5.4.7 of the
      WebAssembly Core Specification 2.0). */
  function NumericOpcode(i: NumericInstruction): Byte {
    match i
    case I32Const(_) => 0x41
    case I64Const(_) => 0x42
    case F32Const(_) => 0x43
    case F64Const(_) => 0x44
    case I32Eqz => 0x45
    case I32Eq => 0x46
    case I32Ne => 0x47
    case I32LtS => 0x48
    case I32NeU => 0x49
    case I32GtS => 0x4A
    case I32GtU => 0x4B
    case I32LeS => 0x4C
    case I32LeU => 0x4D
    case I32GeS => 0x4E
    case I32GeU => 0x4F
    case I64Eqz => 0x50
    case I64Eq => 0x51
    case I64Ne => 0x52
    case I64LtS => 0x53
    case I64NeU => 0x54
    case I64GtS => 0x55
    case I64GtU => 0x56
    case I64LeS => 0x57
    case I64LeU => 0x58
    case I64GeS => 0x59
    case I64GeU => 0x5A
    case F32Eq => 0x5B
    case F32Ne => 0x5C
    case F32Lt => 0x5D
    case F32Gt => 0x5E
    case F32Le => 0x5F
    case F32Ge => 0x60
    case F64Eq => 0x61
    case F64Ne => 0x62
    case F64Lt => 0x63
    case F64Gt => 0x64
    case F64Le => 0x65
    case F64Ge => 0x66
    case I32Clz => 0x67
    case I32Ctz => 0x68
    case I32Popcnt => 0x69
    case I32Add => 0x6A
    case I32Sub => 0x6B
    case I32Mul => 0x6C
    case I32DivS => 0x6D
    case I32DivU => 0x6E
    case I32RemS => 0x6F
    case I32RemU => 0x70
    case I32And => 0x71
    case I32Or => 0x72
    case I32Xor => 0x73
    case I32Shl => 0x74
    case I32ShrS => 0x75
    case I32ShrU => 0x76
    case I32Rotl => 0x77
    case I32Rotr => 0x78
    case I64Clz => 0x79
    case I64Ctz => 0x7A
    case I64Popcnt => 0x7B
    case I64Add => 0x7C
    case I64Sub => 0x7D
    case I64Mul => 0x7E
    case I64DivS => 0x7F
    case I64DivU => 0x80
    case I64RemS => 0x81
    case I64RemU => 0x82
    case I64And => 0x83
    case I64Or => 0x84
    case I64Xor => 0x85
    case I64Shl => 0x86
    case I64ShrS => 0x87
    case I64ShrU => 0x88
    case I64Rotl => 0x89
    case I64Rotr => 0x8A
    case F32Abs => 0x8B
    case F32Neg => 0x8C
    case F32Ceil => 0x8D
    case F32Floor => 0x8E
    case F32Trunc => 0x8F
    case F32Nearest => 0x90
    case F32Sqrt => 0x91
    case F32Add => 0x92
    case F32Sub => 0x93
    case F32Mul => 0x94
    case F32Div => 0x95
    case F32Min => 0x96
    case F32Max => 0x97
    case F32CopySign => 0x98
    case F64Abs => 0x99
    case F64Neg => 0x9A
    case F64Ceil => 0x9B
    case F64Floor => 0x9C
    case F64Trunc => 0x9D
    case F64Nearest => 0x9E
    case F64Sqrt => 0x9F
    case F64Add => 0xA0
    case F64Sub => 0xA1
    case F64Mul => 0xA2
    case F64Div => 0xA3
    case F64Min => 0xA4
    case F64Max => 0xA5
    case F64CopySign => 0xA6
    case I32WrapI64 => 0xA7
    case I32TruncF32S => 0xA8
    case I32TruncF32U => 0xA9
    case I32TruncF64S => 0xAA
    case I32TruncF64U => 0xAB
    case I64ExtendI32S => 0xAC
    case I64ExtendI32U => 0xAD
    case I64TruncF32S => 0xAE
    case I64TruncF32U => 0xAF
    case I64TruncF64S => 0xB0
    case I64TruncF64U => 0xB1
    case F32ConvertI32S => 0xB2
    case F32ConvertI32U => 0xB3
    case F32ConvertI64S => 0xB4
    case F32ConvertI64u => 0xB5
    case F32DemoteF64 => 0xB6
    case F64ConvertI32S => 0xB7
    case F64ConvertI32U => 0xB8
    case F64ConvertI64S => 0xB9
    case F64ConvertI64u => 0xBA
    case F64PromoteF32 => 0xBB
    case I32ReinterpretF32 => 0xBC
    case I64ReinterpretF64 => 0xBD
    case F32ReinterpretI32 => 0xBE
    case F64ReinterpretI64 => 0xBF
    case I32Extend8S => 0xC0
    case I32Extend16S => 0xC1
    case I64Extend8S => 0xC2
    case I64Extend16S => 0xC3
    case I64Extend32S => 0xC4
  }

  /** The binary form of a numeric instruction: its opcode, then the operand
      of a constant (shortest LEB128 for integers, little-endian bytes for floats). */
  function EncodeNumeric(i: NumericInstruction): Bytes {
    if i.I32Const? then [0x41] + EncodeSigned(i.i32)
    else if i.I64Const? then [0x42] + EncodeSigned(i.i64)
    else if i.F32Const? then [0x43] + ToLittleEndian(i.f32, 4)
    else if i.F64Const? then [0x44] + ToLittleEndian(i.f64, 8)
    else [NumericOpcode(i)]
  }

  /** `NumericInstruction::decode` (src/instructions/numeric.rs:164-355). Every
      alternative starts with a one-byte tag, so the nested `alt`s come down to
      a dispatch on the first byte; the second 0x45 entry (line 230) is never
      reached. A constant whose operand does not decode fails the whole alt. */
  function DecodeNumeric(s: Bytes): (r: Result<NumericInstruction>)
    ensures Progresses(s, r) && r.Recoverable()
    ensures r.Ok? ==> s[0] == NumericOpcode(r.value)
    ensures (|s| == 0 || s[0] < 0x41 || s[0] > 0xC4) ==> r == Err(Malformed)
    ensures |s| > 0 && 0x45 <= s[0] <= 0xC4 ==> r.Ok? && !r.value.HasImmediate() && r.rest == s[1..]
  {
    if |s| == 0 then Err(Malformed)
    else if s[0] == 0x41 then
      match DecodeI32(s[1..])
      case Ok(v, rest) => Ok(I32Const(v), rest)
      case Err(e) => Err(e)
    else if s[0] == 0x42 then
      match DecodeI64(s[1..])
      case Ok(v, rest) => Ok(I64Const(v), rest)
      case Err(e) => Err(e)
    else if s[0] == 0x43 then
      match DecodeF32(s[1..])
      case Ok(x, rest) => Ok(F32Const(x), rest)
      case Err(e) => Err(e)
    else if s[0] == 0x44 then
      match DecodeF64(s[1..])
      case Ok(x, rest) => Ok(F64Const(x), rest)
      case Err(e) => Err(e)
    else if s[0] < 0x45 || s[0] > 0xC4 then Err(Malformed)
    else
      PlainNumericOpcode(s[0]);
      Ok(PlainNumeric(s[0]).value, s[1..])
  }

  /** The opcode table read forwards: every byte in 0x45..0xC4 names an
      operand-free instruction whose opcode is that byte. */
  lemma PlainNumericOpcode(b: Byte)
    requires 0x45 <= b <= 0xC4
    ensures PlainNumeric(b).Some? && !PlainNumeric(b).value.HasImmediate()
    ensures NumericOpcode(PlainNumeric(b).value) == b
  {
    if b <= 0x4F {
      I32ComparisonOpcodes(b);
    } else if b <= 0x5A {
      I64ComparisonOpcodes(b);
    } else if b <= 0x60 {
      F32ComparisonOpcodes(b);
    } else if b <= 0x66 {
      F64ComparisonOpcodes(b);
    } else if b <= 0x78 {
      I32ArithmeticOpcodes(b);
    } else if b <= 0x8A {
      I64ArithmeticOpcodes(b);
    } else if b <= 0x98 {
      F32ArithmeticOpcodes(b);
    } else if b <= 0xA6 {
      F64ArithmeticOpcodes(b);
    } else if b <= 0xAB {
      I32ConversionOpcodes(b);
    } else if b <= 0xB1 {
      I64ConversionOpcodes(b);
    } else if b <= 0xB6 {
      F32ConversionOpcodes(b);
    } else if b <= 0xBB {
      F64ConversionOpcodes(b);
    } else if b <= 0xBF {
      ReinterpretOpcodes(b);
    } else {
      ExtendOpcodes(b);
    }
  }

  /** The opcode table read backwards: every operand-free instruction is
      found at its own opcode, so the table is a bijection between 0x45..0xC4
      and the operand-free instructions. */
  lemma PlainNumericInverse(i: NumericInstruction)
    requires !i.HasImmediate()
    ensures 0x45 <= NumericOpcode(i) <= 0xC4
    ensures PlainNumeric(NumericOpcode(i)) == Some(i)
  {
    PlainNumericGroups(NumericOpcode(i));
    if i.I32Eqz? || i.I32Eq? || i.I32Ne? || i.I32LtS? || i.I32NeU? || i.I32GtS? ||
        i.I32GtU? || i.I32LeS? || i.I32LeU? || i.I32GeS? || i.I32GeU? {
      I32ComparisonInstructions(i);
    } else if i.I64Eqz? || i.I64Eq? || i.I64Ne? || i.I64LtS? || i.I64NeU? || i.I64GtS? ||
        i.I64GtU? || i.I64LeS? || i.I64LeU? || i.I64GeS? || i.I64GeU? {
      I64ComparisonInstructions(i);
    } else if i.F32Eq? || i.F32Ne? || i.F32Lt? || i.F32Gt? || i.F32Le? || i.F32Ge? {
      F32ComparisonInstructions(i);
    } else if i.F64Eq? || i.F64Ne? || i.F64Lt? || i.F64Gt? || i.F64Le? || i.F64Ge? {
      F64ComparisonInstructions(i);
    } else if i.I32Clz? || i.I32Ctz? || i.I32Popcnt? || i.I32Add? || i.I32Sub? || i.I32Mul? ||
        i.I32DivS? || i.I32DivU? || i.I32RemS? || i.I32RemU? || i.I32And? || i.I32Or? ||
        i.I32Xor? || i.I32Shl? || i.I32ShrS? || i.I32ShrU? || i.I32Rotl? || i.I32Rotr? {
      I32ArithmeticInstructions(i);
    } else if i.I64Clz? || i.I64Ctz? || i.I64Popcnt? || i.I64Add? || i.I64Sub? || i.I64Mul? ||
        i.I64DivS? || i.I64DivU? || i.I64RemS? || i.I64RemU? || i.I64And? || i.I64Or? ||
        i.I64Xor? || i.I64Shl? || i.I64ShrS? || i.I64ShrU? || i.I64Rotl? || i.I64Rotr? {
      I64ArithmeticInstructions(i);
    } else if i.F32Abs? || i.F32Neg? || i.F32Ceil? || i.F32Floor? || i.F32Trunc? ||
        i.F32Nearest? || i.F32Sqrt? || i.F32Add? || i.F32Sub? || i.F32Mul? || i.F32Div? ||
        i.F32Min? || i.F32Max? || i.F32CopySign? {
      F32ArithmeticInstructions(i);
    } else if i.F64Abs? || i.F64Neg? || i.F64Ceil? || i.F64Floor? || i.F64Trunc? ||
        i.F64Nearest? || i.F64Sqrt? || i.F64Add? || i.F64Sub? || i.F64Mul? || i.F64Div? ||
        i.F64Min? || i.F64Max? || i.F64CopySign? {
      F64ArithmeticInstructions(i);
    } else if i.I32WrapI64? || i.I32TruncF32S? || i.I32TruncF32U? || i.I32TruncF64S? ||
        i.I32TruncF64U? {
      I32ConversionInstructions(i);
    } else if i.I64ExtendI32S? || i.I64ExtendI32U? || i.I64TruncF32S? || i.I64TruncF32U? ||
        i.I64TruncF64S? || i.I64TruncF64U? {
      I64ConversionInstructions(i);
    } else if i.F32ConvertI32S? || i.F32ConvertI32U? || i.F32ConvertI64S? || i.F32ConvertI64u? ||
        i.F32DemoteF64? {
      F32ConversionInstructions(i);
    } else if i.F64ConvertI32S? || i.F64ConvertI32U? || i.F64ConvertI64S? || i.F64ConvertI64u? ||
        i.F64PromoteF32? {
      F64ConversionInstructions(i);
    } else if i.I32ReinterpretF32? || i.I64ReinterpretF64? || i.F32ReinterpretI32? ||
        i.F64ReinterpretI64? {
      ReinterpretInstructions(i);
    } else {
      ExtendInstructions(i);
    }
  }

  /** Within each group's opcode range, the table answers with that group. */
  lemma PlainNumericGroups(b: Byte)
    ensures 0x45 <= b <= 0x4F ==> PlainNumeric(b) == I32ComparisonOp(b)
    ensures 0x50 <= b <= 0x5A ==> PlainNumeric(b) == I64ComparisonOp(b)
    ensures 0x5B <= b <= 0x60 ==> PlainNumeric(b) == F32ComparisonOp(b)
    ensures 0x61 <= b <= 0x66 ==> PlainNumeric(b) == F64ComparisonOp(b)
    ensures 0x67 <= b <= 0x78 ==> PlainNumeric(b) == I32ArithmeticOp(b)
    ensures 0x79 <= b <= 0x8A ==> PlainNumeric(b) == I64ArithmeticOp(b)
    ensures 0x8B <= b <= 0x98 ==> PlainNumeric(b) == F32ArithmeticOp(b)
    ensures 0x99 <= b <= 0xA6 ==> PlainNumeric(b) == F64ArithmeticOp(b)
    ensures 0xA7 <= b <= 0xAB ==> PlainNumeric(b) == I32ConversionOp(b)
    ensures 0xAC <= b <= 0xB1 ==> PlainNumeric(b) == I64ConversionOp(b)
    ensures 0xB2 <= b <= 0xB6 ==> PlainNumeric(b) == F32ConversionOp(b)
    ensures 0xB7 <= b <= 0xBB ==> PlainNumeric(b) == F64ConversionOp(b)
    ensures 0xBC <= b <= 0xBF ==> PlainNumeric(b) == ReinterpretOp(b)
    ensures 0xC0 <= b <= 0xC4 ==> PlainNumeric(b) == ExtendOp(b)
  {
  }

  // The table checked one source group at a time.

  lemma I32ComparisonOpcodes(b: Byte)
    requires 0x45 <= b <= 0x4F
    ensures I32ComparisonOp(b).Some? && NumericOpcode(I32ComparisonOp(b).value) == b
  {
    match I32ComparisonOp(b).value
    case I32Eqz =>
    case _ =>
  }

  lemma I64ComparisonOpcodes(b: Byte)
    requires 0x50 <= b <= 0x5A
    ensures I64ComparisonOp(b).Some? && NumericOpcode(I64ComparisonOp(b).value) == b
  {
    match I64ComparisonOp(b).value
    case I32Eqz =>
    case _ =>
  }

  lemma F32ComparisonOpcodes(b: Byte)
    requires 0x5B <= b <= 0x60
    ensures F32ComparisonOp(b).Some? && NumericOpcode(F32ComparisonOp(b).value) == b
  {
    match F32ComparisonOp(b).value
    case I32Eqz =>
    case _ =>
  }

  lemma F64ComparisonOpcodes(b: Byte)
    requires 0x61 <= b <= 0x66
    ensures F64ComparisonOp(b).Some? && NumericOpcode(F64ComparisonOp(b).value) == b
  {
    match F64ComparisonOp(b).value
    case I32Eqz =>
    case _ =>
  }

  lemma I32ArithmeticOpcodes(b: Byte)
    requires 0x67 <= b <= 0x78
    ensures I32ArithmeticOp(b).Some? && NumericOpcode(I32ArithmeticOp(b).value) == b
  {
    match I32ArithmeticOp(b).value
    case I32Eqz =>
    case _ =>
  }

  lemma I64ArithmeticOpcodes(b: Byte)
    requires 0x79 <= b <= 0x8A
    ensures I64ArithmeticOp(b).Some? && NumericOpcode(I64ArithmeticOp(b).value) == b
  {
    match I64ArithmeticOp(b).value
    case I32Eqz =>
    case _ =>
  }

  lemma F32ArithmeticOpcodes(b: Byte)
    requires 0x8B <= b <= 0x98
    ensures F32ArithmeticOp(b).Some? && NumericOpcode(F32ArithmeticOp(b).value) == b
  {
    match F32ArithmeticOp(b).value
    case I32Eqz =>
    case _ =>
  }

  lemma F64ArithmeticOpcodes(b: Byte)
    requires 0x99 <= b <= 0xA6
    ensures F64ArithmeticOp(b).Some? && NumericOpcode(F64ArithmeticOp(b).value) == b
  {
    match F64ArithmeticOp(b).value
    case I32Eqz =>
    case _ =>
  }

  lemma I32ConversionOpcodes(b: Byte)
    requires 0xA7 <= b <= 0xAB
    ensures I32ConversionOp(b).Some? && NumericOpcode(I32ConversionOp(b).value) == b
  {
    match I32ConversionOp(b).value
    case I32Eqz =>
    case _ =>
  }

  lemma I64ConversionOpcodes(b: Byte)
    requires 0xAC <= b <= 0xB1
    ensures I64ConversionOp(b).Some? && NumericOpcode(I64ConversionOp(b).value) == b
  {
    match I64ConversionOp(b).value
    case I32Eqz =>
    case _ =>
  }

  lemma F32ConversionOpcodes(b: Byte)
    requires 0xB2 <= b <= 0xB6
    ensures F32ConversionOp(b).Some? && NumericOpcode(F32ConversionOp(b).value) == b
  {
    match F32ConversionOp(b).value
    case I32Eqz =>
    case _ =>
  }

  lemma F64ConversionOpcodes(b: Byte)
    requires 0xB7 <= b <= 0xBB
    ensures F64ConversionOp(b).Some? && NumericOpcode(F64ConversionOp(b).value) == b
  {
    match F64ConversionOp(b).value
    case I32Eqz =>
    case _ =>
  }

  lemma ReinterpretOpcodes(b: Byte)
    requires 0xBC <= b <= 0xBF
    ensures ReinterpretOp(b).Some? && NumericOpcode(ReinterpretOp(b).value) == b
  {
    match ReinterpretOp(b).value
    case I32Eqz =>
    case _ =>
  }

  lemma ExtendOpcodes(b: Byte)
    requires 0xC0 <= b <= 0xC4
    ensures ExtendOp(b).Some? && NumericOpcode(ExtendOp(b).value) == b
  {
    match ExtendOp(b).value
    case I32Eqz =>
    case _ =>
  }

  lemma I32ComparisonInstructions(i: NumericInstruction)
    requires i.I32Eqz? || i.I32Eq? || i.I32Ne? || i.I32LtS? || i.I32NeU? || i.I32GtS? ||
             i.I32GtU? || i.I32LeS? || i.I32LeU? || i.I32GeS? || i.I32GeU?
    ensures 0x45 <= NumericOpcode(i) <= 0x4F
    ensures I32ComparisonOp(NumericOpcode(i)) == Some(i)
  {
    match i
    case I32Eqz =>
    case _ =>
  }

  lemma I64ComparisonInstructions(i: NumericInstruction)
    requires i.I64Eqz? || i.I64Eq? || i.I64Ne? || i.I64LtS? || i.I64NeU? || i.I64GtS? ||
             i.I64GtU? || i.I64LeS? || i.I64LeU? || i.I64GeS? || i.I64GeU?
    ensures 0x50 <= NumericOpcode(i) <= 0x5A
    ensures I64ComparisonOp(NumericOpcode(i)) == Some(i)
  {
    match i
    case I32Eqz =>
    case _ =>
  }

  lemma F32ComparisonInstructions(i: NumericInstruction)
    requires i.F32Eq? || i.F32Ne? || i.F32Lt? || i.F32Gt? || i.F32Le? || i.F32Ge?
    ensures 0x5B <= NumericOpcode(i) <= 0x60
    ensures F32ComparisonOp(NumericOpcode(i)) == Some(i)
  {
    match i
    case I32Eqz =>
    case _ =>
  }

  lemma F64ComparisonInstructions(i: NumericInstruction)
    requires i.F64Eq? || i.F64Ne? || i.F64Lt? || i.F64Gt? || i.F64Le? || i.F64Ge?
    ensures 0x61 <= NumericOpcode(i) <= 0x66
    ensures F64ComparisonOp(NumericOpcode(i)) == Some(i)
  {
    match i
    case I32Eqz =>
    case _ =>
  }

  lemma I32ArithmeticInstructions(i: NumericInstruction)
    requires i.I32Clz? || i.I32Ctz? || i.I32Popcnt? || i.I32Add? || i.I32Sub? ||
             i.I32Mul? || i.I32DivS? || i.I32DivU? || i.I32RemS? || i.I32RemU? ||
             i.I32And? || i.I32Or? || i.I32Xor? || i.I32Shl? || i.I32ShrS? || i.I32ShrU? ||
             i.I32Rotl? || i.I32Rotr?
    ensures 0x67 <= NumericOpcode(i) <= 0x78
    ensures I32ArithmeticOp(NumericOpcode(i)) == Some(i)
  {
    match i
    case I32Eqz =>
    case _ =>
  }

  lemma I64ArithmeticInstructions(i: NumericInstruction)
    requires i.I64Clz? || i.I64Ctz? || i.I64Popcnt? || i.I64Add? || i.I64Sub? ||
             i.I64Mul? || i.I64DivS? || i.I64DivU? || i.I64RemS? || i.I64RemU? ||
             i.I64And? || i.I64Or? || i.I64Xor? || i.I64Shl? || i.I64ShrS? || i.I64ShrU? ||
             i.I64Rotl? || i.I64Rotr?
    ensures 0x79 <= NumericOpcode(i) <= 0x8A
    ensures I64ArithmeticOp(NumericOpcode(i)) == Some(i)
  {
    match i
    case I32Eqz =>
    case _ =>
  }

  lemma F32ArithmeticInstructions(i: NumericInstruction)
    requires i.F32Abs? || i.F32Neg? || i.F32Ceil? || i.F32Floor? || i.F32Trunc? ||
             i.F32Nearest? || i.F32Sqrt? || i.F32Add? || i.F32Sub? || i.F32Mul? ||
             i.F32Div? || i.F32Min? || i.F32Max? || i.F32CopySign?
    ensures 0x8B <= NumericOpcode(i) <= 0x98
    ensures F32ArithmeticOp(NumericOpcode(i)) == Some(i)
  {
    match i
    case I32Eqz =>
    case _ =>
  }

  lemma F64ArithmeticInstructions(i: NumericInstruction)
    requires i.F64Abs? || i.F64Neg? || i.F64Ceil? || i.F64Floor? || i.F64Trunc? ||
             i.F64Nearest? || i.F64Sqrt? || i.F64Add? || i.F64Sub? || i.F64Mul? ||
             i.F64Div? || i.F64Min? || i.F64Max? || i.F64CopySign?
    ensures 0x99 <= NumericOpcode(i) <= 0xA6
    ensures F64ArithmeticOp(NumericOpcode(i)) == Some(i)
  {
    match i
    case I32Eqz =>
    case _ =>
  }

  lemma I32ConversionInstructions(i: NumericInstruction)
    requires i.I32WrapI64? || i.I32TruncF32S? || i.I32TruncF32U? || i.I32TruncF64S? ||
             i.I32TruncF64U?
    ensures 0xA7 <= NumericOpcode(i) <= 0xAB
    ensures I32ConversionOp(NumericOpcode(i)) == Some(i)
  {
    match i
    case I32Eqz =>
    case _ =>
  }

  lemma I64ConversionInstructions(i: NumericInstruction)
    requires i.I64ExtendI32S? || i.I64ExtendI32U? || i.I64TruncF32S? || i.I64TruncF32U? ||
             i.I64TruncF64S? || i.I64TruncF64U?
    ensures 0xAC <= NumericOpcode(i) <= 0xB1
    ensures I64ConversionOp(NumericOpcode(i)) == Some(i)
  {
    match i
    case I32Eqz =>
    case _ =>
  }

  lemma F32ConversionInstructions(i: NumericInstruction)
    requires i.F32ConvertI32S? || i.F32ConvertI32U? || i.F32ConvertI64S? ||
             i.F32ConvertI64u? || i.F32DemoteF64?
    ensures 0xB2 <= NumericOpcode(i) <= 0xB6
    ensures F32ConversionOp(NumericOpcode(i)) == Some(i)
  {
    match i
    case I32Eqz =>
    case _ =>
  }

  lemma F64ConversionInstructions(i: NumericInstruction)
    requires i.F64ConvertI32S? || i.F64ConvertI32U? || i.F64ConvertI64S? ||
             i.F64ConvertI64u? || i.F64PromoteF32?
    ensures 0xB7 <= NumericOpcode(i) <= 0xBB
    ensures F64ConversionOp(NumericOpcode(i)) == Some(i)
  {
    match i
    case I32Eqz =>
    case _ =>
  }

  lemma ReinterpretInstructions(i: NumericInstruction)
    requires i.I32ReinterpretF32? || i.I64ReinterpretF64? || i.F32ReinterpretI32? ||
             i.F64ReinterpretI64?
    ensures 0xBC <= NumericOpcode(i) <= 0xBF
    ensures ReinterpretOp(NumericOpcode(i)) == Some(i)
  {
    match i
    case I32Eqz =>
    case _ =>
  }

  lemma ExtendInstructions(i: NumericInstruction)
    requires i.I32Extend8S? || i.I32Extend16S? || i.I64Extend8S? || i.I64Extend16S? ||
             i.I64Extend32S?
    ensures 0xC0 <= NumericOpcode(i) <= 0xC4
    ensures ExtendOp(NumericOpcode(i)) == Some(i)
  {
    match i
    case I32Eqz =>
    case _ =>
  }

  /** Decoding the binary form of any numeric instruction gives it back. */
  lemma NumericRoundTrip(i: NumericInstruction, u: Bytes)
    ensures DecodeNumeric(EncodeNumeric(i) + u) == Ok(i, u)
  {
    if i.HasImmediate() {
      ConstRoundTrip(i, u);
    } else {
      PlainNumericInverse(i);
      PlainDecode(NumericOpcode(i), u);
    }
  }

  lemma ConstRoundTrip(i: NumericInstruction, u: Bytes)
    requires i.HasImmediate()
    ensures DecodeNumeric(EncodeNumeric(i) + u) == Ok(i, u)
  {
    if i.I32Const? {
      I32ConstRoundTrip(i.i32, u);
    } else if i.I64Const? {
      I64ConstRoundTrip(i.i64, u);
    } else if i.F32Const? {
      F32ConstRoundTrip(i.f32, u);
    } else {
      F64ConstRoundTrip(i.f64, u);
    }
  }

  lemma I32ConstRoundTrip(v: I32, u: Bytes)
    ensures DecodeNumeric(EncodeNumeric(I32Const(v)) + u) == Ok(I32Const(v), u)
  {
    assert (EncodeNumeric(I32Const(v)) + u)[1..] == EncodeSigned(v) + u;
    I32RoundTrip(v, u);
  }

  lemma I64ConstRoundTrip(v: I64, u: Bytes)
    ensures DecodeNumeric(EncodeNumeric(I64Const(v)) + u) == Ok(I64Const(v), u)
  {
    assert (EncodeNumeric(I64Const(v)) + u)[1..] == EncodeSigned(v) + u;
    I64RoundTrip(v, u);
  }

  lemma F32ConstRoundTrip(x: F32Bits, u: Bytes)
    ensures DecodeNumeric(EncodeNumeric(F32Const(x)) + u) == Ok(F32Const(x), u)
  {
    assert (EncodeNumeric(F32Const(x)) + u)[1..] == ToLittleEndian(x, 4) + u;
    F32RoundTrip(x, u);
  }

  lemma F64ConstRoundTrip(x: F64Bits, u: Bytes)
    ensures DecodeNumeric(EncodeNumeric(F64Const(x)) + u) == Ok(F64Const(x), u)
  {
    assert (EncodeNumeric(F64Const(x)) + u)[1..] == ToLittleEndian(x, 8) + u;
    F64RoundTrip(x, u);
  }

  /** An opcode of the table decodes on its own, taking one byte. */
  lemma PlainDecode(b: Byte, u: Bytes)
    requires 0x45 <= b <= 0xC4
    ensures DecodeNumeric([b] + u) == Ok(PlainNumeric(b).value, u)
  {
    assert ([b] + u)[1..] == u;
  }

  /** A `*.const` opcode whose operand is cut short fails. */
  lemma TruncatedConstFails(b: Byte)
    requires 0x41 <= b <= 0x44
    ensures DecodeNumeric([b]) == Err(Malformed)
  {
    assert [b][1..] == [];
  }

  /** The unit tests of `NumericInstruction::decode` (src/instructions/numeric.rs:396-406). */
  lemma NumericExamples()
    ensures DecodeNumeric([0xC0]) == Ok(I32Extend8S, [])
    ensures DecodeNumeric([0x41, 0x08]) == Ok(I32Const(8), [])
    ensures DecodeNumeric([0xFF]).Err?
    ensures DecodeNumeric([0x45]) == Ok(I32Eqz, [])
  {
    assert [0x41, 0x08][1..] == [0x08];
  }

  // ---------------------------------------------------------------------
  // Saturating truncation

  /** The 0xFC-prefixed saturating truncations, in declaration order. */
  datatype SaturatingTruncationInstruction =
    | I32TruncSatF32S | I32TruncSatF32U | I32TruncSatF64S | I32TruncSatF64U
    | I64TruncSatF32S | I64TruncSatF32U | I64TruncSatF64S | I64TruncSatF64U

  /** The sub-opcode that follows 0xFC: the position in declaration order. */
  function SubOpcode(i: SaturatingTruncationInstruction): (k: nat)
    ensures k <= 7
  {
    match i
    case I32TruncSatF32S => 0
    case I32TruncSatF32U => 1
    case I32TruncSatF64S => 2
    case I32TruncSatF64U => 3
    case I64TruncSatF32S => 4
    case I64TruncSatF32U => 5
    case I64TruncSatF64S => 6
    case I64TruncSatF64U => 7
  }

  /** The instruction with sub-opcode `k` (src/instructions/numeric.rs:374-384);
      the `unreachable!()` arm is excluded by the caller's `k <= 7`. */
  function SaturatingOf(k: nat): (i: SaturatingTruncationInstruction)
    requires k <= 7
    ensures SubOpcode(i) == k
  {
    if k == 0 then I32TruncSatF32S
    else if k == 1 then I32TruncSatF32U
    else if k == 2 then I32TruncSatF64S
    else if k == 3 then I32TruncSatF64U
    else if k == 4 then I64TruncSatF32S
    else if k == 5 then I64TruncSatF32U
    else if k == 6 then I64TruncSatF64S
    else I64TruncSatF64U
  }

  lemma SubOpcodeInverse(i: SaturatingTruncationInstruction)
    ensures SaturatingOf(SubOpcode(i)) == i
  {
  }

  function EncodeSaturating(i: SaturatingTruncationInstruction): Bytes {
    [0xFC] + EncodeUnsigned(SubOpcode(i))
  }

  /** `SaturatingTruncationInstruction::decode` (src/instructions/numeric.rs:371-386):
      0xFC, then a `u32` sub-opcode that `verify` bounds by 7. */
  function DecodeSaturating(s: Bytes): (r: Result<SaturatingTruncationInstruction>)
    ensures Progresses(s, r) && r.Recoverable()
    ensures r.Ok? ==> s[0] == 0xFC && DecodeU32(s[1..]) == Ok(SubOpcode(r.value), r.rest)
    ensures (|s| == 0 || s[0] != 0xFC) ==> r == Err(Malformed)
    ensures |s| > 0 && s[0] == 0xFC && DecodeU32(s[1..]).Ok? && DecodeU32(s[1..]).value > 7
      ==> r == Err(Malformed)
  {
    if |s| == 0 || s[0] != 0xFC then Err(Malformed)
    else
      match DecodeU32(s[1..])
      case Err(e) => Err(e)
      case Ok(k, rest) =>
        if k <= 7 then Ok(SaturatingOf(k), rest) else Err(Malformed)
  }

  lemma SaturatingRoundTrip(i: SaturatingTruncationInstruction, u: Bytes)
    ensures DecodeSaturating(EncodeSaturating(i) + u) == Ok(i, u)
  {
    var s := EncodeSaturating(i) + u;
    assert s[1..] == EncodeUnsigned(SubOpcode(i)) + u;
    U32RoundTrip(SubOpcode(i), u);
    SubOpcodeInverse(i);
  }

  /** The unit tests of `SaturatingTruncationInstruction::decode`
      (src/instructions/numeric.rs:408-415), and a sub-opcode past the table. */
  lemma SaturatingExamples()
    ensures DecodeSaturating([0xFC, 0x00]) == Ok(I32TruncSatF32S, [])
    ensures DecodeSaturating([0xFF]).Err?
    ensures DecodeSaturating([0xFC, 0x08]).Err?
  {
    SaturatingRoundTrip(I32TruncSatF32S, []);
    assert EncodeSaturating(I32TruncSatF32S) == [0xFC, 0x00];
    U32RoundTrip(8, []);
    assert [0xFC, 0x08][1..] == EncodeUnsigned(8) + [];
  }
}
