/** Instruction dispatch and expressions (src/instructions.rs, section 5.4
    of the WebAssembly 2.0 core specification). */
module Instructions {
  import opened Decoding
  import opened Values
  import opened Numeric
  import opened Reference
  import opened Parametric

  /** The four categories the decoder dispatches to; control, variable,
      table and memory instructions are not part of the dispatch. */
  datatype Instruction =
    | Reference(ref: ReferenceInstruction)
    | Parametric(par: ParametricInstruction)
    | Numeric(num: NumericInstruction)
    | Saturating(sat: SaturatingTruncationInstruction)

  /** An expression: the instructions before the 0x0B that ends it. */
  datatype Expression = Expression(instrs: seq<Instruction>)

  /** The first bytes of the four categories. */
  predicate IsReferenceStart(b: Byte) { b == 0xD0 || b == 0xD1 }
  predicate IsParametricStart(b: Byte) { 0x1A <= b <= 0x1C }
  predicate IsNumericStart(b: Byte) { 0x41 <= b <= 0xC4 }
  predicate IsSaturatingStart(b: Byte) { b == 0xFC }

  predicate IsInstructionStart(b: Byte) {
    IsReferenceStart(b) || IsParametricStart(b) || IsNumericStart(b) || IsSaturatingStart(b)
  }

  function EncodeInstruction(i: Instruction): Bytes {
    match i
    case Reference(r) => EncodeReference(r)
    case Parametric(p) => EncodeParametric(p)
    case Numeric(n) => EncodeNumeric(n)
    case Saturating(t) => EncodeSaturating(t)
  }

  /** The instructions whose binary form decodes back to them: not a
      `ref.func` of index 0x6F or 0x70, and a typed select with fewer than
      2^32 types. */
  predicate Encodable(i: Instruction) {
    match i
    case Reference(r) => r.Func? ==> r.x != 0x6F && r.x != 0x70
    case Parametric(p) => p.SelectTyped? ==> |p.ts| < 0x1_0000_0000
    case _ => true
  }

  /** `Instruction::decode` (src/instructions.rs:40-69): Reference, then
      Parametric, then Numeric, then Saturating, the first that succeeds. */
  function DecodeInstruction(s: Bytes): (r: Result<Instruction>)
    ensures Progresses(s, r) && r.Recoverable()
    ensures (|s| == 0 || !IsInstructionStart(s[0])) ==> r == Err(Malformed)
  {
    Alt(
      match DecodeReference(s)
      case Ok(i, rest) => Ok(Reference(i), rest)
      case Err(e) => Err(e),
    Alt(
      match DecodeParametric(s)
      case Ok(i, rest) => Ok(Parametric(i), rest)
      case Err(e) => Err(e),
    Alt(
      match DecodeNumeric(s)
      case Ok(i, rest) => Ok(Numeric(i), rest)
      case Err(e) => Err(e),
      match DecodeSaturating(s)
      case Ok(i, rest) => Ok(Saturating(i), rest)
      case Err(e) => Err(e))))
  }

  /** The first bytes of the categories are disjoint, so the first byte alone
      chooses the decoder, and a failure there is the failure of the whole. */
  lemma DispatchByFirstByte(s: Bytes)
    requires |s| > 0
    ensures IsReferenceStart(s[0]) ==>
      DecodeInstruction(s) == (match DecodeReference(s) case Ok(i, rest) => Ok(Reference(i), rest) case Err(e) => Err(e))
    ensures IsParametricStart(s[0]) ==>
      DecodeInstruction(s) == (match DecodeParametric(s) case Ok(i, rest) => Ok(Parametric(i), rest) case Err(e) => Err(e))
    ensures IsNumericStart(s[0]) ==>
      DecodeInstruction(s) == (match DecodeNumeric(s) case Ok(i, rest) => Ok(Numeric(i), rest) case Err(e) => Err(e))
    ensures IsSaturatingStart(s[0]) ==>
      DecodeInstruction(s) == (match DecodeSaturating(s) case Ok(i, rest) => Ok(Saturating(i), rest) case Err(e) => Err(e))
  {
  }

  /** Variable instructions are not dispatched: 0x20..0x24 are rejected. */
  lemma VariableNotDispatched(s: Bytes)
    requires |s| > 0 && 0x20 <= s[0] <= 0x24
    ensures DecodeInstruction(s) == Err(Malformed)
  {
  }

  /** The binary form of an instruction starts with a byte of its own category. */
  lemma EncodedStart(i: Instruction)
    requires Encodable(i)
    ensures |EncodeInstruction(i)| > 0
    ensures i.Reference? ==> IsReferenceStart(EncodeInstruction(i)[0])
    ensures i.Parametric? ==> IsParametricStart(EncodeInstruction(i)[0])
    ensures i.Numeric? ==> IsNumericStart(EncodeInstruction(i)[0])
    ensures i.Saturating? ==> IsSaturatingStart(EncodeInstruction(i)[0])
  {
    if i.Numeric? && !i.num.HasImmediate() {
      PlainNumericInverse(i.num);
    }
  }

  lemma InstructionRoundTrip(i: Instruction, u: Bytes)
    requires Encodable(i)
    ensures DecodeInstruction(EncodeInstruction(i) + u) == Ok(i, u)
  {
    var s := EncodeInstruction(i) + u;
    EncodedStart(i);
    DispatchByFirstByte(s);
    match i
    case Reference(r) => ReferenceRoundTrip(r, u);
    case Parametric(p) => ParametricRoundTrip(p, u);
    case Numeric(n) => NumericRoundTrip(n, u);
    case Saturating(t) => SaturatingRoundTrip(t, u);
  }

  /** Every instruction decode leaves a suffix and never panics. */
  lemma InstructionDecoder()
    ensures IsDecoder(DecodeInstruction) && NeverPanics(DecodeInstruction)
  {
    forall s ensures LeavesSuffix(s, DecodeInstruction(s)) && DecodeInstruction(s).Recoverable() {
    }
  }

  /** nom's `many_till(decode, tag([t]))`: the terminator is checked first,
      and consumed but not kept; otherwise one element is decoded, and one
      that takes no input stops the loop with an error. */
  function ManyTill<T>(decode: Bytes -> Result<T>, t: Byte, s: Bytes): (r: Result<seq<T>>)
    ensures r.Ok? ==> |r.rest| < |s|
    ensures IsDecoder(decode) ==> LeavesSuffix(s, r)
    ensures IsDecoder(decode) && r.Ok? ==> s[|s| - |r.rest| - 1] == t
    ensures NeverPanics(decode) ==> r.Recoverable()
    decreases |s|
  {
    if |s| > 0 && s[0] == t then Ok([], s[1..])
    else
      match decode(s)
      case Err(e) => Err(e)
      case Ok(v, rest) =>
        if |rest| >= |s| then Err(Malformed)
        else
          match ManyTill(decode, t, rest)
          case Err(e) => Err(e)
          case Ok(vs, rest') =>
            assert IsDecoder(decode) ==> IsSuffix(rest', s) && s[|s| - |rest'| - 1] == t by {
              if IsDecoder(decode) {
                assert LeavesSuffix(s, decode(s));
                TerminatorKept(s, rest, rest');
              }
            }
            Ok([v] + vs, rest')
  }

  /** A byte found just before `rest'` in a suffix of `s` is found there in `s`. */
  lemma TerminatorKept(s: Bytes, rest: Bytes, rest': Bytes)
    requires IsSuffix(rest, s) && IsSuffix(rest', rest) && |rest'| < |rest|
    ensures IsSuffix(rest', s) && s[|s| - |rest'| - 1] == rest[|rest| - |rest'| - 1]
  {
    SuffixTransitive(rest', rest, s);
  }

  /** `Expression::decode` (src/instructions.rs:19-25): instructions up to and
      including the first 0x0B found where an instruction could start. */
  function DecodeExpression(s: Bytes): (r: Result<Expression>)
    ensures Progresses(s, r) && r.Recoverable()
    ensures r.Ok? ==> s[|s| - |r.rest| - 1] == 0x0B
  {
    InstructionDecoder();
    match ManyTill(DecodeInstruction, 0x0B, s)
    case Ok(ins, rest) => Ok(Expression(ins), rest)
    case Err(e) => Err(e)
  }

  function EncodeExpression(e: Expression): Bytes {
    EncodeAll(EncodeInstruction, e.instrs) + [0x0B]
  }

  /** Input without a 0x0B byte is never an expression. */
  lemma UnterminatedFails(s: Bytes)
    requires forall k :: 0 <= k < |s| ==> s[k] != 0x0B
    ensures DecodeExpression(s).Err?
  {
  }

  /** The terminator ends the loop at once. */
  lemma ManyTillNil<T>(decode: Bytes -> Result<T>, t: Byte, u: Bytes)
    ensures ManyTill(decode, t, [t] + u) == Ok([], u)
  {
    assert ([t] + u)[1..] == u;
  }

  /** One step of the loop: an element, then the rest. */
  lemma ManyTillCons<T>(decode: Bytes -> Result<T>, t: Byte, s: Bytes, v: T, rest: Bytes, vs: seq<T>, u: Bytes)
    requires |s| > 0 && s[0] != t
    requires decode(s) == Ok(v, rest) && |rest| < |s|
    requires ManyTill(decode, t, rest) == Ok(vs, u)
    ensures ManyTill(decode, t, s) == Ok([v] + vs, u)
  {
  }

  lemma {:induction false} InstructionsRoundTrip(ins: seq<Instruction>, u: Bytes)
    requires forall k :: 0 <= k < |ins| ==> Encodable(ins[k])
    ensures ManyTill(DecodeInstruction, 0x0B, EncodeAll(EncodeInstruction, ins) + [0x0B] + u) == Ok(ins, u)
    decreases |ins|
  {
    if ins == [] {
      ManyTillNil(DecodeInstruction, 0x0B, u);
      assert EncodeAll(EncodeInstruction, ins) + [0x0B] + u == [0x0B] + u;
    } else {
      InstructionsRoundTrip(ins[1..], u);
      InstructionsPrepend(ins[0], ins[1..], u);
      assert [ins[0]] + ins[1..] == ins;
    }
  }

  lemma InstructionsPrepend(i: Instruction, ins: seq<Instruction>, u: Bytes)
    requires Encodable(i)
    requires ManyTill(DecodeInstruction, 0x0B, EncodeAll(EncodeInstruction, ins) + [0x0B] + u) == Ok(ins, u)
    ensures ManyTill(DecodeInstruction, 0x0B, EncodeAll(EncodeInstruction, [i] + ins) + [0x0B] + u)
      == Ok([i] + ins, u)
  {
    var tail := EncodeAll(EncodeInstruction, ins) + [0x0B] + u;
    var s := EncodeInstruction(i) + tail;
    assert ([i] + ins)[1..] == ins;
    assert EncodeAll(EncodeInstruction, [i] + ins) + [0x0B] + u == s;
    EncodedStart(i);
    InstructionRoundTrip(i, tail);
    ManyTillCons(DecodeInstruction, 0x0B, s, i, tail, ins, u);
  }

  lemma ExpressionRoundTrip(e: Expression, u: Bytes)
    requires forall k :: 0 <= k < |e.instrs| ==> Encodable(e.instrs[k])
    ensures DecodeExpression(EncodeExpression(e) + u) == Ok(e, u)
  {
    InstructionsRoundTrip(e.instrs, u);
  }

  /** The unit test of `Instruction::decode` (src/instructions.rs:92-99). */
  lemma InstructionExample()
    ensures DecodeInstruction([0xC0]) == Ok(Numeric(I32Extend8S), [])
  {
    Extend8Decodes([]);
    assert [0xC0] + [] == [0xC0];
  }

  /** 0xC0 is `i32.extend8_s`, whatever follows. */
  lemma Extend8Decodes(u: Bytes)
    ensures DecodeInstruction([0xC0] + u) == Ok(Numeric(I32Extend8S), u)
  {
    PlainDecode(0xC0, u);
    assert PlainNumeric(0xC0) == Some(I32Extend8S);
    DispatchByFirstByte([0xC0] + u);
  }

  lemma InstructionRejects()
    ensures DecodeInstruction([0xFF]).Err?
  {
  }

  /** The unit tests of `Expression::decode` (src/instructions.rs:77-90), and
      the empty expression. */
  lemma EmptyExpression()
    ensures DecodeExpression([0x0B]) == Ok(Expression([]), [])
  {
    ExpressionRoundTrip(Expression([]), []);
    assert EncodeExpression(Expression([])) == [0x0B];
  }

  lemma ExpressionExample()
    ensures DecodeExpression([0xC0, 0xC0, 0x0B])
      == Ok(Expression([Numeric(I32Extend8S), Numeric(I32Extend8S)]), [])
  {
    var e := Numeric(I32Extend8S);
    ManyTillNil(DecodeInstruction, 0x0B, []);
    assert [0x0B] + [] == [0x0B];
    TwoExtend8([0x0B], [], []);
    assert [0xC0] + ([0xC0] + [0x0B]) == [0xC0, 0xC0, 0x0B];
    assert [e] + ([e] + []) == [e, e];
    ExpressionOfInstructions([0xC0, 0xC0, 0x0B], [e, e], []);
  }

  /** An expression is the instructions the loop read, and it leaves what the loop left. */
  lemma ExpressionOfInstructions(s: Bytes, ins: seq<Instruction>, rest: Bytes)
    requires ManyTill(DecodeInstruction, 0x0B, s) == Ok(ins, rest)
    ensures DecodeExpression(s) == Ok(Expression(ins), rest)
  {
  }

  /** Two `i32.extend8_s` in front of the loop's input are two more elements. */
  lemma TwoExtend8(u: Bytes, ins: seq<Instruction>, w: Bytes)
    requires ManyTill(DecodeInstruction, 0x0B, u) == Ok(ins, w)
    ensures ManyTill(DecodeInstruction, 0x0B, [0xC0] + ([0xC0] + u))
      == Ok([Numeric(I32Extend8S)] + ([Numeric(I32Extend8S)] + ins), w)
  {
    Extend8Step(u, ins, w);
    Extend8Step([0xC0] + u, [Numeric(I32Extend8S)] + ins, w);
  }

  /** An `i32.extend8_s` in front of the loop's input is one more element. */
  lemma Extend8Step(u: Bytes, ins: seq<Instruction>, w: Bytes)
    requires ManyTill(DecodeInstruction, 0x0B, u) == Ok(ins, w)
    ensures ManyTill(DecodeInstruction, 0x0B, [0xC0] + u) == Ok([Numeric(I32Extend8S)] + ins, w)
  {
    Extend8Decodes(u);
    ManyTillCons(DecodeInstruction, 0x0B, [0xC0] + u, Numeric(I32Extend8S), u, ins, w);
  }

  lemma ExpressionRejects()
    ensures DecodeExpression([0xFF]).Err?
  {
    UnterminatedFails([0xFF]);
  }

  /** A 0x0B byte inside an operand does not end the expression. */
  lemma TerminatorInOperand()
    ensures DecodeExpression([0x41, 0x0B, 0x0B]) == Ok(Expression([Numeric(I32Const(11))]), [])
  {
    var lit := Expression([Numeric(I32Const(11))]);
    ExpressionRoundTrip(lit, []);
    ConstElevenBytes(lit);
  }

  lemma ConstElevenBytes(e: Expression)
    requires e == Expression([Numeric(I32Const(11))])
    ensures EncodeExpression(e) + [] == [0x41, 0x0B, 0x0B]
  {
    assert EncodeSigned(11) == [0x0B];
    assert EncodeInstruction(e.instrs[0]) == [0x41, 0x0B];
    assert EncodeAll(EncodeInstruction, e.instrs) == [0x41, 0x0B];
  }
}
