/** Parametric instructions (src/instructions/parametric.rs, section 5.4.3 of
    the WebAssembly 2.0 core specification). */
module Parametric {
  import opened Decoding
  import opened Values
  import opened Types

  datatype ParametricInstruction = Drop | Select | SelectTyped(ts: seq<ValType>)

  function EncodeParametric(i: ParametricInstruction): Bytes {
    match i
    case Drop => [0x1A]
    case Select => [0x1B]
    case SelectTyped(ts) => [0x1C] + EncodeResultType(ts)
  }

  /** `ParametricInstruction::decode` (src/instructions/parametric.rs:16-26):
      0x1A, 0x1B, or 0x1C followed by a vector of value types. */
  function DecodeParametric(s: Bytes): (r: Result<ParametricInstruction>)
    ensures Progresses(s, r) && r.Recoverable()
    ensures (|s| == 0 || s[0] < 0x1A || s[0] > 0x1C) ==> r == Err(Malformed)
    ensures |s| > 0 && s[0] == 0x1A ==> r == Ok(Drop, s[1..])
    ensures |s| > 0 && s[0] == 0x1B ==> r == Ok(Select, s[1..])
    ensures |s| > 0 && s[0] == 0x1C ==>
      (r.Ok? <==> DecodeResultType(s[1..]).Ok?) &&
      (r.Ok? ==> r.value.SelectTyped? && DecodeResultType(s[1..]) == Ok(r.value.ts, r.rest))
  {
    Alt(
      if |s| > 0 && s[0] == 0x1A then Ok(Drop, s[1..]) else Err(Malformed),
    Alt(
      if |s| > 0 && s[0] == 0x1B then Ok(Select, s[1..]) else Err(Malformed),
      if |s| > 0 && s[0] == 0x1C then
        match DecodeResultType(s[1..])
        case Ok(ts, rest) => Ok(SelectTyped(ts), rest)
        case Err(e) => Err(e)
      else Err(Malformed)))
  }

  lemma ParametricRoundTrip(i: ParametricInstruction, u: Bytes)
    requires i.SelectTyped? ==> |i.ts| < 0x1_0000_0000
    ensures DecodeParametric(EncodeParametric(i) + u) == Ok(i, u)
  {
    var s := EncodeParametric(i) + u;
    match i
    case Drop =>
      assert s[1..] == u;
    case Select =>
      assert s[1..] == u;
    case SelectTyped(ts) =>
      SplitFirst(0x1C, EncodeResultType(ts), u);
      ResultTypeRoundTrip(ts, u);
      SelectTypedParts(s, ts, u);
  }

  /** 0x1C then a result type: a typed `select`. */
  lemma SelectTypedParts(s: Bytes, ts: seq<ValType>, rest: Bytes)
    requires |s| > 0 && s[0] == 0x1C && DecodeResultType(s[1..]) == Ok(ts, rest)
    ensures DecodeParametric(s) == Ok(SelectTyped(ts), rest)
  {
  }

  /** A typed select whose type vector is malformed fails as a whole. */
  lemma SelectTypedBadVector(n: U32, ts: seq<ValType>, b: Byte, u: Bytes)
    requires |ts| < n
    requires !IsValTypeTag(b)
    ensures DecodeParametric([0x1C] + (EncodeUnsigned(n) + EncodeAll(EncodeValType, ts) + [b] + u))
      == Err(Malformed)
  {
    var body := EncodeUnsigned(n) + EncodeAll(EncodeValType, ts) + [b] + u;
    assert ([0x1C] + body)[1..] == body;
    ResultTypeBadEntry(n, ts, b, u);
  }

  /** The unit tests of src/instructions/parametric.rs:34-48. */
  lemma ParametricExamples()
    ensures DecodeParametric([0x1A]) == Ok(Drop, [])
    ensures DecodeParametric([0x1C, 0x01, 0x70]) == Ok(SelectTyped([Ref(FuncRef)]), [])
    ensures DecodeParametric([0xFF]).Err?
    ensures DecodeParametric([0x1C, 0x01, 0x1A]).Err?
  {
    SelectTypedExample(SelectTyped([Ref(FuncRef)]), [0x1C, 0x01, 0x70]);
    BadVectorExample([0x1C, 0x01, 0x1A]);
  }

  lemma SelectTypedExample(i: ParametricInstruction, bs: Bytes)
    requires i == SelectTyped([Ref(FuncRef)]) && bs == [0x1C, 0x01, 0x70]
    ensures DecodeParametric(bs) == Ok(i, [])
  {
    ParametricRoundTrip(i, []);
    assert EncodeAll(EncodeValType, i.ts) == [0x70];
    assert EncodeParametric(i) + [] == bs;
  }

  lemma BadVectorExample(bs: Bytes)
    requires bs == [0x1C, 0x01, 0x1A]
    ensures DecodeParametric(bs) == Err(Malformed)
  {
    SelectTypedBadVector(1, [], 0x1A, []);
    assert [0x1C] + (EncodeUnsigned(1) + EncodeAll(EncodeValType, []) + [0x1A] + []) == bs;
  }
}
