/** Reference instructions (src/instructions/reference.rs, section 5.4.2 of
    the WebAssembly 2.0 core specification). */
module Reference {
  import opened Decoding
  import opened Values
  import opened Types

  datatype ReferenceInstruction = Null(t: RefType) | IsNull | Func(x: FuncIdx)

  /** The binary form the decoder reads: `ref.func` shares 0xD0 with `ref.null`. */
  function EncodeReference(i: ReferenceInstruction): Bytes {
    match i
    case Null(t) => [0xD0, RefTypeByte(t)]
    case IsNull => [0xD1]
    case Func(x) => [0xD0] + EncodeUnsigned(x)
  }

  /** `ReferenceInstruction::decode` (src/instructions/reference.rs:16-28):
      0xD0 with a reference type, else 0xD1, else 0xD0 with a function index. */
  function DecodeReference(s: Bytes): (r: Result<ReferenceInstruction>)
    ensures Progresses(s, r) && r.Recoverable()
    ensures (|s| == 0 || (s[0] != 0xD0 && s[0] != 0xD1)) ==> r == Err(Malformed)
    ensures |s| > 0 && s[0] == 0xD1 ==> r == Ok(IsNull, s[1..])
    ensures r.Ok? && r.value.Null? ==> |s| >= 2 && s[..2] == [0xD0, RefTypeByte(r.value.t)] && r.rest == s[2..]
    ensures r.Ok? && r.value.Func? ==>
      s[0] == 0xD0 && !(|s| > 1 && IsRefTypeTag(s[1])) && DecodeU32(s[1..]) == Ok(r.value.x, r.rest)
  {
    Alt(
      if |s| > 0 && s[0] == 0xD0 then
        match DecodeRefType(s[1..])
        case Ok(t, rest) => Ok(Null(t), rest)
        case Err(e) => Err(e)
      else Err(Malformed),
    Alt(
      if |s| > 0 && s[0] == 0xD1 then Ok(IsNull, s[1..]) else Err(Malformed),
      if |s| > 0 && s[0] == 0xD0 then
        match DecodeU32(s[1..])
        case Ok(x, rest) => Ok(Func(x), rest)
        case Err(e) => Err(e)
      else Err(Malformed)))
  }

  /** Because `ref.null` is tried first, 0xD0 followed by a reference-type
      byte is always `ref.null`: `Func` never comes out of such input. */
  lemma NullShadowsFunc(t: RefType, u: Bytes)
    ensures DecodeReference([0xD0, RefTypeByte(t)] + u) == Ok(Null(t), u)
  {
    var s := [0xD0, RefTypeByte(t)] + u;
    assert s[1..] == [RefTypeByte(t)] + u;
    assert s[2..] == u;
  }

  /** Function indices 0x6F and 0x70 encode as a single reference-type byte,
      so `Func(0x70)` comes back as `Null(FuncRef)`. */
  lemma FuncIndexShadowed()
    ensures DecodeReference(EncodeReference(Func(0x70))) == Ok(Null(FuncRef), [])
    ensures DecodeReference(EncodeReference(Func(0x6F))) == Ok(Null(ExternRef), [])
  {
    NullShadowsFunc(FuncRef, []);
    NullShadowsFunc(ExternRef, []);
  }

  /** Every other reference instruction survives a round trip. */
  lemma ReferenceRoundTrip(i: ReferenceInstruction, u: Bytes)
    requires i.Func? ==> i.x != 0x6F && i.x != 0x70
    ensures DecodeReference(EncodeReference(i) + u) == Ok(i, u)
  {
    var s := EncodeReference(i) + u;
    match i
    case Null(t) =>
      NullShadowsFunc(t, u);
    case IsNull =>
      assert s[1..] == u;
    case Func(x) =>
      FuncRoundTrip(x, u);
  }

  lemma FuncRoundTrip(x: FuncIdx, u: Bytes)
    requires x != 0x6F && x != 0x70
    ensures DecodeReference([0xD0] + EncodeUnsigned(x) + u) == Ok(Func(x), u)
  {
    var s := [0xD0] + EncodeUnsigned(x) + u;
    SplitFirst(0xD0, EncodeUnsigned(x), u);
    U32RoundTrip(x, u);
    assert EncodeUnsigned(x)[0] == s[1];
    FirstByteNotRefType(x);
    FuncParts(s, x, u);
  }

  /** 0xD0, a byte that is no reference type, then an index: `ref.func`. */
  lemma FuncParts(s: Bytes, x: FuncIdx, rest: Bytes)
    requires |s| > 1 && s[0] == 0xD0 && !IsRefTypeTag(s[1]) && DecodeU32(s[1..]) == Ok(x, rest)
    ensures DecodeReference(s) == Ok(Func(x), rest)
  {
  }

  /** The first byte of the LEB128 form of an index other than 0x6F and 0x70
      is not a reference-type tag. */
  lemma FirstByteNotRefType(x: nat)
    requires x != 0x6F && x != 0x70
    ensures !IsRefTypeTag(EncodeUnsigned(x)[0])
  {
  }

  /** The standard's `ref.func` opcode 0xD2 is not recognised. */
  lemma StandardRefFuncRejected(u: Bytes)
    ensures DecodeReference([0xD2] + u) == Err(Malformed)
  {
  }

  /** The unit tests of src/instructions/reference.rs:36-47, and an index
      that is not a reference type. */
  lemma ReferenceExamples()
    ensures DecodeReference([0xD1]) == Ok(IsNull, [])
    ensures DecodeReference([0xD0, 0x70]) == Ok(Null(FuncRef), [])
    ensures DecodeReference([0xFF]).Err?
    ensures DecodeReference([0xD0, 0x05]) == Ok(Func(5), [])
  {
    NullShadowsFunc(FuncRef, []);
    ReferenceRoundTrip(Func(5), []);
    assert EncodeReference(Func(5)) == [0xD0, 0x05];
  }
}
