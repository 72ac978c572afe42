/** The type grammar of src/module/types.rs (sections 5.3.1-5.3.10 of the
    WebAssembly Core Specification 2.0). The older src/types.rs holds the
    same decoders for NumType, VecType, RefType, ValType, ResultType and
    FuncType, and shares this model. */
module Types {
  import opened Decoding
  import opened Values

  datatype NumType = I32 | I64 | F32 | F64
  datatype VecType = V128
  datatype RefType = FuncRef | ExternRef
  datatype ValType = Num(num: NumType) | Vec(vec: VecType) | Ref(ref: RefType)

  /** A result type is a vector of value types. */
  type ResultType = seq<ValType>

  /** A function signature: parameters (`rt1`) and results (`rt2`). */
  datatype FuncType = FuncType(rt1: ResultType, rt2: ResultType)

  datatype Limits = Limits(min: U32, max: Option<U32>)
  datatype MemType = MemType(lim: Limits)
  datatype TableType = TableType(lim: Limits, et: RefType)
  datatype Mutability = Const | Var
  datatype GlobalType = GlobalType(m: Mutability, t: ValType)

  // ---------------------------------------------------------------------
  // The tag bytes, as the standard assigns them

  function NumTypeByte(t: NumType): Byte {
    match t
    case I32 => 0x7F
    case I64 => 0x7E
    case F32 => 0x7D
    case F64 => 0x7C
  }

  function RefTypeByte(t: RefType): Byte {
    match t
    case FuncRef => 0x70
    case ExternRef => 0x6F
  }

  function ValTypeByte(t: ValType): Byte {
    match t
    case Num(n) => NumTypeByte(n)
    case Vec(_) => 0x7B
    case Ref(r) => RefTypeByte(r)
  }

  function MutabilityByte(m: Mutability): Byte {
    match m
    case Const => 0x00
    case Var => 0x01
  }

  predicate IsNumTypeTag(b: Byte) {
    b == 0x7F || b == 0x7E || b == 0x7D || b == 0x7C
  }

  predicate IsRefTypeTag(b: Byte) {
    b == 0x70 || b == 0x6F
  }

  predicate IsValTypeTag(b: Byte) {
    IsNumTypeTag(b) || b == 0x7B || IsRefTypeTag(b)
  }

  /** Distinct value types have distinct tag bytes. */
  lemma ValTypeByteInjective(a: ValType, b: ValType)
    ensures ValTypeByte(a) == ValTypeByte(b) ==> a == b
  {
  }

  function EncodeValType(t: ValType): Bytes {
    [ValTypeByte(t)]
  }

  function EncodeResultType(ts: ResultType): Bytes {
    EncodeUnsigned(|ts|) + EncodeAll(EncodeValType, ts)
  }

  function EncodeFuncType(ft: FuncType): Bytes {
    [0x60] + EncodeResultType(ft.rt1) + EncodeResultType(ft.rt2)
  }

  function EncodeLimits(l: Limits): Bytes {
    match l.max
    case None => [0x00] + EncodeUnsigned(l.min)
    case Some(max) => [0x01] + EncodeUnsigned(l.min) + EncodeUnsigned(max)
  }

  // ---------------------------------------------------------------------
  // Decoders

  /** `NumType` (src/module/types.rs:20-29, src/types.rs:14-23). */
  function DecodeNumType(s: Bytes): (r: Result<NumType>)
    ensures r.Recoverable()
    ensures r.Ok? <==> |s| > 0 && IsNumTypeTag(s[0])
    ensures r.Ok? ==> [NumTypeByte(r.value)] + r.rest == s
  {
    if |s| == 0 then Err(Malformed)
    else if s[0] == 0x7F then Ok(I32, s[1..])
    else if s[0] == 0x7E then Ok(I64, s[1..])
    else if s[0] == 0x7D then Ok(F32, s[1..])
    else if s[0] == 0x7C then Ok(F64, s[1..])
    else Err(Malformed)
  }

  /** `VecType` (src/module/types.rs:37-41, src/types.rs:31-35). */
  function DecodeVecType(s: Bytes): (r: Result<VecType>)
    ensures r.Recoverable()
    ensures r.Ok? <==> |s| > 0 && s[0] == 0x7B
    ensures r.Ok? ==> [0x7B] + r.rest == s
  {
    if |s| > 0 && s[0] == 0x7B then Ok(V128, s[1..]) else Err(Malformed)
  }

  /** `RefType` (src/module/types.rs:50-57, src/types.rs:44-51). */
  function DecodeRefType(s: Bytes): (r: Result<RefType>)
    ensures r.Recoverable()
    ensures r.Ok? <==> |s| > 0 && IsRefTypeTag(s[0])
    ensures r.Ok? ==> [RefTypeByte(r.value)] + r.rest == s
  {
    if |s| == 0 then Err(Malformed)
    else if s[0] == 0x70 then Ok(FuncRef, s[1..])
    else if s[0] == 0x6F then Ok(ExternRef, s[1..])
    else Err(Malformed)
  }

  /** `ValType` (src/module/types.rs:67-75, src/types.rs:61-69): the first of
      NumType, VecType, RefType that succeeds. */
  function DecodeValType(s: Bytes): (r: Result<ValType>)
    ensures r.Recoverable()
    ensures r.Ok? <==> |s| > 0 && IsValTypeTag(s[0])
    ensures r.Ok? ==> [ValTypeByte(r.value)] + r.rest == s
  {
    match DecodeNumType(s)
    case Ok(t, rest) => Ok(Num(t), rest)
    case Err(Malformed) =>
      (match DecodeVecType(s)
       case Ok(t, rest) => Ok(Vec(t), rest)
       case Err(Malformed) =>
         (match DecodeRefType(s)
          case Ok(t, rest) => Ok(Ref(t), rest)
          case Err(e) => Err(e))
       case Err(e) => Err(e))
    case Err(e) => Err(e)
  }

  lemma ValTypeRoundTrip(t: ValType, u: Bytes)
    ensures DecodeValType(EncodeValType(t) + u) == Ok(t, u)
  {
    var s := EncodeValType(t) + u;
    assert s[1..] == u;
    ValTypeByteInjective(t, DecodeValType(s).value);
  }

  lemma ValTypeDecoder()
    ensures IsDecoder(DecodeValType) && NeverPanics(DecodeValType)
  {
    forall s ensures LeavesSuffix(s, DecodeValType(s)) {
      var r := DecodeValType(s);
      if r.Ok? {
        assert s[1..] == r.rest;
      }
    }
  }

  /** `ResultType`, a vector of value types (src/module/types.rs:78, src/types.rs:72). */
  function DecodeResultType(s: Bytes): (r: Result<ResultType>)
    ensures Progresses(s, r) && r.Recoverable()
    ensures r.Ok? ==> DecodeU32(s).Ok? && |r.value| == DecodeU32(s).value
    ensures r.Ok? ==> DecodeU32(s).rest == EncodeAll(EncodeValType, r.value) + r.rest
  {
    ValTypeDecoder();
    var r := DecodeVec(DecodeValType, s);
    if r.Ok? then
      ValTypesReencode(DecodeU32(s).value, DecodeU32(s).rest);
      r
    else r
  }

  /** Decoding `n` value types takes exactly their `n` tag bytes. */
  lemma {:induction false} ValTypesReencode(n: nat, s: Bytes)
    requires DecodeCount(DecodeValType, n, s).Ok?
    ensures EncodeAll(EncodeValType, DecodeCount(DecodeValType, n, s).value) + DecodeCount(DecodeValType, n, s).rest == s
    decreases n
  {
    if n > 0 {
      var head := DecodeValType(s);
      var tail := DecodeCount(DecodeValType, n - 1, head.rest);
      ValTypesReencode(n - 1, head.rest);
      var vs := [head.value] + tail.value;
      assert DecodeCount(DecodeValType, n, s) == Ok(vs, tail.rest);
      assert vs[1..] == tail.value;
      assert EncodeAll(EncodeValType, vs) == EncodeValType(head.value) + EncodeAll(EncodeValType, tail.value);
    }
  }

  lemma ResultTypeRoundTrip(ts: ResultType, u: Bytes)
    requires |ts| < 0x1_0000_0000
    ensures DecodeResultType(EncodeResultType(ts) + u) == Ok(ts, u)
  {
    forall i, w | 0 <= i < |ts|
      ensures DecodeValType(EncodeValType(ts[i]) + w) == Ok(ts[i], w)
    {
      ValTypeRoundTrip(ts[i], w);
    }
    VecRoundTrip(DecodeValType, EncodeValType, ts, u);
  }

  /** A result type fails as a whole as soon as one entry is not a value type. */
  lemma ResultTypeBadEntry(n: U32, ts: ResultType, b: Byte, u: Bytes)
    requires |ts| < n
    requires !IsValTypeTag(b)
    ensures DecodeResultType(EncodeUnsigned(n) + EncodeAll(EncodeValType, ts) + [b] + u) == Err(Malformed)
  {
    var s := EncodeUnsigned(n) + EncodeAll(EncodeValType, ts) + [b] + u;
    var body := EncodeAll(EncodeValType, ts) + ([b] + u);
    assert s == EncodeUnsigned(n) + body;
    U32RoundTrip(n, body);
    forall i, w | 0 <= i < |ts|
      ensures DecodeValType(EncodeValType(ts[i]) + w) == Ok(ts[i], w)
    {
      ValTypeRoundTrip(ts[i], w);
    }
    CountRoundTrip(DecodeValType, EncodeValType, ts, [b] + u);
    assert DecodeValType([b] + u) == Err(Malformed);
    CountFailurePropagates(DecodeValType, n, |ts|, body);
  }

  /** `FuncType` (src/module/types.rs:87-94, src/types.rs:81-88): 0x60, then parameters, then results. */
  function DecodeFuncType(s: Bytes): (r: Result<FuncType>)
    ensures Progresses(s, r) && r.Recoverable()
    ensures r.Ok? ==> s[0] == 0x60
    ensures (|s| == 0 || s[0] != 0x60) ==> r == Err(Malformed)
  {
    if |s| == 0 || s[0] != 0x60 then Err(Malformed)
    else
      match DecodeResultType(s[1..])
      case Err(e) => Err(e)
      case Ok(rt1, rest) =>
        match DecodeResultType(rest)
        case Err(e) => Err(e)
        case Ok(rt2, rest') =>
          SuffixTransitive(rest', rest, s[1..]);
          SuffixTransitive(rest', s[1..], s);
          Ok(FuncType(rt1, rt2), rest')
  }

  lemma FuncTypeRoundTrip(ft: FuncType, u: Bytes)
    requires |ft.rt1| < 0x1_0000_0000 && |ft.rt2| < 0x1_0000_0000
    ensures DecodeFuncType(EncodeFuncType(ft) + u) == Ok(ft, u)
  {
    var s := EncodeFuncType(ft) + u;
    assert s[1..] == EncodeResultType(ft.rt1) + (EncodeResultType(ft.rt2) + u);
    ResultTypeRoundTrip(ft.rt1, EncodeResultType(ft.rt2) + u);
    ResultTypeRoundTrip(ft.rt2, u);
  }

  /** `Limits` (src/module/types.rs:103-119): flag 0x00 then min, or flag 0x01 then min and max. */
  function DecodeLimits(s: Bytes): (r: Result<Limits>)
    ensures Progresses(s, r) && r.Recoverable()
    ensures r.Ok? ==> s[0] == (if r.value.max.None? then 0x00 else 0x01)
    ensures (|s| == 0 || s[0] > 0x01) ==> r == Err(Malformed)
  {
    var first :=
      if |s| > 0 && s[0] == 0x00 then
        match DecodeU32(s[1..])
        case Ok(min, rest) => Ok(Limits(min, None), rest)
        case Err(e) => Err(e)
      else Err(Malformed);
    match first
    case Err(Malformed) =>
      if |s| > 0 && s[0] == 0x01 then
        match DecodeU32(s[1..])
        case Err(e) => Err(e)
        case Ok(min, rest) =>
          match DecodeU32(rest)
          case Err(e) => Err(e)
          case Ok(max, rest') =>
            SuffixTransitive(rest', rest, s[1..]);
            Ok(Limits(min, Some(max)), rest')
      else Err(Malformed)
    case _ => first
  }

  lemma LimitsRoundTrip(l: Limits, u: Bytes)
    ensures DecodeLimits(EncodeLimits(l) + u) == Ok(l, u)
  {
    match l.max
    case None => LimitsMinRoundTrip(l.min, u);
    case Some(max) => LimitsMinMaxRoundTrip(l.min, max, u);
  }

  lemma LimitsMinRoundTrip(min: U32, u: Bytes)
    ensures DecodeLimits(EncodeLimits(Limits(min, None)) + u) == Ok(Limits(min, None), u)
  {
    assert EncodeLimits(Limits(min, None)) == [0x00] + EncodeUnsigned(min);
    SplitFirst(0x00, EncodeUnsigned(min), u);
    U32RoundTrip(min, u);
    LimitsMinOnly([0x00] + EncodeUnsigned(min) + u, min, u);
  }

  lemma LimitsMinMaxRoundTrip(min: U32, max: U32, u: Bytes)
    ensures DecodeLimits(EncodeLimits(Limits(min, Some(max))) + u) == Ok(Limits(min, Some(max)), u)
  {
    assert EncodeLimits(Limits(min, Some(max))) == [0x01] + (EncodeUnsigned(min) + EncodeUnsigned(max));
    var t := EncodeUnsigned(max) + u;
    SplitFirst(0x01, EncodeUnsigned(min) + EncodeUnsigned(max), u);
    assert EncodeUnsigned(min) + EncodeUnsigned(max) + u == EncodeUnsigned(min) + t;
    U32RoundTrip(min, t);
    U32RoundTrip(max, u);
    LimitsMinMax([0x01] + (EncodeUnsigned(min) + EncodeUnsigned(max)) + u, min, t, max, u);
  }

  /** Flag 0x00: a minimum only. */
  lemma LimitsMinOnly(s: Bytes, min: U32, rest: Bytes)
    requires |s| > 0 && s[0] == 0x00 && DecodeU32(s[1..]) == Ok(min, rest)
    ensures DecodeLimits(s) == Ok(Limits(min, None), rest)
  {
  }

  /** Flag 0x01: a minimum then a maximum. */
  lemma LimitsMinMax(s: Bytes, min: U32, rest: Bytes, max: U32, rest': Bytes)
    requires |s| > 0 && s[0] == 0x01 && DecodeU32(s[1..]) == Ok(min, rest) && DecodeU32(rest) == Ok(max, rest')
    ensures DecodeLimits(s) == Ok(Limits(min, Some(max)), rest')
  {
  }


  /** The decoder does not compare min with max. */
  lemma LimitsUnchecked()
    ensures DecodeLimits([0x01, 0x05, 0x01]) == Ok(Limits(5, Some(1)), [])
  {
    LimitsRoundTrip(Limits(5, Some(1)), []);
  }

  /** `MemType`: exactly a `Limits` (src/module/types.rs:127-131). */
  function DecodeMemType(s: Bytes): (r: Result<MemType>)
    ensures Progresses(s, r) && r.Recoverable()
    ensures r.Ok? <==> DecodeLimits(s).Ok?
    ensures r.Ok? ==> DecodeLimits(s) == Ok(r.value.lim, r.rest)
  {
    match DecodeLimits(s)
    case Ok(lim, rest) => Ok(MemType(lim), rest)
    case Err(e) => Err(e)
  }

  /** `TableType`: the reference type, then the limits (src/module/types.rs:140-147). */
  function DecodeTableType(s: Bytes): (r: Result<TableType>)
    ensures Progresses(s, r) && r.Recoverable()
    ensures r.Ok? ==> [RefTypeByte(r.value.et)] + s[1..] == s && DecodeLimits(s[1..]) == Ok(r.value.lim, r.rest)
    ensures (|s| == 0 || !IsRefTypeTag(s[0])) ==> r == Err(Malformed)
  {
    match DecodeRefType(s)
    case Err(e) => Err(e)
    case Ok(et, rest) =>
      match DecodeLimits(rest)
      case Err(e) => Err(e)
      case Ok(lim, rest') =>
        SuffixTransitive(rest', rest, s);
        Ok(TableType(lim, et), rest')
  }

  lemma TableTypeRoundTrip(tt: TableType, u: Bytes)
    ensures DecodeTableType([RefTypeByte(tt.et)] + EncodeLimits(tt.lim) + u) == Ok(tt, u)
  {
    var s := [RefTypeByte(tt.et)] + EncodeLimits(tt.lim) + u;
    SplitFirst(RefTypeByte(tt.et), EncodeLimits(tt.lim), u);
    LimitsRoundTrip(tt.lim, u);
    RefTypeHead(s, tt.et);
    TableTypeParts(s, tt.et, EncodeLimits(tt.lim) + u, tt.lim, u);
  }

  /** A reference-type byte decodes to its type and leaves what follows it. */
  lemma RefTypeHead(s: Bytes, t: RefType)
    requires |s| > 0 && s[0] == RefTypeByte(t)
    ensures DecodeRefType(s) == Ok(t, s[1..])
  {
    match t
    case FuncRef =>
    case ExternRef =>
  }

  lemma TableTypeParts(s: Bytes, et: RefType, rest: Bytes, lim: Limits, rest': Bytes)
    requires DecodeRefType(s) == Ok(et, rest) && DecodeLimits(rest) == Ok(lim, rest')
    ensures DecodeTableType(s) == Ok(TableType(lim, et), rest')
  {
  }


  /** `Mutability` (src/module/types.rs:172-179): 0x00 is Const, 0x01 is Var. */
  function DecodeMutability(s: Bytes): (r: Result<Mutability>)
    ensures r.Recoverable()
    ensures r.Ok? <==> |s| > 0 && s[0] <= 0x01
    ensures r.Ok? ==> [MutabilityByte(r.value)] + r.rest == s
  {
    if |s| == 0 then Err(Malformed)
    else if s[0] == 0x00 then Ok(Const, s[1..])
    else if s[0] == 0x01 then Ok(Var, s[1..])
    else Err(Malformed)
  }

  /** `GlobalType`: the value type, then the mutability (src/module/types.rs:156-163). */
  function DecodeGlobalType(s: Bytes): (r: Result<GlobalType>)
    ensures Progresses(s, r) && r.Recoverable()
    ensures r.Ok? <==> |s| > 1 && IsValTypeTag(s[0]) && s[1] <= 0x01
    ensures r.Ok? ==> [ValTypeByte(r.value.t), MutabilityByte(r.value.m)] + r.rest == s
  {
    match DecodeValType(s)
    case Err(e) => Err(e)
    case Ok(t, rest) =>
      match DecodeMutability(rest)
      case Err(e) => Err(e)
      case Ok(m, rest') =>
        assert rest == s[1..];
        Ok(GlobalType(m, t), rest')
  }

  // ---------------------------------------------------------------------
  // The unit tests of both type files, as lemmas

  lemma TagExamples()
    ensures DecodeNumType([0x7F]) == Ok(I32, []) && DecodeNumType([0x7E]) == Ok(I64, [])
    ensures DecodeNumType([0x7D]) == Ok(F32, []) && DecodeNumType([0x7C]) == Ok(F64, [])
    ensures DecodeNumType([0x7B]).Err?
    ensures DecodeVecType([0x7B]) == Ok(V128, []) && DecodeVecType([0x7A]).Err?
    ensures DecodeRefType([0x70]) == Ok(FuncRef, []) && DecodeRefType([0x6F]) == Ok(ExternRef, [])
    ensures DecodeRefType([0x7A]).Err?
    ensures DecodeValType([0x7F]) == Ok(Num(I32), [])
    ensures DecodeValType([0x7B]) == Ok(Vec(V128), []) && DecodeValType([0x6F]) == Ok(Ref(ExternRef), [])
    ensures DecodeValType([0x1A]).Err?
    ensures DecodeMutability([0x00]) == Ok(Const, []) && DecodeMutability([0x01]) == Ok(Var, []) && DecodeMutability([0x7A]).Err?
  {
    ValTypeRoundTrip(Num(I32), []);
    ValTypeRoundTrip(Vec(V128), []);
    ValTypeRoundTrip(Ref(ExternRef), []);
  }

  lemma ResultTypeExample()
    ensures DecodeResultType([0x02, 0x7F, 0x7F]) == Ok([Num(I32), Num(I32)], [])
    ensures DecodeResultType([0x02, 0xDD, 0x7F]).Err?
  {
    ResultTypeBytes([Num(I32), Num(I32)], [0x02, 0x7F, 0x7F]);
    ResultTypeBadEntry(2, [], 0xDD, [0x7F]);
    assert EncodeUnsigned(2) + EncodeAll(EncodeValType, []) + [0xDD] + [0x7F] == [0x02, 0xDD, 0x7F];
  }

  lemma ResultTypeBytes(ts: ResultType, bs: Bytes)
    requires ts == [Num(I32), Num(I32)] && bs == [0x02, 0x7F, 0x7F]
    ensures DecodeResultType(bs) == Ok(ts, [])
  {
    EncodeTwo(Num(I32), Num(I32));
    assert EncodeResultType(ts) + [] == bs;
    ResultTypeRoundTrip(ts, []);
  }

  lemma FuncTypeExample()
    ensures DecodeFuncType([0x60, 0x02, 0x7F, 0x7F, 0x02, 0x7C, 0x7F])
      == Ok(FuncType([Num(I32), Num(I32)], [Num(F64), Num(I32)]), [])
  {
    var ft := FuncType([Num(I32), Num(I32)], [Num(F64), Num(I32)]);
    FuncTypeBytes(ft);
    FuncTypeRoundTrip(ft, []);
  }

  lemma FuncTypeBytes(ft: FuncType)
    requires ft == FuncType([Num(I32), Num(I32)], [Num(F64), Num(I32)])
    ensures EncodeFuncType(ft) + [] == [0x60, 0x02, 0x7F, 0x7F, 0x02, 0x7C, 0x7F]
  {
    EncodeTwo(Num(I32), Num(I32));
    EncodeTwo(Num(F64), Num(I32));
  }


  lemma EncodeTwo(a: ValType, b: ValType)
    ensures EncodeResultType([a, b]) == [0x02, ValTypeByte(a), ValTypeByte(b)]
  {
    assert [a, b][1..] == [b];
    assert EncodeAll(EncodeValType, [b]) == [ValTypeByte(b)];
  }

  lemma LimitsExamples()
    ensures DecodeLimits([0x00, 0x01]) == Ok(Limits(1, None), [])
    ensures DecodeLimits([0x01, 0x01, 0x02]) == Ok(Limits(1, Some(2)), [])
    ensures DecodeLimits([0x7A]).Err? && DecodeMemType([0x7A]).Err?
  {
    LimitsBytes(Limits(1, None), [0x00, 0x01]);
    LimitsBytes(Limits(1, Some(2)), [0x01, 0x01, 0x02]);
  }

  lemma LimitsBytes(l: Limits, bs: Bytes)
    requires bs == EncodeLimits(l) + []
    ensures DecodeLimits(bs) == Ok(l, [])
  {
    LimitsRoundTrip(l, []);
  }

  lemma TableTypeExamples()
    ensures DecodeTableType([0x70, 0x00, 0x01]) == Ok(TableType(Limits(1, None), FuncRef), [])
    ensures DecodeTableType([0x70, 0x01, 0x01, 0x02]) == Ok(TableType(Limits(1, Some(2)), FuncRef), [])
    ensures DecodeTableType([0x7A]).Err?
  {
    TableTypeBytes(TableType(Limits(1, None), FuncRef), [0x70, 0x00, 0x01]);
    TableTypeBytes(TableType(Limits(1, Some(2)), FuncRef), [0x70, 0x01, 0x01, 0x02]);
  }

  lemma TableTypeBytes(tt: TableType, bs: Bytes)
    requires bs == [RefTypeByte(tt.et)] + EncodeLimits(tt.lim) + []
    ensures DecodeTableType(bs) == Ok(tt, [])
  {
    TableTypeRoundTrip(tt, []);
  }

  lemma GlobalTypeExamples()
    ensures DecodeGlobalType([0x7F, 0x00]) == Ok(GlobalType(Const, Num(I32)), [])
    ensures DecodeGlobalType([0x7A]).Err?
  {
  }

}
