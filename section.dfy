/** Module sections (src/module/section.rs, section 5.5.2 of the WebAssembly
    2.0 core specification): a one-byte id, a u32 size, then the contents. */
module Sections {
  import opened Decoding
  import opened Values
  import Types
  import opened Records

  datatype Section =
    | CustomSection(name: Name, contents: Bytes)
    | TypeSection(types: seq<Types.FuncType>)
    | ImportSection(imports: seq<Import>)
    | FunctionSection(functions: seq<TypeIdx>)
    | TableSection(tables: seq<Table>)
    | MemorySection(memories: seq<Memory>)
    | GlobalSection(globals: seq<Global>)
    | ExportSection(exports: seq<Export>)
    | StartSection(start: Option<FuncIdx>)
    | ElementSection(elements: seq<Element>)
    | CodeSection(code: seq<Code>)
    | DataSection(segments: seq<Data>)
    | DataCountSection(dataCount: Option<U32>)
  {
    /** This section is of the kind that section id `id` introduces. Stated
        with constructor tests only, so that using it never needs a case
        split over every kind of section. */
    predicate HasId(id: int) {
      || (id == 0 && CustomSection?) || (id == 1 && TypeSection?)
      || (id == 2 && ImportSection?) || (id == 3 && FunctionSection?)
      || (id == 4 && TableSection?) || (id == 5 && MemorySection?)
      || (id == 6 && GlobalSection?) || (id == 7 && ExportSection?)
      || (id == 8 && StartSection?) || (id == 9 && ElementSection?)
      || (id == 10 && CodeSection?) || (id == 11 && DataSection?)
      || (id == 12 && DataCountSection?)
    }
  }

  /** A custom section's contents: a name, then the bytes that remain of
      `size` (src/module/section.rs:60-65). A name longer than `size` makes
      the remaining count negative; as a `usize` it wraps to a count larger
      than any input, so `take` fails. */
  function DecodeCustom(size: U32, s: Bytes): (r: Result<(Name, Bytes)>)
    ensures Progresses(s, r) && r.Recoverable()
    ensures r.Ok? <==> DecodeName(s).Ok? && |s| - |DecodeName(s).rest| <= size <= |s|
    ensures r.Ok? ==> |s| - |r.rest| == size
    ensures r.Ok? ==> DecodeName(s) == Ok(r.value.0, r.value.1 + r.rest)
  {
    match DecodeName(s)
    case Err(e) => Err(e)
    case Ok(name, rest) =>
      match Take(size - (|s| - |rest|), rest)
      case Err(e) => Err(e)
      case Ok(contents, rest') =>
        SuffixTransitive(rest', rest, s);
        Ok((name, contents), rest')
  }

  /** The empty vector section of kind `id`. */
  function EmptySection(id: Byte): (sec: Section)
    requires IsTodoSection(id)
    ensures sec.HasId(id)
  {
    if id == 2 then ImportSection([])
    else if id == 6 then GlobalSection([])
    else if id == 7 then ExportSection([])
    else if id == 9 then ElementSection([])
    else if id == 10 then CodeSection([])
    else DataSection([])
  }

  /** The start section (8) or data count section (12) holding `x`. */
  function OptionalSection(id: Byte, x: Option<U32>): (sec: Section)
    requires id == 8 || id == 12
    ensures sec.HasId(id)
  {
    if id == 8 then StartSection(x) else DataCountSection(x)
  }

  /** The sections whose records have no decoder yet (`todo!()`). */
  predicate IsTodoSection(id: Byte) {
    id == 2 || id == 6 || id == 7 || id == 9 || id == 10 || id == 11
  }
}

/** `Section::decode` (src/module/section.rs:54-132). */
module SectionDecoder {
  import opened Decoding
  import opened Values
  import Types
  import opened Records
  import opened Sections

  /** The sections whose records decode: a vector of function types, type
      indices, tables or memories (src/module/section.rs:66-69, 76-91). */
  function DecodeRecordContents(id: Byte, s: Bytes): (r: Result<Section>)
    requires id == 1 || id == 3 || id == 4 || id == 5
    ensures Progresses(s, r) && r.Recoverable()
    ensures r.Ok? ==> r.value.HasId(id)
  {
    if id == 1 then
      assert IsDecoder(Types.DecodeFuncType) && NeverPanics(Types.DecodeFuncType);
      (match DecodeVec(Types.DecodeFuncType, s)
       case Ok(v, rest) => Ok(TypeSection(v), rest)
       case Err(e) => Err(e))
    else if id == 3 then
      assert IsDecoder(DecodeU32) && NeverPanics(DecodeU32);
      (match DecodeVec(DecodeU32, s)
       case Ok(v, rest) => Ok(FunctionSection(v), rest)
       case Err(e) => Err(e))
    else if id == 4 then
      assert IsDecoder(DecodeTable) && NeverPanics(DecodeTable);
      (match DecodeVec(DecodeTable, s)
       case Ok(v, rest) => Ok(TableSection(v), rest)
       case Err(e) => Err(e))
    else
      assert IsDecoder(DecodeMemory) && NeverPanics(DecodeMemory);
      (match DecodeVec(DecodeMemory, s)
       case Ok(v, rest) => Ok(MemorySection(v), rest)
       case Err(e) => Err(e))
  }

  /** The sections whose record decoder is `todo!()` (src/module/section.rs:70-75,
      92-103, 110-123): an empty vector decodes, any other count panics. */
  function DecodeTodoContents(id: Byte, s: Bytes): (r: Result<Section>)
    requires IsTodoSection(id)
    ensures Progresses(s, r)
    ensures r.Ok? <==> DecodeU32(s).Ok? && DecodeU32(s).value == 0
    ensures r.Ok? ==> r.value == EmptySection(id) && r.rest == DecodeU32(s).rest
    ensures r.Err? ==> r.error == (if DecodeU32(s).Ok? then Abort(Todo) else Malformed)
  {
    if id == 2 then
      UnimplementedVector<Import>(s);
      (match DecodeVec(Unimplemented<Import>, s)
       case Ok(v, rest) => Ok(ImportSection(v), rest)
       case Err(e) => Err(e))
    else if id == 6 then
      UnimplementedVector<Global>(s);
      (match DecodeVec(Unimplemented<Global>, s)
       case Ok(v, rest) => Ok(GlobalSection(v), rest)
       case Err(e) => Err(e))
    else if id == 7 then
      UnimplementedVector<Export>(s);
      (match DecodeVec(Unimplemented<Export>, s)
       case Ok(v, rest) => Ok(ExportSection(v), rest)
       case Err(e) => Err(e))
    else if id == 9 then
      UnimplementedVector<Element>(s);
      (match DecodeVec(Unimplemented<Element>, s)
       case Ok(v, rest) => Ok(ElementSection(v), rest)
       case Err(e) => Err(e))
    else if id == 10 then
      UnimplementedVector<Code>(s);
      (match DecodeVec(Unimplemented<Code>, s)
       case Ok(v, rest) => Ok(CodeSection(v), rest)
       case Err(e) => Err(e))
    else
      UnimplementedVector<Data>(s);
      (match DecodeVec(Unimplemented<Data>, s)
       case Ok(v, rest) => Ok(DataSection(v), rest)
       case Err(e) => Err(e))
  }

  /** The start and data count sections: an optional u32 that is `None`, with
      nothing consumed, when no u32 can be read (src/module/section.rs:104-109,
      124-129). */
  function DecodeOptionalContents(id: Byte, s: Bytes): (r: Result<Section>)
    requires id == 8 || id == 12
    ensures r.Ok?
    ensures DecodeU32(s).Ok? ==> r == Ok(OptionalSection(id, Some(DecodeU32(s).value)), DecodeU32(s).rest)
    ensures DecodeU32(s).Err? ==> r == Ok(OptionalSection(id, None), s)
  {
    if id == 8 then
      (match DecodeOption(DecodeU32, s)
       case Ok(x, rest) => Ok(StartSection(x), rest)
       case Err(e) => Err(e))
    else
      (match DecodeOption(DecodeU32, s)
       case Ok(x, rest) => Ok(DataCountSection(x), rest)
       case Err(e) => Err(e))
  }

  /** What follows the size field, as the id selects it
      (src/module/section.rs:59-131); an id above 12 reaches `unreachable!()`. */
  function DecodeBody(id: Byte, size: U32, s: Bytes): (r: Result<Section>)
    ensures LeavesSuffix(s, r)
    ensures r.Ok? ==> r.value.HasId(id)
    ensures r.Ok? && id == 0 ==> |s| - |r.rest| == size
    ensures r == Err(Abort(Unreachable)) <==> id > 12
    ensures r == Err(Abort(Todo)) ==> IsTodoSection(id)
    ensures id == 8 || id == 12 ==> r.Ok?
  {
    if id == 0 then
      (match DecodeCustom(size, s)
       case Ok(c, rest) => Ok(CustomSection(c.0, c.1), rest)
       case Err(e) => Err(e))
    else if id == 1 || id == 3 || id == 4 || id == 5 then DecodeRecordContents(id, s)
    else if id == 8 || id == 12 then DecodeOptionalContents(id, s)
    else if id <= 12 then DecodeTodoContents(id, s)
    else Err(Abort(Unreachable))
  }

  /** The body of a section whose record decoder is `todo!()`. */
  lemma TodoBody(id: Byte, size: U32, s: Bytes)
    requires IsTodoSection(id)
    ensures DecodeBody(id, size, s) == DecodeTodoContents(id, s)
  {
  }

  /** The body of a section whose records decode. */
  lemma RecordBody(id: Byte, size: U32, s: Bytes)
    requires id == 1 || id == 3 || id == 4 || id == 5
    ensures DecodeBody(id, size, s) == DecodeRecordContents(id, s)
  {
  }

  /** A custom section fails as its contents fail. */
  lemma CustomBodyFails(size: U32, s: Bytes)
    requires DecodeCustom(size, s).Err?
    ensures DecodeBody(0, size, s) == Err(DecodeCustom(size, s).error)
  {
  }

  /** The body of a start or data count section. */
  lemma OptionalBody(id: Byte, size: U32, s: Bytes)
    requires id == 8 || id == 12
    ensures DecodeBody(id, size, s) == DecodeOptionalContents(id, s)
  {
  }

  /** `Section::decode` (src/module/section.rs:54-132): the id byte, the size,
      then the body. */
  function DecodeSection(s: Bytes): (r: Result<Section>)
    ensures Progresses(s, r)
    ensures r.Ok? ==> |s| >= 2 && DecodeU32(s[1..]).Ok?
    ensures r.Ok? ==> r.value.HasId(s[0])
    ensures r.Ok? && r.value.CustomSection? ==>
              |DecodeU32(s[1..]).rest| - |r.rest| == DecodeU32(s[1..]).value
    ensures r == Err(Abort(Unreachable)) <==> |s| >= 1 && s[0] > 12 && DecodeU32(s[1..]).Ok?
    ensures r == Err(Abort(Todo)) ==> |s| >= 1 && IsTodoSection(s[0])
    ensures |s| >= 1 && (s[0] == 8 || s[0] == 12) ==> (r.Ok? <==> DecodeU32(s[1..]).Ok?)
  {
    match DecodeU8(s)
    case Err(e) => Err(e)
    case Ok(id, rest) =>
      match DecodeU32(rest)
      case Err(e) => Err(e)
      case Ok(size, rest') =>
        var r := DecodeBody(id, size, rest');
        SuffixTransitive(rest', rest, s);
        assert r.Ok? ==> IsSuffix(r.rest, s) by {
          if r.Ok? { SuffixTransitive(r.rest, rest', s); }
        }
        r
  }
}

/** What the section decoder promises, as lemmas. */
module SectionProperties {
  import opened Decoding
  import opened Values
  import Types
  import opened Records
  import opened Sections
  import opened SectionDecoder

  /** The header is the id byte and the size, whatever follows. */
  lemma SectionHeader(id: Byte, n: U32, t: Bytes)
    ensures DecodeSection([id] + EncodeUnsigned(n) + t) == DecodeBody(id, n, t)
  {
    SplitFirst(id, EncodeUnsigned(n), t);
    U32RoundTrip(n, t);
  }

  /** The size field of a non-custom section is read and then ignored: any
      two sizes give the same section and the same rest. */
  lemma SizeIgnored(id: Byte, n: U32, m: U32, t: Bytes)
    requires 1 <= id
    ensures DecodeSection([id] + EncodeUnsigned(n) + t) == DecodeSection([id] + EncodeUnsigned(m) + t)
  {
    SectionHeader(id, n, t);
    SectionHeader(id, m, t);
  }

  /** A section of a kind with no record decoder decodes only when its
      vector is empty; a non-zero count panics with `todo!()`. */
  lemma TodoSection(id: Byte, n: U32, k: U32, t: Bytes)
    requires IsTodoSection(id)
    ensures k == 0 ==> DecodeSection([id] + EncodeUnsigned(n) + (EncodeUnsigned(k) + t)) == Ok(EmptySection(id), t)
    ensures k > 0 ==> DecodeSection([id] + EncodeUnsigned(n) + (EncodeUnsigned(k) + t)) == Err(Abort(Todo))
  {
    SectionHeader(id, n, EncodeUnsigned(k) + t);
    TodoBody(id, n, EncodeUnsigned(k) + t);
    U32RoundTrip(k, t);
  }

  /** An id above 12 panics once the size has been read. */
  lemma UnknownIdPanics(id: Byte, n: U32, t: Bytes)
    requires id > 12
    ensures DecodeSection([id] + EncodeUnsigned(n) + t) == Err(Abort(Unreachable))
  {
    SectionHeader(id, n, t);
  }

  /** A start or data count section decodes once its header does; a missing
      index gives `None` and leaves the bytes after the header in place. */
  lemma OptionalWithoutIndex(id: Byte, n: U32, t: Bytes)
    requires id == 8 || id == 12
    requires DecodeU32(t).Err?
    ensures DecodeSection([id] + EncodeUnsigned(n) + t) == Ok(OptionalSection(id, None), t)
  {
    SectionHeader(id, n, t);
    OptionalBody(id, n, t);
  }

  lemma OptionalRoundTrip(id: Byte, n: U32, x: U32, t: Bytes)
    requires id == 8 || id == 12
    ensures DecodeSection([id] + EncodeUnsigned(n) + (EncodeUnsigned(x) + t)) == Ok(OptionalSection(id, Some(x)), t)
  {
    SectionHeader(id, n, EncodeUnsigned(x) + t);
    OptionalBody(id, n, EncodeUnsigned(x) + t);
    U32RoundTrip(x, t);
  }

  /** Two splits of one sequence with equally long second parts are the same split. */
  lemma SameSplit(a: Bytes, b: Bytes, c: Bytes, d: Bytes)
    requires a + b == c + d && |b| == |d|
    ensures a == c && b == d
  {
    assert a == (a + b)[..|a|] && c == (c + d)[..|c|];
    assert b == (a + b)[|a|..] && d == (c + d)[|c|..];
  }

  /** The bytes of a custom section whose size covers exactly its name and contents. */
  function EncodeCustom(nm: Bytes, contents: Bytes): Bytes
    requires |EncodeUnsigned(|nm|)| + |nm| + |contents| < 0x1_0000_0000
  {
    [0x00] + EncodeUnsigned(|EncodeUnsigned(|nm|)| + |nm| + |contents|)
      + (EncodeUnsigned(|nm|) + nm + contents)
  }

  lemma CustomRoundTrip(nm: Bytes, contents: Bytes, t: Bytes)
    requires |EncodeUnsigned(|nm|)| + |nm| + |contents| < 0x1_0000_0000
    ensures DecodeSection(EncodeCustom(nm, contents) + t) == Ok(CustomSection(Name(nm), contents), t)
  {
    var size := |EncodeUnsigned(|nm|)| + |nm| + |contents|;
    var body := EncodeUnsigned(|nm|) + nm + (contents + t);
    assert EncodeCustom(nm, contents) + t == [0x00] + EncodeUnsigned(size) + body;
    SectionHeader(0x00, size, body);
    NameRoundTrip(nm, contents + t);
    var r := DecodeCustom(size, body);
    assert r.Ok?;
    SameSplit(r.value.1, r.rest, contents, t);
  }

  /** A custom section whose name is longer than its declared size fails. */
  lemma CustomNameTooLong()
    ensures DecodeSection([0x00, 0x00, 0x01, 0x41]) == Err(Malformed)
  {
    var body: Bytes := [0x01, 0x41];
    assert [0x00] + EncodeUnsigned(0) + body == [0x00, 0x00, 0x01, 0x41];
    SectionHeader(0x00, 0x00, body);
    NameRoundTrip([0x41], []);
    assert EncodeUnsigned(|[0x41]|) + [0x41] + [] == body;
    assert DecodeCustom(0, body) == Err(Malformed);
    CustomBodyFails(0, body);
  }

  /** A type section reads back the function types it was written with. */
  lemma TypeSectionRoundTrip(n: U32, fts: seq<Types.FuncType>, t: Bytes)
    requires |fts| < 0x1_0000_0000
    requires forall i :: 0 <= i < |fts| ==> |fts[i].rt1| < 0x1_0000_0000 && |fts[i].rt2| < 0x1_0000_0000
    ensures DecodeSection([0x01] + EncodeUnsigned(n) + (EncodeUnsigned(|fts|) + EncodeAll(Types.EncodeFuncType, fts) + t))
            == Ok(TypeSection(fts), t)
  {
    forall i, u | 0 <= i < |fts|
      ensures Types.DecodeFuncType(Types.EncodeFuncType(fts[i]) + u) == Ok(fts[i], u)
    {
      Types.FuncTypeRoundTrip(fts[i], u);
    }
    VecRoundTrip(Types.DecodeFuncType, Types.EncodeFuncType, fts, t);
    SectionHeader(0x01, n, EncodeUnsigned(|fts|) + EncodeAll(Types.EncodeFuncType, fts) + t);
    RecordBody(0x01, n, EncodeUnsigned(|fts|) + EncodeAll(Types.EncodeFuncType, fts) + t);
  }

  /** A memory section reads back the memories it was written with. */
  lemma MemorySectionRoundTrip(n: U32, ms: seq<Memory>, t: Bytes)
    requires |ms| < 0x1_0000_0000
    ensures DecodeSection([0x05] + EncodeUnsigned(n) + (EncodeUnsigned(|ms|) + EncodeAll(EncodeMemory, ms) + t))
            == Ok(MemorySection(ms), t)
  {
    forall i, u | 0 <= i < |ms|
      ensures DecodeMemory(EncodeMemory(ms[i]) + u) == Ok(ms[i], u)
    {
      MemoryRoundTrip(ms[i], u);
    }
    VecRoundTrip(DecodeMemory, EncodeMemory, ms, t);
    SectionHeader(0x05, n, EncodeUnsigned(|ms|) + EncodeAll(EncodeMemory, ms) + t);
    RecordBody(0x05, n, EncodeUnsigned(|ms|) + EncodeAll(EncodeMemory, ms) + t);
  }

  /** A function section reads back the type indices it was written with. */
  lemma FunctionSectionRoundTrip(n: U32, xs: seq<TypeIdx>, t: Bytes)
    requires |xs| < 0x1_0000_0000
    ensures DecodeSection([0x03] + EncodeUnsigned(n) + (EncodeUnsigned(|xs|) + EncodeAll(EncodeIndex, xs) + t))
            == Ok(FunctionSection(xs), t)
  {
    forall i, u | 0 <= i < |xs|
      ensures DecodeU32(EncodeIndex(xs[i]) + u) == Ok(xs[i], u)
    {
      U32RoundTrip(xs[i], u);
    }
    VecRoundTrip(DecodeU32, EncodeIndex, xs, t);
    SectionHeader(0x03, n, EncodeUnsigned(|xs|) + EncodeAll(EncodeIndex, xs) + t);
    RecordBody(0x03, n, EncodeUnsigned(|xs|) + EncodeAll(EncodeIndex, xs) + t);
  }

  /** An index as it is written in a function section: an unsigned LEB128 u32. */
  function EncodeIndex(x: TypeIdx): Bytes {
    EncodeUnsigned(x)
  }

  /** A table section reads back the tables it was written with. */
  lemma TableSectionRoundTrip(n: U32, ts: seq<Table>, t: Bytes)
    requires |ts| < 0x1_0000_0000
    ensures DecodeSection([0x04] + EncodeUnsigned(n) + (EncodeUnsigned(|ts|) + EncodeAll(EncodeTable, ts) + t))
            == Ok(TableSection(ts), t)
  {
    forall i, u | 0 <= i < |ts|
      ensures DecodeTable(EncodeTable(ts[i]) + u) == Ok(ts[i], u)
    {
      TableRoundTrip(ts[i], u);
    }
    VecRoundTrip(DecodeTable, EncodeTable, ts, t);
    SectionHeader(0x04, n, EncodeUnsigned(|ts|) + EncodeAll(EncodeTable, ts) + t);
    RecordBody(0x04, n, EncodeUnsigned(|ts|) + EncodeAll(EncodeTable, ts) + t);
  }

  /** A type section holding one function type from i32 to i32. */
  lemma TypeSectionExample()
    ensures DecodeSection([0x01, 0x06, 0x01, 0x60, 0x01, 0x7F, 0x01, 0x7F])
            == Ok(TypeSection([Types.FuncType([Types.Num(Types.I32)], [Types.Num(Types.I32)])]), [])
  {
    var ft := Types.FuncType([Types.Num(Types.I32)], [Types.Num(Types.I32)]);
    TypeSectionBytes(ft);
    TypeSectionRoundTrip(6, [ft], []);
  }

  lemma TypeSectionBytes(ft: Types.FuncType)
    requires ft == Types.FuncType([Types.Num(Types.I32)], [Types.Num(Types.I32)])
    ensures [0x01] + EncodeUnsigned(6) + (EncodeUnsigned(|[ft]|) + EncodeAll(Types.EncodeFuncType, [ft]) + [])
            == [0x01, 0x06, 0x01, 0x60, 0x01, 0x7F, 0x01, 0x7F]
  {
    assert Types.EncodeFuncType(ft) == [0x60, 0x01, 0x7F, 0x01, 0x7F] by {
      assert Types.EncodeResultType([Types.Num(Types.I32)]) == [0x01, 0x7F] by {
        assert EncodeAll(Types.EncodeValType, [Types.Num(Types.I32)]) == [0x7F];
      }
    }
    assert EncodeAll(Types.EncodeFuncType, [ft]) == [0x60, 0x01, 0x7F, 0x01, 0x7F];
  }

  /** A type section whose first function type does not start with 0x60
      fails recoverably, so a `many0` over sections stops in front of it. */
  lemma BadFuncTypeSection(n: U32, rest: Bytes)
    requires |rest| > 0 && rest[0] != 0x60
    ensures DecodeSection([0x01] + EncodeUnsigned(n) + (EncodeUnsigned(1) + rest)) == Err(Malformed)
  {
    SectionHeader(0x01, n, EncodeUnsigned(1) + rest);
    U32RoundTrip(1, rest);
    FuncTypeVectorFails(EncodeUnsigned(1) + rest, rest);
    TypeBodyFails(n, EncodeUnsigned(1) + rest);
  }

  /** A vector of one function type fails when that type lacks its 0x60 tag. */
  lemma FuncTypeVectorFails(s: Bytes, rest: Bytes)
    requires DecodeU32(s) == Ok(1, rest) && |rest| > 0 && rest[0] != 0x60
    ensures DecodeVec(Types.DecodeFuncType, s) == Err(Malformed)
  {
    VecOfCount(Types.DecodeFuncType, s, 1, rest);
    assert Types.DecodeFuncType(rest) == Err(Malformed);
  }

  /** A type section fails as its vector fails. */
  lemma TypeBodyFails(size: U32, s: Bytes)
    requires DecodeVec(Types.DecodeFuncType, s) == Err(Malformed)
    ensures DecodeBody(0x01, size, s) == Err(Malformed)
  {
    RecordBody(0x01, size, s);
  }
}
