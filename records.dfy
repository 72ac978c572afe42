/** The records that the sections of a module hold (src/module/table.rs,
    src/module/memory.rs and the records whose decoders are still `todo!()`:
    src/module/import.rs, global.rs, export.rs, element.rs, code.rs, data.rs). */
module Records {
  import opened Decoding
  import opened Values
  import Types
  import Instructions

  // ---------------------------------------------------------------------
  // Tables and memories: the two records with a working decoder

  datatype Table = Table(tt: Types.TableType)
  datatype Memory = Memory(mt: Types.MemType)

  /** `Table`: exactly a table type (src/module/table.rs:13-17). */
  function DecodeTable(s: Bytes): (r: Result<Table>)
    ensures Progresses(s, r) && r.Recoverable()
    ensures r.Ok? <==> Types.DecodeTableType(s).Ok?
    ensures r.Ok? ==> Types.DecodeTableType(s) == Ok(r.value.tt, r.rest)
  {
    match Types.DecodeTableType(s)
    case Ok(tt, rest) => Ok(Table(tt), rest)
    case Err(e) => Err(e)
  }

  function EncodeTable(t: Table): Bytes {
    [Types.RefTypeByte(t.tt.et)] + Types.EncodeLimits(t.tt.lim)
  }

  lemma TableRoundTrip(t: Table, u: Bytes)
    ensures DecodeTable(EncodeTable(t) + u) == Ok(t, u)
  {
    Types.TableTypeRoundTrip(t.tt, u);
  }

  /** `Memory`: exactly a memory type (src/module/memory.rs:13-17). */
  function DecodeMemory(s: Bytes): (r: Result<Memory>)
    ensures Progresses(s, r) && r.Recoverable()
    ensures r.Ok? <==> Types.DecodeMemType(s).Ok?
    ensures r.Ok? ==> Types.DecodeLimits(s) == Ok(r.value.mt.lim, r.rest)
  {
    match Types.DecodeMemType(s)
    case Ok(mt, rest) => Ok(Memory(mt), rest)
    case Err(e) => Err(e)
  }

  function EncodeMemory(m: Memory): Bytes {
    Types.EncodeLimits(m.mt.lim)
  }

  lemma MemoryRoundTrip(m: Memory, u: Bytes)
    ensures DecodeMemory(EncodeMemory(m) + u) == Ok(m, u)
  {
    Types.LimitsRoundTrip(m.mt.lim, u);
  }

  /** Both decoders satisfy the decoder contract and never panic, so they can
      be repeated by a vector. */
  lemma TableAndMemoryDecoders()
    ensures IsDecoder(DecodeTable) && NeverPanics(DecodeTable)
    ensures IsDecoder(DecodeMemory) && NeverPanics(DecodeMemory)
  {
  }

  /** The unit test of src/module/table.rs:27-45. */
  lemma TableExamples()
    ensures DecodeTable([0x70, 0x01, 0x00, 0x01])
            == Ok(Table(Types.TableType(Types.Limits(0, Some(1)), Types.FuncRef)), [])
    ensures DecodeTable([0x7A]).Err?
  {
    TableExample(Table(Types.TableType(Types.Limits(0, Some(1)), Types.FuncRef)), [0x70, 0x01, 0x00, 0x01]);
  }

  lemma TableExample(t: Table, bs: Bytes)
    requires t == Table(Types.TableType(Types.Limits(0, Some(1)), Types.FuncRef))
    requires bs == [0x70, 0x01, 0x00, 0x01]
    ensures DecodeTable(bs) == Ok(t, [])
  {
    assert Types.EncodeLimits(t.tt.lim) == [0x01, 0x00, 0x01];
    assert EncodeTable(t) + [] == bs;
    TableRoundTrip(t, []);
  }

  /** The unit test of src/module/memory.rs:27-41. */
  lemma MemoryExamples()
    ensures DecodeMemory([0x00, 0x00]) == Ok(Memory(Types.MemType(Types.Limits(0, None))), [])
    ensures DecodeMemory([0x7A]).Err?
  {
    var m := Memory(Types.MemType(Types.Limits(0, None)));
    assert Types.EncodeLimits(m.mt.lim) == [0x00, 0x00];
    MemoryRoundTrip(m, []);
  }

  // ---------------------------------------------------------------------
  // Records whose decoders are `todo!()`: their shape only

  /** Descriptor variants carry a prefix (`ImportFunc` for the source's
      `ImportDescriptor::Func`) so they do not clash within this module. */
  datatype ImportDescriptor =
    | ImportFunc(x: TypeIdx) | ImportTable(tt: Types.TableType)
    | ImportMem(mt: Types.MemType) | ImportGlobal(gt: Types.GlobalType)
  datatype Import = Import(moduleName: Name, name: Name, descriptor: ImportDescriptor)

  datatype Global = Global(gt: Types.GlobalType, init: Instructions.Expression)

  datatype ExportDescriptor =
    | ExportFunc(x: FuncIdx) | ExportTable(x: TableIdx)
    | ExportMem(x: MemIdx) | ExportGlobal(x: GlobalIdx)
  datatype Export = Export(nm: Name, d: ExportDescriptor)

  datatype ElementKind = FuncRef
  datatype Element =
    | ActiveIndex(offset: Instructions.Expression, funcs: seq<FuncIdx>)
    | PassiveIndex(kind: ElementKind, funcs: seq<FuncIdx>)
    | ActiveExplicitIndex(table: TableIdx, offset: Instructions.Expression, kind: ElementKind, funcs: seq<FuncIdx>)
    | DeclarativeIndex(kind: ElementKind, funcs: seq<FuncIdx>)
    | ActiveExpression(offset: Instructions.Expression, inits: seq<Instructions.Expression>)
    | PassiveExpression(et: Types.RefType, inits: seq<Instructions.Expression>)
    | ActiveExplicitExpression(table: TableIdx, offset: Instructions.Expression, et: Types.RefType, inits: seq<Instructions.Expression>)
    | DeclarativeExpression(et: Types.RefType, inits: seq<Instructions.Expression>)

  datatype Local = Local(count: U32, valueType: Types.ValType)
  datatype Func = Func(locals: seq<Local>, body: Instructions.Expression)
  datatype Code = Code(size: U32, code: Func)

  datatype Data =
    | Active(offset: Instructions.Expression, bytes: Bytes)
    | Passive(bytes: Bytes)
    | ActiveExplicit(mem: MemIdx, offset: Instructions.Expression, bytes: Bytes)

  /** The decoder of every record above: a `todo!()` panics on any input. */
  function Unimplemented<T>(s: Bytes): Result<T> {
    Err(Abort(Todo))
  }

  /** A vector of unimplemented records decodes only when it is empty: a
      count of zero never calls the element decoder, any other count panics. */
  lemma UnimplementedVector<T>(s: Bytes)
    ensures DecodeU32(s).Err? ==> DecodeVec(Unimplemented<T>, s) == Err(DecodeU32(s).error)
    ensures DecodeU32(s).Ok? && DecodeU32(s).value == 0 ==> DecodeVec(Unimplemented<T>, s) == Ok([], DecodeU32(s).rest)
    ensures DecodeU32(s).Ok? && DecodeU32(s).value > 0 ==> DecodeVec(Unimplemented<T>, s) == Err(Abort(Todo))
  {
  }

  lemma UnimplementedDecoder<T>()
    ensures IsDecoder(Unimplemented<T>)
  {
  }
}
