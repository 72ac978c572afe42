/** A whole module (src/module.rs): the preamble, the sections, and the
    module that the sections fill in, one field per kind of section. */
module WasmModule {
  import opened Decoding
  import opened Values
  import Types
  import opened Records
  import opened Sections
  import opened SectionDecoder

  /** `Module` (src/module.rs:34-47): one field per kind of non-custom section. */
  datatype Module = Module(
    types: seq<Types.FuncType>,
    imports: seq<Import>,
    functions: seq<TypeIdx>,
    tables: seq<Table>,
    memories: seq<Memory>,
    globals: seq<Global>,
    exports: seq<Export>,
    start: Option<FuncIdx>,
    elements: seq<Element>,
    code: seq<Code>,
    data: seq<Data>,
    dataCount: Option<U32>)

  /** The module before any section is applied: every vector empty, no
      start function, no data count. */
  function EmptyModule(): Module {
    Module([], [], [], [], [], [], [], None, [], [], [], None)
  }

  /** The field of `m` that a section with id `id` sets, seen as that section. */
  function Field(m: Module, id: int): (sec: Section)
    requires 1 <= id <= 12
    ensures sec.HasId(id)
  {
    if id == 1 then TypeSection(m.types)
    else if id == 2 then ImportSection(m.imports)
    else if id == 3 then FunctionSection(m.functions)
    else if id == 4 then TableSection(m.tables)
    else if id == 5 then MemorySection(m.memories)
    else if id == 6 then GlobalSection(m.globals)
    else if id == 7 then ExportSection(m.exports)
    else if id == 8 then StartSection(m.start)
    else if id == 9 then ElementSection(m.elements)
    else if id == 10 then CodeSection(m.code)
    else if id == 11 then DataSection(m.data)
    else DataCountSection(m.dataCount)
  }

  /** Two modules whose twelve fields agree are the same module. */
  lemma FieldsDetermineModule(a: Module, b: Module)
    requires forall id :: 1 <= id <= 12 ==> Field(a, id) == Field(b, id)
    ensures a == b
  {
    assert Field(a, 1) == Field(b, 1) && Field(a, 2) == Field(b, 2) && Field(a, 3) == Field(b, 3);
    assert Field(a, 4) == Field(b, 4) && Field(a, 5) == Field(b, 5) && Field(a, 6) == Field(b, 6);
    assert Field(a, 7) == Field(b, 7) && Field(a, 8) == Field(b, 8) && Field(a, 9) == Field(b, 9);
    assert Field(a, 10) == Field(b, 10) && Field(a, 11) == Field(b, 11) && Field(a, 12) == Field(b, 12);
  }

  /** One step of the fold of src/module.rs:77-91: a section replaces the
      field of its kind, and a custom section is dropped. */
  function ApplySection(m: Module, sec: Section): Module {
    match sec
    case CustomSection(_, _) => m
    case TypeSection(v) => m.(types := v)
    case ImportSection(v) => m.(imports := v)
    case FunctionSection(v) => m.(functions := v)
    case TableSection(v) => m.(tables := v)
    case MemorySection(v) => m.(memories := v)
    case GlobalSection(v) => m.(globals := v)
    case ExportSection(v) => m.(exports := v)
    case StartSection(v) => m.(start := v)
    case ElementSection(v) => m.(elements := v)
    case CodeSection(v) => m.(code := v)
    case DataSection(v) => m.(data := v)
    case DataCountSection(v) => m.(dataCount := v)
  }

  /** A section sets the field of its own kind to its contents and leaves
      every other field as it was; a custom section changes nothing. */
  lemma ApplySectionFields(m: Module, sec: Section, id: int)
    requires 1 <= id <= 12
    ensures Field(ApplySection(m, sec), id) == if sec.HasId(id) then sec else Field(m, id)
  {
  }

  /** The module that the sections build, applied from first to last. */
  function Fold(secs: seq<Section>): Module
    decreases |secs|
  {
    if secs == [] then EmptyModule()
    else ApplySection(Fold(secs[..|secs| - 1]), secs[|secs| - 1])
  }

  /** A memory section replaces the memories and nothing else. */
  lemma ApplyMemorySection(m: Module, ms: seq<Memory>)
    ensures ApplySection(m, MemorySection(ms)) == m.(memories := ms)
  {
  }

  /** A module of one section is that section applied to the empty module. */
  lemma FoldSingle(sec: Section)
    ensures Fold([sec]) == ApplySection(EmptyModule(), sec)
  {
    assert [sec][..0] == [];
  }

  /** Sections of a kind that appears more than once: the last one wins. A
      kind that does not appear keeps the empty field. */
  lemma {:induction false} LastSectionWins(secs: seq<Section>, id: int)
    requires 1 <= id <= 12
    ensures (forall j :: 0 <= j < |secs| ==> !secs[j].HasId(id)) ==> Field(Fold(secs), id) == Field(EmptyModule(), id)
    ensures forall j :: 0 <= j < |secs| && secs[j].HasId(id) && (forall k :: j < k < |secs| ==> !secs[k].HasId(id))
              ==> Field(Fold(secs), id) == secs[j]
    decreases |secs|
  {
    if secs != [] {
      var init := secs[..|secs| - 1];
      LastSectionWins(init, id);
      ApplySectionFields(Fold(init), secs[|secs| - 1], id);
      forall j | 0 <= j < |secs| - 1
        ensures init[j] == secs[j]
      {
      }
    }
  }

  /** Custom sections change nothing in the module, wherever they appear. */
  lemma {:induction false} CustomSectionsIgnored(a: seq<Section>, c: Section, b: seq<Section>)
    requires c.CustomSection?
    ensures Fold(a + [c] + b) == Fold(a + b)
    decreases |b|
  {
    if b == [] {
      assert (a + [c] + b)[..|a + [c] + b| - 1] == a;
      assert a + b == a;
    } else {
      var b' := b[..|b| - 1];
      CustomSectionsIgnored(a, c, b');
      assert (a + [c] + b)[..|a + [c] + b| - 1] == a + [c] + b';
      assert (a + b)[..|a + b| - 1] == a + b';
    }
  }

  /** nom's `tag`: the input must start with `t`, which is consumed. */
  function Tag(t: Bytes, s: Bytes): (r: Result<Bytes>)
    ensures r.Recoverable()
    ensures r.Ok? <==> |t| <= |s| && s[..|t|] == t
    ensures r.Ok? ==> r.value == t && r.value + r.rest == s
  {
    if |t| <= |s| && s[..|t|] == t then
      assert s[..|t|] + s[|t|..] == s;
      Ok(t, s[|t|..])
    else Err(Malformed)
  }

  /** The magic number `\0asm` and the version 1, little-endian. */
  const Magic: Bytes := [0x00, 0x61, 0x73, 0x6D]
  const Version: Bytes := [0x01, 0x00, 0x00, 0x00]

  /** `magic_header` (src/module.rs:98-102). */
  function MagicHeader(s: Bytes): (r: Result<Bytes>)
    ensures r.Ok? <==> |s| >= 4 && s[..4] == Magic
    ensures r.Ok? ==> Magic + r.rest == s
    ensures r.Err? ==> r.error == Malformed
  {
    Tag(Magic, s)
  }

  /** `wasm_version` (src/module.rs:104-108). */
  function WasmVersion(s: Bytes): (r: Result<Bytes>)
    ensures r.Ok? <==> |s| >= 4 && s[..4] == Version
    ensures r.Ok? ==> Version + r.rest == s
    ensures r.Err? ==> r.error == Malformed
  {
    Tag(Version, s)
  }

  /** The unit tests of src/module.rs:122-136. */
  lemma PreambleExamples()
    ensures MagicHeader([0x00, 0x61, 0x73, 0x6D]) == Ok(Magic, [])
    ensures MagicHeader([0x01, 0x61, 0x73, 0x6D]).Err?
    ensures WasmVersion([0x01, 0x00, 0x00, 0x00]) == Ok(Version, [])
    ensures WasmVersion([0x02, 0x00, 0x00, 0x00]).Err?
  {
    assert [0x01, 0x61, 0x73, 0x6D][..4] != Magic by {
      assert [0x01, 0x61, 0x73, 0x6D][0] != Magic[0];
    }
    assert [0x02, 0x00, 0x00, 0x00][..4] != Version by {
      assert [0x02, 0x00, 0x00, 0x00][0] != Version[0];
    }
  }

  /** A module decoded from `s`: the preamble, the sections as far as they
      decode, and the module they build (src/module.rs:49-96). */
  function ModuleDecoding(s: Bytes): (r: Result<Module>)
    ensures LeavesSuffix(s, r)
    ensures r.Ok? ==> |s| >= 8 && s[..8] == Magic + Version
    ensures r == Err(Malformed) <==> !(|s| >= 8 && s[..8] == Magic + Version)
    ensures r.Ok? ==> DecodeSection(r.rest) == Err(Malformed)
  {
    match MagicHeader(s)
    case Err(e) => Err(e)
    case Ok(_, s1) =>
      match WasmVersion(s1)
      case Err(e) => Err(e)
      case Ok(_, s2) =>
        assert s == Magic + Version + s2;
        assert s[..8] == Magic + Version;
        var sections := Many0(DecodeSection, s2);
        assert AlwaysProgresses(DecodeSection) && IsDecoder(DecodeSection);
        match sections
        case Err(e) => Err(e)
        case Ok(secs, rest) =>
          assert IsSuffix(rest, s2);
          Ok(Fold(secs), rest)
  }

  /** `Module::decode` (src/module.rs:49-96): the preamble, the sections,
      then a loop that applies them to an empty module one by one. */
  method DecodeModule(s: Bytes) returns (r: Result<Module>)
    ensures r == ModuleDecoding(s)
  {
    var magic := MagicHeader(s);
    if magic.Err? {
      return Err(magic.error);
    }
    var version := WasmVersion(magic.rest);
    if version.Err? {
      return Err(version.error);
    }
    var sections := Many0(DecodeSection, version.rest);
    AfterPreamble(s);
    if sections.Err? {
      return Err(sections.error);
    }
    var m := BuildModule(sections.value);
    return Ok(m, sections.rest);
  }

  /** The loop of `Module::decode` (src/module.rs:60-91): each section in
      turn is applied to a module that starts empty. */
  method BuildModule(secs: seq<Section>) returns (m: Module)
    ensures m == Fold(secs)
  {
    m := EmptyModule();
    for i := 0 to |secs|
      invariant m == Fold(secs[..i])
    {
      FoldPrefix(secs, i);
      m := ApplySection(m, secs[i]);
    }
    assert secs[..|secs|] == secs;
  }

  /** Once the preamble is read, the outcome is that of the sections. */
  lemma AfterPreamble(s: Bytes)
    requires MagicHeader(s).Ok? && WasmVersion(MagicHeader(s).rest).Ok?
    ensures var sections := Many0(DecodeSection, WasmVersion(MagicHeader(s).rest).rest);
      ModuleDecoding(s) == if sections.Ok? then Ok(Fold(sections.value), sections.rest) else Err(sections.error)
  {
  }

  /** One more section on the prefix is one more step of the fold. */
  lemma FoldPrefix(secs: seq<Section>, i: nat)
    requires i < |secs|
    ensures Fold(secs[..i + 1]) == ApplySection(Fold(secs[..i]), secs[i])
  {
    assert secs[..i + 1][..i] == secs[..i];
  }
}

/** What a whole module decode promises, as lemmas. */
module ModuleProperties {
  import opened Decoding
  import opened Values
  import Types
  import opened Records
  import opened Sections
  import opened SectionDecoder
  import opened SectionProperties
  import opened WasmModule

  /** After the preamble, a module is exactly the fold of the sections that
      `many0` decodes, and it leaves what `many0` leaves. */
  lemma PreambleThenSections(s: Bytes)
    ensures ModuleDecoding(Magic + Version + s) == Map(Many0(DecodeSection, s), Fold)
  {
    var input := Magic + Version + s;
    assert input[..4] == Magic && input[4..] == Version + s;
    assert (Version + s)[..4] == Version && (Version + s)[4..] == s;
  }

  /** Input that holds no section after the preamble gives the empty module
      and is left over. */
  lemma NoSections(t: Bytes)
    requires DecodeSection(t) == Err(Malformed)
    ensures ModuleDecoding(Magic + Version + t) == Ok(EmptyModule(), t)
  {
    PreambleThenSections(t);
  }

  /** The preamble alone is the empty module; a lone byte after it is not a
      section, and is left over rather than rejected. */
  lemma EmptyModuleExamples()
    ensures ModuleDecoding(Magic + Version) == Ok(EmptyModule(), [])
    ensures ModuleDecoding(Magic + Version + [0xFF]) == Ok(EmptyModule(), [0xFF])
  {
    assert Magic + Version + [] == Magic + Version;
    NoSections([]);
    assert DecodeU32([]).Err?;
    NoSections([0xFF]);
  }

  /** Bytes after the last section are left over even when they start like
      a section: here a type section whose function type lacks its 0x60 tag. */
  lemma TrailingBytesLeftOver()
    ensures ModuleDecoding(Magic + Version + [0x01, 0x00, 0x01, 0x61])
            == Ok(EmptyModule(), [0x01, 0x00, 0x01, 0x61])
  {
    BadFuncTypeSection(0, [0x61]);
    assert EncodeUnsigned(0) == [0x00] && EncodeUnsigned(1) == [0x01];
    assert [0x01] + EncodeUnsigned(0) + (EncodeUnsigned(1) + [0x61]) == [0x01, 0x00, 0x01, 0x61];
    NoSections([0x01, 0x00, 0x01, 0x61]);
  }

  /** A wrong magic number or a wrong version is rejected. */
  lemma BadPreambleExamples()
    ensures ModuleDecoding([0x01, 0x61, 0x73, 0x6D, 0x01, 0x00, 0x00, 0x00]) == Err(Malformed)
    ensures ModuleDecoding([0x00, 0x61, 0x73, 0x6D, 0x02, 0x00, 0x00, 0x00]) == Err(Malformed)
  {
    assert [0x01, 0x61, 0x73, 0x6D, 0x01, 0x00, 0x00, 0x00][0] != (Magic + Version)[0];
    assert [0x00, 0x61, 0x73, 0x6D, 0x02, 0x00, 0x00, 0x00][4] != (Magic + Version)[4];
  }

  /** A section id above 12 makes the whole decode panic. */
  lemma UnknownSectionExample()
    ensures ModuleDecoding(Magic + Version + [0xFF, 0x00]) == Err(Abort(Unreachable))
  {
    assert EncodeUnsigned(0) == [0x00];
    assert [0xFF] + EncodeUnsigned(0) + [] == [0xFF, 0x00];
    UnknownIdPanics(0xFF, 0, []);
    PreambleThenSections([0xFF, 0x00]);
  }

  /** A module with one memory section holding one memory of at least zero pages. */
  lemma MemoryModuleExample()
    ensures ModuleDecoding(Magic + Version + [0x05, 0x03, 0x01, 0x00, 0x00])
            == Ok(EmptyModule().(memories := [Memory(Types.MemType(Types.Limits(0, None)))]), [])
  {
    var mem := Memory(Types.MemType(Types.Limits(0, None)));
    var body: Bytes := [0x05, 0x03, 0x01, 0x00, 0x00];
    MemorySectionsExample(mem);
    FoldSingle(MemorySection([mem]));
    ApplyMemorySection(EmptyModule(), [mem]);
    PreambleThenSections(body);
    assert Map(Many0(DecodeSection, body), Fold) == Ok(Fold([MemorySection([mem])]), []);
  }

  /** The body of that module is one memory section and nothing after it. */
  lemma MemorySectionsExample(mem: Memory)
    requires mem == Memory(Types.MemType(Types.Limits(0, None)))
    ensures Many0(DecodeSection, [0x05, 0x03, 0x01, 0x00, 0x00]) == Ok([MemorySection([mem])], [])
  {
    var body: Bytes := [0x05, 0x03, 0x01, 0x00, 0x00];
    MemorySectionExample(mem, body);
    assert Many0(DecodeSection, []) == Ok([], []);
    Many0Cons(DecodeSection, body, MemorySection([mem]), [], [], []);
    assert [MemorySection([mem])] + [] == [MemorySection([mem])];
  }

  lemma MemorySectionExample(mem: Memory, body: Bytes)
    requires mem == Memory(Types.MemType(Types.Limits(0, None)))
    requires body == [0x05, 0x03, 0x01, 0x00, 0x00]
    ensures DecodeSection(body) == Ok(MemorySection([mem]), [])
  {
    MemorySectionBytes(mem);
    MemorySectionRoundTrip(3, [mem], []);
  }

  lemma MemorySectionBytes(mem: Memory)
    requires mem == Memory(Types.MemType(Types.Limits(0, None)))
    ensures [0x05] + EncodeUnsigned(3) + (EncodeUnsigned(|[mem]|) + EncodeAll(EncodeMemory, [mem]) + [])
            == [0x05, 0x03, 0x01, 0x00, 0x00]
  {
    assert EncodeMemory(mem) == [0x00, 0x00];
    assert EncodeAll(EncodeMemory, [mem]) == [0x00, 0x00];
    assert EncodeUnsigned(3) == [0x03];
    assert EncodeUnsigned(1) == [0x01];
  }
}
