/** The crate's entry point (src/lib.rs): build a module from raw bytes. */
module Lib {
  import opened Decoding
  import opened WasmModule

  /** How a call ends in Rust: with a value, or with a panic that no caller
      inside the crate catches. */
  datatype Outcome<+T> = Returned(value: T) | Panicked(panic: Panic)

  /** `Module::new` (src/lib.rs:18-27): a module that decodes is returned
      whatever bytes follow it; a malformed module gives `None`; a panic in
      a section decoder is not caught. */
  method New(bytes: Bytes) returns (o: Outcome<Option<Module>>)
    ensures o.Returned? && o.value.Some? <==> ModuleDecoding(bytes).Ok?
    ensures o.Returned? && o.value.Some? ==> o.value.value == ModuleDecoding(bytes).value
    ensures o == Returned(None) <==> ModuleDecoding(bytes) == Err(Malformed)
    ensures o.Panicked? <==> ModuleDecoding(bytes).Err? && ModuleDecoding(bytes).error.Abort?
    ensures o.Panicked? ==> ModuleDecoding(bytes) == Err(Abort(o.panic))
    ensures o == Returned(None) <==> !(|bytes| >= 8 && bytes[..8] == Magic + Version)
  {
    var r := DecodeModule(bytes);
    match r
    case Ok(m, _) => o := Returned(Some(m));
    case Err(Malformed) => o := Returned(None);
    case Err(Abort(p)) => o := Panicked(p);
  }
}
