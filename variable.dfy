/** Variable instructions (src/instructions/variable.rs, section 5.4.4 of the
    WebAssembly 2.0 core specification). The instruction dispatch of
    src/instructions.rs does not reach this decoder. */
module Variable {
  import opened Decoding
  import opened Values

  /** Local and global indices (src/module/indices.rs is not part of this
      model: an index is a `u32`). */

  datatype VariableInstruction =
    | LocalGet(x: LocalIdx) | LocalSet(x: LocalIdx) | LocalTee(x: LocalIdx)
    | GlobalGet(x: GlobalIdx) | GlobalSet(x: GlobalIdx)

  function VariableOpcode(i: VariableInstruction): Byte {
    match i
    case LocalGet(_) => 0x20
    case LocalSet(_) => 0x21
    case LocalTee(_) => 0x22
    case GlobalGet(_) => 0x23
    case GlobalSet(_) => 0x24
  }

  /** The instruction with opcode `b` and index `x`. */
  function VariableOf(b: Byte, x: U32): (i: VariableInstruction)
    requires 0x20 <= b <= 0x24
    ensures VariableOpcode(i) == b && i.x == x
  {
    if b == 0x20 then LocalGet(x)
    else if b == 0x21 then LocalSet(x)
    else if b == 0x22 then LocalTee(x)
    else if b == 0x23 then GlobalGet(x)
    else GlobalSet(x)
  }

  function EncodeVariable(i: VariableInstruction): Bytes {
    [VariableOpcode(i)] + EncodeUnsigned(i.x)
  }

  /** `VariableInstruction::decode` (src/instructions/variable.rs:20-40): an
      opcode in 0x20..0x24, then the index as a `u32`. */
  function DecodeVariable(s: Bytes): (r: Result<VariableInstruction>)
    ensures Progresses(s, r) && r.Recoverable()
    ensures (|s| == 0 || s[0] < 0x20 || s[0] > 0x24) ==> r == Err(Malformed)
    ensures r.Ok? ==> s[0] == VariableOpcode(r.value) && DecodeU32(s[1..]) == Ok(r.value.x, r.rest)
    ensures |s| > 0 && 0x20 <= s[0] <= 0x24 ==> (r.Ok? <==> DecodeU32(s[1..]).Ok?)
  {
    if |s| == 0 || s[0] < 0x20 || s[0] > 0x24 then Err(Malformed)
    else
      match DecodeU32(s[1..])
      case Ok(x, rest) => Ok(VariableOf(s[0], x), rest)
      case Err(e) => Err(e)
  }

  lemma VariableRoundTrip(i: VariableInstruction, u: Bytes)
    ensures DecodeVariable(EncodeVariable(i) + u) == Ok(i, u)
  {
    var s := EncodeVariable(i) + u;
    assert s[1..] == EncodeUnsigned(i.x) + u;
    U32RoundTrip(i.x, u);
  }

  /** An opcode whose index is missing or cut short fails. */
  lemma TruncatedIndexFails(i: VariableInstruction, k: nat)
    requires k < |EncodeUnsigned(i.x)|
    ensures DecodeVariable([VariableOpcode(i)] + EncodeUnsigned(i.x)[..k]) == Err(Malformed)
  {
    var s := [VariableOpcode(i)] + EncodeUnsigned(i.x)[..k];
    assert s[1..] == EncodeUnsigned(i.x)[..k];
    UnsignedTruncatedFails(i.x, 32, k);
  }

  /** The unit test of src/instructions/variable.rs:48-55. */
  lemma VariableExamples()
    ensures DecodeVariable([0x20, 0x01]) == Ok(LocalGet(1), [])
    ensures DecodeVariable([0xFF]).Err?
    ensures DecodeVariable([0x24]).Err?
  {
    VariableRoundTrip(LocalGet(1), []);
    assert EncodeVariable(LocalGet(1)) == [0x20, 0x01];
  }
}
