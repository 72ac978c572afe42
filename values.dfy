/** Primitive and container codec of src/values.rs: LEB128 integers (section
    5.2.2 of the WebAssembly Core Specification 2.0), single bytes, raw
    little-endian float bit patterns, length-prefixed vectors (section 5.1.3
    of the same specification), the optional probe and names. */
module Values {
  import opened Decoding

  type U32 = x: int | 0 <= x < 0x1_0000_0000
  type I32 = x: int | -0x8000_0000 <= x < 0x8000_0000
  type I64 = x: int | -0x8000_0000_0000_0000 <= x < 0x8000_0000_0000_0000

  /** The bit pattern of an f32 or f64: floats are kept as raw bits, never as values. */
  type F32Bits = x: int | 0 <= x < 0x1_0000_0000
  type F64Bits = x: int | 0 <= x < 0x1_0000_0000_0000_0000

  /** A name: the raw bytes of a length-prefixed byte vector, with no UTF-8 check. */
  datatype Name = Name(bytes: Bytes)

  /** Indices into the module's index spaces, each decoded as a u32. */
  type TypeIdx = U32
  type FuncIdx = U32
  type TableIdx = U32
  type MemIdx = U32
  type GlobalIdx = U32
  type LocalIdx = U32

  // ---------------------------------------------------------------------
  // Powers of two

  function Pow2(n: nat): (p: int)
    ensures p >= 1
  {
    if n == 0 then 1 else 2 * Pow2(n - 1)
  }

  lemma {:induction false} Pow2Add(a: nat, b: nat)
    ensures Pow2(a + b) == Pow2(a) * Pow2(b)
  {
    if b > 0 {
      Pow2Add(a, b - 1);
      assert Pow2(a + b) == 2 * Pow2(a + b - 1);
    }
  }

  lemma Pow2Plus7(n: nat)
    ensures Pow2(n + 7) == 128 * Pow2(n)
  {
    Pow2Add(n, 7);
    assert Pow2(7) == 128;
  }

  lemma Pow2Plus8(n: nat)
    ensures Pow2(n + 8) == 256 * Pow2(n)
  {
    Pow2Add(n, 8);
    assert Pow2(8) == 256;
  }

  lemma {:induction false} Pow2Monotone(a: nat, b: nat)
    requires a <= b
    ensures Pow2(a) <= Pow2(b)
  {
    if a < b {
      Pow2Monotone(a, b - 1);
    }
  }

  /** The widths used by the integer decoders. */
  lemma Pow2Widths()
    ensures Pow2(32) == 0x1_0000_0000 && Pow2(31) == 0x8000_0000
    ensures Pow2(64) == 0x1_0000_0000_0000_0000 && Pow2(63) == 0x8000_0000_0000_0000
  {
    Pow2Add(16, 16);
    Pow2Add(32, 32);
    Pow2Add(15, 16);
    Pow2Add(31, 32);
    assert Pow2(16) == 0x1_0000 by { Pow2Add(8, 8); assert Pow2(8) == 256; }
    assert Pow2(15) == 0x8000 by { Pow2Add(7, 8); assert Pow2(7) == 128; assert Pow2(8) == 256; }
  }

  // ---------------------------------------------------------------------
  // LEB128, after section 5.2.2 of the WebAssembly Core Specification 2.0

  /** Unsigned LEB128 for an N-bit integer (`uN`): a byte below 0x80 ends the
      number and must fit in the bits that remain; a byte with the high bit
      set contributes its low 7 bits and is followed by `u(N-7)`. */
  function DecodeUnsigned(s: Bytes, bits: nat): (r: Result<nat>)
    ensures Progresses(s, r) && r.Recoverable()
    ensures r.Ok? ==> r.value < Pow2(bits)
    ensures r.Ok? ==> |s| - |r.rest| <= 1 + bits / 7
    decreases bits
  {
    if |s| == 0 then Err(Malformed)
    else if s[0] < 0x80 then
      if s[0] < Pow2(bits) then Ok(s[0], s[1..]) else Err(Malformed)
    else if bits > 7 then
      match DecodeUnsigned(s[1..], bits - 7)
      case Ok(m, rest) =>
        Pow2Plus7(bits - 7);
        Ok(0x80 * m + (s[0] - 0x80), rest)
      case Err(e) => Err(e)
    else Err(Malformed)
  }

  /** Signed LEB128 for an N-bit integer (`sN`): a last byte in 0x40..0x7F
      stands for a negative group (sign extension from bit 6). */
  function DecodeSigned(s: Bytes, bits: nat): (r: Result<int>)
    requires bits >= 1
    ensures Progresses(s, r) && r.Recoverable()
    ensures r.Ok? ==> -Pow2(bits - 1) <= r.value < Pow2(bits - 1)
    ensures r.Ok? ==> |s| - |r.rest| <= 1 + (bits - 1) / 7
    decreases bits
  {
    if |s| == 0 then Err(Malformed)
    else if s[0] < 0x40 then
      if s[0] < Pow2(bits - 1) then Ok(s[0], s[1..]) else Err(Malformed)
    else if s[0] < 0x80 then
      if s[0] >= 0x80 - Pow2(bits - 1) then Ok(s[0] as int - 0x80, s[1..]) else Err(Malformed)
    else if bits > 7 then
      match DecodeSigned(s[1..], bits - 7)
      case Ok(m, rest) =>
        Pow2Plus7(bits - 8);
        Ok(0x80 * m + (s[0] - 0x80), rest)
      case Err(e) => Err(e)
    else Err(Malformed)
  }

  /** The shortest LEB128 encoding of a non-negative integer (section 5.2.2 of the
      WebAssembly Core Specification 2.0). */
  function EncodeUnsigned(n: nat): (e: Bytes)
    ensures |e| >= 1
    decreases n
  {
    if n < 0x80 then [n] else [0x80 + n % 0x80] + EncodeUnsigned(n / 0x80)
  }

  function Magnitude(n: int): nat {
    if n < 0 then -n else n
  }

  /** The shortest signed LEB128 encoding of an integer (section 5.2.2 of the
      WebAssembly Core Specification 2.0). */
  function EncodeSigned(n: int): (e: Bytes)
    ensures |e| >= 1
    decreases Magnitude(n)
  {
    if -0x40 <= n < 0x40 then [n % 0x80] else [0x80 + n % 0x80] + EncodeSigned(n / 0x80)
  }

  /** `u32` (src/values.rs:6-8). */
  function DecodeU32(s: Bytes): (r: Result<U32>)
    ensures Progresses(s, r) && r.Recoverable()
    ensures r.Ok? ==> |s| - |r.rest| <= 5
  {
    match DecodeUnsigned(s, 32)
    case Ok(n, rest) =>
      Pow2Widths();
      Ok(n, rest)
    case Err(e) => Err(e)
  }

  /** `i32` (src/values.rs:29-33). */
  function DecodeI32(s: Bytes): (r: Result<I32>)
    ensures Progresses(s, r) && r.Recoverable()
    ensures r.Ok? ==> |s| - |r.rest| <= 5
  {
    match DecodeSigned(s, 32)
    case Ok(n, rest) =>
      Pow2Widths();
      Ok(n, rest)
    case Err(e) => Err(e)
  }

  /** `i64` (src/values.rs:35-39). */
  function DecodeI64(s: Bytes): (r: Result<I64>)
    ensures Progresses(s, r) && r.Recoverable()
    ensures r.Ok? ==> |s| - |r.rest| <= 10
  {
    match DecodeSigned(s, 64)
    case Ok(n, rest) =>
      Pow2Widths();
      Ok(n, rest)
    case Err(e) => Err(e)
  }

  lemma {:induction false} UnsignedRoundTrip(n: nat, bits: nat, t: Bytes)
    requires n < Pow2(bits)
    ensures DecodeUnsigned(EncodeUnsigned(n) + t, bits) == Ok(n, t)
    decreases n
  {
    if n >= 0x80 {
      UnsignedGroups(n, bits);
      UnsignedRoundTrip(n / 0x80, bits - 7, t);
      SplitFirst(0x80 + n % 0x80, EncodeUnsigned(n / 0x80), t);
      UnsignedStep(EncodeUnsigned(n) + t, bits, n / 0x80, t);
    } else {
      assert (EncodeUnsigned(n) + t)[1..] == t;
    }
  }

  /** A number of 0x80 or more is a continuation group followed by the
      encoding of its quotient, which fits in seven bits fewer. */
  lemma UnsignedGroups(n: nat, bits: nat)
    requires n < Pow2(bits) && n >= 0x80
    ensures bits > 7 && n / 0x80 < Pow2(bits - 7)
    ensures EncodeUnsigned(n) == [0x80 + n % 0x80] + EncodeUnsigned(n / 0x80)
    ensures 0x80 * (n / 0x80) + ((0x80 + n % 0x80) - 0x80) == n
  {
    assert Pow2(7) == 128;
    if bits <= 7 {
      Pow2Monotone(bits, 7);
      assert false;
    }
    Pow2Plus7(bits - 7);
  }

  /** One continuation byte in front of an unsigned group adds its low 7 bits. */
  lemma UnsignedStep(s: Bytes, bits: nat, m: nat, rest: Bytes)
    requires bits > 7 && |s| > 0 && s[0] >= 0x80
    requires DecodeUnsigned(s[1..], bits - 7) == Ok(m, rest)
    ensures DecodeUnsigned(s, bits) == Ok(0x80 * m + (s[0] - 0x80), rest)
  {
  }

  /** One continuation byte in front of a signed group adds its low 7 bits. */
  lemma SignedStep(s: Bytes, bits: nat, m: int, rest: Bytes)
    requires bits > 7 && |s| > 0 && s[0] >= 0x80
    requires DecodeSigned(s[1..], bits - 7) == Ok(m, rest)
    ensures DecodeSigned(s, bits) == Ok(0x80 * m + (s[0] - 0x80), rest)
  {
  }

  lemma {:induction false} SignedRoundTrip(n: int, bits: nat, t: Bytes)
    requires bits >= 1
    requires -Pow2(bits - 1) <= n < Pow2(bits - 1)
    ensures DecodeSigned(EncodeSigned(n) + t, bits) == Ok(n, t)
    decreases bits
  {
    if -0x40 <= n < 0x40 {
      SignedLastGroup(n, bits, t);
    } else {
      SignedGroups(n, bits);
      var m := n / 0x80;
      var b: Byte := 0x80 + n % 0x80;
      SignedRoundTrip(m, bits - 7, t);
      SplitFirst(b, EncodeSigned(m), t);
      assert EncodeSigned(n) + t == [b] + EncodeSigned(m) + t;
      SignedStep(EncodeSigned(n) + t, bits, m, t);
    }
  }

  /** A number in -64..63 is one group, read back with its sign. */
  lemma SignedLastGroup(n: int, bits: nat, t: Bytes)
    requires bits >= 1
    requires -Pow2(bits - 1) <= n < Pow2(bits - 1)
    requires -0x40 <= n < 0x40
    ensures DecodeSigned(EncodeSigned(n) + t, bits) == Ok(n, t)
  {
    var s := EncodeSigned(n) + t;
    assert s[0] == n % 0x80 && s[1..] == t;
    if n < 0 {
      assert s[0] == n + 0x80;
    }
  }

  /** A number outside -64..63 is a continuation group followed by the
      encoding of its quotient, which fits in seven bits fewer. */
  lemma SignedGroups(n: int, bits: nat)
    requires bits >= 1
    requires -Pow2(bits - 1) <= n < Pow2(bits - 1)
    requires !(-0x40 <= n < 0x40)
    ensures bits > 7
    ensures -Pow2(bits - 8) <= n / 0x80 < Pow2(bits - 8)
    ensures EncodeSigned(n) == [0x80 + n % 0x80] + EncodeSigned(n / 0x80)
    ensures 0x80 * (n / 0x80) + ((0x80 + n % 0x80) - 0x80) == n
  {
    if bits <= 7 {
      assert Pow2(6) == 64;
      Pow2Monotone(bits - 1, 6);
      assert false;
    }
    Pow2Plus7(bits - 8);
    DivBounds(n, Pow2(bits - 8));
  }

  lemma DivBounds(n: int, p: int)
    requires -0x80 * p <= n < 0x80 * p
    ensures -p <= n / 0x80 < p
    ensures 0x80 * (n / 0x80) + n % 0x80 == n
  {
  }

  lemma U32RoundTrip(n: U32, t: Bytes)
    ensures DecodeU32(EncodeUnsigned(n) + t) == Ok(n, t)
  {
    Pow2Widths();
    UnsignedRoundTrip(n, 32, t);
  }

  lemma I32RoundTrip(n: I32, t: Bytes)
    ensures DecodeI32(EncodeSigned(n) + t) == Ok(n, t)
  {
    Pow2Widths();
    SignedRoundTrip(n, 32, t);
  }

  lemma I64RoundTrip(n: I64, t: Bytes)
    ensures DecodeI64(EncodeSigned(n) + t) == Ok(n, t)
  {
    Pow2Widths();
    SignedRoundTrip(n, 64, t);
  }

  /** An encoding cut short fails to decode: truncated input is rejected. */
  lemma {:induction false} UnsignedTruncatedFails(n: nat, bits: nat, k: nat)
    requires k < |EncodeUnsigned(n)|
    ensures DecodeUnsigned(EncodeUnsigned(n)[..k], bits).Err?
    decreases n
  {
    var e := EncodeUnsigned(n);
    if k > 0 && bits > 7 {
      assert n >= 0x80;
      UnsignedTruncatedFails(n / 0x80, bits - 7, k - 1);
      assert e[..k][1..] == EncodeUnsigned(n / 0x80)[..k - 1];
    }
  }

  lemma {:induction false} SignedTruncatedFails(n: int, bits: nat, k: nat)
    requires bits >= 1
    requires k < |EncodeSigned(n)|
    ensures DecodeSigned(EncodeSigned(n)[..k], bits).Err?
    decreases Magnitude(n)
  {
    var e := EncodeSigned(n);
    if k > 0 && bits > 7 {
      assert !(-0x40 <= n < 0x40);
      SignedTruncatedFails(n / 0x80, bits - 7, k - 1);
      assert e[..k][1..] == EncodeSigned(n / 0x80)[..k - 1];
    }
  }

  /** The one-byte encoding 0x7F is -1, by sign extension from its last group. */
  lemma SignedExamples()
    ensures DecodeI32([0x7F]) == Ok(-1, [])
    ensures DecodeI64([0x7F]) == Ok(-1, [])
    ensures DecodeI32([0x08]) == Ok(8, [])
    ensures DecodeI32([0x80, 0x7F]) == Ok(-128, [])
  {
    Pow2Widths();
  }

  /** A u32 whose fifth group would carry bits beyond bit 31 is rejected. */
  lemma U32Overflow()
    ensures DecodeU32([0xFF, 0xFF, 0xFF, 0xFF, 0x0F]) == Ok(0xFFFF_FFFF, [])
    ensures DecodeU32([0xFF, 0xFF, 0xFF, 0xFF, 0x1F]).Err?
    ensures DecodeU32([0x80, 0x80, 0x80, 0x80, 0x80, 0x00]).Err?
  {
    Pow2Widths();
    assert Pow2(4) == 16;
    assert Pow2(11) == 2048;
  }

  // ---------------------------------------------------------------------
  // Bytes and floats

  /** `u8`: exactly one byte (src/values.rs:12-14). */
  function DecodeU8(s: Bytes): (r: Result<Byte>)
    ensures r.Recoverable()
    ensures r.Ok? <==> |s| >= 1
    ensures r.Ok? ==> [r.value] + r.rest == s
  {
    if |s| == 0 then Err(Malformed) else Ok(s[0], s[1..])
  }

  /** The unsigned integer whose little-endian bytes are `bs`. */
  function LittleEndian(bs: Bytes): (n: nat)
    ensures n < Pow2(8 * |bs|)
  {
    if bs == [] then 0
    else
      Pow2Plus8(8 * (|bs| - 1));
      bs[0] + 0x100 * LittleEndian(bs[1..])
  }

  /** The `n` little-endian bytes of `x`. */
  function ToLittleEndian(x: nat, n: nat): (bs: Bytes)
    ensures |bs| == n
  {
    if n == 0 then [] else [x % 0x100] + ToLittleEndian(x / 0x100, n - 1)
  }

  lemma {:induction false} LittleEndianRoundTrip(bs: Bytes)
    ensures ToLittleEndian(LittleEndian(bs), |bs|) == bs
  {
    if bs != [] {
      LittleEndianRoundTrip(bs[1..]);
      assert (bs[0] + 0x100 * LittleEndian(bs[1..])) / 0x100 == LittleEndian(bs[1..]);
    }
  }

  lemma {:induction false} ToLittleEndianRoundTrip(x: nat, n: nat)
    requires x < Pow2(8 * n)
    ensures LittleEndian(ToLittleEndian(x, n)) == x
  {
    if n > 0 {
      Pow2Plus8(8 * (n - 1));
      ToLittleEndianRoundTrip(x / 0x100, n - 1);
      assert ToLittleEndian(x, n)[1..] == ToLittleEndian(x / 0x100, n - 1);
    }
  }

  /** `f32`: exactly four little-endian bytes, kept as a bit pattern (src/values.rs:17-21). */
  function DecodeF32(s: Bytes): (r: Result<F32Bits>)
    ensures r.Recoverable()
    ensures r.Ok? <==> |s| >= 4
    ensures r.Ok? ==> ToLittleEndian(r.value, 4) + r.rest == s
  {
    if |s| < 4 then Err(Malformed)
    else
      Pow2Widths();
      LittleEndianRoundTrip(s[..4]);
      assert s[..4] + s[4..] == s;
      Ok(LittleEndian(s[..4]), s[4..])
  }

  /** `f64`: exactly eight little-endian bytes, kept as a bit pattern (src/values.rs:23-27). */
  function DecodeF64(s: Bytes): (r: Result<F64Bits>)
    ensures r.Recoverable()
    ensures r.Ok? <==> |s| >= 8
    ensures r.Ok? ==> ToLittleEndian(r.value, 8) + r.rest == s
  {
    if |s| < 8 then Err(Malformed)
    else
      Pow2Widths();
      LittleEndianRoundTrip(s[..8]);
      assert s[..8] + s[8..] == s;
      Ok(LittleEndian(s[..8]), s[8..])
  }

  lemma F32RoundTrip(x: F32Bits, t: Bytes)
    ensures DecodeF32(ToLittleEndian(x, 4) + t) == Ok(x, t)
  {
    Pow2Widths();
    ToLittleEndianRoundTrip(x, 4);
    assert (ToLittleEndian(x, 4) + t)[..4] == ToLittleEndian(x, 4);
  }

  lemma F64RoundTrip(x: F64Bits, t: Bytes)
    ensures DecodeF64(ToLittleEndian(x, 8) + t) == Ok(x, t)
  {
    Pow2Widths();
    ToLittleEndianRoundTrip(x, 8);
    assert (ToLittleEndian(x, 8) + t)[..8] == ToLittleEndian(x, 8);
  }

  // ---------------------------------------------------------------------
  // Vectors, options, names

  /** nom's `count`: exactly `n` elements in order; the first failure is the result. */
  function DecodeCount<T>(decode: Bytes -> Result<T>, n: nat, s: Bytes): (r: Result<seq<T>>)
    ensures r.Ok? ==> |r.value| == n
    ensures IsDecoder(decode) ==> LeavesSuffix(s, r)
    ensures NeverPanics(decode) ==> r.Recoverable()
    decreases n
  {
    if n == 0 then Ok([], s)
    else
      match decode(s)
      case Err(e) => Err(e)
      case Ok(v, rest) =>
        match DecodeCount(decode, n - 1, rest)
        case Err(e) => Err(e)
        case Ok(vs, rest') =>
          assert IsDecoder(decode) ==> IsSuffix(rest', s) by {
            if IsDecoder(decode) {
              assert LeavesSuffix(s, decode(s));
              SuffixTransitive(rest', rest, s);
            }
          }
          Ok([v] + vs, rest')
  }

  /** `Vec<T>` (src/values.rs:41-49, section 5.1.3 of the WebAssembly Core
      Specification 2.0): a u32 count, then exactly that many elements. */
  function DecodeVec<T>(decode: Bytes -> Result<T>, s: Bytes): (r: Result<seq<T>>)
    ensures IsDecoder(decode) ==> Progresses(s, r)
    ensures NeverPanics(decode) ==> r.Recoverable()
    ensures r.Ok? ==> DecodeU32(s).Ok? && |r.value| == DecodeU32(s).value
  {
    match DecodeU32(s)
    case Err(e) => Err(e)
    case Ok(n, rest) =>
      var r := DecodeCount(decode, n, rest);
      assert IsDecoder(decode) ==> Progresses(s, r) by {
        if IsDecoder(decode) && r.Ok? {
          SuffixTransitive(r.rest, rest, s);
        }
      }
      r
  }

  /** The concatenated encodings of `vs`. */
  function EncodeAll<T>(encode: T -> Bytes, vs: seq<T>): Bytes {
    if vs == [] then [] else encode(vs[0]) + EncodeAll(encode, vs[1..])
  }

  /** `decode` reads back what `encode` wrote, whatever follows it, for every element of `vs`. */
  ghost predicate Inverts<T>(decode: Bytes -> Result<T>, encode: T -> Bytes, vs: seq<T>) {
    forall i, t {:trigger decode(encode(vs[i]) + t)} :: 0 <= i < |vs| ==> decode(encode(vs[i]) + t) == Ok(vs[i], t)
  }

  lemma {:induction false} CountRoundTrip<T>(decode: Bytes -> Result<T>, encode: T -> Bytes, vs: seq<T>, t: Bytes)
    requires Inverts(decode, encode, vs)
    ensures DecodeCount(decode, |vs|, EncodeAll(encode, vs) + t) == Ok(vs, t)
  {
    if vs != [] {
      var tail := EncodeAll(encode, vs[1..]) + t;
      assert EncodeAll(encode, vs) + t == encode(vs[0]) + tail;
      assert decode(encode(vs[0]) + tail) == Ok(vs[0], tail);
      assert Inverts(decode, encode, vs[1..]) by {
        forall i, u | 0 <= i < |vs| - 1
          ensures decode(encode(vs[1..][i]) + u) == Ok(vs[1..][i], u)
        {
          assert vs[1..][i] == vs[i + 1];
        }
      }
      CountRoundTrip(decode, encode, vs[1..], t);
      assert [vs[0]] + vs[1..] == vs;
    }
  }

  /** A vector written as its count followed by its elements reads back whole. */
  lemma VecRoundTrip<T>(decode: Bytes -> Result<T>, encode: T -> Bytes, vs: seq<T>, t: Bytes)
    requires |vs| < 0x1_0000_0000
    requires Inverts(decode, encode, vs)
    ensures DecodeVec(decode, EncodeUnsigned(|vs|) + EncodeAll(encode, vs) + t) == Ok(vs, t)
  {
    var rest := EncodeAll(encode, vs) + t;
    var s := EncodeUnsigned(|vs|) + rest;
    assert EncodeUnsigned(|vs|) + EncodeAll(encode, vs) + t == s;
    U32RoundTrip(|vs|, rest);
    VecOfCount(decode, s, |vs|, rest);
    CountRoundTrip(decode, encode, vs, t);
  }

  /** A count of zero yields the empty vector without calling the element decoder at all. */
  lemma VecEmpty<T>(decode: Bytes -> Result<T>, t: Bytes)
    ensures DecodeVec(decode, [0] + t) == Ok([], t)
  {
    assert DecodeUnsigned([0] + t, 32) == Ok(0, t) by {
      assert ([0] + t)[1..] == t;
    }
  }

  /** If the first `k` elements decode and element `k` fails, the whole count fails with that error. */
  lemma {:induction false} CountFailurePropagates<T>(decode: Bytes -> Result<T>, n: nat, k: nat, s: Bytes)
    requires k < n
    requires DecodeCount(decode, k, s).Ok?
    requires decode(DecodeCount(decode, k, s).rest).Err?
    ensures DecodeCount(decode, n, s) == Err(decode(DecodeCount(decode, k, s).rest).error)
    decreases k
  {
    if k > 0 {
      CountFailurePropagates(decode, n - 1, k - 1, decode(s).rest);
    }
  }

  /** `Option<T>` (src/values.rs:51-58): a best-effort probe. */
  function DecodeOption<T>(decode: Bytes -> Result<T>, s: Bytes): (r: Result<Option<T>>)
    ensures r.Ok? && r.value.Some? ==> decode(s) == Ok(r.value.value, r.rest)
    ensures r.Ok? && r.value.None? ==> r.rest == s && decode(s) == Err(Malformed)
    ensures r.Err? <==> !decode(s).Recoverable()
  {
    match decode(s)
    case Ok(v, rest) => Ok(Some(v), rest)
    case Err(Malformed) => Ok(None, s)
    case Err(e) => Err(e)
  }

  /** Decoding `n` single bytes is taking the first `n` bytes: it fails
      exactly when fewer than `n` remain. */
  lemma {:induction false} CountBytes(n: nat, s: Bytes)
    ensures DecodeCount(DecodeU8, n, s) == Take(n, s)
    decreases n
  {
    if n > 0 && |s| > 0 {
      CountBytes(n - 1, s[1..]);
      CountBytesStep(n, s, DecodeCount(DecodeU8, n - 1, s[1..]));
    }
  }

  lemma CountBytesStep(n: nat, s: Bytes, tail: Result<seq<Byte>>)
    requires n > 0 && |s| > 0
    requires tail == DecodeCount(DecodeU8, n - 1, s[1..]) == Take(n - 1, s[1..])
    ensures DecodeCount(DecodeU8, n, s) == Take(n, s)
  {
    assert DecodeU8(s) == Ok(s[0], s[1..]);
    if tail.Ok? {
      assert [s[0]] + s[1..][..n - 1] == s[..n];
      assert s[1..][n - 1..] == s[n..];
    }
  }

  /** `Name` (src/values.rs:60-69): a u32 length then exactly that many raw bytes. */
  function DecodeName(s: Bytes): (r: Result<Name>)
    ensures Progresses(s, r) && r.Recoverable()
    ensures r.Ok? ==> DecodeU32(s).Ok? && |r.value.bytes| == DecodeU32(s).value
    ensures r.Ok? ==> DecodeU32(s).rest == r.value.bytes + r.rest
  {
    match DecodeVec(DecodeU8, s)
    case Ok(bs, rest) =>
      CountBytes(DecodeU32(s).value, DecodeU32(s).rest);
      Ok(Name(bs), rest)
    case Err(e) => Err(e)
  }

  lemma NameRoundTrip(bs: Bytes, t: Bytes)
    requires |bs| < 0x1_0000_0000
    ensures DecodeName(EncodeUnsigned(|bs|) + bs + t) == Ok(Name(bs), t)
  {
    var s := EncodeUnsigned(|bs|) + (bs + t);
    assert EncodeUnsigned(|bs|) + bs + t == s;
    U32RoundTrip(|bs|, bs + t);
    VecOfCount(DecodeU8, s, |bs|, bs + t);
    CountBytes(|bs|, bs + t);
    TakeAll(bs, t);
    NameOfBytes(s, bs, t);
  }

  lemma TakeAll(bs: Bytes, t: Bytes)
    ensures Take(|bs|, bs + t) == Ok(bs, t)
  {
    assert (bs + t)[..|bs|] == bs && (bs + t)[|bs|..] == t;
  }

  lemma NameOfBytes(s: Bytes, bs: Bytes, t: Bytes)
    requires DecodeVec(DecodeU8, s) == Ok(bs, t)
    ensures DecodeName(s) == Ok(Name(bs), t)
  {
  }

  /** A vector is its count's worth of elements after the count. */
  lemma VecOfCount<T>(decode: Bytes -> Result<T>, s: Bytes, n: U32, rest: Bytes)
    requires DecodeU32(s) == Ok(n, rest)
    ensures DecodeVec(decode, s) == DecodeCount(decode, n, rest)
  {
  }
}
