/** The shared vocabulary of every decoder: bytes, the result of one decode
    step, and the `Decode` contract of src/lib.rs (a decoder hands back the
    unconsumed rest of its input). */
module Decoding {

  /** One byte of the binary format. */
  type Byte = b: int | 0 <= b < 0x100

  type Bytes = seq<Byte>

  datatype Option<+T> = None | Some(value: T)

  /** A Rust panic inside a decoder: `todo!()` in the record decoders that
      are not written yet, `unreachable!()` in the section dispatch. */
  datatype Panic = Todo | Unreachable

  /** `Malformed` is nom's recoverable `Err::Error`: `alt` tries the next
      alternative, `opt` answers `None`, `many0` stops. `Abort` is a panic,
      which no combinator catches. */
  datatype Error = Malformed | Abort(panic: Panic)

  /** The outcome of one decode step: the value and the bytes left over,
      or an error. */
  datatype Result<+T> = Ok(value: T, rest: Bytes) | Err(error: Error)
  {
    /** An outcome that nom's `alt`, `opt` and `many0` can recover from. */
    predicate Recoverable() {
      Ok? || error == Malformed
    }
  }

  /** nom's `alt` on two alternatives: the second is tried only when the
      first fails recoverably; a success or a panic of the first stands. */
  function Alt<T>(first: Result<T>, second: Result<T>): (r: Result<T>)
    ensures first.Ok? ==> r == first
    ensures first.Err? && first.error != Malformed ==> r == first
    ensures first == Err(Malformed) ==> r == second
  {
    if first == Err(Malformed) then second else first
  }

  /** nom's `map`: the decoded value transformed, the rest unchanged. */
  function Map<T, U>(r: Result<T>, f: T -> U): (m: Result<U>)
    ensures m.Ok? <==> r.Ok?
    ensures m.Ok? ==> m.value == f(r.value) && m.rest == r.rest
    ensures m.Err? ==> m.error == r.error
  {
    match r
    case Ok(v, rest) => Ok(f(v), rest)
    case Err(e) => Err(e)
  }

  /** nom's `take`: the first `n` bytes. A count that is negative (a `usize`
      subtraction that wrapped) or longer than the input fails. */
  function Take(n: int, s: Bytes): (r: Result<Bytes>)
    ensures r.Recoverable()
    ensures r.Ok? <==> 0 <= n <= |s|
    ensures r.Ok? ==> |r.value| == n && r.value + r.rest == s && IsSuffix(r.rest, s)
  {
    if n < 0 || |s| < n then Err(Malformed)
    else
      assert s[..n] + s[n..] == s;
      Ok(s[..n], s[n..])
  }

  /** `rest` is what remains of `s` after some bytes were taken from its front. */
  predicate IsSuffix(rest: Bytes, s: Bytes) {
    |rest| <= |s| && rest == s[|s| - |rest|..]
  }

  /** A successful decode of `s` leaves a suffix of `s`. */
  predicate LeavesSuffix<T>(s: Bytes, r: Result<T>) {
    r.Ok? ==> IsSuffix(r.rest, s)
  }

  /** A successful decode of `s` leaves a suffix of `s` and has taken at least one byte. */
  predicate Progresses<T>(s: Bytes, r: Result<T>) {
    r.Ok? ==> IsSuffix(r.rest, s) && |r.rest| < |s|
  }

  /** The contract of the `Decode` trait: on every input, a successful decode
      returns a suffix of that input. */
  ghost predicate IsDecoder<T>(decode: Bytes -> Result<T>) {
    forall s {:trigger decode(s)} :: LeavesSuffix(s, decode(s))
  }

  /** A decoder that never panics. */
  ghost predicate NeverPanics<T>(decode: Bytes -> Result<T>) {
    forall s {:trigger decode(s)} :: decode(s).Recoverable()
  }

  /** Every decode of the decoder takes at least one byte when it succeeds. */
  ghost predicate AlwaysProgresses<T>(decode: Bytes -> Result<T>) {
    forall s {:trigger decode(s)} :: Progresses(s, decode(s))
  }

  /** nom's `many0`: elements are decoded until one fails recoverably, and
      the input before that failure is left over. A panic propagates, and an
      element that takes no input stops the loop with an error. */
  function Many0<T>(decode: Bytes -> Result<T>, s: Bytes): (r: Result<seq<T>>)
    ensures IsDecoder(decode) ==> LeavesSuffix(s, r)
    ensures r.Ok? ==> decode(r.rest) == Err(Malformed)
    ensures r.Err? ==> r.error != Malformed || !AlwaysProgresses(decode)
    decreases |s|
  {
    match decode(s)
    case Err(Malformed) => Ok([], s)
    case Err(e) => Err(e)
    case Ok(v, rest) =>
      if |rest| >= |s| then Err(Malformed)
      else
        match Many0(decode, rest)
        case Err(e) => Err(e)
        case Ok(vs, rest') =>
          assert IsDecoder(decode) ==> IsSuffix(rest', s) by {
            if IsDecoder(decode) {
              assert LeavesSuffix(s, decode(s));
              SuffixTransitive(rest', rest, s);
            }
          }
          Ok([v] + vs, rest')
  }

  /** `many0` keeps every element it decoded, in order: one decode, then the
      rest of the loop. */
  lemma Many0Cons<T>(decode: Bytes -> Result<T>, s: Bytes, v: T, rest: Bytes, vs: seq<T>, u: Bytes)
    requires decode(s) == Ok(v, rest) && |rest| < |s|
    requires Many0(decode, rest) == Ok(vs, u)
    ensures Many0(decode, s) == Ok([v] + vs, u)
  {
  }

  lemma SuffixTransitive(a: Bytes, b: Bytes, c: Bytes)
    requires IsSuffix(a, b) && IsSuffix(b, c)
    ensures IsSuffix(a, c)
  {
    assert c[|c| - |b|..][|b| - |a|..] == c[|c| - |a|..];
  }

  /** A byte in front of two pieces: proved once over arbitrary pieces, so
      that no caller has to unfold an encoder to see it. */
  lemma SplitFirst(b: Byte, e: Bytes, t: Bytes)
    ensures ([b] + e + t)[0] == b && ([b] + e + t)[1..] == e + t
  {
  }
}
