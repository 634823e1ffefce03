/** Values, outcomes, random bytes and integer helpers shared by every part of the toolbox model. */
module Common {

  /** A JavaScript number as the toolbox inspects it: NaN (which is also what `undefined`
      turns into under `isNaN` and every comparison the toolbox makes) or a finite value. */
  datatype Number = NaN | Fin(value: real)

  /** A JavaScript argument that the toolbox only tests with `typeof x === 'string'`.
      Any other value is represented by its string conversion `String(x)`. */
  datatype Value = Str(s: string) | NonString(text: string)

  /** A JavaScript argument that the toolbox compares with `=== true` or `=== false`. */
  datatype Flag = Bool(b: bool) | NotBoolean

  datatype Option<+T> = None | Some(value: T)

  /** The ways a toolbox call can fail. */
  datatype Error =
    | InvalidPath        // 'Invalid path.' thrown by setDictionaryPath
    | InvalidPassword    // 'Invalid password.' thrown by createHash
    | InvalidAlgorithm   // 'Invalid algorithm' thrown by createHash and compareHash
    | RangeTooWide       // generateRandomNumber: range greater than 256^6-1
    | MaxNotSafe         // generateRandomNumber: maximum above Number.MAX_SAFE_INTEGER
    | TypeError          // a property of undefined read, or a string method called on a non-string
    | Rejected           // a promise rejected without a reason
    | OutOfRandomness    // the finite byte oracle standing for crypto.randomBytes has run dry

  datatype Result<+T> = Ok(value: T) | Err(error: Error) {
    predicate IsFailure() {
      Err?
    }

    function PropagateFailure<U>(): Result<U>
      requires Err?
    {
      Err(error)
    }

    function Extract(): T
      requires Ok?
    {
      value
    }
  }

  datatype Outcome = Pass | Fail(error: Error)

  /** A dictionary file as reading it turns out: it cannot be read, or it is read as a sequence
      of chunks (the pieces a read stream delivers; a whole-file read gets them joined). */
  datatype DictionaryFile = Unreadable | Readable(chunks: seq<string>)

  /** The chunks put back together. */
  function Concat(chunks: seq<string>): (s: string)
    ensures chunks == [] ==> s == ""
  {
    if |chunks| == 0 then "" else Concat(chunks[..|chunks| - 1]) + chunks[|chunks| - 1]
  }

  /** One byte drawn from the cryptographic source. */
  type byte = x: int | 0 <= x < 256

  /** Number.MAX_SAFE_INTEGER, 2^53 - 1. */
  const MAX_SAFE_INTEGER: int := 9007199254740991

  function Min(a: int, b: int): int {
    if a < b then a else b
  }

  function Max(a: int, b: int): int {
    if a < b then b else a
  }

  /** The toolbox's recurring `x > hi ? hi : (x < lo ? lo : x)`. */
  function Clamp(x: int, lo: int, hi: int): (r: int)
    requires lo <= hi
    ensures lo <= r <= hi
    ensures lo <= x <= hi ==> r == x
    ensures x > hi ==> r == hi
    ensures x < lo ==> r == lo
  {
    if x > hi then hi else if x < lo then lo else x
  }

  /** `rest` is what is left of `src` after some bytes were drawn from its front. */
  predicate IsSuffix(rest: seq<byte>, src: seq<byte>) {
    |rest| <= |src| && src[|src| - |rest|..] == rest
  }
}
