/** `hash.createHash` and `hash.compareHash`: the salted, peppered and iterated digest of a
    password, and its verification. The library digest is the parameter `digest(algorithm, text)`,
    the test whether the library knows an algorithm the parameter `supports(algorithm)`. */
module Hashing {
  import opened Common
  import opened Strings
  import opened RandomSource

  const DEFAULT_ALGORITHM: string := "sha512"

  /** JavaScript's `undefined`: the `pattern` argument `createHash` leaves out when it asks for a
      salt or a pepper, and the `algorithm` of options that are not an object. */
  const UNDEFINED: Value := NonString("undefined")

  /** The `options` argument of `createHash` once it is an object; its fields as JavaScript
      values (numbers after coercion, `undefined` as NaN or as neither boolean). */
  datatype HashOptions =
    | NoOptions
    | Options(algorithm: Value, minLoopValue: Number, maxLoopValue: Number, randomLoop: Flag,
              saltLength: Number, useSalt: Flag, pepperLength: Number, usePepper: Flag)

  /** The object `createHash` returns. */
  datatype HashRecord = HashRecord(salt: string, pepper: string, loop: int, password: string, algorithm: string)

  /** The `hash` argument of `compareHash`; `loop` is `None` when it is not of type number. */
  datatype StoredHash =
    | NotAHash
    | Stored(password: Value, algorithm: Value, loop: Option<Number>, salt: Value, pepper: Value)

  /** A non-object `options` is replaced by `{}`, whose fields are all `undefined`. */
  function OptionsOf(options: HashOptions): (o: HashOptions)
    ensures o.Options?
  {
    if options.NoOptions? then Options(UNDEFINED, NaN, NaN, NotBoolean, NaN, NotBoolean, NaN, NotBoolean)
    else options
  }

  /** The algorithm name: the given one when it is a non-empty string, `sha512` otherwise. */
  function AlgorithmOf(algorithm: Value): (a: string)
    ensures a != ""
    ensures algorithm.Str? && algorithm.s != "" ==> a == algorithm.s
  {
    if algorithm.Str? && algorithm.s != "" then algorithm.s else DEFAULT_ALGORITHM
  }

  /** The least number of rounds: 1 for NaN or anything up to 1, otherwise its floor. */
  function MinLoop(minLoopValue: Number): (n: int)
    ensures n >= 1
  {
    if minLoopValue.NaN? || minLoopValue.value <= 1.0 then 1 else minLoopValue.value.Floor
  }

  /** The greatest number of rounds: 256 for NaN, otherwise the floor, raised to one above the
      least when it is below it. */
  function MaxLoop(min: int, maxLoopValue: Number): (n: int)
    ensures n >= min
  {
    var max := if maxLoopValue.NaN? then 256 else maxLoopValue.value.Floor;
    if min > max then min + 1 else max
  }

  /** The length of a salt or a pepper: 32 for NaN, otherwise the floor clamped to [1, 256]. */
  function TokenSize(length: Number): (n: int)
    ensures 1 <= n <= 256
    ensures length.NaN? ==> n == 32
  {
    if length.NaN? then 32 else Clamp(length.value.Floor, 1, 256)
  }

  /** `n` rounds of the digest over `text`. */
  function Iterate(digest: (string, string) -> string, algorithm: string, text: string, n: nat): (r: string)
    ensures n == 0 ==> r == text
    ensures n > 0 ==> exists t :: r == digest(algorithm, t)
  {
    if n == 0 then text else digest(algorithm, Iterate(digest, algorithm, text, n - 1))
  }

  /** The rounds loop: the first round throws for an unknown algorithm. */
  function HashLoop(supports: string -> bool, digest: (string, string) -> string, algorithm: string,
                    text: string, n: nat): (r: Result<string>)
    ensures r.Err? <==> n > 0 && !supports(algorithm)
    ensures r.Err? ==> r.error == InvalidAlgorithm
  {
    if n > 0 && !supports(algorithm) then Err(InvalidAlgorithm) else Ok(Iterate(digest, algorithm, text, n))
  }

  /** A salt or a pepper: nothing when its flag is `false`, otherwise a token of the default
      pattern. */
  function Seasoning(use: Flag, length: Number, src: seq<byte>): (res: Result<(string, seq<byte>)>)
    ensures use == Bool(false) ==> res == Ok(("", src))
    ensures use != Bool(false) ==> (res.Err? <==> |src| < TokenSize(length))
    ensures use != Bool(false) && res.Ok? ==> |res.value.0| == TokenSize(length)
  {
    if use == Bool(false) then Ok(("", src)) else TokenOf(Fin(TokenSize(length) as real), UNDEFINED, src)
  }

  /** The number of rounds: 1 when `randomLoop` is `false`, otherwise a draw from [min, max]. */
  function LoopDraw(randomLoop: Flag, min: int, max: int, src: seq<byte>): (res: Result<(int, seq<byte>)>)
    requires 1 <= min
    ensures res.Ok? ==> 1 <= res.value.0
    ensures res.Ok? && randomLoop != Bool(false) ==> min <= res.value.0 <= Widened(min, max)
  {
    if randomLoop == Bool(false) then Ok((1, src)) else RandomNumber(min, max, src)
  }

  /** `createHash(password, options)`, drawing the rounds, then the salt, then the pepper. */
  function CreateHashOf(password: Value, options: HashOptions, supports: string -> bool,
                        digest: (string, string) -> string, src: seq<byte>): (res: Result<(HashRecord, seq<byte>)>)
    ensures !(password.Str? && password.s != "") ==> res == Err(InvalidPassword)
    ensures res.Ok? ==> 1 <= res.value.0.loop && supports(res.value.0.algorithm)
                        && res.value.0.algorithm == AlgorithmOf(OptionsOf(options).algorithm)
  {
    if !(password.Str? && password.s != "") then Err(InvalidPassword)
    else
      var o := OptionsOf(options);
      var algorithm := AlgorithmOf(o.algorithm);
      var min := MinLoop(o.minLoopValue);
      var max := MaxLoop(min, o.maxLoopValue);
      match LoopDraw(o.randomLoop, min, max, src)
      case Err(e) => Err(e)
      case Ok((loop, rest1)) =>
        match Seasoning(o.useSalt, o.saltLength, rest1)
        case Err(e) => Err(e)
        case Ok((salt, rest2)) =>
          match Seasoning(o.usePepper, o.pepperLength, rest2)
          case Err(e) => Err(e)
          case Ok((pepper, rest3)) =>
            match HashLoop(supports, digest, algorithm, salt + password.s + pepper, loop)
            case Err(e) => Err(e)
            case Ok(hashed) => Ok((HashRecord(salt, pepper, loop, hashed, algorithm), rest3))
  }

  /** The number of rounds `compareHash` runs: 1 for a non-number or anything up to 1, the floor
      otherwise, and none at all for NaN, which fails `i < loop` at once. */
  function LoopCount(loop: Option<Number>): (n: nat)
    ensures loop.None? || (loop.value.Fin? && loop.value.value <= 1.0) ==> n == 1
    ensures loop == Some(NaN) ==> n == 0
  {
    match loop
    case None => 1
    case Some(NaN) => 0
    case Some(Fin(v)) => if v <= 1.0 then 1 else v.Floor
  }

  /** `compareHash(password, hash)`: false for an invalid password or stored digest; otherwise
      the recomputed digest against the stored one, where a byte-length difference makes
      `timingSafeEqual` throw and every exception becomes `'Invalid algorithm'`. */
  function CompareHashOf(password: Value, hash: StoredHash, supports: string -> bool,
                         digest: (string, string) -> string): (r: Result<bool>)
    ensures r.Err? ==> r.error == InvalidAlgorithm
    ensures r == Ok(true) ==> password.Str? && password.s != "" && hash.Stored?
  {
    if !(password.Str? && password.s != "") then Ok(false)
    else if hash.NotAHash? || !(hash.password.Str? && hash.password.s != "") then Ok(false)
    else
      var algorithm := AlgorithmOf(hash.algorithm);
      var salt := if hash.salt.Str? then hash.salt.s else "";
      var pepper := if hash.pepper.Str? then hash.pepper.s else "";
      match HashLoop(supports, digest, algorithm, salt + password.s + pepper, LoopCount(hash.loop))
      case Err(_) => Err(InvalidAlgorithm)
      case Ok(hashed) =>
        if Utf8Length(hashed) != Utf8Length(hash.password.s) then Err(InvalidAlgorithm)
        else Ok(hashed == hash.password.s)
  }

  /** The record as `compareHash` receives it back. */
  function StoredOf(r: HashRecord): StoredHash {
    Stored(Str(r.password), Str(r.algorithm), Some(Fin(r.loop as real)), Str(r.salt), Str(r.pepper))
  }

  /** What `createHash` returns: an invalid password throws; otherwise there is at least one
      round, exactly one when `randomLoop` is `false` and otherwise a number between the
      normalised bounds; the salt and the pepper are empty when switched off and otherwise have
      the normalised length and characters of the default pattern; and the digest is `loop`
      rounds over salt, password and pepper. */
  lemma CreatedRecord(password: Value, options: HashOptions, supports: string -> bool,
                      digest: (string, string) -> string, src: seq<byte>)
    ensures !(password.Str? && password.s != "")
            ==> CreateHashOf(password, options, supports, digest, src) == Err(InvalidPassword)
    ensures var res := CreateHashOf(password, options, supports, digest, src);
      var o := OptionsOf(options); var min := MinLoop(o.minLoopValue); var max := MaxLoop(min, o.maxLoopValue);
      res.Ok? ==>
        var r := res.value.0;
        supports(r.algorithm) && r.algorithm == AlgorithmOf(o.algorithm)
        && 1 <= r.loop
        && (o.randomLoop != Bool(false) ==> min <= r.loop <= Widened(min, max))
        && (o.randomLoop == Bool(false) ==> r.loop == 1)
        && (o.useSalt == Bool(false) ==> r.salt == "")
        && (o.useSalt != Bool(false) ==> |r.salt| == TokenSize(o.saltLength))
        && (o.usePepper == Bool(false) ==> r.pepper == "")
        && (o.usePepper != Bool(false) ==> |r.pepper| == TokenSize(o.pepperLength))
        && (forall c :: c in r.salt + r.pepper ==> c in DEFAULT_PATTERN)
        && r.password == Iterate(digest, r.algorithm, r.salt + password.s + r.pepper, r.loop)
  {
    var res := CreateHashOf(password, options, supports, digest, src);
    if res.Ok? {
      var o := OptionsOf(options);
      var min := MinLoop(o.minLoopValue);
      var max := MaxLoop(min, o.maxLoopValue);
      var (loop, rest1) := LoopDraw(o.randomLoop, min, max, src).value;
      var (salt, rest2) := Seasoning(o.useSalt, o.saltLength, rest1).value;
      SeasoningShape(o.useSalt, o.saltLength, rest1);
      SeasoningShape(o.usePepper, o.pepperLength, rest2);
    }
  }

  lemma SeasoningShape(use: Flag, length: Number, src: seq<byte>)
    ensures var r := Seasoning(use, length, src);
      r.Ok? ==>
        (use == Bool(false) ==> r.value.0 == "")
        && (use != Bool(false) ==> |r.value.0| == TokenSize(length))
        && forall c :: c in r.value.0 ==> c in DEFAULT_PATTERN
  {
    if use != Bool(false) && Seasoning(use, length, src).Ok? {
      TokenOfShape(Fin(TokenSize(length) as real), UNDEFINED, src);
      TokenInPattern(Fin(TokenSize(length) as real), UNDEFINED, src);
    }
  }

  /** `compareHash` answers false without hashing for an invalid password or stored digest, and
      throws when the digest it computes has another byte length than the stored one. */
  lemma CompareOutcomes(password: Value, hash: StoredHash, supports: string -> bool,
                        digest: (string, string) -> string)
    ensures !(password.Str? && password.s != "") ==> CompareHashOf(password, hash, supports, digest) == Ok(false)
    ensures hash.NotAHash? || !(hash.password.Str? && hash.password.s != "")
            ==> CompareHashOf(password, hash, supports, digest) == Ok(false)
    ensures var r := CompareHashOf(password, hash, supports, digest);
      r.Err? ==> r.error == InvalidAlgorithm
    ensures var r := CompareHashOf(password, hash, supports, digest);
      r == Ok(true) ==>
        password.Str? && hash.Stored? && hash.password.Str?
        && hash.password.s == Iterate(digest, AlgorithmOf(hash.algorithm),
                                      (if hash.salt.Str? then hash.salt.s else "") + password.s
                                      + (if hash.pepper.Str? then hash.pepper.s else ""),
                                      LoopCount(hash.loop))
  {
  }

  /** A stored `loop` of NaN runs no round at all: the stored "digest" is then compared with salt,
      password and pepper themselves, whatever the algorithm. */
  lemma NaNLoopComparesPlainText(password: string, stored: string, salt: string, pepper: string,
                                 supports: string -> bool, digest: (string, string) -> string)
    requires password != "" && stored == salt + password + pepper
    ensures CompareHashOf(Str(password), Stored(Str(stored), NonString("undefined"), Some(NaN), Str(salt), Str(pepper)),
                          supports, digest) == Ok(true)
  {
  }

  /** `compareHash(p, createHash(p, o))` holds for every password and options the creation
      accepts, given that a digest is never the empty string. */
  lemma CompareCreated(password: Value, options: HashOptions, supports: string -> bool,
                       digest: (string, string) -> string, src: seq<byte>)
    requires CreateHashOf(password, options, supports, digest, src).Ok?
    requires forall a: string, t: string :: digest(a, t) != ""
    ensures CompareHashOf(password, StoredOf(CreateHashOf(password, options, supports, digest, src).value.0),
                          supports, digest) == Ok(true)
  {
    CreatedRecord(password, options, supports, digest, src);
    var r := CreateHashOf(password, options, supports, digest, src).value.0;
    assert r.loop >= 1;
    assert r.password == digest(r.algorithm, Iterate(digest, r.algorithm, r.salt + password.s + r.pepper, r.loop - 1));
    assert LoopCount(Some(Fin(r.loop as real))) == r.loop;
  }

  lemma {:induction false} IterateInjective(digest: (string, string) -> string, algorithm: string,
                                            x: string, y: string, n: nat)
    requires forall a: string, s: string, t: string :: digest(a, s) == digest(a, t) ==> s == t
    requires Iterate(digest, algorithm, x, n) == Iterate(digest, algorithm, y, n)
    ensures x == y
  {
    if n > 0 {
      IterateInjective(digest, algorithm, x, y, n - 1);
    }
  }

  lemma FramedInjective(salt: string, p: string, q: string, pepper: string)
    requires salt + p + pepper == salt + q + pepper
    ensures p == q
  {
    var a := salt + p + pepper;
    assert |p| == |q|;
    assert a[|salt|..|salt| + |p|] == p;
    assert (salt + q + pepper)[|salt|..|salt| + |q|] == q;
  }

  /** Under a digest that never maps two texts to the same value, a record created for one
      password never verifies another. */
  lemma WrongPasswordFails(password: Value, other: Value, options: HashOptions, supports: string -> bool,
                           digest: (string, string) -> string, src: seq<byte>)
    requires CreateHashOf(password, options, supports, digest, src).Ok?
    requires forall a: string, s: string, t: string :: digest(a, s) == digest(a, t) ==> s == t
    requires other != password
    ensures CompareHashOf(other, StoredOf(CreateHashOf(password, options, supports, digest, src).value.0),
                          supports, digest) != Ok(true)
  {
    CreatedRecord(password, options, supports, digest, src);
    var r := CreateHashOf(password, options, supports, digest, src).value.0;
    if CompareHashOf(other, StoredOf(r), supports, digest) == Ok(true) {
      CompareOutcomes(other, StoredOf(r), supports, digest);
      assert LoopCount(Some(Fin(r.loop as real))) == r.loop;
      IterateInjective(digest, r.algorithm, r.salt + other.s + r.pepper, r.salt + password.s + r.pepper, r.loop);
      FramedInjective(r.salt, other.s, password.s, r.pepper);
      assert false;
    }
  }

  /** The rounds loop of `createHash` and `compareHash`. */
  method HashRounds(supports: string -> bool, digest: (string, string) -> string, algorithm: string,
                    text: string, n: nat) returns (r: Result<string>)
    ensures r == HashLoop(supports, digest, algorithm, text, n)
  {
    var password := text;
    for i := 0 to n
      invariant password == Iterate(digest, algorithm, text, i)
      invariant i > 0 ==> supports(algorithm)
    {
      if !supports(algorithm) {
        return Err(InvalidAlgorithm);
      }
      password := digest(algorithm, password);
    }
    r := Ok(password);
  }

  /** `hash.createHash(password, options)`. */
  method CreateHash(password: Value, options: HashOptions, supports: string -> bool,
                    digest: (string, string) -> string, src: seq<byte>)
    returns (res: Result<(HashRecord, seq<byte>)>)
    ensures res == CreateHashOf(password, options, supports, digest, src)
  {
    if !(password.Str? && password.s != "") {
      return Err(InvalidPassword);
    }
    var o := OptionsOf(options);
    var algorithm := AlgorithmOf(o.algorithm);
    var min := MinLoop(o.minLoopValue);
    var max := MaxLoop(min, o.maxLoopValue);
    var loopDraw := LoopDraw(o.randomLoop, min, max, src);
    if loopDraw.Err? {
      return Err(loopDraw.error);
    }
    var loop := loopDraw.value.0;
    var salt, pepper := "", "";
    var rest := loopDraw.value.1;
    if o.useSalt != Bool(false) {
      var token := GenerateRandomToken(Fin(TokenSize(o.saltLength) as real), UNDEFINED, rest);
      if token.Err? {
        return Err(token.error);
      }
      salt, rest := token.value.0, token.value.1;
    }
    if o.usePepper != Bool(false) {
      var token := GenerateRandomToken(Fin(TokenSize(o.pepperLength) as real), UNDEFINED, rest);
      if token.Err? {
        return Err(token.error);
      }
      pepper, rest := token.value.0, token.value.1;
    }
    var hashed := HashRounds(supports, digest, algorithm, salt + password.s + pepper, loop);
    if hashed.Err? {
      return Err(hashed.error);
    }
    res := Ok((HashRecord(salt, pepper, loop, hashed.value, algorithm), rest));
  }

  /** `hash.compareHash(password, hash)`. */
  method CompareHash(password: Value, hash: StoredHash, supports: string -> bool,
                     digest: (string, string) -> string) returns (res: Result<bool>)
    ensures res == CompareHashOf(password, hash, supports, digest)
  {
    if !(password.Str? && password.s != "") {
      return Ok(false);
    }
    if hash.NotAHash? || !(hash.password.Str? && hash.password.s != "") {
      return Ok(false);
    }
    var algorithm := AlgorithmOf(hash.algorithm);
    var loop := LoopCount(hash.loop);
    var salt := if hash.salt.Str? then hash.salt.s else "";
    var pepper := if hash.pepper.Str? then hash.pepper.s else "";
    var hashed := HashRounds(supports, digest, algorithm, salt + password.s + pepper, loop);
    if hashed.Err? {
      return Err(InvalidAlgorithm);
    }
    if Utf8Length(hashed.value) != Utf8Length(hash.password.s) {
      return Err(InvalidAlgorithm);
    }
    res := Ok(hashed.value == hash.password.s);
  }
}
