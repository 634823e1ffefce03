/** `hash.generateRandomNumber` and `hash.generateRandomToken`. The cryptographic byte source is
    a finite sequence of bytes that each draw consumes from the front; running out of it is the
    model's only error that the program itself does not have. */
module RandomSource {
  import opened Common

  /** 256^6 - 1: the widest range whose every value can be reached. */
  const MAX_RANGE: int := 281474976710655

  /** The pattern used when none (or an empty one) is given: sixty symbols, a-z and A-Z
      without `v` and `V`, then the ten digits. It is the source's single literal, written as
      six joined pieces of ten so that the verifier can read off each symbol of a piece;
      it cannot do that for the symbols deep inside a 60-character literal. */
  const DEFAULT_PATTERN: string :=
    "abcdefghij" + "klmnopqrst" + "uwxyzABCDE" + "FGHIJKLMNO" + "PQRSTUWXYZ" + "0123456789"

  /** Ten symbols none of which is `v` or `V`. */
  lemma TenWithoutV(s: string)
    requires |s| == 10
    requires s[0] != 'v' && s[1] != 'v' && s[2] != 'v' && s[3] != 'v' && s[4] != 'v'
    requires s[5] != 'v' && s[6] != 'v' && s[7] != 'v' && s[8] != 'v' && s[9] != 'v'
    requires s[0] != 'V' && s[1] != 'V' && s[2] != 'V' && s[3] != 'V' && s[4] != 'V'
    requires s[5] != 'V' && s[6] != 'V' && s[7] != 'V' && s[8] != 'V' && s[9] != 'V'
    ensures 'v' !in s && 'V' !in s
  {
  }

  /** The default pattern has sixty symbols and neither `v` nor `V` among them. */
  lemma DefaultPatternSymbols()
    ensures |DEFAULT_PATTERN| == 60
    ensures 'v' !in DEFAULT_PATTERN && 'V' !in DEFAULT_PATTERN
  {
    TenWithoutV("abcdefghij");
    TenWithoutV("klmnopqrst");
    TenWithoutV("uwxyzABCDE");
    TenWithoutV("FGHIJKLMNO");
    TenWithoutV("PQRSTUWXYZ");
    TenWithoutV("0123456789");
  }

  function Pow256(n: nat): (p: nat)
    ensures p >= 1
  {
    if n == 0 then 1 else 256 * Pow256(n - 1)
  }

  /** How many bytes a draw reads and the divisor that scales them. */
  datatype Width = Width(bytes: nat, dec: nat)

  /** The byte width chosen for `distance = max - min`. The branch for five bytes assigns to
      other variables, so distances from 2^32 on all read six bytes. */
  function WidthFor(distance: int): (w: Width)
    ensures w.dec == Pow256(w.bytes) && 1 <= w.bytes <= 6 && w.bytes != 5
    ensures distance <= MAX_RANGE ==> distance < w.dec
  {
    if distance < 256 then Width(1, 256)
    else if distance < 65536 then Width(2, 65536)
    else if distance < 16777216 then Width(3, 16777216)
    else if distance < 4294967296 then Width(4, 4294967296)
    else Width(6, 281474976710656)
  }

  /** The width is the fewest of 1, 2, 3 or 4 bytes whose values exceed the distance, and six
      bytes when four do not suffice. */
  lemma WidthIsFewestBytes(distance: int)
    ensures var w := WidthFor(distance);
      (w.bytes <= 4 ==> distance < Pow256(w.bytes))
      && (forall n :: 1 <= n < w.bytes && n <= 4 ==> distance >= Pow256(n))
      && (w.bytes == 6 <==> distance >= Pow256(4))
  {
    assert Pow256(1) == 256;
    assert Pow256(2) == 65536;
    assert Pow256(3) == 16777216;
    assert Pow256(4) == 4294967296;
  }

  /** `parseInt(bytes.toString('hex'), 16)`: the bytes read as one big-endian number. */
  function BigEndian(bs: seq<byte>): (v: nat)
    ensures v < Pow256(|bs|)
  {
    if |bs| == 0 then 0
    else
      var high := BigEndian(bs[..|bs| - 1]);
      assert high + 1 <= Pow256(|bs| - 1);
      high * 256 + bs[|bs| - 1]
  }

  /** The upper bound after `min >= max` widens the range to `[min, min + 1]`. */
  function Widened(min: int, max: int): (hi: int)
    ensures min < hi
    ensures min < max ==> hi == max
    ensures min >= max ==> hi == min + 1
  {
    if min >= max then min + 1 else max
  }

  /** `Math.floor(r / dec * (hi - min + 1) + min)` over exact numbers, then the cut to `hi`. */
  function Scale(min: int, hi: int, r: nat, dec: nat): (v: int)
    requires r < dec && min <= hi
    ensures min <= v <= hi
  {
    var span: nat := hi - min + 1;
    var product: nat := r * span;
    var x := min + product / dec;
    if x > hi then hi else x
  }

  /** In exact arithmetic the cut to `hi` never changes anything. */
  lemma ScaleUnclamped(min: int, hi: int, r: nat, dec: nat)
    requires r < dec && min <= hi
    ensures Scale(min, hi, r, dec) == min + (r * (hi - min + 1)) / dec
  {
    var span := hi - min + 1;
    ProductBelow(r, dec, span);
  }

  lemma ProductBelow(r: nat, dec: nat, span: nat)
    requires r < dec && 0 < span
    ensures (r * span) / dec < span
  {
    var q := (r * span) / dec;
    assert r * span < dec * span by {
      assert (dec - r) * span > 0;
    }
    assert dec * q <= r * span;
  }

  /** `generateRandomNumber(min, max)`, reading its bytes from the front of `src`. */
  function RandomNumber(min: int, max: int, src: seq<byte>): (res: Result<(int, seq<byte>)>)
    ensures res.Ok? ==> min <= res.value.0 <= Widened(min, max)
    ensures res.Ok? ==> IsSuffix(res.value.1, src) && |res.value.1| < |src|
  {
    var distance := max - min;
    var hi := Widened(min, max);
    if distance > MAX_RANGE then Err(RangeTooWide)
    else if hi > MAX_SAFE_INTEGER then Err(MaxNotSafe)
    else
      var w := WidthFor(distance);
      if |src| < w.bytes then Err(OutOfRandomness)
      else Ok((Scale(min, hi, BigEndian(src[..w.bytes]), w.dec), src[w.bytes..]))
  }

  /** The two exceptions and when they are thrown: the range test uses the range as given,
      the safety test uses the widened maximum. */
  lemma RandomNumberErrors(min: int, max: int, src: seq<byte>)
    ensures RandomNumber(min, max, src) == Err(RangeTooWide) <==> max - min > MAX_RANGE
    ensures RandomNumber(min, max, src) == Err(MaxNotSafe)
            <==> max - min <= MAX_RANGE && Widened(min, max) > MAX_SAFE_INTEGER
    ensures RandomNumber(min, max, src) == Err(OutOfRandomness)
            <==> max - min <= MAX_RANGE && Widened(min, max) <= MAX_SAFE_INTEGER
                 && |src| < WidthFor(max - min).bytes
  {
  }

  /** A draw that succeeds reads exactly the chosen number of bytes and scales their value. */
  lemma RandomNumberDraw(min: int, max: int, src: seq<byte>)
    requires RandomNumber(min, max, src).Ok?
    ensures var w := WidthFor(max - min); var hi := Widened(min, max);
      w.bytes <= |src|
      && RandomNumber(min, max, src).value
         == (min + (BigEndian(src[..w.bytes]) * (hi - min + 1)) / w.dec, src[w.bytes..])
  {
    var w := WidthFor(max - min);
    ScaleUnclamped(min, Widened(min, max), BigEndian(src[..w.bytes]), w.dec);
  }

  /** `generateRandomNumber(0, 1)`, the coin of the word generator: one byte, and 1 exactly
      for the upper half of the byte values. */
  lemma Coin(src: seq<byte>)
    requires |src| >= 1
    ensures RandomNumber(0, 1, src) == Ok((if src[0] >= 128 then 1 else 0, src[1..]))
  {
    assert BigEndian(src[..1]) == src[0] by {
      assert src[..1][..0] == [];
    }
  }

  /** The length `generateRandomToken` works with: nothing for NaN or a non-positive value,
      otherwise `Math.floor(length)`. */
  function TokenLength(length: Number): (n: nat)
    ensures length.NaN? || length.value <= 0.0 ==> n == 0
    ensures length.Fin? && length.value > 0.0 ==> n as real <= length.value < n as real + 1.0
  {
    if length.NaN? || length.value <= 0.0 then 0 else length.value.Floor
  }

  /** The pattern a token is drawn from: the argument when it is a non-empty string. */
  function PatternOf(pattern: Value): (p: string)
    ensures |p| > 0
    ensures pattern.Str? && pattern.s != "" ==> p == pattern.s
    ensures !(pattern.Str? && pattern.s != "") ==> p == DEFAULT_PATTERN
  {
    if pattern.Str? && pattern.s != "" then pattern.s else DEFAULT_PATTERN
  }

  /** The characters `pattern[buffer[i] % pattern.length]`, one per byte. */
  function TokenChars(pattern: string, bytes: seq<byte>): (t: string)
    requires |pattern| > 0
    ensures |t| == |bytes|
    ensures forall i :: 0 <= i < |t| ==> t[i] in pattern
  {
    seq(|bytes|, i requires 0 <= i < |bytes| => pattern[bytes[i] % |pattern|])
  }

  /** What `generateRandomToken(length, pattern)` returns, with the bytes left over. */
  function TokenOf(length: Number, pattern: Value, src: seq<byte>): (res: Result<(string, seq<byte>)>)
    ensures res.Err? <==> |src| < TokenLength(length)
    ensures res.Ok? ==> |res.value.0| == TokenLength(length) && IsSuffix(res.value.1, src)
                        && |res.value.1| == |src| - TokenLength(length)
  {
    var n := TokenLength(length);
    if n == 0 then Ok(("", src))
    else if |src| < n then Err(OutOfRandomness)
    else Ok((TokenChars(PatternOf(pattern), src[..n]), src[n..]))
  }

  /** A token has exactly `floor(length)` characters, each the pattern character its byte
      selects, and consumes exactly that many bytes; it fails only when the bytes run out. */
  lemma TokenOfShape(length: Number, pattern: Value, src: seq<byte>)
    ensures var n := TokenLength(length); var res := TokenOf(length, pattern, src);
      (res.Err? <==> |src| < n) &&
      (res.Ok? ==>
        |res.value.0| == n && res.value.1 == src[n..]
        && forall i :: 0 <= i < n ==>
             res.value.0[i] == PatternOf(pattern)[src[i] % |PatternOf(pattern)|])
  {
  }

  /** Every character of a token belongs to its pattern. */
  lemma TokenInPattern(length: Number, pattern: Value, src: seq<byte>)
    requires TokenOf(length, pattern, src).Ok?
    ensures forall c :: c in TokenOf(length, pattern, src).value.0 ==> c in PatternOf(pattern)
  {
    var t := TokenOf(length, pattern, src).value.0;
    var p := PatternOf(pattern);
    forall c | c in t ensures c in p {
      var i :| 0 <= i < |t| && t[i] == c;
      assert t[i] == p[src[i] % |p|];
    }
  }

  /** `hash.generateRandomToken`: the token is filled one character at a time into an array. */
  method GenerateRandomToken(length: Number, pattern: Value, src: seq<byte>)
    returns (res: Result<(string, seq<byte>)>)
    ensures res == TokenOf(length, pattern, src)
  {
    if length.NaN? || length.value <= 0.0 {
      return Ok(("", src));
    }
    var n := length.value.Floor;
    var p := PatternOf(pattern);
    if |src| < n {
      return Err(OutOfRandomness);
    }
    var buffer := src[..n];
    var value := new char[n];
    for i := 0 to n
      invariant forall k :: 0 <= k < i ==> value[k] == p[buffer[k] % |p|]
    {
      value[i] := p[buffer[i] % |p|];
    }
    assert value[..] == TokenChars(p, buffer);
    res := Ok((value[..], src[n..]));
  }
}
