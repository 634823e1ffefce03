/** The `generator` object: `generate`, which delegates to the token generator, and
    `generateHumanReadable`, which draws a dictionary word of the wanted length and joins it
    with an optional string of digits. */
module PasswordGenerator {
  import opened Common
  import opened Strings
  import opened RandomSource
  import opened WordSampler
  import opened DictionaryStore

  /** The pattern of the numeric part. */
  const DIGITS: string := "0123456789"

  /** The portion size used when `chunkSize` is missing, NaN or at most 1. */
  const DEFAULT_CHUNK_SIZE: int := 4096

  /** `generate(length, pattern)`: the empty password for NaN or a non-positive length, a token
      otherwise. */
  function Generate(length: Number, pattern: Value, src: seq<byte>): (res: Result<(string, seq<byte>)>)
    ensures length.NaN? || length.value <= 0.0 ==> res == Ok(("", src))
    ensures res.Ok? ==> |res.value.0| == TokenLength(length) && IsSuffix(res.value.1, src)
  {
    if length.NaN? || length.value <= 0.0 then Ok(("", src)) else TokenOf(length, pattern, src)
  }

  /** The guard of `generate` is the token generator's own: `generate` is `generateRandomToken`
      for every input, with every property proved of it. */
  lemma GenerateIsToken(length: Number, pattern: Value, src: seq<byte>)
    ensures Generate(length, pattern, src) == TokenOf(length, pattern, src)
    ensures var res := Generate(length, pattern, src);
      res.Ok? ==> |res.value.0| == TokenLength(length)
                  && forall c :: c in res.value.0 ==> c in PatternOf(pattern)
  {
    TokenOfShape(length, pattern, src);
    if TokenOf(length, pattern, src).Ok? {
      TokenInPattern(length, pattern, src);
    }
  }

  /** The portion size: the default below 2, otherwise `chunkSize` cut to `MAX_SAFE_INTEGER`. */
  function ChunkSizeOf(chunkSize: Option<int>): (c: int)
    ensures 2 <= c <= MAX_SAFE_INTEGER
    ensures chunkSize == None || chunkSize.value <= 1 ==> c == DEFAULT_CHUNK_SIZE
    ensures chunkSize.Some? && chunkSize.value > 1 ==> c == Min(chunkSize.value, MAX_SAFE_INTEGER)
  {
    if chunkSize == None || chunkSize.value <= 1 then DEFAULT_CHUNK_SIZE
    else if chunkSize.value > MAX_SAFE_INTEGER then MAX_SAFE_INTEGER
    else chunkSize.value
  }

  /** The password length after `numLength` may have raised it: the larger of the two, with a
      `numLength` of 0 leaving the length alone. */
  function TotalLength(length: real, numLength: nat): (t: real)
    ensures length <= t
    ensures numLength != 0 ==> numLength as real <= t
    ensures t == length || (numLength != 0 && t == numLength as real)
  {
    if numLength != 0 && numLength as real > length then numLength as real else length
  }

  /** The numeric part: `numLength` digits, none for a `numLength` of 0. */
  function DigitsPart(nl: nat, src: seq<byte>): (res: Result<(string, seq<byte>)>)
    ensures res.Err? <==> |src| < nl
    ensures res.Ok? ==> |res.value.0| == nl && IsSuffix(res.value.1, src) && |res.value.1| == |src| - nl
  {
    if nl != 0 then TokenOf(Fin(nl as real), Str(DIGITS), src) else Ok(("", src))
  }

  /** The length of the word once the digits are taken off: word and digits together make up the
      length, and when the digits alone cover it the word is empty. */
  function WordLength(length: real, nl: nat): (w: real)
    ensures nl == 0 ==> w == length
    ensures nl != 0 && nl as real <= length ==> w + nl as real == length
    ensures nl != 0 && length < nl as real ==> w == 0.0
  {
    var total := TotalLength(length, nl);
    if nl != 0 then total - nl as real else total
  }

  /** A word drawn from the text `d` (cut to `MAX_SAFE_INTEGER` characters), then the coin that
      puts the digits after it (1) or before it (0). */
  function FromText(d: string, length: real, number: string, chunk: int, src: seq<byte>)
    : (res: Result<(string, seq<byte>)>)
    ensures res.Ok? ==> |res.value.1| < |src|
  {
    match SampleWord(Substr(d, 0, MAX_SAFE_INTEGER), chunk, length, src)
    case Err(e) => Err(e)
    case Ok((w, rest)) =>
      match RandomNumber(0, 1, rest)
      case Err(e) => Err(e)
      case Ok((coin, rest2)) => Ok((if coin == 1 then w + number else number + w, rest2))
  }

  /** `generateHumanReadable(length, numLength, chunkSize)` with the generator's dictionary
      settings and the file it would read: the outcome of the promise and the cached content
      afterwards. In the branch that reads the file every exception is caught and rejects. */
  function HumanReadableOf(length: Number, numLength: Number, chunkSize: Option<int>,
                           dictionary: Option<string>, cache: bool, wordlist: Option<string>,
                           file: DictionaryFile, src: seq<byte>): (c: (Result<(string, seq<byte>)>, Option<string>))
    ensures length.NaN? || length.value <= 0.0 || dictionary == None ==> c.0 == Err(Rejected)
    ensures c.1 == wordlist || (cache && file.Readable? && c.1 == Some(Substr(Concat(file.chunks), 0, MAX_SAFE_INTEGER)))
  {
    if length.NaN? || length.value <= 0.0 then (Err(Rejected), wordlist)
    else if dictionary == None || dictionary == Some("") then (Err(Rejected), wordlist)
    else
      var nl := TokenLength(numLength);
      var total := TotalLength(length.value, nl);
      match DigitsPart(nl, src)
      case Err(e) => (Err(e), wordlist)
      case Ok((number, rest)) =>
        if nl != 0 && nl as real == total then (Ok((number, rest)), wordlist)
        else
          var wordLength := WordLength(length.value, nl);
          var chunk := ChunkSizeOf(chunkSize);
          if cache && wordlist.Some? then
            if wordlist.value == "" then (Ok(("", rest)), wordlist)
            else (FromText(wordlist.value, wordLength, number, chunk, rest), wordlist)
          else
            match file
            case Unreadable => (Err(Rejected), wordlist)
            case Readable(chunks) =>
              var d := Concat(chunks);
              if d == "" then (Ok(("", rest)), wordlist)
              else
                var kept := if cache then Some(Substr(d, 0, MAX_SAFE_INTEGER)) else wordlist;
                match FromText(d, wordLength, number, chunk, rest)
                case Ok(v) => (Ok(v), kept)
                case Err(e) => (Err(if e == OutOfRandomness then e else Rejected), kept)
  }

  /** The dictionary text a call draws from: the cached content when there is some, the file
      otherwise. */
  function TextUsed(cache: bool, wordlist: Option<string>, file: DictionaryFile): string {
    if cache && wordlist.Some? then wordlist.value else if file.Readable? then Concat(file.chunks) else ""
  }

  /** When it rejects, and what it caches: an invalid length or an unset path rejects, the branch
      that reads the file rejects on any failure, and only that branch with the cache on stores
      what it read. */
  lemma HumanReadableOutcomes(length: Number, numLength: Number, chunkSize: Option<int>,
                              dictionary: Option<string>, cache: bool, wordlist: Option<string>,
                              file: DictionaryFile, src: seq<byte>)
    ensures var c := HumanReadableOf(length, numLength, chunkSize, dictionary, cache, wordlist, file, src);
      (length.NaN? || length.value <= 0.0 || dictionary == None ==> c.0 == Err(Rejected))
      && (c.0.Err? && !(cache && wordlist.Some?) ==> c.0.error == Rejected || c.0.error == OutOfRandomness)
      && (c.1 != wordlist
          ==> cache && wordlist == None && file.Readable?
              && c.1 == Some(Substr(Concat(file.chunks), 0, MAX_SAFE_INTEGER)) && c.1 != Some(""))
  {
    var c := HumanReadableOf(length, numLength, chunkSize, dictionary, cache, wordlist, file, src);
    if c.0.Err? && !(cache && wordlist.Some?) && !(length.NaN? || length.value <= 0.0) && dictionary != None {
      var nl := TokenLength(numLength);
      if nl != 0 {
        TokenOfShape(Fin(nl as real), Str(DIGITS), src);
      }
    }
    if c.1 != wordlist {
      var d := Concat(file.chunks);
      assert d != "";
      assert |Substr(d, 0, MAX_SAFE_INTEGER)| > 0 by {
        assert Substr(d, 0, MAX_SAFE_INTEGER) == d[..Min(|d|, MAX_SAFE_INTEGER)];
      }
    }
  }

  /** When the numeric part is at least as long as the password, the password is the digits
      alone and no dictionary is looked at. */
  lemma DigitsOnly(length: Number, numLength: Number, chunkSize: Option<int>,
                   dictionary: Option<string>, cache: bool, wordlist: Option<string>,
                   file: DictionaryFile, src: seq<byte>)
    requires length.Fin? && length.value > 0.0 && dictionary.Some? && dictionary != Some("")
    requires TokenLength(numLength) as real >= length.value
    ensures HumanReadableOf(length, numLength, chunkSize, dictionary, cache, wordlist, file, src)
            == (TokenOf(Fin(TokenLength(numLength) as real), Str(DIGITS), src), wordlist)
  {
    assert TokenLength(numLength) != 0;
  }

  /** With the cache on, the `''` left by a change of path counts as loaded content: nothing is
      read and the password is empty unless it is made of digits only. */
  lemma EmptyCacheGivesEmpty(length: Number, numLength: Number, chunkSize: Option<int>,
                             dictionary: Option<string>, file: DictionaryFile, src: seq<byte>)
    requires length.Fin? && length.value > 0.0 && dictionary.Some? && dictionary != Some("")
    requires TokenLength(numLength) as real < length.value
    ensures var c := HumanReadableOf(length, numLength, chunkSize, dictionary, true, Some(""), file, src);
      c.1 == Some("") && (c.0.Ok? ==> c.0.value.0 == "")
  {
  }

  lemma SubstrPrefixContains(d: string, t: string)
    requires Contains(Substr(d, 0, MAX_SAFE_INTEGER), t)
    ensures Contains(d, t)
  {
    var p := Substr(d, 0, MAX_SAFE_INTEGER);
    assert p == d[..|p|];
    ContainsIff(p, t);
    var j :| OccursAt(p, t, j);
    assert d[j..j + |t|] == p[j..j + |t|];
    assert OccursAt(d, t, j);
    ContainsIff(d, t);
  }

  lemma DigitsAreDigits(number: string)
    requires forall c :: c in number ==> c in DIGITS
    ensures forall i :: 0 <= i < |number| ==> IsDigit(number[i])
  {
    forall i | 0 <= i < |number| ensures IsDigit(number[i]) {
      assert number[i] in DIGITS;
    }
  }

  /** A word drawn from a text, joined with the digits on one side or the other. */
  lemma FromTextParts(d: string, length: real, number: string, chunk: int, src: seq<byte>) returns (word: string)
    requires FromText(d, length, number, chunk, src).Ok?
    ensures var r := FromText(d, length, number, chunk, src).value.0;
      (r == word + number || r == number + word)
      && word != "" && |word| as real == length && !Contains(word, "\n") && Contains(d, word + "\n")
  {
    var text := Substr(d, 0, MAX_SAFE_INTEGER);
    SampledWord(text, chunk, length, src);
    word := SampleWord(text, chunk, length, src).value.0;
    SubstrPrefixContains(d, word + "\n");
  }

  /** A non-empty password that is more than the digits comes from the word drawn from the text
      in use. */
  lemma HumanReadableDraw(length: Number, numLength: Number, chunkSize: Option<int>,
                          dictionary: Option<string>, cache: bool, wordlist: Option<string>,
                          file: DictionaryFile, src: seq<byte>)
    requires HumanReadableOf(length, numLength, chunkSize, dictionary, cache, wordlist, file, src).0.Ok?
    requires HumanReadableOf(length, numLength, chunkSize, dictionary, cache, wordlist, file, src).0.value.0 != ""
    requires length.Fin? && !(TokenLength(numLength) as real >= length.value)
    ensures var nl := TokenLength(numLength); var digits := DigitsPart(nl, src);
      digits.Ok?
      && FromText(TextUsed(cache, wordlist, file), WordLength(length.value, nl), digits.value.0,
                  ChunkSizeOf(chunkSize), digits.value.1).Ok?
      && HumanReadableOf(length, numLength, chunkSize, dictionary, cache, wordlist, file, src).0.value.0
         == FromText(TextUsed(cache, wordlist, file), WordLength(length.value, nl), digits.value.0,
                     ChunkSizeOf(chunkSize), digits.value.1).value.0
  {
  }

  /** The numeric part has `numLength` characters, all digits. */
  lemma DigitsPartShape(nl: nat, src: seq<byte>)
    requires DigitsPart(nl, src).Ok?
    ensures var number := DigitsPart(nl, src).value.0;
      |number| == nl && forall i :: 0 <= i < |number| ==> IsDigit(number[i])
  {
    if nl != 0 {
      TokenOfShape(Fin(nl as real), Str(DIGITS), src);
      TokenInPattern(Fin(nl as real), Str(DIGITS), src);
    }
    DigitsAreDigits(DigitsPart(nl, src).value.0);
  }

  /** A non-empty password is the digits and a word: its length is the wanted one (raised to
      `numLength` when that is longer), the numeric part has `numLength` digits, and the word is
      empty exactly when the digits alone fill the length; otherwise it is a text without line
      breaks that stands in the dictionary followed by a line break. */
  lemma HumanReadableParts(length: Number, numLength: Number, chunkSize: Option<int>,
                           dictionary: Option<string>, cache: bool, wordlist: Option<string>,
                           file: DictionaryFile, src: seq<byte>) returns (word: string, number: string)
    requires HumanReadableOf(length, numLength, chunkSize, dictionary, cache, wordlist, file, src).0.Ok?
    requires HumanReadableOf(length, numLength, chunkSize, dictionary, cache, wordlist, file, src).0.value.0 != ""
    ensures var r := HumanReadableOf(length, numLength, chunkSize, dictionary, cache, wordlist, file, src).0.value.0;
      length.Fin?
      && (r == word + number || r == number + word)
      && |number| == TokenLength(numLength)
      && (forall i :: 0 <= i < |number| ==> IsDigit(number[i]))
      && |r| as real == TotalLength(length.value, TokenLength(numLength))
      && (word == "" <==> TokenLength(numLength) as real >= length.value)
      && (word != "" ==> !Contains(word, "\n") && Contains(TextUsed(cache, wordlist, file), word + "\n"))
  {
    var nl := TokenLength(numLength);
    assert length.Fin? && DigitsPart(nl, src).Ok?;
    number := DigitsPart(nl, src).value.0;
    DigitsPartShape(nl, src);
    if nl as real >= length.value {
      word := "";
      DigitsOnly(length, numLength, chunkSize, dictionary, cache, wordlist, file, src);
    } else {
      HumanReadableDraw(length, numLength, chunkSize, dictionary, cache, wordlist, file, src);
      word := FromTextParts(TextUsed(cache, wordlist, file), WordLength(length.value, nl), number,
                            ChunkSizeOf(chunkSize), DigitsPart(nl, src).value.1);
    }
  }

  class Generator {
    /** `dictionary`, `wordlist` and `cache`. */
    const store: DictionaryCache

    ghost predicate Valid()
      reads this, store
    {
      store.Valid()
    }

    constructor()
      ensures Valid() && fresh(store)
      ensures store.dictionary == None && store.wordlist == None && !store.cache
    {
      store := new DictionaryCache();
    }

    /** `generateHumanReadable(length, numLength, chunkSize)` with the dictionary file it would
        read and the random bytes it draws from. */
    method GenerateHumanReadable(length: Number, numLength: Number, chunkSize: Option<int>,
                                 file: DictionaryFile, src: seq<byte>)
      returns (r: Result<(string, seq<byte>)>)
      requires Valid()
      modifies store
      ensures Valid()
      ensures (r, store.wordlist)
              == HumanReadableOf(length, numLength, chunkSize, old(store.dictionary), old(store.cache),
                                 old(store.wordlist), file, src)
      ensures store.dictionary == old(store.dictionary) && store.cache == old(store.cache)
    {
      if length.NaN? || length.value <= 0.0 {
        return Err(Rejected);
      }
      if store.dictionary == None {
        return Err(Rejected);
      }
      var total := length.value;
      var nl := TokenLength(numLength);
      ghost var digits := DigitsPart(nl, src);
      var number := "";
      var rest := src;
      if nl != 0 {
        if nl as real > total {
          total := nl as real;
        }
        var token := GenerateRandomToken(Fin(nl as real), Str(DIGITS), src);
        assert token == digits;
        if token.Err? {
          return Err(token.error);
        }
        number, rest := token.value.0, token.value.1;
        if nl as real == total {
          return Ok((number, rest));
        }
        total := total - nl as real;
      }
      assert digits == Ok((number, rest));
      assert total == WordLength(length.value, nl);
      assert !(nl != 0 && nl as real == TotalLength(length.value, nl));
      var chunk := ChunkSizeOf(chunkSize);
      if store.cache && store.wordlist.Some? {
        var dictionary := store.wordlist.value;
        if dictionary == "" {
          return Ok(("", rest));
        }
        r := DrawWord(dictionary, total, number, chunk, rest);
        return;
      }
      if file.Unreadable? {
        return Err(Rejected);
      }
      var dictionary := Concat(file.chunks);
      if dictionary == "" {
        return Ok(("", rest));
      }
      if store.cache {
        store.Store(Substr(dictionary, 0, MAX_SAFE_INTEGER));
      }
      r := DrawWord(dictionary, total, number, chunk, rest);
      if r.Err? && r.error != OutOfRandomness {
        r := Err(Rejected);
      }
    }
  }

  /** The sampling loops on the text, then the coin that joins the word and the digits. */
  method DrawWord(dictionary: string, length: real, number: string, chunk: int, src: seq<byte>)
    returns (r: Result<(string, seq<byte>)>)
    ensures r == FromText(dictionary, length, number, chunk, src)
  {
    var text := Substr(dictionary, 0, MAX_SAFE_INTEGER);
    var picked := PickWord(text, chunk, length, src);
    if picked.Err? {
      return Err(picked.error);
    }
    var password := picked.value.0;
    var coin := RandomNumber(0, 1, picked.value.1);
    if coin.Err? {
      return Err(coin.error);
    }
    r := Ok((if coin.value.0 == 1 then password + number else number + password, coin.value.1));
  }
}
