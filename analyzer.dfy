/** The `analyzer` object: its dictionary settings, its case-insensitivity flag, `analyze` and
    `completeAnalysis`. */
module PasswordAnalyzer {
  import opened Common
  import opened Strings
  import opened Scorer
  import opened Scanner
  import opened DictionaryStore

  /** The keywords `analyze` looks at: none unless the argument is an array. */
  function KeywordsOf(keywords: array?<Value>): seq<Value>
    reads keywords
  {
    if keywords == null then [] else keywords[..]
  }

  /** The text `completeAnalysis` looks for in the dictionary: the (folded) password and a line break.
      A non-string password is converted to text by `+`, or throws under `ci` where
      `toLowerCase` is called on it: it stands for a value without a `toLowerCase` method. */
  function Needle(password: Value, ci: bool): (r: Result<string>)
    ensures r.Ok? ==> |r.value| > 0 && r.value[|r.value| - 1] == '\n'
    ensures r.Err? <==> ci && password.NonString?
  {
    match password
    case Str(s) => Ok(Folded(s, ci) + "\n")
    case NonString(text) => if ci then Err(TypeError) else Ok(text + "\n")
  }

  /** `completeAnalysis` given the analysis already made and the analyzer's settings: the
      outcome of the promise and the cached content afterwards. */
  function CompleteOf(a: Analysis, password: Value, ci: bool, dictionary: Option<string>, cache: bool,
                      wordlist: Option<string>, file: DictionaryFile): (c: (Result<Analysis>, Option<string>))
    ensures c.0.Err? ==> c.0.error == TypeError || c.0.error == Rejected
    ensures c.0.Ok? ==> c.0.value.(score := a.score) == a
    ensures c.1 == wordlist || (cache && file.Readable? && c.1 == Some(Concat(file.chunks)))
  {
    if dictionary == None || dictionary == Some("") then (Ok(a), wordlist)
    else
      match Needle(password, ci)
      case Err(e) => (Err(e), wordlist)
      case Ok(needle) =>
        if cache && wordlist.Some? then
          (Ok(a.(score := DictionaryPenalty(a.score, Contains(wordlist.value, needle)))), wordlist)
        else
          match file
          case Unreadable => (Err(Rejected), wordlist)
          case Readable(chunks) =>
            if cache then
              var data := Concat(chunks);
              if data == "" then (Ok(a), wordlist)
              else (Ok(a.(score := DictionaryPenalty(a.score, Contains(data, needle)))), Some(data))
            else (Ok(a.(score := DictionaryPenalty(a.score, StreamFinds(chunks, needle)))), wordlist)
  }

  /** A successful complete analysis keeps every field of the plain analysis except the score,
      which stays in [0, 100] and never rises. */
  lemma CompleteKeepsAnalysis(a: Analysis, password: Value, ci: bool, dictionary: Option<string>, cache: bool,
                              wordlist: Option<string>, file: DictionaryFile)
    requires 0 <= a.score <= 100
    ensures var r := CompleteOf(a, password, ci, dictionary, cache, wordlist, file).0;
      r.Ok? ==> r.value.(score := a.score) == a && 0 <= r.value.score <= a.score
  {
  }

  /** The dictionary is consulted only when a path is set; a read failure rejects; with the cache
      on, content that was read is kept, and an empty file leaves the score alone. */
  lemma CompleteBranches(a: Analysis, password: Value, ci: bool, dictionary: Option<string>, cache: bool,
                         wordlist: Option<string>, file: DictionaryFile)
    ensures var c := CompleteOf(a, password, ci, dictionary, cache, wordlist, file);
      (dictionary == None ==> c == (Ok(a), wordlist))
      && (dictionary.Some? && dictionary != Some("") && ci && password.NonString? ==> c.0 == Err(TypeError))
      && (dictionary.Some? && dictionary != Some("") && Needle(password, ci).Ok? && !(cache && wordlist.Some?)
          && file.Unreadable?
          ==> c.0 == Err(Rejected))
      && (c.1 != wordlist ==> cache && wordlist == None && file.Readable? && c.1 == Some(Concat(file.chunks)) && c.1 != Some(""))
  {
  }

  /** With the cache on, the `''` left by a change of path counts as loaded content: nothing is
      read, whatever the file holds, and no password is found in it. */
  lemma EmptyCacheIsLoaded(a: Analysis, password: Value, ci: bool, dictionary: Option<string>,
                           file1: DictionaryFile, file2: DictionaryFile)
    requires 0 <= a.score <= 100
    requires dictionary.Some? && dictionary != Some("") && Needle(password, ci).Ok?
    ensures CompleteOf(a, password, ci, dictionary, true, Some(""), file1)
            == CompleteOf(a, password, ci, dictionary, true, Some(""), file2)
            == (Ok(a), Some(""))
  {
    var needle := Needle(password, ci).value;
    assert !Contains("", needle);
  }

  /** The search matches substrings, not whole lines: a password that is only the end of a
      dictionary word is found as well. */
  lemma SubstringMatch()
    ensures Contains("xabc\n", Needle(Str("abc"), false).value)
  {
    assert Needle(Str("abc"), false).value == "abc\n";
    assert OccursAt("xabc\n", "abc\n", 1);
    ContainsIff("xabc\n", "abc\n");
  }

  /** The first loop of `analyze`: the `chars` table, and the order in which `for ... in`
      enumerates its keys. */
  method CharsTable(s: string) returns (chars: map<char, nat>, letters: seq<char>)
    ensures chars == CharTable(s) && letters == FirstSeen(s)
  {
    chars := map[];
    letters := [];
    for i := 0 to |s|
      invariant chars == CharTable(s[..i]) && letters == FirstSeen(s[..i])
    {
      var letter := s[i];
      assert s[..i + 1][..i] == s[..i];
      if letter in chars {
        chars := chars[letter := chars[letter] + 1];
      } else {
        chars := chars[letter := 0];
        letters := letters + [letter];
      }
    }
    assert s[..|s|] == s;
  }

  /** The second loop of `analyze`: the points subtracted for the table's non-zero entries. */
  method RepetitionLoop(s: string, chars: map<char, nat>, letters: seq<char>) returns (penalty: nat)
    requires |s| > 0 && chars == CharTable(s) && letters == FirstSeen(s)
    ensures penalty == Repetition(s)
  {
    penalty := 0;
    for k := 0 to |letters|
      invariant penalty == RepetitionPenalty(letters[..k], chars, |s|)
    {
      var letter := letters[k];
      assert letters[..k + 1][..k] == letters[..k];
      if letter in chars && chars[letter] != 0 {
        penalty := penalty + ((chars[letter] * 100) / |s|) / 5;
      }
    }
    assert letters[..|letters|] == letters;
  }

  /** The keyword loop of `analyze`, lowercasing the caller's keywords in place under `ci`. */
  method KeywordLoop(s: string, keywords: array?<Value>, ci: bool) returns (t: Tally)
    modifies keywords
    ensures t == KeywordTally(s, old(KeywordsOf(keywords)), ci)
    ensures keywords != null ==> keywords[..] == FoldKeywords(old(keywords[..]), ci)
  {
    t := Tally(map[], 0, 0);
    if keywords == null || keywords.Length == 0 {
      return;
    }
    ghost var ks := keywords[..];
    for i := 0 to keywords.Length
      invariant forall j :: 0 <= j < i ==> keywords[j] == FoldKeywords(ks, ci)[j]
      invariant forall j :: i <= j < keywords.Length ==> keywords[j] == ks[j]
      invariant t == KeywordTally(s, ks[..i], ci)
    {
      KeywordTallyStep(s, ks, i, ci);
      var k := keywords[i];
      if !(k.Str? && k.s != "") {
        continue;
      }
      var kw := k.s;
      if ci {
        kw := ToLower(kw);
        keywords[i] := Str(kw);
      }
      assert kw == Folded(k.s, ci);
      var buffer := Hits(s, kw);
      t := Tally(Recorded(t.hits, kw, buffer), t.count + buffer, t.unique + if buffer != 0 then 1 else 0);
    }
    assert ks[..keywords.Length] == ks;
  }

  /** The first penalties of `analyze`: the length, then the missing character classes. */
  method BaseScore(p: string, s: string, numbers: nat, uppercaseLetters: nat, lowercaseLetters: nat,
                   specialChars: nat) returns (score: int)
    requires numbers == CountWhere(p, IsDigit) && uppercaseLetters == CountWhere(p, IsUpper)
    requires lowercaseLetters == CountWhere(p, IsLower) && specialChars == CountWhere(p, IsSpecial)
    ensures score == (0 as int) - LengthPenalty(|s|) - ClassPenalty(p)
  {
    score := if |s| < 15 then - (((15 - |s|) * 100) / 15) else 0;
    if numbers == 0 {
      score := score - 10;
    }
    if uppercaseLetters == 0 {
      score := score - 10;
    }
    if lowercaseLetters == 0 {
      score := score - 10;
    }
    if specialChars == 0 {
      score := score - 5;
    }
  }

  /** The body of `analyze` for a non-empty string password. */
  method ScorePassword(p: string, keywords: array?<Value>, ci: bool) returns (a: Analysis)
    requires p != ""
    modifies keywords
    ensures a == AnalysisOf(Str(p), old(KeywordsOf(keywords)), ci)
    ensures keywords != null ==> keywords[..] == FoldKeywords(old(keywords[..]), ci)
  {
    var numbers := CountWhere(p, IsDigit);
    var uppercaseLetters := CountWhere(p, IsUpper);
    var lowercaseLetters := CountWhere(p, IsLower);
    var specialChars := CountWhere(p, IsSpecial);
    var s := p;
    if ci {
      s := ToLower(p);
    }
    assert s == Folded(p, ci);
    var score := BaseScore(p, s, numbers, uppercaseLetters, lowercaseLetters, specialChars);
    var chars, letters := CharsTable(s);
    var repetition := RepetitionLoop(s, chars, letters);
    score := score - repetition;
    ghost var ks := KeywordsOf(keywords);
    var tally := KeywordLoop(s, keywords, ci);
    score := score - 5 * tally.count;
    assert score == RawScore(p, ks, ci);
    score := 100 + score;
    score := Clamp(score, 0, 100);
    a := Analysis(numbers, uppercaseLetters, lowercaseLetters, specialChars, |p|,
                  tally.hits, tally.count, tally.unique, score);
    AnalysisOfParts(p, ks, ci);
  }

  class Analyzer {
    /** `dictionary`, `wordlist` and `cache`. */
    const store: DictionaryCache
    /** Whether passwords are scored case-insensitively. */
    var ci: bool

    ghost predicate Valid()
      reads this, store
    {
      store.Valid()
    }

    constructor()
      ensures Valid() && fresh(store)
      ensures ci && store.dictionary == None && store.wordlist == None && !store.cache
    {
      store := new DictionaryCache();
      ci := true;
    }

    /** `setCaseInsensitive(value)`: anything but `false` turns case-insensitivity on. */
    method SetCaseInsensitive(value: Flag)
      modifies this
      ensures ci == (value != Bool(false))
    {
      ci := value != Bool(false);
    }

    function GetCaseInsensitive(): (b: bool)
      reads this
      ensures b <==> ci
    {
      ci
    }

    /** `analyze(password, keywords)`: the counts, the penalties accumulated in `score`, the
        `chars` table and the keyword loop, which lowercases the caller's keywords under `ci`. */
    method Analyze(password: Value, keywords: array?<Value>) returns (a: Analysis)
      modifies keywords
      ensures a == AnalysisOf(password, old(KeywordsOf(keywords)), ci)
      ensures keywords != null ==>
        keywords[..] == if password.Str? && password.s != "" then FoldKeywords(old(keywords[..]), ci)
                        else old(keywords[..])
    {
      if !(password.Str? && password.s != "") {
        return Zero;
      }
      a := ScorePassword(password.s, keywords, ci);
    }

    /** `completeAnalysis(password, keywords)` with the dictionary file it would read. */
    method CompleteAnalysis(password: Value, keywords: array?<Value>, file: DictionaryFile)
      returns (r: Result<Analysis>)
      requires Valid()
      modifies keywords, store
      ensures Valid()
      ensures var c := CompleteOf(AnalysisOf(password, old(KeywordsOf(keywords)), ci), password, ci,
                                  old(store.dictionary), old(store.cache), old(store.wordlist), file);
        r == c.0 && store.wordlist == c.1
      ensures store.dictionary == old(store.dictionary) && store.cache == old(store.cache)
      ensures keywords != null ==>
        keywords[..] == if password.Str? && password.s != "" then FoldKeywords(old(keywords[..]), ci)
                        else old(keywords[..])
    {
      var a := Analyze(password, keywords);
      if store.dictionary == None {
        return Ok(a);
      }
      var needle :- Needle(password, ci);
      if store.cache && store.wordlist.Some? {
        var found := Contains(store.wordlist.value, needle);
        return Ok(a.(score := DictionaryPenalty(a.score, found)));
      }
      if file.Unreadable? {
        return Err(Rejected);
      }
      if store.cache {
        var data := Concat(file.chunks);
        if data == "" {
          return Ok(a);
        }
        store.Store(data);
        var found := Contains(data, needle);
        return Ok(a.(score := DictionaryPenalty(a.score, found)));
      }
      var found := ScanStream(file.chunks, needle);
      r := Ok(a.(score := DictionaryPenalty(a.score, found)));
    }
  }
}
