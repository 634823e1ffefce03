/** The dictionary settings that `analyzer` and `generator` each carry: the path of the
    dictionary file, whether its content is cached, and the cached content. The two copies in
    the source are the same code; both the analyzer and the generator own one object of this class. */
module DictionaryStore {
  import opened Common

  /** The path `setDictionaryPath` stores: the empty string stands for no dictionary. */
  function NormalisePath(path: string): (p: Option<string>)
    ensures p == None <==> path == ""
    ensures p.Some? ==> p.value == path && p.value != ""
  {
    if path == "" then None else Some(path)
  }

  class DictionaryCache {
    /** The dictionary path, `null` when none is set. */
    var dictionary: Option<string>
    /** The cached content of the dictionary, `null` when nothing is cached. */
    var wordlist: Option<string>
    /** Whether content read from the dictionary is kept for later calls. */
    var cache: bool

    /** Nothing is cached while caching is off, the stored path is never empty, and real
        content is only cached for a dictionary that is set. */
    ghost predicate Valid()
      reads this
    {
      (!cache ==> wordlist == None)
      && dictionary != Some("")
      && (dictionary == None ==> wordlist == None || wordlist == Some(""))
    }

    constructor()
      ensures Valid()
      ensures dictionary == None && wordlist == None && !cache
    {
      dictionary := None;
      wordlist := None;
      cache := false;
    }

    /** `setDictionaryPath(path)`: a non-string throws, `''` clears the path, and only a path
        different from the stored one touches the cache, leaving it "loaded but empty" (`''`)
        when caching is on. */
    method SetDictionaryPath(path: Value) returns (o: Outcome)
      requires Valid()
      modifies this
      ensures Valid()
      ensures path.NonString? ==> o == Fail(InvalidPath) && unchanged(this)
      ensures path.Str? && NormalisePath(path.s) == old(dictionary) ==> o == Pass && unchanged(this)
      ensures path.Str? && NormalisePath(path.s) != old(dictionary) ==>
        o == Pass && dictionary == NormalisePath(path.s) && cache == old(cache)
        && wordlist == (if cache then Some("") else None)
    {
      if path.NonString? {
        return Fail(InvalidPath);
      }
      var p := NormalisePath(path.s);
      if dictionary != p {
        wordlist := if !cache then None else Some("");
        dictionary := p;
      }
      return Pass;
    }

    /** `getDictionaryPath()` (`getDictionary()` on the generator). */
    function GetDictionaryPath(): (p: Option<string>)
      reads this
      ensures p.Some? ==> p.value != ""
      ensures Valid() ==> p == dictionary
    {
      if dictionary == Some("") then None else dictionary
    }

    /** `setDictionaryCache(value)`: anything but `true` turns caching off and drops the content. */
    method SetDictionaryCache(value: Flag)
      requires Valid()
      modifies this
      ensures Valid()
      ensures value == Bool(true) ==> cache && dictionary == old(dictionary) && wordlist == old(wordlist)
      ensures value != Bool(true) ==> !cache && dictionary == old(dictionary) && wordlist == None
    {
      if value != Bool(true) {
        cache := false;
        wordlist := None;
        return;
      }
      cache := true;
    }

    function GetDictionaryCache(): (b: bool)
      reads this
      ensures b <==> cache
    {
      cache
    }

    /** `invalidateDictionaryCache()`: forget the cached content. */
    method InvalidateDictionaryCache()
      requires Valid()
      modifies this
      ensures Valid()
      ensures wordlist == None && dictionary == old(dictionary) && cache == old(cache)
    {
      wordlist := None;
    }

    /** Store content read from the dictionary file, as the cached branches do after a read. */
    method Store(content: string)
      requires Valid() && dictionary != None && cache
      modifies this
      ensures Valid()
      ensures wordlist == Some(content) && dictionary == old(dictionary) && cache
    {
      wordlist := Some(content);
    }
  }
}
