/** What `analyzer.analyze` computes, as functions of the password, the keywords and the
    case-insensitivity flag, together with the properties of the score. */
module Scorer {
  import opened Common
  import opened Strings

  /** The object `analyze` returns. */
  datatype Analysis = Analysis(
    numbers: nat,
    uppercaseLetters: nat,
    lowercaseLetters: nat,
    specialChars: nat,
    length: nat,
    keywords: map<string, nat>,
    keywordsCount: nat,
    keywordsUniqueCount: nat,
    score: int)

  /** The record returned for a missing or empty password. */
  const Zero: Analysis := Analysis(0, 0, 0, 0, 0, map[], 0, 0, 0)

  /** The password as it is scored: lowercased when `ci` is set. */
  function Folded(s: string, ci: bool): (r: string)
    ensures |r| == |s|
  {
    if ci then ToLower(s) else s
  }

  /** `floor((15 - n) * 100 / 15)` below fifteen characters, nothing from fifteen on. */
  function LengthPenalty(n: nat): (p: nat)
    ensures p <= 100
    ensures p == 0 <==> n >= 15
  {
    if n < 15 then ((15 - n) * 100) / 15 else 0
  }

  /** Ten points each for no digit, no upper-case and no lower-case letter, five for no other character. */
  function ClassPenalty(s: string): (p: nat)
    ensures p <= 35
    ensures p == 0 <==> CountWhere(s, IsDigit) > 0 && CountWhere(s, IsUpper) > 0
                        && CountWhere(s, IsLower) > 0 && CountWhere(s, IsSpecial) > 0
  {
    (if CountWhere(s, IsDigit) == 0 then 10 else 0)
    + (if CountWhere(s, IsUpper) == 0 then 10 else 0)
    + (if CountWhere(s, IsLower) == 0 then 10 else 0)
    + (if CountWhere(s, IsSpecial) == 0 then 5 else 0)
  }

  /** The `chars` table: 0 for a character's first occurrence, one more for each further one. */
  function CharTable(s: string): (m: map<char, nat>)
    ensures m == map[] <==> s == ""
  {
    if |s| == 0 then map[]
    else
      var m := CharTable(s[..|s| - 1]);
      var c := s[|s| - 1];
      if c in m then m[c := m[c] + 1] else m[c := 0]
  }

  /** The table holds every character of `s`, with its number of occurrences minus one. */
  lemma {:induction false} CharTableCounts(s: string)
    ensures forall c :: c in CharTable(s) <==> c in s
    ensures forall c :: c in s ==> CharTable(s)[c] == multiset(s)[c] - 1
  {
    if |s| > 0 {
      var init := s[..|s| - 1];
      CharTableCounts(init);
      assert s == init + [s[|s| - 1]];
      assert multiset(s) == multiset(init) + multiset{s[|s| - 1]};
    }
  }

  /** The keys of the table in the order they were added. */
  function FirstSeen(s: string): seq<char>
  {
    if |s| == 0 then []
    else
      var keys := FirstSeen(s[..|s| - 1]);
      var c := s[|s| - 1];
      if c in CharTable(s[..|s| - 1]) then keys else keys + [c]
  }

  predicate Distinct<T(==)>(s: seq<T>) {
    forall i, j :: 0 <= i < j < |s| ==> s[i] != s[j]
  }

  /** The enumerated keys are exactly the keys of the table, each once. */
  lemma {:induction false} FirstSeenKeys(s: string)
    ensures forall c :: c in FirstSeen(s) <==> c in CharTable(s)
    ensures Distinct(FirstSeen(s))
  {
    if |s| > 0 {
      FirstSeenKeys(s[..|s| - 1]);
    }
  }

  /** An entry no larger than the length is at most 100 per cent of it. */
  lemma ShareAtMostAll(v: nat, n: nat)
    requires n > 0
    ensures v <= n ==> (v * 100) / n <= 100
  {
    if v <= n {
      var q := (v * 100) / n;
      assert q * n <= v * 100;
      assert v * 100 <= n * 100;
    }
  }

  /** The points one table entry costs: `floor(v * 100 / n / 5)`, nothing for an entry of 0. */
  function CharPenalty(v: nat, n: nat): (c: nat)
    requires n > 0
    ensures v == 0 ==> c == 0
    ensures v <= n ==> c <= 20
  {
    ShareAtMostAll(v, n);
    if v != 0 then ((v * 100) / n) / 5 else 0
  }

  /** The entry of `c` in the table, 0 for a character it does not hold. */
  function Entry(table: map<char, nat>, c: char): nat {
    if c in table then table[c] else 0
  }

  /** The repetition penalty summed over the given table keys, in order. */
  function RepetitionPenalty(keys: seq<char>, table: map<char, nat>, n: nat): nat
    requires n > 0
  {
    if |keys| == 0 then 0
    else RepetitionPenalty(keys[..|keys| - 1], table, n) + CharPenalty(Entry(table, keys[|keys| - 1]), n)
  }

  /** A string whose characters are all different leaves only zeros in its table. */
  lemma {:induction false} DistinctTableZero(s: string)
    requires Distinct(s)
    ensures forall c :: c in CharTable(s) ==> CharTable(s)[c] == 0
  {
    if |s| > 0 {
      var init := s[..|s| - 1];
      assert Distinct(init);
      DistinctTableZero(init);
      CharTableCounts(init);
      assert s[|s| - 1] !in init;
    }
  }

  /** Entries of 0 cost nothing, so an all-zero table carries no repetition penalty. */
  lemma {:induction false} ZeroTableNoPenalty(keys: seq<char>, table: map<char, nat>, n: nat)
    requires n > 0
    requires forall k :: k in keys ==> Entry(table, k) == 0
    ensures RepetitionPenalty(keys, table, n) == 0
  {
    if |keys| > 0 {
      ZeroTableNoPenalty(keys[..|keys| - 1], table, n);
    }
  }

  /** The repetition penalty of a scored password. */
  function Repetition(s: string): nat
    requires |s| > 0
  {
    RepetitionPenalty(FirstSeen(s), CharTable(s), |s|)
  }

  /** A keyword the loop looks at: a non-empty string. */
  predicate IsKeyword(k: Value) {
    k.Str? && k.s != ""
  }

  /** The keyword array after the loop: under `ci` each keyword is lowercased in place. */
  function FoldKeywords(ks: seq<Value>, ci: bool): (r: seq<Value>)
    ensures |r| == |ks|
    ensures forall i :: 0 <= i < |ks| ==> r[i] == (if IsKeyword(ks[i]) then Str(Folded(ks[i].s, ci)) else ks[i])
  {
    seq(|ks|, i requires 0 <= i < |ks| => if IsKeyword(ks[i]) then Str(Folded(ks[i].s, ci)) else ks[i])
  }

  /** The keyword fields of the analysis after looking at some keywords. */
  datatype Tally = Tally(hits: map<string, nat>, count: nat, unique: nat)

  /** `password.split(kw).length - 1`. */
  function Hits(p: string, kw: string): (h: nat)
    requires kw != ""
    ensures h == CountFrom(p, kw, 0)
  {
    SplitCountsOccurrences(p, kw);
    |Split(p, kw)| - 1
  }

  /** The one key an assignment on a plain JavaScript object does not store: writing a number to
      `__proto__` goes through the inherited setter, which ignores it. */
  const PROTO_KEY: string := "__proto__"

  /** `analysis.keywords[kw] = h` on the plain object `analysis.keywords`. */
  function Recorded(hits: map<string, nat>, kw: string, h: nat): (r: map<string, nat>)
    ensures kw == PROTO_KEY ==> r == hits
    ensures kw != PROTO_KEY ==> r.Keys == hits.Keys + {kw} && r[kw] == h
    ensures forall k :: k in hits && k != kw ==> k in r && r[k] == hits[k]
  {
    if kw == PROTO_KEY then hits else hits[kw := h]
  }

  /** The keyword loop over `ks`, in order, on the scored password `p`. */
  function KeywordTally(p: string, ks: seq<Value>, ci: bool): (t: Tally)
    ensures t.unique <= t.count && t.unique <= |ks|
  {
    if |ks| == 0 then Tally(map[], 0, 0)
    else
      var t := KeywordTally(p, ks[..|ks| - 1], ci);
      var k := ks[|ks| - 1];
      if !IsKeyword(k) then t
      else
        var kw := Folded(k.s, ci);
        var h := Hits(p, kw);
        Tally(Recorded(t.hits, kw, h), t.count + h, t.unique + if h != 0 then 1 else 0)
  }

  /** One more keyword: the tally of the first `i + 1` keywords from the tally of the first `i`. */
  lemma KeywordTallyStep(p: string, ks: seq<Value>, i: nat, ci: bool)
    requires i < |ks|
    ensures var t := KeywordTally(p, ks[..i], ci);
      KeywordTally(p, ks[..i + 1], ci)
      == if !IsKeyword(ks[i]) then t
         else
           var kw := Folded(ks[i].s, ci);
           var h := Hits(p, kw);
           Tally(Recorded(t.hits, kw, h), t.count + h, t.unique + if h != 0 then 1 else 0)
  {
    assert ks[..i + 1][..i] == ks[..i];
  }

  /** Reference sum: the non-overlapping occurrences in `p` of every keyword in `ks`, counted
      once per position of the keyword in the array, so a repeated keyword counts each time. */
  function Occurrences(p: string, ks: seq<Value>, ci: bool): nat {
    if |ks| == 0 then 0
    else
      var k := ks[|ks| - 1];
      Occurrences(p, ks[..|ks| - 1], ci) + if IsKeyword(k) then CountFrom(p, Folded(k.s, ci), 0) else 0
  }

  /** Reference count: the positions of `ks` holding a keyword that occurs in `p` at least once. */
  function KeywordsHit(p: string, ks: seq<Value>, ci: bool): nat {
    if |ks| == 0 then 0
    else
      var k := ks[|ks| - 1];
      KeywordsHit(p, ks[..|ks| - 1], ci) + if IsKeyword(k) && CountFrom(p, Folded(k.s, ci), 0) > 0 then 1 else 0
  }

  /** `keywordsCount` sums the occurrences of every keyword looked at, and `keywordsUniqueCount`
      counts the keywords looked at that occur. */
  lemma {:induction false} KeywordTallyCounts(p: string, ks: seq<Value>, ci: bool)
    ensures KeywordTally(p, ks, ci).count == Occurrences(p, ks, ci)
    ensures KeywordTally(p, ks, ci).unique == KeywordsHit(p, ks, ci)
  {
    if |ks| > 0 {
      KeywordTallyCounts(p, ks[..|ks| - 1], ci);
    }
  }

  /** The tally records, for each keyword looked at other than `__proto__`, its number of
      non-overlapping occurrences; it holds no other entry; `keywordsCount` is the sum of the occurrences of every keyword
      looked at and `keywordsUniqueCount` the number of keywords looked at that occur; fewer
      keywords hit than there are hits, and none exactly when there are no hits. */
  lemma {:induction false} KeywordTallyFacts(p: string, ks: seq<Value>, ci: bool)
    ensures var t := KeywordTally(p, ks, ci);
      (forall kw :: kw in t.hits ==> kw != "" && t.hits[kw] == CountFrom(p, kw, 0))
      && (forall kw :: kw in t.hits
            <==> kw != PROTO_KEY && exists i :: 0 <= i < |ks| && IsKeyword(ks[i]) && Folded(ks[i].s, ci) == kw)
      && t.count == Occurrences(p, ks, ci)
      && t.unique == KeywordsHit(p, ks, ci)
      && t.unique <= t.count
      && (t.unique == 0 <==> t.count == 0)
  {
    KeywordTallyCounts(p, ks, ci);
    if |ks| > 0 {
      var init := ks[..|ks| - 1];
      KeywordTallyFacts(p, init, ci);
      var k := ks[|ks| - 1];
      if IsKeyword(k) {
        SplitCountsOccurrences(p, Folded(k.s, ci));
      }
      var t := KeywordTally(p, ks, ci);
      forall kw
        ensures kw in t.hits
          <==> kw != PROTO_KEY && exists i :: 0 <= i < |ks| && IsKeyword(ks[i]) && Folded(ks[i].s, ci) == kw
      {
        if kw in t.hits && !(IsKeyword(k) && Folded(k.s, ci) == kw) {
          var i :| 0 <= i < |init| && IsKeyword(init[i]) && Folded(init[i].s, ci) == kw;
          assert ks[i] == init[i];
        }
        if exists i :: 0 <= i < |ks| && IsKeyword(ks[i]) && Folded(ks[i].s, ci) == kw {
          var i :| 0 <= i < |ks| && IsKeyword(ks[i]) && Folded(ks[i].s, ci) == kw;
          if i < |init| {
            assert init[i] == ks[i];
          }
        }
      }
    }
  }

  /** A keyword counts as hit exactly when it occurs in the scored password. */
  lemma KeywordHitIff(p: string, kw: string)
    requires kw != ""
    ensures Hits(p, kw) > 0 <==> Contains(p, kw)
  {
    SplitCountZero(p, kw);
  }

  /** The score before `100 +` and the clamp: all penalties subtracted, five per keyword hit. */
  function RawScore(p: string, ks: seq<Value>, ci: bool): (r: int)
    requires |p| > 0
    ensures r <= (0 as int) - LengthPenalty(|p|) - ClassPenalty(p)
  {
    var s := Folded(p, ci);
    (0 as int) - LengthPenalty(|s|) - ClassPenalty(p) - Repetition(s) - 5 * KeywordTally(s, ks, ci).count
  }

  /** `analyze(password, keywords)` with the analyzer's `ci` flag; a keywords argument that is
      not an array is given as the empty sequence. */
  function AnalysisOf(password: Value, ks: seq<Value>, ci: bool): (a: Analysis)
    ensures !(password.Str? && password.s != "") ==> a == Zero
    ensures 0 <= a.score <= 100
  {
    if !(password.Str? && password.s != "") then Zero
    else
      var p := password.s;
      var t := KeywordTally(Folded(p, ci), ks, ci);
      Analysis(
        CountWhere(p, IsDigit), CountWhere(p, IsUpper), CountWhere(p, IsLower), CountWhere(p, IsSpecial),
        |p|, t.hits, t.count, t.unique, Clamp(100 + RawScore(p, ks, ci), 0, 100))
  }

  /** A string password's analysis, field by field. */
  lemma AnalysisOfParts(p: string, ks: seq<Value>, ci: bool)
    requires p != ""
    ensures var t := KeywordTally(Folded(p, ci), ks, ci);
      AnalysisOf(Str(p), ks, ci)
      == Analysis(CountWhere(p, IsDigit), CountWhere(p, IsUpper), CountWhere(p, IsLower),
                  CountWhere(p, IsSpecial), |p|, t.hits, t.count, t.unique,
                  Clamp(100 + RawScore(p, ks, ci), 0, 100))
  {
  }

  /** The four class counts are taken from the password as given, whatever `ci` says, and add up
      to its length. */
  lemma ClassCountsAddUp(password: Value, ks: seq<Value>, ci: bool)
    requires password.Str? && password.s != ""
    ensures var a := AnalysisOf(password, ks, ci);
      a.numbers + a.uppercaseLetters + a.lowercaseLetters + a.specialChars == a.length == |password.s|
      && a.uppercaseLetters == CountWhere(password.s, IsUpper)
      && a.uppercaseLetters == AnalysisOf(password, ks, !ci).uppercaseLetters
  {
    ClassCountsPartition(password.s);
  }

  /** Fifteen or more characters, all four classes, no character twice after folding and no
      keyword hit: the score is exactly 100. */
  lemma PerfectScore(password: Value, ks: seq<Value>, ci: bool)
    requires password.Str? && |password.s| >= 15
    requires CountWhere(password.s, IsDigit) > 0 && CountWhere(password.s, IsUpper) > 0
    requires CountWhere(password.s, IsLower) > 0 && CountWhere(password.s, IsSpecial) > 0
    requires Distinct(Folded(password.s, ci))
    requires KeywordTally(Folded(password.s, ci), ks, ci).count == 0
    ensures AnalysisOf(password, ks, ci).score == 100
  {
    NoRepetition(Folded(password.s, ci));
    assert RawScore(password.s, ks, ci) == 0;
  }

  /** A password without a repeated character has no repetition penalty. */
  lemma NoRepetition(s: string)
    requires |s| > 0 && Distinct(s)
    ensures Repetition(s) == 0
  {
    DistinctTableZero(s);
    FirstSeenKeys(s);
    ZeroTableNoPenalty(FirstSeen(s), CharTable(s), |s|);
  }

  /** Any penalty at all keeps the score below 100. */
  lemma PenaltyBelowPerfect(password: Value, ks: seq<Value>, ci: bool)
    requires password.Str? && password.s != ""
    requires KeywordTally(Folded(password.s, ci), ks, ci).count > 0 || |password.s| < 15
    ensures AnalysisOf(password, ks, ci).score < 100
  {
  }
}
