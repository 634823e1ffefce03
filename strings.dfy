/** The JavaScript string operations the toolbox relies on: the ASCII part of `toLowerCase`,
    regular-expression class counts, `indexOf`, `lastIndexOf`, `substr`, `split` and the
    UTF-8 length that `new Buffer(string)` gives. */
module Strings {
  import opened Common

  predicate IsDigit(c: char) { '0' <= c <= '9' }
  predicate IsUpper(c: char) { 'A' <= c <= 'Z' }
  predicate IsLower(c: char) { 'a' <= c <= 'z' }
  /** The class `[^A-Za-z0-9]`. */
  predicate IsSpecial(c: char) { !IsDigit(c) && !IsUpper(c) && !IsLower(c) }

  /** The number of matches of a one-character global regular expression. */
  function CountWhere(s: string, p: char -> bool): nat {
    if |s| == 0 then 0 else (if p(s[0]) then 1 else 0) + CountWhere(s[1..], p)
  }

  /** Every character falls in exactly one of the four classes, so the counts add up to the length. */
  lemma {:induction false} ClassCountsPartition(s: string)
    ensures CountWhere(s, IsDigit) + CountWhere(s, IsUpper) + CountWhere(s, IsLower)
            + CountWhere(s, IsSpecial) == |s|
  {
    if |s| > 0 {
      ClassCountsPartition(s[1..]);
    }
  }

  function LowerChar(c: char): char {
    if IsUpper(c) then (c as int + 32) as char else c
  }

  /** `toLowerCase` restricted to ASCII: it folds A-Z and leaves every other character alone. */
  function ToLower(s: string): (r: string)
    ensures |r| == |s|
    ensures forall i :: 0 <= i < |s| ==> r[i] == LowerChar(s[i])
  {
    seq(|s|, i requires 0 <= i < |s| => LowerChar(s[i]))
  }

  predicate OccursAt(s: string, t: string, i: int) {
    0 <= i && i + |t| <= |s| && s[i..i + |t|] == t
  }

  /** The first position at or after `i` where `t` occurs, or -1. */
  function IndexFrom(s: string, t: string, i: nat): (r: int)
    ensures r == -1 || (i <= r && OccursAt(s, t, r))
    decreases |s| - i
  {
    if i + |t| > |s| then -1
    else if OccursAt(s, t, i) then i
    else IndexFrom(s, t, i + 1)
  }

  /** IndexFrom finds the leftmost occurrence at or after `i`, and answers -1 only when there is none. */
  lemma {:induction false} IndexFromFirst(s: string, t: string, i: nat)
    ensures IndexFrom(s, t, i) >= 0 ==> forall j :: i <= j < IndexFrom(s, t, i) ==> !OccursAt(s, t, j)
    ensures IndexFrom(s, t, i) == -1 ==> forall j :: i <= j ==> !OccursAt(s, t, j)
    decreases |s| - i
  {
    if i + |t| <= |s| && !OccursAt(s, t, i) {
      IndexFromFirst(s, t, i + 1);
    }
  }

  /** `s.indexOf(t)`: the first position where `t` occurs, or -1. */
  function IndexOf(s: string, t: string): (r: int)
    ensures r == -1 || (0 <= r && r + |t| <= |s|)
  {
    IndexFrom(s, t, 0)
  }

  /** `s.indexOf(t) >= 0`: `t` occurs somewhere in `s`. */
  predicate Contains(s: string, t: string) {
    IndexOf(s, t) >= 0
  }

  /** Every text contains the empty text. */
  lemma ContainsEmpty(s: string)
    ensures Contains(s, "")
  {
    assert OccursAt(s, "", 0);
  }

  /** Contains is exactly "occurs at some position". */
  lemma ContainsIff(s: string, t: string)
    ensures Contains(s, t) <==> exists j :: OccursAt(s, t, j)
  {
    IndexFromFirst(s, t, 0);
  }

  /** `s.lastIndexOf(c)` for a one-character argument. */
  function LastIndexOf(s: string, c: char): (r: int)
    ensures -1 <= r < |s|
    ensures r >= 0 ==> s[r] == c && forall j :: r < j < |s| ==> s[j] != c
    ensures r == -1 ==> forall j :: 0 <= j < |s| ==> s[j] != c
  {
    if |s| == 0 then -1
    else if s[|s| - 1] == c then |s| - 1
    else LastIndexOf(s[..|s| - 1], c)
  }

  /** `s.substr(start, length)`: a negative start counts from the end, the length is cut to what is there. */
  function Substr(s: string, start: int, length: int): (r: string)
    ensures |r| <= |s|
    ensures 0 <= start <= |s| && 0 <= length && start + length <= |s| ==> r == s[start..start + length]
    ensures 0 <= start <= |s| && start + length > |s| ==> r == s[start..]
  {
    var from := if start < 0 then Max(|s| + start, 0) else Min(start, |s|);
    var len := Min(Max(length, 0), |s| - from);
    s[from..from + len]
  }

  /** The pieces of `s[i..]` between the leftmost non-overlapping matches of `sep`. */
  function SplitFrom(s: string, sep: string, i: nat): (r: seq<string>)
    requires sep != "" && i <= |s|
    ensures |r| >= 1
    decreases |s| - i
  {
    var k := IndexFrom(s, sep, i);
    if k < 0 then [s[i..]] else [s[i..k]] + SplitFrom(s, sep, k + |sep|)
  }

  /** `s.split(sep)` for a non-empty separator. */
  function Split(s: string, sep: string): (r: seq<string>)
    requires sep != ""
    ensures |r| >= 1
  {
    SplitFrom(s, sep, 0)
  }

  /** `parts.join(sep)`. */
  function Join(parts: seq<string>, sep: string): string {
    if |parts| == 0 then ""
    else if |parts| == 1 then parts[0]
    else parts[0] + sep + Join(parts[1..], sep)
  }

  /** Splitting loses nothing: joining the pieces with the separator gives the string back. */
  lemma {:induction false} SplitJoinFrom(s: string, sep: string, i: nat)
    requires sep != "" && i <= |s|
    ensures Join(SplitFrom(s, sep, i), sep) == s[i..]
    decreases |s| - i
  {
    var k := IndexFrom(s, sep, i);
    if k >= 0 {
      var rest := SplitFrom(s, sep, k + |sep|);
      SplitJoinFrom(s, sep, k + |sep|);
      JoinCons(s[i..k], rest, sep);
      assert s[k..k + |sep|] == sep;
      assert s[i..] == s[i..k] + s[k..k + |sep|] + s[k + |sep|..];
    }
  }

  lemma JoinCons(a: string, rest: seq<string>, sep: string)
    requires |rest| >= 1
    ensures Join([a] + rest, sep) == a + sep + Join(rest, sep)
  {
    assert ([a] + rest)[1..] == rest;
  }

  lemma SplitJoin(s: string, sep: string)
    requires sep != ""
    ensures Join(Split(s, sep), sep) == s
  {
    SplitJoinFrom(s, sep, 0);
  }

  /** `piece` stands in `s` at `pos`; it is followed by `sep` unless it runs to the end of `s`. */
  predicate PieceAt(s: string, sep: string, piece: string, pos: int, last: bool) {
    0 <= pos && pos + |piece| <= |s| && s[pos..pos + |piece|] == piece
    && (!last ==> OccursAt(s, sep, pos + |piece|))
    && (last ==> pos + |piece| == |s|)
  }

  /** No match of `sep` fits inside `s[a..b]`. */
  predicate NoMatchWithin(s: string, sep: string, a: int, b: int) {
    forall m :: a <= m && m + |sep| <= b ==> !OccursAt(s, sep, m)
  }

  /** The pieces `r` tile `s[pos..]`: each is free of matches and all but the last are followed by `sep`. */
  predicate Tiles(s: string, sep: string, r: seq<string>, pos: int)
    decreases |r|
  {
    |r| >= 1 && PieceAt(s, sep, r[0], pos, |r| == 1) && NoMatchWithin(s, sep, pos, pos + |r[0]|)
    && (|r| > 1 ==> Tiles(s, sep, r[1..], pos + |r[0]| + |sep|))
  }

  /** The first piece of `s[i..]` starts at `i` and holds no match. */
  lemma SplitFromHead(s: string, sep: string, i: nat)
    requires sep != "" && i <= |s|
    ensures var r := SplitFrom(s, sep, i);
      PieceAt(s, sep, r[0], i, |r| == 1) && NoMatchWithin(s, sep, i, i + |r[0]|)
  {
    var k := IndexFrom(s, sep, i);
    IndexFromFirst(s, sep, i);
    if k >= 0 {
      assert SplitFrom(s, sep, i)[0] == s[i..k];
    } else {
      assert SplitFrom(s, sep, i) == [s[i..]];
    }
  }

  /** After the first piece and the separator, the split carries on from there. */
  lemma SplitFromTail(s: string, sep: string, i: nat)
    requires sep != "" && i <= |s| && |SplitFrom(s, sep, i)| > 1
    ensures var r := SplitFrom(s, sep, i); var next := i + |r[0]| + |sep|;
      next <= |s| && r[1..] == SplitFrom(s, sep, next)
  {
    var k := IndexFrom(s, sep, i);
    var r := SplitFrom(s, sep, i);
    assert k >= 0;
    assert r == [s[i..k]] + SplitFrom(s, sep, k + |sep|);
  }

  /** The pieces of SplitFrom tile the rest of the string. */
  lemma {:induction false} SplitFromTiles(s: string, sep: string, i: nat)
    requires sep != "" && i <= |s|
    ensures Tiles(s, sep, SplitFrom(s, sep, i), i)
    decreases |s| - i
  {
    var r := SplitFrom(s, sep, i);
    SplitFromHead(s, sep, i);
    if |r| > 1 {
      SplitFromTail(s, sep, i);
      var next := i + |r[0]| + |sep|;
      SplitFromTiles(s, sep, next);
    }
  }

  /** Any piece of a tiling stands at some position at or after the tiling's start. */
  lemma {:induction false} TilesPiece(s: string, sep: string, r: seq<string>, pos: int, j: int) returns (p: int)
    requires Tiles(s, sep, r, pos) && 0 <= j < |r|
    ensures pos <= p && PieceAt(s, sep, r[j], p, j == |r| - 1) && NoMatchWithin(s, sep, p, p + |r[j]|)
    decreases j
  {
    if j == 0 {
      p := pos;
    } else {
      assert r[j] == r[1..][j - 1];
      p := TilesPiece(s, sep, r[1..], pos + |r[0]| + |sep|, j - 1);
    }
  }

  /** Each piece is a stretch of `s` in which no match fits, followed by `sep` unless it is the last. */
  lemma SplitFromPieces(s: string, sep: string, i: nat, j: int) returns (pos: int)
    requires sep != "" && i <= |s| && 0 <= j < |SplitFrom(s, sep, i)|
    ensures var r := SplitFrom(s, sep, i);
      i <= pos && PieceAt(s, sep, r[j], pos, j == |r| - 1) && NoMatchWithin(s, sep, pos, pos + |r[j]|)
  {
    SplitFromTiles(s, sep, i);
    pos := TilesPiece(s, sep, SplitFrom(s, sep, i), i, j);
  }

  /** A piece of a split stands in the string, followed by the separator unless it is the last piece. */
  lemma SplitPieceIn(s: string, sep: string, j: int) returns (pos: int)
    requires sep != "" && 0 <= j < |Split(s, sep)|
    ensures PieceAt(s, sep, Split(s, sep)[j], pos, j == |Split(s, sep)| - 1)
  {
    pos := SplitFromPieces(s, sep, 0, j);
  }

  /** No piece of a split contains the separator. */
  lemma SplitPiecesAreFree(s: string, sep: string, j: int)
    requires sep != "" && 0 <= j < |Split(s, sep)|
    ensures !Contains(Split(s, sep)[j], sep)
  {
    var piece := Split(s, sep)[j];
    var pos := SplitFromPieces(s, sep, 0, j);
    forall m | OccursAt(piece, sep, m) ensures OccursAt(s, sep, pos + m) {
      OccursInside(s, sep, pos, piece, m);
    }
    ContainsIff(piece, sep);
  }

  lemma OccursInside(s: string, t: string, pos: int, piece: string, m: int)
    requires 0 <= pos && pos + |piece| <= |s| && s[pos..pos + |piece|] == piece
    requires OccursAt(piece, t, m)
    ensures OccursAt(s, t, pos + m)
  {
    forall q | 0 <= q < |t| ensures s[pos + m..pos + m + |t|][q] == t[q] {
      assert t[q] == piece[m + q];
    }
  }

  /** Reference count of the non-overlapping occurrences of `t` in `s[i..]`, scanning left to right. */
  function CountFrom(s: string, t: string, i: nat): nat
    requires t != ""
    decreases |s| - i
  {
    if i + |t| > |s| then 0
    else if OccursAt(s, t, i) then 1 + CountFrom(s, t, i + |t|)
    else CountFrom(s, t, i + 1)
  }

  /** The scan skips a stretch in which no occurrence starts. */
  lemma {:induction false} CountSkips(s: string, t: string, i: nat, k: nat)
    requires t != "" && i <= k
    requires forall j :: i <= j < k ==> !OccursAt(s, t, j)
    ensures CountFrom(s, t, i) == CountFrom(s, t, k)
    decreases k - i
  {
    if i < k {
      assert !OccursAt(s, t, i);
      CountSkips(s, t, i + 1, k);
    }
  }

  /** No occurrence at or after `i` means a count of zero. */
  lemma {:induction false} CountNone(s: string, t: string, i: nat)
    requires t != ""
    requires forall j :: i <= j ==> !OccursAt(s, t, j)
    ensures CountFrom(s, t, i) == 0
    decreases |s| - i
  {
    if i + |t| <= |s| {
      assert !OccursAt(s, t, i);
      CountNone(s, t, i + 1);
    }
  }

  /** Splitting produces one more piece than there are non-overlapping occurrences. */
  lemma {:induction false} SplitFromCounts(s: string, t: string, i: nat)
    requires t != "" && i <= |s|
    ensures |SplitFrom(s, t, i)| - 1 == CountFrom(s, t, i)
    decreases |s| - i
  {
    var k := IndexFrom(s, t, i);
    IndexFromFirst(s, t, i);
    if k < 0 {
      CountNone(s, t, i);
    } else {
      CountSkips(s, t, i, k);
      SplitFromCounts(s, t, k + |t|);
    }
  }

  /** `s.split(t).length - 1` is exactly the number of non-overlapping occurrences of `t`. */
  lemma SplitCountsOccurrences(s: string, t: string)
    requires t != ""
    ensures |Split(s, t)| - 1 == CountFrom(s, t, 0)
  {
    SplitFromCounts(s, t, 0);
  }

  /** The count is zero exactly when `t` does not occur. */
  lemma SplitCountZero(s: string, t: string)
    requires t != ""
    ensures |Split(s, t)| - 1 == 0 <==> !Contains(s, t)
  {
    IndexFromFirst(s, t, 0);
  }

  function Utf8Width(c: char): nat {
    if c as int < 0x80 then 1 else if c as int < 0x800 then 2 else if c as int < 0x10000 then 3 else 4
  }

  /** The byte length of `new Buffer(s)`, which encodes `s` as UTF-8. */
  function Utf8Length(s: string): (n: nat)
    ensures |s| <= n <= 4 * |s|
  {
    if |s| == 0 then 0 else Utf8Width(s[0]) + Utf8Length(s[1..])
  }
}
