/** The sampling loops of `generator.generateHumanReadable`: a random portion of the dictionary
    text is cut to its last line break and split into lines, and random lines are drawn until
    one has the wanted length. Every draw reads bytes from the front of the byte source. */
module WordSampler {
  import opened Common
  import opened Strings
  import opened RandomSource

  /** `dictionary.substr(offset, chunkSize)`, cut before its last line break unless it already
      ends with one. */
  function PortionOf(d: string, offset: int, chunk: int): (portion: string)
    ensures |portion| <= |d|
  {
    var p := Substr(d, offset, chunk);
    if |p| == 0 || p[|p| - 1] != '\n' then Substr(p, 0, LastIndexOf(p, '\n')) else p
  }

  /** The inner loop: draw a line index in `[0, |lines|]` until a line of the wanted length comes
      up. The upper bound is inclusive, so the index `|lines|` reads past the last line, and
      taking the length of that `undefined` throws. */
  function PickLine(lines: seq<string>, length: real, src: seq<byte>): (res: Result<(string, seq<byte>)>)
    ensures res.Ok? ==> IsSuffix(res.value.1, src) && |res.value.1| < |src|
    ensures res.Ok? ==> |res.value.0| as real == length
    decreases |src|
  {
    match RandomNumber(0, |lines|, src)
    case Err(e) => Err(e)
    case Ok((idx, rest)) =>
      if idx >= |lines| then Err(TypeError)
      else if |lines[idx]| as real == length then Ok((lines[idx], rest))
      else
        var res := PickLine(lines, length, rest);
        assert res.Ok? ==> IsSuffix(res.value.1, src) by {
          if res.Ok? {
            SuffixTrans(res.value.1, rest, src);
          }
        }
        res
  }

  /** The outer loop: draw an offset into the text, retry on an empty portion, then pick a line;
      a word that is still empty (possible only for a wanted length of 0) starts over. */
  function SampleWord(d: string, chunk: int, length: real, src: seq<byte>): (res: Result<(string, seq<byte>)>)
    ensures res.Ok? ==> IsSuffix(res.value.1, src) && |res.value.1| < |src|
    decreases |src|
  {
    var draw := RandomNumber(0, |d| - chunk, src);
    if draw.Err? then Err(draw.error)
    else
      var rest := draw.value.1;
      var portion := PortionOf(d, draw.value.0, chunk);
      if portion == "" then
        var res := SampleWord(d, chunk, length, rest);
        assert res.Ok? ==> IsSuffix(res.value.1, src) by {
          if res.Ok? {
            SuffixTrans(res.value.1, rest, src);
          }
        }
        res
      else
        var pick := PickLine(Split(portion, "\n"), length, rest);
        if pick.Err? then Err(pick.error)
        else if pick.value.0 != "" then
          assert IsSuffix(pick.value.1, src) by {
            SuffixTrans(pick.value.1, rest, src);
          }
          pick
        else
          var res := SampleWord(d, chunk, length, pick.value.1);
          assert res.Ok? ==> IsSuffix(res.value.1, src) by {
            if res.Ok? {
              SuffixTrans(res.value.1, pick.value.1, rest);
              SuffixTrans(res.value.1, rest, src);
            }
          }
          res
  }

  lemma SuffixTrans(a: seq<byte>, b: seq<byte>, c: seq<byte>)
    requires IsSuffix(a, b) && IsSuffix(b, c)
    ensures IsSuffix(a, c)
  {
    assert c[|c| - |b|..][|b| - |a|..] == c[|c| - |a|..];
  }

  /** `portion` stands in `d` at `at`, and it either ends with a line break or is followed by one. */
  predicate PortionAt(d: string, portion: string, at: int) {
    0 <= at && at + |portion| <= |d| && d[at..at + |portion|] == portion && portion != ""
    && (portion[|portion| - 1] == '\n' || (at + |portion| < |d| && d[at + |portion|] == '\n'))
  }

  /** Where a non-empty portion stands in the text. */
  lemma PortionInText(d: string, offset: int, chunk: int) returns (at: int)
    requires PortionOf(d, offset, chunk) != ""
    ensures PortionAt(d, PortionOf(d, offset, chunk), at)
  {
    var p := Substr(d, offset, chunk);
    var from := if offset < 0 then Max(|d| + offset, 0) else Min(offset, |d|);
    var len := Min(Max(chunk, 0), |d| - from);
    assert p == d[from..from + len];
    at := from;
    if |p| == 0 || p[|p| - 1] != '\n' {
      var cut := LastIndexOf(p, '\n');
      assert cut >= 0;
      assert PortionOf(d, offset, chunk) == p[..cut];
      assert d[from + cut] == p[cut] == '\n';
    }
  }

  /** A non-empty piece of a split at line breaks is followed by a line break, or ends the text
      when the text does not end with one. */
  lemma PieceEnd(portion: string, j: int) returns (pos: int)
    requires 0 <= j < |Split(portion, "\n")| && Split(portion, "\n")[j] != ""
    ensures var w := Split(portion, "\n")[j];
      0 <= pos && pos + |w| <= |portion| && portion[pos..pos + |w|] == w
      && ((pos + |w| < |portion| && portion[pos + |w|] == '\n')
          || (pos + |w| == |portion| && portion[|portion| - 1] != '\n'))
  {
    var lines := Split(portion, "\n");
    var w := lines[j];
    pos := SplitPieceIn(portion, "\n", j);
    if j == |lines| - 1 {
      SplitPiecesAreFree(portion, "\n", j);
      ContainsIff(w, "\n");
      assert !OccursAt(w, "\n", |w| - 1);
      assert w[|w| - 1] == portion[pos..pos + |w|][|w| - 1];
    } else {
      assert OccursAt(portion, "\n", pos + |w|);
      assert portion[pos + |w|] == portion[pos + |w|..pos + |w| + 1][0];
    }
  }

  /** A piece of the portion that is followed by a line break inside it, or that ends a portion
      the text continues with a line break, is followed by a line break in the text. */
  lemma FollowedInText(d: string, portion: string, a: int, w: string, pos: int)
    requires PortionAt(d, portion, a)
    requires 0 <= pos && pos + |w| <= |portion| && portion[pos..pos + |w|] == w
    requires (pos + |w| < |portion| && portion[pos + |w|] == '\n')
             || (pos + |w| == |portion| && portion[|portion| - 1] != '\n')
    ensures OccursAt(d, w + "\n", a + pos)
  {
    forall i | 0 <= i < |w| ensures d[a + pos + i] == w[i] {
      assert w[i] == portion[pos + i] == d[a..a + |portion|][pos + i];
    }
    assert d[a + pos + |w|] == '\n' by {
      if pos + |w| < |portion| {
        assert portion[pos + |w|] == d[a..a + |portion|][pos + |w|];
      }
    }
    assert d[a + pos..a + pos + |w| + 1] == w + "\n";
  }

  /** Every non-empty line of a portion is followed by a line break in the text: it is a whole
      line of the dictionary, or the end of one when the portion starts inside a line. */
  lemma LineInText(d: string, portion: string, a: int, j: int) returns (at: int)
    requires PortionAt(d, portion, a)
    requires 0 <= j < |Split(portion, "\n")| && Split(portion, "\n")[j] != ""
    ensures OccursAt(d, Split(portion, "\n")[j] + "\n", at)
  {
    var pos := PieceEnd(portion, j);
    FollowedInText(d, portion, a, Split(portion, "\n")[j], pos);
    at := a + pos;
  }

  /** A picked word is one of the lines. */
  lemma {:induction false} PickLineIndex(lines: seq<string>, length: real, src: seq<byte>) returns (idx: int)
    requires PickLine(lines, length, src).Ok?
    ensures 0 <= idx < |lines| && lines[idx] == PickLine(lines, length, src).value.0
    decreases |src|
  {
    var draw := RandomNumber(0, |lines|, src).value;
    if |lines[draw.0]| as real == length {
      idx := draw.0;
    } else {
      idx := PickLineIndex(lines, length, draw.1);
    }
  }

  /** What a sampled word is: a non-empty text of the wanted length without a line break, that
      stands in the dictionary text followed by a line break. */
  lemma {:induction false} SampledWord(d: string, chunk: int, length: real, src: seq<byte>)
    requires SampleWord(d, chunk, length, src).Ok?
    ensures var w := SampleWord(d, chunk, length, src).value.0;
      w != "" && |w| as real == length && !Contains(w, "\n") && Contains(d, w + "\n")
    decreases |src|
  {
    var w := SampleWord(d, chunk, length, src).value.0;
    var draw := RandomNumber(0, |d| - chunk, src).value;
    var portion := PortionOf(d, draw.0, chunk);
    if portion == "" {
      SampledWord(d, chunk, length, draw.1);
    } else {
      var lines := Split(portion, "\n");
      var pick := PickLine(lines, length, draw.1).value;
      if pick.0 == "" {
        SampledWord(d, chunk, length, pick.1);
      } else {
        var j := PickLineIndex(lines, length, draw.1);
        SplitPiecesAreFree(portion, "\n", j);
        var a := PortionInText(d, draw.0, chunk);
        var at := LineInText(d, portion, a, j);
        ContainsIff(d, w + "\n");
      }
    }
  }

  /** The line index may come out one past the last line: a portion with a single line and a
      draw from the upper half of the byte values throws. */
  lemma PastTheLastLine()
    ensures PickLine(["at"], 2.0, [200]) == Err(TypeError)
  {
    Coin([200]);
  }

  lemma CatPortion()
    ensures PortionOf("cat\ndog\n", 1, 4) == "at"
  {
    var p := Substr("cat\ndog\n", 1, 4);
    assert p == "at\nd";
    assert p[2] == '\n' && p[3] != '\n';
    assert LastIndexOf(p, '\n') == 2;
  }

  lemma AtLines()
    ensures Split("at", "\n") == ["at"]
  {
    assert "at"[0..1][0] == 'a' && "at"[1..2][0] == 't';
    assert IndexFrom("at", "\n", 0) == -1;
  }

  /** A word can be the end of a longer line: with the portion starting inside `cat`, the word
      of two letters drawn from `cat\ndog\n` is `at`. */
  lemma LineTail()
    ensures SampleWord("cat\ndog\n", 4, 2.0, [60, 0]) == Ok(("at", []))
  {
    assert RandomNumber(0, 4, [60, 0]) == Ok((1, [0])) by {
      assert [60, 0][..1] == [60] && [60][..0] == [];
    }
    CatPortion();
    AtLines();
    Coin([0]);
  }

  /** Both loops as the generator runs them, reading each draw from `rest`. */
  method PickWord(d: string, chunk: int, length: real, src: seq<byte>) returns (res: Result<(string, seq<byte>)>)
    ensures res == SampleWord(d, chunk, length, src)
  {
    var password := "";
    var rest := src;
    while password == ""
      invariant password == "" ==> SampleWord(d, chunk, length, src) == SampleWord(d, chunk, length, rest)
      invariant password != "" ==> SampleWord(d, chunk, length, src) == Ok((password, rest))
      decreases |rest|
    {
      var draw := RandomNumber(0, |d| - chunk, rest);
      if draw.Err? {
        return Err(draw.error);
      }
      ghost var outer := rest;
      rest := draw.value.1;
      var portion := Substr(d, draw.value.0, chunk);
      if |portion| == 0 || portion[|portion| - 1] != '\n' {
        portion := Substr(portion, 0, LastIndexOf(portion, '\n'));
      }
      assert portion == PortionOf(d, draw.value.0, chunk);
      if portion == "" {
        continue;
      }
      var lines := Split(portion, "\n");
      ghost var start := rest;
      while password == ""
        invariant |rest| <= |start|
        invariant password == "" ==> PickLine(lines, length, start) == PickLine(lines, length, rest)
        invariant password != "" ==> PickLine(lines, length, start) == Ok((password, rest))
        decreases |rest|
      {
        var pick := RandomNumber(0, |lines|, rest);
        if pick.Err? {
          return Err(pick.error);
        }
        var idx := pick.value.0;
        rest := pick.value.1;
        if idx == |lines| {
          return Err(TypeError);
        }
        var buffer := lines[idx];
        if |buffer| as real == length {
          password := buffer;
          break;
        }
      }
    }
    res := Ok((password, rest));
  }
}
