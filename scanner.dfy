/** The pure steps of `analyzer.completeAnalysis`: the score adjustment for a password found in
    the dictionary, and the handler that searches each chunk of the dictionary stream. */
module Scanner {
  import opened Common
  import opened Strings

  /** A hit costs 25 points above a score of 50 and 10 points otherwise; the score is then
      clamped to [0, 100] again. */
  function DictionaryPenalty(score: int, found: bool): (r: int)
    ensures 0 <= r <= 100
  {
    var s := if !found then score else if score > 50 then score - 25 else score - 10;
    Clamp(s, 0, 100)
  }

  /** On a score already in [0, 100]: no hit changes nothing, and a hit lowers the score exactly
      when it is above 0 (a score of 0 stays 0). */
  lemma DictionaryPenaltyEffect(score: int, found: bool)
    requires 0 <= score <= 100
    ensures !found ==> DictionaryPenalty(score, found) == score
    ensures found && score > 50 ==> DictionaryPenalty(score, found) == score - 25
    ensures found && score <= 50 ==> DictionaryPenalty(score, found) == Max(score - 10, 0)
    ensures found ==> (DictionaryPenalty(score, found) < score <==> score > 0)
  {
  }

  /** One `data` handler call on `chunk` with the closure's `buffer`: the text it searches and
      the buffer it leaves. When the chunk does not end with a line break, the part after the
      last line break is cut off into `buffer` and then put back in front of the same chunk. */
  function ChunkStep(buffer: string, chunk: string): (res: (string, string))
    ensures buffer == "" ==> res.1 == ""
  {
    var (buf, ch) :=
      if |chunk| == 0 || chunk[|chunk| - 1] != '\n' then
        var index := LastIndexOf(chunk, '\n');
        (Substr(chunk, index + 1, |chunk|), Substr(chunk, 0, index))
      else (buffer, chunk);
    if buf != "" then (buf + ch, "") else (ch, buf)
  }

  /** The text searched for one chunk, with the buffer empty as it always is. */
  function Searched(chunk: string): string {
    ChunkStep("", chunk).0
  }

  /** A chunk that ends with a line break, or that holds none, is searched as it is. */
  lemma SearchedWhole(chunk: string)
    requires (|chunk| > 0 && chunk[|chunk| - 1] == '\n') || LastIndexOf(chunk, '\n') == -1
    ensures Searched(chunk) == chunk
  {
  }

  /** Otherwise the searched text is the chunk rotated around its last line break, which is lost:
      the part after it comes first, then the part before it. */
  lemma SearchedRotated(chunk: string)
    requires |chunk| > 0 && chunk[|chunk| - 1] != '\n' && LastIndexOf(chunk, '\n') >= 0
    ensures var index := LastIndexOf(chunk, '\n');
      Searched(chunk) == chunk[index + 1..] + chunk[..index]
      && |Searched(chunk)| == |chunk| - 1
  {
  }

  /** A line that the dictionary holds, followed by its line break, is not found when a chunk
      continues after it without a final line break. */
  lemma SearchMissesLine()
    ensures Contains("abc\ndef", "abc\n")
    ensures Searched("abc\ndef") == "defabc"
    ensures !Contains(Searched("abc\ndef"), "abc\n")
  {
    var chunk := "abc\ndef";
    assert chunk[3] == '\n' && chunk[4] != '\n' && chunk[5] != '\n' && chunk[6] != '\n';
    assert LastIndexOf(chunk, '\n') == 3;
    SearchedRotated(chunk);
    assert chunk[4..] + chunk[..3] == "defabc";
    assert OccursAt(chunk, "abc\n", 0);
    ContainsIff(chunk, "abc\n");
    forall j | 0 <= j && j + 4 <= 6 ensures !OccursAt("defabc", "abc\n", j) {
      assert "defabc"[j + 3] != '\n';
    }
    ContainsIff("defabc", "abc\n");
  }

  /** The rotation can also join a cut-off line start with an earlier line: `xab\n` is not in the
      chunk, yet the searched text holds it. */
  lemma SearchInventsLine()
    ensures !Contains("b\nc\nxa", "xab\n")
    ensures Searched("b\nc\nxa") == "xab\nc"
    ensures Contains(Searched("b\nc\nxa"), "xab\n")
  {
    var chunk := "b\nc\nxa";
    assert chunk[3] == '\n' && chunk[4] != '\n' && chunk[5] != '\n';
    assert LastIndexOf(chunk, '\n') == 3;
    SearchedRotated(chunk);
    assert chunk[4..] + chunk[..3] == "xab\nc";
    forall j | 0 <= j && j + 4 <= |chunk| ensures !OccursAt(chunk, "xab\n", j) {
      assert chunk[j] != 'x';
    }
    ContainsIff(chunk, "xab\n");
    assert OccursAt("xab\nc", "xab\n", 0);
    ContainsIff("xab\nc", "xab\n");
  }

  /** Some chunk's searched text holds the needle. */
  predicate StreamFinds(chunks: seq<string>, needle: string)
    ensures needle == "" ==> (StreamFinds(chunks, needle) <==> |chunks| > 0)
  {
    assert needle == "" && |chunks| > 0 ==> Contains(Searched(chunks[0]), needle) by {
      if needle == "" && |chunks| > 0 {
        ContainsEmpty(Searched(chunks[0]));
      }
    }
    exists k :: 0 <= k < |chunks| && Contains(Searched(chunks[k]), needle)
  }

  /** The `data` handlers over the whole stream, stopping at the first hit as `stream.destroy()` does. */
  method ScanStream(chunks: seq<string>, needle: string) returns (found: bool)
    ensures found == StreamFinds(chunks, needle)
  {
    var buffer := "";
    found := false;
    var i := 0;
    while i < |chunks| && !found
      invariant 0 <= i <= |chunks|
      invariant buffer == ""
      invariant found ==> StreamFinds(chunks, needle)
      invariant !found ==> forall k :: 0 <= k < i ==> !Contains(Searched(chunks[k]), needle)
    {
      var step := ChunkStep(buffer, chunks[i]);
      buffer := step.1;
      if Contains(step.0, needle) {
        found := true;
      }
      i := i + 1;
    }
  }

  /** When every chunk ends at a line break, the stream finds exactly what a search of the
      chunks themselves finds. */
  lemma WholeLineChunks(chunks: seq<string>, needle: string)
    requires forall k :: 0 <= k < |chunks| ==> |chunks[k]| > 0 && chunks[k][|chunks[k]| - 1] == '\n'
    ensures StreamFinds(chunks, needle) <==> exists k :: 0 <= k < |chunks| && Contains(chunks[k], needle)
  {
    forall k | 0 <= k < |chunks| ensures Searched(chunks[k]) == chunks[k] {
      SearchedWhole(chunks[k]);
    }
  }
}
