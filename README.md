# password-toolbox in Dafny

This project models `password-toolbox.js`, which has three parts:

- **`analyzer`** scores how strong a password is. It counts character classes, then subtracts
  penalties for length, missing classes, repeated characters and keywords. `completeAnalysis`
  also looks the password up in a dictionary file of weak passwords.
- **`generator`** makes passwords. They are either random tokens, or a word of the wanted
  length drawn from a dictionary file, joined with a random number.
- **`hash`** holds random numbers and tokens drawn from a cryptographic byte source, and an
  iterated, salted and peppered hash with its comparison.

The program becomes deterministic in the model as follows:

- The cryptographic byte source is a finite `seq<byte>`. Every draw takes bytes from its
  front and returns the rest. Running out of bytes gives `OutOfRandomness`, the one error the
  program itself does not have.
- The digest (`crypto.createHash(algorithm).update(x).digest('hex')`) is an uninterpreted
  function `digest(algorithm, x)`. A predicate `supports(algorithm)` says which algorithms
  exist.
- A dictionary file is a `DictionaryFile`: either unreadable, or the sequence of chunks a read
  stream delivers. A whole-file read sees those chunks joined.
- JavaScript values that the code inspects with `typeof` become small datatypes:
  - `Value` is a string or something else;
  - `Number` is `NaN` or a finite real, and `undefined` counts as `NaN`;
  - `Flag` is a boolean or something else.
- A thrown exception or a rejected promise becomes an `Err` of the one `Result` type.

Modules:

| module | file | holds |
|---|---|---|
| `Common` | common.dfy | values, errors, `Result`, clamping |
| `Strings` | strings.dfy | the string built-ins the code relies on |
| `RandomSource` | random.dfy | `generateRandomNumber`, `generateRandomToken` |
| `Scorer` | scorer.dfy | the scoring rules as functions, and their lemmas |
| `Scanner` | scanner.dfy | the dictionary penalty and the stream chunk step |
| `DictionaryStore` | dictionary_cache.dfy | the dictionary settings object |
| `PasswordAnalyzer` | analyzer.dfy | `analyze` and `completeAnalysis` as methods over the class |
| `WordSampler` | word_sampler.dfy | the sampling loops of `generateHumanReadable` |
| `PasswordGenerator` | generator.dfy | `generate` and `generateHumanReadable` |
| `Hashing` | hash_engine.dfy | `createHash` and `compareHash` |

The loops and the state changes are modelled as methods. The loops are each proved equal to a
specification function: `analyze`'s counting loops, `generateRandomToken`'s array loop, the
nested `while (password === '')` loops, the hash rounds and the stream's `data` handler. The
setters, the getters and the cache updates are methods of classes whose ensures state the
result and the new fields directly. The properties are proved as lemmas about the specification functions.

Where the code differs from what its comments and documentation suggest, the model follows
the code:

- Uppercase letters are counted before the password is lowercased. So `uppercaseLetters` is
  the same with and without case-insensitivity (`Scorer.ClassCountsAddUp`).
- The `chars` table stores occurrences minus one, so a character seen once adds no penalty.
- Keyword hits are counted with `split`, which counts non-overlapping occurrences.
- The hits are stored on a plain object. Assigning a number to its `__proto__` key goes through the
  inherited setter, which ignores it, so the keyword `__proto__` is counted but never recorded
  (`Scorer.KeywordTallyFacts`).
- A dictionary hit lowers the score by 10 only down to 0, so a score of 0 stays 0.
- A dictionary match is a substring match of `password + '\n'` anywhere in the text. It is not
  a whole-line match, so `abc` is found in a file holding the line `xabc`
  (`PasswordAnalyzer.SubstringMatch`).
- The stream's per-chunk step cuts the partial last line off a chunk and prepends it to the
  same chunk. Nothing carries over to the next chunk, so the search can miss a line that is in
  the file and can find one that is not (`Scanner.SearchMissesLine`,
  `Scanner.SearchInventsLine`).
- Changing the dictionary path with the cache on stores `''`. Both cached branches then treat
  `''` as loaded content:
  - `completeAnalysis` finds nothing;
  - `generateHumanReadable` resolves to `''`.
- The line index in `generateHumanReadable` is drawn from `[0, lines]` with both ends
  included. The index one past the last line reads `undefined`, and taking its length throws
  a `TypeError` (`WordSampler.PastTheLastLine`).
- A sampled word can be the tail of a longer line, because a portion may start inside a line
  (`WordSampler.LineTail`).
- In `generateRandomNumber`, the branch for 5-byte distances assigns other variables. Such
  distances therefore use 6 bytes.
- A stored hash whose `loop` is `NaN` is a number, so `compareHash` runs zero rounds. It then
  compares the salted and peppered plain text (`Hashing.NaNLoopComparesPlainText`).
- `compareHash` throws `'Invalid algorithm'` when the two digests differ in byte length.

## Model

| member | source | states |
|---|---|---|
| Common.Clamp | password-toolbox.js:187 | the result lies in `[lo, hi]`, equals `x` inside the range and the nearer bound outside it |
| Strings.ClassCountsPartition | password-toolbox.js:131-138 | the counts of `[0-9]`, `[A-Z]`, `[a-z]` and `[^A-Za-z0-9]` add up to the length |
| Strings.ToLower | password-toolbox.js:140 | lowercasing keeps the length and folds each character on its own |
| Strings.IndexFrom | password-toolbox.js:207 | the result is -1 or a position at or after the start where the needle occurs |
| Strings.IndexFromFirst | password-toolbox.js:207 | the position found is the first occurrence, and -1 means there is none |
| Strings.ContainsIff | password-toolbox.js:207 | `indexOf(t) >= 0` holds exactly when `t` occurs at some position |
| Strings.LastIndexOf | password-toolbox.js:234 | the result is the last position holding the character, or -1 when no position holds it |
| Strings.Substr | password-toolbox.js:235-236 | `substr` is the slice when it fits and runs to the end when the length overshoots |
| Strings.SplitJoin | password-toolbox.js:404 | joining the pieces of a split with the separator gives the string back |
| Strings.SplitPieceIn | password-toolbox.js:404 | each piece stands in the string, followed by the separator unless it is the last and runs to the end |
| Strings.SplitPiecesAreFree | password-toolbox.js:404 | no piece contains the separator |
| Strings.SplitCountsOccurrences | password-toolbox.js:177 | split length minus one is the number of non-overlapping occurrences |
| Strings.SplitCountZero | password-toolbox.js:177-179 | split length minus one is 0 exactly when the keyword does not occur |
| Strings.Utf8Length | password-toolbox.js:655 | the UTF-8 byte length of `new Buffer(s)` lies between the length of `s` and four times it |
| RandomSource.DefaultPatternSymbols | password-toolbox.js:466 | the default pattern has 60 symbols and contains neither `v` nor `V` |
| RandomSource.WidthFor | password-toolbox.js:498-515 | the width is 1, 2, 3, 4 or 6 bytes, and `dec` is `256^bytes` and exceeds every allowed distance |
| RandomSource.WidthIsFewestBytes | password-toolbox.js:500-515 | 1 to 4 bytes is the fewest that cover the distance, and 6 bytes are used from 2^32 on, including the 5-byte range |
| RandomSource.BigEndian | password-toolbox.js:516 | the hex-parsed value of `n` bytes is below `256^n` |
| RandomSource.Widened | password-toolbox.js:489-491 | the upper bound is `max` when `min < max` and exactly `min + 1` otherwise |
| RandomSource.Scale | password-toolbox.js:516-519 | the scaled and clamped draw lies in `[min, max]` |
| RandomSource.ScaleUnclamped | password-toolbox.js:516-519 | the clamp never changes the value: it is `min + floor(r * (max - min + 1) / dec)` |
| RandomSource.RandomNumber | password-toolbox.js:487-521 | a result lies between `min` and the widened `max` and uses up bytes from the front of the source |
| RandomSource.RandomNumberErrors | password-toolbox.js:492-497 | it throws when the original distance exceeds 256^6-1, or otherwise when the widened `max` exceeds `MAX_SAFE_INTEGER` |
| RandomSource.RandomNumberDraw | password-toolbox.js:498-519 | a result is computed from exactly the width's bytes, read big-endian |
| RandomSource.Coin | password-toolbox.js:413 | `generateRandomNumber(0, 1)` is 1 exactly when the drawn byte is at least 128 |
| RandomSource.TokenLength | password-toolbox.js:461-464 | the length is 0 for `NaN` or a value up to 0, and `floor(length)` otherwise |
| RandomSource.PatternOf | password-toolbox.js:465-467 | the pattern is the given non-empty string, otherwise the default pattern |
| RandomSource.TokenChars | password-toolbox.js:469-473 | the joined array has one character per byte, each taken from the pattern |
| RandomSource.TokenOf | password-toolbox.js:460-474 | a token fails exactly when fewer bytes remain than its length (0 for `NaN` or a length up to 0, `floor(length)` otherwise); otherwise it has that many characters and uses exactly that many bytes from the front |
| RandomSource.TokenOfShape | password-toolbox.js:460-474 | the token has `floor(length)` characters, character `i` is `pattern[byte_i % pattern.length]`, and it fails exactly when too few bytes remain |
| RandomSource.TokenInPattern | password-toolbox.js:471 | every character of the token is in the pattern |
| RandomSource.GenerateRandomToken | password-toolbox.js:460-474 | the array loop computes the token specified by `TokenOf` |
| Scorer.Folded | password-toolbox.js:139-141 | folding under `ci` keeps the length |
| Scorer.CharTable | password-toolbox.js:155-163 | the `chars` table is empty exactly when the password is |
| Scorer.LengthPenalty | password-toolbox.js:142 | the penalty is at most 100, and 0 exactly when the length is 15 or more |
| Scorer.ClassPenalty | password-toolbox.js:143-154 | the penalty is at most 35, and 0 exactly when all four classes appear |
| Scorer.CharPenalty | password-toolbox.js:165-167 | an entry of 0 costs nothing, and an entry no larger than the length costs at most 20 points |
| Scorer.CharTableCounts | password-toolbox.js:155-163 | the table's keys are the characters of the password, each mapped to its occurrences minus one |
| Scorer.FirstSeenKeys | password-toolbox.js:164 | the enumerated keys are exactly the table's keys, each once |
| Scorer.DistinctTableZero | password-toolbox.js:158-161 | when no character repeats, every table entry is 0 |
| Scorer.ZeroTableNoPenalty | password-toolbox.js:164-168 | entries of 0 are skipped, so a table of zeros adds no penalty |
| Scorer.NoRepetition | password-toolbox.js:155-168 | a password without repeated characters gets no repetition penalty (`Repetition`, the sum of `RepetitionPenalty` over the table's keys in first-seen order) |
| Scorer.FoldKeywords | password-toolbox.js:170-176 | under `ci` each non-empty string keyword is lowercased in place, and every other entry stays as it is |
| Scorer.KeywordTally | password-toolbox.js:169-185 | `keywordsUniqueCount` is at most `keywordsCount` and at most the number of keywords |
| Scorer.Hits | password-toolbox.js:177 | `password.split(kw).length - 1` is the number of non-overlapping occurrences of `kw`, counted left to right |
| Scorer.KeywordTallyCounts | password-toolbox.js:177-183 | `keywordsCount` is the sum of the occurrence counts of every keyword looked at, a repeated keyword counting each time, and `keywordsUniqueCount` is the number of keywords looked at that occur |
| Scorer.KeywordTallyFacts | password-toolbox.js:169-185 | each recorded count is the non-overlapping occurrence count; the recorded keys are the folded non-empty keywords other than `__proto__`; `keywordsCount` and `keywordsUniqueCount` are the occurrence sum and the number of keywords hit; `keywordsUniqueCount <= keywordsCount`; both are 0 together |
| Scorer.KeywordHitIff | password-toolbox.js:177-179 | a keyword has a non-zero count exactly when it occurs in the password |
| Scorer.RawScore | password-toolbox.js:142-185 | the score before `100 +` is at most minus the length penalty and the missing-class penalty |
| Scorer.AnalysisOf | password-toolbox.js:115-189 | a non-string or empty password gives the all-zero record; every score lies in `[0, 100]` |
| Scorer.ClassCountsAddUp | password-toolbox.js:130-141 | the four class counts add up to `length`, and the uppercase count is the same whatever `ci` is |
| Scorer.PerfectScore | password-toolbox.js:142-187 | a password of 15 or more characters with all four classes, no repeated folded character and no keyword hit scores exactly 100 |
| Scorer.PenaltyBelowPerfect | password-toolbox.js:142-187 | a keyword hit or a length under 15 keeps the score below 100 |
| Scanner.DictionaryPenalty | password-toolbox.js:208-210 | the adjusted and clamped score lies in `[0, 100]` |
| Scanner.DictionaryPenaltyEffect | password-toolbox.js:208-210 | no hit leaves the score alone; a hit takes 25 from a score above 50 and otherwise 10, down to 0; a hit lowers every positive score |
| Scanner.ChunkStep | password-toolbox.js:232-241 | with no buffer coming in, none goes out: nothing carries to the next chunk |
| Scanner.SearchedWhole | password-toolbox.js:233-241 | `Searched`, the text one chunk is searched in: a chunk that ends with a line break, or holds none, is searched unchanged |
| Scanner.SearchedRotated | password-toolbox.js:233-241 | `Searched` on any other chunk: the chunk is searched with its tail moved to the front and its last line break dropped |
| Scanner.SearchMissesLine | password-toolbox.js:232-245 | a line in the chunk `abc\ndef` is not found |
| Scanner.SearchInventsLine | password-toolbox.js:232-245 | the chunk `b\nc\nxa` yields a line `xab` that it does not hold |
| Scanner.StreamFinds | password-toolbox.js:229-245 | only the boundary case: the empty needle is found exactly when the stream delivers at least one chunk (a needle built by `Needle` is never empty; `ScanStream`, `WholeLineChunks`, `SearchMissesLine` and `SearchInventsLine` state what the search finds) |
| Scanner.ScanStream | password-toolbox.js:229-254 | the `data` handlers find the needle exactly when some rearranged chunk contains it, stopping at the first hit |
| Scanner.WholeLineChunks | password-toolbox.js:233-242 | when every chunk ends with a line break, the search is a plain search of the chunks |
| DictionaryStore.NormalisePath | password-toolbox.js:37-39 | the empty path becomes `null`, and every other path is kept |
| DictionaryStore.DictionaryCache.constructor | password-toolbox.js:9-19 | no dictionary, nothing cached, caching off, and the invariant holds |
| DictionaryStore.DictionaryCache.SetDictionaryPath | password-toolbox.js:33-45 | a non-string throws and changes nothing; the same path changes nothing; a new path is stored and resets the cache to `null` (cache off) or `''` (cache on); the invariant is kept (the generator's copy is 286-298) |
| DictionaryStore.DictionaryCache.GetDictionaryPath | password-toolbox.js:52-54 | the path returned is never empty, and it is the stored one |
| DictionaryStore.DictionaryCache.SetDictionaryCache | password-toolbox.js:61-69 | `true` turns caching on and keeps the content; anything else turns it off and clears the content (the generator's copy is 314-323) |
| DictionaryStore.DictionaryCache.GetDictionaryCache | password-toolbox.js:76-78 | the result is whether caching is on |
| DictionaryStore.DictionaryCache.InvalidateDictionaryCache | password-toolbox.js:83-86 | the content is cleared, and the path and the cache flag stay (the generator's copy is 336-339) |
| DictionaryStore.DictionaryCache.Store | password-toolbox.js:218 | the content read is cached, and the path, the flag and the invariant stay |
| PasswordAnalyzer.Needle | password-toolbox.js:203-207 | the needle ends with a line break; a non-string value, which has no `toLowerCase` in the model, throws under `ci` |
| PasswordAnalyzer.CompleteOf | password-toolbox.js:197-259 | `completeAnalysis` fails only with a `TypeError` or a rejection; it changes nothing but the score; the cached content afterwards is unchanged, or the file just read with the cache on |
| PasswordAnalyzer.CompleteKeepsAnalysis | password-toolbox.js:197-259 | the complete analysis changes only the score, never raises it and keeps it in `[0, 100]` |
| PasswordAnalyzer.CompleteBranches | password-toolbox.js:200-228 | no dictionary returns the analysis; a non-string under `ci` throws; an unreadable file rejects; only the read branch with the cache on stores content, and only non-empty content |
| PasswordAnalyzer.EmptyCacheIsLoaded | password-toolbox.js:206-211 | with `''` cached, the analysis comes back unchanged whatever the file holds |
| PasswordAnalyzer.SubstringMatch | password-toolbox.js:207 | the password `abc` is found in a dictionary holding the line `xabc` |
| PasswordAnalyzer.CharsTable | password-toolbox.js:155-163 | the loop builds the occurrences-minus-one table and the order in which keys are first seen |
| PasswordAnalyzer.RepetitionLoop | password-toolbox.js:164-168 | the loop over the table's keys subtracts exactly `Repetition`, defined by `RepetitionPenalty` as the sum of each key's `CharPenalty` in first-seen order |
| PasswordAnalyzer.KeywordLoop | password-toolbox.js:169-185 | the loop computes the keyword tally of the original keywords and lowercases the caller's array in place under `ci` |
| PasswordAnalyzer.BaseScore | password-toolbox.js:142-154 | the score before repetitions and keywords is minus the length penalty and the missing-class penalty |
| PasswordAnalyzer.ScorePassword | password-toolbox.js:130-188 | the accumulated score and counts of a non-empty password are those of `AnalysisOf`, and the keywords are folded in place |
| PasswordAnalyzer.Analyzer.constructor | password-toolbox.js:9-24 | case-insensitive, with no dictionary, no cached content and caching off |
| PasswordAnalyzer.Analyzer.SetCaseInsensitive | password-toolbox.js:93-96 | everything but `false` turns case-insensitivity on |
| PasswordAnalyzer.Analyzer.GetCaseInsensitive | password-toolbox.js:103-105 | the result is the case-insensitivity setting |
| PasswordAnalyzer.Analyzer.Analyze | password-toolbox.js:115-189 | the result is `AnalysisOf` the password and the original keywords; the keywords are folded only for a non-empty string password |
| PasswordAnalyzer.Analyzer.CompleteAnalysis | password-toolbox.js:197-259 | the result and the new cached content are those of `CompleteOf`; the path and the flag stay; the invariant is kept |
| WordSampler.PortionOf | password-toolbox.js:397-400 | the portion is no longer than the text |
| WordSampler.PickLine | password-toolbox.js:405-411 | a picked line has the wanted length, and the draws use up bytes of the source |
| WordSampler.SampleWord | password-toolbox.js:395-412 | a sample uses up bytes from the front of the source |
| WordSampler.PortionInText | password-toolbox.js:396-400 | a non-empty portion stands in the text, and ends with a line break or is followed by one |
| WordSampler.LineInText | password-toolbox.js:404-408 | every non-empty line of a portion is followed by a line break in the text |
| WordSampler.PickLineIndex | password-toolbox.js:405-408 | a picked word is one of the lines |
| WordSampler.SampledWord | password-toolbox.js:395-412 | a sampled word is non-empty, has the wanted length and no line break, and stands in the text followed by a line break |
| WordSampler.PastTheLastLine | password-toolbox.js:406-407 | a one-line portion and a high byte draw the index past the last line, which throws |
| WordSampler.LineTail | password-toolbox.js:395-412 | a portion starting inside `cat` yields the word `at` out of `cat\ndog\n` |
| WordSampler.PickWord | password-toolbox.js:395-412 | the nested `while (password === '')` loops compute the sample specified by `SampleWord` |
| PasswordGenerator.GenerateIsToken | password-toolbox.js:349-354 | `generate` is `generateRandomToken` under the same guard, with `floor(length)` characters from the pattern |
| PasswordGenerator.Generate | password-toolbox.js:349-354 | `generate` gives the empty string for `NaN` or a length up to 0, and otherwise `floor(length)` characters taken from the front of the byte source |
| PasswordGenerator.ChunkSizeOf | password-toolbox.js:388 | the chunk size is 4096 when missing or up to 1, otherwise the given size capped at `MAX_SAFE_INTEGER` |
| PasswordGenerator.TotalLength | password-toolbox.js:376-379 | the length is raised to `numLength` when that is larger and not 0, and otherwise kept |
| PasswordGenerator.WordLength | password-toolbox.js:381-384 | word and digits together make up the length, and the word length is 0 when the digits alone cover it |
| PasswordGenerator.DigitsPart | password-toolbox.js:376-380 | the numeric part fails exactly when fewer than `floor(numLength)` bytes remain, and otherwise has `floor(numLength)` characters, one byte each |
| PasswordGenerator.FromText | password-toolbox.js:394-413 | a result of the sampling loops and the coin leaves fewer bytes of the source than there were |
| PasswordGenerator.HumanReadableOf | password-toolbox.js:365-447 | an invalid length or no dictionary rejects; the cached content afterwards is unchanged, or the text just read, cut to `MAX_SAFE_INTEGER` characters, with the cache on |
| PasswordGenerator.HumanReadableOutcomes | password-toolbox.js:365-447 | an invalid length or no dictionary rejects; outside the cached branch every failure rejects, unless the byte source ran out; only the read branch with the cache on stores the text it read, and never `''` |
| PasswordGenerator.DigitsOnly | password-toolbox.js:376-383 | when the digits cover the whole length, the result is the digits alone and the cache is untouched |
| PasswordGenerator.EmptyCacheGivesEmpty | password-toolbox.js:389-393 | with `''` cached, the result is `''` |
| PasswordGenerator.FromTextParts | password-toolbox.js:394-413 | the result is word plus digits or digits plus word, and the word is a line ending in the text |
| PasswordGenerator.DigitsPartShape | password-toolbox.js:376-380 | the numeric part has `floor(numLength)` characters, all digits |
| PasswordGenerator.HumanReadableParts | password-toolbox.js:365-447 | a result is a word joined with `floor(numLength)` digits, of the adjusted total length; the word is empty exactly when the digits cover the length, and otherwise is free of line breaks and stands in the dictionary text followed by a line break |
| PasswordGenerator.Generator.constructor | password-toolbox.js:267-277 | no dictionary, nothing cached and caching off |
| PasswordGenerator.Generator.GenerateHumanReadable | password-toolbox.js:365-447 | the result and the new cached content are those of `HumanReadableOf`; the path and the flag stay; the invariant is kept |
| PasswordGenerator.DrawWord | password-toolbox.js:394-413 | the sampling and the join compute the result specified by `FromText` |
| Hashing.OptionsOf | password-toolbox.js:564-566 | a missing or non-object `options` is read as an object with every field unset |
| Hashing.AlgorithmOf | password-toolbox.js:567 | the algorithm is the given non-empty string, otherwise `sha512` |
| Hashing.MinLoop | password-toolbox.js:568 | the lower loop bound is at least 1 |
| Hashing.MaxLoop | password-toolbox.js:569-572 | the upper loop bound is at least the lower one |
| Hashing.TokenSize | password-toolbox.js:574-578 | the salt and pepper lengths lie in `[1, 256]` and default to 32 |
| Hashing.HashLoop | password-toolbox.js:587-594 | the rounds fail exactly when there is a round and the algorithm is unknown |
| Hashing.Iterate | password-toolbox.js:586-590 | zero rounds leave the text as it is, and after one round or more the result is a digest output |
| Hashing.LoopDraw | password-toolbox.js:573 | the round count is at least 1, and a random count lies between the bounds |
| Hashing.LoopCount | password-toolbox.js:647 | a missing loop or one up to 1 gives one round, and `NaN` gives none |
| Hashing.CreateHashOf | password-toolbox.js:560-602 | an invalid password throws; a record has at least one round and the normalised algorithm, which is supported |
| Hashing.CompareHashOf | password-toolbox.js:639-660 | the only error is `'Invalid algorithm'`, and `true` needs a valid password and a stored hash object |
| Hashing.CreatedRecord | password-toolbox.js:560-602 | an invalid password throws; otherwise the algorithm is supported, the loop is at least 1 (1 when `randomLoop` is `false`, else within the bounds), salt and pepper are empty or of the normalised length over the default pattern, and the digest is `loop` rounds over salt, password and pepper |
| Hashing.Seasoning | password-toolbox.js:579-585 | a salt or pepper switched off by `false` is `''` and uses no bytes; otherwise it fails exactly when fewer bytes remain than the normalised length, and has that length |
| Hashing.SeasoningShape | password-toolbox.js:579-585 | a salt or pepper is empty when switched off, and otherwise has the normalised length and default-pattern characters |
| Hashing.CompareOutcomes | password-toolbox.js:639-660 | an invalid password or stored digest gives `false`; the only error is `'Invalid algorithm'`; `true` means the stored digest is the recomputed one |
| Hashing.NaNLoopComparesPlainText | password-toolbox.js:647-655 | a `NaN` loop makes `compareHash` accept the salted and peppered plain text |
| Hashing.CompareCreated | password-toolbox.js:560-660 | `compareHash(p, createHash(p, o))` is `true` for every password and options that hash, assuming that the digest function never returns `''` (a hex digest never does) |
| Hashing.IterateInjective | password-toolbox.js:652-654 | for an injective digest, equal rounds mean equal inputs |
| Hashing.WrongPasswordFails | password-toolbox.js:560-660 | for an injective digest, any other password does not compare `true` against a created hash |
| Hashing.HashRounds | password-toolbox.js:587-594 | the `for` loop computes the rounds specified by `HashLoop` |
| Hashing.CreateHash | password-toolbox.js:560-602 | the method computes the record specified by `CreateHashOf` |
| Hashing.CompareHash | password-toolbox.js:639-660 | the method computes the verdict specified by `CompareHashOf` |

## Left out

- Reading the dictionary file from disk, the read stream's events and the Promise wiring are
  not modelled: they are I/O. Each operation takes the file as a `DictionaryFile` value and
  returns a `Result`, and `reject()` becomes `Err(Rejected)`.
- `console.log` is left out.
- `crypto.randomBytes` is a finite byte sequence. Running out of it (`OutOfRandomness`) is
  model-only. The generator's branch that reads the file passes it on instead of rejecting.
- `crypto.createHash` is an uninterpreted `digest` with a `supports` predicate.
- `timingSafeEqual` becomes plain equality plus the length-mismatch error. Timing safety
  cannot be stated.
- Buffer byte equality becomes string equality, and the byte length is computed as UTF-8. Lone
  surrogates are not modelled.
- `createSimpleHash` and `compareSimpleHash` are not modelled: they are thin wrappers around
  the library digest.
- `toLowerCase` folds only A-Z. Unicode case mappings that change the length are not modelled.
- Text is a sequence of Unicode scalar values, where JavaScript's `length`, `charAt`, `substr`,
  `lastIndexOf`, string indexing and the regular expressions without the `u` flag count
  UTF-16 code units. A character outside the Basic Multilingual Plane counts once here and
  twice in the source. The members below agree with the source only on text without such
  characters.
- Scorer.AnalysisOf: `length`, `specialChars`, the length penalty and the repetition table
  count such a character once, where the source counts two code units. For example
  `Abcdefghij1!` followed by U+1F600 scores 87 here and 94 in the source.
- PasswordAnalyzer.Analyzer.Analyze: it computes `AnalysisOf`, with the same difference.
- RandomSource.TokenChars: a pattern holding such a character yields it whole here. The
  source picks single code units, which can be lone surrogates.
- WordSampler.PortionOf: offsets and the chunk size count such a character once.
- WordSampler.PickLine: the comparison with the wanted length counts such a character once.
  A line holding only U+1F600 matches a wanted length of 1 here and of 2 in the source.
- PasswordAnalyzer.Needle: a non-string password is modelled as a value without a
  `toLowerCase` method, so under `ci` it throws. A `String` object, or any object with its
  own `toLowerCase`, is lowercased by the source without throwing, and the search goes
  ahead. Such values are not modelled.
- Floating point is not modelled:
  - `generateRandomNumber` is idealised over integers as `min + floor(r * (max - min + 1) / dec)`;
  - `Infinity` is not a value of `Number`;
  - `chunkSize` is an optional integer, so a fractional chunk size is not modelled.
- JavaScript's coercion of strings or objects to numbers in the option fields is not modelled.
  A number option is either `NaN`/absent or a finite real.
- `for (letter in chars)` enumerates keys in insertion order in the model. JavaScript lists
  integer-like keys (digits) first. The penalty is a sum, so the order does not change the
  score.
- Chaining (`return this`) is not modelled: the setters change the object and return nothing,
  or an `Outcome`.
- Races on the shared settings objects between overlapping calls are not modelled:
  concurrency is out of scope.
- demo.js is not part of this model: it only calls the public API and prints the results.
