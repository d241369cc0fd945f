# Character n-gram model of password_entropy, in Dafny

This project models the character n-gram language model in
`src/password_entropy/password_entropy.go`. The model is a set of frequency
tables, one for each n-gram width from 1 to N. Training slides windows of every
width over whitespace-normalised lines and counts them. The model set is saved
as flat (size, n-gram, count) triples and read back. It then scores new lines
with a longest-suffix backoff estimator.

Modules:

- `Text` (text.dfy): `sliding` is `Windows` (a function) and `Sliding` (the
  loop proved equal to it). `processLine` is `ProcessLine`: each run of Go's
  `\s` (tab, newline, form feed, carriage return, space) becomes one space.
- `NGramTables` (tables.dfy): the value-level model. A `Table` is a model's
  size, counts and total; a `TableSet` maps size keys to tables. The module
  defines what `Update` (`Updated`), `Train` (`Trained`), `NewModels`
  (`Initial`), `NgramSize` (`MaxKey`), `Dump` (`DumpSet`) and `Read`
  (`ReadOne`, `ReadTriples`) do to values. `Sum` and `Consistent` state the
  invariant total == sum(counts).
- `Estimator` (estimator.dfy): `LogProb` as `Backoff`. The result says which
  numbers the log-probability is computed from:
  - `NegInf` for an empty model set or an empty key;
  - `Found(count, total)`, meaning log2(count) − log2(total), with found == true;
  - `Unseen(total)`, meaning log2(1) − log2(total), with found == false.
- `Scoring` (scoring.dfy): what `Predict` writes for one line (`ScoreLine`).
  It is either the two-field degenerate result, or the estimates of every
  window of the largest size.
- `Models` (models.dfy): the code as it runs, except that `LogProb` and
  `Predict` use the corrected rune-length lookup described under "Findings".
  - `CharacterNGramModel` is a class whose `Update` changes `counts` and
    `total` in place.
  - The model set is a `map<int, CharacterNGramModel>`. `NewModels` allocates
    each model fresh, so callers may train or read into the set it returns.
  - `NewModels`, `NgramSize`, `Train`, `LogProb`, `Dump`, `Read` and `Predict`
    are methods with loops, each proved against the value-level functions.
  - `TrainRun` and `PredictRun` are the two call sequences of `main`:
    NewModels, Train, Dump; and NewModels, Read, Predict.

Counts and totals are integers. Training only ever adds 1.0, and `Read` stores
whatever count it parses. So integers cover every whole count and total below
2^53, where float64 still holds them exactly.

When no suffix matches and no model of any suffix length exists, the fallback
total stays 0. The result is `Unseen(0)`, which is log2(1) − log2(0). In IEEE
arithmetic log2(0) is −∞, so this value is +∞, not −∞.

For n ≥ 1, a set shaped like `NewModels(n)` has a size-1 model. There, an unmatched
key uses the size-1 total. With only a size-2 model, the key "zz" still visits
that model. So it falls back to the size-2 total (`AbabEstimates`), not to −∞.

## Model

| member | source | states |
|---|---|---|
| `Text.Windows` | src/password_entropy/password_entropy.go:188-193 | exactly max(0, \|s\| − k + 1) windows (\|s\| + 1 when k = 0), window i being s[i..i+k] |
| `Text.Sliding` | src/password_entropy/password_entropy.go:188-193 | the stride-1 loop returns exactly `Windows(s, length)` |
| `Text.ProcessLine` | src/password_entropy/password_entropy.go:141-145 | output has no tab, newline, form feed or carriage return and no two adjacent spaces; it is never longer than the input and is empty only for empty input |
| `Text.ProcessLineIdempotent` | src/password_entropy/password_entropy.go:141-145 | normalising twice equals normalising once |
| `Text.ProcessLineKeepsNonSpace` | src/password_entropy/password_entropy.go:141-145 | every non-whitespace character survives, in order |
| `Text.ProcessLineAppend` | src/password_entropy/password_entropy.go:141-145 | character by character, a run of whitespace writes one space at its first character and nothing after; other characters are copied; this determines the function |
| `NGramTables.Updated` | src/password_entropy/password_entropy.go:19-24 | Update keeps the model's size and adds the window count max(0, \|line\| − size + 1) to Total |
| `NGramTables.UpdatedSpec` | src/password_entropy/password_entropy.go:19-24 | each n-gram's count grows by the number of windows equal to it; other counts stay unchanged; the key set grows by the windows; total == sum(counts) is preserved |
| `NGramTables.Trained` | src/password_entropy/password_entropy.go:149-163 | training keeps the set of size keys and every model's size |
| `NGramTables.TrainedConsistent` | src/password_entropy/password_entropy.go:149-163 | training keeps total == sum(counts) in every model |
| `NGramTables.UpdatedAllAppend` | src/password_entropy/password_entropy.go:149-163 | training is additive: corpus a then corpus b gives the same tables as a + b |
| `NGramTables.Initial` | src/password_entropy/password_entropy.go:131-139 | NewModels(n) has keys exactly 1..n (none for n < 1), each with Size == key, Total == 0 and total == sum(counts) |
| `NGramTables.InitialShape` | src/password_entropy/password_entropy.go:131-139 | the largest key of NewModels(n) is n for n ≥ 1 and 0 otherwise, so NgramSize returns the size the set was built with |
| `NGramTables.MaxKey` | src/password_entropy/password_entropy.go:80-87 | the result is ≥ 0, bounds every key, and is 0 or a key |
| `NGramTables.DumpSet` | src/password_entropy/password_entropy.go:71-78 | the dumped triples hold one triple per size and n-gram, never two for the same pair |
| `NGramTables.ReadOne` | src/password_entropy/password_entropy.go:120-126 | reading one line keeps the size keys and leaves every model of another size alone; a line of an unknown size changes nothing |
| `NGramTables.ReadOneSpec` | src/password_entropy/password_entropy.go:120-126 | a line of a known size keeps the model's size, sets that n-gram's count to the line's count, adds the n-gram to the key set, adds the count to Total, and leaves every other count alone; total − sum(counts) grows by the overwritten count |
| `NGramTables.ReadTriplesKeys` | src/password_entropy/password_entropy.go:111-128 | `ReadTriples` (Read by value) keeps the size keys and every model's size, and leaves alone a model that no line names |
| `NGramTables.DumpReadRoundTrip` | src/password_entropy/password_entropy.go:111-128 | reading Dump's triples (each size and n-gram once, any order) into NewModels(n) reproduces every count and total of a consistent set with keys 1..n |
| `NGramTables.TrainedDumpReadBack` | src/password_entropy/password_entropy.go:223-262 | the model file a training run writes, read back into NewModels(n), gives exactly the trained tables |
| `NGramTables.RepeatedReadBreaksConsistency` | src/password_entropy/password_entropy.go:120-124 | example: reading the line (1, "a", 2) twice keeps count 2 but makes Total 4, so total == sum(counts) fails (any repeated non-zero count drifts the same way) |
| `Estimator.Backoff` | src/password_entropy/password_entropy.go:38-68 | LogProb with the corrected rune-length lookup: the −∞ sentinel comes exactly from an empty set or an empty key |
| `Estimator.BackoffAsWritten` | src/password_entropy/password_entropy.go:38-68 | LogProb as written, with the byte-length lookup: the −∞ sentinel comes exactly from an empty set or an empty key |
| `Estimator.BackoffFoundIff` | src/password_entropy/password_entropy.go:38-68 | with the corrected rune-length lookup, found holds iff the set is non-empty and some suffix key[i:] is a key of the model of size \|key[i:]\| (both directions) |
| `Estimator.BackoffLongestSuffix` | src/password_entropy/password_entropy.go:48-59 | with the corrected lookup, when the suffix at j matches and no longer one does, the result is Found(count, Total) of that suffix's model |
| `Estimator.BackoffFallback` | src/password_entropy/password_entropy.go:43-65 | with the corrected lookup and no match, the result is Unseen(Total) of the smallest-size model visited |
| `Estimator.BackoffNoModel` | src/password_entropy/password_entropy.go:43-65 | with the corrected lookup and no model of any suffix length, the fallback total stays 0 |
| `Estimator.BackoffFallbackContiguous` | src/password_entropy/password_entropy.go:60-65 | with the corrected lookup, in a set with keys 1..n (n ≥ 1), an unmatched key falls back to the size-1 total |
| `Estimator.AbabWindows` | src/password_entropy/password_entropy.go:188-193 | the width-2 windows of "abab" are "ab", "ba", "ab" |
| `Estimator.AbabTrained` | src/password_entropy/password_entropy.go:19-24 | training a size-2 model on "abab" gives counts {ab: 2, ba: 1} and total 3 |
| `Estimator.AbabEstimates` | src/password_entropy/password_entropy.go:48-65 | against that model alone, "ab" gives Found(2, 3) and "zz" gives Unseen(3) |
| `Estimator.AsWrittenMissesMultiByteKey` | src/password_entropy/password_entropy.go:50-51 | the byte-length lookup misses a 1-rune, 2-byte key held by the size-1 model, which the rune lookup finds |
| `Estimator.AsWrittenAgreesOnAscii` | src/password_entropy/password_entropy.go:50-51 | on ASCII keys the byte-length lookup and the rune lookup give the same result |
| `Scoring.ScoreLine` | src/password_entropy/password_entropy.go:93-105 | the text is the normalised line; the result is degenerate iff the text is shorter than NgramSize; otherwise there is one estimate per window of length NgramSize, the estimate of window i being `Backoff` (the corrected lookup) of text[i..i+N] |
| `Scoring.ScoreLineOrder` | src/password_entropy/password_entropy.go:93-96 | for a set built by NewModels(n), a line is degenerate iff its normalised text is shorter than n; otherwise it has \|text\| − n + 1 windows |
| `Scoring.ScoreLineWithoutModels` | src/password_entropy/password_entropy.go:93-100 | with no models, no line is degenerate; each gives \|text\| + 1 empty windows, each −∞ |
| `Models.CharacterNGramModel.constructor` | src/password_entropy/password_entropy.go:134-136 | a new model has the given size, no counts and total 0 |
| `Models.CharacterNGramModel.Update` | src/password_entropy/password_entropy.go:19-24 | the in-place loop leaves the model equal to `Updated` of its old value |
| `Models.NewModels` | src/password_entropy/password_entropy.go:131-139 | the models are freshly allocated and pairwise distinct, and the set's value is `Initial(n)` |
| `Models.NgramSize` | src/password_entropy/password_entropy.go:80-87 | the max-fold returns a value ≥ 0 that bounds every key and is 0 or a key |
| `Models.UpdateEach` | src/password_entropy/password_entropy.go:158-160 | one line is fed to every model, in any order, and only those models change |
| `Models.Train` | src/password_entropy/password_entropy.go:149-163 | returns 0 for an empty set and otherwise the number of lines; the new value is `Trained` of the old one |
| `Models.LogProb` | src/password_entropy/password_entropy.go:38-68 | the suffix loop with early return yields exactly `Backoff` of the set's value, with the corrected rune-length lookup (the byte-length lookup of line 51 is `BackoffAsWritten`) |
| `Models.Dump` | src/password_entropy/password_entropy.go:71-78 | outputs exactly the triples of every model, each (size, n-gram) once |
| `Models.ReadTriple` | src/password_entropy/password_entropy.go:114-126 | one model-file line changes the set to `ReadOne` of its old value |
| `Models.Read` | src/password_entropy/password_entropy.go:111-128 | the new value is `ReadTriples` of the old one and the triples |
| `Models.LogProbs` | src/password_entropy/password_entropy.go:99-103 | one estimate per window, each equal to `Backoff` (corrected lookup) of that window |
| `Models.PredictLine` | src/password_entropy/password_entropy.go:93-106 | the result for one line equals `ScoreLine` of the set's value and the line |
| `Models.Predict` | src/password_entropy/password_entropy.go:89-108 | one result per input line, each equal to `ScoreLine` of that line (corrected lookup) |
| `Models.TrainRun` | src/password_entropy/password_entropy.go:202-237 | the train branch of main (NewModels at line 210, then Train and Dump) outputs exactly the triples of `Trained(Initial(n), corpus)`, each (size, n-gram) once |
| `Models.PredictRun` | src/password_entropy/password_entropy.go:240-263 | the predict branch of main (NewModels at line 210, then Read and Predict) scores every line against `ReadTriples(Initial(n), file)` |

## Findings

| source | as written | input that shows it | evidently intended | confidence | as-written member | corrected member |
|---|---|---|---|---|---|---|
| src/password_entropy/password_entropy.go:51 | `models[len(key)]` picks each suffix's model by its length in UTF-8 bytes, but `Update` fills each model with windows of that many runes | a size-1 model trained on "é" (count 1, total 1) and the key "é": the lookup asks for a size-2 model, finds none, and returns not found with fallback total 0 | pick the model by the suffix's length in runes, and return Found(1, 1) | high (not executed) | `Estimator.AsWrittenMissesMultiByteKey` | `Estimator.BackoffLongestSuffix` |

`BackoffAsWritten` is the lookup as written. `Backoff` is the corrected lookup.
`Models.LogProb` and `Models.Predict` use the corrected lookup. On ASCII keys
the two agree (`AsWrittenAgreesOnAscii`).

## Left out

- The command-line flags of `main`, its error messages, opening and closing
  files, and `bufio.Scanner` reading are I/O plumbing. Only the two call
  sequences of `main` are modelled (`TrainRun`, `PredictRun`). Corpus, input
  and model file are given here as a sequence of lines or of already parsed
  triples. Whether `Train` leaves the input stream unread when the set is
  empty is not modelled. Scanner limits, such as its maximum line length, are
  not modelled either.
- Text formats. The `%v`/`%f` rendering in `Dump`, `Predict` and `Read` is not
  modelled, and neither is the `fmt.Sscanf` parsing of model lines.
  - `Read` works on parsed (size, n-gram, count) triples. `Sscanf` keeps the
    fields it parsed before a failure and leaves the rest at zero. Since `%s`
    stops at a space, the dumped line `3\ta b\t1.000000` is read as
    (3, "a", 0), and the size-2 n-grams " a" and "a " are both read as
    (2, "a", 1), so they collide and Total drifts from the sum of the counts.
    Every corpus line with a space yields such n-grams.
  - `%s` stops at whitespace, so an n-gram containing a space does not survive
    the text format. The round trip holds at the triple level only.
- Invalid UTF-8. Lines are modelled as already decoded rune sequences
  (`string`). Go's `[]rune(line)` turns each invalid byte into U+FFFD, so the
  tables would hold U+FFFD while `Predict` echoes the raw bytes; a Dafny
  `string` cannot hold those bytes, so this difference is not modelled.
- `Dump` returns a sequence of triples. Go's map iteration order is unspecified,
  so its contract fixes the set of triples, not their order.
- Floating point. Counts and totals are integers, so fractional counts read
  from a file are not modelled. NaN and ±Inf counts, which `%f` accepts, are
  not modelled either. Nor is the float64 rounding of counts and totals at or
  above 2^53. `log2` and the sum and average in `Predict` are
  not computed. A `LineScore` carries the estimates they are computed from.
  Because `log2` is not modelled, there is no claim that a higher count gives a
  higher log-probability.
- `Models.Train`, `Models.Read`, `Models.ReadTriple`, `Models.UpdateEach`:
  they require pairwise distinct model objects (`Distinct`), as `NewModels`
  produces. A hand-built map in which two sizes share one model is not
  modelled.
- `Count`, `log_prob` and `byEntropyDesc` are unused helpers. No operation of
  the model calls them.
- `src/gist_version/gist_version.go` is not part of this model. It is a
  separate ranking tool with floating-point entropy and sorting.
