# Top-K word counter and inventory store, in Dafny

This project models two independent Go exercises and proves properties of the models.

**The word counter** (`labs1/topwords.go`, package `textproc`). `topWords` splits a document into
white-space-delimited words and tallies them in a `map[string]int`. It copies the tally into a
slice of `WordCount{Word, Count}` and sorts the slice in place with `sortWordCounts`. The order is
count descending, then word ascending under Go's byte-wise string `<`. It then clamps `K` to the
number of distinct words and returns that prefix of the slice. The model is split into modules:

- `Tokenizer` (`tokenizer.dfy`): the white-space set of `bufio.ScanWords` and the function `Tokens`, which stands for the scanner.
- `GoStrings` (`gostrings.dfy`): Go's `<` on strings, written as `LexLess`. Dafny's own `<` on sequences means "proper prefix", so it does not fit.
- `TextProc` (`textproc.dfy`): the counting loop, the loop that fills an array from the map, the in-place sort and `TopWords`. There are also lemmas about the *ranking*: the full sorted list, before truncation.
- `Seqs` (`seqs.dfy`): generic facts about sequences with no repeated elements and their multisets.

The map's iteration order is unspecified in Go. The model picks the next key with `:|` (any
remaining key), so every proof holds for every order. The words are distinct map keys, so the
comparator is a strict total order on the entries. `RankingIsUnique` proves that the result is
fully determined, whatever order the map yields and although `sort.Slice` is not stable.

**The inventory store** (`labs6/webserver.go`), modelled in `Inventory` (`inventory.dfy`). The
class `Database` has one field, `items: map<string, Dollars>`. There is one method per handler:
`List`, `Price`, `Create`, `Update`, `Delete`. `List` takes no parameters and returns the
(name, price) pairs. `Price` and `Delete` take the item name. `Create` and `Update` take the item
name and the already-parsed price (`Option<Dollars>`, `None` when `strconv.ParseFloat` fails).
`Price` returns a `Status` and a price; `Create`, `Update` and `Delete` return a `Status`: `Ok`,
`NotFound` (404) or `BadRequest` (400). The contracts of the three that change the store state the
whole new store: exactly which key changed, and that nothing else did. The error order of `update` is modelled as
in the code: the price check comes before the existence check. So an unparseable or negative price
on an absent item is `BadRequest`, not `NotFound`.

Nothing in `create` checks the sign of the price (webserver.go:57-69): it stores any price that
parses, including a negative one. Only `update` rejects a negative price (webserver.go:75).
The model follows the code: `Create` accepts negative prices, and `NegativePriceAsymmetry` shows
`create` and `update` disagreeing on the same negative price.

## Model

| member | source | states |
|---|---|---|
| `GoStrings.LexLess` | labs1/topwords.go:67 | definition with no contract: Go's `<` on strings; its properties are stated by the `LexLess...` lemma rows below |
| `Tokenizer.IsSpace` | labs1/topwords.go:26 | definition with no contract: the white-space set of `bufio.ScanWords`; its use is stated by the `Tokenizer` lemma rows below |
| `Tokenizer.Tokens` | labs1/topwords.go:25-29 | definition with no contract: the words the `ScanWords` scanner yields; its properties are stated by `TokensAreWords`, `TokensKeepText`, `TokensOfJoin` and `TokensSplitAtSpace` |
| `TextProc.WordCount` | labs1/topwords.go:49-52 | datatype with no contract: the `WordCount` struct, a word and its count |
| `TextProc.RanksBefore` | labs1/topwords.go:63-70 | definition with no contract: the comparator closure passed to `sort.Slice`; its properties are stated by `RanksBeforeAsymmetric`, `RanksBeforeTotal` and `NotAfterTransitive` |
| `GoStrings.LexLessIrreflexive` | labs1/topwords.go:67 | no string is less than itself under Go's `<` |
| `GoStrings.LexLessAsymmetric` | labs1/topwords.go:67 | no two strings are each less than the other |
| `GoStrings.LexLessTransitive` | labs1/topwords.go:67 | Go's `<` on strings is transitive |
| `GoStrings.LexLessTotal` | labs1/topwords.go:67 | of two different strings, one is less than the other |
| `GoStrings.LexLessEqIsOrder` | labs1/topwords.go:67 | `<=` on strings is reflexive, total, antisymmetric and transitive |
| `Tokenizer.WordLength` | labs1/topwords.go:4 | the result is the length of the maximal run of non-space characters at the front: every character before it is not white space, and the one at it (if any) is |
| `Tokenizer.TokensAreWords` | labs1/topwords.go:25-29 | every scanned token is non-empty and contains no white-space character |
| `Tokenizer.TokensKeepText` | labs1/topwords.go:25-29 | the tokens, concatenated, are exactly the document with its white space removed |
| `Tokenizer.TokensOfJoin` | labs1/topwords.go:25-29 | splitting words joined by blanks gives back the same words (round trip) |
| `Tokenizer.TokensSplitAtSpace` | labs1/topwords.go:4 | no token spans white space: the tokens of `a + [c] + b` for a white-space `c` are the tokens of `a` followed by those of `b` |
| `TextProc.OccurrencesIsMultiplicity` | labs1/topwords.go:28-31 | the word count used throughout equals the word's multiplicity in the multiset of tokens |
| `TextProc.OccursIffCounted` | labs1/topwords.go:28-31 | a word occurs in the tokens exactly when its count is positive |
| `TextProc.CountTokens` | labs1/topwords.go:24-31 | the map's keys are exactly the distinct tokens and each value is that token's number of occurrences |
| `TextProc.CollectWordCounts` | labs1/topwords.go:34-37 | the new array has one entry per map key, in some order: every entry is a key with its value, every key appears, and no word repeats |
| `TextProc.RanksBeforeAsymmetric` | labs1/topwords.go:63-70 | the comparator never puts two entries each before the other |
| `TextProc.RanksBeforeTotal` | labs1/topwords.go:63-70 | entries with different words are always ordered one way or the other |
| `TextProc.NotAfterTransitive` | labs1/topwords.go:63-70 | "does not go after" under the comparator is transitive |
| `TextProc.AdjacentToSorted` | labs1/topwords.go:59-71 | if every neighbour pair is in order, then every pair is in order |
| `TextProc.SortedDistinctIsStrict` | labs1/topwords.go:59-71 | a sorted list with no repeated word is strictly ordered: each entry goes before every later one |
| `TextProc.SortWordCounts` | labs1/topwords.go:62-71 | after the in-place sort the array is sorted by count descending then word ascending, and it is a permutation of the original (same multiset of entries) |
| `TextProc.InsertEntry` | labs1/topwords.go:62-71 | one insertion pass: if `a[..i]` is sorted, then afterwards `a[..i + 1]` is sorted, the array is a permutation of what it was, and the entries after `a[i]` are as they were |
| `TextProc.InsertStep` | labs1/topwords.go:63-70 | swapping the moving entry with a left neighbour that the comparator puts after it keeps both sides of the gap in order |
| `TextProc.InsertDone` | labs1/topwords.go:63-70 | once the moving entry no longer goes before its left neighbour, the whole prefix is in order |
| `TextProc.SortedTallyIsRanking` | labs1/topwords.go:34-38 | sorting the collected tally yields the ranking: each distinct word once with its true count, strictly ordered |
| `TextProc.StrictlySortedUnique` | labs1/topwords.go:62-71 | two strictly sorted lists with the same elements are equal |
| `TextProc.RankingIsUnique` | labs1/topwords.go:34-43 | any two rankings of the same tokens are equal, so the result does not depend on map order or on an unstable sort |
| `TextProc.RankingLength` | labs1/topwords.go:34-37 | the ranking has one entry per distinct word |
| `TextProc.RankingCountsAllTokens` | labs1/topwords.go:28-37 | the counts in the ranking add up to the number of tokens scanned |
| `TextProc.RankingPrefixFacts` | labs1/topwords.go:40-43 | a prefix of the ranking keeps true counts, distinct words and strict order, and every word left out ranks after every word kept |
| `TextProc.TruncatedRanking` | labs1/topwords.go:40-43 | the prefix of length `min(K, length of the ranking)` has length `min(K, distinct words)`, holds only real words with true counts, and is the whole tally summing to the token count when `K` covers the vocabulary |
| `TextProc.TopWords` | labs1/topwords.go:19-44 | for `K >= 0` the result has length `min(K, distinct words)` and is a prefix of the ranking. Each entry is a non-empty space-free word with its true count. Words are distinct and strictly sorted. No omitted word ranks ahead of an included one. When `K` covers the vocabulary, every (word, count) pair is present and the counts sum to the number of tokens |
| `Inventory.ListingDescribesItems` | labs6/webserver.go:37-43 | the pairs a listing reports, read back as a map, are exactly the store |
| `Inventory.ListingsAgree` | labs6/webserver.go:37-43 | two listings of the same store hold the same multiset of (name, price) pairs, whatever the iteration order |
| `Inventory.Database.constructor` | labs6/webserver.go:31-35 | the new store maps exactly `"shoes"` to 50 and `"socks"` to 5 |
| `Inventory.Database.List` | labs6/webserver.go:37-43 | reports every (name, price) entry of the store exactly once, changes nothing |
| `Inventory.Database.Price` | labs6/webserver.go:45-55 | `Ok` with the stored price when the item is present; `NotFound` (with Go's zero value) when absent; changes nothing |
| `Inventory.Database.Create` | labs6/webserver.go:57-69 | unparseable price: `BadRequest`, store unchanged; otherwise `Ok` and the store is the old one with `item` set to the price, present or not, negative or not |
| `Inventory.Database.Update` | labs6/webserver.go:71-89 | unparseable or negative price: `BadRequest`, store unchanged, even for an absent item; valid price on an absent item: `NotFound`, unchanged; otherwise `Ok`, only that entry overwritten, key set preserved |
| `Inventory.Database.Delete` | labs6/webserver.go:91-103 | absent item: `NotFound`, store unchanged; present item: `Ok` and exactly that key removed, every other entry intact |
| `Inventory.CreateThenPrice` | labs6/webserver.go:57-69 | on the seeded store, creating an item and then asking its price gives `Ok` and the created price |
| `Inventory.NegativePriceAsymmetry` | labs6/webserver.go:57-78 | on the seeded store, `create` with price -1 succeeds and stores -1, while `update` with price -1 is `BadRequest` |
| `Inventory.UpdateScenarios` | labs6/webserver.go:71-89 | on the seeded store, updating `"socks"` to 7 is `Ok` and the price reads 7; updating `"ghost"` is `NotFound`; updating `"socks"` to -1 is `BadRequest` and the price stays 7 |
| `Inventory.DeleteScenario` | labs6/webserver.go:91-103 | on the seeded store, deleting `"socks"` is `Ok`, its price is then `NotFound`, deleting it again is `NotFound`, and `"shoes"` still costs 50 |

## Left out

- File input: opening the file, `bufio.Scanner` reading from it, `file.Close`, and the fatal `checkError`/`log.Fatal` on an open or read error are not modelled. The document is a `string` parameter.
- The scanner's 64 KiB token limit is not modelled. In Go, a longer token stops the scan with an error, and that error is fatal.
- Bytes that are not valid UTF-8 are not modelled. The document is a sequence of Unicode characters. Go decodes invalid bytes as U+FFFD, which is not white space.
- `sortWordCounts` calls `sort.Slice` (pattern-defeating quicksort). The model sorts by insertion sort instead and states the same contract: sorted and a permutation. Because the ranking is unique, the result is the same.
- Go's `int` is 32 or 64 bits wide, depending on the platform. The model's counts are unbounded integers, so a count that would overflow `int` is not described.
- `TextProc.TopWords` requires `k >= 0`: for a negative `K` the clamp only lowers `K`, and Go panics at `wordCounts[:K]` with a slice bounds error. That panic is not modelled.
- The `String()` methods of `WordCount` and `dollars`, and the `%.2f` currency formatting, are not modelled. They are only formatting.
- HTTP plumbing is not modelled: `main`, the `ServeMux`, `ListenAndServe`, reading `item` and `price` from the query string, and the response bodies written to the `ResponseWriter`. Names and parsed prices are parameters, and the status code is the returned `Status`. A missing `item` parameter arrives in Go as the empty string, which the model accepts like any other name.
- The `sync.RWMutex` is not modelled. Each handler is one atomic sequential method, so concurrent interleavings are not described.
- Floating point is not modelled. `ParseFloat(..., 32)` and the `float32` conversion are replaced by an exact `real` and an `Option` parse result. Go accepts "NaN" and "Inf" as prices; the model has no such values. Go rounds prices to 32-bit precision; the model does not.
- `Inventory.Database.List` returns the pairs as a sequence instead of printing one line per entry. Its order is unspecified, as in Go.
