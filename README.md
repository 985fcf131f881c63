# SearchCommander core, modelled in Dafny

SearchCommander indexes the text files and PDFs under a root folder and answers
free-text queries with the paths of the ten best-matching documents. This
project models its core in Dafny and proves properties of the model:

- **Tokenizer** (`tokenizer.dfy`): the `File::read` pipeline. The text is split
  on Unicode whitespace. A word is kept only when every character is
  alphanumeric, and a kept word is lowercased.
- **TermCounts** (`term_counts.dfy`): the term-count table that `File::count` and
  `Count::in_files_count` build with one `entry(w) += 1` per word. It is
  specified by the fold `Tally`. The lemmas show that the keys are the distinct
  words, that each value is the number of occurrences, and that the values sum
  to the number of words. They also show that the table does not depend on the
  order of the words, which stands in for the parallel iteration.
- **FileIndex** (`files.dfy`): `File::new` and `Files::new` over an abstract
  directory walk. `Files::new` collects every file's pairs into a `HashMap`, so
  the `dictionary` keeps, for each word, its count in the last file that holds
  it.
- **Counts** (`counts.dfy`): `Count::count_overall` and `Count::in_files_count`
  as loops. They are proved against `Tally(AllWords(files))` and
  `InFileTables(files)`. The lemmas show that the corpus table is the per-path
  sum of the per-file tables, and that both tables are independent of file
  order. The single-slot JSON cache of `Count::new` and `impl Drop for Count`
  is modelled as a `CountStore` object. Either JSON file may be missing or
  unreadable. `Count::new` fails when `root.json` is unreadable, and on a hit
  when `counts.json` is unreadable; a miss never opens `counts.json`. On a
  first run `root.json` does not exist yet, so `Count::new` fails for every
  root.
- **FilesCache** (`files_cache.dfy`): `CacheMap` as a class over a `Disk`
  object. The folder of serialized `Files` blobs is named
  `<files_cache>\<n>.bin`. The abstract state `CacheState` comes with the
  invariant `CacheValid`: the folder holds exactly `0.bin` to `(n-1).bin`,
  every root maps to one of them holding a `Files`, and no two roots share a
  blob. It holds for an empty mapping over an empty folder, and `add_files`
  and every write of the mapping file outside the folder (`build`,
  `to_binary`, `drop`) are proved to keep it. A mapping file stored inside the
  cache folder would be counted as a blob and break the numbering.
- **Ranking** (`search.dfy`): `Search::search`. Each query word adds
  `count / in_dictionary` to every path holding it, and a path seen for the
  first time gets its first contribution twice. The scored paths are sorted in
  descending order by an in-place sort on an array, and the first ten are kept.

## Model

| member | source | states |
|---|---|---|
| Tokenizer.SplitWhitespace | src/files.rs:94-95 | every word yielded by the split is non-empty and contains no whitespace |
| Tokenizer.SplitJoin | src/files.rs:94-95 | splitting whitespace-free words joined with single spaces gives back exactly those words |
| Tokenizer.Normalize | src/files.rs:96-103 | a word is kept iff all its characters are alphanumeric; the kept form is the word lowercased character by character, so it has the same length, stays alphanumeric and is lower case |
| Tokenizer.FilterTerms | src/files.rs:96-104 | the filter yields no more terms than words, and each one is an index term |
| Tokenizer.Tokenize | src/files.rs:94-104 | every term `read` yields is a non-empty, whitespace-free, alphanumeric, lower-case word |
| Tokenizer.TermCharacters | src/files.rs:98-100 | every character of a term is a lower-case ASCII letter or a digit |
| Tokenizer.TokenizeAppend | src/files.rs:94-104 | tokenizing text split at a whitespace character gives the terms of each side, concatenated in order |
| Tokenizer.DroppedWhole | src/files.rs:98-101 | a word with a non-alphanumeric character contributes no term at all, not even a part of the word |
| Tokenizer.KeptLowered | src/files.rs:98-100 | an alphanumeric word contributes exactly its lowercase form, in its place |
| Tokenizer.BlankHasNoTerms | src/files.rs:94-104 | text made only of whitespace yields no words and no terms |
| TermCounts.TallyCounts | src/files.rs:44-58 | the table's keys are the distinct words, and each value is that word's number of occurrences |
| TermCounts.TallyGet | src/files.rs:52 | looking up any word (missing words count as zero) gives its number of occurrences |
| TermCounts.TallyOrderIndependent | src/files.rs:46-53 | any order of the increments, such as one from the parallel iteration, gives the same table |
| TermCounts.TallyTotal | src/files.rs:44-58 | the values of the table add up to the number of words counted |
| TermCounts.CountWords | src/counts.rs:113-120 | the counting loop leaves exactly the table `Tally` of its words |
| FileIndex.NewFile | src/files.rs:31-58 | the new file keeps its path; its table is the count `Tally` of the terms of its text: its keys are the terms of its text, each counted by its occurrences, and each is an index term |
| FileIndex.DictionaryLastWins | src/files.rs:149-153 | a word is in the dictionary iff some file has it, and its value is that word's count in the last file that has it |
| FileIndex.DictionaryIsNotASum | src/files.rs:149-153 | two files counting "cat" 2 and 1 give dictionary value 1, not 3 |
| FileIndex.NewFiles | src/files.rs:132-156 | the build succeeds iff every walk entry is readable; on success the files are one counted `File` per regular file in walk order plus their dictionary; each failure names its cause |
| Counts.CountOverall | src/counts.rs:83-103 | the corpus table equals the count of every word of every file |
| Counts.InFilesCount | src/counts.rs:105-131 | the per-file tables are each file's own count, stored under its path |
| Counts.InFileKeys | src/counts.rs:122 | the per-file tables are keyed by exactly the file paths |
| Counts.InFileValues | src/counts.rs:111-122 | with distinct paths, each path's table counts that file's words |
| Counts.OverallIsSumOfInFile | src/counts.rs:83-131 | for distinct paths, each corpus count is the sum over paths of the per-file counts |
| Counts.OverallTotal | src/counts.rs:83-103 | the corpus counts add up to the total number of words |
| Counts.CorpusOrderIndependent | src/counts.rs:87-98 | any order of visiting the files gives the same corpus table, whatever the paths |
| Counts.FilesOrderIndependent | src/counts.rs:109-122 | for distinct paths, any order of visiting the files gives the same per-file tables |
| Counts.NewCount | src/counts.rs:56-81 | an unreadable `root.json` fails; a differing stored root rebuilds both tables from the files; an equal root returns the `Count` saved in `counts.json`, or fails when that file is unreadable; a valid store always yields a consistent `Count` for the asked root |
| Counts.FirstRun | src/counts.rs:56-62 | with neither JSON file present, `Count::new` fails on `root.json` |
| Counts.Drop | src/counts.rs:31-52 | an unreadable `root.json` fails and changes nothing; otherwise both files are rewritten with the dropped `Count` and its root exactly when the stored root differs |
| Counts.DroppedKeepsValid | src/counts.rs:31-52 | once `root.json` exists, a drop leaves the dropped root stored; dropping a consistent `Count` keeps a valid store valid |
| Counts.DropThenNew | src/counts.rs:31-81 | a drop followed by `Count::new` for the same root never rebuilds: without `root.json` it fails; otherwise it returns the dropped `Count`, or the older saved one when the root was already stored |
| FilesCache.HandleInjective | src/files_cache.rs:76-81 | different indices give different blob paths in the same folder |
| FilesCache.Added | src/files_cache.rs:69-89 | a cached root changes nothing; a new root gets the handle numbered by the folder's file count, and that handle gets its `Files`; every other mapping is kept |
| FilesCache.Load | src/files_cache.rs:95 | loading succeeds exactly when the handle names a stored `Files`, and then returns it |
| FilesCache.EmptyValid | src/files_cache.rs:53-58 | a mapping with no roots over an empty cache folder is valid |
| FilesCache.OutsideWriteKeepsValid | src/files_cache.rs:53-68 | writing a file outside the cache folder keeps a valid cache valid |
| FilesCache.AddedKeepsValid | src/files_cache.rs:69-89 | adding keeps the cache valid; a new root's handle is used by no other root, and the folder grows by exactly one blob |
| FilesCache.SuccessiveAdds | src/files_cache.rs:69-121 | two successive adds of new roots receive handles `n` and `n+1`, which differ |
| FilesCache.HitAfterAdd | src/files_cache.rs:69-105 | after a root is added, fetching it loads exactly the `Files` that was stored |
| FilesCache.ValidHitLoads | src/files_cache.rs:93-95 | in a valid cache a hit never meets a corrupt blob |
| FilesCache.CacheMap.Build | src/files_cache.rs:53-58 | an empty mapping with the given paths, and an empty file created at `path`; over an empty cache folder, with `path` outside it, the new cache is valid |
| FilesCache.CacheMap.New | src/files_cache.rs:31-51 | with no file at `path`, an empty mapping is built and the file created; otherwise the disk is untouched and the stored mapping is restored, or deserializing fails |
| FilesCache.CacheMap.ToBinary | src/files_cache.rs:60-68 | the mapping's three fields are written to the given path and nothing else changes; a write outside the cache folder keeps the cache valid |
| FilesCache.CacheMap.Drop | src/files_cache.rs:21-27 | dropping writes the mapping to its own path, which keeps the cache valid when that path lies outside the cache folder |
| FilesCache.CacheMap.GetCacheIndex | src/files_cache.rs:106-121 | the counter equals the number of files under the cache folder |
| FilesCache.CacheMap.AddFiles | src/files_cache.rs:69-89 | the new state is `Added` of the old one, so `CacheValid` is kept |
| FilesCache.CacheMap.GetFiles | src/files_cache.rs:91-105 | a known root loads its blob and changes nothing; an unknown root builds `Files` from the walk, adds it and returns it; a failed build changes nothing |
| Ranking.ScoresKeys | src/search.rs:20-33 | exactly the paths holding at least one query word get a score |
| Ranking.ScoresDoubleFirst | src/search.rs:29-31 | each score is the sum of the query words' ratios plus the first matching word's ratio once more |
| Ranking.BlankQueryScoresNothing | src/search.rs:20 | a query made only of whitespace scores no path |
| Ranking.DoubledExample | src/search.rs:29-31 | for one word counted 2 and 1 in two files with corpus count 3, the scores are 4/3 and 2/3 |
| Ranking.AddWordScores | src/search.rs:23-32 | the inner loop gives every path holding the word its ratio, twice for a path new to the map, and leaves other scores alone |
| Ranking.Accumulate | src/search.rs:18-33 | the accumulated scores equal the in-order fold `Scores` over the query words |
| Ranking.SortDescending | src/search.rs:37 | the vector ends in non-increasing score order and is a permutation of what it held |
| Ranking.Collect | src/search.rs:35 | the vector holds exactly one entry per scored path, with its score |
| Ranking.PermutationKeepsEntries | src/search.rs:35-37 | reordering the collected vector keeps one entry per scored path |
| Ranking.TopPrefix | src/search.rs:37-42 | the first `m` of a descending listing are distinct scored paths, best first, and no path left out scores higher |
| Ranking.TopTen | src/search.rs:35-42 | at most ten distinct scored paths are returned, in non-increasing score order, and no path left out scores higher than a returned one |
| Ranking.Search | src/search.rs:16-43 | the same top-ten guarantee, for the scores of the whitespace-split query |

## Left out

- `src/main.rs` (the command-line loop) is not part of this model.
- Reading a file is abstracted away. For text files, `read_to_string` is a
  text parameter, and a failed read is a `None` text in the walk entry. For PDFs,
  `lopdf` page extraction is not modelled; its concatenated text is that same
  parameter.
- The directory walk (`WalkDir`) is a sequence of entries: an error, a
  directory, or a regular file with its text. Symbolic links and walk order
  come from that sequence.
- Serialization (`rmp_serde`, `serde_json`) is abstracted to storing and
  loading the values themselves. The `Disk` maps paths to `Empty`, `Mapping`
  and `Bundle` blobs. The JSON files of `Count` are the two fields of
  `CountStore`.
- Some panics from `unwrap` and `expect` become failures in the model. The
  directory walk and file reads of `Files::new` give `WalkFailed` and
  `Unreadable`. A hit on a blob that is not a `Files` gives `CacheCorrupt`.
  Reading the JSON files of `Count` gives `BadJson`, or a `false` from
  `Counts.Drop`. A mapping file that does not deserialize gives a `None` from
  `CacheMap.New`. The source aborts in all of these cases. The remaining ones
  are assumed to succeed, one line each below.
- Ranking.CountInFiles: `count_in_files(word).unwrap()` is assumed to succeed.
  A word held by no file gives an empty map. If `count_in_files` returns
  `None` for such a word, the source panics on any query containing it.
- Counts.NewCount: `Files::new(root)` is assumed to succeed and is the `files`
  parameter. A failing walk or read panics in the source.
- Counts.Drop: the two `expect`ed writes are assumed to succeed, and both
  files are rewritten together. The source can stop after rewriting
  `counts.json` and leave `root.json` stale.
- FilesCache.CacheMap.Build: `File::create` is assumed to succeed.
- FilesCache.CacheMap.ToBinary: creating the file and serializing are assumed
  to succeed.
- FilesCache.CacheMap.AddFiles: `get_cache_index` and writing the blob are
  assumed to succeed.
- FilesCache.CacheMap.GetFiles: `to_str().unwrap()` on the root and the
  `expect` on `add_files` are assumed to succeed.
- Parallel iteration (`rayon`, `DashMap`, `Mutex`) is modelled as sequential
  loops. The lemmas `TallyOrderIndependent`, `CorpusOrderIndependent` and
  `FilesOrderIndependent` show that the result does not depend on the order.
- Tokenizer.IsAlphanumeric: only ASCII letters and digits count as
  alphanumeric, and only ASCII letters are lowercased. Rust's
  `char::is_alphanumeric` and `to_lowercase` accept and map all of Unicode. So
  a word with a non-ASCII letter is dropped here but kept by the source.
- Ranking.Ratio: scores are exact rationals, not `f32`. Rounding and
  `total_cmp` on NaN and infinities are not modelled. `WellFormed` requires a
  positive corpus count for every word some file holds, so no division by zero
  happens. The source would produce infinity there.
- Ranking.SortDescending: `sort_by` is a stable merge sort. The model uses an
  insertion sort, and proves only ordering and permutation. The relative order
  of equal scores depends on `HashMap` iteration order in the source and is not
  specified.
- `count_in_dictionary` and `count_in_files` are not defined in the `Files`
  of `src/files.rs`. Neither is the `(path, content)` pair shape that
  `src/counts.rs` iterates, nor `Files::to_binary` and `Files::from_binary`.
  They are modelled as the abstract `Lookup` maps, the `Document` values and the
  blob store.
- `File` and `Files` are values, not objects: once built they are only cloned
  or serialized.
- FilesCache.Added: roots are compared as strings, not as `PathBuf` path
  components. So `Test\Math` and `Test\Math\` are two roots with two blobs
  here, but one key in the source's `HashMap<PathBuf, PathBuf>`.
- FilesCache.CacheMap.AddFiles: same string comparison of roots for the
  `caches.get(&root)` test.
- FilesCache.CacheMap.GetFiles: same string comparison of roots. A root that
  differs from a cached one only in its spelling is a miss here, and the
  source finds it as a hit.
- FilesCache.CacheMap.GetCacheIndex: the disk holds only files, so a missing
  cache folder counts zero files. In the source, the walk's first entry would be
  an error and `unwrap` would panic.
- The printing `Display` impls and the `println!` diagnostics are left out.

Where the code and its documentation disagree, the model follows the code:

- A new path's first contribution is counted twice (`or_insert(score)` then
  `+= score`).
- The `dictionary` keeps the last file's count instead of a corpus sum.
- Query words are used as typed, without the lowercasing and filtering applied
  to documents.
- Paths that hold no query word are never scored or returned (`ScoresKeys`).
  Documents with a zero score are not kept eligible.
