/**
 * `Count` of src/counts.rs: the corpus-wide count table, one count table per
 * file, and the single-slot cache that keeps the last built `Count` on disk
 * tagged with its root.
 */
module Counts {
  import opened Wrappers
  import opened TermCounts

  /** A file of the corpus and its list of terms. */
  datatype Document = Document(path: string, words: seq<string>)

  datatype Count = Count(
    root: string,
    files: seq<Document>,
    overallCounts: map<string, nat>,
    inFileCounts: map<string, map<string, nat>>)

  predicate DistinctPaths(files: seq<Document>) {
    forall i, j :: 0 <= i < j < |files| ==> files[i].path != files[j].path
  }

  function Paths(files: seq<Document>): (paths: seq<string>)
    ensures |paths| == |files|
    ensures forall i :: 0 <= i < |files| ==> paths[i] == files[i].path
  {
    if files == [] then [] else Paths(files[..|files| - 1]) + [files[|files| - 1].path]
  }

  /** All words of all files, file after file. */
  function AllWords(files: seq<Document>): seq<string> {
    if files == [] then [] else AllWords(files[..|files| - 1]) + files[|files| - 1].words
  }

  /** Number of words over all files. */
  function TotalWords(files: seq<Document>): nat {
    if files == [] then 0 else TotalWords(files[..|files| - 1]) + |files[|files| - 1].words|
  }

  /** The per-file tables, inserted file after file under each file's path. */
  function InFileTables(files: seq<Document>): map<string, map<string, nat>> {
    if files == [] then map[]
    else InFileTables(files[..|files| - 1])[files[|files| - 1].path := Tally(files[|files| - 1].words)]
  }

  /** `Count::count_overall`: one increment per word of every file. */
  method CountOverall(files: seq<Document>) returns (overall: map<string, nat>)
    ensures overall == Tally(AllWords(files))
  {
    overall := map[];
    var i := 0;
    while i < |files|
      invariant 0 <= i <= |files|
      invariant overall == Tally(AllWords(files[..i]))
    {
      var content := files[i].words;
      ghost var before := AllWords(files[..i]);
      var j := 0;
      assert before + content[..j] == before;
      while j < |content|
        invariant 0 <= j <= |content|
        invariant overall == Tally(before + content[..j])
      {
        var word := content[j];
        TallyNext(before, content, j);
        overall := overall[word := (if word in overall then overall[word] else 0) + 1];
        j := j + 1;
      }
      AllWordsNext(files, i);
      assert content[..j] == content;
      i := i + 1;
    }
    assert files[..i] == files;
  }

  lemma TallyNext(before: seq<string>, content: seq<string>, j: nat)
    requires j < |content|
    ensures Tally(before + content[..j + 1]) == Inc(Tally(before + content[..j]), content[j])
  {
    assert before + content[..j + 1] == (before + content[..j]) + [content[j]];
    TallySnoc(before + content[..j], content[j]);
  }

  lemma AllWordsNext(files: seq<Document>, i: nat)
    requires i < |files|
    ensures AllWords(files[..i + 1]) == AllWords(files[..i]) + files[i].words
  {
    assert files[..i + 1][..i] == files[..i];
  }

  /** `Count::in_files_count`: a table of its own words for every file, stored under its path. */
  method InFilesCount(files: seq<Document>) returns (inFiles: map<string, map<string, nat>>)
    ensures inFiles == InFileTables(files)
  {
    inFiles := map[];
    var i := 0;
    while i < |files|
      invariant 0 <= i <= |files|
      invariant inFiles == InFileTables(files[..i])
    {
      var inFile := CountWords(files[i].words);
      assert files[..i + 1][..i] == files[..i];
      inFiles := inFiles[files[i].path := inFile];
      i := i + 1;
    }
    assert files[..i] == files;
  }

  /** A path is among the paths of the files exactly when some file has it. */
  lemma {:induction false} PathsMember(files: seq<Document>, p: string)
    ensures p in Paths(files) <==> exists d <- files :: d.path == p
  {
    if p in Paths(files) {
      var k :| 0 <= k < |files| && Paths(files)[k] == p;
      assert files[k] in files;
    }
    if exists d <- files :: d.path == p {
      var d :| d in files && d.path == p;
      var k :| 0 <= k < |files| && files[k] == d;
      assert Paths(files)[k] == p;
    }
  }

  /** The per-file tables are keyed by exactly the file paths. */
  lemma {:induction false} InFileKeys(files: seq<Document>)
    ensures forall p :: p in InFileTables(files) <==> p in Paths(files)
  {
    if files != [] {
      InFileKeys(files[..|files| - 1]);
    }
  }

  /** With distinct paths, each path's table counts that file's words and no other's. */
  lemma {:induction false} InFileValues(files: seq<Document>)
    requires DistinctPaths(files)
    ensures forall i | 0 <= i < |files| ::
              files[i].path in InFileTables(files) && InFileTables(files)[files[i].path] == Tally(files[i].words)
  {
    if files != [] {
      var init := files[..|files| - 1];
      InFileValues(init);
      assert forall i | 0 <= i < |init| :: init[i] == files[i];
    }
  }

  lemma {:induction false} AllWordsCount(files: seq<Document>, w: string)
    ensures multiset(AllWords(files))[w] == ColumnSum(files, w)
  {
    if files != [] {
      AllWordsCount(files[..|files| - 1], w);
      TallyGet(files[|files| - 1].words, w);
    }
  }

  /** Σ over the files, in order, of the number of occurrences of `w` in each. */
  function ColumnSum(files: seq<Document>, w: string): nat {
    if files == [] then 0
    else ColumnSum(files[..|files| - 1], w) + Get(Tally(files[|files| - 1].words), w)
  }

  /** Σ over `paths` of the count of `w` in each path's table. */
  function SumOverPaths(tables: map<string, map<string, nat>>, paths: seq<string>, w: string): nat
    requires forall p <- paths :: p in tables
  {
    if paths == [] then 0
    else SumOverPaths(tables, paths[..|paths| - 1], w) + Get(tables[paths[|paths| - 1]], w)
  }

  lemma {:induction false} SumOverPathsAgree(t: map<string, map<string, nat>>, u: map<string, map<string, nat>>,
                                             paths: seq<string>, w: string)
    requires forall p <- paths :: p in t && p in u && t[p] == u[p]
    ensures SumOverPaths(t, paths, w) == SumOverPaths(u, paths, w)
  {
    if paths != [] {
      SumOverPathsAgree(t, u, paths[..|paths| - 1], w);
    }
  }

  /** The corpus count of every word is the sum, over the file paths, of that
      word's count in the path's own table; a word in no file has no entry. */
  lemma {:induction false} OverallIsSumOfInFile(files: seq<Document>, w: string)
    requires DistinctPaths(files)
    ensures forall p <- Paths(files) :: p in InFileTables(files)
    ensures Get(Tally(AllWords(files)), w) == SumOverPaths(InFileTables(files), Paths(files), w)
    ensures w in Tally(AllWords(files)) <==> exists d <- files :: w in d.words
  {
    InFileKeys(files);
    TallyGet(AllWords(files), w);
    AllWordsCount(files, w);
    ColumnIsPathSum(files, w);
    TallyCounts(AllWords(files));
    WordsOfAll(files, w);
  }

  lemma {:induction false} ColumnIsPathSum(files: seq<Document>, w: string)
    requires DistinctPaths(files)
    ensures forall p <- Paths(files) :: p in InFileTables(files)
    ensures ColumnSum(files, w) == SumOverPaths(InFileTables(files), Paths(files), w)
  {
    InFileKeys(files);
    if files != [] {
      var init, last := files[..|files| - 1], files[|files| - 1];
      ColumnIsPathSum(init, w);
      InFileKeys(init);
      assert Paths(files)[..|files| - 1] == Paths(init);
      assert last.path !in Paths(init) by {
        forall k | 0 <= k < |init| ensures Paths(init)[k] != last.path {
          assert Paths(init)[k] == files[k].path;
        }
      }
      SumOverPathsAgree(InFileTables(files), InFileTables(init), Paths(init), w);
    }
  }

  lemma {:induction false} WordsOfAll(files: seq<Document>, w: string)
    ensures w in AllWords(files) <==> exists d <- files :: w in d.words
  {
    if files != [] {
      var init, last := files[..|files| - 1], files[|files| - 1];
      WordsOfAll(init, w);
      assert forall d <- init :: d in files;
      if exists d <- files :: w in d.words {
        var d :| d in files && w in d.words;
        if d != last {
          assert d in init;
        }
      }
    }
  }

  /** The corpus counts add up to the number of words over all files. */
  lemma OverallTotal(files: seq<Document>)
    ensures SumValues(Tally(AllWords(files))) == TotalWords(files)
  {
    TallyTotal(AllWords(files));
    AllWordsLength(files);
  }

  lemma {:induction false} AllWordsLength(files: seq<Document>)
    ensures |AllWords(files)| == TotalWords(files)
  {
    if files != [] {
      AllWordsLength(files[..|files| - 1]);
    }
  }

  lemma {:induction false} AllWordsAppend(u: seq<Document>, v: seq<Document>)
    ensures AllWords(u + v) == AllWords(u) + AllWords(v)
    decreases |v|
  {
    if v == [] {
      assert u + v == u;
    } else {
      assert (u + v)[..|u + v| - 1] == u + v[..|v| - 1];
      AllWordsAppend(u, v[..|v| - 1]);
    }
  }

  lemma {:induction false} AllWordsPermutation(c: seq<Document>, d: seq<Document>)
    requires multiset(c) == multiset(d)
    ensures multiset(AllWords(c)) == multiset(AllWords(d))
    decreases |c|
  {
    if c == [] {
      assert d == [] by { assert |d| == |multiset(d)|; }
    } else {
      var init, x := c[..|c| - 1], c[|c| - 1];
      assert c == init + [x];
      assert x in multiset(d);
      var k :| 0 <= k < |d| && d[k] == x;
      var rest := d[..k] + d[k + 1..];
      RemoveAt(d, k);
      assert multiset(init) == multiset(c) - multiset{x};
      AllWordsPermutation(init, rest);
      AllWordsRemoveAt(d, k);
      assert AllWords(c) == AllWords(init) + x.words;
    }
  }

  /** Taking out the file at `k` takes it out of the multiset of files. */
  lemma RemoveAt(d: seq<Document>, k: nat)
    requires k < |d|
    ensures multiset(d[..k] + d[k + 1..]) == multiset(d) - multiset{d[k]}
  {
    assert d == d[..k] + [d[k]] + d[k + 1..];
  }

  /** Taking out the file at `k` takes its words out of all the words. */
  lemma AllWordsRemoveAt(d: seq<Document>, k: nat)
    requires k < |d|
    ensures multiset(AllWords(d)) == multiset(AllWords(d[..k] + d[k + 1..])) + multiset(d[k].words)
  {
    AllWordsSplitAt(d, k);
    AllWordsAppend(d[..k], d[k + 1..]);
  }

  lemma AllWordsSplitAt(d: seq<Document>, k: nat)
    requires k < |d|
    ensures AllWords(d) == AllWords(d[..k]) + d[k].words + AllWords(d[k + 1..])
  {
    assert d == d[..k + 1] + d[k + 1..];
    AllWordsAppend(d[..k + 1], d[k + 1..]);
    AllWordsNext(d, k);
  }

  /** Visiting the files in any order gives the same corpus table: the parallel
      traversal of `count_overall` is deterministic as a mapping. */
  lemma CorpusOrderIndependent(c: seq<Document>, d: seq<Document>)
    requires multiset(c) == multiset(d)
    ensures Tally(AllWords(c)) == Tally(AllWords(d))
  {
    AllWordsPermutation(c, d);
    TallyOrderIndependent(AllWords(c), AllWords(d));
  }

  /** For distinct paths, visiting the files in any order also gives the same
      per-file tables, as in `in_files_count`. */
  lemma FilesOrderIndependent(c: seq<Document>, d: seq<Document>)
    requires multiset(c) == multiset(d)
    requires DistinctPaths(c) && DistinctPaths(d)
    ensures InFileTables(c) == InFileTables(d)
  {
    forall p
      ensures p in InFileTables(c) <==> p in InFileTables(d)
    {
      SameKey(c, d, p);
      SameKey(d, c, p);
    }
    forall p | p in InFileTables(c)
      ensures InFileTables(c)[p] == InFileTables(d)[p]
    {
      SameValue(c, d, p);
    }
  }

  lemma SameKey(c: seq<Document>, d: seq<Document>, p: string)
    requires multiset(c) == multiset(d)
    ensures p in InFileTables(c) ==> p in InFileTables(d)
  {
    InFileKeys(c);
    InFileKeys(d);
    PathsMember(c, p);
    PathsMember(d, p);
    if p in InFileTables(c) {
      var x :| x in c && x.path == p;
      assert x in multiset(d);
    }
  }

  lemma SameValue(c: seq<Document>, d: seq<Document>, p: string)
    requires multiset(c) == multiset(d)
    requires DistinctPaths(c) && DistinctPaths(d)
    requires p in InFileTables(c)
    ensures p in InFileTables(d) && InFileTables(c)[p] == InFileTables(d)[p]
  {
    InFileKeys(c);
    PathsMember(c, p);
    var x :| x in c && x.path == p;
    var i :| 0 <= i < |c| && c[i] == x;
    assert x in multiset(d);
    var j :| 0 <= j < |d| && d[j] == x;
    InFileValues(c);
    InFileValues(d);
    assert InFileTables(c)[c[i].path] == Tally(x.words);
    assert InFileTables(d)[d[j].path] == Tally(x.words);
  }

  // ---------------------------------------------------------------------
  // The single-slot cache: `root.json` names the root of the `Count` saved
  // in `counts.json`.

  const RootJson := "JSON\\root.json"
  const CountsJson := "JSON\\counts.json"

  /** What the two files hold: the stored root and the stored `Count`. `None`
      stands for a file that is missing or does not parse as JSON. */
  datatype Stored = Stored(root: Option<string>, saved: Option<Count>)

  /** The pair of JSON files on disk. */
  class CountStore {
    var root: Option<string>
    var saved: Option<Count>

    constructor (root: Option<string>, saved: Option<Count>)
      ensures this.root == root && this.saved == saved
    {
      this.root := root;
      this.saved := saved;
    }

    function State(): Stored
      reads this
    {
      Stored(root, saved)
    }
  }

  /** The `Count` built from scratch for `root` over the files found under it. */
  function Build(root: string, files: seq<Document>): Count {
    Count(root, files, Tally(AllWords(files)), InFileTables(files))
  }

  /** A `Count` whose tables are the ones built from its own files. */
  predicate Consistent(c: Count) {
    c == Build(c.root, c.files)
  }

  /** A store whose two files exist and whose saved `Count` was built for the
      stored root. */
  predicate StoreValid(s: Stored) {
    s.root.Some? && s.saved.Some? && s.saved.value.root == s.root.value && Consistent(s.saved.value)
  }

  /** `Count::new(root)`, where `files` is what walking `root` would give.
      `root.json` is read first: without it nothing can be built. A differing
      stored root rebuilds everything; an equal one loads `counts.json` and
      never looks at the files. */
  method NewCount(store: CountStore, root: string, files: seq<Document>) returns (r: Result<Count>, rebuilt: bool)
    ensures rebuilt <==> store.root.Some? && store.root.value != root
    ensures store.root.None? ==> r == Err(BadJson(RootJson))
    ensures rebuilt ==> r == Ok(Count(root, files, Tally(AllWords(files)), InFileTables(files)))
    ensures store.root == Some(root) ==>
              r == (if store.saved.Some? then Ok(store.saved.value) else Err(BadJson(CountsJson)))
    ensures StoreValid(store.State()) ==> r.Ok? && r.value.root == root && Consistent(r.value)
  {
    if store.root.None? {
      return Err(BadJson(RootJson)), false;
    }
    if store.root.value != root {
      var c := Count(root, files, map[], map[]);
      var overall := CountOverall(c.files);
      c := c.(overallCounts := overall);
      var inFiles := InFilesCount(c.files);
      c := c.(inFileCounts := inFiles);
      return Ok(c), true;
    }
    rebuilt := false;
    if store.saved.None? {
      return Err(BadJson(CountsJson)), false;
    }
    r := Ok(store.saved.value);
  }

  /** A first run finds no `root.json`, so `Count::new` fails whatever the root. */
  method FirstRun(root: string, files: seq<Document>) returns (r: Result<Count>)
    ensures r == Err(BadJson(RootJson))
  {
    var store := new CountStore(None, None);
    var rebuilt;
    r, rebuilt := NewCount(store, root, files);
  }

  /** The store after dropping `c`: both files are rewritten only when the stored
      root is readable and differs from `c`'s. */
  function Dropped(s: Stored, c: Count): Stored {
    if s.root.Some? && s.root.value != c.root then Stored(Some(c.root), Some(c)) else s
  }

  /** `impl Drop for Count`; `ok` is false when `root.json` cannot be read. */
  method Drop(store: CountStore, c: Count) returns (ok: bool)
    modifies store
    ensures ok <==> old(store.root).Some?
    ensures store.State() == Dropped(old(store.State()), c)
  {
    if store.root.None? {
      return false;
    }
    if store.root.value != c.root {
      store.saved := Some(c);
      store.root := Some(c.root);
    }
    ok := true;
  }

  /** Once `root.json` exists, a drop leaves `c`'s root stored, and dropping a
      consistent `Count` keeps a valid store valid. */
  lemma DroppedKeepsValid(s: Stored, c: Count)
    ensures s.root.Some? ==> Dropped(s, c).root == Some(c.root)
    ensures s.root.None? ==> Dropped(s, c) == s
    ensures StoreValid(s) && Consistent(c) ==> StoreValid(Dropped(s, c))
  {
  }

  /** A drop followed by `Count::new` for the same root: with `root.json`
      present this is always a cache hit, yielding `c` unless the store already
      held `c`'s root, in which case the older saved `Count` (if readable) comes
      back. */
  method DropThenNew(store: CountStore, c: Count, files: seq<Document>) returns (r: Result<Count>, rebuilt: bool)
    modifies store
    ensures !rebuilt
    ensures old(store.root).None? ==> r == Err(BadJson(RootJson))
    ensures old(store.root).Some? && old(store.root).value != c.root ==> r == Ok(c)
    ensures old(store.root) == Some(c.root) ==>
              r == (if old(store.saved).Some? then Ok(old(store.saved).value) else Err(BadJson(CountsJson)))
  {
    var dropped := Drop(store, c);
    r, rebuilt := NewCount(store, c.root, files);
  }
}
