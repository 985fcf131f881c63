/**
 * `Search::search` of src/search.rs: accumulate a score per path over the
 * query words, sort the scored paths by descending score, keep the first ten.
 */
module Ranking {
  import opened Tokenizer

  /** What `count_in_dictionary` and `count_in_files` answer: a corpus count per
      word, and per word the paths holding it with its count there. */
  datatype Lookup = Lookup(inDictionary: map<string, nat>, inFiles: map<string, map<string, nat>>)

  function CountInDictionary(l: Lookup, w: string): nat {
    if w in l.inDictionary then l.inDictionary[w] else 0
  }

  function CountInFiles(l: Lookup, w: string): map<string, nat> {
    if w in l.inFiles then l.inFiles[w] else map[]
  }

  /** Every word some file holds has a positive corpus count, so no ratio divides by zero. */
  predicate WellFormed(l: Lookup) {
    forall w, p | w in l.inFiles && p in l.inFiles[w] :: CountInDictionary(l, w) > 0
  }

  /** `count / in_dictionary` for word `w` in file `p`, as an exact ratio. */
  function Ratio(l: Lookup, w: string, p: string): real
    requires WellFormed(l) && p in CountInFiles(l, w)
  {
    Share(CountInFiles(l, w)[p], CountInDictionary(l, w))
  }

  /** `count as f32 / in_dictionary as f32`, as an exact ratio. */
  function Share(count: nat, inDictionary: nat): real
    requires inDictionary > 0
  {
    count as real / inDictionary as real
  }

  /** `*scores.entry(p).or_insert(r) += r`: a path seen for the first time starts at `r`
      and then gets `r` added, so its first ratio counts twice. */
  function Bumped(scores: map<string, real>, p: string, r: real): real {
    (if p in scores then scores[p] else r) + r
  }

  /** The scores after the paths in `done`, among those holding a word with
      per-path counts `inFiles` and corpus count `inDictionary`, have received
      their ratio. */
  function AddShares(scores: map<string, real>, inFiles: map<string, nat>, inDictionary: nat,
                     done: set<string>): map<string, real>
    requires forall p <- inFiles :: inDictionary > 0
    requires done <= inFiles.Keys
  {
    map p | p in scores.Keys + done ::
      if p in done then Bumped(scores, p, Share(inFiles[p], inDictionary)) else scores[p]
  }

  /** The scores after all the query words, in order. */
  function Scores(l: Lookup, words: seq<string>): map<string, real>
    requires WellFormed(l)
  {
    if words == [] then map[]
    else
      var w := words[|words| - 1];
      AddShares(Scores(l, words[..|words| - 1]), CountInFiles(l, w), CountInDictionary(l, w), CountInFiles(l, w).Keys)
  }

  /** Some query word is found in file `p`. */
  predicate Matches(l: Lookup, words: seq<string>, p: string) {
    exists i :: 0 <= i < |words| && p in CountInFiles(l, words[i])
  }

  /** What word `w` adds to `p` in the corpus-normalized sum. */
  function Contribution(l: Lookup, w: string, p: string): real
    requires WellFormed(l)
  {
    if p in CountInFiles(l, w) then Ratio(l, w, p) else 0.0
  }

  /** Σ over the query words of their contributions to `p`. */
  function RatioSum(l: Lookup, words: seq<string>, p: string): real
    requires WellFormed(l)
  {
    if words == [] then 0.0
    else RatioSum(l, words[..|words| - 1], p) + Contribution(l, words[|words| - 1], p)
  }

  /** The contribution of the first query word found in `p` (zero when none is). */
  function FirstRatio(l: Lookup, words: seq<string>, p: string): real
    requires WellFormed(l)
  {
    if words == [] then 0.0
    else if p in CountInFiles(l, words[0]) then Ratio(l, words[0], p)
    else FirstRatio(l, words[1..], p)
  }

  /** Exactly the paths some query word is found in receive a score. */
  lemma {:induction false} ScoresKeys(l: Lookup, words: seq<string>, p: string)
    requires WellFormed(l)
    ensures p in Scores(l, words) <==> Matches(l, words, p)
  {
    if words != [] {
      var init := words[..|words| - 1];
      ScoresKeys(l, init, p);
      assert forall i | 0 <= i < |init| :: init[i] == words[i];
      if Matches(l, words, p) && !Matches(l, init, p) {
        assert p in CountInFiles(l, words[|words| - 1]);
      }
    }
  }

  lemma {:induction false} NoMatchNoSum(l: Lookup, words: seq<string>, p: string)
    requires WellFormed(l) && !Matches(l, words, p)
    ensures RatioSum(l, words, p) == 0.0
  {
    if words != [] {
      var init := words[..|words| - 1];
      assert forall i | 0 <= i < |init| :: init[i] == words[i];
      NoMatchNoSum(l, init, p);
    }
  }

  lemma {:induction false} FirstRatioAppend(l: Lookup, words: seq<string>, w: string, p: string)
    requires WellFormed(l)
    ensures FirstRatio(l, words + [w], p) ==
            if Matches(l, words, p) then FirstRatio(l, words, p) else Contribution(l, w, p)
  {
    if words != [] {
      assert (words + [w])[1..] == words[1..] + [w];
      FirstRatioAppend(l, words[1..], w, p);
      if !(p in CountInFiles(l, words[0])) && Matches(l, words, p) {
        var i :| 0 <= i < |words| && p in CountInFiles(l, words[i]);
        assert words[1..][i - 1] == words[i];
      }
      if Matches(l, words[1..], p) {
        var i :| 0 <= i < |words[1..]| && p in CountInFiles(l, words[1..][i]);
        assert words[i + 1] == words[1..][i];
      }
    }
  }

  /** Every score is the corpus-normalized sum of the query words' ratios plus
      the ratio of the first matching word once more: the first contribution is
      counted twice. */
  lemma {:induction false} ScoresDoubleFirst(l: Lookup, words: seq<string>, p: string)
    requires WellFormed(l) && p in Scores(l, words)
    ensures Scores(l, words)[p] == RatioSum(l, words, p) + FirstRatio(l, words, p)
  {
    var init, w := words[..|words| - 1], words[|words| - 1];
    assert words == init + [w];
    FirstRatioAppend(l, init, w, p);
    ScoresKeys(l, init, p);
    if p in Scores(l, init) {
      ScoresDoubleFirst(l, init, p);
    } else {
      NoMatchNoSum(l, init, p);
    }
  }

  /** A blank query (empty or all whitespace) scores no path. */
  lemma BlankQueryScoresNothing(l: Lookup, prompt: string)
    requires WellFormed(l)
    requires forall i :: 0 <= i < |prompt| ==> IsSpace(prompt[i])
    ensures Scores(l, SplitWhitespace(prompt)) == map[]
  {
    BlankHasNoTerms(prompt);
  }

  /** Query "cat" over docA {cat: 2} and docB {cat: 1} with corpus count 3: the
      ratios 2/3 and 1/3 come out doubled, in the same order. */
  lemma DoubledExample()
    ensures var l := Lookup(map["cat" := 3], map["cat" := map["docA" := 2, "docB" := 1]]);
            WellFormed(l) &&
            Scores(l, ["cat"]) == map["docA" := 4.0 / 3.0, "docB" := 2.0 / 3.0]
  {
    var l := Lookup(map["cat" := 3], map["cat" := map["docA" := 2, "docB" := 1]]);
    assert ["cat"][..0] == [];
    assert CountInFiles(l, "cat").Keys == {"docA", "docB"};
  }

  // ---------------------------------------------------------------------
  // Sorting and cutting.

  datatype Scored = Scored(path: string, score: real)

  predicate Descending(s: seq<Scored>) {
    forall i, j :: 0 <= i < j < |s| ==> s[i].score >= s[j].score
  }

  predicate Distinct<T(==)>(s: seq<T>) {
    forall i, j :: 0 <= i < j < |s| ==> s[i] != s[j]
  }

  lemma {:induction false} DistinctAtMostOnce<T>(t: seq<T>, x: T)
    requires Distinct(t)
    ensures multiset(t)[x] <= 1
  {
    if t != [] {
      assert t == [t[0]] + t[1..];
      assert Distinct(t[1..]);
      DistinctAtMostOnce(t[1..], x);
      if t[0] == x {
        assert x !in t[1..];
      }
    }
  }

  /** A permutation of a sequence without repetitions has none either. */
  lemma DistinctPermutation<T>(s: seq<T>, t: seq<T>)
    requires multiset(s) == multiset(t) && Distinct(t)
    ensures Distinct(s)
  {
    forall i, j | 0 <= i < j < |s|
      ensures s[i] != s[j]
    {
      if s[i] == s[j] {
        var x := s[i];
        assert s == s[..j] + s[j..];
        assert x in s[..j] && x in s[j..];
        assert multiset(s)[x] == multiset(s[..j])[x] + multiset(s[j..])[x];
        DistinctAtMostOnce(t, x);
        assert false;
      }
    }
  }

  /** `vector.sort_by(|a, b| b.1.total_cmp(&a.1))`, here by insertion. */
  method SortDescending(a: array<Scored>)
    modifies a
    ensures Descending(a[..])
    ensures multiset(a[..]) == multiset(old(a[..]))
  {
    var i := 0;
    while i < a.Length
      invariant 0 <= i <= a.Length
      invariant DescendingBut(a[..], i, i)
      invariant multiset(a[..]) == multiset(old(a[..]))
    {
      var j := i;
      while j > 0 && a[j - 1].score < a[j].score
        invariant 0 <= j <= i
        invariant DescendingBut(a[..], i, j)
        invariant multiset(a[..]) == multiset(old(a[..]))
      {
        ghost var before := a[..];
        a[j - 1], a[j] := a[j], a[j - 1];
        assert a[..] == Swapped(before, j);
        SwapStep(before, i, j);
        j := j - 1;
      }
      InsertDone(a[..], i, j);
      i := i + 1;
    }
    assert a[..] == a[..a.Length];
  }

  /** The first `i + 1` entries are in descending order, except that the one at
      `j` may be out of place. */
  predicate DescendingBut(s: seq<Scored>, i: nat, j: nat) {
    forall x, y :: 0 <= x < y <= i && y < |s| && y != j ==> s[x].score >= s[y].score
  }

  function Swapped(s: seq<Scored>, j: nat): (t: seq<Scored>)
    requires 0 < j < |s|
    ensures |t| == |s|
  {
    s[j - 1 := s[j]][j := s[j - 1]]
  }

  /** Swapping the entry at `j` with a lower-scored predecessor moves the gap down. */
  lemma SwapStep(s: seq<Scored>, i: nat, j: nat)
    requires 0 < j <= i < |s|
    requires DescendingBut(s, i, j) && s[j - 1].score < s[j].score
    ensures DescendingBut(Swapped(s, j), i, j - 1)
    ensures multiset(Swapped(s, j)) == multiset(s)
  {
  }

  /** Once the entry at `j` is no higher than its predecessor, the first `i + 1` are in order. */
  lemma InsertDone(s: seq<Scored>, i: nat, j: nat)
    requires j <= i < |s|
    requires DescendingBut(s, i, j) && (j == 0 || s[j - 1].score >= s[j].score)
    ensures DescendingBut(s, i + 1, i + 1)
  {
  }

  /** The scored entries of `s` are exactly the entries of `scores`, one per path. */
  predicate Entries(s: seq<Scored>, scores: map<string, real>) {
    && (forall e <- s :: e.path in scores && e.score == scores[e.path])
    && (forall p <- scores :: Scored(p, scores[p]) in s)
    && (forall i, j :: 0 <= i < j < |s| ==> s[i].path != s[j].path)
  }

  function PathsOf(s: seq<Scored>): (paths: seq<string>)
    ensures |paths| == |s| && forall i :: 0 <= i < |s| ==> paths[i] == s[i].path
  {
    seq(|s|, i requires 0 <= i < |s| => s[i].path)
  }

  /** Reordering the collected entries keeps them the entries of `scores`. */
  lemma PermutationKeepsEntries(s: seq<Scored>, t: seq<Scored>, scores: map<string, real>)
    requires multiset(s) == multiset(t) && Entries(t, scores)
    ensures Entries(s, scores)
  {
    assert forall e :: e in s <==> e in multiset(s);
    assert forall e :: e in t <==> e in multiset(t);
    assert Distinct(t);
    DistinctPermutation(s, t);
    forall i, j | 0 <= i < j < |s|
      ensures s[i].path != s[j].path
    {
      assert s[i] in t && s[j] in t;
    }
  }

  /** The paths of the first `m` entries of a descending listing of all scores
      are the `m` best, best first. */
  lemma TopPrefix(s: seq<Scored>, scores: map<string, real>, m: nat)
    requires Entries(s, scores) && Descending(s) && m <= |s|
    ensures forall p <- PathsOf(s[..m]) :: p in scores
    ensures Distinct(PathsOf(s[..m]))
    ensures forall i, j :: 0 <= i < j < m ==> scores[PathsOf(s[..m])[i]] >= scores[PathsOf(s[..m])[j]]
    ensures forall p <- scores :: p !in PathsOf(s[..m]) ==> forall q <- PathsOf(s[..m]) :: scores[q] >= scores[p]
  {
    var r := PathsOf(s[..m]);
    forall p <- r ensures p in scores {
      var x :| 0 <= x < m && r[x] == p;
      assert s[x] in s;
    }
    forall i, j | 0 <= i < j < m ensures scores[r[i]] >= scores[r[j]] {
      assert s[i] in s && s[j] in s;
    }
    forall p <- scores | p !in r
      ensures forall q <- r :: scores[q] >= scores[p]
    {
      var t :| 0 <= t < |s| && s[t] == Scored(p, scores[p]);
      assert t >= m;
      forall q <- r
        ensures scores[q] >= scores[p]
      {
        var x :| 0 <= x < m && r[x] == q;
        assert s[x] in s;
      }
    }
  }

  /** The score map collected into a vector, in the map's iteration order. */
  method Collect(scores: map<string, real>) returns (a: array<Scored>)
    ensures fresh(a) && a.Length == |scores|
    ensures Entries(a[..], scores)
  {
    var n := |scores|;
    a := new Scored[n](_ => Scored("", 0.0));
    var pending := scores.Keys;
    var k := 0;
    while pending != {}
      invariant 0 <= k <= n && |pending| == n - k
      invariant pending <= scores.Keys
      invariant Collected(a[..k], scores, pending)
      decreases |pending|
    {
      var p :| p in pending;
      ghost var before := a[..k];
      a[k] := Scored(p, scores[p]);
      assert a[..k + 1] == before + [Scored(p, scores[p])];
      CollectStep(before, scores, pending, p);
      pending := pending - {p};
      k := k + 1;
    }
    assert a[..k] == a[..];
  }

  /** The entries collected so far: one per path not pending, each with its score. */
  predicate Collected(s: seq<Scored>, scores: map<string, real>, pending: set<string>) {
    && (forall e <- s :: e.path in scores && e.score == scores[e.path] && e.path !in pending)
    && (forall p <- scores :: p !in pending ==> Scored(p, scores[p]) in s)
    && (forall i, j :: 0 <= i < j < |s| ==> s[i].path != s[j].path)
  }

  lemma CollectStep(s: seq<Scored>, scores: map<string, real>, pending: set<string>, p: string)
    requires Collected(s, scores, pending) && p in pending && pending <= scores.Keys
    ensures Collected(s + [Scored(p, scores[p])], scores, pending - {p})
    ensures |pending - {p}| == |pending| - 1
  {
    var t := s + [Scored(p, scores[p])];
    forall i, j | 0 <= i < j < |t|
      ensures t[i].path != t[j].path
    {
      if j == |s| {
        assert t[i] in s;
      }
    }
  }

  /** Sort the collected scores in descending order and keep the paths of the first ten. */
  method TopTen(scores: map<string, real>) returns (result: seq<string>)
    ensures |result| == (if |scores| < 10 then |scores| else 10)
    ensures forall p <- result :: p in scores
    ensures Distinct(result)
    ensures forall i, j :: 0 <= i < j < |result| ==> scores[result[i]] >= scores[result[j]]
    ensures forall p <- scores :: p !in result ==> forall q <- result :: scores[q] >= scores[p]
  {
    var a := Collect(scores);
    ghost var collected := a[..];
    SortDescending(a);
    PermutationKeepsEntries(a[..], collected, scores);
    var m := if a.Length < 10 then a.Length else 10;
    TopPrefix(a[..], scores, m);
    result := PathsOf(a[..m]);
  }

  /** Inserting one more path of `done` into the partly added scores. */
  lemma AddSharesInsert(scores: map<string, real>, inFiles: map<string, nat>, inDictionary: nat,
                        done: set<string>, path: string, v: real)
    requires forall p <- inFiles :: inDictionary > 0
    requires done <= inFiles.Keys && path in inFiles && path !in done
    requires v == Bumped(AddShares(scores, inFiles, inDictionary, done), path, Share(inFiles[path], inDictionary))
    ensures AddShares(scores, inFiles, inDictionary, done)[path := v] ==
            AddShares(scores, inFiles, inDictionary, done + {path})
  {
  }

  /** One step of `AddWordScores`: adding the ratio of one pending path. */
  lemma AddSharesStep(scores: map<string, real>, inFiles: map<string, nat>, inDictionary: nat,
                      pending: set<string>, path: string, v: real)
    requires forall p <- inFiles :: inDictionary > 0
    requires pending <= inFiles.Keys && path in pending
    requires v == Bumped(AddShares(scores, inFiles, inDictionary, inFiles.Keys - pending), path,
                         Share(inFiles[path], inDictionary))
    ensures AddShares(scores, inFiles, inDictionary, inFiles.Keys - pending)[path := v] ==
            AddShares(scores, inFiles, inDictionary, inFiles.Keys - (pending - {path}))
    ensures |pending - {path}| < |pending|
  {
    assert inFiles.Keys - (pending - {path}) == (inFiles.Keys - pending) + {path};
    AddSharesInsert(scores, inFiles, inDictionary, inFiles.Keys - pending, path, v);
  }

  /** The inner loop of `Search::search` for one query word, given its corpus
      count and the paths holding it with their counts: every such path gets
      `count / in_dictionary` added to its score, a new path twice. */
  method AddWordScores(scores: map<string, real>, inFiles: map<string, nat>, inDictionary: nat)
    returns (next: map<string, real>)
    requires forall p <- inFiles :: inDictionary > 0
    ensures next == AddShares(scores, inFiles, inDictionary, inFiles.Keys)
  {
    next := scores;
    var pending := inFiles.Keys;
    assert next == AddShares(scores, inFiles, inDictionary, inFiles.Keys - pending);
    while pending != {}
      invariant pending <= inFiles.Keys
      invariant next == AddShares(scores, inFiles, inDictionary, inFiles.Keys - pending)
      decreases |pending|
    {
      var path :| path in pending;
      var score := Share(inFiles[path], inDictionary);
      // `entry(path).or_insert(score)`, then `+= score`
      var entry := if path in next then next[path] else score;
      AddSharesStep(scores, inFiles, inDictionary, pending, path, entry + score);
      next := next[path := entry + score];
      pending := pending - {path};
    }
    assert inFiles.Keys - pending == inFiles.Keys;
  }

  /** The score accumulation over the query words, in order. */
  method Accumulate(l: Lookup, words: seq<string>) returns (scores: map<string, real>)
    requires WellFormed(l)
    ensures scores == Scores(l, words)
  {
    scores := map[];
    var i := 0;
    while i < |words|
      invariant 0 <= i <= |words|
      invariant scores == Scores(l, words[..i])
    {
      assert words[..i + 1][..i] == words[..i];
      var inDictionary := CountInDictionary(l, words[i]);
      var inFiles := CountInFiles(l, words[i]);
      scores := AddWordScores(scores, inFiles, inDictionary);
      i := i + 1;
    }
    assert words[..i] == words;
  }

  /** `Search::search`: the query is split on whitespace and its words are used
      as they are (no lowercasing, no filtering). The result holds at most ten
      distinct scored paths, best first, and every scored path left out scores
      no higher than any returned one. */
  method Search(l: Lookup, prompt: string) returns (result: seq<string>)
    requires WellFormed(l)
    ensures var scores := Scores(l, SplitWhitespace(prompt));
            && |result| == (if |scores| < 10 then |scores| else 10)
            && (forall p <- result :: p in scores)
            && Distinct(result)
            && (forall i, j :: 0 <= i < j < |result| ==> scores[result[i]] >= scores[result[j]])
            && (forall p <- scores :: p !in result ==> forall q <- result :: scores[q] >= scores[p])
  {
    var scores := Accumulate(l, SplitWhitespace(prompt));
    result := TopTen(scores);
  }
}
