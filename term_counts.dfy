/**
 * The term-to-count table that `File::count` and `Count::in_files_count`
 * build by incrementing one entry per word.
 */
module TermCounts {

  /** `*entry(w).or_insert(0) += 1`. */
  function Inc(table: map<string, nat>, w: string): map<string, nat> {
    table[w := (if w in table then table[w] else 0) + 1]
  }

  /** The table left after incrementing once per word, visiting `words` in order. */
  function Tally(words: seq<string>): map<string, nat> {
    if words == [] then map[] else Inc(Tally(words[..|words| - 1]), words[|words| - 1])
  }

  /** The keys of the table are exactly the distinct words, and each value is the
      number of occurrences of its word. */
  lemma {:induction false} TallyCounts(words: seq<string>)
    ensures Tally(words).Keys == set w | w in words
    ensures forall w <- Tally(words) :: Tally(words)[w] == multiset(words)[w]
  {
    if words != [] {
      var init, last := words[..|words| - 1], words[|words| - 1];
      assert words == init + [last];
      TallyCounts(init);
    }
  }

  /** Counting one more word increments its entry. */
  lemma TallySnoc(words: seq<string>, w: string)
    ensures Tally(words + [w]) == Inc(Tally(words), w)
  {
    assert (words + [w])[..|words|] == words;
  }

  /** A word that does not occur has no entry: looking it up gives zero occurrences. */
  function Get(table: map<string, nat>, w: string): nat {
    if w in table then table[w] else 0
  }

  lemma TallyGet(words: seq<string>, w: string)
    ensures Get(Tally(words), w) == multiset(words)[w]
  {
    TallyCounts(words);
  }

  /** The table depends only on the multiset of words, not on the order in which
      they are counted: every interleaving of the parallel increments gives it. */
  lemma TallyOrderIndependent(u: seq<string>, v: seq<string>)
    requires multiset(u) == multiset(v)
    ensures Tally(u) == Tally(v)
  {
    TallyCounts(u);
    TallyCounts(v);
    assert forall w :: w in u <==> w in multiset(u);
    assert forall w :: w in v <==> w in multiset(v);
    assert Tally(u).Keys == Tally(v).Keys;
  }

  ghost function Pick(table: map<string, nat>): string
    requires |table| > 0
  {
    var k :| k in table; k
  }

  /** Sum of the values of a table. */
  ghost function SumValues(table: map<string, nat>): nat
    decreases |table|
  {
    if |table| == 0 then 0
    else
      var k := Pick(table);
      assert |table - {k}| < |table| by { assert (table - {k}).Keys == table.Keys - {k}; }
      table[k] + SumValues(table - {k})
  }

  lemma {:induction false} SumValuesRemove(table: map<string, nat>, k: string)
    requires k in table
    ensures SumValues(table) == table[k] + SumValues(table - {k})
    decreases |table|
  {
    var p := Pick(table);
    assert (table - {k}).Keys == table.Keys - {k};
    if p != k {
      assert (table - {p}).Keys == table.Keys - {p};
      SumValuesRemove(table - {p}, k);
      SumValuesRemove(table - {k}, p);
      assert table - {p} - {k} == table - {k} - {p};
    }
  }

  lemma SumValuesInc(table: map<string, nat>, w: string)
    ensures SumValues(Inc(table, w)) == SumValues(table) + 1
  {
    var t := Inc(table, w);
    SumValuesRemove(t, w);
    IncRest(table, w);
    if w in table {
      SumValuesRemove(table, w);
    }
  }

  /** Incrementing `w` leaves every other entry as it was. */
  lemma IncRest(table: map<string, nat>, w: string)
    ensures Inc(table, w) - {w} == table - {w}
    ensures w !in table ==> Inc(table, w) - {w} == table
  {
  }

  /** The values of the table add up to the number of words counted. */
  lemma {:induction false} TallyTotal(words: seq<string>)
    ensures SumValues(Tally(words)) == |words|
  {
    if words != [] {
      TallyTotal(words[..|words| - 1]);
      SumValuesInc(Tally(words[..|words| - 1]), words[|words| - 1]);
    }
  }

  /** The counting loop of `File::count` (and of `in_files_count` per file). */
  method CountWords(words: seq<string>) returns (counts: map<string, nat>)
    ensures counts == Tally(words)
  {
    counts := map[];
    var i := 0;
    while i < |words|
      invariant 0 <= i <= |words|
      invariant counts == Tally(words[..i])
    {
      var w := words[i];
      assert words[..i + 1][..i] == words[..i];
      if w in counts {
        counts := counts[w := counts[w] + 1];
      } else {
        counts := counts[w := 1];
      }
      i := i + 1;
    }
    assert words[..i] == words;
  }
}
