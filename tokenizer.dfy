/**
 * The tokenizing pipeline of `File::read`: split the text on whitespace, keep a
 * word only when every character is alphanumeric, and lowercase it.
 */
module Tokenizer {
  import opened Wrappers

  /** Unicode White_Space, the class `split_whitespace` splits on. */
  predicate IsSpace(c: char) {
    ('\t' <= c <= '\r') || c == ' ' || c == '\U{0085}' || c == '\U{00A0}' || c == '\U{1680}'
    || ('\U{2000}' <= c <= '\U{200A}') || c == '\U{2028}' || c == '\U{2029}'
    || c == '\U{202F}' || c == '\U{205F}' || c == '\U{3000}'
  }

  /** Alphanumeric characters, restricted to ASCII letters and digits. */
  predicate IsAlphanumeric(c: char) {
    ('a' <= c <= 'z') || ('A' <= c <= 'Z') || ('0' <= c <= '9')
  }

  function ToLower(c: char): char {
    if 'A' <= c <= 'Z' then (c as int + 32) as char else c
  }

  function Lower(s: string): string {
    seq(|s|, i requires 0 <= i < |s| => ToLower(s[i]))
  }

  predicate AllAlphanumeric(w: string) {
    forall i :: 0 <= i < |w| ==> IsAlphanumeric(w[i])
  }

  predicate NoSpace(w: string) {
    forall i :: 0 <= i < |w| ==> !IsSpace(w[i])
  }

  /** A unit `split_whitespace` can yield: non-empty and free of whitespace. */
  predicate IsWord(w: string) {
    |w| > 0 && NoSpace(w)
  }

  /** An index term: a non-empty, all-alphanumeric word already in lower case. */
  predicate IsTerm(t: string) {
    IsWord(t) && AllAlphanumeric(t) && Lower(t) == t
  }

  /** Length of the run of non-whitespace characters that starts `s`. */
  function WordEnd(s: string): (n: nat)
    ensures n <= |s|
    ensures NoSpace(s[..n])
    ensures n < |s| ==> IsSpace(s[n])
  {
    if s == [] || IsSpace(s[0]) then 0
    else
      var n := 1 + WordEnd(s[1..]);
      assert s[..n] == [s[0]] + s[1..][..n - 1];
      n
  }

  /** `str::split_whitespace`: the maximal runs of non-whitespace characters, in order. */
  function SplitWhitespace(s: string): (words: seq<string>)
    ensures forall w <- words :: IsWord(w)
    decreases |s|
  {
    if s == [] then []
    else if IsSpace(s[0]) then SplitWhitespace(s[1..])
    else
      var n := WordEnd(s);
      [s[..n]] + SplitWhitespace(s[n..])
  }

  /** The `filter_map` closure: an all-alphanumeric word is kept lowercased, any other is dropped. */
  function Normalize(word: string): (t: Option<string>)
    ensures t.Some? <==> AllAlphanumeric(word)
    ensures t.Some? ==> |t.value| == |word| && AllAlphanumeric(t.value) && Lower(t.value) == t.value
    ensures t.Some? ==> forall i :: 0 <= i < |word| ==> t.value[i] == ToLower(word[i])
  {
    if AllAlphanumeric(word) then
      LowerKeepsAlphanumeric(word);
      LowerIdempotent(word);
      Some(Lower(word))
    else None
  }

  /** Applies `Normalize` to each word in order, keeping the results that are present. */
  function FilterTerms(words: seq<string>): (terms: seq<string>)
    requires forall w <- words :: IsWord(w)
    ensures |terms| <= |words|
    ensures forall t <- terms :: IsTerm(t)
  {
    if words == [] then []
    else
      var rest := FilterTerms(words[1..]);
      match Normalize(words[0])
      case Some(t) =>
        assert IsTerm(t) by { AlphanumericHasNoSpace(t); }
        [t] + rest
      case None => rest
  }

  /** `File::read` on already extracted text. */
  function Tokenize(text: string): (terms: seq<string>)
    ensures forall t <- terms :: IsTerm(t)
  {
    FilterTerms(SplitWhitespace(text))
  }

  lemma LowerKeepsAlphanumeric(w: string)
    requires AllAlphanumeric(w)
    ensures AllAlphanumeric(Lower(w))
  {
  }

  lemma LowerIdempotent(w: string)
    ensures Lower(Lower(w)) == Lower(w)
  {
  }

  lemma AlphanumericHasNoSpace(w: string)
    requires AllAlphanumeric(w)
    ensures NoSpace(w)
  {
  }

  /** Every character of an index term is a lower-case ASCII letter or a digit. */
  lemma TermCharacters(t: string)
    requires IsTerm(t)
    ensures forall i :: 0 <= i < |t| ==> ('a' <= t[i] <= 'z') || ('0' <= t[i] <= '9')
  {
    forall i | 0 <= i < |t|
      ensures ('a' <= t[i] <= 'z') || ('0' <= t[i] <= '9')
    {
      assert Lower(t)[i] == ToLower(t[i]);
    }
  }

  /** A whitespace-free word followed by a whitespace character is split off whole. */
  lemma {:induction false} WordEndOfWord(w: string, c: char, rest: string)
    requires NoSpace(w) && IsSpace(c)
    ensures WordEnd(w + [c] + rest) == |w|
    decreases |w|
  {
    if w != [] {
      assert (w + [c] + rest)[1..] == w[1..] + [c] + rest;
      WordEndOfWord(w[1..], c, rest);
    }
  }

  /** Splitting is a homomorphism over a whitespace separator: the words of
      `a`, then those of `b`, in order and unchanged. */
  lemma {:induction false} SplitAppend(a: string, c: char, b: string)
    requires IsSpace(c)
    ensures SplitWhitespace(a + [c] + b) == SplitWhitespace(a) + SplitWhitespace(b)
    decreases |a|
  {
    var s := a + [c] + b;
    if a == [] {
      assert s[1..] == b;
    } else if IsSpace(a[0]) {
      assert s[1..] == a[1..] + [c] + b;
      SplitAppend(a[1..], c, b);
    } else {
      var n := WordEnd(a);
      WordEndOfPrefix(a, c, b);
      assert s[..n] == a[..n];
      if n == |a| {
        assert s[n..] == [c] + b;
        assert ([c] + b)[1..] == b;
        assert a[n..] == [];
      } else {
        assert s[n..] == a[n..] + [c] + b;
        SplitAppend(a[n..], c, b);
      }
    }
  }

  lemma {:induction false} WordEndOfPrefix(a: string, c: char, b: string)
    requires IsSpace(c)
    ensures WordEnd(a + [c] + b) == WordEnd(a)
    decreases |a|
  {
    if a != [] && !IsSpace(a[0]) {
      assert (a + [c] + b)[1..] == a[1..] + [c] + b;
      WordEndOfPrefix(a[1..], c, b);
    }
  }

  /** A single word splits to itself. */
  lemma SplitWord(w: string)
    requires IsWord(w)
    ensures SplitWhitespace(w) == [w]
  {
    assert w[..|w|] == w;
    NoSpaceWordEnd(w);
    assert w[|w|..] == [];
  }

  lemma {:induction false} NoSpaceWordEnd(w: string)
    requires NoSpace(w)
    ensures WordEnd(w) == |w|
    decreases |w|
  {
    if w != [] {
      NoSpaceWordEnd(w[1..]);
    }
  }

  /** Words joined with single spaces. */
  function Join(words: seq<string>): string {
    if words == [] then "" else if |words| == 1 then words[0] else words[0] + " " + Join(words[1..])
  }

  /** Round trip: splitting words joined by spaces gives the words back. */
  lemma {:induction false} SplitJoin(words: seq<string>)
    requires forall w <- words :: IsWord(w)
    ensures SplitWhitespace(Join(words)) == words
  {
    if |words| == 1 {
      SplitWord(words[0]);
    } else if |words| > 1 {
      assert Join(words) == words[0] + [' '] + Join(words[1..]);
      SplitAppend(words[0], ' ', Join(words[1..]));
      SplitWord(words[0]);
      SplitJoin(words[1..]);
    }
  }

  lemma {:induction false} FilterTermsAppend(u: seq<string>, v: seq<string>)
    requires forall w <- u :: IsWord(w)
    requires forall w <- v :: IsWord(w)
    ensures FilterTerms(u + v) == FilterTerms(u) + FilterTerms(v)
  {
    if u == [] {
      assert u + v == v;
    } else {
      assert (u + v)[0] == u[0];
      assert (u + v)[1..] == u[1..] + v;
      FilterTermsAppend(u[1..], v);
    }
  }

  /** The terms of two texts separated by whitespace are the terms of the first
      followed by those of the second: tokenizing keeps the input order. */
  lemma TokenizeAppend(a: string, c: char, b: string)
    requires IsSpace(c)
    ensures Tokenize(a + [c] + b) == Tokenize(a) + Tokenize(b)
  {
    SplitAppend(a, c, b);
    FilterTermsAppend(SplitWhitespace(a), SplitWhitespace(b));
  }

  /** A word holding a non-alphanumeric character is dropped whole, never trimmed. */
  lemma DroppedWhole(a: string, w: string, b: string)
    requires IsWord(w) && !AllAlphanumeric(w)
    ensures Tokenize(a + " " + w + " " + b) == Tokenize(a) + Tokenize(b)
  {
    assert a + " " + w + " " + b == a + [' '] + (w + [' '] + b);
    TokenizeAppend(a, ' ', w + [' '] + b);
    TokenizeAppend(w, ' ', b);
    SplitWord(w);
  }

  /** An all-alphanumeric word is kept, lowercased, between the terms around it. */
  lemma KeptLowered(a: string, w: string, b: string)
    requires IsWord(w) && AllAlphanumeric(w)
    ensures Tokenize(a + " " + w + " " + b) == Tokenize(a) + [Lower(w)] + Tokenize(b)
  {
    assert a + " " + w + " " + b == a + [' '] + (w + [' '] + b);
    TokenizeAppend(a, ' ', w + [' '] + b);
    TokenizeAppend(w, ' ', b);
    SplitWord(w);
  }

  /** Text with no non-whitespace character, the empty text included, yields no terms. */
  lemma {:induction false} BlankHasNoTerms(text: string)
    requires forall i :: 0 <= i < |text| ==> IsSpace(text[i])
    ensures SplitWhitespace(text) == [] && Tokenize(text) == []
  {
    if text != [] {
      BlankHasNoTerms(text[1..]);
    }
  }
}
