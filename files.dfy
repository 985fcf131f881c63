/**
 * `File` and `Files` of src/files.rs: one term-count table per document, and a
 * corpus `dictionary` collected from all of them.
 */
module FileIndex {
  import opened Wrappers
  import opened Tokenizer
  import opened TermCounts

  /** A document and its term-count table. */
  datatype File = File(path: string, counts: map<string, nat>)

  /** The documents under a root, in walk order, and the collected dictionary. */
  datatype Files = Files(files: seq<File>, dictionary: map<string, nat>)

  /** One item produced by walking a root directory, with the text the content
      extractor yields for a regular file (`None` when reading fails). */
  datatype WalkEntry =
    | WalkError
    | Directory(path: string)
    | Regular(path: string, text: Option<string>)

  /** `File::new`: build an empty table for `path`, then `count` the terms `read` yields. */
  method NewFile(path: string, text: string) returns (f: File)
    ensures f.path == path
    ensures f.counts == Tally(Tokenize(text))
    ensures f.counts.Keys == set t | t in Tokenize(text)
    ensures forall t <- f.counts :: f.counts[t] == multiset(Tokenize(text))[t] && IsTerm(t)
  {
    f := File(path, map[]);
    var counts := CountWords(Tokenize(text));
    TallyCounts(Tokenize(text));
    f := f.(counts := counts);
  }

  /** The `dictionary` of `Files::new`: every file's pairs collected into one map
      in file order, so a later file's count for a word replaces an earlier one. */
  function Dictionary(files: seq<File>): map<string, nat> {
    if files == [] then map[] else Dictionary(files[..|files| - 1]) + files[|files| - 1].counts
  }

  /** The dictionary holds exactly the words of all files, each with its count
      in the LAST file that contains it (not a sum over the files). */
  lemma {:induction false} DictionaryLastWins(files: seq<File>, w: string)
    ensures w in Dictionary(files) <==> exists i :: 0 <= i < |files| && w in files[i].counts
    ensures forall i | 0 <= i < |files| && w in files[i].counts &&
                       (forall j | i < j < |files| :: w !in files[j].counts) ::
              w in Dictionary(files) && Dictionary(files)[w] == files[i].counts[w]
  {
    if files != [] {
      var init := files[..|files| - 1];
      DictionaryLastWins(init, w);
      assert forall i | 0 <= i < |init| :: init[i] == files[i];
      if w in files[|files| - 1].counts {
        assert exists i :: 0 <= i < |files| && w in files[i].counts by {
          assert w in files[|files| - 1].counts;
        }
      }
      if exists i :: 0 <= i < |init| && w in init[i].counts {
        var i :| 0 <= i < |init| && w in init[i].counts;
        assert w in files[i].counts;
      }
    }
  }

  /** Two one-word files: the dictionary keeps the second file's count, not the total. */
  lemma DictionaryIsNotASum()
    ensures Dictionary([File("a", map["cat" := 2]), File("b", map["cat" := 1])])["cat"] == 1
  {
    var fs := [File("a", map["cat" := 2]), File("b", map["cat" := 1])];
    assert fs[..1] == [File("a", map["cat" := 2])];
    assert fs[..1][..0] == [];
  }

  /** The walk succeeds: every entry could be read and every regular file's text extracted. */
  predicate Readable(entries: seq<WalkEntry>) {
    forall e <- entries :: !e.WalkError? && (e.Regular? ==> e.text.Some?)
  }

  /** The documents `Files::new` indexes, in walk order: one per regular file. */
  function Indexed(entries: seq<WalkEntry>): seq<File>
    requires Readable(entries)
  {
    if entries == [] then []
    else
      var init, e := entries[..|entries| - 1], entries[|entries| - 1];
      assert forall x <- init :: x in entries;
      if e.Regular? then Indexed(init) + [File(e.path, Tally(Tokenize(e.text.value)))]
      else Indexed(init)
  }

  /** `Files::new`: walk the root, push one counted `File` per regular file,
      then collect the dictionary. A failed walk entry or an unreadable file
      fails the whole build. */
  method NewFiles(entries: seq<WalkEntry>) returns (r: Result<Files>)
    ensures r.Ok? <==> Readable(entries)
    ensures r.Ok? ==> r.value.files == Indexed(entries)
    ensures r.Ok? ==> r.value.dictionary == Dictionary(r.value.files)
    ensures r.Err? ==> (r.error == WalkFailed && exists e <- entries :: e.WalkError?) ||
                       (r.error.Unreadable? && Regular(r.error.path, None) in entries)
  {
    var files: seq<File> := [];
    var i := 0;
    while i < |entries|
      invariant 0 <= i <= |entries|
      invariant Readable(entries[..i])
      invariant files == Indexed(entries[..i])
    {
      assert entries[..i + 1][..i] == entries[..i];
      var e := entries[i];
      assert e in entries;
      match e {
        case WalkError =>
          return Err(WalkFailed);
        case Directory(_) =>
        case Regular(path, text) =>
          if text.None? {
            return Err(Unreadable(path));
          }
          var f := NewFile(path, text.value);
          files := files + [f];
      }
      i := i + 1;
    }
    assert entries[..i] == entries;
    r := Ok(Files(files, Dictionary(files)));
  }
}
