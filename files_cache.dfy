/**
 * `CacheMap` of src/files_cache.rs: a persisted mapping from each root to the
 * handle of the blob that holds its serialized `Files`. Handles are numbered
 * `<files_cache>\<n>.bin`, where `n` is the number of files already in the
 * cache folder.
 */
module FilesCache {
  import opened Wrappers
  import opened FileIndex

  /** What a file on disk holds. */
  datatype Blob =
    | Empty                                                             // created, never written
    | Mapping(caches: map<string, string>, path: string, filesCache: string) // a serialized `CacheMap`
    | Bundle(files: Files)                                              // a serialized `Files`

  /** The file system, as a map from file path to contents. */
  class Disk {
    var files: map<string, Blob>
  }

  function DigitChar(d: nat): char
    requires d < 10
  {
    ('0' as int + d) as char
  }

  /** The decimal representation `format!` gives a `usize`. */
  function Digits(n: nat): (s: string)
    ensures |s| >= 1
    ensures forall i :: 0 <= i < |s| ==> '0' <= s[i] <= '9'
  {
    if n < 10 then [DigitChar(n)] else Digits(n / 10) + [DigitChar(n % 10)]
  }

  /** Distinct numbers have distinct decimal representations. */
  lemma {:induction false} DigitsInjective(a: nat, b: nat)
    requires Digits(a) == Digits(b)
    ensures a == b
  {
    if a >= 10 && b >= 10 {
      var s := Digits(a);
      assert s[..|s| - 1] == Digits(a / 10) && s[|s| - 1] == DigitChar(a % 10);
      assert s[..|s| - 1] == Digits(b / 10) && s[|s| - 1] == DigitChar(b % 10);
      DigitsInjective(a / 10, b / 10);
    }
  }

  /** `format!("{}\\{}.{}", files_cache, n, "bin")`. */
  function Handle(dir: string, n: nat): string {
    dir + "\\" + Digits(n) + ".bin"
  }

  /** Distinct indices give distinct handles in the same folder. */
  lemma HandleInjective(dir: string, a: nat, b: nat)
    requires Handle(dir, a) == Handle(dir, b)
    ensures a == b
  {
    var ha, hb := Handle(dir, a), Handle(dir, b);
    var start := |dir| + 1;
    assert |Digits(a)| == |Digits(b)|;
    assert ha[start..start + |Digits(a)|] == Digits(a);
    assert hb[start..start + |Digits(b)|] == Digits(b);
    DigitsInjective(a, b);
  }

  /** `p` lies somewhere under the folder `dir` (the walk is recursive). */
  predicate InDir(p: string, dir: string) {
    |dir| + 1 < |p| && p[..|dir| + 1] == dir + "\\"
  }

  lemma HandleInDir(dir: string, n: nat)
    ensures InDir(Handle(dir, n), dir)
  {
    assert Handle(dir, n)[..|dir| + 1] == dir + "\\";
  }

  /** The files among `paths` that lie under `dir`. */
  function InFolder(paths: set<string>, dir: string): set<string> {
    set p | p in paths && InDir(p, dir)
  }

  /** The files of the cache folder. */
  function Folder(disk: map<string, Blob>, dir: string): set<string> {
    InFolder(disk.Keys, dir)
  }

  /** The handles numbered `0` to `n - 1`. */
  function Handles(dir: string, n: nat): set<string> {
    set i | 0 <= i < n :: Handle(dir, i)
  }

  lemma {:induction false} HandlesCount(dir: string, n: nat)
    ensures |Handles(dir, n)| == n
    ensures Handle(dir, n) !in Handles(dir, n)
    ensures Handles(dir, n + 1) == Handles(dir, n) + {Handle(dir, n)}
  {
    if Handle(dir, n) in Handles(dir, n) {
      var i :| 0 <= i < n && Handle(dir, i) == Handle(dir, n);
      HandleInjective(dir, i, n);
    }
    if n > 0 {
      HandlesCount(dir, n - 1);
    }
  }

  /** The abstract state of a `CacheMap` and the disk it works on. */
  datatype CacheState = CacheState(caches: map<string, string>, filesCache: string, disk: map<string, Blob>)

  /** `add_files`: a cached root changes nothing; a new root is written as one
      new blob at the handle numbered by the folder's file count and mapped to it. */
  function Added(s: CacheState, root: string, files: Files): (t: CacheState)
    ensures t.filesCache == s.filesCache
    ensures root in s.caches ==> t == s
    ensures root in t.caches && t.caches.Keys == s.caches.Keys + {root}
    ensures forall r <- s.caches :: t.caches[r] == s.caches[r]
    ensures root !in s.caches ==>
              t.caches[root] == Handle(s.filesCache, |Folder(s.disk, s.filesCache)|) &&
              t.disk == s.disk[t.caches[root] := Bundle(files)]
  {
    if root in s.caches then s
    else
      var handle := Handle(s.filesCache, |Folder(s.disk, s.filesCache)|);
      CacheState(s.caches[root := handle], s.filesCache, s.disk[handle := Bundle(files)])
  }

  /** `Files::from_binary`: the `Files` stored under `handle`, or a corrupt cache. */
  function Load(disk: map<string, Blob>, handle: string): (r: Result<Files>)
    ensures r.Ok? <==> handle in disk && disk[handle].Bundle?
    ensures r.Ok? ==> disk[handle] == Bundle(r.value)
  {
    if handle in disk && disk[handle].Bundle? then Ok(disk[handle].files) else Err(CacheCorrupt(handle))
  }

  /** The cache folder holds exactly the blobs `0.bin` to `(n-1).bin`; every root
      maps to one of them holding a serialized `Files`; and no two roots share one. */
  predicate CacheValid(s: CacheState) {
    var folder := Folder(s.disk, s.filesCache);
    && folder == Handles(s.filesCache, |folder|)
    && (forall r <- s.caches :: s.caches[r] in folder && s.disk[s.caches[r]].Bundle?)
    && (forall r1 <- s.caches, r2 <- s.caches :: r1 != r2 ==> s.caches[r1] != s.caches[r2])
  }

  lemma FolderAfterWrite(disk: map<string, Blob>, dir: string, n: nat, b: Blob)
    requires Folder(disk, dir) == Handles(dir, n)
    ensures Folder(disk[Handle(dir, n) := b], dir) == Handles(dir, n + 1)
  {
    HandlesCount(dir, n);
    HandleInDir(dir, n);
    assert disk[Handle(dir, n) := b].Keys == disk.Keys + {Handle(dir, n)};
    InFolderInsert(disk.Keys, dir, Handle(dir, n));
  }

  lemma InFolderInsert(paths: set<string>, dir: string, h: string)
    requires InDir(h, dir)
    ensures InFolder(paths + {h}, dir) == InFolder(paths, dir) + {h}
  {
  }

  lemma InFolderStep(paths: set<string>, dir: string, p: string)
    requires p !in paths
    ensures |InFolder(paths + {p}, dir)| == |InFolder(paths, dir)| + (if InDir(p, dir) then 1 else 0)
  {
    if InDir(p, dir) {
      InFolderInsert(paths, dir, p);
    } else {
      assert InFolder(paths + {p}, dir) == InFolder(paths, dir);
    }
  }

  /** A mapping with no roots over an empty cache folder is valid: the state a
      freshly built `CacheMap` starts from. */
  lemma EmptyValid(dir: string, disk: map<string, Blob>)
    requires Folder(disk, dir) == {}
    ensures CacheValid(CacheState(map[], dir, disk))
  {
    HandlesCount(dir, 0);
  }

  /** Writing a file outside the cache folder (the mapping file itself, by
      `build`, `to_binary` or `drop`) keeps the cache valid. A file written
      inside the folder would be counted as a blob and break the numbering. */
  lemma OutsideWriteKeepsValid(s: CacheState, p: string, b: Blob)
    requires CacheValid(s) && !InDir(p, s.filesCache)
    ensures CacheValid(CacheState(s.caches, s.filesCache, s.disk[p := b]))
  {
    assert s.disk[p := b].Keys == s.disk.Keys + {p};
    assert Folder(s.disk[p := b], s.filesCache) == Folder(s.disk, s.filesCache);
  }

  /** Adding keeps the cache valid; a new root gets a handle no other root has,
      and the folder grows by exactly one blob. */
  lemma AddedKeepsValid(s: CacheState, root: string, files: Files)
    requires CacheValid(s)
    ensures CacheValid(Added(s, root, files))
    ensures root !in s.caches ==>
              (forall r <- s.caches :: s.caches[r] != Added(s, root, files).caches[root]) &&
              |Folder(Added(s, root, files).disk, s.filesCache)| == |Folder(s.disk, s.filesCache)| + 1
  {
    if root !in s.caches {
      FreshHandle(s);
      AddedFolder(s, root, files);
      AddedEntries(s, root, files);
    }
  }

  /** A new root's blob extends the folder from `0..n-1` to `0..n`. */
  lemma AddedFolder(s: CacheState, root: string, files: Files)
    requires CacheValid(s) && root !in s.caches
    ensures var n := |Folder(s.disk, s.filesCache)|;
            var folder := Folder(Added(s, root, files).disk, s.filesCache);
            folder == Handles(s.filesCache, n + 1) && |folder| == n + 1
  {
    var dir, n := s.filesCache, |Folder(s.disk, s.filesCache)|;
    FolderAfterWrite(s.disk, dir, n, Bundle(files));
    HandlesCount(dir, n + 1);
  }

  /** After a new root is added, every root still maps into the folder, to a `Files` blob. */
  lemma AddedEntries(s: CacheState, root: string, files: Files)
    requires CacheValid(s) && root !in s.caches
    ensures var t := Added(s, root, files);
            forall r <- t.caches :: t.caches[r] in Folder(t.disk, t.filesCache) && t.disk[t.caches[r]].Bundle?
  {
    var t := Added(s, root, files);
    var dir := s.filesCache;
    HandleInDir(dir, |Folder(s.disk, dir)|);
    FreshHandle(s);
    assert Folder(s.disk, dir) <= Folder(t.disk, dir);
  }

  /** The next handle of a valid cache is not yet used by any root. */
  lemma FreshHandle(s: CacheState)
    requires CacheValid(s)
    ensures forall r <- s.caches :: s.caches[r] != Handle(s.filesCache, |Folder(s.disk, s.filesCache)|)
  {
    var dir, n := s.filesCache, |Folder(s.disk, s.filesCache)|;
    HandlesCount(dir, n);
    forall r <- s.caches
      ensures s.caches[r] != Handle(dir, n)
    {
      assert s.caches[r] in Handles(dir, n);
    }
  }

  /** Two successive adds of distinct new roots receive the next two indices. */
  lemma SuccessiveAdds(s: CacheState, r1: string, f1: Files, r2: string, f2: Files)
    requires CacheValid(s)
    requires r1 !in s.caches && r2 !in s.caches && r1 != r2
    ensures var n := |Folder(s.disk, s.filesCache)|;
            var t := Added(Added(s, r1, f1), r2, f2);
            t.caches[r1] == Handle(s.filesCache, n) &&
            t.caches[r2] == Handle(s.filesCache, n + 1) &&
            t.caches[r1] != t.caches[r2]
  {
    var n := |Folder(s.disk, s.filesCache)|;
    var t1 := Added(s, r1, f1);
    AddedKeepsValid(s, r1, f1);
    assert |Folder(t1.disk, t1.filesCache)| == n + 1;
    var t2 := Added(t1, r2, f2);
    assert t2.caches[r2] == Handle(s.filesCache, n + 1);
    assert t2.caches[r1] == t1.caches[r1] == Handle(s.filesCache, n);
    if Handle(s.filesCache, n) == Handle(s.filesCache, n + 1) {
      HandleInjective(s.filesCache, n, n + 1);
    }
  }

  /** After a miss has added `root`, fetching it again is a hit that loads exactly
      the `Files` that was persisted, without building. */
  lemma HitAfterAdd(s: CacheState, root: string, files: Files)
    requires root !in s.caches
    ensures root in Added(s, root, files).caches
    ensures Load(Added(s, root, files).disk, Added(s, root, files).caches[root]) == Ok(files)
  {
  }

  /** In a valid cache a hit never reports a corrupt blob. */
  lemma ValidHitLoads(s: CacheState, root: string)
    requires CacheValid(s) && root in s.caches
    ensures Load(s.disk, s.caches[root]).Ok?
  {
  }

  class CacheMap {
    var caches: map<string, string>
    var path: string
    var filesCache: string

    function State(disk: Disk): CacheState
      reads this, disk
    {
      CacheState(caches, filesCache, disk.files)
    }

    /** `CacheMap::build`: create an empty file at `path` and an empty mapping. */
    constructor Build(disk: Disk, path: string, filesCache: string)
      modifies disk
      ensures caches == map[] && this.path == path && this.filesCache == filesCache
      ensures disk.files == old(disk.files)[path := Empty]
      ensures Folder(old(disk.files), filesCache) == {} && !InDir(path, filesCache) ==> CacheValid(State(disk))
    {
      caches := map[];
      this.path := path;
      this.filesCache := filesCache;
      new;
      disk.files := disk.files[path := Empty];
      if Folder(old(disk.files), filesCache) == {} && !InDir(path, filesCache) {
        EmptyValid(filesCache, old(disk.files));
        OutsideWriteKeepsValid(CacheState(map[], filesCache, old(disk.files)), path, Empty);
      }
    }

    /** The structure as deserialized from a mapping file. */
    constructor Restore(caches: map<string, string>, path: string, filesCache: string)
      ensures this.caches == caches && this.path == path && this.filesCache == filesCache
    {
      this.caches := caches;
      this.path := path;
      this.filesCache := filesCache;
    }

    /** `CacheMap::new`: load the mapping stored at `path` (keeping the fields it
        was saved with), or build an empty one when no file is there. A file that
        does not hold a mapping fails to deserialize (`None`). */
    static method New(disk: Disk, path: string, filesCache: string) returns (m: Option<CacheMap>)
      modifies disk
      ensures path !in old(disk.files) ==>
                m.Some? && fresh(m.value) && m.value.caches == map[] &&
                m.value.path == path && m.value.filesCache == filesCache &&
                disk.files == old(disk.files)[path := Empty]
      ensures path in old(disk.files) ==> disk.files == old(disk.files)
      ensures path in old(disk.files) ==> (m.Some? <==> old(disk.files)[path].Mapping?)
      ensures path in old(disk.files) && m.Some? ==>
                fresh(m.value) &&
                old(disk.files)[path] == Mapping(m.value.caches, m.value.path, m.value.filesCache)
    {
      if path !in disk.files {
        var built := new CacheMap.Build(disk, path, filesCache);
        return Some(built);
      }
      var blob := disk.files[path];
      if !blob.Mapping? {
        return None;
      }
      var restored := new CacheMap.Restore(blob.caches, blob.path, blob.filesCache);
      m := Some(restored);
    }

    /** `to_binary`: serialize this mapping to the file at `p`. */
    method ToBinary(disk: Disk, p: string)
      modifies disk
      ensures disk.files == old(disk.files)[p := Mapping(caches, path, filesCache)]
      ensures CacheValid(old(State(disk))) && !InDir(p, filesCache) ==> CacheValid(State(disk))
    {
      if CacheValid(State(disk)) && !InDir(p, filesCache) {
        OutsideWriteKeepsValid(State(disk), p, Mapping(caches, path, filesCache));
      }
      disk.files := disk.files[p := Mapping(caches, path, filesCache)];
    }

    /** `impl Drop for CacheMap`: flush the mapping to its own path. */
    method Drop(disk: Disk)
      modifies disk
      ensures disk.files == old(disk.files)[path := Mapping(caches, path, filesCache)]
      ensures CacheValid(old(State(disk))) && !InDir(path, filesCache) ==> CacheValid(State(disk))
    {
      ToBinary(disk, path);
    }

    /** `get_cache_index`: the number of files under the cache folder. */
    method GetCacheIndex(disk: Disk) returns (counter: nat)
      ensures counter == |Folder(disk.files, filesCache)|
    {
      counter := 0;
      var remaining := disk.files.Keys;
      ghost var seen: set<string> := {};
      while remaining != {}
        invariant remaining !! seen && remaining + seen == disk.files.Keys
        invariant counter == |InFolder(seen, filesCache)|
        decreases |remaining|
      {
        var p :| p in remaining;
        InFolderStep(seen, filesCache, p);
        if InDir(p, filesCache) {
          counter := counter + 1;
        }
        remaining := remaining - {p};
        seen := seen + {p};
      }
    }

    /** `add_files`. */
    method AddFiles(disk: Disk, root: string, files: Files)
      modifies this, disk
      ensures State(disk) == Added(old(State(disk)), root, files)
      ensures path == old(path)
    {
      if root in caches {
        return;
      }
      var index := GetCacheIndex(disk);
      var handle := Handle(filesCache, index);
      disk.files := disk.files[handle := Bundle(files)];
      caches := caches[root := handle];
    }

    /** `get_files`: load the cached `Files` of a known root; otherwise build it
        from the walk of `root` (`Files::new`) and add it. */
    method GetFiles(disk: Disk, root: string, entries: seq<WalkEntry>) returns (r: Result<Files>)
      modifies this, disk
      ensures path == old(path)
      ensures root in old(caches) ==> State(disk) == old(State(disk)) && r == Load(disk.files, caches[root])
      ensures root !in old(caches) ==> (r.Ok? <==> Readable(entries))
      ensures root !in old(caches) && r.Ok? ==>
                r.value.files == Indexed(entries) && r.value.dictionary == Dictionary(Indexed(entries)) &&
                State(disk) == Added(old(State(disk)), root, r.value)
      ensures root !in old(caches) && r.Err? ==> State(disk) == old(State(disk))
    {
      if root in caches {
        r := Load(disk.files, caches[root]);
        return;
      }
      r := NewFiles(entries);
      if r.Ok? {
        AddFiles(disk, root, r.value);
      }
    }
  }
}
