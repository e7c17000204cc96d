/** Collecting the files of a source tree for packaging: what a walk visits in whatever order, less what is
ignored, sorted by path, so that the archive does not depend on the walk.  Glob matching is a parameter. */
module Collector {
  import opened Outcomes
  import opened Text
  import opened Ordering

  /** What a walk meets: an error, something that is not a regular file, or a file with its content if it
      can be read. */
  datatype Item =
    | WalkError(path: string)
    | NotRegular(path: string)
    | Regular(path: string, content: Option<seq<bv8>>)

  datatype FileEntry = FileEntry(relPath: string, content: seq<bv8>)

  type Glob = (string, string) -> bool

  // ----- Ignoring ----------------------------------------------------------------------------

  /** A directory pattern covers the paths whose components begin with its own; any other pattern is a glob
      for a component or for the whole path. */
  predicate Covers(pattern: string, path: string, glob: Glob) {
    if HasSuffix(pattern, "/**") then PartsBegin(path, pattern[..|pattern| - 3], '/')
    else glob(pattern, path) || exists k :: 0 <= k < |Split(path, '/')| && glob(pattern, Split(path, '/')[k])
  }

  predicate Ignored(patterns: seq<string>, path: string, glob: Glob) {
    exists i :: 0 <= i < |patterns| && Covers(patterns[i], path, glob)
  }

  method IsIgnored(path: string, patterns: seq<string>, glob: Glob) returns (r: bool)
    ensures r == Ignored(patterns, path, glob)
  {
    hide Split, PartsBegin, HasPrefix;
    for i := 0 to |patterns|
      invariant forall j | 0 <= j < i :: !Covers(patterns[j], path, glob)
    {
      var pattern := patterns[i];
      if HasSuffix(pattern, "/**") {
        var prefix := pattern[..|pattern| - 3];
        PrefixIsParts(path, prefix, '/');
        if path == prefix || HasPrefix(path, prefix + "/") {
          return true;
        }
        continue;
      }
      var parts := Split(path, '/');
      for k := 0 to |parts|
        invariant forall j | 0 <= j < k :: !glob(pattern, parts[j])
      {
        if glob(pattern, parts[k]) {
          assert Covers(pattern, path, glob);
          return true;
        }
      }
      if glob(pattern, path) {
        return true;
      }
    }
    return false;
  }

  predicate HasDotDot(path: string) {
    exists k :: 0 <= k < |path| - 1 && path[k] == '.' && path[k + 1] == '.'
  }

  // ----- Collecting --------------------------------------------------------------------------

  datatype Settings = Settings(patterns: seq<string>, limit: nat, glob: Glob)

  /** An item that makes the collection fail: an error, ".." anywhere in a regular file's path, ignored or not, or a
      file to be collected that cannot be read or is too long. */
  predicate Fails(s: Settings, item: Item) {
    || item.WalkError?
    || (item.Regular? && HasDotDot(item.path))
    || (item.Regular? && !Ignored(s.patterns, item.path, s.glob) && (item.content.None? || |item.content.value| > s.limit))
  }

  predicate Kept(s: Settings, item: Item) {
    item.Regular? && !Ignored(s.patterns, item.path, s.glob) && item.content.Some?
  }

  function EntryOf(item: Item): FileEntry
    requires item.Regular? && item.content.Some?
  {
    FileEntry(item.path, item.content.value)
  }

  ghost predicate Collected(s: Settings, walk: seq<Item>, entries: seq<FileEntry>) {
    forall e :: e in entries <==> exists k :: 0 <= k < |walk| && Kept(s, walk[k]) && EntryOf(walk[k]) == e
  }

  predicate SortedByPath(entries: seq<FileEntry>) {
    forall i, j | 0 <= i < j < |entries| :: Less(entries[i].relPath, entries[j].relPath)
  }

  /** No two regular files share a path. */
  predicate DistinctPaths(walk: seq<Item>) {
    forall i, j | 0 <= i < j < |walk| :: walk[i].Regular? && walk[j].Regular? ==> walk[i].path != walk[j].path
  }

  predicate DistinctEntries(entries: seq<FileEntry>) {
    forall i, j | 0 <= i < j < |entries| :: entries[i].relPath != entries[j].relPath
  }

  /** Fails when some item does; otherwise lists exactly the files kept, in strictly increasing order of path. */
  method Collect(s: Settings, walk: seq<Item>) returns (r: Result<seq<FileEntry>, Item>)
    requires DistinctPaths(walk)
    ensures IsCollection(s, walk, r)
  {
    hide Ignored, HasDotDot, Less;
    var entries: seq<FileEntry> := [];
    for i := 0 to |walk|
      invariant forall k | 0 <= k < i :: !Fails(s, walk[k])
      invariant Collected(s, walk[..i], entries)
      invariant DistinctEntries(entries)
    {
      var item := walk[i];
      assert walk[..i + 1] == walk[..i] + [item];
      CollectedNext(s, walk[..i], entries, item);
      match item {
        case WalkError(_) =>
          return Err(item);
        case NotRegular(_) =>
        case Regular(path, content) =>
          if HasDotDot(path) {
            return Err(item);
          }
          var ignored := IsIgnored(path, s.patterns, s.glob);
          if !ignored {
            if content.None? || |content.value| > s.limit {
              return Err(item);
            }
            FreshPath(s, walk, i, entries);
            entries := entries + [FileEntry(path, content.value)];
          }
      }
    }
    assert walk[..|walk|] == walk;
    var sorted := SortByPath(entries);
    return Ok(sorted);
  }

  lemma {:induction false} CollectedNext(s: Settings, walk: seq<Item>, entries: seq<FileEntry>, item: Item)
    requires Collected(s, walk, entries)
    ensures Kept(s, item) ==> Collected(s, walk + [item], entries + [EntryOf(item)])
    ensures !Kept(s, item) ==> Collected(s, walk + [item], entries)
  {
    hide Ignored;
    var next := walk + [item];
    forall e
      ensures (exists k :: 0 <= k < |next| && Kept(s, next[k]) && EntryOf(next[k]) == e)
         <==> (e in entries || (Kept(s, item) && EntryOf(item) == e))
    {
      if Kept(s, item) && EntryOf(item) == e {
        assert next[|walk|] == item;
      }
      if e in entries {
        var k :| 0 <= k < |walk| && Kept(s, walk[k]) && EntryOf(walk[k]) == e;
        assert next[k] == walk[k];
      }
    }
    if Kept(s, item) {
      assert forall e :: e in entries + [EntryOf(item)] <==> e in entries || e == EntryOf(item);
    }
  }

  lemma {:induction false} FreshPath(s: Settings, walk: seq<Item>, i: nat, entries: seq<FileEntry>)
    requires i < |walk| && DistinctPaths(walk) && walk[i].Regular? && Collected(s, walk[..i], entries)
    ensures forall k | 0 <= k < |entries| :: entries[k].relPath != walk[i].path
  {
    forall k | 0 <= k < |entries|
      ensures entries[k].relPath != walk[i].path
    {
      assert entries[k] in entries;
      var j :| 0 <= j < i && Kept(s, walk[..i][j]) && EntryOf(walk[..i][j]) == entries[k];
    }
  }

  /** The same entries in increasing order of path. */
  method SortByPath(entries: seq<FileEntry>) returns (sorted: seq<FileEntry>)
    requires DistinctEntries(entries)
    ensures SortedByPath(sorted)
    ensures forall e :: e in sorted <==> e in entries
  {
    sorted := [];
    for i := 0 to |entries|
      invariant SortedByPath(sorted)
      invariant forall e :: e in sorted <==> e in entries[..i]
    {
      var e := entries[i];
      forall k | 0 <= k < |sorted|
        ensures sorted[k].relPath != e.relPath
      {
        assert sorted[k] in sorted;
      }
      var at := 0;
      while at < |sorted| && Less(sorted[at].relPath, e.relPath)
        invariant at <= |sorted|
        invariant forall k | 0 <= k < at :: Less(sorted[k].relPath, e.relPath)
      {
        at := at + 1;
      }
      InsertedSorted(sorted, at, e);
      assert entries[..i + 1] == entries[..i] + [e];
      assert sorted == sorted[..at] + sorted[at..];
      sorted := sorted[..at] + [e] + sorted[at..];
    }
    assert entries[..|entries|] == entries;
  }

  lemma {:induction false} InsertedSorted(sorted: seq<FileEntry>, at: nat, e: FileEntry)
    requires SortedByPath(sorted) && at <= |sorted|
    requires forall k | 0 <= k < |sorted| :: sorted[k].relPath != e.relPath
    requires forall k | 0 <= k < at :: Less(sorted[k].relPath, e.relPath)
    requires at < |sorted| ==> !Less(sorted[at].relPath, e.relPath)
    ensures SortedByPath(sorted[..at] + [e] + sorted[at..])
  {
    hide Less;
    forall k | at <= k < |sorted|
      ensures Less(e.relPath, sorted[k].relPath)
    {
      LessTotal(sorted[at].relPath, e.relPath);
      if k > at {
        LessTransitive(e.relPath, sorted[at].relPath, sorted[k].relPath);
      }
    }
  }

  // ----- Independence of the walk --------------------------------------------------------------

  /** The two walks visit the same things. */
  ghost predicate SameItems(a: seq<Item>, b: seq<Item>) {
    forall item :: item in a <==> item in b
  }

  /** A listing sorted by path is determined by its members. */
  lemma {:induction false} SortedEntriesUnique(a: seq<FileEntry>, b: seq<FileEntry>)
    requires SortedByPath(a) && SortedByPath(b) && forall e :: e in a <==> e in b
    ensures a == b
  {
    var p, q := Paths(a), Paths(b);
    forall y
      ensures y in p <==> y in q
    {
      if y in p {
        var i :| 0 <= i < |p| && p[i] == y;
        assert a[i] in a && a[i] in b;
        var j :| 0 <= j < |b| && b[j] == a[i];
        assert q[j] == y;
      }
      if y in q {
        var i :| 0 <= i < |q| && q[i] == y;
        assert b[i] in b && b[i] in a;
        var j :| 0 <= j < |a| && a[j] == b[i];
        assert p[j] == y;
      }
    }
    SortedUnique(p, q);
    assert |a| == |p| == |q| == |b|;
    forall i | 0 <= i < |a|
      ensures a[i] == b[i]
    {
      assert a[i] in a;
      var j :| 0 <= j < |b| && b[j] == a[i];
      assert p[i] == q[i] && q[j] == p[i];
      SamePlace(q, i, j);
    }
  }

  lemma {:induction false} SamePlace(p: seq<string>, i: nat, j: nat)
    requires StrictlySorted(p) && i < |p| && j < |p| && p[i] == p[j]
    ensures i == j
  {
    LessIrreflexive(p[i]);
  }

  function Paths(entries: seq<FileEntry>): (p: seq<string>)
    ensures |p| == |entries| && forall i | 0 <= i < |p| :: p[i] == entries[i].relPath
  {
    seq(|entries|, i requires 0 <= i < |entries| => entries[i].relPath)
  }

  /** What `Collect` promises. */
  ghost predicate IsCollection(s: Settings, walk: seq<Item>, r: Result<seq<FileEntry>, Item>) {
    && (r.Err? <==> exists k :: 0 <= k < |walk| && Fails(s, walk[k]))
    && (r.Ok? ==> SortedByPath(r.value) && Collected(s, walk, r.value))
  }

  /** Whatever the order of the walk, collecting fails alike or gives the same entries in the same order. */
  lemma {:induction false} OrderDoesNotMatter(s: Settings, a: seq<Item>, b: seq<Item>, ra: Result<seq<FileEntry>, Item>, rb: Result<seq<FileEntry>, Item>)
    requires SameItems(a, b) && IsCollection(s, a, ra) && IsCollection(s, b, rb)
    ensures ra.Err? <==> rb.Err?
    ensures ra.Ok? ==> ra == rb
  {
    hide Fails, Kept;
    SameFailures(s, a, b);
    SameFailures(s, b, a);
    if ra.Ok? {
      forall e
        ensures e in ra.value <==> e in rb.value
      {
        SameKept(s, a, b, e);
        SameKept(s, b, a, e);
      }
      SortedEntriesUnique(ra.value, rb.value);
    }
  }

  lemma {:induction false} SameFailures(s: Settings, a: seq<Item>, b: seq<Item>)
    requires forall item | item in a :: item in b
    ensures (exists k :: 0 <= k < |a| && Fails(s, a[k])) ==> exists k :: 0 <= k < |b| && Fails(s, b[k])
  {
    if k :| 0 <= k < |a| && Fails(s, a[k]) {
      assert a[k] in b;
      var j :| 0 <= j < |b| && b[j] == a[k];
    }
  }

  lemma {:induction false} SameKept(s: Settings, a: seq<Item>, b: seq<Item>, e: FileEntry)
    requires forall item | item in a :: item in b
    ensures (exists k :: 0 <= k < |a| && Kept(s, a[k]) && EntryOf(a[k]) == e) ==>
            exists k :: 0 <= k < |b| && Kept(s, b[k]) && EntryOf(b[k]) == e
  {
    if k :| 0 <= k < |a| && Kept(s, a[k]) && EntryOf(a[k]) == e {
      assert a[k] in b;
      var j :| 0 <= j < |b| && b[j] == a[k];
    }
  }

  /** The patterns of one collection: the defaults, then the lines of the ignore file that are neither blank
      nor comments.  The lines come with surrounding blanks removed. */
  method PatternsFor(defaults: seq<string>, lines: seq<string>) returns (patterns: seq<string>)
    ensures |defaults| <= |patterns| && patterns[..|defaults|] == defaults
    ensures forall p :: p in patterns <==> p in defaults || (p in lines && p != "" && p[0] != '#')
  {
    patterns := defaults;
    for i := 0 to |lines|
      invariant |patterns| >= |defaults| && patterns[..|defaults|] == defaults
      invariant forall p :: p in patterns <==> p in defaults || (p in lines[..i] && p != "" && p[0] != '#')
    {
      if lines[i] == "" || HasPrefix(lines[i], "#") {
        continue;
      }
      patterns := patterns + [lines[i]];
    }
    assert lines[..|lines|] == lines;
  }

  /** More files that are ignored, such as the lock file and the archive a build leaves behind, change nothing
      unless a path of theirs contains "..". */
  lemma {:induction false} IgnoredFilesDoNotMatter(s: Settings, walk: seq<Item>, extra: seq<Item>,
      ra: Result<seq<FileEntry>, Item>, rb: Result<seq<FileEntry>, Item>)
    requires forall k | 0 <= k < |extra| :: extra[k].Regular? && Ignored(s.patterns, extra[k].path, s.glob)
    requires IsCollection(s, walk, ra) && IsCollection(s, walk + extra, rb) && ra.Ok?
    ensures rb == ra <==> forall k | 0 <= k < |extra| :: !HasDotDot(extra[k].path)
  {
    hide Ignored, HasDotDot;
    var all := walk + extra;
    if k :| 0 <= k < |extra| && HasDotDot(extra[k].path) {
      assert all[|walk| + k] == extra[k];
    } else {
      forall k | 0 <= k < |all|
        ensures !Fails(s, all[k])
      {
        if k < |walk| {
          assert all[k] == walk[k];
        } else {
          assert all[k] == extra[k - |walk|];
        }
      }
      forall e
        ensures e in ra.value <==> e in rb.value
      {
        if e in ra.value {
          var k :| 0 <= k < |walk| && Kept(s, walk[k]) && EntryOf(walk[k]) == e;
          assert all[k] == walk[k];
        }
        if e in rb.value {
          var k :| 0 <= k < |all| && Kept(s, all[k]) && EntryOf(all[k]) == e;
          KeptIsFromWalk(s, walk, extra, k);
        }
      }
      SortedEntriesUnique(ra.value, rb.value);
    }
  }

  lemma {:induction false} KeptIsFromWalk(s: Settings, walk: seq<Item>, extra: seq<Item>, k: nat)
    requires forall k | 0 <= k < |extra| :: extra[k].Regular? && Ignored(s.patterns, extra[k].path, s.glob)
    requires k < |walk + extra| && Kept(s, (walk + extra)[k])
    ensures k < |walk| && (walk + extra)[k] == walk[k]
  {
    hide Ignored;
    assert forall i | 0 <= i < |extra| :: (walk + extra)[|walk| + i] == extra[i];
    assert forall i | |walk| <= i < |walk + extra| :: (walk + extra)[i] == extra[i - |walk|];
  }

  // ----- The archive -----------------------------------------------------------------------

  const MANIFEST_NAME: string := "skillledger.json"

  /** A tar header with everything that is not fixed, and the content. */
  datatype TarEntry = TarEntry(name: string, size: nat, modTime: int, content: seq<bv8>)

  function TarOf(name: string, content: seq<bv8>, epoch: int): TarEntry {
    TarEntry(name, |content|, epoch, content)
  }

  /** The manifest first, then the files in their order. */
  method CreateArchive(manifest: seq<bv8>, files: seq<FileEntry>, epoch: int) returns (archive: seq<TarEntry>)
    ensures IsArchive(archive, manifest, files, epoch)
    ensures |archive| == |files| + 1 && archive[0] == TarEntry("skillledger.json", |manifest|, epoch, manifest)
    ensures forall k | 0 <= k < |files| ::
              var e := archive[k + 1];
              e == TarEntry(files[k].relPath, |files[k].content|, epoch, files[k].content)
  {
    archive := [TarOf(MANIFEST_NAME, manifest, epoch)];
    for i := 0 to |files|
      invariant |archive| == i + 1 && archive[0] == TarOf(MANIFEST_NAME, manifest, epoch)
      invariant forall k | 0 <= k < i :: archive[k + 1] == TarOf(files[k].relPath, files[k].content, epoch)
    {
      archive := archive + [TarOf(files[i].relPath, files[i].content, epoch)];
    }
  }

  predicate IsArchive(archive: seq<TarEntry>, manifest: seq<bv8>, files: seq<FileEntry>, epoch: int) {
    && |archive| == |files| + 1
    && archive[0] == TarOf(MANIFEST_NAME, manifest, epoch)
    && forall k | 0 <= k < |files| :: archive[k + 1] == TarOf(files[k].relPath, files[k].content, epoch)
  }

  /** The entries written depend only on the manifest, the set of files visited and the epoch. */
  lemma {:induction false} ArchiveIsReproducible(s: Settings, a: seq<Item>, b: seq<Item>, ra: Result<seq<FileEntry>, Item>, rb: Result<seq<FileEntry>, Item>,
      manifest: seq<bv8>, epoch: int, x: seq<TarEntry>, y: seq<TarEntry>)
    requires SameItems(a, b) && IsCollection(s, a, ra) && IsCollection(s, b, rb) && ra.Ok? && rb.Ok?
    requires IsArchive(x, manifest, ra.value, epoch) && IsArchive(y, manifest, rb.value, epoch)
    ensures x == y
  {
    OrderDoesNotMatter(s, a, b, ra, rb);
    var files := ra.value;
    forall k | 0 <= k < |x|
      ensures x[k] == y[k]
    {
      if k > 0 {
        var f := files[k - 1];
        assert x[k] == TarOf(f.relPath, f.content, epoch) == y[k];
      }
    }
  }

  /** The names in the archive are distinct exactly when no collected file has the manifest's name. */
  lemma {:induction false} NamesAreDistinctExactly(archive: seq<TarEntry>, manifest: seq<bv8>, files: seq<FileEntry>, epoch: int)
    requires IsArchive(archive, manifest, files, epoch) && SortedByPath(files)
    ensures (forall i, j | 0 <= i < j < |archive| :: archive[i].name != archive[j].name)
       <==> (forall k | 0 <= k < |files| :: files[k].relPath != MANIFEST_NAME)
  {
    hide Less;
    if forall i, j | 0 <= i < j < |archive| :: archive[i].name != archive[j].name {
      forall k | 0 <= k < |files|
        ensures files[k].relPath != MANIFEST_NAME
      {
        assert archive[0].name != archive[k + 1].name;
      }
    }
    if forall k | 0 <= k < |files| :: files[k].relPath != MANIFEST_NAME {
      forall i, j | 0 <= i < j < |archive|
        ensures archive[i].name != archive[j].name
      {
        assert archive[j - 1 + 1].name == files[j - 1].relPath;
        if i > 0 {
          assert archive[i - 1 + 1].name == files[i - 1].relPath;
          LessIrreflexive(files[i - 1].relPath);
        }
      }
    }
  }

  /** A source file called like the manifest is collected, and the archive then has two entries of that name. */
  lemma {:induction false} ManifestNameTwice(limit: nat, glob: Glob, content: seq<bv8>, r: Result<seq<FileEntry>, Item>,
      manifest: seq<bv8>, epoch: int, archive: seq<TarEntry>)
    requires |content| <= limit
    requires IsCollection(Settings([], limit, glob), [Regular(MANIFEST_NAME, Some(content))], r)
    requires r.Ok? ==> IsArchive(archive, manifest, r.value, epoch)
    ensures r == Ok([FileEntry(MANIFEST_NAME, content)])
    ensures |archive| == 2 && archive[0].name == archive[1].name == MANIFEST_NAME
    ensures archive[0].content == manifest && archive[1].content == content
  {
    var s, item := Settings([], limit, glob), Regular(MANIFEST_NAME, Some(content));
    var walk, entry := [item], FileEntry(MANIFEST_NAME, content);
    assert !HasDotDot(MANIFEST_NAME);
    assert !Fails(s, item) && Kept(s, item) && EntryOf(item) == entry;
    assert walk[0] == item;
    hide Fails, Kept;
    assert r.Ok?;
    forall e
      ensures e in r.value <==> e in [entry]
    {
      if e == entry {
        assert Kept(s, walk[0]) && EntryOf(walk[0]) == e;
      }
    }
    SortedEntriesUnique(r.value, [entry]);
    assert r.value[0] == entry;
    assert archive[1] == TarOf(r.value[0].relPath, r.value[0].content, epoch);
  }

  /** One file with two dots in a row in its name fails the whole collection, even when a pattern ignores it. */
  lemma DotDotFailsCollection(limit: nat, glob: Glob, walk: seq<Item>, content: Option<seq<bv8>>, r: Result<seq<FileEntry>, Item>)
    requires Regular("a..b", content) in walk && IsCollection(Settings(["a..b"], limit, glob), walk, r)
    requires glob("a..b", "a..b")
    ensures Ignored(["a..b"], "a..b", glob) && r.Err?
  {
    assert !HasSuffix("a..b", "/**");
    assert Covers(["a..b"][0], "a..b", glob);
    var item := Regular("a..b", content);
    assert "a..b"[1] == '.' && "a..b"[2] == '.';
    var k :| 0 <= k < |walk| && walk[k] == item;
    assert Fails(Settings(["a..b"], limit, glob), walk[k]);
  }

  // ----- Collecting and ignoring, in terms of the items themselves -----------------------------

  /** A pattern that ends in a slash and two stars covers the directory before it and what is below; any other pattern
      is a glob for the whole path or for one of its components. */
  ghost predicate CoveredBy(pattern: string, path: string, glob: Glob) {
    if |pattern| >= 3 && pattern[|pattern| - 3..] == "/**" then
      var dir := pattern[..|pattern| - 3];
      path == dir || (|path| > |dir| && path[..|dir|] == dir && path[|dir|] == '/')
    else glob(pattern, path) || exists k :: 0 <= k < |Split(path, '/')| && glob(pattern, Split(path, '/')[k])
  }

  lemma CoversIs(pattern: string, path: string, glob: Glob)
    ensures Covers(pattern, path, glob) <==> CoveredBy(pattern, path, glob)
  {
    hide Split, PartsBegin;
    if |pattern| >= 3 && pattern[|pattern| - 3..] == "/**" {
      var dir := pattern[..|pattern| - 3];
      PrefixIsParts(path, dir, '/');
      if |path| > |dir| {
        assert path[..|dir| + 1] == path[..|dir|] + [path[|dir|]];
        assert (dir + "/")[..|dir|] == dir && (dir + "/")[|dir|] == '/';
      }
    }
  }

  lemma IgnoredExactly(patterns: seq<string>, path: string, glob: Glob)
    ensures Ignored(patterns, path, glob) <==> exists i :: 0 <= i < |patterns| && CoveredBy(patterns[i], path, glob)
  {
    hide Covers, CoveredBy;
    forall i | 0 <= i < |patterns|
      ensures Covers(patterns[i], path, glob) <==> CoveredBy(patterns[i], path, glob)
    {
      CoversIs(patterns[i], path, glob);
    }
  }

  predicate CausesFailure(s: Settings, item: Item) {
    match item
    case WalkError(_) => true
    case NotRegular(_) => false
    case Regular(path, content) =>
      || (exists j :: 0 <= j < |path| - 1 && path[j] == '.' && path[j + 1] == '.')
      || (!Ignored(s.patterns, path, s.glob) && (content.None? || |content.value| > s.limit))
  }

  /** What a collection holds and when it fails: it has the file exactly when it was visited and is not ignored, and
      fails exactly on a walk error, two dots in a row in a file's path, or a file that is not ignored and unreadable or
      longer than the limit. */
  lemma {:induction false} CollectionExactly(s: Settings, walk: seq<Item>, r: Result<seq<FileEntry>, Item>)
    requires IsCollection(s, walk, r)
    ensures r.Ok? ==> forall path, content ::
              FileEntry(path, content) in r.value <==> Regular(path, Some(content)) in walk && !Ignored(s.patterns, path, s.glob)
    ensures r.Ok? ==> forall path, content | Regular(path, content) in walk && !Ignored(s.patterns, path, s.glob) ::
              content.Some? && |content.value| <= s.limit
    ensures r.Ok? ==> forall path, content, k | Regular(path, content) in walk && 0 <= k < |path| - 1 :: !(path[k] == '.' && path[k + 1] == '.')
    ensures r.Ok? ==> forall path :: WalkError(path) !in walk
    ensures r.Err? ==> exists k :: 0 <= k < |walk| && CausesFailure(s, walk[k])
  {
    hide Ignored;
    if r.Err? {
      var k :| 0 <= k < |walk| && Fails(s, walk[k]);
      assert CausesFailure(s, walk[k]);
    }
    if r.Ok? {
      forall path, content
        ensures FileEntry(path, content) in r.value <==> Regular(path, Some(content)) in walk && !Ignored(s.patterns, path, s.glob)
      {
        if Regular(path, Some(content)) in walk && !Ignored(s.patterns, path, s.glob) {
          var k :| 0 <= k < |walk| && walk[k] == Regular(path, Some(content));
          assert Kept(s, walk[k]) && EntryOf(walk[k]) == FileEntry(path, content);
        }
      }
      forall item | item in walk
        ensures !Fails(s, item)
      {
        var k :| 0 <= k < |walk| && walk[k] == item;
      }
    }
  }
}
