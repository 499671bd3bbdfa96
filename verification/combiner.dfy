/**
 The selection half of the combiner (ToSingleFile.py, `main`): normalising the
 extension, walking the tree, and the filters that decide which files are
 combined, in which order.

 The directory tree is an immutable value. Path strings are built exactly as
 `os.walk` and `os.path.join` build them from the folder argument as typed, so
 the `venv` test and the sort see the same strings as the program does.
 */
module Combiner {
  import opened Seqs
  import opened Paths
  import opened Glob
  import opened Order
  import opened Utf8

  /** A directory entry: a regular file with its bytes, or a sub-directory. */
  datatype Node = File(name: string, content: Bytes) | Dir(name: string, children: seq<Node>)

  /** Every entry name in the tree is a real name and no directory lists two
      entries under one name (what a file system lists). */
  predicate WellNamed(kids: seq<Node>)
    decreases kids
  {
    && (forall i :: 0 <= i < |kids| ==>
         IsName(kids[i].name) && (kids[i].Dir? ==> WellNamed(kids[i].children)))
    && (forall i, j :: 0 <= i < j < |kids| ==> kids[i].name != kids[j].name)
  }

  /** The names of a directory's entries, in listing order. */
  function Names(kids: seq<Node>): (r: seq<string>)
    ensures |r| == |kids|
    ensures forall i :: 0 <= i < |kids| ==> r[i] == kids[i].name
    decreases |kids|
  {
    if kids == [] then [] else [kids[0].name] + Names(kids[1..])
  }

  /** One file as `os.walk` reports it: the walk root string `dir` it was listed
      under, its name, its bytes, and (for the proofs) the directory names from
      the scanned folder down to `dir`. */
  datatype WalkItem = WalkItem(dir: string, dirs: seq<string>, name: string, content: Bytes)

  /** An entry of `files_list`: the joined path string and the file's bytes. */
  datatype FileEntry = FileEntry(path: string, content: Bytes)

  /** Every file below the directory string `dir` whose contents are `kids`,
      visiting sub-directories whatever their names. Each file lies below `dirs`. */
  function Walk(dir: string, dirs: seq<string>, kids: seq<Node>): (r: seq<WalkItem>)
    ensures forall i :: 0 <= i < |r| ==> |dirs| <= |r[i].dirs| && r[i].dirs[..|dirs|] == dirs
    decreases kids
  {
    if kids == [] then []
    else
      var here := match kids[0]
        case File(n, c) => [WalkItem(dir, dirs, n, c)]
        case Dir(n, ch) => (
          var sub := Walk(PyJoin(dir, n), dirs + [n], ch);
          BelowParent(sub, dirs, n);
          sub);
      here + Walk(dir, dirs, kids[1..])
  }

  /** Files below `dirs + [n]` are below `dirs`. */
  lemma BelowParent(items: seq<WalkItem>, dirs: seq<string>, n: string)
    requires forall i :: 0 <= i < |items| ==> |dirs + [n]| <= |items[i].dirs| && items[i].dirs[..|dirs + [n]|] == dirs + [n]
    ensures forall i :: 0 <= i < |items| ==> |dirs| <= |items[i].dirs| && items[i].dirs[..|dirs|] == dirs
  {
    forall i | 0 <= i < |items| ensures items[i].dirs[..|dirs|] == dirs {
      assert items[i].dirs[..|dirs|] == items[i].dirs[..|dirs| + 1][..|dirs|];
    }
  }

  /** Where a walked file sits below the scanned folder: the directory names
      leading to it and its own name. */
  function Location(w: WalkItem): seq<string> {
    w.dirs + [w.name]
  }

  /** The files found in a sub-directory named `n` all sit below `n`. */
  lemma WalkBelowName(dir: string, dirs: seq<string>, n: string, ch: seq<Node>)
    ensures forall i :: 0 <= i < |Walk(dir, dirs + [n], ch)| ==> Location(Walk(dir, dirs + [n], ch)[i])[|dirs|] == n
  {
    var sub := Walk(dir, dirs + [n], ch);
    forall i | 0 <= i < |sub| ensures Location(sub[i])[|dirs|] == n {
      assert sub[i].dirs[..|dirs| + 1] == dirs + [n];
    }
  }

  /** The first entry of a walk: the file itself, or the walk of the sub-directory. */
  function WalkHead(dir: string, dirs: seq<string>, kid: Node): seq<WalkItem> {
    match kid
    case File(n, c) => [WalkItem(dir, dirs, n, c)]
    case Dir(n, ch) => Walk(PyJoin(dir, n), dirs + [n], ch)
  }

  /** Each walked file sits below one of the entries of `kids`. */
  lemma {:induction false} WalkBelow(dir: string, dirs: seq<string>, kids: seq<Node>)
    ensures forall i :: 0 <= i < |Walk(dir, dirs, kids)| ==> Location(Walk(dir, dirs, kids)[i])[|dirs|] in Names(kids)
    decreases kids
  {
    if kids != [] {
      var here := WalkHead(dir, dirs, kids[0]);
      var rest := Walk(dir, dirs, kids[1..]);
      assert Walk(dir, dirs, kids) == here + rest;
      WalkBelow(dir, dirs, kids[1..]);
      if kids[0].Dir? {
        WalkBelowName(PyJoin(dir, kids[0].name), dirs, kids[0].name, kids[0].children);
      }
      forall i | 0 <= i < |here + rest| ensures Location((here + rest)[i])[|dirs|] in Names(kids) {
        if i < |here| {
          assert Location(here[i])[|dirs|] == Names(kids)[0];
        } else {
          var m :| 0 <= m < |kids| - 1 && Names(kids[1..])[m] == Location(rest[i - |here|])[|dirs|];
          assert Names(kids)[m + 1] == kids[1..][m].name;
        }
      }
    }
  }

  /** No two walked files sit at the same place. */
  lemma {:induction false} WalkDistinct(dir: string, dirs: seq<string>, kids: seq<Node>)
    requires WellNamed(kids)
    ensures KeysDistinct(Walk(dir, dirs, kids), Location)
    decreases kids
  {
    if kids != [] {
      var here := WalkHead(dir, dirs, kids[0]);
      var rest := Walk(dir, dirs, kids[1..]);
      assert Walk(dir, dirs, kids) == here + rest;
      WalkDistinct(dir, dirs, kids[1..]);
      WalkBelow(dir, dirs, kids[1..]);
      if kids[0].Dir? {
        WalkDistinct(PyJoin(dir, kids[0].name), dirs + [kids[0].name], kids[0].children);
        WalkBelowName(PyJoin(dir, kids[0].name), dirs, kids[0].name, kids[0].children);
      }
      assert forall m :: 0 <= m < |kids| - 1 ==> Names(kids[1..])[m] != kids[0].name;
      forall i, j | 0 <= i < |here| && 0 <= j < |rest| ensures Location(here[i]) != Location(rest[j]) {
        assert Location(here[i])[|dirs|] == kids[0].name;
        assert Location(rest[j])[|dirs|] in Names(kids[1..]);
      }
      KeysDistinctConcat(here, rest, Location);
    }
  }

  // ---------------------------------------------------------------------------
  // Stage 1: extension normalisation (lines 46-48).

  /** A leading dot is added unless the extension already has one. */
  function NormalizeExtension(ext: string): (r: string)
    ensures |r| > 0 && r[0] == '.'
    ensures EndsWith(r, ext) && |r| <= |ext| + 1
    ensures r == ext <==> (|ext| > 0 && ext[0] == '.')
  {
    if |ext| > 0 && ext[0] == '.' then ext else "." + ext
  }

  /** Normalising twice is normalising once. */
  lemma NormalizeExtensionIdempotent(ext: string)
    ensures NormalizeExtension(NormalizeExtension(ext)) == NormalizeExtension(ext)
  {
  }

  // ---------------------------------------------------------------------------
  // Stage 2: collection (lines 61-69).

  /** `'venv' in root.split(os.path.sep)`: the walk root has a piece that is
      exactly `venv`. */
  predicate InVenv(dir: string) {
    "venv" in Split(dir)
  }

  /** A walk root without separators is skipped exactly when it is `venv`. */
  lemma InVenvPlainName(dir: string)
    requires Sep !in dir
    ensures InVenv(dir) <==> dir == "venv"
  {
    SplitName(dir);
  }

  /** The loop over `os.walk(folder_path)`: files of a walk root that is not
      inside a `venv` directory and whose name ends with the extension, as
      `os.path.join(root, file)`. */
  function Collect(dir: string, kids: seq<Node>, ext: string): (r: seq<FileEntry>)
    ensures forall i :: 0 <= i < |r| ==> EndsWith(r[i].path, ext)
    decreases kids
  {
    if kids == [] then []
    else
      var here := match kids[0]
        case File(n, c) =>
          if !InVenv(dir) && EndsWith(n, ext) then
            EndsWithTransitive(PyJoin(dir, n), n, ext);
            [FileEntry(PyJoin(dir, n), c)]
          else []
        case Dir(n, ch) => Collect(PyJoin(dir, n), ch, ext);
      var rest := Collect(dir, kids[1..], ext);
      PathsEndWithAppend(here, rest, ext);
      here + rest
  }

  /** Paths that all end with `ext`, in two lists, still do once concatenated. */
  lemma PathsEndWithAppend(a: seq<FileEntry>, b: seq<FileEntry>, ext: string)
    requires forall i :: 0 <= i < |a| ==> EndsWith(a[i].path, ext)
    requires forall i :: 0 <= i < |b| ==> EndsWith(b[i].path, ext)
    ensures forall i :: 0 <= i < |a + b| ==> EndsWith((a + b)[i].path, ext)
  {
    forall i | 0 <= i < |a + b| ensures EndsWith((a + b)[i].path, ext) {
      if i >= |a| {
        assert (a + b)[i] == b[i - |a|];
      }
    }
  }

  /** The collection test applied to one walked file. */
  predicate Collectable(ext: string, w: WalkItem) {
    !InVenv(w.dir) && EndsWith(w.name, ext)
  }

  /** The list entry a walked file becomes. */
  function ToEntry(w: WalkItem): FileEntry {
    FileEntry(PyJoin(w.dir, w.name), w.content)
  }

  /** The collection loop is the walk, filtered by the collection test, each file
      turned into its joined path: so it holds exactly the collectable files, in
      walk order. */
  lemma {:induction false} CollectIsFilteredWalk(dir: string, dirs: seq<string>, kids: seq<Node>, ext: string)
    ensures Collect(dir, kids, ext) == Map(Filter(Walk(dir, dirs, kids), w => Collectable(ext, w)), ToEntry)
    decreases kids
  {
    var keep := (w: WalkItem) => Collectable(ext, w);
    if kids != [] {
      CollectIsFilteredWalk(dir, dirs, kids[1..], ext);
      var here := match kids[0]
        case File(n, c) => [WalkItem(dir, dirs, n, c)]
        case Dir(n, ch) => Walk(PyJoin(dir, n), dirs + [n], ch);
      match kids[0]
      case File(n, c) =>
      case Dir(n, ch) =>
        CollectIsFilteredWalk(PyJoin(dir, n), dirs + [n], ch, ext);
      FilterAppend(here, Walk(dir, dirs, kids[1..]), keep);
      MapAppend(Filter(here, keep), Filter(Walk(dir, dirs, kids[1..]), keep), ToEntry);
    }
  }

  /** The walk keeps the directory bookkeeping consistent: under `cwd`, each walked
      file's directory string resolves to the resolved folder followed by the
      directory names leading to it. */
  lemma {:induction false} WalkResolves(cwd: Path, folder: Path, dir: string, dirs: seq<string>, kids: seq<Node>)
    requires IsNormal(cwd) && dir != "" && WellNamed(kids)
    requires AbsPath(cwd, dir) == folder + dirs
    ensures forall i :: 0 <= i < |Walk(dir, dirs, kids)| ==>
      Walk(dir, dirs, kids)[i].dir != "" && AbsPath(cwd, Walk(dir, dirs, kids)[i].dir) == folder + Walk(dir, dirs, kids)[i].dirs
    ensures forall i :: 0 <= i < |Walk(dir, dirs, kids)| ==> IsName(Walk(dir, dirs, kids)[i].name)
    decreases kids
  {
    if kids != [] {
      WalkResolves(cwd, folder, dir, dirs, kids[1..]);
      match kids[0]
      case File(n, c) =>
      case Dir(n, ch) =>
        AbsPathJoin(cwd, dir, n);
        WalkResolves(cwd, folder, PyJoin(dir, n), dirs + [n], ch);
    }
  }

  /** The `venv` test only looks at whole pieces: a walked file's directory is
      skipped exactly when the folder string has a `venv` piece or one of the
      directories leading to it is named exactly `venv` (a `venvx` does not count). */
  lemma {:induction false} WalkVenv(dir: string, dirs: seq<string>, kids: seq<Node>, inFolder: bool)
    requires WellNamed(kids)
    requires InVenv(dir) <==> inFolder || "venv" in dirs
    ensures forall i :: 0 <= i < |Walk(dir, dirs, kids)| ==>
      (InVenv(Walk(dir, dirs, kids)[i].dir) <==> inFolder || "venv" in Walk(dir, dirs, kids)[i].dirs)
    decreases kids
  {
    if kids != [] {
      WalkVenv(dir, dirs, kids[1..], inFolder);
      match kids[0]
      case File(n, c) =>
      case Dir(n, ch) =>
        VenvAfterJoin(dir, n);
        assert "venv" in dirs + [n] <==> "venv" in dirs || n == "venv";
        WalkVenv(PyJoin(dir, n), dirs + [n], ch, inFolder);
    }
  }

  // ---------------------------------------------------------------------------
  // Stage 3: exclusion of the output file and the script (lines 72-76).

  /** The files whose absolute path is neither the output's nor the script's. */
  function ExcludeSelf(files: seq<FileEntry>, cwd: Path, outputAbs: Path, scriptAbs: Path): (r: seq<FileEntry>)
    requires IsNormal(cwd)
    ensures forall f :: f in r <==>
      f in files && AbsPath(cwd, f.path) != outputAbs && AbsPath(cwd, f.path) != scriptAbs
    ensures IsSubsequence(r, files)
  {
    var keep := (f: FileEntry) => AbsPath(cwd, f.path) != outputAbs && AbsPath(cwd, f.path) != scriptAbs;
    FilterMembership(files, keep);
    FilterIsSubsequence(files, keep);
    Filter(files, keep)
  }

  // ---------------------------------------------------------------------------
  // Stage 4: exclusion by glob pattern on the folder-relative path (lines 79-86).

  /** `any(fnmatch(relpath(file, folder), p) for p in patterns)`. */
  predicate Excluded(cwd: Path, folder: string, patterns: seq<string>, f: FileEntry)
    requires IsNormal(cwd)
  {
    f.path != "" && MatchesAny(GetRelativePath(cwd, f.path, folder), patterns)
  }

  /** Drops every file whose folder-relative path matches one of the patterns;
      with no patterns the list is returned as it is. */
  function ExcludePatterns(files: seq<FileEntry>, cwd: Path, folder: string, patterns: seq<string>): (r: seq<FileEntry>)
    requires IsNormal(cwd)
    requires forall i :: 0 <= i < |files| ==> files[i].path != ""
    ensures forall f :: f in r <==>
      f in files && !MatchesAny(GetRelativePath(cwd, f.path, folder), patterns)
    ensures IsSubsequence(r, files)
    ensures (forall i :: 0 <= i < |files| ==> !Excluded(cwd, folder, patterns, files[i])) ==> r == files
    ensures patterns == [] ==> r == files
  {
    var keep := (f: FileEntry) => !Excluded(cwd, folder, patterns, f);
    FilterMembership(files, keep);
    FilterIsSubsequence(files, keep);
    FilterAllKept(files, keep);
    if patterns == [] then files else Filter(files, keep)
  }

  // ---------------------------------------------------------------------------
  // Stage 5: the sort (line 89).

  /** The sort key of `sorted(files_list)`: the path string itself. */
  function PathKey(f: FileEntry): string {
    f.path
  }

  /** `sorted(files_list)`. */
  function SortFiles(files: seq<FileEntry>): (r: seq<FileEntry>)
    ensures SortedBy(r, PathKey)
    ensures multiset(r) == multiset(files)
  {
    SortBy(files, PathKey)
  }

  // ---------------------------------------------------------------------------
  // Stages 1 to 5 together.

  /** The scan parameters: the folder argument as typed, the extension as given,
      the exclude patterns, and the absolute paths of the output and the script. */
  datatype Scan = Scan(folder: string, extension: string, excludes: seq<string>, outputAbs: Path, scriptAbs: Path)

  /** `files_list` as it stands before the sort: collected, then stripped of the
      output and the script, then of the excluded patterns. */
  function Filtered(scan: Scan, cwd: Path, kids: seq<Node>): (r: seq<FileEntry>)
    requires IsNormal(cwd) && scan.folder != ""
    ensures forall i :: 0 <= i < |r| ==> r[i].path != ""
  {
    var collected := Collect(scan.folder, kids, NormalizeExtension(scan.extension));
    var kept := ExcludeSelf(collected, cwd, scan.outputAbs, scan.scriptAbs);
    CollectedPathsNonEmpty(scan.folder, kids, NormalizeExtension(scan.extension));
    var r := ExcludePatterns(kept, cwd, scan.folder, scan.excludes);
    PathsNonEmptyKept(kept, collected);
    PathsNonEmptyKept(r, kept);
    r
  }

  /** Deleting entries keeps every path non-empty. */
  lemma PathsNonEmptyKept(a: seq<FileEntry>, b: seq<FileEntry>)
    requires IsSubsequence(a, b)
    requires forall i :: 0 <= i < |b| ==> b[i].path != ""
    ensures forall i :: 0 <= i < |a| ==> a[i].path != ""
  {
    SubsequenceMembers(a, b);
    forall i | 0 <= i < |a| ensures a[i].path != "" {
      assert a[i] in b;
    }
  }

  /** `files_list` as it stands at line 89. */
  function SelectFiles(scan: Scan, cwd: Path, kids: seq<Node>): (r: seq<FileEntry>)
    requires IsNormal(cwd) && scan.folder != ""
    ensures forall i :: 0 <= i < |r| ==> r[i].path != ""
  {
    var f := Filtered(scan, cwd, kids);
    var r := SortFiles(f);
    PathsNonEmptyPermuted(f, r);
    r
  }

  /** A permutation of files with non-empty paths has non-empty paths. */
  lemma PathsNonEmptyPermuted(a: seq<FileEntry>, b: seq<FileEntry>)
    requires multiset(a) == multiset(b)
    requires forall i :: 0 <= i < |a| ==> a[i].path != ""
    ensures forall i :: 0 <= i < |b| ==> b[i].path != ""
  {
    forall i | 0 <= i < |b| ensures b[i].path != "" {
      assert b[i] in multiset(b);
      assert b[i] in a;
    }
  }

  /** The list before the sort is the collected list with elements deleted, in
      walk order. */
  lemma FilteredIsSubsequence(scan: Scan, cwd: Path, kids: seq<Node>)
    requires IsNormal(cwd) && scan.folder != ""
    ensures IsSubsequence(Filtered(scan, cwd, kids), Collect(scan.folder, kids, NormalizeExtension(scan.extension)))
  {
    var collected := Collect(scan.folder, kids, NormalizeExtension(scan.extension));
    var kept := ExcludeSelf(collected, cwd, scan.outputAbs, scan.scriptAbs);
    SubsequenceTransitive(Filtered(scan, cwd, kids), kept, collected);
  }

  /** Every collected path is non-empty, so `relpath` accepts it. */
  lemma {:induction false} CollectedPathsNonEmpty(dir: string, kids: seq<Node>, ext: string)
    requires dir != ""
    ensures forall i :: 0 <= i < |Collect(dir, kids, ext)| ==> Collect(dir, kids, ext)[i].path != ""
    decreases kids
  {
    if kids != [] {
      CollectedPathsNonEmpty(dir, kids[1..], ext);
      match kids[0]
      case File(n, c) =>
      case Dir(n, ch) =>
        CollectedPathsNonEmpty(PyJoin(dir, n), ch, ext);
    }
  }
}
