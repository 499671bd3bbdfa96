/**
 What the selected list is, stated directly on the directory tree rather than on
 the strings the program builds: a walked file is combined exactly when no
 directory on its way is named `venv`, its name ends with the normalised
 extension, it is neither the output nor the script, and its relative path (the
 directory names and its own name, joined) matches no exclude pattern.
 */
module Selection {
  import opened Seqs
  import opened Paths
  import opened Glob
  import opened Order
  import opened Combiner

  /** The path of a walked file relative to the scanned folder. */
  function RelativeOf(w: WalkItem): string {
    Join(w.dirs + [w.name])
  }

  /** The reference selection test for one walked file. */
  predicate Qualifies(scan: Scan, cwd: Path, w: WalkItem)
    requires IsNormal(cwd)
  {
    && !InVenv(scan.folder)
    && "venv" !in w.dirs
    && EndsWith(w.name, NormalizeExtension(scan.extension))
    && AbsPath(cwd, scan.folder) + w.dirs + [w.name] != scan.outputAbs
    && AbsPath(cwd, scan.folder) + w.dirs + [w.name] != scan.scriptAbs
    && !MatchesAny(RelativeOf(w), scan.excludes)
  }

  /** A walked file's joined path resolves below the resolved folder, to the
      directory names on its way and its own name. */
  lemma WalkedFileResolves(cwd: Path, folder: string, kids: seq<Node>, w: WalkItem)
    requires IsNormal(cwd) && folder != "" && WellNamed(kids)
    requires w in Walk(folder, [], kids)
    ensures ToEntry(w).path != ""
    ensures IsName(w.name)
    ensures AbsPath(cwd, ToEntry(w).path) == AbsPath(cwd, folder) + Location(w)
  {
    var top := AbsPath(cwd, folder);
    var walk := Walk(folder, [], kids);
    var i :| 0 <= i < |walk| && walk[i] == w;
    assert top == top + [];
    WalkResolves(cwd, top, folder, [], kids);
    assert w.dir != "" && AbsPath(cwd, w.dir) == top + w.dirs && IsName(w.name);
    AbsPathJoin(cwd, w.dir, w.name);
    assert top + w.dirs + [w.name] == top + Location(w);
  }

  /** For a walked file: its directory is skipped exactly for a `venv` piece in
      the folder or a directory named `venv` on its way, its joined path resolves
      below the resolved folder, and `get_relative_path` gives back the joined
      directory names and file name. */
  lemma WalkedFileFacts(cwd: Path, folder: string, kids: seq<Node>, w: WalkItem)
    requires IsNormal(cwd) && folder != "" && WellNamed(kids)
    requires w in Walk(folder, [], kids)
    ensures InVenv(w.dir) <==> InVenv(folder) || "venv" in w.dirs
    ensures ToEntry(w).path != ""
    ensures AbsPath(cwd, ToEntry(w).path) == AbsPath(cwd, folder) + w.dirs + [w.name]
    ensures GetRelativePath(cwd, ToEntry(w).path, folder) == RelativeOf(w)
  {
    var walk := Walk(folder, [], kids);
    var i :| 0 <= i < |walk| && walk[i] == w;
    WalkVenv(folder, [], kids, InVenv(folder));
    WalkedFileResolves(cwd, folder, kids, w);
    assert AbsPath(cwd, folder) + w.dirs + [w.name] == AbsPath(cwd, folder) + (w.dirs + [w.name]);
    RelPathBelow(AbsPath(cwd, folder), w.dirs + [w.name]);
  }

  /** Membership in `Map(s, g)`. */
  lemma InMap<A, B>(s: seq<A>, g: A -> B, y: B)
    ensures y in Map(s, g) <==> exists x :: x in s && g(x) == y
  {
    if y in Map(s, g) {
      var i :| 0 <= i < |s| && Map(s, g)[i] == y;
      assert s[i] in s;
    }
  }

  /** Collection, as a membership statement on the walk. */
  lemma CollectedIff(folder: string, kids: seq<Node>, ext: string, f: FileEntry)
    ensures f in Collect(folder, kids, ext) <==>
      exists w :: w in Walk(folder, [], kids) && Collectable(ext, w) && f == ToEntry(w)
  {
    var keep := (w: WalkItem) => Collectable(ext, w);
    CollectIsFilteredWalk(folder, [], kids, ext);
    FilterMembership(Walk(folder, [], kids), keep);
    InMap(Filter(Walk(folder, [], kids), keep), ToEntry, f);
  }

  /** The selected files are exactly the walked files that qualify, each as its
      joined path and bytes. */
  lemma SelectionIff(scan: Scan, cwd: Path, kids: seq<Node>, f: FileEntry)
    requires IsNormal(cwd) && scan.folder != "" && WellNamed(kids)
    ensures f in SelectFiles(scan, cwd, kids) <==>
      exists w :: w in Walk(scan.folder, [], kids) && Qualifies(scan, cwd, w) && f == ToEntry(w)
  {
    var ext := NormalizeExtension(scan.extension);
    var collected := Collect(scan.folder, kids, ext);
    var kept := ExcludeSelf(collected, cwd, scan.outputAbs, scan.scriptAbs);
    CollectedPathsNonEmpty(scan.folder, kids, ext);
    var excluded := ExcludePatterns(kept, cwd, scan.folder, scan.excludes);
    var r := SelectFiles(scan, cwd, kids);
    assert excluded == Filtered(scan, cwd, kids);
    assert r == SortFiles(excluded);
    assert f in r <==> f in multiset(r);
    assert f in r <==> f in excluded;
    CollectedIff(scan.folder, kids, ext, f);
    if f in r {
      var w :| w in Walk(scan.folder, [], kids) && Collectable(ext, w) && f == ToEntry(w);
      WalkedFileFacts(cwd, scan.folder, kids, w);
    }
    forall w | w in Walk(scan.folder, [], kids) && Qualifies(scan, cwd, w) && f == ToEntry(w)
      ensures f in r
    {
      WalkedFileFacts(cwd, scan.folder, kids, w);
    }
  }

  /** Nothing is selected exactly when no walked file qualifies. */
  lemma SelectionEmptyIff(scan: Scan, cwd: Path, kids: seq<Node>)
    requires IsNormal(cwd) && scan.folder != "" && WellNamed(kids)
    ensures SelectFiles(scan, cwd, kids) == [] <==>
      forall w :: w in Walk(scan.folder, [], kids) ==> !Qualifies(scan, cwd, w)
  {
    var r := SelectFiles(scan, cwd, kids);
    if r == [] {
      forall w | w in Walk(scan.folder, [], kids) ensures !Qualifies(scan, cwd, w) {
        SelectionIff(scan, cwd, kids, ToEntry(w));
      }
    } else {
      SelectionIff(scan, cwd, kids, r[0]);
    }
  }

  // ---------------------------------------------------------------------------
  // No path is selected twice, so the sorted list is strictly ascending and is
  // the only ascending arrangement of the files.

  /** Two walked files at different places have different joined paths. */
  lemma WalkedPathsDiffer(cwd: Path, folder: string, kids: seq<Node>, v: WalkItem, w: WalkItem)
    requires IsNormal(cwd) && folder != "" && WellNamed(kids)
    requires v in Walk(folder, [], kids) && w in Walk(folder, [], kids)
    requires Location(v) != Location(w)
    ensures ToEntry(v).path != ToEntry(w).path
  {
    var top := AbsPath(cwd, folder);
    WalkedFileResolves(cwd, folder, kids, v);
    WalkedFileResolves(cwd, folder, kids, w);
    assert (top + Location(v))[|top|..] == Location(v);
    assert (top + Location(w))[|top|..] == Location(w);
  }

  /** The walked files that are collected sit at pairwise different places. */
  lemma KeptLocationsDistinct(folder: string, kids: seq<Node>, ext: string)
    requires WellNamed(kids)
    ensures KeysDistinct(Filter(Walk(folder, [], kids), w => Collectable(ext, w)), Location)
    ensures forall w :: w in Filter(Walk(folder, [], kids), w => Collectable(ext, w)) ==> w in Walk(folder, [], kids)
  {
    var walk := Walk(folder, [], kids);
    var keep := (w: WalkItem) => Collectable(ext, w);
    WalkDistinct(folder, [], kids);
    FilterIsSubsequence(walk, keep);
    SubsequenceDistinct(Filter(walk, keep), walk, Location);
    SubsequenceMembers(Filter(walk, keep), walk);
  }

  /** Two walked files sit at different places, so their joined paths differ:
      the collected paths are pairwise distinct. */
  lemma CollectedPathsDistinct(cwd: Path, folder: string, kids: seq<Node>, ext: string)
    requires IsNormal(cwd) && folder != "" && WellNamed(kids)
    ensures KeysDistinct(Collect(folder, kids, ext), PathKey)
  {
    var kept := Filter(Walk(folder, [], kids), w => Collectable(ext, w));
    var collected := Collect(folder, kids, ext);
    CollectIsFilteredWalk(folder, [], kids, ext);
    KeptLocationsDistinct(folder, kids, ext);
    forall i, j | 0 <= i < j < |collected| ensures PathKey(collected[i]) != PathKey(collected[j]) {
      assert collected[i] == ToEntry(kept[i]) && collected[j] == ToEntry(kept[j]);
      assert kept[i] in kept && kept[j] in kept;
      WalkedPathsDiffer(cwd, folder, kids, kept[i], kept[j]);
    }
  }

  /** No path occurs twice in the selected list, which is therefore in strictly
      ascending order of paths. */
  lemma SelectionStrictlyAscending(scan: Scan, cwd: Path, kids: seq<Node>)
    requires IsNormal(cwd) && scan.folder != "" && WellNamed(kids)
    ensures KeysDistinct(SelectFiles(scan, cwd, kids), PathKey)
    ensures forall i, j :: 0 <= i < j < |SelectFiles(scan, cwd, kids)| ==>
      StrLe(SelectFiles(scan, cwd, kids)[i].path, SelectFiles(scan, cwd, kids)[j].path) &&
      SelectFiles(scan, cwd, kids)[i].path != SelectFiles(scan, cwd, kids)[j].path
  {
    var ext := NormalizeExtension(scan.extension);
    var filtered := Filtered(scan, cwd, kids);
    CollectedPathsDistinct(cwd, scan.folder, kids, ext);
    FilteredIsSubsequence(scan, cwd, kids);
    SubsequenceDistinct(filtered, Collect(scan.folder, kids, ext), PathKey);
    PermutationDistinct(filtered, SelectFiles(scan, cwd, kids), PathKey);
  }

  /** Any ascending arrangement of the filtered files is the selected list:
      `sorted` has exactly one possible result here. */
  lemma SelectionIsTheSortedList(scan: Scan, cwd: Path, kids: seq<Node>, s: seq<FileEntry>)
    requires IsNormal(cwd) && scan.folder != "" && WellNamed(kids)
    requires SortedBy(s, PathKey) && multiset(s) == multiset(Filtered(scan, cwd, kids))
    ensures s == SelectFiles(scan, cwd, kids)
  {
    SelectionStrictlyAscending(scan, cwd, kids);
    SortedPermutationUnique(SelectFiles(scan, cwd, kids), s, PathKey);
  }
}
