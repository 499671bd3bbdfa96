/**
 POSIX path strings and the three path-library operations the combiner relies on:
 splitting on the separator, `os.path.join`, `os.path.abspath` and `os.path.relpath`.

 A path string is a `string`; its split form is a sequence of segments. A
 normalised absolute path is represented by its list of segments with the
 leading `/` implied (the root directory is the empty list).
 */
module Paths {

  const Sep: char := '/'

  type Path = seq<string>

  /** A segment that may appear in a normalised path: a real directory-entry name. */
  predicate IsName(s: string) {
    s != "" && s != "." && s != ".." && Sep !in s
  }

  /** No segment contains the separator, as in the result of `Split`. */
  predicate NoSep(segs: seq<string>) {
    forall i :: 0 <= i < |segs| ==> Sep !in segs[i]
  }

  /** Every segment is a real name, as in the result of `os.path.abspath`. */
  predicate IsNormal(p: Path) {
    forall i :: 0 <= i < |p| ==> IsName(p[i])
  }

  /** `s.split(os.path.sep)`: the pieces between separators, always at least one. */
  function Split(s: string): (r: seq<string>)
    ensures |r| >= 1
    ensures NoSep(r)
    decreases |s|
  {
    if s == [] then [""]
    else if s[0] == Sep then [""] + Split(s[1..])
    else
      var rest := Split(s[1..]);
      [[s[0]] + rest[0]] + rest[1..]
  }

  /** `os.path.sep.join(segs)`: the inverse of `Split` on non-empty segment lists. */
  function Join(segs: seq<string>): string
    decreases |segs|
  {
    if |segs| == 0 then ""
    else if |segs| == 1 then segs[0]
    else segs[0] + [Sep] + Join(segs[1..])
  }

  /** `os.path.join(a, b)`: an absolute `b` replaces `a`; otherwise a separator
      is inserted unless `a` is empty or already ends with one. */
  function PyJoin(a: string, b: string): (r: string)
    ensures |r| >= |b| && r[|r| - |b|..] == b
    ensures !IsAbs(b) ==> |r| >= |a| + |b| && r[..|a|] == a
    ensures IsAbs(b) ==> r == b
  {
    if IsAbs(b) then b
    else if a == "" || a[|a| - 1] == Sep then a + b
    else a + [Sep] + b
  }

  /** `os.path.isabs`: the string starts with the separator. */
  predicate IsAbs(s: string) {
    |s| > 0 && s[0] == Sep
  }

  /** Lexical normalisation of `segs` on top of the normalised directory `base`
      (`posixpath.normpath`): empty and `.` segments vanish, `..` removes the last
      segment and stops at the root. */
  function Normalize(base: Path, segs: seq<string>): (r: Path)
    requires IsNormal(base) && NoSep(segs)
    ensures IsNormal(r)
    decreases |segs|
  {
    if segs == [] then base
    else if segs[0] == "" || segs[0] == "." then Normalize(base, segs[1..])
    else if segs[0] == ".." then Normalize(if base == [] then [] else base[..|base| - 1], segs[1..])
    else Normalize(base + [segs[0]], segs[1..])
  }

  /** `os.path.abspath(s)` with the process working directory `cwd`: a relative
      path is taken relative to `cwd`, then normalised. */
  function AbsPath(cwd: Path, s: string): (r: Path)
    requires IsNormal(cwd)
    ensures IsNormal(r)
  {
    if IsAbs(s) then Normalize([], Split(s)) else Normalize(cwd, Split(s))
  }

  /** Length of the longest common prefix of two segment lists. */
  function CommonPrefixLength(a: Path, b: Path): (k: nat)
    ensures k <= |a| && k <= |b|
    ensures a[..k] == b[..k]
    ensures k < |a| && k < |b| ==> a[k] != b[k]
    decreases |a|
  {
    if a == [] || b == [] || a[0] != b[0] then 0
    else 1 + CommonPrefixLength(a[1..], b[1..])
  }

  /** `n` parent-directory segments. */
  function Ups(n: nat): (r: seq<string>)
    ensures |r| == n
    ensures forall i :: 0 <= i < n ==> r[i] == ".."
  {
    if n == 0 then [] else [".."] + Ups(n - 1)
  }

  /** `posixpath.relpath` on normalised absolute paths: climb from `start` to the
      common ancestor, then descend to `path`; `.` when the two coincide. */
  function RelPath(path: Path, start: Path): (r: seq<string>)
    ensures r != []
    ensures IsNormal(path) ==> NoSep(r)
    ensures IsNormal(path) ==> forall i :: 0 <= i < |r| ==> r[i] != ""
    ensures path == start ==> r == ["."]
    ensures IsNormal(path) && r == ["."] ==> path == start
  {
    var k := CommonPrefixLength(start, path);
    var rel := Ups(|start| - k) + path[k..];
    if rel == [] then
      assert start == start[..k] && path == path[..k];
      ["."]
    else
      assert IsNormal(path) ==> rel[0] != "." by {
        if |start| == k { assert rel[0] == path[k]; }
      }
      rel
  }

  /** `get_relative_path(file_path, base_path)`: relpath of the two strings after
      making both absolute; `relpath` refuses an empty `file_path`. */
  function GetRelativePath(cwd: Path, file: string, base: string): (r: string)
    requires IsNormal(cwd)
    requires file != ""
    ensures r != ""
    ensures Split(r) == RelPath(AbsPath(cwd, file), AbsPath(cwd, base))
    ensures AbsPath(cwd, file) == AbsPath(cwd, base) ==> r == "."
    ensures Normalize(AbsPath(cwd, base), Split(r)) == AbsPath(cwd, file)
  {
    var segs := RelPath(AbsPath(cwd, file), AbsPath(cwd, base));
    SplitJoin(segs);
    RelPathRoundTrip(AbsPath(cwd, file), AbsPath(cwd, base));
    Join(segs)
  }

  // ---------------------------------------------------------------------------
  // Split and Join are inverse to each other.

  /** Splitting around an explicit separator splits both sides independently. */
  lemma {:induction false} SplitAround(x: string, y: string)
    ensures Split(x + [Sep] + y) == Split(x) + Split(y)
    decreases |x|
  {
    if x == [] {
      assert x + [Sep] + y == [Sep] + y;
    } else {
      assert (x + [Sep] + y)[1..] == x[1..] + [Sep] + y;
      SplitAround(x[1..], y);
    }
  }

  /** A string without separators is a single piece. */
  lemma {:induction false} SplitName(s: string)
    requires Sep !in s
    ensures Split(s) == [s]
    decreases |s|
  {
    if s != [] {
      SplitName(s[1..]);
      assert s == [s[0]] + s[1..];
    }
  }

  /** `Join` undoes `Split`, for every string. */
  lemma {:induction false} JoinSplit(s: string)
    ensures Join(Split(s)) == s
    decreases |s|
  {
    if s != [] {
      JoinSplit(s[1..]);
      var rest := Split(s[1..]);
      if s[0] == Sep {
        assert Split(s) == [""] + rest;
        assert ([""] + rest)[1..] == rest;
        assert s == [Sep] + s[1..];
      } else {
        var r := Split(s);
        assert r[0] == [s[0]] + rest[0] && r[1..] == rest[1..];
        if |rest| == 1 {
          assert s == [s[0]] + s[1..];
        } else {
          assert Join(rest) == rest[0] + [Sep] + Join(rest[1..]);
          assert s == [s[0]] + s[1..];
        }
      }
    }
  }

  /** `Split` undoes `Join` on a non-empty list of separator-free segments. */
  lemma {:induction false} SplitJoin(segs: seq<string>)
    requires |segs| >= 1 && NoSep(segs)
    ensures Split(Join(segs)) == segs
    decreases |segs|
  {
    if |segs| == 1 {
      SplitName(segs[0]);
    } else {
      SplitJoin(segs[1..]);
      SplitName(segs[0]);
      SplitAround(segs[0], Join(segs[1..]));
      assert segs == [segs[0]] + segs[1..];
    }
  }

  /** Joining a separator-free name onto a directory string that does not end
      with a separator adds exactly that name as the last piece. */
  lemma SplitPyJoinPlain(a: string, b: string)
    requires Sep !in b && a != "" && a[|a| - 1] != Sep
    ensures Split(PyJoin(a, b)) == Split(a) + [b]
  {
    SplitName(b);
    SplitAround(a, b);
  }

  /** Joining a separator-free name onto a directory string ending with a
      separator replaces the final empty piece by the name. */
  lemma SplitPyJoinTrailing(a: string, b: string)
    requires Sep !in b && a != "" && a[|a| - 1] == Sep
    ensures Split(a)[|Split(a)| - 1] == ""
    ensures Split(PyJoin(a, b)) == Split(a)[..|Split(a)| - 1] + [b]
  {
    SplitName(b);
    var a' := a[..|a| - 1];
    assert a == a' + [Sep] + "";
    SplitAround(a', "");
    SplitName("");
    assert PyJoin(a, b) == a' + [Sep] + b;
    SplitAround(a', b);
    assert Split(a)[..|Split(a)| - 1] == Split(a');
  }

  /** The venv test of the walk: joining a name onto a directory string adds a
      `venv` piece exactly when the name itself is `venv`. */
  lemma VenvAfterJoin(a: string, b: string)
    requires Sep !in b
    ensures "venv" in Split(PyJoin(a, b)) <==> "venv" in Split(a) || b == "venv"
  {
    if a == "" {
      SplitName(b);
    } else if a[|a| - 1] == Sep {
      SplitPyJoinTrailing(a, b);
      var s := Split(a);
      assert s == s[..|s| - 1] + [s[|s| - 1]];
    } else {
      SplitPyJoinPlain(a, b);
    }
  }

  // ---------------------------------------------------------------------------
  // abspath and relpath.

  /** Normalising a concatenation is normalising in two steps. */
  lemma {:induction false} NormalizeAppend(base: Path, s: seq<string>, t: seq<string>)
    requires IsNormal(base) && NoSep(s) && NoSep(t)
    ensures Normalize(base, s + t) == Normalize(Normalize(base, s), t)
    decreases |s|
  {
    if s != [] {
      assert (s + t)[1..] == s[1..] + t;
      var b' := if s[0] == "" || s[0] == "." then base
                else if s[0] == ".." then (if base == [] then [] else base[..|base| - 1])
                else base + [s[0]];
      NormalizeAppend(b', s[1..], t);
    } else {
      assert s + t == t;
    }
  }

  /** Normalising a list of real names just appends them. */
  lemma {:induction false} NormalizeNames(base: Path, names: seq<string>)
    requires IsNormal(base) && IsNormal(names)
    ensures Normalize(base, names) == base + names
    decreases |names|
  {
    if names != [] {
      NormalizeNames(base + [names[0]], names[1..]);
      assert base + [names[0]] + names[1..] == base + names;
    }
  }

  /** `abspath(join(a, name)) == abspath(a) + [name]` for a real name `name` and a
      non-empty directory string `a`. */
  lemma AbsPathJoin(cwd: Path, a: string, name: string)
    requires IsNormal(cwd) && a != "" && IsName(name)
    ensures AbsPath(cwd, PyJoin(a, name)) == AbsPath(cwd, a) + [name]
  {
    var base := if IsAbs(a) then [] else cwd;
    assert IsAbs(PyJoin(a, name)) == IsAbs(a);
    var s := Split(a);
    if a[|a| - 1] == Sep {
      SplitPyJoinTrailing(a, name);
      var s' := s[..|s| - 1];
      assert s == s' + [""];
      NormalizeAppend(base, s', [""]);
      NormalizeAppend(base, s', [name]);
    } else {
      SplitPyJoinPlain(a, name);
      NormalizeAppend(base, s, [name]);
    }
  }

  /** The common prefix of a path and one of its extensions is the shorter one. */
  lemma {:induction false} CommonPrefixOfExtension(base: Path, rest: Path)
    ensures CommonPrefixLength(base, base + rest) == |base|
    decreases |base|
  {
    if base != [] {
      assert (base + rest)[1..] == base[1..] + rest;
      CommonPrefixOfExtension(base[1..], rest);
    }
  }

  /** relpath of a path strictly below `start` is the part below `start`. */
  lemma RelPathBelow(start: Path, rest: Path)
    requires rest != []
    ensures RelPath(start + rest, start) == rest
  {
    CommonPrefixOfExtension(start, rest);
    assert (start + rest)[|start|..] == rest;
  }

  /** Resolving the relative path against its start leads back to the path:
      `abspath(join(start, relpath(path, start))) == path` for normalised paths. */
  lemma RelPathRoundTrip(path: Path, start: Path)
    requires IsNormal(path) && IsNormal(start)
    ensures Normalize(start, RelPath(path, start)) == path
  {
    var k := CommonPrefixLength(start, path);
    var tail := path[k..];
    var ups := Ups(|start| - k);
    assert RelPath(path, start) == if ups + tail == [] then ["."] else ups + tail;
    if ups + tail == [] {
      assert |start| == k && |path| == k;
      assert start == start[..k] && path == path[..k];
      assert Normalize(start, ["."]) == Normalize(start, []);
    } else {
      RelPathClimbAndDescend(path, start, k);
    }
  }

  /** The general case of `RelPathRoundTrip`: the `..` segments climb to the
      common ancestor and the rest of `path` descends from there. */
  lemma RelPathClimbAndDescend(path: Path, start: Path, k: nat)
    requires IsNormal(path) && IsNormal(start)
    requires k <= |start| && k <= |path| && start[..k] == path[..k]
    ensures Normalize(start, Ups(|start| - k) + path[k..]) == path
  {
    var tail := path[k..];
    var ups := Ups(|start| - k);
    TailIsNormal(path, k);
    UpsNoSep(|start| - k);
    PrefixIsNormal(start, k);
    calc {
      Normalize(start, ups + tail);
      { NormalizeAppend(start, ups, tail); }
      Normalize(Normalize(start, ups), tail);
      { ClimbUps(start, k); }
      Normalize(start[..k], tail);
      { NormalizeNames(start[..k], tail); }
      start[..k] + tail;
      path[..k] + tail;
      { assert path[..k] + path[k..] == path; }
      path;
    }
  }

  /** Parent steps contain no separator. */
  lemma UpsNoSep(n: nat)
    ensures NoSep(Ups(n))
  {
    forall i | 0 <= i < n ensures Sep !in Ups(n)[i] {
      assert Ups(n)[i] == "..";
    }
  }

  /** A prefix of a normalised path is normalised. */
  lemma PrefixIsNormal(path: Path, k: nat)
    requires IsNormal(path) && k <= |path|
    ensures IsNormal(path[..k])
  {
    forall i | 0 <= i < k ensures IsName(path[..k][i]) {
      assert path[..k][i] == path[i];
    }
  }

  /** A suffix of a normalised path is normalised. */
  lemma TailIsNormal(path: Path, k: nat)
    requires IsNormal(path) && k <= |path|
    ensures IsNormal(path[k..]) && NoSep(path[k..])
  {
    forall i | 0 <= i < |path| - k ensures IsName(path[k..][i]) {
      assert path[k..][i] == path[k + i];
    }
  }

  /** Climbing `|start| - k` levels from `start` leads to its prefix of length `k`. */
  lemma {:induction false} ClimbUps(start: Path, k: nat)
    requires IsNormal(start) && k <= |start|
    ensures Normalize(start, Ups(|start| - k)) == start[..k]
    decreases |start| - k
  {
    if k < |start| {
      var up := start[..|start| - 1];
      assert Ups(|start| - k)[1..] == Ups(|up| - k);
      ClimbUps(up, k);
      assert up[..k] == start[..k];
    } else {
      assert start[..k] == start;
    }
  }
}
