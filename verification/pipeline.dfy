/**
 One run of the combiner (ToSingleFile.py, `main` after argument parsing):
 validate the folder, select the files, leave the output alone when there is
 nothing to combine, remove an existing output, then append one block per file.

 The file system is a value: the folder's listing (absent when the folder is
 not a directory), the output file's current bytes (absent when it does not
 exist), whether removing it succeeds, and which files make the write loop
 raise. A file fails when `open(file, 'rb')` raises, or when its header cannot
 be encoded: `os.walk` decodes an undecodable name with surrogate escapes, and
 `encode('utf-8')` rejects those. A Dafny `char` cannot hold such a name, so
 the model records the failure against the file's path instead.
 */
module Pipeline {
  import opened Seqs
  import opened Paths
  import opened Utf8
  import opened Combiner
  import opened Output
  import opened Selection

  /** The parsed command line. */
  datatype Config = Config(folder: string, output: string, extension: string, excludes: seq<string>)

  /** What the run can observe of its surroundings. */
  datatype Env = Env(
    cwd: Path,                    // os.getcwd(), normalised
    script: Path,                 // os.path.realpath(__file__)
    listing: Option<seq<Node>>,   // the folder's contents; None: not a directory
    existing: Option<Bytes>,      // the output file's bytes; None: it does not exist
    removable: bool,              // whether os.remove on the output succeeds
    failing: set<string>          // listed paths whose turn in the write loop raises
  )

  /** How the run ended. */
  datatype Status = Combined(count: nat) | NothingFound | MissingFolder | CleanupFailed | WriteFailed

  /** The run's outcome: its status, its exit code and the output file afterwards. */
  datatype Report = Report(status: Status, exitCode: int, output: Option<Bytes>)

  predicate ValidEnv(env: Env) {
    IsNormal(env.cwd) && (env.listing.Some? ==> WellNamed(env.listing.value))
  }

  /** The scan parameters of a run. */
  function ScanOf(cfg: Config, env: Env): Scan
    requires ValidEnv(env)
  {
    Scan(cfg.folder, cfg.extension, cfg.excludes, AbsPath(env.cwd, cfg.output), env.script)
  }

  function Run(cfg: Config, env: Env): (r: Report)
    requires ValidEnv(env)
    ensures r.exitCode == 0 <==> r.status.Combined? || r.status.NothingFound?
    ensures r.exitCode == 0 || r.exitCode == 1
    ensures !r.status.Combined? && !r.status.WriteFailed? ==> r.output == env.existing
    ensures r.status.Combined? ==> r.status.count > 0 && r.output.Some?
    ensures r.status.MissingFolder? <==> cfg.folder == "" || env.listing.None?
    ensures r.status.CleanupFailed? ==> env.existing.Some? && !env.removable
  {
    if cfg.folder == "" || env.listing.None? then
      Report(MissingFolder, 1, env.existing)
    else
      var files := SelectFiles(ScanOf(cfg, env), env.cwd, env.listing.value);
      if files == [] then
        Report(NothingFound, 0, env.existing)
      else if env.existing.Some? && !env.removable then
        Report(CleanupFailed, 1, env.existing)
      else
        WritePhase(ItemsOf(env.cwd, cfg.folder, files), env.failing)
  }

  /** Lines 103-122 after the old output is gone: the blocks up to the first file
      whose turn raises. The output file exists once a block was appended. */
  function WritePhase(items: seq<Item>, failing: set<string>): (r: Report)
    ensures r.status.Combined? || r.status.WriteFailed?
    ensures r.status.Combined? <==> forall i :: 0 <= i < |items| ==> items[i].path !in failing
    ensures r.status.Combined? ==> r == Report(Combined(|items|), 0, Some(Serialise(items)))
    ensures r.status.WriteFailed? ==> r.exitCode == 1
    ensures r.output.None? || r.output.value <= Serialise(items)
    ensures r.status.WriteFailed? ==> (r.output ==
      if FirstFailure(items, failing) == 0 then None else Some(Serialise(items[..FirstFailure(items, failing)])))
  {
    var k := FirstFailure(items, failing);
    PartialIsPrefix(items, k);
    if k == |items| then
      Report(Combined(|items|), 0, Some(Serialise(items)))
    else
      Report(WriteFailed, 1, if k == 0 then None else Some(Serialise(items[..k])))
  }

  /** The write phase as the program performs it: the append loop of
      `Output.WriteAll`, then the report. It ends exactly as `WritePhase` says. */
  method WriteLoop(items: seq<Item>, failing: set<string>) returns (r: Report)
    ensures r == WritePhase(items, failing)
  {
    var out, written := WriteAll(items, failing);
    if written == |items| {
      assert items[..written] == items;
      r := Report(Combined(|items|), 0, Some(out));
    } else {
      r := Report(WriteFailed, 1, if written == 0 then None else Some(out));
    }
  }

  /** The full output a run would write: one block per selected file, in order. */
  function FullOutput(cfg: Config, env: Env): Bytes
    requires ValidEnv(env) && cfg.folder != "" && env.listing.Some?
  {
    Serialise(ItemsOf(env.cwd, cfg.folder, SelectFiles(ScanOf(cfg, env), env.cwd, env.listing.value)))
  }

  /** With nothing that qualifies, the run succeeds and does not touch the output. */
  lemma NothingToCombine(cfg: Config, env: Env)
    requires ValidEnv(env) && cfg.folder != "" && env.listing.Some?
    requires forall w :: w in Walk(cfg.folder, [], env.listing.value) ==> !Qualifies(ScanOf(cfg, env), env.cwd, w)
    ensures Run(cfg, env) == Report(NothingFound, 0, env.existing)
  {
    SelectionEmptyIff(ScanOf(cfg, env), env.cwd, env.listing.value);
  }

  /** When no selected file fails and any old output can be removed, the
      run succeeds and the output is exactly the blocks of the selected files. */
  lemma CombinesEverything(cfg: Config, env: Env)
    requires ValidEnv(env) && cfg.folder != "" && env.listing.Some?
    requires SelectFiles(ScanOf(cfg, env), env.cwd, env.listing.value) != []
    requires env.existing.None? || env.removable
    requires forall f :: f in SelectFiles(ScanOf(cfg, env), env.cwd, env.listing.value) ==> f.path !in env.failing
    ensures Run(cfg, env).status == Combined(|SelectFiles(ScanOf(cfg, env), env.cwd, env.listing.value)|)
    ensures Run(cfg, env).exitCode == 0
    ensures Run(cfg, env).output == Some(FullOutput(cfg, env))
  {
    var files := SelectFiles(ScanOf(cfg, env), env.cwd, env.listing.value);
    var items := ItemsOf(env.cwd, cfg.folder, files);
    assert Run(cfg, env) == WritePhase(items, env.failing);
    forall i | 0 <= i < |items| ensures items[i].path !in env.failing {
      assert files[i] in files;
    }
  }

  /** Whatever happens, the output afterwards is the old output (nothing was
      written) or a prefix of the full output (the blocks of the files written
      before one failed). */
  lemma OutputIsPrefix(cfg: Config, env: Env)
    requires ValidEnv(env)
    ensures Run(cfg, env).output == env.existing || Run(cfg, env).output.None? ||
      (cfg.folder != "" && env.listing.Some? && Run(cfg, env).output.value <= FullOutput(cfg, env))
  {
    if cfg.folder != "" && env.listing.Some? {
      var files := SelectFiles(ScanOf(cfg, env), env.cwd, env.listing.value);
      if files != [] && (env.existing.None? || env.removable) {
        assert Run(cfg, env) == WritePhase(ItemsOf(env.cwd, cfg.folder, files), env.failing);
      }
    }
  }

  /** The header of the `i`-th block names the `i`-th selected file by its path
      relative to the folder: the joined names of the directories leading to it
      and its own name. */
  lemma HeaderNamesFile(cfg: Config, env: Env, i: nat)
    requires ValidEnv(env) && cfg.folder != "" && env.listing.Some?
    requires i < |SelectFiles(ScanOf(cfg, env), env.cwd, env.listing.value)|
    ensures exists w :: (w in Walk(cfg.folder, [], env.listing.value)
      && Qualifies(ScanOf(cfg, env), env.cwd, w)
      && ItemsOf(env.cwd, cfg.folder, SelectFiles(ScanOf(cfg, env), env.cwd, env.listing.value))[i]
         == Item(ToEntry(w).path, RelativeOf(w), w.content))
  {
    var scan := ScanOf(cfg, env);
    var files := SelectFiles(scan, env.cwd, env.listing.value);
    SelectionIff(scan, env.cwd, env.listing.value, files[i]);
    var w :| w in Walk(cfg.folder, [], env.listing.value) && Qualifies(scan, env.cwd, w) && files[i] == ToEntry(w);
    WalkedFileFacts(env.cwd, cfg.folder, env.listing.value, w);
  }

  /** Conversely, every walked file that qualifies has a block whose header
      names it by its relative path and whose body is its bytes. */
  lemma QualifyingFileHasBlock(cfg: Config, env: Env, w: WalkItem)
    requires ValidEnv(env) && cfg.folder != "" && env.listing.Some?
    requires w in Walk(cfg.folder, [], env.listing.value) && Qualifies(ScanOf(cfg, env), env.cwd, w)
    ensures exists i :: (0 <= i < |SelectFiles(ScanOf(cfg, env), env.cwd, env.listing.value)|
      && ItemsOf(env.cwd, cfg.folder, SelectFiles(ScanOf(cfg, env), env.cwd, env.listing.value))[i]
         == Item(ToEntry(w).path, RelativeOf(w), w.content))
  {
    var scan := ScanOf(cfg, env);
    var files := SelectFiles(scan, env.cwd, env.listing.value);
    SelectionIff(scan, env.cwd, env.listing.value, ToEntry(w));
    var i :| 0 <= i < |files| && files[i] == ToEntry(w);
    WalkedFileFacts(env.cwd, cfg.folder, env.listing.value, w);
    assert ItemsOf(env.cwd, cfg.folder, files)[i] == Item(ToEntry(w).path, RelativeOf(w), w.content);
  }

  // ---------------------------------------------------------------------------
  // The three ways a run fails.

  /** Lines 54-56: a folder argument that is not a directory ends the run with
      exit code 1 before anything is touched. */
  lemma MissingFolderFails(cfg: Config, env: Env)
    requires ValidEnv(env)
    requires cfg.folder == "" || env.listing.None?
    ensures Run(cfg, env) == Report(MissingFolder, 1, env.existing)
  {
  }

  /** Lines 96-101: with files to combine, an old output that cannot be removed
      ends the run with exit code 1 and leaves that output as it was. */
  lemma CleanupFails(cfg: Config, env: Env)
    requires ValidEnv(env) && cfg.folder != "" && env.listing.Some?
    requires SelectFiles(ScanOf(cfg, env), env.cwd, env.listing.value) != []
    requires env.existing.Some? && !env.removable
    ensures Run(cfg, env) == Report(CleanupFailed, 1, env.existing)
  {
  }

  /** Lines 104-111 and 120-122: once the old output is gone, any selected file
      whose turn raises ends the run with exit code 1, and no block of that file
      or of a later one is written. */
  lemma FailingFileFails(cfg: Config, env: Env, i: nat)
    requires ValidEnv(env) && cfg.folder != "" && env.listing.Some?
    requires env.existing.None? || env.removable
    requires i < |SelectFiles(ScanOf(cfg, env), env.cwd, env.listing.value)|
    requires SelectFiles(ScanOf(cfg, env), env.cwd, env.listing.value)[i].path in env.failing
    ensures Run(cfg, env).status == WriteFailed && Run(cfg, env).exitCode == 1
    ensures Run(cfg, env).output.None? ||
      Run(cfg, env).output.value <= Serialise(ItemsOf(env.cwd, cfg.folder, SelectFiles(ScanOf(cfg, env), env.cwd, env.listing.value))[..i])
  {
    var files := SelectFiles(ScanOf(cfg, env), env.cwd, env.listing.value);
    var items := ItemsOf(env.cwd, cfg.folder, files);
    assert Run(cfg, env) == WritePhase(items, env.failing);
    assert items[i].path in env.failing;
    WritePhaseStopsBefore(items, env.failing, i);
  }

  /** A failing file `i` stops the write phase, with at most the blocks of the
      files before it written. */
  lemma WritePhaseStopsBefore(items: seq<Item>, failing: set<string>, i: nat)
    requires i < |items| && items[i].path in failing
    ensures WritePhase(items, failing).status.WriteFailed?
    ensures WritePhase(items, failing).output.None? || WritePhase(items, failing).output.value <= Serialise(items[..i])
  {
    var k := FirstFailure(items, failing);
    assert k <= i;
    assert items[..i][..k] == items[..k];
    PartialIsPrefix(items[..i], k);
  }

  /** Conversely, a failed write phase has a selected file whose turn raised. */
  lemma WriteFailedHasCause(cfg: Config, env: Env)
    requires ValidEnv(env)
    requires Run(cfg, env).status.WriteFailed?
    ensures cfg.folder != "" && env.listing.Some?
    ensures exists i :: (0 <= i < |SelectFiles(ScanOf(cfg, env), env.cwd, env.listing.value)| &&
      SelectFiles(ScanOf(cfg, env), env.cwd, env.listing.value)[i].path in env.failing)
  {
    var files := SelectFiles(ScanOf(cfg, env), env.cwd, env.listing.value);
    var items := ItemsOf(env.cwd, cfg.folder, files);
    assert Run(cfg, env) == WritePhase(items, env.failing);
    var k := FirstFailure(items, env.failing);
    assert files[k].path == items[k].path;
  }
}
