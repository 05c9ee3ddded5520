/**
 * The writer's behaviour as values: what one pass over an asset's variable
 * combinations logs, which files it writes, and where it stops. The imperative
 * `AssetWriting` module is proved to do exactly this; the lemmas here state what
 * follows from it (dry runs, forced runs, re-runs, the log).
 */
module WriterModel {
  import opened Wrappers
  import opened Paths

  /** A PHP value that may appear in the variable-values array; only strings are accepted. */
  datatype PhpValue = Str(s: string) | Int(i: int) | Bool(b: bool) | Null | Compound

  /** The ordered PHP array `variable name => list of allowed values`. */
  type VarValues = seq<(string, seq<PhpValue>)>

  /** One assignment of a value to each variable of an asset. */
  type Combination = map<string, string>

  /** `VarUtils::getCombinations` and `VarUtils::resolve`, which are not part of this model. */
  datatype VarUtils = VarUtils(
    getCombinations: (seq<string>, VarValues) -> seq<Combination>,
    resolve: (string, seq<string>, Combination) -> string)

  /** What the writer reads of an asset: its variables, its target path template, and `combineThenDump` per combination. */
  datatype AssetDef = AssetDef(vars: seq<string>, targetPath: string, dump: Combination -> string)

  /** `AssetFactory::getLastModified` for an asset with its values set to a combination. */
  datatype Factory = Factory(lastModified: (AssetDef, Combination) -> int)

  datatype Options = Options(dryRun: bool, force: bool, quiet: bool)

  datatype Config = Config(dir: string, factory: Factory, options: Options, values: VarValues, utils: VarUtils)

  /** A regular file: its whole content and its modification time. */
  datatype FileEntry = FileEntry(content: string, mtime: int)

  /** The part of the world the writer sees: files, existing directories, and what was echoed. */
  datatype Disk = Disk(files: map<string, FileEntry>, dirs: set<string>, output: seq<string>)

  /** The clock (constant during a run) and the paths at which `mkdir` or `file_put_contents` fail. */
  datatype Env = Env(now: int, failing: set<string>)

  datatype WriteError = DirectoryNotCreated(dir: string) | FileNotWritten(path: string)

  /** The constructor's complaint: a variable whose value list holds a non-string. */
  datatype InvalidArgument = NotAString(variable: string, value: PhpValue)

  /** The outcome of a sequence of steps: final disk, first error if any, and how many steps ran. */
  datatype Run = Run(disk: Disk, outcome: Outcome<WriteError>, processed: nat)

  // ---------------------------------------------------------------- values

  predicate AllStrings(values: VarValues) {
    forall i, j :: 0 <= i < |values| && 0 <= j < |values[i].1| ==> values[i].1[j].Str?
  }

  /** `(i, j)` is the first non-string value in iteration order (variables in order, then their values). */
  predicate FirstNonString(values: VarValues, i: int, j: int) {
    && 0 <= i < |values| && 0 <= j < |values[i].1|
    && !values[i].1[j].Str?
    && (forall i', j' :: 0 <= i' < i && 0 <= j' < |values[i'].1| ==> values[i'].1[j'].Str?)
    && (forall j' :: 0 <= j' < j ==> values[i].1[j'].Str?)
  }

  // ---------------------------------------------------------------- one step

  /**
   * What one iteration of `writeAsset` works with, once the combination is set on
   * the asset: the target path, the factory's last-modified time, and the dump.
   * All three are pure in the combination, so computing them up front is the same
   * as computing them when the loop needs them.
   */
  datatype Job = Job(path: string, lastModified: int, contents: string)

  /** Where a combination of an asset is written: the base directory, a slash, the resolved target path. */
  function TargetPath(cfg: Config, a: AssetDef, combo: Combination): string {
    cfg.dir + "/" + cfg.utils.resolve(a.targetPath, a.vars, combo)
  }

  /** The combinations an asset is written for, in order. */
  function Combos(cfg: Config, a: AssetDef): seq<Combination> {
    cfg.utils.getCombinations(a.vars, cfg.values)
  }

  function JobOf(cfg: Config, a: AssetDef, combo: Combination): Job {
    Job(TargetPath(cfg, a, combo), cfg.factory.lastModified(a, combo), a.dump(combo))
  }

  /** The jobs of an asset, one per combination, in order. */
  function Jobs(cfg: Config, a: AssetDef): (r: seq<Job>)
    ensures |r| == |Combos(cfg, a)|
    ensures forall k :: 0 <= k < |r| ==> r[k] == JobOf(cfg, a, Combos(cfg, a)[k])
  {
    var combos := Combos(cfg, a);
    seq(|combos|, k requires 0 <= k < |combos| => JobOf(cfg, a, combos[k]))
  }

  /** The line `log` echoes. */
  function Line(m: string): string {
    "[AssetWriter]: " + m + "\n"
  }

  function WritingLine(path: string): string { Line("Writing: " + path) }

  function SkippingLine(path: string): string { Line("Skipping: " + path) }

  /** `log`: appends the line unless quiet. */
  function Logged(quiet: bool, d: Disk, m: string): (r: Disk)
    ensures r.files == d.files && r.dirs == d.dirs
    ensures quiet ==> r.output == d.output
    ensures !quiet ==> r.output == d.output + [Line(m)]
  {
    if quiet then d else d.(output := d.output + [Line(m)])
  }

  /** The lines echoed for `lines`: none when quiet. */
  function Logs(quiet: bool, lines: seq<string>): seq<string> {
    if quiet then [] else lines
  }

  /** The write test: forced, missing, or older than the asset. */
  predicate ShouldWrite(force: bool, job: Job, files: map<string, FileEntry>) {
    force || job.path !in files || job.lastModified > files[job.path].mtime
  }

  /** The line logged for a job when the files are `files`. */
  function DecisionLine(force: bool, job: Job, files: map<string, FileEntry>): string {
    if ShouldWrite(force, job, files) then WritingLine(job.path) else SkippingLine(job.path)
  }

  /**
   * `write`: create the parent directory (recursively) unless it exists, then
   * replace the file's whole content, stamped with the current time.
   */
  function WriteFile(env: Env, d: Disk, path: string, contents: string): (Disk, Outcome<WriteError>) {
    var dir := Dirname(path);
    if dir !in d.dirs && dir in env.failing then
      (d, Fail(DirectoryNotCreated(dir)))
    else
      var d1 := if dir in d.dirs then d else d.(dirs := d.dirs + DirChain(dir));
      if path in env.failing then
        (d1, Fail(FileNotWritten(path)))
      else
        (d1.(files := d1.files[path := FileEntry(contents, env.now)]), Pass)
  }

  /**
   * What `write` promises: nothing is echoed and no directory disappears; it
   * succeeds exactly when the parent exists or can be made and the file can be
   * put, and then the file holds the contents; a parent that cannot be made is
   * reported and stops everything.
   */
  lemma WriteFileSpec(env: Env, d: Disk, path: string, contents: string)
    ensures var r := WriteFile(env, d, path, contents);
      && r.0.output == d.output && d.dirs <= r.0.dirs <= d.dirs + DirChain(Dirname(path))
      && (r.1.Pass? <==> (Dirname(path) in d.dirs || Dirname(path) !in env.failing) && path !in env.failing)
      && (r.1.Pass? ==> r.0.files == d.files[path := FileEntry(contents, env.now)] && Dirname(path) in r.0.dirs)
      && (r.1.Fail? ==> r.0.files == d.files)
      && (r.1 == Fail(DirectoryNotCreated(Dirname(path))) <==> Dirname(path) !in d.dirs && Dirname(path) in env.failing)
      && (r.1 == Fail(DirectoryNotCreated(Dirname(path))) ==> r.0 == d)
  {
  }

  /** One iteration of `writeAsset`'s loop: decide, log, and write unless dry. */
  function Step(opts: Options, env: Env, job: Job, d: Disk): (Disk, Outcome<WriteError>) {
    if ShouldWrite(opts.force, job, d.files) then
      var d1 := Logged(opts.quiet, d, "Writing: " + job.path);
      if opts.dryRun then (d1, Pass) else WriteFile(env, d1, job.path, job.contents)
    else
      (Logged(opts.quiet, d, "Skipping: " + job.path), Pass)
  }

  /**
   * What one iteration promises: the decision is logged whatever happens next;
   * only the target file is touched, and only as a whole; a dry run, or a target
   * found up to date, changes no file or directory and cannot fail; a real write
   * that passes has replaced the target.
   */
  lemma StepSpec(opts: Options, env: Env, job: Job, d: Disk)
    ensures var r := Step(opts, env, job, d);
      && r.0.output == d.output + Logs(opts.quiet, [DecisionLine(opts.force, job, d.files)])
      && (r.0.files == d.files || r.0.files == d.files[job.path := FileEntry(job.contents, env.now)])
      && d.dirs <= r.0.dirs <= d.dirs + DirChain(Dirname(job.path))
      && (opts.dryRun || !ShouldWrite(opts.force, job, d.files) ==>
            r.1 == Pass && r.0.files == d.files && r.0.dirs == d.dirs)
      && (!opts.dryRun && ShouldWrite(opts.force, job, d.files) && r.1.Pass? ==>
            r.0.files == d.files[job.path := FileEntry(job.contents, env.now)])
  {
    if ShouldWrite(opts.force, job, d.files) && !opts.dryRun {
      WriteFileSpec(env, Logged(opts.quiet, d, "Writing: " + job.path), job.path, job.contents);
    }
  }

  // ---------------------------------------------------------------- runs

  /** One iteration of a loop over jobs: the new state and what became of the job. */
  type StepFn = (Job, Disk) -> (Disk, Outcome<WriteError>)

  /** The first `n` iterations of a loop over `jobs` whose body is `step`, stopping at the first error. */
  function Fold(step: StepFn, jobs: seq<Job>, n: nat, d: Disk): (r: Run)
    requires n <= |jobs|
    ensures r.processed <= n
    ensures r.outcome.Pass? ==> r.processed == n
    ensures r.outcome.Fail? ==> 1 <= r.processed
  {
    if n == 0 then
      Run(d, Pass, 0)
    else
      var r := Fold(step, jobs, n - 1, d);
      if r.outcome.Fail? then r
      else
        var s := step(jobs[n - 1], r.disk);
        Run(s.0, s.1, r.processed + 1)
  }

  /** `step` applied, under a name of its own: facts stated about it come into play only where a proof names it. */
  ghost function Stepped(step: StepFn, job: Job, d: Disk): (Disk, Outcome<WriteError>) {
    step(job, d)
  }

  /** The body of `writeAsset`'s loop under the given options and environment. */
  function StepWith(opts: Options, env: Env): StepFn {
    (job: Job, d: Disk) => Step(opts, env, job, d)
  }

  /** The first `n` iterations of `writeAsset`'s loop over `jobs`. */
  function RunPrefix(opts: Options, env: Env, jobs: seq<Job>, n: nat, d: Disk): Run
    requires n <= |jobs|
  {
    Fold(StepWith(opts, env), jobs, n, d)
  }

  /** The whole loop over `jobs`. */
  function RunJobs(opts: Options, env: Env, jobs: seq<Job>, d: Disk): Run {
    RunPrefix(opts, env, jobs, |jobs|, d)
  }

  /** `writeAsset` on one asset. */
  function RunAsset(cfg: Config, env: Env, a: AssetDef, d: Disk): Run {
    RunJobs(cfg.options, env, Jobs(cfg, a), d)
  }

  /** Writing one asset: the new state, the first error if any, and how many of its jobs ran. */
  type AssetFn = (AssetDef, Disk) -> Run

  /** The first `n` iterations of a loop over `assets` whose body is `run`, stopping at the first error. */
  function FoldAssets(run: AssetFn, assets: seq<AssetDef>, n: nat, d: Disk): (r: Run)
    requires n <= |assets|
    ensures r.processed <= n
    ensures r.outcome.Pass? ==> r.processed == n
    ensures r.outcome.Fail? ==> 1 <= r.processed
  {
    if n == 0 then
      Run(d, Pass, 0)
    else
      var r := FoldAssets(run, assets, n - 1, d);
      if r.outcome.Fail? then r
      else
        var s := run(assets[n - 1], r.disk);
        Run(s.disk, s.outcome, r.processed + 1)
  }

  /** `run` applied, under a name of its own, as `Stepped` is for steps. */
  ghost function Ran(run: AssetFn, a: AssetDef, d: Disk): Run {
    run(a, d)
  }

  /** The body of `writeManagerAssets`'s loop: `writeAsset` under the given settings and environment. */
  function AssetRunner(cfg: Config, env: Env): AssetFn {
    (a: AssetDef, d: Disk) => RunAsset(cfg, env, a, d)
  }

  /** The first `n` assets of `writeManagerAssets`. */
  function RunAssets(cfg: Config, env: Env, assets: seq<AssetDef>, n: nat, d: Disk): Run
    requires n <= |assets|
  {
    FoldAssets(AssetRunner(cfg, env), assets, n, d)
  }

  // ---------------------------------------------------------------- the loop stops at the first error

  /** One more iteration of `writeAsset`'s loop after a passing prefix is one more `Step`. */
  lemma RunPrefixStep(opts: Options, env: Env, jobs: seq<Job>, n: nat, d: Disk)
    requires n < |jobs|
    requires RunPrefix(opts, env, jobs, n, d).outcome.Pass?
    ensures var s := Step(opts, env, jobs[n], RunPrefix(opts, env, jobs, n, d).disk);
      RunPrefix(opts, env, jobs, n + 1, d) == Run(s.0, s.1, n + 1)
  {
  }

  /** One more asset after a passing prefix is one more run of the loop body. */
  lemma FoldAssetsStep(run: AssetFn, assets: seq<AssetDef>, n: nat, d: Disk)
    requires n < |assets|
    requires FoldAssets(run, assets, n, d).outcome.Pass?
    ensures var s := run(assets[n], FoldAssets(run, assets, n, d).disk);
      FoldAssets(run, assets, n + 1, d) == Run(s.disk, s.outcome, n + 1)
  {
  }

  /**
   * Only a write throws: a run that failed stopped at a job that was due and
   * written for real, after every earlier job had passed, and the error names
   * that job's parent directory or the job's own path.
   */
  lemma {:induction false} FailsOnlyWhenWriting(opts: Options, env: Env, jobs: seq<Job>, n: nat, d: Disk)
    requires n <= |jobs|
    requires RunPrefix(opts, env, jobs, n, d).outcome.Fail?
    ensures var r := RunPrefix(opts, env, jobs, n, d);
      var job := jobs[r.processed - 1];
      var before := RunPrefix(opts, env, jobs, r.processed - 1, d);
      && before.outcome.Pass?
      && !opts.dryRun && ShouldWrite(opts.force, job, before.disk.files)
      && (r.outcome.error == DirectoryNotCreated(Dirname(job.path)) || r.outcome.error == FileNotWritten(job.path))
  {
    var prev := RunPrefix(opts, env, jobs, n - 1, d);
    if prev.outcome.Fail? {
      FailsOnlyWhenWriting(opts, env, jobs, n - 1, d);
    } else {
      RunPrefixStep(opts, env, jobs, n - 1, d);
      StepFailsOnlyWhenWriting(opts, env, jobs[n - 1], prev.disk);
    }
  }

  /** One iteration throws only when it writes a due target for real, and the error names its parent or its path. */
  lemma StepFailsOnlyWhenWriting(opts: Options, env: Env, job: Job, d: Disk)
    requires Step(opts, env, job, d).1.Fail?
    ensures !opts.dryRun && ShouldWrite(opts.force, job, d.files)
    ensures Step(opts, env, job, d).1 == Fail(DirectoryNotCreated(Dirname(job.path)))
      || Step(opts, env, job, d).1 == Fail(FileNotWritten(job.path))
  {
  }

  /** One more asset after a passing prefix of `writeManagerAssets` is one more `writeAsset`. */
  lemma RunAssetsStep(cfg: Config, env: Env, assets: seq<AssetDef>, n: nat, d: Disk)
    requires 0 < n <= |assets|
    requires RunAssets(cfg, env, assets, n - 1, d).outcome.Pass?
    ensures var s := RunAsset(cfg, env, assets[n - 1], RunAssets(cfg, env, assets, n - 1, d).disk);
      RunAssets(cfg, env, assets, n, d) == Run(s.disk, s.outcome, n)
  {
    FoldAssetsStep(AssetRunner(cfg, env), assets, n - 1, d);
  }

  /** Once a prefix has failed, running further changes nothing. */
  lemma {:induction false} FailureSticks(step: StepFn, jobs: seq<Job>, n: nat, m: nat, d: Disk)
    requires n <= m <= |jobs|
    requires Fold(step, jobs, n, d).outcome.Fail?
    ensures Fold(step, jobs, m, d) == Fold(step, jobs, n, d)
    decreases m
  {
    if m > n {
      FailureSticks(step, jobs, n, m - 1, d);
    }
  }

  /** The same for the loop over a manager's assets. */
  lemma {:induction false} AssetFailureSticks(run: AssetFn, assets: seq<AssetDef>, n: nat, m: nat, d: Disk)
    requires n <= m <= |assets|
    requires FoldAssets(run, assets, n, d).outcome.Fail?
    ensures FoldAssets(run, assets, m, d) == FoldAssets(run, assets, n, d)
    decreases m
  {
    if m > n {
      AssetFailureSticks(run, assets, n, m - 1, d);
    }
  }
}
