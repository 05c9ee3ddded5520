/**
 * What follows from the writer's loop: the log has one line per combination,
 * a dry run leaves the filesystem alone and logs what a real run would, a forced
 * run rewrites every target, and running again skips everything that is up to date.
 */
module WriterProperties {
  import opened Wrappers
  import opened Paths
  import opened WriterModel

  /** The decision lines for the first `n` jobs, all taken against the same files. */
  function DecisionLines(force: bool, jobs: seq<Job>, n: nat, files: map<string, FileEntry>): (r: seq<string>)
    requires n <= |jobs|
    ensures |r| == n
  {
    if n == 0 then [] else DecisionLines(force, jobs, n - 1, files) + [DecisionLine(force, jobs[n - 1], files)]
  }

  /** "Writing" lines for the first `n` jobs. */
  function WritingLines(jobs: seq<Job>, n: nat): (r: seq<string>)
    requires n <= |jobs|
    ensures |r| == n
  {
    if n == 0 then [] else WritingLines(jobs, n - 1) + [WritingLine(jobs[n - 1].path)]
  }

  /** "Skipping" lines for the first `n` jobs. */
  function SkippingLines(jobs: seq<Job>, n: nat): (r: seq<string>)
    requires n <= |jobs|
    ensures |r| == n
  {
    if n == 0 then [] else SkippingLines(jobs, n - 1) + [SkippingLine(jobs[n - 1].path)]
  }

  /** None of the first `n` jobs targets `path`. */
  predicate NotTargeted(jobs: seq<Job>, n: nat, path: string)
    requires n <= |jobs|
  {
    forall k :: 0 <= k < n ==> jobs[k].path != path
  }

  /** No two of the first `n` jobs share a target: each targets a file no earlier job targets. */
  predicate DistinctTargets(jobs: seq<Job>, n: nat)
    requires n <= |jobs|
  {
    n == 0 || (DistinctTargets(jobs, n - 1) && NotTargeted(jobs, n - 1, jobs[n - 1].path))
  }

  /** `path` exists and is at least as new as `lastModified`. */
  predicate UpToDateAt(files: map<string, FileEntry>, path: string, lastModified: int) {
    path in files && files[path].mtime >= lastModified
  }

  /** A job's target needs no rewrite unless forced. */
  predicate UpToDate(job: Job, files: map<string, FileEntry>) {
    UpToDateAt(files, job.path, job.lastModified)
  }

  lemma LogsAppend(quiet: bool, out: seq<string>, lines: seq<string>, line: string)
    ensures out + Logs(quiet, lines) + Logs(quiet, [line]) == out + Logs(quiet, lines + [line])
  {
    if !quiet {
      assert out + lines + [line] == out + (lines + [line]);
    }
  }

  /** Echoing two runs of lines one after the other is echoing them joined. */
  lemma LogsConcat(quiet: bool, out: seq<string>, a: seq<string>, b: seq<string>)
    ensures out + Logs(quiet, a) + Logs(quiet, b) == out + Logs(quiet, a + b)
  {
    if !quiet {
      assert out + a + b == out + (a + b);
    }
  }

  // ---------------------------------------------------------------- what one step does

  /** Each step logs its decision, taken against the files it starts from. */
  ghost predicate LogsDecision(step: StepFn, force: bool, quiet: bool) {
    forall job: Job, d: Disk {:trigger Stepped(step, job, d)} ::
      Stepped(step, job, d).0.output == d.output + Logs(quiet, [DecisionLine(force, job, d.files)])
  }

  /** Each step changes at most its own target, and writes it whole, stamped with `now`. */
  ghost predicate TouchesOnlyTarget(step: StepFn, now: int) {
    forall job: Job, d: Disk {:trigger Stepped(step, job, d)} ::
      Stepped(step, job, d).0.files == d.files || Stepped(step, job, d).0.files == d.files[job.path := FileEntry(job.contents, now)]
  }

  /** A step whose target needs no rewrite passes and changes no file or directory. */
  ghost predicate SkipsWhenNotDue(step: StepFn, force: bool) {
    forall job: Job, d: Disk {:trigger Stepped(step, job, d)} ::
      !ShouldWrite(force, job, d.files) ==>
        Stepped(step, job, d).1 == Pass && Stepped(step, job, d).0.files == d.files && Stepped(step, job, d).0.dirs == d.dirs
  }

  /** A step whose target needs a rewrite, and that passes, has written the dump stamped with `now`. */
  ghost predicate WritesWhenDue(step: StepFn, force: bool, now: int) {
    forall job: Job, d: Disk {:trigger Stepped(step, job, d)} ::
      ShouldWrite(force, job, d.files) && Stepped(step, job, d).1.Pass? ==>
        Stepped(step, job, d).0.files == d.files[job.path := FileEntry(job.contents, now)]
  }

  /** Every step passes and changes no file or directory. */
  ghost predicate ChangesNoFile(step: StepFn) {
    forall job: Job, d: Disk {:trigger Stepped(step, job, d)} ::
      Stepped(step, job, d).1 == Pass && Stepped(step, job, d).0.files == d.files && Stepped(step, job, d).0.dirs == d.dirs
  }

  /**
   * When the writer's directory has no trailing slash and a combination's target
   * resolves to a plain file name, that file lands directly in the directory: the
   * only directories one iteration may create are the writer's directory and its
   * ancestors.
   */
  lemma FlatTargetStaysInDir(cfg: Config, env: Env, a: AssetDef, combo: Combination, d: Disk)
    requires cfg.dir != "" && cfg.dir[|cfg.dir| - 1] != '/'
    requires cfg.utils.resolve(a.targetPath, a.vars, combo) != ""
    requires '/' !in cfg.utils.resolve(a.targetPath, a.vars, combo)
    ensures Dirname(JobOf(cfg, a, combo).path) == cfg.dir
    ensures var r := Step(cfg.options, env, JobOf(cfg, a, combo), d);
      d.dirs <= r.0.dirs <= d.dirs + DirChain(cfg.dir)
  {
    DirnameOfJoin(cfg.dir, cfg.utils.resolve(a.targetPath, a.vars, combo));
    StepSpec(cfg.options, env, JobOf(cfg, a, combo), d);
  }

  /** The body of `writeAsset`'s loop has each of these properties: always the first three, the last two when writing for real or dry. */
  lemma StepWithFacts(opts: Options, env: Env)
    ensures LogsDecision(StepWith(opts, env), opts.force, opts.quiet)
    ensures TouchesOnlyTarget(StepWith(opts, env), env.now)
    ensures SkipsWhenNotDue(StepWith(opts, env), opts.force)
    ensures !opts.dryRun ==> WritesWhenDue(StepWith(opts, env), opts.force, env.now)
    ensures opts.dryRun ==> ChangesNoFile(StepWith(opts, env))
  {
    StepLogsDecision(opts, env);
    StepTouchesOnlyTarget(opts, env);
    StepSkipsWhenNotDue(opts, env);
    if opts.dryRun {
      StepChangesNoFile(opts, env);
    } else {
      StepWritesWhenDue(opts, env);
    }
  }

  lemma StepLogsDecision(opts: Options, env: Env)
    ensures LogsDecision(StepWith(opts, env), opts.force, opts.quiet)
  {
    forall job: Job, d: Disk
      ensures Stepped(StepWith(opts, env), job, d) == Step(opts, env, job, d)
    {
      StepSpec(opts, env, job, d);
    }
  }

  lemma StepTouchesOnlyTarget(opts: Options, env: Env)
    ensures TouchesOnlyTarget(StepWith(opts, env), env.now)
  {
    forall job: Job, d: Disk
      ensures Stepped(StepWith(opts, env), job, d) == Step(opts, env, job, d)
    {
      StepSpec(opts, env, job, d);
    }
  }

  lemma StepSkipsWhenNotDue(opts: Options, env: Env)
    ensures SkipsWhenNotDue(StepWith(opts, env), opts.force)
  {
    forall job: Job, d: Disk
      ensures Stepped(StepWith(opts, env), job, d) == Step(opts, env, job, d)
    {
      StepSpec(opts, env, job, d);
    }
  }

  lemma StepWritesWhenDue(opts: Options, env: Env)
    requires !opts.dryRun
    ensures WritesWhenDue(StepWith(opts, env), opts.force, env.now)
  {
    forall job: Job, d: Disk
      ensures Stepped(StepWith(opts, env), job, d) == Step(opts, env, job, d)
    {
      StepSpec(opts, env, job, d);
    }
  }

  lemma StepChangesNoFile(opts: Options, env: Env)
    requires opts.dryRun
    ensures ChangesNoFile(StepWith(opts, env))
  {
    forall job: Job, d: Disk
      ensures Stepped(StepWith(opts, env), job, d) == Step(opts, env, job, d)
    {
      StepSpec(opts, env, job, d);
    }
  }

  /** The logged lines `lines` followed by the line of one more step. */
  lemma LogStep(step: StepFn, force: bool, quiet: bool, jobs: seq<Job>, n: nat, m: nat, d: Disk, prev: Disk, lines: seq<string>)
    requires LogsDecision(step, force, quiet)
    requires m + 1 == n <= |jobs|
    requires prev.output == d.output + Logs(quiet, lines)
    ensures step(jobs[n - 1], prev).0.output == d.output + Logs(quiet, lines + [DecisionLine(force, jobs[n - 1], prev.files)])
  {
    assert Stepped(step, jobs[n - 1], prev) == step(jobs[n - 1], prev);
    LogsAppend(quiet, d.output, lines, DecisionLine(force, jobs[n - 1], prev.files));
  }

  // ---------------------------------------------------------------- the log

  /** A line `log` may write for `path`. */
  predicate LogLine(line: string, path: string) {
    line == WritingLine(path) || line == SkippingLine(path)
  }

  /** `out` is `out0` followed by one line for each of the first `m` targets. */
  predicate LogShape(out0: seq<string>, out: seq<string>, jobs: seq<Job>, m: nat)
    requires m <= |jobs|
  {
    && |out| == |out0| + m
    && out[..|out0|] == out0
    && forall k :: 0 <= k < m ==> LogLine(out[|out0| + k], jobs[k].path)
  }

  lemma LogShapeExtend(out0: seq<string>, out: seq<string>, jobs: seq<Job>, n: nat, m: nat, line: string)
    requires m + 1 == n <= |jobs|
    requires LogShape(out0, out, jobs, m)
    requires LogLine(line, jobs[n - 1].path)
    ensures LogShape(out0, out + [line], jobs, m + 1)
  {
    var out' := out + [line];
    assert out'[..|out0|] == out[..|out0|];
    forall k | 0 <= k < m + 1 ensures LogLine(out'[|out0| + k], jobs[k].path) {
      if k < m {
        assert out'[|out0| + k] == out[|out0| + k];
      }
    }
  }

  lemma {:induction false} FoldLogShape(step: StepFn, force: bool, quiet: bool, jobs: seq<Job>, n: nat, d: Disk)
    requires LogsDecision(step, force, quiet)
    requires n <= |jobs|
    ensures var r := Fold(step, jobs, n, d);
      && (quiet ==> r.disk.output == d.output)
      && (!quiet ==> LogShape(d.output, r.disk.output, jobs, r.processed))
  {
    if n > 0 {
      FoldLogShape(step, force, quiet, jobs, n - 1, d);
      var r := Fold(step, jobs, n - 1, d);
      if r.outcome.Pass? {
        var line := DecisionLine(force, jobs[n - 1], r.disk.files);
        assert Stepped(step, jobs[n - 1], r.disk) == step(jobs[n - 1], r.disk);
        if !quiet {
          LogShapeExtend(d.output, r.disk.output, jobs, n, r.processed, line);
        }
      }
    }
  }

  /** The log: nothing when quiet, otherwise exactly one "Writing" or "Skipping" line per job processed, in order. */
  lemma OneLinePerCombination(opts: Options, env: Env, jobs: seq<Job>, n: nat, d: Disk)
    requires n <= |jobs|
    ensures var r := RunPrefix(opts, env, jobs, n, d);
      && (opts.quiet ==> r.disk.output == d.output)
      && (!opts.quiet ==> LogShape(d.output, r.disk.output, jobs, r.processed))
  {
    StepWithFacts(opts, env);
    FoldLogShape(StepWith(opts, env), opts.force, opts.quiet, jobs, n, d);
  }

  // ---------------------------------------------------------------- dry runs

  lemma {:induction false} FoldChangesNoFile(step: StepFn, force: bool, quiet: bool, jobs: seq<Job>, n: nat, d: Disk)
    requires LogsDecision(step, force, quiet) && ChangesNoFile(step)
    requires n <= |jobs|
    ensures var r := Fold(step, jobs, n, d);
      && r.outcome == Pass && r.processed == n
      && r.disk.files == d.files && r.disk.dirs == d.dirs
      && r.disk.output == d.output + Logs(quiet, DecisionLines(force, jobs, n, d.files))
  {
    if n > 0 {
      FoldChangesNoFile(step, force, quiet, jobs, n - 1, d);
      var r := Fold(step, jobs, n - 1, d);
      assert Stepped(step, jobs[n - 1], r.disk) == step(jobs[n - 1], r.disk);
      LogStep(step, force, quiet, jobs, n, r.processed, d, r.disk, DecisionLines(force, jobs, n - 1, d.files));
    }
  }

  /** A dry run creates no file or directory, cannot fail, and logs each decision as taken against the files it started with. */
  lemma DryRunChangesNoFile(opts: Options, env: Env, jobs: seq<Job>, n: nat, d: Disk)
    requires opts.dryRun
    requires n <= |jobs|
    ensures var r := RunPrefix(opts, env, jobs, n, d);
      && r.outcome == Pass && r.processed == n
      && r.disk.files == d.files && r.disk.dirs == d.dirs
      && r.disk.output == d.output + Logs(opts.quiet, DecisionLines(opts.force, jobs, n, d.files))
  {
    StepWithFacts(opts, env);
    FoldChangesNoFile(StepWith(opts, env), opts.force, opts.quiet, jobs, n, d);
  }

  /** A run changes no file other than the targets of the jobs it processed. */
  lemma {:induction false} FoldOnlyTargetsTouched(step: StepFn, now: int, jobs: seq<Job>, n: nat, d: Disk, path: string)
    requires TouchesOnlyTarget(step, now)
    requires n <= |jobs|
    requires NotTargeted(jobs, n, path)
    ensures var r := Fold(step, jobs, n, d);
      && (path in r.disk.files <==> path in d.files)
      && (path in d.files ==> r.disk.files[path] == d.files[path])
  {
    if n > 0 {
      FoldOnlyTargetsTouched(step, now, jobs, n - 1, d, path);
      var r := Fold(step, jobs, n - 1, d);
      if r.outcome.Pass? {
        assert Stepped(step, jobs[n - 1], r.disk) == step(jobs[n - 1], r.disk);
      }
    }
  }

  lemma {:induction false} FoldLogsLikeDryRun(step: StepFn, now: int, force: bool, quiet: bool, jobs: seq<Job>, n: nat, d: Disk)
    requires LogsDecision(step, force, quiet) && TouchesOnlyTarget(step, now)
    requires n <= |jobs|
    requires DistinctTargets(jobs, n)
    ensures var r := Fold(step, jobs, n, d);
      r.disk.output == d.output + Logs(quiet, DecisionLines(force, jobs, r.processed, d.files))
  {
    if n > 0 {
      FoldLogsLikeDryRun(step, now, force, quiet, jobs, n - 1, d);
      var r := Fold(step, jobs, n - 1, d);
      if r.outcome.Pass? {
        LogsLikeDryRunStep(step, now, force, quiet, jobs, n, d, r);
      }
    }
  }

  lemma LogsLikeDryRunStep(step: StepFn, now: int, force: bool, quiet: bool, jobs: seq<Job>, n: nat, d: Disk, r: Run)
    requires LogsDecision(step, force, quiet) && TouchesOnlyTarget(step, now)
    requires 0 < n <= |jobs| && DistinctTargets(jobs, n)
    requires r == Fold(step, jobs, n - 1, d) && r.outcome.Pass?
    requires r.disk.output == d.output + Logs(quiet, DecisionLines(force, jobs, r.processed, d.files))
    ensures step(jobs[n - 1], r.disk).0.output == d.output + Logs(quiet, DecisionLines(force, jobs, n, d.files))
  {
    FoldOnlyTargetsTouched(step, now, jobs, n - 1, d, jobs[n - 1].path);
    DecisionUnchanged(step, force, quiet, jobs, n, n - 1, d, r.disk);
  }

  /** The next job's target is as it was at the start, so its line is the one a dry run would log. */
  lemma DecisionUnchanged(step: StepFn, force: bool, quiet: bool, jobs: seq<Job>, n: nat, m: nat, d: Disk, prev: Disk)
    requires LogsDecision(step, force, quiet)
    requires m + 1 == n <= |jobs|
    requires prev.output == d.output + Logs(quiet, DecisionLines(force, jobs, m, d.files))
    requires jobs[n - 1].path in prev.files <==> jobs[n - 1].path in d.files
    requires jobs[n - 1].path in d.files ==> prev.files[jobs[n - 1].path] == d.files[jobs[n - 1].path]
    ensures step(jobs[n - 1], prev).0.output == d.output + Logs(quiet, DecisionLines(force, jobs, m + 1, d.files))
  {
    assert DecisionLine(force, jobs[n - 1], prev.files) == DecisionLine(force, jobs[n - 1], d.files);
    LogStep(step, force, quiet, jobs, n, m, d, prev, DecisionLines(force, jobs, m, d.files));
  }

  /**
   * When no two jobs share a target, a real run logs the same lines a dry
   * run would (up to where it stops): each target is still as it was when it is tested.
   */
  lemma RealRunLogsLikeDryRun(opts: Options, env: Env, jobs: seq<Job>, n: nat, d: Disk)
    requires n <= |jobs|
    requires DistinctTargets(jobs, n)
    ensures var r := RunPrefix(opts, env, jobs, n, d);
      r.disk.output == d.output + Logs(opts.quiet, DecisionLines(opts.force, jobs, r.processed, d.files))
  {
    StepWithFacts(opts, env);
    FoldLogsLikeDryRun(StepWith(opts, env), env.now, opts.force, opts.quiet, jobs, n, d);
  }

  // ---------------------------------------------------------------- forced runs

  lemma {:induction false} FoldLogsWriting(step: StepFn, quiet: bool, jobs: seq<Job>, n: nat, d: Disk)
    requires LogsDecision(step, true, quiet)
    requires n <= |jobs|
    ensures var r := Fold(step, jobs, n, d);
      r.disk.output == d.output + Logs(quiet, WritingLines(jobs, r.processed))
  {
    if n > 0 {
      FoldLogsWriting(step, quiet, jobs, n - 1, d);
      var r := Fold(step, jobs, n - 1, d);
      if r.outcome.Pass? {
        LogStep(step, true, quiet, jobs, n, r.processed, d, r.disk, WritingLines(jobs, r.processed));
      }
    }
  }

  /** A forced run logs "Writing" for every job it processes. */
  lemma ForcedRunLogsWriting(opts: Options, env: Env, jobs: seq<Job>, n: nat, d: Disk)
    requires opts.force
    requires n <= |jobs|
    ensures var r := RunPrefix(opts, env, jobs, n, d);
      r.disk.output == d.output + Logs(opts.quiet, WritingLines(jobs, r.processed))
  {
    StepWithFacts(opts, env);
    FoldLogsWriting(StepWith(opts, env), opts.quiet, jobs, n, d);
  }

  /** No job after the `k`-th among the first `n` targets the same file. */
  predicate LastToTarget(jobs: seq<Job>, k: nat, n: nat)
    requires k < n <= |jobs|
  {
    forall j :: k < j < n ==> jobs[j].path != jobs[k].path
  }

  /** After a forced run over `n` jobs, the `k`-th target is stamped `now`, and holds the `k`-th dump if nothing later overwrote it. */
  predicate ForcedTarget(now: int, jobs: seq<Job>, k: nat, n: nat, files: map<string, FileEntry>)
    requires k < n <= |jobs|
  {
    var path := jobs[k].path;
    && path in files && files[path].mtime == now
    && (LastToTarget(jobs, k, n) ==> files[path].content == jobs[k].contents)
  }

  /** Writing the `n`-th job's dump keeps every earlier target forced-fresh. */
  lemma ForcedStep(now: int, jobs: seq<Job>, n: nat, m: nat, prev: map<string, FileEntry>, files: map<string, FileEntry>)
    requires m + 1 == n <= |jobs|
    requires forall k :: 0 <= k < m ==> ForcedTarget(now, jobs, k, m, prev)
    requires files == prev[jobs[n - 1].path := FileEntry(jobs[n - 1].contents, now)]
    ensures forall k :: 0 <= k < n ==> ForcedTarget(now, jobs, k, n, files)
  {
    var last := jobs[n - 1].path;
    forall k | 0 <= k < n ensures ForcedTarget(now, jobs, k, n, files) {
      if k < n - 1 {
        assert ForcedTarget(now, jobs, k, m, prev);
        if jobs[k].path != last {
          assert LastToTarget(jobs, k, n) ==> LastToTarget(jobs, k, m);
        } else {
          assert !LastToTarget(jobs, k, n);
        }
      }
    }
  }

  lemma {:induction false} FoldWritesEverything(step: StepFn, now: int, jobs: seq<Job>, n: nat, d: Disk)
    requires WritesWhenDue(step, true, now)
    requires n <= |jobs|
    requires Fold(step, jobs, n, d).outcome.Pass?
    ensures forall k :: 0 <= k < n ==> ForcedTarget(now, jobs, k, n, Fold(step, jobs, n, d).disk.files)
  {
    if n > 0 {
      FoldWritesEverything(step, now, jobs, n - 1, d);
      var r := Fold(step, jobs, n - 1, d);
      assert Stepped(step, jobs[n - 1], r.disk) == step(jobs[n - 1], r.disk);
      ForcedStep(now, jobs, n, n - 1, r.disk.files, Fold(step, jobs, n, d).disk.files);
    }
  }

  /**
   * A real forced run that passes leaves every target stamped with the current
   * time and holding the dump of the last job that targets it.
   */
  lemma ForcedRunWritesEverything(opts: Options, env: Env, jobs: seq<Job>, n: nat, d: Disk)
    requires opts.force && !opts.dryRun
    requires n <= |jobs|
    requires RunPrefix(opts, env, jobs, n, d).outcome.Pass?
    ensures forall k :: 0 <= k < n ==> ForcedTarget(env.now, jobs, k, n, RunPrefix(opts, env, jobs, n, d).disk.files)
  {
    StepWithFacts(opts, env);
    FoldWritesEverything(StepWith(opts, env), env.now, jobs, n, d);
  }

  // ---------------------------------------------------------------- re-runs

  lemma {:induction false} FoldKeepsUpToDate(step: StepFn, now: int, jobs: seq<Job>, n: nat, d: Disk, path: string, lastModified: int)
    requires TouchesOnlyTarget(step, now)
    requires n <= |jobs|
    requires lastModified <= now
    requires UpToDateAt(d.files, path, lastModified)
    ensures UpToDateAt(Fold(step, jobs, n, d).disk.files, path, lastModified)
  {
    if n > 0 {
      FoldKeepsUpToDate(step, now, jobs, n - 1, d, path, lastModified);
      var r := Fold(step, jobs, n - 1, d);
      if r.outcome.Pass? {
        assert Stepped(step, jobs[n - 1], r.disk) == step(jobs[n - 1], r.disk);
      }
    }
  }

  /** Every write stamps the current time, so a file at least as new as some moment not after now stays so. */
  lemma RunKeepsUpToDate(opts: Options, env: Env, jobs: seq<Job>, n: nat, d: Disk, path: string, lastModified: int)
    requires n <= |jobs|
    requires lastModified <= env.now
    requires UpToDateAt(d.files, path, lastModified)
    ensures UpToDateAt(RunPrefix(opts, env, jobs, n, d).disk.files, path, lastModified)
  {
    StepWithFacts(opts, env);
    FoldKeepsUpToDate(StepWith(opts, env), env.now, jobs, n, d, path, lastModified);
  }

  /** No job is newer than `now`. */
  predicate NotNewerThan(jobs: seq<Job>, now: int) {
    forall k :: 0 <= k < |jobs| ==> jobs[k].lastModified <= now
  }

  /** The first `n` targets are up to date in `files`. */
  predicate PrefixUpToDate(jobs: seq<Job>, n: nat, files: map<string, FileEntry>)
    requires n <= |jobs|
  {
    forall k :: 0 <= k < n ==> UpToDate(jobs[k], files)
  }

  /** A passing step leaves its own target up to date, and every other one that was. */
  lemma UpToDateStep(step: StepFn, force: bool, now: int, jobs: seq<Job>, n: nat, prev: Disk)
    requires TouchesOnlyTarget(step, now) && SkipsWhenNotDue(step, force) && WritesWhenDue(step, force, now)
    requires 1 <= n <= |jobs|
    requires NotNewerThan(jobs, now)
    requires PrefixUpToDate(jobs, n - 1, prev.files)
    requires step(jobs[n - 1], prev).1.Pass?
    ensures PrefixUpToDate(jobs, n, step(jobs[n - 1], prev).0.files)
  {
    assert Stepped(step, jobs[n - 1], prev) == step(jobs[n - 1], prev);
    var files := step(jobs[n - 1], prev).0.files;
    forall k | 0 <= k < n ensures UpToDate(jobs[k], files) {
      if k < n - 1 {
        assert UpToDate(jobs[k], prev.files);
      }
    }
  }

  lemma {:induction false} FoldLeavesTargetsUpToDate(step: StepFn, force: bool, now: int, jobs: seq<Job>, n: nat, d: Disk)
    requires TouchesOnlyTarget(step, now) && SkipsWhenNotDue(step, force) && WritesWhenDue(step, force, now)
    requires n <= |jobs|
    requires NotNewerThan(jobs, now)
    requires Fold(step, jobs, n, d).outcome.Pass?
    ensures PrefixUpToDate(jobs, n, Fold(step, jobs, n, d).disk.files)
  {
    if n > 0 {
      FoldLeavesTargetsUpToDate(step, force, now, jobs, n - 1, d);
      UpToDateStep(step, force, now, jobs, n, Fold(step, jobs, n - 1, d).disk);
    }
  }

  /** After a real run that passes, every target is up to date, provided no job is newer than now. */
  lemma RunLeavesTargetsUpToDate(opts: Options, env: Env, jobs: seq<Job>, n: nat, d: Disk)
    requires n <= |jobs|
    requires !opts.dryRun
    requires NotNewerThan(jobs, env.now)
    requires RunPrefix(opts, env, jobs, n, d).outcome.Pass?
    ensures PrefixUpToDate(jobs, n, RunPrefix(opts, env, jobs, n, d).disk.files)
  {
    StepWithFacts(opts, env);
    FoldLeavesTargetsUpToDate(StepWith(opts, env), opts.force, env.now, jobs, n, d);
  }

  lemma {:induction false} FoldSkips(step: StepFn, quiet: bool, jobs: seq<Job>, n: nat, d: Disk)
    requires LogsDecision(step, false, quiet) && SkipsWhenNotDue(step, false)
    requires n <= |jobs|
    requires PrefixUpToDate(jobs, n, d.files)
    ensures var r := Fold(step, jobs, n, d);
      && r.outcome == Pass && r.processed == n
      && r.disk.files == d.files && r.disk.dirs == d.dirs
      && r.disk.output == d.output + Logs(quiet, SkippingLines(jobs, n))
  {
    if n > 0 {
      FoldSkips(step, quiet, jobs, n - 1, d);
      var r := Fold(step, jobs, n - 1, d);
      assert UpToDate(jobs[n - 1], d.files);
      assert Stepped(step, jobs[n - 1], r.disk) == step(jobs[n - 1], r.disk);
      LogStep(step, false, quiet, jobs, n, r.processed, d, r.disk, SkippingLines(jobs, n - 1));
    }
  }

  /** An unforced run over up-to-date targets skips them all and changes nothing but the log. */
  lemma UpToDateRunSkips(opts: Options, env: Env, jobs: seq<Job>, n: nat, d: Disk)
    requires n <= |jobs|
    requires !opts.force
    requires PrefixUpToDate(jobs, n, d.files)
    ensures var r := RunPrefix(opts, env, jobs, n, d);
      && r.outcome == Pass && r.processed == n
      && r.disk.files == d.files && r.disk.dirs == d.dirs
      && r.disk.output == d.output + Logs(opts.quiet, SkippingLines(jobs, n))
  {
    StepWithFacts(opts, env);
    FoldSkips(StepWith(opts, env), opts.quiet, jobs, n, d);
  }

  /** Writing an asset twice without force: the second pass skips every target and leaves files and directories as they were. */
  lemma SecondRunSkipsEverything(cfg: Config, env: Env, env': Env, a: AssetDef, d: Disk)
    requires !cfg.options.force && !cfg.options.dryRun
    requires NotNewerThan(Jobs(cfg, a), env.now)
    requires RunAsset(cfg, env, a, d).outcome.Pass?
    ensures var first := RunAsset(cfg, env, a, d);
      var second := RunAsset(cfg, env', a, first.disk);
      && second.outcome == Pass
      && second.disk.files == first.disk.files && second.disk.dirs == first.disk.dirs
      && second.disk.output == first.disk.output + Logs(cfg.options.quiet, SkippingLines(Jobs(cfg, a), |Jobs(cfg, a)|))
  {
    var jobs := Jobs(cfg, a);
    RunLeavesTargetsUpToDate(cfg.options, env, jobs, |jobs|, d);
    UpToDateRunSkips(cfg.options, env', jobs, |jobs|, RunAsset(cfg, env, a, d).disk);
  }

  // ---------------------------------------------------------------- whole managers

  /** A dry run over a manager's assets changes no file or directory and cannot fail. */
  lemma {:induction false} DryManagerRunChangesNoFile(cfg: Config, env: Env, assets: seq<AssetDef>, n: nat, d: Disk)
    requires cfg.options.dryRun
    requires n <= |assets|
    ensures var r := RunAssets(cfg, env, assets, n, d);
      r.outcome == Pass && r.disk.files == d.files && r.disk.dirs == d.dirs
  {
    if n > 0 {
      DryManagerRunChangesNoFile(cfg, env, assets, n - 1, d);
      var r := RunAssets(cfg, env, assets, n - 1, d);
      var jobs := Jobs(cfg, assets[n - 1]);
      RunAssetsStep(cfg, env, assets, n, d);
      DryRunChangesNoFile(cfg.options, env, jobs, |jobs|, r.disk);
    }
  }

  /** A quiet run echoes nothing, whatever happens. */
  lemma {:induction false} QuietManagerRunIsSilent(cfg: Config, env: Env, assets: seq<AssetDef>, n: nat, d: Disk)
    requires cfg.options.quiet
    requires n <= |assets|
    ensures RunAssets(cfg, env, assets, n, d).disk.output == d.output
  {
    if n > 0 {
      QuietManagerRunIsSilent(cfg, env, assets, n - 1, d);
      var r := RunAssets(cfg, env, assets, n - 1, d);
      if r.outcome.Pass? {
        var jobs := Jobs(cfg, assets[n - 1]);
        RunAssetsStep(cfg, env, assets, n, d);
        OneLinePerCombination(cfg.options, env, jobs, |jobs|, r.disk);
      }
    }
  }

  /** Every target of each of the first `n` assets is up to date in `files`. */
  predicate AssetsUpToDate(cfg: Config, assets: seq<AssetDef>, n: nat, files: map<string, FileEntry>)
    requires n <= |assets|
  {
    forall i :: 0 <= i < n ==> AllUpToDate(Jobs(cfg, assets[i]), files)
  }

  /** Every one of `jobs` is up to date in `files`. */
  predicate AllUpToDate(jobs: seq<Job>, files: map<string, FileEntry>) {
    PrefixUpToDate(jobs, |jobs|, files)
  }

  /** No target of any asset is newer than `now`. */
  predicate AssetsNotNewerThan(cfg: Config, assets: seq<AssetDef>, now: int) {
    forall i :: 0 <= i < |assets| ==> NotNewerThan(Jobs(cfg, assets[i]), now)
  }

  /** Running any jobs keeps other up-to-date targets up to date, as long as they are not newer than now. */
  lemma RunKeepsAllUpToDate(opts: Options, env: Env, jobs: seq<Job>, other: seq<Job>, d: Disk)
    requires NotNewerThan(other, env.now)
    requires AllUpToDate(other, d.files)
    ensures AllUpToDate(other, RunJobs(opts, env, jobs, d).disk.files)
  {
    forall k | 0 <= k < |other| ensures UpToDate(other[k], RunJobs(opts, env, jobs, d).disk.files) {
      assert UpToDate(other[k], d.files);
      RunKeepsUpToDate(opts, env, jobs, |jobs|, d, other[k].path, other[k].lastModified);
    }
  }

  /** One more asset written keeps the earlier assets' targets up to date and brings its own up to date. */
  lemma ManagerUpToDateStep(cfg: Config, env: Env, assets: seq<AssetDef>, n: nat, m: nat, prev: Disk)
    requires m + 1 == n <= |assets|
    requires !cfg.options.dryRun
    requires AssetsNotNewerThan(cfg, assets, env.now)
    requires AssetsUpToDate(cfg, assets, m, prev.files)
    requires RunAsset(cfg, env, assets[n - 1], prev).outcome.Pass?
    ensures AssetsUpToDate(cfg, assets, m + 1, RunAsset(cfg, env, assets[n - 1], prev).disk.files)
  {
    var jobs := Jobs(cfg, assets[n - 1]);
    var files := RunAsset(cfg, env, assets[n - 1], prev).disk.files;
    assert NotNewerThan(jobs, env.now);
    RunLeavesTargetsUpToDate(cfg.options, env, jobs, |jobs|, prev);
    forall i | 0 <= i < m + 1 ensures AllUpToDate(Jobs(cfg, assets[i]), files) {
      if i < m {
        assert NotNewerThan(Jobs(cfg, assets[i]), env.now);
        RunKeepsAllUpToDate(cfg.options, env, jobs, Jobs(cfg, assets[i]), prev);
      }
    }
  }

  /** After a real manager run that passes, every target of every asset is up to date. */
  lemma {:induction false} ManagerRunLeavesUpToDate(cfg: Config, env: Env, assets: seq<AssetDef>, n: nat, d: Disk)
    requires n <= |assets|
    requires !cfg.options.dryRun
    requires AssetsNotNewerThan(cfg, assets, env.now)
    requires RunAssets(cfg, env, assets, n, d).outcome.Pass?
    ensures AssetsUpToDate(cfg, assets, n, RunAssets(cfg, env, assets, n, d).disk.files)
  {
    if n > 0 {
      ManagerRunLeavesUpToDate(cfg, env, assets, n - 1, d);
      var r := RunAssets(cfg, env, assets, n - 1, d);
      ManagerUpToDateStep(cfg, env, assets, n, r.processed, r.disk);
    }
  }

  /** "Skipping" lines for every job of the first `n` assets, asset by asset. */
  function ManagerSkippingLines(cfg: Config, assets: seq<AssetDef>, n: nat): seq<string>
    requires n <= |assets|
  {
    if n == 0 then
      []
    else
      var jobs := Jobs(cfg, assets[n - 1]);
      ManagerSkippingLines(cfg, assets, n - 1) + SkippingLines(jobs, |jobs|)
  }

  /**
   * An unforced manager run over up-to-date assets cannot fail, changes no file or
   * directory, and logs one "Skipping" line per combination of every asset.
   */
  lemma {:induction false} UpToDateManagerRunSkips(cfg: Config, env: Env, assets: seq<AssetDef>, n: nat, d: Disk)
    requires n <= |assets|
    requires !cfg.options.force
    requires AssetsUpToDate(cfg, assets, n, d.files)
    ensures var r := RunAssets(cfg, env, assets, n, d);
      && r.outcome == Pass && r.disk.files == d.files && r.disk.dirs == d.dirs
      && r.disk.output == d.output + Logs(cfg.options.quiet, ManagerSkippingLines(cfg, assets, n))
  {
    if n > 0 {
      UpToDateManagerRunSkips(cfg, env, assets, n - 1, d);
      var r := RunAssets(cfg, env, assets, n - 1, d);
      var jobs := Jobs(cfg, assets[n - 1]);
      assert AllUpToDate(jobs, r.disk.files);
      RunAssetsStep(cfg, env, assets, n, d);
      UpToDateRunSkips(cfg.options, env, jobs, |jobs|, r.disk);
      LogsConcat(cfg.options.quiet, d.output, ManagerSkippingLines(cfg, assets, n - 1), SkippingLines(jobs, |jobs|));
      assert ManagerSkippingLines(cfg, assets, n) == ManagerSkippingLines(cfg, assets, n - 1) + SkippingLines(jobs, |jobs|);
      assert RunAssets(cfg, env, assets, n, d).disk == RunAsset(cfg, env, assets[n - 1], r.disk).disk;
    }
  }

  /** Running `writeManagerAssets` a second time without force writes nothing. */
  lemma SecondManagerRunWritesNothing(cfg: Config, env: Env, env': Env, assets: seq<AssetDef>, d: Disk)
    requires !cfg.options.force && !cfg.options.dryRun
    requires AssetsNotNewerThan(cfg, assets, env.now)
    requires RunAssets(cfg, env, assets, |assets|, d).outcome.Pass?
    ensures var first := RunAssets(cfg, env, assets, |assets|, d);
      var second := RunAssets(cfg, env', assets, |assets|, first.disk);
      && second.outcome == Pass
      && second.disk.files == first.disk.files && second.disk.dirs == first.disk.dirs
      && second.disk.output == first.disk.output + Logs(cfg.options.quiet, ManagerSkippingLines(cfg, assets, |assets|))
      && forall i, k :: 0 <= i < |assets| && 0 <= k < |Jobs(cfg, assets[i])| ==>
           !ShouldWrite(cfg.options.force, Jobs(cfg, assets[i])[k], second.disk.files)
  {
    ManagerRunLeavesUpToDate(cfg, env, assets, |assets|, d);
    UpToDateManagerRunSkips(cfg, env', assets, |assets|, RunAssets(cfg, env, assets, |assets|, d).disk);
  }
}
