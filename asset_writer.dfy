/**
 * The writer itself: an object holding the base directory, the options, the
 * factory and the variable values, whose methods walk an asset's combinations,
 * echo their decisions and write files through a host filesystem. Each method is
 * proved to leave the host in the state `WriterModel` prescribes.
 */
module AssetWriting {
  import opened Wrappers
  import opened Paths
  import opened WriterModel

  /** The filesystem and standard output the writer works on. */
  class Host {
    var files: map<string, FileEntry>
    var dirs: set<string>
    var output: seq<string>
    const env: Env

    function State(): Disk
      reads this
    {
      Disk(files, dirs, output)
    }

    constructor (files: map<string, FileEntry>, dirs: set<string>, env: Env)
      ensures State() == Disk(files, dirs, []) && this.env == env
    {
      this.files := files;
      this.dirs := dirs;
      this.output := [];
      this.env := env;
    }

    /** `file_exists` (for regular files). */
    method FileExists(path: string) returns (b: bool)
      ensures b <==> path in files
    {
      b := path in files;
    }

    /** `filemtime`, on a file known to exist. */
    method FileMtime(path: string) returns (t: int)
      requires path in files
      ensures t == files[path].mtime
    {
      t := files[path].mtime;
    }

    /** `is_dir`. */
    method IsDir(dir: string) returns (b: bool)
      ensures b <==> dir in dirs
    {
      b := dir in dirs;
    }

    /** `mkdir($dir, 0777, true)`: creates the directory and its missing parents, or fails. */
    method MakeDirectory(dir: string) returns (ok: bool)
      modifies this`dirs
      ensures ok <==> dir !in env.failing
      ensures dirs == if ok then old(dirs) + DirChain(dir) else old(dirs)
    {
      ok := dir !in env.failing;
      if ok {
        dirs := dirs + DirChain(dir);
      }
    }

    /** `file_put_contents`: replaces the whole file, stamped with the current time, or fails. */
    method PutContents(path: string, contents: string) returns (ok: bool)
      modifies this`files
      ensures ok <==> path !in env.failing
      ensures files == if ok then old(files)[path := FileEntry(contents, env.now)] else old(files)
    {
      ok := path !in env.failing;
      if ok {
        files := files[path := FileEntry(contents, env.now)];
      }
    }

    /** `echo`. */
    method Echo(line: string)
      modifies this`output
      ensures output == old(output) + [line]
    {
      output := output + [line];
    }
  }

  /** An asset as the writer uses it: fixed variables, target path and dump, and the values currently set. */
  class Asset {
    const vars: seq<string>
    const targetPath: string
    const dump: Combination -> string
    var values: Combination

    function Def(): AssetDef {
      AssetDef(vars, targetPath, dump)
    }

    constructor (vars: seq<string>, targetPath: string, dump: Combination -> string)
      ensures Def() == AssetDef(vars, targetPath, dump) && values == map[]
    {
      this.vars := vars;
      this.targetPath := targetPath;
      this.dump := dump;
      this.values := map[];
    }

    method SetValues(values: Combination)
      modifies this
      ensures this.values == values
    {
      this.values := values;
    }
  }

  /** The assets of a manager, in the order its names are listed. */
  datatype AssetManager = AssetManager(names: seq<string>, assets: map<string, Asset>) {
    /** The names are exactly the registry's keys: every listed name is registered and every registered name is listed. */
    predicate Valid() {
      && (forall name :: name in names ==> name in assets)
      && (forall name :: name in assets ==> name in names)
    }

    function Defs(): (r: seq<AssetDef>)
      requires Valid()
      ensures |r| == |names|
      ensures forall i :: 0 <= i < |names| ==> r[i] == assets[names[i]].Def()
    {
      seq(|names|, i requires 0 <= i < |names| => assets[names[i]].Def())
    }

    /** The registered assets: the objects writing may set values on. */
    function Objects(): set<Asset> {
      assets.Values
    }

    /** The assets named by the first `n` names: the ones a run that processed `n` names has reached. */
    function Reached(n: nat): (r: set<Asset>)
      requires Valid() && n <= |names|
      ensures r <= Objects()
      ensures forall k :: 0 <= k < n ==> assets[names[k]] in r
    {
      if n == 0 then {} else Reached(n - 1) + {assets[names[n - 1]]}
    }
  }

  /**
   * Looks for a value that is not a string, scanning the variables in order and
   * each variable's values in order; answers the first one found.
   */
  method FindNonString(values: VarValues) returns (r: Option<(nat, nat)>)
    ensures r.None? <==> AllStrings(values)
    ensures r.Some? ==> FirstNonString(values, r.value.0, r.value.1)
  {
    var i := 0;
    while i < |values|
      invariant 0 <= i <= |values|
      invariant forall i', j' :: 0 <= i' < i && 0 <= j' < |values[i'].1| ==> values[i'].1[j'].Str?
    {
      var vals := values[i].1;
      var j := 0;
      while j < |vals|
        invariant 0 <= j <= |vals|
        invariant forall j' :: 0 <= j' < j ==> vals[j'].Str?
      {
        if !vals[j].Str? {
          return Some((i, j));
        }
        j := j + 1;
      }
      i := i + 1;
    }
    return None;
  }

  class AssetWriter {
    const dir: string
    const dryRun: bool
    const factory: Factory
    const force: bool
    const quiet: bool
    const values: VarValues
    const utils: VarUtils
    const host: Host

    function Settings(): Config {
      Config(dir, factory, Options(dryRun, force, quiet), values, utils)
    }

    constructor (dir: string, factory: Factory, options: Options, values: VarValues, utils: VarUtils, host: Host)
      requires AllStrings(values)
      ensures Settings() == Config(dir, factory, options, values, utils) && this.host == host
    {
      this.dryRun := options.dryRun;
      this.factory := factory;
      this.force := options.force;
      this.quiet := options.quiet;
      this.dir := dir;
      this.values := values;
      this.utils := utils;
      this.host := host;
    }

    /** `__construct`: a writer exists only when every variable value is a string; otherwise the first offender is reported. */
    static method Create(dir: string, factory: Factory, options: Options, values: VarValues, utils: VarUtils, host: Host)
      returns (r: Result<AssetWriter, InvalidArgument>)
      ensures r.Success? <==> AllStrings(values)
      ensures r.Success? ==> fresh(r.value) && r.value.Settings() == Config(dir, factory, options, values, utils) && r.value.host == host
      ensures r.Failure? ==> exists i, j :: FirstNonString(values, i, j) && r.error == NotAString(values[i].0, values[i].1[j])
    {
      var bad := FindNonString(values);
      if bad.Some? {
        var (i, j) := bad.value;
        return Failure(NotAString(values[i].0, values[i].1[j]));
      }
      var w := new AssetWriter(dir, factory, options, values, utils, host);
      return Success(w);
    }

    /** `writeManagerAssets`: writes each asset in name order, stopping at the first error. */
    method WriteManagerAssets(am: AssetManager) returns (o: Outcome<WriteError>)
      requires am.Valid()
      modifies host, am.Objects()
      ensures var r := RunAssets(Settings(), host.env, am.Defs(), |am.names|, old(host.State()));
        && host.State() == r.disk && o == r.outcome
        && forall a :: a in am.Objects() - am.Reached(r.processed) ==> a.values == old(a.values)
    {
      ghost var run := AssetRunner(Settings(), host.env);
      forall a: AssetDef, d: Disk
        ensures Ran(run, a, d) == RunAsset(Settings(), host.env, a, d)
      {
      }
      o := WriteAssets(am, run);
    }

    /**
     * The loop of `writeManagerAssets`, proved against any `run` that agrees
     * with `writeAsset`: each pass is one more iteration of `FoldAssets`.
     */
    method WriteAssets(am: AssetManager, ghost run: AssetFn) returns (o: Outcome<WriteError>)
      requires am.Valid()
      requires forall a: AssetDef, d: Disk {:trigger Ran(run, a, d)} :: Ran(run, a, d) == RunAsset(Settings(), host.env, a, d)
      modifies host, am.Objects()
      ensures var r := FoldAssets(run, am.Defs(), |am.names|, old(host.State()));
        && host.State() == r.disk && o == r.outcome
        && forall a :: a in am.Objects() - am.Reached(r.processed) ==> a.values == old(a.values)
    {
      ghost var defs, d0 := am.Defs(), host.State();
      o := Pass;
      var i := 0;
      while i < |am.names| && o.Pass?
        invariant 0 <= i <= |am.names|
        invariant FoldAssets(run, defs, i, d0) == Run(host.State(), o, i)
        invariant forall a :: a in am.Objects() - am.Reached(i) ==> a.values == old(a.values)
      {
        var asset := am.assets[am.names[i]];
        ghost var before := host.State();
        FoldAssetsStep(run, defs, i, d0);
        o := WriteAsset(asset);
        assert Ran(run, defs[i], before) == RunAsset(Settings(), host.env, asset.Def(), before);
        i := i + 1;
      }
      if o.Fail? {
        AssetFailureSticks(run, defs, i, |am.names|, d0);
      }
    }

    /**
     * `writeAsset`: for each combination in turn, set it on the asset, compute the
     * target path, and write the dump unless the target is up to date; stops at the
     * first error. The asset keeps the values of the last combination processed.
     */
    method WriteAsset(asset: Asset) returns (o: Outcome<WriteError>)
      modifies host, asset
      ensures var r := RunAsset(Settings(), host.env, asset.Def(), old(host.State()));
        && host.State() == r.disk && o == r.outcome
        && asset.values == if r.processed == 0 then old(asset.values) else Combos(Settings(), asset.Def())[r.processed - 1]
    {
      var combos := utils.getCombinations(asset.vars, values);
      ghost var cfg, a, d0 := Settings(), asset.Def(), host.State();
      ghost var jobs := Jobs(cfg, a);
      assert combos == Combos(cfg, a);
      o := Pass;
      var i := 0;
      while i < |combos| && o.Pass?
        invariant 0 <= i <= |combos|
        invariant RunPrefix(cfg.options, host.env, jobs, i, d0) == Run(host.State(), o, i)
        invariant asset.values == if i == 0 then old(asset.values) else combos[i - 1]
      {
        RunPrefixStep(cfg.options, host.env, jobs, i, d0);
        o := WriteCombination(asset, combos[i]);
        i := i + 1;
      }
      if o.Fail? {
        FailureSticks(StepWith(cfg.options, host.env), jobs, i, |combos|, d0);
      }
      assert RunAsset(cfg, host.env, a, d0) == Run(host.State(), o, i);
    }

    /** One pass of `writeAsset`'s loop: set the combination, decide, log, and write unless dry. */
    method WriteCombination(asset: Asset, combo: Combination) returns (o: Outcome<WriteError>)
      modifies host, asset
      ensures (host.State(), o) == Step(Settings().options, host.env, JobOf(Settings(), asset.Def(), combo), old(host.State()))
      ensures asset.values == combo
    {
      asset.SetValues(combo);
      var path := dir + "/" + utils.resolve(asset.targetPath, asset.vars, asset.values);
      var write := force;
      if !write {
        var present := host.FileExists(path);
        write := !present;
        if !write {
          var mtime := host.FileMtime(path);
          write := factory.lastModified(asset.Def(), asset.values) > mtime;
        }
      }
      o := Pass;
      if write {
        Log("Writing: " + path);
        if !dryRun {
          o := Write(host, path, asset.dump(asset.values));
        }
      } else {
        Log("Skipping: " + path);
      }
    }

    /** `write`: makes sure the parent directory exists, then replaces the file. */
    static method Write(host: Host, path: string, contents: string) returns (o: Outcome<WriteError>)
      modifies host
      ensures (host.State(), o) == WriteFile(host.env, old(host.State()), path, contents)
    {
      var dir := Dirname(path);
      var isDir := host.IsDir(dir);
      if !isDir {
        var made := host.MakeDirectory(dir);
        if !made {
          return Fail(DirectoryNotCreated(dir));
        }
      }
      var written := host.PutContents(path, contents);
      if !written {
        return Fail(FileNotWritten(path));
      }
      return Pass;
    }

    /** `log`: echoes a prefixed line unless quiet. */
    method Log(m: string)
      modifies host
      ensures host.State() == Logged(quiet, old(host.State()), m)
    {
      if !quiet {
        host.Echo(Line(m));
      }
    }
  }
}
