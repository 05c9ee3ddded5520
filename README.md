# Assetic: the asset writer and the CSS reference filter

This project models two small parts of Assetic, the PHP asset-management library.
It proves properties of each.

**`AssetWriter`** writes every asset of an asset manager to disk.

- The constructor rejects variable values that are not strings.
- `writeAsset` walks the asset's variable combinations in order. For each one it:
  - sets the combination on the asset;
  - builds the target path `dir + "/" + resolve(...)`;
  - writes the dump when the write is forced, the file is missing, or the file is older than the asset;
  - logs one `Writing:` or `Skipping:` line unless quiet.
- In a dry run nothing is written.
- `write` creates the parent directory chain, then replaces the file.
- Any failure stops everything.

The model has these modules:

- `AssetWriting` (imperative): `Host` is the filesystem and standard output. `Asset` is the object whose values are set. `AssetWriter` is the class with the source's methods. Every method is proved to leave the host in the state the value-level model prescribes.
- `WriterModel`: that value-level model. One loop step is `Step`, the loop is `Fold` / `RunAsset`, and the manager loop is `FoldAssets` / `RunAssets`.
- `WriterProperties`: what follows from the model:
  - the shape of the log;
  - dry runs;
  - forced runs;
  - re-runs that skip everything;
  - a failure stopping the run.
- `Paths`: PHP's `dirname` and the directories a recursive `mkdir` creates.

**`BaseCssFilter`** rewrites CSS references through a callback. `filterUrls` and `filterImports` are each one `preg_replace_callback` with a fixed pattern. `filterReferences` runs the url() pass, then the import pass without the url() form. The model has these modules:

- `CssScanning`: space runs, quotes, and the lazy `.*?` followed by a closing delimiter (`FindClose`).
- `CssPatterns`: one matcher per pattern, anchored at a start position.
  - Each matcher has a declarative partner, a predicate saying which spans the regular expression can match at all.
  - Each matcher is proved to return the span PCRE's backtracking order picks: a quote is preferred over none, the URL is the shortest, and the tail is greedy.
  - When the matcher finds nothing, no span matches.
- `CssFilter`: the scan `ReplaceFrom`, which models `preg_replace_callback`, and the three filter functions.
  - The scan is proved to be leftmost and non-overlapping.
  - Gaps are proved to be copied verbatim, and the callback's output is never rescanned.
  - It is proved to leave the content unchanged under an identity callback or when the pattern cannot occur.
- `CssExamples`: worked examples on concrete stylesheets. They cover:
  - the quote preference;
  - unbalanced quotes;
  - URLs across lines;
  - the optional tail;
  - the unquoted `@import url(...)` form;
  - why the order of the two passes matters.

**Where the pattern's text and its PCRE meaning differ.** In the `includeUrl` import pattern the quote group `(['"])?` is written as optional. However, PCRE fails a backreference `\1` to a group that did not take part. So the quote is in fact mandatory, and `@import url(x.css);` without quotes is not matched at all. The model follows the code: see `CssExamples.UnquotedWrappedImport` and `CssFilter.FilterImportsWithoutQuote`.

## Model

| member | source | states |
|---|---|---|
| `AssetWriting.FindNonString` | src/Assetic/AssetWriter.php:49-55 | Finds nothing exactly when every value of every variable is a string. Otherwise it returns the first non-string value, scanning variables in order and then each variable's values in order. |
| `AssetWriting.AssetWriter.Create` | src/Assetic/AssetWriter.php:42-59 | A writer is created exactly when all values are strings, and it holds the given directory, factory, options and values. Otherwise the error names the first offending variable and value, and no writer exists. |
| `AssetWriting.AssetWriter.constructor` | src/Assetic/AssetWriter.php:44-58 | Demands values that are all strings, which `Create` establishes, so every writer carries the constructor's guarantee. The fields hold the options, factory, directory and values given. |
| `AssetWriting.AssetWriter.WriteManagerAssets` | src/Assetic/AssetWriter.php:61-66 | Final filesystem, log and outcome are those of `writeAsset` applied to each asset in the order of the manager's names, stopping at the first error. An asset that no processed name refers to keeps its values. |
| `AssetWriting.AssetWriter.WriteAssets` | src/Assetic/AssetWriter.php:63-65 | The loop over names, proved step by step against the fold over the assets. An asset that no processed name refers to keeps its values. |
| `AssetWriting.AssetWriter.WriteAsset` | src/Assetic/AssetWriter.php:68-89 | Final filesystem, log and outcome are those of one step per combination, in order, stopping at the first error. The asset keeps the last combination processed. |
| `AssetWriting.AssetWriter.WriteCombination` | src/Assetic/AssetWriter.php:71-87 | One iteration sets the combination, then targets `dir + "/" + resolve(targetPath, vars, values)`. It writes iff forced, missing or older than the asset's last-modified time; otherwise it skips. It logs the decision and writes only when not dry. |
| `AssetWriting.AssetWriter.Write` | src/Assetic/AssetWriter.php:91-100 | Makes the parent directory when it is missing, then puts the file. Each failure is reported as its own error, and the first one stops the method. |
| `AssetWriting.AssetWriter.Log` | src/Assetic/AssetWriter.php:113-117 | Appends `[AssetWriter]: m` and a newline to the output unless quiet, and changes nothing else. |
| `AssetWriting.Host.FileExists` | src/Assetic/AssetWriter.php:79 | True exactly when the path is a file. A path that names a directory is not covered (see Left out). |
| `AssetWriting.Host.FileMtime` | src/Assetic/AssetWriter.php:79 | The modification time of an existing file. |
| `AssetWriting.Host.IsDir` | src/Assetic/AssetWriter.php:93 | True exactly when the directory exists. |
| `AssetWriting.Host.MakeDirectory` | src/Assetic/AssetWriter.php:93 | A recursive `mkdir` either fails or adds the directory and all its parents. |
| `AssetWriting.Host.PutContents` | src/Assetic/AssetWriter.php:97 | `file_put_contents` either fails or replaces the file with the contents, stamped with the current time. |
| `AssetWriting.Host.Echo` | src/Assetic/AssetWriter.php:115 | `echo` appends exactly the given line to the output and touches nothing else. |
| `AssetWriting.Asset.SetValues` | src/Assetic/AssetWriter.php:71 | The asset's values become the combination. |
| `WriterModel.Logged` | src/Assetic/AssetWriter.php:113-117 | Logging never touches files or directories. It adds exactly one line when not quiet and none when quiet. |
| `WriterModel.WriteFileSpec` | src/Assetic/AssetWriter.php:91-100 | `write` never logs. It never removes a directory, and the only directories it adds are the parent and that parent's ancestors. It succeeds iff the parent exists or can be made and the file can be put, and then the file holds the contents. A failure leaves the files as they were, and a parent that cannot be made is reported and leaves the state unchanged; failures are all-or-nothing in this model (see Left out). |
| `WriterModel.StepSpec` | src/Assetic/AssetWriter.php:79-87 | One iteration logs its decision whatever happens next and touches only its own target, as a whole. The only directories it adds are the target's parent and that parent's ancestors. A dry run, or a target that is not due, changes no file or directory and cannot fail. A real due write that passes replaces the target. |
| `WriterModel.WriteFile` | src/Assetic/AssetWriter.php:91-100 | `write` as a function of the filesystem: make the parent recursively unless it is a directory, then replace the file. It has no contract of its own; `WriterModel.WriteFileSpec` states what it guarantees. |
| `WriterModel.Step` | src/Assetic/AssetWriter.php:79-87 | One iteration of `writeAsset`'s loop on a precomputed job: the force/missing/older decision (`ShouldWrite`), the log line (`DecisionLine`, built on `Line`), and `write` unless dry, on the target `TargetPath` builds. `WriterModel.StepSpec`, `WriterModel.StepFailsOnlyWhenWriting` and `WriterProperties.StepWithFacts` state what it guarantees. |
| `WriterModel.RunAsset` | src/Assetic/AssetWriter.php:68-89 | `writeAsset`: one `Step` per combination in order, stopping at the first error. `AssetWriting.AssetWriter.WriteAsset` is proved equal to it, and the `WriterProperties` lemmas on `RunPrefix` state its guarantees. |
| `WriterModel.RunAssets` | src/Assetic/AssetWriter.php:61-66 | `writeManagerAssets`: `RunAsset` for each asset in name order, stopping at the first error. `AssetWriting.AssetWriter.WriteManagerAssets` is proved equal to it, and `WriterModel.RunAssetsStep` plus the manager lemmas in `WriterProperties` state its guarantees. |
| `WriterModel.RunAssetsStep` | src/Assetic/AssetWriter.php:63-65 | After a passing prefix, one more asset is exactly one more `writeAsset` on the current filesystem. |
| `WriterModel.StepFailsOnlyWhenWriting` | src/Assetic/AssetWriter.php:79-99 | One iteration throws only when it writes a due target in a real run. The error names the target's parent directory or the target itself. |
| `WriterModel.FailsOnlyWhenWriting` | src/Assetic/AssetWriter.php:70-99 | A run that failed stopped at its last processed combination, after every earlier one had passed. That combination was due and was being written for real, and the error names its parent directory or its path. |
| `WriterModel.FailureSticks` | src/Assetic/AssetWriter.php:70-88 | Once `writeAsset`'s loop has thrown, later combinations change nothing. |
| `WriterModel.AssetFailureSticks` | src/Assetic/AssetWriter.php:63-65 | Once `writeManagerAssets`' loop has thrown, later assets change nothing. |
| `WriterProperties.StepWithFacts` | src/Assetic/AssetWriter.php:79-99 | The loop body logs its decision and touches only its target. It skips targets that are not due. A real run writes the targets that are due, and a dry run changes no file. |
| `WriterProperties.FlatTargetStaysInDir` | src/Assetic/AssetWriter.php:73-95 | When the writer's directory has no trailing slash and a target resolves to a plain file name, the target's parent is the writer's directory. One iteration then creates no directories other than that one and its ancestors. |
| `WriterProperties.OneLinePerCombination` | src/Assetic/AssetWriter.php:79-87 | A quiet run echoes nothing. Otherwise the log gains exactly one `Writing:` or `Skipping:` line per combination processed, in order, for that combination's target. |
| `WriterProperties.DryRunChangesNoFile` | src/Assetic/AssetWriter.php:80-86 | A dry run cannot fail and changes no file or directory. It logs the decision for every combination, each taken against the files it started with. |
| `WriterProperties.RealRunLogsLikeDryRun` | src/Assetic/AssetWriter.php:79-86 | When no two combinations share a target, a real run logs the same lines a dry run would, up to where it stops. |
| `WriterProperties.ForcedRunLogsWriting` | src/Assetic/AssetWriter.php:79-80 | With force set, every processed combination is logged as `Writing:`. |
| `WriterProperties.ForcedRunWritesEverything` | src/Assetic/AssetWriter.php:79-83 | A real forced run that passes leaves every target stamped with the current time. Each target holds the dump of the last combination that targets it. |
| `WriterProperties.RunKeepsUpToDate` | src/Assetic/AssetWriter.php:97 | Every write stamps the current time, so a file at least as new as a moment not after now stays so. |
| `WriterProperties.RunLeavesTargetsUpToDate` | src/Assetic/AssetWriter.php:79-83 | After a real run that passes, every target is up to date, provided no asset is newer than now. |
| `WriterProperties.UpToDateRunSkips` | src/Assetic/AssetWriter.php:85-87 | An unforced run over up-to-date targets skips them all. It passes, changes no file or directory, and logs one `Skipping:` line per combination. |
| `WriterProperties.SecondRunSkipsEverything` | src/Assetic/AssetWriter.php:68-89 | Writing an asset twice without force: the second pass logs only `Skipping:` lines and leaves files and directories as they were. |
| `WriterProperties.DryManagerRunChangesNoFile` | src/Assetic/AssetWriter.php:61-66 | A dry `writeManagerAssets` cannot fail and changes no file or directory. |
| `WriterProperties.QuietManagerRunIsSilent` | src/Assetic/AssetWriter.php:113-117 | A quiet `writeManagerAssets` echoes nothing, whatever happens. |
| `WriterProperties.ManagerRunLeavesUpToDate` | src/Assetic/AssetWriter.php:61-66 | After a real manager run that passes, every target of every asset is up to date. |
| `WriterProperties.UpToDateManagerRunSkips` | src/Assetic/AssetWriter.php:64 | An unforced manager run over up-to-date assets passes and changes no file or directory. Unless quiet, it logs exactly one `Skipping:` line per combination of every asset, in order. |
| `WriterProperties.SecondManagerRunWritesNothing` | src/Assetic/AssetWriter.php:79 | Running `writeManagerAssets` a second time without force passes and leaves files and directories as they were. No job of any asset is due against the files it runs on, so every decision is to skip and no write is attempted. Unless quiet, it logs exactly one `Skipping:` line per combination of every asset, in order. |
| `Paths.Dirname` | src/Assetic/AssetWriter.php:93 | PHP's `dirname` is empty only for the empty path. Otherwise it is `.`, `/`, or a non-empty proper prefix of the path with no trailing slash. |
| `Paths.DirnameOfJoin` | src/Assetic/AssetWriter.php:93 | The `dirname` of `dir + "/" + name` is `dir`, for a plain name and a directory without a trailing slash. |
| `Paths.DirChain` | src/Assetic/AssetWriter.php:93 | The directories a recursive `mkdir` brings into existence include the directory itself. |
| `CssScanning.SkipSpacesSpec` | src/Assetic/Filter/BaseCssFilter.php:62-63 | The greedy ` *` consumes only spaces and stops at a non-space or at the end. |
| `CssScanning.SkipSpacesTo` | src/Assetic/Filter/BaseCssFilter.php:62-63 | A space run that ends at a non-space is exactly what the greedy ` *` takes. |
| `CssScanning.FindClose` | src/Assetic/Filter/BaseCssFilter.php:47 | The lazy `.*?` yields the shortest capture that has no line feed and is followed by the closing text. It yields nothing iff no such capture exists. |
| `CssPatterns.UrlHit` | src/Assetic/Filter/BaseCssFilter.php:47 | The url pattern anchored at a position, tried in PCRE's order: a quote first, then the empty quote. A hit lies after its start, inside the content, with the URL inside the brackets. `CssPatterns.UrlHitMatches`, `CssPatterns.UrlHitPrefersQuote` and `CssPatterns.NoUrlHitNoMatch` tie it to the pattern's matches. |
| `CssPatterns.QuotedAlsoUnquoted` | src/Assetic/Filter/BaseCssFilter.php:47 | A quoted url() match can also be read with an empty quote group, the URL then keeping its quotes. |
| `CssPatterns.UrlHitMatches` | src/Assetic/Filter/BaseCssFilter.php:47 | A hit is a match of `url\((["']?)(?<url>.*?)(\1)\)` whose closing quote is the opening one. No match with that quote group has a shorter URL. |
| `CssPatterns.UrlHitPrefersQuote` | src/Assetic/Filter/BaseCssFilter.php:47 | The empty quote group is reported only when no quoted match exists, as the greedy `["']?` demands. |
| `CssPatterns.NoUrlHitNoMatch` | src/Assetic/Filter/BaseCssFilter.php:47 | When the url matcher finds nothing, the pattern cannot match there at all. |
| `CssPatterns.UrlHeadScan` | src/Assetic/Filter/BaseCssFilter.php:62 | The greedy scan of ` +(?:url)? *\(? *` ends a parse of that head. |
| `CssPatterns.UrlHeadUnique` | src/Assetic/Filter/BaseCssFilter.php:62 | Any parse of the head that is followed by a quote ends where the greedy scan ends. |
| `CssPatterns.ImportQuoteAtSpec` | src/Assetic/Filter/BaseCssFilter.php:62-63 | The quote found follows `@import` and a head, and every import match has its quote exactly there. |
| `CssPatterns.ImportQuoteAtKeyword` | src/Assetic/Filter/BaseCssFilter.php:62-63 | A quote is found only after `@import` and at least one space. |
| `CssPatterns.ImportTailLongest` | src/Assetic/Filter/BaseCssFilter.php:62-63 | The tail taken (` *;?`, or ` *\)? *;?` with includeUrl) is the longest prefix in the tail's language. |
| `CssPatterns.ImportHit` | src/Assetic/Filter/BaseCssFilter.php:62-63 | The import pattern anchored at a position, in either variant. A hit has its quote where `ImportQuoteAt` puts it, its URL closed by the same quote at the first possible place, and its end after the longest tail. `CssPatterns.ImportHitMatches`, `CssPatterns.ImportHitFirst` and `CssPatterns.NoImportHitNoMatch` tie it to the pattern's matches. |
| `CssPatterns.ImportHitMatches` | src/Assetic/Filter/BaseCssFilter.php:62-63 | An import hit is a match of the pattern, with the same quote before and after the URL. |
| `CssPatterns.ImportHitFirst` | src/Assetic/Filter/BaseCssFilter.php:62-63 | No import match has its quote elsewhere or a shorter URL than the hit. |
| `CssPatterns.ImportHitTail` | src/Assetic/Filter/BaseCssFilter.php:62-63 | The hit ends after the longest tail. |
| `CssPatterns.NoImportHitNoMatch` | src/Assetic/Filter/BaseCssFilter.php:62-63 | When the import matcher finds nothing, the pattern cannot match there at all. |
| `CssFilter.PatternMatcher` | src/Assetic/Filter/BaseCssFilter.php:65 | Every hit of a fixed pattern starts at its position, is non-empty, and stays inside the content. |
| `CssFilter.MatchShape` | src/Assetic/Filter/BaseCssFilter.php:47 | The callback is handed a non-empty slice of the content starting at the match, with a newline-free URL. A url() match reads `url(` q URL q `)` with q empty or one quote. An import match starts with `@import ` and has a one-quote group. |
| `CssFilter.ReplaceFrom` | src/Assetic/Filter/BaseCssFilter.php:65 | `preg_replace_callback`'s scan: take the match at the leftmost position, hand it to the callback, and continue after its end. It has no contract of its own; `CssFilter.ReplaceIsSplice` and `CssFilter.MatchStartsLeftmost` state its meaning. |
| `CssFilter.MatchStartsLeftmost` | src/Assetic/Filter/BaseCssFilter.php:65 | Every position where the pattern could match starts a found match or lies inside one, so no match is skipped. |
| `CssFilter.ReplaceIsSplice` | src/Assetic/Filter/BaseCssFilter.php:65 | The result is the splice of the matches found in the original content: gaps copied verbatim, each match replaced by the callback's value, that value never rescanned. |
| `CssFilter.ReplaceIdentity` | src/Assetic/Filter/BaseCssFilter.php:65 | A callback returning the matched text leaves the content unchanged. |
| `CssFilter.ReplaceWithoutMatch` | src/Assetic/Filter/BaseCssFilter.php:65 | Where the pattern matches nowhere, the content is copied whatever the callback. |
| `CssFilter.FilterUrls` | src/Assetic/Filter/BaseCssFilter.php:45-48 | One scan of the url() pattern over the content. Its guarantees are those of `CssFilter.ReplaceFrom`, together with `CssFilter.FilterUrlsIdentity` and `CssFilter.FilterUrlsWithoutKeyword`. |
| `CssFilter.FilterImports` | src/Assetic/Filter/BaseCssFilter.php:59-66 | One scan of the import pattern, with the url() form unless `includeUrl` is false. The parameter defaults to true, as in the source. Its guarantees are those of `CssFilter.ReplaceFrom`, together with `CssFilter.FilterImportsIdentity`, `CssFilter.FilterImportsWithoutKeyword` and `CssFilter.FilterImportsWithoutQuote`. |
| `CssFilter.FilterReferences` | src/Assetic/Filter/BaseCssFilter.php:29-35 | The url() pass, then the import pass without the url() form. `CssFilter.FilterReferencesIdentity` and `CssExamples.PassOrder` state its guarantees. |
| `CssFilter.FilterUrlsIdentity` | src/Assetic/Filter/BaseCssFilter.php:45-48 | `filterUrls` with an identity callback returns its input. |
| `CssFilter.FilterImportsIdentity` | src/Assetic/Filter/BaseCssFilter.php:59-66 | `filterImports`, in both variants, with an identity callback returns its input. |
| `CssFilter.FilterReferencesIdentity` | src/Assetic/Filter/BaseCssFilter.php:29-35 | `filterReferences` with an identity callback returns its input. |
| `CssFilter.PatternWithoutMatch` | src/Assetic/Filter/BaseCssFilter.php:65 | A pass of a pattern that matches nowhere copies the content. |
| `CssFilter.PatternWholeMatch` | src/Assetic/Filter/BaseCssFilter.php:65 | Content that is one whole match becomes the callback's value for it. |
| `CssFilter.FilterUrlsWithoutKeyword` | src/Assetic/Filter/BaseCssFilter.php:47 | Content without `url(` comes out of `filterUrls` unchanged. |
| `CssFilter.FilterImportsWithoutKeyword` | src/Assetic/Filter/BaseCssFilter.php:61-65 | Content without `@import` comes out of `filterImports` unchanged. |
| `CssFilter.FilterImportsWithoutQuote` | src/Assetic/Filter/BaseCssFilter.php:61-63 | Content without a quote character comes out of `filterImports` unchanged: both import patterns need a quote. |
| `CssExamples.UnquotedUrlSpan` | src/Assetic/Filter/BaseCssFilter.php:47 | For every unquoted URL without `)` or a line feed, `url(` URL `)` is one hit spanning the whole text, with an empty quote group. |
| `CssExamples.UnquotedUrl` | src/Assetic/Filter/BaseCssFilter.php:47 | `url(a.png)` is matched with an empty quote group, and the callback's value replaces the whole span. |
| `CssExamples.QuotedUrl` | src/Assetic/Filter/BaseCssFilter.php:47 | In `url("a)b")` the quote is taken first, so the `)` inside the quotes belongs to the URL. |
| `CssExamples.UnbalancedQuote` | src/Assetic/Filter/BaseCssFilter.php:47 | With no closing quote the quote group falls back to empty, and the URL keeps the opening quote. |
| `CssExamples.UrlAcrossLines` | src/Assetic/Filter/BaseCssFilter.php:47 | `url(a` line feed `b)` comes out unchanged: a URL cannot span a line feed. |
| `CssExamples.PlainImport` | src/Assetic/Filter/BaseCssFilter.php:63 | The plain import pattern takes the quote, the URL, the closing quote and the `;`. |
| `CssExamples.WrappedImport` | src/Assetic/Filter/BaseCssFilter.php:62 | With includeUrl, `url(`, the `)` and the `;` belong to the match. |
| `CssExamples.ImportWithoutSemicolon` | src/Assetic/Filter/BaseCssFilter.php:59-62 | `filterImports` called without the flag uses the url() form, and a match needs no `;`. |
| `CssExamples.UnquotedWrappedImport` | src/Assetic/Filter/BaseCssFilter.php:62 | `@import url(x.css);` is not matched, because the backreference to the unset quote group fails. |
| `CssExamples.PassOrder` | src/Assetic/Filter/BaseCssFilter.php:29-35 | The url() pass runs first and neither pass rescans the callback's output. In the opposite order the result would differ. |

## Left out

- `VarUtils::getCombinations` and `VarUtils::resolve`: their code is not part of this model. They are function values in `VarUtils`. Nothing is claimed about the order of the combinations or about unresolved variables.
- `AssetFactory::getLastModified` and `combineThenDump`: these are function values of the combination, assumed pure. This lets each iteration's target, time and dump be computed up front (`Job`).
- A variable whose value list is not an array: PHP's `foreach` then only warns and does not throw. The model types each variable's values as a sequence, so this case cannot be expressed.
- The text of the exception messages (`sprintf`, `json_encode`): only which error is raised and its subject are modelled.
- The private `getCombinations` wrapper is not modelled. Nothing calls it.
- `AssetWriting.Host.FileExists`: it answers for files only. PHP's `file_exists` is also true for a directory. So a target path that names an existing directory is not modelled: PHP would then compare against the directory's time, and `file_put_contents` would fail. The model instead treats the target as missing: it logs `Writing:` and, in a real run, puts the file. Directories carry no modification time in this model.
- The filesystem:
  - It is a map from path to content and mtime, plus a set of directories.
  - `mkdir` and `file_put_contents` failures are a fixed set of failing paths.
  - A failure is modelled as having no effect at all. In PHP a recursive `mkdir` keeps the ancestors it made before a later component fails, and `file_put_contents` truncates the file before a short write. So the "leaves the state unchanged" clauses of `WriterModel.WriteFileSpec` and `WriterModel.StepSpec` describe the model, not those partial effects.
  - The clock is constant during a run.
  - Modes, permissions, the `@` error suppression, and paths that name both a file and a directory are not modelled.
- `dirname` follows POSIX rules. Windows separators are not modelled.
- Strings are sequences of characters, not bytes.
- The callback is a pure function from the groups (whole match, quote group, `url` group) to the replacement. PHP callables with side effects, and the numbered copy of the groups in PHP's match array, are not modelled.
- `static::write` is resolved to `AssetWriter::write`. Overriding it in a subclass is not modelled.
- The options array is taken to hold the keys `dryRun`, `force` and `quiet` as booleans. The PHP notices for missing keys are not modelled.
- The asset manager is a list of names with a map from name to asset. `Valid` requires the names to be exactly the map's keys, as `getNames` returns them, so `get` on a listed name always succeeds.
- `AssetWriting.AssetWriter.WriteManagerAssets`: the frame is every registered asset. By `Valid`, these are exactly the listed ones.
- `CssFilter.FilterUrls`, `CssFilter.FilterImports`, `CssFilter.FilterReferences`: `preg_replace_callback` fails and returns `null` when PCRE hits its backtracking or JIT stack limits. `filterReferences` would then feed `null` to the second pass and end up with an empty string. The model has no resource limits: these functions always return the full rewrite.
- `WriterProperties.RealRunLogsLikeDryRun`, `WriterProperties.ForcedRunWritesEverything`: target paths are compared as strings. `.` and `..` segments, repeated slashes and symlinks are not normalised, so `w/a.css`, `w/./a.css` and `w//a.css` count as three files. The distinct-targets premise, and "the last job that targets a path", are about path strings, not about the files the operating system resolves them to.
- PCRE is not modelled in general. Only the three fixed patterns are, with PCRE's default newline convention: `.` rejects only a line feed.
