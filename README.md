# harmony-installer, modelled in Dafny

`harmony-installer` is a Composer plugin for the Harmony framework. After
`composer install` or `composer update` it does three things:

- It gathers the `composer-harmony.json` file of every package into
  `composer-harmony-dependencies.json`. Each package's autoload paths are
  rewritten so that they are relative to `vendor/harmony/harmony`. It then
  runs the Harmony console there.
- After the autoloader is dumped, it builds the vendor class map. It finds
  out which classes can actually be loaded, by running a worker process that
  includes them one by one. It then writes that analysis, and the reflection
  data (parents and interfaces) of the loadable classes, as PHP files that
  `return` an exported value.
- The Mouf variant writes `mouf/MoufUI.php`, which requires the admin files
  that the packages declare.

The project has one module per source file, plus four small shared modules.

| module | models |
|---|---|
| `HarmonyPlugin` | `src/Installer/HarmonyPlugin.php` |
| `ClassExplorer` | `src/Services/ClassExplorer.php` |
| `ClassMapService` | `src/Services/ClassMapService.php` |
| `ReflectionExporter` | `src/Services/ReflectionExporter.php` |
| `FileService` | `src/Services/FileService.php` |
| `MoufUIFileWritter` | `src/Mouf/Installer/MoufUIFileWritter.php` |
| `Wrappers` | Result, Option and Outcome |
| `PhpStrings` | `strpos`, line splitting, PHP truthiness of strings |
| `PhpArrays` | PHP arrays as ordered maps with distinct keys |
| `PhpValues` | decoded JSON values |

Some code updates state step by step: `ClassExplorer` with its
`$analysisResponse` field, and `MoufUIFileWritter` with its `$composer` field.
These are classes with methods, and each method is proved equal to a pure
specification function. Every loop of the source is a `while` loop. Each one
is proved against a recursive function, and the properties are proved about
those functions.

Some parts of the system are inputs to the model rather than part of it:

- Composer itself;
- the file system;
- `json_decode`, `var_export` and `array_merge_recursive`;
- PHP's reflection;
- the two worker processes.

Each of these is a parameter. Effects on the world (console lines, files
written, `mkdir`, `unlink`, `passthru`) are returned as lists of actions.

Two things the model states about the code itself:
- There is no scan cache. `getClassMap` takes only the mode (src/Services/ClassMapService.php:68). The TODO at src/Services/ClassMapService.php:108-109 says a cache that tracks file modification times is not implemented. So every run rescans every directory.
- A class stays forbidden once it has an error. `$forbiddenClasses` is set to `[]` once, before the do/while loop (src/Services/ClassExplorer.php:33). Entries are only ever added to it (src/Services/ClassExplorer.php:67, 71), and each pass removes all of them from the class map (src/Services/ClassExplorer.php:81-83). This holds even when a class failed only because another class was loaded beside it.

## Model

| member | source | states |
|---|---|---|
| `HarmonyPlugin.IsAssocMeans` | src/Installer/HarmonyPlugin.php:266-269 | An array is not associative exactly when it is non-empty and its i-th key is the integer i. The empty array counts as associative, because `range(0, -1)` has two elements. |
| `HarmonyPlugin.ListNotAssoc` | src/Installer/HarmonyPlugin.php:266-269 | A non-empty list literal is never associative. |
| `HarmonyPlugin.RangeFromZero` | src/Installer/HarmonyPlugin.php:268 | `range(0, hi)` counts up to `hi`, or down to it when `hi` is negative. Its length and each element are given. |
| `HarmonyPlugin.Prefixed` | src/Installer/HarmonyPlugin.php:232-235 | The inner closure keeps every key. Each item becomes the target directory followed by the item as a string. |
| `HarmonyPlugin.RewriteArrayEntry` | src/Installer/HarmonyPlugin.php:226-236 | An array entry of a rewritten section keeps its keys. Every item gets the target directory in front. |
| `HarmonyPlugin.RewriteScalarEntry` | src/Installer/HarmonyPlugin.php:228-230 | A scalar entry becomes the one-element list `[targetDir . scalar]`. |
| `HarmonyPlugin.RewrittenPathsStartWith` | src/Installer/HarmonyPlugin.php:226-236 | Every path of a rewritten section is a string that starts with the target directory. |
| `HarmonyPlugin.RewriteSectionFrame` | src/Installer/HarmonyPlugin.php:225-237 | One rewrite changes only its own `[type][mode]` section, and keeps the top-level keys in their order. |
| `HarmonyPlugin.RewriteSectionFails` | src/Installer/HarmonyPlugin.php:225-237 | A rewrite fails exactly when its section is set but not an array, and the error names that file, type and mode. |
| `HarmonyPlugin.ModePairsMembers` | src/Installer/HarmonyPlugin.php:224 | The inner loop visits the pairs `(type, m)` for m among the modes. They are distinct when the modes are. |
| `HarmonyPlugin.PairsMembers` | src/Installer/HarmonyPlugin.php:223-224 | The nested loops visit exactly the pairs of a type and a mode. They are distinct when the types and the modes are. |
| `HarmonyPlugin.SectionPairs` | src/Installer/HarmonyPlugin.php:223-224 | The eight sections are each visited exactly once. |
| `HarmonyPlugin.RewriteAllCons` | src/Installer/HarmonyPlugin.php:223-239 | The first section's rewrite either fails, which ends the loops, or feeds the remaining ones. |
| `HarmonyPlugin.RewriteAllAppend` | src/Installer/HarmonyPlugin.php:223-239 | Running the loops over `a + b` is running them over `a` and then over `b`, and a failure in `a` stops everything. |
| `HarmonyPlugin.RewriteAllSections` | src/Installer/HarmonyPlugin.php:223-239 | Over distinct sections, each listed section is rewritten once, everything else is left alone, and the keys keep their order. |
| `HarmonyPlugin.RewriteAllFails` | src/Installer/HarmonyPlugin.php:223-239 | Over distinct sections, the loops fail exactly when some listed section is set and not an array, and then with that section's error. |
| `HarmonyPlugin.RewriteSectionsMeans` | src/Installer/HarmonyPlugin.php:223-239 | Over any distinct types and modes: the failure condition (both directions), the rewrite of each listed section, and the frame for everything else. |
| `HarmonyPlugin.WrappedOnce` | src/Installer/HarmonyPlugin.php:244-246 | Wrapping a factory section is idempotent. A wrapped section is a one-element list and is not associative. |
| `HarmonyPlugin.WrapFactoryFrame` | src/Installer/HarmonyPlugin.php:242-247 | One factory paragraph sets its own entry to the wrapped section and leaves every other entry and key in place. |
| `HarmonyPlugin.WrapFactoriesMeans` | src/Installer/HarmonyPlugin.php:241-255 | With the two paragraphs in a row on different sections, both entries are wrapped and the other top-level keys are kept. |
| `HarmonyPlugin.LoadConfigFails` | src/Installer/HarmonyPlugin.php:209-258 | Loading a parsed file fails exactly when one of the eight autoload sections is set and not an array. |
| `HarmonyPlugin.LoadConfigAutoloads` | src/Installer/HarmonyPlugin.php:223-239 | After a successful load, the eight sections are rewritten and the other sections under `autoload` and `autoload-dev` are kept. |
| `HarmonyPlugin.LoadConfigFactories` | src/Installer/HarmonyPlugin.php:241-257 | After a successful load, both factory sections are wrapped, and every key other than `autoload`, `autoload-dev` and `extra` is kept, in its place. |
| `HarmonyPlugin.RewriteModes` | src/Installer/HarmonyPlugin.php:224-238 | The inner loop, proved equal to the specification function over the `(type, mode)` pairs. |
| `HarmonyPlugin.RewriteSections` | src/Installer/HarmonyPlugin.php:223-239 | The outer loop, proved equal to the specification function over all pairs. |
| `HarmonyPlugin.LoadComposerHarmonyFile` | src/Installer/HarmonyPlugin.php:209-258 | The method is the load function. A parse error or a schema violation is rethrown as an error before any rewrite. |
| `HarmonyPlugin.Contributors` | src/Installer/HarmonyPlugin.php:109-129 | A package contributes exactly when it is complete and its harmony file exists and is readable. |
| `HarmonyPlugin.GatherContributors` | src/Installer/HarmonyPlugin.php:109-129 | Packages that do not contribute play no part. With no contributors the result is the empty gathered configuration. |
| `HarmonyPlugin.DependencyPathsPrefixed` | src/Installer/HarmonyPlugin.php:112-124 | Every autoload path a dependency contributes starts with `../../../vendor/<name>/`. |
| `HarmonyPlugin.CoreSection` | src/Installer/HarmonyPlugin.php:131-137 | The core section holds exactly `extra.framework-interop` from the core file and a `~1.0` requirement on the module autoinstaller. |
| `HarmonyPlugin.LockFileAsWritten` | src/Installer/HarmonyPlugin.php:192 | The lock file name as written: the last four characters of the target, then `.lock`. |
| `HarmonyPlugin.LockFileMisnamed` | src/Installer/HarmonyPlugin.php:192 | As written, the lock file is `json.lock`, which is not `composer-harmony-dependencies.lock`. |
| `HarmonyPlugin.LockFile` | src/Installer/HarmonyPlugin.php:192 | The corrected lock file name always ends in `.lock`. |
| `HarmonyPlugin.LockFileSibling` | src/Installer/HarmonyPlugin.php:192 | The corrected lock file of `base.json` is `base.lock`. |
| `HarmonyPlugin.LockFileBeside` | src/Installer/HarmonyPlugin.php:143-156 | For a plain JSON name, both the lock file as written and the corrected one differ from the target, and `dirname` of the target is `.`. |
| `HarmonyPlugin.TargetIsPlain` | src/Installer/HarmonyPlugin.php:143 | `composer-harmony-dependencies.json` is a plain JSON file name. |
| `HarmonyPlugin.DeleteIfExistsEffects` | src/Installer/HarmonyPlugin.php:184-200 | Deleting if the file exists: a new deletion happens exactly when the file exists, earlier effects are kept, and the only error is a failed deletion of that file. |
| `HarmonyPlugin.WritesChecked` | src/Installer/HarmonyPlugin.php:145-169 | Whichever lock file the end of the run removes, the configuration is written only to the target, only when it is non-empty, and only after the checks on the target and its directory pass. |
| `HarmonyPlugin.FinishWritesChecked` | src/Installer/HarmonyPlugin.php:145-169 | The configuration is written only to the target, only when it is non-empty, and only after both write checks pass. |
| `HarmonyPlugin.FinishConsoleAfterWrite` | src/Installer/HarmonyPlugin.php:166-181 | The console runs only after a successful write. The run is then exactly the write followed by `console.php composer:<action>` in `vendor/harmony/harmony`. |
| `HarmonyPlugin.ConsoleAfterWrite` | src/Installer/HarmonyPlugin.php:166-181 | The same holds whichever lock file the end of the run removes. |
| `HarmonyPlugin.FinishDeletes` | src/Installer/HarmonyPlugin.php:182-201 | Only the existing target and the lock file as written (`LockFileAsWritten`) are deleted, and only for an empty configuration. The only errors are a failed write or a failed deletion. |
| `HarmonyPlugin.EmptyDeletes` | src/Installer/HarmonyPlugin.php:183-200 | For an empty configuration, only existing files are deleted, and only the target and then the given lock file. |
| `HarmonyPlugin.FinishWrites` | src/Installer/HarmonyPlugin.php:166-201 | Once the checks pass, the first effect is the write (and it succeeds exactly when `file_put_contents` does) or the "nothing to do" line. Then the target and the lock file as written are each deleted exactly when they exist. |
| `HarmonyPlugin.EmptyRemovesLock` | src/Installer/HarmonyPlugin.php:182-201 | Whichever lock file the end of the run removes, an empty configuration whose checks pass and whose target can be unlinked deletes the lock file exactly when it exists. It deletes nothing but the target and the lock file. |
| `HarmonyPlugin.EmptyRemovesJsonLock` | src/Installer/HarmonyPlugin.php:182-201 | As written, an empty configuration deletes `json.lock` exactly when it exists, and never deletes `composer-harmony-dependencies.lock`. |
| `HarmonyPlugin.IntendedRemovesSiblingLock` | src/Installer/HarmonyPlugin.php:182-201 | With the corrected lock file name, an empty configuration deletes `base.lock` exactly when it exists, and deletes nothing but `base.json` and `base.lock`. |
| `HarmonyPlugin.FinishRefuses` | src/Installer/HarmonyPlugin.php:145-164 | A failing write check prints its console error and does nothing else. |
| `HarmonyPlugin.ProcessStages` | src/Installer/HarmonyPlugin.php:86-202 | Outside a Harmony project, nothing happens. A file that fails to load stops the run before any effect. Any effect comes from the final decision on the gathered configuration with the core section merged in. |
| `HarmonyPlugin.ProcessHarmonyDependencies` | src/Installer/HarmonyPlugin.php:86-202 | The method is the run over the installed packages followed by the root package. |
| `HarmonyPlugin.WriteDependencies` | src/Installer/HarmonyPlugin.php:143-201 | The write/delete tail of the method matches its specification function, with the lock file as written. |
| `HarmonyPlugin.DumpsAppend` | src/Installer/HarmonyPlugin.php:314-323 | The files dumped by two action lists in a row are the first list's dumps followed by the second's. |
| `HarmonyPlugin.DumpsOfWritten` | src/Services/FileService.php:71-76 | Preparing a directory and writing one file dumps exactly that file. |
| `HarmonyPlugin.CacheAnalysis` | src/Installer/HarmonyPlugin.php:299-308 | The analysed class map of the dependencies is a well-formed ordered map. |
| `HarmonyPlugin.ReflectedClassesLoadable` | src/Installer/HarmonyPlugin.php:307-321 | Reflection runs on exactly the dependencies' classes less those that failed the analysis, in their order. No forbidden class gets reflection data. |
| `HarmonyPlugin.GenerateClassMapCache` | src/Installer/HarmonyPlugin.php:276-328 | The actions and the outcome are those of the specification function. An existing class map cache that cannot be included stops the run first. An analysis failure writes nothing. |
| `HarmonyPlugin.WriteCaches` | src/Installer/HarmonyPlugin.php:314-323 | The actions and the outcome are those of the specification function. The second write is checked and prepared against the file system the first write left. |
| `HarmonyPlugin.CacheWritesDumps` | src/Installer/HarmonyPlugin.php:314-323 | The files dumped are the analysis and then the reflection data, each with the text as written. A failed reflection run leaves only the first, and a failed first check leaves no action at all. |
| `HarmonyPlugin.SharedDirectoryMadeOnce` | src/Installer/HarmonyPlugin.php:314-323 | For two files in one directory, a successful generation is exactly: `mkdir` of that directory, once and only when it was missing, and then the two dumps. |
| `HarmonyPlugin.GeneratedChild` | src/Installer/HarmonyPlugin.php:314 | A file named directly below `<vendor>/harmony/harmony/generated` lies in that directory and is not the directory. |
| `HarmonyPlugin.CacheFilesShareDirectory` | src/Installer/HarmonyPlugin.php:314-323 | `vendorClassMap.php` and `vendorReflectionData.php` share the directory `<vendor>/harmony/harmony/generated`. |
| `HarmonyPlugin.WritesLeaveFiles` | src/Installer/HarmonyPlugin.php:314-323 | After both writes succeed, both files exist. |
| `HarmonyPlugin.GenerationLeavesClassMap` | src/Installer/HarmonyPlugin.php:291-323 | After a successful generation both cache files exist, so the next generation takes the `include` branch. |
| `HarmonyPlugin.ApplyAppend` | src/Installer/HarmonyPlugin.php:314-323 | Applying `a + b` to the file system is applying `a` and then `b`. |
| `ClassExplorer.ClassExplorer.TrimLine` | src/Services/ClassExplorer.php:112-124 | It fails with `EndOfFileReached` exactly when the response has no newline, and the response is then unchanged. Otherwise the old response is the returned newline-free line, a newline, and the new response. |
| `ClassExplorer.ParseRecords` | src/Services/ClassExplorer.php:50-78 | The records loop keeps the pending map and the error map well-formed. |
| `ClassExplorer.ParseRecordsFacts` | src/Services/ClassExplorer.php:50-78 | The records loop never adds a pending class and never drops an error. Every newly forbidden class is no longer pending. |
| `ClassExplorer.RunSpec` | src/Services/ClassExplorer.php:42-78 | A worker run keeps both maps well-formed. |
| `ClassExplorer.RunSpecFacts` | src/Services/ClassExplorer.php:42-78 | The same three facts hold for a whole worker run. |
| `ClassExplorer.StartupMissing` | src/Services/ClassExplorer.php:42-46 | A run fails with the raw output as its message exactly when the output does not contain the startup line. |
| `ClassExplorer.AfterStartup` | src/Services/ClassExplorer.php:42-48 | Reading resumes right after the first startup line, and anything before it is ignored. |
| `ClassExplorer.RecordsNeverAnalysisFailed` | src/Services/ClassExplorer.php:50-78 | The records loop never reports a missing startup line. |
| `ClassExplorer.EndOfRun` | src/Services/ClassExplorer.php:51-54 | The ENDFILE line closes the run and changes nothing. |
| `ClassExplorer.UnexpectedMarker` | src/Services/ClassExplorer.php:55-57 | Any other line where a record should begin fails with "Strange behaviour" carrying that marker. |
| `ClassExplorer.TruncatedRecord` | src/Services/ClassExplorer.php:51-59 | Output that ends inside a marker line or a class-name line fails with `EndOfFileReached`. |
| `ClassExplorer.RecordStep` | src/Services/ClassExplorer.php:59-77 | One record, in all its cases: the class crashed, it loaded silently, or it printed output before AFTERINCLUDE. |
| `ClassExplorer.LoadedSilently` | src/Services/ClassExplorer.php:62-63 | A class followed at once by AFTERINCLUDE leaves the pending map with no error, and reading goes on. |
| `ClassExplorer.FindAfterDetail` | src/Services/ClassExplorer.php:62 | When the printed output holds no AFTERINCLUDE line, the `strpos` of the marker falls right after that output. |
| `ClassExplorer.LoadedWithOutput` | src/Services/ClassExplorer.php:70-77 | A class that printed output before AFTERINCLUDE gets that output as its error and leaves the pending map, and reading goes on after the marker. |
| `ClassExplorer.CrashedOn` | src/Services/ClassExplorer.php:65-69 | A class with no AFTERINCLUDE after it gets the whole rest of the output as its error, and the run ends successfully. |
| `ClassExplorer.ClassExplorer.ConsumeRecords` | src/Services/ClassExplorer.php:50-78 | The method over `analysisResponse` is the records function of the old response. |
| `ClassExplorer.Runs` | src/Services/ClassExplorer.php:38-79 | The pass loop only adds errors, only for classes it was given, and counts at least the runs it started with. With two or more runs, some given class was forbidden. |
| `ClassExplorer.ClassExplorer.RunPass` | src/Services/ClassExplorer.php:36-79 | One pass, as a method, matches its specification function from `$nbRun = 0`. |
| `ClassExplorer.WithoutShrinksSome` | src/Services/ClassExplorer.php:81-87 | Unsetting a set that holds some key of the map shrinks it, which is why the outer loop ends. |
| `ClassExplorer.PassesPartition` | src/Services/ClassExplorer.php:35-93 | The final class map is the input less every forbidden class. Errors are never dropped, and each is for a class of the input. |
| `ClassExplorer.PartitionStep` | src/Services/ClassExplorer.php:81-83 | What later passes keep of the map left by one pass is what they keep of the whole map. |
| `ClassExplorer.UnsetAll` | src/Services/ClassExplorer.php:81-83 | The unset loop gives the map without the forbidden classes, in its order. |
| `ClassExplorer.UnsetStep` | src/Services/ClassExplorer.php:81-83 | Unsetting one more forbidden class. |
| `ClassExplorer.ClassExplorer.Analyze` | src/Services/ClassExplorer.php:31-101 | `analyze` splits the input class map: the result map and the errors are disjoint, together they cover exactly the input's classes, and the map is the input less the errors. |
| `ClassMapService.Shift` | src/Services/ClassMapService.php:88-91 | `array_shift` drops exactly the first element, and leaves an empty array as it is. |
| `ClassMapService.PackageMapModes` | src/Services/ClassMapService.php:74-91 | In "all" mode the installed packages are used. In "application" mode, none. In "dependencies" mode, the package map minus its first (root) entry. |
| `ClassMapService.Slashes` | src/Services/ClassMapService.php:122 | `strtr($s, '\\', '/')` replaces every backslash by a slash, and keeps the length. |
| `ClassMapService.NamespacePath` | src/Services/ClassMapService.php:122 | The namespace path is used only for a psr-0 namespace without `_`. |
| `ClassMapService.WhitelistedMeans` | src/Services/ClassMapService.php:119-123 | The whitelist accepts a path exactly when `dir/nsPath` occurs in it followed by at least one character, and the path is not a test file. |
| `ClassMapService.TestFileNames` | src/Services/ClassMapService.php:120 | `…/Test.php` is kept and `…/FooTest.php` is rejected. |
| `ClassMapService.CreateMap` | src/Services/ClassMapService.php:124 | `createMap` keeps exactly the classes found in whitelisted files. |
| `ClassMapService.FindAtStart` | src/Services/ClassMapService.php:125 | `0 === strpos($class, $ns)` holds exactly when the class starts with the namespace. |
| `ClassMapService.KeepNamespace` | src/Services/ClassMapService.php:125 | Exactly the classes of the namespace are kept. |
| `ClassMapService.DirCandidates` | src/Services/ClassMapService.php:115-130 | A non-directory contributes nothing. Every other candidate was found there, is in the namespace and is whitelisted. |
| `ClassMapService.NamespaceCandidates` | src/Services/ClassMapService.php:113-131 | Every candidate of a namespace is in that namespace. |
| `ClassMapService.FirstWinsAppend` | src/Services/ClassMapService.php:126-128 | Claiming `a + b` is claiming `a` and then `b`. |
| `ClassMapService.LastWinsAppend` | src/Services/ClassMapService.php:140-142 | Overwriting with `a + b` is overwriting with `a` and then with `b`. |
| `ClassMapService.FirstFile` | src/Services/ClassMapService.php:126-128 | The first candidate file of a class is a candidate of it. None means the class has no candidate. |
| `ClassMapService.LastFile` | src/Services/ClassMapService.php:140-142 | The last candidate file of a class is a candidate of it. None means the class has no candidate. |
| `ClassMapService.FirstWinsAt` | src/Services/ClassMapService.php:126-128 | A mapped class keeps its file. An unmapped one is mapped exactly when it has a candidate, to its first one. |
| `ClassMapService.FirstWinsKeys` | src/Services/ClassMapService.php:126-128 | Classes already mapped keep their positions, and new ones come after them. |
| `ClassMapService.LastWinsAt` | src/Services/ClassMapService.php:140-142 | A class with a candidate is mapped to its last one. Any other class keeps what it had. |
| `ClassMapService.LastWinsKeys` | src/Services/ClassMapService.php:140-142 | Overwriting keeps the positions of classes already mapped. |
| `ClassMapService.FirstFileAppend` | src/Services/ClassMapService.php:112-133 | The first candidate in `a + b` is the first one in `a`, if any, and otherwise the first one in `b`. |
| `ClassMapService.ClassMapOfAt` | src/Services/ClassMapService.php:68-151 | A class is mapped to its last classmap candidate, else its first psr-0 candidate, else its first psr-4 candidate. It is absent exactly when it has no candidate. |
| `ClassMapService.ClaimStep` | src/Services/ClassMapService.php:124-130 | One candidate of the innermost loop: it is claimed when it is in the namespace, and skipped otherwise. |
| `ClassMapService.ScanPsrDirectory` | src/Services/ClassMapService.php:114-131 | The innermost loop claims in order the whitelisted candidates of the namespace, keeping the first file per class. |
| `ClassMapService.ScanPsrSection` | src/Services/ClassMapService.php:113-132 | The two middle loops over one psr section. |
| `ClassMapService.ScanClassmap` | src/Services/ClassMapService.php:137-143 | Every classmap candidate overwrites what was mapped, so the last one wins. |
| `ClassMapService.GetClassMap` | src/Services/ClassMapService.php:68-151 | The method is the class map of the mode, as `ClassMapOfAt` characterises it. |
| `ReflectionExporter.Ancestors` | src/Services/ReflectionExporter.php:59-61 | A class has no ancestors exactly when it has no parent. |
| `ReflectionExporter.AncestorsIsChain` | src/Services/ReflectionExporter.php:59-61 | The ancestors list is the one chain of parent links, nearest first, that ends at a class without a parent. |
| `ReflectionExporter.ChainTail` | src/Services/ReflectionExporter.php:59-61 | After its first link, a chain from a class is a chain from the class's parent. |
| `ReflectionExporter.AncestorsDescend` | src/Services/ReflectionExporter.php:59-61 | Ancestors get strictly shallower along the list. |
| `ReflectionExporter.AncestorsDistinct` | src/Services/ReflectionExporter.php:59-61 | No ancestor is listed twice, and no class is its own ancestor. |
| `ReflectionExporter.ParentClasses` | src/Services/ReflectionExporter.php:57-61 | The `getParentClass` loop collects exactly the ancestors. |
| `ReflectionExporter.HierarchyData` | src/Services/ReflectionExporter.php:54-67 | There is one record per class of the map, in its order, holding the class's parents and its interface names. |
| `ReflectionExporter.ExportHierarchy` | src/Services/ReflectionExporter.php:53-67 | The worker's loop builds exactly that data. |
| `ReflectionExporter.RunReflectionExporter` | src/Services/ReflectionExporter.php:80-93 | Every error message starts with the exporter's prefix. |
| `ReflectionExporter.RunReflectionExporterOutcome` | src/Services/ReflectionExporter.php:84-93 | The run fails exactly when the error output is truthy or the output decodes to `false`. Otherwise it returns the decoded value, null included. |
| `ReflectionExporter.RecordValue` | src/Services/ReflectionExporter.php:63-66 | Each encoded record has exactly the keys `parents` and `interfaces`, in that order. |
| `ReflectionExporter.DataValue` | src/Services/ReflectionExporter.php:63-69 | The encoded data has one key per class, in order. |
| `ReflectionExporter.GetReflectionData` | src/Services/ReflectionExporter.php:25-94 | The result is the run of the worker on the hierarchy data of the map. |
| `ReflectionExporter.FaithfulWorker` | src/Services/ReflectionExporter.php:84-93 | A quiet worker whose output decodes to what it encoded gives the caller exactly its data. |
| `FileService.TrimSlashes` | src/Services/FileService.php:41 | Trailing slashes are removed, and nothing else. |
| `FileService.TrimName` | src/Services/FileService.php:41 | The last name is removed, up to its slash. |
| `FileService.Dirname` | src/Services/FileService.php:41 | `dirname` is "" only for "". Otherwise it is "/", ".", or a shorter proper prefix of the path that does not end in a slash. |
| `FileService.DirnameExamples` | src/Services/FileService.php:41 | `dirname` returns "/" for "/", "." for ".", and "." for a bare file name. |
| `FileService.DirnameTrailingSlash` | src/Services/FileService.php:41 | Trailing slashes are dropped before the last name. |
| `FileService.DirnameInnerSlashes` | src/Services/FileService.php:41 | Only the slashes just before the last name are dropped. |
| `FileService.DirnameZero` | src/Services/FileService.php:41 | A directory named "0" is returned as it is, and it is a falsy string. |
| `FileService.DirnameOfName` | src/Services/FileService.php:41 | A name without a slash lives in ".". |
| `FileService.DirnameDescends` | src/Services/FileService.php:25-41 | `dirname` strictly shortens every path other than "", "/" and ".", so the walk up the ancestors ends. |
| `FileService.DetectWriteIssues` | src/Services/FileService.php:21-42 | The do/while loop is the walk decision. |
| `FileService.WriteIssuesWalk` | src/Services/FileService.php:21-42 | The walk passes missing paths with truthy parents. The first existing ancestor alone decides, and the check passes when a falsy `dirname` ends the walk first. |
| `FileService.WalkStep` | src/Services/FileService.php:25-41 | A missing path with a truthy parent adds one step to its parent's walk. |
| `FileService.ZeroDirectoryEndsWalk` | src/Services/FileService.php:41 | Under a missing relative directory "0", nothing is checked at all. |
| `FileService.PrepareDirectory` | src/Services/FileService.php:51-62 | The write check comes first. Then, only if it passed, the parent directory is created with mode 0775 exactly when it is not a directory yet. |
| `FileService.WriteFile` | src/Services/FileService.php:71-76 | When the check passes, the actions are `mkdir` of the parent (only when it is not a directory) and then the dump. Nothing happens otherwise. |
| `FileService.Apply` | src/Services/FileService.php:59-75 | Applying `mkdir` and `dumpFile` actions never makes an existing path disappear. |
| `FileService.WrittenSettles` | src/Services/FileService.php:57-75 | After a write, the file exists, is writable and is not a directory, and its parent is a directory. No other path changes. |
| `FileService.UnterminatedReturn` | src/Services/FileService.php:85-96 | As written, the exported file's `return` statement has no `;`. |
| `FileService.PhpExportTextTerminated` | src/Services/FileService.php:85-96 | The corrected text starts with `<?php` and ends with the terminated `return` statement. |
| `FileService.PhpExportTextAsWrittenLines` | src/Services/FileService.php:86-93 | For a one-line comment and any exported value, such as a multi-line `var_export` of an array: line by line, the text as written is the header, the comment block only for a truthy comment, then the lines of `return <exported>` with no `;`. For a one-line value, that last part is the single line `return <exported>`. |
| `FileService.PhpExportTextAddsSemicolon` | src/Services/FileService.php:92-93 | The corrected text is the text as written with `;` after the exported value. |
| `FileService.PhpExportTextLines` | src/Services/FileService.php:86-93 | The same for the corrected text, for any exported value: the header, the comment block only for a truthy comment, then the lines of the `return` statement with its `;`. |
| `FileService.WritePhpExportFile` | src/Services/FileService.php:85-96 | After a passing check, the actions are the directory's creation when needed, then the dump of the text as written. Nothing happens otherwise. |
| `FileService.DirnameOfChild` | src/Services/FileService.php:57 | `dirname` of `dir/name` is `dir`. |
| `MoufUIFileWritter.AdminSection` | src/Mouf/Installer/MoufUIFileWritter.php:87 | The section is non-null exactly when `isset($extra["mouf"]["require-admin"])` holds. |
| `MoufUIFileWritter.Entries` | src/Mouf/Installer/MoufUIFileWritter.php:88-90 | There is one entry per item of an array section, in order: the package name, `/`, then the item. A non-array section gives nothing. |
| `MoufUIFileWritter.AdminEntriesMeans` | src/Mouf/Installer/MoufUIFileWritter.php:86-91 | A package adds nothing exactly when its section is unset, not an array, or empty. Otherwise it adds one entry per item, each under its name. |
| `MoufUIFileWritter.AdminFilesAppend` | src/Mouf/Installer/MoufUIFileWritter.php:84-92 | The files of two package lists in a row are the first list's files followed by the second's. |
| `MoufUIFileWritter.AdminFilesPrefix` | src/Mouf/Installer/MoufUIFileWritter.php:84-92 | Each iteration of the package loop appends that package's entries. |
| `MoufUIFileWritter.AdminFilesFromPackages` | src/Mouf/Installer/MoufUIFileWritter.php:84-93 | Every admin file is one package's entry, and starts with that package's name and a slash. |
| `MoufUIFileWritter.PackagesWithoutAdminFiles` | src/Mouf/Installer/MoufUIFileWritter.php:87 | A package without `require-admin` can be dropped without changing the list. |
| `MoufUIFileWritter.Statements` | src/Mouf/Installer/MoufUIFileWritter.php:65-67 | There is one `require_once` statement per admin file, in order. |
| `MoufUIFileWritter.ConcatAppend` | src/Mouf/Installer/MoufUIFileWritter.php:57-70 | The text of two batches of `fwrite` calls is their texts one after the other. |
| `MoufUIFileWritter.HeaderLinesPlain` | src/Mouf/Installer/MoufUIFileWritter.php:58-64 | No header line holds a newline. |
| `MoufUIFileWritter.MoufUITextLines` | src/Mouf/Installer/MoufUIFileWritter.php:57-71 | Read line by line, `MoufUI.php` is the six header lines, one `require_once` per admin file in order, an empty line, and `?>` with no newline. |
| `MoufUIFileWritter.MoufUIDirectory` | src/Mouf/Installer/MoufUIFileWritter.php:33-35 | The directory checked for a missing file is `<cwd>/mouf`. |
| `MoufUIFileWritter.WriteOutcomeMeans` | src/Mouf/Installer/MoufUIFileWritter.php:32-72 | The file is written exactly when the guard passes and the packages are known. It is always `<cwd>/mouf/MoufUI.php`, and the guard's exception comes first. |
| `MoufUIFileWritter.MoufUIFileWritter.constructor` | src/Mouf/Installer/MoufUIFileWritter.php:25-27 | The implicit constructor leaves `$composer` null. |
| `MoufUIFileWritter.MoufUIFileWritter.WithComposer` | src/Mouf/Installer/MoufUIFileWritter.php:25-27 | The constructor the class evidently means to have stores the packages. |
| `MoufUIFileWritter.MoufUIFileWritter.Construct` | src/Mouf/Installer/MoufUIFileWritter.php:25-27 | `_construct` as the ordinary method it is stores the packages. |
| `MoufUIFileWritter.MoufUIFileWritter.GetAdminFiles` | src/Mouf/Installer/MoufUIFileWritter.php:78-94 | `getAdminFiles` fails on a null `$composer`, and otherwise returns the entries of every package in order. |
| `MoufUIFileWritter.MoufUIFileWritter.WriteMoufUI` | src/Mouf/Installer/MoufUIFileWritter.php:32-72 | The method is the write decision on the writer's state. |
| `MoufUIFileWritter.AppendAdminEntries` | src/Mouf/Installer/MoufUIFileWritter.php:88-90 | The inner loop appends exactly one package's entries. |
| `MoufUIFileWritter.WriteRequires` | src/Mouf/Installer/MoufUIFileWritter.php:57-70 | The `fwrite` calls produce exactly the text of `MoufUI.php`. |
| `MoufUIFileWritter.ImplicitConstructorFails` | src/Mouf/Installer/MoufUIFileWritter.php:25-27 | As written, a writer built with `new` fails on null `$composer` whenever the guard lets it through. |
| `MoufUIFileWritter.ConstructedWriterWrites` | src/Mouf/Installer/MoufUIFileWritter.php:25-72 | With the corrected constructor, `MoufUI.php` is written with the admin files of the packages. |
| `PhpStrings.Find` | src/Services/ClassExplorer.php:42 | `strpos` gives the first occurrence, or None when there is none. |
| `PhpStrings.SplitLine` | src/Services/ClassExplorer.php:114-121 | The text is split at its first newline into a newline-free line and the rest. |
| `PhpArrays.Without` | src/Services/ClassExplorer.php:82 | `unset` of a set of keys keeps the other keys in their order. |
| `PhpArrays.Put` | src/Services/ClassExplorer.php:67 | An assignment to an existing key keeps its place. A new key goes last. |

## Left out

- The worker processes (`runAnalyzeIncludes` and the reflection worker, with `PHP_BINARY`, `PhpProcess`, `xdebug` and `opcache` flags) are functions from their input to their output text. Their PHP code is not modelled.
- `ClassExplorer.Analyze`: termination and the partition rest on a `WellBehaved` worker. On a non-empty map it fails, or it analyses at least one class. It reports errors only for classes it was given. It stops early only after recording an error for one of them. A worker that breaks this would make the PHP loop forever or report unknown classes, and that case is outside the model.
- Composer internals are inputs: `buildPackageMap`, `parseAutoloads`, `normalizePath`, `isAbsolutePath`, `realpath`, `ensureDirectoryExists`, and the scan of `ClassMapGenerator::createMap`.
- The whitelist regular expression is modelled by its meaning for the paths `createMap` finds. `preg_quote` is taken to make the directory match literally.
- `getClassMap`'s `microtime` timing and its "Autoload time" echo are left out, because they only print.
- `HarmonyPlugin.GenerateClassMapCache`: PHP's parsing of an existing `vendorClassMap.php` is not modelled. Whether its `include` loads is the input `oldClassMapLoads`. A file written by this code has no `;` after its `return` (see Findings), so it does not parse. After a successful run the file exists (`GenerationLeavesClassMap`), so with the code as written every later run stops at the `include` of HarmonyPlugin.php:291-293. When the `include` does load, its value goes to `getClassMap`, which ignores its second argument.
- `json_decode`, `json_encode`, `var_export` and `array_merge_recursive` are parameters. Their PHP semantics are not modelled.
- `JsonFile::validateSchema` and `read` are one `ReadOutcome` input per file.
- Console output that does not depend on the data is left out: the "Updating Harmony dependencies" banner, the verbose progress lines of the cache generation, and the `IOInterface` itself.
- `chdir`, `getcwd` and `passthru` are one `RunConsole` effect. The command's exit status is not checked by the source either. The command is `console.php composer:<action>`. The `PHP_BINARY` prefix of HarmonyPlugin.php:177 is left out, because it is the path of the running interpreter, which is outside the model.
- `HarmonyPlugin::activate` and `getSubscribedEvents` only register the plugin with Composer and are left out. So are the `HarmonyFrameworkInstaller` files.
- `MoufUIFileWritter.WriteMoufUI`: `fopen`/`fwrite` failures are not modelled, since the source does not check them. `getcwd()` is a parameter. The local repositories of `$composer` are an input list of packages.
- `FileService.PrepareDirectory`: `mkdir` and `dumpFile` failures (Symfony's `IOException`) are not modelled, and their effects are returned as actions.
- `FileService.Apply`: after `mkdir`, only the named directory is taken to exist. The parent directories Symfony also creates are not recorded. The new directory and the dumped file are taken to be writable.
- Composer's error handler is not modelled. Under Composer it turns PHP notices and warnings into an `ErrorException`. The model treats them as non-fatal, as PHP's default handler does. The lines below say where this matters.
- `HarmonyPlugin.CoreSection`: a core file without `extra.framework-interop` gives null there. Under Composer, the undefined index at HarmonyPlugin.php:134 would throw instead.
- `MoufUIFileWritter.Entries`: a `require-admin` that is set but is not an array gives no entries. Under Composer, the `foreach` warning at MoufUIFileWritter.php:88 would throw instead.
- `MoufUIFileWritter.AdminEntriesMeans`: for the same reason, such a package counts as adding nothing.
- `FileService.WriteIssues`: the model requires "/" and "." to exist, because in the source the walk does not end when they are missing. A missing relative path's walk reaches "." (unless a falsy "0" ends it first), and `dirname(".") == "."`. A missing absolute path's walk reaches "/", and `dirname("/") == "/"`. When that last path is missing too, the do/while of FileService.php:25-41 loops forever. The same requirement is on `DetectWriteIssues` and on every caller that checks a path, among them `HarmonyPlugin.CacheInputs`.
- `FileService.Dirname`: this is the Unix `dirname`, with `/` as the directory separator. Windows drive letters and backslashes are not modelled.
- Paths and class names are taken to hold no newline where the line protocol or the line reading of a file needs it. These are the `ClassNames` and `'\n' !in` requirements.
- Floating-point and integer JSON values are carried as their string form.
- `PhpValues.ToStr`: an array becomes "Array". PHP's notice for it is left out, and under Composer that notice would throw.
- Root alias packages and `getCanonicalPackages` de-duplication are part of Composer, and the package list is an input.

## Findings

| source | as written | input that shows it | evidently intended | confidence | as-written member | corrected member |
|---|---|---|---|---|---|---|
| src/Installer/HarmonyPlugin.php:192 | `substr($targetHarmonyFile, 0 -4).".lock"` takes the last four characters | `composer-harmony-dependencies.json` gives `json.lock` | the lock file `composer-harmony-dependencies.lock` beside the JSON file | not executed | `HarmonyPlugin.EmptyRemovesJsonLock` | `HarmonyPlugin.IntendedRemovesSiblingLock` |
| src/Services/FileService.php:92-93 | `"return ".var_export(...)` then `"\n"`, with no `;` | an empty array exports as `<?php\nreturn array (\n)\n`, which PHP rejects with a parse error; the next run's `include` of it (HarmonyPlugin.php:291-293) then fails | `return …;` as the last statement of the file | not executed | `FileService.UnterminatedReturn` | `FileService.PhpExportTextTerminated` |
| src/Mouf/Installer/MoufUIFileWritter.php:25-27 | the constructor is spelled `_construct`, with one underscore | `new MoufUIFileWritter($composer)` leaves `$composer` null, so `writeMoufUI()` fails in `getAdminFiles` | `__construct` storing `$composer` | not executed | `MoufUIFileWritter.ImplicitConstructorFails` | `MoufUIFileWritter.ConstructedWriterWrites` |
