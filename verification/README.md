# m4b-tool merge command: a Dafny model

This project models the core of m4b-tool's `merge` command
(`src/library/M4bTool/Command/MergeCommand.php`). That is the part that decides
what gets merged and under which names, before ffmpeg does any work:

- **Conversion.** `convertInputFiles` and `submitConversionTask` hand every input
  file to the task pool. Each task writes a "converting" file in the temporary
  directory and is later renamed to a "finished" file. The finished files, with
  the optional silence file between neighbours, form the merge list that
  `mergeFiles` concatenates. A switch on the sequence index decides which edges of
  each file have their silence trimmed. When the pool has run, every task's
  destination is checked.
- **Temporary directory.** `createOutputTempDir` names it
  `<dir>/<output name>-tmpfiles/`. Task files inside it are named
  `<zero-padded index + 1>-<source name><suffix>.<extension>`. `mergeFiles` writes
  `tmp_<output name>` next to them.
- **Merge without conversion.** `prepareMergeWithoutConversion` takes the input
  files as they are. It refuses mixed extensions unless `--force` is given, and it
  takes the audio format from the extension.
- **Batch mode.** `prepareBatchJobs` matches every candidate directory against a
  batch pattern. It records each matched directory as processed and builds one job
  per matched directory. A job has an output path
  (`<out>/<formatted pattern>[/<title or album>].m4b`) and tag options filled from
  the pattern's placeholders. Options given on the command line win.
  `normalizeDirectory` brings both the pattern and the directories into one form.
- **Long description.** With `--prepend-series-to-longdesc`, `tagMergedFile` puts
  "series part: " in front of the long description.

The model is written in Dafny's terms:

- The command is a class, `Command.MergeCommand`. It has the fields the steps
  update (`filesToMerge`, `silenceBetweenFile`, `alreadyProcessedBatchDirs`,
  `optAudioFormat`). Its methods keep the source's loops, and each loop is proved
  against a specification function.
- The task pool is a class, `Command.Pool`, reduced to the list of tasks
  submitted to it.
- The PHP built-ins the code relies on are functions: truthiness, `trim`/`ltrim`/
  `rtrim`, `strtr` for one character, `str_pad` with `STR_PAD_LEFT`, integer to
  string, and `SplFileInfo`'s `getPath`, `getBasename` and `getExtension`.
- Paths use `/` as the directory separator.

Modules, one per file:

- `Wrappers`: `Option`, `Result`, `Outcome`.
- `PhpStrings`: string built-ins, digit strings, byte-wise order.
- `SplFile`: `SplFileInfo` on a path string.
- `Sequences`: distinct values in first-seen order; mapping with and without the
  position.
- `MergeSequencing`: the merge list, generic over the file type.
- `Tasks`: trim switch, temporary directory, task file names, task lists.
- `Batch`: `normalizeDirectory`, the option-to-placeholder mapping, matched
  directories, derived options, output path, jobs.
- `TagPostPass`: the long-description prepend.
- `Command`: the `MergeCommand` and `Pool` classes and the loops.

## Model

| member | source | states |
|---|---|---|
| Command.MergeCommand.ConvertInputFiles | src/library/M4bTool/Command/MergeCommand.php:519-619 | After the step, `silenceBetweenFile` is the silence task's finished file exactly when silence is added. The pool holds the silence task first (when added), then one task per input file in input order. `filesToMerge` gains the merge list of the finished files. The outcome and the remaining files are those of `ConversionCheck` on the pool's tasks. |
| Command.MergeCommand.SubmitInputFiles | src/library/M4bTool/Command/MergeCommand.php:554-562 | The loop over the input files submits task i for file i, in order. It appends to `filesToMerge` each finished file, followed by the silence file when there is one and the file is not the last. The merge list grows by exactly `MergeSequence(FinishedFiles(..), silence)`. |
| Command.MergeCommand.SubmitInputFile | src/library/M4bTool/Command/MergeCommand.php:555-562 | File number i is submitted as task i. Its finished file is appended to `filesToMerge`, followed by the silence file exactly when there is one and i is not the last index. |
| Command.MergeCommand.SubmitSilenceTask | src/library/M4bTool/Command/MergeCommand.php:541-552 | `silenceBetweenFile` is reset, then with silence added it becomes the finished file of the task submitted under the silence index. The pool gains exactly that task, or nothing without silence. |
| Command.MergeCommand.SilenceFile | src/library/M4bTool/Command/MergeCommand.php:541-552 | There is a silence file exactly when silence is added. |
| Command.MergeCommand.SilenceTasks | src/library/M4bTool/Command/MergeCommand.php:541-552 | One task is submitted before the input files when silence is added, none otherwise. |
| Command.MergeCommand.SubmitConversionTask | src/library/M4bTool/Command/MergeCommand.php:641-672 | Appends to the pool exactly one task: source file, "converting" task file, and the switch's trim flags. It returns the "finished" task file of the same index. |
| Command.MergeCommand.CheckConvertedFiles | src/library/M4bTool/Command/MergeCommand.php:605-618 | The check loop returns what `ConversionCheck` defines. |
| Command.ConversionCheck | src/library/M4bTool/Command/MergeCommand.php:605-618 | It passes exactly when every task's destination exists with a size above zero; the files are then untouched. Otherwise it fails with "could not convert source to destination" for the first such task, and only that task's destination is removed. |
| Command.Pool.Submit | src/library/M4bTool/Command/MergeCommand.php:670 | A submitted task is appended to the pool's tasks. |
| Command.MergeCommand.PrepareMergeWithoutConversion | src/library/M4bTool/Command/MergeCommand.php:485-513 | `filesToMerge` becomes the input files. The outcome is the one `MergeExtension` decides. The audio format changes only on success, and only when the mapping knows the merge extension. |
| Command.CollectExtensions | src/library/M4bTool/Command/MergeCommand.php:490-499 | The loop collects each file's extension once, in the order the files first show it. |
| Command.MergeExtensionDecision | src/library/M4bTool/Command/MergeCommand.php:502-508 | Merging without conversion goes ahead exactly when there are files and either `--force` is given or all files share one extension. The merge extension is then the first file's. No files gives "no files found to merge". Several extensions without `--force` give the multiple-extensions error. |
| Command.MergeCommand.PrepareBatchJobs | src/library/M4bTool/Command/MergeCommand.php:217-295 | Every matched directory is appended to `alreadyProcessedBatchDirs`, in load order. The jobs are one per distinct matched directory, in the order of first match. A dry run gives none. |
| Command.MergeCommand.VerifyBatchDirs | src/library/M4bTool/Command/MergeCommand.php:229-241 | The first loop records every matched directory as processed. It returns the distinct matched directories, in first-match order, keyed with the values of their match. |
| Command.MergeCommand.VerifyBatchDir | src/library/M4bTool/Command/MergeCommand.php:232-240 | A candidate the normalised pattern matches is appended to `alreadyProcessedBatchDirs` and keyed in `$verifiedDirectories` with its match values. A candidate that does not match changes nothing. |
| Command.RecordVerifiedDir | src/library/M4bTool/Command/MergeCommand.php:237 | A directory new to `$verifiedDirectories` is added last; a known one keeps its place. Either way the table maps every listed directory to the values of its match. |
| Command.BuildBatchJobs | src/library/M4bTool/Command/MergeCommand.php:251-290 | The second loop produces `BatchJobsFor` the verified directories in their order, or nothing on a dry run. |
| Command.BuildBatchJob | src/library/M4bTool/Command/MergeCommand.php:254-282 | One job: input directory, output path from the formatted pattern, title, album and series, and the derived options. |
| Command.ApplyPlaceholderOptions | src/library/M4bTool/Command/MergeCommand.php:275-281 | The loop over the mapping computes `DerivedOptions`. |
| Batch.DerivedOptions | src/library/M4bTool/Command/MergeCommand.php:275-281 | An option is set exactly when it was given explicitly, or it is in the mapping and its placeholder matched a non-empty value. Explicit values are kept; every other set option carries its placeholder's value. |
| Batch.DerivedOptionsStep | src/library/M4bTool/Command/MergeCommand.php:275-281 | One more mapping entry sets its option only when the value is non-empty and the option is not defined yet. |
| Batch.NormalizeDirectoryShape | src/library/M4bTool/Command/MergeCommand.php:307-312 | The normal form has no backslash and no trailing `/`. It is the input with backslashes turned into `/`, minus a tail made only of separators. |
| Batch.NormalizeDirectoryIdempotent | src/library/M4bTool/Command/MergeCommand.php:307-312 | Normalising twice gives what normalising once gives. |
| Batch.NormalizeDirectoryIgnoresTrailingSeparator | src/library/M4bTool/Command/MergeCommand.php:307-312 | A trailing `/` or `\` does not change the normal form. |
| Batch.NormalFormIsFixed | src/library/M4bTool/Command/MergeCommand.php:307-312 | A path without backslashes and without a trailing `/` is its own normal form. |
| Batch.MatchedDirsMembers | src/library/M4bTool/Command/MergeCommand.php:229-241 | A directory is among the matched ones exactly when it is a candidate that the pattern matches, both normalised. |
| Batch.MatchedDirsStep | src/library/M4bTool/Command/MergeCommand.php:232-240 | One more candidate is appended to the matched list exactly when it matches. |
| Batch.ProcessedDirsStayDistinct | src/library/M4bTool/Command/MergeCommand.php:224-238 | When the processed list and the candidates each have no repeats, and no candidate is already processed, the processed list stays free of repeats after the matches are appended. |
| Batch.MatchTableAppend | src/library/M4bTool/Command/MergeCommand.php:238 | Keying one more directory adds the values of its match. |
| Batch.BatchOutputPath | src/library/M4bTool/Command/MergeCommand.php:257-267 | The output file lies under `<output dir>/` and ends in `.m4b`. |
| Batch.BatchOutputIsM4b | src/library/M4bTool/Command/MergeCommand.php:267 | Every batch job's output file has the extension `m4b`. |
| Batch.BatchOutputNamedAfterTitle | src/library/M4bTool/Command/MergeCommand.php:260-267 | With an empty series placeholder and a known title (else album) that holds no '/', the file is `<title>.m4b` in the folder the formatted pattern names, with its trailing separators cut. |
| Batch.BatchOutputWithoutTitleFolder | src/library/M4bTool/Command/MergeCommand.php:260-267 | With a non-empty series placeholder, or with neither title nor album, no folder is added: the file is `<output dir>/<formatted pattern without trailing separators>.m4b`. |
| Batch.BatchJobFor | src/library/M4bTool/Command/MergeCommand.php:251-290 | A job merges its directory and keeps every option given on the command line. |
| Batch.BatchJobWritesM4bUnderOutputDir | src/library/M4bTool/Command/MergeCommand.php:257-272 | A job writes an `.m4b` file under the output directory. |
| Batch.BatchJobsMergeEachMatchOnce | src/library/M4bTool/Command/MergeCommand.php:217-295 | The jobs of one pattern have pairwise different input directories. Every job's directory matches the pattern, and every matching candidate gets a job. |
| Tasks.FileTasksTrimPolicy | src/library/M4bTool/Command/MergeCommand.php:657-668 | The first file keeps its leading silence. With two or more files, the last keeps its trailing silence. With one file, only the first case applies. Files in between keep the converter's defaults. The silence task trims neither edge. |
| Tasks.FileTasks | src/library/M4bTool/Command/MergeCommand.php:554-556 | Task i converts input file i into its index-i task file, with the switch's flags for index i. |
| Tasks.FinishedFiles | src/library/M4bTool/Command/MergeCommand.php:554-556 | Entry i is input file i's finished task file. |
| Tasks.TempBaseName | src/library/M4bTool/Command/MergeCommand.php:627-628 | The temporary directory's name is never empty and holds no separator. |
| Tasks.OutputTempDir | src/library/M4bTool/Command/MergeCommand.php:625-631 | The temporary directory's name ends in a separator, so the names of the files inside it are built by appending to it. |
| Tasks.OutputTempDirLocation | src/library/M4bTool/Command/MergeCommand.php:625-631 | Read back through `SplFileInfo`, the directory lies in the output file's directory (or in none, when that is falsy) and is named `<name>-tmpfiles`. |
| Tasks.OutputTempDirShape | src/library/M4bTool/Command/MergeCommand.php:630-631 | Reading `prefix + name + "/"` back through `SplFileInfo` gives that directory and that name. |
| Tasks.TaskPrefixValue | src/library/M4bTool/Command/MergeCommand.php:645-646 | For the silence task and files 0..count-1, the prefix has as many digits as the file count and reads back as index + 1. |
| Tasks.TaskPrefixesSortInOrder | src/library/M4bTool/Command/MergeCommand.php:645-646 | Task prefixes sort byte-wise in sequence order, with the silence task first. |
| Tasks.TaskPrefixesDistinct | src/library/M4bTool/Command/MergeCommand.php:645-646 | Different tasks get different prefixes of one width. |
| Tasks.TaskFileNamesDistinct | src/library/M4bTool/Command/MergeCommand.php:649-650 | Two tasks of one merge never share a temporary file, even when their sources have the same name. |
| Tasks.ConvertingAndFinishedNames | src/library/M4bTool/Command/MergeCommand.php:649-650 | The converting and the finished file of a task differ only in the suffix, and they coincide only if the suffixes do. |
| Tasks.TaskFileInTempDir | src/library/M4bTool/Command/MergeCommand.php:649-650 | A task file lies directly in the temporary directory, named `<prefix>-<stem><suffix>.<extension>`. |
| Tasks.TaskPrefixHasNoSeparator | src/library/M4bTool/Command/MergeCommand.php:646 | A task prefix holds no separator. |
| Tasks.MergedTempFileIsNoTaskFile | src/library/M4bTool/Command/MergeCommand.php:681 | `mergeFiles`' `tmp_<output name>` file never takes the place of a task file. |
| Tasks.TmpNameIsNoTaskFile | src/library/M4bTool/Command/MergeCommand.php:681 | In any directory, `tmp_<name>` is not a task file, since task names start with a digit. |
| MergeSequencing.MergeSequenceLength | src/library/M4bTool/Command/MergeCommand.php:554-562 | The merge list has one entry per file, plus one silence between each two neighbours when silence is added. |
| MergeSequencing.MergeSequenceWithoutSilence | src/library/M4bTool/Command/MergeCommand.php:554-562 | Without silence, the merge list is exactly the finished files. |
| MergeSequencing.MergeSequenceLayout | src/library/M4bTool/Command/MergeCommand.php:554-562 | With silence s, file i sits at position 2i and s at every odd position. |
| MergeSequencing.MergeSequenceEnds | src/library/M4bTool/Command/MergeCommand.php:554-562 | The merge list starts with the first file and ends with the last, so it never starts or ends with silence. |
| MergeSequencing.MergeSequenceAppend | src/library/M4bTool/Command/MergeCommand.php:555-560 | One more file extends the list by the silence after the previous file (if any) and the file. |
| MergeSequencing.MergeSequenceExtend | src/library/M4bTool/Command/MergeCommand.php:555-560 | The loop's shape is kept: the list so far, then the silence owed to a next file. |
| TagPostPass.PrependSeriesToLongDescription | src/library/M4bTool/Command/MergeCommand.php:742-747 | The description changes exactly when the flag is set, the description is truthy and `trim(series . " " . part)` is non-empty. It then becomes that string, then `": "`, then the description without leading whitespace. Series and part never change. |
| TagPostPass.PrependedDescriptionLayout | src/library/M4bTool/Command/MergeCommand.php:743-745 | The new description is the series string, then `": "`, then the old description without its leading whitespace. |
| TagPostPass.SeriesString | src/library/M4bTool/Command/MergeCommand.php:743 | The series string starts and ends with non-whitespace (or is empty). |
| PhpStrings.StrPadLeftLayout | src/library/M4bTool/Command/MergeCommand.php:646 | `str_pad` on the left ends with the input, and everything in front of it is the pad character. |
| PhpStrings.ZeroPaddingValue | src/library/M4bTool/Command/MergeCommand.php:646 | Zero-padding a digit string to a width keeps its value. |
| PhpStrings.ValueOrderIsLexOrder | src/library/M4bTool/Command/MergeCommand.php:646 | For digit strings of one length, numeric order is byte-wise order. |
| PhpStrings.NatToStringValue | src/library/M4bTool/Command/MergeCommand.php:645-646 | The decimal string of n reads back as n. |
| PhpStrings.NatToStringLengthMonotone | src/library/M4bTool/Command/MergeCommand.php:645-646 | A smaller number never has more digits. |
| SplFile.StemAndExtensionRebuildBaseName | src/library/M4bTool/Command/MergeCommand.php:649-650 | When the base name has a dot that is not its first character, `getBasename("." . getExtension())` + "." + extension is the base name. |
| SplFile.ExtensionAfterLastDot | src/library/M4bTool/Command/MergeCommand.php:267 | A path ending in "." + ext, where ext has no dot or separator, has the extension ext. |
| Sequences.DistinctAtMostOne | src/library/M4bTool/Command/MergeCommand.php:501-508 | At most one distinct extension exactly when all entries equal the first. |
| Sequences.DistinctMembers | src/library/M4bTool/Command/MergeCommand.php:496-498 | The distinct list holds exactly the values of the list. |
| Sequences.DistinctAppend | src/library/M4bTool/Command/MergeCommand.php:496-498 | The `in_array` check: a value already seen changes nothing; a new one is appended. |
| Sequences.DistinctNoDuplicates | src/library/M4bTool/Command/MergeCommand.php:496-498 | The distinct list repeats no value. |

## Left out

- Task pool scheduling, parallelism, the progress spinner, and the conversion
  itself (ffmpeg, `ConversionTask` internals) are not modelled. The pool is the
  list of submitted tasks. The check after the pool has run reads each task's
  `destination` option, which the model fixes as the converting file the task was
  built with. Whether `ConversionTask` rewrites that option when it renames the
  file to its finished name is not part of this model. The files the conversions produce are an input: a map
  from path to size.
- Filesystem effects are not modelled: `mkdir` of the temporary directory and its
  failure, `unlink` of a stale converting file, `createSilence`, `isFile` of the
  silence file, `filesToDelete`, `deleteTemporaryFiles`, cover extraction,
  `adjustBitrateForIpod`, `ensureOutputFileIsNotEmpty`, `initExecution`.
  `ConversionCheck` models the `unlink` of an empty destination (line 615).
- `execute`, `configure`, `processFiles`, `processBatchJobs`, `loadInputFiles`,
  `loadOutputFile`, `mergeFiles`' ffmpeg call, the tag improvers and the rest of
  `tagMergedFile`, `moveFinishedOutputFile` and the chapter handling are outside
  the modelled core.
- `DirectoryLoader` is not part of this model. Its result (the candidate
  directories, already without processed ones) is a parameter.
- `FormatParser` from the strings library is not part of this model. It is a
  value holding three functions (parse, format, trimSeparatorPrefix).
- `Batch.PlaceholderValue` assumes `getPlaceHolderValue` returns "" for a
  placeholder the match left without a value. That assumption decides the
  `!== ""` test of the option mapping (line 277) and the series test of the
  output path (line 263).
- `setOptionIfUndefined` is not part of this model. "Undefined" is modelled as
  "absent from the options given on the command line".
- The cloned input's other options and the reset of the batch-pattern option are
  not modelled. A job is its directory, output file and options.
- `buildFileConverterOptions` is not part of this model. Its trim flags are a
  constant of the command, and so are the converting and finished suffixes and
  the extension-to-format mapping.
- The `--add-silence` option is modelled as a boolean (its PHP truthiness). The
  silence length is left out.
- Notices, debug output and logging are left out.
- Windows directory separators are left out: `SplFileInfo` and
  `DIRECTORY_SEPARATOR` are modelled with `/` only.
- The steps of `convertInputFiles` (the silence task and the loop over the input
  files) and the loop of `prepareMergeWithoutConversion` are methods of their own:
  `SubmitSilenceTask`, `SubmitInputFiles` (one pass of which is `SubmitInputFile`)
  and `CollectExtensions`. Likewise
  `VerifyBatchDirs`, `VerifyBatchDir`, `RecordVerifiedDir`, `BuildBatchJobs`, `BuildBatchJob` and
  `ApplyPlaceholderOptions` are the parts of `prepareBatchJobs`. The order of
  every state change is unchanged.
- `filesToConvert`, `outputFile`, `optForce` and `optAudioExtension` are
  constants of the class, since none of the modelled steps changes them.
- PHP arrays are sequences or maps. PHP's conversion of numeric-string keys is not
  modelled.
- Behaviour of the code that the model follows:
  - Files between the first and the last keep the converter's default trim flags.
  - A single input file only has its leading trim switched off, since `case 0`
    matches first.
  - The long description is prepended whenever `trim(series . " " . part)` is
    non-empty, so a part without a series is enough.
  - The title folder is added only when the series placeholder is empty.
