/**
  MergeCommand's own state and the steps of a merge that change it: the
  conversion of the input files into the temporary directory and the merge list
  built alongside (convertInputFiles, submitConversionTask), the merge without
  conversion (prepareMergeWithoutConversion) and the batch jobs of one pattern
  (prepareBatchJobs).
*/
module Command {
  import opened Wrappers
  import opened PhpStrings
  import opened SplFile
  import opened Sequences
  import opened MergeSequencing
  import opened Tasks
  import opened Batch

  lemma AppendAssoc<T>(a: seq<T>, b: seq<T>, c: seq<T>)
    ensures a + b + c == a + (b + c)
  {}

  /** The exceptions the modelled steps throw. */
  datatype MergeError =
    | CouldNotConvert(source: string, destination: string)
    | NoFilesFoundToMerge
    | MixedExtensionsWithoutForce

  /** The task pool, reduced to the tasks submitted to it, in submission order. */
  class Pool {
    var tasks: seq<ConversionTask>

    constructor()
      ensures tasks == []
    {
      tasks := [];
    }

    method Submit(task: ConversionTask)
      modifies this
      ensures tasks == old(tasks) + [task]
    {
      tasks := tasks + [task];
    }
  }

  /** A task converted successfully when its destination exists and is not empty;
      sizes maps the path of every existing file to its size in bytes. */
  predicate Converted(task: ConversionTask, sizes: map<string, nat>) {
    task.destination.pathName in sizes && sizes[task.destination.pathName] > 0
  }

  /** The check after the pool has run: the first task that did not convert raises
      "could not convert", and its empty destination (if any) is deleted. */
  function ConversionCheck(tasks: seq<ConversionTask>, sizes: map<string, nat>)
    : (r: (Outcome<MergeError>, map<string, nat>))
    ensures r.0.Pass? <==> forall i :: 0 <= i < |tasks| ==> Converted(tasks[i], sizes)
    ensures r.0.Pass? ==> r.1 == sizes
    ensures r.0.Fail? ==> exists k :: (0 <= k < |tasks| && !Converted(tasks[k], sizes)
      && (forall j :: 0 <= j < k ==> Converted(tasks[j], sizes))
      && r.0.error == CouldNotConvert(tasks[k].source.pathName, tasks[k].destination.pathName)
      && r.1 == sizes - {tasks[k].destination.pathName})
    decreases |tasks|
  {
    if tasks == [] then (Pass, sizes)
    else if !Converted(tasks[0], sizes) then
      (Fail(CouldNotConvert(tasks[0].source.pathName, tasks[0].destination.pathName)),
       sizes - {tasks[0].destination.pathName})
    else
      var r := ConversionCheck(tasks[1..], sizes);
      assert forall i :: 1 <= i < |tasks| ==> tasks[i] == tasks[1..][i - 1];
      r
  }

  /** The extension of every file, in file order. */
  function Extensions(files: seq<FileInfo>): (r: seq<string>)
    ensures |r| == |files|
  {
    seq(|files|, i requires 0 <= i < |files| => GetExtension(files[i]))
  }

  /** What the extension check of prepareMergeWithoutConversion decides: the first
      distinct extension, unless there is none or several without --force. */
  function MergeExtension(files: seq<FileInfo>, force: bool): Result<string, MergeError> {
    var extensions := Distinct(Extensions(files));
    if |extensions| == 0 then Failure(NoFilesFoundToMerge)
    else if |extensions| > 1 && !force then Failure(MixedExtensionsWithoutForce)
    else Success(extensions[0])
  }

  /** Merging without conversion goes ahead exactly when there are files and either
      --force is given or all files share one extension; the merge extension is then
      the first file's. No files fails with "no files found to merge", several
      extensions without --force with the mixed-extensions error. */
  lemma MergeExtensionDecision(files: seq<FileInfo>, force: bool)
    ensures var r := MergeExtension(files, force);
      var uniform := forall i :: 0 <= i < |files| ==> GetExtension(files[i]) == GetExtension(files[0]);
      && (r.Success? <==> files != [] && (force || uniform))
      && (r.Success? ==> r.value == GetExtension(files[0]))
      && (files == [] ==> r == Failure(NoFilesFoundToMerge))
      && (files != [] && !force && !uniform ==> r == Failure(MixedExtensionsWithoutForce))
  {
    var e := Extensions(files);
    var d := Distinct(e);
    DistinctAtMostOne(e);
    if files == [] {
      assert d == [];
    } else {
      assert d[0] == e[0] == GetExtension(files[0]);
      assert |d| <= 1 <==> forall i :: 0 <= i < |files| ==> GetExtension(files[i]) == GetExtension(files[0]) by {
        assert forall i :: 0 <= i < |files| ==> e[i] == GetExtension(files[i]);
      }
    }
  }

  /** The command's state, with the constants and converter defaults it is given. */
  class MergeCommand {
    const filesToConvert: seq<FileInfo>
    var filesToMerge: seq<FileInfo>
    var alreadyProcessedBatchDirs: seq<string>
    var silenceBetweenFile: Option<FileInfo>
    const outputFile: FileInfo
    const optForce: bool
    const optAudioExtension: string
    var optAudioFormat: string

    /** The trim flags buildFileConverterOptions starts every conversion with. */
    const defaultTrim: TrimFlags
    /** ConversionTask::CONVERTING_SUFFIX and ConversionTask::FINISHED_SUFFIX. */
    const convertingSuffix: string
    const finishedSuffix: string
    /** AUDIO_EXTENSION_FORMAT_MAPPING */
    const audioExtensionFormats: map<string, string>

    constructor(filesToConvert: seq<FileInfo>, outputFile: FileInfo, optForce: bool,
                optAudioExtension: string, optAudioFormat: string, defaultTrim: TrimFlags,
                convertingSuffix: string, finishedSuffix: string,
                audioExtensionFormats: map<string, string>)
      ensures this.filesToConvert == filesToConvert && this.outputFile == outputFile
      ensures this.optForce == optForce && this.optAudioExtension == optAudioExtension
      ensures this.optAudioFormat == optAudioFormat && this.defaultTrim == defaultTrim
      ensures this.convertingSuffix == convertingSuffix && this.finishedSuffix == finishedSuffix
      ensures this.audioExtensionFormats == audioExtensionFormats
      ensures filesToMerge == [] && alreadyProcessedBatchDirs == [] && silenceBetweenFile == None
    {
      this.filesToConvert := filesToConvert;
      this.outputFile := outputFile;
      this.optForce := optForce;
      this.optAudioExtension := optAudioExtension;
      this.optAudioFormat := optAudioFormat;
      this.defaultTrim := defaultTrim;
      this.convertingSuffix := convertingSuffix;
      this.finishedSuffix := finishedSuffix;
      this.audioExtensionFormats := audioExtensionFormats;
      filesToMerge := [];
      alreadyProcessedBatchDirs := [];
      silenceBetweenFile := None;
    }

    /** submitConversionTask: submits the conversion of file into its "converting"
        task file and returns the "finished" task file it will be renamed to. */
    method SubmitConversionTask(tempDir: string, index: int, file: FileInfo, pool: Pool)
      returns (finished: FileInfo)
      modifies pool
      ensures pool.tasks == old(pool.tasks) + [TaskFor(tempDir, index, |filesToConvert|, file,
                                                       convertingSuffix, optAudioExtension, defaultTrim)]
      ensures finished == TaskFile(tempDir, index, |filesToConvert|, file, finishedSuffix, optAudioExtension)
    {
      var filesCount := |filesToConvert|;
      var outputFile := TaskFile(tempDir, index, filesCount, file, convertingSuffix, optAudioExtension);
      finished := TaskFile(tempDir, index, filesCount, file, finishedSuffix, optAudioExtension);
      var trim := TrimFlagsFor(index, filesCount - 1, defaultTrim);
      pool.Submit(ConversionTask(file, outputFile, trim));
    }

    /** The loop over the pool's tasks after they have run. */
    method CheckConvertedFiles(tasks: seq<ConversionTask>, sizes: map<string, nat>)
      returns (outcome: Outcome<MergeError>, sizesAfter: map<string, nat>)
      ensures (outcome, sizesAfter) == ConversionCheck(tasks, sizes)
    {
      var i := 0;
      while i < |tasks|
        invariant 0 <= i <= |tasks|
        invariant ConversionCheck(tasks, sizes) == ConversionCheck(tasks[i..], sizes)
      {
        var task := tasks[i];
        var destination := task.destination.pathName;
        if destination !in sizes {
          return Fail(CouldNotConvert(task.source.pathName, destination)), sizes - {destination};
        }
        if sizes[destination] == 0 {
          return Fail(CouldNotConvert(task.source.pathName, destination)), sizes - {destination};
        }
        assert tasks[i..][1..] == tasks[i + 1..];
        i := i + 1;
      }
      return Pass, sizes;
    }

    /** convertInputFiles without the cover, the bitrate adjustment and the pool's run:
        names the temporary directory, submits the silence task (when silence is
        added), submits one task per input file while building the merge list, and
        checks the files the pool produced, given as sizesAfterConversion. */
    method ConvertInputFiles(addSilence: bool, sizesAfterConversion: map<string, nat>)
      returns (pool: Pool, outcome: Outcome<MergeError>, sizesAfter: map<string, nat>)
      modifies this`filesToMerge, this`silenceBetweenFile
      ensures fresh(pool)
      ensures silenceBetweenFile == SilenceFile(addSilence, OutputTempDir(outputFile))
      ensures pool.tasks
           == SilenceTasks(addSilence, OutputTempDir(outputFile))
              + FileTasks(OutputTempDir(outputFile), filesToConvert, convertingSuffix, optAudioExtension,
                          defaultTrim)
      ensures filesToMerge
           == old(filesToMerge)
              + MergeSequence(FinishedFiles(OutputTempDir(outputFile), filesToConvert, finishedSuffix,
                                            optAudioExtension),
                              silenceBetweenFile)
      ensures (outcome, sizesAfter) == ConversionCheck(pool.tasks, sizesAfterConversion)
    {
      var tempDir := OutputTempDir(outputFile);
      pool := new Pool();
      ghost var merged := filesToMerge;
      SubmitSilenceTask(addSilence, tempDir, pool);
      assert [] + SilenceTasks(addSilence, tempDir) == SilenceTasks(addSilence, tempDir);
      assert filesToMerge == merged;
      ghost var silence := silenceBetweenFile;
      SubmitInputFiles(tempDir, pool);
      assert silenceBetweenFile == silence;
      outcome, sizesAfter := CheckConvertedFiles(pool.tasks, sizesAfterConversion);
    }

    /** The file put between neighbours in the merge list: the silence task's
        finished file when silence is added, none otherwise. */
    function SilenceFile(addSilence: bool, tempDir: string): (r: Option<FileInfo>)
      ensures r.Some? <==> addSilence
    {
      if addSilence then
        Some(TaskFile(tempDir, SilenceIndexMarker, |filesToConvert|, SilenceBaseFile(tempDir),
                      finishedSuffix, optAudioExtension))
      else None
    }

    /** The task submitted before the input files: the silence conversion when
        silence is added, nothing otherwise. */
    function SilenceTasks(addSilence: bool, tempDir: string): (r: seq<ConversionTask>)
      ensures |r| == (if addSilence then 1 else 0)
    {
      if addSilence then
        [TaskFor(tempDir, SilenceIndexMarker, |filesToConvert|, SilenceBaseFile(tempDir),
                 convertingSuffix, optAudioExtension, defaultTrim)]
      else []
    }

    /** The first step of convertInputFiles: with --add-silence, the silence file is
        submitted first, under the silence index, and becomes the file put between
        neighbours in the merge list; without it there is none. */
    method SubmitSilenceTask(addSilence: bool, tempDir: string, pool: Pool)
      modifies this`silenceBetweenFile, pool
      ensures silenceBetweenFile == SilenceFile(addSilence, tempDir)
      ensures pool.tasks == old(pool.tasks) + SilenceTasks(addSilence, tempDir)
    {
      silenceBetweenFile := None;
      if addSilence {
        var silence := SubmitConversionTask(tempDir, SilenceIndexMarker, SilenceBaseFile(tempDir), pool);
        silenceBetweenFile := Some(silence);
      } else {
        assert pool.tasks == old(pool.tasks) + [];
      }
    }

    /** The loop of convertInputFiles: submits every input file in order and appends
        its finished file to the merge list, followed by the silence file when there
        is one and the file is not the last. */
    method SubmitInputFiles(tempDir: string, pool: Pool)
      modifies this`filesToMerge, pool
      ensures pool.tasks
           == old(pool.tasks)
              + FileTasks(tempDir, filesToConvert, convertingSuffix, optAudioExtension, defaultTrim)
      ensures filesToMerge
           == old(filesToMerge)
              + MergeSequence(FinishedFiles(tempDir, filesToConvert, finishedSuffix, optAudioExtension),
                              silenceBetweenFile)
    {
      var files := filesToConvert;
      var silence := silenceBetweenFile;
      ghost var submitted := pool.tasks;
      ghost var merged := filesToMerge;
      ghost var makeTask := TaskMaker(tempDir, |files|, convertingSuffix, optAudioExtension, defaultTrim);
      ghost var makeFinished := FinishedFileMaker(tempDir, |files|, finishedSuffix, optAudioExtension);
      var lastIndex := |files| - 1;
      var index := 0;
      while index < |files|
        invariant 0 <= index <= |files|
        invariant pool.tasks == submitted + MapWithIndex(files[..index], makeTask)
        invariant filesToMerge
               == merged + (MergeSequence(MapWithIndex(files[..index], makeFinished), silence)
                            + (if 0 < index < |files| then Gap(silence) else []))
      {
        ghost var tasksDone := MapWithIndex(files[..index], makeTask);
        ghost var finishedDone := MapWithIndex(files[..index], makeFinished);
        SubmitInputFile(tempDir, index, pool);
        MapWithIndexStep(files, makeTask, index);
        AppendAssoc(submitted, tasksDone, [makeTask(index, files[index])]);
        MapWithIndexStep(files, makeFinished, index);
        MergeSequenceExtend(merged, finishedDone, makeFinished(index, files[index]), silence, index != lastIndex);
        index := index + 1;
      }
      assert files[..index] == files;
    }

    /** One pass of convertInputFiles' loop: submits input file number index and
        appends its finished file to the merge list, followed by the silence file
        when there is one and the file is not the last. */
    method SubmitInputFile(tempDir: string, index: nat, pool: Pool)
      requires index < |filesToConvert|
      modifies this`filesToMerge, pool
      ensures pool.tasks
           == old(pool.tasks) + [TaskFor(tempDir, index, |filesToConvert|, filesToConvert[index],
                                         convertingSuffix, optAudioExtension, defaultTrim)]
      ensures filesToMerge
           == old(filesToMerge)
              + [TaskFile(tempDir, index, |filesToConvert|, filesToConvert[index], finishedSuffix,
                          optAudioExtension)]
              + (if silenceBetweenFile.Some? && index != |filesToConvert| - 1
                 then [silenceBetweenFile.value] else [])
    {
      var finished := SubmitConversionTask(tempDir, index, filesToConvert[index], pool);
      filesToMerge := filesToMerge + [finished];
      if silenceBetweenFile.Some? && index != |filesToConvert| - 1 {
        filesToMerge := filesToMerge + [silenceBetweenFile.value];
      }
    }

    /** prepareMergeWithoutConversion without the cover extraction: merges the input
        files as they are, after checking their extensions, and takes the audio
        format from the merge extension when the mapping knows it. */
    method PrepareMergeWithoutConversion() returns (outcome: Outcome<MergeError>)
      modifies this`filesToMerge, this`optAudioFormat
      ensures filesToMerge == filesToConvert
      ensures var r := MergeExtension(filesToConvert, optForce);
        && outcome == (if r.Success? then Pass else Fail(r.error))
        && optAudioFormat == (if r.Success? && r.value in audioExtensionFormats
                              then audioExtensionFormats[r.value] else old(optAudioFormat))
    {
      filesToMerge := filesToConvert;
      var extensions := CollectExtensions(filesToMerge);
      if |extensions| == 0 {
        return Fail(NoFilesFoundToMerge);
      }
      if |extensions| > 1 && !optForce {
        return Fail(MixedExtensionsWithoutForce);
      }
      var mergeExtension := extensions[0];
      if mergeExtension in audioExtensionFormats {
        optAudioFormat := audioExtensionFormats[mergeExtension];
      }
      return Pass;
    }

    /** prepareBatchJobs for one pattern, given the directories the loader found:
        records every matched directory as processed, and returns one job per
        matched directory (none on a dry run). */
    method PrepareBatchJobs(currentBatchDirs: seq<string>, batchPattern: string,
                            outputOption: string, explicit: map<TagOption, string>,
                            dryRun: bool, parser: FormatParser)
      returns (batchJobs: seq<BatchJob>)
      modifies this`alreadyProcessedBatchDirs
      ensures alreadyProcessedBatchDirs
           == old(alreadyProcessedBatchDirs) + MatchedDirs(parser, batchPattern, currentBatchDirs)
      ensures batchJobs == (if dryRun then [] else
        BatchJobsFor(parser, batchPattern, outputOption, explicit,
                     Distinct(MatchedDirs(parser, batchPattern, currentBatchDirs))))
    {
      var verifiedDirs, verified := VerifyBatchDirs(currentBatchDirs, batchPattern, parser);
      batchJobs := BuildBatchJobs(verifiedDirs, verified, batchPattern, outputOption, explicit,
                                  dryRun, parser);
    }

    /** The first loop of prepareBatchJobs: every directory the pattern matches is
        recorded as processed, and keyed by its path with the values of its match
        (a directory loaded twice keeps the place of its first match). */
    method VerifyBatchDirs(currentBatchDirs: seq<string>, batchPattern: string, parser: FormatParser)
      returns (verifiedDirs: seq<string>, verified: map<string, map<char, string>>)
      modifies this`alreadyProcessedBatchDirs
      ensures alreadyProcessedBatchDirs
           == old(alreadyProcessedBatchDirs) + MatchedDirs(parser, batchPattern, currentBatchDirs)
      ensures verifiedDirs == Distinct(MatchedDirs(parser, batchPattern, currentBatchDirs))
      ensures verified == MatchTable(parser, batchPattern, verifiedDirs)
    {
      ghost var processed := alreadyProcessedBatchDirs;
      ghost var matched: seq<string> := [];
      var normalizedBatchPattern := NormalizeDirectory(batchPattern);
      verifiedDirs, verified := [], map[];
      var i := 0;
      assert processed + [] == processed;
      while i < |currentBatchDirs|
        invariant 0 <= i <= |currentBatchDirs|
        invariant matched == MatchedDirs(parser, batchPattern, currentBatchDirs[..i])
        invariant alreadyProcessedBatchDirs == processed + matched
        invariant verifiedDirs == Distinct(matched)
        invariant verified == MatchTable(parser, batchPattern, verifiedDirs)
      {
        var baseDir := currentBatchDirs[i];
        MatchedDirsStep(parser, batchPattern, currentBatchDirs, i);
        DistinctAppend(matched, baseDir);
        DistinctMembers(matched, baseDir);
        AppendAssoc(processed, matched, [baseDir]);
        verifiedDirs, verified := VerifyBatchDir(baseDir, normalizedBatchPattern, verifiedDirs, verified,
                                                 batchPattern, parser);
        if Matches(parser, batchPattern, baseDir) {
          matched := matched + [baseDir];
        }
        i := i + 1;
      }
      assert currentBatchDirs[..i] == currentBatchDirs;
    }

    /** One pass of the first loop of prepareBatchJobs: a directory the pattern
        matches is recorded as processed and entered into verifiedDirectories; any
        other directory changes nothing. */
    method VerifyBatchDir(baseDir: string, normalizedBatchPattern: string,
                          verifiedDirs: seq<string>, verified: map<string, map<char, string>>,
                          ghost batchPattern: string, parser: FormatParser)
      returns (newDirs: seq<string>, newVerified: map<string, map<char, string>>)
      requires normalizedBatchPattern == NormalizeDirectory(batchPattern)
      requires verified == MatchTable(parser, batchPattern, verifiedDirs)
      modifies this`alreadyProcessedBatchDirs
      ensures alreadyProcessedBatchDirs
           == old(alreadyProcessedBatchDirs)
              + (if Matches(parser, batchPattern, baseDir) then [baseDir] else [])
      ensures newDirs
           == if Matches(parser, batchPattern, baseDir) && baseDir !in verifiedDirs
              then verifiedDirs + [baseDir] else verifiedDirs
      ensures newVerified == MatchTable(parser, batchPattern, newDirs)
    {
      newDirs, newVerified := verifiedDirs, verified;
      var parsed := parser.parseFormat(normalizedBatchPattern, NormalizeDirectory(baseDir));
      if parsed.Some? {
        newDirs, newVerified := RecordVerifiedDir(verifiedDirs, verified, baseDir, parsed.value,
                                                  parser, batchPattern);
        alreadyProcessedBatchDirs := alreadyProcessedBatchDirs + [baseDir];
      }
    }
  }

  /** One matched directory entered into verifiedDirectories: a new key goes last,
      a known key keeps its place, and either way it maps to the values of its match. */
  method RecordVerifiedDir(verifiedDirs: seq<string>, verified: map<string, map<char, string>>,
                           baseDir: string, values: map<char, string>,
                           ghost parser: FormatParser, ghost batchPattern: string)
    returns (newDirs: seq<string>, newVerified: map<string, map<char, string>>)
    requires verified == MatchTable(parser, batchPattern, verifiedDirs)
    requires values == MatchValues(parser, batchPattern, baseDir)
    ensures newDirs == if baseDir in verifiedDirs then verifiedDirs else verifiedDirs + [baseDir]
    ensures newVerified == MatchTable(parser, batchPattern, newDirs)
  {
    newDirs := verifiedDirs;
    if baseDir !in verified {
      MatchTableAppend(parser, batchPattern, verifiedDirs, baseDir);
      newDirs := verifiedDirs + [baseDir];
    }
    newVerified := verified[baseDir := values];
  }

  /** The extension check's loop: each extension once, in the order of the files. */
  method CollectExtensions(files: seq<FileInfo>) returns (extensions: seq<string>)
    ensures extensions == Distinct(Extensions(files))
  {
    ghost var all := Extensions(files);
    extensions := [];
    var i := 0;
    while i < |files|
      invariant 0 <= i <= |files|
      invariant extensions == Distinct(all[..i])
    {
      var extension := GetExtension(files[i]);
      assert all[..i + 1][..i] == all[..i] && all[..i + 1][i] == extension;
      if extension !in extensions {
        extensions := extensions + [extension];
      }
      i := i + 1;
    }
    assert all[..i] == all;
  }

  /** The second loop of prepareBatchJobs: for each verified directory, in order, the
      output file and the options of its job; a dry run skips every job. */
  method BuildBatchJobs(verifiedDirs: seq<string>, verified: map<string, map<char, string>>,
                        batchPattern: string, outputOption: string,
                        explicit: map<TagOption, string>, dryRun: bool, parser: FormatParser)
    returns (batchJobs: seq<BatchJob>)
    requires verified == MatchTable(parser, batchPattern, verifiedDirs)
    ensures batchJobs == (if dryRun then [] else
      BatchJobsFor(parser, batchPattern, outputOption, explicit, verifiedDirs))
  {
    var outputDir := NewFileInfo(outputOption).pathName;
    batchJobs := [];
    var j := 0;
    while j < |verifiedDirs|
      invariant 0 <= j <= |verifiedDirs|
      invariant batchJobs == (if dryRun then [] else
        BatchJobsFor(parser, batchPattern, outputOption, explicit, verifiedDirs[..j]))
    {
      var baseDir := verifiedDirs[j];
      var job := BuildBatchJob(baseDir, verified[baseDir], batchPattern, outputDir, explicit, parser);
      assert job == BatchJobFor(parser, batchPattern, outputOption, explicit, baseDir);
      MapStep(verifiedDirs, JobMaker(parser, batchPattern, outputOption, explicit), j);
      j := j + 1;
      if dryRun {
        continue;
      }
      batchJobs := batchJobs + [job];
    }
    assert verifiedDirs[..j] == verifiedDirs;
  }

  /** One pass of the second loop of prepareBatchJobs: the output file and the
      options of the job for a directory whose match gave these values. */
  method BuildBatchJob(baseDir: string, values: map<char, string>, batchPattern: string,
                       outputDir: string, explicit: map<TagOption, string>, parser: FormatParser)
    returns (job: BatchJob)
    ensures job.inputDir == baseDir
    ensures job.outputFile
         == BatchOutputPath(outputDir, parser.format(values, parser.trimSeparatorPrefix(values, batchPattern)),
                            parser.format(values, "%n"), parser.format(values, "%m"),
                            PlaceholderValue(values, Placeholder(Series)))
    ensures job.options == DerivedOptions(explicit, values, PlaceholderOptions)
  {
    var trimmedBatchPattern := parser.trimSeparatorPrefix(values, batchPattern);
    var batchOutputFile := BatchOutputPath(outputDir, parser.format(values, trimmedBatchPattern),
                                           parser.format(values, "%n"), parser.format(values, "%m"),
                                           PlaceholderValue(values, Placeholder(Series)));
    var options := ApplyPlaceholderOptions(explicit, values, PlaceholderOptions);
    job := BatchJob(baseDir, batchOutputFile, options);
  }

  /** The loop of prepareBatchJobs over the option-to-placeholder mapping: every
      option whose placeholder has a non-empty value is set on the job's options
      unless it is already defined there. */
  method ApplyPlaceholderOptions(explicit: map<TagOption, string>, values: map<char, string>,
                                 mapping: seq<TagOption>)
    returns (options: map<TagOption, string>)
    ensures options == DerivedOptions(explicit, values, mapping)
  {
    options := explicit;
    var i := 0;
    while i < |mapping|
      invariant 0 <= i <= |mapping|
      invariant options == DerivedOptions(explicit, values, mapping[..i])
    {
      var option := mapping[i];
      var value := PlaceholderValue(values, Placeholder(option));
      DerivedOptionsStep(explicit, values, mapping, i);
      if value != "" && option !in options {
        options := options[option := value];
      }
      i := i + 1;
    }
  }
}
