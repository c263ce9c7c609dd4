/**
  The per-file conversion tasks of a merge: where their temporary files go
  (createOutputTempDir), how those files are named, and which edges of each
  file have their silence trimmed (the switch in submitConversionTask).
*/
module Tasks {
  import opened PhpStrings
  import opened SplFile
  import opened Sequences

  /** The sequence index reserved for the task that converts the silence file. */
  const SilenceIndexMarker: int := -1

  /** Whether a conversion trims silence at the start and at the end of its file. */
  datatype TrimFlags = TrimFlags(trimSilenceStart: bool, trimSilenceEnd: bool)

  /** One submitted conversion: source file, file it is written to, trim flags. */
  datatype ConversionTask = ConversionTask(source: FileInfo, destination: FileInfo, trim: TrimFlags)

  /** The switch on the sequence index: the first case that matches wins, and an
      index no case matches keeps the flags the converter options came with. */
  function TrimFlagsFor(index: int, lastIndex: int, defaults: TrimFlags): TrimFlags {
    if index == 0 then defaults.(trimSilenceStart := false)
    else if index == lastIndex then defaults.(trimSilenceEnd := false)
    else if index == SilenceIndexMarker then TrimFlags(false, false)
    else defaults
  }

  /** The name of the temporary directory: the output file's name without its
      extension, or "m4b-tool" when that is empty. */
  function TempBaseName(outputFile: FileInfo): (r: string)
    ensures r != [] && '/' !in r
  {
    var basename := GetBasename(outputFile, "." + GetExtension(outputFile));
    if basename == "" then "m4b-tool" else basename
  }

  /** createOutputTempDir without the mkdir: "<dir>/<name>-tmpfiles/", where the
      directory part is left out when getPath() is falsy. */
  function OutputTempDir(outputFile: FileInfo): (dir: string)
    ensures dir != [] && dir[|dir| - 1] == DirectorySeparator
  {
    var path := GetPath(outputFile);
    var prefix := if Truthy(path) then path + [DirectorySeparator] else "";
    prefix + (TempBaseName(outputFile) + "-tmpfiles") + [DirectorySeparator]
  }

  /** Read back through SplFileInfo, the temporary directory lies in the output
      file's directory (or in none, when that is falsy) and is named
      "<name>-tmpfiles". */
  lemma OutputTempDirLocation(outputFile: FileInfo)
    ensures var dir := NewFileInfo(OutputTempDir(outputFile));
      && GetPath(dir) == (if Truthy(GetPath(outputFile)) then GetPath(outputFile) else "")
      && BaseName(dir) == TempBaseName(outputFile) + "-tmpfiles"
  {
    var path := GetPath(outputFile);
    var prefix := if Truthy(path) then path + [DirectorySeparator] else "";
    var name := TempBaseName(outputFile) + "-tmpfiles";
    assert '/' !in name;
    OutputTempDirShape(prefix, name);
  }

  /** The directory prefix + name + "/" read back through SplFileInfo. */
  lemma OutputTempDirShape(prefix: string, name: string)
    requires prefix == [] || prefix[|prefix| - 1] == '/'
    requires |name| > 1 && '/' !in name
    ensures NewFileInfo(prefix + name + ['/']) == FileInfo(prefix + name)
    ensures GetPath(NewFileInfo(prefix + name + ['/']))
         == (if prefix == [] then [] else prefix[..|prefix| - 1])
    ensures BaseName(NewFileInfo(prefix + name + ['/'])) == name
  {
    var p := prefix + name + ['/'];
    assert p[..|p| - 1] == prefix + name;
    var q := prefix + name;
    assert q[|q| - 1] == name[|name| - 1];
    assert StripTrailingSlashes(q) == q;
    assert forall j :: |prefix| <= j < |q| ==> q[j] == name[j - |prefix|];
    if prefix == [] {
      assert q == name;
    } else {
      assert q[|prefix| - 1] == '/';
    }
  }

  /** The numeric prefix of a task file: index + 1, left-padded with "0" to the
      number of digits of the file count. */
  function TaskPrefix(index: int, filesCount: nat): string {
    StrPadLeft(IntToString(index + 1), |IntToString(filesCount)|, '0')
  }

  /** "<tempDir><prefix>-<source name without extension><suffix>.<extension>" */
  function TaskFileName(tempDir: string, index: int, filesCount: nat, source: FileInfo,
                        suffix: string, extension: string): string
  {
    tempDir + TaskPrefix(index, filesCount) + "-" + Stem(source) + suffix + "." + extension
  }

  function TaskFile(tempDir: string, index: int, filesCount: nat, source: FileInfo,
                    suffix: string, extension: string): FileInfo
  {
    NewFileInfo(TaskFileName(tempDir, index, filesCount, source, suffix, extension))
  }

  /** The prefix of every task (the silence task and files 0 .. count-1) has exactly
      as many characters as the file count has digits, and reads back as index + 1. */
  lemma TaskPrefixValue(index: int, filesCount: nat)
    requires SilenceIndexMarker <= index < filesCount
    ensures var p := TaskPrefix(index, filesCount);
      |p| == |NatToString(filesCount)| && AllDigits(p) && DigitsValue(p) == index + 1
  {
    var s := NatToString(index + 1);
    assert IntToString(index + 1) == s;
    assert IntToString(filesCount) == NatToString(filesCount);
    NatToStringLengthMonotone(index + 1, filesCount);
    NatToStringValue(index + 1);
    ZeroPaddingValue(s, |NatToString(filesCount)|);
  }

  /** Sorting task files by name puts them in sequence order, the silence task first. */
  lemma TaskPrefixesSortInOrder(i: int, j: int, filesCount: nat)
    requires SilenceIndexMarker <= i < j < filesCount
    ensures LexLess(TaskPrefix(i, filesCount), TaskPrefix(j, filesCount))
  {
    TaskPrefixValue(i, filesCount);
    TaskPrefixValue(j, filesCount);
    ValueOrderIsLexOrder(TaskPrefix(i, filesCount), TaskPrefix(j, filesCount));
  }

  /** Strings that agree on a head and differ in an equally long middle part differ. */
  lemma DifferInMiddle(head: string, p: string, q: string, x: string, y: string)
    requires |p| == |q| && p != q
    ensures head + p + x != head + q + y
  {
    var u, v := head + p + x, head + q + y;
    assert u[|head|..|head| + |p|] == p;
    assert v[|head|..|head| + |q|] == q;
  }

  /** Two tasks of one merge never share a temporary file, whatever their sources
      are called (two inputs named "track.mp3" in different folders included). */
  lemma TaskFileNamesDistinct(tempDir: string, i: int, j: int, filesCount: nat,
                              a: FileInfo, b: FileInfo, suffixA: string, suffixB: string,
                              extA: string, extB: string)
    requires SilenceIndexMarker <= i < filesCount && SilenceIndexMarker <= j < filesCount
    requires i != j
    ensures TaskFileName(tempDir, i, filesCount, a, suffixA, extA)
         != TaskFileName(tempDir, j, filesCount, b, suffixB, extB)
  {
    TaskFileNameSplit(tempDir, i, filesCount, a, suffixA, extA);
    TaskFileNameSplit(tempDir, j, filesCount, b, suffixB, extB);
    TaskPrefixesDistinct(i, j, filesCount);
    DifferInMiddle(tempDir, TaskPrefix(i, filesCount), TaskPrefix(j, filesCount),
                   TaskNameRest(a, suffixA, extA), TaskNameRest(b, suffixB, extB));
  }

  /** What follows the prefix in a task file name. */
  function TaskNameRest(source: FileInfo, suffix: string, extension: string): string {
    "-" + Stem(source) + suffix + "." + extension
  }

  lemma TaskFileNameSplit(tempDir: string, index: int, filesCount: nat, source: FileInfo,
                          suffix: string, extension: string)
    ensures TaskFileName(tempDir, index, filesCount, source, suffix, extension)
         == tempDir + TaskPrefix(index, filesCount) + TaskNameRest(source, suffix, extension)
  {
    Regroup(tempDir + TaskPrefix(index, filesCount), "-", Stem(source), suffix, ".", extension);
  }

  /** Moving the parentheses of a left-nested concatenation to the right of its head. */
  lemma Regroup(h: string, a: string, b: string, c: string, d: string, e: string)
    ensures h + a + b + c + d + e == h + (a + b + c + d + e)
  {
  }

  /** Different tasks get different prefixes of one common width. */
  lemma TaskPrefixesDistinct(i: int, j: int, filesCount: nat)
    requires SilenceIndexMarker <= i < filesCount && SilenceIndexMarker <= j < filesCount
    requires i != j
    ensures |TaskPrefix(i, filesCount)| == |TaskPrefix(j, filesCount)|
    ensures TaskPrefix(i, filesCount) != TaskPrefix(j, filesCount)
  {
    TaskPrefixValue(i, filesCount);
    TaskPrefixValue(j, filesCount);
  }

  /** Everything of a task file name that comes before the suffix. */
  function TaskNameHead(tempDir: string, index: int, filesCount: nat, source: FileInfo): string {
    tempDir + TaskPrefix(index, filesCount) + "-" + Stem(source)
  }

  lemma TaskFileNameAroundSuffix(tempDir: string, index: int, filesCount: nat, source: FileInfo,
                                 suffix: string, extension: string)
    ensures TaskFileName(tempDir, index, filesCount, source, suffix, extension)
         == TaskNameHead(tempDir, index, filesCount, source) + suffix + ("." + extension)
  {
  }

  /** head + x + tail and head + y + tail share head and tail, and are equal only if x and y are. */
  lemma SwapMiddle(head: string, x: string, y: string, tail: string)
    ensures (head + x + tail)[..|head|] == head && (head + y + tail)[..|head|] == head
    ensures (head + x + tail)[|head| + |x|..] == tail && (head + y + tail)[|head| + |y|..] == tail
    ensures head + x + tail == head + y + tail <==> x == y
  {
    var u, v := head + x + tail, head + y + tail;
    if u == v {
      assert |x| == |y|;
      assert u[|head|..|head| + |x|] == x;
      assert v[|head|..|head| + |y|] == y;
    }
  }

  /** The file a task writes while converting and the file it hands on when
      finished differ in the suffix only: they share the directory, prefix and
      source name and end in the same extension, and they coincide only if the
      two suffixes do. */
  lemma ConvertingAndFinishedNames(tempDir: string, index: int, filesCount: nat,
                                   source: FileInfo, converting: string, finished: string,
                                   extension: string)
    ensures var c := TaskFileName(tempDir, index, filesCount, source, converting, extension);
      var f := TaskFileName(tempDir, index, filesCount, source, finished, extension);
      var head := TaskNameHead(tempDir, index, filesCount, source);
      && c[..|head|] == head && f[..|head|] == head
      && c[|head| + |converting|..] == "." + extension
      && f[|head| + |finished|..] == "." + extension
      && (c == f <==> converting == finished)
  {
    TaskFileNameAroundSuffix(tempDir, index, filesCount, source, converting, extension);
    TaskFileNameAroundSuffix(tempDir, index, filesCount, source, finished, extension);
    SwapMiddle(TaskNameHead(tempDir, index, filesCount, source), converting, finished, "." + extension);
  }

  /** A task prefix never holds a directory separator. */
  lemma TaskPrefixHasNoSeparator(index: int, filesCount: nat)
    ensures '/' !in TaskPrefix(index, filesCount)
  {
    var s := IntToString(index + 1);
    var p := TaskPrefix(index, filesCount);
    assert '/' !in s by {
      if index + 1 < 0 {
        assert s == "-" + NatToString(-(index + 1));
      }
    }
    assert p == s || p == Repeat('0', |p| - |s|) + s;
  }

  lemma TaskNameRestHasNoSeparator(source: FileInfo, suffix: string, extension: string)
    requires '/' !in suffix && '/' !in extension
    ensures '/' !in TaskNameRest(source, suffix, extension)
  {
  }

  /** Task files live directly in the temporary directory (which, as OutputTempDir
      ensures, ends in a separator), named
      "<prefix>-<source name without extension><suffix>.<extension>". */
  lemma TaskFileInTempDir(tempDir: string, index: int, filesCount: nat, source: FileInfo,
                          suffix: string, extension: string)
    requires tempDir != [] && tempDir[|tempDir| - 1] == DirectorySeparator
    requires '/' !in suffix && '/' !in extension
    ensures var t := TaskFile(tempDir, index, filesCount, source, suffix, extension);
      && GetPath(t) == tempDir[..|tempDir| - 1]
      && BaseName(t) == TaskPrefix(index, filesCount) + TaskNameRest(source, suffix, extension)
  {
    var p := TaskPrefix(index, filesCount);
    var r := TaskNameRest(source, suffix, extension);
    TaskPrefixHasNoSeparator(index, filesCount);
    TaskNameRestHasNoSeparator(source, suffix, extension);
    NotInConcat('/', p, r);
    TaskFileNameSplit(tempDir, index, filesCount, source, suffix, extension);
    ConcatAssoc(tempDir, p, r);
    FileInDirectory(tempDir, p + r);
  }

  /** mergeFiles writes the concatenation to "<tempDir>tmp_<output base name>". */
  function MergedTempFile(outputFile: FileInfo): FileInfo {
    NewFileInfo(OutputTempDir(outputFile) + ("tmp_" + BaseName(outputFile)))
  }

  /** The merged temporary file never takes the place of a task file. */
  lemma MergedTempFileIsNoTaskFile(outputFile: FileInfo, index: int, filesCount: nat,
                                   source: FileInfo, suffix: string, extension: string)
    requires SilenceIndexMarker <= index < filesCount
    requires '/' !in suffix && '/' !in extension
    ensures MergedTempFile(outputFile)
         != TaskFile(OutputTempDir(outputFile), index, filesCount, source, suffix, extension)
  {
    TmpNameIsNoTaskFile(OutputTempDir(outputFile), BaseName(outputFile),
                        index, filesCount, source, suffix, extension);
  }

  /** In any directory, "tmp_<name>" and a task file are different files, since a
      task file name starts with a digit. */
  lemma TmpNameIsNoTaskFile(dir: string, name: string, index: int, filesCount: nat,
                            source: FileInfo, suffix: string, extension: string)
    requires dir != [] && dir[|dir| - 1] == DirectorySeparator
    requires '/' !in name
    requires SilenceIndexMarker <= index < filesCount
    requires '/' !in suffix && '/' !in extension
    ensures NewFileInfo(dir + ("tmp_" + name))
         != TaskFile(dir, index, filesCount, source, suffix, extension)
  {
    var m := "tmp_" + name;
    NotInConcat('/', "tmp_", name);
    FileInDirectory(dir, m);
    assert BaseName(NewFileInfo(dir + m))[0] == 't';
    var p := TaskPrefix(index, filesCount);
    TaskPrefixValue(index, filesCount);
    TaskFileInTempDir(dir, index, filesCount, source, suffix, extension);
    assert BaseName(TaskFile(dir, index, filesCount, source, suffix, extension))[0] == p[0];
  }

  /** The task submitConversionTask hands to the pool: it converts file into its
      task file with the given suffix, trimming as the switch decides. */
  function TaskFor(tempDir: string, index: int, filesCount: nat, file: FileInfo, suffix: string,
                   extension: string, defaults: TrimFlags): ConversionTask
  {
    ConversionTask(file, TaskFile(tempDir, index, filesCount, file, suffix, extension),
                   TrimFlagsFor(index, filesCount - 1, defaults))
  }

  /** The silence file convertInputFiles creates in the temporary directory. */
  function SilenceBaseFile(tempDir: string): FileInfo {
    NewFileInfo(tempDir + "silence.caf")
  }

  /** Input file number i, converted, is handed on as its task file with the given suffix. */
  function FinishedFileMaker(tempDir: string, filesCount: nat, suffix: string,
                             extension: string): (nat, FileInfo) -> FileInfo
  {
    (i: nat, file: FileInfo) => TaskFile(tempDir, i, filesCount, file, suffix, extension)
  }

  /** The files the conversions hand on, in input order. */
  function FinishedFiles(tempDir: string, files: seq<FileInfo>, suffix: string,
                         extension: string): (r: seq<FileInfo>)
    ensures |r| == |files|
    ensures forall i :: 0 <= i < |files| ==>
      r[i] == TaskFile(tempDir, i, |files|, files[i], suffix, extension)
  {
    MapWithIndex(files, FinishedFileMaker(tempDir, |files|, suffix, extension))
  }

  /** Input file number i gets the task submitConversionTask builds for index i. */
  function TaskMaker(tempDir: string, filesCount: nat, suffix: string, extension: string,
                     defaults: TrimFlags): (nat, FileInfo) -> ConversionTask
  {
    (i: nat, file: FileInfo) => TaskFor(tempDir, i, filesCount, file, suffix, extension, defaults)
  }

  /** The conversion tasks submitted for the input files, in input order. */
  function FileTasks(tempDir: string, files: seq<FileInfo>, suffix: string, extension: string,
                     defaults: TrimFlags): (r: seq<ConversionTask>)
    ensures |r| == |files|
    ensures forall i :: 0 <= i < |files| ==>
      r[i] == TaskFor(tempDir, i, |files|, files[i], suffix, extension, defaults)
  {
    MapWithIndex(files, TaskMaker(tempDir, |files|, suffix, extension, defaults))
  }

  /** The trimming policy over a whole merge: the first file keeps its leading
      silence, the last keeps its trailing silence when there are at least two
      (with one file only the first case of the switch applies), the files in
      between keep the converter's defaults, and the silence task, once there is
      a file, trims neither edge. */
  lemma FileTasksTrimPolicy(tempDir: string, files: seq<FileInfo>, suffix: string,
                            extension: string, defaults: TrimFlags)
    ensures var t := FileTasks(tempDir, files, suffix, extension, defaults);
      && (|files| >= 1 ==> !t[0].trim.trimSilenceStart)
      && (|files| == 1 ==> t[0].trim.trimSilenceEnd == defaults.trimSilenceEnd)
      && (|files| >= 2 ==> t[0].trim.trimSilenceEnd == defaults.trimSilenceEnd)
      && (|files| >= 2 ==> !t[|files| - 1].trim.trimSilenceEnd
                           && t[|files| - 1].trim.trimSilenceStart == defaults.trimSilenceStart)
      && (forall i :: 0 < i < |files| - 1 ==> t[i].trim == defaults)
      && (|files| >= 1 ==> TrimFlagsFor(SilenceIndexMarker, |files| - 1, defaults) == TrimFlags(false, false))
  {
  }
}
