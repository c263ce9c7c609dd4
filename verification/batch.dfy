/**
  Batch mode: directory names brought into one form (normalizeDirectory), the
  tag options a batch pattern's placeholders stand for, the options a matched
  directory's placeholder values fill in (setOptionIfUndefined), and the
  output file a batch job writes.
*/
module Batch {
  import opened Wrappers
  import opened PhpStrings
  import opened SplFile
  import opened Sequences

  /** normalizeDirectory: every backslash becomes '/', then trailing '/' are cut off. */
  function NormalizeDirectory(d: string): string {
    TrimRight(ReplaceChar(d, '\\', '/'), {'/'})
  }

  /** The normal form has no backslash and no trailing '/'; it is the directory with
      every backslash turned into '/', minus a tail made only of separators. */
  lemma NormalizeDirectoryShape(d: string)
    ensures var r := NormalizeDirectory(d);
      && '\\' !in r
      && (r == [] || r[|r| - 1] != '/')
      && |r| <= |d|
      && (forall i :: 0 <= i < |r| ==> r[i] == (if d[i] == '\\' then '/' else d[i]))
      && (forall i :: |r| <= i < |d| ==> d[i] == '/' || d[i] == '\\')
  {
    var u := ReplaceChar(d, '\\', '/');
    var r := TrimRight(u, {'/'});
    forall i | |r| <= i < |d| ensures d[i] == '/' || d[i] == '\\' {
      assert u[i] == u[|r|..][i - |r|];
    }
  }

  /** A string without backslashes and without a trailing '/' is its own normal form. */
  lemma {:induction false} NormalFormIsFixed(d: string)
    requires '\\' !in d
    requires d == [] || d[|d| - 1] != '/'
    ensures NormalizeDirectory(d) == d
  {
    var u := ReplaceChar(d, '\\', '/');
    assert forall i :: 0 <= i < |d| ==> u[i] == d[i];
    assert u == d;
  }

  /** Normalising twice gives what normalising once gives. */
  lemma NormalizeDirectoryIdempotent(d: string)
    ensures NormalizeDirectory(NormalizeDirectory(d)) == NormalizeDirectory(d)
  {
    NormalizeDirectoryShape(d);
    NormalFormIsFixed(NormalizeDirectory(d));
  }

  /** A trailing separator of either kind makes no difference. */
  lemma NormalizeDirectoryIgnoresTrailingSeparator(d: string, c: char)
    requires c == '/' || c == '\\'
    ensures NormalizeDirectory(d + [c]) == NormalizeDirectory(d)
  {
    var u := ReplaceChar(d, '\\', '/');
    var v := ReplaceChar(d + [c], '\\', '/');
    assert v == u + ['/'];
    assert v[..|v| - 1] == u;
  }

  /** The tag options batch mode can fill from a pattern (MAPPING_OPTIONS_PLACEHOLDERS). */
  datatype TagOption =
    | Name | SortName | Album | SortAlbum | Artist | SortArtist | Genre | Writer
    | AlbumArtist | Year | Description | LongDescription | Comment | Copyright
    | EncodedBy | Series | SeriesPart

  /** The placeholder letter that stands for an option in a batch pattern. */
  function Placeholder(o: TagOption): char {
    match o
    case Name => 'n'
    case SortName => 'N'
    case Album => 'm'
    case SortAlbum => 'M'
    case Artist => 'a'
    case SortArtist => 'A'
    case Genre => 'g'
    case Writer => 'w'
    case AlbumArtist => 't'
    case Year => 'y'
    case Description => 'd'
    case LongDescription => 'D'
    case Comment => 'c'
    case Copyright => 'C'
    case EncodedBy => 'e'
    case Series => 's'
    case SeriesPart => 'p'
  }

  /** The options in the order the mapping lists them. */
  const PlaceholderOptions: seq<TagOption> :=
    [Name, SortName, Album, SortAlbum, Artist, SortArtist, Genre, Writer, AlbumArtist,
     Year, Description, LongDescription, Comment, Copyright, EncodedBy, Series, SeriesPart]

  /** FormatParser from the Sandreas strings library, whose code is not part of this
      model: parsing a pattern against a directory yields the placeholder values when
      the directory matches; format and trimSeparatorPrefix work from those values. */
  datatype FormatParser = FormatParser(
    parseFormat: (string, string) -> Option<map<char, string>>,
    format: (map<char, string>, string) -> string,
    trimSeparatorPrefix: (map<char, string>, string) -> string)

  /** getPlaceHolderValue: "" for a placeholder the match left without value. */
  function PlaceholderValue(values: map<char, string>, p: char): (v: string)
    ensures p in values ==> v == values[p]
    ensures p !in values ==> v == ""
  {
    if p in values then values[p] else ""
  }

  /** Whether a directory matches the batch pattern, both normalised. */
  predicate Matches(parser: FormatParser, batchPattern: string, dir: string) {
    parser.parseFormat(NormalizeDirectory(batchPattern), NormalizeDirectory(dir)).Some?
  }

  /** The placeholder values the match of a directory yields. */
  function MatchValues(parser: FormatParser, batchPattern: string, dir: string): map<char, string> {
    match parser.parseFormat(NormalizeDirectory(batchPattern), NormalizeDirectory(dir))
    case Some(values) => values
    case None => map[]
  }

  /** The candidate directories that match the pattern, in load order. */
  function MatchedDirs(parser: FormatParser, batchPattern: string, dirs: seq<string>): (r: seq<string>)
    ensures |r| <= |dirs|
  {
    if dirs == [] then []
    else
      var r := MatchedDirs(parser, batchPattern, dirs[..|dirs| - 1]);
      if Matches(parser, batchPattern, dirs[|dirs| - 1]) then r + [dirs[|dirs| - 1]] else r
  }

  /** A directory is among the matched ones exactly when it is a candidate the
      pattern matches. */
  lemma {:induction false} MatchedDirsMembers(parser: FormatParser, batchPattern: string,
                                              dirs: seq<string>, x: string)
    ensures x in MatchedDirs(parser, batchPattern, dirs) <==> x in dirs && Matches(parser, batchPattern, x)
  {
    if dirs != [] {
      var p := dirs[..|dirs| - 1];
      MatchedDirsMembers(parser, batchPattern, p, x);
      assert dirs == p + [dirs[|dirs| - 1]];
    }
  }

  /** The values of each directory's match, keyed by directory. */
  function MatchTable(parser: FormatParser, batchPattern: string, dirs: seq<string>)
    : map<string, map<char, string>>
  {
    map d | d in dirs :: MatchValues(parser, batchPattern, d)
  }

  /** Keying one more directory adds its match values. */
  lemma MatchTableAppend(parser: FormatParser, batchPattern: string, dirs: seq<string>, x: string)
    ensures MatchTable(parser, batchPattern, dirs + [x])
         == MatchTable(parser, batchPattern, dirs)[x := MatchValues(parser, batchPattern, x)]
  {
    var l := MatchTable(parser, batchPattern, dirs + [x]);
    var r := MatchTable(parser, batchPattern, dirs)[x := MatchValues(parser, batchPattern, x)];
    assert forall d :: d in l <==> d in r;
  }

  /** Looking at one more candidate appends it exactly when it matches. */
  lemma MatchedDirsStep(parser: FormatParser, batchPattern: string, dirs: seq<string>, k: nat)
    requires k < |dirs|
    ensures MatchedDirs(parser, batchPattern, dirs[..k + 1])
         == MatchedDirs(parser, batchPattern, dirs[..k])
            + (if Matches(parser, batchPattern, dirs[k]) then [dirs[k]] else [])
  {
    assert dirs[..k + 1][..k] == dirs[..k];
  }

  /** Matched directories that were not yet processed, recorded after the processed
      ones, leave the record free of repeats: a directory is merged at most once
      over all batch patterns. */
  lemma {:induction false} ProcessedDirsStayDistinct(processed: seq<string>, parser: FormatParser,
                                                     batchPattern: string, candidates: seq<string>)
    requires NoDuplicates(processed) && NoDuplicates(candidates)
    requires forall i :: 0 <= i < |candidates| ==> candidates[i] !in processed
    ensures NoDuplicates(processed + MatchedDirs(parser, batchPattern, candidates))
  {
    if candidates != [] {
      var p := candidates[..|candidates| - 1];
      var d := candidates[|candidates| - 1];
      assert forall i :: 0 <= i < |p| ==> p[i] == candidates[i];
      ProcessedDirsStayDistinct(processed, parser, batchPattern, p);
      var m := MatchedDirs(parser, batchPattern, p);
      if Matches(parser, batchPattern, d) {
        MatchedDirsMembers(parser, batchPattern, p, d);
        assert d !in p;
        var q := processed + m;
        assert processed + (m + [d]) == q + [d];
        assert d !in q;
      }
    }
  }

  /** The options a job runs with: every option given on the command line keeps its
      value, and every other option of the mapping whose placeholder matched a
      non-empty value takes that value. */
  function DerivedOptions(explicit: map<TagOption, string>, values: map<char, string>,
                          options: seq<TagOption>): (r: map<TagOption, string>)
    ensures forall o :: o in r <==>
      o in explicit || (o in options && PlaceholderValue(values, Placeholder(o)) != "")
    ensures forall o :: o in explicit ==> r[o] == explicit[o]
    ensures forall o :: o in r && o !in explicit ==> r[o] == PlaceholderValue(values, Placeholder(o))
  {
    var mapped := set i | 0 <= i < |options| :: options[i];
    map o | o in explicit.Keys + mapped
          && (o in explicit || PlaceholderValue(values, Placeholder(o)) != "")
      :: if o in explicit then explicit[o] else PlaceholderValue(values, Placeholder(o))
  }

  /** Looking at one more option of the mapping: it is set when its placeholder has
      a value and it is not defined yet, otherwise nothing changes. */
  lemma DerivedOptionsStep(explicit: map<TagOption, string>, values: map<char, string>,
                           options: seq<TagOption>, k: nat)
    requires k < |options|
    ensures var before := DerivedOptions(explicit, values, options[..k]);
      var o, value := options[k], PlaceholderValue(values, Placeholder(options[k]));
      DerivedOptions(explicit, values, options[..k + 1])
        == if value != "" && o !in before then before[o := value] else before
  {
    var before := DerivedOptions(explicit, values, options[..k]);
    var o, value := options[k], PlaceholderValue(values, Placeholder(options[k]));
    var after := DerivedOptions(explicit, values, options[..k + 1]);
    var expected := if value != "" && o !in before then before[o := value] else before;
    assert options[..k + 1] == options[..k] + [o];
    forall p ensures p in after <==> p in expected {
      assert p in options[..k + 1] <==> p in options[..k] || p == o;
    }
  }

  /** The output file of a batch job:
      "<output dir>/<formatted pattern without trailing separators>[/<title or album>].m4b",
      where the last folder is added when a title or album is known and the series
      placeholder is empty. */
  function BatchOutputPath(outputDir: string, formatted: string, title: string, album: string,
                           series: string): (r: string)
    ensures |r| >= |outputDir| + 5
    ensures r[..|outputDir| + 1] == outputDir + "/"
    ensures r[|r| - 4..] == ".m4b"
  {
    var dir := outputDir + "/" + TrimRight(formatted, {'\\', '/'});
    var name := if Truthy(title) then title else album;
    var base := if Truthy(name) && !Truthy(series) then dir + "/" + name else dir;
    assert base[..|outputDir| + 1] == dir[..|outputDir| + 1];
    base + ".m4b"
  }

  /** Every batch job writes an .m4b file. */
  lemma BatchOutputIsM4b(outputDir: string, formatted: string, title: string, album: string,
                         series: string)
    ensures GetExtension(NewFileInfo(BatchOutputPath(outputDir, formatted, title, album, series))) == "m4b"
  {
    var r := BatchOutputPath(outputDir, formatted, title, album, series);
    var prefix := r[..|r| - 4];
    assert r == prefix + ("." + "m4b");
    ExtensionAfterLastDot(prefix, "m4b");
  }

  /** When the series placeholder is empty and a title (or, failing that, an album)
      without separators is known, the job's file is "<title>.m4b", placed in the
      folder the formatted pattern names. */
  lemma BatchOutputNamedAfterTitle(outputDir: string, formatted: string, title: string,
                                   album: string, series: string)
    requires !Truthy(series)
    requires var name := if Truthy(title) then title else album;
      Truthy(name) && '/' !in name
    ensures var name := if Truthy(title) then title else album;
      var f := NewFileInfo(BatchOutputPath(outputDir, formatted, title, album, series));
      && BaseName(f) == name + ".m4b"
      && GetPath(f) == outputDir + "/" + TrimRight(formatted, {'\\', '/'})
  {
    var name := if Truthy(title) then title else album;
    var folder := outputDir + "/" + TrimRight(formatted, {'\\', '/'});
    NotInConcat('/', name, ".m4b");
    ConcatAssoc(folder + "/", name, ".m4b");
    FileInDirectory(folder + "/", name + ".m4b");
    assert (folder + "/")[..|folder|] == folder;
  }

  /** When the series placeholder has a value, or neither a title nor an album is
      known, no folder is added: the file is named after the formatted pattern. */
  lemma BatchOutputWithoutTitleFolder(outputDir: string, formatted: string, title: string,
                                      album: string, series: string)
    requires Truthy(series) || (!Truthy(title) && !Truthy(album))
    ensures BatchOutputPath(outputDir, formatted, title, album, series)
         == outputDir + "/" + TrimRight(formatted, {'\\', '/'}) + ".m4b"
  {
  }

  /** A batch job: the directory to merge, the file to write and the tag options. */
  datatype BatchJob = BatchJob(inputDir: string, outputFile: string, options: map<TagOption, string>)

  /** The job prepareBatchJobs builds for one matched directory. */
  function BatchJobFor(parser: FormatParser, batchPattern: string, outputOption: string,
                       explicit: map<TagOption, string>, dir: string): (job: BatchJob)
    ensures job.inputDir == dir
    ensures forall o :: o in explicit ==> o in job.options && job.options[o] == explicit[o]
  {
    var values := MatchValues(parser, batchPattern, dir);
    var formatted := parser.format(values, parser.trimSeparatorPrefix(values, batchPattern));
    var title := parser.format(values, "%n");
    var album := parser.format(values, "%m");
    var series := PlaceholderValue(values, Placeholder(Series));
    BatchJob(dir,
             BatchOutputPath(NewFileInfo(outputOption).pathName, formatted, title, album, series),
             DerivedOptions(explicit, values, PlaceholderOptions))
  }

  /** Every job writes an .m4b file inside the output directory. */
  lemma BatchJobWritesM4bUnderOutputDir(parser: FormatParser, batchPattern: string, outputOption: string,
                                        explicit: map<TagOption, string>, dir: string)
    ensures var job := BatchJobFor(parser, batchPattern, outputOption, explicit, dir);
      var outputDir := NewFileInfo(outputOption).pathName;
      && GetExtension(NewFileInfo(job.outputFile)) == "m4b"
      && |job.outputFile| > |outputDir| && job.outputFile[..|outputDir| + 1] == outputDir + "/"
  {
    var values := MatchValues(parser, batchPattern, dir);
    BatchOutputIsM4b(NewFileInfo(outputOption).pathName,
                     parser.format(values, parser.trimSeparatorPrefix(values, batchPattern)),
                     parser.format(values, "%n"), parser.format(values, "%m"),
                     PlaceholderValue(values, Placeholder(Series)));
  }

  /** The jobs for a list of matched directories, in that order. */
  function BatchJobsFor(parser: FormatParser, batchPattern: string, outputOption: string,
                        explicit: map<TagOption, string>, dirs: seq<string>): (jobs: seq<BatchJob>)
    ensures |jobs| == |dirs|
    ensures forall i :: 0 <= i < |dirs| ==> jobs[i].inputDir == dirs[i]
  {
    Map(dirs, JobMaker(parser, batchPattern, outputOption, explicit))
  }

  /** BatchJobFor as a function of the directory alone. */
  function JobMaker(parser: FormatParser, batchPattern: string, outputOption: string,
                    explicit: map<TagOption, string>): string -> BatchJob
  {
    (dir: string) => BatchJobFor(parser, batchPattern, outputOption, explicit, dir)
  }

  /** The jobs of one pattern merge each matched directory exactly once. */
  lemma BatchJobsMergeEachMatchOnce(parser: FormatParser, batchPattern: string, outputOption: string,
                                   explicit: map<TagOption, string>, candidates: seq<string>)
    ensures var jobs := BatchJobsFor(parser, batchPattern, outputOption, explicit,
                                     Distinct(MatchedDirs(parser, batchPattern, candidates)));
      && (forall i, j :: 0 <= i < j < |jobs| ==> jobs[i].inputDir != jobs[j].inputDir)
      && (forall i :: 0 <= i < |jobs| ==> Matches(parser, batchPattern, jobs[i].inputDir))
      && (forall i :: 0 <= i < |candidates| && Matches(parser, batchPattern, candidates[i]) ==>
            exists j :: 0 <= j < |jobs| && jobs[j].inputDir == candidates[i])
  {
    var m := MatchedDirs(parser, batchPattern, candidates);
    var d := Distinct(m);
    var jobs := BatchJobsFor(parser, batchPattern, outputOption, explicit, d);
    DistinctNoDuplicates(m);
    forall i | 0 <= i < |jobs| ensures Matches(parser, batchPattern, jobs[i].inputDir) {
      DistinctMembers(m, d[i]);
      MatchedDirsMembers(parser, batchPattern, candidates, d[i]);
    }
    forall i | 0 <= i < |candidates| && Matches(parser, batchPattern, candidates[i])
      ensures exists j :: 0 <= j < |jobs| && jobs[j].inputDir == candidates[i]
    {
      MatchedDirsMembers(parser, batchPattern, candidates, candidates[i]);
      DistinctMembers(m, candidates[i]);
      var j :| 0 <= j < |d| && d[j] == candidates[i];
      assert jobs[j].inputDir == candidates[i];
    }
  }
}
