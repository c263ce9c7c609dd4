/**
  SplFileInfo as MergeCommand uses it: a path name, its directory part
  (getPath), its last component (getBasename), its extension (getExtension)
  and the last component with a suffix cut off (getBasename($suffix)).
  Only '/' separates components, as on a POSIX system.
*/
module SplFile {
  import opened PhpStrings

  /** PHP's DIRECTORY_SEPARATOR on the modelled platform. */
  const DirectorySeparator: char := '/'

  /** An SplFileInfo, holding the path name it was built from. */
  datatype FileInfo = FileInfo(pathName: string)

  /** The constructor drops trailing separators, but keeps a lone "/". */
  function StripTrailingSlashes(p: string): (r: string)
    ensures |r| <= |p| && r == p[..|r|]
    ensures forall i :: |r| <= i < |p| ==> p[i] == '/'
    ensures |r| <= 1 || r[|r| - 1] != '/'
    ensures p != [] ==> r != []
  {
    if |p| > 1 && p[|p| - 1] == '/' then
      var r := StripTrailingSlashes(p[..|p| - 1]);
      r
    else
      p
  }

  /** new SplFileInfo($p) */
  function NewFileInfo(p: string): FileInfo {
    FileInfo(StripTrailingSlashes(p))
  }

  /** The position of the last c in s, or -1 when s holds none. */
  function LastIndexOf(s: string, c: char): (k: int)
    ensures -1 <= k < |s|
    ensures k >= 0 ==> s[k] == c
    ensures forall j :: k < j < |s| ==> s[j] != c
  {
    if s == [] then -1
    else if s[|s| - 1] == c then |s| - 1
    else LastIndexOf(s[..|s| - 1], c)
  }

  /** getPath(): everything before the last separator, "" when there is none. */
  function GetPath(f: FileInfo): string {
    var k := LastIndexOf(f.pathName, '/');
    if k < 0 then "" else f.pathName[..k]
  }

  /** getBasename(): everything after the last separator. */
  function BaseName(f: FileInfo): (b: string)
    ensures '/' !in b
  {
    var k := LastIndexOf(f.pathName, '/');
    var b := f.pathName[k + 1..];
    assert forall i :: 0 <= i < |b| ==> b[i] == f.pathName[k + 1 + i];
    b
  }

  /** getExtension(): what follows the last '.' of the base name, "" when there is none. */
  function GetExtension(f: FileInfo): string {
    var b := BaseName(f);
    var k := LastIndexOf(b, '.');
    if k < 0 then "" else b[k + 1..]
  }

  /** getBasename($suffix): the base name with suffix cut off, unless that would leave nothing. */
  function GetBasename(f: FileInfo, suffix: string): (r: string)
    ensures '/' !in r
  {
    var b := BaseName(f);
    if |suffix| < |b| && b[|b| - |suffix|..] == suffix then
      assert forall i :: 0 <= i < |b| - |suffix| ==> b[..|b| - |suffix|][i] == b[i];
      b[..|b| - |suffix|]
    else
      b
  }

  /** getBasename("." . getExtension()): the base name without its extension. */
  function Stem(f: FileInfo): (r: string)
    ensures '/' !in r
  {
    GetBasename(f, "." + GetExtension(f))
  }

  /** Stem and extension put back together give the base name again, whenever the
      base name has a dot that is not its first character. */
  lemma StemAndExtensionRebuildBaseName(f: FileInfo)
    requires LastIndexOf(BaseName(f), '.') > 0
    ensures Stem(f) + "." + GetExtension(f) == BaseName(f)
  {
    var b := BaseName(f);
    var k := LastIndexOf(b, '.');
    var e := b[k + 1..];
    assert GetExtension(f) == e;
    var suffix := "." + e;
    SplitAtDot(b, k);
    assert |b| - |suffix| == k;
    assert GetBasename(f, suffix) == b[..k];
  }

  /** A string cut at one of its dots, around that dot. */
  lemma SplitAtDot(b: string, k: int)
    requires 0 <= k < |b| && b[k] == '.'
    ensures b[k..] == "." + b[k + 1..]
    ensures b[..k] + "." + b[k + 1..] == b
  {
  }

  /** Characters other than c appended to a string leave its last c where it was. */
  lemma {:induction false} LastIndexOfAppend(s: string, t: string, c: char)
    requires c !in t
    ensures LastIndexOf(s + t, c) == LastIndexOf(s, c)
    decreases |t|
  {
    if t == [] {
      assert s + t == s;
    } else {
      var u := s + t;
      assert u[..|u| - 1] == s + t[..|t| - 1];
      LastIndexOfAppend(s, t[..|t| - 1], c);
    }
  }

  /** A path ending in "." + ext, where ext holds neither a dot nor a separator, has
      the extension ext. */
  lemma ExtensionAfterLastDot(prefix: string, ext: string)
    requires ext != [] && '/' !in ext && '.' !in ext
    ensures GetExtension(NewFileInfo(prefix + ("." + ext))) == ext
  {
    var tail := "." + ext;
    var p := prefix + tail;
    assert p[|p| - 1] == ext[|ext| - 1];
    assert StripTrailingSlashes(p) == p;
    assert '/' !in tail;
    LastIndexOfAppend(prefix, tail, '/');
    var k := LastIndexOf(prefix, '/');
    var b := BaseName(FileInfo(p));
    var x := prefix[k + 1..];
    assert b == x + tail;
    ConcatAssoc(x, ".", ext);
    LastIndexOfAppend(x + ['.'], ext, '.');
    assert LastIndexOf(x + ['.'], '.') == |x|;
    assert b[|x| + 1..] == ext;
  }

  /** A name without separators appended to a directory path that ends in one
      gives a file whose getPath() is that directory and whose base name is the name. */
  lemma FileInDirectory(dir: string, name: string)
    requires |dir| > 0 && dir[|dir| - 1] == '/'
    requires name != [] && '/' !in name
    ensures NewFileInfo(dir + name) == FileInfo(dir + name)
    ensures GetPath(NewFileInfo(dir + name)) == dir[..|dir| - 1]
    ensures BaseName(NewFileInfo(dir + name)) == name
  {
    var p := dir + name;
    assert p[|p| - 1] == name[|name| - 1];
    assert forall j :: |dir| <= j < |p| ==> p[j] == name[j - |dir|];
    var k := LastIndexOf(p, '/');
    assert p[|dir| - 1] == '/';
    assert k == |dir| - 1;
  }
}
