/**
  The last change tagMergedFile makes to the collected tag before the source
  files' tag fills the gaps: with --prepend-series-to-longdesc, the series and
  its part are put in front of the long description.
*/
module TagPostPass {
  import opened PhpStrings

  /** The tag fields the post-pass reads or writes; a missing field is "". */
  datatype Tag = Tag(series: string, seriesPart: string, longDescription: string)

  /** trim(series . " " . seriesPart) */
  function SeriesString(tag: Tag): (s: string)
    ensures s == [] || (s[0] !in WhitespaceChars && s[|s| - 1] !in WhitespaceChars)
  {
    Trim(tag.series + " " + tag.seriesPart)
  }

  /** The post-pass: when the flag is set, the long description is truthy and the
      series string is not empty, the description becomes
      "<series string>: <description without leading whitespace>". */
  function PrependSeriesToLongDescription(prepend: bool, tag: Tag): (r: Tag)
    ensures r.series == tag.series && r.seriesPart == tag.seriesPart
    ensures r != tag <==> prepend && Truthy(tag.longDescription) && SeriesString(tag) != ""
    ensures r != tag ==>
      r.longDescription == SeriesString(tag) + ": " + TrimLeft(tag.longDescription, WhitespaceChars)
  {
    if prepend && Truthy(tag.longDescription) then
      var s := SeriesString(tag);
      if s != "" then
        var d := s + ": " + TrimLeft(tag.longDescription, WhitespaceChars);
        PrependedDiffers(s, tag.longDescription);
        tag.(longDescription := d)
      else
        tag
    else
      tag
  }

  /** Putting a non-empty string that starts without whitespace and ": " in front of
      a description stripped of its leading whitespace never gives back the
      description itself. */
  lemma PrependedDiffers(s: string, description: string)
    requires s != [] && s[0] !in WhitespaceChars
    ensures s + ": " + TrimLeft(description, WhitespaceChars) != description
  {
    var t := TrimLeft(description, WhitespaceChars);
    var d := s + ": " + t;
    if |t| < |description| {
      assert description[0] == description[..|description| - |t|][0];
      assert d[0] == s[0];
    } else {
      assert |d| > |description|;
    }
  }

  /** The new description begins with the series string and ": ", and ends with the
      old description minus its leading whitespace. */
  lemma PrependedDescriptionLayout(tag: Tag)
    requires Truthy(tag.longDescription) && SeriesString(tag) != ""
    ensures var d := PrependSeriesToLongDescription(true, tag).longDescription;
      var s := SeriesString(tag);
      var t := TrimLeft(tag.longDescription, WhitespaceChars);
      d[..|s|] == s && d[|s|..|s| + 2] == ": " && d[|s| + 2..] == t
  {
    var s := SeriesString(tag);
    var t := TrimLeft(tag.longDescription, WhitespaceChars);
    assert PrependSeriesToLongDescription(true, tag).longDescription == s + ": " + t;
    SeparatedLayout(s, t);
  }

  /** Where the parts of s + ": " + t sit. */
  lemma SeparatedLayout(s: string, t: string)
    ensures var d := s + ": " + t;
      d[..|s|] == s && d[|s|..|s| + 2] == ": " && d[|s| + 2..] == t
  {
    var d := s + ": " + t;
    assert d == s + (": " + t);
  }
}
