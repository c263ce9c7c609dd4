/**
  The order in which converted files are handed to the concatenation step:
  every converted file, each followed by the shared silence file except the
  last one.
*/
module MergeSequencing {
  import opened Wrappers

  /** What follows a file that is not the last one: the silence file, if any. */
  function Gap<T>(silence: Option<T>): seq<T> {
    if silence.Some? then [silence.value] else []
  }

  /** The merge list built from the converted files in input order. */
  function MergeSequence<T>(items: seq<T>, silence: Option<T>): seq<T>
    decreases |items|
  {
    if |items| <= 1 then items
    else MergeSequence(items[..|items| - 1], silence) + Gap(silence) + [items[|items| - 1]]
  }

  /** The list has one entry per file plus one silence between each two neighbours. */
  lemma {:induction false} MergeSequenceLength<T>(items: seq<T>, silence: Option<T>)
    ensures |MergeSequence(items, silence)|
         == |items| + (if silence.Some? && |items| > 0 then |items| - 1 else 0)
    decreases |items|
  {
    if |items| > 1 {
      MergeSequenceLength(items[..|items| - 1], silence);
    }
  }

  /** Without a silence file the merge list is exactly the converted files. */
  lemma {:induction false} MergeSequenceWithoutSilence<T>(items: seq<T>)
    ensures MergeSequence(items, None) == items
    decreases |items|
  {
    if |items| > 1 {
      MergeSequenceWithoutSilence(items[..|items| - 1]);
      assert items == items[..|items| - 1] + [items[|items| - 1]];
    }
  }

  /** With a silence file s, file i sits at position 2i and s at every odd
      position: the list is f0, s, f1, s, ..., f(n-1). */
  lemma {:induction false} MergeSequenceLayout<T>(items: seq<T>, s: T)
    ensures var r := MergeSequence(items, Some(s));
      && |r| == (if items == [] then 0 else 2 * |items| - 1)
      && (forall i :: 0 <= i < |items| ==> r[2 * i] == items[i])
      && (forall k :: 0 <= k < |r| && k % 2 == 1 ==> r[k] == s)
    decreases |items|
  {
    if |items| > 1 {
      var n := |items|;
      var p := items[..n - 1];
      MergeSequenceLayout(p, s);
      var rp := MergeSequence(p, Some(s));
      var r := MergeSequence(items, Some(s));
      assert r == rp + [s] + [items[n - 1]];
      forall i | 0 <= i < n ensures r[2 * i] == items[i] {
        if i < n - 1 {
          assert r[2 * i] == rp[2 * i] && p[i] == items[i];
        }
      }
    }
  }

  /** Handing on one more file: the list so far, the silence after the previous
      file (if there is one), then the new file. */
  lemma MergeSequenceAppend<T>(items: seq<T>, x: T, silence: Option<T>)
    ensures MergeSequence(items + [x], silence)
         == MergeSequence(items, silence) + (if items != [] then Gap(silence) else []) + [x]
  {
    var p := items + [x];
    assert p[..|p| - 1] == items;
  }

  /** The merge list while it is being built: after the files so far comes the
      silence that separates them from the next file, if there is a next one.
      Appending the next file x, and the silence after it when more follow, keeps
      that shape. */
  lemma MergeSequenceExtend<T>(prefix: seq<T>, items: seq<T>, x: T, silence: Option<T>, more: bool)
    ensures var before := prefix + (MergeSequence(items, silence) + (if items != [] then Gap(silence) else []));
      before + [x] + (if silence.Some? && more then [silence.value] else [])
      == prefix + (MergeSequence(items + [x], silence) + (if more then Gap(silence) else []))
  {
    MergeSequenceAppend(items, x, silence);
  }

  /** Silence is never first or last: the list starts with the first file and
      ends with the last one. */
  lemma MergeSequenceEnds<T>(items: seq<T>, silence: Option<T>)
    requires items != []
    ensures var r := MergeSequence(items, silence);
      r != [] && r[0] == items[0] && r[|r| - 1] == items[|items| - 1]
  {
    if silence.Some? {
      MergeSequenceLayout(items, silence.value);
      assert 2 * (|items| - 1) == |MergeSequence(items, silence)| - 1;
    } else {
      MergeSequenceWithoutSilence(items);
    }
  }
}
