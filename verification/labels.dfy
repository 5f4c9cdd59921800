/** `getFilenamePrefix`: the label printed for a source. */
module Labels {

  /** The display width of a source label. */
  const LabelWidth: nat := 20

  /** The last `LabelWidth` characters of `name`; shorter names unchanged. */
  function FilenamePrefix(name: string): (r: string)
    ensures |r| == if |name| <= LabelWidth then |name| else LabelWidth
    ensures r == name[|name| - |r|..]
    ensures |name| <= LabelWidth ==> r == name
  {
    if |name| > LabelWidth then name[|name| - LabelWidth..] else name
  }

  /** Two names that share their last `LabelWidth` characters get the same
      label, and equal labels mean the names agree on that many trailing
      characters (or are equal when shorter). */
  lemma LabelsAgreeOnSuffix(a: string, b: string)
    requires |a| >= LabelWidth && |b| >= LabelWidth
    ensures FilenamePrefix(a) == FilenamePrefix(b) <==> a[|a| - LabelWidth..] == b[|b| - LabelWidth..]
  {
  }
}
