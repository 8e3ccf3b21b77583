/** The merge of whole file contents. */
module MergeFiles {
  import opened TextLines
  import opened MergeText
  import MergeAlgebra
  import DisjointMerge

  datatype Outcome = Outcome(text: string, conflicted: bool)

  function Cut(base: string, ours: string, theirs: string): Texts {
    Texts(SplitWithNewlines(base), SplitWithNewlines(ours), SplitWithNewlines(theirs))
  }

  ghost function Merge(base: string, ours: string, theirs: string): Outcome {
    var m := Cut(base, ours, theirs);
    Outcome(Join(m.Merged(MergeRegions(m))), m.Conflicted(MergeRegions(m)))
  }

  method MergeContents(base: string, ours: string, theirs: string) returns (merged: string, conflicted: bool)
    ensures Outcome(merged, conflicted) == Merge(base, ours, theirs)
  {
    hide MergeRegions, Texts.Merged, Texts.Conflicted, Join;
    var out;
    out, conflicted := MergeLines(SplitWithNewlines(base), SplitWithNewlines(ours), SplitWithNewlines(theirs));
    merged := Join(out);
  }

  /** An unchanged side yields the other side; a change made on both sides alike
      is taken once. None of these conflicts. */
  lemma MergeIdentities(base: string, text: string)
    ensures Merge(base, base, text) == Outcome(text, false)
    ensures Merge(base, text, base) == Outcome(text, false)
    ensures Merge(base, text, text) == Outcome(text, false)
  {
    hide MergeRegions, Texts.Merged, Texts.Conflicted, Join, SplitWithNewlines;
    MergeAlgebra.OursUnchanged(Cut(base, base, text));
    MergeAlgebra.TheirsUnchanged(Cut(base, text, base));
    MergeAlgebra.SameChange(Cut(base, text, text));
    JoinSplitLines(text);
  }

  /** Exchanging the sides changes neither the conflict flag nor a clean text. */
  lemma MergeSymmetric(base: string, ours: string, theirs: string)
    ensures Merge(base, ours, theirs).conflicted == Merge(base, theirs, ours).conflicted
    ensures !Merge(base, ours, theirs).conflicted ==> Merge(base, ours, theirs) == Merge(base, theirs, ours)
  {
    hide MergeRegions, Texts.Merged, Texts.Conflicted, Join, SplitWithNewlines;
    MergeAlgebra.SidesInterchangeable(Cut(base, ours, theirs));
  }

  /** Changes in different parts of the base splice cleanly. */
  lemma MergeDisjoint(base: string, ours: string, theirs: string)
    requires var m := Cut(base, ours, theirs); DisjointMerge.Disjoint(OurChanges(m), TheirChanges(m))
    ensures var m := Cut(base, ours, theirs);
            var all := Interleave(OurChanges(m), TheirChanges(m));
            Merge(base, ours, theirs) == Outcome(Join(DisjointMerge.Spliced(m, all, 0)), false)
  {
    hide MergeRegions, Texts.Merged, Texts.Conflicted, Join, SplitWithNewlines, Interleave, OurChanges, TheirChanges;
    DisjointMerge.DisjointChanges(Cut(base, ours, theirs));
  }
}
