/**
 * One row of a pairwise alignment: the original compounds of a sequence plus, per alignment
 * column, whether that row shows a compound or a gap. The aligned-sequence classes that
 * implement this view (SimpleAlignedSequence, SimpleProfile) are not part of this model; the
 * index arithmetic below is the documented behaviour they provide to SimpleSequencePair.
 */
module AlignedSequences {
  /** AlignedSequence.Step: what one row shows in one column. */
  datatype Step = Compound | Gap

  /** The text a gap column shows in place of a compound. */
  const GAP_SYMBOL: string := "-"

  /** The number of Compound steps in `steps`. */
  function CompoundCount(steps: seq<Step>): (n: nat)
    ensures n <= |steps|
  {
    if steps == [] then 0
    else CompoundCount(steps[..|steps| - 1]) + (if steps[|steps| - 1] == Compound then 1 else 0)
  }

  /** Counting compounds in a longer prefix never gives less. */
  lemma {:induction false} CompoundCountMonotone(steps: seq<Step>, i: nat, j: nat)
    requires i <= j <= |steps|
    ensures CompoundCount(steps[..i]) <= CompoundCount(steps[..j])
    decreases j - i
  {
    if i < j {
      CompoundCountMonotone(steps, i, j - 1);
      assert steps[..j][..j - 1] == steps[..j - 1];
    }
  }

  /** An aligned row: the row fits the alignment iff it holds one Compound step per original compound. */
  datatype AlignedSequence = AlignedSequence(original: seq<string>, steps: seq<Step>)
  {
    predicate Fits() { CompoundCount(steps) == |original| }

    function Length(): nat { |steps| }

    /** getSequenceIndexAt: the number of compounds in columns 1..a, i.e. the index of the
        compound at column a, or of the last compound before a gap (0 before the first one). */
    function SequenceIndexAt(a: nat): (s: nat)
      requires 1 <= a <= |steps|
      ensures s <= a && s <= CompoundCount(steps)
      ensures steps[a - 1] == Compound ==> s >= 1
    {
      CompoundCountMonotone(steps, a, |steps|);
      assert steps[..|steps|] == steps;
      assert steps[..a][..a - 1] == steps[..a - 1];
      CompoundCount(steps[..a])
    }

    /** getCompoundAt: the compound shown in column a, or the gap symbol. */
    function CompoundAt(a: nat): (c: string)
      requires Fits() && 1 <= a <= |steps|
      ensures steps[a - 1] == Gap ==> c == GAP_SYMBOL
      ensures steps[a - 1] == Compound ==> c == original[SequenceIndexAt(a) - 1]
    {
      if steps[a - 1] == Gap then GAP_SYMBOL else original[SequenceIndexAt(a) - 1]
    }

    /** getAlignmentIndexAt: the column holding the s-th compound. */
    function AlignmentIndexAt(s: nat): (a: nat)
      requires 1 <= s <= CompoundCount(steps)
      ensures 1 <= a <= |steps| && steps[a - 1] == Compound
      ensures SequenceIndexAt(a) == s
    {
      ColumnOf(steps, s)
    }
  }

  /** The first column whose prefix holds s compounds. */
  function ColumnOf(steps: seq<Step>, s: nat): (a: nat)
    requires 1 <= s <= CompoundCount(steps)
    ensures 1 <= a <= |steps| && steps[a - 1] == Compound
    ensures CompoundCount(steps[..a]) == s
    ensures a == 1 || CompoundCount(steps[..a - 1]) == s - 1
    decreases |steps|
  {
    var k := |steps| - 1;
    if CompoundCount(steps[..k]) >= s then
      var a := ColumnOf(steps[..k], s);
      assert steps[..k][..a] == steps[..a];
      assert steps[..k][..a - 1] == steps[..a - 1];
      a
    else
      assert steps[..|steps|] == steps;
      |steps|
  }

  /** Later compounds sit in later columns. */
  lemma {:induction false} ColumnOfMonotone(steps: seq<Step>, s1: nat, s2: nat)
    requires 1 <= s1 <= s2 <= CompoundCount(steps)
    ensures ColumnOf(steps, s1) <= ColumnOf(steps, s2)
  {
    var a1, a2 := ColumnOf(steps, s1), ColumnOf(steps, s2);
    if a2 < a1 {
      CompoundCountMonotone(steps, a2, a1 - 1);
    }
  }
}
