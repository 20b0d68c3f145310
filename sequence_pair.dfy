/** SimpleSequencePair: the result of a pairwise alignment, with memoised identity and similarity counts. */
module SequencePairs {
  import opened Wrappers
  import opened JavaLang
  import opened AlignedSequences

  /** The reasons the constructor rejects its arguments (IllegalArgumentException). */
  datatype PairError = SizesDiffer | SequenceDoesNotFit

  /** Columns 1..k whose two compounds are equal ignoring case. */
  function IdenticalColumns(q: AlignedSequence, t: AlignedSequence, k: nat): (n: nat)
    requires q.Fits() && t.Fits() && k <= |q.steps| == |t.steps|
    ensures n <= k
  {
    if k == 0 then 0
    else IdenticalColumns(q, t, k - 1) + (if EqualsIgnoreCase(q.CompoundAt(k), t.CompoundAt(k)) then 1 else 0)
  }

  /** Columns 1..k whose two compounds the compound set calls equivalent. */
  function SimilarColumns(q: AlignedSequence, t: AlignedSequence, equivalent: (string, string) -> bool, k: nat): (n: nat)
    requires q.Fits() && t.Fits() && k <= |q.steps| == |t.steps|
    ensures n <= k
  {
    if k == 0 then 0
    else SimilarColumns(q, t, equivalent, k - 1) + (if equivalent(q.CompoundAt(k), t.CompoundAt(k)) then 1 else 0)
  }

  /** A column with the same compound on both sides counts as identical. */
  lemma {:induction false} IdenticalColumnsOfSameRow(q: AlignedSequence, k: nat)
    requires q.Fits() && k <= |q.steps|
    ensures IdenticalColumns(q, q, k) == k
  {
    if k > 0 {
      IdenticalColumnsOfSameRow(q, k - 1);
    }
  }

  /** The checks the constructor makes before it accepts the step lists. */
  function CheckPair(query: seq<string>, target: seq<string>, sx: seq<Step>, sy: seq<Step>): (r: Option<PairError>)
    ensures r.None? <==> |sx| == |sy| && AlignedSequence(query, sx).Fits() && AlignedSequence(target, sy).Fits()
  {
    if |sx| != |sy| then Some(SizesDiffer)
    else if CompoundCount(sx) != |query| || CompoundCount(sy) != |target| then Some(SequenceDoesNotFit)
    else None
  }

  class SimpleSequencePair {
    /** Aligned sequence 1. */
    const query: AlignedSequence
    /** Aligned sequence 2. */
    const target: AlignedSequence
    /** CompoundSet.compoundsEquivalent of the pair's compound set. */
    const equivalent: (string, string) -> bool
    /** Memoised counts; -1 means not computed yet. */
    var identicals: int
    var similars: int

    ghost predicate Valid()
      reads this
    {
      query.Fits() && target.Fits() && |query.steps| == |target.steps| &&
      (identicals == -1 || identicals == IdenticalColumns(query, target, |query.steps|)) &&
      (similars == -1 || similars == SimilarColumns(query, target, equivalent, |query.steps|))
    }

    constructor (q: seq<string>, t: seq<string>, sx: seq<Step>, sy: seq<Step>, equivalent: (string, string) -> bool)
      requires CheckPair(q, t, sx, sy).None?
      ensures Valid()
      ensures query == AlignedSequence(q, sx) && target == AlignedSequence(t, sy)
      ensures this.equivalent == equivalent
      ensures identicals == -1 && similars == -1
    {
      query := AlignedSequence(q, sx);
      target := AlignedSequence(t, sy);
      this.equivalent := equivalent;
      identicals, similars := -1, -1;
    }

    /** getLength: the number of alignment columns. */
    function Length(): nat { |query.steps| }

    /** getCompoundInQueryAt reads aligned sequence 1. */
    function CompoundInQueryAt(a: nat): (c: string)
      requires query.Fits() && 1 <= a <= |query.steps|
      ensures c == query.CompoundAt(a)
    {
      query.CompoundAt(a)
    }

    /** getCompoundInTargetAt reads aligned sequence 2. */
    function CompoundInTargetAt(a: nat): (c: string)
      requires target.Fits() && 1 <= a <= |target.steps|
      ensures c == target.CompoundAt(a)
    {
      target.CompoundAt(a)
    }

    /** getIndexInQueryAt: the query index at column a. */
    function IndexInQueryAt(a: nat): (s: nat)
      requires 1 <= a <= |query.steps|
      ensures s <= |query.original| || !query.Fits()
      ensures s == query.SequenceIndexAt(a)
    {
      query.SequenceIndexAt(a)
    }

    /** getIndexInTargetAt: the target index at column a. */
    function IndexInTargetAt(a: nat): (s: nat)
      requires 1 <= a <= |target.steps|
      ensures s <= |target.original| || !target.Fits()
      ensures s == target.SequenceIndexAt(a)
    {
      target.SequenceIndexAt(a)
    }

    /** getIndexInQueryForTargetAt: the query index in the column of the t-th target compound. */
    function IndexInQueryForTargetAt(t: nat): (s: nat)
      requires query.Fits() && target.Fits() && |query.steps| == |target.steps|
      requires 1 <= t <= |target.original|
      ensures s <= |query.original|
      ensures s == query.SequenceIndexAt(target.AlignmentIndexAt(t))
      ensures target.CompoundAt(target.AlignmentIndexAt(t)) == target.original[t - 1]
    {
      query.SequenceIndexAt(target.AlignmentIndexAt(t))
    }

    /** getIndexInTargetForQueryAt: the target index in the column of the q-th query compound. */
    function IndexInTargetForQueryAt(q: nat): (s: nat)
      requires query.Fits() && target.Fits() && |query.steps| == |target.steps|
      requires 1 <= q <= |query.original|
      ensures s <= |target.original|
      ensures s == target.SequenceIndexAt(query.AlignmentIndexAt(q))
      ensures query.CompoundAt(query.AlignmentIndexAt(q)) == query.original[q - 1]
    {
      target.SequenceIndexAt(query.AlignmentIndexAt(q))
    }

    /** getQuery and getTarget return aligned sequences 1 and 2. */
    function GetQuery(): (r: AlignedSequence) ensures r == query { query }

    function GetTarget(): (r: AlignedSequence) ensures r == target { target }

    /** getNumIdenticals: computed by a loop on the first call, then returned from the memo. */
    method GetNumIdenticals() returns (r: int)
      requires Valid()
      modifies this`identicals
      ensures Valid()
      ensures r == IdenticalColumns(query, target, Length()) && 0 <= r <= Length()
      ensures identicals == r
      ensures old(identicals) != -1 ==> r == old(identicals)
    {
      if identicals == -1 {
        identicals := CountIdenticals();
      }
      r := identicals;
    }

    /** The loop of getNumIdenticals: every column whose compounds are equal ignoring case is counted. */
    method CountIdenticals() returns (count: int)
      requires query.Fits() && target.Fits() && |query.steps| == |target.steps|
      ensures count == IdenticalColumns(query, target, Length())
    {
      count := 0;
      var i := 1;
      while i <= Length()
        invariant 1 <= i <= Length() + 1
        invariant count == IdenticalColumns(query, target, i - 1)
      {
        if EqualsIgnoreCase(CompoundInQueryAt(i), CompoundInTargetAt(i)) {
          count := count + 1;
        }
        i := i + 1;
      }
    }

    /** getNumSimilars: as getNumIdenticals, with the compound set's equivalence. */
    method GetNumSimilars() returns (r: int)
      requires Valid()
      modifies this`similars
      ensures Valid()
      ensures r == SimilarColumns(query, target, equivalent, Length()) && 0 <= r <= Length()
      ensures similars == r
      ensures old(similars) != -1 ==> r == old(similars)
    {
      if similars == -1 {
        similars := CountSimilars();
      }
      r := similars;
    }

    /** The loop of getNumSimilars: every column whose compounds the compound set calls equivalent is counted. */
    method CountSimilars() returns (count: int)
      requires query.Fits() && target.Fits() && |query.steps| == |target.steps|
      ensures count == SimilarColumns(query, target, equivalent, Length())
    {
      count := 0;
      var i := 1;
      while i <= Length()
        invariant 1 <= i <= Length() + 1
        invariant count == SimilarColumns(query, target, equivalent, i - 1)
      {
        if equivalent(CompoundInQueryAt(i), CompoundInTargetAt(i)) {
          count := count + 1;
        }
        i := i + 1;
      }
    }
  }

  /** Constructing a pair: IllegalArgumentException unless the step lists fit the sequences. */
  method NewSimpleSequencePair(q: seq<string>, t: seq<string>, sx: seq<Step>, sy: seq<Step>,
                               equivalent: (string, string) -> bool)
    returns (r: Result<SimpleSequencePair, PairError>)
    ensures r.Err? <==> CheckPair(q, t, sx, sy).Some?
    ensures r.Err? ==> r.error == CheckPair(q, t, sx, sy).value
    ensures r.Ok? ==> fresh(r.value) && r.value.Valid() && r.value.identicals == -1 && r.value.similars == -1
    ensures r.Ok? ==> r.value.query == AlignedSequence(q, sx) && r.value.target == AlignedSequence(t, sy)
  {
    var check := CheckPair(q, t, sx, sy);
    if check.Some? {
      return Err(check.value);
    }
    var p := new SimpleSequencePair(q, t, sx, sy, equivalent);
    return Ok(p);
  }

  /** The query index opposite a target compound never decreases as the target index grows. */
  lemma IndexInQueryForTargetMonotone(p: SimpleSequencePair, t1: nat, t2: nat)
    requires p.query.Fits() && p.target.Fits() && |p.query.steps| == |p.target.steps|
    requires 1 <= t1 <= t2 <= |p.target.original|
    ensures p.IndexInQueryForTargetAt(t1) <= p.IndexInQueryForTargetAt(t2)
  {
    ColumnOfMonotone(p.target.steps, t1, t2);
    CompoundCountMonotone(p.query.steps, ColumnOf(p.target.steps, t1), ColumnOf(p.target.steps, t2));
  }
}
