/**
 * CircularLocation: a location on a circular sequence of a given length. It wraps an
 * ordinary location and keeps the wrapped blocks in natural order rotated so that the block
 * at the 5' end comes first.
 *
 * Once constructed a circular location does not change, so it is a value here; the
 * constructor, which fills and rotates a list in a loop, is the method New, proved against
 * the function Construct. Where the constructor throws or never returns, the outcome is a
 * CircularError.
 */
module Circular {
  import opened Wrappers
  import opened JavaLang
  import opened Locations

  datatype CircularError =
    | NoBlocks          // getFirst on an empty block list: NoSuchElementException
    | NoFivePrimeBlock  // the 5' end is 0: IllegalArgumentException
    | Diverges          // no block starts at the 5' end: the rotation loop never stops
    | DivideByZero      // contains on a circle of length 0: ArithmeticException

  datatype CircularLocation = CircularLocation(
    wrapped: Location,
    length: int,
    fivePrimeEnd: int,
    fivePrimeSortedBlocks: seq<Block>)
  {
    /**
     * contains(p): p is reduced modulo the length (Java's remainder, which keeps the sign
     * of p), shifted by the number of whole turns before the wrapped minimum, and looked up
     * in the wrapped location.
     */
    function Contains(p: int): (r: Result<bool, CircularError>)
      requires wrapped.Blocks() != []
      ensures r.Err? <==> length == 0
    {
      if length == 0 then Err(DivideByZero)
      else Ok(wrapped.Contains(ToInt(Rem(p, length) + Quot(wrapped.Min(), length))))
    }

    /** isContiguous: delegated to the wrapped location. */
    predicate IsContiguous()
    {
      wrapped.IsContiguous()
    }
  }

  /** Some block starts at `e`. */
  predicate StartsAt(bs: seq<Block>, e: int)
  {
    exists b :: b in bs && b.Min() == e
  }

  /** The 5' end the constructor's block loop settles on: the requested one if a block starts there, else the field's default 0. */
  function ChosenEnd(bs: seq<Block>, requested: int): (e: int)
    ensures e == requested || e == 0
    ensures e == requested <==> StartsAt(bs, requested) || requested == 0
  {
    if StartsAt(bs, requested) then requested else 0
  }

  /** The index of the first block that starts at `e`. */
  function FirstAt(bs: seq<Block>, e: int): (k: nat)
    requires StartsAt(bs, e)
    ensures k < |bs| && bs[k].Min() == e
    ensures forall j :: 0 <= j < k ==> bs[j].Min() != e
  {
    if bs[0].Min() == e then 0
    else
      assert StartsAt(bs[1..], e) by {
        var b :| b in bs && b.Min() == e;
        var i :| 0 <= i < |bs| && bs[i] == b;
        assert bs[1..][i - 1] == b;
      }
      1 + FirstAt(bs[1..], e)
  }

  /** The list after `k` turns of the rotation loop: the first `k` blocks moved to the back. */
  function Rotate(s: seq<Block>, k: nat): (r: seq<Block>)
    requires k <= |s|
    ensures |r| == |s|
    ensures multiset(r) == multiset(s)
  {
    assert s == s[..k] + s[k..];
    s[k..] + s[..k]
  }

  /**
   * The outcome of the three-argument constructor: the blocks in natural order rotated so
   * that the first block starting at the 5' end leads.
   */
  function Construct(wrapped: Location, length: int, requested: int): (r: Result<CircularLocation, CircularError>)
    ensures r == Err(NoBlocks) <==> wrapped.Blocks() == []
    ensures r.Ok? <==> requested != 0 && StartsAt(wrapped.Blocks(), requested)
    ensures r == Err(Diverges) <==>
      wrapped.Blocks() != [] && !StartsAt(wrapped.Blocks(), requested) && !StartsAt(wrapped.Blocks(), 0)
    ensures r.Ok? ==> r.value.wrapped == wrapped && r.value.length == length && r.value.fivePrimeEnd == requested
    ensures r.Ok? ==> multiset(r.value.fivePrimeSortedBlocks) == multiset(wrapped.Blocks())
    ensures r.Ok? ==> r.value.fivePrimeSortedBlocks[0].Min() == requested
  {
    var bs := wrapped.Blocks();
    if bs == [] then Err(NoBlocks)
    else
      var e := ChosenEnd(bs, requested);
      var sorted := SortBlocks(bs);
      SortedStartsAt(bs, sorted, e);
      if !StartsAt(sorted, e) then Err(Diverges)
      else if e == 0 then Err(NoFivePrimeBlock)
      else
        var k := FirstAt(sorted, e);
        Ok(CircularLocation(wrapped, length, e, Rotate(sorted, k)))
  }

  /** The two-argument constructor: the wrapped minimum is the 5' end. */
  function ConstructAtMin(wrapped: Location, length: int): (r: Result<CircularLocation, CircularError>)
    ensures wrapped.Blocks() != [] ==> r == Construct(wrapped, length, wrapped.Min())
    ensures wrapped.Blocks() == [] ==> r == Err(NoBlocks)
  {
    if wrapped.Blocks() == [] then Err(NoBlocks) else Construct(wrapped, length, wrapped.Min())
  }

  lemma SortedStartsAt(bs: seq<Block>, sorted: seq<Block>, e: int)
    requires multiset(sorted) == multiset(bs)
    ensures StartsAt(sorted, e) <==> StartsAt(bs, e)
  {
    forall b | b in bs ensures b in sorted {
      assert b in multiset(bs);
    }
    forall b | b in sorted ensures b in bs {
      assert b in multiset(sorted);
    }
  }

  /** One turn of the loop: the head block moved to the back. */
  lemma RotateStep(s: seq<Block>, k: nat)
    requires k < |s|
    ensures Rotate(s, k + 1) == Rotate(s, k)[1..] + [Rotate(s, k)[0]]
  {
    var r := Rotate(s, k);
    assert r[0] == s[k];
    assert r[1..] == s[k + 1..] + s[..k];
    assert s[..k + 1] == s[..k] + [s[k]];
  }

  /** After as many turns as there are blocks the list is back where it began: a loop that has not stopped by then never stops. */
  lemma RotateFull(s: seq<Block>)
    ensures Rotate(s, |s|) == s && Rotate(s, 0) == s
  {
    assert s[|s|..] == [] && s[..|s|] == s;
    assert s[0..] == s && s[..0] == [];
  }

  /** A requested 5' end other than 0 at which some block starts gives the sorted blocks rotated to the first such block. */
  lemma ConstructOk(wrapped: Location, length: int, requested: int)
    requires requested != 0 && StartsAt(wrapped.Blocks(), requested)
    ensures var sorted := SortBlocks(wrapped.Blocks());
      StartsAt(sorted, requested) &&
      Construct(wrapped, length, requested) ==
        Ok(CircularLocation(wrapped, length, requested, Rotate(sorted, FirstAt(sorted, requested))))
  {
    SortedStartsAt(wrapped.Blocks(), SortBlocks(wrapped.Blocks()), requested);
  }

  /** The constructor's block loop: the blocks copied into the list, and the 5' end kept when a block starts there. */
  method CollectBlocks(bs: seq<Block>, requested: int) returns (list: seq<Block>, e: int)
    ensures list == bs && e == ChosenEnd(bs, requested)
  {
    list := [];
    e := 0;
    var i := 0;
    while i < |bs|
      invariant 0 <= i <= |bs| && list == bs[..i]
      invariant e == ChosenEnd(bs[..i], requested)
    {
      assert bs[..i + 1] == bs[..i] + [bs[i]];
      if bs[i].Min() == requested {
        e := requested;
      }
      list := list + [bs[i]];
      i := i + 1;
    }
    assert bs[..|bs|] == bs;
  }

  /**
   * The rotation loop: the head block goes to the back until a block starting at `e` leads.
   * When no block starts there the list comes back to its first order after one full turn
   * (k == |sorted|); that state repeats forever in the source.
   */
  method RotateToEnd(sorted: seq<Block>, e: int) returns (list: seq<Block>, k: nat)
    requires sorted != []
    ensures k <= |sorted| && list == Rotate(sorted, k)
    ensures k == |sorted| <==> !StartsAt(sorted, e)
    ensures k < |sorted| ==> StartsAt(sorted, e) && k == FirstAt(sorted, e)
    ensures k == |sorted| ==> list == sorted
  {
    list := sorted;
    k := 0;
    RotateFull(sorted);
    while list[0].Min() != e && k < |sorted|
      invariant 0 <= k <= |sorted| && list == Rotate(sorted, k)
      invariant forall j :: 0 <= j < k ==> sorted[j].Min() != e
      decreases |sorted| - k
    {
      RotateStep(sorted, k);
      list := list[1..] + [list[0]];
      k := k + 1;
    }
    if k < |sorted| {
      assert sorted[k] == list[0];
    } else {
      assert !StartsAt(sorted, e) by {
        forall b | b in sorted ensures b.Min() != e {
          var j :| 0 <= j < |sorted| && sorted[j] == b;
        }
      }
    }
  }

  /** The constructor CircularLocation(wrapped, length, fivePrimeEnd), ending in Diverges where the source loops forever. */
  method New(wrapped: Location, length: int, requested: int) returns (r: Result<CircularLocation, CircularError>)
    ensures r == Construct(wrapped, length, requested)
  {
    var bs := wrapped.Blocks();
    var list, e := CollectBlocks(bs, requested);
    var sorted := SortBlocks(list);
    if sorted == [] {
      return Err(NoBlocks);
    }
    var k;
    list, k := RotateToEnd(sorted, e);
    if k == |sorted| {
      return Err(Diverges);
    }
    if e == 0 {
      return Err(NoFivePrimeBlock);
    }
    ConstructOk(wrapped, length, e);
    return Ok(CircularLocation(wrapped, length, e, list));
  }

  /** The smallest block of a non-empty sorted list starts at the minimum of them all. */
  lemma SortedHeadIsMin(bs: seq<Block>, sorted: seq<Block>, m: int)
    requires Sorted(sorted) && multiset(sorted) == multiset(bs) && sorted != []
    requires StartsAt(bs, m) && forall b :: b in bs ==> m <= b.Min()
    ensures sorted[0].Min() == m
  {
    SortedStartsAt(bs, sorted, m);
    assert sorted[0] in multiset(bs);
    var b :| b in sorted && b.Min() == m;
    var i :| 0 <= i < |sorted| && sorted[i] == b;
    if i > 0 {
      assert NotAfter(sorted[0], sorted[i]);
    }
  }

  /** The two-argument constructor takes the wrapped minimum as the 5' end, so the sorted blocks need no rotation. */
  lemma AtMinNeedsNoRotation(wrapped: Location, length: int)
    requires wrapped.Blocks() != [] && wrapped.Min() != 0
    ensures ConstructAtMin(wrapped, length) == Ok(CircularLocation(wrapped, length, wrapped.Min(), SortBlocks(wrapped.Blocks())))
  {
    var bs := wrapped.Blocks();
    var m := wrapped.Min();
    var sorted := SortBlocks(bs);
    assert StartsAt(bs, m);
    ConstructOk(wrapped, length, m);
    SortedHeadIsMin(bs, sorted, m);
    assert FirstAt(sorted, m) == 0;
    RotateFull(sorted);
  }

  /** Whichever 5' end is asked for, a circular location leads with a block starting at its own 5' end, which is never 0. */
  lemma FivePrimeEndStartsABlock(wrapped: Location, length: int, requested: int)
    requires Construct(wrapped, length, requested).Ok?
    ensures var c := Construct(wrapped, length, requested).value;
      c.fivePrimeEnd != 0 && StartsAt(wrapped.Blocks(), c.fivePrimeEnd) &&
      c.fivePrimeSortedBlocks != [] && c.fivePrimeSortedBlocks[0] in wrapped.Blocks()
  {
    var c := Construct(wrapped, length, requested).value;
    assert c.fivePrimeSortedBlocks[0] in multiset(wrapped.Blocks());
  }

  /** A contiguous circular location has a single block. */
  lemma ContiguousHasOneBlock(wrapped: Location, length: int, requested: int)
    requires Construct(wrapped, length, requested).Ok?
    ensures Construct(wrapped, length, requested).value.IsContiguous() ==>
      |Construct(wrapped, length, requested).value.fivePrimeSortedBlocks| == 1
  {
  }

  /** Positions one full turn apart are both in the location or both out (for non-negative positions). */
  lemma ContainsPeriodic(c: CircularLocation, p: int)
    requires c.wrapped.Blocks() != [] && c.length > 0
    requires 0 <= p && p + c.length <= INT_MAX
    ensures c.Contains(p + c.length) == c.Contains(p)
  {
    var q := p + c.length;
    QuotRemNonNegative(p, c.length);
    QuotRemNonNegative(q, c.length);
    DivModUnique(q, c.length, p / c.length + 1, p % c.length);
  }

  /**
   * For a location whose minimum lies in the first turn and a non-negative position,
   * contains(p) looks up p's offset in the circle, p % length.
   */
  lemma ContainsFirstTurn(c: CircularLocation, p: int)
    requires c.wrapped.Blocks() != [] && 0 <= c.wrapped.Min() < c.length <= INT_MAX && 0 <= p
    ensures c.Contains(p) == Ok(c.wrapped.Contains(p % c.length))
  {
    var m, len := c.wrapped.Min(), c.length;
    QuotRemNonNegative(p, len);
    QuotRemNonNegative(m, len);
    DivModUnique(m, len, 0, m);
    assert Rem(p, len) + Quot(m, len) == p % len;
    assert IsInt(p % len);
  }

  /** The circle of length 200 holding 1..100, as the circular location tests build it. */
  function FirstHundred(): Location
  {
    Simple(RangeLoc(1, 100))
  }

  lemma FirstHundredExample()
    ensures ConstructAtMin(FirstHundred(), 200) == Ok(CircularLocation(FirstHundred(), 200, 1, [RangeLoc(1, 100)]))
    ensures CircularLocation(FirstHundred(), 200, 1, [RangeLoc(1, 100)]).IsContiguous()
  {
    AtMinNeedsNoRotation(FirstHundred(), 200);
    assert SortBlocks([RangeLoc(1, 100)]) == [RangeLoc(1, 100)];
  }

  lemma InFirstHundred(x: int)
    ensures FirstHundred().Contains(x) <==> 1 <= x <= 100
  {
    var r := RangeLoc(1, 100);
    assert FirstHundred().Blocks() == [r];
    assert r in FirstHundred().Blocks();
    assert r.Contains(x) <==> 1 <= x <= 100;
  }

  /** contains on that circle: 1 and 100 are in, 101 is out, and 202 is in (it is 2 on the second turn). */
  lemma FirstHundredContains(c: CircularLocation)
    requires c.wrapped == FirstHundred() && c.length == 200
    ensures c.Contains(1) == Ok(true) && c.Contains(100) == Ok(true)
    ensures c.Contains(202) == Ok(true) && c.Contains(101) == Ok(false)
  {
    assert c.wrapped.Blocks() == [RangeLoc(1, 100)];
    ContainsFirstTurn(c, 1);
    ContainsFirstTurn(c, 100);
    ContainsFirstTurn(c, 101);
    ContainsFirstTurn(c, 202);
    DivModUnique(202, 200, 1, 2);
    DivModUnique(101, 200, 0, 101);
    DivModUnique(100, 200, 0, 100);
    DivModUnique(1, 200, 0, 1);
    InFirstHundred(1);
    InFirstHundred(2);
    InFirstHundred(100);
    InFirstHundred(101);
  }

  /** 1..4 and 7..10 together make a compound location, which is not contiguous on the circle either. */
  lemma CompoundExample()
    ensures ConstructAtMin(Compound([RangeLoc(1, 4), RangeLoc(7, 10)]), 200).Ok?
    ensures !ConstructAtMin(Compound([RangeLoc(1, 4), RangeLoc(7, 10)]), 200).value.IsContiguous()
  {
    var l := Compound([RangeLoc(1, 4), RangeLoc(7, 10)]);
    assert l.Blocks()[0] == RangeLoc(1, 4);
    assert l.Min() == 1;
  }

  /** A 5' end at which no block starts, on a location with no block at 0, sends the rotation loop round forever. */
  lemma DivergenceExample()
    ensures Construct(Compound([RangeLoc(1, 4), RangeLoc(7, 10)]), 200, 5) == Err(Diverges)
  {
    var bs := [RangeLoc(1, 4), RangeLoc(7, 10)];
    assert !StartsAt(bs, 5) && !StartsAt(bs, 0) by {
      forall b | b in bs ensures b.Min() != 5 && b.Min() != 0 { }
    }
  }
}
