/**
 * The location shapes of the org.biojava.bio.symbol package that the formatters, the
 * EMBL-like location parser, DistComponentFeature, CircularLocation and AssembledSymbolList
 * work with. A location is either a single block or a compound of blocks; a block is a
 * point, a range, a fuzzy range or a fuzzy point.
 *
 * A fuzzy range is resolved to its inner bounds (every fuzzy range in this model is made
 * with FuzzyLocation.RESOLVE_INNER); its minimum is unbounded when its outer minimum is
 * Integer.MIN_VALUE and its maximum unbounded when its outer maximum is Integer.MAX_VALUE.
 */
module Locations {
  import opened JavaLang

  datatype Block =
    | PointLoc(point: int)
    | RangeLoc(min: int, max: int)
    | FuzzyLoc(outerMin: int, outerMax: int, innerMin: int, innerMax: int)
    | FuzzyPointLoc(min: int, max: int)
  {
    function Min(): int
    {
      match this
      case PointLoc(p) => p
      case RangeLoc(lo, _) => lo
      case FuzzyLoc(_, _, lo, _) => lo
      case FuzzyPointLoc(lo, _) => lo
    }

    function Max(): int
    {
      match this
      case PointLoc(p) => p
      case RangeLoc(_, hi) => hi
      case FuzzyLoc(_, _, _, hi) => hi
      case FuzzyPointLoc(_, hi) => hi
    }

    predicate HasBoundedMin()
    {
      match this
      case FuzzyLoc(outer, _, _, _) => outer != INT_MIN
      case FuzzyPointLoc(lo, _) => lo != INT_MIN
      case _ => true
    }

    predicate HasBoundedMax()
    {
      match this
      case FuzzyLoc(_, outer, _, _) => outer != INT_MAX
      case FuzzyPointLoc(_, hi) => hi != INT_MAX
      case _ => true
    }

    predicate Contains(p: int)
    {
      Min() <= p <= Max()
    }
  }

  /** A location: one block, or a compound location made of several (never contiguous). */
  datatype Location = Simple(block: Block) | Compound(parts: seq<Block>)
  {
    /** blockIterator: the blocks of the location, a single block being its own block. */
    function Blocks(): (bs: seq<Block>)
      ensures Simple? ==> bs == [block]
    {
      match this
      case Simple(b) => [b]
      case Compound(ps) => ps
    }

    predicate IsContiguous()
    {
      Simple?
    }

    function Min(): (m: int)
      requires Blocks() != []
      ensures forall b :: b in Blocks() ==> m <= b.Min()
      ensures exists b :: b in Blocks() && m == b.Min()
    {
      MinOf(Blocks())
    }

    function Max(): (m: int)
      requires Blocks() != []
      ensures forall b :: b in Blocks() ==> b.Max() <= m
      ensures exists b :: b in Blocks() && m == b.Max()
    {
      MaxOf(Blocks())
    }

    predicate Contains(p: int)
    {
      exists b :: b in Blocks() && b.Contains(p)
    }
  }

  function MinOf(bs: seq<Block>): (m: int)
    requires bs != []
    ensures forall b :: b in bs ==> m <= b.Min()
    ensures exists b :: b in bs && m == b.Min()
  {
    if |bs| == 1 then bs[0].Min()
    else
      var rest := MinOf(bs[1..]);
      assert forall b :: b in bs[1..] ==> b in bs;
      if bs[0].Min() <= rest then bs[0].Min() else rest
  }

  function MaxOf(bs: seq<Block>): (m: int)
    requires bs != []
    ensures forall b :: b in bs ==> b.Max() <= m
    ensures exists b :: b in bs && m == b.Max()
  {
    if |bs| == 1 then bs[0].Max()
    else
      var rest := MaxOf(bs[1..]);
      assert forall b :: b in bs[1..] ==> b in bs;
      if bs[0].Max() >= rest then bs[0].Max() else rest
  }

  /** Location.naturalOrder: by minimum, then by maximum. */
  predicate NotAfter(a: Block, b: Block)
  {
    a.Min() < b.Min() || (a.Min() == b.Min() && a.Max() <= b.Max())
  }

  predicate Sorted(bs: seq<Block>)
  {
    forall i, j :: 0 <= i < j < |bs| ==> NotAfter(bs[i], bs[j])
  }

  /** Inserting a block before the first block it is not after (so equal blocks keep their order). */
  function Insert(b: Block, bs: seq<Block>): (r: seq<Block>)
    requires Sorted(bs)
    ensures Sorted(r)
    ensures forall x :: x in r ==> x == b || x in bs
    ensures multiset(r) == multiset(bs) + multiset{b}
  {
    if bs == [] then [b]
    else if NotAfter(b, bs[0]) then [b] + bs
    else
      var rest := Insert(b, bs[1..]);
      assert forall x :: x in rest ==> NotAfter(bs[0], x) by {
        forall x | x in rest ensures NotAfter(bs[0], x) {
          if x != b {
            var k :| 0 <= k < |bs[1..]| && bs[1..][k] == x;
            assert bs[k + 1] == x;
          }
        }
      }
      assert bs == [bs[0]] + bs[1..];
      [bs[0]] + rest
  }

  /** Collections.sort with Location.naturalOrder: a sorted permutation of the blocks. */
  function SortBlocks(bs: seq<Block>): (r: seq<Block>)
    ensures Sorted(r)
    ensures multiset(r) == multiset(bs)
    ensures |r| == |bs|
  {
    if bs == [] then []
    else
      assert bs == [bs[0]] + bs[1..];
      Insert(bs[0], SortBlocks(bs[1..]))
  }
}
