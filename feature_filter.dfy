/**
 * FeatureFilter: predicates over sequence features, and the reasoning each optimisable
 * filter does about itself (is it a subset of another filter, can the two ever accept the
 * same feature). Filters are values; a feature is a value that carries its chain of parents
 * and its children.
 *
 * Every operation takes a flag `corrected`: false gives the code as written, true the code
 * as it was evidently meant (a FrameFilter equal only to a FrameFilter of the same frame,
 * strand and frame filters disjoint only when their strands or frames differ, and
 * ByDescendant looking at descendants, not ancestors).
 */
module FeatureFilters {
  import opened Wrappers

  // ---------------------------------------------------------------------------------------
  // Features.

  datatype Strand = Positive | Negative | Unknown

  datatype Frame = Frame0 | Frame1 | Frame2

  /** What getParent returns: a Sequence, a Feature, or some other FeatureHolder. */
  datatype Holder = OnSequence | InFeature(feature: Feature) | InOtherHolder

  /**
   * A feature. strand is None for a feature that is not a StrandedFeature, frame is None
   * for one that is not a FramedFeature. The parent chain and the children are kept
   * separately: the model does not tie a child's parent back to the feature.
   */
  datatype Feature = Feature(
    featureType: string,
    source: string,
    strand: Option<Strand>,
    frame: Option<Frame>,
    parent: Holder,
    children: seq<Feature>)

  // ---------------------------------------------------------------------------------------
  // Filters.

  datatype Filter =
    | AcceptAll
    | AcceptNone
    | Not(child: Filter)
    | And(c1: Filter, c2: Filter)
    | Or(c1: Filter, c2: Filter)
    | ByType(featureType: string)
    | BySource(source: string)
    | ByStrand(strand: Strand)
    | ByFrame(frame: Frame)
    | ByParent(filter: Filter)
    | ByAncestor(filter: Filter)
    | ByChild(filter: Filter)
    | ByDescendant(filter: Filter)
    | IsTopLevel
    | IsLeaf

  /** The filters that implement OptimizableFilter (and so isProperSubset and isDisjoint). */
  predicate Optimizable(a: Filter)
  {
    !(a.Not? || a.And? || a.Or?)
  }

  /** new ByType(type): a null type is refused with a NullPointerException. */
  function NewByType(featureType: Option<string>): (r: Result<Filter, string>)
    ensures r.Err? <==> featureType.None?
    ensures r.Ok? ==> r.value.ByType? && r.value.featureType == featureType.value
    ensures r.Err? ==> r.error == "Type may not be null"
  {
    match featureType
    case None => Err("Type may not be null")
    case Some(t) => Ok(ByType(t))
  }

  /** new BySource(source): a null source is refused with a NullPointerException. */
  function NewBySource(source: Option<string>): (r: Result<Filter, string>)
    ensures r.Err? <==> source.None?
    ensures r.Ok? ==> r.value.BySource? && r.value.source == source.value
    ensures r.Err? ==> r.error == "Source may not be null"
  {
    match source
    case None => Err("Source may not be null")
    case Some(s) => Ok(BySource(s))
  }

  // ---------------------------------------------------------------------------------------
  // accept.

  /**
   * accept(f) for every filter. A filter that looks up never passes a feature without a
   * Feature parent, and one that looks down never passes a leaf.
   */
  function Accept(a: Filter, f: Feature, corrected: bool): (r: bool)
    ensures r && (a.ByParent? || a.ByAncestor? || (a.ByDescendant? && !corrected)) ==> f.parent.InFeature?
    ensures r && (a.ByChild? || (a.ByDescendant? && corrected)) ==> |f.children| > 0
    decreases a, 0, f
  {
    match a
    case AcceptAll => true
    case AcceptNone => false
    case Not(c) => !Accept(c, f, corrected)
    case And(c1, c2) => Accept(c1, f, corrected) && Accept(c2, f, corrected)
    case Or(c1, c2) => Accept(c1, f, corrected) || Accept(c2, f, corrected)
    case ByType(t) => f.featureType == t
    case BySource(s) => f.source == s
    case ByStrand(s) => if f.strand.Some? then f.strand.value == s else s == Unknown
    case ByFrame(fr) => f.frame.Some? && f.frame.value == fr
    case ByParent(g) => f.parent.InFeature? && Accept(g, f.parent.feature, corrected)
    case ByAncestor(g) => SomeAncestor(g, f, corrected)
    case ByChild(g) => exists i :: 0 <= i < |f.children| && Accept(g, f.children[i], corrected)
    case ByDescendant(g) => if corrected then SomeDescendant(g, f, corrected) else SomeAncestor(g, f, corrected)
    case IsTopLevel => f.parent.OnSequence?
    case IsLeaf => |f.children| == 0
  }

  /** Some feature up the chain of Feature parents of f passes g. */
  function SomeAncestor(g: Filter, f: Feature, corrected: bool): (r: bool)
    ensures r ==> f.parent.InFeature?
    ensures f.parent.InFeature? && Accept(g, f.parent.feature, corrected) ==> r
    decreases g, 1, f
  {
    match f.parent
    case InFeature(p) => Accept(g, p, corrected) || SomeAncestor(g, p, corrected)
    case _ => false
  }

  /** Some child of f, or some feature below one, passes g. */
  function SomeDescendant(g: Filter, f: Feature, corrected: bool): (r: bool)
    ensures r ==> |f.children| > 0
    ensures forall i :: 0 <= i < |f.children| && Accept(g, f.children[i], corrected) ==> r
    decreases g, 1, f
  {
    exists i :: 0 <= i < |f.children| &&
      (Accept(g, f.children[i], corrected) || SomeDescendant(g, f.children[i], corrected))
  }

  /**
   * The do-while loop of ByAncestor.accept, which ByDescendant.accept repeats: climb to the
   * parent while it is a Feature, and stop at the first one that passes.
   */
  method WalkAncestors(g: Filter, f: Feature, corrected: bool) returns (r: bool)
    ensures r == SomeAncestor(g, f, corrected)
  {
    var current := f;
    while true
      invariant SomeAncestor(g, f, corrected) == SomeAncestor(g, current, corrected)
      decreases current
    {
      match current.parent
      case InFeature(p) =>
        current := p;
        if Accept(g, current, corrected) {
          return true;
        }
      case _ =>
        return false;
    }
  }

  /** The loop of ByChild.accept: the first child that passes. */
  method AnyChild(g: Filter, f: Feature, corrected: bool) returns (r: bool)
    ensures r <==> exists i :: 0 <= i < |f.children| && Accept(g, f.children[i], corrected)
  {
    var children := f.children;
    for i := 0 to |children|
      invariant forall j :: 0 <= j < i ==> !Accept(g, children[j], corrected)
    {
      if Accept(g, children[i], corrected) {
        return true;
      }
    }
    return false;
  }

  // ---------------------------------------------------------------------------------------
  // equals, isProperSubset and isDisjoint.

  /** A FilterUtils relation a filter asks about instead of answering itself. */
  datatype Relation = Equal | ProperSubset | Disjoint

  /** An answer, or the question put to FilterUtils (which is not part of this model). */
  datatype Verdict = Decided(answer: bool) | Ask(relation: Relation, x: Filter, y: Filter)

  /** The number of filter nodes in a. */
  function Size(a: Filter): (n: nat)
    ensures n >= 1
  {
    match a
    case Not(c) => 1 + Size(c)
    case And(c1, c2) => 1 + Size(c1) + Size(c2)
    case Or(c1, c2) => 1 + Size(c1) + Size(c2)
    case ByParent(g) => 1 + Size(g)
    case ByAncestor(g) => 1 + Size(g)
    case ByChild(g) => 1 + Size(g)
    case ByDescendant(g) => 1 + Size(g)
    case _ => 1
  }

  /**
   * a.equals(o). The wrapping filters ask the other filter's child whether it equals their
   * own; And and Or ask FilterUtils. As written a FrameFilter equals every StrandFilter.
   * Corrected, for filters without And or Or, equals is structural equality; a question is
   * only ever put to FilterUtils about an And or an Or.
   */
  function Equals(a: Filter, o: Filter, corrected: bool): (r: Verdict)
    ensures corrected && Plain(a) && Plain(o) ==> r == Decided(a == o)
    ensures r.Ask? ==> r.relation == Equal && (r.x.And? || r.x.Or?)
    decreases Size(a) + Size(o)
  {
    match a
    case AcceptAll => Decided(o.AcceptAll?)
    case AcceptNone => Decided(o.AcceptNone?)
    case Not(c) => if o.Not? then Equals(o.child, c, corrected) else Decided(false)
    case And(_, _) => Ask(Equal, a, o)
    case Or(_, _) => Ask(Equal, a, o)
    case ByType(t) => Decided(o.ByType? && o.featureType == t)
    case BySource(s) => Decided(o.BySource? && o.source == s)
    case ByStrand(s) => Decided(o.ByStrand? && o.strand == s)
    case ByFrame(fr) => Decided(if corrected then o.ByFrame? && o.frame == fr else o.ByStrand?)
    case ByParent(g) => if o.ByParent? then Equals(o.filter, g, corrected) else Decided(false)
    case ByAncestor(g) => if o.ByAncestor? then Equals(o.filter, g, corrected) else Decided(false)
    case ByChild(g) => if o.ByChild? then Equals(o.filter, g, corrected) else Decided(false)
    case ByDescendant(g) => if o.ByDescendant? then Equals(o.filter, g, corrected) else Decided(false)
    case IsTopLevel => Decided(o.IsTopLevel?)
    case IsLeaf => Decided(o.IsLeaf?)
  }

  /** a.equals(o) answered yes. */
  predicate Same(a: Filter, o: Filter, corrected: bool)
  {
    Equals(a, o, corrected) == Decided(true)
  }

  /**
   * a.isProperSubset(sup): every feature a accepts, sup accepts too. Corrected, a filter on
   * one property is a subset exactly of itself (and of AcceptAll where the code says so);
   * the wrapping filters ask FilterUtils about their inner filters.
   */
  function IsProperSubset(a: Filter, sup: Filter, corrected: bool): (r: Verdict)
    requires Optimizable(a)
    ensures corrected && (a.ByType? || a.BySource? || a.IsTopLevel? || a.IsLeaf?) ==>
      r == Decided(sup == a || sup.AcceptAll?)
    ensures corrected && (a.ByStrand? || a.ByFrame?) ==> r == Decided(sup == a)
    ensures a.AcceptNone? ==> r == Decided(true)
    ensures r.Ask? ==> r.relation == ProperSubset && (a.ByParent? || a.ByAncestor? || a.ByChild? || a.ByDescendant?)
  {
    match a
    case AcceptAll => Decided(sup.AcceptAll?)
    case AcceptNone => Decided(true)
    case ByType(_) => Decided(Same(a, sup, corrected) || sup.AcceptAll?)
    case BySource(_) => Decided(Same(a, sup, corrected) || sup.AcceptAll?)
    case ByStrand(_) => Decided(Same(a, sup, corrected))
    case ByFrame(_) => Decided(Same(a, sup, corrected))
    case ByParent(g) =>
      if sup.ByParent? || sup.ByAncestor? then Ask(ProperSubset, sup.filter, g) else Decided(false)
    case ByAncestor(g) => if sup.ByAncestor? then Ask(ProperSubset, sup.filter, g) else Decided(false)
    case ByChild(g) =>
      if sup.ByChild? || sup.ByDescendant? then Ask(ProperSubset, sup.filter, g) else Decided(false)
    case ByDescendant(g) => if sup.ByDescendant? then Ask(ProperSubset, sup.filter, g) else Decided(false)
    case IsTopLevel => Decided(sup.IsTopLevel? || sup.AcceptAll?)
    case IsLeaf => Decided(sup.IsLeaf? || sup.AcceptAll?)
  }

  /**
   * a.isDisjoint(b): no feature passes both. As written a StrandFilter (FrameFilter) claims
   * to be disjoint from the StrandFilter (FrameFilter) of the same strand (frame), and
   * ByDescendant, copied from ByAncestor, claims to be disjoint from IsTopLevel; corrected,
   * it is disjoint from IsLeaf, as ByChild is.
   */
  function IsDisjoint(a: Filter, b: Filter, corrected: bool): (r: Verdict)
    requires Optimizable(a)
    ensures corrected && (a.ByType? || a.BySource? || a.ByStrand? || a.ByFrame?) ==>
      (r == Decided(true) <==> b.AcceptNone? || (SameKind(a, b) && a != b))
    ensures r.Ask? ==> r.relation == Disjoint && (a.ByParent? || a.ByAncestor? || a.ByChild? || a.ByDescendant?)
  {
    match a
    case AcceptAll => Decided(b.AcceptNone?)
    case AcceptNone => Decided(true)
    case ByType(t) => Decided(b.AcceptNone? || (b.ByType? && t != b.featureType))
    case BySource(s) => Decided(b.AcceptNone? || (b.BySource? && s != b.source))
    case ByStrand(s) =>
      Decided(b.AcceptNone? || (b.ByStrand? && (if corrected then b.strand != s else b.strand == s)))
    case ByFrame(fr) =>
      Decided(b.AcceptNone? || (b.ByFrame? && (if corrected then b.frame != fr else b.frame == fr)))
    case ByParent(g) =>
      if b.IsTopLevel? then Decided(true)
      else if b.ByParent? then Ask(Disjoint, b.filter, g)
      else Decided(false)
    case ByAncestor(g) =>
      if b.IsTopLevel? then Decided(true)
      else if b.ByParent? then Ask(Disjoint, b.filter, g)
      else Decided(false)
    case ByChild(g) =>
      if b.IsLeaf? then Decided(true)
      else if b.ByChild? then Ask(Disjoint, b.filter, g)
      else Decided(false)
    case ByDescendant(g) =>
      if (if corrected then b.IsLeaf? else b.IsTopLevel?) then Decided(true)
      else if b.ByChild? || b.ByDescendant? then Ask(Disjoint, b.filter, g)
      else Decided(false)
    case IsTopLevel => Decided(b.ByParent? || b.ByAncestor?)
    case IsLeaf => Decided(b.ByChild? || b.ByDescendant? || b.AcceptNone?)
  }

  /** Two filters on the same property: both on the type, the source, the strand or the frame. */
  predicate SameKind(a: Filter, b: Filter)
  {
    (a.ByType? && b.ByType?) || (a.BySource? && b.BySource?) ||
    (a.ByStrand? && b.ByStrand?) || (a.ByFrame? && b.ByFrame?)
  }

  // ---------------------------------------------------------------------------------------
  // What the corrected answers mean.

  /** a contains no And or Or, whose equality FilterUtils decides. */
  predicate Plain(a: Filter)
  {
    match a
    case And(_, _) => false
    case Or(_, _) => false
    case Not(c) => Plain(c)
    case ByParent(g) => Plain(g)
    case ByAncestor(g) => Plain(g)
    case ByChild(g) => Plain(g)
    case ByDescendant(g) => Plain(g)
    case _ => true
  }

  /** Corrected, equal filters accept the same features. */
  lemma {:induction false} EqualsSound(a: Filter, o: Filter, f: Feature)
    requires Same(a, o, true)
    ensures Accept(a, f, true) == Accept(o, f, true)
    decreases Size(a) + Size(o), f
  {
    match a
    case Not(c) => EqualsSound(o.child, c, f);
    case ByParent(g) =>
      if f.parent.InFeature? {
        EqualsSound(o.filter, g, f.parent.feature);
      }
    case ByAncestor(g) => AncestorsAgree(o.filter, g, f);
    case ByChild(g) =>
      forall i | 0 <= i < |f.children|
        ensures Accept(g, f.children[i], true) == Accept(o.filter, f.children[i], true)
      {
        EqualsSound(o.filter, g, f.children[i]);
      }
    case ByDescendant(g) => DescendantsAgree(o.filter, g, f);
    case _ =>
  }

  /** Filters that equal each other find the same ancestors. */
  lemma {:induction false} AncestorsAgree(x: Filter, y: Filter, f: Feature)
    requires Same(x, y, true)
    ensures SomeAncestor(x, f, true) == SomeAncestor(y, f, true)
    decreases Size(x) + Size(y), f
  {
    if f.parent.InFeature? {
      EqualsSound(x, y, f.parent.feature);
      AncestorsAgree(x, y, f.parent.feature);
    }
  }

  /** Filters that equal each other find the same descendants. */
  lemma {:induction false} DescendantsAgree(x: Filter, y: Filter, f: Feature)
    requires Same(x, y, true)
    ensures SomeDescendant(x, f, true) == SomeDescendant(y, f, true)
    decreases Size(x) + Size(y), f
  {
    forall i | 0 <= i < |f.children|
      ensures Accept(x, f.children[i], true) == Accept(y, f.children[i], true)
      ensures SomeDescendant(x, f.children[i], true) == SomeDescendant(y, f.children[i], true)
    {
      EqualsSound(x, y, f.children[i]);
      DescendantsAgree(x, y, f.children[i]);
    }
  }

  /** Corrected, a subset verdict of yes holds for every feature. */
  lemma ProperSubsetSound(a: Filter, sup: Filter, f: Feature)
    requires Optimizable(a) && IsProperSubset(a, sup, true) == Decided(true)
    requires Accept(a, f, true)
    ensures Accept(sup, f, true)
  {
    if Same(a, sup, true) {
      EqualsSound(a, sup, f);
    }
  }

  /** A top-level feature has no Feature ancestors for any filter to pass. */
  lemma TopLevelHasNoAncestors(g: Filter, f: Feature, corrected: bool)
    requires f.parent.OnSequence?
    ensures !SomeAncestor(g, f, corrected)
  {
  }

  /** Corrected, a disjointness verdict of yes holds for every feature. */
  lemma DisjointSound(a: Filter, b: Filter, f: Feature)
    requires Optimizable(a) && IsDisjoint(a, b, true) == Decided(true)
    ensures !(Accept(a, f, true) && Accept(b, f, true))
  {
    if f.parent.OnSequence? {
      if a.ByAncestor? {
        TopLevelHasNoAncestors(a.filter, f, true);
      } else if b.ByAncestor? {
        TopLevelHasNoAncestors(b.filter, f, true);
      }
    }
  }

  // ---------------------------------------------------------------------------------------
  // Ancestors and descendants, listed.

  /** The Feature parents of f, nearest first. */
  function Ancestors(f: Feature): seq<Feature>
    decreases f
  {
    match f.parent
    case InFeature(p) => [p] + Ancestors(p)
    case _ => []
  }

  /** Every feature below f: each child, then the features below it, in order. */
  function Descendants(f: Feature): seq<Feature>
    decreases f, 1
  {
    DescendantsFrom(f, 0)
  }

  /** The features below the children of f from child i on. */
  function DescendantsFrom(f: Feature, i: nat): seq<Feature>
    requires i <= |f.children|
    decreases f, 0, |f.children| - i
  {
    if i == |f.children| then []
    else [f.children[i]] + Descendants(f.children[i]) + DescendantsFrom(f, i + 1)
  }

  /** Some feature of fs passes g. */
  predicate Meets(g: Filter, fs: seq<Feature>, corrected: bool)
  {
    exists k :: 0 <= k < |fs| && Accept(g, fs[k], corrected)
  }

  lemma MeetsAppend(g: Filter, xs: seq<Feature>, ys: seq<Feature>, corrected: bool)
    ensures Meets(g, xs + ys, corrected) <==> Meets(g, xs, corrected) || Meets(g, ys, corrected)
  {
    if Meets(g, xs + ys, corrected) {
      var k :| 0 <= k < |xs + ys| && Accept(g, (xs + ys)[k], corrected);
      if k >= |xs| {
        assert ys[k - |xs|] == (xs + ys)[k];
      }
    }
    if Meets(g, xs, corrected) {
      var k :| 0 <= k < |xs| && Accept(g, xs[k], corrected);
      assert (xs + ys)[k] == xs[k];
    }
    if Meets(g, ys, corrected) {
      var k :| 0 <= k < |ys| && Accept(g, ys[k], corrected);
      assert (xs + ys)[|xs| + k] == ys[k];
    }
  }

  /** ByAncestor accepts f exactly when one of its Feature ancestors passes the inner filter. */
  lemma {:induction false} AncestorLooksUp(g: Filter, f: Feature, corrected: bool)
    ensures Accept(ByAncestor(g), f, corrected) <==> Meets(g, Ancestors(f), corrected)
    decreases f
  {
    match f.parent
    case InFeature(p) =>
      AncestorLooksUp(g, p, corrected);
      MeetsAppend(g, [p], Ancestors(p), corrected);
      assert Meets(g, [p], corrected) <==> Accept(g, p, corrected) by {
        assert [p][0] == p;
      }
    case _ =>
  }

  /** Corrected, ByDescendant accepts f exactly when a feature below it passes the inner filter. */
  lemma {:induction false} DescendantLooksDown(g: Filter, f: Feature)
    ensures Accept(ByDescendant(g), f, true) <==> Meets(g, Descendants(f), true)
    decreases f, 1
  {
    DescendantsFromMeet(g, f, 0);
    if SomeDescendant(g, f, true) {
      var j :| 0 <= j < |f.children| &&
        (Accept(g, f.children[j], true) || SomeDescendant(g, f.children[j], true));
      assert Hit(g, f, j);
    }
  }

  /** The children from i on, or the features below them, pass g exactly when a feature listed from i on does. */
  lemma {:induction false} DescendantsFromMeet(g: Filter, f: Feature, i: nat)
    requires i <= |f.children|
    ensures (exists j :: i <= j < |f.children| && Hit(g, f, j)) <==> Meets(g, DescendantsFrom(f, i), true)
    decreases f, 0, |f.children| - i
  {
    if i < |f.children| {
      var c := f.children[i];
      DescendantLooksDown(g, c);
      DescendantsFromMeet(g, f, i + 1);
      MeetsAppend(g, [c] + Descendants(c), DescendantsFrom(f, i + 1), true);
      MeetsAppend(g, [c], Descendants(c), true);
      assert Meets(g, [c], true) <==> Accept(g, c, true) by {
        assert [c][0] == c;
      }
      assert Hit(g, f, i) <==> Accept(g, c, true) || Meets(g, Descendants(c), true);
      if exists j :: i <= j < |f.children| && Hit(g, f, j) {
        var j :| i <= j < |f.children| && Hit(g, f, j);
        if j > i {
          assert exists j' :: i + 1 <= j' < |f.children| && Hit(g, f, j');
        }
      }
    }
  }

  /** Child j of f, or a feature below it, passes g (corrected). */
  predicate Hit(g: Filter, f: Feature, j: nat)
    requires j < |f.children|
  {
    Accept(g, f.children[j], true) || SomeDescendant(g, f.children[j], true)
  }

  // ---------------------------------------------------------------------------------------
  // Where the code as written goes wrong.

  /** A positive-strand, frame-0 feature on a sequence, with the given children. */
  function Sample(children: seq<Feature>): (f: Feature)
    ensures f.strand == Some(Positive) && f.frame == Some(Frame0) && f.parent.OnSequence?
    ensures f.children == children
  {
    Feature("exon", "model", Some(Positive), Some(Frame0), OnSequence, children)
  }

  /** As written a FrameFilter is not equal to itself, and is equal to a StrandFilter. */
  lemma FrameEqualsStrand()
    ensures !Same(ByFrame(Frame0), ByFrame(Frame0), false)
    ensures Same(ByFrame(Frame0), ByStrand(Negative), false)
    ensures IsProperSubset(ByFrame(Frame0), ByStrand(Negative), false) == Decided(true)
    ensures Accept(ByFrame(Frame0), Sample([]), false) && !Accept(ByStrand(Negative), Sample([]), false)
  {
  }

  /** As written a StrandFilter is disjoint from itself, though a feature on that strand passes both. */
  lemma StrandDisjointFromItself()
    ensures IsDisjoint(ByStrand(Positive), ByStrand(Positive), false) == Decided(true)
    ensures Accept(ByStrand(Positive), Sample([]), false)
  {
  }

  /** As written a FrameFilter is disjoint from itself, though a feature in that frame passes both. */
  lemma FrameDisjointFromItself()
    ensures IsDisjoint(ByFrame(Frame0), ByFrame(Frame0), false) == Decided(true)
    ensures Accept(ByFrame(Frame0), Sample([]), false)
  {
  }

  /**
   * As written ByDescendant looks up instead of down: a top-level feature whose child
   * passes the filter is rejected, and a leaf under a passing feature is accepted although
   * IsLeaf claims to be disjoint from ByDescendant.
   */
  lemma DescendantLooksUp()
    ensures var top := Sample([Sample([])]);
      !Accept(ByDescendant(ByType("exon")), top, false) && Accept(ByDescendant(ByType("exon")), top, true)
    ensures var leaf := Feature("cds", "model", None, None, InFeature(Sample([])), []);
      IsDisjoint(IsLeaf, ByDescendant(ByType("exon")), false) == Decided(true) &&
      Accept(IsLeaf, leaf, false) && Accept(ByDescendant(ByType("exon")), leaf, false)
  {
    var top := Sample([Sample([])]);
    assert Accept(ByType("exon"), top.children[0], true);
  }
}
