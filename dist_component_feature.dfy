/**
 * DistComponentFeature: a component of a distributed sequence assembly. It places a
 * stretch of a component sequence (the component location) at a stretch of the assembly
 * (the location), on one strand, and keeps the offset that translates component
 * coordinates into assembly coordinates. Once made it cannot be changed.
 *
 * The component sequence itself, its lazy resolution through the distributed sequence
 * database and the projected child features are not part of this model; the component
 * sequence's name is taken from the template.
 */
module DistComponent {
  import opened Wrappers
  import opened JavaLang
  import opened Locations

  datatype Strand = Positive | Negative | Unknown

  /** ComponentFeature.Template; None stands for a null location. */
  datatype Template = Template(
    location: Option<Location>,
    featureType: string,
    source: string,
    annotation: map<string, string>,
    strand: Strand,
    componentSequenceName: string,
    componentLocation: Option<Location>)

  datatype FeatureError =
    | NullLocation              // NullPointerException: template has null location
    | NullComponentLocation     // NullPointerException: template has null component location
    | UnequalContent            // BioException: unequal numbers of symbols
    | NotContiguous             // BioException: only contiguous segments
    | NoStrand                  // BioException: strand must be specified
    | ChangeVetoed              // ChangeVetoException from the setters

  datatype DistComponentFeature = DistComponentFeature(
    location: Location,
    featureType: string,
    source: string,
    annotation: map<string, string>,
    strand: Strand,
    componentSequenceName: string,
    componentLocation: Location,
    translation: int)
  {
    /** makeTemplate: a template carrying every field of the feature. */
    function MakeTemplate(): (t: Template)
      ensures Valid() ==> Validate(t) == Ok(this)
    {
      Template(Some(location), featureType, source, annotation, strand, componentSequenceName, Some(componentLocation))
    }

    /** What the constructor guarantees of every feature it makes. */
    predicate Valid()
    {
      location.IsContiguous() && componentLocation.IsContiguous() &&
      Content(location) == Content(componentLocation) &&
      strand != Unknown &&
      translation == Translation(location, componentLocation, strand)
    }

    /** setLocation, setSource and setType: the feature is immutable. */
    function SetLocation(loc: Location): (r: Result<(), FeatureError>)
      ensures r == Err(ChangeVetoed)
    {
      Err(ChangeVetoed)
    }

    function SetSource(src: string): (r: Result<(), FeatureError>)
      ensures r == Err(ChangeVetoed)
    {
      Err(ChangeVetoed)
    }

    function SetType(typ: string): (r: Result<(), FeatureError>)
      ensures r == Err(ChangeVetoed)
    {
      Err(ChangeVetoed)
    }
  }

  /** The symbols one block covers, in 32-bit arithmetic. */
  function BlockContent(b: Block): int
  {
    ToInt(b.Max() - b.Min() + 1)
  }

  /** The running total of the block loop of locationContent over `bs`. */
  function SumContent(bs: seq<Block>): int
  {
    if bs == [] then 0 else ToInt(SumContent(bs[..|bs| - 1]) + BlockContent(bs[|bs| - 1]))
  }

  /** The number of symbols in the location, as locationContent computes it. */
  function Content(l: Location): int
  {
    if l.IsContiguous() then ToInt(l.Max() - l.Min() + 1) else SumContent(l.Blocks())
  }

  /** The sum of the block sizes, as unbounded integers. */
  function BlockTotal(bs: seq<Block>): int
  {
    if bs == [] then 0 else BlockTotal(bs[..|bs| - 1]) + (bs[|bs| - 1].Max() - bs[|bs| - 1].Min() + 1)
  }

  /** The translation the constructor stores: max + component min on the negative strand, min - component min on the positive. */
  function Translation(loc: Location, comp: Location, strand: Strand): int
    requires loc.Blocks() != [] && comp.Blocks() != []
  {
    if strand == Negative then ToInt(loc.Max() + comp.Min())
    else ToInt(loc.Min() - comp.Min())
  }

  /** The outcome of the constructor on a template. */
  function Validate(t: Template): (r: Result<DistComponentFeature, FeatureError>)
    ensures r.Ok? ==> r.value.Valid()
    ensures r.Ok? ==> t.location == Some(r.value.location) && t.componentLocation == Some(r.value.componentLocation)
    ensures r.Ok? ==> r.value.strand == t.strand && r.value.featureType == t.featureType && r.value.source == t.source
    ensures r.Ok? ==> r.value.annotation == t.annotation && r.value.componentSequenceName == t.componentSequenceName
    ensures r == Err(NullLocation) <==> t.location.None?
    ensures r == Err(NullComponentLocation) <==> t.location.Some? && t.componentLocation.None?
    ensures r == Err(UnequalContent) <==>
      t.location.Some? && t.componentLocation.Some? &&
      Content(t.location.value) != Content(t.componentLocation.value)
    ensures r == Err(NotContiguous) <==>
      t.location.Some? && t.componentLocation.Some? &&
      Content(t.location.value) == Content(t.componentLocation.value) &&
      !(t.location.value.IsContiguous() && t.componentLocation.value.IsContiguous())
    ensures r == Err(NoStrand) <==>
      t.location.Some? && t.componentLocation.Some? &&
      Content(t.location.value) == Content(t.componentLocation.value) &&
      t.location.value.IsContiguous() && t.componentLocation.value.IsContiguous() &&
      t.strand == Unknown
    ensures r.Ok? <==>
      t.location.Some? && t.componentLocation.Some? &&
      Content(t.location.value) == Content(t.componentLocation.value) &&
      t.location.value.IsContiguous() && t.componentLocation.value.IsContiguous() &&
      t.strand != Unknown
  {
    if t.location.None? then Err(NullLocation)
    else if t.componentLocation.None? then Err(NullComponentLocation)
    else
      var loc := t.location.value;
      var comp := t.componentLocation.value;
      if Content(loc) != Content(comp) then Err(UnequalContent)
      else if !loc.IsContiguous() || !comp.IsContiguous() then Err(NotContiguous)
      else if t.strand == Unknown then Err(NoStrand)
      else Ok(DistComponentFeature(loc, t.featureType, t.source, t.annotation, t.strand,
                                   t.componentSequenceName, comp, Translation(loc, comp, t.strand)))
  }

  /** locationContent: the span of a contiguous location, else the block sizes added up. */
  method LocationContent(l: Location) returns (c: int)
    ensures c == Content(l)
    ensures IsInt(c)
  {
    if l.IsContiguous() {
      return ToInt(l.Max() - l.Min() + 1);
    }
    var bs := l.Blocks();
    c := 0;
    for i := 0 to |bs|
      invariant c == SumContent(bs[..i])
    {
      assert bs[..i + 1][..i] == bs[..i];
      c := ToInt(c + BlockContent(bs[i]));
    }
    assert bs[..|bs|] == bs;
  }

  /** The constructor: the checks in the order the source makes them, then the translation. */
  method New(t: Template) returns (r: Result<DistComponentFeature, FeatureError>)
    ensures r == Validate(t)
  {
    if t.location.None? {
      return Err(NullLocation);
    }
    if t.componentLocation.None? {
      return Err(NullComponentLocation);
    }
    var loc := t.location.value;
    var comp := t.componentLocation.value;
    var c1 := LocationContent(loc);
    var c2 := LocationContent(comp);
    if c1 != c2 {
      return Err(UnequalContent);
    }
    if !loc.IsContiguous() || !comp.IsContiguous() {
      return Err(NotContiguous);
    }
    var translation: int;
    if t.strand == Negative {
      translation := ToInt(loc.Max() + comp.Min());
    } else if t.strand == Positive {
      translation := ToInt(loc.Min() - comp.Min());
    } else {
      return Err(NoStrand);
    }
    return Ok(DistComponentFeature(loc, t.featureType, t.source, t.annotation, t.strand,
                                   t.componentSequenceName, comp, translation));
  }

  /** Without 32-bit overflow, the block loop counts the block sizes exactly. */
  lemma {:induction false} SumContentExact(bs: seq<Block>)
    requires forall i :: 0 <= i < |bs| ==> 0 <= bs[i].Min() <= bs[i].Max()
    requires BlockTotal(bs) <= INT_MAX
    ensures SumContent(bs) == BlockTotal(bs)
  {
    if bs != [] {
      var init := bs[..|bs| - 1];
      assert forall i :: 0 <= i < |init| ==> init[i] == bs[i];
      BlockTotalNonNegative(init);
      SumContentExact(init);
    }
  }

  lemma {:induction false} BlockTotalNonNegative(bs: seq<Block>)
    requires forall i :: 0 <= i < |bs| ==> bs[i].Min() <= bs[i].Max()
    ensures BlockTotal(bs) >= 0
  {
    if bs != [] {
      var init := bs[..|bs| - 1];
      assert forall i :: 0 <= i < |init| ==> init[i] == bs[i];
      BlockTotalNonNegative(init);
    }
  }

  /**
   * The translation maps the component onto the location: on the positive strand the
   * component's ends move to the location's ends, on the negative strand they swap
   * (component position p sits at translation - p), provided no value wraps around.
   */
  lemma TranslationMapsEnds(t: Template)
    requires Validate(t).Ok?
    requires var loc := t.location.value; var comp := t.componentLocation.value;
      IsInt(loc.Max() - loc.Min() + 1) && IsInt(comp.Max() - comp.Min() + 1) &&
      IsInt(loc.Max() + comp.Min()) && IsInt(loc.Min() - comp.Min())
    ensures var f := Validate(t).value;
      f.strand == Positive ==>
        f.componentLocation.Min() + f.translation == f.location.Min() &&
        f.componentLocation.Max() + f.translation == f.location.Max()
    ensures var f := Validate(t).value;
      f.strand == Negative ==>
        f.translation - f.componentLocation.Min() == f.location.Max() &&
        f.translation - f.componentLocation.Max() == f.location.Min()
  {
    var loc := t.location.value;
    var comp := t.componentLocation.value;
    assert Content(loc) == loc.Max() - loc.Min() + 1;
    assert Content(comp) == comp.Max() - comp.Min() + 1;
  }
}
