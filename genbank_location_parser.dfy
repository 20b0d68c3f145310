/**
 * GenbankLocationParser (org.biojavax.bio.seq.io): reads and writes the location strings of
 * GenBank feature tables, such as `complement(join(2691..4571,4918..5163))` or `J00194:100..202`.
 *
 * The parser is recursive descent driven by four regular expressions. Each one is modelled by
 * the decomposition it computes, and lemmas below state that decomposition in plain words.
 * The static rank counter, which numbers simple locations in the order they are read, is
 * threaded through the parse as an argument and returned with the result.
 */
module GenbankLocations {
  import opened Wrappers
  import opened JavaLang

  datatype Strand = Positive | Negative | Unknown

  /** The strand of a complemented location: positive inside a negative parent, else negative. */
  function Flip(parent: Strand): (r: Strand)
    ensures r != Unknown
    ensures r == Positive <==> parent == Negative
  {
    if parent == Negative then Positive else Negative
  }

  /** A cross reference to another entry; version 0 stands for "no version given". */
  datatype CrossRef = CrossRef(namespace: string, accession: string, version: int)

  /** ExactPosition, RangePosition ("a.b") and BetweenPosition ("a^b"). */
  datatype PositionKind = Exact | Range | Between

  datatype Position = Position(fuzzyStart: bool, fuzzyEnd: bool, start: int, end: int, kind: PositionKind)

  datatype GroupTerm = Join | Order

  datatype RichLocation =
    | SimpleRichLocation(startPos: Position, endPos: Position, rank: int, strand: Strand,
                         crossRef: Option<CrossRef>)
    | CompoundRichLocation(term: GroupTerm, members: seq<RichLocation>)

  /** ParseException carries its message; NumberFormatException the digits Integer.parseInt refused. */
  datatype ParseError = ParseException(message: string) | NumberFormatException(digits: string)

  /** A parsed location and the value of the rank counter after it. */
  datatype Parsed = Parsed(location: RichLocation, nextRank: int)

  // ---------------------------------------------------------------------------------------
  // Character-level helpers for the regular expressions.

  /** The characters Java's `.` does not match (no DOTALL flag). */
  predicate IsLineTerminator(c: char)
  {
    c == '\n' || c == '\r' || c == '\U{85}' || c == '\U{2028}' || c == '\U{2029}'
  }

  predicate OnOneLine(s: string)
  {
    |s| == 0 || (!IsLineTerminator(s[0]) && OnOneLine(s[1..]))
  }

  /** `\(*` at the front: all leading '(' removed. */
  function DropOpen(s: string): (r: string)
    ensures |r| <= |s| && r == s[|s| - |r|..]
    ensures |r| == 0 || r[0] != '('
  {
    if |s| > 0 && s[0] == '(' then DropOpen(s[1..]) else s
  }

  /** `\)*$` at the back: all trailing ')' removed. */
  function DropClose(s: string): (r: string)
    ensures |r| <= |s| && r == s[..|r|]
    ensures |r| == 0 || r[|r| - 1] != ')'
  {
    if |s| > 0 && s[|s| - 1] == ')' then DropClose(s[..|s| - 1]) else s
  }

  /** The position of the ':' ending the optional xref group `([^\(\):]*?:)`, if it can match. */
  function XrefColon(s: string): (r: Option<nat>)
    ensures r.Some? ==> r.value < |s| && s[r.value] == ':'
  {
    if |s| == 0 || s[0] == '(' || s[0] == ')' then None
    else if s[0] == ':' then Some(0)
    else match XrefColon(s[1..])
      case None => None
      case Some(k) => Some(k + 1)
  }

  /** The group keyword `(complement|join|order)?` at the front of the text. */
  datatype Group = NoGroup | Complement | JoinGroup | OrderGroup

  function Keyword(g: Group): string
  {
    match g
    case NoGroup => ""
    case Complement => "complement"
    case JoinGroup => "join"
    case OrderGroup => "order"
  }

  function GroupWord(s: string): (g: Group)
    ensures Keyword(g) <= s
  {
    if "complement" <= s then Complement
    else if "join" <= s then JoinGroup
    else if "order" <= s then OrderGroup
    else NoGroup
  }

  /** The inner text `(.*?)` between the leading '(' run and the trailing ')' run. */
  function Inner(s: string): (r: string)
    ensures |r| <= |s|
  {
    DropClose(DropOpen(s))
  }

  /** The maximal run of decimal digits at the front. */
  function LeadingDigits(s: string): (d: string)
    ensures d <= s && AllDigits(d)
    ensures |d| == |s| || !IsDigit(s[|d|])
  {
    if |s| > 0 && IsDigit(s[0]) then [s[0]] + LeadingDigits(s[1..]) else []
  }

  /** The position of the last '.', if any. */
  function LastDot(s: string): (r: Option<nat>)
    ensures r.Some? ==> r.value < |s| && s[r.value] == '.'
  {
    if |s| == 0 then None
    else if s[|s| - 1] == '.' then Some(|s| - 1)
    else LastDot(s[..|s| - 1])
  }

  /** The first position of "..", if any. */
  function FirstDots(s: string): (r: Option<nat>)
    ensures r.Some? ==> r.value + 1 < |s| && s[r.value] == '.' && s[r.value + 1] == '.'
  {
    if |s| < 2 then None
    else if s[0] == '.' && s[1] == '.' then Some(0)
    else match FirstDots(s[1..])
      case None => None
      case Some(k) => Some(k + 1)
  }

  // ---------------------------------------------------------------------------------------
  // The xref pattern `^(.*?)(\.(\d+))?:$`.

  /** An xref name without its ':' split into accession and optional version digits. */
  function SplitVersion(body: string): (r: (string, Option<string>))
    ensures r.0 <= body
    ensures r.1.None? ==> r.0 == body
    ensures r.1.Some? ==> |r.1.value| > 0 && AllDigits(r.1.value) && body == r.0 + "." + r.1.value
  {
    match LastDot(body)
    case Some(d) =>
      if d + 1 < |body| && AllDigits(body[d + 1..]) then (body[..d], Some(body[d + 1..]))
      else (body, None)
    case None => (body, None)
  }

  /**
   * The cross reference an xref prefix stands for: none when it names the feature's own
   * accession, else a CrossRef in the feature's namespace (version 0 when none is given).
   */
  function ReadXref(namespace: string, featureAccession: string, name: string): (r: Result<Option<CrossRef>, ParseError>)
    requires |name| > 0
    ensures r.Err? && r.error.ParseException? <==> !OnOneLine(name[..|name| - 1])
    ensures r.Err? && r.error.ParseException? ==> r.error.message == "Bad location xref found: " + name
    ensures r.Err? && r.error.NumberFormatException? ==>
      |r.error.digits| > 0 && AllDigits(r.error.digits) && DigitsValue(r.error.digits) > INT_MAX
    ensures r == Ok(None) ==> featureAccession <= name
    ensures r.Ok? && r.value.Some? ==>
      r.value.value.namespace == namespace && r.value.value.accession != featureAccession &&
      r.value.value.accession <= name && 0 <= r.value.value.version <= INT_MAX
  {
    var body := name[..|name| - 1];
    if !OnOneLine(body) then Err(ParseException("Bad location xref found: " + name))
    else
      var (accession, version) := SplitVersion(body);
      if accession == featureAccession then Ok(None)
      else match version
        case None => Ok(Some(CrossRef(namespace, accession, 0)))
        case Some(v) =>
          if DigitsValue(v) > INT_MAX then Err(NumberFormatException(v))
          else Ok(Some(CrossRef(namespace, accession, DigitsValue(v))))
  }

  // ---------------------------------------------------------------------------------------
  // The position pattern `^\(*(<)?(\d+)(([\.\^])(\d+))?(>)?\)*$`.

  /** What may follow the digits of a position: an optional '>' and then only ')'. */
  predicate PositionTail(e: string)
  {
    DropClose(if |e| > 0 && e[0] == '>' then e[1..] else e) == []
  }

  function ReadPosition(t: string, which: string): (r: Result<Position, ParseError>)
    ensures DropOpen(t) == [] ==> r.Err?
    ensures r.Ok? ==> 0 <= r.value.start <= INT_MAX && 0 <= r.value.end <= INT_MAX
    ensures r.Ok? && r.value.kind == Exact ==> r.value.start == r.value.end
    ensures r.Ok? ==> (r.value.fuzzyStart <==> |DropOpen(t)| > 0 && DropOpen(t)[0] == '<')
    ensures r.Err? && r.error.ParseException? ==> r.error.message == "Could not understand " + which + " position: " + t
    ensures r.Err? && r.error.NumberFormatException? ==>
      |r.error.digits| > 0 && AllDigits(r.error.digits) && DigitsValue(r.error.digits) > INT_MAX
  {
    var a := DropOpen(t);
    var fuzzyStart := |a| > 0 && a[0] == '<';
    var b := if fuzzyStart then a[1..] else a;
    var first := LeadingDigits(b);
    var c := b[|first|..];
    var bad := Err(ParseException("Could not understand " + which + " position: " + t));
    if |first| == 0 then bad
    else if |c| > 0 && (c[0] == '.' || c[0] == '^') then
      var second := LeadingDigits(c[1..]);
      var e := c[1 + |second|..];
      if |second| == 0 || !PositionTail(e) then bad
      else if DigitsValue(first) > INT_MAX then Err(NumberFormatException(first))
      else if DigitsValue(second) > INT_MAX then Err(NumberFormatException(second))
      else
        Ok(Position(fuzzyStart, |e| > 0 && e[0] == '>', DigitsValue(first), DigitsValue(second),
                    if c[0] == '.' then Range else Between))
    else if !PositionTail(c) then bad
    else if DigitsValue(first) > INT_MAX then Err(NumberFormatException(first))
    else Ok(Position(fuzzyStart, |c| > 0 && c[0] == '>', DigitsValue(first), DigitsValue(first), Exact))
  }

  // ---------------------------------------------------------------------------------------
  // The range pattern `^\(*(.*?)\)*(\.\.\(*(.*)\)*)?$`.

  /** The start text and, when ".." occurs, the end text of a simple location. */
  function RangeParts(sub: string): (r: (string, Option<string>))
  {
    var s := DropOpen(sub);
    match FirstDots(s)
    case Some(j) => (DropClose(s[..j]), Some(DropOpen(s[j + 2..])))
    case None => (DropClose(s), None)
  }

  /** The start and end positions of a simple location; a point location reuses its start. */
  function ReadPositions(sub: string): (r: Result<(Position, Position), ParseError>)
  {
    var (start, end) := RangeParts(sub);
    match ReadPosition(start, "start")
    case Err(e) => Err(e)
    case Ok(startPos) =>
      match end
      case None => Ok((startPos, startPos))
      case Some(endText) =>
        match ReadPosition(endText, "end")
        case Err(e) => Err(e)
        case Ok(endPos) => Ok((startPos, endPos))
  }

  /** A simple location takes the current rank and moves the counter on by one. */
  function ParseSimple(crossRef: Option<CrossRef>, strand: Strand, sub: string, rank: int): (r: Result<Parsed, ParseError>)
    ensures r.Err? <==> ReadPositions(sub).Err?
    ensures r.Ok? ==>
      r.value.location.SimpleRichLocation? && r.value.nextRank == rank + 1 &&
      r.value.location.rank == rank && r.value.location.strand == strand && r.value.location.crossRef == crossRef &&
      ReadPositions(sub) == Ok((r.value.location.startPos, r.value.location.endPos))
  {
    match ReadPositions(sub)
    case Err(e) => Err(e)
    case Ok((startPos, endPos)) => Ok(Parsed(SimpleRichLocation(startPos, endPos, rank, strand, crossRef), rank + 1))
  }


  // ---------------------------------------------------------------------------------------
  // Splitting the members of join(...) and order(...) at commas outside brackets.

  /** The bracket counter after reading `t`: +1 per '(', -1 per ')'. */
  function Depth(t: string): int
  {
    if |t| == 0 then 0
    else Depth(t[..|t| - 1]) + (if t[|t| - 1] == '(' then 1 else if t[|t| - 1] == ')' then -1 else 0)
  }

  /** True when the last character of `t` is a comma at bracket depth 0, where a member ends. */
  predicate EndsMember(t: string)
  {
    |t| > 0 && t[|t| - 1] == ',' && Depth(t) == 0
  }

  /** Member texts each followed by a comma. */
  function CommaJoined(ps: seq<string>): string
  {
    if |ps| == 0 then "" else CommaJoined(ps[..|ps| - 1]) + ps[|ps| - 1] + ","
  }

  /**
   * The members finished and the member being read after the splitting loop has read `t`;
   * the finished members, each with its comma, followed by the current one give `t` back.
   */
  function Scan(t: string): (r: (seq<string>, string))
    ensures |r.1| <= |t|
    ensures CommaJoined(r.0) + r.1 == t
  {
    if |t| == 0 then ([], [])
    else
      var (done, current) := Scan(t[..|t| - 1]);
      assert t == t[..|t| - 1] + [t[|t| - 1]];
      if EndsMember(t) then
        assert (done + [current])[..|done|] == done;
        (done + [current], [])
      else (done, current + [t[|t| - 1]])
  }

  /** The member texts: the finished ones and the last one when it is not empty. */
  function Pieces(sub: string): (r: seq<string>)
    ensures sub == CommaJoined(r) || (|r| > 0 && sub == CommaJoined(r[..|r| - 1]) + r[|r| - 1])
  {
    var (done, current) := Scan(sub);
    if |current| > 0 then done + [current] else done
  }

  lemma {:induction false} ScanShorter(t: string)
    ensures forall p :: p in Scan(t).0 ==> |p| < |t|
  {
    if |t| > 0 {
      ScanShorter(t[..|t| - 1]);
    }
  }

  /** No member text is longer than the text it was split from. */
  lemma PiecesShorter(sub: string)
    ensures forall p :: p in Pieces(sub) ==> |p| <= |sub|
  {
    ScanShorter(sub);
  }

  /** The splitting loop of parseLocString, with its bracket counter and buffer. */
  method SplitMembers(sub: string) returns (pieces: seq<string>)
    ensures pieces == Pieces(sub)
  {
    var members: seq<string> := [];
    var sb: string := [];
    var bracketCount := 0;
    for i := 0 to |sub|
      invariant (members, sb) == Scan(sub[..i])
      invariant bracketCount == Depth(sub[..i])
    {
      var c := sub[i];
      ghost var t := sub[..i + 1];
      assert t[..i] == sub[..i] && t[i] == c;
      if c == '(' {
        bracketCount := bracketCount + 1;
      } else if c == ')' {
        bracketCount := bracketCount - 1;
      }
      assert bracketCount == Depth(t);
      if c == ',' && bracketCount == 0 {
        members := members + [sb];
        sb := [];
      } else {
        sb := sb + [c];
      }
    }
    assert sub[..|sub|] == sub;
    if |sb| > 0 {
      members := members + [sb];
    }
    pieces := members;
  }

  // ---------------------------------------------------------------------------------------
  // parseLocString and parseLocation.

  /** Every simple location inside `l` is on a known strand. */
  predicate StrandsKnown(l: RichLocation)
    decreases l
  {
    match l
    case SimpleRichLocation(_, _, _, strand, _) => strand != Unknown
    case CompoundRichLocation(_, members) => forall i :: 0 <= i < |members| ==> StrandsKnown(members[i])
  }

  /** What the group pattern splits a location string into: its xref, group keyword and inner text. */
  datatype Header = Header(xref: Option<CrossRef>, group: Group, sub: string)

  /**
   * The group pattern `^([^\(\):]*?:)?(complement|join|order)?\(*(.*?)\)*$` (the `{0,1}` after
   * each `*` applies to an empty atom) followed by the xref pattern on the prefix, if any.
   */
  function ReadHeader(namespace: string, featureAccession: string, parentXref: Option<CrossRef>, s: string)
    : (r: Result<Header, ParseError>)
    ensures r.Ok? && r.value.group != NoGroup ==> |r.value.sub| < |s|
  {
    var cut := XrefColon(s);
    var rest := if cut.Some? then s[cut.value + 1..] else s;
    if !OnOneLine(rest) then Err(ParseException("Bad location string found: " + s))
    else
      var xref := if cut.None? then Ok(parentXref) else ReadXref(namespace, featureAccession, s[..cut.value + 1]);
      if xref.Err? then Err(xref.error)
      else
        var group := GroupWord(rest);
        Ok(Header(xref.value, group, Inner(rest[|Keyword(group)|..])))
  }

  /**
   * parseLocString: the optional xref prefix, then complement(...) (which flips the parent
   * strand), join(...)/order(...) (whose members keep the parent strand) or a simple location.
   */
  function ParseLocString(namespace: string, featureAccession: string, parentXref: Option<CrossRef>,
                          parentStrand: Strand, s: string, rank: int): (r: Result<Parsed, ParseError>)
    ensures ReadHeader(namespace, featureAccession, parentXref, s).Err? ==>
      r == Err(ReadHeader(namespace, featureAccession, parentXref, s).error)
    ensures r.Ok? ==> rank <= r.value.nextRank
    ensures r.Ok? && parentStrand != Unknown ==> StrandsKnown(r.value.location)
    decreases |s|, 2
  {
    match ReadHeader(namespace, featureAccession, parentXref, s)
    case Err(e) => Err(e)
    case Ok(h) => ParseHeader(namespace, featureAccession, parentStrand, h, rank, |s|)
  }

  /** The rest of parseLocString once the group pattern has matched. */
  function ParseHeader(namespace: string, featureAccession: string, parentStrand: Strand, h: Header,
                       rank: int, bound: nat): (r: Result<Parsed, ParseError>)
    requires h.group != NoGroup ==> |h.sub| < bound
    ensures r.Ok? ==> rank <= r.value.nextRank
    ensures r.Ok? && parentStrand != Unknown ==> StrandsKnown(r.value.location)
    ensures r.Ok? && h.group == NoGroup ==>
      r.value.location.SimpleRichLocation? && r.value.location.strand == parentStrand &&
      r.value.location.crossRef == h.xref
    ensures r.Ok? && (h.group == JoinGroup || h.group == OrderGroup) ==>
      r.value.location.CompoundRichLocation? &&
      r.value.location.term == (if h.group == OrderGroup then Order else Join) &&
      |r.value.location.members| == |Pieces(h.sub)|
    decreases bound, 1
  {
    match h.group
    case NoGroup => ParseSimple(h.xref, parentStrand, h.sub, rank)
    case Complement => ParseLocString(namespace, featureAccession, h.xref, Flip(parentStrand), h.sub, rank)
    case _ =>
      PiecesShorter(h.sub);
      match ParseMembers(namespace, featureAccession, h.xref, parentStrand, Pieces(h.sub), rank, bound)
      case Err(e) => Err(e)
      case Ok((members, next)) =>
        Ok(Parsed(CompoundRichLocation(if h.group == OrderGroup then Order else Join, members), next))
  }

  /** The members of a group, parsed left to right with the rank counter running on. */
  function ParseMembers(namespace: string, featureAccession: string, xref: Option<CrossRef>, strand: Strand,
                        pieces: seq<string>, rank: int, bound: nat): (r: Result<(seq<RichLocation>, int), ParseError>)
    requires forall p :: p in pieces ==> |p| < bound
    ensures r.Ok? ==> |r.value.0| == |pieces|
    ensures r.Ok? ==> rank <= r.value.1
    ensures r.Ok? && strand != Unknown ==> forall i :: 0 <= i < |r.value.0| ==> StrandsKnown(r.value.0[i])
    decreases bound, 0, |pieces|
  {
    if |pieces| == 0 then Ok(([], rank))
    else
      match ParseLocString(namespace, featureAccession, xref, strand, pieces[0], rank)
      case Err(e) => Err(e)
      case Ok(first) =>
        match ParseMembers(namespace, featureAccession, xref, strand, pieces[1..], first.nextRank, bound)
        case Err(e) => Err(e)
        case Ok((others, next)) => Ok(([first.location] + others, next))
  }

  /** parseLocation: the rank counter restarts at 1 and the parent strand is positive. */
  function ParseLocation(namespace: string, featureAccession: string, s: string): (r: Result<RichLocation, ParseError>)
    ensures r.Err? <==> ParseLocString(namespace, featureAccession, None, Positive, s, 1).Err?
    ensures r.Ok? ==> StrandsKnown(r.value)
  {
    match ParseLocString(namespace, featureAccession, None, Positive, s, 1)
    case Err(e) => Err(e)
    case Ok(p) => Ok(p.location)
  }

  // ---------------------------------------------------------------------------------------
  // Ranks: every simple location takes the next value of the counter.

  /** The ranks of the simple locations, left to right. */
  function Ranks(l: RichLocation): seq<int>
    decreases l, 1
  {
    match l
    case SimpleRichLocation(_, _, rank, _, _) => [rank]
    case CompoundRichLocation(_, members) => MemberRanks(members)
  }

  function MemberRanks(ms: seq<RichLocation>): seq<int>
    decreases ms, 0
  {
    if |ms| == 0 then [] else Ranks(ms[0]) + MemberRanks(ms[1..])
  }

  /** The counter values from `from` up to, not including, `to`. */
  function Span(lo: int, hi: int): (r: seq<int>)
    requires lo <= hi
    ensures |r| == hi - lo
    ensures forall i :: 0 <= i < |r| ==> r[i] == lo + i
    decreases hi - lo
  {
    if lo == hi then [] else [lo] + Span(lo + 1, hi)
  }

  lemma SpanJoin(a: int, b: int, c: int)
    requires a <= b <= c
    ensures Span(a, b) + Span(b, c) == Span(a, c)
  {
  }

  /** A successful parse numbers its simple locations rank, rank + 1, ... in reading order. */
  lemma RanksInReadingOrder(namespace: string, featureAccession: string, parentXref: Option<CrossRef>,
                            parentStrand: Strand, s: string, rank: int)
    requires ParseLocString(namespace, featureAccession, parentXref, parentStrand, s, rank).Ok?
    ensures var p := ParseLocString(namespace, featureAccession, parentXref, parentStrand, s, rank).value;
            rank <= p.nextRank && Ranks(p.location) == Span(rank, p.nextRank)
    decreases |s|, 2
  {
    var h := ReadHeader(namespace, featureAccession, parentXref, s).value;
    HeaderRanks(namespace, featureAccession, parentStrand, h, rank, |s|);
  }

  lemma {:induction false} HeaderRanks(namespace: string, featureAccession: string, parentStrand: Strand, h: Header,
                                       rank: int, bound: nat)
    requires h.group != NoGroup ==> |h.sub| < bound
    requires ParseHeader(namespace, featureAccession, parentStrand, h, rank, bound).Ok?
    ensures var p := ParseHeader(namespace, featureAccession, parentStrand, h, rank, bound).value;
            rank <= p.nextRank && Ranks(p.location) == Span(rank, p.nextRank)
    decreases bound, 1
  {
    match h.group
    case NoGroup => SimpleRank(h.xref, parentStrand, h.sub, rank);
    case Complement => RanksInReadingOrder(namespace, featureAccession, h.xref, Flip(parentStrand), h.sub, rank);
    case _ =>
      PiecesShorter(h.sub);
      MemberRanksInReadingOrder(namespace, featureAccession, h.xref, parentStrand, Pieces(h.sub), rank, bound);
  }

  lemma SimpleRank(crossRef: Option<CrossRef>, strand: Strand, sub: string, rank: int)
    requires ParseSimple(crossRef, strand, sub, rank).Ok?
    ensures var p := ParseSimple(crossRef, strand, sub, rank).value;
            p.nextRank == rank + 1 && p.location.SimpleRichLocation? && p.location.rank == rank
  {
  }

  lemma {:induction false} MemberRanksInReadingOrder(namespace: string, featureAccession: string, xref: Option<CrossRef>,
                                                     strand: Strand, pieces: seq<string>, rank: int, bound: nat)
    requires forall p :: p in pieces ==> |p| < bound
    requires ParseMembers(namespace, featureAccession, xref, strand, pieces, rank, bound).Ok?
    ensures var r := ParseMembers(namespace, featureAccession, xref, strand, pieces, rank, bound).value;
            rank <= r.1 && MemberRanks(r.0) == Span(rank, r.1)
    decreases bound, 0, |pieces|
  {
    if |pieces| > 0 {
      var first := ParseLocString(namespace, featureAccession, xref, strand, pieces[0], rank).value;
      RanksInReadingOrder(namespace, featureAccession, xref, strand, pieces[0], rank);
      MemberRanksInReadingOrder(namespace, featureAccession, xref, strand, pieces[1..], first.nextRank, bound);
      var r := ParseMembers(namespace, featureAccession, xref, strand, pieces, rank, bound).value;
      var others := ParseMembers(namespace, featureAccession, xref, strand, pieces[1..], first.nextRank, bound).value;
      assert r.0 == [first.location] + others.0;
      assert r.0[1..] == others.0;
      SpanJoin(rank, first.nextRank, r.1);
    }
  }

  /** parseLocation numbers the simple locations 1, 2, 3, ... in reading order. */
  lemma ParseLocationRanks(namespace: string, featureAccession: string, s: string)
    requires ParseLocation(namespace, featureAccession, s).Ok?
    ensures var l := ParseLocation(namespace, featureAccession, s).value;
            Ranks(l) == Span(1, 1 + |Ranks(l)|)
  {
    RanksInReadingOrder(namespace, featureAccession, None, Positive, s, 1);
  }

  // ---------------------------------------------------------------------------------------
  // writeLocation, _writeSingleLocation and _writeGroupLocation.

  /**
   * The text of a position as read by the position pattern: an optional '<', the start, for a
   * range or between position '.' or '^' and the end, then an optional '>'.
   */
  function PositionText(p: Position): string
  {
    (if p.fuzzyStart then "<" else "")
    + IntToString(p.start)
    + (match p.kind
       case Exact => ""
       case Range => "." + IntToString(p.end)
       case Between => "^" + IntToString(p.end))
    + (if p.fuzzyEnd then ">" else "")
  }

  /** The "accession[.version]:" prefix of a location on another entry. */
  function XrefText(x: Option<CrossRef>): string
  {
    match x
    case None => ""
    case Some(c) =>
      if c.version != 0 then c.accession + "." + IntToString(c.version) + ":" else c.accession + ":"
  }

  /** The minimum position, then "..maximum" only when the two differ. */
  function BodyText(startPos: Position, endPos: Position): string
  {
    if startPos.start != endPos.end then PositionText(startPos) + ".." + PositionText(endPos)
    else PositionText(startPos)
  }

  /** The body, wrapped in complement(...) on the negative strand. */
  function StrandedText(body: string, strand: Strand): string
  {
    if strand == Negative then "complement(" + body + ")" else body
  }

  function SingleText(l: RichLocation): string
    requires l.SimpleRichLocation?
  {
    XrefText(l.crossRef) + StrandedText(BodyText(l.startPos, l.endPos), l.strand)
  }

  function TermName(t: GroupTerm): string
  {
    match t
    case Join => "join"
    case Order => "order"
  }

  /** The text writeLocation produces. */
  function LocationText(l: RichLocation): (r: string)
    ensures |r| > 0
    ensures l.CompoundRichLocation? ==> TermName(l.term) + "(" <= r && r[|r| - 1] == ')'
    ensures l.SimpleRichLocation? ==> XrefText(l.crossRef) <= r
    ensures l.SimpleRichLocation? && l.strand == Negative ==>
      XrefText(l.crossRef) + "complement(" <= r && r[|r| - 1] == ')'
    decreases l, 1
  {
    match l
    case SimpleRichLocation(_, _, _, _, _) => SingleText(l)
    case CompoundRichLocation(t, members) => TermName(t) + "(" + MembersText(members) + ")"
  }

  /** The texts of the members, separated by commas. */
  function MembersText(ms: seq<RichLocation>): string
    decreases ms, 0
  {
    if |ms| == 0 then ""
    else if |ms| == 1 then LocationText(ms[0])
    else LocationText(ms[0]) + "," + MembersText(ms[1..])
  }

  lemma {:induction false} MembersTextSnoc(ms: seq<RichLocation>, m: RichLocation)
    requires |ms| > 0
    ensures MembersText(ms + [m]) == MembersText(ms) + "," + LocationText(m)
  {
    var a, b := LocationText(ms[0]), LocationText(m);
    assert (ms + [m])[0] == ms[0];
    if |ms| > 1 {
      assert (ms + [m])[1..] == ms[1..] + [m];
      MembersTextSnoc(ms[1..], m);
      var r := MembersText(ms[1..]);
      assert MembersText(ms + [m]) == a + "," + (r + "," + b);
      assert MembersText(ms) == a + "," + r;
    } else {
      assert (ms + [m])[1..] == [m];
      assert MembersText([m]) == b;
      assert MembersText(ms + [m]) == a + "," + b;
    }
  }

  /** writeLocation: a group location through _writeGroupLocation, a simple one through _writeSingleLocation. */
  method WriteLocation(l: RichLocation) returns (text: string)
    ensures text == LocationText(l)
    decreases l, 1
  {
    if l.CompoundRichLocation? {
      text := WriteGroupLocation(l);
    } else {
      text := WriteSingleLocation(l);
    }
  }

  /** _writeSingleLocation: the body, then "complement(" and ")" around it, then the xref in front. */
  method WriteSingleLocation(l: RichLocation) returns (loc: string)
    requires l.SimpleRichLocation?
    ensures loc == SingleText(l)
  {
    loc := PositionText(l.startPos);
    if l.startPos.start != l.endPos.end {
      loc := loc + "..";
      loc := loc + PositionText(l.endPos);
    }
    if l.strand == Negative {
      loc := "complement(" + loc;
      loc := loc + ")";
    }
    ghost var stranded := loc;
    assert stranded == StrandedText(BodyText(l.startPos, l.endPos), l.strand);
    if l.crossRef.Some? {
      loc := ":" + loc;
      var version := l.crossRef.value.version;
      if version != 0 {
        loc := IntToString(version) + loc;
        loc := "." + loc;
        loc := l.crossRef.value.accession + loc;
        PrependFour(l.crossRef.value.accession, ".", IntToString(version), ":", stranded);
      } else {
        loc := l.crossRef.value.accession + loc;
        PrependTwo(l.crossRef.value.accession, ":", stranded);
      }
    } else {
      assert XrefText(l.crossRef) + stranded == stranded;
    }
  }

  lemma PrependTwo(a: string, b: string, rest: string)
    ensures a + (b + rest) == a + b + rest
  {
  }

  /** Four inserts at position 0 leave the inserted texts in front, in reverse order of insertion. */
  lemma PrependFour(a: string, b: string, c: string, d: string, rest: string)
    ensures a + (b + (c + (d + rest))) == a + b + c + d + rest
  {
  }

  /** _writeGroupLocation: the term name, then each member followed by a comma unless it is the last. */
  method WriteGroupLocation(l: RichLocation) returns (text: string)
    requires l.CompoundRichLocation?
    ensures text == LocationText(l)
    decreases l, 0
  {
    var ms := l.members;
    ghost var open := TermName(l.term) + "(";
    ghost var done := "";
    var sb := TermName(l.term) + "(";
    var i := 0;
    while i < |ms|
      invariant i <= |ms|
      invariant done == MembersText(ms[..i])
      invariant sb == open + done + (if 0 < i < |ms| then "," else "")
    {
      var m := ms[i];
      var part;
      if m.CompoundRichLocation? {
        part := WriteGroupLocation(m);
      } else {
        part := WriteSingleLocation(m);
      }
      MembersTextStep(ms, i);
      ghost var sep := if 0 < i then "," else "";
      ghost var tail := if i + 1 < |ms| then "," else "";
      sb := sb + part;
      if i + 1 < |ms| {
        sb := sb + ",";
      }
      Regroup(open, done, sep, part, tail);
      done := done + sep + part;
      i := i + 1;
    }
    assert ms[..i] == ms;
    text := sb + ")";
  }

  lemma Regroup(open: string, done: string, sep: string, part: string, tail: string)
    ensures open + done + sep + part + tail == open + (done + sep + part) + tail
  {
  }

  /** The members text grows by a comma and the next member's text. */
  lemma MembersTextStep(ms: seq<RichLocation>, i: nat)
    requires i < |ms|
    ensures MembersText(ms[..i + 1]) == MembersText(ms[..i]) + (if 0 < i then "," else "") + LocationText(ms[i])
  {
    assert ms[..i + 1] == ms[..i] + [ms[i]];
    if i > 0 {
      MembersTextSnoc(ms[..i], ms[i]);
    } else {
      assert MembersText([ms[0]]) == LocationText(ms[0]);
    }
  }
}
