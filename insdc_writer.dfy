/**
 * InsdcWriter: writes a biojava3 location in the INSDC feature-table syntax, either the
 * ENA way (one complement around the highest complemented level) or the GenBank way
 * (each part of a join complemented on its own).
 *
 * A location is modelled by what the writer reads of it: its start and end points (a
 * position and an "unknown" flag), its strand, whether it lies between two compounds,
 * its kind (the class that picks the group keyword) and its sub-locations. A location
 * with sub-locations is complex.
 */
module Insdc {
  import opened Wrappers
  import opened JavaLang

  datatype Strand = Positive | Negative | Undefined

  /** The data sources a writer may be made for; only the first three are INSDC. */
  datatype DataSource = ENA | GENBANK | DDBJ | OtherSource(name: string)

  datatype Point = Point(position: int, unknown: bool)

  /** The location class: InsdcLocations.OrderLocation, OneOfLocation, GroupLocation or any other. */
  datatype Kind = JoinKind | OrderKind | OneOfKind | GroupKind

  datatype Location = Location(
    start: Point,
    end: Point,
    strand: Strand,
    betweenCompounds: bool,
    kind: Kind,
    subs: seq<Location>)
  {
    predicate IsComplex() { subs != [] }
  }

  datatype WriterError = NotInsdc(source: DataSource)   // RuntimeException: "... is not INSDC"

  predicate IsInsdc(ds: DataSource) { ds == ENA || ds == GENBANK || ds == DDBJ }

  /** join: the keyword a complex location is written with. */
  function Join(l: Location): (k: string)
    ensures k in {"order", "one-of", "group", "join"}
    ensures k == "join" <==> l.kind == JoinKind
  {
    match l.kind
    case OrderKind => "order"
    case OneOfKind => "one-of"
    case GroupKind => "group"
    case JoinKind => "join"
  }

  /** Whether writing `l` opens a "complement(": an uncomplemented simple location, or any complex one under ENA. */
  predicate OpensComplement(ds: DataSource, l: Location, alreadyComplement: bool)
  {
    l.strand == Negative &&
    ((!l.IsComplex() && !alreadyComplement) || (ds == ENA && l.IsComplex()))
  }

  /** The start of a simple location: '<' when the start is unknown, then the start. */
  function StartText(l: Location): string
  {
    (if l.start.unknown then "<" else "") + IntToString(l.start.position)
  }

  /** The end of a simple location: '^' or "..", '>' when the end is unknown, then the end. */
  function EndText(l: Location): string
  {
    (if l.betweenCompounds then "^" else "..") + (if l.end.unknown then ">" else "") + IntToString(l.end.position)
  }

  /** The text of a simple location: its start, then its end when the two positions differ. */
  function SimpleText(l: Location): string
  {
    if l.start.position != l.end.position then StartText(l) + EndText(l) else StartText(l)
  }

  /** `body` inside "complement(...)" when `c` holds. */
  function Complemented(c: bool, body: string): string
  {
    if c then "complement(" + body + ")" else body
  }

  /** A complex location's keyword and its parts in brackets. */
  function Group(l: Location, parts: string): string
  {
    Join(l) + "(" + parts + ")"
  }

  /** The text `write` appends for `l`. */
  function Written(ds: DataSource, l: Location, alreadyComplement: bool): string
    decreases l, 2
  {
    var c := OpensComplement(ds, l, alreadyComplement);
    Complemented(c, Body(ds, l, alreadyComplement || c))
  }

  /** The text between the complement brackets: the group, or the simple location. */
  function Body(ds: DataSource, l: Location, inner: bool): string
    decreases l, 1
  {
    if l.IsComplex() then Group(l, Parts(ds, l, |l.subs|, inner)) else SimpleText(l)
  }

  /** What the loop over the sub-locations has appended after `n` of them: each one, then a comma unless it is the last. */
  function Parts(ds: DataSource, l: Location, n: nat, alreadyComplement: bool): string
    requires n <= |l.subs|
    decreases l, 0, n
  {
    if n == 0 then ""
    else Parts(ds, l, n - 1, alreadyComplement) + Written(ds, l.subs[n - 1], alreadyComplement) +
         (if n - 1 != |l.subs| - 1 then "," else "")
  }

  /** The sub-locations written one after another with a comma between neighbours. */
  function CommaList(ts: seq<string>): string
  {
    if ts == [] then "" else if |ts| == 1 then ts[0] else CommaList(ts[..|ts| - 1]) + "," + ts[|ts| - 1]
  }

  datatype InsdcWriter = InsdcWriter(dataSource: DataSource)
  {
    /**
     * write(location, writer, alreadyComplement): appends the location to the writer. The
     * writer is the string `w0` before the call and `w` after it.
     */
    method Write(l: Location, w0: string, alreadyComplement: bool) returns (w: string)
      ensures w == w0 + Written(dataSource, l, alreadyComplement)
      decreases l, 2
    {
      var already := alreadyComplement;
      var openBracket := 0;
      w := w0;
      if l.strand == Negative {
        if (!l.IsComplex() && !already) || (dataSource == ENA && l.IsComplex()) {
          w := w + "complement(";
          already := true;
          openBracket := openBracket + 1;
        }
      }
      ghost var front := w;
      if l.IsComplex() {
        openBracket := openBracket + 1;
        w := WriteGroup(l, w, already);
        openBracket := openBracket - 1;
      } else {
        w := WriteSimple(l, w);
      }
      assert w == front + Body(dataSource, l, already);
      ghost var c := OpensComplement(dataSource, l, alreadyComplement);
      assert openBracket == if c then 1 else 0;
      assert front == w0 + if c then "complement(" else "";
      var k := 0;
      while k < openBracket
        invariant k <= openBracket
        invariant w == front + Body(dataSource, l, already) + (if k == 1 then ")" else "")
      {
        w := w + ")";
        k := k + 1;
      }
      ComplementAppend(w0, c, Body(dataSource, l, already));
    }

    /** The complex branch of write: the keyword, the parts comma-separated, the closing bracket. */
    method WriteGroup(l: Location, w0: string, already: bool) returns (w: string)
      requires l.IsComplex()
      ensures w == w0 + Group(l, Parts(dataSource, l, |l.subs|, already))
      decreases l, 1
    {
      w := w0 + Join(l);
      w := w + "(";
      ghost var open := w;
      var size := |l.subs|;
      var i := 0;
      while i < size
        invariant i <= size
        invariant w == open + Parts(dataSource, l, i, already)
      {
        var sub := l.subs[i];
        PartsNext(dataSource, l, i, already);
        w := Write(sub, w, already);
        if i != size - 1 {
          w := w + ",";
        }
        Assoc3(open, Parts(dataSource, l, i, already), Written(dataSource, sub, already), if i != size - 1 then "," else "");
        i := i + 1;
      }
      w := w + ")";
      GroupAppend(w0, l, Parts(dataSource, l, size, already));
    }

    /** The simple branch of write: [<]start, and [^|..][>]end when the end differs. */
    method WriteSimple(l: Location, w0: string) returns (w: string)
      ensures w == w0 + SimpleText(l)
    {
      w := w0;
      if l.start.unknown {
        w := w + "<";
      }
      assert w == w0 + (if l.start.unknown then "<" else "");
      w := w + IntToString(l.start.position);
      Assoc(w0, if l.start.unknown then "<" else "", IntToString(l.start.position));
      if l.start.position != l.end.position {
        ghost var w1 := w;
        if l.betweenCompounds {
          w := w + "^";
        } else {
          w := w + "..";
        }
        ghost var sep := if l.betweenCompounds then "^" else "..";
        assert w == w1 + sep;
        if l.end.unknown {
          w := w + ">";
        }
        ghost var gt := if l.end.unknown then ">" else "";
        assert w == w1 + sep + gt;
        w := w + IntToString(l.end.position);
        Assoc3(w1, sep, gt, IntToString(l.end.position));
        Assoc(w0, StartText(l), EndText(l));
      }
    }
  }

  lemma Assoc<T>(a: seq<T>, b: seq<T>, c: seq<T>)
    ensures a + b + c == a + (b + c)
  {
  }

  lemma Assoc3<T>(a: seq<T>, b: seq<T>, c: seq<T>, d: seq<T>)
    ensures a + b + c + d == a + (b + c + d)
  {
  }

  /** Appending a group piece by piece appends the group. */
  lemma GroupAppend(w0: string, l: Location, parts: string)
    ensures w0 + Join(l) + "(" + parts + ")" == w0 + Group(l, parts)
  {
    Assoc3(w0, Join(l), "(", parts);
    Assoc(w0, Join(l) + "(" + parts, ")");
  }

  /** One more sub-location: the loop's text grows by its text and, unless it is the last, a comma. */
  lemma PartsNext(ds: DataSource, l: Location, i: nat, alreadyComplement: bool)
    requires i < |l.subs|
    ensures Parts(ds, l, i + 1, alreadyComplement) ==
      Parts(ds, l, i, alreadyComplement) + (Written(ds, l.subs[i], alreadyComplement) + (if i != |l.subs| - 1 then "," else ""))
  {
    Assoc(Parts(ds, l, i, alreadyComplement), Written(ds, l.subs[i], alreadyComplement), if i != |l.subs| - 1 then "," else "");
  }

  /** Appending the complement brackets around a body appends the complemented body. */
  lemma ComplementAppend(w0: string, c: bool, body: string)
    ensures w0 + (if c then "complement(" else "") + body + (if c then ")" else "") == w0 + Complemented(c, body)
  {
    if c {
      Assoc3(w0, "complement(", body, ")");
    } else {
      assert w0 + "" == w0 && body + "" == body;
    }
  }

  /** The constructors: only ENA, GenBank and DDBJ are INSDC sources; the no-argument one picks ENA. */
  function NewInsdcWriter(ds: DataSource): (r: Result<InsdcWriter, WriterError>)
    ensures r.Ok? <==> IsInsdc(ds)
    ensures r.Ok? ==> r.value.dataSource == ds
    ensures r.Err? ==> r.error == NotInsdc(ds)
  {
    if !IsInsdc(ds) then Err(NotInsdc(ds)) else Ok(InsdcWriter(ds))
  }

  function DefaultInsdcWriter(): (r: InsdcWriter)
    ensures NewInsdcWriter(ENA) == Ok(r)
  {
    InsdcWriter(ENA)
  }

  // ---------------------------------------------------------------------------------
  // Every '(' written is closed by a ')'.

  /** The number of '(' minus the number of ')'. */
  function Depth(s: string): int
  {
    if s == [] then 0
    else Depth(s[..|s| - 1]) + (if s[|s| - 1] == '(' then 1 else if s[|s| - 1] == ')' then -1 else 0)
  }

  /** No prefix closes more brackets than it opens. */
  predicate NeverBelow(s: string)
  {
    forall k :: 0 <= k <= |s| ==> Depth(s[..k]) >= 0
  }

  /** Every '(' is closed by a later ')', and no ')' comes without an open '('. */
  predicate Balanced(s: string)
  {
    Depth(s) == 0 && NeverBelow(s)
  }

  predicate NoBrackets(s: string)
  {
    forall i :: 0 <= i < |s| ==> s[i] != '(' && s[i] != ')'
  }

  lemma {:induction false} DepthAppend(a: string, b: string)
    ensures Depth(a + b) == Depth(a) + Depth(b)
  {
    if b != [] {
      var init := b[..|b| - 1];
      assert (a + b)[..|a + b| - 1] == a + init;
      var last := b[|b| - 1];
      var step := if last == '(' then 1 else if last == ')' then -1 else 0;
      assert (a + b)[|a + b| - 1] == last;
      assert Depth(a + b) == Depth(a + init) + step;
      assert Depth(b) == Depth(init) + step;
      DepthAppend(a, init);
    } else {
      assert a + b == a;
    }
  }

  lemma {:induction false} NoBracketsDepth(s: string)
    requires NoBrackets(s)
    ensures Depth(s) == 0
  {
    if s != [] {
      NoBracketsDepth(s[..|s| - 1]);
    }
  }

  lemma NoBracketsBalanced(s: string)
    requires NoBrackets(s)
    ensures Balanced(s)
  {
    NoBracketsDepth(s);
    forall k | 0 <= k <= |s| ensures Depth(s[..k]) >= 0 {
      NoBracketsDepth(s[..k]);
    }
  }

  /** Joining two texts that never go below zero: the depths add up, and the join never goes below zero. */
  lemma NeverBelowAppend(a: string, b: string)
    requires NeverBelow(a) && NeverBelow(b)
    ensures NeverBelow(a + b) && Depth(a + b) == Depth(a) + Depth(b)
  {
    DepthAppend(a, b);
    assert a[..|a|] == a;
    forall k | 0 <= k <= |a + b| ensures Depth((a + b)[..k]) >= 0 {
      if k <= |a| {
        assert (a + b)[..k] == a[..k];
      } else {
        assert (a + b)[..k] == a + b[..k - |a|];
        DepthAppend(a, b[..k - |a|]);
      }
    }
  }

  lemma BalancedAppend(a: string, b: string)
    requires Balanced(a) && Balanced(b)
    ensures Balanced(a + b)
  {
    NeverBelowAppend(a, b);
  }

  lemma OpenBracket()
    ensures NeverBelow("(") && Depth("(") == 1
  {
    assert "("[..0] == [] && "("[..1] == "(";
  }

  lemma CloseBracket()
    ensures Depth(")") == -1
  {
    assert ")"[..0] == [];
  }

  /** Closing the one bracket a text leaves open balances it. */
  lemma CloseLast(x: string)
    requires NeverBelow(x) && Depth(x) == 1
    ensures Balanced(x + ")")
  {
    CloseBracket();
    DepthAppend(x, ")");
    forall k | 0 <= k <= |x + ")"| ensures Depth((x + ")")[..k]) >= 0 {
      if k <= |x| {
        assert (x + ")")[..k] == x[..k];
      } else {
        assert (x + ")")[..k] == x + ")";
      }
    }
  }

  /** Wrapping a balanced text in brackets after a bracket-free keyword keeps it balanced. */
  lemma BalancedWrap(key: string, s: string)
    requires NoBrackets(key) && Balanced(s)
    ensures Balanced(key + "(" + s + ")")
  {
    NoBracketsBalanced(key);
    OpenBracket();
    NeverBelowAppend(key, "(");
    NeverBelowAppend(key + "(", s);
    CloseLast(key + "(" + s);
  }

  lemma ComplementKeyword(body: string)
    ensures Complemented(true, body) == "complement" + "(" + body + ")"
    ensures NoBrackets("complement")
  {
    assert "complement" + "(" == "complement(";
  }

  lemma DigitsNoBrackets(i: int)
    ensures NoBrackets(IntToString(i))
  {
    var s := if i < 0 then NatToString(-i) else NatToString(i);
    assert AllDigits(s);
    if i < 0 {
      assert IntToString(i) == "-" + s;
    }
  }

  lemma SimpleTextNoBrackets(l: Location)
    ensures NoBrackets(SimpleText(l))
  {
    DigitsNoBrackets(l.start.position);
    DigitsNoBrackets(l.end.position);
  }

  /** The whole text written for any location is balanced. */
  lemma {:induction false} WrittenBalanced(ds: DataSource, l: Location, alreadyComplement: bool)
    ensures Balanced(Written(ds, l, alreadyComplement))
    decreases l, 2
  {
    var c := OpensComplement(ds, l, alreadyComplement);
    var body := Body(ds, l, alreadyComplement || c);
    BodyBalanced(ds, l, alreadyComplement || c);
    if c {
      ComplementKeyword(body);
      BalancedWrap("complement", body);
    }
  }

  lemma {:induction false} BodyBalanced(ds: DataSource, l: Location, inner: bool)
    ensures Balanced(Body(ds, l, inner))
    decreases l, 1
  {
    if l.IsComplex() {
      PartsBalanced(ds, l, |l.subs|, inner);
      assert NoBrackets(Join(l));
      BalancedWrap(Join(l), Parts(ds, l, |l.subs|, inner));
    } else {
      SimpleTextNoBrackets(l);
      NoBracketsBalanced(SimpleText(l));
    }
  }

  lemma {:induction false} PartsBalanced(ds: DataSource, l: Location, n: nat, alreadyComplement: bool)
    requires n <= |l.subs|
    ensures Balanced(Parts(ds, l, n, alreadyComplement))
    decreases l, 0, n
  {
    if n == 0 {
      NoBracketsBalanced("");
    } else {
      var prev := Parts(ds, l, n - 1, alreadyComplement);
      var part := Written(ds, l.subs[n - 1], alreadyComplement);
      PartsBalanced(ds, l, n - 1, alreadyComplement);
      WrittenBalanced(ds, l.subs[n - 1], alreadyComplement);
      var sep := if n - 1 != |l.subs| - 1 then "," else "";
      assert Parts(ds, l, n, alreadyComplement) == prev + part + sep;
      NoBracketsBalanced(sep);
      BalancedAppend(prev, part);
      BalancedAppend(prev + part, sep);
    }
  }

  // ---------------------------------------------------------------------------------
  // Where the complements go.

  /** No part of the location lies on the negative strand. */
  predicate NoNegative(l: Location)
    decreases l
  {
    l.strand != Negative && forall i :: 0 <= i < |l.subs| ==> NoNegative(l.subs[i])
  }

  /** A location without a negative part is written alike whatever the source and the inherited flag. */
  lemma {:induction false} PositiveIgnoresSource(ds1: DataSource, ds2: DataSource, l: Location, a1: bool, a2: bool)
    requires NoNegative(l)
    ensures Written(ds1, l, a1) == Written(ds2, l, a2)
    decreases l, 1
  {
    if l.IsComplex() {
      PartsIgnoreSource(ds1, ds2, l, |l.subs|, a1, a2);
    }
  }

  lemma {:induction false} PartsIgnoreSource(ds1: DataSource, ds2: DataSource, l: Location, n: nat, a1: bool, a2: bool)
    requires n <= |l.subs| && NoNegative(l)
    ensures Parts(ds1, l, n, a1) == Parts(ds2, l, n, a2)
    decreases l, 0, n
  {
    if n > 0 {
      PartsIgnoreSource(ds1, ds2, l, n - 1, a1, a2);
      PositiveIgnoresSource(ds1, ds2, l.subs[n - 1], a1, a2);
    }
  }

  /** The location with every strand set positive. */
  function Forward(l: Location): (r: Location)
    ensures |r.subs| == |l.subs|
    decreases l
  {
    l.(strand := Positive, subs := seq(|l.subs|, i requires 0 <= i < |l.subs| => Forward(l.subs[i])))
  }

  /** A simple location on the negative strand: the parts of a complemented join. */
  predicate NegativeSimple(l: Location)
  {
    l.strand == Negative && !l.IsComplex()
  }

  /** A join whose parts are all negative, itself negative, is written by ENA as one complement around the forward join. */
  lemma EnaComplementsOnce(l: Location)
    requires l.strand == Negative && l.IsComplex()
    requires forall i :: 0 <= i < |l.subs| ==> NegativeSimple(l.subs[i])
    ensures Written(ENA, l, false) == "complement(" + Written(ENA, Forward(l), false) + ")"
  {
    var f := Forward(l);
    assert f.strand == Positive && f.kind == l.kind && |f.subs| == |l.subs|;
    assert f.IsComplex() && !OpensComplement(ENA, f, false);
    ForwardParts(l, |l.subs|);
    assert Written(ENA, f, false) == Group(f, Parts(ENA, f, |l.subs|, false));
    assert Written(ENA, l, false) == Complemented(true, Group(l, Parts(ENA, l, |l.subs|, true)));
  }

  /** The texts GenBank writes for the parts of a negative join: each part complemented. */
  function ComplementedParts(l: Location): (ts: seq<string>)
    ensures |ts| == |l.subs|
  {
    seq(|l.subs|, i requires 0 <= i < |l.subs| => "complement(" + SimpleText(l.subs[i]) + ")")
  }

  /** GenBank (and DDBJ) write the same join as a join of complemented parts. */
  lemma GenbankComplementsParts(l: Location)
    requires l.strand == Negative && l.IsComplex()
    requires forall i :: 0 <= i < |l.subs| ==> NegativeSimple(l.subs[i])
    ensures Written(GENBANK, l, false) == Group(l, CommaList(ComplementedParts(l)))
  {
    var ts := ComplementedParts(l);
    GenbankParts(l, |l.subs|);
    assert ts[..|l.subs|] == ts;
    assert !OpensComplement(GENBANK, l, false);
  }

  lemma {:induction false} ForwardParts(l: Location, n: nat)
    requires n <= |l.subs|
    requires forall i :: 0 <= i < |l.subs| ==> NegativeSimple(l.subs[i])
    ensures Parts(ENA, l, n, true) == Parts(ENA, Forward(l), n, false)
  {
    if n > 0 {
      ForwardParts(l, n - 1);
      var s := l.subs[n - 1];
      assert Forward(l).subs[n - 1] == Forward(s);
      assert Written(ENA, s, true) == SimpleText(s);
      assert SimpleText(Forward(s)) == SimpleText(s);
      assert Written(ENA, Forward(s), false) == SimpleText(s);
    }
  }

  lemma {:induction false} GenbankParts(l: Location, n: nat)
    requires n <= |l.subs|
    requires forall i :: 0 <= i < |l.subs| ==> NegativeSimple(l.subs[i])
    ensures Parts(GENBANK, l, n, false) == CommaList(ComplementedParts(l)[..n]) + (if 0 < n < |l.subs| then "," else "")
  {
    if n > 0 {
      var ts := ComplementedParts(l);
      var prev := Parts(GENBANK, l, n - 1, false);
      var t := Written(GENBANK, l.subs[n - 1], false);
      var sep := if n < |l.subs| then "," else "";
      assert Parts(GENBANK, l, n, false) == prev + t + sep;
      GenbankParts(l, n - 1);
      GenbankPart(l, n - 1);
      CommaListSnoc(ts, n);
      if n == 1 {
        assert prev == "";
        assert CommaList(ts[..n]) == t;
        assert prev + t == t;
      } else {
        var front := CommaList(ts[..n - 1]);
        assert prev == front + ",";
        assert CommaList(ts[..n]) == front + "," + t;
      }
    }
  }

  /** GenBank writes a negative simple part complemented. */
  lemma GenbankPart(l: Location, i: nat)
    requires i < |l.subs| && NegativeSimple(l.subs[i])
    ensures Written(GENBANK, l.subs[i], false) == ComplementedParts(l)[i]
  {
    var s := l.subs[i];
    assert OpensComplement(GENBANK, s, false);
    assert Body(GENBANK, s, true) == SimpleText(s);
  }

  /** One more element of a comma list: a comma, then the element (no comma before the first). */
  lemma CommaListSnoc(ts: seq<string>, n: nat)
    requires 0 < n <= |ts|
    ensures CommaList(ts[..n]) == if n == 1 then ts[0] else CommaList(ts[..n - 1]) + "," + ts[n - 1]
  {
    TakeSnoc(ts, n);
  }

  lemma TakeSnoc<T>(s: seq<T>, n: nat)
    requires 0 < n <= |s|
    ensures s[..n] == s[..n - 1] + [s[n - 1]]
    ensures s[..n][..n - 1] == s[..n - 1] && s[..n][n - 1] == s[n - 1]
  {
  }

  // ---------------------------------------------------------------------------------
  // The round trips of the writer tests: locations as the INSDC parser reads them, written back.

  function Simple(a: int, b: int, strand: Strand): Location
  {
    Location(Point(a, false), Point(b, false), strand, false, JoinKind, [])
  }

  function Compound(a: int, b: int, strand: Strand, kind: Kind, subs: seq<Location>): Location
  {
    Location(Point(a, false), Point(b, false), strand, false, kind, subs)
  }

  lemma SmallNumbers()
    ensures IntToString(1) == "1" && IntToString(2) == "2" && IntToString(4) == "4" && IntToString(5) == "5"
    ensures IntToString(6) == "6" && IntToString(7) == "7" && IntToString(8) == "8"
  {
  }

  lemma LargeNumbers()
    ensures IntToString(123) == "123" && IntToString(456) == "456"
  {
    assert NatToString(12) == "12";
    assert NatToString(45) == "45";
  }

  /** A simple location: its text, complemented when `write` opens a complement. */
  lemma SimpleWritten(ds: DataSource, l: Location, a: bool)
    requires !l.IsComplex()
    ensures Written(ds, l, a) == Complemented(OpensComplement(ds, l, a), SimpleText(l))
  {
  }

  /** A two-part group: the keyword, then both parts separated by a comma, complemented when `write` opens a complement. */
  lemma TwoPartsWritten(ds: DataSource, l: Location, a: bool, t0: string, t1: string)
    requires |l.subs| == 2
    requires var inner := a || OpensComplement(ds, l, a);
      Written(ds, l.subs[0], inner) == t0 && Written(ds, l.subs[1], inner) == t1
    ensures Written(ds, l, a) == Complemented(OpensComplement(ds, l, a), Group(l, t0 + "," + t1))
  {
    var inner := a || OpensComplement(ds, l, a);
    TwoParts(ds, l, inner, t0, t1);
    assert Body(ds, l, inner) == Group(l, Parts(ds, l, 2, inner));
  }

  lemma TwoParts(ds: DataSource, l: Location, a: bool, t0: string, t1: string)
    requires |l.subs| == 2
    requires Written(ds, l.subs[0], a) == t0 && Written(ds, l.subs[1], a) == t1
    ensures Parts(ds, l, 2, a) == t0 + "," + t1
  {
    assert Parts(ds, l, 1, a) == "" + t0 + ",";
    assert "" + t0 == t0;
  }

  /** The text of a range whose ends are known and differ, from the texts of the ends. */
  lemma RangeText(l: Location, a: string, b: string)
    requires !l.start.unknown && !l.end.unknown && !l.betweenCompounds && l.start.position != l.end.position
    requires IntToString(l.start.position) == a && IntToString(l.end.position) == b
    ensures SimpleText(l) == a + ".." + b
  {
    assert StartText(l) == "" + a;
    assert EndText(l) == ".." + "" + b;
  }

  lemma SinglePoint()
    ensures Written(ENA, Simple(1, 1, Positive), false) == "1"
  {
    SmallNumbers();
    SimpleWritten(ENA, Simple(1, 1, Positive), false);
    assert StartText(Simple(1, 1, Positive)) == "" + "1";
  }

  lemma PlainRange()
    ensures Written(ENA, Simple(1, 2, Positive), false) == "1..2"
  {
    SmallNumbers();
    SimpleWritten(ENA, Simple(1, 2, Positive), false);
    RangeText(Simple(1, 2, Positive), "1", "2");
  }

  lemma BetweenRange()
    ensures Written(ENA, Simple(1, 2, Positive).(betweenCompounds := true), false) == "1^2"
  {
    var l := Simple(1, 2, Positive).(betweenCompounds := true);
    SmallNumbers();
    SimpleWritten(ENA, l, false);
    assert StartText(l) == "" + "1";
    assert EndText(l) == "^" + "" + "2";
  }

  lemma FuzzyComplement()
    ensures Written(ENA, Location(Point(123, true), Point(456, true), Negative, false, JoinKind, []), false) ==
      "complement(<123..>456)"
  {
    var l := Location(Point(123, true), Point(456, true), Negative, false, JoinKind, []);
    LargeNumbers();
    SimpleWritten(ENA, l, false);
    assert StartText(l) == "<" + "123";
    assert EndText(l) == ".." + ">" + "456";
  }

  /** A group whose keyword and parts give a known text. */
  lemma GroupText(l: Location, parts: string, keyword: string, expected: string)
    requires Join(l) == keyword && keyword + "(" + parts + ")" == expected
    ensures Complemented(false, Group(l, parts)) == expected
  {
  }

  lemma PositiveJoin()
    ensures Written(ENA, Compound(1, 8, Positive, JoinKind, [Simple(1, 2, Positive), Simple(7, 8, Positive)]), false) ==
      "join(1..2,7..8)"
  {
    var l := Compound(1, 8, Positive, JoinKind, [Simple(1, 2, Positive), Simple(7, 8, Positive)]);
    PlainParts(l, false);
    GroupText(l, "1..2" + "," + "7..8", "join", "join(1..2,7..8)");
  }

  /** The parts 1..2 and 7..8 of the test joins, written without complement. */
  lemma PlainParts(l: Location, a: bool)
    requires |l.subs| == 2 && !OpensComplement(ENA, l, a) && (a || l.strand != Negative)
    requires l.subs[0] == Simple(1, 2, l.subs[0].strand) && l.subs[1] == Simple(7, 8, l.subs[1].strand)
    requires a || l.subs[0].strand != Negative
    requires a || l.subs[1].strand != Negative
    ensures Written(ENA, l, a) == Group(l, "1..2" + "," + "7..8")
  {
    SmallNumbers();
    SimpleWritten(ENA, l.subs[0], a);
    RangeText(l.subs[0], "1", "2");
    SimpleWritten(ENA, l.subs[1], a);
    RangeText(l.subs[1], "7", "8");
    TwoPartsWritten(ENA, l, a, "1..2", "7..8");
  }

  lemma EnaNegativeJoin()
    ensures Written(ENA, Compound(1, 8, Negative, JoinKind, [Simple(1, 2, Negative), Simple(7, 8, Negative)]), false) ==
      "complement(join(1..2,7..8))"
  {
    var l := Compound(1, 8, Negative, JoinKind, [Simple(1, 2, Negative), Simple(7, 8, Negative)]);
    SmallNumbers();
    SimpleWritten(ENA, l.subs[0], true);
    RangeText(l.subs[0], "1", "2");
    SimpleWritten(ENA, l.subs[1], true);
    RangeText(l.subs[1], "7", "8");
    TwoPartsWritten(ENA, l, false, "1..2", "7..8");
    JoinOpen(l, "1..2" + "," + "7..8");
    EnaNegativeText();
  }

  lemma EnaNegativeText()
    ensures Complemented(true, "join(" + ("1..2" + "," + "7..8") + ")") == "complement(join(1..2,7..8))"
  {
  }

  lemma GenbankNegativeText()
    ensures "join(" + ("complement(1..2)" + "," + "complement(7..8)") + ")" == "join(complement(1..2),complement(7..8))"
  {
  }

  lemma ComplementText(body: string, expected: string)
    requires "complement(" + body + ")" == expected
    ensures Complemented(true, body) == expected
  {
  }

  /** GenBank complements each part: join(complement(1..2),complement(7..8)). */
  lemma GenbankNegativeJoin()
    ensures Written(GENBANK, Compound(1, 8, Negative, JoinKind, [Simple(1, 2, Negative), Simple(7, 8, Negative)]), false) ==
      "join(complement(1..2),complement(7..8))"
  {
    var l := Compound(1, 8, Negative, JoinKind, [Simple(1, 2, Negative), Simple(7, 8, Negative)]);
    SmallNumbers();
    SimpleWritten(GENBANK, l.subs[0], false);
    RangeText(l.subs[0], "1", "2");
    ComplementText("1..2", "complement(1..2)");
    SimpleWritten(GENBANK, l.subs[1], false);
    RangeText(l.subs[1], "7", "8");
    ComplementText("7..8", "complement(7..8)");
    TwoPartsWritten(GENBANK, l, false, "complement(1..2)", "complement(7..8)");
    JoinOpen(l, "complement(1..2)" + "," + "complement(7..8)");
    GenbankNegativeText();
  }

  /** A join written without complement: "join(", the parts, ")". */
  lemma JoinOpen(l: Location, parts: string)
    requires l.kind == JoinKind
    ensures Complemented(false, Group(l, parts)) == "join(" + parts + ")"
  {
    assert "join" + "(" == "join(";
  }

  /** The order, one-of and group keywords of the INSDC location classes. */
  lemma OrderExample()
    ensures Written(ENA, Compound(1, 8, Positive, OrderKind, [Simple(1, 2, Positive), Simple(7, 8, Positive)]), false) ==
      "order(1..2,7..8)"
  {
    var l := Compound(1, 8, Positive, OrderKind, [Simple(1, 2, Positive), Simple(7, 8, Positive)]);
    PlainParts(l, false);
    GroupText(l, "1..2" + "," + "7..8", "order", "order(1..2,7..8)");
  }

  lemma OneOfExample()
    ensures Written(ENA, Compound(1, 8, Positive, OneOfKind, [Simple(1, 2, Positive), Simple(7, 8, Positive)]), false) ==
      "one-of(1..2,7..8)"
  {
    var l := Compound(1, 8, Positive, OneOfKind, [Simple(1, 2, Positive), Simple(7, 8, Positive)]);
    PlainParts(l, false);
    GroupText(l, "1..2" + "," + "7..8", "one-of", "one-of(1..2,7..8)");
  }

  lemma GroupExample()
    ensures Written(ENA, Compound(1, 8, Positive, GroupKind, [Simple(1, 2, Positive), Simple(7, 8, Positive)]), false) ==
      "group(1..2,7..8)"
  {
    var l := Compound(1, 8, Positive, GroupKind, [Simple(1, 2, Positive), Simple(7, 8, Positive)]);
    PlainParts(l, false);
    GroupText(l, "1..2" + "," + "7..8", "group", "group(1..2,7..8)");
  }

  /** Nested joins: join(1..2,join(4..5,complement(6..8))). */
  lemma NestedExample()
    ensures Written(ENA, Compound(1, 8, Undefined, JoinKind, [Simple(1, 2, Positive),
      Compound(4, 8, Undefined, JoinKind, [Simple(4, 5, Positive), Simple(6, 8, Negative)])]), false) ==
      "join(1..2," + ("join(4..5," + "complement(6..8)" + ")") + ")"
  {
    var inner := Compound(4, 8, Undefined, JoinKind, [Simple(4, 5, Positive), Simple(6, 8, Negative)]);
    var outer := Compound(1, 8, Undefined, JoinKind, [Simple(1, 2, Positive), inner]);
    SmallNumbers();
    SimpleWritten(ENA, inner.subs[0], false);
    RangeText(inner.subs[0], "4", "5");
    SimpleWritten(ENA, inner.subs[1], false);
    RangeText(inner.subs[1], "6", "8");
    ComplementText("6..8", "complement(6..8)");
    TwoPartsWritten(ENA, inner, false, "4..5", "complement(6..8)");
    JoinOpen(inner, "4..5" + "," + "complement(6..8)");
    FirstPart("4..5", "complement(6..8)");
    var t := "join(4..5," + "complement(6..8)" + ")";
    SimpleWritten(ENA, outer.subs[0], false);
    RangeText(outer.subs[0], "1", "2");
    TwoPartsWritten(ENA, outer, false, "1..2", t);
    JoinOpen(outer, "1..2" + "," + t);
    FirstPart("1..2", t);
  }

  /** "join(" and a first part with its comma, before the rest. */
  lemma FirstPart(first: string, rest: string)
    requires first == "1..2" || first == "4..5"
    ensures "join(" + (first + "," + rest) + ")" == "join(" + first + "," + rest + ")"
    ensures first == "1..2" ==> "join(" + first + "," == "join(1..2,"
    ensures first == "4..5" ==> "join(" + first + "," == "join(4..5,"
  {
    assert "join(" + (first + "," + rest) == "join(" + first + "," + rest;
  }
}
