/**
 * Reading back what GenbankLocationParser.writeLocation writes. A simple location on either
 * strand, with or without a cross reference, comes back from parseLocation as it was written,
 * ranked 1; a cross reference naming the feature's own accession comes back as none.
 */
module GenbankRoundTrip {
  import opened Wrappers
  import opened JavaLang
  import opened GenbankLocations

  // ---------------------------------------------------------------------------------------
  // What the writer may be given.

  /** A position the writer renders and the position pattern reads back: int coordinates that are not negative, an exact position ending where it starts. */
  predicate ValidPosition(p: Position)
  {
    0 <= p.start <= INT_MAX && 0 <= p.end <= INT_MAX && (p.kind == Exact ==> p.end == p.start)
  }

  /**
   * The positions of a simple location that writeLocation writes in full: the end position is
   * written only when the minimum and the maximum differ, so when they agree the two
   * positions must be the same.
   */
  predicate ValidPositions(startPos: Position, endPos: Position)
  {
    ValidPosition(startPos) && ValidPosition(endPos) &&
    (startPos.start == endPos.end ==> startPos == endPos)
  }

  /** An accession the xref pattern reads back whole: no '.', ':', '(' or ')', and on one line. */
  predicate PlainAccession(a: string)
  {
    forall k :: 0 <= k < |a| ==> a[k] != '.' && a[k] != ':' && a[k] != '(' && a[k] != ')' && !IsLineTerminator(a[k])
  }

  /**
   * A cross reference the parser can give back: a plain accession and a version that is an
   * int and not negative; unless it names the feature's own accession, it lies in the
   * feature's namespace, the one the parser gives every cross reference it makes.
   */
  predicate ValidCrossRef(namespace: string, featureAccession: string, x: Option<CrossRef>)
  {
    x.Some? ==>
      PlainAccession(x.value.accession) && 0 <= x.value.version <= INT_MAX &&
      (x.value.accession == featureAccession || x.value.namespace == namespace)
  }

  /** The text in front of the ':' of an xref prefix: no ':', '(' or ')', and on one line. */
  predicate XrefName(a: string)
  {
    forall k :: 0 <= k < |a| ==> a[k] != ':' && a[k] != '(' && a[k] != ')' && !IsLineTerminator(a[k])
  }

  /** The cross reference parsing gives back: none for the feature's own accession. */
  function ReadBack(featureAccession: string, x: Option<CrossRef>): Option<CrossRef>
  {
    if x.Some? && x.value.accession == featureAccession then None else x
  }

  // ---------------------------------------------------------------------------------------
  // The shape of the text of a position.

  predicate PositionChar(c: char)
  {
    IsDigit(c) || c == '<' || c == '>' || c == '.' || c == '^'
  }

  /** Every '.' is followed by a digit, so no ".." occurs and the text does not end with '.'. */
  predicate DotsBeforeDigits(s: string)
  {
    forall k :: 0 <= k < |s| && s[k] == '.' ==> k + 1 < |s| && IsDigit(s[k + 1])
  }

  /** Text made of position characters that starts with '<' or a digit and ends with '>' or a digit. */
  predicate PlainText(t: string)
  {
    |t| > 0 && (t[0] == '<' || IsDigit(t[0])) && (t[|t| - 1] == '>' || IsDigit(t[|t| - 1])) &&
    (forall k :: 0 <= k < |t| ==> PositionChar(t[k]))
  }

  /** The pieces a position's text is made of: an optional '<', digits, an optional separator and digits, an optional '>'. */
  predicate PositionPieces(pre: string, d1: string, mid: string, post: string)
  {
    (pre == "" || pre == "<") && (post == "" || post == ">") && |d1| > 0 && AllDigits(d1) &&
    (mid == "" || (|mid| > 1 && (mid[0] == '.' || mid[0] == '^') && AllDigits(mid[1..])))
  }

  /** Text made of position pieces holds only position characters and has every '.' before a digit. */
  lemma PiecesChars(pre: string, d1: string, mid: string, post: string)
    requires PositionPieces(pre, d1, mid, post)
    ensures var t := pre + d1 + mid + post;
      (forall k :: 0 <= k < |t| ==> PositionChar(t[k])) && DotsBeforeDigits(t)
  {
    var t := pre + d1 + mid + post;
    forall k | 0 <= k < |t|
      ensures PositionChar(t[k])
      ensures t[k] == '.' ==> k + 1 < |t| && IsDigit(t[k + 1])
    {
      if k < |pre| {
      } else if k < |pre| + |d1| {
        assert t[k] == d1[k - |pre|];
      } else if k < |pre| + |d1| + |mid| {
        assert t[k] == mid[k - |pre| - |d1|];
        if k == |pre| + |d1| {
          assert t[k + 1] == mid[1];
        } else {
          assert t[k] == mid[1..][k - |pre| - |d1| - 1];
        }
      } else {
        assert t[k] == post[k - |pre| - |d1| - |mid|];
      }
    }
  }

  /** Text made of position pieces starts with '<' or a digit and ends with '>' or a digit. */
  lemma PiecesEnds(pre: string, d1: string, mid: string, post: string)
    requires PositionPieces(pre, d1, mid, post)
    ensures var t := pre + d1 + mid + post;
      |t| > 0 && (t[0] == '<' || IsDigit(t[0])) && (t[|t| - 1] == '>' || IsDigit(t[|t| - 1]))
  {
    var t := pre + d1 + mid + post;
    if pre == "" {
      assert t[0] == d1[0];
    }
    if post == "" {
      if mid == "" {
        assert t[|t| - 1] == d1[|d1| - 1];
      } else {
        assert t[|t| - 1] == mid[1..][|mid| - 2];
      }
    }
  }

  /** The text of a position is plain and has every '.' before a digit. */
  lemma PositionTextShape(p: Position)
    requires ValidPosition(p)
    ensures PlainText(PositionText(p)) && DotsBeforeDigits(PositionText(p))
  {
    var d2 := NatToString(p.end);
    var pre := if p.fuzzyStart then "<" else "";
    var mid := match p.kind case Exact => "" case Range => "." + d2 case Between => "^" + d2;
    var post := if p.fuzzyEnd then ">" else "";
    if mid != "" {
      assert mid[1..] == d2;
    }
    assert PositionText(p) == pre + NatToString(p.start) + mid + post;
    PiecesChars(pre, NatToString(p.start), mid, post);
    PiecesEnds(pre, NatToString(p.start), mid, post);
  }

  // ---------------------------------------------------------------------------------------
  // The pattern helpers on plain text.

  lemma DropOpenPlain(s: string)
    requires |s| == 0 || s[0] != '('
    ensures DropOpen(s) == s
  {
  }

  lemma DropClosePlain(s: string)
    requires |s| == 0 || s[|s| - 1] != ')'
    ensures DropClose(s) == s
  {
  }

  /** The maximal run of digits in front of a text that does not go on with a digit is that run. */
  lemma {:induction false} LeadingDigitsOf(d: string, r: string)
    requires AllDigits(d) && (|r| == 0 || !IsDigit(r[0]))
    ensures LeadingDigits(d + r) == d
  {
    if |d| > 0 {
      assert (d + r)[1..] == d[1..] + r;
      LeadingDigitsOf(d[1..], r);
      assert d == [d[0]] + d[1..];
    } else {
      assert d + r == r;
    }
  }

  /** Taking no more than a prefix takes from the prefix. */
  lemma PrefixOfConcat(x: string, y: string, k: nat)
    requires k <= |x|
    ensures (x + y)[..k] == x[..k]
  {
    assert forall i | 0 <= i < k :: (x + y)[..k][i] == x[..k][i];
  }

  /** Slicing past a prefix slices the rest. */
  lemma SliceOfConcat(x: string, y: string, k: nat)
    requires k <= |y|
    ensures (x + y)[|x| + k..] == y[k..]
  {
    assert forall i | 0 <= i < |y| - k :: (x + y)[|x| + k..][i] == y[k..][i];
  }

  /** With every '.' before a digit, the first ".." is the one after the text. */
  lemma {:induction false} FirstDotsAfter(a: string, b: string)
    requires DotsBeforeDigits(a)
    ensures FirstDots(a + ".." + b) == Some(|a|)
  {
    var s := a + ".." + b;
    if |a| > 0 {
      assert !(s[0] == '.' && s[1] == '.') by {
        if a[0] == '.' { assert s[1] == a[1]; }
      }
      assert s[1..] == a[1..] + ".." + b;
      FirstDotsAfter(a[1..], b);
    }
  }

  /** With every '.' before a digit, no ".." occurs at all. */
  lemma {:induction false} FirstDotsNone(a: string)
    requires DotsBeforeDigits(a)
    ensures FirstDots(a) == None
  {
    if |a| >= 2 {
      assert !(a[0] == '.' && a[1] == '.');
      FirstDotsNone(a[1..]);
    }
  }

  /** A text without ':' has no xref prefix. */
  lemma {:induction false} XrefColonNone(s: string)
    requires forall k :: 0 <= k < |s| ==> s[k] != ':'
    ensures XrefColon(s) == None
  {
    if |s| > 0 && s[0] != '(' && s[0] != ')' {
      XrefColonNone(s[1..]);
    }
  }

  /** A name without ':', '(' or ')' followed by ':' is the xref prefix. */
  lemma {:induction false} XrefColonAfter(a: string, rest: string)
    requires XrefName(a)
    ensures XrefColon(a + ":" + rest) == Some(|a|)
  {
    var s := a + ":" + rest;
    if |a| > 0 {
      assert s[0] == a[0];
      assert s[1..] == a[1..] + ":" + rest;
      XrefColonAfter(a[1..], rest);
    }
  }

  lemma {:induction false} OnOneLineOf(s: string)
    requires forall k :: 0 <= k < |s| ==> !IsLineTerminator(s[k])
    ensures OnOneLine(s)
  {
    if |s| > 0 {
      OnOneLineOf(s[1..]);
    }
  }

  lemma {:induction false} LastDotNone(s: string)
    requires forall k :: 0 <= k < |s| ==> s[k] != '.'
    ensures LastDot(s) == None
  {
    if |s| > 0 {
      LastDotNone(s[..|s| - 1]);
    }
  }

  lemma {:induction false} LastDotBefore(a: string, d: string)
    requires forall k :: 0 <= k < |d| ==> d[k] != '.'
    ensures LastDot(a + "." + d) == Some(|a|)
  {
    var s := a + "." + d;
    if |d| > 0 {
      assert s[..|s| - 1] == a + "." + d[..|d| - 1];
      LastDotBefore(a, d[..|d| - 1]);
    } else {
      assert s[|s| - 1] == '.';
    }
  }

  // ---------------------------------------------------------------------------------------
  // Reading back positions, bodies and cross references.

  /** After an optional '<' the position pattern reads the digits and whatever follows them. */
  lemma AfterFuzzyStart(fuzzyStart: bool, d: string, rest: string)
    requires |d| > 0 && IsDigit(d[0])
    ensures var t := (if fuzzyStart then "<" else "") + (d + rest);
      DropOpen(t) == t && (|t| > 0 && t[0] == '<') == fuzzyStart &&
      (if fuzzyStart then t[1..] else t) == d + rest
  {
    var t := (if fuzzyStart then "<" else "") + (d + rest);
    if fuzzyStart {
      assert t[1..] == d + rest;
    } else {
      assert t == d + rest;
      assert t[0] == d[0];
    }
    DropOpenPlain(t);
  }

  /** ReadPosition on a text whose digits and tail are known: an exact position. */
  lemma ReadExactFrom(t: string, which: string, fuzzyStart: bool, fuzzyEnd: bool, d: string)
    requires DropOpen(t) == t && |t| > 0 && (t[0] == '<') == fuzzyStart
    requires |d| > 0 && AllDigits(d) && DigitsValue(d) <= INT_MAX
    requires var b := if fuzzyStart then t[1..] else t;
      LeadingDigits(b) == d && b[|d|..] == (if fuzzyEnd then ">" else "")
    ensures ReadPosition(t, which) == Ok(Position(fuzzyStart, fuzzyEnd, DigitsValue(d), DigitsValue(d), Exact))
  {
    var b := if fuzzyStart then t[1..] else t;
    var c := b[|d|..];
    assert PositionTail(c) && (|c| > 0 && c[0] == '>') == fuzzyEnd;
    assert !(|c| > 0 && (c[0] == '.' || c[0] == '^'));
  }

  /** ReadPosition on a text whose digits, separator and tail are known: a range or between position. */
  lemma ReadPairFrom(t: string, which: string, fuzzyStart: bool, fuzzyEnd: bool,
                     b: string, d1: string, c: string, sep: char, d2: string)
    requires DropOpen(t) == t && |t| > 0 && (t[0] == '<') == fuzzyStart
    requires b == if fuzzyStart then t[1..] else t
    requires |d1| > 0 && AllDigits(d1) && DigitsValue(d1) <= INT_MAX
    requires |d2| > 0 && AllDigits(d2) && DigitsValue(d2) <= INT_MAX
    requires sep == '.' || sep == '^'
    requires LeadingDigits(b) == d1 && b[|d1|..] == c && |c| > 0 && c[0] == sep
    requires LeadingDigits(c[1..]) == d2 && c[1 + |d2|..] == (if fuzzyEnd then ">" else "")
    ensures ReadPosition(t, which) ==
      Ok(Position(fuzzyStart, fuzzyEnd, DigitsValue(d1), DigitsValue(d2), if sep == '.' then Range else Between))
  {
    var e := c[1 + |d2|..];
    assert PositionTail(e) && (|e| > 0 && e[0] == '>') == fuzzyEnd;
    assert |d1| > 0 && |c| > 0 && (c[0] == '.' || c[0] == '^');
  }

  /** The position pattern reads "<"? digits ">"? as an exact position. */
  lemma ReadExactPosition(fuzzyStart: bool, fuzzyEnd: bool, d: string, which: string)
    requires |d| > 0 && AllDigits(d) && DigitsValue(d) <= INT_MAX
    ensures var t := (if fuzzyStart then "<" else "") + (d + (if fuzzyEnd then ">" else ""));
      ReadPosition(t, which) == Ok(Position(fuzzyStart, fuzzyEnd, DigitsValue(d), DigitsValue(d), Exact))
  {
    var post := if fuzzyEnd then ">" else "";
    var t := (if fuzzyStart then "<" else "") + (d + post);
    AfterFuzzyStart(fuzzyStart, d, post);
    LeadingDigitsOf(d, post);
    assert (d + post)[|d|..] == post;
    ReadExactFrom(t, which, fuzzyStart, fuzzyEnd, d);
  }

  /** The position pattern reads "<"? digits ('.' or '^') digits ">"? as a range or between position. */
  lemma ReadPairPosition(fuzzyStart: bool, fuzzyEnd: bool, d1: string, sep: char, d2: string, which: string)
    requires |d1| > 0 && AllDigits(d1) && DigitsValue(d1) <= INT_MAX
    requires |d2| > 0 && AllDigits(d2) && DigitsValue(d2) <= INT_MAX
    requires sep == '.' || sep == '^'
    ensures var t := (if fuzzyStart then "<" else "") + (d1 + ([sep] + (d2 + (if fuzzyEnd then ">" else ""))));
      ReadPosition(t, which) ==
        Ok(Position(fuzzyStart, fuzzyEnd, DigitsValue(d1), DigitsValue(d2), if sep == '.' then Range else Between))
  {
    var post := if fuzzyEnd then ">" else "";
    var c := [sep] + (d2 + post);
    var t := (if fuzzyStart then "<" else "") + (d1 + c);
    AfterFuzzyStart(fuzzyStart, d1, c);
    LeadingDigitsOf(d1, c);
    var b := d1 + c;
    SliceOfConcat(d1, c, 0);
    SliceOfConcat([sep], d2 + post, 0);
    LeadingDigitsOf(d2, post);
    SliceOfConcat([sep], d2 + post, |d2|);
    SliceOfConcat(d2, post, 0);
    ReadPairFrom(t, which, fuzzyStart, fuzzyEnd, b, d1, c, sep, d2);
  }

  /** The text of an exact position is read back as that position. */
  lemma ReadExactOfText(p: Position, which: string)
    requires ValidPosition(p) && p.kind == Exact
    ensures ReadPosition(PositionText(p), which) == Ok(p)
  {
    var d := NatToString(p.start);
    DigitsValueOfNatToString(p.start);
    assert PositionText(p) == (if p.fuzzyStart then "<" else "") + (d + (if p.fuzzyEnd then ">" else ""));
    ReadExactPosition(p.fuzzyStart, p.fuzzyEnd, d, which);
  }

  lemma Regroup(a: string, b: string, c: string, d: string, e: string)
    ensures a + b + (c + d) + e == a + (b + (c + (d + e)))
  {
  }

  /** The text of a range or between position is read back as that position. */
  lemma ReadPairOfText(p: Position, which: string)
    requires ValidPosition(p) && p.kind != Exact
    ensures ReadPosition(PositionText(p), which) == Ok(p)
  {
    var d1 := NatToString(p.start);
    var d2 := NatToString(p.end);
    var sep := if p.kind == Range then '.' else '^';
    DigitsValueOfNatToString(p.start);
    DigitsValueOfNatToString(p.end);
    var pre := if p.fuzzyStart then "<" else "";
    var post := if p.fuzzyEnd then ">" else "";
    assert PositionText(p) == pre + d1 + ([sep] + d2) + post;
    Regroup(pre, d1, [sep], d2, post);
    ReadPairPosition(p.fuzzyStart, p.fuzzyEnd, d1, sep, d2, which);
  }

  /** The position pattern reads the text of a position back as that position. */
  lemma ReadPositionOfText(p: Position, which: string)
    requires ValidPosition(p)
    ensures ReadPosition(PositionText(p), which) == Ok(p)
  {
    if p.kind == Exact {
      ReadExactOfText(p, which);
    } else {
      ReadPairOfText(p, which);
    }
  }

  /** The range pattern splits start ".." end at the "..". */
  lemma RangePartsOfPair(a: string, b: string)
    requires PlainText(a) && DotsBeforeDigits(a) && PlainText(b)
    ensures RangeParts(a + ".." + b) == (a, Some(b))
  {
    var s := a + ".." + b;
    DropOpenPlain(s);
    FirstDotsAfter(a, b);
    PrefixOfConcat(a, "..", |a|);
    PrefixOfConcat(a + "..", b, |a|);
    DropClosePlain(a);
    SliceOfConcat(a + "..", b, 0);
    DropOpenPlain(b);
  }

  /** The range pattern and the position pattern read start ".." end as the two positions. */
  lemma ReadPositionsOfPair(a: string, b: string, startPos: Position, endPos: Position)
    requires PlainText(a) && DotsBeforeDigits(a) && ReadPosition(a, "start") == Ok(startPos)
    requires PlainText(b) && ReadPosition(b, "end") == Ok(endPos)
    ensures ReadPositions(a + ".." + b) == Ok((startPos, endPos))
  {
    RangePartsOfPair(a, b);
  }

  /** The range pattern reads a text without ".." as a point. */
  lemma ReadPositionsOfPoint(a: string, startPos: Position)
    requires PlainText(a) && DotsBeforeDigits(a) && ReadPosition(a, "start") == Ok(startPos)
    ensures ReadPositions(a) == Ok((startPos, startPos))
  {
    DropClosePlain(a);
    DropOpenPlain(a);
    FirstDotsNone(a);
  }

  /** The range pattern and the position pattern read the body of a simple location back as its positions. */
  lemma ReadPositionsOfBody(startPos: Position, endPos: Position)
    requires ValidPositions(startPos, endPos)
    ensures ReadPositions(BodyText(startPos, endPos)) == Ok((startPos, endPos))
  {
    PositionTextShape(startPos);
    ReadPositionOfText(startPos, "start");
    if startPos.start != endPos.end {
      PositionTextShape(endPos);
      ReadPositionOfText(endPos, "end");
      ReadPositionsOfPair(PositionText(startPos), PositionText(endPos), startPos, endPos);
    } else {
      ReadPositionsOfPoint(PositionText(startPos), startPos);
    }
  }

  /** The text of a body is plain. */
  lemma BodyTextPlain(startPos: Position, endPos: Position)
    requires ValidPositions(startPos, endPos)
    ensures PlainText(BodyText(startPos, endPos))
  {
    var a := PositionText(startPos);
    PositionTextShape(startPos);
    if startPos.start != endPos.end {
      var b := PositionText(endPos);
      PositionTextShape(endPos);
      var s := a + ".." + b;
      forall k | 0 <= k < |s|
        ensures PositionChar(s[k])
      {
        if k < |a| {
          assert s[k] == a[k];
        } else if k >= |a| + 2 {
          assert s[k] == b[k - |a| - 2];
        }
      }
      assert s[0] == a[0];
      assert s[|s| - 1] == b[|b| - 1];
    }
  }

  /** The xref pattern splits accession "." digits at that '.'. */
  lemma SplitVersionWith(a: string, d: string)
    requires |d| > 0 && AllDigits(d)
    ensures SplitVersion(a + "." + d) == (a, Some(d))
  {
    var body := a + "." + d;
    forall k | 0 <= k < |d|
      ensures d[k] != '.'
    {
      assert IsDigit(d[k]);
    }
    LastDotBefore(a, d);
    assert body[..|a|] == a;
    assert body[|a| + 1..] == d;
  }

  /** An xref prefix is read back as the cross reference written, or none for the feature's own accession. */
  lemma ReadXrefOfText(namespace: string, featureAccession: string, x: Option<CrossRef>)
    requires x.Some? && ValidCrossRef(namespace, featureAccession, x)
    ensures |XrefText(x)| > 0
    ensures ReadXref(namespace, featureAccession, XrefText(x)) == Ok(ReadBack(featureAccession, x))
  {
    var c := x.value;
    var name := XrefText(x);
    var body := name[..|name| - 1];
    XrefTextShape(namespace, featureAccession, x);
    OnOneLineOf(body);
    if c.version != 0 {
      var d := NatToString(c.version);
      assert body == c.accession + "." + d;
      SplitVersionWith(c.accession, d);
      DigitsValueOfNatToString(c.version);
    } else {
      assert body == c.accession;
      LastDotNone(body);
    }
  }

  /** The xref prefix the writer produces is a name followed by ':'. */
  lemma XrefTextShape(namespace: string, featureAccession: string, x: Option<CrossRef>)
    requires x.Some? && ValidCrossRef(namespace, featureAccession, x)
    ensures var name := XrefText(x);
      |name| > 0 && name[|name| - 1] == ':' && XrefName(name[..|name| - 1])
  {
    var c := x.value;
    var name := XrefText(x);
    var body := name[..|name| - 1];
    if c.version != 0 {
      var d := NatToString(c.version);
      assert body == c.accession + "." + d;
      forall k | 0 <= k < |body|
        ensures body[k] != ':' && body[k] != '(' && body[k] != ')' && !IsLineTerminator(body[k])
      {
        if k < |c.accession| {
          assert body[k] == c.accession[k];
        } else if k > |c.accession| {
          assert body[k] == d[k - |c.accession| - 1];
        }
      }
    } else {
      assert body == c.accession;
    }
  }

  /** Plain text has no ':' and is on one line. */
  lemma PlainOneLine(t: string)
    requires PlainText(t)
    ensures (forall k :: 0 <= k < |t| ==> t[k] != ':') && OnOneLine(t)
  {
    forall k | 0 <= k < |t|
      ensures t[k] != ':' && !IsLineTerminator(t[k])
    {
      assert PositionChar(t[k]);
    }
    OnOneLineOf(t);
  }

  /** A text that starts with neither 'c', 'j' nor 'o' has no group keyword. */
  lemma NoKeyword(t: string)
    requires |t| > 0 && t[0] != 'c' && t[0] != 'j' && t[0] != 'o'
    ensures GroupWord(t) == NoGroup
  {
    assert "complement"[0] == 'c' && "join"[0] == 'j' && "order"[0] == 'o';
  }

  /** Plain text has no xref prefix and no group keyword, and is its own inner text. */
  lemma PlainHeaderFacts(t: string)
    requires PlainText(t)
    ensures XrefColon(t) == None && OnOneLine(t) && GroupWord(t) == NoGroup && Inner(t) == t
  {
    PlainOneLine(t);
    XrefColonNone(t);
    NoKeyword(t);
    DropOpenPlain(t);
    DropClosePlain(t);
  }

  /** "complement(" t ")" for plain t has no ':' and is on one line. */
  lemma ComplementOneLine(t: string)
    requires PlainText(t)
    ensures var s := "complement(" + t + ")";
      (forall k :: 0 <= k < |s| ==> s[k] != ':') && OnOneLine(s)
  {
    var s := "complement(" + t + ")";
    forall k | 0 <= k < |s|
      ensures s[k] != ':' && !IsLineTerminator(s[k])
    {
      if 11 <= k < 11 + |t| {
        assert s[k] == t[k - 11];
        assert PositionChar(t[k - 11]);
      }
    }
    OnOneLineOf(s);
  }

  /** "complement(" t ")" for plain t: the complement keyword and inner text t. */
  lemma ComplementGroup(t: string)
    requires PlainText(t)
    ensures var s := "complement(" + t + ")";
      GroupWord(s) == Complement && Inner(s[|Keyword(Complement)|..]) == t
  {
    var s := "complement(" + t + ")";
    assert s == "complement" + ("(" + t + ")");
    PrefixOfConcat("complement", "(" + t + ")", 10);
    SliceOfConcat("complement", "(" + t + ")", 0);
    UnwrapParentheses(t);
  }

  /** The inner text of "(" t ")" for t that neither starts with '(' nor ends with ')' is t. */
  lemma UnwrapParentheses(t: string)
    requires |t| > 0 && t[0] != '(' && t[|t| - 1] != ')'
    ensures Inner("(" + t + ")") == t
  {
    var u := "(" + t + ")";
    assert u[1..] == t + ")";
    DropOpenPlain(t + ")");
    assert (t + ")")[..|t|] == t;
    DropClosePlain(t);
  }

  /** The text of a body on a strand has no xref prefix and is on one line. */
  lemma StrandedOneLine(t: string, strand: Strand)
    requires PlainText(t)
    ensures var s := StrandedText(t, strand);
      XrefColon(s) == None && OnOneLine(s)
  {
    var s := StrandedText(t, strand);
    if strand == Negative {
      assert s == "complement(" + t + ")";
      ComplementOneLine(t);
    } else {
      assert s == t;
      PlainOneLine(t);
    }
    XrefColonNone(s);
  }

  /** The group pattern finds complement on the negative strand and no keyword otherwise, with the body inside. */
  lemma StrandedGroup(t: string, strand: Strand)
    requires PlainText(t)
    ensures var s := StrandedText(t, strand);
      GroupWord(s) == (if strand == Negative then Complement else NoGroup) &&
      Inner(s[|Keyword(GroupWord(s))|..]) == t
  {
    if strand == Negative {
      assert StrandedText(t, strand) == "complement(" + t + ")";
      ComplementGroup(t);
    } else {
      assert StrandedText(t, strand) == t;
      PlainHeaderFacts(t);
    }
  }

  /** An xref prefix written by the writer is read back, and the group pattern goes on with the rest. */
  lemma HeaderOfXref(namespace: string, featureAccession: string, parentXref: Option<CrossRef>,
                     x: Option<CrossRef>, rest: string)
    requires x.Some? && ValidCrossRef(namespace, featureAccession, x) && OnOneLine(rest)
    ensures var g := GroupWord(rest);
      ReadHeader(namespace, featureAccession, parentXref, XrefText(x) + rest) ==
        Ok(Header(ReadBack(featureAccession, x), g, Inner(rest[|Keyword(g)|..])))
  {
    var name := XrefText(x);
    XrefTextShape(namespace, featureAccession, x);
    var a := name[..|name| - 1];
    assert name == a + ":";
    XrefColonAfter(a, rest);
    PrefixOfConcat(name, rest, |name|);
    SliceOfConcat(name, rest, 0);
    ReadXrefOfText(namespace, featureAccession, x);
  }

  /** The group pattern on what the writer wrote for a simple location: its xref, its strand's group and its body. */
  lemma HeaderOfStranded(namespace: string, featureAccession: string, parentXref: Option<CrossRef>,
                         x: Option<CrossRef>, t: string, strand: Strand)
    requires PlainText(t) && ValidCrossRef(namespace, featureAccession, x)
    ensures ReadHeader(namespace, featureAccession, parentXref, XrefText(x) + StrandedText(t, strand)) ==
      Ok(Header(if x.Some? then ReadBack(featureAccession, x) else parentXref,
                if strand == Negative then Complement else NoGroup, t))
  {
    var s := StrandedText(t, strand);
    StrandedOneLine(t, strand);
    if x.Some? {
      HeaderOfXref(namespace, featureAccession, parentXref, x, s);
    } else {
      assert XrefText(x) + s == s;
      HeaderNoXref(namespace, featureAccession, parentXref, s);
    }
    StrandedGroup(t, strand);
  }

  /** Without an xref prefix the group pattern keeps the incoming cross reference and goes on with the whole text. */
  lemma HeaderNoXref(namespace: string, featureAccession: string, parentXref: Option<CrossRef>, s: string)
    requires XrefColon(s) == None && OnOneLine(s)
    ensures var g := GroupWord(s);
      ReadHeader(namespace, featureAccession, parentXref, s) == Ok(Header(parentXref, g, Inner(s[|Keyword(g)|..])))
  {
  }

  /** Text with no xref prefix, on one line, without a group keyword and with no brackets round it is its own header. */
  lemma HeaderWithoutXref(namespace: string, featureAccession: string, parentXref: Option<CrossRef>, t: string)
    requires XrefColon(t) == None && OnOneLine(t) && GroupWord(t) == NoGroup && Inner(t) == t
    ensures ReadHeader(namespace, featureAccession, parentXref, t) == Ok(Header(parentXref, NoGroup, t))
  {
    HeaderNoXref(namespace, featureAccession, parentXref, t);
    assert t[|Keyword(NoGroup)|..] == t;
  }

  /** A header without a group keyword leads parseLocString to a simple location with the current rank. */
  lemma ParseNoGroup(namespace: string, featureAccession: string, parentXref: Option<CrossRef>, strand: Strand,
                     s: string, xref: Option<CrossRef>, t: string, rank: int, startPos: Position, endPos: Position)
    requires ReadHeader(namespace, featureAccession, parentXref, s) == Ok(Header(xref, NoGroup, t))
    requires ReadPositions(t) == Ok((startPos, endPos))
    ensures ParseLocString(namespace, featureAccession, parentXref, strand, s, rank) ==
      Ok(Parsed(SimpleRichLocation(startPos, endPos, rank, strand, xref), rank + 1))
  {
  }

  /** A complement header leads parseLocString to its inner text on the flipped strand, with the header's cross reference. */
  lemma ParseComplement(namespace: string, featureAccession: string, parentXref: Option<CrossRef>, strand: Strand,
                        s: string, xref: Option<CrossRef>, t: string, rank: int)
    requires ReadHeader(namespace, featureAccession, parentXref, s) == Ok(Header(xref, Complement, t))
    ensures ParseLocString(namespace, featureAccession, parentXref, strand, s, rank) ==
      ParseLocString(namespace, featureAccession, xref, Flip(strand), t, rank)
  {
  }

  /** parseLocString reads plain text as a simple location with the given cross reference, strand and rank. */
  lemma ParsePlain(namespace: string, featureAccession: string, parentXref: Option<CrossRef>,
                   strand: Strand, t: string, rank: int, startPos: Position, endPos: Position)
    requires PlainText(t) && ReadPositions(t) == Ok((startPos, endPos))
    ensures ParseLocString(namespace, featureAccession, parentXref, strand, t, rank) ==
      Ok(Parsed(SimpleRichLocation(startPos, endPos, rank, strand, parentXref), rank + 1))
  {
    PlainHeaderFacts(t);
    HeaderWithoutXref(namespace, featureAccession, parentXref, t);
    ParseNoGroup(namespace, featureAccession, parentXref, strand, t, parentXref, t, rank, startPos, endPos);
  }

  /** The group pattern on what writeLocation writes for a simple location. */
  lemma HeaderOfWritten(namespace: string, featureAccession: string, l: RichLocation)
    requires l.SimpleRichLocation? && ValidPositions(l.startPos, l.endPos)
    requires ValidCrossRef(namespace, featureAccession, l.crossRef)
    ensures ReadHeader(namespace, featureAccession, None, LocationText(l)) ==
      Ok(Header(ReadBack(featureAccession, l.crossRef), if l.strand == Negative then Complement else NoGroup,
                BodyText(l.startPos, l.endPos)))
  {
    var t := BodyText(l.startPos, l.endPos);
    BodyTextPlain(l.startPos, l.endPos);
    assert LocationText(l) == XrefText(l.crossRef) + StrandedText(t, l.strand);
    HeaderOfStranded(namespace, featureAccession, None, l.crossRef, t, l.strand);
  }

  /** parseLocString, from the top, on what writeLocation writes for a simple location on the negative strand. */
  lemma ParseWrittenComplement(namespace: string, featureAccession: string, l: RichLocation)
    requires l.SimpleRichLocation? && ValidPositions(l.startPos, l.endPos) && l.strand == Negative
    requires ValidCrossRef(namespace, featureAccession, l.crossRef)
    ensures ParseLocString(namespace, featureAccession, None, Positive, LocationText(l), 1) ==
      Ok(Parsed(SimpleRichLocation(l.startPos, l.endPos, 1, Negative, ReadBack(featureAccession, l.crossRef)), 2))
  {
    var t := BodyText(l.startPos, l.endPos);
    var xref := ReadBack(featureAccession, l.crossRef);
    BodyTextPlain(l.startPos, l.endPos);
    ReadPositionsOfBody(l.startPos, l.endPos);
    HeaderOfWritten(namespace, featureAccession, l);
    ParseComplement(namespace, featureAccession, None, Positive, LocationText(l), xref, t, 1);
    ParsePlain(namespace, featureAccession, xref, Negative, t, 1, l.startPos, l.endPos);
  }

  /** parseLocString, from the top, on what writeLocation writes for a simple location on any other strand. */
  lemma ParseWrittenPlain(namespace: string, featureAccession: string, l: RichLocation)
    requires l.SimpleRichLocation? && ValidPositions(l.startPos, l.endPos) && l.strand != Negative
    requires ValidCrossRef(namespace, featureAccession, l.crossRef)
    ensures ParseLocString(namespace, featureAccession, None, Positive, LocationText(l), 1) ==
      Ok(Parsed(SimpleRichLocation(l.startPos, l.endPos, 1, Positive, ReadBack(featureAccession, l.crossRef)), 2))
  {
    var t := BodyText(l.startPos, l.endPos);
    var xref := ReadBack(featureAccession, l.crossRef);
    ReadPositionsOfBody(l.startPos, l.endPos);
    HeaderOfWritten(namespace, featureAccession, l);
    ParseNoGroup(namespace, featureAccession, None, Positive, LocationText(l), xref, t, 1, l.startPos, l.endPos);
  }

  /**
   * parseLocation reads back what writeLocation writes for a simple location: the same
   * positions, rank 1, the positive strand for an unknown strand (no complement(...) is
   * written for it), and no cross reference when it names the feature's own accession.
   */
  lemma SimpleRoundTrip(namespace: string, featureAccession: string, l: RichLocation)
    requires l.SimpleRichLocation? && ValidPositions(l.startPos, l.endPos)
    requires ValidCrossRef(namespace, featureAccession, l.crossRef)
    ensures ParseLocation(namespace, featureAccession, LocationText(l)) ==
      Ok(SimpleRichLocation(l.startPos, l.endPos, 1, if l.strand == Negative then Negative else Positive,
                            ReadBack(featureAccession, l.crossRef)))
  {
    if l.strand == Negative {
      ParseWrittenComplement(namespace, featureAccession, l);
    } else {
      ParseWrittenPlain(namespace, featureAccession, l);
    }
  }
}
