/**
 * The location forms EmblLikeLocationParser documents as supported and as refused, worked
 * through a newly constructed parser one token at a time, and the inputs that show where
 * the parser goes wrong.
 */
module EmblLikeExamples {
  import opened Wrappers
  import opened JavaLang
  import opened Locations
  import opened EmblLikeLocations

  /** "123": a point. */
  lemma PointForm(s: string)
    requires s == "7"
    ensures Parse(s, Fresh, false).result == Ok((Simple(PointLoc(7)), false))
  {
    StepDigit(s, 0, Fresh, false);
    assert Fresh.startCoords + [DigitValue(s[0])] == [7];
    StepEnd(s, Fresh.(startCoords := [7]), false);
  }

  /** "123..456": a range. */
  lemma RangeForm(s: string)
    requires s == "1..9"
    ensures Parse(s, Fresh, false).result == Ok((Simple(RangeLoc(1, 9)), false))
  {
    StepDigit(s, 0, Fresh, false);
    assert Fresh.startCoords + [DigitValue(s[0])] == [1];
    var m := Fresh.(startCoords := [1]);
    StepRange(s, 1, m, false);
    StepDigit(s, 3, m.(isPointLoc := false), false);
    assert m.endCoords + [DigitValue(s[3])] == [9];
    StepEnd(s, m.(isPointLoc := false, endCoords := [9]), false);
  }

  /** "<1..": the minimum is unbounded and the start coordinate read. */
  lemma UnboundedOpening(s: string)
    requires s == "<1..>9"
    ensures Run(s, 0, Fresh, false) ==
      Run(s, 4, Fresh.(unboundMin := true, startCoords := [1], isPointLoc := false), false)
  {
    StepBelow(s, 0, Fresh, false);
    var a := Fresh.(unboundMin := true);
    StepDigit(s, 1, a, false);
    assert a.startCoords + [DigitValue(s[1])] == [1];
    StepRange(s, 2, a.(startCoords := [1]), false);
  }

  /** "<123..>567": a range unbounded at both ends. */
  lemma UnboundedForm(s: string)
    requires s == "<1..>9"
    ensures Parse(s, Fresh, false).result == Ok((Simple(FuzzyLoc(INT_MIN, INT_MAX, 1, 9)), false))
  {
    UnboundedOpening(s);
    var c := Fresh.(unboundMin := true, startCoords := [1], isPointLoc := false);
    StepAbove(s, 4, c, false);
    var d := c.(unboundMax := true);
    StepDigit(s, 5, d, false);
    assert d.endCoords + [DigitValue(s[5])] == [9];
    StepEnd(s, d.(endCoords := [9]), false);
  }

  /** "(123.567)..789": a range with a fuzzy start. */
  lemma FuzzyStartForm(s: string)
    requires s == "(1.2)..9"
    ensures Parse(s, Fresh, false).result == Ok((Simple(FuzzyLoc(1, 9, 2, 9)), false))
  {
    StepFuzzyPair(s, 0, Fresh, false);
    assert Fresh.startCoords + [DigitValue(s[1]), DigitValue(s[3])] == [1, 2];
    var d := Fresh.(startCoords := [1, 2]);
    StepRange(s, 5, d, false);
    var e := d.(isPointLoc := false);
    StepDigit(s, 7, e, false);
    assert e.endCoords + [DigitValue(s[7])] == [9];
    StepEnd(s, e.(endCoords := [9]), false);
  }

  /** "123..(567.789)": a range with a fuzzy end. */
  lemma FuzzyEndForm(s: string)
    requires s == "1..(2.3)"
    ensures Parse(s, Fresh, false).result == Ok((Simple(FuzzyLoc(1, 3, 1, 2)), false))
  {
    StepDigit(s, 0, Fresh, false);
    assert Fresh.startCoords + [DigitValue(s[0])] == [1];
    var a := Fresh.(startCoords := [1]);
    StepRange(s, 1, a, false);
    var b := a.(isPointLoc := false);
    StepFuzzyPair(s, 3, b, false);
    assert b.endCoords + [DigitValue(s[4]), DigitValue(s[6])] == [2, 3];
    StepEnd(s, b.(endCoords := [2, 3]), false);
  }

  /** "(123.567)": a fuzzy point, refused. */
  lemma FuzzyPointRefused(s: string)
    requires s == "(1.2)"
    ensures Parse(s, Fresh, false).result == Err(BioException(FuzzyPoint, s))
  {
    StepFuzzyPair(s, 0, Fresh, false);
    assert Fresh.startCoords + [DigitValue(s[1]), DigitValue(s[3])] == [1, 2];
    StepEnd(s, Fresh.(startCoords := [1, 2]), false);
  }

  /** "<123": an unbounded point, refused; the parser keeps the unbounded flag. */
  lemma UnboundedPointRefused(s: string)
    requires s == "<1"
    ensures Parse(s, Fresh, false).result == Err(BioException(UnboundedPoint, s))
    ensures Parse(s, Fresh, false).after == Fresh.(unboundMin := true, startCoords := [1])
  {
    StepBelow(s, 0, Fresh, false);
    var a := Fresh.(unboundMin := true);
    StepDigit(s, 1, a, false);
    assert a.startCoords + [DigitValue(s[1])] == [1];
    StepEnd(s, a.(startCoords := [1]), false);
  }

  /** "123^567": a location between residues, refused. */
  lemma BetweenRefused(s: string)
    requires s == "1^2"
    ensures Parse(s, Fresh, false).result == Err(BioException(BetweenResidues, s))
  {
    StepDigit(s, 0, Fresh, false);
    assert Fresh.startCoords + [DigitValue(s[0])] == [1];
    StepCaret(s, 1, Fresh.(startCoords := [1]), false);
  }

  /** "J1:(": the accession is pushed, and ':' and '(' change nothing. */
  lemma RemoteOpening(s: string)
    requires s == "J1:(1..2)"
    ensures Run(s, 0, Fresh, false) == Run(s, 4, Fresh.(instructStack := ["J1"]), false)
  {
    StepWord(s, 0, 2, Fresh, false);
    assert s[0..2] == "J1";
    assert Fresh.instructStack + [s[0..2]] == ["J1"];
    var a := Fresh.(instructStack := ["J1"]);
    StepIgnored(s, 2, a, false);
    StepIgnored(s, 3, a, false);
  }

  /** "AL123465:(123..567)": a location on another entry, refused when its ')' pops the accession. */
  lemma RemoteRefused(s: string)
    requires s == "J1:(1..2)"
    ensures Parse(s, Fresh, false).result == Err(BioException(RemoteLocation, s))
  {
    RemoteOpening(s);
    var a := Fresh.(instructStack := ["J1"]);
    StepDigit(s, 4, a, false);
    assert a.startCoords + [DigitValue(s[4])] == [1];
    var b := a.(startCoords := [1]);
    StepRange(s, 5, b, false);
    var c := b.(isPointLoc := false);
    StepDigit(s, 7, c, false);
    assert c.endCoords + [DigitValue(s[7])] == [2];
    StepClose(s, 8, c.(endCoords := [2]), false);
  }

  /**
   * A parser whose previous call was refused keeps that call's flags: after "<1" is
   * refused, "1..9" comes out unbounded at the minimum.
   */
  lemma FlagsCarryOver(t: string, s: string)
    requires t == "<1" && s == "1..9"
    ensures Parse(s, Parse(t, Fresh, false).after, false).result ==
      Ok((Simple(FuzzyLoc(INT_MIN, 9, 1, 9)), false))
  {
    UnboundedPointRefused(t);
    var stale := Fresh.(unboundMin := true);
    StepDigit(s, 0, stale, false);
    assert stale.startCoords + [DigitValue(s[0])] == [1];
    var a := stale.(startCoords := [1]);
    StepRange(s, 1, a, false);
    var b := a.(isPointLoc := false);
    StepDigit(s, 3, b, false);
    assert b.endCoords + [DigitValue(s[3])] == [9];
    StepEnd(s, b.(endCoords := [9]), false);
  }

  // ---------------------------------------------------------------------------------------
  // Where the parser as written goes wrong, and the corrected parser.

  /** A blank after a comma: the parser as written never returns. */
  lemma BlankNeverReturns(s: string)
    requires s == "1, 2"
    ensures Parse(s, Fresh, false).result == Err(NeverReturns)
  {
    StepDigit(s, 0, Fresh, false);
    assert Fresh.startCoords + [DigitValue(s[0])] == [1];
    var a := Fresh.(startCoords := [1]);
    StepComma(s, 1, a, false);
    StepBlank(s, 2, Cleared(a).(subLocations := [PointLoc(1)]));
  }

  /** "1," with the corrected lexer: the first point is closed. */
  lemma BlankOpening(s: string)
    requires s == "1, 2"
    ensures Run(s, 0, Fresh, true) == Run(s, 2, Fresh.(subLocations := [PointLoc(1)]), true)
  {
    StepDigit(s, 0, Fresh, true);
    assert Fresh.startCoords + [DigitValue(s[0])] == [1];
    var a := Fresh.(startCoords := [1]);
    StepComma(s, 1, a, true);
    assert Cleared(a).(subLocations := [PointLoc(1)]) == Fresh.(subLocations := [PointLoc(1)]);
  }

  /** The corrected parser skips the blank. */
  lemma BlankSkipped(s: string)
    requires s == "1, 2"
    ensures Parse(s, Fresh, true).result == Ok((Compound([PointLoc(1), PointLoc(2)]), false))
  {
    CountAbsent(s, '(');
    CountAbsent(s, ')');
    BlankOpening(s);
    var b := Fresh.(subLocations := [PointLoc(1)]);
    StepBlank(s, 2, b);
    StepDigit(s, 3, b, true);
    assert b.startCoords + [DigitValue(s[3])] == [2];
    StepEnd(s, b.(startCoords := [2]), true);
    assert [PointLoc(1)] + [PointLoc(2)] == [PointLoc(1), PointLoc(2)];
  }

  /** A '.' in the last place: the parser as written reads past the end of the text. */
  lemma TrailingDotReadsPastEnd(s: string)
    requires s == "1."
    ensures Parse(s, Fresh, false).result == Err(StringIndexOutOfBounds)
  {
    StepDigit(s, 0, Fresh, false);
    assert Fresh.startCoords + [DigitValue(s[0])] == [1];
    StepTrailingDot(s, Fresh.(startCoords := [1]));
  }

  /** The corrected parser reads it as a lone '.'. */
  lemma TrailingDotRead(s: string)
    requires s == "1."
    ensures Parse(s, Fresh, true).result == Ok((Simple(PointLoc(1)), false))
  {
    CountAbsent(s, '(');
    CountAbsent(s, ')');
    StepDigit(s, 0, Fresh, true);
    assert Fresh.startCoords + [DigitValue(s[0])] == [1];
    var a := Fresh.(startCoords := [1]);
    StepTrailingDotCorrected(s, a);
    StepEnd(s, a.(fuzzyCoord := true), true);
  }

  /** An unclosed parenthesis: the check as written lets it through. */
  lemma UnbalancedAccepted(s: string)
    requires s == "(1"
    ensures Count(s, '(') != Count(s, ')')
    ensures Parse(s, Fresh, false).result == Ok((Simple(PointLoc(1)), false))
  {
    assert s[..1] == "(";
    StepIgnored(s, 0, Fresh, false);
    StepDigit(s, 1, Fresh, false);
    assert Fresh.startCoords + [DigitValue(s[1])] == [1];
    StepEnd(s, Fresh.(startCoords := [1]), false);
  }

  /** The corrected check refuses it. */
  lemma UnbalancedRefused(s: string)
    requires s == "(1"
    ensures Parse(s, Fresh, true).result == Err(BioException(UnbalancedParentheses, s))
  {
    assert s[..1] == "(";
    assert Count(s[..1], '(') == 1 by { assert s[..1][..0] == []; }
    assert Count(s, '(') == 1;
    CountAbsent(s, ')');
  }
}
