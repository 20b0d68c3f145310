/**
 * EmblLikeLocationParser: reads EMBL/GenBank location text such as "123", "<1..>45",
 * "(1.3)..9" or "complement(join(1..2,7..8))" into a location plus a complement flag.
 *
 * A hand-written lexer (LocationLexer) walks the text with the index nextCharIndex and
 * hands tokens to parseLocation, whose loop collects start and end coordinates, pushes the
 * words it meets (join, order, complement, or anything else) on an instruction stack, turns
 * the coordinates into a block at every ',' and unmatched ')' (processCoords), and pops an
 * instruction at every unmatched ')' (processInstructs).
 *
 * The parser is an object whose fields survive from one call to the next, so it is a class
 * here. Its fields other than the text and the index are gathered in the value Machine,
 * and every method is proved against a function on Machine: Lex for getNextToken, Coords
 * for processCoords, Instructs for processInstructs, Consume for one pass of the loop, Run
 * for the loop and Parse for parseLocation. Where the source throws or never returns, the
 * outcome carries a Failure.
 */
module EmblLikeLocations {
  import opened Wrappers
  import opened JavaLang
  import opened Locations

  // ---------------------------------------------------------------------------------------
  // The lexer.

  /** The three kinds of object getNextToken returns: a Character, a String or an Integer. */
  datatype Token = CharToken(c: char) | TextToken(text: string) | IntToken(value: int)

  /** What one call of getNextToken does. */
  datatype Lexed =
    | Next(token: Token, next: nat)  // a token, and the index just after it
    | NoMoreTokens                   // null: the index is at the end of the text
    | Spins                          // a blank: the lexer's loop continues without advancing, forever
    | ReadsPastEnd                   // a '.' in the last place: charAt(length) throws
    | BadNumber(digits: string)      // new Integer(digits) above Integer.MAX_VALUE throws

  predicate IsBlank(c: char) { c == ' ' || c == '\t' }

  /** The characters getNextToken returns as a Character on their own. */
  predicate IsPunctuation(c: char) { c in ":^,()<>" }

  /** The characters followText keeps after the first letter. */
  predicate IsTextChar(c: char) { IsLetter(c) || IsDigit(c) || c == '.' }

  /** The index where the run of digits starting at i ends (followInteger's loop). */
  function DigitsEnd(s: string, i: nat): (e: nat)
    requires i <= |s|
    ensures i <= e <= |s|
    ensures AllDigits(s[i..e])
    ensures e < |s| ==> !IsDigit(s[e])
    ensures i < |s| && IsDigit(s[i]) ==> i < e
    decreases |s| - i
  {
    if i < |s| && IsDigit(s[i]) then
      var e := DigitsEnd(s, i + 1);
      assert s[i..e] == [s[i]] + s[i + 1..e];
      e
    else i
  }

  /** The index where the run of letters, digits and dots starting at i ends (followText's loop). */
  function TextEnd(s: string, i: nat): (e: nat)
    requires i <= |s|
    ensures i <= e <= |s|
    ensures forall k :: i <= k < e ==> IsTextChar(s[k])
    ensures e < |s| ==> !IsTextChar(s[e])
    decreases |s| - i
  {
    if i < |s| && IsTextChar(s[i]) then TextEnd(s, i + 1) else i
  }

  /**
   * getNextToken with the index at i: null at the end; a blank spins; one of : ^ , ( ) < >
   * is a Character; ".." is a String and a lone '.' a Character, but a '.' in the last
   * place reads past the end; a digit starts an Integer made of the whole run of digits; a
   * letter starts a String of letters, digits and dots; any other character is a String of
   * that one character.
   */
  function Lex(s: string, i: nat): (r: Lexed)
    requires i <= |s|
    ensures r.Next? ==> i < r.next <= |s|
  {
    if i == |s| then NoMoreTokens
    else if IsBlank(s[i]) then Spins
    else if IsPunctuation(s[i]) then Next(CharToken(s[i]), i + 1)
    else if s[i] == '.' then
      if i + 1 == |s| then ReadsPastEnd
      else if s[i + 1] == '.' then Next(TextToken(".."), i + 2)
      else Next(CharToken('.'), i + 1)
    else if IsDigit(s[i]) then
      var e := DigitsEnd(s, i);
      match ParseInt(s[i..e])
      case Some(v) => Next(IntToken(v), e)
      case None => BadNumber(s[i..e])
    else if IsLetter(s[i]) then Next(TextToken(s[i..TextEnd(s, i)]), TextEnd(s, i))
    else Next(TextToken([s[i]]), i + 1)
  }

  /**
   * The lexer as it was evidently meant to work: a blank is skipped, and a '.' in the last
   * place is a lone '.'.
   */
  function LexCorrected(s: string, i: nat): (r: Lexed)
    requires i <= |s|
    ensures r.Next? ==> i < r.next <= |s|
    decreases |s| - i
  {
    if i < |s| && IsBlank(s[i]) then LexCorrected(s, i + 1)
    else if i + 1 == |s| && s[i] == '.' then Next(CharToken('.'), i + 1)
    else Lex(s, i)
  }

  // ---------------------------------------------------------------------------------------
  // The state of parseLocation's loop, and the failures it can end in.

  /** The parser's fields other than the text and the index. */
  datatype Machine = Machine(
    startCoords: seq<int>,
    endCoords: seq<int>,
    instructStack: seq<string>,
    subLocations: seq<Block>,
    isPointLoc: bool,
    fuzzyCoord: bool,
    unboundMin: bool,
    unboundMax: bool,
    isComplement: bool)

  /** The fields of a newly constructed parser. */
  const Fresh := Machine([], [], [], [], true, false, false, false, false)

  /** The BioExceptions parseLocation throws, by cause. */
  datatype Refusal =
    | UnbalancedParentheses
    | BetweenResidues
    | UnknownCharacter(c: char)
    | UnboundedPoint
    | ConfusedPoint
    | FuzzyPoint
    | ConfusedCoordinates
    | RemoteLocation

  /** The message of a BioException for a cause and the location text. */
  function Message(reason: Refusal, location: string): string
  {
    match reason
    case UnbalancedParentheses => "Unbalanced parentheses in location: " + location
    case BetweenResidues => "Locations between residues are not supported: " + location
    case UnknownCharacter(c) => "Unknown character '" + [c] + "' within location: " + location
    case UnboundedPoint => "Unbounded point locations currently not supported: " + location
    case ConfusedPoint => "Internal error in location parsing; parser became confused: " + location
    case FuzzyPoint => "Fuzzy point locations currently not supported: " + location
    case ConfusedCoordinates => "Internal error in location parsing; parser became confused; " + location
    case RemoteLocation => "Remote locations are not supported: " + location
  }

  datatype Failure =
    | BioException(reason: Refusal, location: string)
    | NumberFormatException(digits: string)
    | StringIndexOutOfBounds  // charAt past the end of the text
    | ListIndexOutOfBounds    // remove(-1) on the empty instruction stack
    | NeverReturns            // the lexer spins on a blank

  /** The fields after an operation, and what it threw, if anything. */
  datatype Step = Step(m: Machine, thrown: Option<Failure>)

  /** The coordinates and the flags of one sub-location are reset; the rest is kept. */
  function Cleared(m: Machine): (r: Machine)
    ensures r.startCoords == [] && r.endCoords == [] && r.isPointLoc
    ensures !r.fuzzyCoord && !r.unboundMin && !r.unboundMax
    ensures r.instructStack == m.instructStack && r.subLocations == m.subLocations
    ensures r.isComplement == m.isComplement
  {
    m.(startCoords := [], endCoords := [], unboundMin := false, unboundMax := false,
       isPointLoc := true, fuzzyCoord := false)
  }

  /** `after` is `before` with one more block at the end. */
  predicate Appended(before: seq<Block>, after: seq<Block>)
  {
    |after| == |before| + 1 && after[..|before|] == before
  }

  /**
   * The block processCoords makes from the coordinates of one sub-location: a single start
   * coordinate is a point unless it is unbounded or follows a ".."; two start coordinates
   * alone are a fuzzy point, which is refused; one start and one end coordinate are a range,
   * fuzzy when '<' or '>' was seen; two of either are a fuzzy range with outer and inner
   * bounds; anything else is an internal error. The block spans the inner coordinates: from
   * the last start coordinate to the first end coordinate.
   */
  function CoordBlock(m: Machine, s: string): (r: Result<Block, Failure>)
    requires m.startCoords != [] || m.endCoords != []
  {
    var starts, ends := |m.startCoords|, |m.endCoords|;
    if starts == 1 && ends == 0 then
      if m.unboundMin || m.unboundMax then
        Err(BioException(UnboundedPoint, s))
      else if m.isPointLoc then Ok(PointLoc(m.startCoords[0]))
      else Err(BioException(ConfusedPoint, s))
    else if starts == 2 && ends == 0 then
      Err(BioException(FuzzyPoint, s))
    else if 1 <= starts <= 2 && 1 <= ends <= 2 then
      var outerMin, innerMin := m.startCoords[0], m.startCoords[starts - 1];
      var innerMax, outerMax := m.endCoords[0], m.endCoords[ends - 1];
      if starts == 1 && ends == 1 && !m.unboundMin && !m.unboundMax then Ok(RangeLoc(outerMin, outerMax))
      else
        Ok(FuzzyLoc(if m.unboundMin && starts == 1 && ends == 1 then INT_MIN else outerMin,
                    if m.unboundMax && starts == 1 && ends == 1 then INT_MAX else outerMax,
                    innerMin, innerMax))
    else
      Err(BioException(ConfusedCoordinates, s))
  }

  /** The shapes of coordinates processCoords accepts. */
  lemma CoordShapes(m: Machine, s: string)
    requires m.startCoords != [] || m.endCoords != []
    ensures CoordBlock(m, s).Ok? <==>
      (|m.startCoords| == 1 && m.endCoords == [] && m.isPointLoc && !m.unboundMin && !m.unboundMax) ||
      (1 <= |m.startCoords| <= 2 && 1 <= |m.endCoords| <= 2)
  {
  }

  /**
   * The block spans the inner coordinates. It is unbounded at an end exactly where '<' or
   * '>' was seen in a plain range: in a fuzzy range the outer coordinate wins.
   */
  lemma CoordBlockBounds(m: Machine, s: string)
    requires m.startCoords != [] || m.endCoords != []
    requires CoordBlock(m, s).Ok?
    requires forall k :: 0 <= k < |m.startCoords| ==> 0 <= m.startCoords[k] < INT_MAX
    requires forall k :: 0 <= k < |m.endCoords| ==> 0 <= m.endCoords[k] < INT_MAX
    ensures CoordBlock(m, s).value.Min() == m.startCoords[|m.startCoords| - 1]
    ensures CoordBlock(m, s).value.Max() == if m.endCoords == [] then m.startCoords[0] else m.endCoords[0]
    ensures CoordBlock(m, s).value.HasBoundedMin() <==> !(m.unboundMin && |m.startCoords| == 1 && |m.endCoords| == 1)
    ensures CoordBlock(m, s).value.HasBoundedMax() <==> !(m.unboundMax && |m.startCoords| == 1 && |m.endCoords| == 1)
  {
  }

  /**
   * processCoords on the text s: nothing to do without coordinates; otherwise the block is
   * appended and the coordinates and flags reset, or the refusal is thrown with the fields
   * as they were.
   */
  function Coords(m: Machine, s: string): (r: Step)
    ensures r.thrown.Some? ==> r.m == m
    ensures m.startCoords == [] && m.endCoords == [] ==> r == Step(m, None)
    ensures r.thrown.None? && (m.startCoords != [] || m.endCoords != []) ==>
      r.m == Cleared(m).(subLocations := r.m.subLocations) && Appended(m.subLocations, r.m.subLocations)
  {
    if m.startCoords == [] && m.endCoords == [] then Step(m, None)
    else
      match CoordBlock(m, s)
      case Err(f) => Step(m, Some(f))
      case Ok(b) => Step(Cleared(m).(subLocations := m.subLocations + [b]), None)
  }

  /**
   * processInstructs on the text s: the last instruction is popped; join and order change
   * nothing, complement sets the complement flag, anything else is a remote accession and
   * is refused. The stack is popped before the refusal is thrown.
   */
  function Instructs(m: Machine, s: string): (r: Step)
    ensures m.instructStack == [] <==> r.thrown == Some(ListIndexOutOfBounds)
    ensures m.instructStack != [] ==> r.m.instructStack == m.instructStack[..|m.instructStack| - 1]
    ensures r.m.subLocations == m.subLocations && r.m.startCoords == m.startCoords
    ensures r.m.isComplement <==> m.isComplement || (r.thrown.None? && m.instructStack[|m.instructStack| - 1] == "complement")
  {
    if m.instructStack == [] then Step(m, Some(ListIndexOutOfBounds))
    else
      var instruct := m.instructStack[|m.instructStack| - 1];
      var popped := m.(instructStack := m.instructStack[..|m.instructStack| - 1]);
      if instruct == "join" || instruct == "order" then Step(popped, None)
      else if instruct == "complement" then Step(popped.(isComplement := true), None)
      else Step(popped, Some(BioException(RemoteLocation, s)))
  }

  /**
   * One pass of parseLocation's loop on token t: ".." ends the start coordinates; any other
   * String is pushed as an instruction; an Integer is a start coordinate, or an end
   * coordinate after ".."; '(' and ':' are ignored; '^' is refused; '<' and '>' mark the
   * minimum and the maximum unbounded; '.' opens a fuzzy coordinate; ',' closes a
   * sub-location; ')' closes a fuzzy coordinate if one is open, and otherwise closes a
   * sub-location and pops an instruction.
   */
  function Consume(m: Machine, t: Token, s: string): Step
  {
    match t
    case TextToken(x) =>
      if x == ".." then Step(m.(isPointLoc := false), None)
      else Step(m.(instructStack := m.instructStack + [x]), None)
    case IntToken(v) =>
      if m.isPointLoc then Step(m.(startCoords := m.startCoords + [v]), None)
      else Step(m.(endCoords := m.endCoords + [v]), None)
    case CharToken(c) =>
      if c == '(' || c == ':' then Step(m, None)
      else if c == '^' then Step(m, Some(BioException(BetweenResidues, s)))
      else if c == '<' then Step(m.(unboundMin := true), None)
      else if c == '>' then Step(m.(unboundMax := true), None)
      else if c == '.' then Step(m.(fuzzyCoord := true), None)
      else if c == ',' then Coords(m, s)
      else if c == ')' then
        if m.fuzzyCoord then Step(m.(fuzzyCoord := false), None)
        else
          var closed := Coords(m, s);
          if closed.thrown.Some? then closed else Instructs(closed.m, s)
      else Step(m, Some(BioException(UnknownCharacter(c), s)))
  }

  /** The lexer the parser uses: as written, or corrected. */
  function LexWith(corrected: bool, s: string, i: nat): (r: Lexed)
    requires i <= |s|
    ensures r.Next? ==> i < r.next <= |s|
  {
    if corrected then LexCorrected(s, i) else Lex(s, i)
  }

  /**
   * parseLocation's loop from index i: a token at a time until null, then a last
   * processCoords. A failure of the lexer or of a pass ends the loop.
   */
  function Run(s: string, i: nat, m: Machine, corrected: bool): Step
    requires i <= |s|
    decreases |s| - i + 1, 0
  {
    Drive(s, LexWith(corrected, s, i), m, corrected)
  }

  /** parseLocation's loop once the lexer has answered `lexed`. */
  function Drive(s: string, lexed: Lexed, m: Machine, corrected: bool): Step
    requires lexed.Next? ==> lexed.next <= |s|
    decreases if lexed.Next? then |s| - lexed.next + 1 else 0, 1
  {
    match lexed
    case NoMoreTokens => Coords(m, s)
    case Spins => Step(m, Some(NeverReturns))
    case ReadsPastEnd => Step(m, Some(StringIndexOutOfBounds))
    case BadNumber(d) => Step(m, Some(NumberFormatException(d)))
    case Next(t, j) =>
      var st := Consume(m, t, s);
      if st.thrown.Some? then st else Run(s, j, st.m, corrected)
  }

  /** countChar: the number of times c occurs in s. */
  function Count(s: string, c: char): (n: nat)
    ensures n <= |s|
  {
    if s == [] then 0
    else Count(s[..|s| - 1], c) + (if s[|s| - 1] == c then 1 else 0)
  }

  /** A text without the character c counts none of it. */
  lemma {:induction false} CountAbsent(s: string, c: char)
    requires forall k :: 0 <= k < |s| ==> s[k] != c
    ensures Count(s, c) == 0
  {
    if s != [] {
      CountAbsent(s[..|s| - 1], c);
    }
  }

  /** The parenthesis check at the head of parseLocation: as written it counts '(' twice. */
  predicate Unbalanced(s: string, corrected: bool)
  {
    if corrected then Count(s, '(') != Count(s, ')') else Count(s, '(') != Count(s, '(')
  }

  /** What parseLocation returns (or throws), and the parser's fields afterwards. */
  datatype Parsed = Parsed(result: Result<(Location, bool), Failure>, after: Machine)

  /** The location parseLocation returns: the only block, or a compound of all of them. */
  function Assemble(subs: seq<Block>): (l: Location)
    ensures l.Blocks() == subs
  {
    if |subs| == 1 then Simple(subs[0]) else Compound(subs)
  }

  /**
   * parseLocation(s) on a parser whose fields are m: after the parenthesis check the four
   * lists are emptied (the flags are not), the loop runs, and the result is the blocks made,
   * paired with the complement flag.
   */
  function Parse(s: string, m: Machine, corrected: bool): (r: Parsed)
    ensures r.result.Ok? ==> r.result.value.0.Blocks() == r.after.subLocations
    ensures r.result.Ok? ==> r.result.value.1 == r.after.isComplement
  {
    if Unbalanced(s, corrected) then
      Parsed(Err(BioException(UnbalancedParentheses, s)), m)
    else
      Finish(Run(s, 0, m.(startCoords := [], endCoords := [], instructStack := [], subLocations := []), corrected))
  }

  /** The end of parseLocation: what the loop threw, or the blocks it made and the complement flag. */
  function Finish(st: Step): (r: Parsed)
    ensures r.after == st.m
  {
    match st.thrown
    case Some(f) => Parsed(Err(f), st.m)
    case None => Parsed(Ok((Assemble(st.m.subLocations), st.m.isComplement)), st.m)
  }

  // ---------------------------------------------------------------------------------------
  // Properties of the lexer and of the loop.

  /**
   * A token is the text it consumes: a Character is the one character read, a String is
   * the text read, and an Integer is the value of a whole run of digits. No token takes in
   * a blank.
   */
  lemma LexConsumes(s: string, i: nat)
    requires i <= |s| && Lex(s, i).Next?
    ensures forall k :: i <= k < Lex(s, i).next ==> !IsBlank(s[k])
    ensures Lex(s, i).token.CharToken? ==> Lex(s, i).next == i + 1 && s[i] == Lex(s, i).token.c
    ensures Lex(s, i).token.TextToken? ==> s[i..Lex(s, i).next] == Lex(s, i).token.text
    ensures Lex(s, i).token.IntToken? ==>
      var d := s[i..Lex(s, i).next];
      |d| > 0 && AllDigits(d) && Lex(s, i).token.value == DigitsValue(d) &&
      (Lex(s, i).next == |s| || !IsDigit(s[Lex(s, i).next]))
  {
  }

  /** The corrected lexer never spins and never reads past the end. */
  lemma {:induction false} LexCorrectedTotal(s: string, i: nat)
    requires i <= |s|
    ensures !LexCorrected(s, i).Spins? && !LexCorrected(s, i).ReadsPastEnd?
    decreases |s| - i
  {
    if i < |s| && IsBlank(s[i]) {
      LexCorrectedTotal(s, i + 1);
    }
  }

  /** Where the lexer as written returns, the corrected one returns the same. */
  lemma LexCorrectedAgrees(s: string, i: nat)
    requires i <= |s|
    requires !Lex(s, i).Spins? && !Lex(s, i).ReadsPastEnd?
    ensures LexCorrected(s, i) == Lex(s, i)
  {
  }

  /** The loop as written returns normally only on text without a blank. */
  lemma {:induction false} ReturnsOnlyWithoutBlanks(s: string, i: nat, m: Machine)
    requires i <= |s|
    requires Run(s, i, m, false).thrown.None?
    ensures forall k :: i <= k < |s| ==> !IsBlank(s[k])
    decreases |s| - i
  {
    var lexed := Lex(s, i);
    if lexed.Next? {
      LexConsumes(s, i);
      var st := Consume(m, lexed.token, s);
      ReturnsOnlyWithoutBlanks(s, lexed.next, st.m);
    }
  }

  /** With the corrected lexer the loop always returns, and never reads past the end. */
  lemma {:induction false} CorrectedRunReturns(s: string, i: nat, m: Machine)
    requires i <= |s|
    ensures Run(s, i, m, true).thrown != Some(NeverReturns)
    ensures Run(s, i, m, true).thrown != Some(StringIndexOutOfBounds)
    decreases |s| - i
  {
    LexCorrectedTotal(s, i);
    var lexed := LexCorrected(s, i);
    if lexed.Next? {
      ConsumeFailures(m, lexed.token, s);
      var st := Consume(m, lexed.token, s);
      if st.thrown.None? {
        CorrectedRunReturns(s, lexed.next, st.m);
      }
    }
  }

  /** The loop never throws the parenthesis refusal: only the check before it does. */
  lemma {:induction false} RunNeverUnbalanced(s: string, i: nat, m: Machine, corrected: bool)
    requires i <= |s|
    ensures Run(s, i, m, corrected).thrown != Some(BioException(UnbalancedParentheses, s))
    decreases |s| - i
  {
    var lexed := LexWith(corrected, s, i);
    if lexed.Next? {
      ConsumeFailures(m, lexed.token, s);
      var st := Consume(m, lexed.token, s);
      if st.thrown.None? {
        RunNeverUnbalanced(s, lexed.next, st.m, corrected);
      }
    }
  }

  /**
   * The parenthesis check as written never refuses anything; corrected, it refuses exactly
   * the texts with different numbers of '(' and ')'.
   */
  lemma ParenthesisCheck(s: string, m: Machine)
    ensures Parse(s, m, false).result != Err(BioException(UnbalancedParentheses, s))
    ensures Parse(s, m, true).result == Err(BioException(UnbalancedParentheses, s)) <==>
      Count(s, '(') != Count(s, ')')
  {
    var cleared := m.(startCoords := [], endCoords := [], instructStack := [], subLocations := []);
    RunNeverUnbalanced(s, 0, cleared, false);
    RunNeverUnbalanced(s, 0, cleared, true);
  }

  /** One pass throws only a BioException other than the parenthesis refusal, or pops an empty stack. */
  lemma ConsumeFailures(m: Machine, t: Token, s: string)
    ensures Consume(m, t, s).thrown.Some? ==>
      var f := Consume(m, t, s).thrown.value;
      (f.BioException? && f.reason != UnbalancedParentheses) || f == ListIndexOutOfBounds
  {
  }

  /** One pass keeps the blocks already made and never clears the complement flag. */
  lemma ConsumeKeeps(m: Machine, t: Token, s: string)
    ensures var after := Consume(m, t, s).m.subLocations;
      after == m.subLocations || Appended(m.subLocations, after)
    ensures m.isComplement ==> Consume(m, t, s).m.isComplement
  {
  }

  /**
   * The loop only appends blocks, so they come out in the order of the text, and once the
   * complement flag is set it stays set.
   */
  lemma {:induction false} RunKeeps(s: string, i: nat, m: Machine, corrected: bool)
    requires i <= |s|
    ensures m.subLocations <= Run(s, i, m, corrected).m.subLocations
    ensures m.isComplement ==> Run(s, i, m, corrected).m.isComplement
    decreases |s| - i
  {
    var lexed := LexWith(corrected, s, i);
    if lexed.Next? {
      ConsumeKeeps(m, lexed.token, s);
      var st := Consume(m, lexed.token, s);
      if st.thrown.None? {
        RunKeeps(s, lexed.next, st.m, corrected);
      }
    }
  }

  /**
   * The complement flag is never reset: a parser that has once read a complement reports
   * every later location as complemented.
   */
  lemma ComplementCarriesOver(s: string, m: Machine, corrected: bool)
    requires m.isComplement
    ensures Parse(s, m, corrected).after.isComplement
    ensures Parse(s, m, corrected).result.Ok? ==> Parse(s, m, corrected).result.value.1
  {
    if !Unbalanced(s, corrected) {
      RunKeeps(s, 0, m.(startCoords := [], endCoords := [], instructStack := [], subLocations := []), corrected);
    }
  }

  // ---------------------------------------------------------------------------------------
  // The loop, one kind of token at a time. Each lemma takes the loop from index i to the
  // index after the token, or to where it stops.

  /** s has the character c at index i. */
  predicate At(s: string, i: int, c: char)
  {
    0 <= i < |s| && s[i] == c
  }

  /** s has a digit at index i that is not followed by another. */
  predicate DigitAlone(s: string, i: int)
  {
    0 <= i < |s| && IsDigit(s[i]) && (i + 1 == |s| || !IsDigit(s[i + 1]))
  }

  /** s has a word (a letter, then letters, digits and dots) from i up to j. */
  predicate WordAt(s: string, i: int, j: int)
  {
    0 <= i < j <= |s| && IsLetter(s[i]) && (forall k :: i < k < j ==> IsTextChar(s[k]))
    && (j == |s| || !IsTextChar(s[j]))
  }

  /** A single digit (not followed by another) is the Integer of its value. */
  lemma LexDigit(s: string, i: int)
    requires DigitAlone(s, i)
    ensures Lex(s, i) == Next(IntToken(DigitValue(s[i])), i + 1)
  {
    assert DigitsEnd(s, i + 1) == i + 1;
    assert s[i..i + 1] == [s[i]];
  }

  /** '(' and ':' change nothing. */
  lemma StepIgnored(s: string, i: int, m: Machine, corrected: bool)
    requires At(s, i, '(') || At(s, i, ':')
    ensures Run(s, i, m, corrected) == Run(s, i + 1, m, corrected)
  {
  }

  /** '<' marks the minimum unbounded. */
  lemma StepBelow(s: string, i: int, m: Machine, corrected: bool)
    requires At(s, i, '<')
    ensures Run(s, i, m, corrected) == Run(s, i + 1, m.(unboundMin := true), corrected)
  {
  }

  /** '>' marks the maximum unbounded. */
  lemma StepAbove(s: string, i: int, m: Machine, corrected: bool)
    requires At(s, i, '>')
    ensures Run(s, i, m, corrected) == Run(s, i + 1, m.(unboundMax := true), corrected)
  {
  }

  /** A lone '.' opens a fuzzy coordinate. */
  lemma StepFuzzyOpen(s: string, i: int, m: Machine, corrected: bool)
    requires At(s, i, '.') && i + 1 < |s| && s[i + 1] != '.'
    ensures Run(s, i, m, corrected) == Run(s, i + 1, m.(fuzzyCoord := true), corrected)
  {
  }

  /** ')' closes an open fuzzy coordinate and does nothing else. */
  lemma StepFuzzyClose(s: string, i: int, m: Machine, corrected: bool)
    requires At(s, i, ')') && m.fuzzyCoord
    ensures Run(s, i, m, corrected) == Run(s, i + 1, m.(fuzzyCoord := false), corrected)
  {
  }

  /** ".." ends the start coordinates. */
  lemma StepRange(s: string, i: int, m: Machine, corrected: bool)
    requires At(s, i, '.') && At(s, i + 1, '.')
    ensures Run(s, i, m, corrected) == Run(s, i + 2, m.(isPointLoc := false), corrected)
  {
  }

  /** A coordinate (here a single digit) is a start coordinate before "..", an end coordinate after. */
  lemma StepDigit(s: string, i: int, m: Machine, corrected: bool)
    requires DigitAlone(s, i)
    ensures Run(s, i, m, corrected) ==
      Run(s, i + 1, if m.isPointLoc then m.(startCoords := m.startCoords + [DigitValue(s[i])])
                    else m.(endCoords := m.endCoords + [DigitValue(s[i])]), corrected)
  {
    LexDigit(s, i);
  }

  /** A fuzzy coordinate "(a.b)" of single digits adds a and then b, and leaves no fuzzy coordinate open. */
  lemma StepFuzzyPair(s: string, i: int, m: Machine, corrected: bool)
    requires At(s, i, '(') && DigitAlone(s, i + 1) && At(s, i + 2, '.') && DigitAlone(s, i + 3) && At(s, i + 4, ')')
    ensures var pair := [DigitValue(s[i + 1]), DigitValue(s[i + 3])];
      Run(s, i, m, corrected) ==
        Run(s, i + 5, if m.isPointLoc then m.(startCoords := m.startCoords + pair, fuzzyCoord := false)
                      else m.(endCoords := m.endCoords + pair, fuzzyCoord := false), corrected)
  {
    var a, b := DigitValue(s[i + 1]), DigitValue(s[i + 3]);
    StepIgnored(s, i, m, corrected);
    StepDigit(s, i + 1, m, corrected);
    var m1 := if m.isPointLoc then m.(startCoords := m.startCoords + [a]) else m.(endCoords := m.endCoords + [a]);
    StepFuzzyOpen(s, i + 2, m1, corrected);
    StepDigit(s, i + 3, m1.(fuzzyCoord := true), corrected);
    var m2 := if m.isPointLoc then m1.(startCoords := m1.startCoords + [b], fuzzyCoord := true)
              else m1.(endCoords := m1.endCoords + [b], fuzzyCoord := true);
    StepFuzzyClose(s, i + 4, m2, corrected);
    assert m.startCoords + [a] + [b] == m.startCoords + [a, b];
    assert m.endCoords + [a] + [b] == m.endCoords + [a, b];
  }

  /** A word is pushed as an instruction. */
  lemma StepWord(s: string, i: int, j: int, m: Machine, corrected: bool)
    requires WordAt(s, i, j)
    ensures Run(s, i, m, corrected) == Run(s, j, m.(instructStack := m.instructStack + [s[i..j]]), corrected)
  {
    TextEndAt(s, i, j);
  }

  /** The run of text characters from i ends at j when every character before j is one and s[j] is not. */
  lemma {:induction false} TextEndAt(s: string, i: nat, j: nat)
    requires i <= j <= |s| && (forall k :: i <= k < j ==> IsTextChar(s[k]))
    requires j == |s| || !IsTextChar(s[j])
    ensures TextEnd(s, i) == j
    decreases j - i
  {
    if i < j {
      TextEndAt(s, i + 1, j);
    }
  }

  /** ',' closes a sub-location. */
  lemma StepComma(s: string, i: int, m: Machine, corrected: bool)
    requires At(s, i, ',')
    ensures Run(s, i, m, corrected) ==
      if Coords(m, s).thrown.Some? then Coords(m, s) else Run(s, i + 1, Coords(m, s).m, corrected)
  {
  }

  /** ')' outside a fuzzy coordinate closes a sub-location and pops an instruction. */
  lemma StepClose(s: string, i: int, m: Machine, corrected: bool)
    requires At(s, i, ')') && !m.fuzzyCoord
    ensures var closed := Coords(m, s);
      Run(s, i, m, corrected) ==
        if closed.thrown.Some? then closed
        else if Instructs(closed.m, s).thrown.Some? then Instructs(closed.m, s)
        else Run(s, i + 1, Instructs(closed.m, s).m, corrected)
  {
  }

  /** '^' is refused. */
  lemma StepCaret(s: string, i: int, m: Machine, corrected: bool)
    requires At(s, i, '^')
    ensures Run(s, i, m, corrected) == Step(m, Some(BioException(BetweenResidues, s)))
  {
  }

  /** A blank: the loop as written never returns; the corrected lexer skips it. */
  lemma StepBlank(s: string, i: int, m: Machine)
    requires At(s, i, ' ') || At(s, i, '\t')
    ensures Run(s, i, m, false) == Step(m, Some(NeverReturns))
    ensures Run(s, i, m, true) == Run(s, i + 1, m, true)
  {
  }

  /** A '.' in the last place: the lexer as written reads past the end of the text. */
  lemma StepTrailingDot(s: string, m: Machine)
    requires At(s, |s| - 1, '.')
    ensures Run(s, |s| - 1, m, false) == Step(m, Some(StringIndexOutOfBounds))
  {
  }

  /** The corrected lexer reads a '.' in the last place as a lone '.'. */
  lemma StepTrailingDotCorrected(s: string, m: Machine)
    requires At(s, |s| - 1, '.')
    ensures Run(s, |s| - 1, m, true) == Run(s, |s|, m.(fuzzyCoord := true), true)
  {
  }

  /** At the end of the text the loop stops and the last sub-location is closed. */
  lemma StepEnd(s: string, m: Machine, corrected: bool)
    ensures Run(s, |s|, m, corrected) == Coords(m, s)
  {
  }

  // ---------------------------------------------------------------------------------------
  // The parser object.

  class EmblLikeLocationParser {
    var location: string
    var nextCharIndex: int
    var startCoords: seq<int>
    var endCoords: seq<int>
    var instructStack: seq<string>
    var subLocations: seq<Block>
    var isPointLoc: bool
    var fuzzyCoord: bool
    var unboundMin: bool
    var unboundMax: bool
    var isComplement: bool

    /** The fields other than the text and the index. */
    function State(): Machine
      reads this
    {
      Machine(startCoords, endCoords, instructStack, subLocations,
              isPointLoc, fuzzyCoord, unboundMin, unboundMax, isComplement)
    }

    constructor()
      ensures State() == Fresh
    {
      location := "";
      nextCharIndex := 0;
      startCoords, endCoords, instructStack, subLocations := [], [], [], [];
      isPointLoc, fuzzyCoord, unboundMin, unboundMax := true, false, false, false;
      isComplement := false;
    }

    /**
     * getNextToken. On a blank the source's loop continues without moving the index, so it
     * comes back to the same blank for ever; here that is the outcome Spins.
     */
    method GetNextToken() returns (r: Lexed)
      requires 0 <= nextCharIndex <= |location|
      modifies this`nextCharIndex
      ensures r == Lex(location, old(nextCharIndex))
      ensures r.Next? ==> nextCharIndex == r.next
    {
      if nextCharIndex == |location| {
        return NoMoreTokens;
      }
      var thisChar := location[nextCharIndex];
      if IsBlank(thisChar) {
        return Spins;
      } else if IsPunctuation(thisChar) {
        nextCharIndex := nextCharIndex + 1;
        return Next(CharToken(thisChar), nextCharIndex);
      } else if thisChar == '.' {
        if nextCharIndex + 1 == |location| {
          return ReadsPastEnd;
        } else if location[nextCharIndex + 1] == '.' {
          nextCharIndex := nextCharIndex + 2;
          return Next(TextToken(".."), nextCharIndex);
        } else {
          nextCharIndex := nextCharIndex + 1;
          return Next(CharToken('.'), nextCharIndex);
        }
      } else if IsDigit(thisChar) {
        var n := FollowInteger();
        match n
        case Ok(v) => return Next(IntToken(v), nextCharIndex);
        case Err(f) => return BadNumber(f.digits);
      } else {
        var text := FollowText();
        if text == "" {
          nextCharIndex := nextCharIndex + 1;
          return Next(TextToken([thisChar]), nextCharIndex);
        } else {
          return Next(TextToken(text), nextCharIndex);
        }
      }
    }

    /** followInteger: the whole run of digits from the index, as an Integer. */
    method FollowInteger() returns (r: Result<int, Failure>)
      requires 0 <= nextCharIndex < |location| && IsDigit(location[nextCharIndex])
      modifies this`nextCharIndex
      ensures nextCharIndex == DigitsEnd(location, old(nextCharIndex))
      ensures r == match ParseInt(location[old(nextCharIndex)..nextCharIndex])
                   case Some(v) => Ok(v)
                   case None => Err(NumberFormatException(location[old(nextCharIndex)..nextCharIndex]))
    {
      ghost var start := nextCharIndex;
      var intString := "";
      var thisChar := location[nextCharIndex];
      while IsDigit(thisChar)
        invariant start <= nextCharIndex < |location| && thisChar == location[nextCharIndex]
        invariant intString == location[start..nextCharIndex] && AllDigits(intString)
        invariant DigitsEnd(location, nextCharIndex) == DigitsEnd(location, start)
        decreases |location| - nextCharIndex
      {
        intString := intString + [thisChar];
        nextCharIndex := nextCharIndex + 1;
        assert intString == location[start..nextCharIndex] && AllDigits(intString);
        assert DigitsEnd(location, nextCharIndex) == DigitsEnd(location, start);
        if nextCharIndex >= |location| {
          break;
        }
        thisChar := location[nextCharIndex];
      }
      assert DigitsEnd(location, nextCharIndex) == nextCharIndex;
      match ParseInt(intString)
      case Some(v) => r := Ok(v);
      case None => r := Err(NumberFormatException(intString));
    }

    /** followText: a letter, then the run of letters, digits and dots after it; "" if no letter. */
    method FollowText() returns (text: string)
      requires 0 <= nextCharIndex < |location|
      modifies this`nextCharIndex
      ensures text == if IsLetter(location[old(nextCharIndex)])
                      then location[old(nextCharIndex)..TextEnd(location, old(nextCharIndex))] else ""
      ensures nextCharIndex == old(nextCharIndex) + |text|
    {
      ghost var start := nextCharIndex;
      text := "";
      var thisChar := location[nextCharIndex];
      if !IsLetter(thisChar) {
        return "";
      }
      while IsTextChar(thisChar)
        invariant start <= nextCharIndex < |location| && thisChar == location[nextCharIndex]
        invariant text == location[start..nextCharIndex]
        invariant TextEnd(location, nextCharIndex) == TextEnd(location, start)
        decreases |location| - nextCharIndex
      {
        text := text + [thisChar];
        nextCharIndex := nextCharIndex + 1;
        assert text == location[start..nextCharIndex];
        assert TextEnd(location, nextCharIndex) == TextEnd(location, start);
        if nextCharIndex >= |location| {
          break;
        }
        thisChar := location[nextCharIndex];
      }
      assert TextEnd(location, nextCharIndex) == nextCharIndex;
    }

    /** processCoords. */
    method ProcessCoords() returns (thrown: Option<Failure>)
      modifies this`startCoords, this`endCoords, this`subLocations
      modifies this`unboundMin, this`unboundMax, this`isPointLoc, this`fuzzyCoord
      ensures Step(State(), thrown) == Coords(old(State()), location)
    {
      if startCoords == [] && endCoords == [] {
        return None;
      }
      ghost var m := State();
      var block: Block;
      if |startCoords| == 1 && endCoords == [] {
        if unboundMin || unboundMax {
          return Some(BioException(UnboundedPoint, location));
        } else if isPointLoc {
          block := PointLoc(startCoords[0]);
        } else {
          return Some(BioException(ConfusedPoint, location));
        }
      } else if |startCoords| == 2 && endCoords == [] {
        return Some(BioException(FuzzyPoint, location));
      } else if |startCoords| == 1 && |endCoords| == 1 {
        var outerMin, outerMax := startCoords[0], endCoords[0];
        if unboundMin || unboundMax {
          block := FuzzyLoc(if unboundMin then INT_MIN else outerMin, if unboundMax then INT_MAX else outerMax,
                            outerMin, outerMax);
        } else {
          block := RangeLoc(outerMin, outerMax);
        }
      } else if |startCoords| == 2 && |endCoords| == 1 {
        block := FuzzyLoc(startCoords[0], endCoords[0], startCoords[1], endCoords[0]);
      } else if |startCoords| == 1 && |endCoords| == 2 {
        block := FuzzyLoc(startCoords[0], endCoords[1], startCoords[0], endCoords[0]);
      } else if |startCoords| == 2 && |endCoords| == 2 {
        block := FuzzyLoc(startCoords[0], endCoords[1], startCoords[1], endCoords[0]);
      } else {
        return Some(BioException(ConfusedCoordinates, location));
      }
      assert CoordBlock(m, location) == Ok(block);
      subLocations := subLocations + [block];
      startCoords, endCoords := [], [];
      unboundMin, unboundMax := false, false;
      isPointLoc := true;
      fuzzyCoord := false;
      return None;
    }

    /** processInstructs. */
    method ProcessInstructs() returns (thrown: Option<Failure>)
      modifies this
      ensures Step(State(), thrown) == Instructs(old(State()), location)
      ensures location == old(location) && nextCharIndex == old(nextCharIndex)
    {
      if instructStack == [] {
        return Some(ListIndexOutOfBounds);
      }
      var instruct := instructStack[|instructStack| - 1];
      instructStack := instructStack[..|instructStack| - 1];
      if instruct == "join" || instruct == "order" {
      } else if instruct == "complement" {
        isComplement := true;
      } else {
        return Some(BioException(RemoteLocation, location));
      }
      return None;
    }

    /** The body of parseLocation's loop for one token. */
    method Accept(t: Token) returns (thrown: Option<Failure>)
      modifies this
      ensures Step(State(), thrown) == Consume(old(State()), t, location)
      ensures location == old(location) && nextCharIndex == old(nextCharIndex)
    {
      thrown := None;
      match t
      case TextToken(toke) =>
        if toke == ".." {
          isPointLoc := false;
        } else {
          instructStack := instructStack + [toke];
        }
      case IntToken(v) =>
        if isPointLoc {
          startCoords := startCoords + [v];
        } else {
          endCoords := endCoords + [v];
        }
      case CharToken(toke) =>
        if toke == '(' || toke == ':' {
        } else if toke == '^' {
          thrown := Some(BioException(BetweenResidues, location));
        } else if toke == '<' {
          unboundMin := true;
        } else if toke == '>' {
          unboundMax := true;
        } else if toke == '.' {
          fuzzyCoord := true;
        } else if toke == ',' {
          thrown := ProcessCoords();
        } else if toke == ')' {
          if fuzzyCoord {
            fuzzyCoord := false;
          } else {
            thrown := ProcessCoords();
            if thrown.None? {
              thrown := ProcessInstructs();
            }
          }
        } else {
          thrown := Some(BioException(UnknownCharacter(toke), location));
        }
    }

    /** countChar. */
    method CountChar(s: string, c: char) returns (cnt: nat)
      ensures cnt == Count(s, c)
    {
      cnt := 0;
      for i := 0 to |s|
        invariant cnt == Count(s[..i], c)
      {
        assert s[..i + 1][..i] == s[..i];
        if s[i] == c {
          cnt := cnt + 1;
        }
      }
      assert s[..|s|] == s;
    }

    /**
     * parseLocation. The parenthesis check compares the count of '(' with itself, so its
     * refusal is never reached. The flags are not reset on entry, so they carry over from
     * the previous call.
     */
    method ParseLocation(loc: string) returns (result: Result<(Location, bool), Failure>)
      modifies this
      ensures Parsed(result, State()) == Parse(loc, old(State()), false)
    {
      location := loc;
      var opens := CountChar(location, '(');
      var again := CountChar(location, '(');
      // the refusal when they differ is dead code
      assert opens == again;
      startCoords, endCoords, instructStack, subLocations := [], [], [], [];
      nextCharIndex := 0;
      ghost var m0 := State();
      ghost var goal := Run(loc, 0, m0, false);
      assert Parse(loc, old(State()), false) == Finish(goal);
      ghost var at := 0;
      var lexed := GetNextToken();
      while lexed.Next?
        invariant location == loc && 0 <= at <= |loc|
        invariant lexed == Lex(loc, at)
        invariant lexed.Next? ==> nextCharIndex == lexed.next
        invariant goal == Drive(loc, lexed, State(), false)
        decreases |loc| - at
      {
        var thrown := Accept(lexed.token);
        if thrown.Some? {
          return Err(thrown.value);
        }
        at := nextCharIndex;
        lexed := GetNextToken();
      }
      match lexed
      case Spins => return Err(NeverReturns);
      case ReadsPastEnd => return Err(StringIndexOutOfBounds);
      case BadNumber(d) => return Err(NumberFormatException(d));
      case NoMoreTokens =>
        var thrown := ProcessCoords();
        if thrown.Some? {
          return Err(thrown.value);
        }
        return Ok((Assemble(subLocations), isComplement));
    }
  }
}
