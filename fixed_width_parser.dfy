/**
 * A residue parser that cuts a string into tokens of one fixed width and looks each
 * token up in a token-to-residue table (FixedWidthParser). The alphabet is the set
 * of residues it may hold; the residues themselves are any values with equality.
 */
module FixedWidth {
  import opened Wrappers

  datatype ParseError =
    | IllegalResidue(token: string)   // no residue is mapped to this token
    | OutOfBounds                     // substring past the end of the input
    | Diverges                        // a zero token width over a non-empty input never advances

  datatype MapError =
    | ResidueNotInAlphabet
    | WrongTokenLength

  /**
   * The tokens of `s` from position `i` on, as the parse loop visits them: the token
   * at `i` is `s[i..i+width]`, and the loop stops once `i` reaches the end.
   */
  function ParseFrom<R>(table: map<string, R>, width: int, s: string, i: nat): (r: Result<seq<R>, ParseError>)
    requires width > 0 && i <= |s|
    ensures r.Ok? ==> |r.value| * width == |s| - i
    ensures r.Err? ==> r.error != Diverges
    ensures r.Err? && r.error.IllegalResidue? ==> r.error.token !in table && |r.error.token| == width
    decreases |s| - i
  {
    if i == |s| then Ok([])
    else if i + width > |s| then Err(OutOfBounds)
    else if s[i..i + width] !in table then Err(IllegalResidue(s[i..i + width]))
    else
      var rest := ParseFrom(table, width, s, i + width);
      if rest.Err? then rest
      else
        assert (1 + |rest.value|) * width == width + |rest.value| * width;
        Ok([table[s[i..i + width]]] + rest.value)
  }

  /** What FixedWidthParser.parse gives for a table, a token width and an input. */
  function Parse<R>(table: map<string, R>, width: int, s: string): (r: Result<seq<R>, ParseError>)
    ensures s == [] ==> r == Ok([])
    ensures width < 0 && s != [] ==> r == Err(OutOfBounds)
    ensures width == 0 && s != [] ==> r.Err?
    ensures width > 0 && r.Ok? ==> |r.value| * width == |s|
    ensures width > 0 && r.Err? && r.error.IllegalResidue? ==> r.error.token !in table && |r.error.token| == width
  {
    if s == [] then Ok([])
    else if width < 0 then Err(OutOfBounds)
    else if width == 0 then (if "" in table then Err(Diverges) else Err(IllegalResidue("")))
    else ParseFrom(table, width, s, 0)
  }

  /** The k-th residue is the one mapped to the k-th width-sized slice of the input. */
  lemma {:induction false} ParseFromTokens<R>(table: map<string, R>, width: int, s: string, i: nat, k: nat)
    requires width > 0 && i <= |s|
    requires ParseFrom(table, width, s, i).Ok? && k < |ParseFrom(table, width, s, i).value|
    ensures i + k * width + width <= |s|
    ensures s[i + k * width..i + k * width + width] in table
    ensures ParseFrom(table, width, s, i).value[k] == table[s[i + k * width..i + k * width + width]]
    decreases |s| - i
  {
    if k > 0 {
      ParseFromTokens(table, width, s, i + width, k - 1);
      assert i + width + (k - 1) * width == i + k * width;
    }
  }

  /** From a position a whole number of tokens before the end, the parse never runs out of input. */
  lemma {:induction false} ParseFromWholeTokens<R>(table: map<string, R>, width: int, s: string, i: nat, n: nat)
    requires width > 0 && i <= |s| && n * width == |s| - i
    ensures ParseFrom(table, width, s, i) != Err(OutOfBounds)
    decreases n
  {
    if n > 0 {
      assert n * width == (n - 1) * width + width;
      ParseFromWholeTokens(table, width, s, i + width, n - 1);
    }
  }

  class FixedWidthParser<R(==)> {
    const alphabet: set<R>
    const tokenLength: int
    var tokenToResidue: map<string, R>

    constructor (alpha: set<R>, tokenLength: int)
      ensures alphabet == alpha && this.tokenLength == tokenLength && tokenToResidue == map[]
    {
      alphabet := alpha;
      this.tokenLength := tokenLength;
      tokenToResidue := map[];
    }

    /** Every mapped token has the parser's width and every mapped residue is in the alphabet. */
    ghost predicate Valid()
      reads this
    {
      (forall t :: t in tokenToResidue ==> |t| == tokenLength) &&
      (forall t :: t in tokenToResidue ==> tokenToResidue[t] in alphabet)
    }

    /** parseToken: the mapped residue, or IllegalResidueException. */
    function ParseToken(token: string): (r: Result<R, ParseError>)
      reads this
      ensures r.Ok? <==> token in tokenToResidue
      ensures r.Ok? ==> r.value == tokenToResidue[token]
      ensures Valid() && r.Ok? ==> r.value in alphabet && |token| == tokenLength
    {
      if token in tokenToResidue then Ok(tokenToResidue[token]) else Err(IllegalResidue(token))
    }

    /** addTokenMap: validate the residue, then the token width; a later mapping replaces an earlier one. */
    method AddTokenMap(token: string, residue: R) returns (r: Result<(), MapError>)
      requires Valid()
      modifies this
      ensures Valid()
      ensures residue !in alphabet ==> r == Err(ResidueNotInAlphabet)
      ensures residue in alphabet && |token| != tokenLength ==> r == Err(WrongTokenLength)
      ensures r.Ok? <==> residue in alphabet && |token| == tokenLength
      ensures r.Ok? ==> tokenToResidue == old(tokenToResidue)[token := residue]
      ensures r.Err? ==> tokenToResidue == old(tokenToResidue)
    {
      if residue !in alphabet {
        return Err(ResidueNotInAlphabet);
      }
      if |token| != tokenLength {
        return Err(WrongTokenLength);
      }
      tokenToResidue := tokenToResidue[token := residue];
      return Ok(());
    }

    /**
     * parse: walks the input in steps of the token width, looking up each slice. A
     * zero width over a non-empty input never advances; that outcome is reported as
     * Diverges (or the lookup failure of the empty token) instead of looping.
     */
    method ParseString(s: string) returns (r: Result<seq<R>, ParseError>)
      ensures r == Parse(tokenToResidue, tokenLength, s)
    {
      if s == [] {
        return Ok([]);
      }
      if tokenLength < 0 {
        return Err(OutOfBounds);
      }
      if tokenLength == 0 {
        var t := ParseToken("");
        if t.Err? {
          return Err(IllegalResidue(""));
        }
        return Err(Diverges);
      }
      var res: seq<R> := [];
      var i := 0;
      assert ParseFrom(tokenToResidue, tokenLength, s, 0).Ok? ==>
        [] + ParseFrom(tokenToResidue, tokenLength, s, 0).value == ParseFrom(tokenToResidue, tokenLength, s, 0).value;
      while i < |s|
        invariant 0 <= i <= |s|
        invariant ParseFrom(tokenToResidue, tokenLength, s, 0) ==
          (var rest := ParseFrom(tokenToResidue, tokenLength, s, i);
           if rest.Err? then rest else Ok(res + rest.value))
        decreases |s| - i
      {
        if i + tokenLength > |s| {
          return Err(OutOfBounds);
        }
        var t := ParseToken(s[i..i + tokenLength]);
        if t.Err? {
          return Err(t.error);
        }
        ghost var rest := ParseFrom(tokenToResidue, tokenLength, s, i + tokenLength);
        assert rest.Ok? ==> res + [t.value] + rest.value == res + ([t.value] + rest.value);
        res := res + [t.value];
        i := i + tokenLength;
      }
      assert res + [] == res;
      return Ok(res);
    }
  }

  /** A full parse maps each token of the input, in order, to its residue. */
  lemma ParseTokens<R>(table: map<string, R>, width: int, s: string, k: nat)
    requires width > 0 && Parse(table, width, s).Ok? && k < |Parse(table, width, s).value|
    ensures k * width + width <= |s| && s[k * width..k * width + width] in table
    ensures Parse(table, width, s).value[k] == table[s[k * width..k * width + width]]
  {
    if s != [] {
      ParseFromTokens(table, width, s, 0, k);
    }
  }

  /** An input of n whole tokens never fails for lack of characters. */
  lemma ParseWholeTokens<R>(table: map<string, R>, width: int, s: string, n: nat)
    requires width > 0 && n * width == |s|
    ensures Parse(table, width, s) != Err(OutOfBounds)
  {
    if s != [] {
      ParseFromWholeTokens(table, width, s, 0, n);
    }
  }
}
