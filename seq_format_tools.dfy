/**
 * SeqFormatTools: the EMBL and GenBank flat-file layout helpers. Qualifier text is wrapped
 * into lines that each start with a leader, symbol tokens are grouped into blocks, and a
 * location is written in the feature-table location syntax, wrapped at location
 * boundaries.
 *
 * The output of the wrapping formatters is described as a list of pieces: text, a single
 * space, or a line break (a newline followed by the leader).
 */
module SeqFormat {
  import opened Wrappers
  import opened JavaLang
  import opened Locations

  datatype FormatError = ArithmeticError   // an int division by zero

  // ---------------------------------------------------------------------------------
  // Splitting text into tokens (java.util.StringTokenizer with its default delimiters)
  // ---------------------------------------------------------------------------------

  /** The default delimiters of StringTokenizer: space, tab, newline, carriage return, form feed. */
  predicate IsDelimiter(c: char)
  {
    c == ' ' || c == '\t' || c == '\n' || c == '\r' || c == 12 as char
  }

  predicate IsToken(t: string)
  {
    t != [] && forall i :: 0 <= i < |t| ==> !IsDelimiter(t[i])
  }

  /** The length of the run of non-delimiters that starts the text. */
  function RunLength(s: string): (n: nat)
    ensures n <= |s|
    ensures forall i :: 0 <= i < n ==> !IsDelimiter(s[i])
    ensures n < |s| ==> IsDelimiter(s[n])
  {
    if s == [] || IsDelimiter(s[0]) then 0 else 1 + RunLength(s[1..])
  }

  /** The tokens of the text: its maximal runs of non-delimiters, in order. */
  function Tokens(s: string): (ts: seq<string>)
    ensures forall k :: 0 <= k < |ts| ==> IsToken(ts[k])
    decreases |s|
  {
    if s == [] then []
    else if IsDelimiter(s[0]) then Tokens(s[1..])
    else
      var n := RunLength(s);
      [s[..n]] + Tokens(s[n..])
  }

  /** The text with every delimiter removed. */
  function Squeeze(s: string): string
  {
    if s == [] then [] else (if IsDelimiter(s[0]) then [] else [s[0]]) + Squeeze(s[1..])
  }

  function Concat(ts: seq<string>): string
  {
    if ts == [] then [] else Concat(ts[..|ts| - 1]) + ts[|ts| - 1]
  }

  lemma {:induction false} ConcatCons(a: string, ts: seq<string>)
    ensures Concat([a] + ts) == a + Concat(ts)
    decreases |ts|
  {
    if ts != [] {
      assert ([a] + ts)[..|ts|] == [a] + ts[..|ts| - 1];
      ConcatCons(a, ts[..|ts| - 1]);
    }
  }

  lemma {:induction false} SqueezeRun(s: string, n: nat)
    requires n <= |s| && forall i :: 0 <= i < n ==> !IsDelimiter(s[i])
    ensures Squeeze(s) == s[..n] + Squeeze(s[n..])
  {
    if n > 0 {
      SqueezeRun(s[1..], n - 1);
      assert s[1..][n - 1..] == s[n..];
      assert s[..n] == [s[0]] + s[1..][..n - 1];
    }
  }

  /** Concatenating the tokens gives back the text without its delimiters. */
  lemma {:induction false} TokensCoverText(s: string)
    ensures Concat(Tokens(s)) == Squeeze(s)
    decreases |s|
  {
    if s != [] {
      if IsDelimiter(s[0]) {
        TokensCoverText(s[1..]);
      } else {
        var n := RunLength(s);
        TokensCoverText(s[n..]);
        ConcatCons(s[..n], Tokens(s[n..]));
        SqueezeRun(s, n);
      }
    }
  }

  // ---------------------------------------------------------------------------------
  // Pieces of wrapped output and the columns they reach
  // ---------------------------------------------------------------------------------

  datatype Piece = Text(t: string) | Space | Break

  function PieceText(p: Piece, leader: string): string
  {
    match p
    case Text(t) => t
    case Space => " "
    case Break => "\n" + leader
  }

  /** The characters the pieces stand for. */
  function Render(ps: seq<Piece>, leader: string): string
  {
    if ps == [] then [] else Render(ps[..|ps| - 1], leader) + PieceText(ps[|ps| - 1], leader)
  }

  /** The text pieces alone: the output with its spaces and line breaks taken out. */
  function Words(ps: seq<Piece>): string
  {
    if ps == [] then []
    else Words(ps[..|ps| - 1]) + (if ps[|ps| - 1].Text? then ps[|ps| - 1].t else [])
  }

  lemma {:induction false} RenderAppend(a: seq<Piece>, b: seq<Piece>, leader: string)
    ensures Render(a + b, leader) == Render(a, leader) + Render(b, leader)
    ensures Words(a + b) == Words(a) + Words(b)
  {
    RenderJoin(a, b, leader);
    WordsJoin(a, b);
  }

  lemma {:induction false} RenderJoin(a: seq<Piece>, b: seq<Piece>, leader: string)
    ensures Render(a + b, leader) == Render(a, leader) + Render(b, leader)
    decreases |b|
  {
    if b == [] {
      assert a + b == a;
    } else {
      var init, last := b[..|b| - 1], b[|b| - 1];
      assert a + b == (a + init) + [last] by {
        assert b == init + [last];
        Assoc(a, init, [last]);
      }
      RenderSnoc(a + init, last, leader);
      RenderSnoc(init, last, leader);
      RenderJoin(a, init, leader);
      Assoc(Render(a, leader), Render(init, leader), PieceText(last, leader));
    }
  }

  lemma {:induction false} WordsJoin(a: seq<Piece>, b: seq<Piece>)
    ensures Words(a + b) == Words(a) + Words(b)
    decreases |b|
  {
    if b == [] {
      assert a + b == a;
    } else {
      var init, last := b[..|b| - 1], b[|b| - 1];
      assert a + b == (a + init) + [last] by {
        assert b == init + [last];
        Assoc(a, init, [last]);
      }
      var lw := if last.Text? then last.t else [];
      RenderSnoc(a + init, last, "");
      RenderSnoc(init, last, "");
      WordsJoin(a, init);
      Assoc(Words(a), Words(init), lw);
    }
  }

  /** Adding one piece adds its text. */
  lemma RenderSnoc(ps: seq<Piece>, p: Piece, leader: string)
    ensures Render(ps + [p], leader) == Render(ps, leader) + PieceText(p, leader)
    ensures Words(ps + [p]) == Words(ps) + (if p.Text? then p.t else [])
  {
    assert (ps + [p])[..|ps|] == ps;
  }

  /** Adding two pieces adds their texts. */
  lemma RenderPair(ps: seq<Piece>, p: Piece, q: Piece, leader: string)
    ensures Render(ps + [p, q], leader) == Render(ps, leader) + PieceText(p, leader) + PieceText(q, leader)
    ensures Words(ps + [p, q]) == Words(ps) + (if p.Text? then p.t else []) + (if q.Text? then q.t else [])
  {
    RenderSnoc(ps, p, leader);
    RenderSnoc(ps + [p], q, leader);
    assert ps + [p] + [q] == ps + [p, q];
  }

  lemma TakeSnoc<T>(s: seq<T>, n: nat)
    requires 0 < n <= |s|
    ensures s[..n] == s[..n - 1] + [s[n - 1]]
  {
  }

  lemma Assoc<T>(a: seq<T>, b: seq<T>, c: seq<T>)
    ensures a + (b + c) == a + b + c
  {
  }

  /** Output that starts with the leader grows by the text of the pieces added. */
  lemma Extend(prefix: string, ps: seq<Piece>, qs: seq<Piece>, leader: string)
    ensures prefix + Render(ps + qs, leader) == prefix + Render(ps, leader) + Render(qs, leader)
  {
    RenderJoin(ps, qs, leader);
    Assoc(prefix, Render(ps, leader), Render(qs, leader));
  }

  lemma RenderOne(p: Piece, leader: string)
    ensures Render([p], leader) == PieceText(p, leader)
  {
    RenderSnoc([], p, leader);
    assert [] + [p] == [p];
  }

  lemma RenderThree(p: Piece, q: Piece, u: Piece, leader: string)
    ensures Render([p, q, u], leader) == PieceText(p, leader) + PieceText(q, leader) + PieceText(u, leader)
  {
    RenderTwo(p, q, leader);
    RenderSnoc([p, q], u, leader);
    assert [p, q] + [u] == [p, q, u];
  }

  /** StringBuffer.insert of `ins` just before the last |t| characters of x + t. */
  lemma InsertBefore(x: string, t: string, ins: string)
    ensures (x + t)[..|x + t| - |t|] + ins + (x + t)[|x + t| - |t|..] == x + ins + t
  {
    assert (x + t)[..|x|] == x;
    assert (x + t)[|x|..] == t;
  }

  lemma RenderTwo(p: Piece, q: Piece, leader: string)
    ensures Render([p, q], leader) == PieceText(p, leader) + PieceText(q, leader)
  {
    RenderPair([], p, q, leader);
    assert [] + [p, q] == [p, q];
  }

  predicate NoNewline(s: string)
  {
    forall i :: 0 <= i < |s| ==> s[i] != '\n'
  }

  /** The length of the last line of the text: the characters after its last newline. */
  function Column(s: string): nat
  {
    if s == [] then 0 else if s[|s| - 1] == '\n' then 0 else Column(s[..|s| - 1]) + 1
  }

  lemma {:induction false} ColumnAppend(a: string, t: string)
    requires NoNewline(t)
    ensures Column(a + t) == Column(a) + |t|
    decreases |t|
  {
    if t == [] {
      assert a + t == a;
    } else {
      assert (a + t)[..|a + t| - 1] == a + t[..|t| - 1];
      assert (a + t)[|a + t| - 1] == t[|t| - 1] != '\n';
      ColumnAppend(a, t[..|t| - 1]);
    }
  }

  lemma ColumnAfterBreak(a: string, leader: string)
    requires NoNewline(leader)
    ensures Column(a + "\n" + leader) == |leader|
  {
    assert Column(a + "\n") == 0;
    ColumnAppend(a + "\n", leader);
  }

  // ---------------------------------------------------------------------------------
  // formatQualifierBlock
  // ---------------------------------------------------------------------------------

  /**
   * An overwide token copied one character at a time after `k` of its characters, starting
   * at column `pos`: a break is inserted before a character whenever the column has reached
   * the wrap width. The pieces written and the column reached.
   */
  function CharByChar(s: string, k: nat, pos: int, leaderLen: int, w: int): (r: (seq<Piece>, int))
    requires k <= |s|
    ensures Words(r.0) == s[..k]
  {
    if k == 0 then ([], pos)
    else
      var prev := CharByChar(s, k - 1, pos, leaderLen, w);
      TakeSnoc(s, k);
      CharStepWords(prev, s[k - 1], leaderLen, w);
      CharStep(prev, s[k - 1], leaderLen, w)
  }

  /** One character of an overwide token: after a line break when the column has reached the wrap width. */
  function CharStep(prev: (seq<Piece>, int), c: char, leaderLen: int, w: int): (seq<Piece>, int)
  {
    if prev.1 == w then (prev.0 + [Break, Text([c])], leaderLen + 1)
    else (prev.0 + [Text([c])], prev.1 + 1)
  }

  lemma CharStepWords(prev: (seq<Piece>, int), c: char, leaderLen: int, w: int)
    ensures Words(CharStep(prev, c, leaderLen, w).0) == Words(prev.0) + [c]
  {
    RenderPair(prev.0, Break, Text([c]), "");
    RenderSnoc(prev.0, Text([c]), "");
  }

  lemma CharByCharNext(s: string, k: nat, pos: int, leaderLen: int, w: int)
    requires k < |s|
    ensures CharByChar(s, k + 1, pos, leaderLen, w) == CharStep(CharByChar(s, k, pos, leaderLen, w), s[k], leaderLen, w)
  {
  }

  /** The layout state between tokens: the pieces so far, the column, and whether the token type is still FIRST. */
  datatype QState = QState(pieces: seq<Piece>, pos: int, first: bool)

  /**
   * One token of formatQualifierBlock. A first token that fits follows the leader directly;
   * a first token that does not fit is copied character by character and the token type
   * stays FIRST; a later token is copied character by character when it is at least as wide
   * as the wrap width, goes to a new line when it does not fit, and otherwise follows a
   * space. After a character-by-character copy the source sets the column to the token
   * length modulo the wrap width (`asWritten`); the corrected layout keeps the column the
   * copy reached.
   */
  function QualStep(st: QState, s: string, leaderLen: int, w: int, asWritten: bool): (r: QState)
    requires asWritten ==> w != 0
    ensures Words(r.pieces) == Words(st.pieces) + s
  {
    if st.first && st.pos + |s| <= w then
      RenderSnoc(st.pieces, Text(s), "");
      QState(st.pieces + [Text(s)], st.pos + |s|, false)
    else if st.first || |s| + 1 > w then
      var ow := CharByChar(s, |s|, st.pos, leaderLen, w);
      WordsJoin(st.pieces, ow.0);
      assert s[..|s|] == s;
      QState(st.pieces + ow.0, if asWritten then Rem(|s|, w) else ow.1, st.first)
    else if st.pos + |s| + 1 > w then
      RenderPair(st.pieces, Break, Text(s), "");
      QState(st.pieces + [Break, Text(s)], |s| + leaderLen, false)
    else
      RenderPair(st.pieces, Space, Text(s), "");
      QState(st.pieces + [Space, Text(s)], st.pos + |s| + 1, false)
  }

  /** The layout after the first `n` tokens. */
  function QualLayout(toks: seq<string>, n: nat, leaderLen: int, w: int, asWritten: bool): (r: QState)
    requires n <= |toks|
    requires asWritten ==> w != 0
    ensures Words(r.pieces) == Concat(toks[..n])
  {
    if n == 0 then QState([], leaderLen, true)
    else
      assert toks[..n][..n - 1] == toks[..n - 1];
      QualStep(QualLayout(toks, n - 1, leaderLen, w, asWritten), toks[n - 1], leaderLen, w, asWritten)
  }

  datatype TokenType = First | Overwide | NoFit | Fit

  /**
   * formatQualifierBlock, with the column kept as the character loop leaves it: the leader
   * followed by the laid-out tokens of the text.
   */
  method FormatQualifierBlock(text: string, leader: string, wrapWidth: int) returns (r: string)
    ensures r == leader + Render(QualLayout(Tokens(text), |Tokens(text)|, |leader|, wrapWidth, false).pieces, leader)
  {
    var tokenType := First;
    var position := |leader|;
    r := leader;
    assert r == leader + Render([], leader);
    var toks := Tokens(text);
    ghost var ps: seq<Piece> := [];
    var i := 0;
    while i < |toks|
      invariant i <= |toks|
      invariant QualLayout(toks, i, |leader|, wrapWidth, false) == QState(ps, position, tokenType == First)
      invariant r == leader + Render(ps, leader)
    {
      QualLayoutNext(toks, i, |leader|, wrapWidth, false);
      r, position, tokenType, ps := AppendToken(toks[i], leader, wrapWidth, r, position, tokenType, ps);
      i := i + 1;
    }
  }

  lemma QualLayoutNext(toks: seq<string>, i: nat, leaderLen: int, w: int, asWritten: bool)
    requires i < |toks| && (asWritten ==> w != 0)
    ensures QualLayout(toks, i + 1, leaderLen, w, asWritten) == QualStep(QualLayout(toks, i, leaderLen, w, asWritten), toks[i], leaderLen, w, asWritten)
  {
  }

  /** One pass of the token loop of formatQualifierBlock: the token type is chosen, then the token written. */
  method AppendToken(s: string, leader: string, wrapWidth: int, r0: string, pos0: int, tokenType0: TokenType, ghost ps0: seq<Piece>)
    returns (r: string, position: int, tokenType: TokenType, ghost ps: seq<Piece>)
    requires r0 == leader + Render(ps0, leader)
    ensures QState(ps, position, tokenType == First) == QualStep(QState(ps0, pos0, tokenType0 == First), s, |leader|, wrapWidth, false)
    ensures r == leader + Render(ps, leader)
  {
    r, position, tokenType, ps := r0, pos0, tokenType0, ps0;
    if tokenType != First {
      if |s| + 1 > wrapWidth {
        tokenType := Overwide;
      } else if position + |s| + 1 > wrapWidth {
        tokenType := NoFit;
      } else {
        tokenType := Fit;
      }
    }
    if tokenType == First && position + |s| <= wrapWidth {
      Extend(leader, ps, [Text(s)], leader);
      RenderOne(Text(s), leader);
      r := r + s;
      position := position + |s|;
      tokenType := Fit;
      ps := ps + [Text(s)];
    } else if tokenType == First || tokenType == Overwide {
      r, position, ps := CopyOverwide(s, leader, wrapWidth, r, position, ps);
    } else if tokenType == NoFit {
      Extend(leader, ps, [Break, Text(s)], leader);
      RenderTwo(Break, Text(s), leader);
      Assoc("\n", leader, s);
      r := r + ("\n" + leader + s);
      position := |s| + |leader|;
      ps := ps + [Break, Text(s)];
    } else {
      Extend(leader, ps, [Space, Text(s)], leader);
      RenderTwo(Space, Text(s), leader);
      r := r + (" " + s);
      position := position + |s| + 1;
      ps := ps + [Space, Text(s)];
    }
  }

  /**
   * The OVERWIDE case of formatQualifierBlock: the token is copied one character at a time,
   * with a line break whenever the column has reached the wrap width.
   */
  method CopyOverwide(s: string, leader: string, wrapWidth: int, r0: string, pos0: int, ghost ps0: seq<Piece>)
    returns (r: string, position: int, ghost ps: seq<Piece>)
    requires r0 == leader + Render(ps0, leader)
    ensures ps == ps0 + CharByChar(s, |s|, pos0, |leader|, wrapWidth).0
    ensures position == CharByChar(s, |s|, pos0, |leader|, wrapWidth).1
    ensures r == leader + Render(ps, leader)
  {
    ghost var ops: seq<Piece> := [];
    r, position := r0, pos0;
    assert ps0 + [] == ps0;
    var k := 0;
    while k < |s|
      invariant k <= |s|
      invariant CharByChar(s, k, pos0, |leader|, wrapWidth) == (ops, position)
      invariant r == leader + Render(ps0 + ops, leader)
    {
      CharByCharNext(s, k, pos0, |leader|, wrapWidth);
      r, position, ops := CopyChar(s[k], leader, wrapWidth, r, position, ps0, ops);
      k := k + 1;
    }
    ps := ps0 + ops;
  }

  /** One pass of the character loop: a line break when the column has reached the wrap width, then the character. */
  method CopyChar(c: char, leader: string, wrapWidth: int, r0: string, pos0: int, ghost ps0: seq<Piece>, ghost ops0: seq<Piece>)
    returns (r: string, position: int, ghost ops: seq<Piece>)
    requires r0 == leader + Render(ps0 + ops0, leader)
    ensures (ops, position) == CharStep((ops0, pos0), c, |leader|, wrapWidth)
    ensures r == leader + Render(ps0 + ops, leader)
  {
    r, position, ops := r0, pos0, ops0;
    if position == wrapWidth {
      Extend(leader, ps0 + ops, [Break], leader);
      RenderOne(Break, leader);
      r := r + ("\n" + leader);
      position := |leader|;
      Assoc(ps0, ops, [Break]);
      ops := ops + [Break];
    }
    Extend(leader, ps0 + ops, [Text([c])], leader);
    RenderOne(Text([c]), leader);
    r := r + [c];
    position := position + 1;
    Assoc(ps0, ops, [Text([c])]);
    ops := ops + [Text([c])];
    assert ops == ops0 + [Text([c])] || ops == ops0 + [Break, Text([c])];
  }

  /**
   * Taking the line breaks and spaces out of a formatted qualifier block leaves the text
   * with its whitespace removed: every token is written, whole and in order.
   */
  lemma QualifierKeepsText(text: string, leaderLen: int, w: int)
    ensures Words(QualLayout(Tokens(text), |Tokens(text)|, leaderLen, w, false).pieces) == Squeeze(text)
  {
    var toks := Tokens(text);
    assert toks[..|toks|] == toks;
    TokensCoverText(text);
  }

  /** The character loop ends at the column of the last line it wrote. */
  lemma {:induction false} CharByCharColumn(s: string, k: nat, base: string, pos: int, leader: string, w: int)
    requires k <= |s| && NoNewline(s) && NoNewline(leader)
    requires Column(base) == pos
    ensures ColumnKept(base, CharByChar(s, k, pos, |leader|, w), leader)
  {
    if k > 0 {
      CharByCharColumn(s, k - 1, base, pos, leader, w);
      CharByCharNext(s, k - 1, pos, |leader|, w);
      CharStepColumn(CharByChar(s, k - 1, pos, |leader|, w), s[k - 1], base, leader, w);
    } else {
      assert base + Render([], leader) == base;
    }
  }

  /** The column kept is the length of the last line of the output. */
  predicate ColumnKept(base: string, st: (seq<Piece>, int), leader: string)
  {
    st.1 == Column(base + Render(st.0, leader))
  }

  lemma CharStepColumn(prev: (seq<Piece>, int), c: char, base: string, leader: string, w: int)
    requires NoNewline(leader) && c != '\n'
    requires ColumnKept(base, prev, leader)
    ensures ColumnKept(base, CharStep(prev, c, |leader|, w), leader)
  {
    if prev.1 == w {
      ColumnAfterBreakText(base, prev.0, [c], leader);
    } else {
      ColumnAfterText(base, prev.0, [c], leader);
    }
  }

  /** After a line break and a text without newlines the column is the leader's length plus the text's. */
  lemma BreakThenText(a: string, leader: string, t: string)
    requires NoNewline(leader) && NoNewline(t)
    ensures Column(a + "\n" + leader + t) == |leader| + |t|
  {
    ColumnAfterBreak(a, leader);
    ColumnAppend(a + "\n" + leader, t);
  }

  /** The column after a text piece, a space and a text, or a break and a text. */
  lemma ColumnAfterPieces(leader: string, ps: seq<Piece>, s: string)
    requires NoNewline(leader) && NoNewline(s)
    ensures Column(leader + Render(ps + [Text(s)], leader)) == Column(leader + Render(ps, leader)) + |s|
    ensures Column(leader + Render(ps + [Space, Text(s)], leader)) == Column(leader + Render(ps, leader)) + 1 + |s|
    ensures Column(leader + Render(ps + [Break, Text(s)], leader)) == |leader| + |s|
  {
    ColumnAfterText(leader, ps, s, leader);
    ColumnAfterSpaceText(leader, ps, s, leader);
    ColumnAfterBreakText(leader, ps, s, leader);
  }

  lemma ColumnAfterText(base: string, ps: seq<Piece>, s: string, leader: string)
    requires NoNewline(s)
    ensures Column(base + Render(ps + [Text(s)], leader)) == Column(base + Render(ps, leader)) + |s|
  {
    var r := Render(ps, leader);
    RenderSnoc(ps, Text(s), leader);
    Assoc(base, r, s);
    ColumnAppend(base + r, s);
  }

  lemma ColumnAfterSpaceText(base: string, ps: seq<Piece>, s: string, leader: string)
    requires NoNewline(s)
    ensures Column(base + Render(ps + [Space, Text(s)], leader)) == Column(base + Render(ps, leader)) + 1 + |s|
  {
    var r := Render(ps, leader);
    RenderPair(ps, Space, Text(s), leader);
    Assoc(base, r + " ", s);
    Assoc(base, r, " ");
    Assoc(base + r, " ", s);
    ColumnAppend(base + r, " " + s);
  }

  lemma ColumnAfterBreakText(base: string, ps: seq<Piece>, s: string, leader: string)
    requires NoNewline(leader) && NoNewline(s)
    ensures Column(base + Render(ps + [Break, Text(s)], leader)) == |leader| + |s|
  {
    var r := Render(ps, leader);
    RenderPair(ps, Break, Text(s), leader);
    Assoc(base, r + ("\n" + leader), s);
    Assoc(base, r, "\n" + leader);
    Assoc(base + r, "\n", leader);
    BreakThenText(base + r, leader, s);
  }

  /** Before any piece the column is the leader's length. */
  lemma ColumnOfLeader(leader: string)
    requires NoNewline(leader)
    ensures Column(leader + Render([], leader)) == |leader|
  {
    ColumnAppend([], leader);
    assert [] + leader == leader;
    assert leader + Render([], leader) == leader;
  }

  /** One token of the corrected layout keeps the column equal to the length of the last line. */
  lemma QualStepColumn(st: QState, s: string, leader: string, w: int)
    requires NoNewline(leader) && NoNewline(s)
    requires ColumnKept(leader, (st.pieces, st.pos), leader)
    ensures ColumnKept(leader, (QualStep(st, s, |leader|, w, false).pieces, QualStep(st, s, |leader|, w, false).pos), leader)
  {
    ColumnAfterPieces(leader, st.pieces, s);
    if !(st.first && st.pos + |s| <= w) && (st.first || |s| + 1 > w) {
      var ow := CharByChar(s, |s|, st.pos, |leader|, w);
      var base := leader + Render(st.pieces, leader);
      CharByCharColumn(s, |s|, base, st.pos, leader, w);
      RenderJoin(st.pieces, ow.0, leader);
      Assoc(leader, Render(st.pieces, leader), Render(ow.0, leader));
    }
  }

  /**
   * In the corrected layout the column the formatter keeps is always the length of the
   * output's last line, which is what its fit decisions rely on.
   */
  lemma {:induction false} QualifierColumn(toks: seq<string>, n: nat, leader: string, w: int)
    requires n <= |toks| && NoNewline(leader)
    requires forall k :: 0 <= k < |toks| ==> IsToken(toks[k])
    ensures ColumnKept(leader, (QualLayout(toks, n, |leader|, w, false).pieces, QualLayout(toks, n, |leader|, w, false).pos), leader)
  {
    if n == 0 {
      ColumnOfLeader(leader);
    } else {
      QualifierColumn(toks, n - 1, leader, w);
      assert IsToken(toks[n - 1]);
      QualStepColumn(QualLayout(toks, n - 1, |leader|, w, false), toks[n - 1], leader, w);
    }
  }

  /**
   * As written, the column is reset to the token length modulo the wrap width after a
   * character-by-character copy. With no leader, a wrap width of 4 and the text
   * "x aaaaa bb", the copy of "aaaaa" ends at column 2 but the column is set to 1, so "bb"
   * is judged to fit after a space and the last line, "aa bb", is 5 columns wide. The
   * corrected layout moves "bb" to a line of its own.
   */
  lemma QualifierColumnResetOverflows()
    ensures QualLayout(["x", "aaaaa", "bb"], 2, 0, 4, false).pos == 2
    ensures QualLayout(["x", "aaaaa", "bb"], 2, 0, 4, true).pos == 1
    ensures Render(QualLayout(["x", "aaaaa", "bb"], 3, 0, 4, true).pieces, "") == "xaaa\naa bb"
    ensures Column("xaaa\naa bb") == 5
    ensures Render(QualLayout(["x", "aaaaa", "bb"], 3, 0, 4, false).pieces, "") == "xaaa\naa\nbb"
  {
    ExampleAfterTwoTokens(false);
    ExampleAfterTwoTokens(true);
    ExampleThirdToken(false);
    ExampleThirdToken(true);
    ExampleLastLines();
    LastLineExample();
  }

  /** The example's last token follows a space as written and starts a new line when corrected. */
  lemma ExampleThirdToken(asWritten: bool)
    ensures Render(QualLayout(["x", "aaaaa", "bb"], 3, 0, 4, asWritten).pieces, "") ==
      "xaaa\naa" + (if asWritten then " " else "\n" + "") + "bb"
  {
    var toks := ["x", "aaaaa", "bb"];
    var ps := [Text("x"), Text("a"), Text("a"), Text("a"), Break, Text("a"), Text("a")];
    ExampleAfterTwoTokens(asWritten);
    OverwideExampleText();
    QualLayoutNext(toks, 2, 0, 4, asWritten);
    var sep := if asWritten then Space else Break;
    assert QualLayout(toks, 3, 0, 4, asWritten).pieces == ps + [sep, Text("bb")];
    RenderPair(ps, sep, Text("bb"), "");
  }

  lemma ExampleLastLines()
    ensures "xaaa\naa" + " " + "bb" == "xaaa\naa bb"
    ensures "xaaa\naa" + ("\n" + "") + "bb" == "xaaa\naa\nbb"
  {
  }

  /** The example's layout after "x" and "aaaaa", as written and corrected. */
  lemma ExampleAfterTwoTokens(asWritten: bool)
    ensures QualLayout(["x", "aaaaa", "bb"], 2, 0, 4, asWritten) ==
      QState([Text("x"), Text("a"), Text("a"), Text("a"), Break, Text("a"), Text("a")], if asWritten then 1 else 2, false)
  {
    var toks := ["x", "aaaaa", "bb"];
    var st0 := QualLayout(toks, 0, 0, 4, asWritten);
    assert st0 == QState([], 0, true);
    var st1 := QualLayout(toks, 1, 0, 4, asWritten);
    assert st1 == QualStep(st0, "x", 0, 4, asWritten);
    assert st1 == QState([Text("x")], 1, false);
    var st2 := QualLayout(toks, 2, 0, 4, asWritten);
    assert st2 == QualStep(st1, "aaaaa", 0, 4, asWritten);
    var ow := CharByChar("aaaaa", 5, 1, 0, 4);
    OverwideCopyExample();
    assert st2 == QState([Text("x")] + ow.0, if asWritten then Rem(5, 4) else ow.1, false);
    assert Rem(5, 4) == 1;
    var copied := [Text("a"), Text("a"), Text("a"), Break, Text("a"), Text("a")];
    assert ow.0 == copied;
    ExamplePieces();
  }

  lemma ExamplePieces()
    ensures [Text("x")] + [Text("a"), Text("a"), Text("a"), Break, Text("a"), Text("a")] ==
      [Text("x"), Text("a"), Text("a"), Text("a"), Break, Text("a"), Text("a")]
  {
  }

  /** The copy of "aaaaa" from column 1 with no leader and a wrap width of 4. */
  lemma OverwideCopyExample()
    ensures CharByChar("aaaaa", 5, 1, 0, 4) == ([Text("a"), Text("a"), Text("a"), Break, Text("a"), Text("a")], 2)
  {
    var s := "aaaaa";
    var a := Text("a");
    assert [s[0]] == "a" && [s[1]] == "a" && [s[2]] == "a" && [s[3]] == "a" && [s[4]] == "a";
    CharByCharNext(s, 0, 1, 0, 4);
    CharByCharNext(s, 1, 1, 0, 4);
    CharByCharNext(s, 2, 1, 0, 4);
    CharByCharNext(s, 3, 1, 0, 4);
    CharByCharNext(s, 4, 1, 0, 4);
    assert CharByChar(s, 5, 1, 0, 4) == ([] + [a] + [a] + [a] + [Break, a] + [a], 2);
    ExampleCopyPieces();
  }

  lemma ExampleCopyPieces()
    ensures [] + [Text("a")] + [Text("a")] + [Text("a")] + [Break, Text("a")] + [Text("a")] ==
      [Text("a"), Text("a"), Text("a"), Break, Text("a"), Text("a")]
  {
  }

  lemma OverwideExampleText()
    ensures Render([Text("x"), Text("a"), Text("a"), Text("a"), Break, Text("a"), Text("a")], "") == "xaaa\naa"
  {
    var x, a := Text("x"), Text("a");
    var p1 := [x];
    var p2 := p1 + [a];
    var p3 := p2 + [a];
    var p4 := p3 + [a];
    var p5 := p4 + [Break];
    var p6 := p5 + [a];
    var p7 := p6 + [a];
    RenderOne(x, "");
    RenderSnoc(p1, a, "");
    RenderSnoc(p2, a, "");
    RenderSnoc(p3, a, "");
    RenderSnoc(p4, Break, "");
    RenderSnoc(p5, a, "");
    RenderSnoc(p6, a, "");
    ExampleTextPieces();
    ExampleTextChars();
  }

  lemma ExampleTextPieces()
    ensures [Text("x")] + [Text("a")] + [Text("a")] + [Text("a")] + [Break] + [Text("a")] + [Text("a")] ==
      [Text("x"), Text("a"), Text("a"), Text("a"), Break, Text("a"), Text("a")]
  {
  }

  lemma ExampleTextChars()
    ensures "x" + "a" + "a" + "a" + ("\n" + "") + "a" + "a" == "xaaa\naa"
  {
  }

  lemma LastLineExample()
    ensures Column("xaaa\naa bb") == 5
  {
    var a := "xaaa\n";
    var t := "aa bb";
    assert a + t == "xaaa\naa bb";
    assert Column(a) == 0;
    ColumnAppend(a, t);
  }

  // ---------------------------------------------------------------------------------
  // formatTokenBlock
  // ---------------------------------------------------------------------------------

  /** The first `n` symbol tokens, with a space after symbol i whenever i > 0 and (i + 1) % blockSize == 0. */
  function TokenBlock(syms: seq<char>, blockSize: int, n: nat): (r: string)
    requires n <= |syms|
    requires blockSize != 0 || n <= 1
  {
    if n == 0 then []
    else TokenBlock(syms, blockSize, n - 1) + [syms[n - 1]] + (if n - 1 > 0 && Rem(n, blockSize) == 0 then " " else "")
  }

  /** The text with its spaces removed. */
  function WithoutSpaces(s: string): string
  {
    if s == [] then [] else WithoutSpaces(s[..|s| - 1]) + (if s[|s| - 1] == ' ' then [] else [s[|s| - 1]])
  }

  lemma {:induction false} WithoutSpacesAppend(a: string, b: string)
    ensures WithoutSpaces(a + b) == WithoutSpaces(a) + WithoutSpaces(b)
    decreases |b|
  {
    if b == [] {
      assert a + b == a;
    } else {
      var c := b[|b| - 1];
      assert (a + b)[..|a + b| - 1] == a + b[..|b| - 1];
      assert (a + b)[|a + b| - 1] == c;
      WithoutSpacesAppend(a, b[..|b| - 1]);
      assert WithoutSpaces(a + b) == WithoutSpaces(a + b[..|b| - 1]) + (if c == ' ' then [] else [c]);
    }
  }

  /** The blocks hold the tokens themselves, in order: removing the block separators gives the tokens back. */
  lemma {:induction false} TokenBlockKeepsTokens(syms: seq<char>, blockSize: int, n: nat)
    requires n <= |syms| && (blockSize != 0 || n <= 1)
    requires forall i :: 0 <= i < |syms| ==> syms[i] != ' '
    ensures WithoutSpaces(TokenBlock(syms, blockSize, n)) == syms[..n]
  {
    if n > 0 {
      TokenBlockKeepsTokens(syms, blockSize, n - 1);
      TokenBlockStep(syms, blockSize, n);
      TakeSnoc(syms, n);
    }
  }

  /** With blocks of two or more tokens, n tokens take n characters and one space per full block. */
  lemma {:induction false} TokenBlockLength(syms: seq<char>, blockSize: int, n: nat)
    requires n <= |syms| && blockSize >= 2
    ensures |TokenBlock(syms, blockSize, n)| == n + n / blockSize
  {
    if n > 0 {
      TokenBlockLength(syms, blockSize, n - 1);
      QuotRemNonNegative(n, blockSize);
      DivStep(n, blockSize);
    }
  }

  /** Stepping from n - 1 to n adds one to the quotient exactly when n is a multiple of b. */
  lemma DivStep(n: int, b: int)
    requires n >= 1 && b >= 2
    ensures n / b == (n - 1) / b + (if n % b == 0 then 1 else 0)
  {
    var q, r := (n - 1) / b, (n - 1) % b;
    assert n - 1 == q * b + r && 0 <= r < b;
    if r + 1 == b {
      assert n == (q + 1) * b;
      DivExact(n, b, q + 1, 0);
    } else {
      assert n == q * b + (r + 1);
      DivExact(n, b, q, r + 1);
    }
  }

  /** Division is unique: n = q * b + r with 0 <= r < b fixes n / b and n % b. */
  lemma DivExact(n: int, b: int, q: int, r: int)
    requires b > 0 && 0 <= r < b && n == q * b + r
    ensures n / b == q && n % b == r
  {
    var q', r' := n / b, n % b;
    assert n == q' * b + r' && 0 <= r' < b;
    if q' > q {
      assert (q' - q) * b == r - r';
      MulAtLeast(q' - q, b);
    } else if q' < q {
      assert (q - q') * b == r' - r;
      MulAtLeast(q - q', b);
    }
  }

  /** Each token adds itself, and at most a space, to the block text. */
  lemma TokenBlockStep(syms: seq<char>, blockSize: int, n: nat)
    requires 0 < n <= |syms| && (blockSize != 0 || n <= 1) && syms[n - 1] != ' '
    ensures WithoutSpaces(TokenBlock(syms, blockSize, n)) == WithoutSpaces(TokenBlock(syms, blockSize, n - 1)) + [syms[n - 1]]
  {
    var sep := if n - 1 > 0 && Rem(n, blockSize) == 0 then " " else "";
    TokenAndSeparator(TokenBlock(syms, blockSize, n - 1), syms[n - 1], sep);
  }

  lemma TokenAndSeparator(prev: string, c: char, sep: string)
    requires c != ' ' && (sep == " " || sep == "")
    ensures WithoutSpaces(prev + [c] + sep) == WithoutSpaces(prev) + [c]
  {
    WithoutSpacesAppend(prev + [c], sep);
    assert WithoutSpaces(prev + [c]) == WithoutSpaces(prev) + [c] by {
      assert (prev + [c])[..|prev|] == prev;
    }
    assert WithoutSpaces(sep) == [] by {
      if sep != [] {
        assert sep[..0] == [];
      }
    }
  }

  /**
   * formatTokenBlock: every token, with a space after the (i + 1)-th token whenever i > 0
   * and (i + 1) is a multiple of the block size. A block size of 0 raises
   * ArithmeticException once the second token is reached.
   */
  method FormatTokenBlock(syms: seq<char>, blockSize: int) returns (r: Result<string, FormatError>)
    ensures blockSize == 0 && |syms| > 1 <==> r.Err?
    ensures r.Ok? ==> r.value == TokenBlock(syms, blockSize, |syms|)
  {
    var sb: string := [];
    for i := 0 to |syms|
      invariant blockSize != 0 || i <= 1
      invariant sb == TokenBlock(syms, blockSize, i)
    {
      sb := sb + [syms[i]];
      if i > 0 {
        if blockSize == 0 {
          return Err(ArithmeticError);
        }
        if Rem(i + 1, blockSize) == 0 {
          sb := sb + " ";
        }
      }
    }
    return Ok(sb);
  }

  // ---------------------------------------------------------------------------------
  // Location text
  // ---------------------------------------------------------------------------------

  /** formatPoint: the point's decimal text. */
  function FormatPoint(b: Block): string
    requires b.PointLoc?
  {
    IntToString(b.point)
  }

  /** formatRange: "min..max". */
  function FormatRange(b: Block): string
    requires b.RangeLoc?
  {
    IntToString(b.min) + ".." + IntToString(b.max)
  }

  /** formatFuzzyRange: the text of the lower end, "..", then the text of the upper end. */
  function FormatFuzzyRange(b: Block): string
    requires b.FuzzyLoc?
  {
    FuzzyMinText(b) + ".." + FuzzyMaxText(b)
  }

  /** The lower end of a fuzzy range: "<min" when unbounded, "(outerMin.innerMin)" when uncertain, else "min". */
  function FuzzyMinText(b: Block): string
    requires b.FuzzyLoc?
  {
    if !b.HasBoundedMin() then "<" + IntToString(b.Min())
    else if b.outerMin != b.innerMin then "(" + IntToString(b.outerMin) + "." + IntToString(b.innerMin) + ")"
    else IntToString(b.Min())
  }

  /** The upper end of a fuzzy range: ">max" when unbounded, "(innerMax.outerMax)" when uncertain, else "max". */
  function FuzzyMaxText(b: Block): string
    requires b.FuzzyLoc?
  {
    if !b.HasBoundedMax() then ">" + IntToString(b.Max())
    else if b.innerMax != b.outerMax then "(" + IntToString(b.innerMax) + "." + IntToString(b.outerMax) + ")"
    else IntToString(b.Max())
  }

  /** formatFuzzyPoint: "<max" when the minimum is unbounded, ">min" when the maximum is, else "(min.max)". */
  function FormatFuzzyPoint(b: Block): string
    requires b.FuzzyPointLoc?
  {
    if !b.HasBoundedMin() then "<" + IntToString(b.Max())
    else if !b.HasBoundedMax() then ">" + IntToString(b.Min())
    else "(" + IntToString(b.Min()) + "." + IntToString(b.Max()) + ")"
  }

  /** toComplement. */
  function ToComplement(value: string): string
  {
    "complement(" + value + ")"
  }

  /** The formatter formatLocationBlock picks for a block, by its kind. */
  function FormatBlock(b: Block): string
  {
    match b
    case PointLoc(_) => FormatPoint(b)
    case FuzzyLoc(_, _, _, _) => FormatFuzzyRange(b)
    case FuzzyPointLoc(_, _) => FormatFuzzyPoint(b)
    case RangeLoc(_, _) => FormatRange(b)
  }

  /** The text of a point reads back as the point. */
  lemma PointReadsBack(b: Block)
    requires b.PointLoc?
    ensures IsIntText(FormatPoint(b)) && IntTextValue(FormatPoint(b)) == b.point
  {
    IntToStringReadsBack(b.point);
  }

  /** The text of a range splits at ".." into texts that read back as the minimum and the maximum. */
  lemma RangeReadsBack(b: Block)
    requires b.RangeLoc?
    ensures var r, k := FormatRange(b), |IntToString(b.min)|;
      k + 2 < |r| && r[k..k + 2] == ".." &&
      IsIntText(r[..k]) && IntTextValue(r[..k]) == b.min &&
      IsIntText(r[k + 2..]) && IntTextValue(r[k + 2..]) == b.max
  {
    var lo, hi := IntToString(b.min), IntToString(b.max);
    IntToStringReadsBack(b.min);
    IntToStringReadsBack(b.max);
    assert FormatRange(b) == lo + ".." + hi;
    assert (lo + ".." + hi)[..|lo|] == lo && (lo + ".." + hi)[|lo| + 2..] == hi;
  }

  /**
   * The text of a fuzzy range shows how each end is known: it starts with "<" exactly when the
   * minimum is unbounded and with "(" exactly when it is uncertain; it holds ">" exactly when
   * the maximum is unbounded and ends with ")" exactly when that is uncertain.
   */
  lemma FuzzyRangeShowsEnds(b: Block)
    requires b.FuzzyLoc?
    ensures var r := FormatFuzzyRange(b);
      |r| > 0 &&
      (r[0] == '<' <==> !b.HasBoundedMin()) &&
      (r[0] == '(' <==> b.HasBoundedMin() && b.outerMin != b.innerMin) &&
      ('>' in r <==> !b.HasBoundedMax()) &&
      (r[|r| - 1] == ')' <==> b.HasBoundedMax() && b.innerMax != b.outerMax)
  {
    var lo, hi := FuzzyMinText(b), FuzzyMaxText(b);
    FuzzyMinShows(b);
    FuzzyMaxShows(b);
    assert FormatFuzzyRange(b) == lo + (".." + hi);
    assert (lo + (".." + hi))[0] == lo[0];
    assert (lo + (".." + hi))[|lo| + 2 + |hi| - 1] == hi[|hi| - 1];
    assert '>' !in ".." && '>' !in lo;
  }

  lemma FuzzyMinShows(b: Block)
    requires b.FuzzyLoc?
    ensures var t := FuzzyMinText(b);
      |t| > 0 && '>' !in t &&
      (t[0] == '<' <==> !b.HasBoundedMin()) &&
      (t[0] == '(' <==> b.HasBoundedMin() && b.outerMin != b.innerMin)
  {
    IntTextChars(b.Min());
    IntTextChars(b.outerMin);
    IntTextChars(b.innerMin);
  }

  lemma FuzzyMaxShows(b: Block)
    requires b.FuzzyLoc?
    ensures var t := FuzzyMaxText(b);
      |t| > 0 &&
      ('>' in t <==> !b.HasBoundedMax()) &&
      (t[|t| - 1] == ')' <==> b.HasBoundedMax() && b.innerMax != b.outerMax)
  {
    IntTextChars(b.Max());
    IntTextChars(b.innerMax);
    IntTextChars(b.outerMax);
  }

  /**
   * The text of a fuzzy point says by its first character which bound is missing, if any;
   * after "<" or ">" the bound that is there reads back.
   */
  lemma FuzzyPointShowsBounds(b: Block)
    requires b.FuzzyPointLoc?
    ensures var r := FormatFuzzyPoint(b);
      |r| > 1 &&
      (r[0] == '<' <==> !b.HasBoundedMin()) &&
      (r[0] == '>' <==> b.HasBoundedMin() && !b.HasBoundedMax()) &&
      (r[0] == '(' <==> b.HasBoundedMin() && b.HasBoundedMax()) &&
      (r[0] != '(' ==> IsIntText(r[1..]) && IntTextValue(r[1..]) == if b.HasBoundedMin() then b.Min() else b.Max())
  {
    IntToStringReadsBack(b.Min());
    IntToStringReadsBack(b.Max());
    IntTextChars(b.Min());
    IntTextChars(b.Max());
    assert ("<" + IntToString(b.Max()))[1..] == IntToString(b.Max());
    assert (">" + IntToString(b.Min()))[1..] == IntToString(b.Min());
  }

  /** Taking "complement(" and ")" off a complemented text gives the text back. */
  lemma ComplementUnwraps(value: string)
    ensures var r := ToComplement(value);
      |r| == |value| + 12 && r[..11] == "complement(" && r[11..|r| - 1] == value && r[|r| - 1] == ')'
  {
  }

  /** s holds none of the comma, space and line break the location layout puts between block texts. */
  predicate NoSeparator(s: string)
  {
    ',' !in s && ' ' !in s && '\n' !in s
  }

  lemma NoSeparatorAppend(x: string, y: string)
    ensures NoSeparator(x + y) <==> NoSeparator(x) && NoSeparator(y)
  {
  }

  lemma IntTextNoSeparator(i: int)
    ensures NoSeparator(IntToString(i))
  {
    IntTextChars(i);
  }

  /** A block's text is one word: never empty, and without a separator. */
  lemma BlockTextIsOneWord(b: Block)
    ensures |FormatBlock(b)| > 0 && NoSeparator(FormatBlock(b))
  {
    match b
    case PointLoc(p) =>
      IntTextNoSeparator(p);
    case RangeLoc(min, max) =>
      IntTextNoSeparator(min);
      IntTextNoSeparator(max);
      NoSeparatorAppend(IntToString(min), "..");
      NoSeparatorAppend(IntToString(min) + "..", IntToString(max));
    case FuzzyLoc(_, _, _, _) =>
      FuzzyTextsNoSeparator(b);
      NoSeparatorAppend(FuzzyMinText(b), "..");
      NoSeparatorAppend(FuzzyMinText(b) + "..", FuzzyMaxText(b));
    case FuzzyPointLoc(min, max) =>
      IntTextNoSeparator(min);
      IntTextNoSeparator(max);
      NoSeparatorAppend("<", IntToString(max));
      NoSeparatorAppend(">", IntToString(min));
      NoSeparatorAppend("(", IntToString(min));
      NoSeparatorAppend("(" + IntToString(min), ".");
      NoSeparatorAppend("(" + IntToString(min) + ".", IntToString(max));
      NoSeparatorAppend("(" + IntToString(min) + "." + IntToString(max), ")");
  }

  lemma FuzzyTextsNoSeparator(b: Block)
    requires b.FuzzyLoc?
    ensures NoSeparator(FuzzyMinText(b)) && NoSeparator(FuzzyMaxText(b))
  {
    var om, im, iM, oM := IntToString(b.outerMin), IntToString(b.innerMin), IntToString(b.innerMax), IntToString(b.outerMax);
    IntTextNoSeparator(b.outerMin);
    IntTextNoSeparator(b.innerMin);
    IntTextNoSeparator(b.innerMax);
    IntTextNoSeparator(b.outerMax);
    NoSeparatorAppend("<", im);
    NoSeparatorAppend(">", iM);
    NoSeparatorAppend("(" + om + ".", im);
    NoSeparatorAppend("(" + om + "." + im, ")");
    NoSeparatorAppend("(" + iM + ".", oM);
    NoSeparatorAppend("(" + iM + "." + oM, ")");
    NoSeparatorAppend("(", om);
    NoSeparatorAppend("(" + om, ".");
    NoSeparatorAppend("(", iM);
    NoSeparatorAppend("(" + iM, ".");
  }

  /** A fuzzy range without fuzziness is written like the plain range. */
  lemma SharpFuzzyRangeIsRange(b: Block)
    requires b.FuzzyLoc? && b.HasBoundedMin() && b.HasBoundedMax()
    requires b.outerMin == b.innerMin && b.outerMax == b.innerMax
    ensures FormatBlock(b) == FormatBlock(RangeLoc(b.Min(), b.Max()))
  {
  }

  // ---------------------------------------------------------------------------------
  // formatLocationBlock
  // ---------------------------------------------------------------------------------

  function Reverse<T>(s: seq<T>): (r: seq<T>)
    ensures |r| == |s| && forall i :: 0 <= i < |s| ==> r[i] == s[|s| - 1 - i]
  {
    if s == [] then [] else [s[|s| - 1]] + Reverse(s[..|s| - 1])
  }

  /** List.indexOf: the first position holding the block. */
  function FirstIndex(bs: seq<Block>, b: Block): (i: nat)
    requires b in bs
    ensures i < |bs| && bs[i] == b
  {
    if bs[0] == b then 0 else 1 + FirstIndex(bs[1..], b)
  }

  /** indexOf finds the first occurrence: no block before it is equal. */
  lemma {:induction false} FirstIndexIsFirst(bs: seq<Block>, b: Block, j: nat)
    requires b in bs && j < FirstIndex(bs, b)
    ensures bs[j] != b
  {
    if j > 0 {
      FirstIndexIsFirst(bs[1..], b, j - 1);
    }
  }

  /** The blocks in the order they are written: sorted, and reversed on the reverse strand. */
  function Ordered(loc: Location, strand: int): (bs: seq<Block>)
    ensures multiset(bs) == multiset(loc.Blocks())
  {
    var sorted := SortBlocks(loc.Blocks());
    if strand == -1 then
      assert multiset(Reverse(sorted)) == multiset(sorted) by {
        ReverseMultiset(sorted);
      }
      Reverse(sorted)
    else sorted
  }

  lemma {:induction false} ReverseMultiset<T>(s: seq<T>)
    ensures multiset(Reverse(s)) == multiset(s)
  {
    if s != [] {
      ReverseMultiset(s[..|s| - 1]);
      assert s == s[..|s| - 1] + [s[|s| - 1]];
    }
  }

  /** A block's text: its form, wrapped in complement(...) on the reverse strand. */
  function Formatted(b: Block, complement: bool): string
  {
    if complement then ToComplement(FormatBlock(b)) else FormatBlock(b)
  }

  /** The text added for block i: its form, then a comma when indexOf finds it before the last position. */
  function LocText(bs: seq<Block>, i: nat, complement: bool): string
    requires i < |bs|
  {
    Formatted(bs[i], complement) + (if FirstIndex(bs, bs[i]) + 1 < |bs| then "," else "")
  }

  /** The texts of all the blocks, in order. */
  function LocTexts(bs: seq<Block>, complement: bool): seq<string>
  {
    seq(|bs|, i requires 0 <= i < |bs| => LocText(bs, i, complement))
  }

  /** The wrapping state: the pieces so far, the column, and the length of the last text added. */
  datatype LayoutState = LayoutState(pieces: seq<Piece>, pos: int, diff: int)

  /** The location texts laid out one after another, each moved to a new line when it would pass the wrap width. */
  function LocLayout(texts: seq<string>, n: nat, start: int, leaderLen: int, w: int): LayoutState
    requires n <= |texts|
  {
    if n == 0 then LayoutState([], start, 0)
    else LayoutStep(LocLayout(texts, n - 1, start, leaderLen, w), texts[n - 1], leaderLen, w)
  }

  /** One location text added: after a line break when it would pass the wrap width. */
  function LayoutStep(prev: LayoutState, t: string, leaderLen: int, w: int): LayoutState
  {
    if prev.pos + |t| > w then LayoutState(prev.pieces + [Break, Text(t)], leaderLen + |t|, |t|)
    else LayoutState(prev.pieces + [Text(t)], prev.pos + |t|, |t|)
  }

  /** The layout ends with the last text added, and diff is its length. */
  lemma LocLayoutEnds(texts: seq<string>, n: nat, start: int, leaderLen: int, w: int)
    requires n <= |texts|
    ensures var l := LocLayout(texts, n, start, leaderLen, w);
      (n == 0 ==> l.pieces == [] && l.diff == 0) &&
      (n > 0 ==> l.pieces != [] && l.pieces[|l.pieces| - 1] == Text(texts[n - 1]) && l.diff == |texts[n - 1]|)
    ensures DiffIsLastText(LocLayout(texts, n, start, leaderLen, w))
  {
  }

  /** diff is the length of the last text laid out (0 before any). */
  predicate DiffIsLastText(l: LayoutState)
  {
    (l.pieces == [] ==> l.diff == 0) &&
    (l.pieces != [] ==> l.pieces[|l.pieces| - 1].Text? && l.diff == |l.pieces[|l.pieces| - 1].t|)
  }

  /** Without the breaks, the layout is the texts one after another. */
  lemma {:induction false} LocLayoutWords(texts: seq<string>, n: nat, start: int, leaderLen: int, w: int)
    requires n <= |texts|
    ensures Words(LocLayout(texts, n, start, leaderLen, w).pieces) == Concat(texts[..n])
  {
    if n > 0 {
      LocLayoutWords(texts, n - 1, start, leaderLen, w);
      LayoutStepWords(LocLayout(texts, n - 1, start, leaderLen, w), texts[n - 1], leaderLen, w);
      ConcatTake(texts, n);
    }
  }

  lemma LayoutStepWords(prev: LayoutState, t: string, leaderLen: int, w: int)
    ensures Words(LayoutStep(prev, t, leaderLen, w).pieces) == Words(prev.pieces) + t
  {
    RenderPair(prev.pieces, Break, Text(t), "");
    RenderSnoc(prev.pieces, Text(t), "");
  }

  lemma ConcatTake(ts: seq<string>, n: nat)
    requires 0 < n <= |ts|
    ensures Concat(ts[..n]) == Concat(ts[..n - 1]) + ts[n - 1]
  {
    assert ts[..n][..n - 1] == ts[..n - 1];
  }

  /**
   * The closing of a join: ")" is added, and when it passes the wrap width a break is
   * inserted before the last location text (corrected; see LocationCloseAsWritten).
   */
  function ClosePieces(l: LayoutState, join: bool, w: int): seq<Piece>
  {
    if !join then l.pieces
    else if l.pos + 1 > w then
      if l.pieces == [] then [Break, Text(")")]
      else l.pieces[..|l.pieces| - 1] + [Break, l.pieces[|l.pieces| - 1], Text(")")]
    else l.pieces + [Text(")")]
  }

  /** "join(" for a compound location. */
  function JoinPrefix(loc: Location): string
  {
    if loc.Compound? then "join(" else ""
  }

  /** The whole output of formatLocationBlock, with the closing break corrected. */
  function LocationBlockText(loc: Location, strand: int, leader: string, w: int): string
  {
    var texts := LocTexts(Ordered(loc, strand), strand == -1);
    BlockOutput(leader + JoinPrefix(loc), LocLayout(texts, |texts|, |leader| + |JoinPrefix(loc)|, |leader|, w), loc.Compound?, leader, w)
  }

  /** The output of formatLocationBlock starts with the leader, then "join(" for a compound location. */
  lemma LocationBlockStartsWithLeader(loc: Location, strand: int, leader: string, w: int)
    ensures |LocationBlockText(loc, strand, leader, w)| >= |leader|
    ensures LocationBlockText(loc, strand, leader, w)[..|leader|] == leader
    ensures loc.Compound? ==>
      |LocationBlockText(loc, strand, leader, w)| >= |leader| + 5 &&
      LocationBlockText(loc, strand, leader, w)[|leader|..|leader| + 5] == "join("
  {
    var locs := Ordered(loc, strand);
    var l := LocLayout(LocTexts(locs, strand == -1), |locs|, |leader| + |JoinPrefix(loc)|, |leader|, w);
    LocationBlockTextIs(loc, strand, leader, w, locs, strand == -1, l);
    BlockOutputStarts(leader, JoinPrefix(loc), l, loc.Compound?, w);
  }

  /** A block output whose prefix starts with the leader starts with the leader, then the rest of the prefix. */
  lemma BlockOutputStarts(leader: string, p: string, l: LayoutState, join: bool, w: int)
    ensures |BlockOutput(leader + p, l, join, leader, w)| >= |leader| + |p|
    ensures BlockOutput(leader + p, l, join, leader, w)[..|leader|] == leader
    ensures BlockOutput(leader + p, l, join, leader, w)[|leader|..|leader| + |p|] == p
  {
    var body := Render(ClosePieces(l, join, w), leader);
    assert BlockOutput(leader + p, l, join, leader, w) == leader + (p + body);
  }

  /** The text of a laid-out location block after its prefix, closed when it is a join. */
  function BlockOutput(prefix: string, l: LayoutState, join: bool, leader: string, w: int): string
  {
    prefix + Render(ClosePieces(l, join, w), leader)
  }

  /** formatLocationBlock: blocks sorted, reversed and complemented on strand -1, comma-separated, wrapped, joined. */
  method FormatLocationBlock(loc: Location, strand: int, leader: string, wrapWidth: int) returns (r: string)
    ensures r == LocationBlockText(loc, strand, leader, wrapWidth)
  {
    var position := |leader|;
    var join := false;
    var complement := false;
    var locs := SortBlocks(loc.Blocks());
    var sb := leader;
    if loc.Compound? {
      join := true;
      sb := sb + "join(";
      position := position + 5;
    }
    if strand == -1 {
      locs := Reverse(locs);
      complement := true;
    }
    assert locs == Ordered(loc, strand);
    ghost var texts := LocTexts(locs, complement);
    ghost var prefix := leader + JoinPrefix(loc);
    ghost var start := |leader| + |JoinPrefix(loc)|;
    assert sb == prefix && position == start by {
      if !loc.Compound? {
        assert leader + "" == leader;
      }
    }
    var diff;
    ghost var l;
    sb, position, diff, l := AppendLocations(locs, complement, leader, wrapWidth, sb, position, prefix);
    LocationBlockTextIs(loc, strand, leader, wrapWidth, locs, complement, l);
    if join {
      LocLayoutEnds(texts, |locs|, start, |leader|, wrapWidth);
      sb := CloseJoin(sb, position, diff, leader, wrapWidth, prefix, l);
    }
    r := sb;
  }

  /** The layout the method builds is the one LocationBlockText describes. */
  lemma LocationBlockTextIs(loc: Location, strand: int, leader: string, w: int,
                            locs: seq<Block>, complement: bool, l: LayoutState)
    requires locs == Ordered(loc, strand) && complement == (strand == -1)
    requires l == LocLayout(LocTexts(locs, complement), |locs|, |leader| + |JoinPrefix(loc)|, |leader|, w)
    ensures LocationBlockText(loc, strand, leader, w) == BlockOutput(leader + JoinPrefix(loc), l, loc.Compound?, leader, w)
  {
    var texts := LocTexts(Ordered(loc, strand), strand == -1);
    assert texts == LocTexts(locs, complement) && |texts| == |locs|;
  }

  /** The closing of a join: ")" is appended, and a line break inserted when it passes the wrap width. */
  method CloseJoin(sb0: string, position: int, diff: int, leader: string, wrapWidth: int,
                   ghost prefix: string, ghost l: LayoutState)
    returns (sb: string)
    requires l.pos == position && l.diff == diff && sb0 == prefix + Render(l.pieces, leader)
    requires DiffIsLastText(l)
    ensures sb == BlockOutput(prefix, l, true, leader, wrapWidth)
  {
    CloseText(prefix, l, leader, wrapWidth);
    sb := sb0 + ")";
    if position + 1 > wrapWidth {
      sb := sb[..|sb| - diff - 1] + ("\n" + leader) + sb[|sb| - diff - 1..];
    }
  }

  /** The block loop of formatLocationBlock. */
  method AppendLocations(locs: seq<Block>, complement: bool, leader: string, wrapWidth: int,
                         sb0: string, position0: int, ghost prefix: string)
    returns (sb: string, position: int, diff: int, ghost l: LayoutState)
    requires sb0 == prefix
    ensures l == LocLayout(LocTexts(locs, complement), |locs|, position0, |leader|, wrapWidth)
    ensures Shows(sb, position, diff, prefix, l, leader)
  {
    sb, position, diff, l := sb0, position0, 0, LayoutState([], position0, 0);
    assert sb == prefix + Render([], leader);
    ghost var done: seq<string> := [];
    var i := 0;
    while i < |locs|
      invariant i <= |locs| && |done| == i
      invariant done == TextsUpTo(locs, i, complement)
      invariant l == LocLayout(done, i, position0, |leader|, wrapWidth)
      invariant Shows(sb, position, diff, prefix, l, leader)
    {
      ghost var t;
      sb, position, diff, l, t := AppendLocation(locs, i, complement, leader, wrapWidth, sb, position, diff, prefix, l);
      LocLayoutSnoc(done, t, position0, |leader|, wrapWidth);
      done := done + [t];
      i := i + 1;
    }
    TextsUpToAll(locs, complement);
  }

  /** The texts of the first n blocks, one after another. */
  function TextsUpTo(bs: seq<Block>, n: nat, complement: bool): seq<string>
    requires n <= |bs|
  {
    if n == 0 then [] else TextsUpTo(bs, n - 1, complement) + [LocText(bs, n - 1, complement)]
  }

  lemma {:induction false} TextsUpToAt(bs: seq<Block>, n: nat, complement: bool, k: nat)
    requires k < n <= |bs|
    ensures |TextsUpTo(bs, n, complement)| == n && TextsUpTo(bs, n, complement)[k] == LocText(bs, k, complement)
  {
    var before, last := TextsUpTo(bs, n - 1, complement), LocText(bs, n - 1, complement);
    assert TextsUpTo(bs, n, complement) == before + [last];
    if n > 1 {
      TextsUpToAt(bs, n - 1, complement, if k < n - 1 then k else 0);
    }
  }

  lemma TextsUpToAll(bs: seq<Block>, complement: bool)
    ensures TextsUpTo(bs, |bs|, complement) == LocTexts(bs, complement)
  {
    var texts := LocTexts(bs, complement);
    if bs != [] {
      TextsUpToAt(bs, |bs|, complement, 0);
    }
    forall k | 0 <= k < |bs|
      ensures TextsUpTo(bs, |bs|, complement)[k] == texts[k]
    {
      TextsUpToAt(bs, |bs|, complement, k);
    }
  }

  /** Laying out one more text is one more step after laying out the texts before it. */
  lemma LocLayoutSnoc(texts: seq<string>, t: string, start: int, leaderLen: int, w: int)
    ensures LocLayout(texts + [t], |texts| + 1, start, leaderLen, w) ==
      LayoutStep(LocLayout(texts, |texts|, start, leaderLen, w), t, leaderLen, w)
  {
    LocLayoutPrefix(texts + [t], texts, |texts|, start, leaderLen, w);
  }

  /** The layout of the first n texts depends on nothing but those texts. */
  lemma {:induction false} LocLayoutPrefix(texts: seq<string>, texts': seq<string>, n: nat, start: int, leaderLen: int, w: int)
    requires n <= |texts| && n <= |texts'| && texts[..n] == texts'[..n]
    ensures LocLayout(texts, n, start, leaderLen, w) == LocLayout(texts', n, start, leaderLen, w)
  {
    if n > 0 {
      assert texts[..n - 1] == texts[..n][..n - 1] && texts'[..n - 1] == texts'[..n][..n - 1];
      assert texts[n - 1] == texts[..n][n - 1] && texts'[n - 1] == texts'[..n][n - 1];
      LocLayoutPrefix(texts, texts', n - 1, start, leaderLen, w);
    }
  }

  /** The output so far, the column and the last text's length are those of the layout `l`. */
  predicate Shows(sb: string, position: int, diff: int, prefix: string, l: LayoutState, leader: string)
  {
    position == l.pos && diff == l.diff && sb == prefix + Render(l.pieces, leader)
  }

  /**
   * One pass of the block loop of formatLocationBlock: the block's text is appended, and a
   * line break is inserted before it when it would pass the wrap width.
   */
  method AppendLocation(locs: seq<Block>, i: nat, complement: bool, leader: string, wrapWidth: int,
                        sb0: string, position0: int, ghost diff0: int, ghost prefix: string, ghost l0: LayoutState)
    returns (sb: string, position: int, diff: int, ghost l: LayoutState, ghost t: string)
    requires i < |locs| && Shows(sb0, position0, diff0, prefix, l0, leader)
    ensures t == LocText(locs, i, complement)
    ensures l == LayoutStep(l0, t, |leader|, wrapWidth)
    ensures Shows(sb, position, diff, prefix, l, leader)
  {
    t := LocText(locs, i, complement);
    sb, diff := AppendLocationText(locs, i, complement, sb0);
    l := LayoutStep(l0, t, |leader|, wrapWidth);
    AppendText(prefix, l0, t, leader, wrapWidth);
    if position0 + diff > wrapWidth {
      sb := sb[..|sb| - diff] + ("\n" + leader) + sb[|sb| - diff..];
      position := |leader| + diff;
    } else {
      position := position0 + diff;
    }
  }

  /**
   * The block's form, then a comma when indexOf finds the block before the last position;
   * diff is the number of characters added.
   */
  method AppendLocationText(locs: seq<Block>, i: nat, complement: bool, sb0: string) returns (sb: string, diff: int)
    requires i < |locs|
    ensures sb == sb0 + LocText(locs, i, complement) && diff == |LocText(locs, i, complement)|
  {
    var thisLoc := locs[i];
    sb := sb0;
    var pre := |sb|;
    sb := sb + Formatted(thisLoc, complement);
    if FirstIndex(locs, thisLoc) + 1 < |locs| {
      Assoc(sb0, Formatted(thisLoc, complement), ",");
      sb := sb + ",";
    } else {
      assert Formatted(thisLoc, complement) + "" == Formatted(thisLoc, complement);
    }
    var post := |sb|;
    diff := post - pre;
  }

  /** The output after one location text is the rendering of the layout after one step. */
  lemma AppendText(prefix: string, l0: LayoutState, t: string, leader: string, w: int)
    ensures var l := LayoutStep(l0, t, |leader|, w);
      var sb := prefix + Render(l0.pieces, leader) + t;
      l.diff == |t| && l.pos == (if l0.pos + |t| > w then |leader| + |t| else l0.pos + |t|) &&
      (if l0.pos + |t| > w then sb[..|sb| - |t|] + ("\n" + leader) + sb[|sb| - |t|..] else sb) == prefix + Render(l.pieces, leader)
  {
    if l0.pos + |t| > w {
      BreakBefore(prefix, l0.pieces, t, leader);
    } else {
      Extend(prefix, l0.pieces, [Text(t)], leader);
      RenderOne(Text(t), leader);
    }
  }

  /** StringBuffer.insert of a line break just before the last location text. */
  lemma BreakBefore(prefix: string, ps: seq<Piece>, t: string, leader: string)
    ensures var sb := prefix + Render(ps, leader) + t;
      sb[..|sb| - |t|] + ("\n" + leader) + sb[|sb| - |t|..] == prefix + Render(ps + [Break, Text(t)], leader)
  {
    var before := prefix + Render(ps, leader);
    InsertBefore(before, t, "\n" + leader);
    Extend(prefix, ps, [Break, Text(t)], leader);
    RenderTwo(Break, Text(t), leader);
    Assoc(before, "\n" + leader, t);
  }

  /** The closing ")" of a join, with the break (when one is needed) before the last location text. */
  lemma CloseText(prefix: string, l: LayoutState, leader: string, w: int)
    requires DiffIsLastText(l)
    ensures var sb := prefix + Render(l.pieces, leader) + ")";
      (if l.pos + 1 > w then sb[..|sb| - l.diff - 1] + ("\n" + leader) + sb[|sb| - l.diff - 1..] else sb) ==
      prefix + Render(ClosePieces(l, true, w), leader)
  {
    var nl := "\n" + leader;
    if l.pos + 1 <= w {
      Extend(prefix, l.pieces, [Text(")")], leader);
      RenderOne(Text(")"), leader);
    } else if l.pieces == [] {
      assert prefix + Render([], leader) == prefix;
      InsertBefore(prefix, ")", nl);
      Extend(prefix, [], [Break, Text(")")], leader);
      RenderTwo(Break, Text(")"), leader);
      assert [] + [Break, Text(")")] == [Break, Text(")")];
      Assoc(prefix, nl, ")");
    } else {
      var init := l.pieces[..|l.pieces| - 1];
      var t := l.pieces[|l.pieces| - 1].t;
      assert l.pieces == init + [Text(t)];
      var x := prefix + Render(init, leader);
      Extend(prefix, init, [Text(t)], leader);
      RenderOne(Text(t), leader);
      Assoc(x, t, ")");
      InsertBefore(x, t + ")", nl);
      Extend(prefix, init, [Break, Text(t), Text(")")], leader);
      RenderThree(Break, Text(t), Text(")"), leader);
      Assoc(x, nl + t, ")");
      Assoc(x, nl, t);
      Assoc(x + nl, t, ")");
    }
  }

  /** The closing as written: ")" is added and the break is inserted `diff` characters from the end. */
  function CloseJoinAsWritten(body: string, diff: nat, pos: int, leader: string, w: int): string
    requires diff <= |body|
  {
    var s := body + ")";
    if pos + 1 > w then s[..|s| - diff] + "\n" + leader + s[|s| - diff..] else s
  }

  /**
   * As written, the break that moves the last location of a join to the next line is
   * inserted one character too late: for join(1..2,3..4) with no leader and a wrap width
   * of 14 it splits "3..4" after its first character. The corrected closing puts the
   * whole of "3..4" on the new line.
   */
  lemma LocationCloseAsWritten()
    ensures var loc := Compound([RangeLoc(1, 2), RangeLoc(3, 4)]);
      LocationBlockText(loc, 1, "", 14) == "join(1..2,\n3..4)" &&
      CloseJoinAsWritten("join(1..2,3..4", 4, 14, "", 14) == "join(1..2,3\n..4)"
  {
    JoinExamplePieces();
    JoinExampleOutput();
    JoinExampleAsWritten();
  }

  /** The corrected closing of the example: the break goes before "3..4". */
  lemma JoinExamplePieces()
    ensures LocationBlockText(Compound([RangeLoc(1, 2), RangeLoc(3, 4)]), 1, "", 14) ==
      "" + "join(" + Render([Text("1..2,")] + [Break, Text("3..4"), Text(")")], "")
  {
    var loc := Compound([RangeLoc(1, 2), RangeLoc(3, 4)]);
    var texts := LocTexts(Ordered(loc, 1), false);
    JoinExampleTexts();
    JoinExampleLayout();
    JoinExampleClose();
  }

  lemma JoinExampleClose()
    ensures ClosePieces(LayoutState([Text("1..2,"), Text("3..4")], 14, 4), true, 14) ==
      [Text("1..2,")] + [Break, Text("3..4"), Text(")")]
  {
    var ps := [Text("1..2,"), Text("3..4")];
    assert ps[..|ps| - 1] == [Text("1..2,")];
  }

  lemma JoinExampleOutput()
    ensures "" + "join(" + Render([Text("1..2,")] + [Break, Text("3..4"), Text(")")], "") == "join(1..2,\n3..4)"
  {
    JoinExampleRender();
  }

  lemma JoinExampleAsWritten()
    ensures CloseJoinAsWritten("join(1..2,3..4", 4, 14, "", 14) == "join(1..2,3\n..4)"
  {
    var s := "join(1..2,3..4" + ")";
    assert s[..|s| - 4] == "join(1..2,3";
    assert s[|s| - 4..] == "..4)";
  }

  /** The example's blocks are already in order, and only the first is followed by a comma. */
  lemma JoinExampleTexts()
    ensures LocTexts(Ordered(Compound([RangeLoc(1, 2), RangeLoc(3, 4)]), 1), false) == ["1..2,", "3..4"]
  {
    var bs := [RangeLoc(1, 2), RangeLoc(3, 4)];
    JoinExampleOrder();
    JoinExampleForms();
    var ts := LocTexts(bs, false);
    assert ts[0] == "1..2," && ts[1] == "3..4" by {
      assert ts[0] == LocText(bs, 0, false) && ts[1] == LocText(bs, 1, false);
    }
  }

  lemma JoinExampleOrder()
    ensures Ordered(Compound([RangeLoc(1, 2), RangeLoc(3, 4)]), 1) == [RangeLoc(1, 2), RangeLoc(3, 4)]
  {
    var b1 := RangeLoc(1, 2);
    var b2 := RangeLoc(3, 4);
    assert SortBlocks([b2]) == [b2];
    assert [b1, b2][1..] == [b2];
  }

  lemma JoinExampleForms()
    ensures LocText([RangeLoc(1, 2), RangeLoc(3, 4)], 0, false) == "1..2,"
    ensures LocText([RangeLoc(1, 2), RangeLoc(3, 4)], 1, false) == "3..4"
  {
    var b1 := RangeLoc(1, 2);
    var b2 := RangeLoc(3, 4);
    var bs := [b1, b2];
    JoinExampleRanges();
    assert FirstIndex(bs, b1) == 0;
    assert FirstIndex(bs, b2) == 1 by {
      assert bs[1..] == [b2];
    }
  }

  lemma JoinExampleRanges()
    ensures FormatBlock(RangeLoc(1, 2)) == "1..2" && FormatBlock(RangeLoc(3, 4)) == "3..4"
  {
    assert NatToString(1) == "1" && NatToString(2) == "2" && NatToString(3) == "3" && NatToString(4) == "4";
  }

  /** "1..2," ends at column 10 and "3..4" at column 14, which still fits. */
  lemma JoinExampleLayout()
    ensures LocLayout(["1..2,", "3..4"], 2, 5, 0, 14) == LayoutState([Text("1..2,"), Text("3..4")], 14, 4)
  {
    var texts := ["1..2,", "3..4"];
    assert LocLayout(texts, 1, 5, 0, 14) == LayoutState([Text("1..2,")], 10, 5);
  }

  lemma JoinExampleRender()
    ensures Render([Text("1..2,")] + [Break, Text("3..4"), Text(")")], "") == "1..2,\n3..4)"
  {
    var ps := [Text("1..2,"), Break, Text("3..4")];
    assert [Text("1..2,")] + [Break, Text("3..4"), Text(")")] == ps + [Text(")")];
    RenderSnoc(ps, Text(")"), "");
    RenderPair([Text("1..2,")], Break, Text("3..4"), "");
    assert [Text("1..2,")] + [Break, Text("3..4")] == ps;
    RenderSnoc([], Text("1..2,"), "");
    assert [] + [Text("1..2,")] == [Text("1..2,")];
  }

  /** Without the breaks, a formatted location is the location texts one after another, closed by ")" for a join. */
  lemma LocationKeepsTexts(loc: Location, strand: int, w: int, leaderLen: int)
    ensures var texts := LocTexts(Ordered(loc, strand), strand == -1);
      var l := LocLayout(texts, |texts|, leaderLen + |JoinPrefix(loc)|, leaderLen, w);
      Words(ClosePieces(l, loc.Compound?, w)) == Concat(texts) + (if loc.Compound? then ")" else "")
  {
    var texts := LocTexts(Ordered(loc, strand), strand == -1);
    LayoutKeepsTexts(texts, leaderLen + |JoinPrefix(loc)|, leaderLen, w, loc.Compound?);
  }

  /** The same for any list of texts laid out from any column. */
  lemma LayoutKeepsTexts(texts: seq<string>, start: int, leaderLen: int, w: int, join: bool)
    ensures Words(ClosePieces(LocLayout(texts, |texts|, start, leaderLen, w), join, w)) ==
      Concat(texts) + (if join then ")" else "")
  {
    var l := LocLayout(texts, |texts|, start, leaderLen, w);
    assert texts[..|texts|] == texts;
    LocLayoutWords(texts, |texts|, start, leaderLen, w);
    CloseKeepsWords(l, join, w);
  }

  /**
   * Closing a join ends the pieces with ")". When ")" passes the wrap width exactly one break
   * is added, and it goes right before the last location text, so that the whole text moves
   * to the new line; the pieces before that text are kept. Otherwise the pieces are kept and
   * ")" follows them.
   */
  lemma CloseBreaksBeforeLastText(l: LayoutState, join: bool, w: int)
    ensures !join ==> ClosePieces(l, join, w) == l.pieces
    ensures join ==> var r := ClosePieces(l, join, w);
      |r| > 0 && r[|r| - 1] == Text(")") &&
      (|r| == |l.pieces| + 2 <==> l.pos + 1 > w) &&
      (l.pos + 1 > w && l.pieces != [] ==>
        r[..|l.pieces| - 1] == l.pieces[..|l.pieces| - 1] &&
        r[|r| - 3] == Break && r[|r| - 2] == l.pieces[|l.pieces| - 1]) &&
      (l.pos + 1 <= w ==> r[..|l.pieces|] == l.pieces)
  {
  }

  /** Closing a join adds ")" to the words and nothing else. */
  lemma CloseKeepsWords(l: LayoutState, join: bool, w: int)
    ensures Words(ClosePieces(l, join, w)) == Words(l.pieces) + (if join then ")" else "")
  {
    if join {
      if l.pos + 1 > w {
        if l.pieces == [] {
          RenderPair([], Break, Text(")"), "");
          assert [] + [Break, Text(")")] == [Break, Text(")")];
          assert Words([]) == [];
        } else {
          var init := l.pieces[..|l.pieces| - 1];
          var last := l.pieces[|l.pieces| - 1];
          assert l.pieces == init + [last];
          RenderSnoc(init, last, "");
          RenderPair(init, Break, last, "");
          RenderSnoc(init + [Break, last], Text(")"), "");
          assert init + [Break, last] + [Text(")")] == init + [Break, last, Text(")")];
        }
      } else {
        RenderSnoc(l.pieces, Text(")"), "");
      }
    } else {
      assert ClosePieces(l, join, w) == l.pieces;
    }
  }

  /** Comma-separated strings. */
  function CommaJoin(ss: seq<string>): string
  {
    if ss == [] then []
    else if |ss| == 1 then ss[0]
    else CommaJoin(ss[..|ss| - 1]) + "," + ss[|ss| - 1]
  }

  /** When no block repeats, the location texts are the block forms separated by single commas. */
  lemma LocationTextsAreCommaSeparated(bs: seq<Block>, complement: bool)
    requires forall i, j :: 0 <= i < j < |bs| ==> bs[i] != bs[j]
    ensures Concat(LocTexts(bs, complement)) == CommaJoin(seq(|bs|, i requires 0 <= i < |bs| => Formatted(bs[i], complement)))
  {
    var texts := LocTexts(bs, complement);
    var fs := seq(|bs|, i requires 0 <= i < |bs| => Formatted(bs[i], complement));
    forall i | 0 <= i < |bs|
      ensures texts[i] == fs[i] + (if i + 1 < |bs| then "," else "")
    {
      var k := FirstIndex(bs, bs[i]);
      assert bs[k] == bs[i];
    }
    CommaSeparatedPrefix(texts, fs, |bs|);
    assert texts[..|bs|] == texts;
    assert fs[..|bs|] == fs;
  }

  lemma {:induction false} CommaSeparatedPrefix(texts: seq<string>, fs: seq<string>, n: nat)
    requires |texts| == |fs| && n <= |fs|
    requires forall i :: 0 <= i < |fs| ==> texts[i] == fs[i] + (if i + 1 < |fs| then "," else "")
    ensures n < |fs| ==> Concat(texts[..n]) == CommaJoin(fs[..n]) + (if n > 0 then "," else "")
    ensures n == |fs| ==> Concat(texts[..n]) == CommaJoin(fs[..n])
  {
    if n > 0 {
      CommaSeparatedPrefix(texts, fs, n - 1);
      assert texts[..n][..n - 1] == texts[..n - 1];
      assert fs[..n][..n - 1] == fs[..n - 1];
      if n == 1 {
        assert fs[..1] == [fs[0]];
      }
    }
  }
}
