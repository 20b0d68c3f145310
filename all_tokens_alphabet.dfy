/**
 * AllTokensAlphabet: an alphabet that grows while text is parsed. Its token parser makes
 * one symbol per new character and its name parser one symbol per new name; every later
 * occurrence gets the symbol already made.
 *
 * A symbol is modelled by its token character and its name; symbols with the same token
 * and name are the same value here.
 */
module AllTokens {
  import opened Wrappers

  datatype Sym = Sym(token: char, name: string)

  datatype AlphabetError =
    | EmptyToken              // charAt(0) on an empty token
    | CannotRemove            // removeSymbol always refuses
    | NoSuchParser            // getParser with a name other than "name" or "token"

  datatype ParserKind = NameParser | TokenParser

  /** getParser: "name" and "token" are known; anything else raises NoSuchElementException. */
  function GetParser(name: string): (r: Result<ParserKind, AlphabetError>)
    ensures r.Ok? <==> name == "name" || name == "token"
    ensures name == "name" ==> r == Ok(NameParser)
    ensures name == "token" ==> r == Ok(TokenParser)
  {
    if name == "name" then Ok(NameParser)
    else if name == "token" then Ok(TokenParser)
    else Err(NoSuchParser)
  }

  /** The symbol the token parser makes for a character it has not seen: the character, named by itself. */
  function CharSym(c: char): (s: Sym)
    ensures s.token == c && s.name == [c]
  {
    Sym(c, [c])
  }

  /** The characters of text that the token map does not map yet: those parse() makes symbols for. */
  ghost function NewChars(tok: map<char, Sym>, text: string): (cs: set<char>)
    ensures forall c :: c in cs ==> c !in tok
  {
    set i | 0 <= i < |text| && text[i] !in tok :: text[i]
  }

  /** One more character: it is new exactly when neither the map nor the earlier text holds it. */
  lemma NewCharsStep(tok: map<char, Sym>, text: string, i: nat)
    requires i < |text|
    ensures NewChars(tok, text[..i + 1]) == NewChars(tok, text[..i]) + (if text[i] in tok then {} else {text[i]})
  {
    var before, after := NewChars(tok, text[..i]), NewChars(tok, text[..i + 1]);
    forall c | c in after
      ensures c in before || c == text[i]
    {
      var j :| 0 <= j < i + 1 && text[..i + 1][j] == c;
      if j < i {
        assert text[..i][j] == c;
      }
    }
    forall c | c in before
      ensures c in after
    {
      var j :| 0 <= j < i && text[..i][j] == c;
      assert text[..i + 1][j] == c;
    }
    if text[i] !in tok {
      assert text[..i + 1][i] == text[i];
    }
  }

  /** The new symbols for a set of new characters. */
  ghost function CharSyms(added: set<char>): (ss: set<Sym>)
    ensures forall c :: c in added ==> CharSym(c) in ss
  {
    set c | c in added :: CharSym(c)
  }

  /** The token-map entries for a set of new characters. */
  ghost function CharMap(added: set<char>): (m: map<char, Sym>)
    ensures m.Keys == added
  {
    map c | c in added :: CharSym(c)
  }

  /** The name-map entries for a set of new characters: each one-character name. */
  ghost function NameMap(added: set<char>): map<string, Sym>
  {
    map c | c in added :: [c] := CharSym(c)
  }

  /** Adding one character to the new ones adds its symbol. */
  lemma AddOneSym(added: set<char>, k: char)
    ensures CharSyms(added + {k}) == CharSyms(added) + {CharSym(k)}
  {
  }

  /** Adding one character to the new ones adds its token-map entry. */
  lemma AddOneToken(tok: map<char, Sym>, added: set<char>, k: char)
    ensures tok + CharMap(added + {k}) == (tok + CharMap(added))[k := CharSym(k)]
  {
  }

  /** Adding one character to the new ones adds its one-character name. */
  lemma AddOneName(names: map<string, Sym>, added: set<char>, k: char)
    ensures names + NameMap(added + {k}) == (names + NameMap(added))[[k] := CharSym(k)]
  {
    var n1 := names + NameMap(added + {k});
    var n2 := (names + NameMap(added))[[k] := CharSym(k)];
    forall s | s in n1.Keys
      ensures s in n2.Keys && n1[s] == n2[s]
    {
      if s in NameMap(added + {k}) && s != [k] {
        var c :| c in added + {k} && [c] == s;
        assert c in added;
        assert s in NameMap(added);
      }
    }
    forall s | s in n2.Keys
      ensures s in n1.Keys
    {
      if s in NameMap(added) {
        var c :| c in added && [c] == s;
        assert s in NameMap(added + {k});
      }
    }
    assert n1 == n2;
  }

  /** The state parse() leaves after text, from the symbols and maps it started with. */
  ghost predicate Learned(syms0: set<Sym>, tok0: map<char, Sym>, names0: map<string, Sym>, text: string,
                          syms: set<Sym>, tok: map<char, Sym>, names: map<string, Sym>)
  {
    var added := NewChars(tok0, text);
    syms == syms0 + CharSyms(added) && tok == tok0 + CharMap(added) && names == names0 + NameMap(added)
  }

  /** A character parseToken has already mapped leaves the state learned from the text so far as it is. */
  lemma LearnedSeen(syms0: set<Sym>, tok0: map<char, Sym>, names0: map<string, Sym>, text: string, i: nat,
                    syms: set<Sym>, tok: map<char, Sym>, names: map<string, Sym>)
    requires i < |text| && Learned(syms0, tok0, names0, text[..i], syms, tok, names) && text[i] in tok
    ensures Learned(syms0, tok0, names0, text[..i + 1], syms, tok, names)
  {
    var added := NewChars(tok0, text[..i]);
    NewCharsStep(tok0, text, i);
    if text[i] in tok0 {
      assert added + {} == added;
    } else {
      assert text[i] in CharMap(added).Keys;
      assert added + {text[i]} == added;
    }
    assert NewChars(tok0, text[..i + 1]) == added;
  }

  /** A character parseToken has not mapped yet adds its symbol and its two map entries. */
  lemma LearnedNew(syms0: set<Sym>, tok0: map<char, Sym>, names0: map<string, Sym>, text: string, i: nat,
                   syms: set<Sym>, tok: map<char, Sym>, names: map<string, Sym>)
    requires i < |text| && Learned(syms0, tok0, names0, text[..i], syms, tok, names) && text[i] !in tok
    ensures Learned(syms0, tok0, names0, text[..i + 1], syms + {CharSym(text[i])},
                    tok[text[i] := CharSym(text[i])], names[[text[i]] := CharSym(text[i])])
  {
    var added := NewChars(tok0, text[..i]);
    NewCharsStep(tok0, text, i);
    AddOneSym(added, text[i]);
    AddOneToken(tok0, added, text[i]);
    AddOneName(names0, added, text[i]);
  }

  /** The token parser's state (symbols, token map, name map) after parseToken has seen each
      character of text in turn: a character already mapped changes nothing, a new one adds
      its symbol under its token and its one-character name. */
  ghost function Learn(syms0: set<Sym>, tok0: map<char, Sym>, names0: map<string, Sym>, text: string):
    (set<Sym>, map<char, Sym>, map<string, Sym>)
    decreases |text|
  {
    if text == [] then (syms0, tok0, names0)
    else
      var st := Learn(syms0, tok0, names0, text[..|text| - 1]);
      var c := text[|text| - 1];
      if c in st.1 then st else (st.0 + {CharSym(c)}, st.1[c := CharSym(c)], st.2[[c] := CharSym(c)])
  }

  /** The state parse() learns is the closed form: the start plus one symbol and two entries per new character. */
  lemma {:induction false} LearnIsLearned(syms0: set<Sym>, tok0: map<char, Sym>, names0: map<string, Sym>, text: string)
    ensures var st := Learn(syms0, tok0, names0, text);
      Learned(syms0, tok0, names0, text, st.0, st.1, st.2)
    decreases |text|
  {
    if text == [] {
      assert NewChars(tok0, text) == {};
      assert CharMap({}) == map[] && NameMap({}) == map[];
      assert syms0 + CharSyms({}) == syms0;
    } else {
      var i := |text| - 1;
      assert text[..i + 1] == text;
      LearnIsLearned(syms0, tok0, names0, text[..i]);
      var st := Learn(syms0, tok0, names0, text[..i]);
      if text[i] in st.1 {
        LearnedSeen(syms0, tok0, names0, text, i, st.0, st.1, st.2);
      } else {
        LearnedNew(syms0, tok0, names0, text, i, st.0, st.1, st.2);
      }
    }
  }

  class AllTokensAlphabet {
    const name: string
    var symbols: set<Sym>
    var tokenToSymbol: map<char, Sym>
    var nameToSymbol: map<string, Sym>

    /** The maps hold only symbols of the alphabet, each under its own token or name. */
    ghost predicate Valid()
      reads this
    {
      (forall c {:trigger tokenToSymbol[c]} :: c in tokenToSymbol ==> tokenToSymbol[c] in symbols && tokenToSymbol[c].token == c) &&
      (forall n {:trigger nameToSymbol[n]} :: n in nameToSymbol ==> nameToSymbol[n] in symbols && nameToSymbol[n].name == n)
    }

    constructor (name: string)
      ensures Valid() && this.name == name
      ensures symbols == {} && tokenToSymbol == map[] && nameToSymbol == map[]
    {
      this.name := name;
      symbols := {};
      tokenToSymbol := map[];
      nameToSymbol := map[];
    }

    /** size(): the number of distinct symbols. */
    function Size(): (n: nat)
      reads this
      ensures n == |symbols|
      ensures n == 0 <==> symbols == {}
    {
      |symbols|
    }

    /** containsImpl: membership of the symbol set. */
    predicate ContainsImpl(s: Sym)
      reads this
    {
      s in symbols
    }

    /** removeSymbol always raises IllegalSymbolException. */
    function RemoveSymbol(s: Sym): (r: Result<(), AlphabetError>)
      ensures r == Err(CannotRemove)
    {
      Err(CannotRemove)
    }

    /**
     * addSymbolImpl: the symbol joins the set, its token is mapped only when unmapped (the
     * first symbol with a token keeps it), and its name is always remapped.
     */
    method AddSymbolImpl(s: Sym)
      requires Valid()
      modifies this
      ensures Valid()
      ensures symbols == old(symbols) + {s}
      ensures tokenToSymbol == if s.token in old(tokenToSymbol) then old(tokenToSymbol) else old(tokenToSymbol)[s.token := s]
      ensures nameToSymbol == old(nameToSymbol)[s.name := s]
    {
      symbols := symbols + {s};
      if s.token !in tokenToSymbol {
        tokenToSymbol := tokenToSymbol[s.token := s];
      }
      nameToSymbol := nameToSymbol[s.name := s];
    }

    /**
     * The token parser's parseToken: the symbol already mapped to the token's first
     * character, or a new symbol (that character, named by the whole token) added to the
     * alphabet.
     */
    method ParseToken(token: string) returns (r: Result<Sym, AlphabetError>)
      requires Valid()
      modifies this
      ensures Valid()
      ensures token == [] <==> r.Err?
      ensures token == [] ==> symbols == old(symbols) && tokenToSymbol == old(tokenToSymbol) && nameToSymbol == old(nameToSymbol)
      ensures token != [] && token[0] in old(tokenToSymbol) ==>
        r == Ok(old(tokenToSymbol)[token[0]]) && symbols == old(symbols) &&
        tokenToSymbol == old(tokenToSymbol) && nameToSymbol == old(nameToSymbol)
      ensures token != [] && token[0] !in old(tokenToSymbol) ==>
        r == Ok(Sym(token[0], token)) && symbols == old(symbols) + {Sym(token[0], token)} &&
        tokenToSymbol == old(tokenToSymbol)[token[0] := Sym(token[0], token)] &&
        nameToSymbol == old(nameToSymbol)[token := Sym(token[0], token)]
      ensures r.Ok? ==> r.value in symbols && token[0] in tokenToSymbol && tokenToSymbol[token[0]] == r.value
    {
      if token == [] {
        return Err(EmptyToken);
      }
      var c := token[0];
      if c in tokenToSymbol {
        return Ok(tokenToSymbol[c]);
      }
      var s := Sym(c, token);
      AddSymbolImpl(s);
      return Ok(s);
    }

    /**
     * The name parser's parseToken: the symbol already mapped to the name, or a new symbol
     * (the name's first character, named by the name) added to the alphabet.
     */
    method ParseName(token: string) returns (r: Result<Sym, AlphabetError>)
      requires Valid()
      modifies this
      ensures Valid()
      ensures token in old(nameToSymbol) ==>
        r == Ok(old(nameToSymbol)[token]) && symbols == old(symbols) &&
        tokenToSymbol == old(tokenToSymbol) && nameToSymbol == old(nameToSymbol)
      ensures token !in old(nameToSymbol) && token == [] ==>
        r == Err(EmptyToken) && symbols == old(symbols) &&
        tokenToSymbol == old(tokenToSymbol) && nameToSymbol == old(nameToSymbol)
      ensures token !in old(nameToSymbol) && token != [] ==>
        r == Ok(Sym(token[0], token)) && symbols == old(symbols) + {Sym(token[0], token)} &&
        tokenToSymbol == (if token[0] in old(tokenToSymbol) then old(tokenToSymbol)
                          else old(tokenToSymbol)[token[0] := Sym(token[0], token)]) &&
        nameToSymbol == old(nameToSymbol)[token := Sym(token[0], token)]
      ensures r.Ok? ==> r.value in symbols && r.value.name == token && token in nameToSymbol && nameToSymbol[token] == r.value
    {
      if token in nameToSymbol {
        return Ok(nameToSymbol[token]);
      }
      if token == [] {
        return Err(EmptyToken);
      }
      var s := Sym(token[0], token);
      AddSymbolImpl(s);
      return Ok(s);
    }

    /**
     * The token parser's parse: one symbol per character, in order. A character seen
     * before gets the same symbol every time, and the token map only ever grows.
     */
    method Parse(text: string) returns (syms: seq<Sym>)
      requires Valid()
      modifies this
      ensures Valid()
      ensures |syms| == |text|
      ensures forall i :: 0 <= i < |text| ==> syms[i].token == text[i] && syms[i] in symbols
      ensures forall i :: 0 <= i < |text| ==> text[i] in tokenToSymbol && syms[i] == tokenToSymbol[text[i]]
      ensures forall c :: c in old(tokenToSymbol) ==> c in tokenToSymbol && tokenToSymbol[c] == old(tokenToSymbol)[c]
      ensures var added := NewChars(old(tokenToSymbol), text);
        symbols == old(symbols) + CharSyms(added) &&
        tokenToSymbol == old(tokenToSymbol) + CharMap(added) &&
        nameToSymbol == old(nameToSymbol) + NameMap(added)
    {
      syms := [];
      var i := 0;
      while i < |text|
        invariant Valid()
        invariant 0 <= i <= |text| && |syms| == i
        invariant forall k :: 0 <= k < i ==> text[k] in tokenToSymbol && syms[k] == tokenToSymbol[text[k]]
        invariant (symbols, tokenToSymbol, nameToSymbol) == Learn(old(symbols), old(tokenToSymbol), old(nameToSymbol), text[..i])
      {
        ghost var tok0 := tokenToSymbol;
        var token := text[i..i + 1];
        assert token == [text[i]] && Sym(token[0], token) == CharSym(text[i]);
        assert text[..i + 1][..i] == text[..i];
        var r := ParseToken(token);
        assert forall c :: c in tok0 ==> c in tokenToSymbol && tokenToSymbol[c] == tok0[c];
        syms := syms + [r.value];
        i := i + 1;
      }
      assert text[..i] == text;
      LearnIsLearned(old(symbols), old(tokenToSymbol), old(nameToSymbol), text);
      assert Learned(old(symbols), old(tokenToSymbol), old(nameToSymbol), text, symbols, tokenToSymbol, nameToSymbol);
    }
  }
}
