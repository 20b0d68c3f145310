/**
 * DNAToRNATranslator: a compound translator whose table sends every DNA compound to the
 * RNA compound written the same way, except thymine, which goes to uracil (T to U and
 * t to u). Compounds are modelled by their strings; a compound set is the list of its
 * compounds in iteration order, and looking a string up in a set that lacks it gives
 * None (Java's null).
 */
module DnaToRna {
  import opened Wrappers
  import opened JavaLang

  /** CompoundSet.getCompoundForString over a set given as its list of compound strings. */
  function Lookup(compounds: seq<string>, s: string): (r: Option<string>)
    ensures r.Some? <==> s in compounds
    ensures r.Some? ==> r.value == s
  {
    if s in compounds then Some(s) else None
  }

  /**
   * The DNA compound defaultMappings skips: one equal, ignoring case, to the set's "T".
   * With no "T" in the set the thymine is null, and no compound equals it.
   */
  predicate IsThymine(dna: seq<string>, s: string)
  {
    Lookup(dna, "T").Some? && EqualsIgnoreCase(s, Lookup(dna, "T").value)
  }

  /**
   * The table defaultMappings builds from the first `n` DNA compounds. A key is a
   * compound, or None for the null key that an absent "T" or "t" puts in the table.
   */
  function DefaultTable(dna: seq<string>, rna: seq<string>, n: nat): (m: map<Option<string>, Option<string>>)
    requires n <= |dna|
  {
    if n == 0 then map[]
    else if IsThymine(dna, dna[n - 1]) then DefaultTable(dna, rna, n - 1)
    else DefaultTable(dna, rna, n - 1)[Some(dna[n - 1]) := Lookup(rna, dna[n - 1])]
  }

  /** The default table holds exactly the DNA compounds that are not the thymine, each sent to itself. */
  lemma {:induction false} DefaultTableContents(dna: seq<string>, rna: seq<string>, n: nat, k: Option<string>)
    requires n <= |dna|
    ensures k in DefaultTable(dna, rna, n) <==> k.Some? && k.value in dna[..n] && !IsThymine(dna, k.value)
    ensures k in DefaultTable(dna, rna, n) ==> DefaultTable(dna, rna, n)[k] == Lookup(rna, k.value)
  {
    if n > 0 {
      DefaultTableContents(dna, rna, n - 1, k);
      assert dna[..n] == dna[..n - 1] + [dna[n - 1]];
    }
  }

  /** The table the constructor leaves: the default mappings, then T to U and t to u. */
  function Table(dna: seq<string>, rna: seq<string>): map<Option<string>, Option<string>>
  {
    DefaultTable(dna, rna, |dna|)
      [Lookup(dna, "T") := Lookup(rna, "U")]
      [Lookup(dna, "t") := Lookup(rna, "u")]
  }

  /**
   * A DNA set without "T" leaves uracil under the null key, unless it also lacks "t",
   * whose later put then overwrites the null key with "u"; "t" itself is then not skipped
   * by defaultMappings, but thyamineToUracil still sends it to "u".
   */
  lemma {:induction false} MissingThymineIsNullKey(dna: seq<string>, rna: seq<string>)
    requires "T" !in dna
    ensures None in Table(dna, rna)
    ensures Table(dna, rna)[None] == if "t" in dna then Lookup(rna, "U") else Lookup(rna, "u")
    ensures "t" in dna ==> Table(dna, rna)[Some("t")] == Lookup(rna, "u")
    ensures forall s :: s in dna && s != "t" ==> Some(s) in Table(dna, rna) && Table(dna, rna)[Some(s)] == Lookup(rna, s)
  {
    assert Lookup(dna, "T") == None;
    forall s | s in dna && s != "t"
      ensures Some(s) in Table(dna, rna) && Table(dna, rna)[Some(s)] == Lookup(rna, s)
    {
      DefaultTableContents(dna, rna, |dna|, Some(s));
      assert dna[..|dna|] == dna;
    }
  }

  class DNAToRNATranslator {
    const dna: seq<string>
    const rna: seq<string>
    /** The compound mapping (source compound to target compound, None for null, in both places). */
    const mapping: map<Option<string>, Option<string>>

    /**
     * The constructor: defaultMappings, one entry per DNA compound in iteration order,
     * skipping anything equal to "T" ignoring case, then thyamineToUracil. A "T" or "t"
     * missing from the DNA set is the null key.
     */
    constructor (dna: seq<string>, rna: seq<string>)
      ensures this.dna == dna && this.rna == rna
      ensures mapping == Table(dna, rna)
      ensures forall s :: s in dna && !EqualsIgnoreCase(s, "T") ==> Some(s) in mapping && mapping[Some(s)] == Lookup(rna, s)
      ensures mapping[Lookup(dna, "t")] == Lookup(rna, "u")
      ensures "t" in dna ==> mapping[Lookup(dna, "T")] == Lookup(rna, "U")
      ensures forall k :: k in mapping ==> k.None? || k.value in dna
      ensures None in mapping <==> "T" !in dna || "t" !in dna
    {
      this.dna := dna;
      this.rna := rna;
      var m: map<Option<string>, Option<string>> := map[];
      var i := 0;
      while i < |dna|
        invariant 0 <= i <= |dna|
        invariant m == DefaultTable(dna, rna, i)
      {
        if !IsThymine(dna, dna[i]) {
          m := m[Some(dna[i]) := Lookup(rna, dna[i])];
        }
        i := i + 1;
      }
      m := m[Lookup(dna, "T") := Lookup(rna, "U")];
      m := m[Lookup(dna, "t") := Lookup(rna, "u")];
      forall s | s in dna && !EqualsIgnoreCase(s, "T")
        ensures Some(s) in m && m[Some(s)] == Lookup(rna, s)
      {
        DefaultTableContents(dna, rna, |dna|, Some(s));
        assert dna[..|dna|] == dna;
        assert s != "T" && s != "t";
      }
      forall k | k in m
        ensures k.None? || k.value in dna
      {
        if k != Lookup(dna, "T") && k != Lookup(dna, "t") {
          DefaultTableContents(dna, rna, |dna|, k);
          assert dna[..|dna|] == dna;
        }
      }
      DefaultTableContents(dna, rna, |dna|, None);
      assert Lookup(dna, "T").None? <==> "T" !in dna;
      assert Lookup(dna, "t").None? <==> "t" !in dna;
      mapping := m;
    }

    /** postProcessCompoundLists: leaves the compound lists as they are. */
    method PostProcessCompoundLists(lists: seq<seq<Option<string>>>) returns (r: seq<seq<Option<string>>>)
      ensures r == lists
    {
      r := lists;
    }
  }

  /**
   * A transcription with the translator's table, compound by compound: the single list
   * the compound translator produces for a DNA sequence all of whose compounds it maps.
   */
  function Transcribe(t: map<Option<string>, Option<string>>, s: seq<string>): (r: seq<Option<string>>)
    requires forall i :: 0 <= i < |s| ==> Some(s[i]) in t
    ensures |r| == |s| && forall i :: 0 <= i < |s| ==> r[i] == t[Some(s[i])]
  {
    seq(|s|, i requires 0 <= i < |s| => t[Some(s[i])])
  }

  /**
   * Transcribing a DNA sequence replaces T by U and t by u and keeps every other
   * compound that the RNA set also has.
   */
  lemma TranscribeReplacesThymine(dna: seq<string>, rna: seq<string>, s: seq<string>)
    requires "T" in dna && "t" in dna && "U" in rna && "u" in rna
    requires forall i :: 0 <= i < |s| ==> s[i] in dna && s[i] in rna
    ensures forall i :: 0 <= i < |s| ==> Some(s[i]) in Table(dna, rna)
    ensures forall i :: 0 <= i < |s| ==>
      Transcribe(Table(dna, rna), s)[i] == Some(if s[i] == "T" then "U" else if s[i] == "t" then "u" else s[i])
  {
    forall i | 0 <= i < |s|
      ensures Some(s[i]) in Table(dna, rna)
      ensures Table(dna, rna)[Some(s[i])] == Some(if s[i] == "T" then "U" else if s[i] == "t" then "u" else s[i])
    {
      if s[i] != "T" && s[i] != "t" {
        DefaultTableContents(dna, rna, |dna|, Some(s[i]));
        assert dna[..|dna|] == dna;
      }
    }
  }
}
