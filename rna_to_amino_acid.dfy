/**
 * RNAToAminoAcidTranslator: translates an RNA sequence codon by codon through a codon
 * table, optionally dropping stop compounds ("*") as they are produced, replacing the
 * first amino acid by methionine when one of its codons is a start codon, and removing
 * the last amino acid when one of its codons is a stop codon.
 *
 * Compounds are modelled by their strings (an amino acid's short name is its string).
 * The compound translator base class keeps a list of working lists; for a codon-by-codon
 * translation there is one working list once a compound has been added and none before.
 */
module RnaToAminoAcid {
  import opened Wrappers

  datatype Codon = Codon(nucleotides: seq<string>, aminoAcid: string, isStart: bool, isStop: bool)

  datatype TranslationError =
    | UnknownCodon(window: seq<string>)   // quickLookup gives null: NullPointerException

  /** quickLookup after the first `n` codons of the table: a later codon replaces an earlier one with the same nucleotides. */
  function QuickLookup(codons: seq<Codon>, n: nat): map<seq<string>, Codon>
    requires n <= |codons|
  {
    if n == 0 then map[] else QuickLookup(codons, n - 1)[codons[n - 1].nucleotides := codons[n - 1]]
  }

  /** aminoAcidToCodon.get(aa) after the first `n` codons: the codons for `aa`, in table order. */
  function CodonsFor(codons: seq<Codon>, n: nat, aa: string): (r: seq<Codon>)
    requires n <= |codons|
    ensures forall c :: c in r ==> c in codons[..n] && c.aminoAcid == aa
  {
    if n == 0 then []
    else
      var prev := CodonsFor(codons, n - 1, aa);
      assert codons[..n] == codons[..n - 1] + [codons[n - 1]];
      if codons[n - 1].aminoAcid == aa then prev + [codons[n - 1]] else prev
  }

  /** Every nucleotide list of the table is looked up, to the last codon of the table that has it. */
  lemma {:induction false} QuickLookupContents(codons: seq<Codon>, n: nat, key: seq<string>)
    requires n <= |codons|
    ensures key in QuickLookup(codons, n) <==> exists j :: 0 <= j < n && codons[j].nucleotides == key
    ensures key in QuickLookup(codons, n) ==>
      exists j :: 0 <= j < n && QuickLookup(codons, n)[key] == codons[j] && codons[j].nucleotides == key &&
        forall j' :: j < j' < n ==> codons[j'].nucleotides != key
  {
    if n > 0 {
      QuickLookupContents(codons, n - 1, key);
      if key in QuickLookup(codons, n - 1) && codons[n - 1].nucleotides != key {
        var j :| 0 <= j < n - 1 && QuickLookup(codons, n - 1)[key] == codons[j] && codons[j].nucleotides == key &&
          forall j' :: j < j' < n - 1 ==> codons[j'].nucleotides != key;
        assert QuickLookup(codons, n)[key] == codons[j];
      }
    }
  }

  /** Some codon of the list is a start codon (what the search loop of initMet finds). */
  predicate HasStart(cs: seq<Codon>) { exists c :: c in cs && c.isStart }

  /** Some codon of the list is a stop codon (what the search loop of trimStop finds). */
  predicate HasStop(cs: seq<Codon>) { exists c :: c in cs && c.isStop }

  /** The amino acids the translation loop adds for the first `k` codon windows of `rna`. */
  function Translated(lookup: map<seq<string>, Codon>, trimStops: bool, rna: seq<string>, k: nat): (r: Result<seq<string>, TranslationError>)
    requires 3 * k <= |rna|
    ensures r.Ok? && trimStops ==> "*" !in r.value
    ensures r.Ok? ==> |r.value| <= k
  {
    if k == 0 then Ok([])
    else
      var prev := Translated(lookup, trimStops, rna, k - 1);
      var w := rna[3 * (k - 1)..3 * k];
      if prev.Err? then prev
      else if w !in lookup then Err(UnknownCodon(w))
      else if trimStops && lookup[w].aminoAcid == "*" then prev
      else Ok(prev.value + [lookup[w].aminoAcid])
  }

  /** Without stop trimming every window contributes its amino acid, in order. */
  lemma {:induction false} TranslatedWindows(lookup: map<seq<string>, Codon>, rna: seq<string>, k: nat, i: nat)
    requires 3 * k <= |rna| && Translated(lookup, false, rna, k).Ok? && i < k
    ensures |Translated(lookup, false, rna, k).value| == k
    ensures rna[3 * i..3 * i + 3] in lookup
    ensures Translated(lookup, false, rna, k).value[i] == lookup[rna[3 * i..3 * i + 3]].aminoAcid
  {
    if i < k - 1 {
      TranslatedWindows(lookup, rna, k - 1, i);
    } else if k > 1 {
      TranslatedWindows(lookup, rna, k - 1, 0);
    }
  }

  class RNAToAminoAcidTranslator {
    const trimStops: bool
    const initMetOnly: bool
    const codons: seq<Codon>
    const quickLookup: map<seq<string>, Codon>
    const aminoAcidToCodon: map<string, seq<Codon>>

    /** The codons of an amino acid as the multimap gives them (an empty list for an absent key). */
    function CodonsOf(aa: string): seq<Codon>
      reads this
    {
      if aa in aminoAcidToCodon then aminoAcidToCodon[aa] else []
    }

    ghost predicate Valid()
      reads this
    {
      quickLookup == QuickLookup(codons, |codons|) &&
      forall aa :: CodonsOf(aa) == CodonsFor(codons, |codons|, aa)
    }

    /** The constructor: one pass over the table filling both lookups. */
    constructor (table: seq<Codon>, trimStops: bool, initMetOnly: bool)
      ensures Valid()
      ensures codons == table && this.trimStops == trimStops && this.initMetOnly == initMetOnly
    {
      this.trimStops := trimStops;
      this.initMetOnly := initMetOnly;
      codons := table;
      var q: map<seq<string>, Codon> := map[];
      var byAmino: map<string, seq<Codon>> := map[];
      var i := 0;
      while i < |table|
        invariant 0 <= i <= |table|
        invariant q == QuickLookup(table, i)
        invariant forall aa :: (if aa in byAmino then byAmino[aa] else []) == CodonsFor(table, i, aa)
      {
        var c := table[i];
        q := q[c.nucleotides := c];
        byAmino := byAmino[c.aminoAcid := (if c.aminoAcid in byAmino then byAmino[c.aminoAcid] else []) + [c]];
        i := i + 1;
      }
      quickLookup := q;
      aminoAcidToCodon := byAmino;
    }

    /**
     * createSequences followed by postProcessCompoundLists: translate each whole codon
     * window in order, then post-process the working list, if there is one.
     */
    method CreateSequences(rna: seq<string>) returns (r: Result<seq<seq<string>>, TranslationError>)
      requires Valid()
      ensures var t := Translated(quickLookup, trimStops, rna, |rna| / 3);
        (t.Err? ==> r == Err(t.error)) &&
        (t.Ok? && t.value == [] ==> r == Ok([])) &&
        (t.Ok? && t.value != [] ==> r == Ok([PostProcessed(t.value)]))
    {
      var working: seq<string> := [];
      var k := 0;
      while k < |rna| / 3
        invariant 0 <= k <= |rna| / 3
        invariant Translated(quickLookup, trimStops, rna, k) == Ok(working)
      {
        var w := rna[3 * k..3 * k + 3];
        if w !in quickLookup {
          assert Translated(quickLookup, trimStops, rna, k + 1) == Err(UnknownCodon(w));
          TranslationStops(rna, k + 1, |rna| / 3);
          return Err(UnknownCodon(w));
        }
        var aa := quickLookup[w].aminoAcid;
        if !(trimStops && aa == "*") {
          working := working + [aa];
        }
        k := k + 1;
      }
      if working == [] {
        return Ok([]);
      }
      var processed := PostProcess(working);
      return Ok([processed]);
    }

    /** Once a window fails, the translation of every longer prefix fails the same way. */
    lemma {:induction false} TranslationStops(rna: seq<string>, k: nat, k': nat)
      requires k <= k' && 3 * k' <= |rna|
      requires Translated(quickLookup, trimStops, rna, k).Err?
      ensures Translated(quickLookup, trimStops, rna, k') == Translated(quickLookup, trimStops, rna, k)
      decreases k' - k
    {
      if k < k' {
        TranslationStops(rna, k, k' - 1);
      }
    }

    /** What post-processing makes of a non-empty working list. */
    function PostProcessed(compounds: seq<string>): (r: seq<string>)
      requires compounds != []
      reads this
      ensures |r| == |compounds| || |r| == |compounds| - 1
      ensures trimStops && "*" !in compounds ==> "*" !in r
    {
      var afterMet := if initMetOnly && HasStart(CodonsOf(compounds[0])) then compounds[0 := "M"] else compounds;
      if trimStops && HasStop(CodonsOf(afterMet[|afterMet| - 1])) then afterMet[..|afterMet| - 1] else afterMet
    }

    /** postProcessCompoundLists for one list: initMet if requested, then trimStop if requested. */
    method PostProcess(compounds: seq<string>) returns (r: seq<string>)
      requires compounds != []
      ensures r == PostProcessed(compounds)
    {
      r := compounds;
      if initMetOnly {
        r := InitMet(r);
      }
      if trimStops {
        r := TrimStop(r);
      }
    }

    /** initMet: the first amino acid becomes M only when one of its codons is a start codon. */
    method InitMet(compounds: seq<string>) returns (r: seq<string>)
      requires compounds != []
      ensures HasStart(CodonsOf(compounds[0])) ==> r == compounds[0 := "M"]
      ensures !HasStart(CodonsOf(compounds[0])) ==> r == compounds
    {
      var cs := CodonsOf(compounds[0]);
      var isStart := false;
      var i := 0;
      while i < |cs|
        invariant 0 <= i <= |cs|
        invariant isStart <==> exists j :: 0 <= j < i && cs[j].isStart
      {
        if cs[i].isStart {
          isStart := true;
          break;
        }
        i := i + 1;
      }
      r := if isStart then compounds[0 := "M"] else compounds;
    }

    /** trimStop: the last amino acid is removed only when one of its codons is a stop codon. */
    method TrimStop(compounds: seq<string>) returns (r: seq<string>)
      requires compounds != []
      ensures HasStop(CodonsOf(compounds[|compounds| - 1])) ==> r == compounds[..|compounds| - 1]
      ensures !HasStop(CodonsOf(compounds[|compounds| - 1])) ==> r == compounds
    {
      var cs := CodonsOf(compounds[|compounds| - 1]);
      var isStop := false;
      var i := 0;
      while i < |cs|
        invariant 0 <= i <= |cs|
        invariant isStop <==> exists j :: 0 <= j < i && cs[j].isStop
      {
        if cs[i].isStop {
          isStop := true;
          break;
        }
        i := i + 1;
      }
      r := if isStop then compounds[..|compounds| - 1] else compounds;
    }
  }
}
