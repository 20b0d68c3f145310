/**
 * EmblFileFormer: the EMBL writer's sequence section (the "XX" line and the SQ line with its
 * base counts, then lines of 60 symbols in blocks of 10 with the running count right-aligned
 * to column 80, then "//"), the accession line, and feature qualifiers. Every println on the
 * PrintStream is one entry of `printed`; the line separator is a parameter.
 *
 * formatTokenBlock and formatQualifierBlock are taken with the semantics of SeqFormatTools
 * (module SeqFormat); formatQualifier is a parameter.
 */
module EmblFormer {
  import opened Wrappers
  import opened JavaLang
  import SeqFormat
  import Locations

  const LINE_WIDTH: int := 80
  const LINE_SYMBOLS: int := 60
  const BLOCK_SIZE: int := 10
  /** The column the first block starts at. */
  const BLOCK_COLUMN: int := 5
  /** "FT" and 19 spaces. */
  const FEATURE_LEADER: string := "FT                   "

  datatype EmblError =
    | IndexOutOfBounds    // ArrayIndexOutOfBoundsException
    | NegativeArraySize   // NegativeArraySizeException
    | ClassCast           // ClassCastException: the accessions value is not a List

  /** EmblProcessor.PROPERTY_EMBL_ACCESSIONS, Feature.PROPERTY_DATA_KEY, or any other key. */
  datatype Key = EmblAccessions | FeatureData | Named(name: string)

  /** A property value: one object, or a Collection of them. */
  datatype Value = Single(item: string) | Many(items: seq<string>)

  // ---------------------------------------------------------------------------------
  // Base counts
  // ---------------------------------------------------------------------------------

  datatype BaseCounts = BaseCounts(a: nat, c: nat, g: nat, t: nat, other: nat)

  const NoBases := BaseCounts(0, 0, 0, 0, 0)

  /** One token counted: a/A, c/C, g/G, t/T, or other. */
  function Count(n: BaseCounts, ch: char): BaseCounts
  {
    if ch == 'a' || ch == 'A' then n.(a := n.a + 1)
    else if ch == 'c' || ch == 'C' then n.(c := n.c + 1)
    else if ch == 'g' || ch == 'G' then n.(g := n.g + 1)
    else if ch == 't' || ch == 'T' then n.(t := n.t + 1)
    else n.(other := n.other + 1)
  }

  /** The counts of the tokens, taken one after another. */
  function Tally(toks: seq<char>): BaseCounts
  {
    if toks == [] then NoBases else Count(Tally(toks[..|toks| - 1]), toks[|toks| - 1])
  }

  function Total(n: BaseCounts): nat
  {
    n.a + n.c + n.g + n.t + n.other
  }

  /**
   * Each count is the number of its letter in either case, and the five counts together are
   * the number of tokens.
   */
  lemma {:induction false} TallyCounts(toks: seq<char>)
    ensures Tally(toks).a == multiset(toks)['a'] + multiset(toks)['A']
    ensures Tally(toks).c == multiset(toks)['c'] + multiset(toks)['C']
    ensures Tally(toks).g == multiset(toks)['g'] + multiset(toks)['G']
    ensures Tally(toks).t == multiset(toks)['t'] + multiset(toks)['T']
    ensures Total(Tally(toks)) == |toks|
  {
    if toks != [] {
      var init, last := toks[..|toks| - 1], toks[|toks| - 1];
      TallyCounts(init);
      assert toks == init + [last];
      var n, ni := Tally(toks), Tally(init);
      assert n == Count(ni, last);
      MultisetSnoc(init, last, 'a'); MultisetSnoc(init, last, 'A');
      MultisetSnoc(init, last, 'c'); MultisetSnoc(init, last, 'C');
      MultisetSnoc(init, last, 'g'); MultisetSnoc(init, last, 'G');
      MultisetSnoc(init, last, 't'); MultisetSnoc(init, last, 'T');
    }
  }

  lemma MultisetSnoc(init: seq<char>, last: char, x: char)
    ensures multiset(init + [last])[x] == multiset(init)[x] + (if x == last then 1 else 0)
  {
    assert multiset(init + [last]) == multiset(init) + multiset{last};
  }

  /**
   * What the counting loop of addSymbols yields: it runs i from start to end = start +
   * length - 1 (in int arithmetic) and fails at the first index outside the array.
   */
  function Counted(syms: seq<char>, start: int, length: int): (r: Result<BaseCounts, EmblError>)
  {
    var end := ToInt(start + length - 1);
    if start <= end && (start < 0 || end >= |syms|) then Err(IndexOutOfBounds)
    else Ok(Tally(if start <= end then syms[start..end + 1] else []))
  }

  /** Over a range inside the array the counts are those of its symbols, and sum to length. */
  lemma CountedRange(syms: seq<char>, start: int, length: int)
    requires IsInt(start) && IsInt(length) && 0 <= start && 0 < length && start + length <= |syms| <= INT_MAX
    ensures Counted(syms, start, length) == Ok(Tally(syms[start..start + length]))
    ensures Total(Counted(syms, start, length).value) == length
  {
    var end := start + length - 1;
    assert IsInt(end) && ToInt(end) == end;
    var s := syms[start..start + length];
    assert syms[start..end + 1] == s;
    assert Counted(syms, start, length) == Ok(Tally(s));
    TallyCounts(s);
  }

  /** The counting loop of addSymbols. */
  method CountBases(syms: seq<char>, start: int, length: int) returns (r: Result<BaseCounts, EmblError>)
    requires IsInt(start) && IsInt(length)
    ensures r == Counted(syms, start, length)
  {
    var end := ToInt(start + length - 1);
    var n := NoBases;
    if start > end {
      return Ok(n);
    }
    var i := start;
    while i <= end
      invariant start <= i <= end + 1
      invariant i > start ==> 0 <= start && i <= |syms| && n == Tally(syms[start..i])
      invariant i == start ==> n == NoBases
    {
      if i < 0 || i >= |syms| {
        return Err(IndexOutOfBounds);
      }
      assert syms[start..i + 1][..i - start] == syms[start..i];
      n := Count(n, syms[i]);
      i := i + 1;
    }
    return Ok(n);
  }

  /** The sequence header: "XX", the line separator, and the SQ line with length and counts. */
  function Header(nl: string, length: int, n: BaseCounts): string
  {
    "XX" + nl + "SQ   Sequence " + IntToString(length) + " BP; " + IntToString(n.a) + " A; " +
    IntToString(n.c) + " C; " + IntToString(n.g) + " G; " + IntToString(n.t) + " T; " +
    IntToString(n.other) + " other;"
  }

  // ---------------------------------------------------------------------------------
  // Line lengths
  // ---------------------------------------------------------------------------------

  /**
   * The lineLens array: length / 60 full lines, one more when length % 60 > 0, every entry
   * 60 and then the last set to length % 60. As written the last entry is set even when
   * length % 60 is 0, and with no lines at all lineLens[-1] fails; the corrected form sets it
   * only when there is a part line.
   */
  function LineLens(length: int, asWritten: bool): (r: Result<seq<int>, EmblError>)
    ensures r.Ok? ==> forall i :: 0 <= i < |r.value| ==> 0 <= r.value[i] <= LINE_SYMBOLS && LINE_SYMBOLS * i + r.value[i] <= length
    ensures r.Ok? && r.value != [] ==> length > 0
  {
    var fullLine := Quot(length, LINE_SYMBOLS);
    var partLine := Rem(length, LINE_SYMBOLS);
    var lineCount := if partLine > 0 then fullLine + 1 else fullLine;
    if lineCount < 0 then Err(NegativeArraySize)
    else if asWritten && lineCount == 0 then Err(IndexOutOfBounds)
    else Ok(seq(lineCount, i => if i == lineCount - 1 && (asWritten || partLine > 0) then partLine else LINE_SYMBOLS))
  }

  /** new int[lineCount], Arrays.fill with 60, and the patch of the last entry. */
  method LineLengths(length: int, asWritten: bool) returns (r: Result<seq<int>, EmblError>)
    ensures r == LineLens(length, asWritten)
  {
    var fullLine := Quot(length, LINE_SYMBOLS);
    var partLine := Rem(length, LINE_SYMBOLS);
    var lineCount := fullLine;
    if partLine > 0 {
      lineCount := lineCount + 1;
    }
    if lineCount < 0 {
      return Err(NegativeArraySize);
    }
    var lineLens := new int[lineCount];
    for k := 0 to lineCount
      invariant forall j :: 0 <= j < k ==> lineLens[j] == LINE_SYMBOLS
    {
      lineLens[k] := LINE_SYMBOLS;
    }
    if asWritten || partLine > 0 {
      if lineCount == 0 {
        return Err(IndexOutOfBounds);
      }
      lineLens[lineCount - 1] := partLine;
    }
    assert lineLens[..] == seq(lineCount, i => if i == lineCount - 1 && (asWritten || partLine > 0) then partLine else LINE_SYMBOLS);
    return Ok(lineLens[..]);
  }

  /** Line i holds symbols 60 * i up to the smaller of 60 * (i + 1) and length. */
  predicate Covers(lens: seq<int>, length: int)
  {
    |lens| == (length + LINE_SYMBOLS - 1) / LINE_SYMBOLS &&
    forall i :: 0 <= i < |lens| ==>
      0 < lens[i] && lens[i] == (if LINE_SYMBOLS * (i + 1) <= length then LINE_SYMBOLS else length - LINE_SYMBOLS * i)
  }

  /**
   * Corrected: a sequence of any length 0 <= length gets (length + 59) / 60 lines, all of 60
   * symbols but a shorter last one, which together hold the length symbols once each.
   */
  lemma LinesCoverSymbols(length: int)
    requires 0 <= length
    ensures LineLens(length, false).Ok? && Covers(LineLens(length, false).value, length)
  {
    QuotRemNonNegative(length, LINE_SYMBOLS);
    var q, p := length / LINE_SYMBOLS, length % LINE_SYMBOLS;
    var lens := LineLens(length, false).value;
    if p > 0 {
      DivModUnique(length + LINE_SYMBOLS - 1, LINE_SYMBOLS, q + 1, p - 1);
    } else {
      DivModUnique(length + LINE_SYMBOLS - 1, LINE_SYMBOLS, q, LINE_SYMBOLS - 1);
    }
    forall i | 0 <= i < |lens|
      ensures 0 < lens[i] && lens[i] == (if LINE_SYMBOLS * (i + 1) <= length then LINE_SYMBOLS else length - LINE_SYMBOLS * i)
    {
    }
  }

  /**
   * As written: a length that is a multiple of 60 gets its last line emptied, so its last 60
   * symbols are never printed and the last count is length - 60.
   */
  lemma LastLineDropped(length: int)
    requires 0 < length && length % LINE_SYMBOLS == 0
    ensures LineLens(length, true).Ok?
    ensures var lens := LineLens(length, true).value;
      |lens| == length / LINE_SYMBOLS && lens[|lens| - 1] == 0 &&
      LINE_SYMBOLS * (|lens| - 1) + lens[|lens| - 1] == length - LINE_SYMBOLS
  {
    QuotRemNonNegative(length, LINE_SYMBOLS);
  }

  /** As written an empty sequence fails on lineLens[-1]; corrected it has no lines. */
  lemma EmptySequenceFails()
    ensures LineLens(0, true) == Err(IndexOutOfBounds)
    ensures LineLens(0, false) == Ok([])
  {
  }

  // ---------------------------------------------------------------------------------
  // Sequence lines
  // ---------------------------------------------------------------------------------

  function Spaces(n: nat): (r: string)
    ensures |r| == n
  {
    seq(n, _ => ' ')
  }

  /** base with s copied over it from index at, as System.arraycopy does. */
  function Overlay(base: string, at: nat, s: string): (r: string)
    requires at + |s| <= |base|
    ensures |r| == |base|
  {
    base[..at] + s + base[at + |s|..]
  }

  /**
   * A sequence line: 80 spaces, the blocks copied in from column 5, then the count copied in
   * over the last |count| columns.
   */
  function SeqLine(blocks: string, count: string): (line: string)
    requires BLOCK_COLUMN + |blocks| <= LINE_WIDTH && |count| <= LINE_WIDTH
    ensures |line| == LINE_WIDTH
  {
    Overlay(Overlay(Spaces(LINE_WIDTH), BLOCK_COLUMN, blocks), LINE_WIDTH - |count|, count)
  }

  /** Every line holds at most 60 symbols, and its running count is an int. */
  predicate LineLayout(lens: seq<int>)
  {
    forall i :: 0 <= i < |lens| ==> 0 <= lens[i] <= LINE_SYMBOLS && LINE_SYMBOLS * i + lens[i] <= INT_MAX
  }

  /** Where line i is copied from: start + i * 60, an int sum. */
  function LineFrom(start: int, i: int): int
  {
    ToInt(start + LINE_SYMBOLS * i)
  }

  /** The arraycopy of line i succeeds: its symbols lie inside the array. */
  predicate LineInArray(syms: seq<char>, start: int, lens: seq<int>, i: int)
    requires 0 <= i < |lens|
  {
    0 <= LineFrom(start, i) && LineFrom(start, i) + lens[i] <= |syms|
  }

  /** The first n lines are laid out and lie inside the array. */
  predicate LinesFit(syms: seq<char>, start: int, lens: seq<int>, n: int)
  {
    LineLayout(lens) && 0 <= n <= |lens| && forall i :: 0 <= i < n ==> LineInArray(syms, start, lens, i)
  }

  /** The symbols line i of the sequence section shows. */
  function LineChunk(syms: seq<char>, start: int, lens: seq<int>, i: int): seq<char>
    requires LineLayout(lens) && 0 <= i < |lens| && LineInArray(syms, start, lens, i)
  {
    syms[LineFrom(start, i) .. LineFrom(start, i) + lens[i]]
  }

  /** A sequence line: up to 60 symbols in blocks of 10, and the running count n. */
  function Line(chunk: seq<char>, n: int): string
    requires |chunk| <= LINE_SYMBOLS && 0 <= n <= INT_MAX
  {
    TokenBlockLength(chunk, |chunk|);
    CountFits(n);
    SeqLine(SeqFormat.TokenBlock(chunk, BLOCK_SIZE, |chunk|), IntToString(n))
  }

  /** Line i shows its symbols and the count of symbols up to the end of the line. */
  function LineAt(syms: seq<char>, start: int, lens: seq<int>, i: int): string
    requires LineLayout(lens) && 0 <= i < |lens| && LineInArray(syms, start, lens, i)
  {
    Line(LineChunk(syms, start, lens, i), LINE_SYMBOLS * i + lens[i])
  }

  /** The first n sequence lines. */
  function SeqLines(syms: seq<char>, start: int, lens: seq<int>, n: nat): seq<string>
    requires LinesFit(syms, start, lens, n)
  {
    if n == 0 then [] else SeqLines(syms, start, lens, n - 1) + [LineAt(syms, start, lens, n - 1)]
  }

  /** The symbols of the first n lines, one line after another. */
  function LineSymbols(syms: seq<char>, start: int, lens: seq<int>, n: nat): seq<char>
    requires LinesFit(syms, start, lens, n)
  {
    if n == 0 then [] else LineSymbols(syms, start, lens, n - 1) + LineChunk(syms, start, lens, n - 1)
  }

  /** A block of n tokens is n characters and a space after every tenth. */
  lemma TokenBlockLength(toks: seq<char>, n: nat)
    requires n <= |toks|
    ensures |SeqFormat.TokenBlock(toks, BLOCK_SIZE, n)| == n + n / BLOCK_SIZE
    ensures n <= LINE_SYMBOLS ==> |SeqFormat.TokenBlock(toks, BLOCK_SIZE, n)| <= 66
  {
    SeqFormat.TokenBlockLength(toks, BLOCK_SIZE, n);
  }

  function Pow10(k: nat): (p: nat)
    ensures p >= 1
  {
    if k == 0 then 1 else 10 * Pow10(k - 1)
  }

  /** A number below 10^k has at most k digits. */
  lemma {:induction false} DigitsAtMost(n: nat, k: nat)
    requires 1 <= k && n < Pow10(k)
    ensures |NatToString(n)| <= k
  {
    if n >= 10 {
      assert k >= 2;
      DigitsAtMost(n / 10, k - 1);
    }
  }

  lemma NineDigits(n: nat)
    requires n < 1000000000
    ensures |NatToString(n)| <= 9
  {
    assert Pow10(9) == 1000000000;
    DigitsAtMost(n, 9);
  }

  /** An int count is at most ten digits. */
  lemma CountFits(n: int)
    requires 0 <= n <= INT_MAX
    ensures |IntToString(n)| <= 10
  {
    assert Pow10(10) == 10000000000;
    DigitsAtMost(n, 10);
  }

  /**
   * The line buffer: 80 spaces, the blocks copied in from column 5, the count copied in at
   * the right end.
   */
  method FormatLine(blocks: string, count: string) returns (line: string)
    requires BLOCK_COLUMN + |blocks| <= LINE_WIDTH && |count| <= LINE_WIDTH
    ensures line == SeqLine(blocks, count)
  {
    var sq := new char[LINE_WIDTH](_ => ' ');
    forall k | 0 <= k < |blocks| {
      sq[BLOCK_COLUMN + k] := blocks[k];
    }
    ghost var withBlocks := Overlay(Spaces(LINE_WIDTH), BLOCK_COLUMN, blocks);
    assert sq[..] == withBlocks;
    var at := LINE_WIDTH - |count|;
    forall k | 0 <= k < |count| {
      sq[at + k] := count[k];
    }
    line := sq[..];
    assert line == Overlay(withBlocks, at, count);
  }

  /** The symbols in blocks of 10 and the running count, laid out on one line. */
  method FormatSeqLine(chunk: seq<char>, n: int) returns (line: string)
    requires |chunk| <= LINE_SYMBOLS && 0 <= n <= INT_MAX
    ensures line == Line(chunk, n)
  {
    var blocks := SeqFormat.FormatTokenBlock(chunk, BLOCK_SIZE);
    var count := IntToString(n);
    TokenBlockLength(chunk, |chunk|);
    CountFits(n);
    line := FormatLine(blocks.value, count);
  }

  /**
   * When blocks and count do not meet, the line is five spaces, the blocks, spaces up to the
   * count, and the count.
   */
  lemma LineReadsBack(blocks: string, count: string)
    requires BLOCK_COLUMN + |blocks| <= LINE_WIDTH - |count|
    ensures SeqLine(blocks, count) ==
      Spaces(BLOCK_COLUMN) + blocks + Spaces(LINE_WIDTH - |count| - BLOCK_COLUMN - |blocks|) + count
  {
  }

  /** The count always ends the line, whatever it overwrites. */
  lemma LineEndsWithCount(blocks: string, count: string)
    requires BLOCK_COLUMN + |blocks| <= LINE_WIDTH && |count| <= LINE_WIDTH
    ensures SeqLine(blocks, count)[LINE_WIDTH - |count|..] == count
  {
  }

  lemma {:induction false} WithoutSpacesOfSpaces(s: string)
    requires forall k :: 0 <= k < |s| ==> s[k] == ' '
    ensures SeqFormat.WithoutSpaces(s) == []
  {
    if s != [] {
      WithoutSpacesOfSpaces(s[..|s| - 1]);
    }
  }

  lemma PrefixOfAppend(x: string, y: string)
    ensures (x + y)[..|x|] == x
  {
  }

  /** A line made of padded blocks and the count splits back into the two. */
  lemma SplitLine(line: string, blocks: string, g: nat, count: string)
    requires line == Spaces(BLOCK_COLUMN) + blocks + Spaces(g) + count
    ensures var at := BLOCK_COLUMN + |blocks| + g;
      SeqFormat.WithoutSpaces(line[..at]) == SeqFormat.WithoutSpaces(blocks) && line[at..] == count
  {
    var left := Spaces(BLOCK_COLUMN) + blocks + Spaces(g);
    PrefixOfAppend(left, count);
    PaddedWithoutSpaces(blocks, g);
  }

  /** Spaces around the blocks vanish once the spaces are taken out. */
  lemma PaddedWithoutSpaces(blocks: string, g: nat)
    ensures SeqFormat.WithoutSpaces(Spaces(BLOCK_COLUMN) + blocks + Spaces(g)) == SeqFormat.WithoutSpaces(blocks)
  {
    var pre, gap := Spaces(BLOCK_COLUMN), Spaces(g);
    WithoutSpacesOfSpaces(pre);
    WithoutSpacesOfSpaces(gap);
    SeqFormat.WithoutSpacesAppend(pre + blocks, gap);
    SeqFormat.WithoutSpacesAppend(pre, blocks);
  }

  /**
   * A line of up to 60 symbols with a count below 10^9 gives back what it shows: its symbols,
   * once the spaces are taken out of everything left of the count, and its count, read as a
   * decimal number.
   */
  lemma LineRoundTrip(chunk: seq<char>, n: nat)
    requires |chunk| <= LINE_SYMBOLS && forall k :: 0 <= k < |chunk| ==> chunk[k] != ' '
    requires n < 1000000000
    ensures |NatToString(n)| <= 9
    ensures var line, count := Line(chunk, n), NatToString(n);
      SeqFormat.WithoutSpaces(line[..LINE_WIDTH - |count|]) == chunk &&
      line[LINE_WIDTH - |count|..] == count && DigitsValue(count) == n
  {
    var blocks, count := SeqFormat.TokenBlock(chunk, BLOCK_SIZE, |chunk|), NatToString(n);
    TokenBlockLength(chunk, |chunk|);
    NineDigits(n);
    assert Line(chunk, n) == SeqLine(blocks, count);
    var g := LINE_WIDTH - |count| - BLOCK_COLUMN - |blocks|;
    LineReadsBack(blocks, count);
    SplitLine(SeqLine(blocks, count), blocks, g, count);
    SeqFormat.TokenBlockKeepsTokens(chunk, BLOCK_SIZE, |chunk|);
    assert chunk[..|chunk|] == chunk;
    DigitsValueOfNatToString(n);
  }

  /** Over a range inside the array, every line of a covering layout can be copied. */
  lemma CoveredLinesFit(syms: seq<char>, start: int, length: int, lens: seq<int>)
    requires 0 <= start && 0 <= length && start + length <= |syms| <= INT_MAX && Covers(lens, length)
    ensures LinesFit(syms, start, lens, |lens|)
    ensures forall i :: 0 <= i < |lens| ==> LineFrom(start, i) == start + LINE_SYMBOLS * i
  {
    forall i | 0 <= i < |lens|
      ensures 0 <= lens[i] <= LINE_SYMBOLS && LINE_SYMBOLS * i + lens[i] <= length
      ensures LineFrom(start, i) == start + LINE_SYMBOLS * i && LineInArray(syms, start, lens, i)
    {
    }
  }

  /**
   * Corrected: over a range inside the array, the first n lines show the first 60 n symbols
   * of the range (or all of them), in order and each once.
   */
  lemma {:induction false} LinesShowSymbols(syms: seq<char>, start: int, length: int, lens: seq<int>, n: nat)
    requires 0 <= start && 0 <= length && start + length <= |syms| <= INT_MAX && Covers(lens, length) && n <= |lens|
    ensures LinesFit(syms, start, lens, |lens|)
    ensures LineSymbols(syms, start, lens, n) == syms[start..start + (if LINE_SYMBOLS * n <= length then LINE_SYMBOLS * n else length)]
  {
    CoveredLinesFit(syms, start, length, lens);
    if n > 0 {
      var m := n - 1;
      LinesShowSymbols(syms, start, length, lens, m);
      assert 0 < lens[m] && lens[m] == (if LINE_SYMBOLS * (m + 1) <= length then LINE_SYMBOLS else length - LINE_SYMBOLS * m);
      var mid, e := start + LINE_SYMBOLS * m, start + LINE_SYMBOLS * m + lens[m];
      assert LineSymbols(syms, start, lens, n) == syms[start..mid] + syms[mid..e];
      assert syms[start..e] == syms[start..mid] + syms[mid..e];
    }
  }

  /** Corrected: over a range inside the array, all the lines together show the whole range. */
  lemma AllSymbolsShown(syms: seq<char>, start: int, length: int)
    requires 0 <= start && 0 <= length && start + length <= |syms| <= INT_MAX
    ensures LineLens(length, false).Ok?
    ensures var lens := LineLens(length, false).value;
      LinesFit(syms, start, lens, |lens|) && LineSymbols(syms, start, lens, |lens|) == syms[start..start + length]
  {
    LinesCoverSymbols(length);
    var lens := LineLens(length, false).value;
    LinesShowSymbols(syms, start, length, lens, |lens|);
    QuotRemNonNegative(length, LINE_SYMBOLS);
  }

  // ---------------------------------------------------------------------------------
  // addSymbols
  // ---------------------------------------------------------------------------------

  /** The first of the first n lines whose arraycopy fails, or n when none does. */
  function FirstOutside(syms: seq<char>, start: int, lens: seq<int>, n: nat): (k: nat)
    requires n <= |lens|
    ensures k <= n
    ensures forall i :: 0 <= i < k ==> LineInArray(syms, start, lens, i)
    ensures k < n ==> !LineInArray(syms, start, lens, k)
  {
    if n == 0 then 0
    else
      var k := FirstOutside(syms, start, lens, n - 1);
      if k < n - 1 || !LineInArray(syms, start, lens, n - 1) then k else n
  }

  /** What addSymbols prints, and how it ends. */
  datatype Output = Output(lines: seq<string>, result: Result<(), EmblError>)

  /** After the header: the lines up to the first whose arraycopy fails, then "//". */
  function LinesOutput(syms: seq<char>, start: int, length: int, asWritten: bool): Output
    requires IsInt(length)
  {
    match LineLens(length, asWritten)
    case Err(e) => Output([], Err(e))
    case Ok(lens) =>
      var k := FirstOutside(syms, start, lens, |lens|);
      if k < |lens| then Output(SeqLines(syms, start, lens, k), Err(IndexOutOfBounds))
      else Output(SeqLines(syms, start, lens, |lens|) + ["//"], Ok(()))
  }

  /** LinesOutput once the line lengths and the first line that cannot be copied are known. */
  lemma LinesOutputIs(syms: seq<char>, start: int, length: int, asWritten: bool, lens: seq<int>, k: nat)
    requires IsInt(length) && LineLens(length, asWritten) == Ok(lens)
    requires k == FirstOutside(syms, start, lens, |lens|)
    ensures LineLayout(lens) && LinesFit(syms, start, lens, k)
    ensures LinesOutput(syms, start, length, asWritten) ==
      if k < |lens| then Output(SeqLines(syms, start, lens, k), Err(IndexOutOfBounds))
      else Output(SeqLines(syms, start, lens, |lens|) + ["//"], Ok(()))
  {
  }

  /** Over a range inside the array every line of LineLens can be copied. */
  lemma RangeLinesFit(syms: seq<char>, start: int, length: int, asWritten: bool)
    requires 0 <= start && 0 <= length && start + length <= |syms| <= INT_MAX
    requires LineLens(length, asWritten).Ok?
    ensures LinesFit(syms, start, LineLens(length, asWritten).value, |LineLens(length, asWritten).value|)
  {
    var lens := LineLens(length, asWritten).value;
    forall i | 0 <= i < |lens|
      ensures LineFrom(start, i) == start + LINE_SYMBOLS * i && LineInArray(syms, start, lens, i)
    {
    }
  }

  /** The symbols of the first n lines depend on nothing but those lines' lengths. */
  lemma {:induction false} LineSymbolsAgree(syms: seq<char>, start: int, lens: seq<int>, lens': seq<int>, n: nat)
    requires LinesFit(syms, start, lens, n) && LinesFit(syms, start, lens', n)
    requires forall i :: 0 <= i < n ==> lens[i] == lens'[i]
    ensures LineSymbols(syms, start, lens, n) == LineSymbols(syms, start, lens', n)
  {
    if n > 0 {
      LineSymbolsAgree(syms, start, lens, lens', n - 1);
    }
  }

  /**
   * Corrected: over a range inside the array addSymbols counts exactly the range's symbols,
   * prints every line and "//", and the lines show the whole range in order.
   */
  lemma SectionCorrected(syms: seq<char>, start: int, length: int)
    requires 0 <= start && 0 <= length && start + length <= |syms| <= INT_MAX
    ensures Counted(syms, start, length) == Ok(Tally(syms[start..start + length]))
    ensures Total(Counted(syms, start, length).value) == length
    ensures LineLens(length, false).Ok?
    ensures var lens := LineLens(length, false).value;
      LinesFit(syms, start, lens, |lens|) &&
      LinesOutput(syms, start, length, false) == Output(SeqLines(syms, start, lens, |lens|) + ["//"], Ok(())) &&
      LineSymbols(syms, start, lens, |lens|) == syms[start..start + length]
  {
    CountedInside(syms, start, length);
    AllSymbolsShown(syms, start, length);
    AllLinesPrinted(syms, start, length, false);
  }

  /** Over a range inside the array the counting loop counts the range's symbols. */
  lemma CountedInside(syms: seq<char>, start: int, length: int)
    requires 0 <= start && 0 <= length && start + length <= |syms| <= INT_MAX
    ensures Counted(syms, start, length) == Ok(Tally(syms[start..start + length]))
    ensures Total(Counted(syms, start, length).value) == length
  {
    if length > 0 {
      CountedRange(syms, start, length);
    } else {
      assert syms[start..start + length] == [];
    }
  }

  /** Over a range inside the array every line is printed, then "//". */
  lemma AllLinesPrinted(syms: seq<char>, start: int, length: int, asWritten: bool)
    requires 0 <= start && 0 <= length && start + length <= |syms| <= INT_MAX
    requires LineLens(length, asWritten).Ok?
    ensures var lens := LineLens(length, asWritten).value;
      LinesFit(syms, start, lens, |lens|) &&
      LinesOutput(syms, start, length, asWritten) == Output(SeqLines(syms, start, lens, |lens|) + ["//"], Ok(()))
  {
    RangeLinesFit(syms, start, length, asWritten);
    var lens := LineLens(length, asWritten).value;
    assert FirstOutside(syms, start, lens, |lens|) == |lens|;
  }

  /**
   * As written: when length is a positive multiple of 60, the last line takes 0 symbols, so
   * the last 60 symbols of the range are never printed, and the last count is length - 60.
   */
  lemma SectionDropsLastLine(syms: seq<char>, start: int, length: int)
    requires 0 <= start && 0 < length && start + length <= |syms| <= INT_MAX && length % LINE_SYMBOLS == 0
    ensures LineLens(length, true).Ok?
    ensures var lens := LineLens(length, true).value;
      LinesFit(syms, start, lens, |lens|) &&
      LinesOutput(syms, start, length, true) == Output(SeqLines(syms, start, lens, |lens|) + ["//"], Ok(())) &&
      LineSymbols(syms, start, lens, |lens|) == syms[start..start + length - LINE_SYMBOLS] &&
      LINE_SYMBOLS * (|lens| - 1) + lens[|lens| - 1] == length - LINE_SYMBOLS
  {
    LastLineDropped(length);
    AllLinesPrinted(syms, start, length, true);
    DroppedLineSymbols(syms, start, length);
  }

  /** As written, with length a positive multiple of 60, the lines show all but the last 60 symbols. */
  lemma DroppedLineSymbols(syms: seq<char>, start: int, length: int)
    requires 0 <= start && 0 < length && start + length <= |syms| <= INT_MAX && length % LINE_SYMBOLS == 0
    ensures LineLens(length, true).Ok?
    ensures var lens := LineLens(length, true).value;
      LinesFit(syms, start, lens, |lens|) &&
      LineSymbols(syms, start, lens, |lens|) == syms[start..start + length - LINE_SYMBOLS]
  {
    LastLineDropped(length);
    LinesCoverSymbols(length);
    RangeLinesFit(syms, start, length, true);
    var lens, fixed := LineLens(length, true).value, LineLens(length, false).value;
    var n := |lens| - 1;
    QuotRemNonNegative(length, LINE_SYMBOLS);
    assert |fixed| == |lens|;
    LinesShowSymbols(syms, start, length, fixed, n);
    LineSymbolsAgree(syms, start, lens, fixed, n);
    assert LineChunk(syms, start, lens, n) == [];
  }

  // ---------------------------------------------------------------------------------
  // Accessions and qualifiers
  // ---------------------------------------------------------------------------------

  /** The accession line after "AC   ": each accession followed by ";". */
  function AccessionsText(accs: seq<string>): string
  {
    if accs == [] then [] else AccessionsText(accs[..|accs| - 1]) + accs[|accs| - 1] + ";"
  }

  /** The index of the first ';' in s, or |s| when there is none. */
  function FirstSemicolon(s: string): (i: nat)
    ensures i <= |s| && (i < |s| ==> s[i] == ';')
    ensures forall k :: 0 <= k < i ==> s[k] != ';'
  {
    if s == [] || s[0] == ';' then 0 else 1 + FirstSemicolon(s[1..])
  }

  /** Reads an accession list back: the pieces between the ';' terminators. */
  function ReadAccessions(s: string): seq<string>
    decreases |s|
  {
    if s == [] then []
    else
      var i := FirstSemicolon(s);
      if i == |s| then [s] else [s[..i]] + ReadAccessions(s[i + 1..])
  }

  /** The accession text starts with the first accession and its ';'. */
  lemma {:induction false} AccessionsTextCons(accs: seq<string>)
    requires accs != []
    ensures AccessionsText(accs) == accs[0] + ";" + AccessionsText(accs[1..])
  {
    if |accs| > 1 {
      var init := accs[..|accs| - 1];
      AccessionsTextCons(init);
      assert init[1..] == accs[1..][..|accs[1..]| - 1];
      assert init[0] == accs[0];
    }
  }

  /** When no accession holds a ';', the AC line reads back as the accessions, in order. */
  lemma {:induction false} AccessionsRoundTrip(accs: seq<string>)
    requires forall k :: 0 <= k < |accs| ==> ';' !in accs[k]
    ensures ReadAccessions(AccessionsText(accs)) == accs
    decreases |accs|
  {
    if accs != [] {
      AccessionsTextCons(accs);
      ReadAccessionsCons(accs[0], AccessionsText(accs[1..]));
      AccessionsRoundTrip(accs[1..]);
      assert [accs[0]] + accs[1..] == accs;
    }
  }

  /** An accession without ';' and its terminator are read back as that accession, then the rest is read. */
  lemma ReadAccessionsCons(a: string, rest: string)
    requires ';' !in a
    ensures ReadAccessions(a + ";" + rest) == [a] + ReadAccessions(rest)
  {
    var s := a + ";" + rest;
    assert s[|a|] == ';';
    forall k | 0 <= k < |a| ensures s[k] != ';' {
      assert s[k] == a[k];
    }
    FirstSemicolonIs(s, |a|);
    assert s[..|a|] == a && s[|a| + 1..] == rest;
  }

  /** A ';' at i with none before it is the first one. */
  lemma {:induction false} FirstSemicolonIs(s: string, i: nat)
    requires i < |s| && s[i] == ';' && forall k :: 0 <= k < i ==> s[k] != ';'
    ensures FirstSemicolon(s) == i
  {
    if i > 0 {
      FirstSemicolonIs(s[1..], i - 1);
    }
  }

  /** The text formatQualifierBlock gives a qualifier, wrapped at 80 columns under the FT leader. */
  function QualifierLines(text: string): string
  {
    FEATURE_LEADER + SeqFormat.Render(SeqFormat.QualLayout(SeqFormat.Tokens(text), |SeqFormat.Tokens(text)|, |FEATURE_LEADER|, LINE_WIDTH, false).pieces, FEATURE_LEADER)
  }

  /** What addFeatureProperty prints: nothing for the data key, else one block per value. */
  function FeatureLines(key: Key, value: Value, format: string -> string): seq<string>
  {
    if key == FeatureData then []
    else match value
      case Single(v) => [QualifierLines(format(v))]
      case Many(vs) => QualifierBlocks(vs, format)
  }

  /** One qualifier block per value, in order. */
  function QualifierBlocks(vs: seq<string>, format: string -> string): (r: seq<string>)
    ensures |r| == |vs|
  {
    if vs == [] then [] else QualifierBlocks(vs[..|vs| - 1], format) + [QualifierLines(format(vs[|vs| - 1]))]
  }

  lemma QualifierBlocksSnoc(vs: seq<string>, format: string -> string, k: nat)
    requires k < |vs|
    ensures QualifierBlocks(vs[..k + 1], format) == QualifierBlocks(vs[..k], format) + [QualifierLines(format(vs[k]))]
  {
    assert vs[..k + 1][..k] == vs[..k];
  }

  /** Printing the block of value k after the blocks of the values before it prints the blocks up to k. */
  lemma QualifierBlocksStep(start: seq<string>, before: seq<string>, after: seq<string>,
                            vs: seq<string>, format: string -> string, k: nat)
    requires k < |vs|
    requires before == start + QualifierBlocks(vs[..k], format)
    requires after == before + [QualifierLines(format(vs[k]))]
    ensures after == start + QualifierBlocks(vs[..k + 1], format)
  {
    QualifierBlocksSnoc(vs, format, k);
  }

  /** Block k is the qualifier block of value k. */
  lemma {:induction false} QualifierBlockAt(vs: seq<string>, format: string -> string, k: nat)
    requires k < |vs|
    ensures QualifierBlocks(vs, format)[k] == QualifierLines(format(vs[k]))
  {
    if k < |vs| - 1 {
      QualifierBlockAt(vs[..|vs| - 1], format, k);
    }
  }

  /**
   * A qualifier block written under the FT leader keeps every token of its text, whole and
   * in order: taking out the leader, spaces and line breaks leaves the squeezed text.
   */
  lemma QualifierLinesKeepText(text: string)
    ensures var l := SeqFormat.QualLayout(SeqFormat.Tokens(text), |SeqFormat.Tokens(text)|, |FEATURE_LEADER|, LINE_WIDTH, false);
      QualifierLines(text) == FEATURE_LEADER + SeqFormat.Render(l.pieces, FEATURE_LEADER) &&
      SeqFormat.Words(l.pieces) == SeqFormat.Squeeze(text)
  {
    SeqFormat.QualifierKeepsText(text, |FEATURE_LEADER|, LINE_WIDTH);
  }

  /** The location block of a feature: formatLocationBlock under the FT leader, wrapped at 80 columns. */
  function LocationLines(loc: Locations.Location, strand: int): string
  {
    SeqFormat.LocationBlockText(loc, strand, FEATURE_LEADER, LINE_WIDTH)
  }

  /**
   * The feature line startFeature prints: the feature type copied over the location block
   * from column 5 by StringBuffer.replace, whose end is cut back to the end of the text.
   */
  function FeatureLine(featureType: string, block: string): string
    requires BLOCK_COLUMN <= |block|
  {
    var end := if BLOCK_COLUMN + |featureType| <= |block| then BLOCK_COLUMN + |featureType| else |block|;
    block[..BLOCK_COLUMN] + featureType + block[end..]
  }

  /** The feature type over a text that starts with the FT leader. */
  lemma FeatureLineOverLeader(featureType: string, block: string)
    requires |block| >= |FEATURE_LEADER| && block[..|FEATURE_LEADER|] == FEATURE_LEADER
    ensures FeatureLine(featureType, block)[..BLOCK_COLUMN + |featureType|] == "FT   " + featureType
    ensures |featureType| <= 16 ==>
      FeatureLine(featureType, block) == "FT   " + featureType + Spaces(16 - |featureType|) + block[|FEATURE_LEADER|..]
  {
    assert block[..BLOCK_COLUMN] == "FT   " by {
      assert block[..BLOCK_COLUMN] == block[..|FEATURE_LEADER|][..BLOCK_COLUMN];
    }
    if |featureType| <= 16 {
      var rest := block[|FEATURE_LEADER|..];
      assert block == FEATURE_LEADER + rest;
      assert block[BLOCK_COLUMN + |featureType|..] == Spaces(16 - |featureType|) + rest;
    }
  }

  /**
   * A feature line starts with "FT", three spaces and the feature type. A type of at most 16
   * characters stays inside the leader: spaces pad it to column 21, after which the location
   * text follows untouched.
   */
  lemma FeatureLineLayout(featureType: string, loc: Locations.Location, strand: int)
    ensures var block := LocationLines(loc, strand);
      |block| >= |FEATURE_LEADER| &&
      FeatureLine(featureType, block)[..BLOCK_COLUMN + |featureType|] == "FT   " + featureType &&
      (|featureType| <= 16 ==>
        FeatureLine(featureType, block) ==
          "FT   " + featureType + Spaces(16 - |featureType|) + block[|FEATURE_LEADER|..])
  {
    SeqFormat.LocationBlockStartsWithLeader(loc, strand, FEATURE_LEADER, LINE_WIDTH);
    FeatureLineOverLeader(featureType, LocationLines(loc, strand));
  }

  class EmblFileFormer {
    /** The lines printed on the stream so far. */
    var printed: seq<string>

    constructor()
      ensures printed == []
    {
      printed := [];
    }

    /** One sequence line: copy its symbols, format them in blocks, add the running count. */
    method PrintLine(syms: seq<char>, start: int, lens: seq<int>, i: int) returns (ok: bool)
      requires LineLayout(lens) && 0 <= i < |lens|
      modifies this
      ensures ok == LineInArray(syms, start, lens, i)
      ensures printed == old(printed) + (if ok then [LineAt(syms, start, lens, i)] else [])
    {
      var len := lens[i];
      var from := ToInt(start + i * LINE_SYMBOLS);
      if from < 0 || from + len > |syms| {
        return false;
      }
      var sa := syms[from..from + len];
      assert sa == LineChunk(syms, start, lens, i);
      var line := FormatSeqLine(sa, i * LINE_SYMBOLS + len);
      printed := printed + [line];
      return true;
    }

    /** The line loop: prints lines until one cannot be copied, and returns its index. */
    method PrintLines(syms: seq<char>, start: int, lens: seq<int>) returns (k: nat)
      requires LineLayout(lens)
      modifies this
      ensures k == FirstOutside(syms, start, lens, |lens|)
      ensures printed == old(printed) + SeqLines(syms, start, lens, k)
    {
      for i := 0 to |lens|
        invariant FirstOutside(syms, start, lens, i) == i
        invariant printed == old(printed) + SeqLines(syms, start, lens, i)
      {
        var ok := PrintLine(syms, start, lens, i);
        if !ok {
          return i;
        }
      }
      return |lens|;
    }

    /** The sequence lines and "//", after the header. */
    method PrintSequence(syms: seq<char>, start: int, length: int, asWritten: bool) returns (r: Result<(), EmblError>)
      requires IsInt(length)
      modifies this
      ensures printed == old(printed) + LinesOutput(syms, start, length, asWritten).lines
      ensures r == LinesOutput(syms, start, length, asWritten).result
    {
      var lineLens := LineLengths(length, asWritten);
      if lineLens.Err? {
        return Err(lineLens.error);
      }
      var lens := lineLens.value;
      var k := PrintLines(syms, start, lens);
      LinesOutputIs(syms, start, length, asWritten, lens, k);
      if k < |lens| {
        return Err(IndexOutOfBounds);
      }
      printed := printed + ["//"];
      return Ok(());
    }

    /**
     * addSymbols: nothing is printed when counting the bases runs off the array; otherwise the
     * header, then the sequence lines up to the first whose arraycopy fails, then "//".
     */
    method AddSymbols(syms: seq<char>, start: int, length: int, nl: string, asWritten: bool) returns (r: Result<(), EmblError>)
      requires IsInt(start) && IsInt(length)
      modifies this
      ensures Counted(syms, start, length).Err? ==> r == Err(Counted(syms, start, length).error) && printed == old(printed)
      ensures Counted(syms, start, length).Ok? ==>
        printed == old(printed) + [Header(nl, length, Counted(syms, start, length).value)] + LinesOutput(syms, start, length, asWritten).lines &&
        r == LinesOutput(syms, start, length, asWritten).result
    {
      var counts := CountBases(syms, start, length);
      if counts.Err? {
        return Err(counts.error);
      }
      printed := printed + [Header(nl, length, counts.value)];
      r := PrintSequence(syms, start, length, asWritten);
    }

    /**
     * addSequenceProperty: the accessions key prints "AC   " and every accession followed by
     * ";"; its value must be a List. Every other key prints nothing.
     */
    method AddSequenceProperty(key: Key, value: Value) returns (r: Result<(), EmblError>)
      modifies this
      ensures key != EmblAccessions ==> r == Ok(()) && printed == old(printed)
      ensures key == EmblAccessions && value.Single? ==> r == Err(ClassCast) && printed == old(printed)
      ensures key == EmblAccessions && value.Many? ==>
        r == Ok(()) && printed == old(printed) + ["AC   " + AccessionsText(value.items)]
    {
      if key != EmblAccessions {
        return Ok(());
      }
      if value.Single? {
        return Err(ClassCast);
      }
      var accs := value.items;
      var ub := "AC   ";
      for k := 0 to |accs|
        invariant ub == "AC   " + AccessionsText(accs[..k])
      {
        assert accs[..k + 1][..k] == accs[..k];
        ub := ub + accs[k] + ";";
      }
      assert accs[..|accs|] == accs;
      printed := printed + [ub];
      return Ok(());
    }

    /**
     * addFeatureProperty: the internal data key prints nothing; a Collection value prints one
     * qualifier block per element, in order; any other value one block.
     */
    method AddFeatureProperty(key: Key, value: Value, format: string -> string)
      modifies this
      ensures printed == old(printed) + FeatureLines(key, value, format)
    {
      if key == FeatureData {
        return;
      }
      if value.Many? {
        PrintQualifiers(value.items, format);
      } else {
        PrintQualifier(format(value.item));
      }
    }

    /**
     * startFeature: the location block under the FT leader, with the feature type copied
     * over it from column 5. A template without a strand is written with strand 0.
     */
    method StartFeature(featureType: string, loc: Locations.Location, strand: Option<int>)
      modifies this
      ensures printed == old(printed) + [FeatureLine(featureType, LocationLines(loc, if strand.Some? then strand.value else 0))]
    {
      var s := if strand.Some? then strand.value else 0;
      var lb := SeqFormat.FormatLocationBlock(loc, s, FEATURE_LEADER, LINE_WIDTH);
      FeatureLineLayout(featureType, loc, s);
      var end := if BLOCK_COLUMN + |featureType| <= |lb| then BLOCK_COLUMN + |featureType| else |lb|;
      lb := lb[..BLOCK_COLUMN] + featureType + lb[end..];
      printed := printed + [lb];
    }

    /** The loop over a Collection value: one qualifier block per element. */
    method PrintQualifiers(vs: seq<string>, format: string -> string)
      modifies this
      ensures printed == old(printed) + QualifierBlocks(vs, format)
    {
      for k := 0 to |vs|
        invariant printed == old(printed) + QualifierBlocks(vs[..k], format)
      {
        var before := printed;
        PrintQualifier(format(vs[k]));
        QualifierBlocksStep(old(printed), before, printed, vs, format, k);
      }
      assert vs[..|vs|] == vs;
    }

    /** One formatted qualifier block, printed. */
    method PrintQualifier(text: string)
      modifies this
      ensures printed == old(printed) + [QualifierLines(text)]
    {
      var fb := SeqFormat.FormatQualifierBlock(text, FEATURE_LEADER, LINE_WIDTH);
      printed := printed + [fb];
    }
  }
}
