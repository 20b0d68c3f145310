/**
 * LineSplitParser: a tag-value parser that splits each line of a flat file at a fixed
 * column into a tag and a value, recognises an end-of-record line, and decides whether
 * the line opens a new tag or continues the previous one.
 */
module LineSplit {
  import opened Wrappers
  import opened JavaLang

  /** A parsed line: the tag (None for Java's null), the value, and whether a new tag starts. */
  datatype TagValue = TagValue(tag: Option<string>, value: string, newTag: bool)

  /**
   * The end-of-record setting: none, the blank-line sentinel of TagValueParser (which is
   * recognised by identity and then matches an empty line), or a marker that a line
   * starts with.
   */
  datatype EndOfRecord = NoEndOfRecord | BlankLine | Marker(text: string)

  datatype ParseError = StringIndexOutOfBounds

  predicate StartsWith(s: string, prefix: string)
  {
    |prefix| <= |s| && s[..|prefix|] == prefix
  }

  /** Whether `line` ends the record under the setting `eor`. */
  predicate EndsRecord(eor: EndOfRecord, line: string)
  {
    match eor
    case NoEndOfRecord => false
    case BlankLine => line == ""
    case Marker(m) => StartsWith(line, m)
  }

  /** The raw tag and value: split at `offset` when the line is longer than that, else the whole line and "". */
  function Split(line: string, offset: int): (r: Result<(string, string), ParseError>)
    ensures r.Err? <==> offset < 0
    ensures r.Ok? ==> r.value.0 + r.value.1 == line
    ensures r.Ok? ==> |r.value.0| == (if |line| > offset then offset else |line|)
  {
    if offset < 0 then Err(StringIndexOutOfBounds)
    else if |line| > offset then Ok((line[..offset], line[offset..]))
    else Ok((line, ""))
  }

  class LineSplitParser {
    var endOfRecord: EndOfRecord
    var splitOffset: int
    var trimTag: bool
    var trimValue: bool
    var continueOnEmptyTag: bool
    var mergeSameTag: bool
    /** The tag of the last line that opened a new tag. */
    var tag: Option<string>

    /** The no-argument constructor: no end-of-record marker, offset 0, every switch off. */
    constructor ()
      ensures endOfRecord == NoEndOfRecord && splitOffset == 0 && tag == None
      ensures !trimTag && !trimValue && !continueOnEmptyTag && !mergeSameTag
    {
      endOfRecord := NoEndOfRecord;
      splitOffset := 0;
      trimTag := false;
      trimValue := false;
      continueOnEmptyTag := false;
      mergeSameTag := false;
      tag := None;
    }

    /** The tag and value a line yields under this parser's configuration. */
    function TagAndValue(line: string): (r: Result<(string, string), ParseError>)
      reads this
      ensures r.Ok? <==> splitOffset >= 0
      ensures r.Ok? && !trimTag && !trimValue ==> r.value.0 + r.value.1 == line
      ensures r.Ok? && trimTag ==> r.value.0 == Trim(Split(line, splitOffset).value.0)
      ensures r.Ok? && !trimValue ==> r.value.1 == (if |line| > splitOffset then line[splitOffset..] else "")
    {
      var s := Split(line, splitOffset);
      if s.Err? then Err(s.error)
      else Ok((if trimTag then Trim(s.value.0) else s.value.0,
               if trimValue then Trim(s.value.1) else s.value.1))
    }

    /**
     * parse: None at the end of a record; otherwise the tag and value, where an empty tag
     * continues the previous tag (continueOnEmptyTag), a repeat of the previous tag
     * continues it (mergeSameTag), and anything else becomes the remembered tag.
     */
    method Parse(line: string) returns (r: Result<Option<TagValue>, ParseError>)
      modifies this
      ensures endOfRecord == old(endOfRecord) && splitOffset == old(splitOffset)
      ensures trimTag == old(trimTag) && trimValue == old(trimValue)
      ensures continueOnEmptyTag == old(continueOnEmptyTag) && mergeSameTag == old(mergeSameTag)
      ensures EndsRecord(endOfRecord, line) ==> r == Ok(None) && tag == old(tag)
      ensures !EndsRecord(endOfRecord, line) && splitOffset < 0 ==> r == Err(StringIndexOutOfBounds) && tag == old(tag)
      ensures !EndsRecord(endOfRecord, line) && splitOffset >= 0 ==>
        var tv := TagAndValue(line).value;
        if continueOnEmptyTag && tv.0 == "" then
          r == Ok(Some(TagValue(old(tag), tv.1, false))) && tag == old(tag)
        else if mergeSameTag && old(tag) == Some(tv.0) then
          r == Ok(Some(TagValue(Some(tv.0), tv.1, false))) && tag == old(tag)
        else
          r == Ok(Some(TagValue(Some(tv.0), tv.1, true))) && tag == Some(tv.0)
    {
      if EndsRecord(endOfRecord, line) {
        return Ok(None);
      }
      var tv := TagAndValue(line);
      if tv.Err? {
        return Err(tv.error);
      }
      var (t, value) := tv.value;
      if continueOnEmptyTag && |t| == 0 {
        return Ok(Some(TagValue(tag, value, false)));
      } else if mergeSameTag && tag == Some(t) {
        return Ok(Some(TagValue(Some(t), value, false)));
      }
      tag := Some(t);
      return Ok(Some(TagValue(Some(t), value, true)));
    }
  }

  /** The EMBL preset: records end at "//", tags are the first five columns, runs of one tag merge. */
  method Embl() returns (p: LineSplitParser)
    ensures fresh(p) && p.tag == None
    ensures p.endOfRecord == Marker("//") && p.splitOffset == 5
    ensures p.trimTag && !p.trimValue && !p.continueOnEmptyTag && p.mergeSameTag
  {
    p := new LineSplitParser();
    p.endOfRecord := Marker("//");
    p.splitOffset := 5;
    p.trimTag := true;
    p.trimValue := false;
    p.continueOnEmptyTag := false;
    p.mergeSameTag := true;
  }

  /** The GENBANK preset: records end at "///", tags are the first twelve columns, empty tags continue. */
  method Genbank() returns (p: LineSplitParser)
    ensures fresh(p) && p.tag == None
    ensures p.endOfRecord == Marker("///") && p.splitOffset == 12
    ensures p.trimTag && !p.trimValue && p.continueOnEmptyTag && !p.mergeSameTag
  {
    p := new LineSplitParser();
    p.endOfRecord := Marker("///");
    p.splitOffset := 12;
    p.trimTag := true;
    p.trimValue := false;
    p.continueOnEmptyTag := true;
    p.mergeSameTag := false;
  }

  /** A GENBANK continuation line (twelve blanks before the text) continues the previous tag with its text. */
  lemma GenbankContinuation(text: string)
    ensures var line := "            " + text;
      Split(line, 12).Ok? &&
      Trim(Split(line, 12).value.0) == "" &&
      Split(line, 12).value.1 == (if |line| > 12 then text else "")
  {
    var line := "            " + text;
    if |line| > 12 {
      assert line[..12] == "            ";
      assert line[12..] == text;
    }
    TrimBlanks(Split(line, 12).value.0);
  }

  /** Trimming a run of blanks leaves nothing. */
  lemma {:induction false} TrimBlanks(s: string)
    requires forall i :: 0 <= i < |s| ==> s[i] == ' '
    ensures Trim(s) == ""
  {
    if s != [] {
      TrimBlanksLeft(s);
    }
  }

  lemma {:induction false} TrimBlanksLeft(s: string)
    requires forall i :: 0 <= i < |s| ==> s[i] == ' '
    ensures TrimLeft(s) == ""
  {
    if s != [] {
      TrimBlanksLeft(s[1..]);
    }
  }
}
