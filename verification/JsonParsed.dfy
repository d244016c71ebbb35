/**
 The parser of JsonParser is sound: every text it accepts is a JSON tree, printed. Together with JsonPrinted
 it accepts exactly the JSON-texts of section 2 of RFC 8259, so what the structural scan
 (src/apex/adapters/http_resilience.py:194-242) says of printed trees it says of every text that parses.
 */
module JsonParsed {
  import opened JsonWire
  import opened JsonParser
  import opened JsonPrinted

  /** The piece of a text between two positions. */
  function Piece(text: string, pos: nat, end: nat): (s: string)
    requires pos <= end <= |text|
    ensures |s| == end - pos
  {
    text[pos..end]
  }

  lemma PieceStands(text: string, pos: nat, end: nat)
    requires pos <= end <= |text|
    ensures Stands(text, pos, Piece(text, pos, end))
    ensures forall i :: 0 <= i < end - pos ==> Piece(text, pos, end)[i] == text[pos + i]
  {
  }

  lemma {:induction false} SpaceSound(text: string, pos: nat)
    requires pos <= |text|
    ensures forall i :: pos <= i < SkipSpace(text, pos) ==> IsSpace(text[i])
    decreases |text| - pos
  {
    if pos < |text| && IsSpace(text[pos]) { SpaceSound(text, pos + 1); }
  }

  /** What SkipSpace skips is white space. */
  lemma SkippedSpace(text: string, pos: nat) returns (space: string)
    requires pos <= |text|
    ensures IsWhiteSpace(space) && Stands(text, pos, space) && SkipSpace(text, pos) == pos + |space|
  {
    SpaceSound(text, pos);
    space := Piece(text, pos, SkipSpace(text, pos));
    PieceStands(text, pos, SkipSpace(text, pos));
  }

  // ---- Strings ------------------------------------------------------------------------------

  /** The character a string goes on with, when it neither ends nor is broken. */
  lemma CharSound(text: string, pos: nat) returns (c: StringChar)
    requires pos <= |text| && StringEnd(text, pos) != -1 && text[pos] != '"'
    ensures WellFormedChar(c) && Stands(text, pos, PrintChar(c)) && |PrintChar(c)| >= 1
    ensures StringEnd(text, pos) == StringEnd(text, pos + |PrintChar(c)|)
  {
    if text[pos] != '\\' {
      c := Plain(text[pos]);
    } else if IsSimpleEscape(text[pos + 1]) {
      c := Escape(text[pos + 1]);
    } else {
      c := Unicode(text[pos + 2], text[pos + 3], text[pos + 4], text[pos + 5]);
    }
    var end := pos + |PrintChar(c)|;
    PieceStands(text, pos, end);
    assert Piece(text, pos, end) == PrintChar(c);
  }

  lemma BodyGrows(c: StringChar, body: seq<StringChar>)
    requires WellFormedChar(c) && WellFormedBody(body)
    ensures WellFormedBody([c] + body) && PrintBody([c] + body) == PrintChar(c) + PrintBody(body)
  {
    PrintBodyFront([c] + body);
    assert ([c] + body)[1..] == body;
  }

  lemma {:induction false} StringSound(text: string, pos: nat) returns (body: seq<StringChar>)
    requires pos <= |text| && StringEnd(text, pos) != -1
    ensures WellFormedBody(body) && Stands(text, pos, PrintBody(body))
    ensures CharAt(text, pos + |PrintBody(body)|, '"') && StringEnd(text, pos) == pos + |PrintBody(body)| + 1
    decreases |text| - pos
  {
    hide Stands, WellFormedBody, PrintBody, WellFormedChar, PrintChar;
    if text[pos] == '"' {
      body := [];
      NoBody(text, pos);
    } else {
      var c := CharSound(text, pos);
      First(text, pos, PrintChar(c));
      var others := StringSound(text, pos + |PrintChar(c)|);
      BodyGrows(c, others);
      Whole(text, pos, PrintChar(c), PrintBody(others));
      body := [c] + others;
    }
  }

  lemma NoBody(text: string, pos: nat)
    requires pos <= |text|
    ensures WellFormedBody([]) && |PrintBody([])| == 0 && Stands(text, pos, PrintBody([]))
  {
  }

  /** A quoted string the parser has read. */
  lemma TextSound(text: string, pos: nat) returns (body: seq<StringChar>)
    requires CharAt(text, pos, '"') && StringEnd(text, pos + 1) != -1
    ensures WellFormedBody(body) && Stands(text, pos, PrintText(body))
            && StringEnd(text, pos + 1) == pos + |PrintText(body)|
  {
    hide Stands, StringEnd, WellFormedBody, PrintBody;
    body := StringSound(text, pos + 1);
    OneChar(text, pos, '"');
    OneChar(text, pos + 1 + |PrintBody(body)|, '"');
    Whole(text, pos, ['"'], PrintBody(body));
    Whole(text, pos, ['"'] + PrintBody(body), ['"']);
  }

  lemma OneChar(text: string, pos: nat, c: char)
    requires CharAt(text, pos, c)
    ensures Stands(text, pos, [c])
  {
  }

  // ---- Numbers and literals -----------------------------------------------------------------

  /** `s` is the piece of `text` at `pos`, whatever follows it. */
  ghost predicate CutFrom(text: string, pos: nat, s: string) {
    pos + |s| <= |text| && forall j :: 0 <= j < |s| ==> s[j] == text[pos + j]
  }

  lemma {:induction false} DigitsEndCut(text: string, pos: nat, s: string, i: nat)
    requires CutFrom(text, pos, s) && i <= |s| && DigitsEnd(text, pos + i) <= pos + |s|
    ensures pos + DigitsEnd(s, i) == DigitsEnd(text, pos + i)
    decreases |s| - i
  {
    if i < |s| && IsDigit(s[i]) { DigitsEndCut(text, pos, s, i + 1); }
  }

  lemma IntegerEndCut(text: string, pos: nat, s: string)
    requires CutFrom(text, pos, s) && IntegerEnd(text, pos) != -1 && IntegerEnd(text, pos) <= pos + |s|
    ensures pos + IntegerEnd(s, 0) == IntegerEnd(text, pos) && IntegerEnd(s, 0) != -1
  {
    hide IsScalarChar;
    var first := if CharAt(text, pos, '-') then 1 else 0;
    if text[pos + first] != '0' { DigitsEndCut(text, pos, s, first + 1); }
  }

  lemma FractionEndCut(text: string, pos: nat, s: string, i: nat)
    requires CutFrom(text, pos, s) && i <= |s| && FractionEnd(text, pos + i) <= pos + |s|
    ensures pos + FractionEnd(s, i) == FractionEnd(text, pos + i)
  {
    hide IsScalarChar;
    if CharAt(text, pos + i, '.') && pos + i + 1 < |text| && IsDigit(text[pos + i + 1]) {
      assert DigitsEnd(text, pos + i + 1) > pos + i + 1;
      DigitsEndCut(text, pos, s, i + 1);
    }
  }

  lemma ExponentEndCut(text: string, pos: nat, s: string, i: nat)
    requires CutFrom(text, pos, s) && i <= |s| && ExponentEnd(text, pos + i) == pos + |s|
    ensures ExponentEnd(s, i) == |s|
  {
    hide IsScalarChar;
    if i < |s| {
      var at := pos + i;
      var digits := if CharAt(text, at + 1, '+') || CharAt(text, at + 1, '-') then i + 2 else i + 1;
      assert DigitsEnd(text, pos + digits) > pos + digits;
      DigitsEndCut(text, pos, s, digits);
    }
  }

  lemma NumberEndCut(text: string, pos: nat, s: string)
    requires CutFrom(text, pos, s) && NumberEnd(text, pos) == pos + |s|
    ensures NumberEnd(s, 0) == |s|
  {
    hide CutFrom, IsScalarChar, IntegerEnd, FractionEnd, ExponentEnd;
    IntegerEndCut(text, pos, s);
    FractionEndCut(text, pos, s, IntegerEnd(s, 0));
    ExponentEndCut(text, pos, s, FractionEnd(s, IntegerEnd(s, 0)));
  }

  /** A number, true, false or null the parser has read. */
  lemma ScalarSound(text: string, pos: nat) returns (s: string)
    requires pos <= |text| && ScalarEnd(text, pos) != -1
    ensures IsRfcScalar(s) && IsScalarText(s) && Stands(text, pos, s) && ScalarEnd(text, pos) == pos + |s|
  {
    hide NumberEnd, IsScalarChar;
    var end := ScalarEnd(text, pos);
    s := Piece(text, pos, end);
    PieceStands(text, pos, end);
    LiteralPiece(text, pos, "true");
    LiteralPiece(text, pos, "false");
    LiteralPiece(text, pos, "null");
    if !("true" <= text[pos..]) && !("false" <= text[pos..]) && !("null" <= text[pos..]) {
      NumberEndCut(text, pos, s);
    }
  }

  lemma LiteralPiece(text: string, pos: nat, literal: string)
    requires pos <= |text|
    ensures literal <= text[pos..] ==> pos + |literal| <= |text| && Piece(text, pos, pos + |literal|) == literal
  {
    if literal <= text[pos..] { assert text[pos..][..|literal|] == text[pos..pos + |literal|]; }
  }

  // ---- Names, values and entries ------------------------------------------------------------

  lemma NameSound(text: string, pos: nat, built: nat, peak: nat) returns (name: Name)
    requires pos <= |text| && ParseName(text, pos, built, peak).ok
    ensures name.Named? && WellFormedBody(name.body) && IsWhiteSpace(name.beforeColon) && IsWhiteSpace(name.afterColon)
    ensures Stands(text, pos, PrintName(name)) && ParseName(text, pos, built, peak).pos == pos + |PrintName(name)|
  {
    hide Stands, StringEnd, SkipSpace, PrintText, WellFormedBody, IsWhiteSpace;
    var body := TextSound(text, pos);
    var end := pos + |PrintText(body)|;
    var beforeColon := SkippedSpace(text, end);
    var colon := end + |beforeColon|;
    OneChar(text, colon, ':');
    var afterColon := SkippedSpace(text, colon + 1);
    name := Named(body, beforeColon, afterColon);
    Whole(text, colon, [':'], afterColon);
    Whole(text, end, beforeColon, [':'] + afterColon);
    Whole(text, pos, PrintText(body), beforeColon + ([':'] + afterColon));
  }

  /** A value the parser has read is a printed tree. */
  lemma {:induction false} ValueSound(text: string, pos: nat, open: nat, built: nat, peak: nat) returns (v: Value)
    requires pos <= |text| && ParseValue(text, pos, open, built, peak).ok
    ensures WellFormed(v) && RfcScalars(v) && Stands(text, pos, Print(v))
    ensures ParseValue(text, pos, open, built, peak).pos == pos + |Print(v)|
    decreases |text| - pos, 0
  {
    hide Stands, StringEnd, SkipSpace, ScalarEnd, PrintText, PrintEntries, WellFormedBody, WellFormedEntries,
         RfcEntries, IsRfcScalar, IsScalarText, ParseEntries, Print;
    if text[pos] == '"' {
      var body := TextSound(text, pos);
      v := Text(body);
      assert Print(v) == PrintText(body) by { PrintLeaf(v); }
    } else if IsOpening(text[pos]) {
      var isObject := text[pos] == '{';
      var close := if isObject then '}' else ']';
      var inside := SkipSpace(text, pos + 1);
      var es: Entries;
      if CharAt(text, inside, close) {
        var space := SkippedSpace(text, pos + 1);
        es := Blank(space);
        BlankEntries(space, isObject);
      } else {
        es := EntriesSound(text, pos + 1, open + 1, built + 1, if open + 1 > peak then open + 1 else peak, close);
      }
      v := Container(isObject, es);
      ContainerJoin(text, pos, isObject, es);
    } else {
      var s := ScalarSound(text, pos);
      v := Scalar(s);
      assert Print(v) == s by { PrintLeaf(v); }
    }
  }

  lemma PrintLeaf(v: Value)
    ensures v.Text? ==> Print(v) == PrintText(v.body)
    ensures v.Scalar? ==> Print(v) == v.text
  {
  }

  lemma ContainerJoin(text: string, pos: nat, isObject: bool, es: Entries)
    requires CharAt(text, pos, if isObject then '{' else '[') && Stands(text, pos + 1, PrintEntries(es))
    requires CharAt(text, pos + 1 + |PrintEntries(es)|, if isObject then '}' else ']')
    ensures Stands(text, pos, Print(Container(isObject, es)))
            && |Print(Container(isObject, es))| == |PrintEntries(es)| + 2
  {
    hide Stands, PrintEntries;
    var bracket, close := if isObject then '{' else '[', if isObject then '}' else ']';
    OneChar(text, pos, bracket);
    OneChar(text, pos + 1 + |PrintEntries(es)|, close);
    Whole(text, pos, [bracket], PrintEntries(es));
    Whole(text, pos, [bracket] + PrintEntries(es), [close]);
  }

  lemma BlankEntries(space: string, isObject: bool)
    requires IsWhiteSpace(space)
    ensures WellFormedEntries(Blank(space), isObject) && RfcEntries(Blank(space)) && PrintEntries(Blank(space)) == space
  {
  }

  lemma OnlyEntry(e: Entry)
    ensures PrintEntries(Last(e)) == PrintEntry(e)
  {
  }

  lemma EntriesJoin(text: string, pos: nat, e: Entry, others: Entries)
    requires Stands(text, pos, PrintEntry(e)) && CharAt(text, pos + |PrintEntry(e)|, ',')
    requires Stands(text, pos + |PrintEntry(e)| + 1, PrintEntries(others))
    ensures Stands(text, pos, PrintEntries(More(e, others)))
    ensures |PrintEntries(More(e, others))| == |PrintEntry(e)| + 1 + |PrintEntries(others)|
  {
    hide Stands, PrintEntry;
    var comma := pos + |PrintEntry(e)|;
    OneChar(text, comma, ',');
    Whole(text, comma, [','], PrintEntries(others));
    Whole(text, pos, PrintEntry(e), [','] + PrintEntries(others));
  }

  /** Entries the parser has read, from just behind the opening bracket or a comma. */
  lemma {:induction false} EntriesSound(text: string, from: nat, open: nat, built: nat, peak: nat, close: char)
    returns (es: Entries)
    requires from <= |text| && (close == ']' || close == '}')
    requires ParseEntries(text, SkipSpace(text, from), open, built, peak, close).ok
    ensures !es.Blank? && WellFormedEntries(es, close == '}') && RfcEntries(es) && Stands(text, from, PrintEntries(es))
    ensures CharAt(text, from + |PrintEntries(es)|, close)
    ensures ParseEntries(text, SkipSpace(text, from), open, built, peak, close).pos == from + |PrintEntries(es)| + 1
    decreases |text| - from, 2
  {
    hide Stands, SkipSpace, ParseName, ParseValue, PrintEntry, PrintEntries, WellFormedEntry, RfcScalars;
    var pos := SkipSpace(text, from);
    var named := if close == '}' then ParseName(text, pos, built, peak) else Parsed(true, pos, built, peak);
    var value := ParseValue(text, named.pos, open, named.built, named.peak);
    var e := EntrySound(text, from, open, built, peak, close);
    var next := SkipSpace(text, value.pos);
    if CharAt(text, next, close) {
      es := Last(e);
      assert PrintEntries(es) == PrintEntry(e) by { OnlyEntry(e); }
    } else {
      var others := EntriesSound(text, next + 1, open, value.built, value.peak, close);
      es := More(e, others);
      EntriesJoin(text, from, e, others);
    }
  }

  /** One entry the parser has read, with the white space around it. */
  lemma {:induction false} EntrySound(text: string, from: nat, open: nat, built: nat, peak: nat, close: char)
    returns (e: Entry)
    requires from <= |text| && (close == ']' || close == '}')
    requires var pos := SkipSpace(text, from);
             var named := if close == '}' then ParseName(text, pos, built, peak) else Parsed(true, pos, built, peak);
             named.ok && ParseValue(text, named.pos, open, named.built, named.peak).ok
    ensures var pos := SkipSpace(text, from);
            var named := if close == '}' then ParseName(text, pos, built, peak) else Parsed(true, pos, built, peak);
            var next := SkipSpace(text, ParseValue(text, named.pos, open, named.built, named.peak).pos);
            && WellFormedEntry(e, close == '}') && RfcScalars(e.value)
            && Stands(text, from, PrintEntry(e)) && next == from + |PrintEntry(e)| && from < next
    decreases |text| - from, 1
  {
    hide Stands, SkipSpace, ParseName, ParseValue, Print, PrintName, WellFormed, WellFormedBody, RfcScalars,
         IsWhiteSpace;
    var before := SkippedSpace(text, from);
    var pos := SkipSpace(text, from);
    var named := if close == '}' then ParseName(text, pos, built, peak) else Parsed(true, pos, built, peak);
    var name := Unnamed;
    if close == '}' {
      name := NameSound(text, pos, built, peak);
    } else {
      NoName(text, pos);
    }
    var v := ValueSound(text, named.pos, open, named.built, named.peak);
    var behind := named.pos + |Print(v)|;
    var after := SkippedSpace(text, behind);
    e := Entry(before, name, v, after);
    Whole(text, named.pos, Print(v), after);
    Whole(text, pos, PrintName(name), Print(v) + after);
    Whole(text, from, before, PrintName(name) + (Print(v) + after));
  }

  lemma NoName(text: string, pos: nat)
    requires pos <= |text|
    ensures |PrintName(Unnamed)| == 0 && Stands(text, pos, PrintName(Unnamed))
  {
  }

  // ---- Whole texts --------------------------------------------------------------------------

  /** Every text the parser accepts is a printed tree. */
  lemma ParsedTextsArePrinted(text: string) returns (before: string, v: Value, after: string)
    requires ParseText(text).ok
    ensures IsPrinted(text, before, v, after)
  {
    hide Stands, SkipSpace, ParseValue, Print, WellFormed, RfcScalars, IsWhiteSpace;
    before := SkippedSpace(text, 0);
    v := ValueSound(text, |before|, 0, 0, 0);
    after := SkippedSpace(text, |before| + |Print(v)|);
    Whole(text, |before|, Print(v), after);
    Whole(text, 0, before, Print(v) + after);
    AllOfText(text, before + (Print(v) + after));
  }

  lemma AllOfText(text: string, s: string)
    requires Stands(text, 0, s) && |s| == |text|
    ensures text == s
  {
    assert text[0..|text|] == text;
  }

  /** The parser accepts exactly the JSON-texts. */
  lemma ParsesIffPrinted(text: string)
    ensures ParseText(text).ok <==> exists before, v, after :: IsPrinted(text, before, v, after)
  {
    hide ParseText, IsPrinted;
    if ParseText(text).ok {
      var before, v, after := ParsedTextsArePrinted(text);
    } else if exists before, v, after :: IsPrinted(text, before, v, after) {
      var before, v, after :| IsPrinted(text, before, v, after);
      WholeTextReads(text, before, v, after);
    }
  }

  /** On every text that parses, the scan accepts it exactly when the parser stayed within the limits. */
  lemma ValidTextsAcceptedIffCheap(text: string, limits: Limits)
    requires ParseText(text).ok
    ensures Run(limits, START, text).At? <==>
            ParseText(text).built <= limits.maxTokens && ParseText(text).peak <= limits.maxDepth
  {
    hide ParseText, IsPrinted, Run;
    var before, v, after := ParsedTextsArePrinted(text);
    PrintedTreesParse(text, before, v, after, limits);
  }
}
