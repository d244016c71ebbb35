/**
 The parser of JsonParser is complete: however a tree is printed, it reads it back, and what it counts
 on the way is exactly the tree's tokens and depth. With JsonWire's acceptance theorem this puts the
 scan, the parser and the grammar of section 2 of RFC 8259 side by side on all valid texts.
 */
module JsonPrinted {
  import opened Extrema
  import opened JsonWire
  import opened JsonParser

  predicate IsRfcScalar(text: string) {
    text == "true" || text == "false" || text == "null" || (text != [] && NumberEnd(text, 0) == |text|)
  }

  predicate RfcScalars(v: Value) {
    match v
    case Scalar(text) => IsRfcScalar(text)
    case Text(_) => true
    case Container(_, entries) => RfcEntries(entries)
  }

  predicate RfcEntries(es: Entries) {
    match es
    case Blank(_) => true
    case Last(e) => RfcScalars(e.value)
    case More(e, rest) => RfcScalars(e.value) && RfcEntries(rest)
  }

  /** What may follow a value. */
  predicate EndsAt(text: string, pos: nat) { pos == |text| || (pos < |text| && IsDelimiter(text[pos])) }

  predicate NoSpaceAt(text: string, pos: nat) { pos >= |text| || !IsSpace(text[pos]) }

  // ---- Pieces of a text ---------------------------------------------------------------------

  /** The piece of `text` that starts at `pos` and is as long as `s` is `s`. */
  ghost predicate Stands(text: string, pos: nat, s: string) { pos + |s| <= |text| && text[pos..pos + |s|] == s }

  lemma Parts(text: string, pos: nat, a: string, b: string)
    requires Stands(text, pos, a + b)
    ensures pos + |a| + |b| <= |text| && Stands(text, pos, a) && Stands(text, pos + |a|, b)
  {
    var middle, end := pos + |a|, pos + |a| + |b|;
    assert text[pos..end] == a + b;
    assert (a + b)[..|a|] == a && (a + b)[|a|..] == b;
    assert text[pos..middle] == text[pos..end][..|a|];
    assert text[middle..end] == text[pos..end][|a|..];
  }

  lemma Whole(text: string, pos: nat, a: string, b: string)
    requires Stands(text, pos, a) && Stands(text, pos + |a|, b)
    ensures Stands(text, pos, a + b) && |a + b| == |a| + |b|
  {
    assert text[pos..pos + |a| + |b|] == text[pos..pos + |a|] + text[pos + |a|..pos + |a| + |b|];
  }

  lemma First(text: string, pos: nat, s: string)
    requires Stands(text, pos, s)
    ensures pos + |s| <= |text| && (s != [] ==> text[pos] == s[0])
  {
    if s != [] { assert text[pos] == text[pos..pos + |s|][0]; }
  }

  lemma Characters(text: string, pos: nat, s: string)
    requires Stands(text, pos, s)
    ensures pos + |s| <= |text| && forall i :: 0 <= i < |s| ==> text[pos + i] == s[i]
  {
    forall i | 0 <= i < |s| ensures text[pos + i] == s[i] { assert text[pos + i] == text[pos..pos + |s|][i]; }
  }

  lemma {:induction false} SpaceEnds(text: string, pos: nat, space: string)
    requires Stands(text, pos, space) && IsWhiteSpace(space) && NoSpaceAt(text, pos + |space|)
    ensures pos + |space| <= |text| && SkipSpace(text, pos) == pos + |space|
    decreases |space|
  {
    Characters(text, pos, space);
    if space != [] {
      assert text[pos + 0] == space[0];
      assert [space[0]] + space[1..] == space;
      Parts(text, pos, [space[0]], space[1..]);
      SpaceEnds(text, pos + 1, space[1..]);
    }
  }

  // ---- Numbers and literals -----------------------------------------------------------------

  /** `s` stands in `text` at `pos`, with a delimiter or nothing behind it. */
  ghost predicate StandsAt(text: string, pos: nat, s: string) {
    && pos + |s| <= |text| && (forall j :: 0 <= j < |s| ==> text[pos + j] == s[j])
    && (pos + |s| == |text| || IsDelimiter(text[pos + |s|]))
  }

  lemma CharSame(text: string, pos: nat, s: string, i: nat, c: char)
    requires StandsAt(text, pos, s) && i <= |s| && !IsDelimiter(c)
    ensures CharAt(text, pos + i, c) == CharAt(s, i, c)
  {
  }

  lemma DigitSame(text: string, pos: nat, s: string, i: nat)
    requires StandsAt(text, pos, s) && i <= |s|
    ensures (pos + i < |text| && IsDigit(text[pos + i])) == (i < |s| && IsDigit(s[i]))
  {
  }

  lemma {:induction false} DigitsEndSame(text: string, pos: nat, s: string, i: nat)
    requires StandsAt(text, pos, s) && i <= |s|
    ensures pos + i <= |text| && DigitsEnd(text, pos + i) == pos + DigitsEnd(s, i)
    decreases |s| - i
  {
    assert pos + |s| <= |text|;
    DigitSame(text, pos, s, i);
    hide StandsAt;
    if i < |s| && IsDigit(s[i]) { DigitsEndSame(text, pos, s, i + 1); }
  }

  lemma IntegerEndSame(text: string, pos: nat, s: string)
    requires StandsAt(text, pos, s) && IntegerEnd(s, 0) != -1
    ensures pos <= |text| && IntegerEnd(text, pos) == pos + IntegerEnd(s, 0)
  {
    hide IsScalarChar;
    CharSame(text, pos, s, 0, '-');
    var first := if CharAt(s, 0, '-') then 1 else 0;
    DigitSame(text, pos, s, first);
    DigitsEndSame(text, pos, s, first + 1);
  }

  lemma FractionEndSame(text: string, pos: nat, s: string, i: nat)
    requires StandsAt(text, pos, s) && i <= |s|
    ensures pos + i <= |text| && FractionEnd(text, pos + i) == pos + FractionEnd(s, i)
  {
    hide IsScalarChar;
    CharSame(text, pos, s, i, '.');
    if i < |s| {
      DigitSame(text, pos, s, i + 1);
      DigitsEndSame(text, pos, s, i + 1);
    }
  }

  lemma ExponentEndSame(text: string, pos: nat, s: string, i: nat)
    requires StandsAt(text, pos, s) && i <= |s|
    ensures pos + i <= |text| && ExponentEnd(text, pos + i) == pos + ExponentEnd(s, i)
  {
    hide IsScalarChar;
    CharSame(text, pos, s, i, 'e');
    CharSame(text, pos, s, i, 'E');
    if i < |s| {
      CharSame(text, pos, s, i + 1, '+');
      CharSame(text, pos, s, i + 1, '-');
      var digits := if CharAt(s, i + 1, '+') || CharAt(s, i + 1, '-') then i + 2 else i + 1;
      DigitSame(text, pos, s, digits);
      DigitsEndSame(text, pos, s, digits);
    }
  }

  lemma NumberEndSame(text: string, pos: nat, s: string)
    requires StandsAt(text, pos, s) && NumberEnd(s, 0) == |s|
    ensures pos <= |text| && NumberEnd(text, pos) == pos + |s|
  {
    hide StandsAt, IsScalarChar, IntegerEnd, FractionEnd, ExponentEnd;
    IntegerEndSame(text, pos, s);
    FractionEndSame(text, pos, s, IntegerEnd(s, 0));
    ExponentEndSame(text, pos, s, FractionEnd(s, IntegerEnd(s, 0)));
  }

  lemma ScalarReads(text: string, pos: nat, s: string)
    requires Stands(text, pos, s) && IsRfcScalar(s) && EndsAt(text, pos + |s|)
    ensures pos < |text| && text[pos] == s[0] && IsScalarText(s)
    ensures ScalarEnd(text, pos) == pos + |s|
  {
    Characters(text, pos, s);
    assert text[pos + 0] == s[0];
    if s == "true" || s == "false" || s == "null" {
      assert text[pos..][..|s|] == text[pos..pos + |s|] == s;
      assert s <= text[pos..];
      assert text[pos..][0] == s[0];
    } else {
      assert !("true" <= text[pos..]) && !("false" <= text[pos..]) && !("null" <= text[pos..]) by {
        assert s[0] == '-' || IsDigit(s[0]);
        assert text[pos..][0] == s[0];
      }
      assert StandsAt(text, pos, s);
      NumberEndSame(text, pos, s);
    }
  }

  // ---- Strings ------------------------------------------------------------------------------

  lemma Regroup(a: string, b: string, c: string)
    ensures (a + b) + c == a + (b + c)
  {
  }

  lemma {:induction false} PrintBodyFront(body: seq<StringChar>)
    requires body != []
    ensures PrintBody(body) == PrintChar(body[0]) + PrintBody(body[1..])
    decreases |body|
  {
    hide PrintChar;
    var last := |body| - 1;
    if last == 0 {
      assert body[..0] == [] && body[1..] == [];
    } else {
      var middle := body[..last][1..];
      assert middle == body[1..][..last - 1] && body[..last][0] == body[0] && body[1..][last - 1] == body[last];
      PrintBodyFront(body[..last]);
      Regroup(PrintChar(body[0]), PrintBody(middle), PrintChar(body[last]));
    }
  }

  lemma BodyTail(body: seq<StringChar>)
    requires WellFormedBody(body) && body != []
    ensures WellFormedChar(body[0]) && WellFormedBody(body[1..])
  {
    hide WellFormedChar;
  }

  /** Past one character of a string. */
  lemma CharReads(text: string, pos: nat, c: StringChar)
    requires WellFormedChar(c) && Stands(text, pos, PrintChar(c))
    ensures pos + |PrintChar(c)| <= |text| && StringEnd(text, pos) == StringEnd(text, pos + |PrintChar(c)|)
  {
    var first := PrintChar(c);
    Characters(text, pos, first);
    hide Stands;
    assert text[pos + 0] == first[0];
    if !c.Plain? { assert text[pos + 1] == first[1]; }
    if c.Unicode? {
      assert text[pos + 2] == first[2] && text[pos + 3] == first[3] && text[pos + 4] == first[4]
             && text[pos + 5] == first[5];
    }
  }

  lemma EmptyBody(text: string, pos: nat, body: seq<StringChar>)
    requires body == [] && CharAt(text, pos + |PrintBody(body)|, '"')
    ensures PrintBody(body) == [] && StringEnd(text, pos) == pos + 1
  {
  }

  lemma {:induction false} StringReads(text: string, pos: nat, body: seq<StringChar>)
    requires Stands(text, pos, PrintBody(body)) && CharAt(text, pos + |PrintBody(body)|, '"') && WellFormedBody(body)
    ensures StringEnd(text, pos) == pos + |PrintBody(body)| + 1
    decreases |body|
  {
    hide PrintBody, PrintChar, Stands, StringEnd, WellFormedBody, WellFormedChar;
    if body == [] {
      EmptyBody(text, pos, body);
    } else {
      PrintBodyFront(body);
      BodyTail(body);
      var first, others := PrintChar(body[0]), PrintBody(body[1..]);
      Parts(text, pos, first, others);
      StringReads(text, pos + |first|, body[1..]);
      CharReads(text, pos, body[0]);
    }
  }

  lemma TextParts(text: string, pos: nat, body: seq<StringChar>)
    requires Stands(text, pos, PrintText(body))
    ensures |PrintText(body)| == |PrintBody(body)| + 2
    ensures CharAt(text, pos, '"') && Stands(text, pos + 1, PrintBody(body))
    ensures CharAt(text, pos + 1 + |PrintBody(body)|, '"')
  {
    hide Stands, PrintBody;
    Parts(text, pos, ['"'] + PrintBody(body), ['"']);
    Parts(text, pos, ['"'], PrintBody(body));
    First(text, pos, ['"']);
    First(text, pos + 1 + |PrintBody(body)|, ['"']);
  }

  /** A quoted string at `pos`, as a value or as a name. */
  lemma TextReads(text: string, pos: nat, body: seq<StringChar>)
    requires Stands(text, pos, PrintText(body)) && WellFormedBody(body)
    ensures CharAt(text, pos, '"') && StringEnd(text, pos + 1) == pos + |PrintText(body)|
  {
    hide Stands, StringEnd, PrintText, PrintBody, WellFormedBody;
    TextParts(text, pos, body);
    StringReads(text, pos + 1, body);
  }

  // ---- Names, values and entries ------------------------------------------------------------

  /** No value starts with white space or a closing bracket. */
  lemma FirstChar(v: Value)
    requires WellFormed(v)
    ensures Print(v) != [] && !IsSpace(Print(v)[0]) && Print(v)[0] != ']' && Print(v)[0] != '}'
  {
  }

  /** A colon with white space around it. */
  lemma ColonReads(text: string, pos: nat, before: string, after: string)
    requires Stands(text, pos, before + ([':'] + after)) && IsWhiteSpace(before) && IsWhiteSpace(after)
    requires NoSpaceAt(text, pos + |before| + 1 + |after|)
    ensures pos + |before| < |text| && SkipSpace(text, pos) == pos + |before| && text[pos + |before|] == ':'
    ensures SkipSpace(text, pos + |before| + 1) == pos + |before| + 1 + |after|
  {
    hide Stands, SkipSpace, IsWhiteSpace;
    Parts(text, pos, before, [':'] + after);
    Parts(text, pos + |before|, [':'], after);
    First(text, pos + |before|, [':']);
    SpaceEnds(text, pos, before);
    SpaceEnds(text, pos + |before| + 1, after);
  }

  lemma NameParts(text: string, pos: nat, name: Name)
    requires Stands(text, pos, PrintName(name)) && name.Named?
    ensures |PrintName(name)| == |PrintText(name.body)| + |name.beforeColon| + 1 + |name.afterColon|
    ensures pos + |PrintName(name)| <= |text| && Stands(text, pos, PrintText(name.body))
    ensures Stands(text, pos + |PrintText(name.body)|, name.beforeColon + ([':'] + name.afterColon))
  {
    hide Stands, PrintText;
    Parts(text, pos, PrintText(name.body), name.beforeColon + ([':'] + name.afterColon));
  }

  lemma NameReads(text: string, pos: nat, name: Name, built: nat, peak: nat)
    requires Stands(text, pos, PrintName(name)) && name.Named? && NoSpaceAt(text, pos + |PrintName(name)|)
    requires WellFormedBody(name.body) && IsWhiteSpace(name.beforeColon) && IsWhiteSpace(name.afterColon)
    ensures pos <= |text| && ParseName(text, pos, built, peak) == Parsed(true, pos + |PrintName(name)|, built + 1, peak)
  {
    hide Stands, PrintText, PrintName, SkipSpace, StringEnd, WellFormedBody, IsWhiteSpace, NoSpaceAt;
    NameParts(text, pos, name);
    TextReads(text, pos, name.body);
    ColonReads(text, pos + |PrintText(name.body)|, name.beforeColon, name.afterColon);
  }

  lemma {:induction false} ValueReads(text: string, pos: nat, v: Value, open: nat, built: nat, peak: nat)
    requires Stands(text, pos, Print(v)) && EndsAt(text, pos + |Print(v)|) && WellFormed(v) && RfcScalars(v)
             && open <= peak
    ensures pos <= |text| && ParseValue(text, pos, open, built, peak) ==
            Parsed(true, pos + |Print(v)|, built + Tokens(v), Larger(peak, open + Depth(v)))
    decreases v, 1
  {
    hide Stands, SkipSpace, StringEnd, ScalarEnd, ParseEntries, PrintText, PrintEntries, IsRfcScalar, WellFormedBody,
         EndsAt;
    match v
    case Scalar(s) =>
      ScalarReads(text, pos, s);
      assert IsScalarChar(s[0]);
    case Text(body) =>
      TextReads(text, pos, body);
    case Container(isObject, entries) =>
      var bracket, close := [if isObject then '{' else '['], [if isObject then '}' else ']'];
      Parts(text, pos, bracket + PrintEntries(entries), close);
      Parts(text, pos, bracket, PrintEntries(entries));
      First(text, pos, bracket);
      First(text, pos + 1 + |PrintEntries(entries)|, close);
      EntriesRead(text, pos + 1, entries, isObject, open + 1, built + 1, Larger(peak, open + 1));
  }

  /** Where the parts of printed entries stand. */
  lemma EntriesParts(text: string, pos: nat, es: Entries)
    requires Stands(text, pos, PrintEntries(es))
    ensures match es
            case Blank(space) => PrintEntries(es) == space
            case Last(e) => PrintEntries(es) == PrintEntry(e)
            case More(e, others) =>
              && |PrintEntries(es)| == |PrintEntry(e)| + 1 + |PrintEntries(others)|
              && Stands(text, pos, PrintEntry(e)) && CharAt(text, pos + |PrintEntry(e)|, ',')
              && Stands(text, pos + |PrintEntry(e)| + 1, PrintEntries(others))
  {
    hide Stands, PrintEntry;
    match es
    case Blank(_) =>
    case Last(_) =>
    case More(e, others) =>
      Parts(text, pos, PrintEntry(e), [','] + PrintEntries(others));
      Parts(text, pos + |PrintEntry(e)|, [','], PrintEntries(others));
      First(text, pos + |PrintEntry(e)|, [',']);
  }

  lemma LastDepth(e: Entry)
    ensures EntriesDepth(Last(e)) == Depth(e.value)
  {
  }

  lemma MoreDepth(e: Entry, others: Entries, open: nat, peak: nat)
    ensures var peak' := Larger(peak, open + Depth(e.value));
            && (open <= peak ==> open <= peak')
            && Larger(peak', open + EntriesDepth(others)) == Larger(peak, open + EntriesDepth(More(e, others)))
  {
    hide Depth;
  }

  /** From just behind the opening bracket, through the closing one. */
  lemma {:induction false} EntriesRead(text: string, pos: nat, es: Entries, isObject: bool, open: nat, built: nat,
                                       peak: nat)
    requires Stands(text, pos, PrintEntries(es))
             && CharAt(text, pos + |PrintEntries(es)|, if isObject then '}' else ']')
    requires WellFormedEntries(es, isObject) && RfcEntries(es) && 1 <= open <= peak
    ensures var close, inside := if isObject then '}' else ']', SkipSpace(text, pos);
            if es.Blank? then inside == pos + |PrintEntries(es)| && CharAt(text, inside, close)
            else !CharAt(text, inside, close) &&
                 ParseEntries(text, inside, open, built, peak, close) ==
                 Parsed(true, pos + |PrintEntries(es)| + 1, built + EntriesTokens(es),
                        Larger(peak, open + EntriesDepth(es)))
    decreases es, 0
  {
    hide Stands, SkipSpace, ParseEntries, PrintEntry, PrintEntries, WellFormedEntry, EntryTokens, Depth, EntriesDepth,
      RfcScalars, IsWhiteSpace, Larger;
    EntriesParts(text, pos, es);
    match es
    case Blank(space) =>
      SpaceEnds(text, pos, space);
    case Last(e) =>
      EntryStep(text, pos, e, isObject, if isObject then '}' else ']', open, built, peak);
      LastDepth(e);
    case More(e, others) =>
      var comma := pos + |PrintEntry(e)|;
      EntryStep(text, pos, e, isObject, ',', open, built, peak);
      MoreDepth(e, others, open, peak);
      EntriesRead(text, comma + 1, others, isObject, open, built + EntryTokens(e), Larger(peak, open + Depth(e.value)));
  }

  /** The parser past one entry and the comma or closing bracket behind it. */
  lemma {:induction false} EntryStep(text: string, pos: nat, e: Entry, isObject: bool, mark: char,
                                     open: nat, built: nat, peak: nat)
    requires mark == ',' || mark == if isObject then '}' else ']'
    requires Stands(text, pos, PrintEntry(e)) && CharAt(text, pos + |PrintEntry(e)|, mark)
    requires WellFormedEntry(e, isObject) && RfcScalars(e.value) && 1 <= open <= peak
    ensures var close, end := if isObject then '}' else ']', pos + |PrintEntry(e)|;
            var built', peak' := built + EntryTokens(e), Larger(peak, open + Depth(e.value));
            && !CharAt(text, SkipSpace(text, pos), close)
            && ParseEntries(text, SkipSpace(text, pos), open, built, peak, close) ==
               if mark == ',' then ParseEntries(text, SkipSpace(text, end + 1), open, built', peak', close)
               else Parsed(true, end + 1, built', peak')
    decreases e, 2
  {
    hide Stands, WellFormed, WellFormedBody, IsWhiteSpace, SkipSpace, ParseName, ParseValue, PrintEntry, PrintName,
         Print, WellFormedEntry, Tokens, Depth, RfcScalars, Larger;
    EntryFacts(e, isObject);
    EntryParts(text, pos, e);
    EntryHeadReads(text, pos, e, isObject, built, peak);
    var at := pos + |e.before| + |PrintName(e.name)|;
    EntryValueReads(text, at, e, isObject, open, if isObject then built + 1 else built, peak);
  }

  lemma EntryFacts(e: Entry, isObject: bool)
    requires WellFormedEntry(e, isObject)
    ensures IsWhiteSpace(e.before) && IsWhiteSpace(e.after) && WellFormed(e.value) && (e.name.Named? <==> isObject)
    ensures e.name.Named? ==>
              && WellFormedBody(e.name.body) && IsWhiteSpace(e.name.beforeColon) && IsWhiteSpace(e.name.afterColon)
              && PrintName(e.name) != [] && PrintName(e.name)[0] == '"'
    ensures e.name.Unnamed? ==> PrintName(e.name) == []
  {
    hide IsWhiteSpace, WellFormed, WellFormedBody, PrintBody;
  }

  /** Where the four parts of a printed entry stand. */
  lemma EntryParts(text: string, pos: nat, e: Entry)
    requires Stands(text, pos, PrintEntry(e))
    ensures |PrintEntry(e)| == |e.before| + |PrintName(e.name)| + |Print(e.value)| + |e.after|
    ensures Stands(text, pos, e.before) && Stands(text, pos + |e.before|, PrintName(e.name))
    ensures var at := pos + |e.before| + |PrintName(e.name)|;
            Stands(text, at, Print(e.value)) && Stands(text, at + |Print(e.value)|, e.after)
  {
    hide Stands, PrintName, Print;
    Parts(text, pos, e.before, PrintName(e.name) + (Print(e.value) + e.after));
    Parts(text, pos + |e.before|, PrintName(e.name), Print(e.value) + e.after);
    Parts(text, pos + |e.before| + |PrintName(e.name)|, Print(e.value), e.after);
  }

  /** Up to where the value of an entry starts. */
  lemma EntryHeadReads(text: string, pos: nat, e: Entry, isObject: bool, built: nat, peak: nat)
    requires Stands(text, pos, PrintEntry(e)) && WellFormedEntry(e, isObject)
    ensures var close, inside := if isObject then '}' else ']', SkipSpace(text, pos);
            var at := pos + |e.before| + |PrintName(e.name)|;
            && !CharAt(text, inside, close) && at <= |text|
            && (if isObject then ParseName(text, inside, built, peak) else Parsed(true, inside, built, peak)) ==
               Parsed(true, at, if isObject then built + 1 else built, peak)
  {
    hide Stands, SkipSpace, ParseName, PrintEntry, PrintName, Print, WellFormed, WellFormedEntry, WellFormedBody,
         IsWhiteSpace;
    var inside, at := pos + |e.before|, pos + |e.before| + |PrintName(e.name)|;
    EntryFacts(e, isObject);
    EntryParts(text, pos, e);
    FirstChar(e.value);
    First(text, inside, PrintName(e.name));
    First(text, at, Print(e.value));
    SpaceEnds(text, pos, e.before);
    if isObject { NameReads(text, inside, e.name, built, peak); }
  }

  lemma SpaceThenEnd(text: string, pos: nat, space: string)
    requires Stands(text, pos, space) && IsWhiteSpace(space) && EndsAt(text, pos + |space|)
    ensures EndsAt(text, pos)
  {
    First(text, pos, space);
  }

  /** The value of an entry and the white space behind it. */
  lemma {:induction false} EntryValueReads(text: string, at: nat, e: Entry, isObject: bool, open: nat, built: nat,
                                           peak: nat)
    requires Stands(text, at, Print(e.value)) && Stands(text, at + |Print(e.value)|, e.after)
    requires WellFormedEntry(e, isObject) && RfcScalars(e.value) && 1 <= open <= peak
    requires var end := at + |Print(e.value)| + |e.after|;
             end < |text| && NoSpaceAt(text, end) && EndsAt(text, end)
    ensures at <= |text|
    ensures var value := ParseValue(text, at, open, built, peak);
            && value.ok && SkipSpace(text, value.pos) == at + |Print(e.value)| + |e.after|
            && value.built == built + Tokens(e.value) && value.peak == Larger(peak, open + Depth(e.value))
    decreases e, 1
  {
    hide Stands, SkipSpace, ParseValue, Print, WellFormedEntry, WellFormed, WellFormedBody, PrintName, RfcScalars,
         IsWhiteSpace, EndsAt, Tokens, Depth, Larger, IsSpace;
    EntryFacts(e, isObject);
    SpaceThenEnd(text, at + |Print(e.value)|, e.after);
    ValueReads(text, at, e.value, open, built, peak);
    SpaceEnds(text, at + |Print(e.value)|, e.after);
  }

  // ---- Whole texts --------------------------------------------------------------------------

  /** `text` is `v` printed between white space: the grammar's JSON-text. */
  ghost predicate IsPrinted(text: string, before: string, v: Value, after: string) {
    && WellFormed(v) && RfcScalars(v) && IsWhiteSpace(before) && IsWhiteSpace(after)
    && text == before + (Print(v) + after)
  }

  lemma WholeTextReads(text: string, before: string, v: Value, after: string)
    requires IsPrinted(text, before, v, after)
    ensures ParseText(text) == Parsed(true, |before| + |Print(v)|, Tokens(v), Depth(v))
  {
    hide Stands, SkipSpace, ParseValue, Print, WellFormed, RfcScalars, IsWhiteSpace, EndsAt, Tokens, Depth;
    var middle, end := |before|, |before| + |Print(v)|;
    StandsWhole(text);
    Parts(text, 0, before, Print(v) + after);
    Parts(text, middle, Print(v), after);
    FirstChar(v);
    First(text, middle, Print(v));
    EndOfText(text, end, after);
    SpaceThenEnd(text, end, after);
    SpaceEnds(text, 0, before);
    ValueReads(text, middle, v, 0, 0, 0);
    SpaceEnds(text, end, after);
  }

  lemma StandsWhole(text: string)
    ensures Stands(text, 0, text)
  {
    assert text[0..|text|] == text;
  }

  lemma EndOfText(text: string, end: nat, after: string)
    requires end + |after| == |text|
    ensures EndsAt(text, end + |after|)
  {
  }

  /**
   However a JSON tree is printed, the parser accepts it and counts its tokens and its depth; so the
   scan accepts it exactly when the parser stays within the limits.
   */
  lemma PrintedTreesParse(text: string, before: string, v: Value, after: string, limits: Limits)
    requires IsPrinted(text, before, v, after)
    ensures ParseText(text) == Parsed(true, |before| + |Print(v)|, Tokens(v), Depth(v))
    ensures Run(limits, START, text).At? <==>
            ParseText(text).built <= limits.maxTokens && ParseText(text).peak <= limits.maxDepth
  {
    hide ParseText, Print, WellFormed, RfcScalars, Tokens, Depth, Run, IsWhiteSpace;
    WholeTextReads(text, before, v, after);
    AcceptsExactlyWithinLimits(limits, before, v, after);
  }
}
