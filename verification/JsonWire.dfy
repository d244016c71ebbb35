/**
 The structural scan that runs before JSON is decoded (src/apex/adapters/http_resilience.py:194-242),
 related to the grammar of section 2 of RFC 8259 in both directions: which printed JSON trees it
 accepts, and what a recursive-descent parser can still build from any text it accepted.
 */
module JsonWire {
  datatype Limits = Limits(maxDepth: nat, maxTokens: nat)

  datatype Mode = Between | InScalar | InString | Escaped

  /** The scanner's variables, or the error it raised. */
  datatype Scan = At(depth: int, tokens: nat, mode: Mode) | TooManyTokens | TooDeep

  const START := At(0, 0, Between)

  predicate IsSpace(c: char) { c == ' ' || c == '\t' || c == '\r' || c == '\n' }

  predicate IsDelimiter(c: char) { IsSpace(c) || c == ',' || c == ']' || c == '}' || c == ':' }

  predicate IsOpening(c: char) { c == '[' || c == '{' }

  function Consume(limits: Limits, s: Scan, mode: Mode): Scan
    requires s.At?
  {
    if s.tokens + 1 > limits.maxTokens then TooManyTokens else s.(tokens := s.tokens + 1, mode := mode)
  }

  function Step(limits: Limits, s: Scan, c: char): Scan {
    if !s.At? then s
    else if s.mode == Escaped then s.(mode := InString)
    else if s.mode == InString then s.(mode := if c == '\\' then Escaped else if c == '"' then Between else InString)
    else if s.mode == InScalar && !IsDelimiter(c) then s
    else if c == '"' then Consume(limits, s, InString)
    else if IsOpening(c) then
      var entered := Consume(limits, s, Between);
      if !entered.At? then entered
      else if entered.depth + 1 > limits.maxDepth then TooDeep
      else entered.(depth := entered.depth + 1)
    else if c == ']' || c == '}' then s.(depth := s.depth - 1, mode := Between)
    else if IsDelimiter(c) then s.(mode := Between)
    else Consume(limits, s, InScalar)
  }

  function Run(limits: Limits, s: Scan, text: string): Scan {
    if text == [] then s
    else Step(limits, Run(limits, s, text[..|text| - 1]), text[|text| - 1])
  }

  /** The scan of the first `pos` characters. */
  function Prefix(limits: Limits, text: string, pos: nat): Scan
    requires pos <= |text|
  {
    Run(limits, START, text[..pos])
  }

  method ValidateWireLimits(text: string, limits: Limits) returns (result: Scan)
    ensures var whole := Run(limits, START, text);
            if whole.At? then result.At? && result.tokens == whole.tokens && result.depth == whole.depth
            else result == whole
  {
    var depth, tokens := 0, 0;
    var inString, escaped, inScalar := false, false, false;
    for i := 0 to |text|
      invariant tokens >= 0
      invariant Prefix(limits, text, i) == At(depth, tokens, ModeOf(inString, escaped, inScalar))
      invariant (escaped ==> inString) && !(inString && inScalar)
    {
      PrefixStep(limits, text, i);
      var c := text[i];
      if inString {
        if escaped {
          escaped := false;
        } else if c == '\\' {
          escaped := true;
        } else if c == '"' {
          inString := false;
        }
        continue;
      }
      if inScalar {
        if !IsDelimiter(c) {
          continue;
        }
        inScalar := false;
      }
      if c == '"' {
        tokens := tokens + 1;
        if tokens > limits.maxTokens { RejectedStays(limits, text, i + 1); return TooManyTokens; }
        inString := true;
      } else if c == '[' || c == '{' {
        tokens := tokens + 1;
        if tokens > limits.maxTokens { RejectedStays(limits, text, i + 1); return TooManyTokens; }
        depth := depth + 1;
        if depth > limits.maxDepth { RejectedStays(limits, text, i + 1); return TooDeep; }
      } else if c == ']' || c == '}' {
        depth := depth - 1;
      } else if IsSpace(c) || c == ',' || c == ':' {
        continue;
      } else {
        tokens := tokens + 1;
        if tokens > limits.maxTokens { RejectedStays(limits, text, i + 1); return TooManyTokens; }
        inScalar := true;
      }
    }
    assert text[..|text|] == text;
    result := At(depth, tokens, ModeOf(inString, escaped, inScalar));
  }

  function ModeOf(inString: bool, escaped: bool, inScalar: bool): Mode {
    if escaped then Escaped else if inString then InString else if inScalar then InScalar else Between
  }

  lemma PrefixStep(limits: Limits, text: string, pos: nat)
    requires pos < |text|
    ensures Prefix(limits, text, pos + 1) == Step(limits, Prefix(limits, text, pos), text[pos])
  {
    assert text[..pos + 1][..pos] == text[..pos];
  }

  lemma {:induction false} RunAppend(limits: Limits, s: Scan, a: string, b: string)
    ensures Run(limits, s, a + b) == Run(limits, Run(limits, s, a), b)
  {
    if b == [] {
      assert a + b == a;
    } else {
      var last := |b| - 1;
      RunAppend(limits, s, a, b[..last]);
      assert (a + b)[..|a + b| - 1] == a + b[..last];
    }
  }

  lemma {:induction false} RunRejected(limits: Limits, s: Scan, text: string)
    requires !s.At?
    ensures Run(limits, s, text) == s
  {
    if text != [] { RunRejected(limits, s, text[..|text| - 1]); }
  }

  /** Once raised, the error is the scan's answer for the whole text. */
  lemma RejectedStays(limits: Limits, text: string, pos: nat)
    requires pos <= |text| && !Prefix(limits, text, pos).At?
    ensures Run(limits, START, text) == Prefix(limits, text, pos)
  {
    assert text == text[..pos] + text[pos..];
    RunAppend(limits, START, text[..pos], text[pos..]);
    RunRejected(limits, Prefix(limits, text, pos), text[pos..]);
  }

  lemma RunOne(limits: Limits, s: Scan, c: char)
    ensures Run(limits, s, [c]) == Step(limits, s, c)
  {
    assert [c][..0] == [];
  }

  // ---- Printed JSON trees -------------------------------------------------------------------

  /** One character of a string as written: itself, a two-character escape, or \uXXXX. */
  datatype StringChar = Plain(c: char) | Escape(c: char) | Unicode(h1: char, h2: char, h3: char, h4: char)

  datatype Value =
    | Scalar(text: string)
    | Text(body: seq<StringChar>)
    | Container(isObject: bool, entries: Entries)

  /** What stands between the brackets, with the white space around it. */
  datatype Entries =
    | Blank(space: string)
    | Last(entry: Entry)
    | More(entry: Entry, rest: Entries)

  datatype Entry = Entry(before: string, name: Name, value: Value, after: string)

  datatype Name = Unnamed | Named(body: seq<StringChar>, beforeColon: string, afterColon: string)

  predicate IsHex(c: char) { '0' <= c <= '9' || 'a' <= c <= 'f' || 'A' <= c <= 'F' }

  predicate IsSimpleEscape(c: char) {
    c == '"' || c == '\\' || c == '/' || c == 'b' || c == 'f' || c == 'n' || c == 'r' || c == 't'
  }

  predicate WellFormedChar(c: StringChar) {
    match c
    case Plain(c) => c != '"' && c != '\\' && c >= ' '
    case Escape(c) => IsSimpleEscape(c)
    case Unicode(a, b, c, d) => IsHex(a) && IsHex(b) && IsHex(c) && IsHex(d)
  }

  predicate WellFormedBody(body: seq<StringChar>) { forall i :: 0 <= i < |body| ==> WellFormedChar(body[i]) }

  predicate IsWhiteSpace(text: string) { forall i :: 0 <= i < |text| ==> IsSpace(text[i]) }

  /** Every character a number, true, false or null is written with, and many more. */
  predicate IsScalarChar(c: char) { !IsDelimiter(c) && c != '"' && !IsOpening(c) }

  predicate IsScalarText(text: string) { text != [] && forall i :: 0 <= i < |text| ==> IsScalarChar(text[i]) }

  predicate WellFormed(v: Value) {
    match v
    case Scalar(text) => IsScalarText(text)
    case Text(body) => WellFormedBody(body)
    case Container(isObject, entries) => WellFormedEntries(entries, isObject)
  }

  predicate WellFormedEntries(es: Entries, isObject: bool) {
    match es
    case Blank(space) => IsWhiteSpace(space)
    case Last(e) => WellFormedEntry(e, isObject)
    case More(e, rest) => WellFormedEntry(e, isObject) && !rest.Blank? && WellFormedEntries(rest, isObject)
  }

  predicate WellFormedEntry(e: Entry, isObject: bool) {
    && IsWhiteSpace(e.before) && IsWhiteSpace(e.after) && WellFormed(e.value)
    && (e.name.Named? <==> isObject)
    && (e.name.Named? ==>
          WellFormedBody(e.name.body) && IsWhiteSpace(e.name.beforeColon) && IsWhiteSpace(e.name.afterColon))
  }

  function PrintChar(c: StringChar): string {
    match c
    case Plain(c) => [c]
    case Escape(c) => ['\\', c]
    case Unicode(a, b, c, d) => ['\\', 'u', a, b, c, d]
  }

  function PrintBody(body: seq<StringChar>): string {
    if body == [] then [] else PrintBody(body[..|body| - 1]) + PrintChar(body[|body| - 1])
  }

  function PrintText(body: seq<StringChar>): string { ['"'] + PrintBody(body) + ['"'] }

  function Print(v: Value): string {
    match v
    case Scalar(text) => text
    case Text(body) => PrintText(body)
    case Container(isObject, entries) =>
      [if isObject then '{' else '['] + PrintEntries(entries) + [if isObject then '}' else ']']
  }

  function PrintEntries(es: Entries): string {
    match es
    case Blank(space) => space
    case Last(e) => PrintEntry(e)
    case More(e, rest) => PrintEntry(e) + ([','] + PrintEntries(rest))
  }

  function PrintName(name: Name): string {
    match name
    case Unnamed => []
    case Named(body, beforeColon, afterColon) => PrintText(body) + (beforeColon + ([':'] + afterColon))
  }

  function PrintEntry(e: Entry): string {
    e.before + (PrintName(e.name) + (Print(e.value) + e.after))
  }

  /** Containers, names, strings and scalars. */
  function Tokens(v: Value): nat {
    match v
    case Scalar(_) => 1
    case Text(_) => 1
    case Container(_, entries) => 1 + EntriesTokens(entries)
  }

  function EntriesTokens(es: Entries): nat {
    match es
    case Blank(_) => 0
    case Last(e) => EntryTokens(e)
    case More(e, rest) => EntryTokens(e) + EntriesTokens(rest)
  }

  function EntryTokens(e: Entry): nat { (if e.name.Named? then 1 else 0) + Tokens(e.value) }

  /** Nesting depth: the largest number of containers open at once. */
  function Depth(v: Value): nat {
    match v
    case Scalar(_) => 0
    case Text(_) => 0
    case Container(_, entries) => 1 + EntriesDepth(entries)
  }

  function EntriesDepth(es: Entries): nat {
    match es
    case Blank(_) => 0
    case Last(e) => Depth(e.value)
    case More(e, rest) => if Depth(e.value) > EntriesDepth(rest) then Depth(e.value) else EntriesDepth(rest)
  }

  /**
   `s'` is what remains of `s` after a piece of `tokens` tokens and `depth` levels: the same depth
   and the tokens added when the piece fits the limits, an error otherwise.
   */
  ghost predicate Passed(limits: Limits, s: Scan, s': Scan, tokens: nat, depth: nat)
    requires s.At?
  {
    if s.tokens + tokens <= limits.maxTokens && (depth == 0 || s.depth + depth <= limits.maxDepth)
    then s' == At(s.depth, s.tokens + tokens, Between) || s' == At(s.depth, s.tokens + tokens, InScalar)
    else !s'.At?
  }

  lemma {:induction false} SpaceKeeps(limits: Limits, s: Scan, space: string)
    requires IsWhiteSpace(space) && s.At? && (s.mode == Between || s.mode == InScalar)
    ensures Run(limits, s, space) == if space == [] then s else s.(mode := Between)
  {
    if space != [] { SpaceKeeps(limits, s, space[..|space| - 1]); }
  }

  lemma {:induction false} ScalarPasses(limits: Limits, s: Scan, text: string)
    requires IsScalarText(text) && s.At? && s.mode == Between
    ensures Run(limits, s, text) == Consume(limits, s, InScalar)
  {
    var last := |text| - 1;
    if last == 0 {
      assert text[..0] == [];
    } else {
      ScalarPasses(limits, s, text[..last]);
    }
  }

  lemma CharPasses(limits: Limits, s: Scan, c: StringChar)
    requires WellFormedChar(c) && s.At? && s.mode == InString
    ensures Run(limits, s, PrintChar(c)) == s
  {
    match c
    case Plain(p) =>
      RunOne(limits, s, p);
    case Escape(e) =>
      assert ['\\', e][..1] == ['\\'];
      RunOne(limits, s, '\\');
    case Unicode(h1, h2, h3, h4) =>
      RunAppend(limits, s, ['\\', 'u'], [h1, h2, h3, h4]);
      assert ['\\', 'u'] + [h1, h2, h3, h4] == PrintChar(c);
      assert ['\\', 'u'][..1] == ['\\'];
      RunOne(limits, s, '\\');
      assert Run(limits, s, ['\\', 'u']) == s;
      RunAppend(limits, s, [h1, h2], [h3, h4]);
      assert [h1, h2] + [h3, h4] == [h1, h2, h3, h4];
      assert [h1, h2][..1] == [h1] && [h3, h4][..1] == [h3];
      RunOne(limits, s, h1);
      RunOne(limits, s, h3);
  }

  lemma {:induction false} BodyPasses(limits: Limits, s: Scan, body: seq<StringChar>)
    requires WellFormedBody(body) && s.At? && s.mode == InString
    ensures Run(limits, s, PrintBody(body)) == s
  {
    if body != [] {
      var last := |body| - 1;
      BodyPasses(limits, s, body[..last]);
      RunAppend(limits, s, PrintBody(body[..last]), PrintChar(body[last]));
      CharPasses(limits, s, body[last]);
    }
  }

  lemma TextPasses(limits: Limits, s: Scan, body: seq<StringChar>)
    requires WellFormedBody(body) && s.At? && s.mode == Between
    ensures Run(limits, s, PrintText(body)) == Consume(limits, s, Between)
  {
    var entered := Step(limits, s, '"');
    RunOne(limits, s, '"');
    RunAppend(limits, s, ['"'] + PrintBody(body), ['"']);
    RunAppend(limits, s, ['"'], PrintBody(body));
    if entered.At? {
      BodyPasses(limits, entered, body);
    } else {
      RunRejected(limits, entered, PrintBody(body));
    }
    RunOne(limits, Run(limits, entered, PrintBody(body)), '"');
  }

  lemma ColonPasses(limits: Limits, s: Scan, before: string, after: string)
    requires IsWhiteSpace(before) && IsWhiteSpace(after) && (s.At? ==> s.mode == Between)
    ensures Run(limits, s, before + ([':'] + after)) == s
  {
    hide Run, IsWhiteSpace;
    if s.At? {
      RunAppend(limits, s, before, [':'] + after);
      RunAppend(limits, s, [':'], after);
      RunOne(limits, s, ':');
      SpaceKeeps(limits, s, before);
      SpaceKeeps(limits, s, after);
    } else {
      RunRejected(limits, s, before + ([':'] + after));
    }
  }

  lemma NamePasses(limits: Limits, s: Scan, name: Name)
    requires name.Named? ==>
               WellFormedBody(name.body) && IsWhiteSpace(name.beforeColon) && IsWhiteSpace(name.afterColon)
    requires s.At? && s.mode == Between
    ensures Run(limits, s, PrintName(name)) == if name.Named? then Consume(limits, s, Between) else s
  {
    if name.Named? {
      hide Run, PrintText, WellFormedBody, IsWhiteSpace;
      TextPasses(limits, s, name.body);
      RunAppend(limits, s, PrintText(name.body), name.beforeColon + ([':'] + name.afterColon));
      ColonPasses(limits, Consume(limits, s, Between), name.beforeColon, name.afterColon);
    }
  }

  lemma {:induction false} ValuePasses(limits: Limits, s: Scan, v: Value)
    requires WellFormed(v) && s.At? && s.mode == Between
    ensures Passed(limits, s, Run(limits, s, Print(v)), Tokens(v), Depth(v))
    decreases v
  {
    hide Run, PrintEntries, PrintText, WellFormedEntries, WellFormedBody;
    match v
    case Scalar(text) => ScalarPasses(limits, s, text);
    case Text(body) => TextPasses(limits, s, body);
    case Container(isObject, entries) =>
      var open, close := if isObject then '{' else '[', if isObject then '}' else ']';
      var entered := Step(limits, s, open);
      RunOne(limits, s, open);
      RunAppend(limits, s, [open] + PrintEntries(entries), [close]);
      RunAppend(limits, s, [open], PrintEntries(entries));
      if entered.At? {
        EntriesPass(limits, entered, entries, isObject);
      } else {
        RunRejected(limits, entered, PrintEntries(entries));
      }
      RunOne(limits, Run(limits, entered, PrintEntries(entries)), close);
  }

  lemma {:induction false} EntryPasses(limits: Limits, s: Scan, e: Entry, isObject: bool)
    requires WellFormedEntry(e, isObject) && s.At? && s.mode == Between
    ensures Passed(limits, s, Run(limits, s, PrintEntry(e)), EntryTokens(e), Depth(e.value))
    decreases e
  {
    hide Run, Print, PrintName, WellFormed, WellFormedBody, IsWhiteSpace, Tokens, Depth;
    SpaceKeeps(limits, s, e.before);
    RunAppend(limits, s, e.before, PrintName(e.name) + (Print(e.value) + e.after));
    NamePasses(limits, s, e.name);
    RunAppend(limits, s, PrintName(e.name), Print(e.value) + e.after);
    var named := if e.name.Named? then Consume(limits, s, Between) else s;
    RunAppend(limits, named, Print(e.value), e.after);
    if named.At? {
      ValuePasses(limits, named, e.value);
      var valued := Run(limits, named, Print(e.value));
      if valued.At? {
        SpaceKeeps(limits, valued, e.after);
      } else {
        RunRejected(limits, valued, e.after);
      }
    } else {
      RunRejected(limits, named, Print(e.value) + e.after);
    }
  }

  lemma {:induction false} EntriesPass(limits: Limits, s: Scan, es: Entries, isObject: bool)
    requires WellFormedEntries(es, isObject) && s.At? && s.mode == Between
    requires s.depth <= limits.maxDepth && s.tokens <= limits.maxTokens
    ensures Passed(limits, s, Run(limits, s, PrintEntries(es)), EntriesTokens(es), EntriesDepth(es))
    decreases es
  {
    hide Run, PrintEntry, WellFormedEntry, IsWhiteSpace, EntryTokens, Depth;
    match es
    case Blank(space) => SpaceKeeps(limits, s, space);
    case Last(e) => EntryPasses(limits, s, e, isObject);
    case More(e, rest) =>
      EntryPasses(limits, s, e, isObject);
      var first := Run(limits, s, PrintEntry(e));
      RunAppend(limits, s, PrintEntry(e), [','] + PrintEntries(rest));
      RunAppend(limits, first, [','], PrintEntries(rest));
      RunOne(limits, first, ',');
      if first.At? {
        EntriesPass(limits, Step(limits, first, ','), rest, isObject);
      } else {
        RunRejected(limits, first, [','] + PrintEntries(rest));
      }
  }

  /**
   However a JSON tree is printed, whatever white space stands between its tokens and whatever
   escapes its strings use, the scan accepts it exactly when the tree has at most `maxTokens`
   containers, names, strings and scalars and nests at most `maxDepth` levels.
   */
  lemma AcceptsExactlyWithinLimits(limits: Limits, before: string, v: Value, after: string)
    requires WellFormed(v) && IsWhiteSpace(before) && IsWhiteSpace(after)
    ensures Run(limits, START, before + (Print(v) + after)).At? <==>
            Tokens(v) <= limits.maxTokens && Depth(v) <= limits.maxDepth
  {
    RunAppend(limits, START, before, Print(v) + after);
    SpaceKeeps(limits, START, before);
    RunAppend(limits, START, Print(v), after);
    ValuePasses(limits, START, v);
    var valued := Run(limits, START, Print(v));
    if valued.At? {
      SpaceKeeps(limits, valued, after);
    } else {
      RunRejected(limits, valued, after);
    }
  }
}
