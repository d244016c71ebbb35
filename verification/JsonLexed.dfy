/**
 What the structural scan of src/apex/adapters/http_resilience.py:194-242 answers on every text, JSON or not: every
 text can be cut into lexemes, and the scan counts them.
 */
module JsonLexed {
  import opened JsonWire

  /** What stands in a string between its quotes: a character, or a backslash with the character it escapes. */
  datatype Unit = One(c: char) | Pair(c: char)

  datatype Lexeme =
    | Gap(c: char)                              // white space, a comma or a colon
    | Opening(c: char)
    | Closing(c: char)
    | Quoted(body: seq<Unit>)
    | Unclosed(body: seq<Unit>, escape: bool)   // the text ends inside a string, perhaps right after a backslash
    | Word(text: string)                        // anything else, up to the next delimiter or the end

  predicate IsClosing(c: char) { c == ']' || c == '}' }

  predicate WellFormedUnits(body: seq<Unit>) {
    forall i :: 0 <= i < |body| ==> body[i].One? ==> body[i].c != '"' && body[i].c != '\\'
  }

  predicate WellFormedLexeme(l: Lexeme) {
    match l
    case Gap(c) => IsDelimiter(c) && !IsClosing(c)
    case Opening(c) => IsOpening(c)
    case Closing(c) => IsClosing(c)
    case Quoted(body) => WellFormedUnits(body)
    case Unclosed(body, _) => WellFormedUnits(body)
    case Word(text) => text != [] && IsScalarChar(text[0]) && forall i :: 0 <= i < |text| ==> !IsDelimiter(text[i])
  }

  /** A word is followed by a delimiter or nothing, an unfinished string by nothing. */
  predicate Separated(ls: seq<Lexeme>) {
    forall i :: 0 <= i < |ls| - 1 ==>
      !ls[i].Unclosed? && (ls[i].Word? ==> ls[i + 1].Gap? || ls[i + 1].Closing?)
  }

  predicate Lexed(ls: seq<Lexeme>) {
    Separated(ls) && forall i :: 0 <= i < |ls| ==> WellFormedLexeme(ls[i])
  }

  function PrintUnits(body: seq<Unit>): string {
    if body == [] then []
    else (if body[0].One? then [body[0].c] else ['\\', body[0].c]) + PrintUnits(body[1..])
  }

  function PrintLexeme(l: Lexeme): string {
    match l
    case Gap(c) => [c]
    case Opening(c) => [c]
    case Closing(c) => [c]
    case Quoted(body) => ['"'] + (PrintUnits(body) + ['"'])
    case Unclosed(body, escape) => ['"'] + (PrintUnits(body) + if escape then ['\\'] else [])
    case Word(text) => text
  }

  function PrintAll(ls: seq<Lexeme>): string {
    if ls == [] then [] else PrintLexeme(ls[0]) + PrintAll(ls[1..])
  }

  /** The lexemes that count: opening brackets, strings and words. */
  function Counted(ls: seq<Lexeme>): nat {
    if ls == [] then 0 else (if ls[0].Gap? || ls[0].Closing? then 0 else 1) + Counted(ls[1..])
  }

  /** Opening brackets less closing ones; closing ones may come first. */
  function Rise(ls: seq<Lexeme>): int {
    if ls == [] then 0 else (if ls[0].Opening? then 1 else if ls[0].Closing? then -1 else 0) + Rise(ls[1..])
  }

  // ---- One lexeme ---------------------------------------------------------------------------

  lemma {:induction false} UnitsPass(limits: Limits, s: Scan, body: seq<Unit>)
    requires WellFormedUnits(body) && s.At? && s.mode == InString
    ensures Run(limits, s, PrintUnits(body)) == s
  {
    if body != [] {
      var unit := if body[0].One? then [body[0].c] else ['\\', body[0].c];
      RunAppend(limits, s, unit, PrintUnits(body[1..]));
      if body[0].One? {
        RunOne(limits, s, body[0].c);
      } else {
        assert ['\\', body[0].c] == ['\\'] + [body[0].c];
        RunAppend(limits, s, ['\\'], [body[0].c]);
        RunOne(limits, s, '\\');
        RunOne(limits, s.(mode := Escaped), body[0].c);
      }
      UnitsPass(limits, s, body[1..]);
    }
  }

  lemma {:induction false} WordPasses(limits: Limits, s: Scan, text: string)
    requires WellFormedLexeme(Word(text)) && s.At? && s.mode == Between
    ensures Run(limits, s, text) == Consume(limits, s, InScalar)
  {
    var last := |text| - 1;
    if last == 0 {
      assert text[..0] == [];
    } else {
      WordPasses(limits, s, text[..last]);
    }
  }

  lemma QuoteEnters(limits: Limits, s: Scan)
    requires s.At? && s.mode == Between
    ensures Run(limits, s, ['"']) == Consume(limits, s, InString)
  {
    RunOne(limits, s, '"');
  }

  /** How a string may go on after its units. */
  predicate IsEnd(end: string, after: Mode) {
    (end == ['"'] && after == Between) || (end == ['\\'] && after == Escaped) || (end == [] && after == InString)
  }

  lemma EndPasses(limits: Limits, s: Scan, end: string, after: Mode)
    requires s.At? && s.mode == InString && IsEnd(end, after)
    ensures Run(limits, s, end) == s.(mode := after)
  {
    if end != [] { RunOne(limits, s, end[0]); }
  }

  lemma StringPasses(limits: Limits, s: Scan, body: seq<Unit>, end: string, after: Mode)
    requires WellFormedUnits(body) && s.At? && s.mode == Between && IsEnd(end, after)
    ensures Run(limits, s, ['"'] + (PrintUnits(body) + end)) == Consume(limits, s, after)
  {
    hide Run, PrintUnits, IsEnd, WellFormedUnits;
    var entered := Consume(limits, s, InString);
    QuoteEnters(limits, s);
    RunAppend(limits, s, ['"'], PrintUnits(body) + end);
    RunAppend(limits, entered, PrintUnits(body), end);
    if entered.At? {
      UnitsPass(limits, entered, body);
      EndPasses(limits, entered, end, after);
    } else {
      RunRejected(limits, entered, PrintUnits(body) + end);
    }
  }

  /** Where the scan stands after a lexeme. */
  function ModeAfter(l: Lexeme): Mode {
    match l
    case Word(_) => InScalar
    case Unclosed(_, escape) => if escape then Escaped else InString
    case _ => Between
  }

  function After(limits: Limits, s: Scan, l: Lexeme): Scan
    requires s.At?
  {
    if l.Gap? then s.(mode := Between)
    else if l.Closing? then s.(depth := s.depth - 1, mode := Between)
    else
      var counted := Consume(limits, s, ModeAfter(l));
      if !l.Opening? || !counted.At? then counted
      else if s.depth + 1 > limits.maxDepth then TooDeep
      else counted.(depth := s.depth + 1)
  }

  lemma AfterFacts(limits: Limits, s: Scan, l: Lexeme)
    requires s.At? && s.depth <= limits.maxDepth && s.tokens <= limits.maxTokens
    ensures var next, count := After(limits, s, l), if l.Gap? || l.Closing? then 0 else 1;
            && Rise([l]) == (if l.Opening? then 1 else if l.Closing? then -1 else 0)
            && (next.At? <==> s.tokens + count <= limits.maxTokens && s.depth + Rise([l]) <= limits.maxDepth)
            && (next.At? ==> next == At(s.depth + Rise([l]), s.tokens + count, ModeAfter(l)))
  {
    assert [l][1..] == [];
  }

  lemma LexemePasses(limits: Limits, s: Scan, l: Lexeme)
    requires WellFormedLexeme(l) && s.At? && (s.mode == Between || (s.mode == InScalar && (l.Gap? || l.Closing?)))
    ensures Run(limits, s, PrintLexeme(l)) == After(limits, s, l)
  {
    match l
    case Gap(c) => RunOne(limits, s, c);
    case Opening(c) => RunOne(limits, s, c);
    case Closing(c) => RunOne(limits, s, c);
    case Quoted(body) => StringPasses(limits, s, body, ['"'], Between);
    case Unclosed(body, escape) =>
      StringPasses(limits, s, body, if escape then ['\\'] else [], ModeAfter(l));
    case Word(text) => WordPasses(limits, s, text);
  }

  // ---- All of them --------------------------------------------------------------------------

  /** No beginning of `ls` rises above `limit`. */
  ghost predicate StaysBelow(ls: seq<Lexeme>, limit: int) {
    forall i :: 0 <= i <= |ls| ==> Rise(ls[..i]) <= limit
  }

  lemma StaysBelowTail(ls: seq<Lexeme>, limit: int)
    requires ls != []
    ensures StaysBelow(ls, limit) <==> limit >= 0 && StaysBelow(ls[1..], limit - Rise(ls[..1]))
  {
    assert forall i :: 0 <= i < |ls| ==> ls[..i + 1][1..] == ls[1..][..i] && ls[..i + 1][0] == ls[0];
    assert ls[..1] == [ls[0]] && [ls[0]][1..] == [];
    assert ls[..0] == [];
    if StaysBelow(ls, limit) {
      assert Rise(ls[..0]) <= limit;
      forall i | 0 <= i <= |ls[1..]| ensures Rise(ls[1..][..i]) <= limit - Rise(ls[..1]) {
        assert Rise(ls[..i + 1]) <= limit;
      }
    } else {
      var i :| 0 <= i <= |ls| && Rise(ls[..i]) > limit;
      if i > 0 { assert Rise(ls[1..][..i - 1]) == Rise(ls[..i]) - Rise(ls[..1]); }
    }
  }

  lemma {:induction false} LexemesPass(limits: Limits, s: Scan, ls: seq<Lexeme>)
    requires Lexed(ls) && s.At? && s.depth <= limits.maxDepth && s.tokens <= limits.maxTokens
    requires s.mode == Between || (s.mode == InScalar && (ls == [] || ls[0].Gap? || ls[0].Closing?))
             || (ls == [] && s.mode != Between)
    ensures var whole := Run(limits, s, PrintAll(ls));
            && (whole.At? <==> s.tokens + Counted(ls) <= limits.maxTokens && StaysBelow(ls, limits.maxDepth - s.depth))
            && (whole.At? ==> whole.tokens == s.tokens + Counted(ls) && whole.depth == s.depth + Rise(ls))
    decreases |ls|
  {
    hide Run, PrintLexeme, StaysBelow, WellFormedLexeme, After, Consume;
    if ls == [] {
      NothingRises(ls, limits.maxDepth - s.depth);
      RunNothing(limits, s);
    } else {
      LexemePasses(limits, s, ls[0]);
      AfterFacts(limits, s, ls[0]);
      RunAppend(limits, s, PrintLexeme(ls[0]), PrintAll(ls[1..]));
      StaysBelowTail(ls, limits.maxDepth - s.depth);
      assert ls[..1] == [ls[0]] && [ls[0]][1..] == [];
      var next := After(limits, s, ls[0]);
      if next.At? {
        LexemesPass(limits, next, ls[1..]);
      } else {
        RunRejected(limits, next, PrintAll(ls[1..]));
        if s.depth + Rise(ls[..1]) > limits.maxDepth {
          AboveAtOnce(ls[1..], limits.maxDepth - s.depth - Rise(ls[..1]));
        }
      }
    }
  }

  lemma RunNothing(limits: Limits, s: Scan)
    ensures Run(limits, s, []) == s
  {
  }

  lemma NothingRises(ls: seq<Lexeme>, limit: int)
    requires ls == []
    ensures Rise(ls) == 0 && (StaysBelow(ls, limit) <==> limit >= 0)
  {
    assert ls[..0] == [];
    if StaysBelow(ls, limit) { assert Rise(ls[..0]) <= limit; }
  }

  lemma AboveAtOnce(ls: seq<Lexeme>, limit: int)
    requires limit < 0
    ensures !StaysBelow(ls, limit)
  {
    assert Rise(ls[..0]) == 0;
  }

  /**
   On every text: the scan accepts it exactly when it has at most `maxTokens` opening brackets, strings and words,
   and at no point `maxDepth` more opening brackets than closing ones.
   */
  lemma AcceptsExactlyByCount(limits: Limits, text: string) returns (ls: seq<Lexeme>)
    ensures Lexed(ls) && PrintAll(ls) == text
    ensures var whole := Run(limits, START, text);
            && (whole.At? <==> Counted(ls) <= limits.maxTokens && StaysBelow(ls, limits.maxDepth))
            && (whole.At? ==> whole.tokens == Counted(ls) && whole.depth == Rise(ls))
  {
    ls := EveryTextIsLexed(text);
    LexemesPass(limits, START, ls);
  }

  // ---- Cutting a text -----------------------------------------------------------------------

  lemma UnitInFront(l: Lexeme, longer: Lexeme, unit: Unit, front: string, text: string, rest: string)
    requires (l.Quoted? && longer.Quoted?) || (l.Unclosed? && longer.Unclosed? && l.escape == longer.escape)
    requires longer.body == [unit] + l.body && front == (if unit.One? then [unit.c] else ['\\', unit.c])
    requires ['"'] + text == PrintLexeme(l) + rest
    ensures ['"'] + (front + text) == PrintLexeme(longer) + rest
  {
    var end := if l.Quoted? then ['"'] else if l.escape then ['\\'] else [];
    var p := PrintUnits(l.body);
    assert longer.body[1..] == l.body && PrintUnits(longer.body) == front + p;
    hide PrintUnits;
    WithoutFirst('"', text, p + end, rest);
    Regrouped('"', front, p, end, rest);
  }

  lemma WithoutFirst(c: char, a: string, b: string, rest: string)
    requires [c] + a == ([c] + b) + rest
    ensures a == b + rest
  {
    assert ([c] + a)[1..] == a && (([c] + b) + rest)[1..] == b + rest;
  }

  lemma Regrouped(c: char, front: string, p: string, end: string, rest: string)
    ensures [c] + (front + ((p + end) + rest)) == ([c] + ((front + p) + end)) + rest
  {
  }

  /** The units up to the closing quote, or up to the end of the text. */
  lemma {:induction false} CutString(text: string) returns (l: Lexeme, rest: string)
    ensures (l.Quoted? || l.Unclosed?) && WellFormedLexeme(l) && (l.Unclosed? ==> rest == [])
    ensures |rest| <= |text| && ['"'] + text == PrintLexeme(l) + rest
    decreases |text|
  {
    if text == [] {
      l, rest := Unclosed([], false), [];
    } else if text[0] == '"' {
      l, rest := Quoted([]), text[1..];
    } else if text == ['\\'] {
      l, rest := Unclosed([], true), [];
    } else {
      var unit := if text[0] == '\\' then Pair(text[1]) else One(text[0]);
      var n := if text[0] == '\\' then 2 else 1;
      l, rest := CutString(text[n..]);
      var body := [unit] + l.body;
      var longer := if l.Quoted? then Quoted(body) else Unclosed(body, l.escape);
      UnitInFront(l, longer, unit, text[..n], text[n..], rest);
      assert text == text[..n] + text[n..];
      l := longer;
    }
  }

  /** The characters up to the next delimiter. */
  lemma {:induction false} CutWord(text: string) returns (n: nat)
    ensures n <= |text| && (n < |text| ==> IsDelimiter(text[n])) && forall i :: 0 <= i < n ==> !IsDelimiter(text[i])
    decreases |text|
  {
    if text == [] || IsDelimiter(text[0]) {
      n := 0;
    } else {
      n := CutWord(text[1..]);
      n := n + 1;
      assert forall i :: 1 <= i <= |text| - 1 ==> text[i] == text[1..][i - 1];
    }
  }

  lemma {:induction false} EveryTextIsLexed(text: string) returns (ls: seq<Lexeme>)
    ensures Lexed(ls) && PrintAll(ls) == text
    ensures text != [] ==> ls != [] && (IsDelimiter(text[0]) ==> ls[0].Gap? || ls[0].Closing?)
    decreases |text|
  {
    if text == [] {
      ls := [];
    } else {
      var l, rest;
      if text[0] == '"' {
        l, rest := CutString(text[1..]);
      } else if IsScalarChar(text[0]) {
        var n := CutWord(text);
        l, rest := Word(text[..n]), text[n..];
      } else {
        rest := text[1..];
        l := if IsOpening(text[0]) then Opening(text[0])
             else if IsClosing(text[0]) then Closing(text[0]) else Gap(text[0]);
      }
      assert text == PrintLexeme(l) + rest;
      var others := EveryTextIsLexed(rest);
      ls := [l] + others;
      assert ls[1..] == others;
    }
  }

  // ---- Which error --------------------------------------------------------------------------

  /** An error is raised where a limit is first exceeded, and says which; the number of tokens is looked at first. */
  lemma {:induction false} RejectedAtFirstExcess(limits: Limits, text: string) returns (pos: nat)
    requires !Run(limits, START, text).At?
    ensures pos < |text| && Prefix(limits, text, pos).At?
    ensures Run(limits, START, text).TooManyTokens? ==> Prefix(limits, text, pos).tokens == limits.maxTokens
    ensures Run(limits, START, text).TooDeep? ==>
              && IsOpening(text[pos]) && Prefix(limits, text, pos).tokens < limits.maxTokens
              && Prefix(limits, text, pos).depth == limits.maxDepth
    decreases |text|
  {
    var last := |text| - 1;
    if Run(limits, START, text[..last]).At? {
      pos := last;
      WithinSoFar(limits, text[..last]);
    } else {
      pos := RejectedAtFirstExcess(limits, text[..last]);
      assert text[..last][..pos] == text[..pos];
    }
  }

  lemma {:induction false} WithinSoFar(limits: Limits, text: string)
    requires Run(limits, START, text).At?
    ensures Run(limits, START, text).tokens <= limits.maxTokens && Run(limits, START, text).depth <= limits.maxDepth
  {
    if text != [] { WithinSoFar(limits, text[..|text| - 1]); }
  }
}
