/**
 A recursive-descent parser for section 2 of RFC 8259, instrumented with the resources the scan of
 src/apex/adapters/http_resilience.py:194-242 is meant to bound: containers open at once, and
 strings, scalars and containers built. On a text the scan accepted, valid JSON or not, the parser
 never exceeds either limit before it succeeds or fails.
 */
module JsonParser {
  import opened JsonWire

  /** `built` and `peak` also count what was built before an error. */
  datatype Parsed = Parsed(ok: bool, pos: nat, built: nat, peak: nat)

  predicate CharAt(text: string, pos: nat, c: char) { pos < |text| && text[pos] == c }

  predicate IsDigit(c: char) { '0' <= c <= '9' }

  function SkipSpace(text: string, pos: nat): (end: nat)
    requires pos <= |text|
    ensures pos <= end <= |text|
    decreases |text| - pos
  {
    if pos < |text| && IsSpace(text[pos]) then SkipSpace(text, pos + 1) else pos
  }

  /** The position after the closing quote of a string whose opening quote is before `pos`, or nothing. */
  function StringEnd(text: string, pos: nat): (end: int)
    requires pos <= |text|
    ensures end == -1 || pos < end <= |text|
    decreases |text| - pos
  {
    if pos == |text| || text[pos] < ' ' then -1
    else if text[pos] == '"' then pos + 1
    else if text[pos] != '\\' then StringEnd(text, pos + 1)
    else if pos + 1 < |text| && IsSimpleEscape(text[pos + 1]) then StringEnd(text, pos + 2)
    else if pos + 5 < |text| && text[pos + 1] == 'u' && IsHex(text[pos + 2]) && IsHex(text[pos + 3])
            && IsHex(text[pos + 4]) && IsHex(text[pos + 5]) then StringEnd(text, pos + 6)
    else -1
  }

  function DigitsEnd(text: string, pos: nat): (end: nat)
    requires pos <= |text|
    ensures pos <= end <= |text| && forall i :: pos <= i < end ==> IsDigit(text[i])
    decreases |text| - pos
  {
    if pos < |text| && IsDigit(text[pos]) then DigitsEnd(text, pos + 1) else pos
  }

  /** [ minus ] int */
  function IntegerEnd(text: string, pos: nat): (end: int)
    requires pos <= |text|
    ensures end == -1 || (pos < end <= |text| && forall i :: pos <= i < end ==> IsScalarChar(text[i]))
  {
    var first := if CharAt(text, pos, '-') then pos + 1 else pos;
    if first >= |text| || !IsDigit(text[first]) then -1
    else if text[first] == '0' then first + 1
    else DigitsEnd(text, first + 1)
  }

  /** [ frac ] */
  function FractionEnd(text: string, pos: nat): (end: nat)
    requires pos <= |text|
    ensures pos <= end <= |text| && forall i :: pos <= i < end ==> IsScalarChar(text[i])
  {
    if CharAt(text, pos, '.') && pos + 1 < |text| && IsDigit(text[pos + 1]) then DigitsEnd(text, pos + 1) else pos
  }

  /** [ exp ] */
  function ExponentEnd(text: string, pos: nat): (end: nat)
    requires pos <= |text|
    ensures pos <= end <= |text| && forall i :: pos <= i < end ==> IsScalarChar(text[i])
  {
    if !CharAt(text, pos, 'e') && !CharAt(text, pos, 'E') then pos
    else
      var digits := if CharAt(text, pos + 1, '+') || CharAt(text, pos + 1, '-') then pos + 2 else pos + 1;
      if digits < |text| && IsDigit(text[digits]) then DigitsEnd(text, digits) else pos
  }

  /** number = [ minus ] int [ frac ] [ exp ] */
  function NumberEnd(text: string, pos: nat): (end: int)
    requires pos <= |text|
    ensures end == -1 || (pos < end <= |text| && forall i :: pos <= i < end ==> IsScalarChar(text[i]))
  {
    var integer := IntegerEnd(text, pos);
    if integer == -1 then -1 else ExponentEnd(text, FractionEnd(text, integer))
  }

  /** A number, true, false or null. */
  function ScalarEnd(text: string, pos: nat): (end: int)
    requires pos <= |text|
    ensures end == -1 || (pos < end <= |text| && forall i :: pos <= i < end ==> IsScalarChar(text[i]))
  {
    if "true" <= text[pos..] then LiteralChars(text, pos, "true"); pos + 4
    else if "false" <= text[pos..] then LiteralChars(text, pos, "false"); pos + 5
    else if "null" <= text[pos..] then LiteralChars(text, pos, "null"); pos + 4
    else NumberEnd(text, pos)
  }

  lemma LiteralChars(text: string, pos: nat, literal: string)
    requires pos <= |text| && literal <= text[pos..]
    requires forall i :: 0 <= i < |literal| ==> 'a' <= literal[i] <= 'z'
    ensures forall i :: pos <= i < pos + |literal| ==> IsScalarChar(text[i])
  {
    forall i | pos <= i < pos + |literal| ensures IsScalarChar(text[i]) {
      assert text[i] == text[pos..][i - pos] == literal[i - pos];
    }
  }

  /** value, with `open` containers already open. */
  function ParseValue(text: string, pos: nat, open: nat, built: nat, peak: nat): (r: Parsed)
    requires pos <= |text|
    ensures r.pos <= |text| && (r.ok ==> pos < r.pos)
    decreases |text| - pos, 0
  {
    if pos == |text| then Parsed(false, pos, built, peak)
    else if text[pos] == '"' then
      var end := StringEnd(text, pos + 1);
      if end == -1 then Parsed(false, pos, built, peak) else Parsed(true, end, built + 1, peak)
    else if IsOpening(text[pos]) then
      var peak' := if open + 1 > peak then open + 1 else peak;
      var close := if text[pos] == '{' then '}' else ']';
      var inside := SkipSpace(text, pos + 1);
      if CharAt(text, inside, close) then Parsed(true, inside + 1, built + 1, peak')
      else ParseEntries(text, inside, open + 1, built + 1, peak', close)
    else
      var end := ScalarEnd(text, pos);
      if end == -1 then Parsed(false, pos, built, peak) else Parsed(true, end, built + 1, peak)
  }

  /** One or more comma-separated entries up to and including the closing bracket. */
  function ParseEntries(text: string, pos: nat, open: nat, built: nat, peak: nat, close: char): (r: Parsed)
    requires pos <= |text|
    ensures r.pos <= |text| && (r.ok ==> pos < r.pos)
    decreases |text| - pos, 2
  {
    var named := if close == '}' then ParseName(text, pos, built, peak) else Parsed(true, pos, built, peak);
    if !named.ok then named
    else
      var value := ParseValue(text, named.pos, open, named.built, named.peak);
      if !value.ok then value
      else
        var next := SkipSpace(text, value.pos);
        if CharAt(text, next, close) then Parsed(true, next + 1, value.built, value.peak)
        else if CharAt(text, next, ',') then
          ParseEntries(text, SkipSpace(text, next + 1), open, value.built, value.peak, close)
        else Parsed(false, next, value.built, value.peak)
  }

  /** The name of an object member, up to where its value starts. */
  function ParseName(text: string, pos: nat, built: nat, peak: nat): (r: Parsed)
    requires pos <= |text|
    ensures pos <= r.pos <= |text|
  {
    if !CharAt(text, pos, '"') then Parsed(false, pos, built, peak)
    else
      var end := StringEnd(text, pos + 1);
      if end == -1 then Parsed(false, pos, built, peak)
      else
        var colon := SkipSpace(text, end);
        if CharAt(text, colon, ':') then Parsed(true, SkipSpace(text, colon + 1), built + 1, peak)
        else Parsed(false, colon, built + 1, peak)
  }

  /** JSON-text = ws value ws, and nothing after it. */
  function ParseText(text: string): Parsed {
    var r := ParseValue(text, SkipSpace(text, 0), 0, 0, 0);
    if r.ok && SkipSpace(text, r.pos) < |text| then r.(ok := false) else r
  }

  // ---- The scanner in step with the parser --------------------------------------------------

  /** At `pos` the scanner has counted exactly what the parser has built and left open. */
  ghost predicate InStep(limits: Limits, text: string, pos: nat, open: nat, built: nat, mode: Mode)
    requires pos <= |text|
  {
    Prefix(limits, text, pos) == At(open, built, mode)
  }

  /** In step after a complete value: a scalar is left only by the next delimiter. */
  ghost predicate AfterValue(limits: Limits, text: string, pos: nat, open: nat, built: nat)
    requires pos <= |text|
  {
    InStep(limits, text, pos, open, built, Between) || InStep(limits, text, pos, open, built, InScalar)
  }

  ghost predicate WithinLimits(limits: Limits, built: nat, peak: nat) {
    built <= limits.maxTokens && peak <= limits.maxDepth
  }

  /** Every prefix of an accepted text is accepted. */
  lemma PrefixAccepted(limits: Limits, text: string, pos: nat)
    requires pos <= |text| && Run(limits, START, text).At?
    ensures Prefix(limits, text, pos).At?
  {
    if !Prefix(limits, text, pos).At? { RejectedStays(limits, text, pos); }
  }

  /** One more character of an accepted text. */
  lemma Advance(limits: Limits, text: string, pos: nat)
    requires pos < |text| && Run(limits, START, text).At?
    ensures Prefix(limits, text, pos + 1) == Step(limits, Prefix(limits, text, pos), text[pos])
    ensures Prefix(limits, text, pos + 1).At?
  {
    PrefixStep(limits, text, pos);
    PrefixAccepted(limits, text, pos + 1);
  }

  lemma {:induction false} SpaceInStep(limits: Limits, text: string, pos: nat, open: nat, built: nat)
    requires pos <= |text| && Run(limits, START, text).At? && AfterValue(limits, text, pos, open, built)
    ensures var end := SkipSpace(text, pos);
            && AfterValue(limits, text, end, open, built)
            && (InStep(limits, text, pos, open, built, Between) ==> InStep(limits, text, end, open, built, Between))
    decreases |text| - pos
  {
    if pos < |text| && IsSpace(text[pos]) {
      Advance(limits, text, pos);
      SpaceInStep(limits, text, pos + 1, open, built);
    }
  }

  lemma {:induction false} StringInStep(limits: Limits, text: string, pos: nat, open: nat, built: nat)
    requires pos <= |text| && Run(limits, START, text).At? && InStep(limits, text, pos, open, built, InString)
    ensures var end := StringEnd(text, pos);
            end != -1 ==> InStep(limits, text, end, open, built, Between)
    decreases |text| - pos
  {
    if StringEnd(text, pos) != -1 {
      Advance(limits, text, pos);
      if text[pos] == '"' {
      } else if text[pos] != '\\' {
        StringInStep(limits, text, pos + 1, open, built);
      } else {
        Advance(limits, text, pos + 1);
        if IsSimpleEscape(text[pos + 1]) {
          StringInStep(limits, text, pos + 2, open, built);
        } else {
          Advance(limits, text, pos + 2);
          Advance(limits, text, pos + 3);
          Advance(limits, text, pos + 4);
          Advance(limits, text, pos + 5);
          StringInStep(limits, text, pos + 6, open, built);
        }
      }
    }
  }

  lemma {:induction false} ScalarInStep(limits: Limits, text: string, pos: nat, end: nat, open: nat, built: nat)
    requires pos < end <= |text| && Run(limits, START, text).At? && InStep(limits, text, pos, open, built, Between)
    requires forall i :: pos <= i < end ==> IsScalarChar(text[i])
    ensures InStep(limits, text, end, open, built + 1, InScalar)
    decreases end
  {
    Advance(limits, text, end - 1);
    if pos + 1 < end { ScalarInStep(limits, text, pos, end - 1, open, built); }
  }

  /** An accepted scanner state is within the limits it was reached under. */
  lemma {:induction false} AcceptedWithinLimits(limits: Limits, text: string, pos: nat)
    requires pos <= |text| && Prefix(limits, text, pos).At?
    ensures Prefix(limits, text, pos).tokens <= limits.maxTokens
    ensures Prefix(limits, text, pos).depth <= limits.maxDepth
    decreases pos
  {
    if pos > 0 {
      PrefixStep(limits, text, pos - 1);
      AcceptedWithinLimits(limits, text, pos - 1);
    }
  }

  lemma PunctuationInStep(limits: Limits, text: string, pos: nat, open: nat, built: nat)
    requires CharAt(text, pos, ',') || CharAt(text, pos, ':')
    requires Run(limits, START, text).At? && AfterValue(limits, text, pos, open, built)
    ensures InStep(limits, text, pos + 1, open, built, Between)
  {
    Advance(limits, text, pos);
  }

  lemma ClosingInStep(limits: Limits, text: string, pos: nat, open: nat, built: nat)
    requires CharAt(text, pos, ']') || CharAt(text, pos, '}')
    requires Run(limits, START, text).At? && AfterValue(limits, text, pos, open, built) && open >= 1
    ensures InStep(limits, text, pos + 1, open - 1, built, Between)
  {
    Advance(limits, text, pos);
  }

  lemma OpeningInStep(limits: Limits, text: string, pos: nat, open: nat, built: nat)
    requires pos < |text| && Run(limits, START, text).At? && InStep(limits, text, pos, open, built, Between)
    requires IsOpening(text[pos])
    ensures InStep(limits, text, pos + 1, open + 1, built + 1, Between)
    ensures open + 1 <= limits.maxDepth && built + 1 <= limits.maxTokens
  {
    Advance(limits, text, pos);
    AcceptedWithinLimits(limits, text, pos + 1);
  }

  lemma StringValueInStep(limits: Limits, text: string, pos: nat, open: nat, built: nat)
    requires CharAt(text, pos, '"') && Run(limits, START, text).At? && InStep(limits, text, pos, open, built, Between)
    ensures built + 1 <= limits.maxTokens
    ensures var end := StringEnd(text, pos + 1);
            end != -1 ==> InStep(limits, text, end, open, built + 1, Between)
  {
    Advance(limits, text, pos);
    AcceptedWithinLimits(limits, text, pos + 1);
    StringInStep(limits, text, pos + 1, open, built + 1);
  }

  lemma NameInStep(limits: Limits, text: string, pos: nat, open: nat, built: nat, peak: nat)
    requires pos <= |text| && Run(limits, START, text).At? && InStep(limits, text, pos, open, built, Between)
    requires WithinLimits(limits, built, peak)
    ensures var r := ParseName(text, pos, built, peak);
            WithinLimits(limits, r.built, r.peak) && (r.ok ==> InStep(limits, text, r.pos, open, r.built, Between))
  {
    hide InStep, Run, StringEnd, SkipSpace;
    if CharAt(text, pos, '"') {
      StringValueInStep(limits, text, pos, open, built);
      var end := StringEnd(text, pos + 1);
      if end != -1 {
        SpaceInStep(limits, text, end, open, built + 1);
        var colon := SkipSpace(text, end);
        if CharAt(text, colon, ':') {
          PunctuationInStep(limits, text, colon, open, built + 1);
          SpaceInStep(limits, text, colon + 1, open, built + 1);
        }
      }
    }
  }

  lemma ScalarWithinLimits(limits: Limits, text: string, end: nat, open: nat, built: nat)
    requires end <= |text| && InStep(limits, text, end, open, built, InScalar)
    ensures built <= limits.maxTokens
  {
    AcceptedWithinLimits(limits, text, end);
  }

  lemma {:induction false} ValueInStep(limits: Limits, text: string, pos: nat, open: nat, built: nat, peak: nat)
    requires pos <= |text| && Run(limits, START, text).At? && InStep(limits, text, pos, open, built, Between)
    requires WithinLimits(limits, built, peak)
    ensures var r := ParseValue(text, pos, open, built, peak);
            WithinLimits(limits, r.built, r.peak) && (r.ok ==> AfterValue(limits, text, r.pos, open, r.built))
    decreases |text| - pos, 0
  {
    hide InStep, Run, StringEnd, SkipSpace, ScalarEnd, IsScalarChar, ParseEntries;
    if pos == |text| {
    } else if text[pos] == '"' {
      StringValueInStep(limits, text, pos, open, built);
    } else if IsOpening(text[pos]) {
      OpeningInStep(limits, text, pos, open, built);
      SpaceInStep(limits, text, pos + 1, open + 1, built + 1);
      var inside := SkipSpace(text, pos + 1);
      var close := if text[pos] == '{' then '}' else ']';
      if CharAt(text, inside, close) {
        ClosingInStep(limits, text, inside, open + 1, built + 1);
      } else {
        EntriesInStep(limits, text, inside, open + 1, built + 1, if open + 1 > peak then open + 1 else peak, close);
      }
    } else {
      var end := ScalarEnd(text, pos);
      if end != -1 {
        ScalarInStep(limits, text, pos, end, open, built);
        ScalarWithinLimits(limits, text, end, open, built + 1);
      }
    }
  }

  lemma {:induction false} EntriesInStep(limits: Limits, text: string, pos: nat, open: nat, built: nat, peak: nat,
                                         close: char)
    requires pos <= |text| && Run(limits, START, text).At? && InStep(limits, text, pos, open, built, Between)
    requires WithinLimits(limits, built, peak) && open >= 1 && (close == ']' || close == '}')
    ensures var r := ParseEntries(text, pos, open, built, peak, close);
            && WithinLimits(limits, r.built, r.peak)
            && (r.ok ==> InStep(limits, text, r.pos, open - 1, r.built, Between))
    decreases |text| - pos, 2
  {
    hide InStep, Run, SkipSpace, ParseValue, ParseName;
    NameInStep(limits, text, pos, open, built, peak);
    var named := if close == '}' then ParseName(text, pos, built, peak) else Parsed(true, pos, built, peak);
    if named.ok {
      ValueInStep(limits, text, named.pos, open, named.built, named.peak);
      var value := ParseValue(text, named.pos, open, named.built, named.peak);
      if value.ok {
        SpaceInStep(limits, text, value.pos, open, value.built);
        var next := SkipSpace(text, value.pos);
        if CharAt(text, next, close) {
          ClosingInStep(limits, text, next, open, value.built);
        } else if CharAt(text, next, ',') {
          PunctuationInStep(limits, text, next, open, value.built);
          SpaceInStep(limits, text, next + 1, open, value.built);
          EntriesInStep(limits, text, SkipSpace(text, next + 1), open, value.built, value.peak, close);
        }
      }
    }
  }

  /**
   Whether or not the text is JSON: once the scan accepted it, a parser never has more than
   `maxDepth` containers open and never builds more than `maxTokens` values, up to the point
   where it succeeds or meets its first error.
   */
  lemma AcceptedTextsAreCheapToParse(limits: Limits, text: string)
    requires Run(limits, START, text).At?
    ensures ParseText(text).built <= limits.maxTokens && ParseText(text).peak <= limits.maxDepth
    ensures ParseText(text).ok ==> AfterValue(limits, text, ParseText(text).pos, 0, ParseText(text).built)
  {
    assert text[..0] == [];
    SpaceInStep(limits, text, 0, 0, 0);
    ValueInStep(limits, text, SkipSpace(text, 0), 0, 0, 0);
  }
}
