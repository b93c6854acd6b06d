/** The closed rule grammar: four sentence shapes over one input key. */
module Rules {
  import opened Outcome

  datatype Scalar = IntValue(number: int) | TextValue(text: string) | BoolValue(flag: bool) | NullValue

  datatype Rule =
    | BetweenRule(low: int, high: int)
    | EqualsRule(literal: string)
    | AtLeastRule(minimum: int)
    | ObservedWithinRule(days: nat)

  predicate KeyStart(c: char) {
    'A' <= c <= 'Z' || 'a' <= c <= 'z' || c == '_'
  }

  predicate KeyPart(c: char) {
    KeyStart(c) || Digit(c)
  }

  predicate Digit(c: char) {
    '0' <= c <= '9'
  }

  predicate IntPart(c: char) {
    Digit(c) || c == '-'
  }

  /** How many leading characters belong to the class. */
  function Span(text: string, p: char -> bool): (n: nat)
    ensures n <= |text|
    ensures forall i :: 0 <= i < n ==> p(text[i])
    ensures n < |text| ==> !p(text[n])
  {
    if text == [] || !p(text[0]) then 0 else 1 + Span(text[1..], p)
  }

  function DigitsValue(text: string): nat
    requires forall c :: c in text ==> Digit(c)
  {
    if text == [] then 0
    else
      var last := text[|text| - 1];
      assert last in text && Digit(last);
      10 * DigitsValue(text[..|text| - 1]) + (last as int - '0' as int)
  }

  function ParseNat(text: string): Option<nat> {
    if text != [] && forall c :: c in text ==> Digit(c) then Some(DigitsValue(text)) else None
  }

  function ParseInt(text: string): Option<int> {
    if text != [] && text[0] == '-' then
      match ParseNat(text[1..])
      case Some(n) => Some(-(n as int))
      case None => None
    else
      match ParseNat(text)
      case Some(n) => Some(n)
      case None => None
  }

  /** The text between a fixed opening and a fixed closing. */
  function Between(text: string, opening: string, closing: string): Option<string> {
    if |opening| + |closing| <= |text| && text[..|opening|] == opening && text[|text| - |closing|..] == closing
    then Some(text[|opening|..|text| - |closing|])
    else None
  }

  const BETWEEN := " between "
  const AND := " and "
  const INCLUSIVE := " inclusive"
  const EQUALS := " equals '"
  const QUOTE := "'"
  const AT_LEAST := " at least "
  const OBSERVED := " observed within "
  const BOUNDARY := " days before the decision boundary"

  function ParseBetween(rest: string): Option<Rule> {
    match Between(rest, BETWEEN, INCLUSIVE)
    case None => None
    case Some(bounds) =>
      var n := Span(bounds, IntPart);
      match Between(bounds[n..], AND, "")
      case None => None
      case Some(high) =>
        match (ParseInt(bounds[..n]), ParseInt(high))
        case (Some(a), Some(b)) => Some(BetweenRule(a, b))
        case _ => None
  }

  function ParseEquals(rest: string): Option<Rule> {
    match Between(rest, EQUALS, QUOTE)
    case None => None
    case Some(literal) => if '\'' in literal then None else Some(EqualsRule(literal))
  }

  function ParseAtLeast(rest: string): Option<Rule> {
    match Between(rest, AT_LEAST, "")
    case None => None
    case Some(text) =>
      match ParseInt(text)
      case Some(n) => Some(AtLeastRule(n))
      case None => None
  }

  function ParseObserved(rest: string): Option<Rule> {
    match Between(rest, OBSERVED, BOUNDARY)
    case None => None
    case Some(text) =>
      match ParseNat(text)
      case Some(n) => Some(ObservedWithinRule(n))
      case None => None
  }

  function ParseShape(rest: string): Option<Rule> {
    if ParseBetween(rest).Some? then ParseBetween(rest)
    else if ParseEquals(rest).Some? then ParseEquals(rest)
    else if ParseAtLeast(rest).Some? then ParseAtLeast(rest)
    else ParseObserved(rest)
  }

  function ParseRule(key: string, text: string): Outcome<Rule> {
    var n := if text != [] && KeyStart(text[0]) then Span(text, KeyPart) else 0;
    var _ :- Require(n > 0, "unsupported_rule");
    var shape := ParseShape(text[n..]);
    var _ :- Require(shape.Some?, "unsupported_rule");
    var _ :- Require(text[..n] == key, "rule_key_mismatch");
    Done(shape.value)
  }

  const DAY := 24 * 3600 * 1_000_000

  /** Whether a preserved value meets the rule. A date is counted in whole days and
      starts at its midnight; the boundary is in microseconds. */
  function Matches(rule: Rule, value: Scalar, observedAt: Option<int>, boundary: int): Outcome<bool> {
    match rule
    case BetweenRule(low, high) =>
      var _ :- Require(value.IntValue?, "rule_type");
      Done(low <= value.number <= high)
    case EqualsRule(literal) =>
      var _ :- Require(value.TextValue?, "rule_type");
      Done(value.text == literal)
    case AtLeastRule(minimum) =>
      var _ :- Require(value.IntValue?, "rule_type");
      Done(value.number >= minimum)
    case ObservedWithinRule(days) =>
      var _ :- Require(!value.BoolValue? && observedAt.Some?, "rule_type");
      var instant := observedAt.value * DAY;
      Done(instant <= boundary && boundary - instant <= days * DAY)
  }

  /** The value and its observed date are of the kinds the rule compares. */
  predicate Fits(rule: Rule, value: Scalar, observedAt: Option<int>) {
    match rule
    case BetweenRule(_, _) => value.IntValue?
    case EqualsRule(_) => value.TextValue?
    case AtLeastRule(_) => value.IntValue?
    case ObservedWithinRule(_) => !value.BoolValue? && observedAt.Some?
  }

  lemma MatchesWhenFits(rule: Rule, value: Scalar, observedAt: Option<int>, boundary: int)
    ensures Matches(rule, value, observedAt, boundary).Done? <==> Fits(rule, value, observedAt)
  {
  }

  // --- The grammar, as sentences -----------------------------------------------------------

  ghost predicate ValidKey(key: string) {
    key != [] && KeyStart(key[0]) && forall i :: 0 <= i < |key| ==> KeyPart(key[i])
  }

  /** The sentence after the key. */
  ghost predicate Phrase(rest: string, r: Rule) {
    match r
    case BetweenRule(low, high) => exists a, b :: BoundsPhrase(rest, a, b, low, high)
    case EqualsRule(literal) => rest == EQUALS + literal + QUOTE && '\'' !in literal
    case AtLeastRule(minimum) => exists a :: rest == AT_LEAST + a && ParseInt(a) == Some(minimum)
    case ObservedWithinRule(days) => exists a :: rest == OBSERVED + a + BOUNDARY && ParseNat(a) == Some(days)
  }

  ghost predicate BoundsPhrase(rest: string, a: string, b: string, low: int, high: int) {
    rest == BETWEEN + (a + AND + b) + INCLUSIVE && ParseInt(a) == Some(low) && ParseInt(b) == Some(high)
  }

  lemma BetweenExact(text: string, before: string, after: string, middle: string)
    ensures Between(text, before, after) == Some(middle) <==> text == before + middle + after
  {
    if text == before + middle + after {
      assert text[..|before|] == before && text[|text| - |after|..] == after;
      assert text[|before|..|text| - |after|] == middle;
    }
    if Between(text, before, after) == Some(middle) {
      assert text == text[..|before|] + text[|before|..|text| - |after|] + text[|text| - |after|..];
    }
  }

  lemma {:induction false} SpanExact(a: string, rest: string, p: char -> bool)
    requires (forall i :: 0 <= i < |a| ==> p(a[i])) && (rest == [] || !p(rest[0]))
    ensures Span(a + rest, p) == |a|
  {
    if a == [] {
      assert a + rest == rest;
    } else {
      SpanExact(a[1..], rest, p);
      assert (a + rest)[1..] == a[1..] + rest;
    }
  }

  lemma IntText(a: string)
    requires ParseInt(a).Some?
    ensures a != [] && forall i :: 0 <= i < |a| ==> IntPart(a[i])
  {
    forall i | 0 <= i < |a| ensures IntPart(a[i]) {
      if a[0] == '-' && i > 0 {
        assert a[1..][i - 1] in a[1..];
      } else {
        assert a[i] in a;
      }
    }
    hide DigitsValue;
  }

  lemma ParseBetweenExact(rest: string, low: int, high: int)
    ensures ParseBetween(rest) == Some(BetweenRule(low, high)) <==> exists a, b :: BoundsPhrase(rest, a, b, low, high)
  {
    hide ParseInt, Span, Between;
    forall a, b | BoundsPhrase(rest, a, b, low, high) ensures ParseBetween(rest) == Some(BetweenRule(low, high)) {
      var bounds := a + AND + b;
      BetweenExact(rest, BETWEEN, INCLUSIVE, bounds);
      IntText(a);
      SpanExact(a, AND + b, IntPart);
      assert bounds == a + (AND + b);
      assert bounds[|a|..] == AND + b + "" && bounds[..|a|] == a;
      BetweenExact(bounds[|a|..], AND, "", b);
    }
    if ParseBetween(rest) == Some(BetweenRule(low, high)) {
      var bounds := Between(rest, BETWEEN, INCLUSIVE).value;
      BetweenExact(rest, BETWEEN, INCLUSIVE, bounds);
      var n := Span(bounds, IntPart);
      var high' := Between(bounds[n..], AND, "").value;
      BetweenExact(bounds[n..], AND, "", high');
      assert bounds == bounds[..n] + AND + high';
      assert BoundsPhrase(rest, bounds[..n], high', low, high);
    }
  }

  lemma ParseBetweenShape(rest: string)
    ensures ParseBetween(rest).Some? ==> ParseBetween(rest).value.BetweenRule? && |rest| > 1 && rest[1] == 'b'
    ensures ParseEquals(rest).Some? ==> ParseEquals(rest).value.EqualsRule? && |rest| > 1 && rest[1] == 'e'
    ensures ParseAtLeast(rest).Some? ==> ParseAtLeast(rest).value.AtLeastRule? && |rest| > 1 && rest[1] == 'a'
    ensures ParseObserved(rest).Some? ==> ParseObserved(rest).value.ObservedWithinRule? && |rest| > 1 && rest[1] == 'o'
  {
    hide ParseInt, ParseNat, Span;
    Starts(rest, BETWEEN, INCLUSIVE);
    Starts(rest, EQUALS, QUOTE);
    Starts(rest, AT_LEAST, "");
    Starts(rest, OBSERVED, BOUNDARY);
    hide Between;
  }

  lemma Starts(text: string, before: string, after: string)
    requires |before| > 1
    ensures Between(text, before, after).Some? ==> |text| > 1 && text[1] == before[1]
  {
    if Between(text, before, after).Some? {
      assert text[..|before|][1] == before[1];
    }
  }

  /** The parser reads a phrase as a rule exactly when the phrase says that rule. */
  lemma ShapeExact(rest: string, r: Rule)
    ensures ParseShape(rest) == Some(r) <==> Phrase(rest, r)
  {
    hide ParseInt, ParseNat, Between, Span, ParseBetween;
    ParseBetweenShape(rest);
    PhraseShape(rest, r);
    match r {
      case BetweenRule(low, high) => ParseBetweenExact(rest, low, high);
      case EqualsRule(literal) => BetweenExact(rest, EQUALS, QUOTE, literal);
      case AtLeastRule(minimum) =>
        forall a ensures Between(rest, AT_LEAST, "") == Some(a) <==> rest == AT_LEAST + a {
          BetweenExact(rest, AT_LEAST, "", a);
          assert AT_LEAST + a + "" == AT_LEAST + a;
        }
      case ObservedWithinRule(days) =>
        forall a ensures Between(rest, OBSERVED, BOUNDARY) == Some(a) <==> rest == OBSERVED + a + BOUNDARY {
          BetweenExact(rest, OBSERVED, BOUNDARY, a);
        }
    }
  }

  lemma PhraseShape(rest: string, r: Rule)
    ensures Phrase(rest, r) ==> |rest| > 1 && rest[1] == (match r
      case BetweenRule(_, _) => 'b'
      case EqualsRule(_) => 'e'
      case AtLeastRule(_) => 'a'
      case ObservedWithinRule(_) => 'o')
  {
    hide ParseInt, ParseNat;
  }

  /** A rule text is accepted for a key exactly when it is the key followed by one of the
      four phrases, and it is read as what that phrase says. */
  lemma RuleExact(key: string, text: string, r: Rule)
    ensures ParseRule(key, text) == Done(r) <==>
            ValidKey(key) && exists rest :: text == key + rest && Phrase(rest, r)
  {
    hide ParseShape, Phrase, Span;
    var n := if text != [] && KeyStart(text[0]) then Span(text, KeyPart) else 0;
    if ParseRule(key, text) == Done(r) {
      ShapeExact(text[n..], r);
      assert text == text[..n] + text[n..];
      forall i | 0 <= i < |key| ensures KeyPart(key[i]) {
        assert key[i] == text[i];
      }
      assert key[0] == text[0];
    }
    forall rest | ValidKey(key) && text == key + rest && Phrase(rest, r) ensures ParseRule(key, text) == Done(r) {
      PhraseSpaced(rest, r);
      SpanExact(key, rest, KeyPart);
      ShapeExact(rest, r);
      assert text[0] == key[0] && text[|key|..] == rest && text[..|key|] == key;
    }
  }

  lemma PhraseSpaced(rest: string, r: Rule)
    requires Phrase(rest, r)
    ensures rest != [] && rest[0] == ' '
  {
  }
}
