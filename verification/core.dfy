/**
 * The validation core: failure-message templates, the generic Validator
 * (an actual value, an optional expected value, a comparison, a message
 * generator and a goal) and the factories for the two ready-made
 * validators, substring containment and regular-expression search.
 */
module Core {
  import opened Wrappers
  import opened Text

  // ---------------------------------------------------------------------
  // FailMessage
  // ---------------------------------------------------------------------

  /**
   * "<first>" + middle + "<second>": the shape of every failure message.
   * Each part can be read back from its place.
   */
  function Bracketed(first: string, middle: string, second: string): (r: string)
    ensures |r| == |first| + |middle| + |second| + 4
    ensures r[0] == '<' && r[|first| + 1] == '>' && r[|r| - |second| - 2] == '<' && r[|r| - 1] == '>'
    ensures r[1..|first| + 1] == first
    ensures r[|first| + 2..|r| - |second| - 2] == middle
    ensures r[|r| - |second| - 1..|r| - 1] == second
    ensures Contains(r, first) && Contains(r, second)
  {
    var head := "<" + first + ">";
    var r := head + middle + "<" + second + ">";
    assert r == "<" + first + (">" + middle + "<" + second + ">");
    InfixAt("<", first, ">" + middle + "<" + second + ">");
    ContainsInfix("<", first, ">" + middle + "<" + second + ">");
    assert r == head + middle + ("<" + second + ">");
    InfixAt(head, middle, "<" + second + ">");
    assert r == (head + middle + "<") + second + ">";
    InfixAt(head + middle + "<", second, ">");
    ContainsInfix(head + middle + "<", second, ">");
    r
  }

  /** The middle part of p + m + q stands right after p. */
  lemma InfixAt(p: string, m: string, q: string)
    ensures (p + m + q)[|p|..|p| + |m|] == m
  {
  }

  /** A message builder bound to a goal: whether the checked property should hold or should not. */
  datatype FailMessage = FailMessage(goal: bool)
  {
    /**
     * "<actual> should[ not] contain the text <expected>": both texts in
     * angle brackets at the two ends, the phrase for the goal between.
     */
    function ConstructContains(expected: string, actual: string): (r: string)
      ensures |r| == |actual| + |expected| + (if goal then 29 else 33)
      ensures r[0] == '<' && r[|actual| + 1] == '>' && r[|r| - |expected| - 2] == '<' && r[|r| - 1] == '>'
      ensures r[1..|actual| + 1] == actual && r[|r| - |expected| - 1..|r| - 1] == expected
      ensures r[|actual| + 2..|r| - |expected| - 2] == " " + Should(goal) + " contain the text "
      ensures Contains(r, actual) && Contains(r, expected)
    {
      Bracketed(actual, " " + Should(goal) + " contain the text ", expected)
    }

    /**
     * "<actual> should[ not] follow the template of <template>", laid out
     * like the containment message.
     */
    function ConstructTemplated(template: string, actual: string): (r: string)
      ensures |r| == |actual| + |template| + (if goal then 35 else 39)
      ensures r[0] == '<' && r[|actual| + 1] == '>' && r[|r| - |template| - 2] == '<' && r[|r| - 1] == '>'
      ensures r[1..|actual| + 1] == actual && r[|r| - |template| - 1..|r| - 1] == template
      ensures r[|actual| + 2..|r| - |template| - 2] == " " + Should(goal) + " follow the template of "
      ensures Contains(r, actual) && Contains(r, template)
    {
      Bracketed(actual, " " + Should(goal) + " follow the template of ", template)
    }
  }

  /** FailMessage.of: a builder carrying the given goal. */
  function Of(goal: bool): (f: FailMessage)
    ensures f.goal == goal
  {
    FailMessage(goal)
  }

  /** "should" for a positive goal, "should not" for a negative one. */
  function Should(isPositive: bool): (r: string)
    ensures StartsWith(r, "should")
    ensures isPositive <==> r == "should"
    ensures !isPositive ==> r == "should not"
  {
    if isPositive then "should" else "should not"
  }

  /** The two goals give different messages for the same texts. */
  lemma MessagesDifferByGoal(expected: string, actual: string)
    ensures Of(true).ConstructContains(expected, actual) != Of(false).ConstructContains(expected, actual)
    ensures Of(true).ConstructTemplated(expected, actual) != Of(false).ConstructTemplated(expected, actual)
  {
  }

  // ---------------------------------------------------------------------
  // Validator
  // ---------------------------------------------------------------------

  /**
   * What Validator.check does: return quietly, fail through Assert.fail
   * with a message, or throw NotImplementedException when no comparison
   * was installed.
   */
  datatype CheckOutcome = Passed | Failed(message: string) | Unconfigured

  const DefaultMessage: string := "Data validation is failed!"

  /**
   * The decision of Validator.check once the comparison has given `holds`:
   * it fails when the negated comparison differs from the goal, that is,
   * exactly when the comparison AGREES with the goal.
   */
  function Decide(holds: bool, goal: bool, message: bool -> string): (r: CheckOutcome)
    ensures r != Unconfigured
    ensures r.Failed? <==> holds == goal
    ensures r.Failed? ==> r.message == message(goal)
  {
    if !holds != goal then Failed(message(goal)) else Passed
  }

  /** The decision the goal describes: pass exactly when the comparison's outcome is the goal. */
  function IntendedDecide(holds: bool, goal: bool, message: bool -> string): (r: CheckOutcome)
    ensures r != Unconfigured
    ensures r.Passed? <==> holds == goal
    ensures r.Failed? ==> r.message == message(goal)
  {
    if holds != goal then Failed(message(goal)) else Passed
  }

  /** The decision as written is the intended one turned upside down. */
  lemma DecideIsInverted(holds: bool, goal: bool, message: bool -> string)
    ensures Decide(holds, goal, message).Failed? <==> IntendedDecide(holds, goal, message).Passed?
    ensures Decide(holds, goal, message).Passed? <==> IntendedDecide(holds, goal, message).Failed?
  {
  }

  /** For a given comparison outcome exactly one of the two goals fails, in either reading. */
  lemma GoalFlipDecides(holds: bool, message: bool -> string)
    ensures Decide(holds, true, message).Failed? != Decide(holds, false, message).Failed?
    ensures IntendedDecide(holds, true, message).Failed? != IntendedDecide(holds, false, message).Failed?
  {
  }

  /**
   * "hello" contains "lo", yet the containment check as written fails on
   * it with the message "<hello> should contain the text <lo>", where the
   * intended one passes.
   */
  lemma InvertedContainsWitness()
    ensures Contains("hello", "lo")
    ensures Decide(Contains("hello", "lo"), true, g => Of(g).ConstructContains("lo", "hello"))
      == Failed("<hello> should contain the text <lo>")
    ensures IntendedDecide(Contains("hello", "lo"), true, g => Of(g).ConstructContains("lo", "hello")) == Passed
  {
    ContainsInfix("hel", "lo", "");
    assert "hel" + "lo" + "" == "hello";
    ContainsMessageSpelled();
  }

  /** The goal-true containment message for "lo" in "hello", spelled out. */
  lemma ContainsMessageSpelled()
    ensures Of(true).ConstructContains("lo", "hello") == "<hello> should contain the text <lo>"
  {
    var middle := " " + Should(true) + " contain the text ";
    assert middle == " should contain the text ";
    var head := "<" + "hello" + ">";
    assert head == "<hello>";
    assert head + middle == "<hello> should contain the text ";
    assert head + middle + "<" == "<hello> should contain the text <";
    assert head + middle + "<" + "lo" == "<hello> should contain the text <lo";
    assert head + middle + "<" + "lo" + ">" == "<hello> should contain the text <lo>";
  }

  /**
   * A reusable comparison. The comparison is called with the expected
   * value first and the actual value second, as a BiPredicate; the
   * expected value is absent (null) until `CompareAgainst` sets it.
   */
  class Validator<T> {
    const actual: T
    var expected: Option<T>
    var messageGenerator: bool -> string
    var action: Option<(Option<T>, T) -> bool>
    var goal: bool

    /** Validator.of: no comparison, no expected value, goal true and the default message. */
    constructor Of(actual: T)
      ensures this.actual == actual
      ensures expected == None && action == None && goal
      ensures forall g: bool :: messageGenerator(g) == DefaultMessage
    {
      this.actual := actual;
      expected := None;
      messageGenerator := _ => DefaultMessage;
      action := None;
      goal := true;
    }

    method CompareAgainst(expected: T) returns (self: Validator<T>)
      modifies this
      ensures self == this && this.expected == Some(expected)
      ensures messageGenerator == old(messageGenerator) && action == old(action) && goal == old(goal)
    {
      this.expected := Some(expected);
      self := this;
    }

    method WithMessage(message: bool -> string) returns (self: Validator<T>)
      modifies this
      ensures self == this && messageGenerator == message
      ensures expected == old(expected) && action == old(action) && goal == old(goal)
    {
      messageGenerator := message;
      self := this;
    }

    method WithAction(action: (Option<T>, T) -> bool) returns (self: Validator<T>)
      modifies this
      ensures self == this && this.action == Some(action)
      ensures expected == old(expected) && messageGenerator == old(messageGenerator) && goal == old(goal)
    {
      this.action := Some(action);
      self := this;
    }

    /** Turns the goal around; doing it twice restores it. */
    method Not() returns (self: Validator<T>)
      modifies this
      ensures self == this && goal == !old(goal)
      ensures expected == old(expected) && messageGenerator == old(messageGenerator) && action == old(action)
    {
      goal := !goal;
      self := this;
    }

    /**
     * Validator.check. It changes nothing, so checking an unchanged
     * validator again gives the same outcome.
     */
    method Check() returns (o: CheckOutcome)
      ensures action.None? <==> o == Unconfigured
      ensures action.Some? ==> o == Decide(action.value(expected, actual), goal, messageGenerator)
    {
      if action.None? {
        return Unconfigured;
      }
      var outcome := action.value(expected, actual);
      if !outcome != goal {
        o := Failed(messageGenerator(goal));
      } else {
        o := Passed;
      }
    }
  }

  // ---------------------------------------------------------------------
  // Validators
  // ---------------------------------------------------------------------

  /**
   * A search for a regular expression anywhere in a text (Matcher.find),
   * given as (pattern, text); the regex engine is not part of this model.
   */
  type Finder = (string, string) -> bool

  /**
   * The containment validator with the given message generator: `actual`
   * is the actual value, `expected` the expected one, and the comparison
   * ignores its arguments and asks whether `actual` contains `expected`.
   */
  method GetContainsValidatorWithMessage(message: bool -> string, expected: string, actual: string)
    returns (v: Validator<string>)
    ensures fresh(v)
    ensures v.actual == actual && v.expected == Some(expected) && v.goal
    ensures v.messageGenerator == message
    ensures v.action.Some? && forall ex, act :: v.action.value(ex, act) == Contains(actual, expected)
  {
    v := new Validator.Of(actual);
    var _ := v.WithMessage(message);
    var _ := v.CompareAgainst(expected);
    var _ := v.WithAction((ex: Option<string>, act: string) => Contains(actual, expected));
  }

  /** The containment validator with the standard "should contain" message. */
  method GetContainsValidator(expected: string, actual: string) returns (v: Validator<string>)
    ensures fresh(v)
    ensures v.actual == actual && v.expected == Some(expected) && v.goal
    ensures forall g: bool :: v.messageGenerator(g) == Of(g).ConstructContains(expected, actual)
    ensures v.action.Some? && forall ex, act :: v.action.value(ex, act) == Contains(actual, expected)
  {
    v := GetContainsValidatorWithMessage(g => Of(g).ConstructContains(expected, actual), expected, actual);
  }

  /**
   * The regular-expression validator: the pattern is stored as the actual
   * value and the text as the expected one, so the comparison, called as
   * (expected, actual), searches the pattern in the text. With no text
   * (never the case from this factory) it gives false.
   */
  method GetRegexValidatorWithMessage(message: bool -> string, pattern: string, value: string, finds: Finder)
    returns (v: Validator<string>)
    ensures fresh(v)
    ensures v.actual == pattern && v.expected == Some(value) && v.goal
    ensures v.messageGenerator == message
    ensures v.action.Some?
    ensures forall text, p :: v.action.value(Some(text), p) == finds(p, text)
  {
    v := new Validator.Of(pattern);
    var _ := v.WithMessage(message);
    var _ := v.CompareAgainst(value);
    var _ := v.WithAction((textToCheck: Option<string>, regexPattern: string) =>
      textToCheck.Some? && finds(regexPattern, textToCheck.value));
  }

  /** The regular-expression validator with the standard "should follow the template" message. */
  method GetRegexValidator(pattern: string, value: string, finds: Finder) returns (v: Validator<string>)
    ensures fresh(v)
    ensures v.actual == pattern && v.expected == Some(value) && v.goal
    ensures forall g: bool :: v.messageGenerator(g) == Of(g).ConstructTemplated(pattern, value)
    ensures v.action.Some?
    ensures forall text, p :: v.action.value(Some(text), p) == finds(p, text)
  {
    v := GetRegexValidatorWithMessage(g => Of(g).ConstructTemplated(pattern, value), pattern, value, finds);
  }
}
