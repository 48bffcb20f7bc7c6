/**
 * The assertion facade: each assertion builds one of the ready-made
 * validators, possibly turns its goal around with `Not`, and checks it.
 * The outcomes follow Validator.check as written, so `AssertContains` fails
 * exactly when the text IS contained (see Core.Decide).
 */
module Validation {
  import opened Text
  import opened Core

  /** assertContains(expected, actual): fails when `actual` contains `expected`, with the "should contain" message. */
  method AssertContains(expected: string, actual: string) returns (o: CheckOutcome)
    ensures o == Decide(Contains(actual, expected), true, g => Of(g).ConstructContains(expected, actual))
    ensures o != Unconfigured
    ensures o.Failed? <==> Contains(actual, expected)
    ensures o.Failed? ==> o.message == Of(true).ConstructContains(expected, actual)
  {
    var v := GetContainsValidator(expected, actual);
    o := v.Check();
  }

  /** assertContains(message, expected, actual): the same decision, failing with `message` verbatim. */
  method AssertContainsWithMessage(message: string, expected: string, actual: string) returns (o: CheckOutcome)
    ensures o != Unconfigured
    ensures o.Failed? <==> Contains(actual, expected)
    ensures o.Failed? ==> o.message == message
  {
    var v := GetContainsValidatorWithMessage(_ => message, expected, actual);
    o := v.Check();
  }

  /** assertNotContains(unexpected, actual): the containment validator with goal false. */
  method AssertNotContains(unexpected: string, actual: string) returns (o: CheckOutcome)
    ensures o == Decide(Contains(actual, unexpected), false, g => Of(g).ConstructContains(unexpected, actual))
    ensures o != Unconfigured
    ensures o.Failed? <==> !Contains(actual, unexpected)
    ensures o.Failed? ==> o.message == Of(false).ConstructContains(unexpected, actual)
  {
    var v := GetContainsValidator(unexpected, actual);
    var _ := v.Not();
    o := v.Check();
  }

  /** assertNotContains(message, unexpected, actual). */
  method AssertNotContainsWithMessage(message: string, unexpected: string, actual: string) returns (o: CheckOutcome)
    ensures o != Unconfigured
    ensures o.Failed? <==> !Contains(actual, unexpected)
    ensures o.Failed? ==> o.message == message
  {
    var v := GetContainsValidatorWithMessage(_ => message, unexpected, actual);
    var _ := v.Not();
    o := v.Check();
  }

  /** assertRegexMatching(pattern, value): fails when the pattern is found in the value. */
  method AssertRegexMatching(pattern: string, value: string, finds: Finder) returns (o: CheckOutcome)
    ensures o == Decide(finds(pattern, value), true, g => Of(g).ConstructTemplated(pattern, value))
    ensures o != Unconfigured
    ensures o.Failed? <==> finds(pattern, value)
    ensures o.Failed? ==> o.message == Of(true).ConstructTemplated(pattern, value)
  {
    var v := GetRegexValidator(pattern, value, finds);
    o := v.Check();
  }

  /** assertRegexMatching(message, pattern, value). */
  method AssertRegexMatchingWithMessage(message: string, pattern: string, value: string, finds: Finder)
    returns (o: CheckOutcome)
    ensures o != Unconfigured
    ensures o.Failed? <==> finds(pattern, value)
    ensures o.Failed? ==> o.message == message
  {
    var v := GetRegexValidatorWithMessage(_ => message, pattern, value, finds);
    o := v.Check();
  }

  /** assertRegexNotMatching(pattern, value): the regular-expression validator with goal false. */
  method AssertRegexNotMatching(pattern: string, value: string, finds: Finder) returns (o: CheckOutcome)
    ensures o == Decide(finds(pattern, value), false, g => Of(g).ConstructTemplated(pattern, value))
    ensures o != Unconfigured
    ensures o.Failed? <==> !finds(pattern, value)
    ensures o.Failed? ==> o.message == Of(false).ConstructTemplated(pattern, value)
  {
    var v := GetRegexValidator(pattern, value, finds);
    var _ := v.Not();
    o := v.Check();
  }

  /** assertRegexNotMatching(message, pattern, value). */
  method AssertRegexNotMatchingWithMessage(message: string, pattern: string, value: string, finds: Finder)
    returns (o: CheckOutcome)
    ensures o != Unconfigured
    ensures o.Failed? <==> !finds(pattern, value)
    ensures o.Failed? ==> o.message == message
  {
    var v := GetRegexValidatorWithMessage(_ => message, pattern, value, finds);
    var _ := v.Not();
    o := v.Check();
  }
}
