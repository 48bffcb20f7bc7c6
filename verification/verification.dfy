/**
 * Rule verification: a rule set maps rule keys to expected texts; checking
 * a value looks its rule up, optionally runs the rule through a
 * Placeholders, and compares the outcome with the value exactly.
 */
module Verification {
  import opened Wrappers
  import opened Text
  import opened Splicing
  import opened Strings

  /** IllegalArgumentException for a missing rule, or the failure of the substitution itself. */
  datatype VerificationError = RuleNotFound(message: string) | SpliceFailed(cause: ApplyError)

  /** The message of the exception for an undefined rule; it names the key. */
  function NotFoundMessage(ruleKey: string): (r: string)
    ensures StartsWith(r, "Rule not found: ")
    ensures |r| == |ruleKey| + 65 && r[16..16 + |ruleKey|] == ruleKey
    ensures Contains(r, ruleKey)
  {
    var tail := ". Make sure the rule is defined in the JSON file.";
    ContainsInfix("Rule not found: ", ruleKey, tail);
    "Rule not found: " + ruleKey + tail
  }

  /**
   * What a Placeholders needs for `Apply` to be modelled: literal wrapped
   * keys and the iteration orders of its two registries.
   */
  ghost predicate Ready(p: Placeholders, order: seq<string>, groupOrder: seq<string>)
    reads p
  {
    p.LiteralKeys() && Enumerates(order, p.WrappedKeys()) && Enumerates(groupOrder, p.grouped.Keys)
  }

  /**
   * The Supplier<Placeholders>: what it yields at a given moment, None for
   * null. What it yields is an existing object, which the methods below
   * state as `allocated`.
   */
  type HolderSupplier = nat -> Option<Placeholders>

  class Verification {
    const ruleSet: map<string, string>
    const placeholders: HolderSupplier

    /** Verification.of(jsonFile): the loaded rule set and a supplier that always yields null. */
    constructor Of(ruleSet: map<string, string>)
      ensures this.ruleSet == ruleSet
      ensures forall tick: nat :: placeholders(tick) == None
    {
      this.ruleSet := ruleSet;
      placeholders := _ => None;
    }

    /** Verification.of(jsonFile, holder) with a supplier. */
    constructor OfSupplier(ruleSet: map<string, string>, holder: HolderSupplier)
      ensures this.ruleSet == ruleSet && placeholders == holder
    {
      this.ruleSet := ruleSet;
      placeholders := holder;
    }

    /** Verification.of(jsonFile, holder) with a fixed Placeholders, wrapped as a constant supplier. */
    constructor OfHolder(ruleSet: map<string, string>, holder: Placeholders)
      ensures this.ruleSet == ruleSet
      ensures forall tick: nat :: placeholders(tick) == Some(holder)
    {
      this.ruleSet := ruleSet;
      placeholders := _ => Some(holder);
    }

    /** The rule text stored under `ruleKey`, or the not-found error naming the key. */
    function ExtractRule(ruleKey: string): (r: Result<string, VerificationError>)
      ensures r.Success? <==> ruleKey in ruleSet
      ensures r.Success? ==> r.value == ruleSet[ruleKey]
      ensures r.Failure? ==> r.error == RuleNotFound(NotFoundMessage(ruleKey))
    {
      if ruleKey in ruleSet then Success(ruleSet[ruleKey])
      else Failure(RuleNotFound(NotFoundMessage(ruleKey)))
    }

    /**
     * The text unchanged when the supplier yields nothing at `tick`,
     * otherwise the text after substitution by what it yields.
     */
    method ApplyPlaceholder(text: string, tick: nat, order: seq<string>, groupOrder: seq<string>)
      returns (r: Result<string, ApplyError>)
      requires placeholders(tick).Some? ==> allocated(placeholders(tick).value)
      requires placeholders(tick).Some? ==> Ready(placeholders(tick).value, order, groupOrder)
      ensures placeholders(tick).None? ==> r == Success(text)
      ensures placeholders(tick).Some? ==> r == placeholders(tick).value.Applied(text, order, groupOrder, tick)
    {
      var holder := placeholders(tick);
      if holder.Some? {
        r := holder.value.Apply(text, order, groupOrder, tick);
      } else {
        r := Success(text);
      }
    }

    /**
     * Verification.check: an undefined rule is an error, raised before the
     * supplier is asked; otherwise the answer is whether the (substituted)
     * rule equals `value` exactly. A mismatch is an answer, never an error.
     */
    method Check(ruleKey: string, value: string, tick: nat, order: seq<string>, groupOrder: seq<string>)
      returns (r: Result<bool, VerificationError>)
      requires ruleKey in ruleSet && placeholders(tick).Some? ==> allocated(placeholders(tick).value)
      requires ruleKey in ruleSet && placeholders(tick).Some? ==> Ready(placeholders(tick).value, order, groupOrder)
      ensures ruleKey !in ruleSet ==> r == Failure(RuleNotFound(NotFoundMessage(ruleKey)))
      ensures ruleKey in ruleSet && placeholders(tick).None? ==> r == Success(ruleSet[ruleKey] == value)
      ensures ruleKey in ruleSet && placeholders(tick).Some? ==>
        var applied := placeholders(tick).value.Applied(ruleSet[ruleKey], order, groupOrder, tick);
        && (r.Success? <==> applied.Success?)
        && (r.Success? ==> (r.value <==> applied.value == value))
        && (r.Failure? ==> r.error == SpliceFailed(applied.error))
    {
      var rule := ExtractRule(ruleKey);
      if rule.Failure? {
        return Failure(rule.error);
      }
      var actual := ApplyPlaceholder(rule.value, tick, order, groupOrder);
      if actual.Failure? {
        return Failure(SpliceFailed(actual.error));
      }
      r := Success(actual.value == value);
    }
  }
}
