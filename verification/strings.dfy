/**
 * The placeholder engine: three registries of key -> replacement (plain
 * values, values computed when asked, values computed from the match),
 * a pair of delimiters wrapped around plain and computed keys, and `Apply`,
 * which splices every match found in the original input into a buffer that
 * is being edited.
 */
module Strings {
  import opened Wrappers
  import opened Text
  import opened Splicing

  /**
   * A value produced on demand. The argument is the state of the world at
   * the moment of the call (a clock, a counter), so one supplier can give
   * different values to different calls.
   */
  type Supplier = nat -> string

  /** Characters with a meaning in a java.util.regex pattern. */
  const Metacharacters: string := "\\^$.|?*+()[]{}"

  /**
   * A pattern that java.util.regex reads as the literal string itself:
   * non-empty and free of metacharacters. Only such keys are modelled.
   */
  predicate LiteralPattern(p: string) {
    |p| > 0 && forall i | 0 <= i < |p| :: p[i] !in Metacharacters
  }

  /** `order` lists every element of `keys` exactly once (a HashMap's iteration order). */
  ghost predicate Enumerates(order: seq<string>, keys: set<string>) {
    && (forall k :: k in order <==> k in keys)
    && (forall i, j | 0 <= i < j < |order| :: order[i] != order[j])
  }

  /** The rules for plain and supplied values, visited in `order`. */
  function FixedRules(order: seq<string>, values: map<string, string>): (r: seq<Rule>)
    requires forall k | k in order :: k in values
    ensures |r| == |order|
    ensures forall i | 0 <= i < |r| :: r[i] == Rule(order[i], Fixed(values[order[i]]))
  {
    seq(|order|, i requires 0 <= i < |order| => Rule(order[i], Fixed(values[order[i]])))
  }

  /** The rules for match-dependent values, visited in `order`. */
  function ComputedRules(order: seq<string>, transforms: map<string, Transform>): (r: seq<Rule>)
    requires forall k | k in order :: k in transforms
    ensures |r| == |order|
    ensures forall i | 0 <= i < |r| :: r[i] == Rule(order[i], Computed(transforms[order[i]]))
  {
    seq(|order|, i requires 0 <= i < |order| => Rule(order[i], Computed(transforms[order[i]])))
  }

  lemma LiteralRulesSearchable(rules: seq<Rule>)
    requires forall i | 0 <= i < |rules| :: LiteralPattern(rules[i].keyword)
    ensures Searchable(rules)
  {
  }

  /** Where the elements of x and of y stand in x + y. */
  lemma ConcatAt<T>(x: seq<T>, y: seq<T>)
    ensures forall i | 0 <= i < |x| :: (x + y)[i] == x[i]
    ensures forall i | 0 <= i < |y| :: (x + y)[|x| + i] == y[i]
  {
  }

  lemma EmptyOrHead(order: seq<string>)
    ensures order == [] || order[0] in order
  {
  }

  class Placeholders {
    var prefix: string
    var suffix: string
    /** Keys whose value is asked from a supplier each time `Apply` runs. */
    var lazy: map<string, Supplier>
    /** Keys with a fixed value. */
    var instant: map<string, string>
    /** Keys, searched unwrapped, whose value is computed from the match. */
    var grouped: map<string, Transform>

    /** An empty engine with the delimiters `{` and `}`. */
    constructor Of()
      ensures prefix == "{" && suffix == "}"
      ensures lazy == map[] && instant == map[] && grouped == map[]
    {
      prefix := "{";
      suffix := "}";
      lazy := map[];
      instant := map[];
      grouped := map[];
    }

    /** Registers a fixed value for `key`, replacing an earlier one. */
    method Add(key: string, value: string) returns (self: Placeholders)
      modifies this
      ensures self == this
      ensures instant == old(instant)[key := value]
      ensures lazy == old(lazy) && grouped == old(grouped)
      ensures prefix == old(prefix) && suffix == old(suffix)
    {
      instant := instant[key := value];
      self := this;
    }

    /** Registers a supplier for `key`, replacing an earlier one. */
    method AddSupplier(key: string, value: Supplier) returns (self: Placeholders)
      modifies this
      ensures self == this
      ensures lazy == old(lazy)[key := value]
      ensures instant == old(instant) && grouped == old(grouped)
      ensures prefix == old(prefix) && suffix == old(suffix)
    {
      lazy := lazy[key := value];
      self := this;
    }

    /** Registers a match-dependent value for `key`, replacing an earlier one. */
    method AddTransform(key: string, value: Transform) returns (self: Placeholders)
      modifies this
      ensures self == this
      ensures grouped == old(grouped)[key := value]
      ensures instant == old(instant) && lazy == old(lazy)
      ensures prefix == old(prefix) && suffix == old(suffix)
    {
      grouped := grouped[key := value];
      self := this;
    }

    method DefinePrefix(start: string) returns (self: Placeholders)
      modifies this
      ensures self == this && prefix == start && suffix == old(suffix)
      ensures lazy == old(lazy) && instant == old(instant) && grouped == old(grouped)
    {
      prefix := start;
      self := this;
    }

    method DefineSuffix(end: string) returns (self: Placeholders)
      modifies this
      ensures self == this && suffix == end && prefix == old(prefix)
      ensures lazy == old(lazy) && instant == old(instant) && grouped == old(grouped)
    {
      suffix := end;
      self := this;
    }

    /**
     * The search pattern of a key: the prefix at the start, the suffix at
     * the end and the key, readable back, between them.
     */
    function WrapWithKeys(key: string): (r: string)
      reads this
      ensures |r| == |prefix| + |key| + |suffix|
      ensures r[..|prefix|] == prefix && r[|r| - |suffix|..] == suffix
      ensures r[|prefix|..|r| - |suffix|] == key
    {
      prefix + key + suffix
    }

    /** Distinct keys have distinct patterns. */
    lemma WrapInjective(a: string, b: string)
      ensures WrapWithKeys(a) == WrapWithKeys(b) <==> a == b
    {
      if WrapWithKeys(a) == WrapWithKeys(b) {
        var w := WrapWithKeys(a);
        assert a == w[|prefix|..|w| - |suffix|];
      }
    }

    /** The patterns of the plain and supplied keys. */
    function WrappedKeys(): (r: set<string>)
      reads this
    {
      set k | k in instant.Keys + lazy.Keys :: WrapWithKeys(k)
    }

    /** The value a plain or supplied key stands for at `tick`; a supplier wins over a plain value. */
    function ValueOf(key: string, tick: nat): string
      reads this
      requires key in instant || key in lazy
    {
      if key in lazy then lazy[key](tick) else instant[key]
    }

    /**
     * The map `Apply` works from: each plain or supplied key's pattern with
     * its value, the suppliers asked at `tick`.
     */
    function Prefixed(tick: nat): (m: map<string, string>)
      reads this
      ensures m.Keys == WrappedKeys()
      ensures forall k | k in lazy :: m[WrapWithKeys(k)] == lazy[k](tick)
      ensures forall k | k in instant && k !in lazy :: m[WrapWithKeys(k)] == instant[k]
    {
      map k | k in instant.Keys + lazy.Keys :: WrapWithKeys(k) := ValueOf(k, tick)
    }

    /**
     * Fills the map of patterns and values: first every plain value, then
     * every supplier's current value over it.
     */
    method PlaceHoldersPrefixed(tick: nat) returns (m: map<string, string>)
      ensures m == Prefixed(tick)
    {
      m := map[];
      var rest := instant.Keys;
      while rest != {}
        invariant rest <= instant.Keys
        invariant m.Keys == set k | k in instant.Keys - rest :: WrapWithKeys(k)
        invariant forall k | k in instant.Keys - rest :: m[WrapWithKeys(k)] == instant[k]
        decreases rest
      {
        var k :| k in rest;
        forall k' ensures WrapWithKeys(k') == WrapWithKeys(k) <==> k' == k {
          WrapInjective(k', k);
        }
        m := m[WrapWithKeys(k) := instant[k]];
        rest := rest - {k};
      }
      rest := lazy.Keys;
      while rest != {}
        invariant rest <= lazy.Keys
        invariant m.Keys == set k | k in instant.Keys + (lazy.Keys - rest) :: WrapWithKeys(k)
        invariant forall k | k in lazy.Keys - rest :: m[WrapWithKeys(k)] == lazy[k](tick)
        invariant forall k | k in instant && k !in lazy.Keys - rest :: m[WrapWithKeys(k)] == instant[k]
        decreases rest
      {
        var k :| k in rest;
        forall k' ensures WrapWithKeys(k') == WrapWithKeys(k) <==> k' == k {
          WrapInjective(k', k);
        }
        m := m[WrapWithKeys(k) := lazy[k](tick)];
        rest := rest - {k};
      }
      SameAsPrefixed(m, tick);
    }

    /** A map with the keys and the values `Prefixed` promises is `Prefixed`. */
    lemma SameAsPrefixed(m: map<string, string>, tick: nat)
      requires m.Keys == set k | k in instant.Keys + lazy.Keys :: WrapWithKeys(k)
      requires forall k | k in lazy :: m[WrapWithKeys(k)] == lazy[k](tick)
      requires forall k | k in instant && k !in lazy :: m[WrapWithKeys(k)] == instant[k]
      ensures m == Prefixed(tick)
    {
      var p := Prefixed(tick);
      forall w | w in m ensures m[w] == p[w] {
        var k :| k in instant.Keys + lazy.Keys && w == WrapWithKeys(k);
      }
    }

    /**
     * Every pattern the engine searches for reads literally: the wrapped
     * plain and supplied keys and the grouped keys, which are searched as
     * they are.
     */
    predicate LiteralKeys()
      reads this
    {
      && (forall w | w in WrappedKeys() :: LiteralPattern(w))
      && (forall k | k in grouped :: LiteralPattern(k))
    }

    /** The default delimiters are regex metacharacters, so no key wrapped in them reads literally. */
    lemma DefaultDelimitersNotLiteral(key: string)
      requires prefix == "{"
      ensures !LiteralPattern(WrapWithKeys(key))
    {
      assert WrapWithKeys(key)[0] == '{';
    }

    /**
     * The keywords in the order `Apply` visits them: the plain and supplied
     * patterns in `order`, with their values at `tick`, then the grouped
     * keys, unwrapped, in `groupOrder`, with their match functions.
     */
    function Rules(order: seq<string>, groupOrder: seq<string>, tick: nat): (r: seq<Rule>)
      reads this
      requires LiteralKeys()
      requires Enumerates(order, WrappedKeys()) && Enumerates(groupOrder, grouped.Keys)
      ensures |r| == |order| + |groupOrder| && Searchable(r)
      ensures forall i | 0 <= i < |order| :: r[i] == Rule(order[i], Fixed(Prefixed(tick)[order[i]]))
      ensures forall i | 0 <= i < |groupOrder| ::
        r[|order| + i] == Rule(groupOrder[i], Computed(grouped[groupOrder[i]]))
    {
      var fixed, computed := FixedRules(order, Prefixed(tick)), ComputedRules(groupOrder, grouped);
      RulesSearchable(order, groupOrder, tick);
      ConcatAt(fixed, computed);
      fixed + computed
    }

    /** Every keyword `Apply` visits is a literal, hence non-empty, pattern. */
    lemma RulesSearchable(order: seq<string>, groupOrder: seq<string>, tick: nat)
      requires LiteralKeys()
      requires Enumerates(order, WrappedKeys()) && Enumerates(groupOrder, grouped.Keys)
      ensures Searchable(FixedRules(order, Prefixed(tick)) + ComputedRules(groupOrder, grouped))
    {
      var fixed, computed := FixedRules(order, Prefixed(tick)), ComputedRules(groupOrder, grouped);
      assert forall i | 0 <= i < |order| :: order[i] in order;
      assert forall i | 0 <= i < |groupOrder| :: groupOrder[i] in groupOrder;
      LiteralRulesSearchable(fixed);
      LiteralRulesSearchable(computed);
      SearchableAppend(fixed, computed);
    }

    /**
     * What `Apply` computes: every match of every keyword, found in the
     * original input, spliced one after the other into the buffer.
     */
    function Applied(input: string, order: seq<string>, groupOrder: seq<string>, tick: nat): Result<string, ApplyError>
      reads this
      requires LiteralKeys()
      requires Enumerates(order, WrappedKeys()) && Enumerates(groupOrder, grouped.Keys)
    {
      var rules := Rules(order, groupOrder, tick);
      ApplyEdits(input, Edits(input, rules, |rules|))
    }

    /**
     * Substitutes the registered keys in `input`. `order` and `groupOrder`
     * are the HashMap iteration orders; `tick` is the moment the suppliers
     * are asked. A splice that starts beyond the end of the buffer fails as
     * StringBuilder.replace does.
     */
    method Apply(input: string, order: seq<string>, groupOrder: seq<string>, tick: nat)
      returns (r: Result<string, ApplyError>)
      requires LiteralKeys()
      requires Enumerates(order, WrappedKeys()) && Enumerates(groupOrder, grouped.Keys)
      ensures r == Applied(input, order, groupOrder, tick)
    {
      var prefixed := PlaceHoldersPrefixed(tick);
      var rules := FixedRules(order, prefixed) + ComputedRules(groupOrder, grouped);
      assert rules == Rules(order, groupOrder, tick);
      ghost var n := |rules|;
      var buffer := input;
      var i := 0;
      while i < |order| + |groupOrder|
        invariant 0 <= i <= |order| + |groupOrder| == n
        invariant ApplyEdits(input, Edits(input, rules, i)) == Success(buffer)
      {
        var step := ReplaceMatches(buffer, input, rules[i]);
        EditsStep(input, rules, i, buffer);
        if step.Failure? {
          FailureSticks(input, rules, i + 1, n);
          return step;
        }
        buffer := step.value;
        i := i + 1;
      }
      r := Success(buffer);
    }

    /**
     * The value of a supplied key at `tick`, the one `Apply` would substitute
     * for its pattern; None (Java's NullPointerException) when no supplier
     * is registered for the key, whatever the other two registries hold.
     */
    function Get(key: string, tick: nat): (r: Option<string>)
      reads this
      ensures r.Some? <==> key in lazy
      ensures r.Some? ==> r.value == Prefixed(tick)[WrapWithKeys(key)]
    {
      if key in lazy then Some(lazy[key](tick)) else None
    }

    /** With nothing registered, `Apply` returns its input unchanged. */
    lemma NothingRegistered(input: string, order: seq<string>, groupOrder: seq<string>, tick: nat)
      requires instant == map[] && lazy == map[] && grouped == map[]
      requires Enumerates(order, WrappedKeys()) && Enumerates(groupOrder, grouped.Keys)
      ensures LiteralKeys() && Applied(input, order, groupOrder, tick) == Success(input)
    {
      assert WrappedKeys() == {};
      EmptyOrHead(order);
      EmptyOrHead(groupOrder);
      assert Rules(order, groupOrder, tick) == [];
    }

    /**
     * The grouped keys are spliced only after every plain and supplied key
     * has been, into the buffer those left behind.
     */
    lemma GroupedAfterPrefixed(input: string, order: seq<string>, groupOrder: seq<string>, tick: nat)
      requires LiteralKeys()
      requires Enumerates(order, WrappedKeys()) && Enumerates(groupOrder, grouped.Keys)
      ensures var fixed, computed := FixedRules(order, Prefixed(tick)), ComputedRules(groupOrder, grouped);
        && Searchable(fixed) && Searchable(computed)
        && Applied(input, order, groupOrder, tick)
           == Then(ApplyEdits(input, Edits(input, fixed, |fixed|)), Edits(input, computed, |computed|))
    {
      var fixed, computed := FixedRules(order, Prefixed(tick)), ComputedRules(groupOrder, grouped);
      assert Rules(order, groupOrder, tick) == fixed + computed;
      LiteralRulesSearchable(fixed);
      LiteralRulesSearchable(computed);
      RunAppend(input, fixed, computed);
    }
  }

  /**
   * Splices the matches of one keyword, found in `input`, into `buffer`:
   * the `while (matches.find())` loop of `Apply`.
   */
  method ReplaceMatches(buffer: string, input: string, rule: Rule) returns (r: Result<string, ApplyError>)
    requires |rule.keyword| > 0
    ensures r == ApplyEdits(buffer, MatchEdits(input, rule, 0))
  {
    var current := buffer;
    var from := 0;
    while true
      invariant from <= |input|
      invariant ApplyEdits(current, MatchEdits(input, rule, from)) == ApplyEdits(buffer, MatchEdits(input, rule, 0))
      decreases |input| - from
    {
      var found := IndexOfFrom(input, rule.keyword, from);
      if found.None? {
        NoMoreMatches(input, rule, from);
        return Success(current);
      }
      var start := found.value;
      var end := start + |rule.keyword|;
      var e := Edit(start, end, Render(rule.replacement, Match(start, end, rule.keyword)));
      ghost var rest := MatchEdits(input, rule, end);
      NextMatch(input, rule, from, start);
      ApplyFirst(current, e, rest);
      var step := Replace(current, e);
      assert ApplyEdits(current, MatchEdits(input, rule, from)) == Then(step, rest);
      if step.Failure? {
        return step;
      }
      current := step.value;
      from := end;
    }
  }
}
