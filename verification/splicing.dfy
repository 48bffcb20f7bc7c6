/**
 * The substitution performed by Placeholders.apply, as values.
 *
 * Every registered keyword is searched for in the ORIGINAL input; each match
 * becomes an Edit (a span of the original input and its replacement text),
 * and the edits are spliced one after another into a buffer that started as
 * a copy of the input, with StringBuilder.replace. Positions found in the
 * original are therefore used on a buffer whose earlier edits may already
 * have changed its length.
 */
module Splicing {
  import opened Wrappers
  import opened Text

  /** What a java.util.regex.Matcher exposes to a match-dependent replacement: the span and the matched text. */
  datatype Match = Match(start: nat, end: nat, text: string)

  /** A match-dependent replacement (Function<Matcher, String>). */
  type Transform = Match -> string

  /** The replacement registered for a keyword: a fixed text, or one computed from the match. */
  datatype Replacement = Fixed(value: string) | Computed(transform: Transform)

  function Render(rep: Replacement, m: Match): string {
    match rep
    case Fixed(v) => v
    case Computed(f) => f(m)
  }

  /** A keyword (the literal pattern searched for) and what replaces it. */
  datatype Rule = Rule(keyword: string, replacement: Replacement)

  /** Replace the span [start, end) of the buffer by `text`. */
  datatype Edit = Edit(start: nat, end: nat, text: string)

  /** StringIndexOutOfBoundsException thrown by StringBuilder.replace. */
  datatype ApplyError = IndexOutOfBounds(start: nat, length: nat)

  function Min(a: nat, b: nat): nat {
    if a <= b then a else b
  }

  /**
   * StringBuilder.replace(start, end, text): an end past the buffer is cut
   * back to its length; a start past the length, or past the end, throws.
   */
  function Replace(buffer: string, e: Edit): (r: Result<string, ApplyError>)
    ensures r.Failure? <==> e.start > |buffer| || e.start > e.end
    ensures r.Success? ==>
      && |r.value| == |buffer| - (Min(e.end, |buffer|) - e.start) + |e.text|
      && r.value[..e.start] == buffer[..e.start]
      && r.value[e.start..e.start + |e.text|] == e.text
      && r.value[e.start + |e.text|..] == buffer[Min(e.end, |buffer|)..]
  {
    if e.start > |buffer| || e.start > e.end then Failure(IndexOutOfBounds(e.start, |buffer|))
    else
      var r := buffer[..e.start] + e.text + buffer[Min(e.end, |buffer|)..];
      assert r[e.start + |e.text|..] == buffer[Min(e.end, |buffer|)..];
      Success(r)
  }

  /** Splice the edits into `buffer`, first to last; the first failing replace ends the run. */
  function ApplyEdits(buffer: string, edits: seq<Edit>): Result<string, ApplyError> {
    if edits == [] then Success(buffer)
    else
      match ApplyEdits(buffer, edits[..|edits| - 1])
      case Failure(err) => Failure(err)
      case Success(b) => Replace(b, edits[|edits| - 1])
  }

  /** Continue a run of edits from an earlier outcome. */
  function Then(r: Result<string, ApplyError>, edits: seq<Edit>): Result<string, ApplyError> {
    match r
    case Failure(err) => Failure(err)
    case Success(b) => ApplyEdits(b, edits)
  }

  /** Splicing x and then y is splicing x + y; in particular a failure is never recovered from. */
  lemma {:induction false} ApplyEditsAppend(buffer: string, x: seq<Edit>, y: seq<Edit>)
    ensures ApplyEdits(buffer, x + y) == Then(ApplyEdits(buffer, x), y)
  {
    if y == [] {
      assert x + y == x;
    } else {
      ApplyEditsAppend(buffer, x, y[..|y| - 1]);
      assert (x + y)[..|x + y| - 1] == x + y[..|y| - 1];
    }
  }

  /** Splicing a first edit, then the rest. */
  lemma ApplyFirst(buffer: string, e: Edit, rest: seq<Edit>)
    ensures ApplyEdits(buffer, [e] + rest) == Then(Replace(buffer, e), rest)
  {
    ApplyEditsAppend(buffer, [e], rest);
    assert [e][..0] == [];
  }

  /**
   * The edits one keyword produces: `while (matches.find())` over the original
   * input, each search resuming where the previous match ended.
   */
  function MatchEdits(input: string, rule: Rule, from: nat): seq<Edit>
    requires from <= |input| && |rule.keyword| > 0
    decreases |input| - from
  {
    match IndexOfFrom(input, rule.keyword, from)
    case None => []
    case Some(i) =>
      var end := i + |rule.keyword|;
      [Edit(i, end, Render(rule.replacement, Match(i, end, rule.keyword)))] + MatchEdits(input, rule, end)
  }

  /** An edit made for an occurrence of `rule`'s keyword at `e.start`, replaced by the rule's rendering. */
  predicate EditFor(input: string, rule: Rule, e: Edit) {
    && OccursAt(input, rule.keyword, e.start)
    && e.end == e.start + |rule.keyword|
    && e.text == Render(rule.replacement, Match(e.start, e.end, rule.keyword))
  }

  /**
   * Each edit of a keyword is one of its occurrences at or after `from`, the
   * edits are ascending and do not overlap, and there are none exactly when
   * the keyword does not occur. (That no occurrence is missed is
   * `MatchEditsCover`.)
   */
  lemma {:induction false} MatchEditsSpec(input: string, rule: Rule, from: nat)
    requires from <= |input| && |rule.keyword| > 0
    ensures forall e | e in MatchEdits(input, rule, from) :: from <= e.start && EditFor(input, rule, e)
    ensures Ascending(MatchEdits(input, rule, from))
    ensures MatchEdits(input, rule, from) == [] <==> forall j :: from <= j ==> !OccursAt(input, rule.keyword, j)
    decreases |input| - from
  {
    match IndexOfFrom(input, rule.keyword, from)
    case None =>
    case Some(i) =>
      var end := i + |rule.keyword|;
      MatchEditsSpec(input, rule, end);
      var rest := MatchEdits(input, rule, end);
      var r := MatchEdits(input, rule, from);
      assert r[1..] == rest;
      assert forall j | 0 < j < |r| :: r[j] in rest;
  }

  /**
   * The search misses no occurrence: each one at or after `from` lies inside
   * some edit (one overlapping an earlier match lies inside that match).
   */
  lemma {:induction false} MatchEditsCover(input: string, rule: Rule, from: nat)
    requires from <= |input| && |rule.keyword| > 0
    ensures forall j | from <= j && OccursAt(input, rule.keyword, j) ::
      exists e | e in MatchEdits(input, rule, from) :: Covers(e, j)
    decreases |input| - from
  {
    match IndexOfFrom(input, rule.keyword, from)
    case None =>
    case Some(i) =>
      var end := i + |rule.keyword|;
      MatchEditsCover(input, rule, end);
      var first := Edit(i, end, Render(rule.replacement, Match(i, end, rule.keyword)));
      var rest := MatchEdits(input, rule, end);
      var r := MatchEdits(input, rule, from);
      assert r == [first] + rest;
      forall j | from <= j && OccursAt(input, rule.keyword, j) ensures exists e | e in r :: Covers(e, j) {
        if j < end {
          assert first in r && Covers(first, j);
        } else {
          var e :| e in rest && Covers(e, j);
          assert e in r;
        }
      }
  }

  predicate Searchable(rules: seq<Rule>) {
    forall i | 0 <= i < |rules| :: |rules[i].keyword| > 0
  }

  /** The edits of the first n rules, rule by rule, each rule's matches left to right. */
  function Edits(input: string, rules: seq<Rule>, n: nat): seq<Edit>
    requires Searchable(rules) && n <= |rules|
  {
    if n == 0 then [] else Edits(input, rules, n - 1) + MatchEdits(input, rules[n - 1], 0)
  }

  /** Every edit lies inside the input and replaces an occurrence of one of the first n keywords. */
  lemma {:induction false} EditsSpec(input: string, rules: seq<Rule>, n: nat)
    requires Searchable(rules) && n <= |rules|
    ensures InBounds(Edits(input, rules, n), |input|)
    ensures forall e | e in Edits(input, rules, n) :: exists i | 0 <= i < n :: EditFor(input, rules[i], e)
  {
    if n > 0 {
      EditsSpec(input, rules, n - 1);
      MatchEditsSpec(input, rules[n - 1], 0);
    }
  }

  /** No occurrence of the first n keywords is missed by their edits. */
  lemma {:induction false} EditsCover(input: string, rules: seq<Rule>, n: nat)
    requires Searchable(rules) && n <= |rules|
    ensures forall i, j | 0 <= i < n && OccursAt(input, rules[i].keyword, j) ::
      exists e | e in Edits(input, rules, n) :: Covers(e, j)
  {
    if n > 0 {
      EditsCover(input, rules, n - 1);
      MatchEditsCover(input, rules[n - 1], 0);
      var before, more := Edits(input, rules, n - 1), MatchEdits(input, rules[n - 1], 0);
      assert Edits(input, rules, n) == before + more;
      forall i, j | 0 <= i < n && OccursAt(input, rules[i].keyword, j)
        ensures exists e | e in before + more :: Covers(e, j)
      {
        if i < n - 1 {
          var e :| e in before && Covers(e, j);
          assert e in before + more;
        } else {
          var e :| e in more && Covers(e, j);
          assert e in before + more;
        }
      }
    }
  }

  /** The edits of x + y are those of x followed by those of y. */
  lemma {:induction false} EditsAppend(input: string, x: seq<Rule>, y: seq<Rule>, n: nat)
    requires Searchable(x) && Searchable(y) && n <= |y|
    ensures Searchable(x + y)
    ensures Edits(input, x + y, |x| + n) == Edits(input, x, |x|) + Edits(input, y, n)
  {
    SearchableAppend(x, y);
    if n == 0 {
      EditsPrefix(input, x, y, |x|);
      assert Edits(input, y, 0) == [];
    } else {
      EditsAppend(input, x, y, n - 1);
      assert (x + y)[|x| + n - 1] == y[n - 1];
    }
  }

  /** Running the rules x + y is running x, then continuing with the edits of y. */
  lemma RunAppend(input: string, x: seq<Rule>, y: seq<Rule>)
    requires Searchable(x) && Searchable(y)
    ensures Searchable(x + y)
    ensures ApplyEdits(input, Edits(input, x + y, |x + y|))
      == Then(ApplyEdits(input, Edits(input, x, |x|)), Edits(input, y, |y|))
  {
    EditsAppend(input, x, y, |y|);
    ApplyEditsAppend(input, Edits(input, x, |x|), Edits(input, y, |y|));
  }

  lemma SearchableAppend(x: seq<Rule>, y: seq<Rule>)
    requires Searchable(x) && Searchable(y)
    ensures Searchable(x + y)
  {
    forall i | 0 <= i < |x + y| ensures |(x + y)[i].keyword| > 0 {
      if i >= |x| { assert (x + y)[i] == y[i - |x|]; }
    }
  }

  /** Rules appended after the first n do not change the edits of the first n. */
  lemma {:induction false} EditsPrefix(input: string, x: seq<Rule>, y: seq<Rule>, n: nat)
    requires Searchable(x) && Searchable(y) && n <= |x|
    ensures Searchable(x + y)
    ensures Edits(input, x + y, n) == Edits(input, x, n)
  {
    SearchableAppend(x, y);
    if n > 0 {
      EditsPrefix(input, x, y, n - 1);
      assert (x + y)[n - 1] == x[n - 1];
    }
  }

  /** Splicing the edits of one more keyword continues from the buffer the earlier ones left. */
  lemma EditsStep(input: string, rules: seq<Rule>, i: nat, buffer: string)
    requires Searchable(rules) && i < |rules|
    requires ApplyEdits(input, Edits(input, rules, i)) == Success(buffer)
    ensures ApplyEdits(input, Edits(input, rules, i + 1)) == ApplyEdits(buffer, MatchEdits(input, rules[i], 0))
  {
    var before, more := Edits(input, rules, i), MatchEdits(input, rules[i], 0);
    assert Edits(input, rules, i + 1) == before + more;
    ApplyEditsAppend(input, before, more);
  }

  /**
   * Once the edits of the first m keywords fail, the edits of the later
   * keywords never run: the outcome of all n is that failure.
   */
  lemma {:induction false} FailureSticks(input: string, rules: seq<Rule>, m: nat, n: nat)
    requires Searchable(rules) && m <= n <= |rules|
    requires ApplyEdits(input, Edits(input, rules, m)).Failure?
    ensures ApplyEdits(input, Edits(input, rules, n)) == ApplyEdits(input, Edits(input, rules, m))
  {
    if n > m {
      FailureSticks(input, rules, m, n - 1);
      var before, more := Edits(input, rules, n - 1), MatchEdits(input, rules[n - 1], 0);
      assert Edits(input, rules, n) == before + more;
      ApplyEditsAppend(input, before, more);
    }
  }

  /** The search loop ends when the keyword does not occur from `from` on. */
  lemma NoMoreMatches(input: string, rule: Rule, from: nat)
    requires from <= |input| && |rule.keyword| > 0
    requires IndexOfFrom(input, rule.keyword, from).None?
    ensures MatchEdits(input, rule, from) == []
  {
  }

  /** One turn of the search loop: the match at `i`, then the search resumes at its end. */
  lemma NextMatch(input: string, rule: Rule, from: nat, i: nat)
    requires from <= |input| && |rule.keyword| > 0
    requires IndexOfFrom(input, rule.keyword, from) == Some(i)
    ensures from <= i && i + |rule.keyword| <= |input|
    ensures MatchEdits(input, rule, from)
      == [Edit(i, i + |rule.keyword|, Render(rule.replacement, Match(i, i + |rule.keyword|, rule.keyword)))]
         + MatchEdits(input, rule, i + |rule.keyword|)
  {
  }

  // ---------------------------------------------------------------------
  // When the splicing is clean, and when it is not
  // ---------------------------------------------------------------------

  predicate InBounds(edits: seq<Edit>, n: nat) {
    forall e | e in edits :: e.start <= e.end <= n
  }

  /** Every replacement has the length of the text it replaces. */
  predicate SameLength(edits: seq<Edit>) {
    forall e | e in edits :: |e.text| == e.end - e.start
  }

  /** No two edits touch a common position. */
  predicate Disjoint(edits: seq<Edit>) {
    forall i, j | 0 <= i < |edits| && 0 <= j < |edits| && i != j ::
      edits[i].end <= edits[j].start || edits[j].end <= edits[i].start
  }

  predicate Covers(e: Edit, k: int) {
    e.start <= k < e.end
  }

  /** One length-preserving replace inside the buffer overwrites exactly its span. */
  lemma OverwriteStep(c: string, e: Edit)
    requires e.start <= e.end <= |c| && |e.text| == e.end - e.start
    ensures Replace(c, e).Success? && |Replace(c, e).value| == |c|
    ensures forall k | 0 <= k < |c| && Covers(e, k) :: Replace(c, e).value[k] == e.text[k - e.start]
    ensures forall k | 0 <= k < |c| && !Covers(e, k) :: Replace(c, e).value[k] == c[k]
  {
    var v := c[..e.start] + e.text + c[e.end..];
    assert Replace(c, e) == Success(v);
    forall k | 0 <= k < |c| ensures v[k] == if Covers(e, k) then e.text[k - e.start] else c[k] {
      if k < e.start {
        assert v[k] == c[..e.start][k];
      } else if k >= e.end {
        assert v[k] == c[e.end..][k - e.end];
      }
    }
  }

  /**
   * With length-preserving, pairwise disjoint edits nothing drifts: every
   * edited span holds its replacement and every other position keeps its
   * character, whatever the order of the edits.
   */
  lemma {:induction false} SameLengthOverwrites(buffer: string, edits: seq<Edit>)
    requires InBounds(edits, |buffer|) && SameLength(edits) && Disjoint(edits)
    ensures ApplyEdits(buffer, edits).Success?
    ensures |ApplyEdits(buffer, edits).value| == |buffer|
    ensures forall e, k | e in edits && Covers(e, k) :: ApplyEdits(buffer, edits).value[k] == e.text[k - e.start]
    ensures forall k | 0 <= k < |buffer| && (forall e | e in edits :: !Covers(e, k)) ::
      ApplyEdits(buffer, edits).value[k] == buffer[k]
  {
    if edits != [] {
      var n := |edits| - 1;
      var init, last := edits[..n], edits[n];
      assert forall e | e in init :: e in edits;
      assert Disjoint(init) by {
        forall i, j | 0 <= i < |init| && 0 <= j < |init| && i != j
          ensures init[i].end <= init[j].start || init[j].end <= init[i].start
        {
          assert init[i] == edits[i] && init[j] == edits[j];
        }
      }
      SameLengthOverwrites(buffer, init);
      var c := ApplyEdits(buffer, init).value;
      assert last in edits;
      OverwriteStep(c, last);
      assert ApplyEdits(buffer, edits) == Replace(c, last);
      var v := Replace(c, last).value;
      forall e, k | e in edits && Covers(e, k) ensures v[k] == e.text[k - e.start] {
        if e != last {
          var i :| 0 <= i < |edits| && edits[i] == e;
          assert i != n;
          assert e in init;
          assert !Covers(last, k);
        }
      }
    }
  }

  /** The edits are in increasing position and do not overlap. */
  predicate Ascending(edits: seq<Edit>) {
    && (forall e | e in edits :: e.start <= e.end)
    && (forall i, j | 0 <= i < j < |edits| :: edits[i].end <= edits[j].start)
  }

  /**
   * The substitution the placeholder engine is meant to compute: one pass
   * over the original input, copying the text between matches verbatim and
   * emitting each match's replacement in its place.
   */
  function Clean(input: string, edits: seq<Edit>, from: nat): (r: string)
    requires Ascending(edits) && InBounds(edits, |input|) && from <= |input|
    requires edits != [] ==> from <= edits[0].start
    ensures edits == [] ==> r == input[from..]
  {
    if edits == [] then input[from..]
    else
      AscendingTail(edits);
      input[from..edits[0].start] + edits[0].text + Clean(input, edits[1..], edits[0].end)
  }

  lemma AscendingTail(edits: seq<Edit>)
    requires edits != [] && Ascending(edits)
    ensures Ascending(edits[1..])
    ensures edits[1..] != [] ==> edits[0].end <= edits[1].start
  {
    assert forall e | e in edits[1..] :: e in edits;
    forall i, j | 0 <= i < j < |edits[1..]| ensures edits[1..][i].end <= edits[1..][j].start {
      assert edits[1..][i] == edits[i + 1] && edits[1..][j] == edits[j + 1];
    }
  }

  function Reversed(edits: seq<Edit>): (r: seq<Edit>)
    ensures |r| == |edits|
  {
    if edits == [] then [] else Reversed(edits[1..]) + [edits[0]]
  }

  /** Replacing the last span of `input[..e.end]` in front of any tail keeps the tail. */
  lemma ReplaceBeforeTail(input: string, e: Edit, tail: string)
    requires e.start <= e.end <= |input|
    ensures Replace(input[..e.end] + tail, e) == Success(input[..e.start] + e.text + tail)
  {
    var c := input[..e.end] + tail;
    assert Min(e.end, |c|) == e.end;
    assert c[..e.start] == input[..e.start];
    assert c[e.end..] == tail;
  }

  lemma ReversedSplit(edits: seq<Edit>)
    requires edits != []
    ensures Reversed(edits)[..|edits| - 1] == Reversed(edits[1..])
    ensures Reversed(edits)[|edits| - 1] == edits[0]
  {
    assert Reversed(edits) == Reversed(edits[1..]) + [edits[0]];
  }

  /** The last edit of a run is applied to the outcome of all the others. */
  lemma ApplyLast(buffer: string, edits: seq<Edit>, b: string)
    requires edits != [] && ApplyEdits(buffer, edits[..|edits| - 1]) == Success(b)
    ensures ApplyEdits(buffer, edits) == Replace(b, edits[|edits| - 1])
  {
  }

  lemma CleanHead(input: string, edits: seq<Edit>, p: nat)
    requires Ascending(edits) && InBounds(edits, |input|) && edits != []
    requires p <= edits[0].start <= |input|
    ensures Ascending(edits[1..]) && InBounds(edits[1..], |input|)
    ensures edits[0].start <= edits[0].end <= |input|
    ensures edits[1..] != [] ==> edits[0].end <= edits[1].start
    ensures input[..p] + Clean(input, edits, p)
      == input[..edits[0].start] + edits[0].text + Clean(input, edits[1..], edits[0].end)
  {
    AscendingTail(edits);
    assert edits[0] in edits;
    assert InBounds(edits[1..], |input|) by {
      assert forall e | e in edits[1..] :: e in edits;
    }
    var e0 := edits[0];
    var tail := Clean(input, edits[1..], e0.end);
    assert Clean(input, edits, p) == input[p..e0.start] + e0.text + tail;
    calc {
      input[..p] + Clean(input, edits, p);
      input[..p] + (input[p..e0.start] + e0.text + tail);
      { assert input[..p] + input[p..e0.start] == input[..e0.start]; }
      input[..e0.start] + e0.text + tail;
    }
  }

  lemma {:induction false} RightToLeftIsClean(input: string, edits: seq<Edit>, p: nat)
    requires Ascending(edits) && InBounds(edits, |input|)
    requires p <= |input| && (edits != [] ==> p <= edits[0].start)
    ensures ApplyEdits(input, Reversed(edits)) == Success(input[..p] + Clean(input, edits, p))
  {
    if edits == [] {
      assert input[..p] + input[p..] == input;
    } else {
      var e0 := edits[0];
      CleanHead(input, edits, p);
      RightToLeftIsClean(input, edits[1..], e0.end);
      var tail := Clean(input, edits[1..], e0.end);
      ReversedSplit(edits);
      ApplyLast(input, Reversed(edits), input[..e0.end] + tail);
      ReplaceBeforeTail(input, e0, tail);
    }
  }

  /**
   * The corrected splice: applying the edits from the rightmost to the
   * leftmost leaves the positions of the remaining edits untouched, so the
   * outcome is the clean substitution.
   */
  function ApplyRightToLeft(input: string, edits: seq<Edit>): (r: Result<string, ApplyError>)
    requires Ascending(edits) && InBounds(edits, |input|)
    ensures r == Success(Clean(input, edits, 0))
  {
    RightToLeftIsClean(input, edits, 0);
    assert input[..0] + Clean(input, edits, 0) == Clean(input, edits, 0);
    ApplyEdits(input, Reversed(edits))
  }

  /** The edits of one keyword are always ascending, so the corrected splice handles them. */
  lemma MatchEditsAscending(input: string, rule: Rule)
    requires |rule.keyword| > 0
    ensures Ascending(MatchEdits(input, rule, 0)) && InBounds(MatchEdits(input, rule, 0), |input|)
  {
    MatchEditsSpec(input, rule, 0);
  }

  /**
   * A single match overall: the as-written splice is exactly the clean
   * substitution, the input with that one span replaced.
   */
  lemma OneMatchIsClean(input: string, rules: seq<Rule>)
    requires Searchable(rules) && |Edits(input, rules, |rules|)| == 1
    ensures InBounds(Edits(input, rules, |rules|), |input|)
    ensures var e := Edits(input, rules, |rules|)[0];
      && (exists i | 0 <= i < |rules| :: EditFor(input, rules[i], e))
      && ApplyEdits(input, Edits(input, rules, |rules|)) == Success(input[..e.start] + e.text + input[e.end..])
      && ApplyEdits(input, Edits(input, rules, |rules|)) == Success(Clean(input, Edits(input, rules, |rules|), 0))
  {
    EditsSpec(input, rules, |rules|);
    var es := Edits(input, rules, |rules|);
    var e := es[0];
    assert e in es;
    assert es[..0] == [];
    assert es[1..] == [];
    assert Replace(input, e) == Success(input[..e.start] + e.text + input[e.end..]);
  }

  /**
   * Length-preserving replacements whose matches do not overlap are replaced
   * in place: the result has the input's length, every occurrence of every
   * keyword lies in a match that holds its replacement, and every character
   * outside the matches is the input's.
   */
  lemma SameLengthInPlace(input: string, rules: seq<Rule>)
    requires Searchable(rules)
    requires SameLength(Edits(input, rules, |rules|)) && Disjoint(Edits(input, rules, |rules|))
    ensures InBounds(Edits(input, rules, |rules|), |input|)
    ensures var r := ApplyEdits(input, Edits(input, rules, |rules|));
      && r.Success? && |r.value| == |input|
      && (forall i, j | 0 <= i < |rules| && OccursAt(input, rules[i].keyword, j) ::
            exists e | e in Edits(input, rules, |rules|) :: Covers(e, j))
      && (forall e, k | e in Edits(input, rules, |rules|) && Covers(e, k) :: r.value[k] == e.text[k - e.start])
      && (forall k | 0 <= k < |input| && (forall e | e in Edits(input, rules, |rules|) :: !Covers(e, k)) :: r.value[k] == input[k])
  {
    EditsSpec(input, rules, |rules|);
    EditsCover(input, rules, |rules|);
    SameLengthOverwrites(input, Edits(input, rules, |rules|));
  }

  // ---------------------------------------------------------------------
  // Witnesses of the drift
  // ---------------------------------------------------------------------

  /**
   * One key occurring twice, replaced by a longer text: the second match is
   * spliced at its position in the original input, which the first splice
   * has shifted; the intended result is "xxxx".
   */
  lemma DriftWitness()
    ensures var input := "<a><a>";
      var rules := [Rule("<a>", Fixed("xx"))];
      && Edits(input, rules, 1) == [Edit(0, 3, "xx"), Edit(3, 6, "xx")]
      && ApplyEdits(input, Edits(input, rules, 1)) == Success("xx<xx")
      && ApplyRightToLeft(input, Edits(input, rules, 1)) == Success("xxxx")
  {
    var input := "<a><a>";
    var rule := Rule("<a>", Fixed("xx"));
    var e1, e2 := Edit(0, 3, "xx"), Edit(3, 6, "xx");
    DriftWitnessMatches();
    EditsOfOne(input, rule);
    DriftWitnessSplices();
    ApplyTwo(input, e1, e2, "xx<a>");
  }

  /** Where "<a>" occurs in "<a><a>". */
  lemma DriftWitnessMatches()
    ensures MatchEdits("<a><a>", Rule("<a>", Fixed("xx")), 0) == [Edit(0, 3, "xx"), Edit(3, 6, "xx")]
  {
    var input := "<a><a>";
    var rule := Rule("<a>", Fixed("xx"));
    assert input[0..3] == "<a>";
    assert input[3..6] == "<a>";
    assert IndexOfFrom(input, "<a>", 0) == Some(0);
    assert IndexOfFrom(input, "<a>", 3) == Some(3);
    assert IndexOfFrom(input, "<a>", 6) == None;
    assert MatchEdits(input, rule, 6) == [];
    assert MatchEdits(input, rule, 3) == [Edit(3, 6, "xx")];
  }

  /** The two splices of the drift witness, and the clean substitution it should have given. */
  lemma DriftWitnessSplices()
    ensures Replace("<a><a>", Edit(0, 3, "xx")) == Success("xx<a>")
    ensures Replace("xx<a>", Edit(3, 6, "xx")) == Success("xx<xx")
    ensures Clean("<a><a>", [Edit(0, 3, "xx"), Edit(3, 6, "xx")], 0) == "xxxx"
  {
    var input := "<a><a>";
    var e1, e2 := Edit(0, 3, "xx"), Edit(3, 6, "xx");
    var es := [e1, e2];
    assert input[..0] + "xx" + input[3..] == "xx<a>";
    assert "xx<a>"[..3] + "xx" + "xx<a>"[5..] == "xx<xx";
    assert es[1..] == [e2] && [e2][1..] == [];
    assert Clean(input, [e2], 3) == "xx" by {
      assert input[3..3] + "xx" + input[6..] == "xx";
    }
    assert input[0..0] + "xx" + "xx" == "xxxx";
  }

  /** Where the two keys of the order witness occur in "<T> <L>". */
  lemma OrderWitnessMatches()
    ensures MatchEdits("<T> <L>", Rule("<T>", Fixed("t")), 0) == [Edit(0, 3, "t")]
    ensures MatchEdits("<T> <L>", Rule("<L>", Fixed("j")), 0) == [Edit(4, 7, "j")]
  {
    var input := "<T> <L>";
    assert input[0..3] == "<T>" && input[4..7] == "<L>";
    assert input[0..3] != "<L>" by { assert input[0..3][1] != "<L>"[1]; }
    assert input[1..4] != "<L>" by { assert input[1..4][0] == 'T'; }
    assert input[2..5] != "<L>" by { assert input[2..5][0] == '>'; }
    assert input[3..6] != "<L>" by { assert input[3..6][0] == ' '; }
    assert IndexOfFrom(input, "<L>", 0) == Some(4);
    assert IndexOfFrom(input, "<L>", 7) == None;
    assert IndexOfFrom(input, "<T>", 0) == Some(0);
    assert IndexOfFrom(input, "<T>", 3) == None by {
      assert input[3..6] != "<T>" by { assert input[3..6][0] == ' '; }
      assert input[4..7] != "<T>" by { assert input[4..7][1] != "<T>"[1]; }
    }
  }

  /** The splices of the order witness, in each of the two orders. */
  lemma OrderWitnessSplices()
    ensures Replace("<T> <L>", Edit(0, 3, "t")) == Success("t <L>")
    ensures Replace("t <L>", Edit(4, 7, "j")) == Success("t <Lj")
    ensures Replace("<T> <L>", Edit(4, 7, "j")) == Success("<T> j")
    ensures Replace("<T> j", Edit(0, 3, "t")) == Success("t j")
  {
    var input := "<T> <L>";
    assert input[..0] + "t" + input[3..] == "t <L>";
    assert "t <L>"[..4] + "j" + "t <L>"[5..] == "t <Lj";
    assert input[..4] + "j" + input[7..] == "<T> j";
    assert "<T> j"[..0] + "t" + "<T> j"[3..] == "t j";
  }

  /** The edits for one rule are that rule's matches. */
  lemma EditsOfOne(input: string, a: Rule)
    requires |a.keyword| > 0
    ensures Edits(input, [a], 1) == MatchEdits(input, a, 0)
  {
    assert Edits(input, [a], 0) == [];
  }

  /** The edits for two rules are the first rule's matches, then the second's. */
  lemma EditsOfTwo(input: string, a: Rule, b: Rule)
    requires |a.keyword| > 0 && |b.keyword| > 0
    ensures Edits(input, [a, b], 2) == MatchEdits(input, a, 0) + MatchEdits(input, b, 0)
  {
    assert [a, b][..1] == [a];
    EditsPrefix(input, [a], [b], 1);
    assert [a] + [b] == [a, b];
    EditsOfOne(input, a);
  }

  /** Splicing two edits one after the other. */
  lemma ApplyTwo(buffer: string, x: Edit, y: Edit, mid: string)
    requires Replace(buffer, x) == Success(mid)
    ensures ApplyEdits(buffer, [x, y]) == Replace(mid, y)
  {
    assert [x, y][..1] == [x];
    assert [x][..0] == [];
    assert ApplyEdits(buffer, [x]) == Success(mid);
  }

  /**
   * Two keys: the outcome depends on the order the keys are visited in,
   * which for a HashMap is unspecified.
   */
  lemma OrderDependenceWitness()
    ensures var input := "<T> <L>";
      var t, l := Rule("<T>", Fixed("t")), Rule("<L>", Fixed("j"));
      && ApplyEdits(input, Edits(input, [t, l], 2)) == Success("t <Lj")
      && ApplyEdits(input, Edits(input, [l, t], 2)) == Success("t j")
  {
    var input := "<T> <L>";
    var t, l := Rule("<T>", Fixed("t")), Rule("<L>", Fixed("j"));
    var et, el := Edit(0, 3, "t"), Edit(4, 7, "j");
    OrderWitnessMatches();
    OrderWitnessSplices();
    EditsOfTwo(input, t, l);
    EditsOfTwo(input, l, t);
    assert [et] + [el] == [et, el] && [el] + [et] == [el, et];
    ApplyTwo(input, et, el, "t <L>");
    ApplyTwo(input, el, et, "<T> j");
  }

  /** Where "<a>" occurs in "<a><a><a>". */
  lemma OutOfBoundsWitnessMatches()
    ensures MatchEdits("<a><a><a>", Rule("<a>", Fixed("")), 0)
      == [Edit(0, 3, ""), Edit(3, 6, ""), Edit(6, 9, "")]
  {
    var input := "<a><a><a>";
    var rule := Rule("<a>", Fixed(""));
    assert input[0..3] == "<a>" && input[3..6] == "<a>" && input[6..9] == "<a>";
    assert IndexOfFrom(input, "<a>", 9) == None;
    assert IndexOfFrom(input, "<a>", 6) == Some(6);
    assert IndexOfFrom(input, "<a>", 3) == Some(3);
    assert IndexOfFrom(input, "<a>", 0) == Some(0);
    assert MatchEdits(input, rule, 9) == [];
    assert MatchEdits(input, rule, 6) == [Edit(6, 9, "")];
    assert MatchEdits(input, rule, 3) == [Edit(3, 6, ""), Edit(6, 9, "")];
  }

  /**
   * A shrinking replacement can leave a later match beyond the end of the
   * buffer: the third splice starts at 6 in a buffer of length 3, and
   * StringBuilder.replace throws.
   */
  lemma OutOfBoundsWitness()
    ensures var input := "<a><a><a>";
      ApplyEdits(input, Edits(input, [Rule("<a>", Fixed(""))], 1)) == Failure(IndexOutOfBounds(6, 3))
  {
    var input := "<a><a><a>";
    var rule := Rule("<a>", Fixed(""));
    var e1, e2, e3 := Edit(0, 3, ""), Edit(3, 6, ""), Edit(6, 9, "");
    OutOfBoundsWitnessMatches();
    EditsOfOne(input, rule);
    OutOfBoundsWitnessSplices();
    ApplyTwo(input, e1, e2, "<a><a>");
    var es := [e1, e2, e3];
    assert es[..2] == [e1, e2];
    ApplyLast(input, es, "<a>");
  }

  /** The two splices that succeed before the third one falls outside the buffer. */
  lemma OutOfBoundsWitnessSplices()
    ensures Replace("<a><a><a>", Edit(0, 3, "")) == Success("<a><a>")
    ensures Replace("<a><a>", Edit(3, 6, "")) == Success("<a>")
  {
    var input := "<a><a><a>";
    assert input[..0] + "" + input[3..] == "<a><a>";
    assert "<a><a>"[..3] + "" + "<a><a>"[6..] == "<a>";
  }
}
