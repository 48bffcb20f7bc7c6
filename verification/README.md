# selenium-wrapper core, modelled in Dafny

This project models the string-templating, validation and selector-building
core of a Selenium helper library, and proves properties of the model.

- **Placeholder engine** (`strings.dfy`, `splicing.dfy`). It has three
  registries of key → replacement: fixed values, suppliers asked when `apply`
  runs, and functions of the match. Delimiters are wrapped around the fixed
  and supplied keys. `apply` finds every match in the ORIGINAL input but
  splices it into a buffer that earlier splices have already changed.
  `Splicing` states this as a fold of `StringBuilder.replace` edits. `Strings`
  holds the `Placeholders` class with its setters, the prefixed map and the
  `Apply` loop, which is proved equal to that fold.
- **Validator stack** (`core.dfy`, `validation.dfy`). `FailMessage` builds
  the failure texts. `Validator` is a fluent builder whose `Check` reports
  Passed, Failed(message) or Unconfigured. `Validators` makes the containment
  and regular-expression validators, and `Validation` is the assertion
  facade on top of them.
- **Rule verification** (`verification.dfy`). A rule set maps keys to
  texts. A check looks the rule up, optionally substitutes placeholders
  into it, and compares the result exactly with the value.
- **CSS selector builder** (`chain.dfy`). `Css` is an append-only text
  buffer. Every builder call appends one fragment and returns the same
  object.
- **Locator classifier** (`locators.dfy`). A locator text is XPath exactly
  when it starts with `//` or `body`, and a CSS selector otherwise.
- **Data registry** (`data.dfy`). A newest-first list with save-if-new,
  case-insensitive lookup, type filters and clearing.

`text.dfy` holds the `java.lang.String` operations used throughout: literal
search, `contains`, `startsWith`, ASCII `equalsIgnoreCase` and `%d`.
`wrappers.dfy` holds `Option` and `Result`.

Thrown exceptions become values: `Failure(...)`, `None`, `Failed(message)`
or `Unconfigured`. A few inputs are parameters of the model rather than
things it computes:
- a HashMap's iteration order is a sequence of its keys;
- the moment a supplier is asked is a `tick: nat`;
- the regular-expression search of the regex validator is a
  `finds(pattern, text)` function.

The Javadoc of `assertContains` (`src/main/java/space/gbsdev/Validation.java:13-18`)
promises a check that passes when the text is contained. The code of
`Validator.check` fails exactly then. The model follows the code and
records the inversion under Findings.

## Model

| member | source | states |
|---|---|---|
| Text.IndexOfFrom | src/main/java/space/gbsdev/strings/Placeholders.java:156-157 | the next literal match at or after `from` is a real occurrence with none before it; None means there is no occurrence at all |
| Text.Contains | src/main/java/space/gbsdev/core/Validators.java:17 | `String.contains` holds exactly when the text occurs at some index |
| Text.IntDecimal | src/main/java/space/gbsdev/locators/chain/Css.java:66 | `%d` gives a leading minus exactly for negative values; after it come only decimal digits, with no leading zero unless the value is 0, and they read back as the absolute value |
| Text.NatDigitsRoundTrip | src/main/java/space/gbsdev/locators/chain/Css.java:66 | reading back the decimal digits of n gives n |
| Splicing.Replace | src/main/java/space/gbsdev/strings/Placeholders.java:158 | `StringBuilder.replace` fails exactly when start is past the buffer or past end; otherwise it keeps the head, inserts the text and keeps the tail after the clamped end |
| Splicing.ApplyFirst | src/main/java/space/gbsdev/strings/Placeholders.java:157-159 | splicing a list of edits is splicing the first edit and then the rest into its result |
| Splicing.MatchEditsSpec | src/main/java/space/gbsdev/strings/Placeholders.java:156-159 | every edit of a keyword is an occurrence in the original input replaced by its rendering; the edits ascend without overlap; there are none exactly when the keyword does not occur |
| Splicing.MatchEditsCover | src/main/java/space/gbsdev/strings/Placeholders.java:156-159 | the search misses no occurrence: every occurrence of the keyword at or after the start lies inside one of its edits (an occurrence overlapping an earlier match lies inside that match) |
| Splicing.EditsSpec | src/main/java/space/gbsdev/strings/Placeholders.java:155-166 | every edit of a run lies inside the original input and comes from one of the rules visited so far |
| Splicing.EditsCover | src/main/java/space/gbsdev/strings/Placeholders.java:155-166 | every occurrence of every keyword visited so far lies inside one of the run's edits |
| Splicing.RunAppend | src/main/java/space/gbsdev/strings/Placeholders.java:155-166 | running two groups of rules is running the first and then the second on its result |
| Splicing.FailureSticks | src/main/java/space/gbsdev/strings/Placeholders.java:158 | once a splice has thrown, visiting more rules keeps the same failure |
| Splicing.OneMatchIsClean | src/main/java/space/gbsdev/strings/Placeholders.java:153-168 | with exactly one match overall, the result is the input with that span replaced, i.e. the clean substitution |
| Splicing.SameLengthInPlace | src/main/java/space/gbsdev/strings/Placeholders.java:153-168 | when every replacement is as long as its match and the matches are disjoint, the result keeps the input's length, every occurrence of every keyword lies in a match, each match is overwritten in place by its replacement and every other character is kept |
| Splicing.ApplyRightToLeft | src/main/java/space/gbsdev/strings/Placeholders.java:157-159 | splicing ascending edits from the rightmost one gives the clean substitution |
| Splicing.MatchEditsAscending | src/main/java/space/gbsdev/strings/Placeholders.java:156-159 | the edits of one keyword always satisfy what the right-to-left splice needs |
| Splicing.DriftWitness | src/main/java/space/gbsdev/strings/Placeholders.java:155-160 | "<a><a>" with "<a>" → "xx" gives "xx<xx" as written, where the clean result is "xxxx" |
| Splicing.OrderDependenceWitness | src/main/java/space/gbsdev/strings/Placeholders.java:155-160 | visiting two keys in the two possible orders gives "t <Lj" and "t j": the result depends on the HashMap order |
| Splicing.OutOfBoundsWitness | src/main/java/space/gbsdev/strings/Placeholders.java:158 | "<a><a><a>" with "<a>" → "" throws: the third match starts at 6 in a buffer of length 3 |
| Strings.Placeholders.Of | src/main/java/space/gbsdev/strings/Placeholders.java:73-75 | a new engine has the delimiters `{` and `}` and three empty registries |
| Strings.Placeholders.Add | src/main/java/space/gbsdev/strings/Placeholders.java:84-87 | writes only the fixed-value registry, overwriting an earlier value for the key, and returns the same engine |
| Strings.Placeholders.AddSupplier | src/main/java/space/gbsdev/strings/Placeholders.java:96-99 | writes only the supplier registry and returns the same engine |
| Strings.Placeholders.AddTransform | src/main/java/space/gbsdev/strings/Placeholders.java:108-111 | writes only the match-function registry and returns the same engine |
| Strings.Placeholders.DefinePrefix | src/main/java/space/gbsdev/strings/Placeholders.java:119-122 | changes the prefix only |
| Strings.Placeholders.DefineSuffix | src/main/java/space/gbsdev/strings/Placeholders.java:130-133 | changes the suffix only |
| Strings.Placeholders.WrapWithKeys | src/main/java/space/gbsdev/strings/Placeholders.java:186-188 | the wrapped key starts with the prefix, ends with the suffix, has their lengths added to the key's, and the key can be read back between them |
| Strings.Placeholders.WrapInjective | src/main/java/space/gbsdev/strings/Placeholders.java:186-188 | two keys wrap to the same pattern exactly when they are equal |
| Strings.Placeholders.Prefixed | src/main/java/space/gbsdev/strings/Placeholders.java:140-145 | the prefixed map has exactly the wrapped fixed and supplied keys; a key in both registries takes the supplier's value, which is put second |
| Strings.Placeholders.PlaceHoldersPrefixed | src/main/java/space/gbsdev/strings/Placeholders.java:140-145 | the two forEach loops build exactly that map |
| Strings.Placeholders.DefaultDelimitersNotLiteral | src/main/java/space/gbsdev/strings/Placeholders.java:21 | with the default `{` prefix no wrapped key is a literal pattern, so `Pattern.compile` does not read it as plain text |
| Strings.Placeholders.Rules | src/main/java/space/gbsdev/strings/Placeholders.java:155-166 | the visited rules are the prefixed patterns in map order, each with its value at the tick, followed by the unwrapped match-function keys in their map order, each with its function; every keyword can be searched |
| Strings.ReplaceMatches | src/main/java/space/gbsdev/strings/Placeholders.java:156-159 | the `while (matches.find())` loop splices exactly the matches of the keyword in the original input, in order, into the buffer |
| Strings.Placeholders.Apply | src/main/java/space/gbsdev/strings/Placeholders.java:153-168 | returns the fold of all those splices over the input, or the exception of the first splice that falls outside the buffer |
| Strings.Placeholders.Get | src/main/java/space/gbsdev/strings/Placeholders.java:176-178 | gives a value exactly for a key with a supplier, and that value is the one `Apply` substitutes for its wrapped pattern at the same moment; the fixed and match-function registries play no part |
| Strings.Placeholders.NothingRegistered | src/main/java/space/gbsdev/strings/Placeholders.java:153-168 | with all three registries empty, `Apply` returns its input unchanged |
| Strings.Placeholders.GroupedAfterPrefixed | src/main/java/space/gbsdev/strings/Placeholders.java:155-166 | the match-function keys are spliced only after all fixed and supplied keys, into the buffer those left |
| Core.Bracketed | src/main/java/space/gbsdev/core/FailMessage.java:35-37 | the message layout "<first>middle<second>" has each part readable back from its place |
| Core.FailMessage.ConstructContains | src/main/java/space/gbsdev/core/FailMessage.java:35-37 | the actual text and the expected text stand in angle brackets at the two ends, with " should[ not] contain the text " between them; the message contains both texts |
| Core.FailMessage.ConstructTemplated | src/main/java/space/gbsdev/core/FailMessage.java:45-47 | the same layout with " should[ not] follow the template of " |
| Core.Of | src/main/java/space/gbsdev/core/FailMessage.java:23-27 | the builder carries the given goal |
| Core.Should | src/main/java/space/gbsdev/core/FailMessage.java:49-51 | "should" exactly for a positive goal, "should not" otherwise |
| Core.MessagesDifferByGoal | src/main/java/space/gbsdev/core/FailMessage.java:35-51 | the messages for goal true and goal false differ |
| Core.Decide | src/main/java/space/gbsdev/core/Validator.java:45-46 | as written, the check fails exactly when the comparison's outcome EQUALS the goal, with the message for the goal |
| Core.IntendedDecide | src/main/java/space/gbsdev/core/Validator.java:45-46 | the intended check passes exactly when the outcome equals the goal |
| Core.DecideIsInverted | src/main/java/space/gbsdev/core/Validator.java:45-46 | the written decision fails exactly where the intended one passes, and the other way round |
| Core.GoalFlipDecides | src/main/java/space/gbsdev/Validation.java:19-46 | for one comparison outcome exactly one of the two goals fails, so exactly one of assertContains and assertNotContains fails on the same arguments |
| Core.InvertedContainsWitness | src/main/java/space/gbsdev/Validation.java:19-21 | "hello" contains "lo", yet the decision `Validation.AssertContains` promises for ("lo", "hello") is a failure with "<hello> should contain the text <lo>", where the intended decision passes |
| Core.Validator.Of | src/main/java/space/gbsdev/core/Validator.java:11-23 | a new validator has goal true, no comparison, no expected value and the default message for both goals |
| Core.Validator.CompareAgainst | src/main/java/space/gbsdev/core/Validator.java:25-28 | sets only the expected value and returns the same validator |
| Core.Validator.WithMessage | src/main/java/space/gbsdev/core/Validator.java:29-32 | sets only the message generator and returns the same validator |
| Core.Validator.WithAction | src/main/java/space/gbsdev/core/Validator.java:33-36 | sets only the comparison and returns the same validator |
| Core.Validator.Not | src/main/java/space/gbsdev/core/Validator.java:37-40 | flips only the goal, so two calls restore it |
| Core.Validator.Check | src/main/java/space/gbsdev/core/Validator.java:41-47 | without a comparison the outcome is Unconfigured; otherwise it is the written decision on the comparison called as (expected, actual); nothing changes |
| Core.GetContainsValidatorWithMessage | src/main/java/space/gbsdev/core/Validators.java:13-18 | a new validator with actual `a`, expected `e`, the given generator, goal true, and a comparison that ignores its arguments and asks whether `a` contains `e` |
| Core.GetContainsValidator | src/main/java/space/gbsdev/core/Validators.java:10-12 | the same validator with the "should contain" message for each goal |
| Core.GetRegexValidatorWithMessage | src/main/java/space/gbsdev/core/Validators.java:23-28 | the pattern is stored as the actual value and the text as the expected one, so the comparison searches the pattern in the text; goal true |
| Core.GetRegexValidator | src/main/java/space/gbsdev/core/Validators.java:20-22 | the same validator with the "should follow the template" message for each goal |
| Validation.AssertContains | src/main/java/space/gbsdev/Validation.java:19-21 | fails exactly when `actual` contains `expected`, with the goal-true containment message; it is never Unconfigured |
| Validation.AssertContainsWithMessage | src/main/java/space/gbsdev/Validation.java:30-36 | the same decision, failing with the given message verbatim |
| Validation.AssertNotContains | src/main/java/space/gbsdev/Validation.java:44-46 | fails exactly when `actual` does not contain the text, with the goal-false message |
| Validation.AssertNotContainsWithMessage | src/main/java/space/gbsdev/Validation.java:55-62 | the same decision, failing with the given message verbatim |
| Validation.AssertRegexMatching | src/main/java/space/gbsdev/Validation.java:70-72 | fails exactly when the pattern is found in the value, with the goal-true template message |
| Validation.AssertRegexMatchingWithMessage | src/main/java/space/gbsdev/Validation.java:79-81 | the same decision, failing with the given message verbatim |
| Validation.AssertRegexNotMatching | src/main/java/space/gbsdev/Validation.java:88-90 | fails exactly when the pattern is not found, with the goal-false template message |
| Validation.AssertRegexNotMatchingWithMessage | src/main/java/space/gbsdev/Validation.java:97-99 | the same decision, failing with the given message verbatim |
| Verification.NotFoundMessage | src/main/java/space/gbsdev/verification/Verification.java:95-96 | the exception message starts "Rule not found: " followed by the key |
| Verification.Verification.Of | src/main/java/space/gbsdev/verification/Verification.java:46-48 | the rule set as loaded and a supplier that always yields null |
| Verification.Verification.OfSupplier | src/main/java/space/gbsdev/verification/Verification.java:57-59 | the rule set and the given supplier |
| Verification.Verification.OfHolder | src/main/java/space/gbsdev/verification/Verification.java:69-71 | a fixed Placeholders wrapped as a constant supplier |
| Verification.Verification.ExtractRule | src/main/java/space/gbsdev/verification/Verification.java:93-99 | the stored rule exactly when the key is defined, otherwise the not-found error naming the key |
| Verification.Verification.ApplyPlaceholder | src/main/java/space/gbsdev/verification/Verification.java:107-112 | the text unchanged when the supplier yields null, otherwise what the supplied Placeholders' `Apply` gives |
| Verification.Verification.Check | src/main/java/space/gbsdev/verification/Verification.java:81-84 | an undefined key is an error, raised before the supplier is asked; otherwise the answer is exact equality of the (substituted) rule with the value, and a mismatch is an answer, not an error |
| Locators.LocatorFinder.ReturnWithType | src/main/java/space/gbsdev/locators/LocatorFinder.java:28-32 | XPath exactly when the text starts with "//" or "body", CSS otherwise; the text is kept |
| Locators.LocatorFinder.Locate | src/main/java/space/gbsdev/locators/LocatorFinder.java:34-37 | the classification of the text stored under the key; a missing key fails |
| Locators.PrefixDecides | src/main/java/space/gbsdev/locators/LocatorFinder.java:13 | whatever follows "//" or "body", the locator is XPath |
| Locators.OtherStartIsCss | src/main/java/space/gbsdev/locators/LocatorFinder.java:28-32 | a text opening with neither '/' nor 'b' is a CSS selector |
| Locators.SlashesStartIsXPath | src/main/java/space/gbsdev/locators/LocatorFinder.java:28-32 | a text opening with "//" is XPath |
| Locators.TestCssLocator | src/test/java/LocatorFinderTests.java:16-25 | "div form button[type='submit']" is located as a CSS selector |
| Locators.TestXPathLocator | src/test/java/LocatorFinderTests.java:30-33 | "//div//form//button[@type='submit']" is located as XPath |
| Chain.Joined | src/main/java/space/gbsdev/locators/chain/Locator.java:42-46 | the varargs texts joined in order: empty for none, starting with the first |
| Chain.JoinedSnoc | src/main/java/space/gbsdev/locators/chain/Locator.java:42-46 | one more text is appended at the end |
| Chain.Stringify | src/main/java/space/gbsdev/locators/chain/Locator.java:33-35 | a String value is quoted, its text readable between the quotes; an Integer is in decimal; any other value is its own rendering |
| Chain.GetSignOf | src/main/java/space/gbsdev/locators/chain/Css.java:163-170 | every operator ends in '=' and is bare exactly for IS |
| Chain.SignsDiffer | src/main/java/space/gbsdev/locators/chain/Css.java:163-170 | distinct match types get distinct operators |
| Chain.Css.constructor | src/main/java/space/gbsdev/locators/chain/Css.java:34-36 | the buffer holds the initial text |
| Chain.Css.FromSelector | src/main/java/space/gbsdev/locators/chain/Css.java:45-47 | a new builder whose text is the selector |
| Chain.Css.Of | src/main/java/space/gbsdev/locators/chain/Css.java:54-56 | a new builder with the empty text |
| Chain.Css.FromTagName | src/main/java/space/gbsdev/locators/chain/Css.java:76-78 | a new builder whose text is the tag name |
| Chain.Css.Add | src/main/java/space/gbsdev/locators/chain/Locator.java:42-46 | appends the texts in order; the old text stays a prefix |
| Chain.Css.CreateFallback | src/main/java/space/gbsdev/locators/chain/Css.java:13-16 | the fallback is the builder itself, not a new instance |
| Chain.Css.AddThenFallback | src/main/java/space/gbsdev/locators/chain/Locator.java:54-57 | appends, then returns the same builder |
| Chain.Css.ToString | src/main/java/space/gbsdev/locators/chain/Locator.java:63-66 | the text accumulated so far |
| Chain.Css.ToBy | src/main/java/space/gbsdev/locators/chain/Css.java:23-26 | a CSS-selector locator for the accumulated text |
| Chain.Css.Index | src/main/java/space/gbsdev/locators/chain/Css.java:65-67 | appends ":nth-child(n)" with n in decimal |
| Chain.Css.Descendant | src/main/java/space/gbsdev/locators/chain/Css.java:80-82 | appends a space |
| Chain.Css.Child | src/main/java/space/gbsdev/locators/chain/Css.java:89-91 | appends ">" |
| Chain.Css.Attr | src/main/java/space/gbsdev/locators/chain/Css.java:115-125 | appends "[" + name + operator + rendered value + "]" |
| Chain.Css.AttrIs | src/main/java/space/gbsdev/locators/chain/Css.java:102-104 | the same with the IS operator "=" |
| Chain.Css.WClass | src/main/java/space/gbsdev/locators/chain/Css.java:133-135 | appends "." + class name |
| Chain.Css.Tag | src/main/java/space/gbsdev/locators/chain/Css.java:143-145 | appends the tag name |
| Chain.Css.Id | src/main/java/space/gbsdev/locators/chain/Css.java:153-155 | appends "#" + id |
| Chain.CreateCssLocators | src/test/java/CssLocatorTests.java:8-16 | the chain of the builder's test spells `main#site-main div.inner section>figure>img:nth-child(1)[height='825']` |
| Data.Saved | src/main/java/com/gbursali/data/DataManager.java:69-77 | the list is unchanged when the identifier is already present (exact comparison); otherwise the data goes in front of the old list, which follows in order |
| Data.SavePreservesUnique | src/main/java/com/gbursali/data/DataManager.java:69-77 | saving never creates a second element with the same identifier |
| Data.OfType | src/main/java/com/gbursali/data/DataManager.java:31-36 | exactly the elements that are instances of the type |
| Data.OfTypeAppend | src/main/java/com/gbursali/data/DataManager.java:31-36 | the filter distributes over concatenation, so it keeps list order |
| Data.NotOfType | src/main/java/com/gbursali/data/DataManager.java:93-95 | exactly the elements that are not instances of the type |
| Data.NotOfTypeSnoc | src/main/java/com/gbursali/data/DataManager.java:93-95 | one more element is kept at the end exactly when it is not an instance |
| Data.ClearedHasNoInstances | src/main/java/com/gbursali/data/DataManager.java:93-95 | after clearing a type no instance of it remains |
| Data.FirstWithId | src/main/java/com/gbursali/data/DataManager.java:44-49 | the first element whose identifier equals the id ignoring case, with no earlier one matching; None when none matches |
| Data.FirstWithIdIgnoresCase | src/main/java/com/gbursali/data/DataManager.java:44-49 | two ids that are equal ignoring case find the same element |
| Data.CaseVariantsCoexist | src/main/java/com/gbursali/data/DataManager.java:69-77 | "A" and then "a" are both kept, and a lookup of "A" finds the newer "a" |
| Data.DataManager.constructor | src/main/java/com/gbursali/data/DataManager.java:11 | the registry starts empty |
| Data.DataManager.Save | src/main/java/com/gbursali/data/DataManager.java:69-77 | the list becomes the saved list |
| Data.DataManager.Clear | src/main/java/com/gbursali/data/DataManager.java:84-86 | the list becomes empty |
| Data.DataManager.ClearType | src/main/java/com/gbursali/data/DataManager.java:93-95 | removeIf keeps exactly the non-instances, in order |
| Data.DataManager.GetWithType | src/main/java/com/gbursali/data/DataManager.java:31-36 | the instances of the type, newest first |
| Data.DataManager.GetFirst | src/main/java/com/gbursali/data/DataManager.java:19-22 | the newest instance of the type; None exactly when there is none |
| Data.DataManager.GetWithId | src/main/java/com/gbursali/data/DataManager.java:44-49 | the newest element matching the id ignoring case |
| Data.DataManager.GetWithIdOfType | src/main/java/com/gbursali/data/DataManager.java:58-62 | the newest instance of the type matching the id ignoring case |

## Left out

- Regular expressions: the regex validator's search is the parameter `finds`. Placeholder keys are modelled only as literal patterns: non-empty and free of metacharacters (`Strings.Placeholders.LiteralKeys`). Capture groups are not modelled; a match function sees the span and the matched text.
- Strings.Placeholders.Apply: requires literal keys, so the `PatternSyntaxException` that `Pattern.compile` raises for the default `{key}` pattern is not modelled. `DefaultDelimitersNotLiteral` only shows that such keys are outside the model.
- Strings.Placeholders.Apply: HashMap iteration order is not modelled; both orders are parameters that must list each key exactly once.
- Suppliers are functions of a `tick`, and one `Apply` asks every supplier at the same tick. Side effects of a supplier, and different answers within one call, are not modelled.
- Strings.Placeholders.Get: the `NullPointerException` for a key without a supplier is `None`. Java returns `Object`; here it is the supplied string.
- `Placeholders.ofConfiguration`, `LocatorFinder.ofFile`, the `Verification` constructor and `Utilities`: file reading, Properties and JSON parsing are not modelled. The loaded data is given as a `map<string, string>`.
- Verification.Verification.Check: the supplier is asked once per check (at `tick`), where the code calls it twice. A supplier that yields an object for the null test and null for the second call (a `NullPointerException`) is not modelled.
- Locators.LocatorFinder.Locate: a missing key is `MissingKey(key)`. The code throws `NullPointerException` there, while the finder's test (written for a sibling class) expects an `IllegalArgumentException` naming the key. JSON values that are not strings are not modelled.
- Chain: Selenium's `By` is the datatype `Locators.By`. The abstract `Locator<T>` base class is folded into `Css`, its only subclass here.
- Chain.Stringify: only String, Integer and "any other object, given by its toString" are modelled.
- Data: `Class.isInstance` is membership of a type name in the element's set of types. Identifiers are never null; Java's `equals` on a null identifier is not modelled. The registry is one object rather than a static list.
- Text.EqualsIgnoreCase: ASCII case folding only, not Unicode.
- Strings.Placeholders.Apply: positions and lengths count Unicode characters, whereas `Matcher.start`/`end` and `StringBuilder.replace` count UTF-16 code units. On text outside the Basic Multilingual Plane, drifted splices therefore land at other positions than in Java. The same holds for `Splicing.Replace` and the witnesses, which use only ASCII text.
- Chain.Css.Index: `%d` is rendered with ASCII digits, as in a locale whose zero digit is '0'. A default locale with other digits (Arabic-Indic, for instance) is not modelled.
- JUnit's `Assert.fail` and `NotImplementedException` are the outcomes `Failed(message)` and `Unconfigured`. The regex comparison on a null text, a `NullPointerException` in the code, gives false; the factories never pass a null text.
- The Selenium element wrappers and the Excel layer are not part of this model.

## Findings

| source | as written | input that shows it | evidently intended | confidence | as-written member | corrected member |
|---|---|---|---|---|---|---|
| src/main/java/space/gbsdev/core/Validator.java:45-46 | `check` fails when `!action(expected, actual) != goal`, i.e. when the comparison AGREES with the goal | `assertContains("lo", "hello")`: "hello" contains "lo", yet the check fails with "<hello> should contain the text <lo>" | fail only when the comparison's outcome differs from the goal, as the assertions' documentation says | high; not executed | Core.InvertedContainsWitness | Core.IntendedDecide |
| src/main/java/space/gbsdev/strings/Placeholders.java:155-166 | matches are found in the original input but spliced into the edited buffer, so once a replacement changes length later splices land at shifted positions or outside the buffer | `Placeholders.of().definePrefix("<").defineSuffix(">").add("a", "xx").apply("<a><a>")` gives "xx<xx" | every occurrence replaced: "xxxx" | high; not executed | Splicing.DriftWitness | Splicing.ApplyRightToLeft |
