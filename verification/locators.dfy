/**
 * Selenium's By, reduced to the two kinds of locator this library builds,
 * and the LocatorFinder that picks the kind from the locator text.
 */
module Locators {
  import opened Wrappers
  import opened Text

  /** By.xpath(locator) or By.cssSelector(locator); both keep the text they were given. */
  datatype By = XPath(xpath: string) | CssSelector(selector: string)

  /**
   * The one way `locate` fails here: `baseJson.get(key)` is null for a
   * missing key, and reading it as a string throws NullPointerException.
   */
  datatype LocateError = MissingKey(key: string)

  /**
   * The pattern ^((body)|(//)).* searched with Matcher.find: the anchor
   * only matches at the start of the input and `.*` may match nothing, so
   * the search succeeds exactly for the two case-sensitive prefixes.
   */
  predicate IsXPath(locator: string) {
    StartsWith(locator, "//") || StartsWith(locator, "body")
  }

  /** A locator list loaded from a JSON object, its values read as strings. */
  datatype LocatorFinder = LocatorFinder(baseJson: map<string, string>)
  {
    /** Classifies a locator text; the text itself is carried over unchanged. */
    static function ReturnWithType(locator: string): (r: By)
      ensures r.XPath? <==> IsXPath(locator)
      ensures r.CssSelector? <==> !IsXPath(locator)
      ensures r == XPath(locator) || r == CssSelector(locator)
    {
      if IsXPath(locator) then XPath(locator) else CssSelector(locator)
    }

    /** The classified locator stored under `key`, or the failure for a key the list lacks. */
    function Locate(key: string): (r: Result<By, LocateError>)
      ensures r.Failure? <==> key !in baseJson
      ensures r.Failure? ==> r.error == MissingKey(key)
      ensures r.Success? ==> r.value == ReturnWithType(baseJson[key])
    {
      if key in baseJson then Success(ReturnWithType(baseJson[key])) else Failure(MissingKey(key))
    }
  }

  /** Only the prefix decides: whatever follows "//" or "body" cannot turn a locator into CSS. */
  lemma PrefixDecides(head: string, rest: string)
    requires head == "//" || head == "body"
    ensures LocatorFinder.ReturnWithType(head + rest) == XPath(head + rest)
  {
    assert (head + rest)[..|head|] == head;
  }

  /** A locator that opens with neither "/" nor "b" is a CSS selector. */
  lemma OtherStartIsCss(locator: string)
    requires |locator| > 0 && locator[0] != '/' && locator[0] != 'b'
    ensures LocatorFinder.ReturnWithType(locator) == CssSelector(locator)
  {
    assert !StartsWith(locator, "//") by { assert "//"[0] == '/'; }
    assert !StartsWith(locator, "body") by { assert "body"[0] == 'b'; }
  }

  /** A locator that opens with "//" is an XPath expression. */
  lemma SlashesStartIsXPath(locator: string)
    requires |locator| >= 2 && locator[0] == '/' && locator[1] == '/'
    ensures LocatorFinder.ReturnWithType(locator) == XPath(locator)
  {
    assert locator[..2] == "//";
  }

  /** The CSS locator of the finder's test resources. */
  lemma TestCssLocator()
    ensures LocatorFinder(map["LoginButton" := "div form button[type='submit']"]).Locate("LoginButton")
      == Success(CssSelector("div form button[type='submit']"))
  {
    OtherStartIsCss("div form button[type='submit']");
  }

  /** The XPath locator of the finder's test resources. */
  lemma TestXPathLocator()
    ensures LocatorFinder(map["LoginXp" := "//div//form//button[@type='submit']"]).Locate("LoginXp")
      == Success(XPath("//div//form//button[@type='submit']"))
  {
    SlashesStartIsXPath("//div//form//button[@type='submit']");
  }
}
