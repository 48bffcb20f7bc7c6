/**
 * The chained CSS selector builder: a text buffer that each builder call
 * extends by one fragment. Every call returns the very object it was
 * called on (`CreateFallback` is `this`), so a chain edits one buffer.
 * The abstract Locator base class is folded into Css, its only subclass
 * in this model.
 */
module Chain {
  import Text
  import opened Locators

  /** The kinds of attribute comparison: equal to, containing, starting with, ending with. */
  datatype MatchType = Is | Has | StartsWith | EndsWith

  /** The value of an attribute selector: a String, an Integer, or any other object with its toString. */
  datatype AttrValue = StringValue(text: string) | IntValue(n: int) | OtherValue(rendered: string)

  /** The texts of a varargs call, one after the other. */
  function Joined(texts: seq<string>): (r: string)
    ensures texts == [] ==> r == ""
    ensures texts != [] ==> Text.StartsWith(r, texts[0])
  {
    if texts == [] then "" else texts[0] + Joined(texts[1..])
  }

  /** Joining one more text appends it at the end. */
  lemma {:induction false} JoinedSnoc(texts: seq<string>, t: string)
    ensures Joined(texts + [t]) == Joined(texts) + t
  {
    if texts != [] {
      assert (texts + [t])[1..] == texts[1..] + [t];
      JoinedSnoc(texts[1..], t);
    }
  }

  lemma JoinedFive(a: string, b: string, c: string, d: string, e: string)
    ensures Joined([a, b, c, d, e]) == a + b + c + d + e
  {
    assert [e][1..] == [];
    assert Joined([e]) == e;
    assert [d, e][1..] == [e];
    assert Joined([d, e]) == d + e;
    assert [c, d, e][1..] == [d, e];
    assert Joined([c, d, e]) == c + (d + e);
    assert [b, c, d, e][1..] == [c, d, e];
    assert Joined([b, c, d, e]) == b + (c + (d + e));
    assert [a, b, c, d, e][1..] == [b, c, d, e];
  }

  /** Locator.stringify: a String in single quotes, any other value as its own rendering. */
  function Stringify(value: AttrValue): (r: string)
    ensures value.StringValue? ==> |r| == |value.text| + 2 && r[0] == '\'' && r[|r| - 1] == '\''
    ensures value.StringValue? ==> r[1..|r| - 1] == value.text
    ensures value.IntValue? ==> r == Text.IntDecimal(value.n)
    ensures value.OtherValue? ==> r == value.rendered
  {
    match value
    case StringValue(text) => "'" + text + "'"
    case IntValue(n) => Text.IntDecimal(n)
    case OtherValue(rendered) => rendered
  }

  /** The comparison operator of an attribute selector: always ending in '=', bare only for Is. */
  function GetSignOf(matchType: MatchType): (r: string)
    ensures 1 <= |r| <= 2 && r[|r| - 1] == '='
    ensures |r| == 1 <==> matchType == Is
  {
    match matchType
    case Is => "="
    case Has => "*="
    case StartsWith => "^="
    case EndsWith => "$="
  }

  /** Different comparisons get different operators. */
  lemma SignsDiffer(a: MatchType, b: MatchType)
    ensures GetSignOf(a) == GetSignOf(b) <==> a == b
  {
  }

  class Css {
    var innerLocator: string

    /** The protected constructor: a buffer holding `initialText`. */
    constructor (initialText: string)
      ensures innerLocator == initialText
    {
      innerLocator := initialText;
    }

    static method FromSelector(selector: string) returns (c: Css)
      ensures fresh(c) && c.innerLocator == selector
    {
      c := new Css(selector);
    }

    static method Of() returns (c: Css)
      ensures fresh(c) && c.innerLocator == ""
    {
      c := new Css("");
    }

    /** Css.of().tag(tagName). */
    static method FromTagName(tagName: string) returns (c: Css)
      ensures fresh(c) && c.innerLocator == tagName
    {
      c := Of();
      c := c.Tag(tagName);
    }

    /** Locator.add: appends each text in order; what was there stays a prefix. */
    method Add(texts: seq<string>)
      modifies this
      ensures innerLocator == old(innerLocator) + Joined(texts)
    {
      for i := 0 to |texts|
        invariant innerLocator == old(innerLocator) + Joined(texts[..i])
      {
        JoinedSnoc(texts[..i], texts[i]);
        assert texts[..i + 1] == texts[..i] + [texts[i]];
        innerLocator := innerLocator + texts[i];
      }
      assert texts[..|texts|] == texts;
    }

    /** The fallback of a Css is the object itself, not a copy. */
    method CreateFallback() returns (self: Css)
      ensures self == this
    {
      self := this;
    }

    /** Locator.addThenFallback: appends, then returns the fallback, which is this object. */
    method AddThenFallback(texts: seq<string>) returns (self: Css)
      modifies this
      ensures self == this
      ensures innerLocator == old(innerLocator) + Joined(texts)
    {
      Add(texts);
      self := CreateFallback();
    }

    /** Locator.toString: the text accumulated so far. */
    function ToString(): (r: string)
      reads this
      ensures r == innerLocator
    {
      innerLocator
    }

    /** toBy: a CSS-selector locator for the accumulated text. */
    function ToBy(): (r: By)
      reads this
      ensures r.CssSelector? && r.selector == innerLocator
    {
      CssSelector(innerLocator)
    }

    /** Appends ":nth-child(n)", n in decimal with a sign when negative. */
    method Index(index: int) returns (self: Css)
      modifies this
      ensures self == this
      ensures innerLocator == old(innerLocator) + ":nth-child(" + Text.IntDecimal(index) + ")"
    {
      self := AddThenFallback([":nth-child(" + Text.IntDecimal(index) + ")"]);
    }

    /** Appends the descendant combinator, a space. */
    method Descendant() returns (self: Css)
      modifies this
      ensures self == this && innerLocator == old(innerLocator) + " "
    {
      self := AddThenFallback([" "]);
    }

    /** Appends the child combinator ">". */
    method Child() returns (self: Css)
      modifies this
      ensures self == this && innerLocator == old(innerLocator) + ">"
    {
      self := AddThenFallback([">"]);
    }

    /** Appends "[name" + operator + value + "]"; a String value is quoted. */
    method Attr(attributeName: string, value: AttrValue, matchType: MatchType) returns (self: Css)
      modifies this
      ensures self == this
      ensures innerLocator == old(innerLocator) + "[" + attributeName + GetSignOf(matchType) + Stringify(value) + "]"
    {
      var attrValue := Stringify(value);
      var typeSign := GetSignOf(matchType);
      self := AddThenFallback(["[", attributeName, typeSign, attrValue, "]"]);
      JoinedFive("[", attributeName, typeSign, attrValue, "]");
    }

    /** The two-argument attr: an equality selector. */
    method AttrIs(attributeName: string, value: AttrValue) returns (self: Css)
      modifies this
      ensures self == this
      ensures innerLocator == old(innerLocator) + "[" + attributeName + "=" + Stringify(value) + "]"
    {
      self := Attr(attributeName, value, Is);
    }

    /** Appends a class selector "." + classname. */
    method WClass(classname: string) returns (self: Css)
      modifies this
      ensures self == this && innerLocator == old(innerLocator) + "." + classname
    {
      self := AddThenFallback([".", classname]);
      assert Joined([".", classname]) == "." + classname;
    }

    /** Appends a tag name. */
    method Tag(tagName: string) returns (self: Css)
      modifies this
      ensures self == this && innerLocator == old(innerLocator) + tagName
    {
      self := AddThenFallback([tagName]);
    }

    /** Appends an id selector "#" + id. */
    method Id(id: string) returns (self: Css)
      modifies this
      ensures self == this && innerLocator == old(innerLocator) + "#" + id
    {
      self := AddThenFallback(["#", id]);
      assert Joined(["#", id]) == "#" + id;
    }
  }

  /** The index and the quoted attribute value of the builder's test, rendered. */
  lemma TestValuesRendered()
    ensures Text.IntDecimal(1) == "1"
    ensures Stringify(StringValue("825")) == "'825'"
  {
  }

  /** The fragments of the builder's test up to the image tag, joined. */
  lemma TestPathSpelled()
    ensures "" + "main" + "#" + "site-main" + " " + "div" + "." + "inner" + " " + "section" + ">" + "figure"
      + ">" + "img" == "main#site-main div.inner section>figure>img"
  {
    assert "" + "main" + "#" + "site-main" == "main#site-main";
    assert "main#site-main" + " " + "div" == "main#site-main div";
    assert "main#site-main div" + "." + "inner" == "main#site-main div.inner";
    assert "main#site-main div.inner" + " " + "section" == "main#site-main div.inner section";
    assert "main#site-main div.inner section" + ">" + "figure" == "main#site-main div.inner section>figure";
  }

  /** The index and attribute fragments of the builder's test, appended to the path. */
  lemma TestSelectorSpelled()
    ensures "main#site-main div.inner section>figure>img" + ":nth-child(" + "1" + ")" + "[" + "height" + "=" + "'825'" + "]"
      == "main#site-main div.inner section>figure>img:nth-child(1)[height='825']"
  {
    assert "main#site-main div.inner section>figure>img" + ":nth-child(" + "1" + ")"
      == "main#site-main div.inner section>figure>img:nth-child(1)";
  }

  /** The chain of the builder's test, and the selector it spells. */
  method CreateCssLocators() returns (actual: string)
    ensures actual == "main#site-main div.inner section>figure>img:nth-child(1)[height='825']"
  {
    var c := Css.Of();
    c := c.Tag("main");
    c := c.Id("site-main");
    c := c.Descendant();
    c := c.Tag("div");
    c := c.WClass("inner");
    c := c.Descendant();
    c := c.Tag("section");
    c := c.Child();
    c := c.Tag("figure");
    c := c.Child();
    c := c.Tag("img");
    c := c.Index(1);
    c := c.AttrIs("height", StringValue("825"));
    TestValuesRendered();
    TestPathSpelled();
    TestSelectorSpelled();
    actual := c.ToString();
  }
}
