/**
 * The search redirector: a fixed table from engine key to query prefix, and
 * the rule that turns the search box's text into a navigation target.
 */
module Search {
  import opened Wrappers
  import opened Text
  import opened UriEncoding

  const Google := "https://www.google.com/search?q="
  const Baidu := "https://www.baidu.com/s?wd="
  const Bing := "https://www.bing.com/search?q="
  const DuckDuckGo := "https://duckduckgo.com/?q="

  /** The `searchEngines` table: a prefix for each of the four known keys. */
  function EnginePrefix(engine: string): (r: Option<string>)
    ensures r.Some? ==> |r.value| > 8 && r.value[..8] == "https://" && r.value[|r.value| - 1] == '='
  {
    if engine == "google" then Some(Google)
    else if engine == "baidu" then Some(Baidu)
    else if engine == "bing" then Some(Bing)
    else if engine == "duckduckgo" then Some(DuckDuckGo)
    else None
  }

  /**
   * `searchEngines[engine]` used as the left operand of `+` on a string: a
   * key the table lacks reads as `undefined`, which concatenation writes as
   * the text "undefined". Keys the object inherits from `Object.prototype`
   * are treated as lacking too.
   */
  function PrefixText(engine: string): (r: string)
    ensures EnginePrefix(engine).Some? ==> r == EnginePrefix(engine).value
    ensures EnginePrefix(engine).None? ==> r == "undefined"
  {
    EnginePrefix(engine).GetOr("undefined")
  }

  /**
   * Where `performSearch` sends the browser, or None when it does nothing:
   * it does nothing exactly when the query is blank.
   */
  function SearchTarget(query: string, engine: string): (r: Option<string>)
    ensures r.None? <==> AllWhitespace(query)
    ensures r.Some? ==> |r.value| > |PrefixText(engine)|
  {
    var q := Trim(query);
    if q == [] then None else Some(PrefixText(engine) + Encode(q))
  }

  /**
   * A search target is the engine's prefix followed by text that decodes to
   * exactly the trimmed query and is made only of unreserved characters and
   * percent escapes.
   */
  lemma SearchTargetCarriesQuery(query: string, engine: string)
    requires SearchTarget(query, engine).Some?
    ensures SearchTarget(query, engine).value[..|PrefixText(engine)|] == PrefixText(engine)
    ensures Decode(SearchTarget(query, engine).value[|PrefixText(engine)|..]) == Some(Trim(query))
    ensures forall i :: |PrefixText(engine)| <= i < |SearchTarget(query, engine).value| ==>
              IsUnreserved(SearchTarget(query, engine).value[i]) || SearchTarget(query, engine).value[i] == '%'
  {
    var t, p, q := SearchTarget(query, engine).value, PrefixText(engine), Trim(query);
    assert t == p + Encode(q);
    assert t[|p|..] == Encode(q);
    DecodeEncode(q);
    EncodeAlphabet(q);
    forall i | |p| <= i < |t| ensures IsUnreserved(t[i]) || t[i] == '%' {
      assert t[i] == Encode(q)[i - |p|];
    }
  }

  /** Two searches on one engine go to the same place exactly when their trimmed queries agree. */
  lemma SearchTargetInjective(a: string, b: string, engine: string)
    ensures SearchTarget(a, engine) == SearchTarget(b, engine) <==> Trim(a) == Trim(b)
  {
    if SearchTarget(a, engine) == SearchTarget(b, engine) && SearchTarget(a, engine).Some? {
      SearchTargetCarriesQuery(a, engine);
      SearchTargetCarriesQuery(b, engine);
    }
  }

  /** The encoded query holds none of `&`, `#`, `=`, `?` or a space. */
  lemma QueryCannotAddParameters(query: string, engine: string)
    requires SearchTarget(query, engine).Some?
    ensures forall i :: |PrefixText(engine)| <= i < |SearchTarget(query, engine).value| ==>
              !EndsParameter(SearchTarget(query, engine).value[i])
  {
    SearchTargetCarriesQuery(query, engine);
    var t := SearchTarget(query, engine).value;
    forall i | |PrefixText(engine)| <= i < |t| ensures !EndsParameter(t[i]) {
      assert IsUnreserved(t[i]) || t[i] == '%';
    }
  }

  /** The characters that would end or extend a query parameter. */
  predicate EndsParameter(c: char)
  {
    c == '&' || c == '#' || c == '=' || c == '?' || c == ' '
  }

  /** Searching the same query again gives the same target however often it was trimmed. */
  lemma SearchTargetTrimInvariant(query: string, engine: string)
    ensures SearchTarget(Trim(query), engine) == SearchTarget(query, engine)
  {
    TrimIdempotent(query);
  }

  lemma CatsIsPlain()
    ensures Encode("cats") == "cats"
    ensures !IsWhitespace("cats"[0]) && !IsWhitespace("cats"[3])
    ensures Trim("cats") == "cats"
  {
    EncodeIdentity("cats");
    assert AllUnreserved("cats");
    TrimSurrounded([], "cats", []);
    assert [] + "cats" + [] == "cats";
  }

  lemma YahooIsUnknown()
    ensures EnginePrefix("yahoo") == None
  {
  }

  /** A padded word is searched for without its padding. */
  lemma SearchPaddedWord()
    ensures SearchTarget(" cats ", "google") == Some("https://www.google.com/search?q=cats")
  {
    CatsIsPlain();
    assert AllWhitespace(" ");
    TrimSurrounded(" ", "cats", " ");
    assert " " + "cats" + " " == " cats ";
    assert PrefixText("google") == Google;
    assert Google + "cats" == "https://www.google.com/search?q=cats";
  }

  /** A blank query navigates nowhere. */
  lemma SearchBlankQuery()
    ensures SearchTarget("   ", "google") == None
  {
    assert AllWhitespace("   ");
  }

  /** A key missing from the table gives a target starting with the text "undefined". */
  lemma SearchUnknownEngine()
    ensures SearchTarget("cats", "yahoo") == Some("undefinedcats")
  {
    CatsIsPlain();
    YahooIsUnknown();
    assert "undefined" + "cats" == "undefinedcats";
  }
}
