/**
  The financial data extractor: metrics of one filing, taken from a response
  cache when there is one, otherwise from a language-model reply (the JSON
  object in it) or from the XBRL facts of the filing, and the two sources
  combined with XBRL first. The model call, the JSON decoder, the HTML/XBRL
  parser and float() are parameters.
*/
module Financial {
  import opened Base
  import opened Text

  /** Metric name to value. */
  type Metrics = map<string, real>

  /** The extractor's settings, fixed at construction. */
  datatype Extractor = Extractor(apiKey: Option<string>, cacheResponses: bool, cacheDir: string)

  /** An API key counts only when it is there and not empty. */
  predicate HasKey(e: Extractor) {
    e.apiKey.Some? && e.apiKey.value != ""
  }

  // ---------------------------------------------------------------------------
  // The response cache

  /** A cache file: one the JSON decoder reads as metrics, or one it cannot read. */
  datatype CacheFile = Readable(metrics: Metrics) | Unreadable

  type Cache = map<string, CacheFile>

  /** The cache file of a company and year: "{cik}_{year}.json" under the cache directory. */
  function CachePath(e: Extractor, cik: string, year: string): string {
    PathJoin(e.cacheDir, cik + "_" + year + ".json")
  }

  /** The cached metrics, if caching is on and a readable cache file is there. */
  function LoadFromCache(e: Extractor, cache: Cache, cik: string, year: string): Option<Metrics> {
    if !e.cacheResponses then None
    else
      var p := CachePath(e, cik, year);
      if p in cache && cache[p].Readable? then Some(cache[p].metrics) else None
  }

  /** The cache after saving metrics; unchanged when caching is off. */
  function SaveToCache(e: Extractor, cache: Cache, cik: string, year: string, data: Metrics): Cache {
    if !e.cacheResponses then cache else cache[CachePath(e, cik, year) := Readable(data)]
  }

  /** With caching off nothing is ever loaded and nothing is ever written. */
  lemma CacheDisabled(e: Extractor, cache: Cache, cik: string, year: string, data: Metrics)
    requires !e.cacheResponses
    ensures LoadFromCache(e, cache, cik, year) == None
    ensures SaveToCache(e, cache, cik, year, data) == cache
  {
  }

  /** With caching on, what was saved for a company and year is what is loaded next. */
  lemma SaveThenLoad(e: Extractor, cache: Cache, cik: string, year: string, data: Metrics)
    requires e.cacheResponses
    ensures LoadFromCache(e, SaveToCache(e, cache, cik, year, data), cik, year) == Some(data)
  {
  }

  /** A character found at i is not before the first occurrence reported at k. */
  lemma NotBeforeFirst(s: string, c: char, k: nat, i: nat)
    requires k <= |s| && c !in s[..k] && i < |s| && s[i] == c
    ensures k <= i
  {
    assert forall j :: 0 <= j < k ==> s[..k][j] == s[j];
  }

  /** A character found at i is not after the last occurrence reported at k. */
  lemma NotAfterLast(s: string, c: char, k: int, i: nat)
    requires -1 <= k < |s| && c !in s[k + 1..] && i < |s| && s[i] == c
    ensures i <= k
  {
    assert forall j :: k + 1 <= j < |s| ==> s[k + 1..][j - (k + 1)] == s[j];
  }

  /** In "{cik}_{year}.json" with a CIK of digits, the first '_' is the one after the CIK. */
  lemma FirstUnderscore(cik: string, year: string)
    requires AllDigits(cik)
    ensures Find(cik + "_" + year + ".json", '_') == |cik|
  {
    var n := cik + "_" + year + ".json";
    assert n[|cik|] == '_';
    var k := Find(n, '_');
    assert forall i :: 0 <= i < |cik| ==> n[i] == cik[i];
    NotBeforeFirst(n, '_', k, |cik|);
  }

  /** "{cik}_{year}.json" tells the company and the year apart when CIKs are digits. */
  lemma CacheNameInjective(c1: string, y1: string, c2: string, y2: string)
    requires AllDigits(c1) && AllDigits(c2)
    requires c1 + "_" + y1 + ".json" == c2 + "_" + y2 + ".json"
    ensures c1 == c2 && y1 == y2
  {
    var n1, n2 := c1 + "_" + y1 + ".json", c2 + "_" + y2 + ".json";
    FirstUnderscore(c1, y1);
    FirstUnderscore(c2, y2);
    assert c1 == n1[..|c1|] && c2 == n2[..|c2|];
    assert y1 == n1[|c1| + 1..|n1| - 5] && y2 == n2[|c2| + 1..|n2| - 5];
  }

  lemma PathJoinInjective(dir: string, a: string, b: string)
    requires !StartsWith(a, "/") && !StartsWith(b, "/")
    requires PathJoin(dir, a) == PathJoin(dir, b)
    ensures a == b
  {
    if dir == [] || EndsWith(dir, "/") {
      assert a == PathJoin(dir, a)[|dir|..];
      assert b == PathJoin(dir, b)[|dir|..];
    } else {
      assert a == PathJoin(dir, a)[|dir| + 1..];
      assert b == PathJoin(dir, b)[|dir| + 1..];
    }
  }

  /** Saving for one company and year leaves every other company's and year's cache entry as it was. */
  lemma SaveKeepsOthers(e: Extractor, cache: Cache, cik: string, year: string, data: Metrics, cik': string, year': string)
    requires AllDigits(cik) && AllDigits(cik')
    requires cik != cik' || year != year'
    ensures LoadFromCache(e, SaveToCache(e, cache, cik, year, data), cik', year') == LoadFromCache(e, cache, cik', year')
  {
    if e.cacheResponses {
      var n, n' := cik + "_" + year + ".json", cik' + "_" + year' + ".json";
      if CachePath(e, cik, year) == CachePath(e, cik', year') {
        assert n[0] == if cik == [] then '_' else cik[0];
        assert n'[0] == if cik' == [] then '_' else cik'[0];
        PathJoinInjective(e.cacheDir, n, n');
        CacheNameInjective(cik, year, cik', year');
      }
    }
  }

  // ---------------------------------------------------------------------------
  // The language-model route

  /** The JSON object in a reply: from its first '{' through its last '}', when that '}' comes after it. */
  function JsonSpan(content: string): Option<string> {
    var start := Find(content, '{');
    var end := RFind(content, '}') + 1;
    if start != -1 && end > start then Some(content[start..end]) else None
  }

  /**
    A span is found exactly when some '}' follows some '{'; it then runs from
    the first '{' to the last '}' of the reply.
  */
  lemma JsonSpanMeaning(content: string)
    ensures JsonSpan(content).Some? <==>
      exists i, j :: 0 <= i < j < |content| && content[i] == '{' && content[j] == '}'
    ensures JsonSpan(content).Some? ==> exists i, j :: (0 <= i < j < |content|
      && '{' !in content[..i] && '}' !in content[j + 1..]
      && JsonSpan(content).value == content[i..j + 1]
      && content[i] == '{' && content[j] == '}')
  {
    var start := Find(content, '{');
    var last := RFind(content, '}');
    assert JsonSpan(content) == if start != -1 && last + 1 > start then Some(content[start..last + 1]) else None;
    if exists i, j :: 0 <= i < j < |content| && content[i] == '{' && content[j] == '}' {
      var i, j :| 0 <= i < j < |content| && content[i] == '{' && content[j] == '}';
      assert content[i] in content && content[j] in content;
      NotBeforeFirst(content, '{', start, i);
      NotAfterLast(content, '}', last, j);
      assert 0 <= start < last;
    }
    if start != -1 && last + 1 > start {
      assert 0 <= start < last < |content|;
      assert content[start] == '{' && content[last] == '}';
      SpanWitness(content, start, last, JsonSpan(content).value);
    }
  }

  /** The positions of the first '{' and the last '}' witness the span. */
  lemma SpanWitness(content: string, i: int, j: int, span: string)
    requires 0 <= i < j < |content| && content[i] == '{' && content[j] == '}'
    requires '{' !in content[..i] && '}' !in content[j + 1..] && span == content[i..j + 1]
    ensures exists i, j :: (0 <= i < j < |content|
      && '{' !in content[..i] && '}' !in content[j + 1..]
      && span == content[i..j + 1]
      && content[i] == '{' && content[j] == '}')
  {
  }

  /** A reply of the model, or a failed call (any exception). */
  datatype Reply = Answer(content: string) | CallFailed

  /** Only this many leading characters of the filing go into the prompt. */
  const PromptLimit: nat := 4000

  /**
    The metrics the model gives for a filing: none without an API key;
    otherwise the decoded JSON span of the reply, and none when the call
    fails, the reply holds no span or the span does not decode.
  */
  function LlmMetrics(e: Extractor, text: string, ask: string -> Reply, decode: string -> Result<Metrics>): (r: Metrics)
    ensures !HasKey(e) ==> r == map[]
    ensures r != map[] ==> (ask(Prefix(text, PromptLimit)).Answer?
      && JsonSpan(ask(Prefix(text, PromptLimit)).content).Some?
      && decode(JsonSpan(ask(Prefix(text, PromptLimit)).content).value) == Ok(r))
    ensures HasKey(e) && ask(Prefix(text, PromptLimit)).Answer?
      && JsonSpan(ask(Prefix(text, PromptLimit)).content).Some?
      && decode(JsonSpan(ask(Prefix(text, PromptLimit)).content).value).Ok?
      ==> r == decode(JsonSpan(ask(Prefix(text, PromptLimit)).content).value).value
  {
    if !HasKey(e) then map[]
    else match ask(Prefix(text, PromptLimit))
      case CallFailed => map[]
      case Answer(content) =>
        match JsonSpan(content)
        case None => map[]
        case Some(span) =>
          match decode(span)
          case Ok(m) => m
          case Raised(_) => map[]
  }

  /** Two filings that agree on their first 4000 characters get the same metrics from the model. */
  lemma LlmSeesPrefixOnly(e: Extractor, t1: string, t2: string, ask: string -> Reply, decode: string -> Result<Metrics>)
    requires Prefix(t1, PromptLimit) == Prefix(t2, PromptLimit)
    ensures LlmMetrics(e, t1, ask, decode) == LlmMetrics(e, t2, ask, decode)
  {
  }

  /** What extract_from_filing does besides computing: the cache is always consulted first. */
  datatype Action = ReadFiling | AskModel

  /**
    extract_from_filing: a cache hit is returned as it is, without reading the
    filing or asking the model; a filing that cannot be read gives {} and is
    not cached; otherwise the model's metrics are saved to the cache and returned.
  */
  method ExtractFromFiling(e: Extractor, cache: Cache, filings: map<string, string>, cik: string, year: string,
                           filingPath: string, ask: string -> Reply, decode: string -> Result<Metrics>)
    returns (metrics: Metrics, cache': Cache, actions: seq<Action>)
    ensures LoadFromCache(e, cache, cik, year).Some? ==>
      metrics == LoadFromCache(e, cache, cik, year).value && cache' == cache && actions == []
    ensures LoadFromCache(e, cache, cik, year).None? && filingPath !in filings ==>
      metrics == map[] && cache' == cache && actions == [ReadFiling]
    ensures LoadFromCache(e, cache, cik, year).None? && filingPath in filings ==>
      metrics == LlmMetrics(e, filings[filingPath], ask, decode)
      && cache' == SaveToCache(e, cache, cik, year, metrics)
      && actions == [ReadFiling] + (if HasKey(e) then [AskModel] else [])
    ensures LoadFromCache(e, cache, cik, year).None? && filingPath in filings && !HasKey(e) ==>
      metrics == map[] && cache' == SaveToCache(e, cache, cik, year, map[])
  {
    cache' := cache;
    actions := [];
    var cached := LoadFromCache(e, cache, cik, year);
    if cached.Some? {
      metrics := cached.value;
      return;
    }
    actions := actions + [ReadFiling];
    if filingPath !in filings {
      metrics := map[];
      return;
    }
    var content := filings[filingPath];
    if HasKey(e) {
      actions := actions + [AskModel];
    }
    metrics := LlmMetrics(e, content, ask, decode);
    cache' := SaveToCache(e, cache, cik, year, metrics);
  }

  // ---------------------------------------------------------------------------
  // The XBRL route, over the parsed document

  /**
    A context element: its id attribute, if any, and its period element, if
    any, given as the text of the first element of each name inside it.
  */
  datatype Context = Context(id: Option<string>, period: Option<map<string, string>>)

  /** An element of the document: tag name, text and contextref attribute. */
  datatype Element = Element(name: string, text: string, contextRef: Option<string>)

  /** The document as the parser sees it: its context elements and all its elements, in document order. */
  datatype Document = Document(contexts: seq<Context>, elements: seq<Element>)

  /** The date elements looked up inside a period, in the order they are tried. */
  const PeriodTags: seq<string> := ["instant", "endDate", "startDate"]

  /** The year a date element gives: int() of the first four characters of its stripped text. */
  function TagYear(period: map<string, string>, tag: string): Option<int> {
    if tag in period then
      var date := Strip(period[tag]);
      if |date| >= 4 then ParseInt(date[..4]) else None
    else None
  }

  /** The year of the last tag among tags that gives one: every later tag overwrites an earlier one. */
  function LastYear(period: map<string, string>, tags: seq<string>): Option<int> {
    if tags == [] then None
    else if TagYear(period, tags[|tags| - 1]).Some? then TagYear(period, tags[|tags| - 1])
    else LastYear(period, tags[..|tags| - 1])
  }

  /** The year of a period: its start date when that gives one, else its end date, else its instant. */
  lemma PeriodYearPriority(period: map<string, string>)
    ensures LastYear(period, PeriodTags) ==
      if TagYear(period, "startDate").Some? then TagYear(period, "startDate")
      else if TagYear(period, "endDate").Some? then TagYear(period, "endDate")
      else TagYear(period, "instant")
  {
    var two: seq<string> := ["instant", "endDate"];
    assert PeriodTags[..2] == two && two[..1] == ["instant"] && ["instant"][..0] == [];
    assert LastYear(period, PeriodTags) ==
      if TagYear(period, "startDate").Some? then TagYear(period, "startDate") else LastYear(period, two);
    assert LastYear(period, two) ==
      if TagYear(period, "endDate").Some? then TagYear(period, "endDate") else LastYear(period, ["instant"]);
    assert LastYear(period, ["instant"]) ==
      if TagYear(period, "instant").Some? then TagYear(period, "instant") else LastYear(period, []);
  }

  /** One context's entry in the context-to-year map. */
  function WithContext(years: map<Option<string>, int>, c: Context): map<Option<string>, int> {
    if c.period.Some? && LastYear(c.period.value, PeriodTags).Some? then years[c.id := LastYear(c.period.value, PeriodTags).value]
    else years
  }

  /** The context-to-year map built over the contexts in order. */
  function ContextYearsOf(contexts: seq<Context>): map<Option<string>, int> {
    if contexts == [] then map[]
    else WithContext(ContextYearsOf(contexts[..|contexts| - 1]), contexts[|contexts| - 1])
  }

  /** Whether a context gives a year. */
  predicate Dated(c: Context) {
    c.period.Some? && LastYear(c.period.value, PeriodTags).Some?
  }

  /**
    An id is mapped exactly when some context with that id gives a year, and
    it is mapped to the year of the last such context.
  */
  lemma {:induction false} ContextYearsMeaning(contexts: seq<Context>, id: Option<string>)
    ensures id in ContextYearsOf(contexts) <==> exists i :: 0 <= i < |contexts| && contexts[i].id == id && Dated(contexts[i])
    ensures id in ContextYearsOf(contexts) ==> exists i :: (0 <= i < |contexts| && contexts[i].id == id && Dated(contexts[i])
      && ContextYearsOf(contexts)[id] == LastYear(contexts[i].period.value, PeriodTags).value
      && forall j :: i < j < |contexts| ==> contexts[j].id != id || !Dated(contexts[j]))
  {
    if contexts != [] {
      var init, c := contexts[..|contexts| - 1], contexts[|contexts| - 1];
      ContextYearsMeaning(init, id);
      if exists i :: 0 <= i < |init| && init[i].id == id && Dated(init[i]) {
        var i :| 0 <= i < |init| && init[i].id == id && Dated(init[i]);
        assert contexts[i] == init[i];
      }
      if exists i :: 0 <= i < |contexts| && contexts[i].id == id && Dated(contexts[i]) {
        var i :| 0 <= i < |contexts| && contexts[i].id == id && Dated(contexts[i]);
        if i < |init| { assert init[i] == contexts[i]; }
      }
      if id in ContextYearsOf(contexts) && !(c.id == id && Dated(c)) {
        var i :| 0 <= i < |init| && init[i].id == id && Dated(init[i])
          && ContextYearsOf(init)[id] == LastYear(init[i].period.value, PeriodTags).value
          && forall j :: i < j < |init| ==> init[j].id != id || !Dated(init[j]);
        assert contexts[i] == init[i];
        forall j | i < j < |contexts| ensures contexts[j].id != id || !Dated(contexts[j]) {
          if j < |init| { assert contexts[j] == init[j]; }
        }
      }
    }
  }

  /** The dates of one period, tried in order, each one that gives a year overwriting the entry. */
  method AddContext(years: map<Option<string>, int>, c: Context) returns (years': map<Option<string>, int>)
    ensures years' == WithContext(years, c)
  {
    years' := years;
    if c.period.None? {
      return;
    }
    var period := c.period.value;
    var k := 0;
    while k < |PeriodTags|
      invariant 0 <= k <= |PeriodTags|
      invariant years' == if LastYear(period, PeriodTags[..k]).Some? then years[c.id := LastYear(period, PeriodTags[..k]).value] else years
    {
      var tag := PeriodTags[k];
      var y := TagYear(period, tag);
      assert PeriodTags[..k + 1][..k] == PeriodTags[..k] && PeriodTags[..k + 1][k] == tag;
      assert LastYear(period, PeriodTags[..k + 1]) == if y.Some? then y else LastYear(period, PeriodTags[..k]);
      if y.Some? {
        years' := years[c.id := y.value];
      }
      k := k + 1;
    }
    assert PeriodTags[..k] == PeriodTags;
  }

  /** The context-to-year map, context after context. */
  method ContextYears(contexts: seq<Context>) returns (years: map<Option<string>, int>)
    ensures years == ContextYearsOf(contexts)
  {
    years := map[];
    var i := 0;
    while i < |contexts|
      invariant 0 <= i <= |contexts|
      invariant years == ContextYearsOf(contexts[..i])
    {
      assert contexts[..i + 1][..i] == contexts[..i];
      years := AddContext(years, contexts[i]);
      i := i + 1;
    }
    assert contexts[..i] == contexts;
  }

  /** The tag-name pattern: "us-gaap:" anywhere in the name, in any letter case. */
  predicate IsGaap(name: string) {
    Contains(LowerAscii(name), "us-gaap:")
  }

  /** Whether an element is a numeric us-gaap fact of a context in the map. */
  predicate Referenced(el: Element, years: map<Option<string>, int>, toFloat: string -> Option<real>) {
    IsGaap(el.name) && toFloat(Strip(el.text)).Some? && el.contextRef in years
  }

  /** One element's effect on the metrics; int(year) raises ValueError when the fact reaches it and year is not an integer. */
  function WithFact(metrics: Metrics, el: Element, years: map<Option<string>, int>, year: string, toFloat: string -> Option<real>): Result<Metrics> {
    if !Referenced(el, years, toFloat) then Ok(metrics)
    else match ParseInt(year)
      case None => Raised("ValueError")
      case Some(y) =>
        if years[el.contextRef] == y then Ok(metrics[LowerAscii(el.name) := toFloat(Strip(el.text)).value]) else Ok(metrics)
  }

  /** The metrics collected over the elements in document order; the first exception ends the loop. */
  function FactsOf(elements: seq<Element>, years: map<Option<string>, int>, year: string, toFloat: string -> Option<real>): Result<Metrics> {
    if elements == [] then Ok(map[])
    else match FactsOf(elements[..|elements| - 1], years, year, toFloat)
      case Raised(x) => Raised(x)
      case Ok(m) => WithFact(m, elements[|elements| - 1], years, year, toFloat)
  }

  /** A fact that is kept: a numeric us-gaap element of a context of the requested year, under the given key. */
  predicate Selected(el: Element, key: string, years: map<Option<string>, int>, y: int, toFloat: string -> Option<real>) {
    Referenced(el, years, toFloat) && years[el.contextRef] == y && LowerAscii(el.name) == key
  }

  /** The metric a selected fact writes for the year y: its lower-cased name and its value. */
  function Pick(el: Element, years: map<Option<string>, int>, y: int, toFloat: string -> Option<real>): Option<(string, real)> {
    if Referenced(el, years, toFloat) && years[el.contextRef] == y then Some((LowerAscii(el.name), toFloat(Strip(el.text)).value))
    else None
  }

  /** For a year that is an integer the loop never raises and writes what Pick selects, in document order. */
  lemma {:induction false} FactsOfInteger(elements: seq<Element>, years: map<Option<string>, int>, year: string,
                                          toFloat: string -> Option<real>)
    requires ParseInt(year).Some?
    ensures FactsOf(elements, years, year, toFloat) == Ok(LastWrites(el => Pick(el, years, ParseInt(year).value, toFloat), elements))
  {
    if elements != [] {
      FactsOfInteger(elements[..|elements| - 1], years, year, toFloat);
    }
  }

  /**
    For a year that is an integer: a key is kept exactly when some selected
    fact has it, and it holds the value of the last such fact.
  */
  lemma FactsMeaning(elements: seq<Element>, years: map<Option<string>, int>, year: string,
                     toFloat: string -> Option<real>, key: string)
    requires ParseInt(year).Some?
    ensures FactsOf(elements, years, year, toFloat).Ok?
    ensures var m := FactsOf(elements, years, year, toFloat).value;
      (key in m <==> exists i :: 0 <= i < |elements| && Selected(elements[i], key, years, ParseInt(year).value, toFloat))
      && (key in m ==> exists i :: (0 <= i < |elements| && Selected(elements[i], key, years, ParseInt(year).value, toFloat)
            && m[key] == toFloat(Strip(elements[i].text)).value
            && forall j :: i < j < |elements| ==> !Selected(elements[j], key, years, ParseInt(year).value, toFloat)))
  {
    var y := ParseInt(year).value;
    var pick := el => Pick(el, years, y, toFloat);
    FactsOfInteger(elements, years, year, toFloat);
    LastWritesMeaning(pick, elements, key);
    assert forall el :: Writes(pick, el, key) <==> Selected(el, key, years, y, toFloat);
  }

  /** For a year that is not an integer, the loop raises exactly when some fact reaches the year comparison. */
  lemma {:induction false} FactsRaise(elements: seq<Element>, years: map<Option<string>, int>, year: string, toFloat: string -> Option<real>)
    requires ParseInt(year).None?
    ensures FactsOf(elements, years, year, toFloat).Raised? <==> exists i :: 0 <= i < |elements| && Referenced(elements[i], years, toFloat)
    ensures FactsOf(elements, years, year, toFloat).Ok? ==> FactsOf(elements, years, year, toFloat).value == map[]
  {
    if elements != [] {
      var init := elements[..|elements| - 1];
      var last := elements[|elements| - 1];
      FactsRaise(init, years, year, toFloat);
      ExistsSnoc(el => Referenced(el, years, toFloat), elements, init);
      match FactsOf(init, years, year, toFloat)
      case Raised(x) =>
        assert FactsOf(elements, years, year, toFloat) == Raised(x);
      case Ok(m) =>
        assert m == map[];
        assert FactsOf(elements, years, year, toFloat) == WithFact(m, last, years, year, toFloat);
        assert WithFact(m, last, years, year, toFloat) == if Referenced(last, years, toFloat) then Raised("ValueError") else Ok(m);
    }
  }

  /** The fact loop over the us-gaap elements, in document order. */
  method CollectFacts(elements: seq<Element>, years: map<Option<string>, int>, year: string, toFloat: string -> Option<real>)
    returns (r: Result<Metrics>)
    ensures r == FactsOf(elements, years, year, toFloat)
  {
    var metrics: Metrics := map[];
    var i := 0;
    while i < |elements|
      invariant 0 <= i <= |elements|
      invariant FactsOf(elements[..i], years, year, toFloat) == Ok(metrics)
    {
      var el := elements[i];
      assert elements[..i + 1][..i] == elements[..i];
      assert FactsOf(elements[..i + 1], years, year, toFloat) == WithFact(metrics, el, years, year, toFloat);
      if IsGaap(el.name) {
        var value := toFloat(Strip(el.text));
        if value.Some? && el.contextRef in years {
          var y := ParseInt(year);
          if y.None? {
            FactsRaisedStays(elements, i + 1, years, year, toFloat);
            return Raised("ValueError");
          }
          if years[el.contextRef] == y.value {
            metrics := metrics[LowerAscii(el.name) := value.value];
          }
        }
      }
      i := i + 1;
    }
    assert elements[..i] == elements;
    r := Ok(metrics);
  }

  /** Once the loop has raised over a prefix, it has raised over the whole sequence. */
  lemma {:induction false} FactsRaisedStays(elements: seq<Element>, k: nat, years: map<Option<string>, int>, year: string,
                                            toFloat: string -> Option<real>)
    requires k <= |elements| && FactsOf(elements[..k], years, year, toFloat).Raised?
    ensures FactsOf(elements, years, year, toFloat) == FactsOf(elements[..k], years, year, toFloat)
    decreases |elements| - k
  {
    if k < |elements| {
      assert elements[..k + 1][..k] == elements[..k];
      FactsRaisedStays(elements, k + 1, years, year, toFloat);
    } else {
      assert elements[..k] == elements;
    }
  }

  /**
    extract_from_xbrl: {} for a filing that cannot be read, holds no
    "<context" (in any letter case), or gives no context or no dated context;
    otherwise the facts of the requested year.
  */
  method ExtractFromXbrl(filings: map<string, string>, filingPath: string, year: string,
                         parse: string -> Document, toFloat: string -> Option<real>)
    returns (r: Result<Metrics>)
    ensures filingPath !in filings ==> r == Ok(map[])
    ensures filingPath in filings && !Contains(LowerAscii(filings[filingPath]), "<context") ==> r == Ok(map[])
    ensures filingPath in filings && Contains(LowerAscii(filings[filingPath]), "<context") ==>
      var doc := parse(filings[filingPath]);
      r == if doc.contexts == [] || ContextYearsOf(doc.contexts) == map[] then Ok(map[])
           else FactsOf(doc.elements, ContextYearsOf(doc.contexts), year, toFloat)
  {
    if filingPath !in filings {
      return Ok(map[]);
    }
    var content := filings[filingPath];
    if !Contains(LowerAscii(content), "<context") {
      return Ok(map[]);
    }
    var doc := parse(content);
    if doc.contexts == [] {
      return Ok(map[]);
    }
    var years := ContextYears(doc.contexts);
    if years == map[] {
      return Ok(map[]);
    }
    r := CollectFacts(doc.elements, years, year, toFloat);
  }

  // ---------------------------------------------------------------------------
  // Combining the two sources

  /**
    validate_and_combine: a copy of the XBRL metrics, then every model metric
    whose name is not there yet. The result holds every name of either
    source, with the XBRL value wherever XBRL has one.
  */
  method ValidateAndCombine(xbrl: Metrics, llm: Metrics) returns (combined: Metrics)
    ensures combined.Keys == xbrl.Keys + llm.Keys
    ensures forall k :: k in xbrl ==> combined[k] == xbrl[k]
    ensures forall k :: k in llm && k !in xbrl ==> combined[k] == llm[k]
    ensures combined == llm + xbrl
  {
    combined := xbrl;
    var rest := llm.Keys;
    while rest != {}
      invariant rest <= llm.Keys
      invariant combined.Keys == xbrl.Keys + (llm.Keys - rest)
      invariant forall k :: k in xbrl ==> combined[k] == xbrl[k]
      invariant forall k :: k in combined && k !in xbrl ==> combined[k] == llm[k]
      decreases rest
    {
      var k :| k in rest;
      if k !in combined {
        combined := combined[k := llm[k]];
      }
      rest := rest - {k};
    }
  }
}
