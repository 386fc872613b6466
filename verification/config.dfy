/**
 * The configuration defaults of `HtmlDocumentParser.__init__`: the loaded
 * `crawler_config.json` (or nothing, when it cannot be read or parsed) resolved into
 * concrete parser settings.
 */
module Config {
  import opened Wrappers
  import opened Json
  import Decimal

  /** What `json.load` produced; `Unreadable` when opening or parsing the file raised. */
  datatype ConfigFile = Unreadable | Loaded(doc: Json)

  datatype ParserSettings = ParserSettings(
    parser: string,
    headerTags: Json,
    textTags: Json,
    saveWebsiteContent: bool,
    saveHeaderArticlePairs: bool,
    mainClasses: Json,
    blackListClasses: Json,
    blackListTags: Json,
    urlRegexp: string)

  /**
   * The `TypeError` the constructor raises when the loaded document is not an object:
   * `key in doc` on a number, boolean or null, or `doc[key]` on a list or string that
   * contains the key.
   */
  datatype ConfigError = NotIterable | NotSubscriptable

  /** The keys the constructor reads, in the order it reads them. */
  const ConfigKeys: seq<string> := [
    "parser", "header_tags", "text_tags", "save_website_content", "save_header_article_pairs",
    "main_classes", "black_list_classes", "black_list_tags", "domain"]

  const AllowedParsers: seq<string> := ["lxml", "html5lib", "html.parser"]

  /**
   * The link pattern around the domain. The source writes its backslashes in ordinary
   * string literals, where `\:`, `\/`, `\.` and `\-` are not escapes and keep the backslash.
   */
  const UrlPrefix: string := "(https?\\:\\/\\/)([A-Za-z0-9\\.\\/]*)\\.?"
  const UrlSuffix: string := "\\.ru\\/?[A-Za-z0-9_\\.~\\-\\/]*"

  /** The pattern used when no `domain` is configured, as the source spells it out. */
  const DefaultUrlRegexp: string :=
    "(https?\\:\\/\\/)([A-Za-z0-9\\.\\/]*)\\.?hse\\.ru\\/?[A-Za-z0-9_\\.~\\-\\/]*"

  /** The settings the constructor falls back to, key by key. */
  const Defaults: ParserSettings := ParserSettings(
    parser := "lxml",
    headerTags := StringList(["h1", "h2"]),
    textTags := StringList(["p", "span", "li", "a", "strong", "h3", "h4", "h5", "h6"]),
    saveWebsiteContent := false,
    saveHeaderArticlePairs := false,
    mainClasses := StringList(["main", "content"]),
    blackListClasses := StringList(["sidebar", "footer"]),
    blackListTags := StringList(["footer"]),
    urlRegexp := DefaultUrlRegexp)

  /** The pattern with `domain` substituted, as the f-string builds it. */
  function UrlPattern(domain: string): string
  {
    UrlPrefix + domain + UrlSuffix
  }

  /** The domain a pattern was built from. */
  function PatternDomain(pattern: string): string
  {
    if |UrlPrefix| + |UrlSuffix| <= |pattern| then pattern[|UrlPrefix|..|pattern| - |UrlSuffix|]
    else ""
  }

  /** Python's `== 1` on a loaded JSON value: true for the integer 1 and for `true`. */
  predicate EqualsOne(v: Json)
  {
    v == JInt(1) || v == JBool(true)
  }

  /**
   * Python's `str()` of a loaded value inside the f-string, for the kinds whose text is
   * plain: strings, integers, booleans and null.
   */
  function PyStr(v: Json): string
  {
    match v
    case JString(s) => s
    case JInt(i) => Decimal.IntToString(i)
    case JBool(b) => if b then "True" else "False"
    case JNull => "None"
    case JArray(_) => ""
    case JObject(_) => ""
  }

  /** The settings for a loaded object `config`, one `if key in config` at a time. */
  function FromObject(config: map<string, Json>): (r: ParserSettings)
    ensures r.parser in AllowedParsers
  {
    ParserSettings(
      parser :=
        if "parser" in config && config["parser"].JString? && config["parser"].s in AllowedParsers
        then config["parser"].s else Defaults.parser,
      headerTags := if "header_tags" in config then config["header_tags"] else Defaults.headerTags,
      textTags := if "text_tags" in config then config["text_tags"] else Defaults.textTags,
      saveWebsiteContent :=
        "save_website_content" in config && EqualsOne(config["save_website_content"]),
      saveHeaderArticlePairs :=
        "save_header_article_pairs" in config && EqualsOne(config["save_header_article_pairs"]),
      mainClasses := if "main_classes" in config then config["main_classes"] else Defaults.mainClasses,
      blackListClasses :=
        if "black_list_classes" in config then config["black_list_classes"] else Defaults.blackListClasses,
      blackListTags :=
        if "black_list_tags" in config then config["black_list_tags"] else Defaults.blackListTags,
      urlRegexp := if "domain" in config then UrlPattern(PyStr(config["domain"])) else Defaults.urlRegexp)
  }

  /** `needle in haystack` on Python strings: a substring test. */
  predicate IsSubstring(needle: string, haystack: string)
    decreases |haystack|
  {
    needle <= haystack || (|haystack| > 0 && IsSubstring(needle, haystack[1..]))
  }

  /** A substring found by the recursive test occurs at some offset of the haystack. */
  lemma {:induction false} SubstringHasOffset(needle: string, haystack: string)
    requires IsSubstring(needle, haystack)
    ensures exists i :: 0 <= i <= |haystack| - |needle| && needle <= haystack[i..]
    decreases |haystack|
  {
    if needle <= haystack {
      assert haystack[0..] == haystack;
    } else {
      SubstringHasOffset(needle, haystack[1..]);
      var i :| 0 <= i <= |haystack[1..]| - |needle| && needle <= haystack[1..][i..];
      assert haystack[1..][i..] == haystack[i + 1..];
    }
  }

  /** A needle at any offset of the haystack is found by the recursive test. */
  lemma {:induction false} OffsetIsSubstring(needle: string, haystack: string, i: nat)
    requires i <= |haystack| && needle <= haystack[i..]
    ensures IsSubstring(needle, haystack)
    decreases i
  {
    if i > 0 {
      assert haystack[1..][i - 1..] == haystack[i..];
      OffsetIsSubstring(needle, haystack[1..], i - 1);
    } else {
      assert haystack[0..] == haystack;
    }
  }

  /**
   * The constructor's settings, or the `TypeError` it raises. An object is read key by
   * key. A list or a string answers `key in doc` by element or substring test, and the
   * first key it contains is then subscripted, which raises; one that contains none of
   * the keys yields all the defaults. Any other value raises at the first `in`.
   */
  function Resolve(file: ConfigFile): (r: Result<ParserSettings, ConfigError>)
    ensures r.Success? ==> r.value.parser in AllowedParsers
    ensures file.Unreadable? ==> r == Success(FromObject(map[]))
    ensures file.Loaded? && file.doc.JObject? ==> r == Success(FromObject(file.doc.fields))
    ensures file.Loaded? && (file.doc.JNull? || file.doc.JBool? || file.doc.JInt?) ==>
              r == Failure(NotIterable)
    ensures file.Loaded? && file.doc.JArray? ==>
              r == if exists k :: k in ConfigKeys && JString(k) in file.doc.items
                   then Failure(NotSubscriptable) else Success(FromObject(map[]))
    ensures file.Loaded? && file.doc.JString? ==>
              r == if exists k :: k in ConfigKeys && IsSubstring(k, file.doc.s)
                   then Failure(NotSubscriptable) else Success(FromObject(map[]))
  {
    match file
    case Unreadable => Success(FromObject(map[]))
    case Loaded(doc) =>
      match doc
      case JObject(fields) => Success(FromObject(fields))
      case JArray(items) =>
        if exists k :: k in ConfigKeys && JString(k) in items then Failure(NotSubscriptable)
        else Success(FromObject(map[]))
      case JString(s) =>
        if exists k :: k in ConfigKeys && IsSubstring(k, s) then Failure(NotSubscriptable)
        else Success(FromObject(map[]))
      case _ => Failure(NotIterable)
  }

  /** The spelled-out default pattern is the f-string pattern for the domain `hse`. */
  lemma DefaultPatternIsHse()
    ensures DefaultUrlRegexp == UrlPattern("hse")
    ensures PatternDomain(DefaultUrlRegexp) == "hse"
  {
  }

  /**
   * The fallbacks, key by key: the `lxml` parser (also the only answer to a parser name
   * outside the three allowed ones), the five tag and class lists, both save flags off,
   * and the link pattern for `hse`.
   */
  lemma DefaultSettings()
    ensures forall p :: p in AllowedParsers <==> p == "lxml" || p == "html5lib" || p == "html.parser"
    ensures Defaults.parser == "lxml"
    ensures Defaults.headerTags == JArray([JString("h1"), JString("h2")])
    ensures Defaults.textTags == JArray([JString("p"), JString("span"), JString("li"), JString("a"),
              JString("strong"), JString("h3"), JString("h4"), JString("h5"), JString("h6")])
    ensures !Defaults.saveWebsiteContent && !Defaults.saveHeaderArticlePairs
    ensures Defaults.mainClasses == JArray([JString("main"), JString("content")])
    ensures Defaults.blackListClasses == JArray([JString("sidebar"), JString("footer")])
    ensures Defaults.blackListTags == JArray([JString("footer")])
    ensures Defaults.urlRegexp == DefaultUrlRegexp == UrlPattern("hse")
  {
    DefaultPatternIsHse();
  }

  /** A configuration with none of the keys, and an unreadable file, give the defaults. */
  lemma NoKeysGiveDefaults(config: map<string, Json>)
    requires forall k :: k in ConfigKeys ==> k !in config
    ensures FromObject(config) == Defaults
    ensures Resolve(Unreadable) == Success(Defaults)
  {
    assert "parser" in ConfigKeys && "header_tags" in ConfigKeys && "text_tags" in ConfigKeys;
    assert "save_website_content" in ConfigKeys && "save_header_article_pairs" in ConfigKeys;
    assert "main_classes" in ConfigKeys && "black_list_classes" in ConfigKeys;
    assert "black_list_tags" in ConfigKeys && "domain" in ConfigKeys;
    OnlyConfigKeysMatter(config, map[]);
  }

  /** The domain is recovered from the pattern built around it. */
  lemma PatternDomainRoundTrip(domain: string)
    ensures PatternDomain(UrlPattern(domain)) == domain
  {
    var p := UrlPattern(domain);
    assert p[|UrlPrefix|..|p| - |UrlSuffix|] == domain;
  }

  /**
   * The parser is the configured one exactly when it names an allowed parser; any
   * other configured value, of any kind, falls back to `lxml`.
   */
  lemma ParserChoice(config: map<string, Json>, name: string)
    ensures FromObject(config).parser in AllowedParsers
    ensures "parser" in config && config["parser"] == JString(name) && name in AllowedParsers ==>
              FromObject(config).parser == name
    ensures FromObject(config).parser != Defaults.parser ==>
              "parser" in config && config["parser"] == JString(FromObject(config).parser)
    ensures ("parser" !in config || !config["parser"].JString? || config["parser"].s !in AllowedParsers) ==>
              FromObject(config).parser == Defaults.parser
  {
  }

  /** Keys other than the nine the constructor reads have no effect. */
  lemma OnlyConfigKeysMatter(c1: map<string, Json>, c2: map<string, Json>)
    requires forall k :: k in ConfigKeys ==> (k in c1 <==> k in c2)
    requires forall k :: k in ConfigKeys && k in c1 && k in c2 ==> c1[k] == c2[k]
    ensures FromObject(c1) == FromObject(c2)
  {
    assert "parser" in ConfigKeys && "header_tags" in ConfigKeys && "text_tags" in ConfigKeys;
    assert "save_website_content" in ConfigKeys && "save_header_article_pairs" in ConfigKeys;
    assert "main_classes" in ConfigKeys && "black_list_classes" in ConfigKeys;
    assert "black_list_tags" in ConfigKeys && "domain" in ConfigKeys;
  }

  /**
   * Each list option is the configured value, whatever its kind, when its key is present,
   * and its default list otherwise; each flag is on exactly when its key is present with
   * a value equal to 1.
   */
  lemma OptionsFromKeys(config: map<string, Json>)
    ensures var s := FromObject(config);
      && s.headerTags == (if "header_tags" in config then config["header_tags"] else Defaults.headerTags)
      && s.textTags == (if "text_tags" in config then config["text_tags"] else Defaults.textTags)
      && s.mainClasses == (if "main_classes" in config then config["main_classes"] else Defaults.mainClasses)
      && s.blackListClasses ==
           (if "black_list_classes" in config then config["black_list_classes"] else Defaults.blackListClasses)
      && s.blackListTags ==
           (if "black_list_tags" in config then config["black_list_tags"] else Defaults.blackListTags)
    ensures FromObject(config).saveWebsiteContent <==>
              "save_website_content" in config && EqualsOne(config["save_website_content"])
    ensures FromObject(config).saveHeaderArticlePairs <==>
              "save_header_article_pairs" in config && EqualsOne(config["save_header_article_pairs"])
  {
  }

  /**
   * The link pattern is built around the configured domain's text, or around `hse` when
   * no domain is configured, and that text can be read back out of the pattern.
   */
  lemma DomainPattern(config: map<string, Json>)
    ensures "domain" in config ==> FromObject(config).urlRegexp == UrlPattern(PyStr(config["domain"]))
    ensures "domain" !in config ==> FromObject(config).urlRegexp == UrlPattern("hse")
    ensures PatternDomain(FromObject(config).urlRegexp) ==
              if "domain" in config then PyStr(config["domain"]) else "hse"
  {
    DefaultPatternIsHse();
    if "domain" in config {
      PatternDomainRoundTrip(PyStr(config["domain"]));
    }
  }

  /** Python's loose `== 1`: the string "1" and the integer 2 leave a flag off, `true` sets it. */
  lemma FlagEqualsOne()
    ensures !FromObject(map["save_website_content" := JString("1")]).saveWebsiteContent
    ensures !FromObject(map["save_website_content" := JInt(2)]).saveWebsiteContent
    ensures FromObject(map["save_website_content" := JBool(true)]).saveWebsiteContent
    ensures FromObject(map["save_header_article_pairs" := JInt(1)]).saveHeaderArticlePairs
  {
  }

  /** Settings the constructor can produce: an allowed parser and a pattern around a domain. */
  predicate Canonical(s: ParserSettings)
  {
    s.parser in AllowedParsers && s.urlRegexp == UrlPattern(PatternDomain(s.urlRegexp))
  }

  /** A configuration object that asks for the given settings explicitly. */
  function AsConfig(s: ParserSettings): map<string, Json>
  {
    map[
      "parser" := JString(s.parser),
      "header_tags" := s.headerTags,
      "text_tags" := s.textTags,
      "save_website_content" := JBool(s.saveWebsiteContent),
      "save_header_article_pairs" := JBool(s.saveHeaderArticlePairs),
      "main_classes" := s.mainClasses,
      "black_list_classes" := s.blackListClasses,
      "black_list_tags" := s.blackListTags,
      "domain" := JString(PatternDomain(s.urlRegexp))]
  }

  /** Every settings value the constructor produces is canonical. */
  lemma ResolvedIsCanonical(file: ConfigFile)
    requires Resolve(file).Success?
    ensures Canonical(Resolve(file).value)
  {
    var s := Resolve(file).value;
    var d :| s.urlRegexp == UrlPattern(d) by {
      DefaultPatternIsHse();
    }
    PatternDomainRoundTrip(d);
  }

  /** Writing canonical settings out as a configuration object and loading it gives them back. */
  lemma AsConfigRoundTrip(s: ParserSettings)
    requires Canonical(s)
    ensures Resolve(Loaded(JObject(AsConfig(s)))) == Success(s)
  {
    var c := AsConfig(s);
    var r := FromObject(c);
    assert r.parser == s.parser;
    assert r.saveWebsiteContent == s.saveWebsiteContent;
    assert r.saveHeaderArticlePairs == s.saveHeaderArticlePairs;
    assert r.urlRegexp == s.urlRegexp;
  }

  /** A top-level list naming one of the keys raises, as subscripting a list by a string does. */
  lemma ListNamingKeyFails(items: seq<Json>, key: string)
    requires key in ConfigKeys && JString(key) in items
    ensures Resolve(Loaded(JArray(items))) == Failure(NotSubscriptable)
  {
  }

  /** A top-level string containing one of the keys raises; the empty string yields the defaults. */
  lemma StringConfig(text: string, key: string, i: nat)
    requires key in ConfigKeys && i <= |text| && key <= text[i..]
    ensures Resolve(Loaded(JString(text))) == Failure(NotSubscriptable)
    ensures Resolve(Loaded(JString(""))) == Success(Defaults)
  {
    OffsetIsSubstring(key, text, i);
    forall k | k in ConfigKeys
      ensures !IsSubstring(k, "")
    {
    }
    NoKeysGiveDefaults(map[]);
  }
}
