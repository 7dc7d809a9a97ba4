/**
 * The two transformers that compile a resource and keep it in a local,
 * static `InMemoryLRUResourceCache`: `XSLTTransformer` (compiled
 * stylesheets, `Templates`) and `SchemaProcessorTransformer` (compiled
 * schemas). Both are caching pipeline components whose key is built from
 * the URL or the `Source` the resource came from and its last-modified
 * time; the XSLT key adds the sitemap-safe parameters.
 *
 * Compilation is an oracle: the caller passes what compiling the resource
 * would give (`None` when it fails). The last-modified time of a URL is an
 * oracle too, a function from the URL's external form. The static cache is
 * an object shared by every transformer constructed with it. A URL is its
 * external form, a `Source` its `toString`.
 */
module CompiledResources {
  import opened Wrappers
  import opened CacheKeys
  import opened ParameterKey
  import opened LruCache

  /** `SOURCE`: the configuration entry holding the resource's URL. */
  const SOURCE: string := "source"

  const CAST_MESSAGE: string := "The configuration value of 'source' can't be cast to java.net.URL"
  const XSLT_NULL_MESSAGE: string := "The parameter 'source' mustn't be null."
  const SCHEMA_NULL_SOURCE_MESSAGE: string := "Cannot load schema from null Source"
  const SCHEMA_NULL_URL_MESSAGE: string := "Cannot load schema from null URL"

  /** A compiled stylesheet; it is known only by the source it was compiled from. */
  datatype Templates = Templates(compiledFrom: string)

  /** A compiled schema; it is known only by the source it was compiled from. */
  datatype Schema = Schema(compiledFrom: string)

  /** A configuration or parameter value: a `java.net.URL`, or any other object, known by its `toString`. */
  datatype ConfigValue = UrlValue(url: string) | Value(text: string)

  /** `toString` of a value; a URL's is its external form. */
  function Text(v: ConfigValue): string {
    match v
    case UrlValue(url) => url
    case Value(text) => text
  }

  /** Where a transformer's resource came from: the fields `url`, `source` and `lastModified`. */
  datatype Origin = ResourceOrigin(url: Option<string>, source: Option<string>, lastModified: int)

  /** Two origins name the same resource: the same URL, or no URL and the same `Source`. */
  predicate SameResource(a: Origin, b: Origin) {
    if a.url.Some? then b.url == a.url else b.url.None? && b.source == a.source
  }

  // ---------------------------------------------------------------------
  // Cache keys
  // ---------------------------------------------------------------------

  /**
   * The timestamp key of an origin: a URL key when there is a URL, else a
   * `Source` key, both with the stored last-modified time; with neither a
   * `SetupException` naming the transformer's class.
   */
  function TimestampKey(o: Origin, className: string): Result<CacheKey> {
    if o.url.None? && o.source.None? then Err(Exception.Setup(className + " has no source."))
    else if o.url.Some? then Ok(TimestampURL(o.url.value, o.lastModified))
    else Ok(TimestampSource(o.source.value, o.lastModified))
  }

  /** The key of `XSLTTransformer.constructCacheKey`: a compound of the timestamp key and the sitemap-safe parameter key. */
  function XsltKey(o: Origin, parameters: Option<map<string, ConfigValue>>): Result<CacheKey> {
    var k := TimestampKey(o, "XSLTTransformer");
    if k.Err? then Err(k.error)
    else Ok(Compound([Some(k.value), Some(Parameter(SitemapSafe(parameters, Text)))]))
  }

  /** A key exists exactly when the origin has a URL or a `Source`, and the error names the class. */
  lemma TimestampKeyErrors(o: Origin, className: string)
    ensures TimestampKey(o, className).Err? <==> o.url.None? && o.source.None?
    ensures TimestampKey(o, className).Err? ==> TimestampKey(o, className).error == Exception.Setup(className + " has no source.")
    ensures TimestampKey(o, className).Ok? ==> LastModified(TimestampKey(o, className).value, _ => 0) == o.lastModified
  {
  }

  /**
   * Two schema keys are equal exactly when they name the same resource,
   * and one is valid for the other exactly when, in addition, the
   * last-modified times are the same.
   */
  lemma TimestampKeyMatches(a: Origin, b: Origin, className: string)
    requires TimestampKey(a, className).Ok? && TimestampKey(b, className).Ok?
    ensures var ka := TimestampKey(a, className).value; var kb := TimestampKey(b, className).value;
      (Equals(ka, Some(kb)) <==> SameResource(a, b)) &&
      (Valid(ka, Some(kb)) <==> SameResource(a, b) && a.lastModified == b.lastModified)
  {
  }

  /**
   * Two XSLT keys are equal exactly when they name the same stylesheet and
   * have the same sitemap-safe parameters, and one is valid for the other
   * exactly when, in addition, the last-modified times are the same.
   */
  lemma {:induction false} XsltKeyMatches(a: Origin, pa: Option<map<string, ConfigValue>>, b: Origin, pb: Option<map<string, ConfigValue>>)
    requires XsltKey(a, pa).Ok? && XsltKey(b, pb).Ok?
    ensures var ka := XsltKey(a, pa).value; var kb := XsltKey(b, pb).value;
      (Equals(ka, Some(kb)) <==> SameResource(a, b) && SitemapSafe(pa, Text) == SitemapSafe(pb, Text)) &&
      (Valid(ka, Some(kb)) <==> SameResource(a, b) && SitemapSafe(pa, Text) == SitemapSafe(pb, Text) && a.lastModified == b.lastModified)
  {
    var ta := TimestampKey(a, "XSLTTransformer").value;
    var tb := TimestampKey(b, "XSLTTransformer").value;
    TimestampKeyMatches(a, b, "XSLTTransformer");
    var ka := XsltKey(a, pa).value;
    var kb := XsltKey(b, pb).value;
    assert ka.parts == [Some(ta), Some(Parameter(SitemapSafe(pa, Text)))];
    assert kb.parts == [Some(tb), Some(Parameter(SitemapSafe(pb, Text)))];
    var sa, sb := Parameter(SitemapSafe(pa, Text)), Parameter(SitemapSafe(pb, Text));
    if Equals(ta, Some(tb)) && sa == sb {
      forall i | 0 <= i < 2 ensures ka.parts[i].Some? && Equals(ka.parts[i].value, kb.parts[i]) {
        if i == 1 { assert ka.parts[i] == kb.parts[i] == Some(sa); }
      }
      if Valid(ta, Some(tb)) {
        forall i | 0 <= i < 2 ensures Valid(ka.parts[i].value, kb.parts[i]) {
          if i == 1 { assert ka.parts[i] == kb.parts[i] == Some(sa); }
        }
      }
    }
    if Equals(ka, Some(kb)) {
      assert Equals(ka.parts[0].value, kb.parts[0]) && Equals(ka.parts[1].value, kb.parts[1]);
    }
    if Valid(ka, Some(kb)) {
      assert Valid(ka.parts[0].value, kb.parts[0]);
    }
  }

  /**
   * The same stylesheet with one parameter that is not reserved set to
   * values with different `toString`s gives keys that are not equal, so
   * the pipeline never serves the output cached for the other value.
   */
  lemma DifferentParameterValues(o: Origin, pa: map<string, ConfigValue>, pb: map<string, ConfigValue>, name: string)
    requires o.url.Some? || o.source.Some?
    requires name in pa && name in pb && name !in SITEMAP_PARAM_NON_CACHABLE_NAMES && Text(pa[name]) != Text(pb[name])
    ensures !Equals(XsltKey(o, Some(pa)).value, Some(XsltKey(o, Some(pb)).value))
    ensures !Valid(XsltKey(o, Some(pa)).value, Some(XsltKey(o, Some(pb)).value))
  {
    XsltKeyMatches(o, Some(pa), o, Some(pb));
    assert SitemapSafe(Some(pa), Text)[name] != SitemapSafe(Some(pb), Text)[name];
  }

  // ---------------------------------------------------------------------
  // XSLT parameter names
  // ---------------------------------------------------------------------

  predicate AsciiLetter(c: char) {
    'a' <= c <= 'z' || 'A' <= c <= 'Z'
  }

  /** `\w` without Unicode character classes: a letter, a digit or `_`. */
  predicate WordChar(c: char) {
    AsciiLetter(c) || '0' <= c <= '9' || c == '_'
  }

  /** `[\w\-\.]*`, read one character at a time. */
  predicate TailMatches(s: string)
    decreases |s|
  {
    s == [] || ((WordChar(s[0]) || s[0] == '-' || s[0] == '.') && TailMatches(s[1..]))
  }

  /** `XSLT_PARAMETER_NAME_PATTERN`, `[a-zA-Z_][\w\-\.]*`, matched against the whole name. */
  predicate IsParameterName(name: string) {
    |name| > 0 && (AsciiLetter(name[0]) || name[0] == '_') && TailMatches(name[1..])
  }

  /** The pattern read as a condition on each character: the first a letter or `_`, every other a word character, `-` or `.`. */
  lemma {:induction false} TailMatchesChars(s: string)
    ensures TailMatches(s) <==> forall i :: 0 <= i < |s| ==> WordChar(s[i]) || s[i] == '-' || s[i] == '.'
    decreases |s|
  {
    if s != [] {
      TailMatchesChars(s[1..]);
      assert forall i :: 1 <= i < |s| ==> s[i] == s[1..][i - 1];
    }
  }

  lemma ParameterNameChars(name: string)
    ensures IsParameterName(name) <==>
      |name| > 0 && (AsciiLetter(name[0]) || name[0] == '_') &&
      forall i :: 1 <= i < |name| ==> WordChar(name[i]) || name[i] == '-' || name[i] == '.'
  {
    if |name| > 0 {
      TailMatchesChars(name[1..]);
      assert forall i :: 1 <= i < |name| ==> name[i] == name[1..][i - 1];
    }
  }

  /** Names a stylesheet parameter may have: a letter or `_` first, then word characters, `-` and `.`. */
  lemma AcceptedParameterNames()
    ensures IsParameterName("page") && IsParameterName("_x-1.y") && IsParameterName("Z")
  {
    ParameterNameChars("page");
    ParameterNameChars("_x-1.y");
    ParameterNameChars("Z");
    hide TailMatches;
    assert forall i :: 1 <= i < 4 ==> "page"[i] in "age";
    assert forall i :: 1 <= i < 6 ==> "_x-1.y"[i] in "x-1.y";
  }

  /** Names a sitemap passes that are not valid parameter names: empty, a leading digit or `-`, a space, a colon. */
  lemma RejectedParameterNames()
    ensures !IsParameterName("") && !IsParameterName("1st") && !IsParameterName("-x")
    ensures !IsParameterName("a b") && !IsParameterName("xsl:param")
  {
    ParameterNameChars("a b");
    ParameterNameChars("xsl:param");
    hide TailMatches;
    assert "a b"[1] == ' ';
    assert "xsl:param"[3] == ':';
  }

  // ---------------------------------------------------------------------
  // The local cache rule
  // ---------------------------------------------------------------------

  /**
   * The resource field after the cache lookup of `load`: the cached value
   * when there is one at least as recent as the transformer's
   * last-modified time, otherwise whatever the field held.
   */
  function Reused<T>(held: Option<T>, lastModified: int, cached: Option<ValidityValue<T>>): Option<T> {
    if cached.Some? && cached.value.lastModified >= lastModified then Some(cached.value.value) else held
  }

  /** A transformer without a resource takes the cached one exactly when it is at least as recent, and then that very value. */
  lemma ReusedOnlyWhenRecent<T>(lastModified: int, cached: Option<ValidityValue<T>>)
    ensures Reused(None, lastModified, cached).Some? <==> cached.Some? && cached.value.lastModified >= lastModified
    ensures Reused(None, lastModified, cached).Some? ==> Reused(None, lastModified, cached).value == cached.value.value
  {
  }

  /**
   * What one transformer compiles and stores, a later one loading the same
   * key finds: it takes that value exactly when its own last-modified time
   * is not newer than the one stored.
   */
  lemma StoredValueReused<T>(entries: Entries<T>, key: string, compiled: T, stored: int, lastModified: int)
    requires UniqueKeys(entries) && |entries| <= CacheSize
    ensures var after := PutEntries(entries, key, ValidityValue(compiled, stored));
      (Reused(None, lastModified, Find(after, key)).Some? <==> lastModified <= stored) &&
      (lastModified <= stored ==> Reused(None, lastModified, Find(after, key)) == Some(compiled))
  {
    PutThenFind(entries, key, ValidityValue(compiled, stored));
  }

  /**
   * A resource the transformer already holds is kept when the cache has
   * nothing as recent, even if its last-modified time has changed since:
   * a later `load` on the same object does not compile again.
   */
  lemma HeldResourceKept<T>(held: T, lastModified: int, cached: Option<ValidityValue<T>>)
    requires cached.None? || cached.value.lastModified < lastModified
    ensures Reused(Some(held), lastModified, cached) == Some(held)
  {
  }

  /**
   * One run of the cache step of `load` for `key`: from the field `held`
   * and the cache `before`, to the field `after` and the cache
   * `entriesAfter`. A recent enough cached value is taken and the cache
   * left alone; if the field is still empty the compiled value is taken
   * and stored with the current last-modified time; if compiling fails the
   * field stays empty and `failure` is thrown.
   */
  ghost predicate CacheStep<T>(held: Option<T>, lastModified: int, key: string, compiled: Option<T>, before: Entries<T>,
                               after: Option<T>, entriesAfter: Entries<T>, outcome: Outcome, failure: Exception)
  {
    var reused := Reused(held, lastModified, Find(before, key));
    if reused.Some? then
      after == reused && entriesAfter == before && outcome == Pass
    else if compiled.Some? then
      after == compiled && outcome == Pass && entriesAfter == PutEntries(before, key, ValidityValue(compiled.value, lastModified))
    else
      after.None? && entriesAfter == before && outcome == Fail(failure)
  }

  function XsltFailure(key: string): Exception {
    Exception.Setup("Impossible to read XSLT from '" + key + "', see nested exception")
  }

  function SchemaFailure(key: string): Exception {
    Exception.Setup("Impossible to read Schema from '" + key + "', see nested exception")
  }

  /**
   * The text of the `StreamSource` that `load(URL)` wraps around the URL:
   * `StreamSource` keeps `Object`'s `toString`, the class name and the
   * object's identity hash, which is a parameter here.
   */
  function StreamSourceText(identity: string): (r: string)
    ensures |r| > |STREAM_SOURCE_CLASS| && r[..|STREAM_SOURCE_CLASS|] == STREAM_SOURCE_CLASS && r[|STREAM_SOURCE_CLASS|] == '@'
  {
    STREAM_SOURCE_CLASS + "@" + identity
  }

  const STREAM_SOURCE_CLASS := "javax.xml.transform.stream.StreamSource"

  // ---------------------------------------------------------------------
  // XSLTTransformer
  // ---------------------------------------------------------------------

  class XSLTTransformer {
    var parameters: Option<map<string, ConfigValue>>
    var templates: Option<Templates>
    var url: Option<string>
    var lastModified: int
    var source: Option<string>
    /** `XSLT_CACHE`, shared by every transformer given the same object. */
    const cache: InMemoryLRUResourceCache<Templates>

    ghost predicate Valid()
      reads this, cache
    {
      cache.Valid()
    }

    function Origin(): Origin
      reads this
    {
      ResourceOrigin(url, source, lastModified)
    }

    /** The empty constructor of the sitemap: nothing loaded. */
    constructor (cache: InMemoryLRUResourceCache<Templates>)
      requires cache.Valid()
      ensures Valid() && this.cache == cache
      ensures parameters.None? && templates.None? && url.None? && source.None? && lastModified == 0
    {
      this.cache := cache;
      parameters := None;
      templates := None;
      url := None;
      source := None;
      lastModified := 0;
    }

    /** `constructCacheKey`. */
    function ConstructCacheKey(): (r: Result<CacheKey>)
      reads this
      ensures r.Ok? <==> url.Some? || source.Some?
      ensures r.Ok? ==> r.value.Compound? && |r.value.parts| == 2
                        && r.value.parts[0] == Some(if url.Some? then TimestampURL(url.value, lastModified)
                                                    else TimestampSource(source.value, lastModified))
                        && r.value.parts[1] == Some(Parameter(SitemapSafe(parameters, Text)))
      ensures r.Err? ==> r.error == Exception.Setup("XSLTTransformer has no source.")
    {
      assert "XSLTTransformer" + " has no source." == "XSLTTransformer has no source.";
      XsltKey(Origin(), parameters)
    }

    /** `setParameters`: `null` clears the parameters, any other map is copied. */
    method SetParameters(parameters: Option<map<string, ConfigValue>>)
      modifies this`parameters
      ensures this.parameters == parameters
    {
      if parameters.None? {
        this.parameters := None;
      } else {
        this.parameters := Some(parameters.value);
      }
    }

    /**
     * The parameters `setSAXConsumer` hands to the TrAX transformer: the
     * entries whose name matches the parameter-name pattern, with their
     * values; none when the parameters are `null`.
     */
    method PassedParameters() returns (passed: map<string, ConfigValue>)
      ensures parameters.None? ==> passed == map[]
      ensures forall n :: n in passed <==> parameters.Some? && n in parameters.value && IsParameterName(n)
      ensures forall n :: n in passed ==> passed[n] == parameters.value[n]
    {
      passed := map[];
      if parameters.None? {
        return;
      }
      var all := parameters.value;
      var remaining := all.Keys;
      while remaining != {}
        invariant remaining <= all.Keys
        invariant forall n :: n in passed <==> n in all && n !in remaining && IsParameterName(n)
        invariant forall n :: n in passed ==> passed[n] == all[n]
        decreases remaining
      {
        var name :| name in remaining;
        if IsParameterName(name) {
          passed := passed[name := all[name]];
        }
        remaining := remaining - {name};
      }
    }

    /**
     * `load(source, localCacheKey, attributes)`: take the cached stylesheet
     * if it is recent enough; if the field is still empty, compile, store
     * the result with the current last-modified time, or fail with an
     * exception that names the source's text, which for a URL is not the
     * key.
     */
    method LoadCached(localCacheKey: string, sourceText: string, compiled: Option<Templates>) returns (outcome: Outcome)
      requires Valid()
      modifies this`templates, cache
      ensures Valid()
      ensures CacheStep(old(templates), lastModified, localCacheKey, compiled, old(cache.entries),
                        templates, cache.entries, outcome, XsltFailure(sourceText))
    {
      var contains := cache.ContainsKey(Some(localCacheKey));
      if contains.value {
        var cacheEntry := cache.Get(Some(localCacheKey));
        assert cacheEntry.value == Find(cache.entries, localCacheKey);
        if cacheEntry.value.value.lastModified >= lastModified {
          templates := Some(cacheEntry.value.value.value);
        }
      }
      if templates.None? {
        if compiled.None? {
          return Fail(XsltFailure(sourceText));
        }
        templates := compiled;
        outcome := cache.Put(Some(localCacheKey), ValidityValue(compiled.value, lastModified));
        return;
      }
      return Pass;
    }

    /** `load(Source, lastModified, attributes)`: a `null` source is an `IllegalArgumentException`; the key is the source's `toString`. */
    method LoadSource(source: Option<string>, lastModified: int, compiled: Option<Templates>) returns (outcome: Outcome)
      requires Valid()
      modifies this`source, this`lastModified, this`templates, cache
      ensures Valid()
      ensures source.None? ==>
        (outcome == Fail(IllegalArgument(XSLT_NULL_MESSAGE)) && this.source == old(this.source)
         && this.lastModified == old(this.lastModified) && templates == old(templates) && cache.entries == old(cache.entries))
      ensures source.Some? ==>
        (this.source == source && this.lastModified == lastModified
         && CacheStep(old(templates), lastModified, source.value, compiled, old(cache.entries),
                      templates, cache.entries, outcome, XsltFailure(source.value)))
    {
      if source.None? {
        return Fail(IllegalArgument(XSLT_NULL_MESSAGE));
      }
      this.source := source;
      this.lastModified := lastModified;
      outcome := LoadCached(source.value, source.value, compiled);
    }

    /**
     * `load(URL, attributes)`: a `null` URL is an `IllegalArgumentException`;
     * the last-modified time is looked up for the URL, whose external form
     * is the key.
     */
    method LoadUrl(url: Option<string>, lastModifiedOf: string -> int, streamSourceId: string, compiled: Option<Templates>)
      returns (outcome: Outcome)
      requires Valid()
      modifies this`url, this`lastModified, this`templates, cache
      ensures Valid()
      ensures url.None? ==>
        (outcome == Fail(IllegalArgument(XSLT_NULL_MESSAGE)) && this.url == old(this.url)
         && lastModified == old(lastModified) && templates == old(templates) && cache.entries == old(cache.entries))
      ensures url.Some? ==>
        (this.url == url && lastModified == lastModifiedOf(url.value)
         && CacheStep(old(templates), lastModified, url.value, compiled, old(cache.entries),
                      templates, cache.entries, outcome, XsltFailure(StreamSourceText(streamSourceId))))
    {
      if url.None? {
        return Fail(IllegalArgument(XSLT_NULL_MESSAGE));
      }
      this.url := url;
      lastModified := lastModifiedOf(url.value);
      outcome := LoadCached(url.value, StreamSourceText(streamSourceId), compiled);
    }

    /**
     * `setConfiguration`: a `source` entry that is not a URL is a
     * `SetupException` and changes nothing; otherwise the URL (or `null`,
     * when there is no entry) is stored and, when there is one, loaded.
     * After a successful load, or without a URL, the whole configuration
     * becomes the parameters.
     */
    method SetConfiguration(configuration: map<string, ConfigValue>, lastModifiedOf: string -> int, streamSourceId: string,
                            compiled: Option<Templates>)
      returns (outcome: Outcome)
      requires Valid()
      modifies this, cache
      ensures Valid()
      ensures SOURCE in configuration && configuration[SOURCE].Value? ==>
        (outcome == Fail(Exception.Setup(CAST_MESSAGE)) && unchanged(this) && cache.entries == old(cache.entries))
      ensures SOURCE !in configuration ==>
        (outcome == Pass && url.None? && parameters == Some(configuration) && cache.entries == old(cache.entries)
         && templates == old(templates) && lastModified == old(lastModified) && source == old(source))
      ensures SOURCE in configuration && configuration[SOURCE].UrlValue? ==>
        (var u := configuration[SOURCE].url;
         url == Some(u) && lastModified == lastModifiedOf(u) && source == old(source)
         && parameters == (if outcome.Pass? then Some(configuration) else old(parameters))
         && CacheStep(old(templates), lastModified, u, compiled, old(cache.entries),
                      templates, cache.entries, outcome, XsltFailure(StreamSourceText(streamSourceId))))
    {
      if SOURCE in configuration && configuration[SOURCE].Value? {
        return Fail(Exception.Setup(CAST_MESSAGE));
      }
      url := if SOURCE in configuration then Some(configuration[SOURCE].url) else None;
      if url.Some? {
        outcome := LoadUrl(url, lastModifiedOf, streamSourceId, compiled);
        if outcome.Fail? {
          return;
        }
      }
      SetParameters(Some(configuration));
      return Pass;
    }
  }

  /** `new XSLTTransformer(source, lastModified, attributes)`: the empty transformer, then `load`. */
  method NewXSLTTransformerFromSource(cache: InMemoryLRUResourceCache<Templates>, source: Option<string>, lastModified: int,
                                      compiled: Option<Templates>)
    returns (t: XSLTTransformer, outcome: Outcome)
    requires cache.Valid()
    modifies cache
    ensures fresh(t) && t.Valid() && t.cache == cache && t.url.None? && t.parameters.None?
    ensures source.None? ==> outcome == Fail(IllegalArgument(XSLT_NULL_MESSAGE)) && cache.entries == old(cache.entries)
    ensures source.Some? ==>
      (t.source == source && t.lastModified == lastModified
       && CacheStep(None, lastModified, source.value, compiled, old(cache.entries),
                    t.templates, cache.entries, outcome, XsltFailure(source.value)))
  {
    t := new XSLTTransformer(cache);
    outcome := t.LoadSource(source, lastModified, compiled);
  }

  /** `new XSLTTransformer(url, attributes)`: the empty transformer, then `load`. */
  method NewXSLTTransformerFromUrl(cache: InMemoryLRUResourceCache<Templates>, url: Option<string>, lastModifiedOf: string -> int,
                                   streamSourceId: string, compiled: Option<Templates>)
    returns (t: XSLTTransformer, outcome: Outcome)
    requires cache.Valid()
    modifies cache
    ensures fresh(t) && t.Valid() && t.cache == cache && t.source.None? && t.parameters.None?
    ensures url.None? ==> outcome == Fail(IllegalArgument(XSLT_NULL_MESSAGE)) && cache.entries == old(cache.entries)
    ensures url.Some? ==>
      (t.url == url && t.lastModified == lastModifiedOf(url.value)
       && CacheStep(None, t.lastModified, url.value, compiled, old(cache.entries),
                    t.templates, cache.entries, outcome, XsltFailure(StreamSourceText(streamSourceId))))
  {
    t := new XSLTTransformer(cache);
    outcome := t.LoadUrl(url, lastModifiedOf, streamSourceId, compiled);
  }

  // ---------------------------------------------------------------------
  // SchemaProcessorTransformer
  // ---------------------------------------------------------------------

  class SchemaProcessorTransformer {
    var schema: Option<Schema>
    var url: Option<string>
    var lastModified: int
    var source: Option<string>
    /** `SCHEMA_CACHE`, shared by every transformer given the same object. */
    const cache: InMemoryLRUResourceCache<Schema>

    ghost predicate Valid()
      reads this, cache
    {
      cache.Valid()
    }

    function Origin(): Origin
      reads this
    {
      ResourceOrigin(url, source, lastModified)
    }

    constructor (cache: InMemoryLRUResourceCache<Schema>)
      requires cache.Valid()
      ensures Valid() && this.cache == cache
      ensures schema.None? && url.None? && source.None? && lastModified == 0
    {
      this.cache := cache;
      schema := None;
      url := None;
      source := None;
      lastModified := 0;
    }

    /** `constructCacheKey`: the timestamp key alone. */
    function ConstructCacheKey(): (r: Result<CacheKey>)
      reads this
      ensures r == TimestampKey(Origin(), "SchemaProcessorTransformer")
    {
      assert "SchemaProcessorTransformer" + " has no source." == "SchemaProcessorTransformer has no source.";
      if url.None? && source.None? then Err(Exception.Setup("SchemaProcessorTransformer has no source."))
      else if url.Some? then Ok(TimestampURL(url.value, lastModified))
      else Ok(TimestampSource(source.value, lastModified))
    }

    /** `load(source, localCacheKey)`: the cache rule of the XSLT transformer, for schemas. */
    method LoadCached(localCacheKey: string, sourceText: string, compiled: Option<Schema>) returns (outcome: Outcome)
      requires Valid()
      modifies this`schema, cache
      ensures Valid()
      ensures CacheStep(old(schema), lastModified, localCacheKey, compiled, old(cache.entries),
                        schema, cache.entries, outcome, SchemaFailure(sourceText))
    {
      var contains := cache.ContainsKey(Some(localCacheKey));
      if contains.value {
        var cacheEntry := cache.Get(Some(localCacheKey));
        assert cacheEntry.value == Find(cache.entries, localCacheKey);
        if cacheEntry.value.value.lastModified >= lastModified {
          schema := Some(cacheEntry.value.value.value);
        }
      }
      if schema.None? {
        if compiled.None? {
          return Fail(SchemaFailure(sourceText));
        }
        schema := compiled;
        outcome := cache.Put(Some(localCacheKey), ValidityValue(compiled.value, lastModified));
        return;
      }
      return Pass;
    }

    /** `load(Source, lastModified)`: a `null` source is an `IllegalArgumentException`. */
    method LoadSource(source: Option<string>, lastModified: int, compiled: Option<Schema>) returns (outcome: Outcome)
      requires Valid()
      modifies this`source, this`lastModified, this`schema, cache
      ensures Valid()
      ensures source.None? ==>
        (outcome == Fail(IllegalArgument(SCHEMA_NULL_SOURCE_MESSAGE)) && this.source == old(this.source)
         && this.lastModified == old(this.lastModified) && schema == old(schema) && cache.entries == old(cache.entries))
      ensures source.Some? ==>
        (this.source == source && this.lastModified == lastModified
         && CacheStep(old(schema), lastModified, source.value, compiled, old(cache.entries),
                      schema, cache.entries, outcome, SchemaFailure(source.value)))
    {
      if source.None? {
        return Fail(IllegalArgument(SCHEMA_NULL_SOURCE_MESSAGE));
      }
      this.source := source;
      this.lastModified := lastModified;
      outcome := LoadCached(source.value, source.value, compiled);
    }

    /** `load(URL)`: a `null` URL is an `IllegalArgumentException`. */
    method LoadUrl(url: Option<string>, lastModifiedOf: string -> int, streamSourceId: string, compiled: Option<Schema>)
      returns (outcome: Outcome)
      requires Valid()
      modifies this`url, this`lastModified, this`schema, cache
      ensures Valid()
      ensures url.None? ==>
        (outcome == Fail(IllegalArgument(SCHEMA_NULL_URL_MESSAGE)) && this.url == old(this.url)
         && lastModified == old(lastModified) && schema == old(schema) && cache.entries == old(cache.entries))
      ensures url.Some? ==>
        (this.url == url && lastModified == lastModifiedOf(url.value)
         && CacheStep(old(schema), lastModified, url.value, compiled, old(cache.entries),
                      schema, cache.entries, outcome, SchemaFailure(StreamSourceText(streamSourceId))))
    {
      if url.None? {
        return Fail(IllegalArgument(SCHEMA_NULL_URL_MESSAGE));
      }
      this.url := url;
      lastModified := lastModifiedOf(url.value);
      outcome := LoadCached(url.value, StreamSourceText(streamSourceId), compiled);
    }

    /**
     * `setConfiguration`: a `source` entry that is not a URL is a
     * `SetupException`; a missing one is `load(null)`, an
     * `IllegalArgumentException`; a URL is loaded.
     */
    method SetConfiguration(configuration: map<string, ConfigValue>, lastModifiedOf: string -> int, streamSourceId: string,
                            compiled: Option<Schema>)
      returns (outcome: Outcome)
      requires Valid()
      modifies this, cache
      ensures Valid()
      ensures SOURCE in configuration && configuration[SOURCE].Value? ==>
        (outcome == Fail(Exception.Setup(CAST_MESSAGE)) && unchanged(this) && cache.entries == old(cache.entries))
      ensures SOURCE !in configuration ==>
        (outcome == Fail(IllegalArgument(SCHEMA_NULL_URL_MESSAGE)) && unchanged(this) && cache.entries == old(cache.entries))
      ensures SOURCE in configuration && configuration[SOURCE].UrlValue? ==>
        (var u := configuration[SOURCE].url;
         url == Some(u) && lastModified == lastModifiedOf(u) && source == old(source)
         && CacheStep(old(schema), lastModified, u, compiled, old(cache.entries),
                      schema, cache.entries, outcome, SchemaFailure(StreamSourceText(streamSourceId))))
    {
      if SOURCE in configuration && configuration[SOURCE].Value? {
        return Fail(Exception.Setup(CAST_MESSAGE));
      }
      var u := if SOURCE in configuration then Some(configuration[SOURCE].url) else None;
      outcome := LoadUrl(u, lastModifiedOf, streamSourceId, compiled);
    }
  }

  /** `new SchemaProcessorTransformer(source, lastModified)`: the empty transformer, then `load`. */
  method NewSchemaProcessorTransformerFromSource(cache: InMemoryLRUResourceCache<Schema>, source: Option<string>, lastModified: int,
                                                 compiled: Option<Schema>)
    returns (t: SchemaProcessorTransformer, outcome: Outcome)
    requires cache.Valid()
    modifies cache
    ensures fresh(t) && t.Valid() && t.cache == cache && t.url.None?
    ensures source.None? ==> outcome == Fail(IllegalArgument(SCHEMA_NULL_SOURCE_MESSAGE)) && cache.entries == old(cache.entries)
    ensures source.Some? ==>
      (t.source == source && t.lastModified == lastModified
       && CacheStep(None, lastModified, source.value, compiled, old(cache.entries),
                    t.schema, cache.entries, outcome, SchemaFailure(source.value)))
  {
    t := new SchemaProcessorTransformer(cache);
    outcome := t.LoadSource(source, lastModified, compiled);
  }

  /** `new SchemaProcessorTransformer(url)`: the empty transformer, then `load`. */
  method NewSchemaProcessorTransformerFromUrl(cache: InMemoryLRUResourceCache<Schema>, url: Option<string>, lastModifiedOf: string -> int,
                                              streamSourceId: string, compiled: Option<Schema>)
    returns (t: SchemaProcessorTransformer, outcome: Outcome)
    requires cache.Valid()
    modifies cache
    ensures fresh(t) && t.Valid() && t.cache == cache && t.source.None?
    ensures url.None? ==> outcome == Fail(IllegalArgument(SCHEMA_NULL_URL_MESSAGE)) && cache.entries == old(cache.entries)
    ensures url.Some? ==>
      (t.url == url && t.lastModified == lastModifiedOf(url.value)
       && CacheStep(None, t.lastModified, url.value, compiled, old(cache.entries),
                    t.schema, cache.entries, outcome, SchemaFailure(StreamSourceText(streamSourceId))))
  {
    t := new SchemaProcessorTransformer(cache);
    outcome := t.LoadUrl(url, lastModifiedOf, streamSourceId, compiled);
  }
}
