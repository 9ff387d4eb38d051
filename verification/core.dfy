/** The backend's infrastructure in apx-app/src/sobeys_scctower/backend/core.py:
    the settings object, the SQL helper with its in-memory TTL cache, the
    single-page-app 404 fallback and the cache-control choice for static files. */
module Core {
  import opened Wrappers
  import opened Text

  // ---------------------------------------------------------------- Config

  /** The application settings. `appName` defaults to a value from a metadata
      module that is not part of this model, so it is a plain field here. */
  datatype AppConfig = AppConfig(
    appName: string,
    catalog: string,
    schemaName: string,
    warehouseId: string,
    chatEndpoint: string,
    chatModel: string,
    generalModel: string)
  {
    /** The two-part name `catalog.schema` that every query is written against. */
    function FullSchema(): (r: string)
      ensures |r| == |catalog| + 1 + |schemaName|
      ensures r[..|catalog|] == catalog && r[|catalog|] == '.' && r[|catalog| + 1..] == schemaName
    {
      catalog + "." + schemaName
    }
  }

  /** The defaults the settings class declares. */
  function DefaultConfig(appName: string): AppConfig {
    AppConfig(
      appName,
      "snowflake_retail_consumer_goods",
      "supply_chain_control_tower",
      "b9771bcf4a3a5399",
      "https://adb-7405613286317055.15.azuredatabricks.net/serving-endpoints",
      "mas-5fba20e2-endpoint",
      "databricks-gpt-5-1")
  }

  /** Index of the first `c` in `s`, or `|s|` when there is none. */
  function FirstIndexOf(s: string, c: char): (i: nat)
    ensures i <= |s|
    ensures forall j :: 0 <= j < i ==> s[j] != c
    ensures i < |s| ==> s[i] == c
  {
    if |s| == 0 || s[0] == c then 0 else 1 + FirstIndexOf(s[1..], c)
  }

  /** Splits a qualified name at its first dot into (catalog, rest). */
  function SplitQualified(s: string): (string, string) {
    var i := FirstIndexOf(s, '.');
    if i < |s| then (s[..i], s[i + 1..]) else (s, "")
  }

  /** When the catalog holds no dot, the qualified schema name splits back
      into exactly the catalog and the schema it was built from. */
  lemma FullSchemaSplits(config: AppConfig)
    requires '.' !in config.catalog
    ensures SplitQualified(config.FullSchema()) == (config.catalog, config.schemaName)
  {
    var r := config.FullSchema();
    var n := |config.catalog|;
    assert forall j :: 0 <= j < n ==> r[j] == config.catalog[j];
    assert r[n] == '.';
  }

  // ---------------------------------------------------------------- SQL helper with TTL cache

  /** One cell of a statement result as the SQL API hands it over: text or null. */
  datatype Cell = Null | Str(s: string)

  /** One result row: column name to cell. */
  type Row = map<string, Cell>

  /** The statement states the SQL API reports. */
  datatype StatementState = Pending | Running | Succeeded | Failed | Canceled | Closed

  /** What the warehouse answers for one statement. `state` is None when the
      response carries no status; `columns` is None without a manifest; `data`
      is None when there is no result or no data array. `CallRaised` stands
      for a call to the statement API that raised (authentication, network),
      an exception the helper lets through. */
  datatype StatementResponse =
    | StatementResponse(
        state: Option<StatementState>,
        columns: Option<seq<string>>,
        data: Option<seq<seq<Cell>>>)
    | CallRaised

  /** The statement ran and reported success. */
  predicate RanToSuccess(response: StatementResponse) {
    response.StatementResponse? && response.state == Some(Succeeded)
  }

  /** The response carries a manifest and a non-empty data array. */
  predicate HasData(response: StatementResponse) {
    response.StatementResponse? && response.columns.Some? && response.data.Some? && |response.data.value| > 0
  }

  /** A cached result and the clock reading at which it was stored. */
  datatype CacheEntry = CacheEntry(cachedAt: real, rows: seq<Row>)

  type SqlCache = map<string, CacheEntry>

  /** Default freshness window of the cache, in seconds. */
  const SqlCacheTtl: int := 300

  /** What one call of the SQL helper yields: the rows it returns, the cache
      after the call, whether it sent the statement to the warehouse, and
      whether that call raised (then `rows` is empty and means nothing). */
  datatype SqlOutcome = SqlOutcome(rows: seq<Row>, cache: SqlCache, executed: bool, raised: bool)

  /** The cache key of a query: its text without surrounding whitespace. */
  function CacheKey(query: string): string {
    Strip(query)
  }

  /** An entry exists for the key and is younger than the TTL at `now`. */
  predicate IsFresh(cache: SqlCache, key: string, now: real, ttl: int) {
    key in cache && now - cache[key].cachedAt < ttl as real
  }

  /** Position `j` holds the last occurrence of its column name. */
  predicate IsLastPosition(columns: seq<string>, j: int)
    requires 0 <= j < |columns|
  {
    forall k :: j < k < |columns| ==> columns[k] != columns[j]
  }

  /** Builds a row from equally long column and value lists, later pairs
      overwriting earlier ones as Python's `dict` does. */
  function ZipPairs(columns: seq<string>, values: seq<Cell>): (r: Row)
    requires |columns| == |values|
    ensures forall j :: 0 <= j < |columns| ==> columns[j] in r
    ensures forall k :: k in r ==> k in columns
  {
    if |columns| == 0 then map[]
    else
      var n := |columns| - 1;
      assert forall j :: 0 <= j < n ==> columns[..n][j] == columns[j];
      ZipPairs(columns[..n], values[..n])[columns[n] := values[n]]
  }

  /** Each column name carries the value paired with its last occurrence. */
  lemma {:induction false} ZipPairsLastWins(columns: seq<string>, values: seq<Cell>, j: int)
    requires |columns| == |values|
    requires 0 <= j < |columns| && IsLastPosition(columns, j)
    ensures ZipPairs(columns, values)[columns[j]] == values[j]
  {
    var n := |columns| - 1;
    if j < n {
      assert columns[j] != columns[n];
      assert columns[..n][j] == columns[j] && values[..n][j] == values[j];
      assert IsLastPosition(columns[..n], j);
      ZipPairsLastWins(columns[..n], values[..n], j);
    }
  }

  /** Python's `dict(zip(columns, values))`: pairs the two lists position by
      position and stops at the shorter one. */
  function ZipRow(columns: seq<string>, values: seq<Cell>): Row {
    var n := if |columns| < |values| then |columns| else |values|;
    ZipPairs(columns[..n], values[..n])
  }

  /** With distinct column names and one value per column, each row maps
      every column to the value at its own position and has no other keys. */
  lemma ZipRowPositional(columns: seq<string>, values: seq<Cell>, j: int)
    requires |columns| == |values|
    requires forall a, b :: 0 <= a < b < |columns| ==> columns[a] != columns[b]
    requires 0 <= j < |columns|
    ensures ZipRow(columns, values)[columns[j]] == values[j]
    ensures forall k :: k in ZipRow(columns, values) ==> k in columns
  {
    assert columns[..|columns|] == columns && values[..|values|] == values;
    ZipPairsLastWins(columns, values, j);
  }

  /** The rows the helper builds from a successful response. */
  function ResultRows(response: StatementResponse): (rows: seq<Row>)
    ensures response.StatementResponse? && response.columns.Some? && response.data.Some?
            ==> |rows| == |response.data.value|
                && forall i :: 0 <= i < |rows| ==> rows[i] == ZipRow(response.columns.value, response.data.value[i])
    ensures response.CallRaised? || response.columns.None? || response.data.None? ==> rows == []
  {
    if response.StatementResponse? && response.columns.Some? && response.data.Some? then
      var columns := response.columns.value;
      seq(|response.data.value|, i requires 0 <= i < |response.data.value| => ZipRow(columns, response.data.value[i]))
    else []
  }

  /** `execute_sql` once the key is known. */
  function ExecuteForKey(cache: SqlCache, key: string, now: real, ttl: int, response: StatementResponse): SqlOutcome {
    if IsFresh(cache, key, now, ttl) then
      SqlOutcome(cache[key].rows, cache, false, false)
    else if response.CallRaised? then
      SqlOutcome([], cache, true, true)
    else if response.state != Some(Succeeded) then
      SqlOutcome([], cache, true, false)
    else if response.columns.Some? && response.data.Some? && |response.data.value| > 0 then
      var rows := ResultRows(response);
      SqlOutcome(rows, cache[key := CacheEntry(now, rows)], true, false)
    else
      SqlOutcome([], cache[key := CacheEntry(now, [])], true, false)
  }

  /** `execute_sql`: answers from the cache while an entry is fresh, otherwise
      runs the statement (the warehouse's answer is `response`); a failed
      statement yields no rows and is not cached, a successful one is cached at
      `now`, even when it returned no data; a call that raises passes the
      exception on and leaves the cache as it was. */
  function ExecuteSql(cache: SqlCache, query: string, now: real, ttl: int, response: StatementResponse): (r: SqlOutcome)
    ensures IsFresh(cache, CacheKey(query), now, ttl)
            ==> !r.executed && !r.raised && r.cache == cache && r.rows == cache[CacheKey(query)].rows
    ensures !IsFresh(cache, CacheKey(query), now, ttl) ==> r.executed
    ensures r.raised <==> r.executed && response.CallRaised?
    ensures r.raised ==> r.cache == cache
    ensures r.executed && !RanToSuccess(response) ==> r.rows == [] && r.cache == cache
    ensures r.executed && RanToSuccess(response)
            ==> r.cache == cache[CacheKey(query) := CacheEntry(now, r.rows)]
    ensures r.executed && RanToSuccess(response) && HasData(response) ==> r.rows == ResultRows(response)
    ensures r.executed && RanToSuccess(response) && !HasData(response) ==> r.rows == []
  {
    ExecuteForKey(cache, CacheKey(query), now, ttl, response)
  }

  /** A statement that ran successfully is answered from the cache, without
      running it again, by any call for the same key within the TTL, whatever
      the warehouse would now answer. This holds for empty results too. */
  lemma RepeatWithinTtlIsHit(cache: SqlCache, query: string, again: string, t1: real, t2: real,
                             ttl: int, first: StatementResponse, second: StatementResponse)
    requires !IsFresh(cache, CacheKey(query), t1, ttl)
    requires RanToSuccess(first)
    requires CacheKey(again) == CacheKey(query)
    requires t1 <= t2 < t1 + ttl as real
    ensures var r1 := ExecuteSql(cache, query, t1, ttl, first);
            var r2 := ExecuteSql(r1.cache, again, t2, ttl, second);
            !r2.executed && r2.rows == r1.rows && r2.cache == r1.cache
  {
    var key := CacheKey(query);
    var r1 := ExecuteSql(cache, query, t1, ttl, first);
    assert r1.cache == cache[key := CacheEntry(t1, r1.rows)];
    assert IsFresh(r1.cache, CacheKey(again), t2, ttl);
  }

  /** A failed statement, or a call that raised, leaves nothing behind: a
      later call for the same key sends the statement again unless an older
      entry is still fresh. */
  lemma FailureIsRetried(cache: SqlCache, query: string, t1: real, t2: real, ttl: int,
                         first: StatementResponse, second: StatementResponse)
    requires !RanToSuccess(first)
    requires !IsFresh(cache, CacheKey(query), t1, ttl)
    requires !IsFresh(cache, CacheKey(query), t2, ttl)
    ensures var r1 := ExecuteSql(cache, query, t1, ttl, first);
            r1.rows == [] && r1.cache == cache && ExecuteSql(r1.cache, query, t2, ttl, second).executed
  {
  }

  /** Queries that differ only in outer whitespace share one cache entry, so
      the helper behaves identically for both. */
  lemma OuterWhitespaceSharesEntry(cache: SqlCache, lead: string, query: string, trail: string,
                                   now: real, ttl: int, response: StatementResponse)
    requires IsBlank(lead) && IsBlank(trail)
    ensures ExecuteSql(cache, lead + query + trail, now, ttl, response) == ExecuteSql(cache, query, now, ttl, response)
  {
    StripIgnoresOuterBlanks(lead, query, trail);
    assert CacheKey(lead + query + trail) == CacheKey(query);
  }

  /** The cache never loses keys and only the queried key can change. */
  lemma ExecuteSqlTouchesOnlyItsKey(cache: SqlCache, query: string, now: real, ttl: int, response: StatementResponse)
    ensures var r := ExecuteSql(cache, query, now, ttl, response);
            cache.Keys <= r.cache.Keys
            && forall k :: k in cache && k != CacheKey(query) ==> r.cache[k] == cache[k]
  {
  }

  // ---------------------------------------------------------------- HTTP responses

  /** An HTTP response as far as the handlers touch it; header names are kept
      in lower case, as the server framework normalises them. */
  datatype HttpResponse = HttpResponse(status: int, headers: map<string, string>, body: string)

  // ---------------------------------------------------------------- 404 fallback

  /** What the HTTP exception handler answers: the single-page app's
      `index.html`, or a JSON error carrying the original status. */
  datatype ErrorReply = IndexHtml | JsonError(status: int, detail: string)

  /** Python's `path.split("/")[-1]`: the text after the last slash. */
  function LastSegment(path: string): (r: string)
    ensures '/' !in r
    ensures |r| <= |path| && r == path[|path| - |r|..]
    ensures |r| < |path| ==> path[|path| - |r| - 1] == '/'
  {
    if |path| == 0 then ""
    else if path[|path| - 1] == '/' then ""
    else LastSegment(path[..|path| - 1]) + [path[|path| - 1]]
  }

  /** The last segment of `dir/name` is `name` whenever `name` has no slash. */
  lemma {:induction false} LastSegmentOfJoin(dir: string, name: string)
    requires '/' !in name
    ensures LastSegment(dir + "/" + name) == name
  {
    if |name| > 0 {
      var p := dir + "/" + name;
      var n := |name| - 1;
      assert p[..|p| - 1] == dir + "/" + name[..n];
      assert p[|p| - 1] == name[n];
      LastSegmentOfJoin(dir, name[..n]);
      assert name[..n] + [name[n]] == name;
    } else {
      assert dir + "/" + name == dir + "/";
    }
  }

  /** `_add_not_found_handler`: a 404 for a browser page navigation (GET,
      accepts HTML, outside the API prefix, last path segment without a dot)
      is answered with `index.html` so the client-side router can take over;
      every other error is returned as JSON with its own status. `accept` is
      None when the request has no Accept header. */
  function HandleHttpError(status: int, detail: string, verb: string, path: string,
                           accept: Option<string>, apiPrefix: string): (r: ErrorReply)
    ensures r == IndexHtml
            <==> && status == 404
                 && !StartsWith(path, apiPrefix)
                 && verb == "GET"
                 && Contains(accept.GetOr(""), "text/html")
                 && '.' !in LastSegment(path)
    ensures r != IndexHtml ==> r == JsonError(status, detail)
  {
    if status == 404 then
      var isApi := StartsWith(path, apiPrefix);
      var isPageNavigation := verb == "GET" && Contains(accept.GetOr(""), "text/html");
      var looksLikeAsset := '.' in LastSegment(path);
      if !isApi && isPageNavigation && !looksLikeAsset then IndexHtml
      else JsonError(status, detail)
    else JsonError(status, detail)
  }

  /** A missing file whose name has an extension is always reported as a JSON
      404, even for a browser navigation: the app shell never stands in for an asset. */
  lemma MissingAssetIsJson404(detail: string, verb: string, dir: string, name: string,
                              accept: Option<string>, apiPrefix: string)
    requires '/' !in name && '.' in name
    ensures HandleHttpError(404, detail, verb, dir + "/" + name, accept, apiPrefix) == JsonError(404, detail)
  {
    LastSegmentOfJoin(dir, name);
  }

  /** A deep link outside the API, requested by a browser, gets the app shell. */
  lemma DeepLinkGetsIndex(detail: string, dir: string, name: string, pre: string, post: string, apiPrefix: string)
    requires '/' !in name && '.' !in name
    requires !StartsWith(dir + "/" + name, apiPrefix)
    ensures HandleHttpError(404, detail, "GET", dir + "/" + name, Some(pre + "text/html" + post), apiPrefix) == IndexHtml
  {
    LastSegmentOfJoin(dir, name);
    assert StartsWith("text/html", "text/html");
    ContainsInContext(pre, "text/html", post, "text/html");
  }

  // ---------------------------------------------------------------- Static files

  const ImmutableCacheControl: string := "public, max-age=31536000, immutable"
  const NoCacheControl: string := "no-cache"

  /** The headers a 304 Not Modified reply keeps from the full file response. */
  const NotModifiedHeaders: set<string> := {"cache-control", "content-location", "date", "etag", "expires", "vary"}

  /** The cache-control value `CachedStaticFiles.file_response` gives a file:
      fingerprinted build output under `/assets/` is cached for a year,
      everything else (notably `index.html`) must be revalidated. */
  function StaticCacheControl(fullPath: string): (r: string)
    ensures r == ImmutableCacheControl <==> Contains(fullPath, "/assets/")
    ensures r == NoCacheControl <==> !Contains(fullPath, "/assets/")
  {
    if Contains(fullPath, "/assets/") then ImmutableCacheControl else NoCacheControl
  }

  /** `CachedStaticFiles.file_response`: the file response with its
      cache-control header set; when the request's validators show the client
      copy is current (`notModified`) the reply is a 304 that keeps only the
      validator and caching headers. `fileHeaders` are the other headers the
      file response carries. */
  function StaticFileResponse(fullPath: string, status: int, fileHeaders: map<string, string>,
                              body: string, notModified: bool): (r: HttpResponse)
    ensures "cache-control" in r.headers && r.headers["cache-control"] == StaticCacheControl(fullPath)
    ensures !notModified ==> (r.status == status && r.body == body
                             && r.headers == fileHeaders["cache-control" := StaticCacheControl(fullPath)])
    ensures notModified ==> r.status == 304 && r.body == "" && r.headers.Keys <= NotModifiedHeaders
    ensures notModified ==> forall k :: k in r.headers && k != "cache-control" ==> k in fileHeaders && r.headers[k] == fileHeaders[k]
    ensures notModified ==> forall k :: k in fileHeaders && k in NotModifiedHeaders ==> k in r.headers
  {
    var headers := fileHeaders["cache-control" := StaticCacheControl(fullPath)];
    if notModified then
      HttpResponse(304, map k | k in headers && k in NotModifiedHeaders :: headers[k], "")
    else
      HttpResponse(status, headers, body)
  }
}
