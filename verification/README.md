# Supply-chain control tower: a Dafny model of its decision rules

The control tower is a web application plus two Databricks scripts. The
application has a FastAPI backend that answers dashboard queries against a
SQL warehouse and proxies a chat with a supervisor agent. One script
recreates that supervisor agent in a workspace. The other trains, and
serves, a demand-forecast model. This project models the parts of them
that make decisions of their own. Everything they delegate is a parameter:
warehouse answers, HTTP replies and transport failures, the token
sources, clocks, the regressor, the date parser and the MD5 digest.

- `wrappers.dfy` (`Wrappers`): `Option` and `Result`.
- `text.dfy` (`Text`): the Python string operations the code relies on:
  - `strip()` with the full `isspace` set;
  - `startswith` and the substring test `in`;
  - `lower()`;
  - the decimal rendering of an integer in an f-string.
- `core.py`, modelled in `core.dfy` (`Core`):
  - the settings' `full_schema`;
  - `execute_sql` with its in-memory TTL cache;
  - the single-page-app 404 fallback;
  - the cache-control choice for static files.
- `app.dfy` (`App`): the `Cache-Control` middleware of `app.py`.
- `router.py`, modelled in two modules:
  - `chat.dfy` (`Chat`): the chat task store, its five-minute cleanup, `start_chat`, `poll_chat`, and the background worker with its answer extraction;
  - `dashboard.dfy` (`Dashboard`): `_schema`, the OTIF card derived from the fill-rate card, and the supplier performance list.
- `supervisor.dfy` (`Supervisor`): `recreate_mas_supervisor.py`, which runs validate, then build the agent list, then create, then wait for ONLINE.
- `forecast.dfy` (`Forecast`): the inference half of `demand_forecast_train.py`:
  - the keyword-priority weather multiplier;
  - the per-row feature encoding and its fallbacks;
  - the weekday shift;
  - the clamp at zero.

Timestamps are `real` seconds. Weather multipliers are integer hundredths:
55 stands for 0.55. HTTP header names are kept in lower case, since the
server framework treats them case-insensitively.

## Model

| member | source | states |
|---|---|---|
| Core.FullSchemaSplits | apx-app/src/sobeys_scctower/backend/core.py:54-56 | `catalog.schema` splits back at its first dot into exactly the catalog and the schema when the catalog holds no dot |
| Core.ResultRows | apx-app/src/sobeys_scctower/backend/core.py:150-152 | one row per data row, each built by zipping the column names with that row's values; no rows without a manifest or data |
| Core.ZipPairsLastWins | apx-app/src/sobeys_scctower/backend/core.py:152 | `dict(zip(...))` keeps, for a repeated column name, the value of its last occurrence |
| Core.ZipRowPositional | apx-app/src/sobeys_scctower/backend/core.py:152 | with distinct column names every column maps to the value at its own position and no other key appears |
| Core.ExecuteSql | apx-app/src/sobeys_scctower/backend/core.py:121-159 | a fresh entry is returned without running the statement; otherwise it runs; a call that raises passes the exception on and leaves the cache alone; a failed statement yields no rows and leaves the cache alone; a successful one is cached at `now` with the zipped rows, or with no rows when there is no data |
| Core.RepeatWithinTtlIsHit | apx-app/src/sobeys_scctower/backend/core.py:129-159 | after a successful run, any call with the same key within the TTL is a hit with the same rows, even for an empty result |
| Core.FailureIsRetried | apx-app/src/sobeys_scctower/backend/core.py:138-148 | a failed statement, or a call that raised, is not cached, so the next call with no fresh entry runs it again |
| Core.OuterWhitespaceSharesEntry | apx-app/src/sobeys_scctower/backend/core.py:125 | queries that differ only in surrounding whitespace behave identically, cache included |
| Core.ExecuteSqlTouchesOnlyItsKey | apx-app/src/sobeys_scctower/backend/core.py:154-158 | the cache never loses a key and no entry but the query's own changes |
| Core.LastSegment | apx-app/src/sobeys_scctower/backend/core.py:105 | `path.split("/")[-1]` is the slash-free suffix that follows the last slash |
| Core.LastSegmentOfJoin | apx-app/src/sobeys_scctower/backend/core.py:105 | the last segment of `dir/name` is `name` for a slash-free name |
| Core.HandleHttpError | apx-app/src/sobeys_scctower/backend/core.py:99-108 | `index.html` exactly when the status is 404, the path is outside the API prefix, the method is GET, Accept contains `text/html` and the last segment has no dot; otherwise JSON with the original status and detail |
| Core.MissingAssetIsJson404 | apx-app/src/sobeys_scctower/backend/core.py:105-108 | a missing file whose name has a dot always gets a JSON 404, whatever the request |
| Core.DeepLinkGetsIndex | apx-app/src/sobeys_scctower/backend/core.py:100-107 | a browser navigation to a dot-free path outside the API gets the app shell |
| Core.StaticCacheControl | apx-app/src/sobeys_scctower/backend/core.py:86-89 | the one-year immutable value exactly when the path contains `/assets/`, and `no-cache` exactly when it does not |
| Core.StaticFileResponse | apx-app/src/sobeys_scctower/backend/core.py:75-92 | the file response carries the chosen cache-control; a not-modified reply is a 304 with an empty body that keeps exactly the validator and caching headers the file response had, with their values |
| App.CacheControlDispatch | apx-app/src/sobeys_scctower/backend/app.py:14-21 | a 200 GET under `/api/` whose path lacks `/current-user` gets the two-minute header; every other response is returned unchanged; status, body and all other headers are never changed |
| App.DispatchIdempotent | apx-app/src/sobeys_scctower/backend/app.py:17-20 | passing a response through the middleware twice gives the same result as once |
| App.CurrentUserNeverCached | apx-app/src/sobeys_scctower/backend/app.py:19 | any path with `/current-user` anywhere in it is left untouched |
| App.StaticCacheControlSurvives | apx-app/src/sobeys_scctower/backend/app.py:17-21 | a static file served outside `/api/` keeps the cache-control value the static handler chose |
| Chat.StatusText | apx-app/src/sobeys_scctower/backend/router.py:392-454 | every stored status is one of pending, running, done, error |
| Chat.CleanupOldTasks | apx-app/src/sobeys_scctower/backend/router.py:380-385 | removes exactly the tasks created more than 300 s ago, a missing creation time counting as 0, and leaves every other entry untouched |
| Chat.CleanupMonotone | apx-app/src/sobeys_scctower/backend/router.py:383 | a later cleanup removes everything an earlier one did; cleaning at t1 and then at t2 is cleaning at t2 |
| Chat.StartChat | apx-app/src/sobeys_scctower/backend/router.py:453-455 | cleanup first, then the new id maps to pending, empty response, created now; the reply is pending; other surviving tasks are unchanged |
| Chat.PollChat | apx-app/src/sobeys_scctower/backend/router.py:465-470 | an unknown id is reported as error "Task not found"; a known id reports its stored status and response |
| Chat.PollAfterStartIsPending | apx-app/src/sobeys_scctower/backend/router.py:453-470 | a task polled right after its start is pending with an empty response |
| Chat.AnswerTextNonEmpty | apx-app/src/sobeys_scctower/backend/router.py:416 | a part that passes the `strip()` test carries non-empty text |
| Chat.FirstAnswerFrom | apx-app/src/sobeys_scctower/backend/router.py:415-418 | the text of the first `output_text` part with non-blank text, unstripped; "" exactly when there is none |
| Chat.FirstAnswerText | apx-app/src/sobeys_scctower/backend/router.py:413-418 | within one message, the first answering part wins |
| Chat.LastNonEmpty | apx-app/src/sobeys_scctower/backend/router.py:411-420 | the backward walk returns the last non-empty answer; "" exactly when every answer is empty |
| Chat.ExtractAnswer | apx-app/src/sobeys_scctower/backend/router.py:407-420 | the answer of the last assistant message that offers one; "" exactly when no item offers one |
| Chat.AnswerNeverBlank | apx-app/src/sobeys_scctower/backend/router.py:416-417 | the extracted answer is empty or has a non-whitespace character |
| Chat.WorkerResult | apx-app/src/sobeys_scctower/backend/router.py:401-427 | done exactly for a 200 reply, with the extracted answer; a non-200 reply is an error "MAS returned " followed by the code's canonical decimal rendering (digits only, no leading zero), which reads back to the code; an exception is an error with its message |
| Chat.MarkRunning | apx-app/src/sobeys_scctower/backend/router.py:392 | the worker's first write replaces the whole entry with running, empty response and no creation time |
| Chat.CompleteTask | apx-app/src/sobeys_scctower/backend/router.py:401-427 | the worker's final write records the worker result and drops the creation time; nothing else changes |
| Chat.FinishedTaskLostOnNextStart | apx-app/src/sobeys_scctower/backend/router.py:380-455 | as written, a finished task younger than five minutes is gone after the next start of any chat, and its poll reports "Task not found" |
| Chat.MarkRunningKeepingAge | apx-app/src/sobeys_scctower/backend/router.py:392 | corrected first write: running, keeping the creation time |
| Chat.CompleteTaskKeepingAge | apx-app/src/sobeys_scctower/backend/router.py:422-427 | corrected final write: the worker result, keeping the creation time |
| Chat.FinishedTaskKeptUntilExpiry | apx-app/src/sobeys_scctower/backend/router.py:380-455 | with the corrected writes a finished task polls as done or error with its result for five minutes after creation, and as not found after that |
| Dashboard.Schema | apx-app/src/sobeys_scctower/backend/router.py:36-37 | `_schema` is the catalog, one dot, and the schema name of the settings |
| Dashboard.SchemaSplits | apx-app/src/sobeys_scctower/backend/router.py:36-37 | with a dot-free catalog the prefix splits back into exactly the catalog and the schema |
| Dashboard.FillRateAbsent | apx-app/src/sobeys_scctower/backend/router.py:99-102 | without a fill-rate card there is no fill rate |
| Dashboard.FillRateIsLastCard | apx-app/src/sobeys_scctower/backend/router.py:99-102 | the last fill-rate card decides the fill rate: its value, 95 when it has none, nothing when it is null |
| Dashboard.SetOtif | apx-app/src/sobeys_scctower/backend/router.py:103-106 | with a fill rate, every OTIF card shows it minus 3; without one nothing changes; non-OTIF cards never change |
| Dashboard.DeriveOtif | apx-app/src/sobeys_scctower/backend/router.py:99-106 | the OTIF derivation over the endpoint's fill rate, with the same guarantees |
| Dashboard.FillRatePreserved | apx-app/src/sobeys_scctower/backend/router.py:99-106 | rewriting OTIF cards leaves the fill rate read from the cards unchanged |
| Dashboard.DeriveOtifIdempotent | apx-app/src/sobeys_scctower/backend/router.py:99-106 | deriving OTIF twice equals deriving it once |
| Dashboard.ShapeSuppliers | apx-app/src/sobeys_scctower/backend/router.py:127-138 | one entry per row, in row order, named after the row, with metrics from the fixed table at digest mod 10 |
| Dashboard.SupplierMetricsFromTable | apx-app/src/sobeys_scctower/backend/router.py:115-131 | every supplier gets one of the ten fixed tuples, and equal names get equal entries |
| Dashboard.EnrichSuppliers | apx-app/src/sobeys_scctower/backend/router.py:113-140 | the section is replaced exactly when rows came back and the section exists |
| Supervisor.Lookup | scripts/recreate_mas_supervisor.py:284 | `GENIE_SPACE_IDS[name]` finds a value exactly when the key is present, and the value is paired with that key |
| Supervisor.LookupFindsEntry | scripts/recreate_mas_supervisor.py:73-79 | in a dictionary (no key twice) looking up an entry's key yields that entry's id |
| Supervisor.PlaceholderKeysEmptyIff | scripts/recreate_mas_supervisor.py:254-258 | no key is reported exactly when no id starts with `REPLACE_WITH` |
| Supervisor.PlaceholderKeysExact | scripts/recreate_mas_supervisor.py:254-256 | a key is reported exactly when its id is a placeholder |
| Supervisor.ValidatePrerequisites | scripts/recreate_mas_supervisor.py:249-269 | one error line per placeholder key, in dictionary order; passes exactly when no id is a placeholder |
| Supervisor.AllPlaceholdersReported | scripts/recreate_mas_supervisor.py:254-256 | when every id is a placeholder, every key is reported, in order |
| Supervisor.ShippedIdsFailValidation | scripts/recreate_mas_supervisor.py:73-79 | the ids as shipped report all five keys |
| Supervisor.UcFunction | scripts/recreate_mas_supervisor.py:278 | the function name is exactly catalog, a dot, schema, a dot, name: each segment in place, nothing else |
| Supervisor.AgentFor | scripts/recreate_mas_supervisor.py:281-290 | name and description carried over; a Genie agent gets a Genie space reference to the id stored under its name (a missing key raises), a UC agent a UC function reference to the qualified function name, an MCP agent a connection reference to the configured connection; any other type raises |
| Supervisor.AgentList | scripts/recreate_mas_supervisor.py:275-294 | succeeds exactly when every configuration converts, with one agent per configuration in order; otherwise the first failing configuration's error |
| Supervisor.BuildAgentList | scripts/recreate_mas_supervisor.py:275-294 | the appending loop computes the agent list and stops at the first failure |
| Supervisor.AgentListSnoc | scripts/recreate_mas_supervisor.py:280-292 | one more loop pass appends that configuration's agent, or stops with its error, or keeps an earlier error |
| Supervisor.AgentListStopsAtFailure | scripts/recreate_mas_supervisor.py:280-290 | once a prefix fails, the whole list fails with the same error |
| Supervisor.AgentListComplete | scripts/recreate_mas_supervisor.py:280-294 | known types with all Genie ids present give a full list with names and descriptions in order |
| Supervisor.SupervisorPayload | scripts/recreate_mas_supervisor.py:312-320 | type SUPERVISOR, the configured name, description, instructions and agents, and an `examples` key exactly when there are examples |
| Supervisor.FieldOr | scripts/recreate_mas_supervisor.py:383-384 | `dict.get` gives the default for a missing key and None for an explicit null |
| Supervisor.ReplyError | scripts/recreate_mas_supervisor.py:334-340 | reading a reply raises exactly on a transport failure, a 4xx/5xx status, or a non-JSON body, checked in that order |
| Supervisor.Token | scripts/recreate_mas_supervisor.py:222-236 | the configured token when it is set, otherwise the notebook's token; none (RuntimeError) when neither exists |
| Supervisor.CreateSupervisorAgent | scripts/recreate_mas_supervisor.py:300-341 | nothing is sent when the agent list fails or no token is found, each with its own error; otherwise the request carries `Bearer <token>` and the supervisor payload; it then fails exactly when the reply cannot be read, with the transport or status error; otherwise it returns the body |
| Supervisor.AcceptedReplyIsRead | scripts/recreate_mas_supervisor.py:336-340 | a 202 does not raise; its body is read as the tile |
| Supervisor.WaitOutcome | scripts/recreate_mas_supervisor.py:347-366 | the first poll that is past the deadline, raises, or reads ONLINE or FAILED settles the wait |
| Supervisor.WaitTrueIffOnline | scripts/recreate_mas_supervisor.py:353-366 | the wait reports online exactly when the settling poll came before the deadline, its reply could be read, and it read ONLINE |
| Supervisor.FirstDecisiveSettles | scripts/recreate_mas_supervisor.py:353-363 | the outcome is the verdict of the first settling poll |
| Supervisor.WaitForOnline | scripts/recreate_mas_supervisor.py:347-366 | the polling loop computes the wait outcome |
| Supervisor.Recreate | scripts/recreate_mas_supervisor.py:372-400 | stops at validation exactly when a placeholder is left, sending nothing; otherwise sends what create sends; a failed create ends with its error; waits exactly when the created status, PROVISIONING by default, is not ONLINE; ends with the tile id and no wait, or with the wait's error, or with the tile id and the wait's online flag |
| Supervisor.RecreateReadyIff | scripts/recreate_mas_supervisor.py:372-400 | the run ends with the tile ready exactly when no id is a placeholder, the agent list builds, a token is found, the create reply is read, and either the tile is already ONLINE or the first poll at which the wait stops reads ONLINE before the deadline |
| Supervisor.ShippedScriptStopsAtValidation | scripts/recreate_mas_supervisor.py:378-379 | with the shipped ids the script reports five errors and makes no workspace call |
| Forecast.WeatherMultiplier | scripts/demand_forecast_train.py:121-140 | the multiplier is always one of the nine constants |
| Forecast.FirstMatchingGroupWins | scripts/demand_forecast_train.py:124-139 | in the ordered keyword table the first group with a matching keyword decides |
| Forecast.NoMatchingGroupIsNeutral | scripts/demand_forecast_train.py:140 | a text matching no group gets the neutral 1.0 |
| Forecast.WeatherMultiplierFollowsTable | scripts/demand_forecast_train.py:123-140 | the chain of tests equals the first-match reading of the ordered keyword table on the lower-cased text |
| Forecast.WeatherMultiplierIgnoresCase | scripts/demand_forecast_train.py:123 | the multiplier ignores the case of the forecast |
| Forecast.MultiplierOfFirstMatch | scripts/demand_forecast_train.py:123-139 | the first group with a keyword occurring as a substring of the lower-cased text gives the multiplier |
| Forecast.SnowStormIsSnow | scripts/demand_forecast_train.py:126-127 | "snow storm", in any case, gives 0.70 because the snow group precedes the storm group |
| Forecast.HeavyRainIsStorm | scripts/demand_forecast_train.py:128-129 | "heavy rain expected", in any case, gives 0.80 because the storm group precedes the rain group |
| Forecast.EncodeLabel | scripts/demand_forecast_train.py:161-170 | a known name encodes as its position among the classes, an unknown one as 0 |
| Forecast.UnknownLooksLikeFirstClass | scripts/demand_forecast_train.py:161-164 | an unknown name encodes like the first class |
| Forecast.PandasDayOfWeek | scripts/demand_forecast_train.py:156 | pandas' weekday lies in 0..6 |
| Forecast.DayOfWeekFeature | scripts/demand_forecast_train.py:156 | the feature is pandas' weekday plus one, in 1..7 |
| Forecast.MarchYearLength | scripts/demand_forecast_train.py:156 | the day count of the proleptic Gregorian calendar gives a year 366 days exactly in leap years, for every year |
| Forecast.MonthLength | scripts/demand_forecast_train.py:156 | each month starts the number of days after the previous one that the month has |
| Forecast.DayNumberNext | scripts/demand_forecast_train.py:156 | the next calendar date is numbered one higher |
| Forecast.WeekdayAdvances | scripts/demand_forecast_train.py:156 | the weekday advances by one each day, Sunday wrapping to Monday, so the feature cycles 1..7 |
| Forecast.SampleDates | scripts/demand_forecast_train.py:270 | the sample dates 2026-02-19 to 21 get features 4, 5 and 6 (Thursday to Saturday) |
| Forecast.DcFor | scripts/demand_forecast_train.py:173 | fails exactly when there are no DC ids, even for a mapped customer; otherwise the mapped DC, or the first DC id when the customer is unmapped |
| Forecast.RowFeatures | scripts/demand_forecast_train.py:144-183 | customer, product and DC are encoded by position among their classes (unknown names as 0), the DC being the customer's or the first DC; weekday feature, month and day come from the parsed date, else today; cost is the product's, else 3.0; fails exactly without DC ids |
| Forecast.RoundHalfEven | scripts/demand_forecast_train.py:189 | `round` gives the nearest integer, and an even one on a tie |
| Forecast.AdjustedDemand | scripts/demand_forecast_train.py:185-189 | never negative; the rounded scaled demand when that is non-negative; 0 for non-positive base demand |
| Forecast.MissingWeatherIsClear | scripts/demand_forecast_train.py:148 | a row without a weather column is treated as clear weather, 1.10 |
| Forecast.PredictRow | scripts/demand_forecast_train.py:144-190 | fails exactly without DC ids; otherwise the regressor's output on the row's features, scaled by the row's weather multiplier, rounded and clamped at zero |
| Forecast.MissingWeatherPrediction | scripts/demand_forecast_train.py:148-189 | a row without a weather column is predicted as the base demand scaled by 1.10 |
| Forecast.Predict | scripts/demand_forecast_train.py:142-192 | one non-negative prediction per row, in row order, each the row's own prediction; raises exactly when there are rows and no DC ids |
| Text.Strip | apx-app/src/sobeys_scctower/backend/core.py:125 | `strip()` returns the infix that neither starts nor ends with whitespace, with only whitespace around it |
| Text.StripUnique | apx-app/src/sobeys_scctower/backend/core.py:125 | that description determines the stripped string |
| Text.StripIgnoresOuterBlanks | apx-app/src/sobeys_scctower/backend/core.py:125 | adding whitespace on either side does not change the stripped string |
| Text.StripEmptyIffBlank | apx-app/src/sobeys_scctower/backend/router.py:416 | the stripped text is empty exactly when the text is all whitespace |
| Text.ContainsIffOccurs | apx-app/src/sobeys_scctower/backend/app.py:19 | the substring test holds exactly when the substring occurs at some index |
| Text.ContainsInContext | apx-app/src/sobeys_scctower/backend/app.py:19 | a substring of a part is a substring of the whole |
| Text.MissingCharRulesOut | scripts/demand_forecast_train.py:124 | a text lacking one character of a keyword does not contain the keyword |
| Text.Lower | scripts/demand_forecast_train.py:123 | `lower()` keeps the length and lower-cases each ASCII letter |
| Text.LowerForgetsCase | scripts/demand_forecast_train.py:123 | lower-casing an upper-cased or lower-cased text gives the lower-cased original |
| Text.NatToStringRoundTrip | apx-app/src/sobeys_scctower/backend/router.py:403 | the decimal rendering of the status code reads back to the code |
| Text.NatToStringInjective | apx-app/src/sobeys_scctower/backend/router.py:403 | different codes give different messages |

## Left out

- I/O and foreign calls are parameters of the model. These are the warehouse client, `httpx` and `requests`, the token sources, `uuid4`, `time.time()`, `time.sleep`, `hashlib.md5`, the fitted regressor and `pd.to_datetime`.
- The SQL text of every endpoint is left out. The warehouse evaluates it, not this code.
- The dashboard's live-value enrichment is left out: total inventory value, inventory levels and the "millions" rounding (`router.py` lines 70-97). It is float arithmetic on warehouse answers.
- The other read endpoints of `router.py` are left out. They only reshape warehouse rows into response models.
- Concurrency is left out. The worker thread starts before `start_chat` writes the pending entry, so the two writes can race. Only the sequential order (start, then worker writes) is modelled.
- Training, MLflow logging and model registration in `demand_forecast_train.py` are left out. `models.py`, the deploy scripts and the Genie export script are also not part of this model.
- Core.ExecuteSql: the statement's failure message and the log lines are not modelled. `short_query` only feeds the log. A manifest without a schema, on which building the rows raises after a successful statement, is not modelled.
- Supervisor.CreateSupervisorAgent: the code calls `raise_for_status`, so only 4xx and 5xx statuses raise. A status outside {200, 201} that is neither, such as 202 or 3xx, goes on to read the body. The model follows the code, not the stricter reading "anything but 200 or 201 raises".
- Supervisor.Recreate: the clock is a sequence of readings, one per loop test. Requiring the readings to reach the deadline models a clock that keeps advancing. The 20-second sleep, the URL built from a missing `tile_id`, and the printed messages are not modelled.
- Supervisor.Lookup: a sequence of pairs can repeat a key, which a dict literal cannot; the lookup then finds the first pair. `DistinctKeys` states the dictionary condition, and the shipped ids meet it.
- Supervisor.CreateSupervisorAgent: the token is looked up once per run. The wait's GETs use the same token, so the wait cannot fail for lack of one.
- Supervisor.WaitForOnline: a JSON body that is not an object, and a non-string status, are not modelled. A null status counts as neither ONLINE nor FAILED, as in the source.
- Forecast.AdjustedDemand: multipliers are exact hundredths and the product is exact real arithmetic. Float rounding of `base_demand * multiplier` is not modelled.
- Forecast.Predict: the date parser is replaced by its reading of each row's date (None when it raised). An empty date string parses to `NaT` without raising and yields NaN features; that case is not modelled. Non-string cells that `str()` would render are not modelled either.
- Forecast.RowFeatures: the label encoders are modelled by their class lists. The model assumes each encoder was fitted on the same names the membership test uses.
- Text.Lower: only ASCII letters are lower-cased. Python's `lower()` also maps other Unicode letters, which do not occur in the weather keywords.
- Chat.ExtractAnswer: a JSON null `text` is treated as a missing one. In the source, `.strip()` on None raises and the task is recorded as an error. Content parts that are not objects are not modelled either.
- Dashboard.SetOtif: card values are numbers, missing or null. A non-numeric value, on which `fill_rate - 3` raises, is not modelled.

## Findings

| source | as written | input that shows it | evidently intended | confidence | as-written member | corrected member |
|---|---|---|---|---|---|---|
| apx-app/src/sobeys_scctower/backend/router.py:392-427 | The worker's writes replace the task entry with one that has no `created_at`. The cleanup in `start_chat` then counts the task as created at time 0 and deletes it. | Task `a` is started at t0 = 1000. The worker finishes it. Another chat `b` is started at t1 = 1010. Polling `a` now returns error "Task not found" instead of its answer. | A finished task stays pollable until five minutes after it was created. | medium; not executed | Chat.FinishedTaskLostOnNextStart | Chat.FinishedTaskKeptUntilExpiry |
