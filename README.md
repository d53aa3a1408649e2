# Blocklist.de lists ETL connector, modelled in Dafny

`etl_connector.py` fetches the blocklist.de text lists ("ssh", "mail", ...). It
parses each list into one record per valid address line and stores the records
in MongoDB. This project models, with I/O replaced by scripted inputs:

- **`safe_get`**, the retry loop. It replays a finite script of GET outcomes.
  Each outcome is a transport exception (`RequestException`) or a response with
  a status, a body and an optional `Retry-After` header. The result is the
  returned body or the exception raised. The model also returns every
  `time.sleep` made, in order, and how many GETs were issued. A sleep is
  `Fixed(n)` (n seconds, after a 429) or `Backoff(k)` (`BACKOFF_FACTOR ** k`
  seconds), so no floating point enters the model.
- **`parse_ip_list`**, the line filter. It strips each line, drops blank lines
  and `#` comments, takes the first whitespace-separated token and keeps it
  when a validity predicate accepts it. Each kept token becomes a
  `Record(ip, service, "blocklist.de/lists", now)`. The predicate stands for
  `ipaddress.ip_address`. `IsIPv4Address` is a concrete IPv4 instance of it.
  The clock reading `now` is a parameter.
- **`get_mongo_collection`**: it fails exactly when `MONGO_URI` is unset or
  empty, and otherwise names the collection `<connector>_raw`.
- **`safe_insert_many`**: it maps the store's reply to the count it returns.
- **`run_lists_connector`**, the loop over endpoints. It fetches each endpoint,
  parses the body, inserts the records, adds the count to the total and pauses
  one second. An endpoint whose fetch raised is skipped. The run also records
  the sleeps and the insert calls it makes.

Each of the three loops (`safe_get`, `parse_ip_list`, `run_lists_connector`) is
an imperative method with a loop. Each method is proved equal to a recursive
specification function (`Fetcher.Fetch`, `Parser.ParseLines`, `Connector.Run`).
The properties are then proved about those functions.

Modules:

| module | contents |
|---|---|
| `Wrappers` | `Option` and `Result` |
| `Text` | Python's `str.isspace`, `strip`, `splitlines`, `split()[0]` and `int()` |
| `Fetcher` | `safe_get` |
| `Parser` | `parse_ip_list` and an IPv4 dotted-decimal check |
| `Loader` | `get_mongo_collection` and `safe_insert_many` |
| `Connector` | `run_lists_connector` |

Behaviour of the code that the model keeps as written:

- **Client errors are retried.** `raise_for_status()` (line 80) raises
  `HTTPError` for a 4xx other than 429. `HTTPError` is a `RequestException`, so
  the handler at line 82 catches it, counts it and backs off. A 404 is
  therefore retried; see `Fetcher.NotFoundIsRetried`.
- **A 5xx on the last attempt still sleeps.** The code increments `attempt`
  and sleeps `BACKOFF_FACTOR ** attempt` even on the last attempt. It then
  leaves the loop and raises `RuntimeError` (line 92).
- **A 429 counts toward `MAX_RETRIES`** (line 60).
- **Addresses are always validated** (lines 107-111). A run without validation
  is the same model with `valid := _ => true`.
- **`int()` is not `str.strip()`.** The `Retry-After` value is read with
  `int()`, which ignores a smaller set of surrounding characters than
  `str.strip()`. The ASCII separators U+001C to U+001F make `int()` fail; see
  `Text.IntKeepsSeparator`.

## Model

| member | source | states |
|---|---|---|
| Fetcher.Caught | etl_connector.py:82-90 | The `except` handler: counts the failure, re-raises on the last attempt, and otherwise sleeps `Backoff(attempt + 1)`. Its properties are stated by `Fetcher.DecideAttempt`. |
| Fetcher.Decide | etl_connector.py:52-90 | One loop iteration, branch by branch: 429, 200, 5xx, `raise_for_status`, fall-through. Its properties are stated by `Fetcher.DecideAttempt` and the `RateLimit*` lemmas. |
| Fetcher.Fetch | etl_connector.py:46-92 | The reference fold over the script, which `Fetcher.SafeGet` is proved equal to. Its properties are stated by the lemmas below. |
| Fetcher.SafeGet | etl_connector.py:46-92 | The loop's result, its list of sleeps and its GET count equal the reference fold `Fetch` over the scripted outcomes. |
| Fetcher.RunFrom | etl_connector.py:51-92 | The rest of a retrieval consumes at least the outcomes already read and at most the script. It consumes none exactly when `attempt >= MAX_RETRIES` or the script has ended. |
| Fetcher.DecideAttempt | etl_connector.py:51-90 | Going round again never lowers `attempt`, and sleeps exactly when `attempt` rises by one: a `Fixed` delay after a 429, `Backoff(attempt + 1)` otherwise. A caught exception stops the loop exactly on the last allowed attempt. The loop repeats without change exactly for statuses outside 200, 429 and 400-599. |
| Fetcher.RateLimitSleepsAdvertisedDelay | etl_connector.py:56-61 | A 429 with `Retry-After: n` sleeps exactly `Fixed(n)` (no backoff) and adds one to `attempt`. |
| Fetcher.RateLimitDefaultDelay | etl_connector.py:57 | A 429 without `Retry-After` sleeps 10 seconds and adds one to `attempt`. |
| Fetcher.RateLimitBadHeader | etl_connector.py:57 | A non-integer `Retry-After` raises ValueError, which ends the retrieval. |
| Fetcher.RateLimitedThenOk | etl_connector.py:56-67 | 429 with `Retry-After: 5`, then a 200: one `Fixed(5)` sleep, two GETs, and the body is returned. |
| Fetcher.NoRetriesNoRequest | etl_connector.py:51-92 | With `MAX_RETRIES <= 0`, no GET is made, nothing sleeps, and RuntimeError is raised. |
| Fetcher.OkReturnsAtOnce | etl_connector.py:64-67 | A first 200 with a non-blank body is returned after one GET with no sleep. |
| Fetcher.EmptyPayloadAtOnce | etl_connector.py:64-67 | A first 200 with a blank body raises ValueError after one GET. There is no sleep and no retry. |
| Fetcher.AttemptsBounded | etl_connector.py:49-92 | When every outcome counts an attempt (429, 4xx, 5xx or a transport failure), the loop issues at most `MAX_RETRIES - attempt` more GETs. |
| Fetcher.AtMostMaxRetriesRequests | etl_connector.py:49-92 | From the start, such a script leads to at most `MAX_RETRIES` GETs, and none when `MAX_RETRIES <= 0`. |
| Fetcher.BackoffsBounded | etl_connector.py:70-90 | Every backoff exponent k satisfies `attempt < k <= MAX_RETRIES`. Without 5xx responses, every k is at most `MAX_RETRIES - 1`, so a caught exception never sleeps `Backoff(MAX_RETRIES)`. |
| Fetcher.RunFromExplained | etl_connector.py:51-92 | The loop only returns the non-blank body of a 200. Each error it raises names the last outcome's cause: a blank 200, a bad or negative header, a caught exception or status, or exhaustion after a 429 or 5xx. |
| Fetcher.Backoffs | etl_connector.py:70-90 | The sleep list `Backoff(lo), ..., Backoff(hi)` has `hi - lo + 1` entries, and entry k is `Backoff(lo + k)`. |
| Fetcher.ServerErrorsThenOk | etl_connector.py:64-75 | n 5xx responses and then a non-blank 200, with n below the remaining budget, return the body after the sleeps `Backoff(attempt+1)` through `Backoff(attempt+n)`. |
| Fetcher.ServerErrorsExhaust | etl_connector.py:70-92 | Only 5xx responses: every remaining attempt sleeps its backoff, including the last, and then RuntimeError is raised. |
| Fetcher.ThreeServerErrorsThenOk | etl_connector.py:70-75 | 500, 500, 500, 200 with `MAX_RETRIES = 5`: sleeps `[Backoff(1), Backoff(2), Backoff(3)]`, four GETs, and the body is returned. |
| Fetcher.FiveServerErrorsExhaust | etl_connector.py:70-92 | Five 500s with `MAX_RETRIES = 5`: sleeps `Backoff(1)` through `Backoff(5)`, then RuntimeError. |
| Fetcher.NotFoundIsRetried | etl_connector.py:77-90 | A 404 raises HTTPError, which is caught: a `Backoff(1)` sleep, then the next outcome's body is returned. |
| Fetcher.NotFoundOnLastAttempt | etl_connector.py:83-86 | A 404 on the last allowed attempt re-raises its HTTPError without sleeping. |
| Fetcher.NotModifiedRepeats | etl_connector.py:77-80 | A 304 neither raises nor counts: even with `MAX_RETRIES = 1`, two 304s are followed by a third GET. |
| Fetcher.OkBodyNotBlank | etl_connector.py:65 | The sample 200 body "1.2.3.4" is not blank. |
| Parser.Candidate | etl_connector.py:101-104 | The stripped line's first token, or nothing for a blank or `#` line. Its meaning is stated by `Parser.ParseLineMeaning`. |
| Parser.ParseLine | etl_connector.py:101-118 | The records one line contributes. Stated by `Parser.ParseLineMeaning`. |
| Parser.ParseLines | etl_connector.py:100-118 | The reference fold over the lines, which `Parser.ParseIpList` is proved equal to. Stated by `Parser.ParsedRecords` and `Parser.ParseLinesAppend`. |
| Parser.IsOctet | etl_connector.py:108 | One to three ASCII digits, no leading zero, value at most 255. Used by `Parser.OctetOfNat`. |
| Parser.IsIPv4Address | etl_connector.py:108 | Exactly four dot-separated octets. Stated by `Parser.OctetsJoinedAreIPv4` and `Parser.DottedQuadIsIPv4`. |
| Parser.ParseIpList | etl_connector.py:95-119 | The loop yields `ParseLines` of the text's lines. There are at most as many records as lines. Every record has the given service, the constant source, the one `now`, and a valid ip. |
| Parser.ParseLineMeaning | etl_connector.py:100-118 | A line yields at most one record. It yields one exactly when the stripped line is non-empty, does not start with `#`, and has a valid first token. The record's ip is that token. |
| Parser.ParseLinesAppend | etl_connector.py:100-118 | Parsing distributes over concatenation, so the output follows input line order. |
| Parser.DroppedLineIsInert | etl_connector.py:102-111 | A blank, comment or invalid line leaves the records of the other lines unchanged. |
| Parser.ParseSingleLine | etl_connector.py:100-118 | A one-line text yields that line's records. |
| Parser.ParsedRecords | etl_connector.py:98-118 | Every record carries the argument service, "blocklist.de/lists" and the one timestamp. Its ip is valid, non-empty, free of whitespace and does not start with `#`. The output is no longer than the input. |
| Parser.ParseThreeLines | etl_connector.py:100-118 | Three lines yield the records of the first, then the second, then the third. |
| Parser.AddressLineParses | etl_connector.py:101-118 | A valid whitespace-free token, optionally followed by whitespace and more fields, yields one record for the token. |
| Parser.CommentLineDropped | etl_connector.py:102-103 | A line whose stripped form starts with `#` yields nothing. |
| Parser.QuadLineParses | etl_connector.py:104-118 | A dotted quad of octets, optionally followed by trailing fields, yields one record for the quad under IPv4 validation. |
| Parser.ListBodySplits | etl_connector.py:100 | The three lines of such a body split back into themselves. |
| Parser.ListBodyRecords | etl_connector.py:101-118 | The three lines yield one record per address line and none for the comment line. |
| Parser.ListBodyParses | etl_connector.py:95-119 | A body of an address line, a comment and an address line with an extra field yields exactly the two address records, in order. |
| Parser.ExampleParse | etl_connector.py:95-119 | "1.2.3.4", "#comment", "5.6.7.8 extra-field" under the service "ssh" yield the records 1.2.3.4 and 5.6.7.8. |
| Parser.ExampleAddresses | etl_connector.py:104 | The quads (1,2,3,4) and (5,6,7,8) are the strings "1.2.3.4" and "5.6.7.8". |
| Parser.IndexOf | etl_connector.py:108 | Returns the first position at or after i that holds the separator, or the end of the string. |
| Parser.SplitOn | etl_connector.py:108 | Python's `split('.')` always yields at least one piece. |
| Parser.SplitDotted | etl_connector.py:108 | Splitting four dot-free strings joined by dots gives the four strings back. |
| Parser.OctetOfNat | etl_connector.py:108 | The decimal form of any n <= 255 is an IPv4 octet. |
| Parser.OctetsJoinedAreIPv4 | etl_connector.py:108 | Four octets joined by dots are accepted as an IPv4 address. |
| Parser.DottedQuadIsIPv4 | etl_connector.py:108 | `a.b.c.d` with each number at most 255 is accepted as an IPv4 address. |
| Parser.DottedQuadShape | etl_connector.py:104 | A dotted quad is non-empty, free of whitespace and starts with a digit. |
| Parser.PrintableLinesSplit | etl_connector.py:100 | Three printable-ASCII lines, each ended by "\n", split back into themselves. |
| Loader.CollectionName | etl_connector.py:128 | The collection name is the connector name followed by "_raw". |
| Loader.CollectionNameInjective | etl_connector.py:128 | Different connector names give different collections. |
| Loader.GetMongoCollection | etl_connector.py:122-128 | It fails exactly when `MONGO_URI` is missing or empty. Otherwise it returns `MONGO_DB`'s `<connector>_raw` collection. |
| Loader.SafeInsertMany | etl_connector.py:130-146 | `insert_many` is called exactly when the batch is non-empty. With no call, the count is 0. |
| Loader.InsertCount | etl_connector.py:132-146 | An empty batch gives 0 with no call. Success gives `len(inserted_ids)`. BulkWriteError gives `nInserted`, or 0 when absent. Any other failure gives 0. |
| Loader.InsertedWithinBatch | etl_connector.py:136-143 | With a reply consistent with the batch (including a write-concern-only BulkWriteError, which reports every document), the count is at most the batch size. On success it is exactly the batch size. |
| Connector.BatchOf | etl_connector.py:157-162 | The records handed to `safe_insert_many`: none when the fetch raised. Used by `Connector.SubmissionsAreWholeBatches`. |
| Connector.VisitStep | etl_connector.py:155-165 | One endpoint: fetch, then on failure log and skip, else parse, insert, add the count and pause one second. Stated by `Connector.FailedVisitStep` and `Connector.VisitSubmissions`. |
| Connector.RunVisits | etl_connector.py:152-166 | The endpoint loop as a fold over the table. Stated by `Connector.RunVisitsAppend` and `Connector.TotalIsSumOfInserted`. |
| Connector.Run | etl_connector.py:149-167 | The collection lookup, then the endpoint loop; `Connector.RunListsConnector` is proved equal to it. Stated by `Connector.MissingUriIsFatal`. |
| Connector.RunListsConnector | etl_connector.py:149-167 | The run's outcome, total and events equal the reference `Run`. They are: the collection lookup, then each endpoint in table order, fetched, parsed, inserted and followed by a one-second pause. |
| Connector.SleepEvents | etl_connector.py:56-90 | The retrieval's sleeps appear as events, one per sleep, in order. |
| Connector.MissingUriIsFatal | etl_connector.py:124-125 | With no or an empty `MONGO_URI`, the run fails before visiting any endpoint. |
| Connector.RunVisitsAppend | etl_connector.py:154-166 | The endpoint loop is a fold. Running a list of visits then another adds their totals and concatenates their events. |
| Connector.TotalIsSumOfInserted | etl_connector.py:152-164 | The total is the sum, over endpoints in table order, of each endpoint's `safe_insert_many` count. A failed fetch counts 0. |
| Connector.FailedVisitStep | etl_connector.py:156-160 | An endpoint whose fetch raised adds 0 and makes no insert call. |
| Connector.FailedFetchIsSkipped | etl_connector.py:156-160 | An endpoint whose fetch raised adds 0, makes no insert call, and leaves the other endpoints' total unchanged. |
| Connector.VisitSubmissions | etl_connector.py:162-163 | One endpoint's insert calls go to the one collection, each with that endpoint's whole non-empty batch. |
| Connector.SubmissionsAreWholeBatches | etl_connector.py:151-163 | Every insert call of the run goes to the one collection, with one endpoint's whole, non-empty parsed batch. |
| Connector.TotalWithinParsed | etl_connector.py:162-164 | When each reply is consistent with its batch, the total never exceeds the number of records parsed. |
| Connector.InsertedWithinBatches | etl_connector.py:163 | When each reply is consistent with its batch, the summed counts never exceed the summed batch sizes. |
| Text.IsSpace | etl_connector.py:101 | Python's `str.isspace` on one character, as used by `strip()` and `split()`. |
| Text.IsLineBreak | etl_connector.py:100 | The line boundaries of `str.splitlines()`. |
| Text.Strip | etl_connector.py:101 | `str.strip()`. Stated by `Text.StripSlice`. |
| Text.ParseInt | etl_connector.py:57 | `int()` on a string: strip what `int()` ignores, then an optional sign and digit groups. Stated by `Text.ParseIntOfNatToString` and `Text.IntKeepsSeparator`. |
| Text.ParseSigned | etl_connector.py:57 | `int()` on an already stripped string. Used by `Text.ParseIntOfDigits`. |
| Text.SkipSpace | etl_connector.py:101 | Returns the first non-whitespace position at or after i, or the end. |
| Text.SkipSpaceBack | etl_connector.py:101 | Returns the end of the slice once its trailing whitespace is dropped. |
| Text.SkipSpaceSkipsSpace | etl_connector.py:101 | Everything skipped from the front is whitespace. |
| Text.SkipSpaceBackSkipsSpace | etl_connector.py:101 | Everything skipped from the back is whitespace. |
| Text.StripSlice | etl_connector.py:101 | `strip()` returns a contiguous slice, with only whitespace around it and non-whitespace at both of its ends. |
| Text.BlankIffAllSpace | etl_connector.py:65 | `not text.strip()` holds exactly when every character is whitespace. |
| Text.StripNoop | etl_connector.py:101 | Stripping a string with no surrounding whitespace leaves it unchanged. |
| Text.LineEnd | etl_connector.py:100 | Returns the first line boundary, or the end of the string. |
| Text.SplitLines | etl_connector.py:100 | No line holds a boundary, and there are no more lines than characters. |
| Text.SplitLinesTerminated | etl_connector.py:100 | Lines without boundaries, each ended by "\n", split back into exactly those lines. |
| Text.TokenEnd | etl_connector.py:104 | Returns the first whitespace position at or after i, or the end. |
| Text.TokenEndAt | etl_connector.py:104 | `TokenEnd` stops exactly at the first whitespace. |
| Text.FirstToken | etl_connector.py:104 | `split()[0]` returns a whitespace-free prefix that stops at whitespace. It is non-empty when the string starts with a non-space. |
| Text.NatToString | etl_connector.py:57 | `str(n)` is a non-empty string of decimal digits. |
| Text.DigitsValueOfNatToString | etl_connector.py:57 | The digits of `str(n)` have the value n. |
| Text.ParseIntOfDigits | etl_connector.py:57 | `int()` of a plain digit string is its value. |
| Text.SkipIntSpace | etl_connector.py:57 | Returns the first position at or after i that `int()` does not ignore, or the end. |
| Text.SkipIntSpaceBack | etl_connector.py:57 | Returns the end of the slice once the trailing characters `int()` ignores are dropped. |
| Text.IntStripNoop | etl_connector.py:57 | A string with nothing `int()` ignores at its ends is left unchanged. |
| Text.IntSpaceIsSpace | etl_connector.py:57 | Whatever `int()` ignores, `str.strip()` removes too. The two sets differ exactly on U+001C to U+001F. |
| Text.IntKeepsSeparator | etl_connector.py:57 | U+001C is whitespace to `str.strip()`, yet `int()` of U+001C followed by "5" fails. |
| Text.ParseIntOfNatToString | etl_connector.py:57 | Round trip: `int(str(n)) == n`. |

## Left out

- HTTP transport (`requests.Session`, TLS, `REQUEST_TIMEOUT`): replaced by a scripted list of outcomes. A transport failure of any kind is one `TransportFailure`.
- `time.sleep`: recorded as `Fixed`/`Backoff` events and not performed; the float value of `BACKOFF_FACTOR ** k` is not computed.
- Fetcher.Fetch: the real loop can go on for ever on a server that keeps answering with a status outside 200, 429 and 400-599 (below 200, 201-399, or 600 and above); the model stops with the model-only error `ScriptEnded` when the scripted outcomes run out, so non-termination is not modelled.
- Fetcher.Decide: a negative `Retry-After` makes `time.sleep` raise ValueError; the model raises `NegativeDelay`; a delay too large for the platform's sleep is not modelled (a non-integer value such as "5.5" is, as `RetryAfterNotInteger`).
- Text.ParseInt: `int()` is modelled for ASCII digits with optional sign, the surrounding characters `int()` ignores (`Text.IsIntSpace`) and single underscores; non-ASCII Unicode digits, which `int()` accepts, are rejected by the model.
- `Retry-After` header lookup is case-insensitive in `requests`; the model takes the header value directly.
- `ipaddress.ip_address` is an abstract predicate `valid`; the concrete `IsIPv4Address` covers IPv4 dotted decimal only, not IPv6.
- Text.IsSpace and Text.IsLineBreak use a fixed character set for Python's `isspace` and `splitlines`; the full Unicode database is not modelled.
- `datetime.utcnow()` is the parameter `now`; the timestamp type is an `int`.
- Logging, `main`, `load_dotenv`/`os.getenv` (the tunables are fields of `Connector.Config`; an unset `MONGO_DB` falls back to `Loader.DefaultDatabase`) and the endpoint URL table (the endpoints are an input list in table order).
- `MongoClient` construction and connection errors: only the URI check and the collection name are modelled; a connection failure is not.
- Text decoding of the HTTP body (`resp.text`): the body is a string already.
- The final total log line of `run_lists_connector` (line 167) is not modelled beyond returning the total.
