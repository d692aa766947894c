# instapaper2rss — a Dafny model of the sync step and the API client

instapaper2rss turns an Instapaper account into an Atom feed. Each run does
the following:

- loads the bookmarks cached in local storage;
- asks the Instapaper API for the bookmarks it does not hold yet (a `have`
  parameter lists the cached IDs);
- fetches and stores the text of each new bookmark;
- rebuilds the feed from the cached bookmarks followed by the new ones.

The API client signs every call with OAuth 1.0 (RFC 5849), sends it as a
form POST, and retries the call under a bounded back-off policy.

This project models that logic in Dafny and proves what it promises. The
modules are:

| module | file | models |
|---|---|---|
| `Results` | results.dfy | Go's `(value, error)` pairs and nil-able pointers |
| `Text` | text.dfy | `strings.Join`, `strings.Replace(…, 1)`, splitting, and the order of `sort.Strings` |
| `Decimal` | decimal.dfy | `strconv.Itoa`, with a parser as its inverse |
| `Escape` | escape.dfy | `url.QueryEscape`, applied to UTF-8 |
| `Http` | http.dfy | a response and the `(resp, err)` pair of a call |
| `Retry` | retry.dfy | `RetryConfig`, the default retry predicate, the delay sequence, `doWithRetry` |
| `OAuth` | oauth.dfy | `generateSignature` and `buildAuthorizationHeader` |
| `Instapaper` | instapaper.dfy | `Client`, the options, `NewClient`, `callAPI`, `GetToken`, `GetBookmarks`, `GetBookmarkText` |
| `Sync` | sync.dfy | `App.Run` and `concatBookmarksIDs` |
| `Cli` | cli.dfy | `getEnvVar`, `formatOutput`, `createInstapaperClient` |

## Collaborators

The model does not reach anything outside the program. Each outside
collaborator is a parameter instead:

- the transport's answer to the k-th HTTP attempt (`send`);
- HMAC-SHA1 followed by base64 (`mac`);
- URL parsing, query parsing and JSON decoding (`parseUrl`, `parseQuery`, `decode`);
- the random nonce and the clock (`randomNonce`, `now`);
- the environment, as a map;
- the command-line flags, as a record;
- the storage, the feed builder and the feed file. These are the cache read,
  the answer to the j-th write, the build outcome and the save outcome.

`Sync.Run` also returns the sequence of calls it made to storage, the API
and the feed. Its contract can then state the order of those calls, where
the run stops, and what each call received. `Retry.DoWithRetry` and
`Instapaper.Call` return no per-call trace:
- `Retry.DoWithRetry` returns the last outcome, the number of attempts, the
  delays slept and the responses closed;
- `Instapaper.Call` returns the last outcome, the signed request (or none
  when it could not be built) and the number of attempts.

The k-th attempt is answered by `send(k)`, which receives nothing but its
index.

The GitHub Actions output file is read by the runner, not by the program.
`Cli.ParseOutput` states the runner's rule for one record. A `name=value`
record is one line. A `name<<OUTPUT` record runs up to the first line that
equals `OUTPUT`.

## Behaviour worth noting

The model follows the code in each of these cases. The sort order and the
escaping differ from RFC 5849.

- **Clashing parameter names.** When a request parameter and an oauth
  parameter share a name, the request parameter's value is signed, because
  it is copied second (pkg/instapaper/instapaper.go:295-302).
  `OAuth.SignedParams` states this rule.
- **Sort order.** Parameters are sorted by their raw name
  (pkg/instapaper/instapaper.go:305-310). RFC 5849 section 3.4.1.3.2 sorts
  by encoded name. The two orders differ: raw `0` sorts before `:`, but the
  encoded `%3A` sorts before `0`.
- **Escaping.** Escaping is `url.QueryEscape`, which writes a space as `+`.
  Section 3.6 of RFC 5849 asks for `%20`.
- **First delay.** The first back-off delay is `RetryDelay` as configured and
  is not capped (pkg/instapaper/instapaper.go:256-268), even when it exceeds
  `MaxDelay`. Only later delays are capped (`Retry.Delay`).

## Model

| member | source | states |
|---|---|---|
| Retry.DefaultShouldRetry | pkg/instapaper/instapaper.go:57-72 | retries exactly when there is a transport error, or the status is 403, 429 or in the 5xx class |
| Retry.DefaultPredicateFinalStatuses | pkg/instapaper/instapaper.go:62-71 | every 2xx answer, and every 4xx answer other than 403 and 429, ends the retry loop |
| Retry.Delay | pkg/instapaper/instapaper.go:256-268 | the first delay is `RetryDelay` exactly as configured, not capped; every later delay is at most `MaxDelay` |
| Retry.DelayClosedForm | pkg/instapaper/instapaper.go:256-268 | the k-th delay (k ≥ 1) equals min(RetryDelay · Multiplier^k, MaxDelay) |
| Retry.DelayBounds | pkg/instapaper/instapaper.go:265-268 | if the first delay is within [0, MaxDelay], every delay is |
| Retry.DelayMonotone | pkg/instapaper/instapaper.go:256-268 | with a multiplier of at least 1 and a first delay within the cap, delays never shrink |
| Retry.DoWithRetry | pkg/instapaper/instapaper.go:252-287 | see the note below the table |
| OAuth.SignedParams | pkg/instapaper/instapaper.go:294-302 | the signed set holds the keys of both maps; a request parameter wins a clash of names |
| OAuth.PairFields | pkg/instapaper/instapaper.go:312-320 | a pair contains no `&` and splits at `=` into exactly the escaped key and the escaped value |
| OAuth.ParamStringSingle | pkg/instapaper/instapaper.go:304-321 | one parameter gives a parameter string of exactly one field `esc(k)=esc(v)`; no parameter gives the empty string |
| OAuth.ParamStringLayout | pkg/instapaper/instapaper.go:304-321 | the parameter string lists each key once, in strictly ascending raw-key order, as `&`-separated fields that split back into the escaped key and value |
| OAuth.ParamStringFields | pkg/instapaper/instapaper.go:312-321 | a field of a non-empty parameter string is exactly a pair `esc(k)=esc(v)` of some entry of the map, in both directions |
| OAuth.SignatureBaseFields | pkg/instapaper/instapaper.go:329-334 | the base string splits at `&` into exactly three fields: the method, the escaped URL and the escaped parameter string |
| OAuth.SigningKeyFields | pkg/instapaper/instapaper.go:336-337 | the first `&` of the signing key ends the escaped consumer secret; the rest is the token secret, unescaped |
| OAuth.SignedUrl | pkg/instapaper/instapaper.go:323-327 | a URL without `127.0.0.1` or `localhost` is signed as is; otherwise the first occurrence of its host is replaced by `test.example.com`, and the rest of the text is unchanged |
| OAuth.GenerateSignature | pkg/instapaper/instapaper.go:289-345 | a nil request is the error `request is nil`; otherwise the signature is the MAC of the signing key over the base string of the loopback-rewritten URL and the merged parameters |
| OAuth.HeaderPairInjective | pkg/instapaper/instapaper.go:349-351 | two header entries are equal only if their names and escaped values are |
| OAuth.HeaderPairsCount | pkg/instapaper/instapaper.go:347-351 | the header has exactly as many entries as there are parameters |
| OAuth.AuthorizationHeaderLayout | pkg/instapaper/instapaper.go:347-354 | the header is `OAuth ` followed by one `k="esc(v)"` entry per parameter; the entries are strictly ascending as whole strings, joined by `, `, and every entry belongs to some parameter |
| Text.SortSet | pkg/instapaper/instapaper.go:305-310 | sorting yields each element of the set once, in strictly ascending order |
| Text.SortedUnique | pkg/instapaper/instapaper.go:305-310 | two strictly sorted lists with the same elements are equal, so map iteration order cannot change the result |
| Text.ReplaceFirst | pkg/instapaper/instapaper.go:325-327 | only the first occurrence is replaced; text without an occurrence is unchanged; an empty target inserts at the front |
| Escape.QueryEscape | pkg/instapaper/instapaper.go:316-317 | the escaped text holds only unreserved characters, `%` and `+`, and is never shorter than the input |
| Escape.QueryEscapeConcat | pkg/instapaper/instapaper.go:332-333 | escaping distributes over concatenation |
| Escape.QueryEscapeUnreserved | pkg/instapaper/instapaper.go:350 | text made only of letters, digits and `-_.~` escapes to itself |
| Escape.QueryEscapeAvoids | pkg/instapaper/instapaper.go:316-317 | escaped text never contains `&`, `=`, `"`, `,`, a space or a newline |
| Instapaper.Apply | pkg/instapaper/options.go:10-58 | every option of `options.go` succeeds and changes only its own fields, setting them to its argument: both halves of the token pair, the timeout, the HTTP client, the user agent, the base endpoint, and the nonce or timestamp generator as a supplied one |
| Instapaper.LastOptionWins | pkg/instapaper/instapaper.go:108-112 | an option is overridden by a later option covering the same fields |
| Instapaper.DisjointOptionsCommute | pkg/instapaper/options.go:10-58 | options on disjoint fields can be applied in either order |
| Instapaper.ApplyAll | pkg/instapaper/instapaper.go:108-112 | a list of `options.go` options never fails |
| Instapaper.ApplyAllAppend | pkg/instapaper/instapaper.go:108-112 | applying `a + b` is applying `a`, then `b` unless `a` failed |
| Instapaper.FirstFailureAborts | pkg/instapaper/instapaper.go:108-112 | the first failing option's error is the result; later options are never applied |
| Instapaper.BuiltinOptionsKeepCredentials | pkg/instapaper/options.go:8-58 | no option of `options.go` changes the consumer key, the consumer secret or the retry policy |
| Instapaper.NewClient | pkg/instapaper/instapaper.go:89-121 | an empty consumer key or secret is refused before any option runs; otherwise the result is the options applied to the defaults, plus an HTTP client from the timeout only when none was supplied |
| Instapaper.NewClientDefaults | pkg/instapaper/instapaper.go:94-106 | with no options: the consumer pair given, an empty token pair, the default endpoint and user agent, no retries, a 30 s HTTP client |
| Instapaper.TimeoutAfterHttpClient | pkg/instapaper/instapaper.go:114-118 | `WithTimeout` shapes the created HTTP client, but has no effect once `WithHTTPClient` supplied one |
| Instapaper.BuiltinOptionsSingleAttempt | pkg/instapaper/instapaper.go:94-106 | a client built from `options.go` options keeps `MaxRetries` = 0, so each call is one attempt |
| Instapaper.OAuthParams | pkg/instapaper/instapaper.go:215-225 | the oauth set is exactly consumer key, nonce, `HMAC-SHA1`, timestamp and `1.0`, plus `oauth_token` only for a non-empty token, never `oauth_signature` |
| Instapaper.CallApi | pkg/instapaper/instapaper.go:208-248 | an unparsable URL is a request-creation error; otherwise a POST with the signed `Authorization` header, the client's user agent, and the parameter string as body |
| Instapaper.CallApiDeterministic | pkg/instapaper/instapaper.go:215-221 | with both generators supplied, the signed request does not depend on the random nonce or the clock |
| Instapaper.BodyIsSigned | pkg/instapaper/instapaper.go:237-247 | every field of the form body appears unchanged in the signed parameter string |
| Instapaper.Call | pkg/instapaper/instapaper.go:208-250 | a request that cannot be built makes no HTTP call and returns its error; otherwise the call goes through the retry loop, with between 1 and MaxRetries + 1 attempts |
| Instapaper.TokenRequestFields | pkg/instapaper/instapaper.go:124-128 | the token exchange posts to `oauth/access_token`, and the body's fields are exactly the pairs of the three `x_auth` parameters |
| Instapaper.TextRequestFields | pkg/instapaper/instapaper.go:181-183 | the text request posts to `bookmarks/get_text` a body of the single field `bookmark_id=<decimal ID>` |
| Instapaper.GetToken | pkg/instapaper/instapaper.go:123-153 | succeeds exactly when the call, the body read and the query parse succeed and both `oauth_token` and `oauth_token_secret` are non-empty in the parsed body, returning those two values; on any failure both strings are empty |
| Instapaper.GetTokenIgnoresStatus | pkg/instapaper/instapaper.go:129-152 | the status code never affects the result |
| Instapaper.GetBookmarks | pkg/instapaper/instapaper.go:155-178 | succeeds exactly on a status of 200, a readable body and a decodable list; any other status reports its code |
| Instapaper.GetBookmarkText | pkg/instapaper/instapaper.go:180-206 | succeeds exactly on a status of 200 and a readable body, returning the body; an error for any other status ends with that body |
| Decimal.Itoa | app.go:112 | the rendering is non-empty digits with a leading `-` exactly for negatives, and has no leading zero: it starts with `0` only for 0 itself |
| Decimal.ItoaRoundTrip | app.go:109-115 | parsing the decimal rendering of any integer gives it back |
| Decimal.ItoaHasNoSeparators | app.go:114 | a rendered ID never contains a comma |
| Sync.ConcatIdsLayout | app.go:109-115 | for n cached bookmarks the value holds n − 1 commas; field i is the rendering of the i-th ID and parses back to it |
| Sync.HaveParams | app.go:53-56 | `have` is sent exactly when the cache is non-empty, it is the only parameter, and it splits into the cached IDs in stored order |
| Sync.ListRequestFields | app.go:53-58 | the listing posts to `bookmarks/list` an empty body for an empty cache, otherwise the single field `have=<comma-joined IDs>` |
| Sync.HaveParamsExamples | app_test.go:97-109 | no parameter for an empty cache; `have=1` for a cache holding bookmark 1 |
| Sync.NewBookmarks | app.go:63-75 | the new bookmarks are drawn from the bookmark-typed items only, every bookmark-typed item yields one, and there are none exactly when no item is bookmark-typed |
| Sync.NewBookmarksAppend | app.go:63-75 | filtering respects concatenation, so listing order is kept |
| Sync.NewBookmarksExample | app_test.go:61-81 | a user item followed by a bookmark item yields just that bookmark |
| Sync.FirstFailure | app.go:77-88 | every bookmark before the stopping point fetched and wrote successfully; the one at it, if any, failed one of the two |
| Sync.StepsLayout | app.go:77-88 | round j fetches the j-th bookmark's text and then writes that bookmark carrying the text |
| Sync.ErrorMessageExamples | app_test.go:150-199 | the error texts of the four failure cases of the tests |
| Sync.StoreTexts | app.go:77-88 | fetches and writes in order up to the first failure; on failure reports that bookmark's ID and cause, otherwise returns every new bookmark with its text |
| Sync.Publish | app.go:77-106 | see the note below the table |
| Sync.Run | app.go:47-107 | see the note below the table |
| Cli.GetEnvVar | main.go:55-67 | the variable if non-empty, else its `INPUT_` form if non-empty, else the default |
| Cli.EmptyIsUnset | main.go:57-64 | a variable set to the empty string reads like an unset one |
| Cli.GetEnvVarCandidates | main.go:55-67 | the result is one of the three candidates, and it is empty only if all three are |
| Cli.PlainShadowsInput | main.go:56-59 | a non-empty plain variable wins over its `INPUT_` form |
| Cli.FormatOutput | main.go:144-155 | empty value gives an empty line; a value with a newline gives the `name<<OUTPUT` heredoc; any other value gives `name=value` |
| Cli.FormatOutputRoundTrip | main.go:144-155 | for a one-line name without `=` or `<`, every non-empty value with no line equal to `OUTPUT` reads back exactly under the runner's rule, in either form |
| Cli.DelimiterInValueBreaksRoundTrip | main.go:150-151 | a multi-line value with a line equal to `OUTPUT`, such as `a\nOUTPUT\nb`, does not read back: the record closes at that line and the rest is stray text |
| Cli.CountOutputIsOneLine | main.go:46-49 | the new-bookmark count is always written as `new_bookmarks_count=<n>` |
| Cli.ClientOptionsEffect | main.go:87-96 | the client gets a 5 s timeout and HTTP client, plus the stored token pair only when both halves are set |
| Cli.CreateClient | main.go:69-115 | see the note below the table |
| Cli.UsernameRequiredWithoutToken | main.go:89-94 | with no complete token pair and no username, the result is the username error and no exchange |
| Cli.StoredTokenAlwaysSucceeds | main.go:89-99 | with the consumer pair and a complete token pair set, a client is always created without an exchange |
| Cli.CreatedClientHasToken | main.go:101-112 | if the token endpoint behaves like `GetToken`, every created client holds a complete token pair |

Notes on the rows above:

- **Retry.DoWithRetry.**
  - A negative `MaxRetries` makes no call and returns nil, nil.
  - Otherwise there are between 1 and MaxRetries + 1 calls, and the result
    is the last attempt's.
  - The loop stops at the first accepted attempt, or when attempts run out.
  - A transport error is retried while attempts remain.
  - The sleep before retry k is the k-th delay.
  - Exactly the responses followed by a retry are closed, in order.
- **Sync.Publish.**
  - The loop stops at the first failing bookmark, with its error, after the
    complete earlier rounds.
  - With no new bookmark the result is (0, nil) and no feed is built.
  - Otherwise the feed is built once, from the cache followed by the new
    bookmarks with their texts.
  - A build failure gives 0. A save failure still reports the new count.
- **Sync.Run.**
  - A failed cache read stops at once.
  - Otherwise `have` is sent with the listing.
  - A failed listing stops before any fetch.
  - After a listing, the rest behaves as `Sync.Publish` states.
- **Cli.CreateClient.**
  - The missing consumer key, then the missing consumer secret, is an error
    before anything else.
  - The token exchange happens exactly when the consumer pair is set, the
    token pair is incomplete and a username is given.
  - A created client has the environment's consumer pair, a 5 s HTTP client
    and the default retry policy.
  - Its token pair is the stored one, or the exchanged one after an exchange.

## Left out

- **HTTP and I/O.** The model leaves out `http.Client.Do`, request cloning,
  the Content-Type and Content-Length headers, `time.Sleep`, logging, flag
  parsing and `flag.Usage`, and the file writes of `saveFeed` and
  `writeOutput`. It keeps their outcomes as parameters, or records them in
  the call trace.
- **pkg/bolt/bolt.go and pkg/atom/atom.go.** Both are oracles here. The cache
  read is taken as a given sequence; the real order is Bolt's byte order of
  the decimal keys. The feed builder is an outcome function.
- **pkg/structs.** This package is not part of this model. `Sync.Bookmark`
  has the fields that `app.go` reads and writes.
- **Opaque primitives.** The random nonce, the clock, HMAC-SHA1, base64,
  `url.ParseQuery`, URL parsing and `json.Unmarshal` are uninterpreted
  parameters.
- **Invalid UTF-8.** Strings are sequences of Unicode scalar values, so
  escaping a string that holds invalid UTF-8 is not modelled.
- **Concrete header example.** The literal header of the token test
  (pkg/instapaper/instapaper_test.go:32-35) is not evaluated.
  `OAuth.AuthorizationHeaderLayout` states the layout for all parameter sets.
- **Errors.** Errors are their message text. `errors.Join` is modelled as a
  newline between the messages. Wrapping with `%w` is concatenation.
- **`run`.** The outer wrapping of errors in `run` (main.go:27-53) is not
  modelled.
- Cli.FormatOutputRoundTrip: the round trip is promised only for values
  with no line equal to `OUTPUT`, because the fixed delimiter closes the
  record early otherwise (`Cli.DelimiterInValueBreaksRoundTrip`). The only
  value the program writes is the count, which is one line
  (`Cli.CountOutputIsOneLine`). The name must also be a single line.
- Retry.Delay: the multiplier is a natural number, not a `float64`. The
  truncation of `float64(delay) * Multiplier` to a `time.Duration` and
  int64 overflow are not modelled.
- Retry.DoWithRetry: the predicate is consulted only with a nil error and a
  response, as the loop does, so it is a function of the response alone.
- Retry.DefaultShouldRetry: a nil response alongside a nil error is
  excluded, because the Go function dereferences it.
- Instapaper.GetToken: a nil response with a nil error is excluded. Only a
  negative `MaxRetries` produces that pair, and no option can set one.
- Instapaper.GetBookmarks: a nil response with a nil error is excluded, as
  for `GetToken`.
- Instapaper.GetBookmarkText: a nil response with a nil error is excluded,
  as for `GetToken`.
- Instapaper.GetBookmarks: the error for an undecodable body quotes its
  first 100 characters, or the whole body when it is shorter. The code
  slices 100 bytes; a shorter body panics or reads spare capacity.
- Instapaper.CallApi: the body is always the encoded parameters. The code
  sends no body for a nil map, but every caller passes a non-nil one.
- Instapaper.Client: the HTTP client is reduced to its timeout.
- Instapaper.Draw: a generator is either the built-in one, given its value
  on this call, or a supplied constant function.
- Integer widths. `int` and `int64` fields are unbounded integers.
