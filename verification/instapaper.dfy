/** The Instapaper API client: its configuration record, the functional
    options that adjust it, construction (`NewClient`), the signed request
    `callAPI` builds, and the three API operations' handling of what the
    transport returns. */
module Instapaper {

  import opened Results
  import opened Http
  import opened Retry
  import opened OAuth
  import Decimal
  import opened Text

  // ---------------------------------------------------------------------
  // Client and options
  // ---------------------------------------------------------------------

  /** Source of nonces or timestamps: the client's own (random nonce, Unix
      clock) or one supplied through an option. */
  datatype Generator = Builtin | Supplied(f: () -> string)

  /** The value a generator yields, given what the built-in source would
      produce on this call. */
  function Draw(g: Generator, builtin: string): (v: string)
    ensures g.Builtin? ==> v == builtin
    ensures g.Supplied? ==> v == g.f()
  {
    match g
    case Builtin => builtin
    case Supplied(f) => f()
  }

  /** An `*http.Client`; only its timeout is modelled. */
  datatype HttpClient = HttpClient(timeout: int)

  datatype Client = Client(
    httpClient: Option<HttpClient>,
    getTimestamp: Generator,
    getNonce: Generator,
    baseEndpoint: string,
    consumerKey: string,
    consumerSecret: string,
    token: string,
    tokenSecret: string,
    userAgent: string,
    timeout: int,
    retryConfig: RetryConfig)

  const DefaultBaseEndpoint := "https://www.instapaper.com/api/1/"
  const DefaultUserAgent := "RapidAPI/4.1.5 (Macintosh; OS X/15.3.1) GCDHTTPRequest"
  const DefaultTimeout := 30 * Second

  /** The client `NewClient` starts from, before any option. */
  function Defaults(consumerKey: string, consumerSecret: string): Client {
    Client(None, Builtin, Builtin, DefaultBaseEndpoint, consumerKey, consumerSecret,
           "", "", DefaultUserAgent, DefaultTimeout, DefaultRetryConfig)
  }

  /** The options of `options.go`, plus `Custom` for any other
      `func(*Client) error` a caller may pass. */
  datatype ClientOption =
    | WithHTTPClient(httpClient: Option<HttpClient>)
    | WithTimeout(timeout: int)
    | WithUserAgent(userAgent: string)
    | WithToken(token: string, secret: string)
    | WithBaseEndpoint(endpoint: string)
    | WithNonceGenerator(nonce: () -> string)
    | WithTimestampGenerator(timestamp: () -> string)
    | Custom(apply: Client -> Result<Client>)

  /** The client's fields, to say which ones an option may touch. */
  datatype Field =
    | HttpClientField | TimestampField | NonceField | EndpointField
    | TokenField | TokenSecretField | UserAgentField | TimeoutField

  function Touches(o: ClientOption): set<Field> {
    match o
    case WithHTTPClient(_) => {HttpClientField}
    case WithTimeout(_) => {TimeoutField}
    case WithUserAgent(_) => {UserAgentField}
    case WithToken(_, _) => {TokenField, TokenSecretField}
    case WithBaseEndpoint(_) => {EndpointField}
    case WithNonceGenerator(_) => {NonceField}
    case WithTimestampGenerator(_) => {TimestampField}
    case Custom(_) => {}
  }

  /** `a` and `b` agree on every field outside `fs`; the consumer
      credentials and the retry policy belong to no option. */
  ghost predicate AgreeOutside(a: Client, b: Client, fs: set<Field>) {
    && a.consumerKey == b.consumerKey
    && a.consumerSecret == b.consumerSecret
    && a.retryConfig == b.retryConfig
    && (HttpClientField !in fs ==> a.httpClient == b.httpClient)
    && (TimestampField !in fs ==> a.getTimestamp == b.getTimestamp)
    && (NonceField !in fs ==> a.getNonce == b.getNonce)
    && (EndpointField !in fs ==> a.baseEndpoint == b.baseEndpoint)
    && (TokenField !in fs ==> a.token == b.token)
    && (TokenSecretField !in fs ==> a.tokenSecret == b.tokenSecret)
    && (UserAgentField !in fs ==> a.userAgent == b.userAgent)
    && (TimeoutField !in fs ==> a.timeout == b.timeout)
  }

  /** Applying one option. Every option of `options.go` succeeds and
      changes only its own fields. */
  function Apply(o: ClientOption, c: Client): (r: Result<Client>)
    ensures !o.Custom? ==> r.Ok? && AgreeOutside(c, r.value, Touches(o))
    ensures o.WithToken? ==> r.Ok? && r.value.token == o.token && r.value.tokenSecret == o.secret
    ensures o.WithTimeout? ==> r.Ok? && r.value.timeout == o.timeout
    ensures o.WithHTTPClient? ==> r.Ok? && r.value.httpClient == o.httpClient
    ensures o.WithUserAgent? ==> r.Ok? && r.value.userAgent == o.userAgent
    ensures o.WithBaseEndpoint? ==> r.Ok? && r.value.baseEndpoint == o.endpoint
    ensures o.WithNonceGenerator? ==> r.Ok? && r.value.getNonce == Supplied(o.nonce)
    ensures o.WithTimestampGenerator? ==> r.Ok? && r.value.getTimestamp == Supplied(o.timestamp)
  {
    match o
    case WithHTTPClient(h) => Ok(c.(httpClient := h))
    case WithTimeout(t) => Ok(c.(timeout := t))
    case WithUserAgent(ua) => Ok(c.(userAgent := ua))
    case WithToken(t, s) => Ok(c.(token := t, tokenSecret := s))
    case WithBaseEndpoint(e) => Ok(c.(baseEndpoint := e))
    case WithNonceGenerator(f) => Ok(c.(getNonce := Supplied(f)))
    case WithTimestampGenerator(f) => Ok(c.(getTimestamp := Supplied(f)))
    case Custom(f) => f(c)
  }

  /** When a later option touches every field an earlier one does, the
      earlier one leaves no trace: the last option for a field wins. */
  lemma LastOptionWins(o1: ClientOption, o2: ClientOption, c: Client)
    requires !o1.Custom? && !o2.Custom?
    requires Touches(o1) <= Touches(o2)
    ensures Apply(o2, Apply(o1, c).value) == Apply(o2, c)
  {
  }

  /** Options touching disjoint fields commute. */
  lemma DisjointOptionsCommute(o1: ClientOption, o2: ClientOption, c: Client)
    requires !o1.Custom? && !o2.Custom?
    requires Touches(o1) !! Touches(o2)
    ensures Apply(o2, Apply(o1, c).value) == Apply(o1, Apply(o2, c).value)
  {
  }

  /** The options in order; the first failing one aborts. */
  function ApplyAll(opts: seq<ClientOption>, c: Client): (r: Result<Client>)
    ensures (forall i :: 0 <= i < |opts| ==> !opts[i].Custom?) ==> r.Ok?
    decreases |opts|
  {
    if |opts| == 0 then Ok(c)
    else
      match Apply(opts[0], c)
      case Err(e) => Err(e)
      case Ok(c') => ApplyAll(opts[1..], c')
  }

  /** Applying `a + b` is applying `a`, then `b` to its result unless `a`
      already failed. */
  lemma {:induction false} ApplyAllAppend(a: seq<ClientOption>, b: seq<ClientOption>, c: Client)
    ensures ApplyAll(a + b, c) == match ApplyAll(a, c)
                                   case Err(e) => Err(e)
                                   case Ok(c') => ApplyAll(b, c')
    decreases |a|
  {
    if |a| > 0 {
      assert (a + b)[0] == a[0];
      assert (a + b)[1..] == a[1..] + b;
      match Apply(a[0], c)
      case Err(e) =>
      case Ok(c') => ApplyAllAppend(a[1..], b, c');
    } else {
      assert a + b == b;
    }
  }

  /** The first option that fails decides the error; later options are
      never applied. */
  lemma FirstFailureAborts(opts: seq<ClientOption>, i: nat, c: Client, ci: Client, e: string)
    requires i < |opts|
    requires ApplyAll(opts[..i], c) == Ok(ci)
    requires Apply(opts[i], ci) == Err(e)
    ensures ApplyAll(opts, c) == Err(e)
  {
    assert opts == opts[..i] + opts[i..];
    ApplyAllAppend(opts[..i], opts[i..], c);
  }

  /** No option of `options.go` alters the consumer credentials or the
      retry policy. */
  lemma {:induction false} BuiltinOptionsKeepCredentials(opts: seq<ClientOption>, c: Client)
    requires forall i :: 0 <= i < |opts| ==> !opts[i].Custom?
    ensures ApplyAll(opts, c).Ok?
    ensures ApplyAll(opts, c).value.consumerKey == c.consumerKey
    ensures ApplyAll(opts, c).value.consumerSecret == c.consumerSecret
    ensures ApplyAll(opts, c).value.retryConfig == c.retryConfig
    decreases |opts|
  {
    if |opts| > 0 {
      BuiltinOptionsKeepCredentials(opts[1..], Apply(opts[0], c).value);
    }
  }

  /** `NewClient`: empty consumer credentials are refused before any option
      runs; otherwise the options are applied to the defaults and an HTTP
      client with the resulting timeout is created if none was supplied. */
  function NewClient(consumerKey: string, consumerSecret: string, opts: seq<ClientOption>): (r: Result<Client>)
    ensures consumerKey == "" || consumerSecret == "" ==> r == Err("consumer key and secret are required")
    ensures r.Ok? <==> consumerKey != "" && consumerSecret != "" && ApplyAll(opts, Defaults(consumerKey, consumerSecret)).Ok?
    ensures r.Ok? ==> r.value.httpClient.Some?
    ensures r.Ok? ==> var applied := ApplyAll(opts, Defaults(consumerKey, consumerSecret)).value;
                      && (applied.httpClient.Some? ==> r.value == applied)
                      && (applied.httpClient.None? ==> r.value == applied.(httpClient := Some(HttpClient(applied.timeout))))
  {
    if consumerKey == "" || consumerSecret == "" then Err("consumer key and secret are required")
    else
      match ApplyAll(opts, Defaults(consumerKey, consumerSecret))
      case Err(e) => Err(e)
      case Ok(c) =>
        if c.httpClient.None? then Ok(c.(httpClient := Some(HttpClient(c.timeout)))) else Ok(c)
  }

  /** With no options the client carries the consumer pair, an empty token
      pair, the default endpoint, user agent and retry policy, and a 30 s
      HTTP client. */
  lemma NewClientDefaults(consumerKey: string, consumerSecret: string)
    requires consumerKey != "" && consumerSecret != ""
    ensures NewClient(consumerKey, consumerSecret, []).Ok?
    ensures var c := NewClient(consumerKey, consumerSecret, []).value;
            && c.consumerKey == consumerKey && c.consumerSecret == consumerSecret
            && c.token == "" && c.tokenSecret == ""
            && c.baseEndpoint == DefaultBaseEndpoint && c.userAgent == DefaultUserAgent
            && c.retryConfig.maxRetries == 0
            && c.httpClient == Some(HttpClient(DefaultTimeout))
  {
  }

  /** `WithTimeout` shapes only the HTTP client `NewClient` creates: once a
      client was supplied, the timeout option does not reach it. */
  lemma TimeoutAfterHttpClient(consumerKey: string, consumerSecret: string, h: HttpClient, t: int)
    requires consumerKey != "" && consumerSecret != ""
    ensures NewClient(consumerKey, consumerSecret, [WithHTTPClient(Some(h)), WithTimeout(t)]).value.httpClient == Some(h)
    ensures NewClient(consumerKey, consumerSecret, [WithTimeout(t)]).value.httpClient == Some(HttpClient(t))
  {
    var d := Defaults(consumerKey, consumerSecret);
    assert [WithHTTPClient(Some(h)), WithTimeout(t)][1..] == [WithTimeout(t)];
    assert ApplyAll([WithTimeout(t)], d.(httpClient := Some(h))) == Ok(d.(httpClient := Some(h), timeout := t));
    assert ApplyAll([WithTimeout(t)], d) == Ok(d.(timeout := t));
  }

  // ---------------------------------------------------------------------
  // callAPI: the signed request
  // ---------------------------------------------------------------------

  /** The oauth parameters `callAPI` assembles; `oauth_token` only when the
      client has a token. */
  function OAuthParams(c: Client, nonce: string, timestamp: string): (m: map<string, string>)
    ensures m.Keys == {"oauth_consumer_key", "oauth_nonce", "oauth_signature_method", "oauth_timestamp", "oauth_version"}
                      + (if c.token != "" then {"oauth_token"} else {})
    ensures "oauth_signature" !in m
    ensures m["oauth_consumer_key"] == c.consumerKey && m["oauth_nonce"] == nonce
    ensures m["oauth_signature_method"] == "HMAC-SHA1" && m["oauth_timestamp"] == timestamp
    ensures m["oauth_version"] == "1.0"
    ensures c.token != "" ==> m["oauth_token"] == c.token
  {
    var base := map[
      "oauth_consumer_key" := c.consumerKey,
      "oauth_nonce" := nonce,
      "oauth_signature_method" := "HMAC-SHA1",
      "oauth_timestamp" := timestamp,
      "oauth_version" := "1.0"];
    if c.token != "" then base["oauth_token" := c.token] else base
  }

  /** A request ready for the transport. The body is the form encoding of
      the request parameters, which `url.Values.Encode` builds exactly like
      the signature's parameter string. */
  datatype SignedRequest = SignedRequest(
    verb: string,
    url: Url,
    authorization: string,
    userAgent: string,
    body: string)

  /** The signed request of `callAPI`. `parseUrl` stands for the URL parsing
      in `http.NewRequest`; `randomNonce` and `now` are what the built-in
      nonce and clock would yield; `mac` is HMAC-SHA1 then base64. */
  function CallApi(
    c: Client,
    endpoint: string,
    params: map<string, string>,
    randomNonce: string,
    now: string,
    parseUrl: string -> Result<Url>,
    mac: (string, string) -> string): (r: Result<SignedRequest>)
    ensures r.Ok? <==> parseUrl(c.baseEndpoint + endpoint).Ok?
    ensures r.Err? ==> r.error == "failed to create request: " + parseUrl(c.baseEndpoint + endpoint).error
    ensures r.Ok? ==>
              var oauth := OAuthParams(c, Draw(c.getNonce, randomNonce), Draw(c.getTimestamp, now));
              var signed := SignedParams(params, oauth);
              var sig := mac(SigningKey(c.consumerSecret, c.tokenSecret),
                             SignatureBase("POST", SignedUrl(r.value.url), ParamString(signed)));
              && r.value.verb == "POST"
              && r.value.url == parseUrl(c.baseEndpoint + endpoint).value
              && r.value.authorization == AuthorizationHeader(oauth["oauth_signature" := sig])
              && r.value.userAgent == c.userAgent
              && r.value.body == ParamString(params)
  {
    var u := parseUrl(c.baseEndpoint + endpoint);
    if u.Err? then Err("failed to create request: " + u.error)
    else
      var oauth := OAuthParams(c, Draw(c.getNonce, randomNonce), Draw(c.getTimestamp, now));
      var sig := GenerateSignature(Some(Request("POST", u.value)), params, oauth, c.consumerSecret, c.tokenSecret, mac);
      Ok(SignedRequest("POST", u.value, AuthorizationHeader(oauth["oauth_signature" := sig.value]), c.userAgent, ParamString(params)))
  }

  /** With both generators supplied, the signed request does not depend on
      the random nonce or the clock. */
  lemma CallApiDeterministic(
    c: Client, endpoint: string, params: map<string, string>,
    nonce1: string, now1: string, nonce2: string, now2: string,
    parseUrl: string -> Result<Url>, mac: (string, string) -> string)
    requires c.getNonce.Supplied? && c.getTimestamp.Supplied?
    ensures CallApi(c, endpoint, params, nonce1, now1, parseUrl, mac)
         == CallApi(c, endpoint, params, nonce2, now2, parseUrl, mac)
  {
  }

  /** Every field of the request body appears, unchanged, in the signed
      parameter string: the body is covered by the signature, since the
      request parameters win every clash with the oauth ones. */
  lemma BodyIsSigned(params: map<string, string>, oauth: map<string, string>)
    requires |params| > 0
    ensures forall f :: f in Split(ParamString(params), '&') ==> f in Split(ParamString(SignedParams(params, oauth)), '&')
  {
    var signed := SignedParams(params, oauth);
    ParamStringFields(params);
    ParamStringFields(signed);
    forall f | f in Split(ParamString(params), '&')
      ensures f in Split(ParamString(signed), '&')
    {
      var k :| k in params && f == Pair(k, params[k]);
      assert k in signed && signed[k] == params[k];
    }
  }

  /** `callAPI` as a whole: a request that cannot be built is an error
      without any HTTP call; otherwise the signed request goes through the
      retry loop, `send(k)` being the transport's answer to the k-th try. */
  method Call(
    c: Client,
    endpoint: string,
    params: map<string, string>,
    randomNonce: string,
    now: string,
    parseUrl: string -> Result<Url>,
    mac: (string, string) -> string,
    send: nat -> CallOutcome)
    returns (out: CallOutcome, sent: Option<SignedRequest>, calls: nat)
    ensures sent.Some? <==> CallApi(c, endpoint, params, randomNonce, now, parseUrl, mac).Ok?
    ensures sent.Some? ==> sent.value == CallApi(c, endpoint, params, randomNonce, now, parseUrl, mac).value
    ensures sent.None? ==> calls == 0 && out == CallOutcome(None, Some(CallApi(c, endpoint, params, randomNonce, now, parseUrl, mac).error))
    ensures sent.Some? && c.retryConfig.maxRetries >= 0 ==> 1 <= calls <= c.retryConfig.maxRetries + 1 && out == send(calls - 1)
    ensures sent.Some? && c.retryConfig.maxRetries < 0 ==> calls == 0 && out == CallOutcome(None, None)
  {
    var r := CallApi(c, endpoint, params, randomNonce, now, parseUrl, mac);
    if r.Err? {
      return CallOutcome(None, Some(r.error)), None, 0;
    }
    sent := Some(r.value);
    var sleeps, closed;
    out, calls, sleeps, closed := DoWithRetry(c.retryConfig, send);
  }

  /** A client built only from the options of `options.go` keeps the
      default policy of a single attempt, so each API call sends exactly
      one request. */
  lemma BuiltinOptionsSingleAttempt(consumerKey: string, consumerSecret: string, opts: seq<ClientOption>)
    requires consumerKey != "" && consumerSecret != ""
    requires forall i :: 0 <= i < |opts| ==> !opts[i].Custom?
    ensures NewClient(consumerKey, consumerSecret, opts).Ok?
    ensures NewClient(consumerKey, consumerSecret, opts).value.retryConfig.maxRetries == 0
  {
    BuiltinOptionsKeepCredentials(opts, Defaults(consumerKey, consumerSecret));
  }

  // ---------------------------------------------------------------------
  // The API operations, given what the transport returned
  // ---------------------------------------------------------------------

  const TokenEndpoint := "oauth/access_token"
  const ListEndpoint := "bookmarks/list"
  const TextEndpoint := "bookmarks/get_text"

  function TextParams(bookmarkId: int): map<string, string> {
    map["bookmark_id" := Decimal.Itoa(bookmarkId)]
  }

  /** The parameters of the token exchange. */
  function TokenParams(username: string, password: string): (m: map<string, string>)
    ensures m.Keys == {"x_auth_username", "x_auth_password", "x_auth_mode"}
  {
    map["x_auth_username" := username, "x_auth_password" := password, "x_auth_mode" := "client_auth"]
  }

  /** The token exchange posts to `oauth/access_token` a body whose fields
      are exactly the pairs of the three `x_auth` parameters. */
  lemma TokenRequestFields(
    c: Client, username: string, password: string, randomNonce: string, now: string,
    parseUrl: string -> Result<Url>, mac: (string, string) -> string)
    ensures var m := TokenParams(username, password);
            var r := CallApi(c, TokenEndpoint, m, randomNonce, now, parseUrl, mac);
            r.Ok? ==>
              && r.value.url == parseUrl(c.baseEndpoint + "oauth/access_token").value
              && forall f :: f in Split(r.value.body, '&') <==> exists k :: k in m && f == Pair(k, m[k])
  {
    ParamStringFields(TokenParams(username, password));
  }

  /** `GetBookmarkText` posts to `bookmarks/get_text` a body of the single
      field `bookmark_id`, the decimal ID. */
  lemma TextRequestFields(
    c: Client, bookmarkId: int, randomNonce: string, now: string,
    parseUrl: string -> Result<Url>, mac: (string, string) -> string)
    ensures var r := CallApi(c, TextEndpoint, TextParams(bookmarkId), randomNonce, now, parseUrl, mac);
            r.Ok? ==>
              && r.value.url == parseUrl(c.baseEndpoint + "bookmarks/get_text").value
              && Split(r.value.body, '&') == [Pair("bookmark_id", Decimal.Itoa(bookmarkId))]
  {
    ParamStringSingle("bookmark_id", Decimal.Itoa(bookmarkId));
  }

  /** The result of `url.ParseQuery`: every key with its values in order. */
  type QueryValues = map<string, seq<string>>

  /** `url.Values.Get`: the first value, or "" when there is none. */
  function Get(values: QueryValues, key: string): string {
    if key in values && |values[key]| > 0 then values[key][0] else ""
  }

  /** `GetToken`'s three results. */
  datatype TokenReply = TokenReply(token: string, secret: string, err: Option<string>)

  function TokenFailure(msg: string): TokenReply {
    TokenReply("", "", Some(msg))
  }

  /** `GetToken`, given the outcome of its API call and the query parser.
      A nil response next to a nil error would be dereferenced, so that
      outcome is excluded. */
  function GetToken(call: CallOutcome, parseQuery: string -> Result<QueryValues>): (r: TokenReply)
    requires call.err.Some? || call.resp.Some?
    ensures r.err.None? <==> r.token != "" && r.secret != ""
    ensures r.err.Some? ==> r.token == "" && r.secret == ""
    ensures r.err.None? ==>
              && call.err.None?
              && call.resp.value.body.Ok?
              && parseQuery(call.resp.value.body.value).Ok?
              && r.token == Get(parseQuery(call.resp.value.body.value).value, "oauth_token")
              && r.secret == Get(parseQuery(call.resp.value.body.value).value, "oauth_token_secret")
    ensures && call.err.None?
            && call.resp.value.body.Ok?
            && parseQuery(call.resp.value.body.value).Ok?
            && Get(parseQuery(call.resp.value.body.value).value, "oauth_token") != ""
            && Get(parseQuery(call.resp.value.body.value).value, "oauth_token_secret") != ""
            ==> r.err.None?
  {
    if call.err.Some? then TokenFailure("HTTP request failed: " + call.err.value)
    else
      match call.resp.value.body
      case Err(e) => TokenFailure("failed to read response body: " + e)
      case Ok(b) =>
        match parseQuery(b)
        case Err(e) => TokenFailure("failed to parse response body: " + e)
        case Ok(values) =>
          var token := Get(values, "oauth_token");
          var secret := Get(values, "oauth_token_secret");
          if token == "" || secret == "" then TokenFailure("failed to get token and secret")
          else TokenReply(token, secret, None)
  }

  /** The status code of the token response is never consulted: an error
      page fails only because it yields no token pair. */
  lemma GetTokenIgnoresStatus(resp: Response, status: int, parseQuery: string -> Result<QueryValues>)
    ensures GetToken(CallOutcome(Some(resp.(status := status)), None), parseQuery)
         == GetToken(CallOutcome(Some(resp), None), parseQuery)
  {
  }

  /** `Item`, one entry of the list response. */
  datatype Tag = Tag(name: string, id: int)

  datatype Item = Item(
    kind: string,
    username: string,
    url: string,
    title: string,
    description: string,
    hash: string,
    text: string,
    message: string,
    tags: seq<Tag>,
    time: int,
    userId: int,
    bookmarkId: int,
    highlightId: int,
    position: int,
    errorCode: int)

  const StatusOK := 200

  /** The first hundred characters of a body, quoted in a decode error. */
  function Snippet(b: string): string {
    if |b| >= 100 then b[..100] else b
  }

  /** `GetBookmarks`, given the outcome of its API call and the JSON decoder. */
  function GetBookmarks(call: CallOutcome, decode: string -> Result<seq<Item>>): (r: Result<seq<Item>>)
    requires call.err.Some? || call.resp.Some?
    ensures r.Ok? <==> && call.err.None?
                       && call.resp.value.status == StatusOK
                       && call.resp.value.body.Ok?
                       && decode(call.resp.value.body.value).Ok?
    ensures r.Ok? ==> r == decode(call.resp.value.body.value)
    ensures call.err.None? && call.resp.value.status != StatusOK ==>
              r == Err("unexpected status code: " + Decimal.Itoa(call.resp.value.status))
  {
    if call.err.Some? then Err("HTTP request failed: " + call.err.value)
    else
      var resp := call.resp.value;
      if resp.status != StatusOK then Err("unexpected status code: " + Decimal.Itoa(resp.status))
      else
        match resp.body
        case Err(e) => Err("failed to read response body: " + e)
        case Ok(b) =>
          match decode(b)
          case Err(e) => Err("failed to decode response: " + e + ", body starts with: " + Snippet(b))
          case Ok(items) => Ok(items)
  }

  /** `GetBookmarkText`, given the outcome of its API call. A non-200 answer
      is an error that carries the response body. */
  function GetBookmarkText(call: CallOutcome): (r: Result<string>)
    requires call.err.Some? || call.resp.Some?
    ensures r.Ok? <==> call.err.None? && call.resp.value.status == StatusOK && call.resp.value.body.Ok?
    ensures r.Ok? ==> r.value == call.resp.value.body.value
    ensures call.err.None? && call.resp.value.status != StatusOK && call.resp.value.body.Ok? ==>
              r.Err? && |call.resp.value.body.value| <= |r.error|
              && r.error[|r.error| - |call.resp.value.body.value|..] == call.resp.value.body.value
  {
    if call.err.Some? then Err("HTTP request failed: " + call.err.value)
    else
      var resp := call.resp.value;
      if resp.status != StatusOK then
        var status := "unexpected status code: " + Decimal.Itoa(resp.status);
        match resp.body
        case Err(e2) => Err(status + "\nfailed to read response body: " + e2)
        case Ok(b) => Err(status + "\nbody: " + b)
      else
        match resp.body
        case Err(e) => Err("failed to read response body: " + e)
        case Ok(b) => Ok(b)
  }
}
