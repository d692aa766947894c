/** OAuth 1.0 request signing as the client does it (`generateSignature`,
    `buildAuthorizationHeader`): RFC 5849 section 3.4.1 for the signature
    base string, section 3.4.2 for the HMAC-SHA1 key, section 3.5.1 for the
    header. Two places follow the code rather than the RFC: parameters are
    sorted by their raw name, and escaping is Go's `url.QueryEscape`, which
    writes a space as `+`. HMAC-SHA1 followed by base64 is the parameter
    `mac`, applied as mac(key, message). */
module OAuth {

  import opened Results
  import opened Text
  import opened Escape

  /** The part of an `*http.Request` the signer reads. */
  datatype Url = Url(text: string, host: string)   // req.URL.String(), req.URL.Host
  datatype Request = Request(verb: string, url: Url)

  // ---------------------------------------------------------------------
  // Parameter set and parameter string
  // ---------------------------------------------------------------------

  /** The set that is signed: the oauth parameters overlaid by the request
      parameters, so a request parameter wins a clash of names. */
  function SignedParams(reqParams: map<string, string>, oauthParams: map<string, string>): (m: map<string, string>)
    ensures m.Keys == oauthParams.Keys + reqParams.Keys
    ensures forall k :: k in reqParams ==> m[k] == reqParams[k]
    ensures forall k :: k in oauthParams && k !in reqParams ==> m[k] == oauthParams[k]
  {
    oauthParams + reqParams
  }

  /** `esc(k)=esc(v)`. */
  function Pair(k: string, v: string): string {
    QueryEscape(k) + "=" + QueryEscape(v)
  }

  /** One pair per key, in the order of `keys`. */
  function Pairs(keys: seq<string>, m: map<string, string>): (r: seq<string>)
    requires forall i :: 0 <= i < |keys| ==> keys[i] in m
    ensures |r| == |keys|
    ensures forall i :: 0 <= i < |keys| ==> r[i] == Pair(keys[i], m[keys[i]])
  {
    seq(|keys|, i requires 0 <= i < |keys| => Pair(keys[i], m[keys[i]]))
  }

  /** The normalised parameter string: pairs in ascending order of the raw
      key, joined by `&`. */
  function ParamString(m: map<string, string>): string {
    Join(Pairs(SortSet(m.Keys), m), "&")
  }

  lemma PairFields(k: string, v: string)
    ensures '&' !in Pair(k, v)
    ensures Split(Pair(k, v), '=') == [QueryEscape(k), QueryEscape(v)]
  {
    QueryEscapeAvoids(k);
    QueryEscapeAvoids(v);
    assert Join([QueryEscape(k), QueryEscape(v)], "=") == Pair(k, v);
    SplitJoin([QueryEscape(k), QueryEscape(v)], '=');
  }

  /** The `&`-fields of a non-empty parameter string are its pairs. */
  lemma ParamStringSplit(m: map<string, string>)
    requires |m| > 0
    ensures Split(ParamString(m), '&') == Pairs(SortSet(m.Keys), m)
  {
    var keys := SortSet(m.Keys);
    var pairs := Pairs(keys, m);
    forall i | 0 <= i < |pairs|
      ensures '&' !in pairs[i]
    {
      PairFields(keys[i], m[keys[i]]);
    }
    SplitJoin(pairs, '&');
  }

  /** The parameter string lists every key exactly once, ascending by raw
      key, as `esc(k)=esc(v)` fields separated by `&`; each field splits at
      its `=` into the escaped key and the escaped value. */
  lemma ParamStringLayout(m: map<string, string>)
    requires |m| > 0
    ensures var keys := SortSet(m.Keys);
            && StrictlySorted(keys)
            && |keys| == |m|
            && (forall k :: k in keys <==> k in m)
            && Split(ParamString(m), '&') == Pairs(keys, m)
            && (forall i :: 0 <= i < |keys| ==>
                  Split(Pairs(keys, m)[i], '=') == [QueryEscape(keys[i]), QueryEscape(m[keys[i]])])
  {
    var keys := SortSet(m.Keys);
    var pairs := Pairs(keys, m);
    forall i | 0 <= i < |pairs|
      ensures '&' !in pairs[i]
      ensures Split(pairs[i], '=') == [QueryEscape(keys[i]), QueryEscape(m[keys[i]])]
    {
      PairFields(keys[i], m[keys[i]]);
    }
    SplitJoin(pairs, '&');
  }

  /** The `&`-separated fields of a non-empty parameter string are exactly
      the pairs `esc(k)=esc(v)` of the map's entries. */
  lemma ParamStringFields(m: map<string, string>)
    requires |m| > 0
    ensures forall f :: f in Split(ParamString(m), '&') <==> exists k :: k in m && f == Pair(k, m[k])
  {
    ParamStringSplit(m);
    var keys := SortSet(m.Keys);
    var pairs := Pairs(keys, m);
    forall f | f in pairs
      ensures exists k :: k in m && f == Pair(k, m[k])
    {
      var i :| 0 <= i < |pairs| && pairs[i] == f;
      assert keys[i] in m;
    }
    forall k | k in m
      ensures Pair(k, m[k]) in pairs
    {
      assert k in keys;
      var i :| 0 <= i < |keys| && keys[i] == k;
      assert pairs[i] == Pair(k, m[k]);
    }
  }

  /** A single parameter yields a parameter string of one field, and no
      parameter the empty string. */
  lemma ParamStringSingle(k: string, v: string)
    ensures Split(ParamString(map[k := v]), '&') == [Pair(k, v)]
    ensures ParamString(map[]) == ""
  {
    var m := map[k := v];
    ParamStringLayout(m);
    var keys := SortSet(m.Keys);
    assert keys[0] in m;
    var empty: map<string, string> := map[];
    assert empty.Keys == {};
    assert SortSet({}) == [];
  }

  // ---------------------------------------------------------------------
  // Base string, signing key, signature
  // ---------------------------------------------------------------------

  const TestHost := "test.example.com"

  /** The URL that is signed: a loopback URL has its host replaced by
      `test.example.com`, so signatures made against a local test server
      are reproducible. */
  function SignedUrl(url: Url): (s: string)
    ensures !Contains(url.text, "127.0.0.1") && !Contains(url.text, "localhost") ==> s == url.text
    ensures (Contains(url.text, "127.0.0.1") || Contains(url.text, "localhost")) && url.host != "" && Contains(url.text, url.host) ==>
              var i := FindFrom(url.text, url.host, 0).value;
              && (forall j :: 0 <= j < i ==> !OccursAt(url.text, url.host, j))
              && s == url.text[..i] + TestHost + url.text[i + |url.host|..]
    ensures url.host != "" && !Contains(url.text, url.host) ==> s == url.text
  {
    if Contains(url.text, "127.0.0.1") || Contains(url.text, "localhost") then
      ReplaceFirst(url.text, url.host, TestHost)
    else url.text
  }

  /** `METHOD&esc(URL)&esc(paramString)`. */
  function SignatureBase(verb: string, url: string, paramString: string): string {
    verb + "&" + (QueryEscape(url) + "&" + QueryEscape(paramString))
  }

  /** `esc(consumerSecret)&tokenSecret`; the token secret is not escaped. */
  function SigningKey(consumerSecret: string, tokenSecret: string): string {
    QueryEscape(consumerSecret) + "&" + tokenSecret
  }

  /** The base string has exactly three `&`-separated fields: the verb,
      the escaped URL and the escaped parameter string. */
  lemma SignatureBaseFields(verb: string, url: string, paramString: string)
    requires '&' !in verb
    ensures Split(SignatureBase(verb, url, paramString), '&') == [verb, QueryEscape(url), QueryEscape(paramString)]
  {
    QueryEscapeAvoids(url);
    QueryEscapeAvoids(paramString);
    var parts := [verb, QueryEscape(url), QueryEscape(paramString)];
    assert parts[1..][1..] == [parts[2]];
    assert Join(parts[1..], "&") == parts[1] + "&" + parts[2];
    assert Join(parts, "&") == SignatureBase(verb, url, paramString);
    SplitJoin(parts, '&');
  }

  /** The first `&` of the signing key ends the escaped consumer secret;
      everything after it is the token secret, verbatim. */
  lemma SigningKeyFields(consumerSecret: string, tokenSecret: string)
    ensures var key := SigningKey(consumerSecret, tokenSecret);
            var e := QueryEscape(consumerSecret);
            && '&' in key
            && IndexOf(key, '&') == |e|
            && key[..|e|] == e
            && key[|e| + 1..] == tokenSecret
  {
    var key := SigningKey(consumerSecret, tokenSecret);
    var e := QueryEscape(consumerSecret);
    QueryEscapeAvoids(consumerSecret);
    assert key[|e|] == '&';
    assert key[..|e|] == e;
  }

  /** `generateSignature`. */
  function GenerateSignature(
    req: Option<Request>,
    reqParams: map<string, string>,
    oauthParams: map<string, string>,
    consumerSecret: string,
    tokenSecret: string,
    mac: (string, string) -> string): (r: Result<string>)
    ensures req.None? <==> r == Err("request is nil")
    ensures req.Some? ==> r == Ok(mac(
              SigningKey(consumerSecret, tokenSecret),
              SignatureBase(req.value.verb, SignedUrl(req.value.url),
                            ParamString(SignedParams(reqParams, oauthParams)))))
  {
    match req
    case None => Err("request is nil")
    case Some(rq) =>
      var params := SignedParams(reqParams, oauthParams);
      var base := SignatureBase(rq.verb, SignedUrl(rq.url), ParamString(params));
      Ok(mac(SigningKey(consumerSecret, tokenSecret), base))
  }

  // ---------------------------------------------------------------------
  // Authorization header
  // ---------------------------------------------------------------------

  /** `k="esc(v)"`: Go's `%q` leaves the characters of an escaped value as
      they are, so quoting is just the surrounding quotes. */
  function HeaderPair(k: string, v: string): string {
    k + "=\"" + QueryEscape(v) + "\""
  }

  function HeaderPairs(params: map<string, string>): set<string> {
    set k | k in params :: HeaderPair(k, params[k])
  }

  /** `buildAuthorizationHeader`: the entries, sorted as whole strings and
      joined by `, `, after `OAuth `. */
  function AuthorizationHeader(params: map<string, string>): string {
    "OAuth " + Join(SortSet(HeaderPairs(params)), ", ")
  }

  /** Two header entries are equal only if their keys are, because an
      escaped value holds no quote character. */
  lemma HeaderPairInjective(k1: string, v1: string, k2: string, v2: string)
    requires HeaderPair(k1, v1) == HeaderPair(k2, v2)
    ensures k1 == k2 && QueryEscape(v1) == QueryEscape(v2)
  {
    QueryEscapeAvoids(v1);
    QueryEscapeAvoids(v2);
    QuotedInjective(k1, QueryEscape(v1), k2, QueryEscape(v2));
  }

  lemma QuotedInjective(k1: string, e1: string, k2: string, e2: string)
    requires '"' !in e1 && '"' !in e2
    requires k1 + "=\"" + e1 + "\"" == k2 + "=\"" + e2 + "\""
    ensures k1 == k2 && e1 == e2
  {
    var s := k1 + "=\"" + e1 + "\"";
    var t := s[..|s| - 1];
    assert t == (k1 + ['=']) + ['"'] + e1;
    assert t == (k2 + ['=']) + ['"'] + e2;
    QuoteFreeTail(k1 + ['='], e1);
    QuoteFreeTail(k2 + ['='], e2);
    assert |k1| == |k2|;
    assert k1 == s[..|k1|] == k2;
  }

  /** The longest suffix of `t` without a quote character. */
  function QuoteFreeSuffix(t: string): string
    decreases |t|
  {
    if |t| == 0 || t[|t| - 1] == '"' then "" else QuoteFreeSuffix(t[..|t| - 1]) + [t[|t| - 1]]
  }

  lemma {:induction false} QuoteFreeTail(p: string, e: string)
    requires '"' !in e
    ensures QuoteFreeSuffix(p + ['"'] + e) == e
    decreases |e|
  {
    var t := p + ['"'] + e;
    if |e| > 0 {
      assert t[..|t| - 1] == p + ['"'] + e[..|e| - 1];
      assert e[|e| - 1] in e;
      QuoteFreeTail(p, e[..|e| - 1]);
    }
  }

  lemma {:induction false} HeaderPairsCount(params: map<string, string>)
    ensures |HeaderPairs(params)| == |params|
    decreases |params|
  {
    if |params| > 0 {
      var k :| k in params;
      var rest := params - {k};
      HeaderPairsCount(rest);
      var x := HeaderPair(k, params[k]);
      assert HeaderPairs(params) == HeaderPairs(rest) + {x} by {
        forall y | y in HeaderPairs(params)
          ensures y in HeaderPairs(rest) + {x}
        {
          var j :| j in params && y == HeaderPair(j, params[j]);
          if j != k {
            assert j in rest && rest[j] == params[j];
          }
        }
      }
      assert x !in HeaderPairs(rest) by {
        if x in HeaderPairs(rest) {
          var j :| j in rest && x == HeaderPair(j, rest[j]);
          HeaderPairInjective(j, rest[j], k, params[k]);
        }
      }
      assert |rest| == |params| - 1;
    } else {
      assert HeaderPairs(params) == {};
    }
  }

  /** The header carries one entry per parameter, `k="esc(v)"`, in
      ascending order of the entry strings. */
  lemma AuthorizationHeaderLayout(params: map<string, string>)
    ensures var entries := SortSet(HeaderPairs(params));
            && AuthorizationHeader(params) == "OAuth " + Join(entries, ", ")
            && |entries| == |params|
            && StrictlySorted(entries)
            && (forall k :: k in params ==> HeaderPair(k, params[k]) in entries)
            && (forall i :: 0 <= i < |entries| ==> exists k :: k in params && entries[i] == HeaderPair(k, params[k]))
  {
    HeaderPairsCount(params);
    var entries := SortSet(HeaderPairs(params));
    forall i | 0 <= i < |entries|
      ensures exists k :: k in params && entries[i] == HeaderPair(k, params[k])
    {
      assert entries[i] in HeaderPairs(params);
    }
  }
}
