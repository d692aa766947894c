/** The command-line entry point's own logic: reading settings from the
    environment, formatting the GitHub Actions output line, and deciding
    how the API client gets its credentials. The environment is a map, the
    command-line flags a record, and the token exchange an oracle from
    username and password to `GetToken`'s reply. */
module Cli {

  import opened Results
  import opened Text
  import opened Decimal
  import opened Retry
  import opened Instapaper

  // ---------------------------------------------------------------------
  // Environment
  // ---------------------------------------------------------------------

  type Env = map<string, string>

  /** `os.Getenv`: an unset variable reads as the empty string. */
  function Getenv(env: Env, key: string): string {
    if key in env then env[key] else ""
  }

  /** `getEnvVar`: the variable itself, else its `INPUT_`-prefixed form
      (how GitHub Actions passes inputs), else the default; an empty value
      counts as unset. */
  function GetEnvVar(env: Env, key: string, default: string): (v: string)
    ensures Getenv(env, key) != "" ==> v == Getenv(env, key)
    ensures Getenv(env, key) == "" && Getenv(env, "INPUT_" + key) != "" ==> v == Getenv(env, "INPUT_" + key)
    ensures Getenv(env, key) == "" && Getenv(env, "INPUT_" + key) == "" ==> v == default
  {
    var direct := Getenv(env, key);
    if direct != "" then direct
    else
      var input := Getenv(env, "INPUT_" + key);
      if input != "" then input else default
  }

  /** Setting a variable to the empty string is the same as unsetting it. */
  lemma EmptyIsUnset(env: Env, key: string, name: string, default: string)
    requires name == key || name == "INPUT_" + key
    ensures GetEnvVar(env[name := ""], key, default) == GetEnvVar(env - {name}, key, default)
  {
  }

  /** The result is always one of the three candidates, and it is empty
      only when all three are. */
  lemma GetEnvVarCandidates(env: Env, key: string, default: string)
    ensures var v := GetEnvVar(env, key, default);
            v == Getenv(env, key) || v == Getenv(env, "INPUT_" + key) || v == default
    ensures GetEnvVar(env, key, default) == "" <==>
              Getenv(env, key) == "" && Getenv(env, "INPUT_" + key) == "" && default == ""
  {
  }

  /** A plain variable shadows its `INPUT_` form whatever that holds. */
  lemma PlainShadowsInput(env: Env, key: string, value: string, other: string, default: string)
    requires value != ""
    ensures GetEnvVar(env[key := value]["INPUT_" + key := other], key, default) == value
  {
    assert key != "INPUT_" + key by {
      assert |"INPUT_" + key| > |key|;
    }
  }

  // ---------------------------------------------------------------------
  // GitHub Actions output
  // ---------------------------------------------------------------------

  const HeredocOpen := "<<OUTPUT\n"
  const HeredocClose := "\nOUTPUT"

  /** `formatOutput`: nothing for an empty value, the heredoc form
      `name<<OUTPUT`, value, `OUTPUT` for a value holding a newline, and
      `name=value` otherwise. */
  function FormatOutput(name: string, value: string): (line: string)
    ensures value == "" <==> line == ""
    ensures value != "" && '\n' !in value ==> line == name + "=" + value
    ensures value != "" && '\n' in value ==> line == name + HeredocOpen + value + HeredocClose
  {
    if value == "" then ""
    else if '\n' in value then name + HeredocOpen + value + HeredocClose
    else name + "=" + value
  }

  datatype OutputVar = OutputVar(name: string, value: string)

  const Delimiter := "OUTPUT"

  /** Where the name of an output line ends: the first `=` or `<`. */
  function NameEnd(s: string): (i: nat)
    ensures i <= |s|
    ensures forall j :: 0 <= j < i ==> s[j] != '=' && s[j] != '<'
    ensures i < |s| ==> s[i] == '=' || s[i] == '<'
    decreases |s|
  {
    if |s| == 0 then 0
    else if s[0] == '=' || s[0] == '<' then 0
    else 1 + NameEnd(s[1..])
  }

  /** Index of the first line equal to `d`, or the number of lines. */
  function FirstLine(lines: seq<string>, d: string): (k: nat)
    ensures k <= |lines|
    ensures forall j :: 0 <= j < k ==> lines[j] != d
    ensures k < |lines| ==> lines[k] == d
    decreases |lines|
  {
    if |lines| == 0 then 0
    else if lines[0] == d then 0
    else 1 + FirstLine(lines[1..], d)
  }

  /** A closing line after lines that all differ from it is the first match. */
  lemma {:induction false} FirstLineAfter(v: seq<string>, d: string)
    requires forall k :: 0 <= k < |v| ==> v[k] != d
    ensures FirstLine(v + [d], d) == |v|
    decreases |v|
  {
    if |v| == 0 {
      assert v + [d] == [d];
    } else {
      assert (v + [d])[0] == v[0];
      assert (v + [d])[1..] == v[1..] + [d];
      FirstLineAfter(v[1..], d);
    }
  }

  /** How the GitHub Actions runner reads one record of the output file:
      `name=value` on a single line; or a `name<<OUTPUT` line, the value
      lines, and a closing line that is the FIRST line equal to `OUTPUT`.
      Anything after the closing line would be a further record, so a
      record followed by stray text does not read as this one. */
  function ParseOutput(text: string): Option<OutputVar> {
    var lines := Split(text, '\n');
    var head := lines[0];
    var i := NameEnd(head);
    if i == |head| then None
    else if head[i] == '=' then
      if |lines| == 1 then Some(OutputVar(head[..i], head[i + 1..])) else None
    else if head[i..] == "<<" + Delimiter then
      var body := lines[1..];
      var k := FirstLine(body, Delimiter);
      if k + 1 == |body| then Some(OutputVar(head[..i], Join(body[..k], "\n"))) else None
    else None
  }

  lemma {:induction false} NameEndPrefix(name: string, rest: string)
    requires forall j :: 0 <= j < |name| ==> name[j] != '=' && name[j] != '<'
    requires |rest| > 0 && (rest[0] == '=' || rest[0] == '<')
    ensures NameEnd(name + rest) == |name|
    decreases |name|
  {
    if |name| > 0 {
      assert (name + rest)[0] == name[0];
      assert (name + rest)[1..] == name[1..] + rest;
      NameEndPrefix(name[1..], rest);
    } else {
      assert name + rest == rest;
    }
  }

  /** No line of `value` is the heredoc delimiter. */
  ghost predicate DelimiterFree(value: string) {
    forall k :: 0 <= k < |Split(value, '\n')| ==> Split(value, '\n')[k] != Delimiter
  }

  /** Splitting `head`, a line break, `value`, a line break and `last`
      into lines, where neither `head` nor `last` holds a line break. */
  lemma SplitFramed(head: string, value: string, last: string)
    requires '\n' !in head && '\n' !in last
    ensures Split(head + ['\n'] + value + ['\n'] + last, '\n') == [head] + Split(value, '\n') + [last]
  {
    assert head + ['\n'] + value + ['\n'] + last == head + ['\n'] + (value + ['\n'] + last);
    SplitAround(head, value + ['\n'] + last, '\n');
    SplitAround(value, last, '\n');
  }

  /** The lines of a heredoc record: the `name<<OUTPUT` line, the lines of
      the value, and the closing `OUTPUT`. */
  lemma HeredocLines(name: string, value: string)
    requires '\n' !in name
    ensures Split(name + HeredocOpen + value + HeredocClose, '\n')
         == [name + "<<" + Delimiter] + Split(value, '\n') + [Delimiter]
  {
    var head := name + "<<" + Delimiter;
    var d := Delimiter;
    assert '\n' !in d;
    assert name + HeredocOpen + value + HeredocClose == head + ['\n'] + value + ['\n'] + d;
    SplitFramed(head, value, d);
  }

  /** The opening line of a heredoc record names the variable and carries
      the delimiter. */
  lemma HeredocHead(name: string)
    requires forall j :: 0 <= j < |name| ==> name[j] != '=' && name[j] != '<'
    ensures var head := name + "<<" + Delimiter;
            && NameEnd(head) == |name|
            && head[..|name|] == name
            && head[|name|..] == "<<" + Delimiter
  {
    var t := "<<" + Delimiter;
    var head := name + t;
    assert name + "<<" + Delimiter == head;
    NameEndPrefix(name, t);
    assert head[..|name|] == name;
    assert head[|name|..] == t;
  }

  /** After the opening line, the value lines end at the closing line. */
  lemma ReadBody(head: string, v: seq<string>, d: string)
    requires forall k :: 0 <= k < |v| ==> v[k] != d
    ensures var body := ([head] + v + [d])[1..];
            && FirstLine(body, d) + 1 == |body|
            && body[..FirstLine(body, d)] == v
  {
    FirstLineAfter(v, d);
    assert ([head] + v + [d])[1..] == v + [d];
  }

  /** The heredoc form reads back when no line of the value is `OUTPUT`. */
  lemma HeredocRoundTrip(name: string, value: string)
    requires forall j :: 0 <= j < |name| ==> name[j] != '=' && name[j] != '<'
    requires '\n' !in name
    requires DelimiterFree(value)
    ensures ParseOutput(name + HeredocOpen + value + HeredocClose) == Some(OutputVar(name, value))
  {
    var v := Split(value, '\n');
    HeredocLines(name, value);
    HeredocHead(name);
    ReadBody(name + "<<" + Delimiter, v, Delimiter);
    JoinSplit(value, '\n');
  }

  /** The one-line form reads back for a value without a line break. */
  lemma OneLineRoundTrip(name: string, value: string)
    requires forall j :: 0 <= j < |name| ==> name[j] != '=' && name[j] != '<'
    requires '\n' !in name && '\n' !in value
    ensures ParseOutput(name + "=" + value) == Some(OutputVar(name, value))
  {
    var line := name + "=" + value;
    var rest := "=" + value;
    assert line == name + rest;
    assert '\n' !in line;
    NameEndPrefix(name, rest);
    assert line[..|name|] == name;
    assert line[|name| + 1..] == value;
  }

  /** Every non-empty value written under a name free of `=`, `<` and line
      breaks reads back exactly, in either form, as long as no line of the
      value is the delimiter `OUTPUT`. */
  lemma FormatOutputRoundTrip(name: string, value: string)
    requires forall j :: 0 <= j < |name| ==> name[j] != '=' && name[j] != '<'
    requires '\n' !in name
    requires value != ""
    requires DelimiterFree(value)
    ensures ParseOutput(FormatOutput(name, value)) == Some(OutputVar(name, value))
  {
    if '\n' in value {
      HeredocRoundTrip(name, value);
    } else {
      OneLineRoundTrip(name, value);
    }
  }

  /** The lines of a heredoc record around a value `a`, `d`, `b` whose
      middle line is the closing line `d`. */
  lemma SplitEarlyClose(head: string, a: string, d: string, b: string)
    requires '\n' !in head && '\n' !in a && '\n' !in d && '\n' !in b
    ensures Split(head + ['\n'] + (a + ['\n'] + d + ['\n'] + b) + ['\n'] + d, '\n') == [head, a, d, b, d]
  {
    SplitFramed(head, a + ['\n'] + d + ['\n'] + b, d);
    SplitFramed(a, d, b);
    assert Split(d, '\n') == [d];
  }

  /** The fixed delimiter can collide with the value: when a line of the
      value is `OUTPUT`, the runner closes the record there, and the record
      does not read back. `"a\nOUTPUT\nb"` is such a value. */
  lemma DelimiterInValueBreaksRoundTrip(name: string, a: string, b: string)
    requires '\n' !in name && '\n' !in a && '\n' !in b
    ensures ParseOutput(FormatOutput(name, a + "\n" + Delimiter + "\n" + b)) == None
  {
    var d := Delimiter;
    var head := name + "<<" + d;
    assert '\n' !in d && '\n' !in head;
    var value := a + ['\n'] + d + ['\n'] + b;
    assert a + "\n" + Delimiter + "\n" + b == value;
    assert value[|a|] == '\n';
    assert FormatOutput(name, value) == head + ['\n'] + value + ['\n'] + d;
    SplitEarlyClose(head, a, d, b);
    var body := [a, d, b, d];
    assert body[1] == d;
    assert FirstLine(body, d) <= 1;
  }

  /** The count reported after a run is always the one-line form. */
  lemma CountOutputIsOneLine(n: int)
    ensures FormatOutput("new_bookmarks_count", Itoa(n)) == "new_bookmarks_count=" + Itoa(n)
  {
    ItoaHasNoSeparators(n);
  }

  // ---------------------------------------------------------------------
  // createInstapaperClient
  // ---------------------------------------------------------------------

  /** The `-username` and `-password` flags. */
  datatype Flags = Flags(username: string, password: string)

  /** The client, or the error, and whether the token exchange took place. */
  datatype Setup = Setup(client: Result<Client>, exchanged: bool)

  const ClientTimeout := 5 * Second

  const MissingKey := "INSTAPAPER_CONSUMER_KEY environment variable is not set"
  const MissingSecret := "INSTAPAPER_CONSUMER_SECRET environment variable is not set"
  const MissingUsername := "username is required if token and token secret are not set"

  /** The options the entry point passes to `NewClient`: a 5 s timeout,
      and the stored token pair when both halves are set. */
  function ClientOptions(token: string, tokenSecret: string): seq<ClientOption> {
    if token != "" && tokenSecret != "" then [WithTimeout(ClientTimeout), WithToken(token, tokenSecret)]
    else [WithTimeout(ClientTimeout)]
  }

  /** The client those options produce: the defaults with a 5 s timeout
      and an HTTP client built from it, plus the stored token pair. */
  lemma ClientOptionsEffect(consumerKey: string, consumerSecret: string, token: string, tokenSecret: string)
    requires consumerKey != "" && consumerSecret != ""
    ensures var d := Defaults(consumerKey, consumerSecret).(timeout := ClientTimeout, httpClient := Some(HttpClient(ClientTimeout)));
            NewClient(consumerKey, consumerSecret, ClientOptions(token, tokenSecret))
              == Ok(if token != "" && tokenSecret != "" then d.(token := token, tokenSecret := tokenSecret) else d)
  {
    var d := Defaults(consumerKey, consumerSecret);
    var opts := ClientOptions(token, tokenSecret);
    if token != "" && tokenSecret != "" {
      var d1 := d.(timeout := ClientTimeout);
      assert opts[1..] == [WithToken(token, tokenSecret)];
      assert opts[1..][1..] == [];
      assert ApplyAll(opts[1..][1..], d1.(token := token, tokenSecret := tokenSecret)) == Ok(d1.(token := token, tokenSecret := tokenSecret));
      assert ApplyAll(opts[1..], d1) == Ok(d1.(token := token, tokenSecret := tokenSecret));
      assert ApplyAll(opts, d) == Ok(d1.(token := token, tokenSecret := tokenSecret));
    } else {
      assert opts[1..] == [];
      assert ApplyAll(opts, d) == Ok(d.(timeout := ClientTimeout));
    }
  }

  /** `createInstapaperClient`. `getToken(username, password)` is what the
      client's `GetToken` answers. */
  function CreateClient(env: Env, flags: Flags, getToken: (string, string) -> TokenReply): (s: Setup)
    // the checks that fail before anything else happens, in order
    ensures GetEnvVar(env, "INSTAPAPER_CONSUMER_KEY", "") == "" ==> s == Setup(Err(MissingKey), false)
    ensures GetEnvVar(env, "INSTAPAPER_CONSUMER_KEY", "") != "" && GetEnvVar(env, "INSTAPAPER_CONSUMER_SECRET", "") == "" ==>
              s == Setup(Err(MissingSecret), false)
    // the exchange happens exactly when the consumer pair is set, the token
    // pair is not complete and a username was given
    ensures s.exchanged <==>
              && GetEnvVar(env, "INSTAPAPER_CONSUMER_KEY", "") != ""
              && GetEnvVar(env, "INSTAPAPER_CONSUMER_SECRET", "") != ""
              && (GetEnvVar(env, "INSTAPAPER_TOKEN", "") == "" || GetEnvVar(env, "INSTAPAPER_TOKEN_SECRET", "") == "")
              && flags.username != ""
    ensures s.exchanged ==> (s.client.Ok? <==> getToken(flags.username, flags.password).err.None?)
    ensures s.exchanged && s.client.Err? ==>
              s.client.error == "error getting token: " + getToken(flags.username, flags.password).err.value
    // a client carries the consumer pair from the environment, a 5 s HTTP
    // client, and the token pair either stored or just obtained
    ensures s.client.Ok? ==>
              && s.client.value.consumerKey == GetEnvVar(env, "INSTAPAPER_CONSUMER_KEY", "")
              && s.client.value.consumerSecret == GetEnvVar(env, "INSTAPAPER_CONSUMER_SECRET", "")
              && s.client.value.httpClient == Some(HttpClient(ClientTimeout))
              && s.client.value.retryConfig == DefaultRetryConfig
    ensures s.client.Ok? && !s.exchanged ==>
              && s.client.value.token == GetEnvVar(env, "INSTAPAPER_TOKEN", "") != ""
              && s.client.value.tokenSecret == GetEnvVar(env, "INSTAPAPER_TOKEN_SECRET", "") != ""
    ensures s.client.Ok? && s.exchanged ==>
              && s.client.value.token == getToken(flags.username, flags.password).token
              && s.client.value.tokenSecret == getToken(flags.username, flags.password).secret
  {
    var consumerKey := GetEnvVar(env, "INSTAPAPER_CONSUMER_KEY", "");
    if consumerKey == "" then Setup(Err(MissingKey), false)
    else
      var consumerSecret := GetEnvVar(env, "INSTAPAPER_CONSUMER_SECRET", "");
      if consumerSecret == "" then Setup(Err(MissingSecret), false)
      else
        var token := GetEnvVar(env, "INSTAPAPER_TOKEN", "");
        var tokenSecret := GetEnvVar(env, "INSTAPAPER_TOKEN_SECRET", "");
        var stored := token != "" && tokenSecret != "";
        if !stored && flags.username == "" then Setup(Err(MissingUsername), false)
        else
          var opts := ClientOptions(token, tokenSecret);
          ClientOptionsEffect(consumerKey, consumerSecret, token, tokenSecret);
          match NewClient(consumerKey, consumerSecret, opts)
          case Err(e) => Setup(Err("error creating Instapaper client: " + e), false)
          case Ok(client) =>
            if stored then Setup(Ok(client), false)
            else
              var reply := getToken(flags.username, flags.password);
              if reply.err.Some? then Setup(Err("error getting token: " + reply.err.value), true)
              else Setup(Ok(client.(token := reply.token, tokenSecret := reply.secret)), true)
  }

  /** Without a complete stored token pair and without a username, the
      entry point refuses to start and never asks for a token. */
  lemma UsernameRequiredWithoutToken(env: Env, flags: Flags, getToken: (string, string) -> TokenReply)
    requires GetEnvVar(env, "INSTAPAPER_CONSUMER_KEY", "") != ""
    requires GetEnvVar(env, "INSTAPAPER_CONSUMER_SECRET", "") != ""
    requires GetEnvVar(env, "INSTAPAPER_TOKEN", "") == "" || GetEnvVar(env, "INSTAPAPER_TOKEN_SECRET", "") == ""
    requires flags.username == ""
    ensures CreateClient(env, flags, getToken) == Setup(Err(MissingUsername), false)
  {
  }

  /** With the consumer pair set and a complete stored token pair, a client
      is always created, whatever the flags and the token endpoint say. */
  lemma StoredTokenAlwaysSucceeds(env: Env, flags: Flags, getToken: (string, string) -> TokenReply)
    requires GetEnvVar(env, "INSTAPAPER_CONSUMER_KEY", "") != ""
    requires GetEnvVar(env, "INSTAPAPER_CONSUMER_SECRET", "") != ""
    requires GetEnvVar(env, "INSTAPAPER_TOKEN", "") != "" && GetEnvVar(env, "INSTAPAPER_TOKEN_SECRET", "") != ""
    ensures CreateClient(env, flags, getToken).client.Ok?
    ensures !CreateClient(env, flags, getToken).exchanged
  {
  }

  /** A token endpoint that answers as `GetToken` does (success exactly
      when both halves are non-empty) always leaves a successfully created
      client with a complete token pair. */
  lemma CreatedClientHasToken(env: Env, flags: Flags, getToken: (string, string) -> TokenReply)
    requires forall u, p :: getToken(u, p).err.None? <==> getToken(u, p).token != "" && getToken(u, p).secret != ""
    requires CreateClient(env, flags, getToken).client.Ok?
    ensures CreateClient(env, flags, getToken).client.value.token != ""
    ensures CreateClient(env, flags, getToken).client.value.tokenSecret != ""
  {
  }
}
