/**
  StrictRequest: choosing the body, building the request, adding the Range
  header and the caller's headers, and configuring the client's timeout and
  redirect hook. Sending the request (client.Do) is not part of this model:
  StrictRequest ends with the request and the client it would send it with.
*/
module RequestAssembly {
  import opened Wrappers
  import opened RequestOptions
  import opened RedirectPolicy
  import RangeHeader

  /** The request body: nothing, the caller's reader, or a reader over the caller's bytes. */
  datatype Body = NoBody | ReaderBody(reader: Reader) | BytesBody(bytes: seq<byte>)

  type Header = (string, string)

  /** An outgoing request; `header` lists every Add in the order it happened. */
  class Request {
    const verb: string
    const url: Url
    const body: Body
    var header: seq<Header>

    constructor (verb: string, url: Url, body: Body)
      ensures this.verb == verb && this.url == url && this.body == body
      ensures header == []
    {
      this.verb := verb;
      this.url := url;
      this.body := body;
      header := [];
    }

    /** Header.Add: appends a value for `key`, never replacing an earlier one. */
    method Add(key: string, value: string)
      modifies this
      ensures header == old(header) + [(key, value)]
    {
      header := header + [(key, value)];
    }
  }

  /** The fields of http.Client that StrictRequest sets. A timeout of None is the zero Duration: no limit. */
  class Client {
    var timeout: Option<nat>
    var checkRedirect: Option<RedirectHook>

    constructor ()
      ensures timeout == None && checkRedirect == None
    {
      timeout := None;
      checkRedirect := None;
    }
  }

  /** BodyBytes, when not nil, wins over Body. */
  function ChosenBody(options: Options): Body {
    if options.bodyBytes.Some? then BytesBody(options.bodyBytes.value)
    else if options.body.Some? then ReaderBody(options.body.value)
    else NoBody
  }

  /** The client timeout, in milliseconds; set only for a positive TimeoutMs. */
  function ChosenTimeout(options: Options): Option<nat> {
    if options.timeoutMs > 0 then Some(options.timeoutMs as nat) else None
  }

  /** `keys` is one run of `for k := range m`: every key of `m` exactly once, in some order. */
  ghost predicate Enumerates(keys: seq<string>, m: map<string, string>) {
    && (forall i :: 0 <= i < |keys| ==> keys[i] in m)
    && (forall k :: k in m ==> k in keys)
    && (forall i, j :: 0 <= i < j < |keys| ==> keys[i] != keys[j])
  }

  /** The pairs added for the caller's headers when the map is visited in the order `keys`. */
  function CustomHeaders(m: map<string, string>, keys: seq<string>): (h: seq<Header>)
    requires forall i :: 0 <= i < |keys| ==> keys[i] in m
    ensures |h| == |keys|
  {
    if keys == [] then []
    else
      var k := keys[|keys| - 1];
      CustomHeaders(m, keys[..|keys| - 1]) + [(k, m[k])]
  }

  /** The Range header, present only for a positive MaxSizeMb; `rangeEnd` is int(MaxSizeMb*1000000). */
  function RangeHeaders(options: Options, rangeEnd: nat): seq<Header> {
    if options.maxSizeMb > 0.0 then [("Range", RangeHeader.Value(rangeEnd))] else []
  }

  /** Every header StrictRequest adds, in the order it adds them. */
  function AddedHeaders(options: Options, rangeEnd: nat, keys: seq<string>): seq<Header>
    requires forall i :: 0 <= i < |keys| ==> keys[i] in options.headers
  {
    RangeHeaders(options, rangeEnd) + CustomHeaders(options.headers, keys)
  }

  /** The values recorded for `key`, in the order they were added (Header.Values, without key canonicalisation). */
  function Values(h: seq<Header>, key: string): (vs: seq<string>)
    ensures |vs| <= |h|
  {
    if h == [] then []
    else Values(h[..|h| - 1], key) + (if h[|h| - 1].0 == key then [h[|h| - 1].1] else [])
  }

  /** The state StrictRequest leaves `req` and `client` in. */
  ghost predicate Assembled(req: Request, client: Client, verb: string, url: Url, options: Options,
                            keys: seq<string>, rangeEnd: nat)
    reads req, client
  {
    && (forall i :: 0 <= i < |keys| ==> keys[i] in options.headers)
    && req.verb == verb
    && req.url == url
    && req.body == ChosenBody(options)
    && req.header == AddedHeaders(options, rangeEnd, keys)
    && client.timeout == ChosenTimeout(options)
    && client.checkRedirect == InstalledHook(options, url)
  }

  /**
    StrictRequest up to the call of client.Do. `parsed` is what http.NewRequest
    makes of `verb` and `url`: the parsed URL, or its error, which is returned
    as it is. `keys` is the order in which the header map is visited, and
    `rangeEnd` is int(MaxSizeMb * 1000000).
  */
  method StrictRequest(verb: string, url: string, options: Options, parsed: Result<Url, string>,
                       keys: seq<string>, rangeEnd: nat)
    returns (req: Request?, client: Client?, err: Option<string>)
    requires Enumerates(keys, options.headers)
    ensures parsed.Failure? ==> req == null && client == null && err == Some(parsed.error)
    ensures parsed.Success? ==> && err == None && req != null && client != null
                                && fresh(req) && fresh(client)
                                && Assembled(req, client, verb, parsed.value, options, keys, rangeEnd)
  {
    var body := if options.body.Some? then ReaderBody(options.body.value) else NoBody;
    if options.bodyBytes.Some? {
      body := BytesBody(options.bodyBytes.value);
    }

    if parsed.Failure? {
      return null, null, Some(parsed.error);
    }
    req := new Request(verb, parsed.value, body);

    if options.maxSizeMb > 0.0 {
      req.Add("Range", RangeHeader.Value(rangeEnd));
    }

    AddCustomHeaders(req, options.headers, keys);
    assert req.header == AddedHeaders(options, rangeEnd, keys);

    client := new Client();
    if options.timeoutMs > 0 {
      client.timeout := Some(options.timeoutMs as nat);
    }
    if !options.allowRedirects {
      client.checkRedirect := Some(RedirectHook(options.allowHttpsRedirects, options.allowWwwRedirects, req.url));
    }
    assert client.timeout == ChosenTimeout(options);
    assert client.checkRedirect == InstalledHook(options, req.url);
    err := None;
  }

  /** The `for k, v := range options.Headers { req.Header.Add(k, v) }` loop, visiting the keys in the order `keys`. */
  method AddCustomHeaders(req: Request, m: map<string, string>, keys: seq<string>)
    requires forall i :: 0 <= i < |keys| ==> keys[i] in m
    modifies req
    ensures req.header == old(req.header) + CustomHeaders(m, keys)
  {
    var i := 0;
    while i < |keys|
      invariant 0 <= i <= |keys|
      invariant req.header == old(req.header) + CustomHeaders(m, keys[..i])
    {
      var k := keys[i];
      req.Add(k, m[k]);
      assert keys[..i + 1][..i] == keys[..i];
      i := i + 1;
    }
    assert keys[..|keys|] == keys;
  }

  method Get(url: string, options: Options, parsed: Result<Url, string>, keys: seq<string>, rangeEnd: nat)
    returns (req: Request?, client: Client?, err: Option<string>)
    requires Enumerates(keys, options.headers)
    ensures parsed.Failure? ==> req == null && client == null && err == Some(parsed.error)
    ensures parsed.Success? ==> && err == None && req != null && client != null
                                && fresh(req) && fresh(client)
                                && Assembled(req, client, "GET", parsed.value, options, keys, rangeEnd)
  {
    req, client, err := StrictRequest("GET", url, options, parsed, keys, rangeEnd);
  }

  method Post(url: string, options: Options, parsed: Result<Url, string>, keys: seq<string>, rangeEnd: nat)
    returns (req: Request?, client: Client?, err: Option<string>)
    requires Enumerates(keys, options.headers)
    ensures parsed.Failure? ==> req == null && client == null && err == Some(parsed.error)
    ensures parsed.Success? ==> && err == None && req != null && client != null
                                && fresh(req) && fresh(client)
                                && Assembled(req, client, "POST", parsed.value, options, keys, rangeEnd)
  {
    req, client, err := StrictRequest("POST", url, options, parsed, keys, rangeEnd);
  }

  method Put(url: string, options: Options, parsed: Result<Url, string>, keys: seq<string>, rangeEnd: nat)
    returns (req: Request?, client: Client?, err: Option<string>)
    requires Enumerates(keys, options.headers)
    ensures parsed.Failure? ==> req == null && client == null && err == Some(parsed.error)
    ensures parsed.Success? ==> && err == None && req != null && client != null
                                && fresh(req) && fresh(client)
                                && Assembled(req, client, "PUT", parsed.value, options, keys, rangeEnd)
  {
    req, client, err := StrictRequest("PUT", url, options, parsed, keys, rangeEnd);
  }

  method Delete(url: string, options: Options, parsed: Result<Url, string>, keys: seq<string>, rangeEnd: nat)
    returns (req: Request?, client: Client?, err: Option<string>)
    requires Enumerates(keys, options.headers)
    ensures parsed.Failure? ==> req == null && client == null && err == Some(parsed.error)
    ensures parsed.Success? ==> && err == None && req != null && client != null
                                && fresh(req) && fresh(client)
                                && Assembled(req, client, "DELETE", parsed.value, options, keys, rangeEnd)
  {
    req, client, err := StrictRequest("DELETE", url, options, parsed, keys, rangeEnd);
  }

  // ---------------------------------------------------------------------
  // What the assembled headers mean
  // ---------------------------------------------------------------------

  lemma {:induction false} ValuesAppend(a: seq<Header>, b: seq<Header>, key: string)
    ensures Values(a + b, key) == Values(a, key) + Values(b, key)
    decreases |b|
  {
    if b == [] {
      assert a + b == a;
    } else {
      var b' := b[..|b| - 1];
      ValuesAppend(a, b', key);
      assert (a + b)[..|a + b| - 1] == a + b';
      assert b[|b| - 1] == (a + b)[|a + b| - 1];
    }
  }

  /** Visiting distinct keys adds one value for each of them and none for any other key. */
  lemma {:induction false} CustomHeaderValues(m: map<string, string>, keys: seq<string>, key: string)
    requires forall i :: 0 <= i < |keys| ==> keys[i] in m
    requires forall i, j :: 0 <= i < j < |keys| ==> keys[i] != keys[j]
    ensures Values(CustomHeaders(m, keys), key) == if key in keys then [m[key]] else []
    decreases |keys|
  {
    if keys != [] {
      var p := keys[..|keys| - 1];
      var last := keys[|keys| - 1];
      CustomHeaderValues(m, p, key);
      var h := CustomHeaders(m, keys);
      assert h[..|h| - 1] == CustomHeaders(m, p);
      assert key in keys <==> key in p || key == last by {
        assert keys == p + [last];
      }
      assert last !in p;
    }
  }

  /**
    The headers StrictRequest adds, key by key: a Range header first and only when
    MaxSizeMb is positive, then each caller header once with its value, whatever
    the order of the map; nothing added earlier is replaced.
  */
  lemma HeaderValues(options: Options, rangeEnd: nat, keys: seq<string>, key: string)
    requires Enumerates(keys, options.headers)
    ensures Values(AddedHeaders(options, rangeEnd, keys), key)
         == (if key == "Range" && options.maxSizeMb > 0.0 then [RangeHeader.Value(rangeEnd)] else [])
          + (if key in options.headers then [options.headers[key]] else [])
  {
    var r := RangeHeaders(options, rangeEnd);
    var c := CustomHeaders(options.headers, keys);
    assert AddedHeaders(options, rangeEnd, keys) == r + c;
    ValuesAppend(r, c, key);
    RangeHeaderValues(options, rangeEnd, key);
    CustomHeaderValues(options.headers, keys, key);
  }

  lemma RangeHeaderValues(options: Options, rangeEnd: nat, key: string)
    ensures Values(RangeHeaders(options, rangeEnd), key)
         == if key == "Range" && options.maxSizeMb > 0.0 then [RangeHeader.Value(rangeEnd)] else []
  {
    var r := RangeHeaders(options, rangeEnd);
    if r != [] {
      assert r[..|r| - 1] == [];
    }
  }

  /** The Range header, when there is one, is the first header added. */
  lemma RangeFirst(options: Options, rangeEnd: nat, keys: seq<string>)
    requires Enumerates(keys, options.headers)
    ensures options.maxSizeMb > 0.0 ==> AddedHeaders(options, rangeEnd, keys)[0] == ("Range", RangeHeader.Value(rangeEnd))
    ensures options.maxSizeMb <= 0.0 ==> AddedHeaders(options, rangeEnd, keys) == CustomHeaders(options.headers, keys)
  {
  }

  /** Two visiting orders of the same map give the same values for every key. */
  lemma OrderIrrelevant(options: Options, rangeEnd: nat, keys1: seq<string>, keys2: seq<string>, key: string)
    requires Enumerates(keys1, options.headers) && Enumerates(keys2, options.headers)
    ensures Values(AddedHeaders(options, rangeEnd, keys1), key) == Values(AddedHeaders(options, rangeEnd, keys2), key)
  {
    HeaderValues(options, rangeEnd, keys1, key);
    HeaderValues(options, rangeEnd, keys2, key);
  }
}
