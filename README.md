# strict-request, modelled in Dafny

strict-request is a small Go helper over `net/http`. Its entry point `StrictRequest(method, url, options)` does five things:

- It picks the request body. Non-nil `BodyBytes` wins over `Body`.
- It builds the request with `http.NewRequest`. A construction error is returned unchanged.
- It adds `Range: bytes=0-N` when `MaxSizeMb > 0`, where N is `int(MaxSizeMb*1000000)`.
- It adds every caller header with `Header.Add`. Nothing is replaced.
- It configures an `http.Client`. The timeout is set when `TimeoutMs > 0`. A `CheckRedirect` hook is installed unless `AllowRedirects` is set.

The hook follows a redirect hop in two cases:

- `AllowHTTPSRedirects` is set, the hop goes from `http` to `https`, and the two URLs are identical under `IsIdenticalURL`.
- `AllowWWWRedirects` is set and the two URLs are identical.

Every other hop stops with `ErrUseLastResponse`. The client then returns the 3xx response itself, not an error. `IsIdenticalURL` compares two URLs after three anchored rewrites:

1. A leading `\w+://` becomes `://`.
2. A leading `://www.` becomes `://`.
3. One trailing `/` is removed.

`Get`, `Post`, `Put` and `Delete` only fix the method.

The Dafny project has these modules:

- `UrlEquivalence` (url_equivalence.dfy) models the three rewrites and `IsIdenticalURL`. As a reference it has a view of URLs as parts (`UrlParts`: scheme, optional `www.`, host-and-path, trailing slashes), with a theorem saying exactly when two such URLs are identical.
- `RedirectPolicy` (redirect_policy.dfy) models the `CheckRedirect` closure as a pure function, plus the decision for a whole set of options (`ShouldFollow`).
- `Decimal` (decimal.dfy) models `%d` formatting, with a reader that inverts it.
- `RangeHeader` (range_header.dfy) models the `bytes=0-N` value. It also has a reader for a single byte range as defined in section 14.1.2 of RFC 9110.
- `RequestOptions` (request_options.dfy) holds the `Options` record.
- `RequestAssembly` (request_assembly.dfy) holds the imperative part. `Request` is a class whose header list grows through `Add`, and `Client` is a class whose fields get set. `StrictRequest` is a method whose header loop is proved against a specification function.
- `Wrappers` (wrappers.dfy) holds Option and Result.

Inputs the model takes from outside:

- What `http.NewRequest` yields (a parsed URL or an error) is a parameter of `StrictRequest`.
- A parsed URL is a pair: the text of `URL.String()` and the `Scheme` field.
- The byte count N is a parameter.
- The order in which `range` visits the header map is a parameter `keys`, required to list every key exactly once. Every property is proved for all such orders.

A nil header map and an empty one behave the same in the source, so both are the empty map here.

## Model

| member | source | states |
|---|---|---|
| UrlEquivalence.IsIdenticalURL | strict_request.go:85-100 | the comparison itself: both URLs are normalised and compared with ==. Its properties are in IdenticalIsEquivalence (an equivalence relation) and IdenticalIffSameRest (exactly when two URLs are identical), and it is used by the example lemmas below |
| UrlEquivalence.Normalize | strict_request.go:86-97 | the three rewrites in the source's order; NormalizeRender gives its result for every well-formed URL, and NormalizeWithoutColon its result when there is no `:` |
| UrlEquivalence.StripWww | strict_request.go:90-92 | rewrite 2, `^://www.` to `://`; what it does is stated by StripWwwAfterMarker, WwwRemovedOnce and OnlyOneWwwRemoved |
| UrlEquivalence.StripTrailingSlash | strict_request.go:94-97 | rewrite 3, `/$` to the empty string; what it does is stated by StripTrailingSlashOf and StripTrailingSlashKeeps |
| UrlEquivalence.WordRunLength | strict_request.go:86 | how far a greedy `^\w+` reaches: every character before the result is a word character, and the next one (if any) is not |
| UrlEquivalence.SchemeMatchIsWordRun | strict_request.go:86 | `^\w+://` can match in one way only: its `\w+` part is the whole leading run of word characters |
| UrlEquivalence.StripScheme | strict_request.go:86-88 | when `^\w+://` matches with `\w+` covering `s[..n]`, the result is `://` followed by `s[n+3..]`; when it matches nowhere, the string is unchanged |
| UrlEquivalence.StripWwwAfterMarker | strict_request.go:90-92 | on a string starting with `://`, the second rewrite drops a `www.` right after the marker and leaves everything else alone |
| UrlEquivalence.StripTrailingSlashOf | strict_request.go:94-97 | of k trailing slashes after a non-slash character, exactly one is removed (none when k = 0) |
| UrlEquivalence.NormalizeRender | strict_request.go:85-98 | a well-formed `scheme://[www.]rest` followed by k slashes normalises to `://rest` followed by max(k-1, 0) slashes |
| UrlEquivalence.IdenticalIsEquivalence | strict_request.go:85-99 | IsIdenticalURL is reflexive, symmetric and transitive |
| UrlEquivalence.IdenticalIffSameRest | strict_request.go:85-99 | two well-formed URLs are identical iff they have the same host-and-path and the same number of trailing slashes beyond the first; scheme and a leading `www.` never matter |
| UrlEquivalence.NormalizeWithoutColon | strict_request.go:86-97 | a string with no `:` is touched only by the trailing-slash rewrite |
| UrlEquivalence.WwwKeptWithoutScheme | strict_request.go:90-92 | without a scheme, `www.host` is not identical to `host` |
| UrlEquivalence.WwwRemovedOnce | strict_request.go:90-92 | after a scheme, exactly one `www.` label is removed, whatever non-empty host-and-path without a trailing slash follows it |
| UrlEquivalence.OnlyOneWwwRemoved | strict_request.go:90-92 | `scheme://www.www.rest` is not identical to `scheme://www.rest` |
| UrlEquivalence.SchemeTestExpectations | strict_request_test.go:163-167 | the test's three assertions, read as statements about IsIdenticalURL: http and https wikipedia.org are identical in both orders, and `wikipedia..org` is not identical to `wikipedia.org` |
| UrlEquivalence.SchemeIgnoredExample | strict_request_test.go:164 | `http://wikipedia.org` is identical to `https://wikipedia.org` |
| UrlEquivalence.DoubleDotExample | strict_request_test.go:166 | `http://wikipedia..org` is not identical to `http://wikipedia.org` |
| UrlEquivalence.WwwExample | strict_request.go:86-92 | `http://www.example.com` is identical to `https://example.com` |
| UrlEquivalence.SlashExamples | strict_request.go:94-97 | `http://example.com/` is identical to `http://example.com`; `http://example.com//` is not |
| UrlEquivalence.BareWwwExample | strict_request.go:90-92 | `www.example.com` is not identical to `example.com` |
| Decimal.Format | strict_request.go:35 | `%d` of a non-negative integer is a non-empty string of digits with a leading 0 exactly when the number is 0 |
| Decimal.ValueOfFormat | strict_request.go:35 | reading back the digits `%d` writes gives the number |
| Decimal.FormatOfValue | strict_request.go:35 | every digit string without a leading zero is what `%d` writes for its value |
| RangeHeader.Value | strict_request.go:35 | the `fmt.Sprintf("bytes=0-%d", N)` value; ValueParses states what it means by reading it back |
| RangeHeader.Parse | strict_request.go:35 | not a model of this line, which only writes the value: a reference reader for one `bytes=first-last` range as section 14.1.2 of RFC 9110 defines it, against which ValueParses checks what the line writes. A range it reads is valid: first <= last |
| RangeHeader.ValueParses | strict_request.go:34-36 | the value sent for N reads back as the inclusive range from byte 0 to byte N, which is N + 1 bytes |
| RedirectPolicy.InstalledHook | strict_request.go:50-51 | a hook is installed exactly when AllowRedirects is false, and it captures the two flags and the original URL; stated through ShouldFollow and DefaultOptionsFollowNothing |
| RedirectPolicy.IsUpgrade | strict_request.go:54 | the scheme test: the original request is `http` and the redirect is `https`; used by the contracts of CheckRedirect and ShouldFollow |
| RedirectPolicy.HopVerdict | strict_request.go:50-62 | the client's decision for one hop: with no hook every hop is followed, otherwise the hook decides; ShouldFollow states the combined decision |
| RedirectPolicy.CheckRedirect | strict_request.go:51-63 | a followed hop leads to a URL identical to the original one; without the www flag only an http-to-https hop is followed; with both flags off nothing is followed; each of the two conditions in the source is enough to follow |
| RedirectPolicy.ShouldFollow | strict_request.go:50-64 | a hop is followed iff AllowRedirects is set, or the upgrade flag is set and the URLs are identical and the hop goes from http to https, or the www flag is set and the URLs are identical |
| RedirectPolicy.ViaIgnored | strict_request.go:51-62 | the decision does not depend on the earlier requests of the chain |
| RedirectPolicy.DefaultOptionsFollowNothing | strict_request.go:50-62 | with zero-valued options a hook is installed and it stops every hop, so the 3xx response comes back |
| RedirectPolicy.UpgradeFollowed | strict_request.go:52-56 | with the upgrade flag, an http-to-https hop to the same host-and-path is followed, with or without `www.` and with at most one trailing slash on either side |
| RedirectPolicy.OtherResourceStops | strict_request.go:52-62 | unless AllowRedirects is set, a hop to a different host-and-path is never followed, whatever the flags and schemes |
| RedirectPolicy.WwwFlagAdmitsDowngrade | strict_request.go:58-60 | the www flag also follows an https-to-http hop to the same URL; the upgrade flag alone does not |
| RedirectPolicy.ChainJudgedPerHop | strict_request.go:51-62 | in a chain, the first hop (an upgrade) is followed and a later hop to another host-and-path is stopped, each judged against the original request |
| RedirectPolicy.RepeatedUpgradeFollowed | strict_request.go:52-54 | because the scheme test reads the original request, an https hop is followed even when the previous hop already went to that same https URL |
| RequestAssembly.ChosenBody | strict_request.go:24-27 | the body: BodyBytes when it is not nil, otherwise Body; StrictRequest attaches it to the request |
| RequestAssembly.ChosenTimeout | strict_request.go:46-48 | the timeout: set only for a positive TimeoutMs; StrictRequest sets it on the client |
| RequestAssembly.CustomHeaders | strict_request.go:38-42 | one pair per visited key, in the visiting order; CustomHeaderValues and OrderIrrelevant state what each key gets |
| RequestAssembly.RangeHeaders | strict_request.go:34-36 | the Range pair, present only for a positive MaxSizeMb; RangeFirst and HeaderValues state where it goes |
| RequestAssembly.AddedHeaders | strict_request.go:34-42 | every header StrictRequest adds: the Range pair, then the custom pairs; HeaderValues states the values each key ends up with |
| RequestAssembly.Request.constructor | strict_request.go:29 | a new request has the given method, URL and body, and no headers |
| RequestAssembly.Request.Add | strict_request.go:35 | adding a header appends the pair and keeps every earlier one |
| RequestAssembly.Client.constructor | strict_request.go:44 | a zero client has no timeout and no redirect hook |
| RequestAssembly.AddCustomHeaders | strict_request.go:38-42 | the loop over the header map appends, in the visiting order, one pair per key with that key's value |
| RequestAssembly.StrictRequest | strict_request.go:23-66 | a construction error is returned unchanged, with no request and no client. Otherwise the request carries the chosen body (BodyBytes over Body) and the Range header (only when MaxSizeMb > 0) followed by the custom headers. The client's timeout is set only when TimeoutMs > 0, and the hook is present exactly when AllowRedirects is false |
| RequestAssembly.Get | strict_request.go:69-71 | StrictRequest with method GET |
| RequestAssembly.Post | strict_request.go:73-75 | StrictRequest with method POST |
| RequestAssembly.Put | strict_request.go:77-79 | StrictRequest with method PUT |
| RequestAssembly.Delete | strict_request.go:81-83 | StrictRequest with method DELETE |
| RequestAssembly.CustomHeaderValues | strict_request.go:38-42 | visiting distinct keys adds exactly one value for each visited key and none for any other key |
| RequestAssembly.HeaderValues | strict_request.go:34-42 | for each key, the values added are the Range value first (only for key Range and MaxSizeMb > 0), then the caller's value for that key if it has one; nothing is replaced |
| RequestAssembly.RangeFirst | strict_request.go:34-42 | when a Range header is added it is the first header; when MaxSizeMb <= 0 only the custom headers are added |
| RequestAssembly.OrderIrrelevant | strict_request.go:38-42 | two visiting orders of the same map give the same values for every key |

## Left out

- `client.Do` is not modelled: the transport, the response, the actual following of redirects, and Go's limit of ten redirects when no hook is installed. These are library I/O. StrictRequest ends with the request and the client that `client.Do` would receive, and `HopVerdict` treats the missing hook as "follow".
- Timeout enforcement and wall-clock behaviour are not modelled. They belong to the client and the clock. In particular there is no distinct timeout error: the source returns whatever `client.Do` returns.
- `http.NewRequest` validation is not modelled; its outcome is the `parsed` parameter. The `url: string` parameter names the text the caller passed.
- URL parsing and serialisation (`URL.String()`, `URL.Scheme`) are not modelled. They are library calls, so a URL is given as its text and its scheme.
- The float32 product `int(MaxSizeMb*1000000)` is not modelled: N is the `rangeEnd` parameter, and `MaxSizeMb` is a `real` used only for its sign.
- RequestAssembly.StrictRequest: the timeout is kept as a number of milliseconds. The int64 nanosecond `time.Duration` product, which wraps for TimeoutMs above about 9.2e12, is not modelled.
- RequestAssembly.HeaderValues: header keys are compared exactly. `Header.Add` canonicalises keys, so in Go caller keys that differ only in letter case (including `range`) share one value list.
- The order of Go map iteration is unspecified, so it is the `keys` parameter. Every header property holds for every order.
- A caller's `io.Reader` is modelled only by its identity. Reading it is I/O.
- With AllowHTTPSRedirects or AllowWWWRedirects set, the installed hook replaces the client's default cap of ten redirects. An https URL that redirects to itself is then followed on every hop (`RedirectPolicy.RepeatedUpgradeFollowed`). The model judges single hops and has no chains of unbounded length.
- Go's regular-expression engine is not modelled. The three patterns are anchored and deterministic, so they become prefix and suffix tests. `\w` is ASCII-only in Go, as it is here. Go strings are UTF-8 bytes and Dafny strings are characters, which agree for the ASCII characters these patterns test.
- strict_request_test.go is not modelled as code. It uses test servers and a live fetch. Its function `IsSameURLDifferentScheme` (lines 163-167) is not defined in the package, so those assertions are stated about `IsIdenticalURL` (`UrlEquivalence.SchemeTestExpectations`).
