/**
  The per-hop redirect decision: the function StrictRequest installs as the
  client's CheckRedirect hook when AllowRedirects is false.
*/
module RedirectPolicy {
  import opened Wrappers
  import opened UrlEquivalence
  import opened RequestOptions

  /** A parsed URL as the HTTP library hands it over: its String() and its Scheme field. */
  datatype Url = Url(text: string, scheme: string)

  /** What the hook captures: two of the options, and the URL of the request first sent. */
  datatype RedirectHook = RedirectHook(allowHttps: bool, allowWww: bool, original: Url)

  /** What a hook tells the client: follow the hop, or stop and hand back the 3xx response (ErrUseLastResponse). */
  datatype Verdict = Follow | UseLastResponse

  /** The hook StrictRequest installs: none at all when every redirect is allowed. */
  function InstalledHook(options: Options, original: Url): Option<RedirectHook> {
    if options.allowRedirects then None
    else Some(RedirectHook(options.allowHttpsRedirects, options.allowWwwRedirects, original))
  }

  predicate IsUpgrade(from: Url, to: Url) {
    from.scheme == "http" && to.scheme == "https"
  }

  /**
    The hook's decision for one hop to `redirect`. `via` (the requests made so far)
    is accepted and never read: each hop is judged against the original request.
  */
  function CheckRedirect(hook: RedirectHook, redirect: Url, via: seq<Url>): (v: Verdict)
    // a followed hop always leads to an equivalent URL
    ensures v == Follow ==> IsIdenticalURL(redirect.text, hook.original.text)
    // without the www flag, only an http-to-https hop is followed
    ensures v == Follow && !hook.allowWww ==> IsUpgrade(hook.original, redirect)
    // with both flags off, nothing is followed
    ensures !hook.allowHttps && !hook.allowWww ==> v == UseLastResponse
    // the two ways a hop is followed
    ensures (hook.allowHttps && IsIdenticalURL(redirect.text, hook.original.text)
             && IsUpgrade(hook.original, redirect)) ==> v == Follow
    ensures hook.allowWww && IsIdenticalURL(redirect.text, hook.original.text) ==> v == Follow
  {
    if hook.allowHttps && IsIdenticalURL(redirect.text, hook.original.text)
       && hook.original.scheme == "http" && redirect.scheme == "https"
    then Follow
    else if hook.allowWww && IsIdenticalURL(redirect.text, hook.original.text) then Follow
    else UseLastResponse
  }

  /**
    The client's decision for one hop. With no hook the client's default policy
    follows; its limit of ten redirects is not part of this model.
  */
  function HopVerdict(hook: Option<RedirectHook>, redirect: Url, via: seq<Url>): Verdict {
    if hook.None? then Follow else CheckRedirect(hook.value, redirect, via)
  }

  /** Whether a request sent to `original` with `options` follows a redirect to `redirect`. */
  function ShouldFollow(options: Options, original: Url, redirect: Url, via: seq<Url>): (follow: bool)
    ensures follow <==>
      || options.allowRedirects
      || (options.allowHttpsRedirects && IsIdenticalURL(redirect.text, original.text)
          && IsUpgrade(original, redirect))
      || (options.allowWwwRedirects && IsIdenticalURL(redirect.text, original.text))
  {
    HopVerdict(InstalledHook(options, original), redirect, via) == Follow
  }

  /** The earlier hops never matter. */
  lemma ViaIgnored(options: Options, original: Url, redirect: Url, via1: seq<Url>, via2: seq<Url>)
    ensures ShouldFollow(options, original, redirect, via1) == ShouldFollow(options, original, redirect, via2)
  {
  }

  /** With `Options{}`, no redirect is followed: the 3xx response itself comes back, with no error. */
  lemma DefaultOptionsFollowNothing(original: Url, redirect: Url, via: seq<Url>)
    ensures InstalledHook(Default, original).Some?
    ensures HopVerdict(InstalledHook(Default, original), redirect, via) == UseLastResponse
  {
  }

  /**
    The scheme-upgrade flag follows an http-to-https hop to the same host and path,
    with or without a "www." on either side and with at most one trailing slash each.
  */
  lemma UpgradeFollowed(options: Options, from: UrlParts, to: UrlParts, via: seq<Url>)
    requires options.allowHttpsRedirects
    requires WellFormed(from) && WellFormed(to) && from.rest == to.rest
    requires from.slashes <= 1 && to.slashes <= 1
    ensures ShouldFollow(options, Url(Render(from), "http"), Url(Render(to), "https"), via)
  {
    IdenticalIffSameRest(to, from);
  }

  /** Unless every redirect is allowed, a hop to another host or path is never followed, whatever the flags. */
  lemma OtherResourceStops(options: Options, origin: UrlParts, target: UrlParts,
                           originScheme: string, targetScheme: string, via: seq<Url>)
    requires !options.allowRedirects
    requires WellFormed(origin) && WellFormed(target) && origin.rest != target.rest
    ensures !ShouldFollow(options, Url(Render(origin), originScheme), Url(Render(target), targetScheme), via)
  {
    IdenticalIffSameRest(target, origin);
  }

  /**
    The www flag compares URLs without their schemes, so it also follows an
    https-to-http downgrade; the scheme-upgrade flag alone does not.
  */
  lemma WwwFlagAdmitsDowngrade(u: UrlParts, via: seq<Url>)
    requires WellFormed(u)
    ensures ShouldFollow(Default.(allowWwwRedirects := true),
                         Url(Render(u.(scheme := "https")), "https"), Url(Render(u.(scheme := "http")), "http"), via)
    ensures !ShouldFollow(Default.(allowHttpsRedirects := true),
                          Url(Render(u.(scheme := "https")), "https"), Url(Render(u.(scheme := "http")), "http"), via)
  {
    WebSchemesWellFormed(u);
    IdenticalIffSameRest(u.(scheme := "http"), u.(scheme := "https"));
  }

  /** "http" and "https" are schemes `^\w+://` accepts. */
  lemma WebSchemesWellFormed(u: UrlParts)
    requires WellFormed(u)
    ensures WellFormed(u.(scheme := "http")) && WellFormed(u.(scheme := "https"))
  {
    assert IsWord("http") && IsWord("https");
  }

  /**
    Hops are judged one at a time against the original request: with the upgrade
    flag, a first hop from http to https on the same host and path is followed,
    and a next hop to another host or path is stopped although the first was followed.
  */
  lemma ChainJudgedPerHop(u: UrlParts, v: UrlParts)
    requires WellFormed(u) && WellFormed(v) && u.rest != v.rest && u.slashes <= 1
    ensures var options := Default.(allowHttpsRedirects := true);
            var original := Url(Render(u.(scheme := "http")), "http");
            var first := Url(Render(u.(scheme := "https")), "https");
            && ShouldFollow(options, original, first, [original])
            && !ShouldFollow(options, original, Url(Render(v), "https"), [original, first])
  {
    var options := Default.(allowHttpsRedirects := true);
    var original := Url(Render(u.(scheme := "http")), "http");
    var first := Url(Render(u.(scheme := "https")), "https");
    WebSchemesWellFormed(u);
    UpgradeFollowed(options, u.(scheme := "http"), u.(scheme := "https"), [original]);
    OtherResourceStops(options, u.(scheme := "http"), v, "http", "https", [original, first]);
  }

  /**
    Because the scheme test reads the original request, the upgrade flag keeps
    following a hop to the https URL even when the previous hop already was that URL.
    An installed hook replaces the client's default cap of ten redirects, so an
    https URL that redirects to itself is followed again on every hop.
  */
  lemma RepeatedUpgradeFollowed(u: UrlParts)
    requires WellFormed(u) && u.slashes <= 1
    ensures var original := Url(Render(u.(scheme := "http")), "http");
            var secure := Url(Render(u.(scheme := "https")), "https");
            ShouldFollow(Default.(allowHttpsRedirects := true), original, secure, [original, secure, secure])
  {
    WebSchemesWellFormed(u);
    IdenticalIffSameRest(u.(scheme := "https"), u.(scheme := "http"));
  }
}
