/**
  URL equivalence as the redirect policy uses it (IsIdenticalURL).

  Both URLs go through the same three anchored rewrites, in this order,
  and the results are compared for equality:
    1. `^\w+://`   becomes the marker "://"  (the scheme is forgotten);
    2. `^://www.`  becomes "://"             (one "www." label right after the marker);
    3. `/$`        becomes ""                (one trailing slash).
  Each rewrite is anchored, so each one replaces at most one match; the
  regular expressions are written out here as prefix and suffix tests.
*/
module UrlEquivalence {

  /** A character `\w` matches in Go's regular expressions: ASCII letters, digits, underscore. */
  predicate IsWordChar(c: char) {
    ('0' <= c <= '9') || ('A' <= c <= 'Z') || ('a' <= c <= 'z') || c == '_'
  }

  predicate IsWord(w: string) {
    forall i :: 0 <= i < |w| ==> IsWordChar(w[i])
  }

  /** The scheme separator, which is also what the first two rewrites leave behind. */
  const Marker: string := "://"

  /** What the second rewrite replaces when the string starts with it. */
  const WwwPrefix: string := "://www."

  /** How far a greedy `^\w+` reaches into `s`: the longest prefix of word characters. */
  function WordRunLength(s: string): (n: nat)
    ensures n <= |s|
    ensures forall i :: 0 <= i < n ==> IsWordChar(s[i])
    ensures n < |s| ==> !IsWordChar(s[n])
  {
    if s == [] || !IsWordChar(s[0]) then 0 else 1 + WordRunLength(s[1..])
  }

  /** `^\w+://` matches `s`, its `\w+` covering exactly `s[..n]`. */
  predicate SchemeMatch(s: string, n: nat) {
    && 0 < n
    && n + |Marker| <= |s|
    && (forall i :: 0 <= i < n ==> IsWordChar(s[i]))
    && s[n..n + |Marker|] == Marker
  }

  /** Because ':' is not a word character, `^\w+://` can match in one way only. */
  lemma SchemeMatchIsWordRun(s: string, n: nat)
    requires SchemeMatch(s, n)
    ensures n == WordRunLength(s)
  {
    var m := WordRunLength(s);
    assert s[n] == ':' by { assert s[n..n + |Marker|][0] == s[n]; }
    assert !IsWordChar(s[n]);
    assert m <= n;
  }

  /** Rewrite 1: `^\w+://` replaced by "://". */
  function StripScheme(s: string): (r: string)
    ensures forall n: nat :: SchemeMatch(s, n) ==> r == Marker + s[n + |Marker|..]
    ensures (forall n: nat :: !SchemeMatch(s, n)) ==> r == s
  {
    var n := WordRunLength(s);
    assert forall m: nat :: SchemeMatch(s, m) ==> m == n by {
      forall m: nat | SchemeMatch(s, m) ensures m == n { SchemeMatchIsWordRun(s, m); }
    }
    if SchemeMatch(s, n) then Marker + s[n + |Marker|..] else s
  }

  /** Rewrite 2: `^://www.` replaced by "://". */
  function StripWww(s: string): string {
    if WwwPrefix <= s then Marker + s[|WwwPrefix|..] else s
  }

  predicate EndsWithSlash(s: string) {
    |s| > 0 && s[|s| - 1] == '/'
  }

  /** Rewrite 3: `/$` replaced by "" (Go's `$` matches only at the very end of the text). */
  function StripTrailingSlash(s: string): string {
    if EndsWithSlash(s) then s[..|s| - 1] else s
  }

  /** The three rewrites of IsIdenticalURL, in the order the source applies them. */
  function Normalize(s: string): string {
    StripTrailingSlash(StripWww(StripScheme(s)))
  }

  predicate IsIdenticalURL(a: string, b: string) {
    Normalize(a) == Normalize(b)
  }

  /** IsIdenticalURL is an equivalence relation: both sides are normalised alike and compared with ==. */
  lemma IdenticalIsEquivalence(a: string, b: string, c: string)
    ensures IsIdenticalURL(a, a)
    ensures IsIdenticalURL(a, b) <==> IsIdenticalURL(b, a)
    ensures IsIdenticalURL(a, b) && IsIdenticalURL(b, c) ==> IsIdenticalURL(a, c)
  {
  }

  // ---------------------------------------------------------------------
  // A reference view of the URLs the policy compares
  // ---------------------------------------------------------------------

  function Slashes(k: nat): (s: string)
    ensures |s| == k && forall i :: 0 <= i < k ==> s[i] == '/'
  {
    if k == 0 then [] else Slashes(k - 1) + "/"
  }

  /** A URL written as `scheme://` + optional `www.` + `rest` + `slashes` trailing slashes. */
  datatype UrlParts = UrlParts(scheme: string, www: bool, rest: string, slashes: nat)

  function Render(u: UrlParts): string {
    u.scheme + Marker + (if u.www then "www." else "") + u.rest + Slashes(u.slashes)
  }

  /**
    The decomposition is unambiguous: the scheme is a non-empty word, and the
    host-and-path `rest` is non-empty, does not end in '/' (those are counted in
    `slashes`) and does not start with another "www." label.
  */
  predicate WellFormed(u: UrlParts) {
    && |u.scheme| > 0 && IsWord(u.scheme)
    && |u.rest| > 0 && u.rest[|u.rest| - 1] != '/'
    && !("www." <= u.rest)
  }

  /** The number of trailing slashes that survive rewrite 3. */
  function KeptSlashes(k: nat): nat {
    if k == 0 then 0 else k - 1
  }

  lemma StripSchemeOfWord(w: string, x: string)
    requires |w| > 0 && IsWord(w)
    ensures StripScheme(w + Marker + x) == Marker + x
  {
    var s := w + Marker + x;
    assert s[|w|..|w| + |Marker|] == Marker;
    assert forall i :: 0 <= i < |w| ==> s[i] == w[i];
    assert SchemeMatch(s, |w|);
    assert s[|w| + |Marker|..] == x;
  }

  /** `^://www.` matches marker-then-t exactly when t starts with "www.". */
  lemma WwwPrefixAfterMarker(t: string)
    ensures WwwPrefix <= Marker + t <==> "www." <= t
  {
    var s := Marker + t;
    if |t| >= 4 {
      assert s[..|WwwPrefix|] == Marker + t[..4];
      assert (Marker + t[..4])[|Marker|..] == t[..4];
      assert WwwPrefix[|Marker|..] == "www.";
    }
  }

  /** Rewrite 2 on a string that starts with the marker: a "www." right after it is dropped. */
  lemma StripWwwAfterMarker(t: string)
    ensures StripWww(Marker + t) == if "www." <= t then Marker + t[4..] else Marker + t
  {
    WwwPrefixAfterMarker(t);
    if "www." <= t {
      assert (Marker + t)[|WwwPrefix|..] == t[4..];
    }
  }

  /** Appending slashes to a string that does not start with "www." cannot make it start with "www.". */
  lemma NoWwwAfterSlashes(rest: string, k: nat)
    requires !("www." <= rest)
    ensures !("www." <= rest + Slashes(k))
  {
    var t := rest + Slashes(k);
    if |rest| >= 4 {
      assert t[..4] == rest[..4];
    } else if |t| >= 4 {
      assert t[|rest|] == '/';
    }
  }

  lemma StripTrailingSlashOf(t: string, k: nat)
    requires |t| > 0 && t[|t| - 1] != '/'
    ensures StripTrailingSlash(t + Slashes(k)) == t + Slashes(KeptSlashes(k))
  {
    if k > 0 {
      assert (t + Slashes(k))[..|t| + k - 1] == t + Slashes(k - 1);
    }
  }

  /** Rewrites 2 and 3 are all that is left once the string starts with a scheme. */
  lemma NormalizeSchemed(w: string, t: string)
    requires |w| > 0 && IsWord(w)
    ensures Normalize(w + Marker + t) == StripTrailingSlash(StripWww(Marker + t))
  {
    StripSchemeOfWord(w, t);
  }

  function Tail(u: UrlParts): string {
    (if u.www then "www." else "") + u.rest + Slashes(u.slashes)
  }

  lemma StripWwwOfTail(u: UrlParts)
    requires !("www." <= u.rest)
    ensures StripWww(Marker + Tail(u)) == Marker + (u.rest + Slashes(u.slashes))
  {
    StripWwwAfterMarker(Tail(u));
    if u.www {
      assert Tail(u)[4..] == u.rest + Slashes(u.slashes);
    } else {
      NoWwwAfterSlashes(u.rest, u.slashes);
    }
  }

  lemma StripTrailingSlashAfter(p: string, r: string, k: nat)
    requires |r| > 0 && r[|r| - 1] != '/'
    ensures StripTrailingSlash(p + (r + Slashes(k))) == p + (r + Slashes(KeptSlashes(k)))
  {
    assert p + (r + Slashes(k)) == (p + r) + Slashes(k);
    assert p + (r + Slashes(KeptSlashes(k))) == (p + r) + Slashes(KeptSlashes(k));
    StripTrailingSlashOf(p + r, k);
  }

  /** What the three rewrites leave of a well-formed URL: the marker, the rest, and all trailing slashes but one. */
  lemma {:induction false} NormalizeRender(u: UrlParts)
    requires WellFormed(u)
    ensures Normalize(Render(u)) == Marker + (u.rest + Slashes(KeptSlashes(u.slashes)))
  {
    assert Render(u) == u.scheme + Marker + Tail(u);
    NormalizeSchemed(u.scheme, Tail(u));
    StripWwwOfTail(u);
    StripTrailingSlashAfter(Marker, u.rest, u.slashes);
  }

  /** A host-and-path followed by slashes determines both the host-and-path and the number of slashes. */
  lemma SlashSuffixDetermines(r1: string, k1: nat, r2: string, k2: nat)
    requires |r1| > 0 && r1[|r1| - 1] != '/'
    requires |r2| > 0 && r2[|r2| - 1] != '/'
    ensures r1 + Slashes(k1) == r2 + Slashes(k2) ==> r1 == r2 && k1 == k2
  {
    var a := r1 + Slashes(k1);
    var b := r2 + Slashes(k2);
    assert forall j :: |r1| <= j < |a| ==> a[j] == '/';
    assert forall j :: |r2| <= j < |b| ==> b[j] == '/';
    assert a[|r1| - 1] != '/';
    assert b[|r2| - 1] != '/';
    if a == b {
      assert |r1| == |r2|;
      assert r1 == a[..|r1|];
      assert r2 == b[..|r2|];
    }
  }

  /**
    The equivalence on well-formed URLs: two of them are identical exactly when
    they have the same host and path and the same number of trailing slashes
    beyond the first. Scheme and a leading "www." never matter.
  */
  lemma IdenticalIffSameRest(u: UrlParts, v: UrlParts)
    requires WellFormed(u) && WellFormed(v)
    ensures IsIdenticalURL(Render(u), Render(v))
        <==> u.rest == v.rest && KeptSlashes(u.slashes) == KeptSlashes(v.slashes)
  {
    NormalizeRender(u);
    NormalizeRender(v);
    MarkerCancels(u.rest + Slashes(KeptSlashes(u.slashes)), v.rest + Slashes(KeptSlashes(v.slashes)));
    SlashSuffixDetermines(u.rest, KeptSlashes(u.slashes), v.rest, KeptSlashes(v.slashes));
  }

  lemma MarkerCancels(a: string, b: string)
    ensures Marker + a == Marker + b <==> a == b
  {
    assert (Marker + a)[|Marker|..] == a;
    assert (Marker + b)[|Marker|..] == b;
  }

  /** Scheme-less strings: with no ':' in them, only the trailing-slash rewrite can apply. */
  lemma NormalizeWithoutColon(s: string)
    requires forall i :: 0 <= i < |s| ==> s[i] != ':'
    ensures Normalize(s) == StripTrailingSlash(s)
  {
    forall n: nat | n + |Marker| <= |s| ensures !SchemeMatch(s, n) {
      assert s[n..n + |Marker|][0] == s[n];
    }
    if |s| > 0 {
      assert s[0] != ':';
    }
  }

  /** "www." is removed only right after a scheme: a bare host keeps it. */
  lemma WwwKeptWithoutScheme(host: string)
    requires |host| > 0 && host[|host| - 1] != '/'
    requires forall i :: 0 <= i < |host| ==> host[i] != ':'
    ensures !IsIdenticalURL("www." + host, host)
  {
    var w := "www." + host;
    assert forall i :: 0 <= i < |w| ==> w[i] != ':' by {
      forall i | 0 <= i < |w| ensures w[i] != ':' {
        if i >= 4 { assert w[i] == host[i - 4]; }
      }
    }
    NormalizeWithoutColon(w);
    NormalizeWithoutColon(host);
    assert w[|w| - 1] == host[|host| - 1];
  }

  /** After a scheme, exactly one "www." label is dropped, whatever follows it. */
  lemma WwwRemovedOnce(scheme: string, t: string)
    requires |scheme| > 0 && IsWord(scheme)
    requires |t| > 0 && t[|t| - 1] != '/'
    ensures Normalize(Render(UrlParts(scheme, true, t, 0))) == Marker + t
  {
    var w := "www." + t;
    assert Slashes(0) == [];
    assert Render(UrlParts(scheme, true, t, 0)) == scheme + Marker + w;
    NormalizeSchemed(scheme, w);
    assert "www." <= w && w[4..] == t;
    StripWwwAfterMarker(w);
    StripTrailingSlashKeeps(Marker + t);
  }

  lemma StripTrailingSlashKeeps(s: string)
    requires |s| > 0 && s[|s| - 1] != '/'
    ensures StripTrailingSlash(s) == s
  {
  }

  /** Only one "www." label goes: `scheme://www.www.rest` is not identical to `scheme://www.rest`. */
  lemma OnlyOneWwwRemoved(scheme: string, rest: string)
    requires WellFormed(UrlParts(scheme, false, rest, 0))
    ensures !IsIdenticalURL(Render(UrlParts(scheme, true, "www." + rest, 0)), Render(UrlParts(scheme, true, rest, 0)))
  {
    WwwRemovedOnce(scheme, "www." + rest);
    WwwRemovedOnce(scheme, rest);
    assert |Marker + ("www." + rest)| != |Marker + rest|;
  }

  /** A decomposition's rest does not start with "www." when one of its first four characters differs. */
  lemma NotWwwAt(r: string, i: nat)
    requires i < 4 && i < |r| && r[i] != "www."[i]
    ensures !("www." <= r)
  {
  }

  /** The assertions of the repository's scheme test, read as assertions about IsIdenticalURL. */
  lemma SchemeTestExpectations()
    ensures IsIdenticalURL("http://wikipedia.org", "https://wikipedia.org")
    ensures IsIdenticalURL("https://wikipedia.org", "http://wikipedia.org")
    ensures !IsIdenticalURL("http://wikipedia..org", "http://wikipedia.org")
  {
    SchemeIgnoredExample();
    DoubleDotExample();
  }

  lemma SchemeIgnoredExample()
    ensures IsIdenticalURL("http://wikipedia.org", "https://wikipedia.org")
  {
    WikipediaHttp();
    WikipediaHttps();
    IdenticalIffSameRest(UrlParts("http", false, "wikipedia.org", 0), UrlParts("https", false, "wikipedia.org", 0));
  }

  lemma DoubleDotExample()
    ensures !IsIdenticalURL("http://wikipedia..org", "http://wikipedia.org")
  {
    WikipediaHttp();
    WikipediaDoubleDot();
    assert |"wikipedia..org"| != |"wikipedia.org"|;
    IdenticalIffSameRest(UrlParts("http", false, "wikipedia..org", 0), UrlParts("http", false, "wikipedia.org", 0));
  }

  // The URLs of the examples, taken apart (one lemma each keeps every proof small).

  lemma WikipediaHttp()
    ensures WellFormed(UrlParts("http", false, "wikipedia.org", 0))
    ensures Render(UrlParts("http", false, "wikipedia.org", 0)) == "http://wikipedia.org"
  {
    NotWwwAt("wikipedia.org", 1);
  }

  lemma WikipediaHttps()
    ensures WellFormed(UrlParts("https", false, "wikipedia.org", 0))
    ensures Render(UrlParts("https", false, "wikipedia.org", 0)) == "https://wikipedia.org"
  {
    NotWwwAt("wikipedia.org", 1);
  }

  lemma WikipediaDoubleDot()
    ensures WellFormed(UrlParts("http", false, "wikipedia..org", 0))
    ensures Render(UrlParts("http", false, "wikipedia..org", 0)) == "http://wikipedia..org"
  {
    NotWwwAt("wikipedia..org", 1);
  }

  lemma ExampleWww()
    ensures WellFormed(UrlParts("http", true, "example.com", 0))
    ensures Render(UrlParts("http", true, "example.com", 0)) == "http://www.example.com"
  {
    NotWwwAt("example.com", 0);
  }

  lemma ExampleHttps()
    ensures WellFormed(UrlParts("https", false, "example.com", 0))
    ensures Render(UrlParts("https", false, "example.com", 0)) == "https://example.com"
  {
    NotWwwAt("example.com", 0);
  }

  /** A "www." right after the scheme is ignored together with the scheme. */
  lemma WwwExample()
    ensures IsIdenticalURL("http://www.example.com", "https://example.com")
  {
    ExampleWww();
    ExampleHttps();
    IdenticalIffSameRest(UrlParts("http", true, "example.com", 0), UrlParts("https", false, "example.com", 0));
  }

  /** One trailing slash is ignored, a second one is not. */
  lemma SlashExamples()
    ensures IsIdenticalURL("http://example.com/", "http://example.com")
    ensures !IsIdenticalURL("http://example.com//", "http://example.com")
  {
    var ex := UrlParts("http", false, "example.com", 0);
    var ex1 := UrlParts("http", false, "example.com", 1);
    var ex2 := UrlParts("http", false, "example.com", 2);
    assert Slashes(1) == "/";
    assert Slashes(2) == "//";
    assert Render(ex) == "http://example.com";
    assert Render(ex1) == "http://example.com/";
    assert Render(ex2) == "http://example.com//";
    NotWwwAt("example.com", 0);
    IdenticalIffSameRest(ex1, ex);
    IdenticalIffSameRest(ex2, ex);
  }

  /** Without a scheme the "www." label is not removed. */
  lemma BareWwwExample()
    ensures !IsIdenticalURL("www.example.com", "example.com")
  {
    var host := "example.com";
    assert forall i :: 0 <= i < |host| ==> host[i] != ':';
    assert "www." + host == "www.example.com";
    WwwKeptWithoutScheme(host);
  }
}
