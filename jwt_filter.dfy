// The request-side decisions of `JwtAuthenticationFilter`: which paths it
// skips and how the token is taken from the Authorization header. Token
// validation and the security context belong to `JwtUtil` and Spring
// Security and are not part of this model.
module JwtFilter {
  import opened Common
  import opened Text

  const BearerPrefix: string := "Bearer "

  /**
   * `parseJwt`: the header minus "Bearer " when the header has text and
   * starts with that prefix (case-sensitive); null otherwise.
   */
  function ParseJwt(authHeader: Option<string>): (jwt: Option<string>)
    ensures jwt.Some? <==> authHeader.Some? && StartsWith(authHeader.value, BearerPrefix)
    ensures jwt.Some? ==> authHeader.value == BearerPrefix + jwt.value
  {
    if HasText(authHeader) && StartsWith(authHeader.value, BearerPrefix) then
      AfterPrefix(authHeader.value, BearerPrefix);
      Some(authHeader.value[|BearerPrefix|..])
    else
      BearerHasText(authHeader);
      None
  }

  /** A header that starts with "Bearer " has text, so the prefix test alone decides. */
  lemma BearerHasText(authHeader: Option<string>)
    ensures authHeader.Some? && StartsWith(authHeader.value, BearerPrefix) ==> HasText(authHeader)
  {
    if authHeader.Some? && StartsWith(authHeader.value, BearerPrefix) {
      assert authHeader.value[0] == BearerPrefix[0];
    }
  }

  /** A string that starts with a prefix is the prefix followed by the rest. */
  lemma AfterPrefix(s: string, prefix: string)
    requires StartsWith(s, prefix)
    ensures s == prefix + s[|prefix|..]
  {
    assert s == s[..|prefix|] + s[|prefix|..];
  }

  /** A token sent as "Bearer " followed by the token is read back unchanged. */
  lemma {:induction false} ParseJwtRoundTrip(token: string)
    ensures ParseJwt(Some(BearerPrefix + token)) == Some(token)
  {
    var h := BearerPrefix + token;
    assert h[..|BearerPrefix|] == BearerPrefix;
  }

  /** No header, a blank header, and a lower-case scheme all give no token. */
  lemma {:induction false} ParseJwtRefuses(blank: string, token: string)
    requires forall k :: 0 <= k < |blank| ==> IsWhitespace(blank[k])
    ensures ParseJwt(None) == None
    ensures ParseJwt(Some(blank)) == None
    ensures ParseJwt(Some("bearer " + token)) == None
    ensures ParseJwt(Some("Bearer")) == None
  {
    if StartsWith(blank, BearerPrefix) {
      assert blank[0] == BearerPrefix[0];
    }
    var h := "bearer " + token;
    assert h[0] == 'b';
  }

  /** The path prefixes the filter skips. */
  const PublicPrefixes: seq<string> := ["/auth/", "/swagger-ui/", "/v3/api-docs", "/api-docs", "/oauth2/", "/login/oauth2/"]

  /** The paths the filter skips only when they match exactly. */
  const PublicPaths: seq<string> := ["/api/health", "/api/info"]

  /** `shouldNotFilter`: the public endpoints, tested in the Java's order. */
  function ShouldNotFilter(path: string): (skip: bool)
    ensures skip <==> ((exists i :: 0 <= i < |PublicPrefixes| && StartsWith(path, PublicPrefixes[i])) ||
                       path in PublicPaths)
  {
    var skip := StartsWith(path, "/auth/") ||
      StartsWith(path, "/swagger-ui/") ||
      StartsWith(path, "/v3/api-docs") ||
      StartsWith(path, "/api-docs") ||
      path == "/api/health" ||
      path == "/api/info" ||
      StartsWith(path, "/oauth2/") ||
      StartsWith(path, "/login/oauth2/");
    assert PublicPrefixes[0] == "/auth/" && PublicPrefixes[1] == "/swagger-ui/";
    assert PublicPrefixes[2] == "/v3/api-docs" && PublicPrefixes[3] == "/api-docs";
    assert PublicPrefixes[4] == "/oauth2/" && PublicPrefixes[5] == "/login/oauth2/";
    skip
  }

  /** Extending a path keeps every prefix it already had. */
  lemma PrefixExtends(path: string, prefix: string, suffix: string)
    requires StartsWith(path, prefix)
    ensures StartsWith(path + suffix, prefix)
  {
    assert (path + suffix)[..|prefix|] == path[..|prefix|];
  }

  /** Below a skipped prefix every path is skipped. */
  lemma {:induction false} SkippedPrefixesClosed(path: string, suffix: string)
    ensures (exists i :: 0 <= i < |PublicPrefixes| && StartsWith(path, PublicPrefixes[i])) ==>
      ShouldNotFilter(path + suffix)
  {
    if i :| 0 <= i < |PublicPrefixes| && StartsWith(path, PublicPrefixes[i]) {
      PrefixExtends(path, PublicPrefixes[i], suffix);
    }
  }

  /** A character that differs from the prefix's rules the prefix out. */
  lemma DiffersAt(s: string, prefix: string, k: nat)
    requires k < |s| && k < |prefix| && s[k] != prefix[k]
    ensures !StartsWith(s, prefix)
  {
  }

  /** The exact paths cover no sub-path: "/api/health/x" and "/api/info/x" go through the filter. */
  lemma ExactPathsOnly(sub: string)
    requires sub == "/api/health/x" || sub == "/api/info/x"
    ensures !ShouldNotFilter(sub)
    ensures ShouldNotFilter("/api/health") && ShouldNotFilter("/api/info")
  {
    DiffersAt(sub, "/auth/", 2);
    DiffersAt(sub, "/swagger-ui/", 1);
    DiffersAt(sub, "/v3/api-docs", 1);
    DiffersAt(sub, "/api-docs", 4);
    DiffersAt(sub, "/oauth2/", 1);
    DiffersAt(sub, "/login/oauth2/", 1);
    assert sub != "/api/info" && sub != "/api/health" by {
      if sub == "/api/info/x" {
        assert sub[5] != "/api/health"[5];
      }
    }
  }
}
