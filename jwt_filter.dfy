/**
 * The JWT authentication filter of the backend: Bearer-token extraction from
 * the Authorization header (the header syntax of section 2.1 of RFC 6750) and
 * the per-request control flow that sets the security context and always
 * passes the request on.
 *
 * The token provider (signature check, clock, subject parsing) is an input:
 * `valid` says whether validateToken accepts a token, `subject` gives the
 * subject getUsername parses out of it, or None when parsing throws.
 */
module JwtFilter {
  import opened Wrappers
  import opened Strings

  const BearerPrefix: string := "Bearer "

  /** Spring's StringUtils.hasText: not null and holding a non-whitespace
      character. */
  predicate HasText(s: Option<string>)
  {
    s.Some? && exists i | 0 <= i < |s.value| :: !IsJavaWhitespace(s.value[i])
  }

  /** extractTokenFromRequest: the header minus its "Bearer " prefix, or null. */
  function ExtractToken(header: Option<string>): (token: Option<string>)
    ensures token.Some? <==> HasText(header) && StartsWith(header.value, BearerPrefix)
    ensures token.Some? ==> header.value == BearerPrefix + token.value
  {
    if HasText(header) && StartsWith(header.value, BearerPrefix)
    then Some(header.value[|BearerPrefix|..])
    else None
  }

  /** Round trip: whatever follows "Bearer " is handed back unchanged. */
  lemma ExtractAfterPrefix(t: string)
    ensures ExtractToken(Some(BearerPrefix + t)) == Some(t)
  {
    var h := BearerPrefix + t;
    assert h[0] == 'B' && !IsJavaWhitespace(h[0]);
    assert h[..|BearerPrefix|] == BearerPrefix;
  }

  /** The prefix test is case-sensitive (although section 2.1 of RFC 7235
      makes auth-schemes case-insensitive): a lower-case scheme is refused. */
  lemma LowerCaseSchemeRefused()
    ensures ExtractToken(Some("bearer abc")) == None
  {
    assert "bearer abc"[0] != BearerPrefix[0];
  }

  /** The principal the filter installs: the token's subject, with no
      authorities. */
  datatype Authentication = Authentication(principal: string, authorities: seq<string>)

  datatype TokenProvider = TokenProvider(valid: string -> bool, subject: string -> Option<string>)

  /** What doFilterInternal installs in the security context, if anything. */
  function Authenticate(header: Option<string>, provider: TokenProvider): (a: Option<Authentication>)
  {
    var jwt := ExtractToken(header);
    if HasText(jwt) && provider.valid(jwt.value) then
      match provider.subject(jwt.value)
      case Some(u) => Some(Authentication(u, []))
      case None => None
    else None
  }

  /** Authentication is set only for an extracted token that has text and that
      the provider accepts; the principal is that token's subject and the
      authority list is empty. */
  lemma {:induction false} AuthenticatedOnlyWithValidToken(header: Option<string>, provider: TokenProvider)
    ensures Authenticate(header, provider).Some? <==>
      exists t :: ExtractToken(header) == Some(t) && HasText(Some(t)) && provider.valid(t) && provider.subject(t).Some?
    ensures Authenticate(header, provider).Some? ==>
      var t := ExtractToken(header).value;
      Authenticate(header, provider) == Some(Authentication(provider.subject(t).value, []))
  {
    var jwt := ExtractToken(header);
    if Authenticate(header, provider).Some? {
      assert jwt == Some(jwt.value);
    }
  }

  /** "Bearer " followed only by whitespace yields a token without text, so no
      authentication is set whatever the provider says. */
  lemma BlankBearerNotAuthenticated(ws: string, provider: TokenProvider)
    requires forall i :: 0 <= i < |ws| ==> IsJavaWhitespace(ws[i])
    ensures ExtractToken(Some(BearerPrefix + ws)) == Some(ws)
    ensures Authenticate(Some(BearerPrefix + ws), provider) == None
  {
    ExtractAfterPrefix(ws);
  }

  /** Spring's per-thread security context. */
  class SecurityContext {
    var authentication: Option<Authentication>

    constructor ()
      ensures authentication == None
    {
      authentication := None;
    }
  }

  /** The rest of the filter chain; `calls` counts how often it was invoked. */
  class FilterChain {
    var calls: nat

    constructor ()
      ensures calls == 0
    {
      calls := 0;
    }
  }

  /** doFilterInternal: an exception while reading the token is caught and
      logged (a subject of None), and the chain is called exactly once on every
      path. */
  method DoFilterInternal(header: Option<string>, provider: TokenProvider, context: SecurityContext, chain: FilterChain)
    modifies context, chain
    ensures chain.calls == old(chain.calls) + 1
    ensures Authenticate(header, provider).Some? ==> context.authentication == Authenticate(header, provider)
    ensures Authenticate(header, provider).None? ==> context.authentication == old(context.authentication)
  {
    var jwt := ExtractToken(header);
    if HasText(jwt) && provider.valid(jwt.value) {
      var username := provider.subject(jwt.value);
      if username.Some? {
        context.authentication := Some(Authentication(username.value, []));
      }
    }
    chain.calls := chain.calls + 1;
  }
}
