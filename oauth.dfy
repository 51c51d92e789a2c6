/**
 * The request-authentication interceptor of oauth/oauth.go: identity accessors over a request's
 * header, the classification of the remote token lookup, and the clear-then-set update of the
 * identity headers.
 */
module OAuth {
  import opened Results
  import opened GoStrings
  import opened GoStrconv
  import opened Http
  import opened RestErrors

  const HeaderXPublic := "X_Public"
  const HeaderXClientId := "X-Client-Id"
  const HeaderXCallerId := "X-Caller-Id"
  const ParamAccessToken := "access_token"

  /** The record a successful token lookup decodes. */
  datatype AccessToken = AccessToken(id: string, userId: int64, clientId: int64)

  /**
   * What the POST to `/oauth/access_token/{id}` can come back with: a transport failure (no
   * connection, timeout, undecodable body), an error response whose body decoded to a RestErr,
   * or a success response whose body decoded to an access token.
   */
  datatype Exchange =
    | TransportFailure(cause: string)
    | ErrorResponse(body: RestErr)
    | SuccessResponse(token: AccessToken)

  /** The value of a header, read as an identity: the int64 it spells, or 0 when it spells none. */
  predicate ReadsAs(s: string, id: int64)
  {
    Denotes(s, id) || (id == 0 && forall v :: MinInt64 <= v <= MaxInt64 ==> !Denotes(s, v))
  }

  function HeaderFrame(request: Request?): set<object>
  {
    if request == null then {} else {request.header}
  }

  /** A request is public when it is absent or its X_Public header is exactly "true". */
  function IsPublic(request: Request?): (r: bool)
    reads HeaderFrame(request)
    ensures request == null ==> r
    ensures request != null ==> (r <==> request.header.Get(HeaderXPublic) == "true")
  {
    if request == null then true else request.header.Get(HeaderXPublic) == "true"
  }

  /** Only the exact string "true" marks a request public: "True", "1" and an absent header do not. */
  lemma IsPublicExactMatch(request: Request)
    ensures HeaderXPublic !in request.header.values ==> !IsPublic(request)
    ensures request.header.Get(HeaderXPublic) in {"True", "TRUE", "1", " true", ""} ==> !IsPublic(request)
  {
  }

  /** The first value under key, parsed as a base-10 int64; 0 when that fails. */
  function IdentityOf(h: Multimap, key: string): (id: int64)
    ensures ReadsAs(Lookup(h, key), id)
    ensures key !in h ==> id == 0
  {
    match ParseInt(Lookup(h, key))
    case Some(v) => v
    case None => 0
  }

  /** The caller (end user) id: 0 for an absent request or a missing or malformed header. */
  function GetCallerId(request: Request?): (id: int64)
    reads HeaderFrame(request)
    ensures request == null ==> id == 0
    ensures request != null ==> ReadsAs(request.header.Get(HeaderXCallerId), id)
  {
    if request == null then 0 else IdentityOf(request.header.values, HeaderXCallerId)
  }

  /** The client application id: 0 for an absent request or a missing or malformed header. */
  function GetClientId(request: Request?): (id: int64)
    reads HeaderFrame(request)
    ensures request == null ==> id == 0
    ensures request != null ==> ReadsAs(request.header.Get(HeaderXClientId), id)
  {
    if request == null then 0 else IdentityOf(request.header.values, HeaderXClientId)
  }

  /**
   * The decision part of `getAccessToken`: a transport failure and any remote status other
   * than 404 become an internal-server error, a remote 404 becomes not-found, each carrying
   * the message of its cause; a success response yields its token.
   */
  function GetAccessToken(exchange: Exchange): (r: Result<AccessToken, RestErr>)
    ensures r.Success? <==> exchange.SuccessResponse?
    ensures r.Success? ==> r.value == exchange.token
    ensures r.Failure? && exchange.TransportFailure? ==> r.error.message == exchange.cause
    ensures r.Failure? && exchange.ErrorResponse? ==> r.error.message == exchange.body.message
    ensures r.Failure? ==> (r.error.status == StatusNotFound <==> exchange.ErrorResponse? && exchange.body.status == 404)
    ensures r.Failure? && r.error.status != StatusNotFound ==> r.error.status == StatusInternalServerError
  {
    match exchange
    case TransportFailure(cause) => Failure(NewInternalServerError(cause))
    case ErrorResponse(body) =>
      if body.status == 404 then Failure(NewNotFoundError(body.message))
      else Failure(NewInternalServerError(body.message))
    case SuccessResponse(token) => Success(token)
  }

  /** The header after `cleanRequest`: both identity keys gone, every other key untouched. */
  function Cleaned(h: Multimap): (r: Multimap)
    ensures r.Keys == h.Keys - {HeaderXClientId, HeaderXCallerId}
    ensures forall k :: k in r ==> r[k] == h[k]
  {
    h - {HeaderXClientId, HeaderXCallerId}
  }

  /** The header and the error `AutenticationRequest` leaves behind for a non-nil request. */
  datatype Outcome = Outcome(header: Multimap, err: Option<RestErr>)

  /** The token id the interceptor sends: the trimmed `access_token` query parameter. */
  function TokenId(query: Multimap): string
  {
    TrimSpace(Lookup(query, ParamAccessToken))
  }

  /**
   * The specification of `AutenticationRequest` on a non-nil request with header h and query
   * `query`, when the token lookup for a token id t comes back as resolve(t).
   */
  function Authenticate(h: Multimap, query: Multimap, resolve: string -> Exchange): Outcome
  {
    var cleaned := Cleaned(h);
    var tokenId := TokenId(query);
    if tokenId == "" then Outcome(cleaned, None)
    else
      match GetAccessToken(resolve(tokenId))
      case Failure(e) => Outcome(cleaned, if e.status == StatusNotFound then None else Some(e))
      case Success(at) =>
        var withClient := Appended(cleaned, HeaderXClientId, FormatInt(at.clientId));
        Outcome(Appended(withClient, HeaderXCallerId, FormatInt(at.userId)), None)
  }

  /** `cleanRequest`: removes both identity headers; a nil request is left alone. */
  method CleanRequest(request: Request?)
    modifies HeaderFrame(request)
    ensures request != null ==> request.header.values == Cleaned(old(request.header.values))
  {
    if request == null {
      return;
    }
    request.header.Del(HeaderXClientId);
    request.header.Del(HeaderXCallerId);
  }

  /**
   * `AutenticationRequest`: clears the identity headers, then, when the request carries a
   * token, looks it up (`resolve`) and stamps the resolved client and caller ids.
   */
  method AutenticationRequest(request: Request?, resolve: string -> Exchange) returns (err: Option<RestErr>)
    modifies HeaderFrame(request)
    ensures request == null ==> err == None
    ensures request != null ==>
      Outcome(request.header.values, err) == Authenticate(old(request.header.values), request.query, resolve)
    ensures IsPublic(request) == old(IsPublic(request))
    ensures request != null && TokenId(request.query) != ""
            && resolve(TokenId(request.query)).SuccessResponse? ==>
              && GetClientId(request) == resolve(TokenId(request.query)).token.clientId
              && GetCallerId(request) == resolve(TokenId(request.query)).token.userId
    ensures request != null && !(TokenId(request.query) != "" && resolve(TokenId(request.query)).SuccessResponse?) ==>
              GetClientId(request) == 0 && GetCallerId(request) == 0
  {
    if request == null {
      return None;
    }

    CleanRequest(request);

    var accessTokenId := TokenId(request.query);
    if accessTokenId == "" {
      return None;
    }
    var result := GetAccessToken(resolve(accessTokenId));
    if result.Failure? {
      if result.error.status == StatusNotFound {
        return None;
      }
      return Some(result.error);
    }

    var at := result.value;
    request.header.Add(HeaderXClientId, FormatInt(at.clientId));
    request.header.Add(HeaderXCallerId, FormatInt(at.userId));
    StampedIdentity(old(request.header.values), request.query, resolve);
    return None;
  }

  /** Whatever the lookup says, only the two identity headers can differ afterwards. */
  lemma AuthenticateKeepsOtherHeaders(h: Multimap, query: Multimap, resolve: string -> Exchange, k: string)
    requires k != HeaderXClientId && k != HeaderXCallerId
    ensures var o := Authenticate(h, query, resolve);
      (k in o.header <==> k in h) && (k in h ==> o.header[k] == h[k])
  {
  }

  /**
   * No identity value present before the call survives it: afterwards each identity header is
   * either absent or holds exactly the one value the successful lookup supplied.
   */
  lemma AuthenticateClearsStaleIdentity(h: Multimap, query: Multimap, resolve: string -> Exchange)
    ensures var o := Authenticate(h, query, resolve);
      var ok := TokenId(query) != "" && resolve(TokenId(query)).SuccessResponse?;
      && (!ok ==> HeaderXClientId !in o.header && HeaderXCallerId !in o.header)
      && (ok ==> var at := resolve(TokenId(query)).token;
            && o.header[HeaderXClientId] == [FormatInt(at.clientId)]
            && o.header[HeaderXCallerId] == [FormatInt(at.userId)])
  {
  }

  /**
   * An empty or all-white-space token gives no error and an anonymous request, and the outcome
   * does not depend on the lookup: the resolver is never consulted.
   */
  lemma EmptyTokenSkipsLookup(h: Multimap, query: Multimap, resolve: string -> Exchange, resolve': string -> Exchange)
    requires forall i :: 0 <= i < |Lookup(query, ParamAccessToken)| ==> IsSpace(Lookup(query, ParamAccessToken)[i])
    ensures Authenticate(h, query, resolve) == Authenticate(h, query, resolve')
    ensures Authenticate(h, query, resolve).err == None
    ensures IdentityOf(Authenticate(h, query, resolve).header, HeaderXClientId) == 0
    ensures IdentityOf(Authenticate(h, query, resolve).header, HeaderXCallerId) == 0
  {
  }

  /** The call fails exactly when there is a token and its lookup failed other than with a remote 404. */
  lemma AuthenticateErrorIsFatal(h: Multimap, query: Multimap, resolve: string -> Exchange)
    ensures var o := Authenticate(h, query, resolve);
      var ex := resolve(TokenId(query));
      && (o.err.Some? <==> TokenId(query) != "" && (ex.TransportFailure? || (ex.ErrorResponse? && ex.body.status != 404)))
      && (o.err.Some? ==> o.err.value == GetAccessToken(ex).error)
  {
  }

  /** A remote 404 leaves the request anonymous without an error: both ids read back as 0. */
  lemma NotFoundDegradesToAnonymous(h: Multimap, query: Multimap, resolve: string -> Exchange)
    requires TokenId(query) != ""
    requires resolve(TokenId(query)).ErrorResponse? && resolve(TokenId(query)).body.status == 404
    ensures var o := Authenticate(h, query, resolve);
      && o.err == None
      && IdentityOf(o.header, HeaderXClientId) == 0
      && IdentityOf(o.header, HeaderXCallerId) == 0
  {
  }

  /** After a successful lookup the accessors read back exactly the resolved ids. */
  lemma StampedIdentity(h: Multimap, query: Multimap, resolve: string -> Exchange)
    requires TokenId(query) != "" && resolve(TokenId(query)).SuccessResponse?
    ensures var o := Authenticate(h, query, resolve);
      var at := resolve(TokenId(query)).token;
      && o.err == None
      && IdentityOf(o.header, HeaderXClientId) == at.clientId
      && IdentityOf(o.header, HeaderXCallerId) == at.userId
  {
    var at := resolve(TokenId(query)).token;
    FormatIntRoundTrip(at.clientId);
    FormatIntRoundTrip(at.userId);
  }

  /** Running the interceptor again with the same lookup outcome changes nothing more. */
  lemma AuthenticateIdempotent(h: Multimap, query: Multimap, resolve: string -> Exchange)
    ensures var o := Authenticate(h, query, resolve);
      Authenticate(o.header, query, resolve) == o
  {
    var cleaned := Cleaned(h);
    CleanedIdempotent(h);
    var t := TokenId(query);
    if t != "" && resolve(t).SuccessResponse? {
      var at := resolve(t).token;
      CleanedUndoesStamp(cleaned, FormatInt(at.clientId), FormatInt(at.userId));
    }
  }

  /** Cleaning an already cleaned header changes nothing. */
  lemma CleanedIdempotent(h: Multimap)
    ensures Cleaned(Cleaned(h)) == Cleaned(h)
  {
  }

  /** Cleaning removes whatever the interceptor stamped, giving back the header it stamped. */
  lemma CleanedUndoesStamp(h: Multimap, clientId: string, callerId: string)
    requires HeaderXClientId !in h && HeaderXCallerId !in h
    ensures Cleaned(Appended(Appended(h, HeaderXClientId, clientId), HeaderXCallerId, callerId)) == h
  {
  }
}
