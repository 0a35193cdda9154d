/**
 * `Oauth.twitter`: the three-legged OAuth 1.0a sign-in. It signs and posts
 * a request-token request, opens the authenticate page with the token it
 * gets back, watches the browser for the redirect carrying
 * `oauth_verifier`, re-signs and posts the access-token request, and
 * resolves with the parsed access-token response. HTTP replies,
 * navigations and the exit event are inputs; the posts it sends and the
 * page it opens are recorded in the state.
 */
module Twitter {
  import opened Wrappers
  import opened Strings
  import opened KeyOrder
  import opened UriEncoding
  import opened JsObjects
  import opened OauthUtility
  import opened Settlement
  import opened SignatureProperties
  import opened ParameterProperties

  const DefaultRedirectUri: Text := "http://localhost/callback"
  const RedirectUriOption: Text := "redirect_uri"

  const ApiOauth: Text := "https://api.twitter.com/oauth/"
  const RequestTokenUrl: Text := ApiOauth + "request_token"
  const AccessTokenUrl: Text := ApiOauth + "access_token"
  const AuthenticatePage: Text := ApiOauth + "authenticate?" + TokenName + "="
  const Post: Text := "POST"

  const ConsumerKeyName: Text := "oauth_consumer_key"
  const NonceName: Text := "oauth_nonce"
  const SignatureMethodName: Text := "oauth_signature_method"
  const TimestampName: Text := "oauth_timestamp"
  const VersionName: Text := "oauth_version"
  const CallbackName: Text := "oauth_callback"
  const TokenName: Text := "oauth_token"
  const VerifierName: Text := "oauth_verifier"
  const TokenSecretName: Text := "oauth_token_secret"
  const HmacSha1: Text := "HMAC-SHA1"
  const Version1: Text := "1.0"
  const NonceLength: nat := 10

  const NoRequestToken: Text := "Oauth request token was not received"
  const AuthenticationFailed: Text := "Browser authentication failed"
  const IncompleteAuthentication: Text := AuthenticationFailed + " to complete.  No "
  const WasReturned: Text := " was returned"
  const NoVerifier: Text := IncompleteAuthentication + VerifierName + WasReturned
  const NoAccessToken: Text := "Oauth access token was not received"

  /**
   * `options.redirect_uri` when `options` has that own property, the local
   * callback otherwise; `options` is `undefined` (`None`) or an object
   * whose `hasOwnProperty` is the inherited method.
   */
  function RedirectUri(options: Option<seq<Entry<Text>>>): (r: Text)
    ensures options.Some? && RedirectUriOption in Keys(options.value) ==> Lookup(options.value, RedirectUriOption) == Some(r)
    ensures options.None? || RedirectUriOption !in Keys(options.value) ==> r == DefaultRedirectUri
  {
    if options.Some? && RedirectUriOption in Keys(options.value) then Get(options.value, RedirectUriOption)
    else DefaultRedirectUri
  }

  /** The inputs fixed for one sign-in. */
  datatype Config = Config(clientId: Text, clientSecret: Text, redirectUri: Text, hmac: Hmac)

  /**
   * `Math.round(milliseconds / 1000.0)` for a non-negative clock: the
   * whole number of seconds nearest to the clock, a half rounding up.
   */
  function Timestamp(nowMillis: nat): (seconds: nat)
    ensures 1000 * seconds - 500 <= nowMillis < 1000 * seconds + 500
  {
    (nowMillis + 500) / 1000
  }

  /** No other whole number of seconds is within half a second of the clock, so the rounding is the nearest one. */
  lemma TimestampNearest(nowMillis: nat, seconds: int)
    requires 1000 * seconds - 500 <= nowMillis < 1000 * seconds + 500
    ensures seconds == Timestamp(nowMillis)
  {
  }

  /** The nonce `createNonce(10)` draws from the random source. */
  function NonceOf(random: nat -> Draw): (nonce: Text)
    ensures |nonce| == NonceLength
  {
    seq(NonceLength, i requires 0 <= i < NonceLength => NonceAlphabet[random(i)])
  }

  /** The `oauthObject` literal, in its written order. */
  function OauthObject(clientId: Text, nonce: Text, timestamp: nat): seq<Entry<Text>>
  {
    [Entry(ConsumerKeyName, clientId), Entry(NonceName, nonce), Entry(SignatureMethodName, HmacSha1),
     Entry(TimestampName, Decimal(timestamp)), Entry(VersionName, Version1)]
  }

  /** `{ oauth_callback: redirect_uri }`. */
  function CallbackBody(redirectUri: Text): seq<Entry<Text>>
  {
    [Entry(CallbackName, redirectUri)]
  }

  /** `'oauth_callback=' + encodeURIComponent(redirect_uri)`. */
  function CallbackData(redirectUri: Text): Text
  {
    Pair(CallbackName, Encode(redirectUri))
  }

  /** `'...authenticate?oauth_token=' + parameterMap.oauth_token`. */
  function AuthenticateUrl(m: seq<Entry<Option<Text>>>): (r: Text)
    ensures Lookup(m, TokenName).Some? && Lookup(m, TokenName).value.Some? ==> r == AuthenticatePage + Lookup(m, TokenName).value.value
    ensures TokenName !in Keys(m) ==> r == AuthenticatePage + "undefined"
  {
    AuthenticatePage + Stringify(Defined(m, TokenName))
  }

  /** The header parameters re-signed for the access token: old signature deleted, `oauth_token` set. */
  function AccessHeader(o: seq<Entry<Text>>, m: seq<Entry<Option<Text>>>): seq<Entry<Text>>
  {
    Assign(Remove(o, SignatureParameter), TokenName, Stringify(Defined(m, TokenName)))
  }

  /** `{ oauth_verifier: parameterMap.oauth_verifier }`. */
  function VerifierBody(m: seq<Entry<Option<Text>>>): seq<Entry<Text>>
  {
    [Entry(VerifierName, Stringify(Defined(m, VerifierName)))]
  }

  /** The two posts. The access-token verifier travels as a query parameter, dropped when `undefined`. */
  datatype Request =
    | RequestTokenPost(authorization: Text, data: Text)
    | AccessTokenPost(authorization: Text, verifier: Option<Text>)

  /** Which listeners exist: none, the request-token reply's, or the browser's. */
  datatype Stage = Inert | AwaitingRequestToken | Authorizing

  datatype Reply = Success(body: Text) | Failure(error: Text)

  datatype Event =
    | RequestTokenReply(reply: Reply)
    | LoadStart(url: Text)
    | AccessTokenReply(reply: Reply)
    | Exit

  /**
   * Everything the handlers change or send. `browserOpen` means "opened
   * and not yet closed by the code": the user's own exit does not clear it.
   */
  datatype Flow = Flow(
    outcome: Outcome<seq<Entry<Option<Text>>>>,
    stage: Stage,
    oauthObject: seq<Entry<Text>>,
    browserOpen: bool,
    awaitingAccessToken: nat,
    requests: seq<Request>,
    authenticateUrl: Text)

  /**
   * A parsed key `hasOwnProperty` shadows the method the handlers call on
   * the parsed object, and the call throws a `TypeError`.
   */
  const HasOwnPropertyName: Text := "hasOwnProperty"

  predicate ShadowsHasOwnProperty(m: seq<Entry<Option<Text>>>)
  {
    HasOwnPropertyName in Keys(m)
  }

  /** The executor: without jsSHA, reject; otherwise sign and post the request-token request. */
  function Start(c: Config, jsShaLoaded: bool, random: nat -> Draw, nowMillis: nat): (r: Flow)
    ensures r.outcome == if jsShaLoaded then Pending else Rejected(MissingJsSha)
    ensures r.stage == if jsShaLoaded then AwaitingRequestToken else Inert
    ensures |r.requests| == if jsShaLoaded then 1 else 0
    ensures !r.browserOpen && r.awaitingAccessToken == 0
  {
    if !jsShaLoaded then Flow(Rejected(MissingJsSha), Inert, [], false, 0, [], [])
    else
      var o := OauthObject(c.clientId, NonceOf(random), Timestamp(nowMillis));
      var body := CallbackBody(c.redirectUri);
      var signature := Sign(Post, RequestTokenUrl, o, body, c.clientSecret, None, c.hmac);
      Flow(Pending, AwaitingRequestToken, SignedHeader(Post, RequestTokenUrl, o, body, c.clientSecret, None, c.hmac),
           false, 0, [RequestTokenPost(signature.authorizationHeader, CallbackData(c.redirectUri))], [])
  }

  /**
   * The request-token post's `success` or `error` callback, which runs
   * once. When the `success` callback throws at `hasOwnProperty`, the
   * browser is never opened and no listener is attached.
   */
  function AfterRequestToken(f: Flow, reply: Reply): (r: Flow)
    ensures r.stage != AwaitingRequestToken
    ensures !f.outcome.Pending? ==> r.outcome == f.outcome
    ensures r.oauthObject == f.oauthObject && r.awaitingAccessToken == f.awaitingAccessToken && r.requests == f.requests
  {
    match reply
    case Failure(error) => f.(outcome := Apply(f.outcome, RejectWith(error)), stage := Inert)
    case Success(body) =>
      var m := ParseParameters(body);
      if ShadowsHasOwnProperty(m) then f.(stage := Inert)
      else
        var outcome := if TokenName in Keys(m) then f.outcome else Apply(f.outcome, RejectWith(NoRequestToken));
        f.(outcome := outcome, stage := Authorizing, browserOpen := true, authenticateUrl := AuthenticateUrl(m))
  }

  /** `oauthObject` after the access-token `createSignature`. */
  function Resigned(c: Config, o: seq<Entry<Text>>, m: seq<Entry<Option<Text>>>): seq<Entry<Text>>
  {
    SignedHeader(Post, AccessTokenUrl, AccessHeader(o, m), VerifierBody(m), c.clientSecret, None, c.hmac)
  }

  /** The `Authorization` header of the access-token post. */
  function AccessAuthorization(c: Config, o: seq<Entry<Text>>, m: seq<Entry<Option<Text>>>): Text
  {
    Sign(Post, AccessTokenUrl, AccessHeader(o, m), VerifierBody(m), c.clientSecret, None, c.hmac).authorizationHeader
  }

  /** A redirect whose query parsed to `m`: re-sign and post the access-token request. */
  function AfterRedirect(c: Config, f: Flow, m: seq<Entry<Option<Text>>>): (r: Flow)
    ensures !f.outcome.Pending? ==> r.outcome == f.outcome
    ensures r.stage == f.stage && r.browserOpen == f.browserOpen
    ensures r.awaitingAccessToken == f.awaitingAccessToken + 1
    ensures f.requests <= r.requests && |r.requests| == |f.requests| + 1
  {
    var outcome := if VerifierName in Keys(m) then f.outcome else Apply(f.outcome, RejectWith(NoVerifier));
    f.(outcome := outcome,
       oauthObject := Resigned(c, f.oauthObject, m),
       awaitingAccessToken := f.awaitingAccessToken + 1,
       requests := f.requests + [AccessTokenPost(AccessAuthorization(c, f.oauthObject, m), Defined(m, VerifierName))])
  }

  /**
   * The access-token post's callbacks, `finally` closing the browser. A
   * pending promise is settled, unless the `success` callback throws at
   * `hasOwnProperty` first.
   */
  function AfterAccessToken(f: Flow, reply: Reply): (r: Flow)
    requires f.awaitingAccessToken > 0
    ensures !f.outcome.Pending? ==> r.outcome == f.outcome
    ensures r.outcome.Pending? ==> reply.Success? && ShadowsHasOwnProperty(ParseParameters(reply.body))
    ensures !r.browserOpen && r.awaitingAccessToken == f.awaitingAccessToken - 1
    ensures r.stage == f.stage && r.requests == f.requests
  {
    var outcome := match reply
      case Failure(error) => Apply(f.outcome, RejectWith(error))
      case Success(body) =>
        var m := ParseParameters(body);
        if ShadowsHasOwnProperty(m) then f.outcome
        else
          var rejected := if TokenSecretName in Keys(m) then f.outcome else Apply(f.outcome, RejectWith(NoAccessToken));
          Apply(rejected, ResolveWith(m));
    f.(outcome := outcome, awaitingAccessToken := f.awaitingAccessToken - 1, browserOpen := false)
  }

  /**
   * The query of a navigation the `loadstart` listener acts on: one made
   * while authorizing, to a URL starting with the redirect URI, that has a
   * `?`; the query is the text between the first and the second `?`.
   */
  function CallbackQuery(redirectUri: Text, stage: Stage, url: Text): (query: Option<Text>)
    ensures query.Some? <==> stage == Authorizing && StartsWith(url, redirectUri) && '?' in url
    ensures query.Some? ==> '?' !in query.value && query.value == Split(url, '?')[1]
  {
    if stage != Authorizing || !StartsWith(url, redirectUri) then None
    else
      SplitSeparated(url, '?');
      var pieces := Split(url, '?');
      if |pieces| < 2 then None else Some(pieces[1])
  }

  /**
   * One event, for the listeners that exist at that point. A missing
   * `oauth_token`, `oauth_verifier` or `oauth_token_secret` rejects without
   * stopping the handler; a matching URL without `?`, or a query with a
   * `hasOwnProperty` parameter, throws before anything changes. Posts are
   * only ever added, no listener comes back once gone, and a settled
   * outcome never changes.
   */
  function Step(c: Config, f: Flow, e: Event): (r: Flow)
    ensures f.requests <= r.requests
    ensures f.stage == Inert ==> r.stage == Inert
    ensures !f.outcome.Pending? ==> r.outcome == f.outcome
  {
    match e
    case RequestTokenReply(reply) =>
      if f.stage != AwaitingRequestToken then f else AfterRequestToken(f, reply)
    case LoadStart(url) =>
      var query := CallbackQuery(c.redirectUri, f.stage, url);
      if query.None? then f
      else
        var m := ParseParameters(query.value);
        if ShadowsHasOwnProperty(m) then f else AfterRedirect(c, f, m)
    case AccessTokenReply(reply) =>
      if f.awaitingAccessToken == 0 then f else AfterAccessToken(f, reply)
    case Exit =>
      if f.stage != Authorizing then f
      else f.(outcome := Apply(f.outcome, RejectWith(SignInCanceled)))
  }

  /** A navigation whose callback query parsed to `m`, not shadowing `hasOwnProperty`, makes the move of `AfterRedirect`. */
  lemma LoadStartRedirect(c: Config, f: Flow, url: Text, m: seq<Entry<Option<Text>>>)
    requires CallbackQuery(c.redirectUri, f.stage, url).Some?
    requires m == ParseParameters(CallbackQuery(c.redirectUri, f.stage, url).value) && !ShadowsHasOwnProperty(m)
    ensures Step(c, f, LoadStart(url)) == AfterRedirect(c, f, m)
  {
  }

  /** The flow `AfterRedirect` yields, field by field. */
  lemma RedirectStep(c: Config, f: Flow, m: seq<Entry<Option<Text>>>,
                     outcome: Outcome<seq<Entry<Option<Text>>>>, o: seq<Entry<Text>>, request: Request)
    requires outcome == if VerifierName in Keys(m) then f.outcome else Apply(f.outcome, RejectWith(NoVerifier))
    requires o == Resigned(c, f.oauthObject, m)
    requires request == AccessTokenPost(AccessAuthorization(c, f.oauthObject, m), Defined(m, VerifierName))
    ensures AfterRedirect(c, f, m)
            == Flow(outcome, f.stage, o, f.browserOpen, f.awaitingAccessToken + 1, f.requests + [request], f.authenticateUrl)
  {
  }

  function Run(c: Config, f: Flow, events: seq<Event>): Flow
    decreases |events|
  {
    if |events| == 0 then f else Run(c, Step(c, f, events[0]), events[1..])
  }

  /** The promise, the mutable `oauthObject` and the browser of one `Oauth.twitter` call. */
  class SignIn {
    const config: Config
    const promise: Promise<seq<Entry<Option<Text>>>>
    const oauthObject: JsObject<Text>
    var stage: Stage
    var browserOpen: bool
    var awaitingAccessToken: nat
    var requests: seq<Request>
    var authenticateUrl: Text

    ghost predicate Valid()
      reads this, oauthObject
    {
      oauthObject.Valid()
    }

    function State(): Flow
      reads this, promise, oauthObject
    {
      Flow(promise.outcome, stage, oauthObject.entries, browserOpen, awaitingAccessToken, requests, authenticateUrl)
    }

    constructor (clientId: Text, clientSecret: Text, options: Option<seq<Entry<Text>>>,
                 jsShaLoaded: bool, hmac: Hmac, random: nat -> Draw, nowMillis: nat)
      ensures config == Config(clientId, clientSecret, RedirectUri(options), hmac)
      ensures fresh(promise) && fresh(oauthObject) && Valid()
      ensures State() == Start(config, jsShaLoaded, random, nowMillis)
    {
      var c := Config(clientId, clientSecret, RedirectUri(options), hmac);
      var p, o, posted, listening := Execute(c, jsShaLoaded, random, nowMillis);
      config := c;
      promise := p;
      oauthObject := o;
      stage := listening;
      requests := posted;
      browserOpen := false;
      awaitingAccessToken := 0;
      authenticateUrl := [];
    }

    /** The request-token post's `success` and `error` callbacks. */
    method OnRequestTokenReply(reply: Reply)
      requires Valid()
      modifies this, promise
      ensures Valid() && State() == Step(config, old(State()), RequestTokenReply(reply))
    {
      if stage != AwaitingRequestToken {
        return;
      }
      if reply.Failure? {
        promise.Reject(reply.error);
        stage := Inert;
        return;
      }
      var parameterMap := ParseParameterString(reply.body);
      if ShadowsHasOwnProperty(parameterMap.entries) {
        stage := Inert;
        return;
      }
      if TokenName !in Keys(parameterMap.entries) {
        promise.Reject(NoRequestToken);
      }
      authenticateUrl := AuthenticateUrl(parameterMap.entries);
      browserOpen := true;
      stage := Authorizing;
    }

    /** The browser's `loadstart` listener. */
    method OnLoadStart(url: Text)
      requires Valid()
      modifies this, promise, oauthObject
      ensures Valid() && State() == Step(config, old(State()), LoadStart(url))
    {
      var query := CallbackQuery(config.redirectUri, stage, url);
      if query.None? {
        return;
      }
      var parameterMap := ParseParameterString(query.value);
      var m := parameterMap.entries;
      if ShadowsHasOwnProperty(m) {
        return;
      }
      FollowRedirect(m);
      LoadStartRedirect(config, old(State()), url, m);
    }

    /** The `loadstart` listener once the callback query has parsed to `m`: the move of `AfterRedirect`. */
    method FollowRedirect(m: seq<Entry<Option<Text>>>)
      requires Valid()
      modifies this, promise, oauthObject
      ensures Valid() && State() == AfterRedirect(config, old(State()), m)
    {
      var request := HandleCallback(m);
      requests := requests + [request];
      awaitingAccessToken := awaitingAccessToken + 1;
      RedirectStep(config, old(State()), m, promise.outcome, oauthObject.entries, request);
    }

    /**
     * The rest of the `loadstart` listener, from the parsed callback query
     * on: reject when `oauth_verifier` is missing, re-sign, and answer the
     * access-token post to send.
     */
    method HandleCallback(m: seq<Entry<Option<Text>>>) returns (request: Request)
      requires Valid()
      modifies promise, oauthObject
      ensures Valid()
      ensures promise.outcome == (if VerifierName in Keys(m) then old(promise.outcome)
                                  else Apply(old(promise.outcome), RejectWith(NoVerifier)))
      ensures oauthObject.entries == Resigned(config, old(oauthObject.entries), m)
      ensures request == AccessTokenPost(AccessAuthorization(config, old(oauthObject.entries), m), Defined(m, VerifierName))
    {
      if VerifierName !in Keys(m) {
        promise.Reject(NoVerifier);
      }
      var authorization := Resign(m);
      request := AccessTokenPost(authorization, Defined(m, VerifierName));
    }

    /**
     * `delete oauthObject.oauth_signature`, `oauthObject.oauth_token = ...`,
     * then `createSignature` for the access-token post, which writes the new
     * signature into `oauthObject`.
     */
    method Resign(m: seq<Entry<Option<Text>>>) returns (authorization: Text)
      requires Valid()
      modifies oauthObject
      ensures Valid()
      ensures oauthObject.entries == Resigned(config, old(oauthObject.entries), m)
      ensures authorization == AccessAuthorization(config, old(oauthObject.entries), m)
    {
      oauthObject.Delete(SignatureParameter);
      oauthObject.Set(TokenName, Stringify(Defined(m, TokenName)));
      var body := new JsObject<Text>.Copy(VerifierBody(m));
      var signatureObj := CreateSignature(Post, AccessTokenUrl, oauthObject, body, config.clientSecret, None, true, config.hmac);
      authorization := signatureObj.value.authorizationHeader;
    }

    /** The access-token post's `success`, `error` and `finally` callbacks. */
    method OnAccessTokenReply(reply: Reply)
      requires Valid()
      modifies this, promise
      ensures Valid() && State() == Step(config, old(State()), AccessTokenReply(reply))
    {
      if awaitingAccessToken == 0 {
        return;
      }
      SettleAccessToken(reply);
    }

    method SettleAccessToken(reply: Reply)
      requires Valid() && awaitingAccessToken > 0
      modifies this, promise
      ensures Valid() && State() == AfterAccessToken(old(State()), reply)
    {
      match reply {
        case Failure(error) =>
          promise.Reject(error);
        case Success(body) =>
          var parameterMap := ParseParameterString(body);
          if !ShadowsHasOwnProperty(parameterMap.entries) {
            if TokenSecretName !in Keys(parameterMap.entries) {
              promise.Reject(NoAccessToken);
            }
            promise.Resolve(parameterMap.entries);
          }
      }
      awaitingAccessToken := awaitingAccessToken - 1;
      browserOpen := false;
    }

    /** The browser's `exit` listener. */
    method OnExit()
      requires Valid()
      modifies promise
      ensures Valid() && State() == Step(config, old(State()), Exit)
    {
      if stage == Authorizing {
        promise.Reject(SignInCanceled);
      }
    }
  }

  /** The promise executor, up to the request-token post. */
  method Execute(c: Config, jsShaLoaded: bool, random: nat -> Draw, nowMillis: nat)
    returns (p: Promise<seq<Entry<Option<Text>>>>, o: JsObject<Text>, posted: seq<Request>, listening: Stage)
    ensures fresh(p) && fresh(o) && o.Valid()
    ensures Flow(p.outcome, listening, o.entries, false, 0, posted, []) == Start(c, jsShaLoaded, random, nowMillis)
  {
    p := new Promise<seq<Entry<Option<Text>>>>();
    if jsShaLoaded {
      var request;
      o, request := SignRequestToken(c, random, nowMillis);
      posted := [request];
      listening := AwaitingRequestToken;
    } else {
      p.Reject(MissingJsSha);
      o := new JsObject<Text>.Empty();
      posted := [];
      listening := Inert;
    }
  }

  /** The executor's jsSHA branch: build `oauthObject` and sign the request-token post with it. */
  method SignRequestToken(c: Config, random: nat -> Draw, nowMillis: nat) returns (o: JsObject<Text>, request: Request)
    ensures fresh(o) && o.Valid()
    ensures o.entries == Start(c, true, random, nowMillis).oauthObject
    ensures [request] == Start(c, true, random, nowMillis).requests
  {
    var nonce := CreateNonce(NonceLength, random);
    assert nonce == NonceOf(random);
    OauthObjectDistinct(c.clientId, nonce, Timestamp(nowMillis));
    o := new JsObject<Text>.Copy(OauthObject(c.clientId, nonce, Timestamp(nowMillis)));
    var body := new JsObject<Text>.Copy(CallbackBody(c.redirectUri));
    var signatureObj := CreateSignature(Post, RequestTokenUrl, o, body, c.clientSecret, None, true, c.hmac);
    request := RequestTokenPost(signatureObj.value.authorizationHeader, CallbackData(c.redirectUri));
  }

  // ---------------------------------------------------------------------
  // Properties
  // ---------------------------------------------------------------------

  /** The five `oauthObject` names are different. */
  lemma OauthObjectDistinct(clientId: Text, nonce: Text, timestamp: nat)
    ensures Keys(OauthObject(clientId, nonce, timestamp))
            == [ConsumerKeyName, NonceName, SignatureMethodName, TimestampName, VersionName]
    ensures DistinctKeys(OauthObject(clientId, nonce, timestamp))
    ensures SignatureParameter !in Keys(OauthObject(clientId, nonce, timestamp))
  {
    var o := OauthObject(clientId, nonce, timestamp);
    assert Keys(o) == [ConsumerKeyName, NonceName, SignatureMethodName, TimestampName, VersionName];
  }

  /** Each of the ten nonce characters is a letter or a digit. */
  lemma NonceAlphanumeric(random: nat -> Draw)
    ensures forall i :: 0 <= i < |NonceOf(random)| ==> Alphanumeric(NonceOf(random)[i])
  {
    forall i | 0 <= i < |NonceOf(random)| ensures Alphanumeric(NonceOf(random)[i]) {
      AlphabetAlphanumeric(random(i));
    }
  }

  /**
   * With jsSHA the flow starts pending, waiting for the request token,
   * with the five `oauth_*` properties in written order followed by the
   * signature `createSignature` wrote, and one post sent.
   */
  lemma StartState(c: Config, random: nat -> Draw, nowMillis: nat)
    ensures Start(c, true, random, nowMillis).outcome == Pending
    ensures Start(c, true, random, nowMillis).stage == AwaitingRequestToken
    ensures Keys(Start(c, true, random, nowMillis).oauthObject)
            == [ConsumerKeyName, NonceName, SignatureMethodName, TimestampName, VersionName, SignatureParameter]
    ensures Lookup(Start(c, true, random, nowMillis).oauthObject, NonceName) == Some(NonceOf(random))
    ensures Lookup(Start(c, true, random, nowMillis).oauthObject, TimestampName) == Some(Decimal(Timestamp(nowMillis)))
    ensures |Start(c, true, random, nowMillis).requests| == 1
    ensures Start(c, true, random, nowMillis).requests[0].data == CallbackData(c.redirectUri)
  {
    var o := OauthObject(c.clientId, NonceOf(random), Timestamp(nowMillis));
    var body := CallbackBody(c.redirectUri);
    assert Start(c, true, random, nowMillis).oauthObject == SignedHeader(Post, RequestTokenUrl, o, body, c.clientSecret, None, c.hmac);
    SignedOauthObject(o, c.clientId, NonceOf(random), Timestamp(nowMillis), body, c.clientSecret, c.hmac);
  }

  /** The request-token signing appends `oauth_signature` and keeps the five properties. */
  lemma SignedOauthObject(o: seq<Entry<Text>>, clientId: Text, nonce: Text, timestamp: nat,
                          body: seq<Entry<Text>>, clientSecret: Text, hmac: Hmac)
    requires o == OauthObject(clientId, nonce, timestamp)
    ensures Keys(SignedHeader(Post, RequestTokenUrl, o, body, clientSecret, None, hmac))
            == [ConsumerKeyName, NonceName, SignatureMethodName, TimestampName, VersionName, SignatureParameter]
    ensures Lookup(SignedHeader(Post, RequestTokenUrl, o, body, clientSecret, None, hmac), NonceName) == Some(nonce)
    ensures Lookup(SignedHeader(Post, RequestTokenUrl, o, body, clientSecret, None, hmac), TimestampName) == Some(Decimal(timestamp))
  {
    var signed := SignedHeader(Post, RequestTokenUrl, o, body, clientSecret, None, hmac);
    var v := SignatureValue(Post, RequestTokenUrl, o, body, clientSecret, None, hmac);
    OauthObjectDistinct(clientId, nonce, timestamp);
    AssignAbsent(o, SignatureParameter, v);
    AssignDistinct(o, SignatureParameter, v);
    assert signed == o + [Entry(SignatureParameter, v)];
    assert Keys(signed) == Keys(o) + [SignatureParameter];
    LookupAt(signed, 1);
    LookupAt(signed, 3);
  }

  /** Without jsSHA the promise is rejected at once and no event can change anything. */
  lemma MissingJsShaRejects(c: Config, random: nat -> Draw, nowMillis: nat, events: seq<Event>)
    ensures Run(c, Start(c, false, random, nowMillis), events) == Flow(Rejected(MissingJsSha), Inert, [], false, 0, [], [])
  {
    InertIgnoresEverything(c, Start(c, false, random, nowMillis), events);
  }

  /** With no listener left and no post outstanding, events change nothing. */
  lemma {:induction false} InertIgnoresEverything(c: Config, f: Flow, events: seq<Event>)
    requires f.stage == Inert && f.awaitingAccessToken == 0
    ensures Run(c, f, events) == f
    decreases |events|
  {
    if |events| > 0 {
      assert Step(c, f, events[0]) == f;
      InertIgnoresEverything(c, f, events[1..]);
    }
  }

  /** Navigations that do not start with the redirect URI change nothing. */
  lemma {:induction false} OtherPagesIgnored(c: Config, f: Flow, events: seq<Event>)
    requires forall i :: 0 <= i < |events| ==> events[i].LoadStart? && !StartsWith(events[i].url, c.redirectUri)
    ensures Run(c, f, events) == f
    decreases |events|
  {
    if |events| > 0 {
      OtherPagesIgnored(c, f, events[1..]);
    }
  }

  /** Once settled, the outcome survives every later reply, navigation and exit. */
  lemma {:induction false} SettledStaysSettled(c: Config, f: Flow, events: seq<Event>)
    requires !f.outcome.Pending?
    ensures Run(c, f, events).outcome == f.outcome
    decreases |events|
  {
    if |events| > 0 {
      SettledStaysSettled(c, Step(c, f, events[0]), events[1..]);
    }
  }

  /** Closing the browser before the flow settles rejects with the cancel message, for good. */
  lemma ExitCancels(c: Config, f: Flow, events: seq<Event>)
    requires f.stage == Authorizing && f.outcome.Pending?
    ensures Run(c, f, [Exit] + events).outcome == Rejected(SignInCanceled)
  {
    var g := Step(c, f, Exit);
    assert g.outcome == Rejected(SignInCanceled);
    assert ([Exit] + events)[1..] == events;
    SettledStaysSettled(c, g, events);
  }

  /**
   * A redirect without `oauth_verifier` rejects, and because `reject` does
   * not return, the access-token post still goes out, without a verifier.
   */
  lemma RedirectWithoutVerifier(c: Config, f: Flow, url: Text)
    requires f.stage == Authorizing && f.outcome.Pending?
    requires StartsWith(url, c.redirectUri) && '?' in url
    requires !ShadowsHasOwnProperty(ParseParameters(Split(url, '?')[1]))
    requires VerifierName !in Keys(ParseParameters(Split(url, '?')[1]))
    ensures Step(c, f, LoadStart(url)).outcome == Rejected(NoVerifier)
    ensures Step(c, f, LoadStart(url)).awaitingAccessToken == f.awaitingAccessToken + 1
    ensures Step(c, f, LoadStart(url)).requests[..|f.requests|] == f.requests
    ensures |Step(c, f, LoadStart(url)).requests| == |f.requests| + 1
    ensures Step(c, f, LoadStart(url)).requests[|f.requests|].verifier == None
  {
    var m := ParseParameters(Split(url, '?')[1]);
    assert Defined(m, VerifierName) == None;
  }

  /**
   * Re-signing for the access token deletes the request-token signature
   * first, so the new base string does not cover it; afterwards the
   * object carries the redirect's `oauth_token` and the new signature.
   */
  lemma ResignDropsOldSignature(c: Config, f: Flow, m: seq<Entry<Option<Text>>>)
    ensures SignatureParameter !in Keys(AccessHeader(f.oauthObject, m))
    ensures SignatureParameter !in Sort(Keys(Merged(AccessHeader(f.oauthObject, m), VerifierBody(m))))
    ensures Lookup(AfterRedirect(c, f, m).oauthObject, TokenName) == Some(Stringify(Defined(m, TokenName)))
    ensures Lookup(AfterRedirect(c, f, m).oauthObject, SignatureParameter)
            == Some(SignatureValue(Post, AccessTokenUrl, AccessHeader(f.oauthObject, m), VerifierBody(m), c.clientSecret, None, c.hmac))
  {
    var removed := Remove(f.oauthObject, SignatureParameter);
    var token := Stringify(Defined(m, TokenName));
    var header := AccessHeader(f.oauthObject, m);
    var body := VerifierBody(m);
    assert SignatureParameter != TokenName by {
      assert SignatureParameter[6] != TokenName[6];
    }
    RemoveLookup(f.oauthObject, SignatureParameter, SignatureParameter);
    AssignLookup(removed, TokenName, token, SignatureParameter);
    AssignLookup(removed, TokenName, token, TokenName);
    assert Keys(body) == [VerifierName];
    assert SignatureParameter != VerifierName by {
      assert SignatureParameter[6] != VerifierName[6];
    }
    MergeLookup(header, body, SignatureParameter);
    SortedKeysMembers(Merged(header, body), SignatureParameter);
    SignatureWrittenIntoHeader(Post, AccessTokenUrl, header, body, c.clientSecret, None, c.hmac);
  }

  /**
   * The access-token reply settles a pending flow: resolved with the parsed
   * reply when it has `oauth_token_secret`, rejected otherwise (the
   * `resolve` after that `reject` is ignored); the browser is closed.
   */
  lemma AccessTokenReplySettles(c: Config, f: Flow, body: Text)
    requires f.awaitingAccessToken > 0 && f.outcome.Pending?
    requires !ShadowsHasOwnProperty(ParseParameters(body))
    ensures TokenSecretName in Keys(ParseParameters(body)) ==>
      Step(c, f, AccessTokenReply(Success(body))).outcome == Resolved(ParseParameters(body))
    ensures TokenSecretName !in Keys(ParseParameters(body)) ==>
      Step(c, f, AccessTokenReply(Success(body))).outcome == Rejected(NoAccessToken)
    ensures !Step(c, f, AccessTokenReply(Success(body))).browserOpen
    ensures Step(c, f, AccessTokenReply(Success(body))).awaitingAccessToken == f.awaitingAccessToken - 1
    ensures Step(c, f, AccessTokenReply(Success(body))).requests == f.requests
  {
  }

  /**
   * The access-token header: `oauth_token` reads the request token (or
   * `undefined`), `oauth_signature` is gone, and every other parameter
   * reads as before.
   */
  lemma AccessHeaderFields(o: seq<Entry<Text>>, m: seq<Entry<Option<Text>>>, k: Text)
    ensures Lookup(AccessHeader(o, m), k) ==
      if k == TokenName then Some(Stringify(Defined(m, TokenName)))
      else if k == SignatureParameter then None
      else Lookup(o, k)
  {
    RemoveLookup(o, SignatureParameter, k);
    AssignLookup(Remove(o, SignatureParameter), TokenName, Stringify(Defined(m, TokenName)), k);
  }

  /**
   * The access-token body has the one property `oauth_verifier`, holding
   * the redirect's verifier, or `undefined` when the query had none.
   */
  lemma VerifierBodyField(m: seq<Entry<Option<Text>>>)
    ensures Keys(VerifierBody(m)) == [VerifierName]
    ensures Lookup(m, VerifierName).Some? && Lookup(m, VerifierName).value.Some? ==>
      Get(VerifierBody(m), VerifierName) == Lookup(m, VerifierName).value.value
    ensures VerifierName !in Keys(m) ==> Get(VerifierBody(m), VerifierName) == "undefined"
  {
  }

  /** The `oauth_callback` pair holds no `&`, and its name and value no `=`. */
  lemma CallbackPairUnseparated(redirectUri: Text)
    ensures '&' !in Pair(CallbackName, Encode(redirectUri))
    ensures '=' !in CallbackName && '=' !in Encode(redirectUri)
  {
    EncodeRemoves(redirectUri, '&');
    EncodeRemoves(redirectUri, '=');
    assert CallbackName == "oauth_callback";
  }

  /**
   * The request-token form body is the single field `oauth_callback`
   * holding the encoded redirect URI: encoding leaves no `&` or `=` in it
   * to split on.
   */
  lemma CallbackDataParses(redirectUri: Text)
    ensures ParseParameters(CallbackData(redirectUri)) == [Entry(CallbackName, Some(Encode(redirectUri)))]
  {
    var v := Encode(redirectUri);
    var piece := Pair(CallbackName, v);
    CallbackPairUnseparated(redirectUri);
    SplitNoSeparator(piece, '&');
    PieceOfPair(CallbackName, v);
    var updates := ParsedPieces([piece]);
    assert updates == [Entry(CallbackName, Some(v))];
    AssignAllFresh(updates);
  }

  /** A request-token reply carrying `oauth_token` opens the authenticate page and keeps the flow pending. */
  lemma RequestTokenAuthorizes(c: Config, f: Flow, body: Text)
    requires f.stage == AwaitingRequestToken && TokenName in Keys(ParseParameters(body))
    requires !ShadowsHasOwnProperty(ParseParameters(body))
    ensures var g := Step(c, f, RequestTokenReply(Success(body)));
      && g.outcome == f.outcome && g.stage == Authorizing && g.browserOpen
      && g.authenticateUrl == AuthenticateUrl(ParseParameters(body))
      && g.awaitingAccessToken == f.awaitingAccessToken && g.requests == f.requests
  {
  }

  /**
   * A request-token reply without `oauth_token` rejects, but `reject` does
   * not return: the authenticate page still opens, on
   * `...authenticate?oauth_token=undefined`, with its listeners attached.
   */
  lemma RequestTokenMissingStillOpens(c: Config, f: Flow, body: Text)
    requires f.stage == AwaitingRequestToken && f.outcome.Pending?
    requires !ShadowsHasOwnProperty(ParseParameters(body)) && TokenName !in Keys(ParseParameters(body))
    ensures var g := Step(c, f, RequestTokenReply(Success(body)));
      && g.outcome == Rejected(NoRequestToken) && g.stage == Authorizing && g.browserOpen
      && g.authenticateUrl == AuthenticateUrl(ParseParameters(body)) == AuthenticatePage + "undefined"
      && g.awaitingAccessToken == f.awaitingAccessToken && g.requests == f.requests
  {
    assert Defined(ParseParameters(body), TokenName).None?;
  }

  /**
   * A failed post rejects a pending flow with the HTTP error as it came.
   * After the request-token post no listener is left; after the
   * access-token post the `finally` still closes the browser.
   */
  lemma TransportErrorRejects(c: Config, f: Flow, error: Text)
    requires f.outcome.Pending?
    ensures f.stage == AwaitingRequestToken ==>
      Step(c, f, RequestTokenReply(Failure(error))) == f.(outcome := Rejected(error), stage := Inert)
    ensures f.awaitingAccessToken > 0 ==>
      Step(c, f, AccessTokenReply(Failure(error)))
        == f.(outcome := Rejected(error), awaitingAccessToken := f.awaitingAccessToken - 1, browserOpen := false)
  {
  }

  /** A redirect carrying `oauth_verifier` keeps the flow as it was and posts the access-token request with it. */
  lemma RedirectWithVerifier(c: Config, f: Flow, url: Text)
    requires f.stage == Authorizing
    requires StartsWith(url, c.redirectUri) && '?' in url
    requires !ShadowsHasOwnProperty(ParseParameters(Split(url, '?')[1]))
    requires VerifierName in Keys(ParseParameters(Split(url, '?')[1]))
    ensures var g := Step(c, f, LoadStart(url));
      && g.outcome == f.outcome && g.stage == Authorizing
      && g.awaitingAccessToken == f.awaitingAccessToken + 1
      && |g.requests| == |f.requests| + 1 && g.requests[..|f.requests|] == f.requests
      && g.requests[|f.requests|].AccessTokenPost?
      && g.requests[|f.requests|].verifier == Defined(ParseParameters(Split(url, '?')[1]), VerifierName)
  {
  }

  /**
   * The whole sign-in from the state `Start` leaves (see `StartState`): a
   * request token, a redirect carrying an `oauth_verifier` value, and an
   * access-token reply carrying `oauth_token_secret` resolve the promise
   * with that reply's parameters, close the browser and add exactly one
   * post, the access-token request with its verifier.
   */
  lemma SignInCompletes(c: Config, f: Flow, tokenReply: Text, url: Text, accessReply: Text)
    requires f.stage == AwaitingRequestToken && f.outcome.Pending? && f.awaitingAccessToken == 0
    requires TokenName in Keys(ParseParameters(tokenReply))
    requires StartsWith(url, c.redirectUri) && '?' in url
    requires Defined(ParseParameters(Split(url, '?')[1]), VerifierName).Some?
    requires TokenSecretName in Keys(ParseParameters(accessReply))
    requires !ShadowsHasOwnProperty(ParseParameters(tokenReply))
    requires !ShadowsHasOwnProperty(ParseParameters(Split(url, '?')[1]))
    requires !ShadowsHasOwnProperty(ParseParameters(accessReply))
    ensures var g := Run(c, f, [RequestTokenReply(Success(tokenReply)), LoadStart(url), AccessTokenReply(Success(accessReply))]);
      && g.outcome == Resolved(ParseParameters(accessReply))
      && !g.browserOpen && g.awaitingAccessToken == 0
      && |g.requests| == |f.requests| + 1 && g.requests[..|f.requests|] == f.requests
      && g.requests[|f.requests|].AccessTokenPost? && g.requests[|f.requests|].verifier == Defined(ParseParameters(Split(url, '?')[1]), VerifierName)
  {
    var events := [RequestTokenReply(Success(tokenReply)), LoadStart(url), AccessTokenReply(Success(accessReply))];
    var f1 := Step(c, f, events[0]);
    RequestTokenAuthorizes(c, f, tokenReply);
    var f2 := Step(c, f1, events[1]);
    RedirectWithVerifier(c, f1, url);
    var f3 := Step(c, f2, events[2]);
    AccessTokenReplySettles(c, f2, accessReply);
    assert Run(c, f, events) == Run(c, f1, events[1..]);
    assert Run(c, f1, events[1..]) == Run(c, f2, events[2..]);
    assert Run(c, f2, events[2..]) == Run(c, f3, []);
  }

  /**
   * A request-token reply with a `hasOwnProperty` parameter makes the
   * `success` callback throw before the browser opens: no listener is
   * attached, and no later event settles the promise.
   */
  lemma ShadowedTokenReplyStalls(c: Config, f: Flow, body: Text, events: seq<Event>)
    requires f.stage == AwaitingRequestToken && f.awaitingAccessToken == 0
    requires ShadowsHasOwnProperty(ParseParameters(body))
    ensures Run(c, f, [RequestTokenReply(Success(body))] + events) == f.(stage := Inert)
  {
    var g := Step(c, f, RequestTokenReply(Success(body)));
    assert ([RequestTokenReply(Success(body))] + events)[1..] == events;
    InertIgnoresEverything(c, g, events);
  }

  /** A callback query with a `hasOwnProperty` parameter throws before the listener changes or posts anything. */
  lemma ShadowedRedirectIgnored(c: Config, f: Flow, url: Text)
    requires StartsWith(url, c.redirectUri) && '?' in url
    requires ShadowsHasOwnProperty(ParseParameters(Split(url, '?')[1]))
    ensures Step(c, f, LoadStart(url)) == f
  {
  }

  /** An access-token reply with a `hasOwnProperty` parameter settles nothing; `finally` still closes the browser. */
  lemma ShadowedAccessTokenReply(c: Config, f: Flow, body: Text)
    requires f.awaitingAccessToken > 0 && ShadowsHasOwnProperty(ParseParameters(body))
    ensures Step(c, f, AccessTokenReply(Success(body)))
            == f.(browserOpen := false, awaitingAccessToken := f.awaitingAccessToken - 1)
  {
  }
}
