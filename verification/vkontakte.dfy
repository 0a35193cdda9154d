/**
 * `Oauth.vkontakte`: open the VK authorize page, watch the in-app
 * browser's navigations for the `blank.html` redirect, read the token out
 * of its fragment and settle the promise; closing the browser first
 * rejects it. Navigations and the exit event are inputs.
 */
module Vkontakte {
  import opened Wrappers
  import opened Strings
  import opened JsObjects
  import opened OauthUtility
  import opened Settlement
  import opened ParameterProperties

  const BlankHttps: Text := "https://oauth.vk.com/blank.html"
  const BlankHttp: Text := "http://oauth.vk.com/blank.html"

  const AuthorizePage: Text := "https://oauth.vk.com/authorize?client_id="
  const RedirectOption: Text := "redirect_uri="
  const ResponseTypeOption: Text := "response_type=token"
  const ScopeOption: Text := "scope="
  const DisplayOption: Text := "display=touch"

  /** The page the browser opens, `scope` being `appScope.join(',')`. */
  function AuthorizeUrl(clientId: Text, appScope: seq<Text>): (r: Text)
    ensures StartsWith(r, AuthorizePage + clientId + "&")
  {
    (AuthorizePage + clientId) + "&" + (RedirectOption + BlankHttp) + "&" + ResponseTypeOption
      + "&" + (ScopeOption + Join(appScope, ",")) + "&" + DisplayOption + "&" + ResponseTypeOption
  }

  /** The redirect test: the text before the first `#` is exactly one of the two blank pages. */
  predicate IsRedirect(url: Text)
    ensures IsRedirect(url) ==> StartsWith(url, BlankHttps) || StartsWith(url, BlankHttp)
  {
    var head := Split(url, '#')[0];
    head == BlankHttps || head == BlankHttp
  }

  const ProblemAuthenticating: Text := "Problem authenticating"

  const AccessTokenName: Text := "access_token"
  const ExpiresInName: Text := "expires_in"
  const EmailName: Text := "email"

  /** The object the promise resolves with; `email` is there only when the redirect had one. */
  datatype Token = Token(accessToken: Text, expiresIn: Option<Text>, email: Option<Text>)

  /** The token a parsed fragment yields, if it carries an `access_token`. */
  function TokenOf(m: seq<Entry<Option<Text>>>): (r: Option<Token>)
    ensures r.Some? <==> Lookup(m, AccessTokenName).Some? && Lookup(m, AccessTokenName).value.Some?
    ensures r.Some? ==> Lookup(m, AccessTokenName) == Some(Some(r.value.accessToken))
    ensures r.Some? ==> (r.value.email.Some? <==> Lookup(m, EmailName).Some? && Lookup(m, EmailName).value.Some?)
    ensures r.Some? ==> r.value.expiresIn == Defined(m, ExpiresInName) && r.value.email == Defined(m, EmailName)
  {
    match Defined(m, AccessTokenName)
    case None => None
    case Some(t) => Some(Token(t, Defined(m, ExpiresInName), Defined(m, EmailName)))
  }

  datatype Event = LoadStart(url: Text) | Exit

  /**
   * What the handlers can change: the promise and `browserOpen`, which
   * means "not yet closed by the code". The user's own exit does not clear
   * it; only the redirect handler's `close()` does.
   */
  datatype Session = Session(outcome: Outcome<Token>, browserOpen: bool)

  /**
   * One event. A matching navigation closes the browser; when the URL has
   * no `#`, reading the fragment throws and nothing else happens. The
   * `exit` listener stays registered throughout.
   */
  function Step(s: Session, e: Event): (r: Session)
    ensures !s.outcome.Pending? ==> r.outcome == s.outcome
    ensures r.browserOpen ==> s.browserOpen
  {
    match e
    case Exit => s.(outcome := Apply(s.outcome, RejectWith(SignInCanceled)))
    case LoadStart(url) =>
      if !IsRedirect(url) then s
      else
        var pieces := Split(url, '#');
        if |pieces| < 2 then s.(browserOpen := false)
        else
          var call := match TokenOf(ParseParameters(pieces[1]))
            case Some(t) => ResolveWith(t)
            case None => RejectWith(ProblemAuthenticating);
          Session(Apply(s.outcome, call), false)
  }

  function Run(s: Session, events: seq<Event>): Session
    decreases |events|
  {
    if |events| == 0 then s else Run(Step(s, events[0]), events[1..])
  }

  /** The promise and browser of one `Oauth.vkontakte` call. */
  class SignIn {
    const authorizeUrl: Text
    const promise: Promise<Token>
    var browserOpen: bool

    function State(): Session
      reads this, promise
    {
      Session(promise.outcome, browserOpen)
    }

    constructor (clientId: Text, appScope: seq<Text>)
      ensures authorizeUrl == AuthorizeUrl(clientId, appScope)
      ensures fresh(promise) && State() == Session(Pending, true)
    {
      authorizeUrl := AuthorizeUrl(clientId, appScope);
      promise := new Promise<Token>();
      browserOpen := true;
    }

    /** The `loadstart` listener. */
    method OnLoadStart(url: Text)
      modifies this, promise
      ensures State() == Step(old(State()), LoadStart(url))
    {
      var tmp := Split(url, '#');
      if tmp[0] != BlankHttps && tmp[0] != BlankHttp {
        return;
      }
      // The `removeEventListener('exit', ...)` call is handed a new
      // function, so the `exit` listener stays.
      browserOpen := false;
      if |tmp| < 2 {
        return;
      }
      var parameterMap := ParseParameterString(tmp[1]);
      var accessToken := Defined(parameterMap.entries, AccessTokenName);
      if accessToken.Some? {
        var output := Token(accessToken.value, Defined(parameterMap.entries, ExpiresInName), Defined(parameterMap.entries, EmailName));
        promise.Resolve(output);
      } else {
        promise.Reject(ProblemAuthenticating);
      }
    }

    /** The `exit` listener. */
    method OnExit()
      modifies promise
      ensures State() == Step(old(State()), Exit)
    {
      promise.Reject(SignInCanceled);
    }
  }

  // ---------------------------------------------------------------------
  // Properties
  // ---------------------------------------------------------------------

  /** The redirect test holds exactly for a blank page, bare or followed by a `#` fragment. */
  lemma IsRedirectShape(url: Text)
    ensures IsRedirect(url) <==>
      exists page :: (page == BlankHttps || page == BlankHttp) && (url == page || StartsWith(url, page + "#"))
  {
    BlankPagesUnfragmented();
    var pieces := Split(url, '#');
    if IsRedirect(url) {
      var page := pieces[0];
      if |pieces| == 1 {
        assert url == page;
      } else {
        assert url == page + ("#" + Join(pieces[1..], "#")) by {
          JoinHead(pieces, "#");
        }
        assert StartsWith(url, page + "#");
      }
    } else {
      forall page | (page == BlankHttps || page == BlankHttp) && (url == page || StartsWith(url, page + "#"))
        ensures false
      {
        if url == page {
          SplitNoSeparator(page, '#');
        } else {
          var tail := url[|page| + 1..];
          assert url == page + ("#" + tail) by {
            PrefixRest(url, page + "#");
            AppendAssoc(page, "#", tail);
          }
          SplitPrefix(page, tail, '#');
        }
      }
    }
  }

  /** `Join` with more than one part: the first part, the separator, the rest. */
  lemma JoinHead(parts: seq<Text>, sep: Text)
    requires |parts| > 1
    ensures Join(parts, sep) == parts[0] + (sep + Join(parts[1..], sep))
  {
  }

  lemma AuthorizePageUnseparated()
    ensures '&' !in AuthorizePage
  {
    assert AuthorizePage == "https://oauth.vk.com/authorize?client_id=";
  }

  /** None of the authorize URL's fixed texts holds a `&`. */
  lemma AuthorizeTextsUnseparated()
    ensures '&' !in AuthorizePage && '&' !in RedirectOption && '&' !in BlankHttp
    ensures '&' !in ResponseTypeOption && '&' !in ScopeOption && '&' !in DisplayOption
  {
    AuthorizePageUnseparated();
    assert '&' !in BlankHttp by {
      assert BlankHttp == "http://oauth.vk.com/blank.html";
    }
    assert '&' !in RedirectOption by {
      assert RedirectOption == "redirect_uri=";
    }
    assert '&' !in ResponseTypeOption by {
      assert ResponseTypeOption == "response_type=token";
    }
    assert '&' !in ScopeOption by {
      assert ScopeOption == "scope=";
    }
    assert '&' !in DisplayOption by {
      assert DisplayOption == "display=touch";
    }
  }

  /** The authorize URL's fields between the `&`s hold no `&` themselves. */
  lemma AuthorizeFieldsUnseparated(clientId: Text, appScope: seq<Text>)
    requires '&' !in clientId
    requires forall i :: 0 <= i < |appScope| ==> '&' !in appScope[i]
    ensures '&' !in AuthorizePage + clientId && '&' !in RedirectOption + BlankHttp
    ensures '&' !in ResponseTypeOption && '&' !in ScopeOption + Join(appScope, ",") && '&' !in DisplayOption
  {
    assert '&' !in "," by {
      assert "," == [','];
    }
    JoinAvoids(appScope, ",", '&');
    AuthorizeTextsUnseparated();
  }

  /**
   * The authorize URL's `&`-separated pieces: the page with `client_id`,
   * the blank-page redirect, `response_type=token`, the scopes joined by
   * `,`, and the touch display, provided neither the client id nor a scope
   * holds a `&`.
   */
  lemma AuthorizeUrlPieces(clientId: Text, appScope: seq<Text>)
    requires '&' !in clientId
    requires forall i :: 0 <= i < |appScope| ==> '&' !in appScope[i]
    ensures Split(AuthorizeUrl(clientId, appScope), '&') ==
      [AuthorizePage + clientId, RedirectOption + BlankHttp, ResponseTypeOption,
       ScopeOption + Join(appScope, ","), DisplayOption, ResponseTypeOption]
  {
    var a, b, c := AuthorizePage + clientId, RedirectOption + BlankHttp, ResponseTypeOption;
    var d, e := ScopeOption + Join(appScope, ","), DisplayOption;
    AuthorizeFieldsUnseparated(clientId, appScope);
    SplitSix(a, b, c, d, e, c, '&');
    assert AuthorizeUrl(clientId, appScope) == a + ['&'] + b + ['&'] + c + ['&'] + d + ['&'] + e + ['&'] + c;
  }

  /** Six separator-free texts joined by the separator split back into the six. */
  lemma SplitSix(a: Text, b: Text, c: Text, d: Text, e: Text, f: Text, sep: AsciiChar)
    requires sep !in a && sep !in b && sep !in c && sep !in d && sep !in e && sep !in f
    ensures Split(a + [sep] + b + [sep] + c + [sep] + d + [sep] + e + [sep] + f, sep) == [a, b, c, d, e, f]
  {
    var s := [sep];
    SplitNoSeparator(a, sep);
    SplitSnoc(a, b, sep);
    SplitSnoc(a + s + b, c, sep);
    SplitSnoc(a + s + b + s + c, d, sep);
    SplitSnoc(a + s + b + s + c + s + d, e, sep);
    SplitSnoc(a + s + b + s + c + s + d + s + e, f, sep);
  }

  /** Navigations to other pages change nothing, however many there are. */
  lemma {:induction false} OtherPagesIgnored(s: Session, events: seq<Event>)
    requires forall i :: 0 <= i < |events| ==> events[i].LoadStart? && !IsRedirect(events[i].url)
    ensures Run(s, events) == s
  {
    if |events| > 0 {
      OtherPagesIgnored(s, events[1..]);
    }
  }

  /** Once settled, the outcome survives any further navigation or exit. */
  lemma {:induction false} SettledStaysSettled(s: Session, events: seq<Event>)
    requires !s.outcome.Pending?
    ensures Run(s, events).outcome == s.outcome
    decreases |events|
  {
    if |events| > 0 {
      SettledStaysSettled(Step(s, events[0]), events[1..]);
    }
  }

  /** Closing the browser before the redirect rejects with the cancel message. */
  lemma ExitFirstCancels(events: seq<Event>)
    requires |events| > 0 && events[0] == Exit
    ensures Run(Session(Pending, true), events).outcome == Rejected(SignInCanceled)
  {
    var s1 := Step(Session(Pending, true), Exit);
    assert s1.outcome == Rejected(SignInCanceled);
    assert Run(Session(Pending, true), events) == Run(s1, events[1..]);
    SettledStaysSettled(s1, events[1..]);
  }

  /**
   * Any redirect with a `#` closes the browser and settles a pending
   * promise: resolved with the token of the text after the first `#` when
   * it has a defined `access_token`, rejected with "Problem authenticating"
   * when it has none.
   */
  lemma FragmentRedirectSettles(s: Session, url: Text)
    requires IsRedirect(url) && '#' in url
    requires s.outcome.Pending?
    ensures var fragment := Split(url, '#')[1];
      var token := TokenOf(ParseParameters(fragment));
      && (token.Some? ==> Step(s, LoadStart(url)) == Session(Resolved(token.value), false))
      && (token.None? ==> Step(s, LoadStart(url)) == Session(Rejected(ProblemAuthenticating), false))
  {
    SplitSeparated(url, '#');
  }

  /** A redirect without a `#` only closes the browser: reading the fragment throws. */
  lemma UnfragmentedRedirectCloses(s: Session, url: Text)
    requires IsRedirect(url) && '#' !in url
    ensures Step(s, LoadStart(url)) == s.(browserOpen := false)
  {
    SplitNoSeparator(url, '#');
  }

  /** The fragment `access_token=T&expires_in=E`. */
  function FragmentOf(token: Text, expiresIn: Text): Text
  {
    Pair(AccessTokenName, token) + "&" + Pair(ExpiresInName, expiresIn)
  }

  /** Neither blank page holds a `#`. */
  lemma BlankPagesUnfragmented()
    ensures '#' !in BlankHttps && '#' !in BlankHttp
  {
    assert BlankHttps == "https://oauth.vk.com/blank.html";
    assert BlankHttp == "http://oauth.vk.com/blank.html";
  }

  /** A blank page with a fragment is a redirect, and the fragment is the second piece. */
  lemma RedirectPieces(page: Text, fragment: Text)
    requires page == BlankHttps || page == BlankHttp
    requires '#' !in fragment
    ensures Split(page + "#" + fragment, '#') == [page, fragment]
    ensures IsRedirect(page + "#" + fragment)
  {
    BlankPagesUnfragmented();
    SplitTwo(page, fragment, '#');
  }

  /**
   * The redirect `blank.html#access_token=T&expires_in=E` resolves with
   * `{access_token: T, expires_in: E}` and closes the browser.
   */
  lemma TokenRedirectResolves(page: Text, token: Text, expiresIn: Text)
    requires page == BlankHttps || page == BlankHttp
    requires '&' !in token && '=' !in token && '#' !in token
    requires '&' !in expiresIn && '=' !in expiresIn && '#' !in expiresIn
    ensures Step(Session(Pending, true), LoadStart(page + "#" + FragmentOf(token, expiresIn)))
            == Session(Resolved(Token(token, Some(expiresIn), None)), false)
  {
    RedirectPieces(page, FragmentOf(token, expiresIn));
    FragmentToken(token, expiresIn);
  }

  /**
   * Closing the browser after that redirect fires `exit`; the listener is
   * still there, and its `reject` runs into the settled promise.
   */
  lemma TokenRedirectThenExit(page: Text, token: Text, expiresIn: Text)
    requires page == BlankHttps || page == BlankHttp
    requires '&' !in token && '=' !in token && '#' !in token
    requires '&' !in expiresIn && '=' !in expiresIn && '#' !in expiresIn
    ensures Run(Session(Pending, true), [LoadStart(page + "#" + FragmentOf(token, expiresIn)), Exit])
            == Session(Resolved(Token(token, Some(expiresIn), None)), false)
  {
    var url := page + "#" + FragmentOf(token, expiresIn);
    var s1 := Step(Session(Pending, true), LoadStart(url));
    TokenRedirectResolves(page, token, expiresIn);
    assert Run(Session(Pending, true), [LoadStart(url), Exit]) == Run(s1, [Exit]) by {
      assert [LoadStart(url), Exit][1..] == [Exit];
    }
    assert Run(s1, [Exit]) == Step(s1, Exit) by {
      assert [Exit][1..] == [];
    }
  }

  /** The token such a fragment carries. */
  lemma FragmentToken(token: Text, expiresIn: Text)
    requires '&' !in token && '=' !in token
    requires '&' !in expiresIn && '=' !in expiresIn
    ensures TokenOf(ParseParameters(FragmentOf(token, expiresIn))) == Some(Token(token, Some(expiresIn), None))
  {
    var m := ParseParameters(FragmentOf(token, expiresIn));
    FragmentParses(token, expiresIn);
    assert m[0].key != m[1].key;
    assert Lookup(m, AccessTokenName) == Some(Some(token));
    assert Lookup(m[1..], ExpiresInName) == Some(Some(expiresIn));
    assert Lookup(m[1..][1..], EmailName) == None;
  }

  /** The fragment parses into its two properties, in order. */
  lemma FragmentParses(token: Text, expiresIn: Text)
    requires '&' !in token && '=' !in token
    requires '&' !in expiresIn && '=' !in expiresIn
    ensures ParseParameters(FragmentOf(token, expiresIn))
            == [Entry(AccessTokenName, Some(token)), Entry(ExpiresInName, Some(expiresIn))]
  {
    var first := Pair(AccessTokenName, token);
    var second := Pair(ExpiresInName, expiresIn);
    assert Split(FragmentOf(token, expiresIn), '&') == [first, second] by {
      assert '&' !in first && '&' !in second;
      SplitTwo(first, second, '&');
    }
    PieceOfPair(AccessTokenName, token);
    PieceOfPair(ExpiresInName, expiresIn);
    var updates := ParsedPieces([first, second]);
    assert updates == [Entry(AccessTokenName, Some(token)), Entry(ExpiresInName, Some(expiresIn))];
    AssignAllFresh(updates);
  }
}
