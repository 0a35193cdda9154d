# OAuth sign-in helpers, modelled in Dafny

A model of the `Oauth` plugin's request-signing utilities and its two
sign-in flows, taken from `src/oauth.js`:

- `OauthUtility.createSignature` builds the OAuth 1.0a signature base
  string of section 3.4.1 of RFC 5849. It merges the header and body
  parameters, encodes body values first, sorts the keys and encodes each
  `k=v` pair.
- It derives the HMAC key (consumer secret `&` token secret), writes
  `oauth_signature` into the caller's header object in place, and
  assembles the `Authorization` header.
- `createNonce`, `generateUrlParameters` and `parseResponseParameters` are
  modelled too. One verified parser also stands for the four inline copies
  of the split-on-`&`-then-`=` loop.
- `Oauth.vkontakte` watches the in-app browser for the `blank.html`
  redirect and reads the token from its fragment.
- `Oauth.twitter` is the three-legged exchange: request token, authenticate
  page, redirect with `oauth_verifier`, re-signing, access token.
- Each flow is a pure state machine (`Step`/`Run` over events). Each also
  has a class whose listener methods update the promise, the browser flag
  and, for Twitter, the shared `oauthObject` in place. Every listener is
  proved to make exactly the move `Step` describes.

Modules, one per file:

| file | module | what it holds |
|---|---|---|
| `wrappers.dfy` | `Wrappers` | `Option`, `Result` |
| `strings.dfy` | `Strings` | ASCII text, `join`, `split`, `indexOf(p) === 0`, integer to decimal text |
| `key_order.dfy` | `KeyOrder` | `Array.prototype.sort` order on keys (by character code) and a sort |
| `uri_encoding.dfy` | `UriEncoding` | `encodeURIComponent` on ASCII, and its inverse |
| `js_objects.dfy` | `JsObjects` | plain objects as ordered unique-key entry lists, and the mutable `JsObject` |
| `oauth_utility.dfy` | `OauthUtility` | the four utilities: specification functions and the loop-based methods |
| `signature_properties.dfy` | `SignatureProperties` | layout and merge facts about signing |
| `parameter_properties.dfy` | `ParameterProperties` | parser facts and the URL-parameter round trip |
| `settlement.dfy` | `Settlement` | one-shot promise settlement, and the cancel message both flows reject with |
| `vkontakte.dfy` | `Vkontakte` | the VK flow |
| `twitter.dfy` | `Twitter` | the Twitter flow |

## Model

| member | source | states |
|---|---|---|
| Strings.Split | src/oauth.js:38 | `split(sep)` gives at least one piece; the pieces rejoined with `sep` give the input back, and no piece holds `sep` |
| Strings.Join | src/oauth.js:36 | `appScope.join(',')`: the parts with the separator between neighbours; `SplitJoin` and `JoinAvoids` state what it gives |
| Strings.JoinAvoids | src/oauth.js:36 | a character in neither the parts nor the separator is not in the joined text, so `,`-joined scopes without `&` add no `&` to the URL |
| Strings.StartsWith | src/oauth.js:113 | `url.indexOf(redirect_uri) === 0` holds exactly when the URL's first characters are the redirect URI; `PrefixRest` gives the rest |
| Strings.SplitJoin | src/oauth.js:46 | splitting undoes joining when no part holds the separator |
| Strings.SplitSeparated | src/oauth.js:117 | `split('?')[1]` exists exactly when the URL holds a `?` |
| Strings.Decimal | src/oauth.js:89 | the timestamp's decimal text is non-empty, all digits, denotes the number, and has no leading zero unless it is `0` |
| KeyOrder.Below | src/oauth.js:194 | the order `sort()` uses: of a text and a text that extends it, the shorter sorts first |
| KeyOrder.Sort | src/oauth.js:194 | the ascending copy of the key list, by insertion; `SortPermutes` and `SortAscending` below state what it gives |
| KeyOrder.BelowTotal | src/oauth.js:194 | the key order is total and antisymmetric on distinct keys |
| KeyOrder.BelowTransitive | src/oauth.js:194 | the key order is transitive |
| KeyOrder.SortPermutes | src/oauth.js:194 | sorting keeps exactly the same keys, each as many times |
| KeyOrder.SortAscending | src/oauth.js:241-242 | sorting distinct keys gives strictly ascending order |
| KeyOrder.AscendingUnique | src/oauth.js:194 | any two ascending listings of the same key set are equal, so the sorted order does not depend on insertion order |
| UriEncoding.Encode | src/oauth.js:191 | each character becomes one to three characters, so the result is between one and three times as long as the input |
| UriEncoding.EncodeSafe | src/oauth.js:191 | `encodeURIComponent` output holds only unreserved characters and `%` escapes, and is no shorter than its input |
| UriEncoding.EncodeAppend | src/oauth.js:197-199 | encoding distributes over concatenation |
| UriEncoding.EncodeRemoves | src/oauth.js:199 | a reserved character other than `%` never survives encoding (so `&`, `=` cannot) |
| UriEncoding.EncodeJoin | src/oauth.js:195-201 | encoding a `&`-joined list equals joining the encoded parts with the encoded separator |
| UriEncoding.EncodeIdentity | src/oauth.js:209 | encoding leaves a text unchanged exactly when it has nothing to escape |
| UriEncoding.HexRoundTrip | src/oauth.js:191 | each escape's hex digit reads back as its value |
| UriEncoding.DecodeEncode | src/oauth.js:191 | decoding recovers what was encoded |
| UriEncoding.EncodeInjective | src/oauth.js:193 | different texts never encode alike |
| JsObjects.Lookup | src/oauth.js:108 | a read finds nothing exactly when the key is not an own property (`hasOwnProperty`) |
| JsObjects.Keys | src/oauth.js:189 | `Object.keys` lists one key per property, the i-th being the i-th property's key |
| JsObjects.Stringify | src/oauth.js:111 | the text `+` makes of a property read: the value, or `undefined` when there is none; `Get` and `RequestTokenMissingStillOpens` state its uses |
| JsObjects.Get | src/oauth.js:197 | `obj[k]` as text reads the own property's value when `k` is a key, and `undefined` when it is not |
| JsObjects.AssignLookup | src/oauth.js:191 | after `obj[k] = v`, `k` reads `v` and every other key reads as before |
| JsObjects.Assign | src/oauth.js:191 | `obj[k] = v` on an entry list adds at most one entry; `AssignLookup` and `AssignKeys` state the reads and the order |
| JsObjects.AssignKeys | src/oauth.js:127 | assigning keeps an existing key's place and appends a new key |
| JsObjects.AssignDistinct | src/oauth.js:127 | assignment never lists a key twice |
| JsObjects.AssignAllPrefix | src/oauth.js:188-192 | writing the body parameters into the header copy keeps the header keys first, in their order |
| JsObjects.AssignAllUntouched | src/oauth.js:190-192 | a key that no update names keeps its value |
| JsObjects.AssignAllLast | src/oauth.js:259-261 | a key reads the value of the last update that names it |
| JsObjects.AssignAllKeys | src/oauth.js:190-192 | the keys after the updates are the old keys plus the updated keys |
| JsObjects.AssignAbsent | src/oauth.js:209 | assigning a new key appends exactly that entry |
| JsObjects.AssignAllFresh | src/oauth.js:258-261 | distinct-key updates to `{}` give exactly those properties |
| JsObjects.Remove | src/oauth.js:126 | `delete obj[k]` on an entry list never adds an entry; `RemoveLookup` and `RemoveAt` state the reads and the order |
| JsObjects.RemoveLookup | src/oauth.js:126 | after `delete obj[k]`, `k` is gone and every other key reads as before |
| JsObjects.RemoveAt | src/oauth.js:126 | deleting leaves the other properties in their order |
| JsObjects.RemoveAbsent | src/oauth.js:126 | deleting a missing key changes nothing |
| JsObjects.JsObject.Empty | src/oauth.js:258 | `{}` has no properties |
| JsObjects.JsObject.Copy | src/oauth.js:188 | `angular.copy` gives a fresh object with the same properties in the same order |
| JsObjects.JsObject.Set | src/oauth.js:127 | `obj[k] = v` in place, keeping keys unique |
| JsObjects.JsObject.Delete | src/oauth.js:126 | `delete obj[k]` in place, keeping keys unique |
| OauthUtility.CreateSignature | src/oauth.js:186-223 | without jsSHA: the error text, header untouched; with it: the base string, `Authorization` header and signature of `Sign`, and the header object becomes the header plus `oauth_signature` |
| OauthUtility.BaseString | src/oauth.js:193-201 | the base string starts with the HTTP method exactly as given and `&` |
| OauthUtility.SigningKey | src/oauth.js:204-209 | the HMAC key starts with the encoded consumer secret and `&`, and is nothing more exactly when the token secret is absent or empty |
| OauthUtility.AuthorizationHeader | src/oauth.js:210-218 | the header starts with `OAuth `, which is all of it exactly when the object has no properties |
| OauthUtility.Sign | src/oauth.js:209-219 | the returned signature is the value the signed header object holds under `oauth_signature` |
| OauthUtility.MergeParameters | src/oauth.js:188-192 | the loop builds a fresh copy of the header with each body value written in encoded |
| OauthUtility.EncodedBody | src/oauth.js:189-191 | one encoded update per body property; `EncodedBodyKeys` states the keys and order |
| OauthUtility.Merged | src/oauth.js:188-192 | the header copy with the encoded body values written over it; `MergeLookup` and `MergeKeys` state its reads and keys |
| OauthUtility.SignatureBaseString | src/oauth.js:193-201 | the accumulation loop over the sorted keys yields exactly the base string |
| OauthUtility.BuildAuthorizationHeader | src/oauth.js:210-218 | the accumulation loop yields `OAuth ` and `k="v"` items in key order, `,`-separated |
| OauthUtility.CreateNonce | src/oauth.js:231-238 | exactly `length` characters (none for `length` ≤ 0), the i-th being the alphabet entry the i-th draw picks, each a letter or digit |
| OauthUtility.AlphabetAlphanumeric | src/oauth.js:233 | every character of the 62-character alphabet is a letter or digit |
| OauthUtility.GenerateUrlParameters | src/oauth.js:240-253 | the loop yields `k=v` over the sorted keys joined by `&`, without a leading or trailing `&` |
| OauthUtility.UrlParameters | src/oauth.js:240-253 | the parameter text is empty exactly when the object has no properties |
| OauthUtility.Defined | src/oauth.js:51 | a read is defined exactly when the key is present with a value, and then gives that value |
| OauthUtility.ParseParameters | src/oauth.js:256-261 | every string, the empty one included, parses to an object with at least one property |
| OauthUtility.PieceKey | src/oauth.js:260 | `piece.split('=')[0]` holds no `=`, and is the whole piece when the piece has none |
| OauthUtility.PieceValue | src/oauth.js:260 | `piece.split('=')[1]` is `undefined` exactly when the piece has no `=`, and otherwise holds no `=` |
| OauthUtility.ParseParameterString | src/oauth.js:46-50 | the split-then-assign loop builds exactly the parsed object |
| OauthUtility.ParseResponseParameters | src/oauth.js:255-267 | a string is parsed; `null` or `undefined` throws (no object); any other value gives `{}` |
| SignatureProperties.EncodedBodyKeys | src/oauth.js:189-191 | encoding body values keeps the body keys and their order |
| SignatureProperties.MergeLookup | src/oauth.js:188-192 | a body parameter overrides a header one and is read encoded; other header parameters are kept; the merged keys are the union |
| SignatureProperties.MergeKeys | src/oauth.js:188-192 | the merged object lists the header keys first, in order, with no key twice |
| SignatureProperties.BodyValueEncodedTwice | src/oauth.js:191-199 | a body value reaches its base-string pair already encoded once, before the pair is encoded again |
| SignatureProperties.StaleSignatureIsSigned | src/oauth.js:188-194 | an `oauth_signature` already in the header takes part in the new base string |
| SignatureProperties.SortedKeysMembers | src/oauth.js:194 | the sorted key list holds exactly the object's keys |
| SignatureProperties.BaseStringCanonical | src/oauth.js:194-201 | objects with the same properties give the same base string, whatever their insertion order |
| SignatureProperties.EncodeAmpersand | src/oauth.js:199 | the encoded `&` is `%26` |
| SignatureProperties.BaseStringLayout | src/oauth.js:193-201 | method as given, `&`, encoded end point, `&`, encoded `k=v` pairs in ascending key order separated by `%26`, none trailing |
| SignatureProperties.BaseStringFields | src/oauth.js:193-201 | split on `&`, the base string is exactly method, encoded end point and encoded `generateUrlParameters` text, and the last two decode back |
| SignatureProperties.SigningKeyParts | src/oauth.js:204-209 | the HMAC key is encoded secret, one `&`, encoded token secret or nothing when it is absent or empty; the first half decodes back |
| SignatureProperties.SignatureWrittenIntoHeader | src/oauth.js:209 | signing sets `oauth_signature` to the encoded HMAC, keeps every other header property, and keeps the key's place or appends it |
| SignatureProperties.SignatureLastInHeader | src/oauth.js:209-218 | a newly added signature comes last in the `Authorization` header, after a `,` |
| SignatureProperties.SignedItems | src/oauth.js:212-217 | the header items of the signed object are the old items plus the signature item |
| SignatureProperties.AlphanumericUnencoded | src/oauth.js:197 | letters and digits, such as the nonce, pass through encoding unchanged |
| ParameterProperties.ParseDistinct | src/oauth.js:258-261 | the parsed object never lists a name twice |
| ParameterProperties.ParseKeys | src/oauth.js:259-261 | a name is present exactly when some `&`-piece's text before `=` is that name |
| ParameterProperties.ParseLastWins | src/oauth.js:259-261 | for a repeated name, the last piece decides the value |
| ParameterProperties.PieceOfPair | src/oauth.js:260 | `k=v` reads back as key `k`, value `v` |
| ParameterProperties.PieceWithoutValue | src/oauth.js:260 | a piece without `=` is a name whose value is `undefined` |
| ParameterProperties.SortedKeysIn | src/oauth.js:241-242 | every sorted key is a key of the object |
| ParameterProperties.ParseUrlParameters | src/oauth.js:240-267 | parsing what `generateUrlParameters` wrote gives the same properties and values in ascending key order (at least one property; no `&`/`=` inside) |
| ParameterProperties.EmptyParametersQuirk | src/oauth.js:244-257 | `{}` is written as the empty string, which reads back as one empty-named `undefined` property |
| Settlement.SettledStays | src/oauth.js:145-148 | once settled, no later `resolve` or `reject` changes the outcome |
| Settlement.FirstCallWins | src/oauth.js:145-148 | of any calls on a pending promise, the first decides, and the promise is settled |
| Settlement.Apply | src/oauth.js:145-148 | a settled promise ignores a `resolve` or `reject`; a pending one is settled by it |
| Settlement.Promise.constructor | src/oauth.js:35 | a new promise is pending |
| Settlement.Promise.Resolve | src/oauth.js:56 | `resolve` settles a pending promise and is ignored by a settled one |
| Settlement.Promise.Reject | src/oauth.js:58 | `reject` settles a pending promise and is ignored by a settled one |
| Vkontakte.SignIn.constructor | src/oauth.js:33-36 | opens the authorize page with the client id and `,`-joined scope; pending, browser open |
| Vkontakte.SignIn.OnLoadStart | src/oauth.js:37-60 | the `loadstart` listener makes exactly the move of `Step` |
| Vkontakte.SignIn.OnExit | src/oauth.js:61-63 | the `exit` listener makes exactly the move of `Step` |
| Vkontakte.AuthorizeUrl | src/oauth.js:36 | the authorize page starts with `...authorize?client_id=` and the client id, then `&` |
| Vkontakte.AuthorizeUrlPieces | src/oauth.js:36 | split on `&`, the URL is the page with `client_id=<id>`, the blank-page `redirect_uri`, `response_type=token`, `scope=` with the scopes joined by `,`, `display=touch` and `response_type=token` again, provided neither id nor scopes hold a `&` |
| Vkontakte.IsRedirect | src/oauth.js:38-41 | a URL the listener acts on starts with one of the two blank pages |
| Vkontakte.TokenOf | src/oauth.js:51-55 | a token exactly when `access_token` is present and not `undefined`, carrying that value; `expires_in` is the fragment's (possibly `undefined`) and `email` is there exactly when the fragment has a defined one, with its value |
| Vkontakte.Step | src/oauth.js:37-63 | no event changes a settled outcome, and no event reopens a closed browser; `FragmentRedirectSettles` and `UnfragmentedRedirectCloses` state each redirect's move |
| Vkontakte.IsRedirectShape | src/oauth.js:38-41 | the listener acts exactly on a blank page, bare or followed by `#` |
| Vkontakte.OtherPagesIgnored | src/oauth.js:38-41 | any run of other navigations changes nothing |
| Vkontakte.SettledStaysSettled | src/oauth.js:43 | the exit listener is never removed, yet a settled outcome survives any further event |
| Vkontakte.ExitFirstCancels | src/oauth.js:61-63 | closing the browser first rejects with the cancel message, for good |
| Vkontakte.RedirectPieces | src/oauth.js:38-45 | a blank page with a fragment is a redirect whose second `#`-piece is the fragment |
| Vkontakte.FragmentRedirectSettles | src/oauth.js:37-59 | any redirect with a `#` closes the browser and settles a pending promise: resolved with the token of the text after the first `#` when it has a defined `access_token`, rejected with "Problem authenticating" otherwise |
| Vkontakte.UnfragmentedRedirectCloses | src/oauth.js:43-46 | a redirect without `#` closes the browser, then throws reading the fragment: the promise is untouched |
| Vkontakte.TokenRedirectResolves | src/oauth.js:45-56 | `blank.html#access_token=T&expires_in=E` resolves with `{T, E}` without `email`, and closes the browser |
| Vkontakte.TokenRedirectThenExit | src/oauth.js:43-63 | the exit that follows that redirect leaves the resolution in place |
| Vkontakte.FragmentToken | src/oauth.js:51-55 | that fragment yields the token `{T, E}`, no `email` |
| Vkontakte.FragmentParses | src/oauth.js:45-50 | that fragment parses into its two properties, in order |
| Twitter.RedirectUri | src/oauth.js:80-83 | for `options` undefined or an ordinary object: `options.redirect_uri` when it is an own property, `http://localhost/callback` otherwise |
| Twitter.Timestamp | src/oauth.js:89 | the timestamp is the whole number of seconds within half a second of the clock, a half rounding up, as `Math.round` does |
| Twitter.TimestampNearest | src/oauth.js:89 | no other whole number of seconds is that close, so the rounding is the nearest one |
| Twitter.NonceOf | src/oauth.js:87 | the nonce has ten characters |
| Twitter.OauthObject | src/oauth.js:85-91 | the `oauthObject` literal; `OauthObjectDistinct` states its five keys and their order |
| Twitter.CallbackBody | src/oauth.js:92 | the signed body `{ oauth_callback: redirect_uri }`; `StartState` states what signing it stores |
| Twitter.CallbackData | src/oauth.js:100 | the posted form body `oauth_callback=` and the encoded redirect URI; `CallbackDataParses` states how it reads back |
| Twitter.AuthenticateUrl | src/oauth.js:111 | the authenticate page carries the reply's `oauth_token` when it is defined, and `undefined` when the reply has no such key |
| Twitter.AccessHeader | src/oauth.js:126-127 | the header after `delete oauth_signature` and `oauth_token = ...`; `AccessHeaderFields` states every read |
| Twitter.VerifierBody | src/oauth.js:128 | the body `{ oauth_verifier: ... }`; `VerifierBodyField` states its key and value |
| Twitter.CallbackQuery | src/oauth.js:113-117 | the listener acts exactly while authorizing, on a URL starting with the redirect URI and holding a `?`; the query has no `?` |
| Twitter.Start | src/oauth.js:84-168 | with jsSHA: pending, awaiting the request token, one post sent; without: rejected with the missing-library text and no listener; the browser closed and no access-token post outstanding either way |
| Twitter.AfterRequestToken | src/oauth.js:102-165 | the request-token callbacks run once, so that listener is gone afterwards; a settled outcome, `oauthObject` and the posts are kept |
| Twitter.AfterRedirect | src/oauth.js:123-138 | a settled outcome, the listeners and the browser are kept; exactly one post is appended and one more access-token reply is awaited |
| Twitter.AfterAccessToken | src/oauth.js:139-157 | the browser is closed and one fewer reply awaited; a settled outcome is kept, and a pending one is settled unless the `success` callback throws at `hasOwnProperty` |
| Twitter.Step | src/oauth.js:102-161 | posts are only ever appended, no listener comes back once gone, and a settled outcome never changes |
| Twitter.SignIn.constructor | src/oauth.js:77-101 | the new flow is `Start`: rejected without jsSHA, else the signed request-token post sent |
| Twitter.SignIn.OnRequestTokenReply | src/oauth.js:102-112 | the request-token callbacks make exactly the move of `Step` |
| Twitter.SignIn.OnLoadStart | src/oauth.js:112-138 | the `loadstart` listener makes exactly the move of `Step` |
| Twitter.SignIn.FollowRedirect | src/oauth.js:123-138 | the listener, once the query has parsed, makes exactly the move of `AfterRedirect` |
| Twitter.SignIn.HandleCallback | src/oauth.js:123-138 | reject without `oauth_verifier` and carry on, re-sign `oauthObject` in place, and answer the access-token post |
| Twitter.SignIn.Resign | src/oauth.js:126-128 | delete the old signature, set `oauth_token`, sign again in place; answers the new `Authorization` header |
| Twitter.SignIn.OnAccessTokenReply | src/oauth.js:139-157 | the access-token callbacks make exactly the move of `Step` |
| Twitter.SignIn.SettleAccessToken | src/oauth.js:139-157 | a pending access-token reply settles the promise as `AfterAccessToken` says and closes the browser |
| Twitter.SignIn.OnExit | src/oauth.js:159-161 | the `exit` listener makes exactly the move of `Step` |
| Twitter.Execute | src/oauth.js:84-101 | the executor produces the state `Start` describes |
| Twitter.SignRequestToken | src/oauth.js:85-101 | builds `oauthObject`, signs it in place and answers the request-token post |
| Twitter.OauthObjectDistinct | src/oauth.js:85-91 | the five `oauth_*` names, in order, distinct, without `oauth_signature` |
| Twitter.NonceAlphanumeric | src/oauth.js:231-237 | every nonce character is a letter or digit |
| Twitter.StartState | src/oauth.js:84-101 | with jsSHA: pending, awaiting the request token, the five properties then `oauth_signature`, the nonce and timestamp stored, one post with `oauth_callback=` and the encoded redirect URI |
| Twitter.SignedOauthObject | src/oauth.js:92 | request-token signing appends `oauth_signature` and keeps the five properties |
| Twitter.MissingJsShaRejects | src/oauth.js:166-168 | without jsSHA the promise is rejected at once and no event changes anything |
| Twitter.InertIgnoresEverything | src/oauth.js:163-165 | with no listener and no post outstanding, events change nothing |
| Twitter.OtherPagesIgnored | src/oauth.js:113-115 | navigations not starting with the redirect URI change nothing |
| Twitter.SettledStaysSettled | src/oauth.js:102-161 | a settled outcome survives every later event |
| Twitter.ExitCancels | src/oauth.js:159-161 | closing the browser while authorizing rejects with the cancel message, for good |
| Twitter.RedirectWithoutVerifier | src/oauth.js:123-138 | a redirect without `oauth_verifier` rejects, and the access-token post still goes out without a verifier |
| Twitter.ResignDropsOldSignature | src/oauth.js:126-128 | re-signing drops the old signature from the new base string, and leaves the redirect's `oauth_token` and the new signature in `oauthObject` |
| Twitter.AccessTokenReplySettles | src/oauth.js:139-157 | the reply resolves with its parameters when `oauth_token_secret` is there, rejects otherwise, and closes the browser |
| Twitter.RequestTokenAuthorizes | src/oauth.js:102-112 | a request token opens the authenticate page with it and keeps the flow pending |
| Twitter.RequestTokenMissingStillOpens | src/oauth.js:108-112 | a reply without `oauth_token` rejects with the missing-token text, yet the browser still opens on `...oauth_token=undefined` with its listeners attached |
| Twitter.TransportErrorRejects | src/oauth.js:151-164 | a failed request-token post rejects with the HTTP error and leaves no listener; a failed access-token post rejects with it, closes the browser and awaits one fewer reply |
| Twitter.AccessHeaderFields | src/oauth.js:126-127 | in the re-signed header `oauth_token` reads the request token (or `undefined`), `oauth_signature` is gone, and every other property reads as before |
| Twitter.CallbackDataParses | src/oauth.js:100 | the form body parses back to the single property `oauth_callback` with the encoded redirect URI: encoding leaves no `&` or `=` to split on |
| Twitter.VerifierBodyField | src/oauth.js:128 | the access-token body has the one key `oauth_verifier`, holding the redirect's verifier, or `undefined` when the query had none |
| Twitter.RedirectWithVerifier | src/oauth.js:117-138 | a redirect with `oauth_verifier` keeps the outcome and appends the access-token post carrying it |
| Twitter.SignInCompletes | src/oauth.js:102-157 | request token, redirect with verifier and access-token reply with a secret resolve with that reply's parameters, close the browser and add exactly one post |
| Twitter.ShadowedTokenReplyStalls | src/oauth.js:102-112 | a request-token reply with a `hasOwnProperty` parameter throws before the browser opens; the flow is left with no listener and the promise pending for good |
| Twitter.ShadowedRedirectIgnored | src/oauth.js:117-123 | a callback query with a `hasOwnProperty` parameter throws before anything changes: no rejection, no re-signing, no post |
| Twitter.ShadowedAccessTokenReply | src/oauth.js:139-157 | an access-token reply with a `hasOwnProperty` parameter settles nothing, but `finally` still closes the browser |

## Left out

- Browser and network I/O are not modelled. This covers `window.open`, `addEventListener`, `close` and the `$http` posts. Navigations, the exit event and HTTP replies are event inputs. The posts sent and the page opened are recorded in the flow state.
- The 10 ms `setTimeout` before `browserRef.close()` is modelled as closing at once.
- Events that arrive after the browser is closed are not filtered out. The listeners themselves never check whether the browser is open.
- The `$http` serialisation of `params` is not modelled. The access-token verifier is recorded as an optional value (dropped when `undefined`), not as a URL.
- The jsSHA HMAC-SHA1, Base64 and SHA-1 are not modelled. The HMAC is a function parameter, and whether jsSHA is loaded is a boolean.
- `Math.random` is replaced by an index oracle (draw `i` picks character `i`).
- The clock is a natural number of milliseconds; a clock before 1970 is not modelled.
- `generateOauthParametersInstance` is not modelled. It is unused and depends only on the clock and SHA-1.
- The `@NativePlugin` decorator, `pluginCheck` and `ifPlugin` are platform plumbing and are not modelled.
- Text is ASCII only. The UTF-8 expansion of `encodeURIComponent` and its `URIError` on lone surrogates are out of scope.
- Object key order is insertion order. JavaScript lists integer-like keys (such as `"0"`) first, and `__proto__` is special; neither is modelled.
- The VK handler builds `parameterMap` as an array. It is modelled as a plain object, so array properties such as `length` are not modelled.
- Option values other than text (a non-string `options.redirect_uri`) are not modelled.
- Twitter.RedirectUri: `options === null`, or an `options` object with an own `hasOwnProperty` property, makes the executor throw at `options.hasOwnProperty`, which rejects the promise with a `TypeError`. Neither is modelled: `options` is `undefined` or an ordinary object.
- The loop variable `i` in the base-string and header loops of `createSignature` is undeclared. In strict module code that is a `ReferenceError`. The model declares it, as evidently intended.
- `angular` and `$http` are never imported in this file. The model assumes they are available.
- The header items' quote character is garbled in the source text (`'=''`). It is modelled as `key="value"`.
- The `Authorization` header items are separated by `,` with no space, as the code writes them. This differs from the `, ` that section 3.5.1 of RFC 5849 shows.
- Percent-encoding follows `encodeURIComponent`, which leaves `! * ' ( )` unencoded. This differs from section 3.6 of RFC 5849.
- A callback URL that matches but has no `?` (or, for VK, no `#`) makes `split(...)[1]` undefined and the handler throws. The model keeps every change made before that point (VK has already closed the browser) and makes no further change.
- SignatureProperties.MergeLookup: stated for bodies without repeated keys, which is all that a JavaScript object literal can give.
- ParameterProperties.ParseUrlParameters: stated for objects with at least one property and no `&` or `=` in any name or value. `EmptyParametersQuirk` covers the empty case, which does not round-trip.
