/**
 * The OAuth 1.0a helpers of `OauthUtility`: request signing (sections
 * 3.4.1, 3.4.2 and 3.5.1 of RFC 5849, with the deviations the code has),
 * nonce generation, and writing and reading `k=v&k=v` parameter strings.
 * HMAC-SHA1 with Base64 output is a parameter; whether the jsSHA library
 * is loaded is a flag; the random source is an oracle of indices.
 */
module OauthUtility {
  import opened Wrappers
  import opened Strings
  import opened KeyOrder
  import opened UriEncoding
  import opened JsObjects

  /** `new jsSHA(message, 'TEXT').getHMAC(key, 'TEXT', 'SHA-1', 'B64')`, as `hmac(key, message)`. */
  type Hmac = (Text, Text) -> Text

  /** `{ signature_base_string, authorization_header, signature }`. */
  datatype Signature = Signature(baseString: Text, authorizationHeader: Text, signature: Text)

  const MissingJsSha: Text := "Missing jsSHA JavaScript library"

  // ---------------------------------------------------------------------
  // Signing: the layout, stated as functions
  // ---------------------------------------------------------------------

  /** Each body parameter, its value read as text and percent-encoded. */
  function EncodedBody(body: seq<Entry<Text>>): (updates: seq<Entry<Text>>)
    ensures |updates| == |body|
  {
    seq(|body|, i requires 0 <= i < |body| => Entry(body[i].key, Encode(Get(body, body[i].key))))
  }

  /** A copy of the header parameters with the encoded body parameters written over it. */
  function Merged(header: seq<Entry<Text>>, body: seq<Entry<Text>>): seq<Entry<Text>>
  {
    AssignAll(header, EncodedBody(body))
  }

  /** One `key=value` pair of the base string and of the URL parameters. */
  function Pair(key: Text, value: Text): Text
  {
    key + "=" + value
  }

  /** `k=v` for each of `keys`, the value read from `m`. */
  function Pairs(m: seq<Entry<Text>>, keys: seq<Text>): (ps: seq<Text>)
    ensures |ps| == |keys|
  {
    seq(|keys|, i requires 0 <= i < |keys| => Pair(keys[i], Get(m, keys[i])))
  }

  /**
   * The signature base string: the method exactly as given, `&`, the encoded
   * end point, `&`, and the encoding of the `&`-joined `k=v` pairs of the
   * merged parameters in ascending key order.
   */
  function BaseString(httpMethod: Text, endPoint: Text, m: seq<Entry<Text>>): (r: Text)
    ensures StartsWith(r, httpMethod + "&")
  {
    httpMethod + "&" + Encode(endPoint) + "&" + Encode(Join(Pairs(m, Sort(Keys(m))), "&"))
  }

  /** The header parameter that carries the signature. */
  const SignatureParameter: Text := "oauth_signature"

  /** The HMAC key: encoded consumer secret, `&`, encoded token secret if truthy. */
  function SigningKey(secretKey: Text, tokenSecret: Option<Text>): (r: Text)
    ensures StartsWith(r, Encode(secretKey) + "&")
    ensures r == Encode(secretKey) + "&" <==> tokenSecret.None? || tokenSecret.value == []
  {
    Encode(secretKey) + "&" + (if tokenSecret.Some? && tokenSecret.value != [] then Encode(tokenSecret.value) else [])
  }

  /** One `key="value"` item of the Authorization header. */
  function HeaderItem(key: Text, value: Text): Text
  {
    key + "=\"" + value + "\""
  }

  /** `k="v"` for each of `keys`, the value read from `h`, in the order given. */
  function HeaderItems(h: seq<Entry<Text>>, keys: seq<Text>): (items: seq<Text>)
    ensures |items| == |keys|
  {
    seq(|keys|, i requires 0 <= i < |keys| => HeaderItem(keys[i], Get(h, keys[i])))
  }

  /** `OAuth ` and the header parameters, in their own order, separated by `,`. */
  function AuthorizationHeader(h: seq<Entry<Text>>): (r: Text)
    ensures StartsWith(r, "OAuth ")
    ensures r == "OAuth " <==> h == []
  {
    "OAuth " + Join(HeaderItems(h, Keys(h)), ",")
  }

  /** The value stored under `oauth_signature`: the encoded Base64 HMAC of the base string. */
  function SignatureValue(httpMethod: Text, endPoint: Text, header: seq<Entry<Text>>, body: seq<Entry<Text>>,
                          secretKey: Text, tokenSecret: Option<Text>, hmac: Hmac): Text
  {
    Encode(hmac(SigningKey(secretKey, tokenSecret), BaseString(httpMethod, endPoint, Merged(header, body))))
  }

  /** The header parameters once `createSignature` has written the signature into them. */
  function SignedHeader(httpMethod: Text, endPoint: Text, header: seq<Entry<Text>>, body: seq<Entry<Text>>,
                        secretKey: Text, tokenSecret: Option<Text>, hmac: Hmac): seq<Entry<Text>>
  {
    Assign(header, SignatureParameter, SignatureValue(httpMethod, endPoint, header, body, secretKey, tokenSecret, hmac))
  }

  function Sign(httpMethod: Text, endPoint: Text, header: seq<Entry<Text>>, body: seq<Entry<Text>>,
                secretKey: Text, tokenSecret: Option<Text>, hmac: Hmac): (r: Signature)
    ensures Lookup(SignedHeader(httpMethod, endPoint, header, body, secretKey, tokenSecret, hmac), SignatureParameter)
            == Some(r.signature)
  {
    AssignLookup(header, SignatureParameter,
                 SignatureValue(httpMethod, endPoint, header, body, secretKey, tokenSecret, hmac), SignatureParameter);
    Signature(
      BaseString(httpMethod, endPoint, Merged(header, body)),
      AuthorizationHeader(SignedHeader(httpMethod, endPoint, header, body, secretKey, tokenSecret, hmac)),
      SignatureValue(httpMethod, endPoint, header, body, secretKey, tokenSecret, hmac))
  }

  // ---------------------------------------------------------------------
  // Signing: the code
  // ---------------------------------------------------------------------

  /**
   * `OauthUtility.createSignature`. Without jsSHA it answers the error text
   * and touches nothing; otherwise it writes `oauth_signature` into the
   * caller's header parameters and answers the three strings.
   */
  method CreateSignature(httpMethod: Text, endPoint: Text, headerParameters: JsObject<Text>,
                         bodyParameters: JsObject<Text>, secretKey: Text, tokenSecret: Option<Text>,
                         jsShaLoaded: bool, hmac: Hmac)
    returns (r: Result<Signature, Text>)
    requires headerParameters.Valid() && bodyParameters.Valid()
    modifies headerParameters
    ensures headerParameters.Valid()
    ensures jsShaLoaded ==>
      && r == Ok(Sign(httpMethod, endPoint, old(headerParameters.entries), old(bodyParameters.entries), secretKey, tokenSecret, hmac))
      && headerParameters.entries
         == SignedHeader(httpMethod, endPoint, old(headerParameters.entries), old(bodyParameters.entries), secretKey, tokenSecret, hmac)
    ensures !jsShaLoaded ==> r == Err(MissingJsSha) && headerParameters.entries == old(headerParameters.entries)
  {
    if !jsShaLoaded {
      return Err(MissingJsSha);
    }
    var headerAndBodyParameters := MergeParameters(headerParameters.entries, bodyParameters.entries);
    var signatureBaseString := SignatureBaseString(httpMethod, endPoint, headerAndBodyParameters.entries);

    var signature := Encode(hmac(SigningKey(secretKey, tokenSecret), signatureBaseString));
    headerParameters.Set(SignatureParameter, signature);

    var authorizationHeader := BuildAuthorizationHeader(headerParameters.entries);
    r := Ok(Signature(signatureBaseString, authorizationHeader, signature));
  }

  /** The copy of the header parameters with the body parameters written in, encoded. */
  method MergeParameters(header: seq<Entry<Text>>, body: seq<Entry<Text>>)
    returns (headerAndBodyParameters: JsObject<Text>)
    requires DistinctKeys(header)
    ensures fresh(headerAndBodyParameters) && headerAndBodyParameters.Valid()
    ensures headerAndBodyParameters.entries == Merged(header, body)
  {
    headerAndBodyParameters := new JsObject<Text>.Copy(header);
    var bodyParameterKeys := Keys(body);
    ghost var updates := EncodedBody(body);
    var i := 0;
    while i < |bodyParameterKeys|
      invariant 0 <= i <= |bodyParameterKeys|
      invariant headerAndBodyParameters.Valid()
      invariant headerAndBodyParameters.entries == AssignAll(header, updates[..i])
      modifies headerAndBodyParameters
    {
      var key := bodyParameterKeys[i];
      var value := Encode(Get(body, key));
      assert Assign(headerAndBodyParameters.entries, key, value) == AssignAll(header, updates[..i + 1]) by {
        assert updates[i] == Entry(key, value);
        AssignAllStep(header, updates, i);
      }
      headerAndBodyParameters.Set(key, value);
      i := i + 1;
    }
    assert updates[..|bodyParameterKeys|] == updates;
  }

  /** The loop that accumulates the signature base string over the sorted keys. */
  method SignatureBaseString(httpMethod: Text, endPoint: Text, merged: seq<Entry<Text>>)
    returns (signatureBaseString: Text)
    ensures signatureBaseString == BaseString(httpMethod, endPoint, merged)
  {
    signatureBaseString := httpMethod + "&" + Encode(endPoint) + "&";
    ghost var head := signatureBaseString;
    var keys := Sort(Keys(merged));
    ghost var pieces := EncodeEach(Terminated(Pairs(merged, keys), "&"));
    var i := 0;
    while i < |keys|
      invariant 0 <= i <= |keys|
      invariant signatureBaseString == head + Concat(pieces[..i])
    {
      var piece := Pair(keys[i], Get(merged, keys[i]));
      var encoded := if i == |keys| - 1 then Encode(piece) else Encode(piece + "&");
      assert signatureBaseString + encoded == head + Concat(pieces[..i + 1]) by {
        ConcatStep(pieces, i);
        AppendAssoc(head, Concat(pieces[..i]), encoded);
      }
      signatureBaseString := signatureBaseString + encoded;
      i := i + 1;
    }
    assert pieces[..|keys|] == pieces;
    EncodeJoin(Pairs(merged, keys), "&");
  }

  /** The loop that accumulates the Authorization header over the keys in their order. */
  method BuildAuthorizationHeader(headerParameters: seq<Entry<Text>>) returns (authorizationHeader: Text)
    ensures authorizationHeader == AuthorizationHeader(headerParameters)
  {
    var headerParameterKeys := Keys(headerParameters);
    authorizationHeader := "OAuth ";
    ghost var items := HeaderItems(headerParameters, headerParameterKeys);
    ghost var pieces := Terminated(items, ",");
    var i := 0;
    while i < |headerParameterKeys|
      invariant 0 <= i <= |headerParameterKeys|
      invariant authorizationHeader == "OAuth " + Concat(pieces[..i])
    {
      var key := headerParameterKeys[i];
      var item := HeaderItem(key, Get(headerParameters, key));
      var piece := if i == |headerParameterKeys| - 1 then item else item + ",";
      assert authorizationHeader + piece == "OAuth " + Concat(pieces[..i + 1]) by {
        assert piece == pieces[i] by { assert item == items[i]; }
        ConcatStep(pieces, i);
        AppendAssoc("OAuth ", Concat(pieces[..i]), piece);
      }
      authorizationHeader := authorizationHeader + piece;
      i := i + 1;
    }
    assert pieces[..|headerParameterKeys|] == pieces;
    JoinIsConcat(items, ",");
  }

  // ---------------------------------------------------------------------
  // Nonce
  // ---------------------------------------------------------------------

  /** `Math.floor(Math.random() * 62)`: an index into the alphabet. */
  type Draw = i: int | 0 <= i < 62

  /** `'ABCDEFGHIJKLMNOPQRSTUVWXYZabcdefghijklmnopqrstuvwxyz0123456789'`. */
  const NonceAlphabet: Text :=
    seq(26, i requires 0 <= i < 26 => ('A' as int + i) as char)
    + seq(26, i requires 0 <= i < 26 => ('a' as int + i) as char)
    + seq(10, i requires 0 <= i < 10 => ('0' as int + i) as char)

  predicate Alphanumeric(c: char)
  {
    'A' <= c <= 'Z' || 'a' <= c <= 'z' || '0' <= c <= '9'
  }

  /**
   * `OauthUtility.createNonce`: `length` characters, the `i`-th one picked by
   * the `i`-th draw of the random source; none for a length below one.
   */
  method CreateNonce(length: int, random: nat -> Draw) returns (text: Text)
    ensures |text| == if length < 0 then 0 else length
    ensures forall i :: 0 <= i < |text| ==> text[i] == NonceAlphabet[random(i)]
    ensures forall i :: 0 <= i < |text| ==> Alphanumeric(text[i])
  {
    text := "";
    var possible := NonceAlphabet;
    var i := 0;
    while i < length
      invariant 0 <= i == |text|
      invariant i <= if length < 0 then 0 else length
      invariant forall j :: 0 <= j < i ==> text[j] == NonceAlphabet[random(j)]
      invariant forall j :: 0 <= j < i ==> Alphanumeric(text[j])
    {
      var c := possible[random(i)];
      AlphabetAlphanumeric(random(i));
      text := text + [c];
      i := i + 1;
    }
  }

  lemma AlphabetAlphanumeric(j: Draw)
    ensures Alphanumeric(NonceAlphabet[j])
  {
  }

  // ---------------------------------------------------------------------
  // Parameter strings
  // ---------------------------------------------------------------------

  /** The `k=v&k=v` string over the sorted keys of `m`. */
  function UrlParameters(m: seq<Entry<Text>>): (r: Text)
    ensures r == [] <==> m == []
  {
    Join(Pairs(m, Sort(Keys(m))), "&")
  }

  /** `OauthUtility.generateUrlParameters`. */
  method GenerateUrlParameters(parameters: JsObject<Text>) returns (params: Text)
    ensures params == UrlParameters(parameters.entries)
  {
    var m := parameters.entries;
    var sortedKeys := Sort(Keys(m));
    ghost var pairs := Pairs(m, sortedKeys);
    params := "";
    var amp := "";
    var i := 0;
    while i < |sortedKeys|
      invariant 0 <= i <= |sortedKeys|
      invariant params == Join(pairs[..i], "&")
      invariant amp == if i == 0 then "" else "&"
    {
      var piece := Pair(sortedKeys[i], Get(m, sortedKeys[i]));
      JoinPrefixStep(pairs, i, "&", amp, piece);
      params := params + (amp + piece);
      amp := "&";
      i := i + 1;
    }
    assert pairs[..|sortedKeys|] == pairs;
  }

  lemma JoinPrefixStep(parts: seq<Text>, i: nat, sep: Text, lead: Text, piece: Text)
    requires i < |parts| && piece == parts[i] && lead == if i == 0 then [] else sep
    ensures Join(parts[..i + 1], sep) == Join(parts[..i], sep) + (lead + piece)
  {
    assert parts[..i + 1] == parts[..i] + [parts[i]];
    if i == 0 {
      assert parts[..1] == [piece];
    } else {
      JoinSnoc(parts[..i], parts[i], sep);
    }
  }

  /** `piece.split('=')[0]`: the text before the first `=`. */
  function PieceKey(piece: Text): (key: Text)
    ensures '=' !in key
    ensures '=' !in piece ==> key == piece
  {
    SplitSeparated(piece, '=');
    Split(piece, '=')[0]
  }

  /** `piece.split('=')[1]`: the text between the first and the second `=`, if any. */
  function PieceValue(piece: Text): (value: Option<Text>)
    ensures value.None? <==> '=' !in piece
    ensures value.Some? ==> '=' !in value.value
  {
    SplitSeparated(piece, '=');
    var fields := Split(piece, '=');
    if |fields| > 1 then Some(fields[1]) else None
  }

  /** The `(key, value)` each `&`-piece stores. */
  function ParsedPieces(pieces: seq<Text>): (updates: seq<Entry<Option<Text>>>)
    ensures |updates| == |pieces|
  {
    seq(|pieces|, i requires 0 <= i < |pieces| => Entry(PieceKey(pieces[i]), PieceValue(pieces[i])))
  }

  /** The object `parseResponseParameters` builds from a string. */
  function ParseParameters(s: Text): (r: seq<Entry<Option<Text>>>)
    ensures r != []
  {
    var updates := ParsedPieces(Split(s, '&'));
    AssignAllKeys([], updates, updates[0].key);
    AssignAll([], updates)
  }

  /** `m.k`, unless it is `undefined` (absent, or a piece without `=`). */
  function Defined(m: seq<Entry<Option<Text>>>, k: Text): (r: Option<Text>)
    ensures r.Some? <==> Lookup(m, k).Some? && Lookup(m, k).value.Some?
    ensures r.Some? ==> Lookup(m, k) == Some(r)
  {
    var found := Lookup(m, k);
    if found.Some? then found.value else None
  }

  /**
   * The split-on-`&`-then-`=` loop, which the code repeats for the
   * redirect fragment, the redirect query and both token responses.
   */
  method ParseParameterString(s: Text) returns (parameterMap: JsObject<Option<Text>>)
    ensures fresh(parameterMap) && parameterMap.Valid()
    ensures parameterMap.entries == ParseParameters(s)
  {
    var parameters := Split(s, '&');
    ghost var updates := ParsedPieces(parameters);
    parameterMap := new JsObject<Option<Text>>.Empty();
    var i := 0;
    while i < |parameters|
      invariant 0 <= i <= |parameters|
      invariant parameterMap.Valid() && parameterMap.entries == AssignAll([], updates[..i])
    {
      var fields := Split(parameters[i], '=');
      var value := if |fields| > 1 then Some(fields[1]) else None;
      assert Assign(parameterMap.entries, fields[0], value) == AssignAll([], updates[..i + 1]) by {
        assert updates[i] == Entry(fields[0], value);
        AssignAllStep([], updates, i);
      }
      parameterMap.Set(fields[0], value);
      i := i + 1;
    }
    assert updates[..|parameters|] == updates;
  }

  /**
   * A response value: a string; `null` or `undefined`, on which reading
   * `split` throws; or any other value, which has no `split` method.
   */
  datatype JsValue = JsString(text: Text) | Nullish | NotAString

  /**
   * `OauthUtility.parseResponseParameters`: a string is parsed, any other
   * value gives `{}`, and `null` or `undefined` throws a `TypeError`
   * (`None`) before anything is built.
   */
  method ParseResponseParameters(response: JsValue) returns (parameterMap: Option<JsObject<Option<Text>>>)
    ensures parameterMap.None? <==> response.Nullish?
    ensures parameterMap.Some? ==> fresh(parameterMap.value) && parameterMap.value.Valid()
    ensures parameterMap.Some? ==>
      parameterMap.value.entries == if response.JsString? then ParseParameters(response.text) else []
  {
    if response.Nullish? {
      parameterMap := None;
    } else if response.JsString? {
      var parsed := ParseParameterString(response.text);
      parameterMap := Some(parsed);
    } else {
      var empty := new JsObject<Option<Text>>.Empty();
      parameterMap := Some(empty);
    }
  }
}
