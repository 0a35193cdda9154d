/**
 * What the signing helpers of `OauthUtility` promise about the request they
 * sign: which parameters take part and with which values, the layout of the
 * signature base string and of the HMAC key, and what happens to the
 * caller's header parameters.
 */
module SignatureProperties {
  import opened Wrappers
  import opened Strings
  import opened KeyOrder
  import opened UriEncoding
  import opened JsObjects
  import opened OauthUtility

  // ---------------------------------------------------------------------
  // Merging header and body parameters
  // ---------------------------------------------------------------------

  lemma EncodedBodyKeys(b: seq<Entry<Text>>)
    ensures Keys(EncodedBody(b)) == Keys(b)
  {
  }

  /**
   * A body parameter wins over a header parameter of the same name, and its
   * value is read percent-encoded; every other header parameter is kept.
   */
  lemma MergeLookup(h: seq<Entry<Text>>, b: seq<Entry<Text>>, k: Text)
    requires DistinctKeys(b)
    ensures Lookup(Merged(h, b), k) == if k in Keys(b) then Some(Encode(Get(b, k))) else Lookup(h, k)
    ensures k in Keys(Merged(h, b)) <==> k in Keys(h) || k in Keys(b)
  {
    var updates := EncodedBody(b);
    EncodedBodyKeys(b);
    AssignAllKeys(h, updates, k);
    if k in Keys(b) {
      var i :| 0 <= i < |b| && Keys(b)[i] == k;
      AssignAllLast(h, updates, i);
    } else {
      AssignAllUntouched(h, updates, k);
    }
  }

  /**
   * The merged parameters list the header parameters first, in their own
   * order, then the body parameters the header did not have; no name twice.
   */
  lemma MergeKeys(h: seq<Entry<Text>>, b: seq<Entry<Text>>)
    requires DistinctKeys(h)
    ensures |h| <= |Merged(h, b)|
    ensures forall i :: 0 <= i < |h| ==> Merged(h, b)[i].key == h[i].key
    ensures DistinctKeys(Merged(h, b))
  {
    AssignAllPrefix(h, EncodedBody(b));
    AssignAllDistinct(h, EncodedBody(b));
  }

  /**
   * A body value reaches the base string encoded twice: once when it is
   * merged, once more with its pair.
   */
  lemma BodyValueEncodedTwice(h: seq<Entry<Text>>, b: seq<Entry<Text>>, k: Text)
    requires DistinctKeys(b) && k in Keys(b)
    ensures Get(Merged(h, b), k) == Encode(Get(b, k))
    ensures Pair(k, Get(Merged(h, b), k)) == k + "=" + Encode(Get(b, k))
  {
    MergeLookup(h, b, k);
  }

  /**
   * An `oauth_signature` the header parameters already carry, from an
   * earlier signing, takes part in the new base string.
   */
  lemma StaleSignatureIsSigned(h: seq<Entry<Text>>, b: seq<Entry<Text>>)
    requires DistinctKeys(b) && SignatureParameter in Keys(h)
    ensures SignatureParameter in Sort(Keys(Merged(h, b)))
  {
    MergeLookup(h, b, SignatureParameter);
    SortPermutes(Keys(Merged(h, b)));
    assert SignatureParameter in multiset(Keys(Merged(h, b)));
  }

  // ---------------------------------------------------------------------
  // The signature base string
  // ---------------------------------------------------------------------

  lemma SortedKeysMembers(m: seq<Entry<Text>>, k: Text)
    ensures k in Sort(Keys(m)) <==> k in Keys(m)
  {
    SortPermutes(Keys(m));
    assert k in Sort(Keys(m)) <==> k in multiset(Sort(Keys(m)));
  }

  /**
   * The base string depends only on which parameters there are and on their
   * values, not on the order they were added in: the keys are sorted.
   */
  lemma BaseStringCanonical(httpMethod: Text, endPoint: Text, m1: seq<Entry<Text>>, m2: seq<Entry<Text>>)
    requires DistinctKeys(m1) && DistinctKeys(m2)
    requires forall k :: Lookup(m1, k) == Lookup(m2, k)
    ensures BaseString(httpMethod, endPoint, m1) == BaseString(httpMethod, endPoint, m2)
  {
    var s1 := Sort(Keys(m1));
    var s2 := Sort(Keys(m2));
    SortAscending(Keys(m1));
    SortAscending(Keys(m2));
    forall x ensures x in s1 <==> x in s2 {
      SortedKeysMembers(m1, x);
      SortedKeysMembers(m2, x);
      assert Lookup(m1, x) == Lookup(m2, x);
    }
    AscendingUnique(s1, s2);
    assert Pairs(m1, s1) == Pairs(m2, s2);
  }

  lemma EncodeAmpersand()
    ensures Encode("&") == "%26"
  {
    assert Encode("&") == EncodeChar('&') + Encode([]);
  }

  /**
   * The base string is the method, `&`, the encoded end point, `&`, and the
   * encoded `k=v` pairs in ascending key order separated by `%26` (the
   * encoded `&`), with none after the last.
   */
  lemma BaseStringLayout(httpMethod: Text, endPoint: Text, m: seq<Entry<Text>>)
    ensures BaseString(httpMethod, endPoint, m)
         == httpMethod + "&" + Encode(endPoint) + "&" + Join(EncodeEach(Pairs(m, Sort(Keys(m)))), "%26")
  {
    EncodeJoin(Pairs(m, Sort(Keys(m))), "&");
    EncodeAmpersand();
  }

  lemma Join3(a: Text, b: Text, c: Text, sep: Text)
    ensures Join([a, b, c], sep) == a + sep + b + sep + c
  {
    assert [a, b, c][1..] == [b, c];
    assert [b, c][1..] == [c];
    assert Join([b, c], sep) == b + sep + c;
    AppendAssoc(a + sep, b + sep, c);
    AppendAssoc(a + sep, b, sep);
  }

  /**
   * Split on `&`, a base string whose method has no `&` falls into exactly
   * three fields: the method, the encoded end point and the encoded
   * parameter string that `generateUrlParameters` would write for the same
   * parameters. Decoding the last two gives them back.
   */
  lemma BaseStringFields(httpMethod: Text, endPoint: Text, m: seq<Entry<Text>>)
    requires '&' !in httpMethod
    ensures Split(BaseString(httpMethod, endPoint, m), '&')
         == [httpMethod, Encode(endPoint), Encode(UrlParameters(m))]
    ensures Decode(Encode(endPoint)) == Some(endPoint)
    ensures Decode(Encode(UrlParameters(m))) == Some(UrlParameters(m))
  {
    var fields := [httpMethod, Encode(endPoint), Encode(UrlParameters(m))];
    EncodeRemoves(endPoint, '&');
    EncodeRemoves(UrlParameters(m), '&');
    Join3(fields[0], fields[1], fields[2], "&");
    SplitJoin(fields, '&');
    DecodeEncode(endPoint);
    DecodeEncode(UrlParameters(m));
  }

  // ---------------------------------------------------------------------
  // The HMAC key
  // ---------------------------------------------------------------------

  /**
   * The HMAC key always holds exactly one `&`: before it the encoded
   * consumer secret, after it the encoded token secret, or nothing when the
   * token secret is absent or empty. Decoding the first half gives the
   * consumer secret back.
   */
  lemma SigningKeyParts(secretKey: Text, tokenSecret: Option<Text>)
    ensures Split(SigningKey(secretKey, tokenSecret), '&')
         == [Encode(secretKey), if tokenSecret.Some? && tokenSecret.value != [] then Encode(tokenSecret.value) else []]
    ensures Decode(Split(SigningKey(secretKey, tokenSecret), '&')[0]) == Some(secretKey)
  {
    var second: Text := if tokenSecret.Some? && tokenSecret.value != [] then Encode(tokenSecret.value) else [];
    EncodeRemoves(secretKey, '&');
    if tokenSecret.Some? && tokenSecret.value != [] {
      EncodeRemoves(tokenSecret.value, '&');
    }
    assert Join([Encode(secretKey), second], "&") == Encode(secretKey) + "&" + second by {
      assert [Encode(secretKey), second][1..] == [second];
    }
    SplitJoin([Encode(secretKey), second], '&');
    DecodeEncode(secretKey);
  }

  // ---------------------------------------------------------------------
  // The caller's header parameters and the Authorization header
  // ---------------------------------------------------------------------

  /**
   * Signing writes the encoded HMAC under `oauth_signature` and leaves every
   * other header parameter as it was; the key keeps its place if it was
   * there, and is added last otherwise.
   */
  lemma SignatureWrittenIntoHeader(httpMethod: Text, endPoint: Text, h: seq<Entry<Text>>, b: seq<Entry<Text>>,
                                   secretKey: Text, tokenSecret: Option<Text>, hmac: Hmac)
    ensures Lookup(SignedHeader(httpMethod, endPoint, h, b, secretKey, tokenSecret, hmac), SignatureParameter)
         == Some(SignatureValue(httpMethod, endPoint, h, b, secretKey, tokenSecret, hmac))
    ensures forall k :: k != SignatureParameter ==>
      Lookup(SignedHeader(httpMethod, endPoint, h, b, secretKey, tokenSecret, hmac), k) == Lookup(h, k)
    ensures Keys(SignedHeader(httpMethod, endPoint, h, b, secretKey, tokenSecret, hmac))
         == if SignatureParameter in Keys(h) then Keys(h) else Keys(h) + [SignatureParameter]
  {
    var v := SignatureValue(httpMethod, endPoint, h, b, secretKey, tokenSecret, hmac);
    forall k ensures Lookup(Assign(h, SignatureParameter, v), k) == if k == SignatureParameter then Some(v) else Lookup(h, k) {
      AssignLookup(h, SignatureParameter, v, k);
    }
    AssignKeys(h, SignatureParameter, v);
  }

  /**
   * When the header parameters had no `oauth_signature`, the Authorization
   * header is the one they would have given, followed by `,` and the
   * `oauth_signature="..."` item.
   */
  lemma SignatureLastInHeader(h: seq<Entry<Text>>, v: Text)
    requires |h| > 0 && SignatureParameter !in Keys(h)
    ensures AuthorizationHeader(Assign(h, SignatureParameter, v))
         == AuthorizationHeader(h) + "," + HeaderItem(SignatureParameter, v)
  {
    var items := HeaderItems(h, Keys(h));
    var item := HeaderItem(SignatureParameter, v);
    SignedItems(h, v);
    JoinSnoc(items, item, ",");
    AppendAssoc("OAuth ", Join(items, ",") + ",", item);
    AppendAssoc("OAuth ", Join(items, ","), ",");
  }

  lemma SignedItems(h: seq<Entry<Text>>, v: Text)
    requires SignatureParameter !in Keys(h)
    ensures HeaderItems(Assign(h, SignatureParameter, v), Keys(Assign(h, SignatureParameter, v)))
         == HeaderItems(h, Keys(h)) + [HeaderItem(SignatureParameter, v)]
  {
    var h' := Assign(h, SignatureParameter, v);
    var ks := Keys(h);
    var ks' := Keys(h');
    var items := HeaderItems(h, ks) + [HeaderItem(SignatureParameter, v)];
    AssignKeys(h, SignatureParameter, v);
    assert ks' == ks + [SignatureParameter];
    forall i | 0 <= i < |ks'| ensures HeaderItems(h', ks')[i] == items[i] {
      if i < |ks| {
        assert ks'[i] == ks[i] && ks[i] != SignatureParameter;
        AssignLookup(h, SignatureParameter, v, ks[i]);
      } else {
        AssignLookup(h, SignatureParameter, v, SignatureParameter);
      }
    }
  }

  /**
   * Text made of letters and digits, such as a nonce, is left as it is by
   * `encodeURIComponent`.
   */
  lemma AlphanumericUnencoded(s: Text)
    requires forall i :: 0 <= i < |s| ==> Alphanumeric(s[i])
    ensures Encode(s) == s
  {
    EncodeIdentity(s);
  }
}
