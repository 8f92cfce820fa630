/** The request-signing layout of `sign`. HMAC-SHA256 (RFC 2104 over FIPS 180-4 SHA-256)
    and `application/x-www-form-urlencoded` encoding are library code: they appear here as
    the parameters `hmac(message, secret)` and `urlencode(items)`, and only the order,
    presence and separators of what is fed to them are modelled. */
module Signing {
  import opened Base
  import opened Text
  import opened Dicts

  const Host := "https://graviex.net"
  const Version := "v3"

  /** `urls['api'][api]`: both endpoint groups share one base URL; any other group name
      is a KeyError. */
  function ApiBase(api: string): Result<string>
  {
    if api == "public" || api == "private" then Ok(Host + "/api") else Err(KeyError(api))
  }

  /** The `tonce` parameter: the clock in seconds, ten seconds ahead, with "000" appended. */
  function Tonce(nonce: nat): string
  {
    NatToDecimal(nonce + 10) + "000"
  }

  /** The tonce is a digit string ending in "000" whose value is the skewed clock in
      milliseconds. */
  lemma TonceMeaning(nonce: nat)
    ensures AllDigits(Tonce(nonce))
    ensures |Tonce(nonce)| >= 4 && Tonce(nonce)[|Tonce(nonce)| - 3..] == "000"
    ensures DecimalValue(Tonce(nonce)) == (nonce + 10) * 1000
  {
    DecimalRoundTrip(nonce + 10);
    AppendThousand(NatToDecimal(nonce + 10));
  }

  /** The caller's parameters after `sign` has written into them: the api key when one is
      set (on every endpoint group, public included), then the tonce. */
  function WithCredentials(params: Dict, apiKey: Option<string>, nonce: nat): Dict
  {
    PutBoth(params, "access_key", if apiKey.Some? then Some(Str(apiKey.value)) else None, "tonce", Str(Tonce(nonce)))
  }

  lemma CredentialsContents(params: Dict, apiKey: Option<string>, nonce: nat)
    requires DistinctKeys(params)
    ensures DistinctKeys(WithCredentials(params, apiKey, nonce))
    ensures Get(WithCredentials(params, apiKey, nonce), "tonce") == Some(Str(Tonce(nonce)))
    ensures Get(WithCredentials(params, apiKey, nonce), "access_key")
         == (if apiKey.Some? then Some(Str(apiKey.value)) else Get(params, "access_key"))
    ensures forall k :: k != "tonce" && k != "access_key" ==> Get(WithCredentials(params, apiKey, nonce), k) == Get(params, k)
  {
    PutBothContents(params, "access_key", if apiKey.Some? then Some(Str(apiKey.value)) else None, "tonce", Str(Tonce(nonce)));
  }

  /** `METHOD|path|params`: the URL without the exchange's origin, and the sorted
      parameters encoded. */
  function StringToSign(httpMethod: string, url: string, sorted: Dict, urlencode: Dict -> string): string
  {
    httpMethod + "|" + ReplaceAll(url, Host, "") + "|" + urlencode(sorted)
  }

  /** The dictionary that is finally encoded: the parameters sorted by key and, except on
      the public group, the signature of the sorted parameters assigned into it. Encoding a
      missing secret fails. */
  function Payload(api: string, httpMethod: string, url: string, params: Dict, secret: Option<string>,
                   hmac: (string, string) -> string, urlencode: Dict -> string): Result<Dict>
  {
    var sorted := KeySort(params);
    if api == "public" then Ok(sorted)
    else if secret.None? then Err(AttributeError("'NoneType' object has no attribute 'encode'"))
    else Ok(Put(sorted, "signature", Signature(httpMethod, url, sorted, secret.value, hmac, urlencode)))
  }

  /** The HMAC of the string to sign under the secret. */
  function Signature(httpMethod: string, url: string, sorted: Dict, secret: string,
                     hmac: (string, string) -> string, urlencode: Dict -> string): Value
  {
    Str(hmac(StringToSign(httpMethod, url, sorted, urlencode), secret))
  }

  /** The URL of an endpoint: both groups share the base `https://graviex.net/api`. */
  function RequestUrl(path: string): string
  {
    Host + "/api/" + Version + "/" + path
  }

  /** The encoded parameters of a call whose payload could be built. */
  function EncodedParams(api: string, httpMethod: string, path: string, params: Dict, apiKey: Option<string>,
                         secret: Option<string>, nonce: nat, hmac: (string, string) -> string,
                         urlencode: Dict -> string): string
    requires Payload(api, httpMethod, RequestUrl(path), WithCredentials(params, apiKey, nonce), secret, hmac, urlencode).Ok?
  {
    urlencode(Payload(api, httpMethod, RequestUrl(path), WithCredentials(params, apiKey, nonce), secret, hmac, urlencode).value)
  }

  datatype SignedRequest = SignedRequest(url: string, httpMethod: string, body: Option<string>, headers: Option<Dict>)

  /** `sign`, as a function of the caller's parameters and the clock reading `nonce`. */
  function Sign(path: string, api: string, httpMethod: string, params: Dict, apiKey: Option<string>,
                secret: Option<string>, nonce: nat, headers: Option<Dict>, body: Option<string>,
                hmac: (string, string) -> string, urlencode: Dict -> string): Result<SignedRequest>
  {
    match ApiBase(api)
    case Err(e) => Err(e)
    case Ok(base) =>
      var url := base + "/" + Version + "/" + path;
      match Payload(api, httpMethod, url, WithCredentials(params, apiKey, nonce), secret, hmac, urlencode)
      case Err(e) => Err(e)
      case Ok(payload) =>
        var encoded := urlencode(payload);
        if httpMethod == "POST" then Ok(SignedRequest(url, httpMethod, Some(encoded), headers))
        else Ok(SignedRequest(url + "?" + encoded, httpMethod, body, headers))
  }

  /** Signing fails only on an unknown endpoint group, or on a non-public call without a
      secret. */
  lemma SignOutcome(path: string, api: string, httpMethod: string, params: Dict, apiKey: Option<string>,
                    secret: Option<string>, nonce: nat, headers: Option<Dict>, body: Option<string>,
                    hmac: (string, string) -> string, urlencode: Dict -> string)
    ensures Sign(path, api, httpMethod, params, apiKey, secret, nonce, headers, body, hmac, urlencode).Ok?
        <==> (api == "public" || (api == "private" && secret.Some?))
  {
  }

  /** The parameters as encoded on the public group: in strict key order, with the
      caller's values, and with no signature of the exchange's making. */
  lemma PublicPayload(httpMethod: string, url: string, params: Dict, secret: Option<string>,
                      hmac: (string, string) -> string, urlencode: Dict -> string)
    requires DistinctKeys(params)
    ensures Payload("public", httpMethod, url, params, secret, hmac, urlencode) == Ok(KeySort(params))
    ensures StrictlySorted(KeySort(params))
    ensures forall k :: Get(KeySort(params), k) == Get(params, k)
  {
    KeySortCorrect(params);
  }

  /** The parameters as encoded on any other group with a secret: the sorted parameters
      with the HMAC of the string to sign under `signature`, every other key keeping the
      caller's value, and the signature placed after all the sorted keys (or, if the caller
      already sent a `signature` key, at that key's sorted place). */
  lemma SignedPayload(api: string, httpMethod: string, url: string, params: Dict, secret: Option<string>,
                      hmac: (string, string) -> string, urlencode: Dict -> string)
    requires DistinctKeys(params)
    requires api != "public" && secret.Some?
    ensures Payload(api, httpMethod, url, params, secret, hmac, urlencode)
         == Ok(Put(KeySort(params), "signature", Signature(httpMethod, url, KeySort(params), secret.value, hmac, urlencode)))
    ensures Get(Payload(api, httpMethod, url, params, secret, hmac, urlencode).value, "signature")
         == Some(Signature(httpMethod, url, KeySort(params), secret.value, hmac, urlencode))
    ensures forall k :: k != "signature" ==> Get(Payload(api, httpMethod, url, params, secret, hmac, urlencode).value, k) == Get(params, k)
    ensures !HasKey(params, "signature") ==>
      Payload(api, httpMethod, url, params, secret, hmac, urlencode).value
      == KeySort(params) + [("signature", Signature(httpMethod, url, KeySort(params), secret.value, hmac, urlencode))]
  {
    SignatureAfterSort(params, Signature(httpMethod, url, KeySort(params), secret.value, hmac, urlencode));
  }

  lemma SignatureAfterSort(params: Dict, signature: Value)
    requires DistinctKeys(params)
    ensures Get(Put(KeySort(params), "signature", signature), "signature") == Some(signature)
    ensures forall k :: k != "signature" ==> Get(Put(KeySort(params), "signature", signature), k) == Get(params, k)
    ensures !HasKey(params, "signature") ==> Put(KeySort(params), "signature", signature) == KeySort(params) + [("signature", signature)]
  {
    KeySortCorrect(params);
    PutOver(KeySort(params), params, "signature", signature);
  }

  /** Where the encoded parameters go: a POST carries them as its body and leaves the URL
      alone; any other method appends them after `?` and keeps the given body. */
  lemma SignPlacement(path: string, api: string, httpMethod: string, params: Dict, apiKey: Option<string>,
                      secret: Option<string>, nonce: nat, headers: Option<Dict>, body: Option<string>,
                      hmac: (string, string) -> string, urlencode: Dict -> string)
    requires Sign(path, api, httpMethod, params, apiKey, secret, nonce, headers, body, hmac, urlencode).Ok?
    ensures var r := Sign(path, api, httpMethod, params, apiKey, secret, nonce, headers, body, hmac, urlencode).value;
      r.httpMethod == httpMethod && r.headers == headers
    ensures var r := Sign(path, api, httpMethod, params, apiKey, secret, nonce, headers, body, hmac, urlencode).value;
      httpMethod == "POST" ==>
        r.url == RequestUrl(path) && r.body == Some(EncodedParams(api, httpMethod, path, params, apiKey, secret, nonce, hmac, urlencode))
    ensures var r := Sign(path, api, httpMethod, params, apiKey, secret, nonce, headers, body, hmac, urlencode).value;
      httpMethod != "POST" ==>
        r.url == RequestUrl(path) + "?" + EncodedParams(api, httpMethod, path, params, apiKey, secret, nonce, hmac, urlencode) && r.body == body
  {
    var url := RequestUrl(path);
    assert Host + "/api" + "/" + Version + "/" + path == url;
    assert ApiBase(api) == Ok(Host + "/api");
    var payload := Payload(api, httpMethod, url, WithCredentials(params, apiKey, nonce), secret, hmac, urlencode);
    assert payload.Ok?;
  }

  /** The path that is signed is the request URL with the origin removed: `/api/v3/` and
      the path (in which any further copy of the origin is removed as well). */
  lemma SignedPath(path: string)
    ensures ReplaceAll(RequestUrl(path), Host, "") == "/api/v3/" + ReplaceAll(path, Host, "")
  {
    var rest := "/api/v3/" + path;
    assert RequestUrl(path) == Host + rest;
    ReplaceLeading(Host, rest, "");
    ReplaceSkipsPrefix("/api/v3/", path, Host, "");
  }

  /** On the public group, an api key that is set is still sent, and the tonce always is. */
  lemma PublicCallCarriesCredentials(url: string, httpMethod: string, params: Dict, apiKey: Option<string>,
                                     secret: Option<string>, nonce: nat, hmac: (string, string) -> string,
                                     urlencode: Dict -> string)
    requires DistinctKeys(params) && !HasKey(params, "signature")
    ensures Payload("public", httpMethod, url, WithCredentials(params, apiKey, nonce), secret, hmac, urlencode).Ok?
    ensures Get(Payload("public", httpMethod, url, WithCredentials(params, apiKey, nonce), secret, hmac, urlencode).value, "tonce")
         == Some(Str(Tonce(nonce)))
    ensures apiKey.Some? ==>
      Get(Payload("public", httpMethod, url, WithCredentials(params, apiKey, nonce), secret, hmac, urlencode).value, "access_key")
      == Some(Str(apiKey.value))
    ensures !HasKey(Payload("public", httpMethod, url, WithCredentials(params, apiKey, nonce), secret, hmac, urlencode).value, "signature")
  {
    SortedPutBoth(params, "access_key", if apiKey.Some? then Some(Str(apiKey.value)) else None, "tonce", Str(Tonce(nonce)), "signature");
  }
}
