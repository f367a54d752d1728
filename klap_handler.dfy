/**
 * The KLAP protocol handler: the two-step seed/hash handshake that installs a session
 * cipher, and encrypted requests whose responses are decrypted under the request's own
 * sequence number and checked for a device error code.
 */
module Klap {
  import opened Wrappers
  import opened Binary
  import opened Text
  import opened Platform
  import opened KlapCrypto
  import opened Cookies

  type HttpRequest = Request<seq<byte>>
  type HttpResponse = Response<seq<byte>>

  /** The device, as seen by the client: the response it gives to each POST. */
  type Transport = HttpRequest -> HttpResponse

  const NotLoggedIn: Error := InvalidOperation("Must call LoginAsync first")
  const ServerHashMismatch: Error := InvalidOperation("Server hash verification failed")
  const ResponseTooShort: Error := InvalidOperation("Response too short")
  const NoResponse: Error := InvalidOperation("No response received")

  /** auth_hash = SHA-256(SHA-1(username) ‖ SHA-1(password)), both over UTF-8. */
  function AuthHash(p: Primitives, username: string, password: string): (h: seq<byte>)
    requires Valid(p)
    ensures |h| == 32
  {
    p.sha256(p.sha1(p.utf8(username)) + p.sha1(p.utf8(password)))
  }

  /** The hash the device must prove in handshake1: SHA-256(localSeed ‖ remoteSeed ‖ authHash). */
  function ExpectedServerHash(p: Primitives, localSeed: seq<byte>, remoteSeed: seq<byte>, authHash: seq<byte>): seq<byte>
  {
    p.sha256(localSeed + remoteSeed + authHash)
  }

  /** The hash the client proves in handshake2, with the seeds in the other order. */
  function ClientHash(p: Primitives, localSeed: seq<byte>, remoteSeed: seq<byte>, authHash: seq<byte>): seq<byte>
  {
    p.sha256(remoteSeed + localSeed + authHash)
  }

  function Handshake1LengthMessage(length: nat): string
  {
    "Handshake1 response length invalid: " + IntToString(length) + ", expected 48"
  }

  /**
   * The framing of the handshake1 response: exactly 48 bytes, split into the 16-byte
   * remote seed and the 32-byte server hash; any other length is an error.
   */
  function SplitHandshake1(body: seq<byte>): (r: Result<(seq<byte>, seq<byte>), Error>)
    ensures r.Failure? <==> |body| != 48
    ensures r.Failure? ==> r.error == InvalidOperation(Handshake1LengthMessage(|body|))
    ensures r.Success? ==> |r.value.0| == 16 && |r.value.1| == 32 && r.value.0 + r.value.1 == body
  {
    if |body| != 48 then Failure(InvalidOperation(Handshake1LengthMessage(|body|)))
    else Success((body[..16], body[16..48]))
  }

  /**
   * One login attempt, as a function of the device's answers: what is posted, what
   * happens to the session cookie, and either the error raised or the remote seed of a
   * verified handshake.
   */
  datatype LoginTrace = LoginTrace(outcome: Result<seq<byte>, Error>, sent: seq<HttpRequest>, cookie: Option<string>)

  function LoginSpec(p: Primitives, url: string, username: string, password: string,
                     localSeed: seq<byte>, cookie: Option<string>, http: Transport): (t: LoginTrace)
    requires Valid(p)
    ensures 1 <= |t.sent| <= 2 && t.sent[0] == Request(url + "/handshake1", None, localSeed)
    ensures |t.sent| == 2 ==> t.sent[1].url == url + "/handshake2" && t.sent[1].cookie == t.cookie
    ensures t.outcome.Success? ==> |t.sent| == 2 && |t.outcome.value| == 16
    ensures t.cookie == cookie || t.cookie == SessionCookie(http(t.sent[0]).setCookies)
  {
    var authHash := AuthHash(p, username, password);
    var hs1 := Request(url + "/handshake1", None, localSeed);
    var r1 := http(hs1);
    if !IsSuccessStatus(r1.status) then LoginTrace(Failure(HttpStatus(r1.status)), [hs1], cookie)
    else
      var cookie1 := UpdatedCookie(cookie, r1.setCookies);
      match SplitHandshake1(r1.body)
      case Failure(e) => LoginTrace(Failure(e), [hs1], cookie1)
      case Success(split) =>
        var (remoteSeed, serverHash) := split;
        if serverHash != ExpectedServerHash(p, localSeed, remoteSeed, authHash) then
          LoginTrace(Failure(ServerHashMismatch), [hs1], cookie1)
        else
          var hs2 := Request(url + "/handshake2", cookie1, ClientHash(p, localSeed, remoteSeed, authHash));
          var r2 := http(hs2);
          if !IsSuccessStatus(r2.status) then LoginTrace(Failure(HttpStatus(r2.status)), [hs1, hs2], cookie1)
          else LoginTrace(Success(remoteSeed), [hs1, hs2], cookie1)
  }

  /** A handshake1 response that is not 48 bytes fails the login before any hash is compared or handshake2 is sent. */
  lemma LoginRejectsBadFraming(p: Primitives, url: string, username: string, password: string,
                               localSeed: seq<byte>, cookie: Option<string>, http: Transport)
    requires Valid(p)
    requires var r1 := http(Request(url + "/handshake1", None, localSeed));
             IsSuccessStatus(r1.status) && |r1.body| != 48
    ensures var t := LoginSpec(p, url, username, password, localSeed, cookie, http);
            var r1 := http(Request(url + "/handshake1", None, localSeed));
            t.outcome == Failure(InvalidOperation(Handshake1LengthMessage(|r1.body|))) && |t.sent| == 1
  {
  }

  /** A server hash that does not match fails the login; handshake2 is never sent. */
  lemma LoginRejectsWrongServerHash(p: Primitives, url: string, username: string, password: string,
                                    localSeed: seq<byte>, cookie: Option<string>, http: Transport)
    requires Valid(p)
    requires var r1 := http(Request(url + "/handshake1", None, localSeed));
             IsSuccessStatus(r1.status) && |r1.body| == 48
             && r1.body[16..] != ExpectedServerHash(p, localSeed, r1.body[..16], AuthHash(p, username, password))
    ensures var t := LoginSpec(p, url, username, password, localSeed, cookie, http);
            t.outcome == Failure(ServerHashMismatch) && |t.sent| == 1
  {
    var r1 := http(Request(url + "/handshake1", None, localSeed));
    assert r1.body[16..48] == r1.body[16..];
  }

  /**
   * A login succeeds exactly when both handshakes return a success status, the handshake1
   * body is 48 bytes, and its last 32 bytes are the expected server hash; then handshake2
   * carried the client hash and the captured (or previous) session cookie.
   */
  lemma LoginSucceedsIff(p: Primitives, url: string, username: string, password: string,
                         localSeed: seq<byte>, cookie: Option<string>, http: Transport)
    requires Valid(p)
    ensures var t := LoginSpec(p, url, username, password, localSeed, cookie, http);
            var authHash := AuthHash(p, username, password);
            var r1 := http(Request(url + "/handshake1", None, localSeed));
            t.outcome.Success? <==>
              && IsSuccessStatus(r1.status) && |r1.body| == 48
              && r1.body[16..] == ExpectedServerHash(p, localSeed, r1.body[..16], authHash)
              && IsSuccessStatus(http(t.sent[1]).status)
    ensures var t := LoginSpec(p, url, username, password, localSeed, cookie, http);
            var authHash := AuthHash(p, username, password);
            var r1 := http(Request(url + "/handshake1", None, localSeed));
            t.outcome.Success? ==>
              && t.outcome.value == r1.body[..16]
              && t.sent == [Request(url + "/handshake1", None, localSeed),
                            Request(url + "/handshake2", UpdatedCookie(cookie, r1.setCookies),
                                    ClientHash(p, localSeed, r1.body[..16], authHash))]
  {
    var r1 := http(Request(url + "/handshake1", None, localSeed));
    if |r1.body| == 48 {
      assert r1.body[16..48] == r1.body[16..];
    }
  }

  /** The error-code table of KLAP devices. */
  function KlapErrorMessage(code: int): (msg: string)
    ensures |msg| > 0
    ensures StartsWith(msg, "Unknown error code: ") <==> code !in {0, -1002, -1003, -1008, -1501, 9999}
  {
    match code
    case 0 => "Success"
    case -1002 => "Invalid Request"
    case -1003 => "Malformed Request"
    case -1008 => "Invalid Parameters"
    case -1501 => "Invalid Credentials"
    case 9999 => "Session Timeout"
    case _ => "Unknown error code: " + IntToString(code)
  }

  /** The URL of an encrypted request: the sequence number travels in the query. */
  function RequestUrl(url: string, sequence: int32): string
  {
    url + "/request?seq=" + IntToString(sequence)
  }

  /** Different sequence numbers give different request URLs. */
  lemma RequestUrlIdentifiesSequence(url: string, s1: int32, s2: int32)
    requires RequestUrl(url, s1) == RequestUrl(url, s2)
    ensures s1 == s2
  {
    var prefix := url + "/request?seq=";
    assert RequestUrl(url, s1)[|prefix|..] == IntToString(s1);
    assert RequestUrl(url, s2)[|prefix|..] == IntToString(s2);
    IntToStringInjective(s1, s2);
  }

  /** `{"method": m, "params": params}`. */
  function Command(name: string, params: Json): Json
  {
    JObject(map["method" := JString(name), "params" := params])
  }

  /**
   * How a response to the request with sequence number `sequence` is handled: the status is
   * checked, a 32-byte signature prefix is dropped (unverified), the rest is decrypted under
   * the same sequence number, and a nonzero error_code becomes a TapoException.
   */
  function ResponseOutcome(p: Primitives, key: seq<byte>, ivBase: seq<byte>, sequence: int32, response: HttpResponse): (r: Result<Option<Json>, Error>)
    ensures !IsSuccessStatus(response.status) ==> r == Failure(HttpStatus(response.status))
    ensures r.Success? ==>
              && IsSuccessStatus(response.status) && |response.body| >= 32
              && ResponsePlaintext(p, key, ivBase, sequence, response.body[32..]).Some?
              && var doc := p.parse(ResponsePlaintext(p, key, ivBase, sequence, response.body[32..]).value);
                 doc.Some? && ErrorCode(AsNode(doc.value)) == Success(0)
                 && (r.value.Some? ==> doc.value.JObject? && "result" in doc.value.members
                                       && doc.value.members["result"] == r.value.value)
    ensures r.Failure? && r.error.Tapo? ==> r.error.code != 0 && r.error.message == KlapErrorMessage(r.error.code)
  {
    if !IsSuccessStatus(response.status) then Failure(HttpStatus(response.status))
    else if |response.body| < 32 then Failure(ResponseTooShort)
    else
      match ResponsePlaintext(p, key, ivBase, sequence, response.body[32..])
      case None => Failure(Cryptographic)
      case Some(text) =>
        match p.parse(text)
        case None => Failure(MalformedJson)
        case Some(doc) =>
          var node := AsNode(doc);
          var code :- ErrorCode(node);
          if code != 0 then Failure(Tapo(code, KlapErrorMessage(code))) else Index(node, "result")
  }

  /** The 32-byte prefix of a response is never checked: only the ciphertext after it matters. */
  lemma ResponseSignatureIgnored(p: Primitives, key: seq<byte>, ivBase: seq<byte>, sequence: int32,
                                 status: int, sig1: seq<byte>, sig2: seq<byte>, ct: seq<byte>)
    requires |sig1| == 32 && |sig2| == 32
    ensures ResponseOutcome(p, key, ivBase, sequence, Response(status, [], sig1 + ct))
         == ResponseOutcome(p, key, ivBase, sequence, Response(status, [], sig2 + ct))
  {
    assert (sig1 + ct)[32..] == ct == (sig2 + ct)[32..];
  }

  /** A successful response whose decrypted document carries a nonzero error_code raises that code with its message. */
  lemma ResponseErrorCodeRaises(p: Primitives, key: seq<byte>, ivBase: seq<byte>, sequence: int32,
                                response: HttpResponse, code: int32, members: map<string, Json>)
    requires IsSuccessStatus(response.status) && |response.body| >= 32
    requires code != 0 && "error_code" in members && members["error_code"] == JNumber(code)
    requires var text := ResponsePlaintext(p, key, ivBase, sequence, response.body[32..]);
             text.Some? && p.parse(text.value) == Some(JObject(members))
    ensures ResponseOutcome(p, key, ivBase, sequence, response) == Failure(Tapo(code, KlapErrorMessage(code)))
  {
  }

  /**
   * A device that answers with a frame built like the client's own, under the same
   * sequence number, is understood: the client reads back the result it encrypted.
   */
  lemma ResponseOfEchoedFrame(p: Primitives, key: seq<byte>, ivBase: seq<byte>, sig: seq<byte>,
                              sequence: int32, text: string, result: Json)
    requires Valid(p) && |key| == 16 && |ivBase| == 12
    requires p.parse(text) == Some(JObject(map["error_code" := JNumber(0), "result" := result]))
    requires result != JNull
    ensures ResponseOutcome(p, key, ivBase, sequence, Response(200, [], RequestFrame(p, key, ivBase, sig, sequence, text)))
         == Success(Some(result))
  {
    FrameRoundTrip(p, key, ivBase, sig, sequence, text);
    FrameLayout(p, key, ivBase, sig, sequence, text);
  }

  /** `KlapProtocolHandler`: session cookie, base URL and the cipher, all set by login. */
  class KlapProtocolHandler {
    const prims: Primitives
    var sessionCookie: Option<string>
    var url: Option<string>
    var cipher: KlapCipher?
    ghost var Repr: set<object>

    ghost predicate Valid()
      reads this, Repr
    {
      && this in Repr
      && Platform.Valid(prims)
      && (cipher != null ==> cipher in Repr && cipher.Valid() && cipher.prims == prims)
    }

    /** The session cipher holds the key, IV base, signature key and sequence number derived from `localHash`. */
    ghost predicate KeysDerivedFrom(localHash: seq<byte>)
      reads this, cipher
    {
      && Platform.Valid(prims)
      && cipher != null
      && cipher.key == DeriveKey(prims, localHash)
      && cipher.ivBase == DeriveIV(prims, localHash).0
      && cipher.sig == DeriveSignature(prims, localHash)
      && cipher.sequence == DeriveIV(prims, localHash).1
    }

    constructor (p: Primitives)
      requires Platform.Valid(p)
      ensures Valid() && fresh(Repr) && prims == p
      ensures sessionCookie == None && url == None && cipher == null
    {
      prims := p;
      sessionCookie := None;
      url := None;
      cipher := null;
      Repr := {this};
    }

    /**
     * `LoginAsync` with the random local seed as a parameter: records the URL, runs both
     * handshakes as LoginSpec describes, and on success installs a fresh cipher built from
     * localSeed ‖ remoteSeed ‖ authHash whose counter starts at the derived initial
     * sequence; on failure the previous cipher stays.
     */
    method Login(u: string, username: string, password: string, localSeed: seq<byte>, http: Transport)
        returns (outcome: Result<(), Error>, sent: seq<HttpRequest>)
      requires Valid()
      modifies this
      ensures Valid() && fresh(Repr - old(Repr))
      ensures url == Some(u)
      ensures var t := LoginSpec(prims, u, username, password, localSeed, old(sessionCookie), http);
              && sent == t.sent && sessionCookie == t.cookie
              && outcome.Success? == t.outcome.Success?
              && (outcome.Failure? ==> outcome.error == t.outcome.error && cipher == old(cipher))
              && (outcome.Success? ==>
                    cipher != null && fresh(cipher)
                    && KeysDerivedFrom(localSeed + t.outcome.value + AuthHash(prims, username, password)))
    {
      ghost var t := LoginSpec(prims, u, username, password, localSeed, sessionCookie, http);
      url := Some(u);
      var usernameHash := prims.sha1(prims.utf8(username));
      var passwordHash := prims.sha1(prims.utf8(password));
      var authInput := CombineArrays([usernameHash, passwordHash]);
      ConcatTwo(usernameHash, passwordHash);
      var authHash := prims.sha256(authInput);

      var h1, hs1 := Handshake1(u, localSeed, http);
      sent := [hs1];
      if h1.Failure? {
        outcome := Failure(h1.error);
        return;
      }
      var (remoteSeed, serverHash) := h1.value;

      var serverInput := CombineArrays([localSeed, remoteSeed, authHash]);
      ConcatThree(localSeed, remoteSeed, authHash);
      var expectedServerHash := prims.sha256(serverInput);
      if serverHash != expectedServerHash {
        outcome := Failure(ServerHashMismatch);
        return;
      }

      var clientInput := CombineArrays([remoteSeed, localSeed, authHash]);
      ConcatThree(remoteSeed, localSeed, authHash);
      var clientHash := prims.sha256(clientInput);
      var h2, hs2 := Handshake2(u, clientHash, http);
      sent := sent + [hs2];
      if h2.Failure? {
        outcome := Failure(h2.error);
        return;
      }

      var localHash := CombineArrays([localSeed, remoteSeed, authHash]);
      ConcatThree(localSeed, remoteSeed, authHash);
      var (_, initialSequence) := DeriveIV(prims, localHash);
      cipher := new KlapCipher(prims, localSeed, remoteSeed, authHash, initialSequence);
      Repr := Repr + {cipher};
      outcome := Success(());
      assert t.outcome == Success(remoteSeed) && authHash == AuthHash(prims, username, password);
      assert KeysDerivedFrom(localHash);
    }

    /**
     * `Handshake1Async`: posts the local seed, checks the status, captures the session
     * cookie, then checks the 48-byte framing and splits the body.
     */
    method Handshake1(baseUrl: string, localSeed: seq<byte>, http: Transport)
        returns (result: Result<(seq<byte>, seq<byte>), Error>, sent: HttpRequest)
      modifies this`sessionCookie
      ensures sent == Request(baseUrl + "/handshake1", None, localSeed)
      ensures !IsSuccessStatus(http(sent).status) ==>
                result == Failure(HttpStatus(http(sent).status)) && sessionCookie == old(sessionCookie)
      ensures IsSuccessStatus(http(sent).status) ==>
                result == SplitHandshake1(http(sent).body)
                && sessionCookie == UpdatedCookie(old(sessionCookie), http(sent).setCookies)
    {
      sent := Request(baseUrl + "/handshake1", None, localSeed);
      var response := http(sent);
      if !IsSuccessStatus(response.status) {
        result := Failure(HttpStatus(response.status));
        return;
      }
      var captured := SessionCookie(response.setCookies);
      if captured.Some? {
        sessionCookie := captured;
      }
      var responseBytes := response.body;
      if |responseBytes| != 48 {
        result := Failure(InvalidOperation(Handshake1LengthMessage(|responseBytes|)));
        return;
      }
      var remoteSeed := responseBytes[..16];
      var serverHash := responseBytes[16..48];
      result := Success((remoteSeed, serverHash));
    }

    /** `Handshake2Async`: posts the client hash with the session cookie and checks the status. */
    method Handshake2(baseUrl: string, clientHash: seq<byte>, http: Transport)
        returns (result: Result<(), Error>, sent: HttpRequest)
      ensures sent == Request(baseUrl + "/handshake2", sessionCookie, clientHash)
      ensures result.Success? <==> IsSuccessStatus(http(sent).status)
      ensures result.Failure? ==> result.error == HttpStatus(http(sent).status)
    {
      sent := Request(baseUrl + "/handshake2", sessionCookie, clientHash);
      var response := http(sent);
      if !IsSuccessStatus(response.status) {
        result := Failure(HttpStatus(response.status));
      } else {
        result := Success(());
      }
    }

    /**
     * The effect of one encrypted exchange, given the counter before it: the counter moved
     * up by one, one frame was posted to the URL carrying the new sequence number, and the
     * response was handled under that same number.
     */
    ghost predicate Exchanged(before: int32, request: Json, http: Transport,
                              result: Result<Option<Json>, Error>, sent: seq<HttpRequest>)
      reads this, Repr
      requires Valid()
    {
      && cipher != null && url.Some?
      && cipher.sequence == Increment(before)
      && sent == [Request(RequestUrl(url.value, cipher.sequence), sessionCookie,
                          RequestFrame(prims, cipher.key, cipher.ivBase, cipher.sig, cipher.sequence, prims.serialize(request)))]
      && result == ResponseOutcome(prims, cipher.key, cipher.ivBase, cipher.sequence, http(sent[0]))
    }

    /** `ExecuteRequestAsync`: refuses before login; otherwise one exchange. */
    method ExecuteRequest(request: Json, http: Transport) returns (result: Result<Option<Json>, Error>, sent: seq<HttpRequest>)
      requires Valid()
      modifies Repr
      ensures Valid() && Repr == old(Repr)
      ensures sessionCookie == old(sessionCookie) && url == old(url) && cipher == old(cipher)
      ensures (cipher == null || url == None) ==>
                result == Failure(NotLoggedIn) && sent == [] && (cipher != null ==> cipher.sequence == old(cipher.sequence))
      ensures cipher != null && url.Some? ==> Exchanged(old(cipher.sequence), request, http, result, sent)
    {
      if cipher == null || url == None {
        result := Failure(NotLoggedIn);
        sent := [];
        return;
      }
      var requestJson := prims.serialize(request);
      var encryptedPayload, sequence := cipher.Encrypt(requestJson);
      var requestUrl := RequestUrl(url.value, sequence);
      sent := [Request(requestUrl, sessionCookie, encryptedPayload)];
      var response := http(sent[0]);
      if !IsSuccessStatus(response.status) {
        result := Failure(HttpStatus(response.status));
        return;
      }
      var responseBytes := response.body;
      if |responseBytes| < 32 {
        result := Failure(ResponseTooShort);
        return;
      }
      var encryptedData := responseBytes[32..];
      var decryptedJson := cipher.Decrypt(sequence, encryptedData);
      if decryptedJson.None? {
        result := Failure(Cryptographic);
        return;
      }
      var responseObj := prims.parse(decryptedJson.value);
      if responseObj.None? {
        result := Failure(MalformedJson);
        return;
      }
      var node := AsNode(responseObj.value);
      var errorCode := ErrorCode(node);
      if errorCode.Failure? {
        result := Failure(errorCode.error);
        return;
      }
      if errorCode.value != 0 {
        result := Failure(Tapo(errorCode.value, KlapErrorMessage(errorCode.value)));
        return;
      }
      result := Index(node, "result");
    }

    /** `SetDeviceInfoAsync`: a set_device_info command; its result is discarded. */
    method SetDeviceInfo(deviceInfo: Json, http: Transport) returns (outcome: Result<(), Error>, sent: seq<HttpRequest>)
      requires Valid()
      modifies Repr
      ensures Valid() && Repr == old(Repr)
      ensures sessionCookie == old(sessionCookie) && url == old(url) && cipher == old(cipher)
      ensures cipher == null || url == None ==>
                outcome == Failure(NotLoggedIn) && sent == [] && (cipher != null ==> cipher.sequence == old(cipher.sequence))
      ensures cipher != null && url.Some? ==>
                exists result :: Exchanged(old(cipher.sequence), Command("set_device_info", deviceInfo), http, result, sent)
                                 && outcome == DiscardResult(prims, result)
    {
      if cipher == null {
        outcome := Failure(NotLoggedIn);
        sent := [];
        return;
      }
      var result;
      result, sent := ExecuteRequest(Command("set_device_info", deviceInfo), http);
      outcome := DiscardResult(prims, result);
    }

    /** `GetDeviceInfoAsync`: a get_device_info command; a missing result is an error. */
    method GetDeviceInfo(http: Transport) returns (info: Result<Json, Error>, sent: seq<HttpRequest>)
      requires Valid()
      modifies Repr
      ensures Valid() && Repr == old(Repr)
      ensures sessionCookie == old(sessionCookie) && url == old(url) && cipher == old(cipher)
      ensures cipher == null || url == None ==>
                info == Failure(NotLoggedIn) && sent == [] && (cipher != null ==> cipher.sequence == old(cipher.sequence))
      ensures cipher != null && url.Some? ==>
                exists result :: Exchanged(old(cipher.sequence), Command("get_device_info", JObject(map[])), http, result, sent)
                                 && info == DeviceInfoOf(result)
    {
      if cipher == null {
        info := Failure(NotLoggedIn);
        sent := [];
        return;
      }
      var result;
      result, sent := ExecuteRequest(Command("get_device_info", JObject(map[])), http);
      info := DeviceInfoOf(result);
    }
  }

  /** `JsonNode.ToString()`: a string value is its text without quotes; any other node is its JSON text. */
  function NodeText(p: Primitives, node: Json): string
  {
    if node.JString? then node.s else p.serialize(node)
  }

  /**
   * `ExecuteRequestAsync<object>`: a non-null result is read back with
   * `JsonSerializer.Deserialize<object>(result.ToString())`, which throws on text that is
   * not JSON, and the value read is then dropped by the caller.
   */
  function DiscardResult(p: Primitives, result: Result<Option<Json>, Error>): (r: Result<(), Error>)
    requires Valid(p)
    ensures result.Failure? ==> r == Failure(result.error)
    ensures result == Success(None) ==> r == Success(())
    ensures result.Success? && result.value.Some? && !result.value.value.JString? ==> r == Success(())
    ensures r.Failure? && result.Success? ==>
              r.error == MalformedJson && result.value.Some? && result.value.value.JString?
              && p.parse(result.value.value.s) == None
  {
    match result
    case Failure(e) => Failure(e)
    case Success(None) => Success(())
    case Success(Some(node)) => if p.parse(NodeText(p, node)).None? then Failure(MalformedJson) else Success(())
  }

  /**
   * A set_device_info reply whose result is a string that is not itself JSON text is an
   * error, though the device reported error_code 0: `ToString()` drops the quotes.
   */
  lemma SetDeviceInfoRejectsBareString(p: Primitives, key: seq<byte>, ivBase: seq<byte>, sig: seq<byte>,
                                       sequence: int32, text: string, s: string)
    requires Valid(p) && |key| == 16 && |ivBase| == 12
    requires p.parse(text) == Some(JObject(map["error_code" := JNumber(0), "result" := JString(s)]))
    requires p.parse(s) == None
    ensures DiscardResult(p, ResponseOutcome(p, key, ivBase, sequence, Response(200, [], RequestFrame(p, key, ivBase, sig, sequence, text))))
         == Failure(MalformedJson)
  {
    ResponseOfEchoedFrame(p, key, ivBase, sig, sequence, text, JString(s));
  }

  /** `response ?? throw`: the device document, or the error that prevented it. */
  function DeviceInfoOf(result: Result<Option<Json>, Error>): (r: Result<Json, Error>)
    ensures r.Success? <==> result.Success? && result.value.Some?
    ensures r.Success? ==> r.value == result.value.value
    ensures result.Failure? ==> r == Failure(result.error)
    ensures result == Success(None) ==> r == Failure(NoResponse)
  {
    match result
    case Failure(e) => Failure(e)
    case Success(None) => Failure(NoResponse)
    case Success(Some(doc)) => Success(doc)
  }
}
