/**
 * The Passthrough protocol handler: an RSA handshake that yields a fixed AES key and IV,
 * a credential login that yields a token, and commands double-wrapped in a
 * securePassthrough envelope and posted to the token URL.
 */
module Passthrough {
  import opened Wrappers
  import opened Binary
  import opened Text
  import opened Platform
  import opened Cookies

  type HttpRequest = Request<string>
  type HttpResponse = Response<string>

  /** The device, as seen by the client: the response it gives to each POST. */
  type Transport = HttpRequest -> HttpResponse

  /** A freshly generated 1024-bit RSA key pair: its PEM public key and PKCS#1 v1.5 decryption. */
  datatype RsaKeyPair = RsaKeyPair(publicKeyPem: string, decrypt: seq<byte> -> Option<seq<byte>>)

  const BeginMarker: string := "-----BEGIN RSA PUBLIC KEY-----"
  const EndMarker: string := "-----END RSA PUBLIC KEY-----"

  const HandshakeFirst: Error := InvalidOperation("Handshake must be completed first")
  const LoginFirst: Error := InvalidOperation("Must complete login first")
  const NoEncryptedResponse: Error := InvalidOperation("No encrypted response")

  // ---------------------------------------------------------------------------
  // PEM stripping

  /** The public key as sent in the handshake: markers, line feeds and carriage returns removed, in that order. */
  function StripPem(pem: string): (key: string)
    ensures '\n' !in key && '\r' !in key
  {
    StripKey(pem, BeginMarker, EndMarker)
  }

  /** `pem.Replace(begin, "").Replace(end, "").Replace("\n", "").Replace("\r", "")`. */
  function StripKey(pem: string, begin: string, end: string): (key: string)
    requires |begin| > 0 && |end| > 0
    ensures '\n' !in key && '\r' !in key
  {
    var a := ReplaceAll(pem, begin, "");
    var b := ReplaceAll(a, end, "");
    var c := ReplaceAll(b, "\n", "");
    DeleteBoth(b);
    ReplaceAll(c, "\r", "")
  }

  /** Deleting line feeds and then carriage returns leaves neither. */
  lemma DeleteBoth(b: string)
    ensures var d := ReplaceAll(ReplaceAll(b, "\n", ""), "\r", "");
            '\n' !in d && '\r' !in d
  {
    var c := ReplaceAll(b, "\n", "");
    DeleteCharRemovesIt(b, '\n');
    DeleteCharRemovesIt(c, '\r');
    if '\n' in ReplaceAll(c, "\r", "") {
      DeleteKeepsOnlyInputChars(c, "\r", '\n');
    }
  }

  predicate IsBase64Line(line: string)
  {
    forall i :: 0 <= i < |line| ==> IsBase64Char(line[i])
  }

  /** The body lines of a PEM block, each followed by a line feed. */
  function JoinLines(lines: seq<string>): string
    decreases |lines|
  {
    if |lines| == 0 then "" else lines[0] + "\n" + JoinLines(lines[1..])
  }

  function Flatten(lines: seq<string>): string
    decreases |lines|
  {
    if |lines| == 0 then "" else lines[0] + Flatten(lines[1..])
  }

  /** An RSA public key in PEM form, as `ExportRSAPublicKeyPem` lays it out. */
  function PemText(lines: seq<string>): string
  {
    BeginMarker + ("\n" + JoinLines(lines)) + EndMarker
  }

  lemma {:induction false} JoinLinesChars(lines: seq<string>)
    requires forall k :: 0 <= k < |lines| ==> IsBase64Line(lines[k])
    ensures forall i :: 0 <= i < |JoinLines(lines)| ==> IsBase64Char(JoinLines(lines)[i]) || JoinLines(lines)[i] == '\n'
    decreases |lines|
  {
    if |lines| > 0 {
      JoinLinesChars(lines[1..]);
      var rest := JoinLines(lines[1..]);
      assert JoinLines(lines) == lines[0] + "\n" + rest;
      forall i | 0 <= i < |JoinLines(lines)|
        ensures IsBase64Char(JoinLines(lines)[i]) || JoinLines(lines)[i] == '\n'
      {
        if i < |lines[0]| {
          assert JoinLines(lines)[i] == lines[0][i];
        } else if i > |lines[0]| {
          assert JoinLines(lines)[i] == rest[i - |lines[0]| - 1];
        }
      }
    }
  }

  lemma {:induction false} FlattenChars(lines: seq<string>)
    requires forall k :: 0 <= k < |lines| ==> IsBase64Line(lines[k])
    ensures '\r' !in Flatten(lines)
    decreases |lines|
  {
    if |lines| > 0 {
      FlattenChars(lines[1..]);
      assert IsBase64Line(lines[0]);
    }
  }

  lemma {:induction false} StripLineFeeds(lines: seq<string>)
    requires forall k :: 0 <= k < |lines| ==> IsBase64Line(lines[k])
    ensures ReplaceAll(JoinLines(lines), "\n", "") == Flatten(lines)
    decreases |lines|
  {
    if |lines| > 0 {
      var rest := JoinLines(lines[1..]);
      assert IsBase64Line(lines[0]);
      assert '\n' !in lines[0];
      assert JoinLines(lines) == lines[0] + ("\n" + rest);
      ReplacePassesThrough(lines[0], "\n" + rest, "\n", "");
      ReplaceAtFront(rest, "\n", "");
      StripLineFeeds(lines[1..]);
    }
  }

  lemma BeginMarkerGoes(begin: string, body: string, end: string)
    requires |begin| > |end| && begin[0] == '-' && '-' !in body
    ensures ReplaceAll(begin + body + end, begin, "") == body + end
  {
    assert begin + body + end == begin + (body + end);
    ReplaceAtFront(body + end, begin, "");
    ReplacePassesThrough(body, end, begin, "");
  }

  lemma EndMarkerGoes(body: string, end: string)
    requires |end| > 0 && end[0] == '-' && '-' !in body
    ensures ReplaceAll(body + end, end, "") == body
  {
    ReplacePassesThrough(body, end, end, "");
    ReplaceAtFront("", end, "");
    assert end + "" == end;
  }

  lemma NoDashInBody(lines: seq<string>)
    requires forall k :: 0 <= k < |lines| ==> IsBase64Line(lines[k])
    ensures '-' !in "\n" + JoinLines(lines)
  {
    JoinLinesChars(lines);
  }

  /** Stripping a key between two dash-led markers gives the Base64 body without its line breaks. */
  lemma StripKeyOfPem(lines: seq<string>, begin: string, end: string)
    requires forall k :: 0 <= k < |lines| ==> IsBase64Line(lines[k])
    requires |begin| > |end| > 0 && begin[0] == '-' && end[0] == '-'
    ensures StripKey(begin + ("\n" + JoinLines(lines)) + end, begin, end) == Flatten(lines)
  {
    var j := JoinLines(lines);
    var body := "\n" + j;
    NoDashInBody(lines);
    var pem := begin + body + end;
    var a := ReplaceAll(pem, begin, "");
    assert a == body + end by {
      BeginMarkerGoes(begin, body, end);
    }
    var b := ReplaceAll(a, end, "");
    assert b == body by {
      EndMarkerGoes(body, end);
    }
    var c := ReplaceAll(b, "\n", "");
    assert c == Flatten(lines) by {
      ReplaceAtFront(j, "\n", "");
      StripLineFeeds(lines);
    }
    assert ReplaceAll(c, "\r", "") == c by {
      FlattenChars(lines);
      ReplaceAbsent(c, "\r", "");
    }
  }

  lemma StripPemIsStripKey(lines: seq<string>)
    ensures StripPem(PemText(lines)) == StripKey(BeginMarker + ("\n" + JoinLines(lines)) + EndMarker, BeginMarker, EndMarker)
  {
  }

  /** For a PEM-shaped key the stripped key is exactly the Base64 body with its line breaks removed. */
  lemma StripPemOfPemText(lines: seq<string>)
    requires forall k :: 0 <= k < |lines| ==> IsBase64Line(lines[k])
    ensures StripPem(PemText(lines)) == Flatten(lines)
  {
    StripPemIsStripKey(lines);
    MarkersStartWithDash();
    StripKeyOfPem(lines, BeginMarker, EndMarker);
  }

  lemma MarkersStartWithDash()
    ensures BeginMarker[0] == '-' && EndMarker[0] == '-' && |BeginMarker| > |EndMarker|
  {
  }

  // ---------------------------------------------------------------------------
  // The e-mail hash

  const UpperHexDigits: string := "0123456789ABCDEF"
  const LowerHexDigits: string := "0123456789abcdef"

  predicate IsLowerHexDigit(c: char)
  {
    '0' <= c <= '9' || 'a' <= c <= 'f'
  }

  function UpperPair(b: byte): string
  {
    [UpperHexDigits[b / 16], UpperHexDigits[b % 16]]
  }

  function LowerPair(b: byte): string
  {
    [LowerHexDigits[b / 16], LowerHexDigits[b % 16]]
  }

  /** `BitConverter.ToString(bytes)`: upper-case hex pairs separated by '-'. */
  function BitConverterToString(bytes: seq<byte>): string
    decreases |bytes|
  {
    if |bytes| == 0 then ""
    else if |bytes| == 1 then UpperPair(bytes[0])
    else UpperPair(bytes[0]) + "-" + BitConverterToString(bytes[1..])
  }

  /** Lower-case hex, two digits per byte, most significant nibble first. */
  function LowerHex(bytes: seq<byte>): (s: string)
    ensures |s| == 2 * |bytes|
    ensures forall i :: 0 <= i < |s| ==> IsLowerHexDigit(s[i])
    decreases |bytes|
  {
    if |bytes| == 0 then "" else LowerPair(bytes[0]) + LowerHex(bytes[1..])
  }

  function HexValue(c: char): nat
  {
    if '0' <= c <= '9' then c as int - '0' as int
    else if 'a' <= c <= 'f' then c as int - 'a' as int + 10
    else 0
  }

  /** Reads lower-case hex back into bytes. */
  function ParseLowerHex(s: string): seq<byte>
    decreases |s|
  {
    if |s| < 2 then [] else [(HexValue(s[0]) * 16 + HexValue(s[1])) % 256] + ParseLowerHex(s[2..])
  }

  lemma HexDigitValue(d: nat)
    requires d < 16
    ensures HexValue(LowerHexDigits[d]) == d
  {
  }

  /** One byte survives being written as two lower-case hex digits. */
  lemma PairRoundTrip(b: byte)
    ensures (HexValue(LowerPair(b)[0]) * 16 + HexValue(LowerPair(b)[1])) % 256 == b
  {
    var hi, lo := b / 16, b % 16;
    HexDigitValue(hi);
    HexDigitValue(lo);
    assert hi * 16 + lo == b;
  }

  lemma ParsePair(pair: string, rest: string)
    requires |pair| == 2
    ensures ParseLowerHex(pair + rest) == [(HexValue(pair[0]) * 16 + HexValue(pair[1])) % 256] + ParseLowerHex(rest)
  {
    assert (pair + rest)[2..] == rest;
  }

  /** Lower-case hex loses nothing: it reads back to the bytes it was made from. */
  lemma {:induction false} LowerHexRoundTrip(bytes: seq<byte>)
    ensures ParseLowerHex(LowerHex(bytes)) == bytes
    decreases |bytes|
  {
    if |bytes| > 0 {
      ParsePair(LowerPair(bytes[0]), LowerHex(bytes[1..]));
      PairRoundTrip(bytes[0]);
      LowerHexRoundTrip(bytes[1..]);
      assert bytes == [bytes[0]] + bytes[1..];
    }
  }

  lemma UpperPairLowers(b: byte)
    ensures ToLowerInvariant(UpperPair(b)) == LowerPair(b)
    ensures '-' !in UpperPair(b)
  {
  }

  /** Removing the dashes and lower-casing `BitConverter.ToString` gives plain lower-case hex. */
  lemma {:induction false} DashedHexToLowerHex(bytes: seq<byte>)
    ensures ToLowerInvariant(ReplaceAll(BitConverterToString(bytes), "-", "")) == LowerHex(bytes)
    decreases |bytes|
  {
    if |bytes| == 1 {
      UpperPairLowers(bytes[0]);
      ReplaceAbsent(UpperPair(bytes[0]), "-", "");
      assert LowerHex(bytes) == LowerPair(bytes[0]) + "";
    } else if |bytes| > 1 {
      var pair := UpperPair(bytes[0]);
      var rest := BitConverterToString(bytes[1..]);
      var undashed := ReplaceAll(rest, "-", "");
      assert ReplaceAll(BitConverterToString(bytes), "-", "") == pair + undashed by {
        UpperPairLowers(bytes[0]);
        assert BitConverterToString(bytes) == pair + ("-" + rest);
        ReplacePassesThrough(pair, "-" + rest, "-", "");
        ReplaceAtFront(rest, "-", "");
      }
      assert ToLowerInvariant(pair + undashed) == LowerPair(bytes[0]) + LowerHex(bytes[1..]) by {
        UpperPairLowers(bytes[0]);
        ToLowerConcat(pair, undashed);
        DashedHexToLowerHex(bytes[1..]);
      }
    }
  }

  /**
   * `ComputeSha1Hash`: the SHA-1 digest of the UTF-8 text, as forty lower-case hex digits
   * (dashes of `BitConverter.ToString` removed, then `ToLowerInvariant`).
   */
  function ComputeSha1Hash(p: Primitives, input: string): (h: string)
    requires Valid(p)
    ensures |h| == 40
    ensures forall i :: 0 <= i < |h| ==> IsLowerHexDigit(h[i])
    ensures ParseLowerHex(h) == p.sha1(p.utf8(input))
  {
    var bytes := p.sha1(p.utf8(input));
    DashedHexToLowerHex(bytes);
    LowerHexRoundTrip(bytes);
    ToLowerInvariant(ReplaceAll(BitConverterToString(bytes), "-", ""))
  }

  // ---------------------------------------------------------------------------
  // The session cipher

  /** `TpLinkCipher`: one AES key and IV for every message of the session, Base64 on the wire. */
  datatype TpLinkCipher = TpLinkCipher(key: seq<byte>, iv: seq<byte>) {
    /** Base64 has no line breaks, so the CRLF removal leaves the encoding as it is. */
    function Encrypt(p: Primitives, data: string): (r: string)
      ensures Valid(p) ==> r == p.base64Encode(p.aesEncrypt(key, iv, data))
      ensures Valid(p) ==> forall i :: 0 <= i < |r| ==> IsBase64Char(r[i])
    {
      var encoded := p.base64Encode(p.aesEncrypt(key, iv, data));
      ReplaceAbsent(encoded, "\r\n", "");
      ReplaceAll(encoded, "\r\n", "")
    }

    /** Text that is not Base64 fails before decryption; a bad padding fails in decryption. */
    function Decrypt(p: Primitives, data: string): (r: Result<string, Error>)
      ensures p.base64Decode(data).None? ==> r == Failure(MalformedBase64)
      ensures r.Failure? ==> r.error == MalformedBase64 || r.error == Cryptographic
      ensures r.Success? ==> p.base64Decode(data).Some? && p.aesDecrypt(key, iv, p.base64Decode(data).value) == Some(r.value)
    {
      match p.base64Decode(data)
      case None => Failure(MalformedBase64)
      case Some(bytes) =>
        match p.aesDecrypt(key, iv, bytes)
        case None => Failure(Cryptographic)
        case Some(text) => Success(text)
    }
  }

  /** With a fixed key and IV, decrypting what was encrypted gives the text back. */
  lemma TpLinkRoundTrip(p: Primitives, cipher: TpLinkCipher, data: string)
    requires Valid(p)
    requires |cipher.key| == 16 && |cipher.iv| == 16
    ensures cipher.Decrypt(p, cipher.Encrypt(p, data)) == Success(data)
  {
    var encoded := p.base64Encode(p.aesEncrypt(cipher.key, cipher.iv, data));
    assert '\r' !in encoded;
    ReplaceAbsent(encoded, "\r\n", "");
  }

  /**
   * `DecodeHandshakeKey`: Base64-decode the handshake key, RSA-decrypt it with the local
   * private key, and split the first 32 bytes into the AES key and IV.
   */
  function DecodeHandshakeKey(p: Primitives, rsa: Option<RsaKeyPair>, encryptedKey: string): (r: Result<TpLinkCipher, Error>)
    ensures r.Success? ==> |r.value.key| == 16 && |r.value.iv| == 16
  {
    if rsa.None? then Failure(InvalidOperation("RSA not initialized"))
    else match p.base64Decode(encryptedKey)
      case None => Failure(MalformedBase64)
      case Some(encryptedBytes) =>
        match rsa.value.decrypt(encryptedBytes)
        case None => Failure(Cryptographic)
        case Some(blob) =>
          if |blob| < 32 then Failure(InvalidOperation("Decrypted key too short"))
          else Success(TpLinkCipher(blob[..16], blob[16..32]))
  }

  /** A decrypted blob shorter than 32 bytes is refused; otherwise key and IV are its first two 16-byte blocks. */
  lemma DecodeHandshakeKeySplit(p: Primitives, rsa: RsaKeyPair, encryptedKey: string, blob: seq<byte>)
    requires p.base64Decode(encryptedKey).Some?
    requires rsa.decrypt(p.base64Decode(encryptedKey).value) == Some(blob)
    ensures |blob| < 32 ==> DecodeHandshakeKey(p, Some(rsa), encryptedKey) == Failure(InvalidOperation("Decrypted key too short"))
    ensures |blob| >= 32 ==>
              var r := DecodeHandshakeKey(p, Some(rsa), encryptedKey);
              r.Success? && r.value.key + r.value.iv == blob[..32]
  {
    if |blob| >= 32 {
      assert blob[..16] + blob[16..32] == blob[..32];
    }
  }

  // ---------------------------------------------------------------------------
  // Messages

  function HandshakeRequest(publicKey: string): Json
  {
    JObject(map["method" := JString("handshake"),
                "params" := JObject(map["key" := JString(publicKey), "requestTimeMils" := JNumber(0)])])
  }

  /** The login_device command: Base64 of the password, Base64 of the hex SHA-1 of the user name. */
  function LoginRequest(p: Primitives, username: string, password: string): Json
    requires Valid(p)
  {
    JObject(map["method" := JString("login_device"),
                "params" := JObject(map["password" := JString(p.base64Encode(p.utf8(password))),
                                        "username" := JString(p.base64Encode(p.utf8(ComputeSha1Hash(p, username))))]),
                "requestTimeMils" := JNumber(0)])
  }

  function SetDeviceInfoCommand(deviceInfo: Json, terminalUuid: string): Json
  {
    JObject(map["method" := JString("set_device_info"), "params" := deviceInfo,
                "requestTimeMils" := JNumber(0), "terminalUUID" := JString(terminalUuid)])
  }

  const GetDeviceInfoCommand: Json :=
    JObject(map["method" := JString("get_device_info"), "requestTimeMils" := JNumber(0)])

  /** The outer envelope: `{"method": "securePassthrough", "params": {"request": <encrypted inner JSON>}}`. */
  function Seal(p: Primitives, cipher: TpLinkCipher, inner: Json): string
  {
    p.serialize(JObject(map["method" := JString("securePassthrough"),
                            "params" := JObject(map["request" := JString(cipher.Encrypt(p, p.serialize(inner)))])]))
  }

  /** `node?[outer]?[inner]?.GetValue<string>() ?? throw`. */
  function StringMember(node: Option<Json>, outer: string, inner: string, missing: Error): Result<string, Error>
  {
    var a :- Index(node, outer);
    var b :- Index(a, inner);
    var s :- StringValue(b);
    if s.None? then Failure(missing) else Success(s.value)
  }

  /** The decrypted inner document of a securePassthrough response, as a nullable node. */
  function Open(p: Primitives, cipher: TpLinkCipher, response: HttpResponse): (r: Result<Option<Json>, Error>)
    ensures p.parse(response.body).None? ==> r == Failure(MalformedJson)
    ensures r.Success? && r.value.Some? ==> r.value.value != JNull
  {
    match p.parse(response.body)
    case None => Failure(MalformedJson)
    case Some(outer) =>
      var encryptedResponse :- StringMember(AsNode(outer), "result", "response", NoEncryptedResponse);
      var text :- cipher.Decrypt(p, encryptedResponse);
      match p.parse(text)
      case None => Failure(MalformedJson)
      case Some(doc) => Success(AsNode(doc))
  }

  /** The error-code table of Passthrough devices. */
  function PassthroughErrorMessage(code: int): (msg: string)
    ensures |msg| > 0
    ensures StartsWith(msg, "Unknown error code: ") <==> code !in {0, -1010, -1012, -1501, 1002, -1003}
  {
    match code
    case 0 => "Success"
    case -1010 => assert "Invalid Public Key Length"[0] == 'I'; "Invalid Public Key Length"
    case -1012 => assert "Invalid terminalUUID"[0] == 'I'; "Invalid terminalUUID"
    case -1501 => assert "Invalid Request or Credentials"[0] == 'I'; "Invalid Request or Credentials"
    case 1002 => "Incorrect Request"
    case -1003 => assert "JSON formatting error"[0] == 'J'; "JSON formatting error"
    case _ => "Unknown error code: " + IntToString(code)
  }

  /** How the handshake response is handled, and the session cookie afterwards. */
  datatype HandshakeTrace = HandshakeTrace(outcome: Result<TpLinkCipher, Error>, cookie: Option<string>)

  function HandshakeOutcome(p: Primitives, rsa: Option<RsaKeyPair>, response: HttpResponse, cookie: Option<string>): (hs: HandshakeTrace)
    ensures hs.cookie == cookie || hs.cookie == SessionCookie(response.setCookies)
    ensures hs.cookie.None? ==> hs.outcome.Failure?
    ensures rsa.None? ==> hs.outcome.Failure?
    ensures hs.outcome.Failure? && hs.outcome.error.Tapo? ==> hs.outcome.error.code != 0
  {
    match p.parse(response.body)
    case None => HandshakeTrace(Failure(MalformedJson), cookie)
    case Some(doc) =>
      var node := AsNode(doc);
      match ErrorCode(node)
      case Failure(e) => HandshakeTrace(Failure(e), cookie)
      case Success(code) =>
        if code != 0 then HandshakeTrace(Failure(Tapo(code, "Handshake failed with error " + IntToString(code))), cookie)
        else
          match StringMember(node, "result", "key", InvalidOperation("No encrypted key in handshake response"))
          case Failure(e) => HandshakeTrace(Failure(e), cookie)
          case Success(encryptedKey) =>
            var captured := UpdatedCookie(cookie, response.setCookies);
            if captured.None? then HandshakeTrace(Failure(InvalidOperation("No session cookie received")), captured)
            else HandshakeTrace(DecodeHandshakeKey(p, rsa, encryptedKey), captured)
  }

  /** A nonzero handshake error_code is raised before any key or cookie is looked at. */
  lemma HandshakeErrorCodeFirst(p: Primitives, rsa: Option<RsaKeyPair>, response: HttpResponse, cookie: Option<string>,
                                code: int32, members: map<string, Json>)
    requires p.parse(response.body) == Some(JObject(members))
    requires "error_code" in members && members["error_code"] == JNumber(code) && code != 0
    ensures HandshakeOutcome(p, rsa, response, cookie)
         == HandshakeTrace(Failure(Tapo(code, "Handshake failed with error " + IntToString(code))), cookie)
  {
  }

  /** A successful handshake always leaves a session cookie behind, and a 16-byte key and IV. */
  lemma HandshakeSuccessHasCookie(p: Primitives, rsa: Option<RsaKeyPair>, response: HttpResponse, cookie: Option<string>)
    ensures var hs := HandshakeOutcome(p, rsa, response, cookie);
            hs.outcome.Success? ==> hs.cookie.Some? && |hs.outcome.value.key| == 16 && |hs.outcome.value.iv| == 16
  {
  }

  /** Without a TP_SESSIONID cookie, now or from before, the handshake fails. */
  lemma HandshakeNeedsCookie(p: Primitives, rsa: Option<RsaKeyPair>, response: HttpResponse)
    requires forall i :: 0 <= i < |response.setCookies| ==> !StartsWith(response.setCookies[i], SessionCookieName)
    ensures HandshakeOutcome(p, rsa, response, None).outcome.Failure?
  {
  }

  /** How the login response is handled: the token, or the error raised. */
  function LoginOutcome(p: Primitives, cipher: TpLinkCipher, response: HttpResponse): (r: Result<string, Error>)
    ensures r.Success? ==> Open(p, cipher, response).Success? && ErrorCode(Open(p, cipher, response).value) == Success(0)
    ensures r.Failure? && r.error.Tapo? ==> r.error.code != 0
  {
    var doc :- Open(p, cipher, response);
    var code :- ErrorCode(doc);
    if code != 0 then Failure(Tapo(code, "Login failed with error " + IntToString(code)))
    else StringMember(doc, "result", "token", InvalidOperation("No token in login response"))
  }

  /** How a command response is handled: the result member, or the error raised. */
  function CommandOutcome(p: Primitives, cipher: TpLinkCipher, response: HttpResponse): (r: Result<Option<Json>, Error>)
    ensures r.Success? ==> Open(p, cipher, response).Success? && ErrorCode(Open(p, cipher, response).value) == Success(0)
    ensures r.Failure? && r.error.Tapo? ==> r.error.code != 0 && r.error.message == PassthroughErrorMessage(r.error.code)
  {
    var doc :- Open(p, cipher, response);
    var code :- ErrorCode(doc);
    if code != 0 then Failure(Tapo(code, PassthroughErrorMessage(code))) else Index(doc, "result")
  }

  /** A nonzero command error_code raises a TapoException with that code and the table's message. */
  lemma CommandErrorCodeRaises(p: Primitives, cipher: TpLinkCipher, response: HttpResponse, code: int32, members: map<string, Json>)
    requires Open(p, cipher, response) == Success(Some(JObject(members)))
    requires "error_code" in members && members["error_code"] == JNumber(code) && code != 0
    ensures CommandOutcome(p, cipher, response) == Failure(Tapo(code, PassthroughErrorMessage(code)))
  {
  }

  /**
   * The double envelope works end to end: a device that answers in the same envelope,
   * encrypted with the session cipher, is understood and its result member returned.
   */
  lemma CommandOfSealedReply(p: Primitives, cipher: TpLinkCipher, result: Json, status: int, setCookies: seq<string>)
    requires Valid(p)
    requires |cipher.key| == 16 && |cipher.iv| == 16
    requires result != JNull
    ensures var inner := JObject(map["error_code" := JNumber(0), "result" := result]);
            var body := p.serialize(JObject(map["result" := JObject(map["response" := JString(cipher.Encrypt(p, p.serialize(inner)))])]));
            CommandOutcome(p, cipher, Response(status, setCookies, body)) == Success(Some(result))
  {
    var inner := JObject(map["error_code" := JNumber(0), "result" := result]);
    var body := p.serialize(JObject(map["result" := JObject(map["response" := JString(cipher.Encrypt(p, p.serialize(inner)))])]));
    var response := Response(status, setCookies, body);
    assert Open(p, cipher, response) == Success(Some(inner)) by {
      OpenOfSealedReply(p, cipher, inner, response);
    }
    assert ErrorCode(Some(inner)) == Success(0);
    assert Index(Some(inner), "result") == Success(Some(result));
  }

  /** The envelope opens: the reply's encrypted inner document is decrypted and parsed back. */
  lemma OpenOfSealedReply(p: Primitives, cipher: TpLinkCipher, inner: Json, response: HttpResponse)
    requires Valid(p)
    requires |cipher.key| == 16 && |cipher.iv| == 16
    requires inner != JNull
    requires response.body == p.serialize(JObject(map["result" := JObject(map["response" := JString(cipher.Encrypt(p, p.serialize(inner)))])]))
    ensures Open(p, cipher, response) == Success(Some(inner))
  {
    var encrypted := cipher.Encrypt(p, p.serialize(inner));
    var outer := JObject(map["result" := JObject(map["response" := JString(encrypted)])]);
    assert p.parse(response.body) == Some(outer);
    assert StringMember(AsNode(outer), "result", "response", NoEncryptedResponse) == Success(encrypted);
    assert cipher.Decrypt(p, encrypted) == Success(p.serialize(inner)) by {
      TpLinkRoundTrip(p, cipher, p.serialize(inner));
    }
    assert p.parse(p.serialize(inner)) == Some(inner);
  }

  // ---------------------------------------------------------------------------
  // The handler

  /** `PassthroughProtocolHandler`: RSA key, session cookie, cipher, token and URL, set step by step. */
  class PassthroughProtocolHandler {
    const prims: Primitives
    var rsa: Option<RsaKeyPair>
    var sessionCookie: Option<string>
    var cipher: Option<TpLinkCipher>
    var token: Option<string>
    var url: Option<string>

    ghost predicate Valid()
      reads this
    {
      Platform.Valid(prims) && (cipher.Some? ==> |cipher.value.key| == 16 && |cipher.value.iv| == 16)
    }

    constructor (p: Primitives)
      requires Platform.Valid(p)
      ensures Valid() && prims == p
      ensures rsa == None && sessionCookie == None && cipher == None && token == None && url == None
    {
      prims := p;
      rsa := None;
      sessionCookie := None;
      cipher := None;
      token := None;
      url := None;
    }

    /**
     * `LoginAsync` with the generated key pair as a parameter: records URL and key, runs the
     * handshake with the stripped public key, then logs in with the credentials.
     */
    method Login(u: string, username: string, password: string, keys: RsaKeyPair, http: Transport)
        returns (outcome: Result<(), Error>, sent: seq<HttpRequest>)
      requires Valid()
      modifies this
      ensures Valid()
      ensures url == Some(u) && rsa == Some(keys)
      ensures var hsRequest := Request(u, None, prims.serialize(HandshakeRequest(StripPem(keys.publicKeyPem))));
              var hs := HandshakeOutcome(prims, Some(keys), http(hsRequest), old(sessionCookie));
              && |sent| >= 1 && sent[0] == hsRequest && sessionCookie == hs.cookie
              && (hs.outcome.Failure? ==>
                    outcome == Failure(hs.outcome.error) && |sent| == 1 && cipher == old(cipher) && token == old(token))
              && (hs.outcome.Success? ==>
                    var loginRequest := Request(u, hs.cookie, Seal(prims, hs.outcome.value, LoginRequest(prims, username, password)));
                    var lo := LoginOutcome(prims, hs.outcome.value, http(loginRequest));
                    && cipher == Some(hs.outcome.value) && sent == [hsRequest, loginRequest]
                    && (lo.Failure? ==> outcome == Failure(lo.error) && token == old(token))
                    && (lo.Success? ==> outcome == Success(()) && token == Some(lo.value)))
    {
      url := Some(u);
      rsa := Some(keys);
      var publicKey := StripPem(keys.publicKeyPem);
      var hs, hsRequest := Handshake(u, publicKey, http);
      sent := [hsRequest];
      if hs.Failure? {
        outcome := Failure(hs.error);
        return;
      }
      HandshakeSuccessHasCookie(prims, rsa, http(hsRequest), old(sessionCookie));
      assert cipher.Some? && sessionCookie.Some? && url.Some?;
      ghost var loginRequest := Request(u, sessionCookie, Seal(prims, cipher.value, LoginRequest(prims, username, password)));
      ghost var lo := LoginOutcome(prims, cipher.value, http(loginRequest));
      ghost var oldToken := token;
      var more;
      outcome, more := LoginWithCredentials(username, password, http);
      assert more == [loginRequest];
      assert lo.Failure? ==> outcome == Failure(lo.error) && token == oldToken;
      assert lo.Success? ==> outcome == Success(()) && token == Some(lo.value);
      sent := sent + more;
    }

    /**
     * `HandshakeAsync`: posts the public key, checks error_code, takes the encrypted key,
     * captures the session cookie and installs the cipher it decodes to.
     */
    method Handshake(u: string, publicKey: string, http: Transport) returns (result: Result<(), Error>, sent: HttpRequest)
      requires Valid()
      modifies this`sessionCookie, this`cipher
      ensures Valid()
      ensures sent == Request(u, None, prims.serialize(HandshakeRequest(publicKey)))
      ensures var hs := HandshakeOutcome(prims, rsa, http(sent), old(sessionCookie));
              && sessionCookie == hs.cookie
              && (hs.outcome.Failure? ==> result == Failure(hs.outcome.error) && cipher == old(cipher))
              && (hs.outcome.Success? ==> result == Success(()) && cipher == Some(hs.outcome.value))
    {
      sent := Request(u, None, prims.serialize(HandshakeRequest(publicKey)));
      var response := http(sent);
      var responseObj := prims.parse(response.body);
      if responseObj.None? {
        result := Failure(MalformedJson);
        return;
      }
      var node := AsNode(responseObj.value);
      var errorCode := ErrorCode(node);
      if errorCode.Failure? {
        result := Failure(errorCode.error);
        return;
      }
      if errorCode.value != 0 {
        result := Failure(Tapo(errorCode.value, "Handshake failed with error " + IntToString(errorCode.value)));
        return;
      }
      var encryptedKey := StringMember(node, "result", "key", InvalidOperation("No encrypted key in handshake response"));
      if encryptedKey.Failure? {
        result := Failure(encryptedKey.error);
        return;
      }
      var captured := SessionCookie(response.setCookies);
      if captured.Some? {
        sessionCookie := captured;
      }
      if sessionCookie.None? {
        result := Failure(InvalidOperation("No session cookie received"));
        return;
      }
      var decoded := DecodeHandshakeKey(prims, rsa, encryptedKey.value);
      if decoded.Failure? {
        result := Failure(decoded.error);
        return;
      }
      cipher := Some(decoded.value);
      result := Success(());
    }

    /**
     * `LoginWithCredentialsAsync`: needs cipher, cookie and URL; posts the sealed
     * login_device command and stores the token of a response without error.
     */
    method LoginWithCredentials(username: string, password: string, http: Transport)
        returns (result: Result<(), Error>, sent: seq<HttpRequest>)
      requires Valid()
      modifies this`token
      ensures cipher.None? || sessionCookie.None? || url.None? ==>
                result == Failure(HandshakeFirst) && sent == [] && token == old(token)
      ensures cipher.Some? && sessionCookie.Some? && url.Some? ==>
                var request := Request(url.value, sessionCookie, Seal(prims, cipher.value, LoginRequest(prims, username, password)));
                var lo := LoginOutcome(prims, cipher.value, http(request));
                && sent == [request]
                && (lo.Failure? ==> result == Failure(lo.error) && token == old(token))
                && (lo.Success? ==> result == Success(()) && token == Some(lo.value))
    {
      if cipher.None? || sessionCookie.None? || url.None? {
        result := Failure(HandshakeFirst);
        sent := [];
        return;
      }
      var encodedPassword := prims.base64Encode(prims.utf8(password));
      var emailHash := ComputeSha1Hash(prims, username);
      var encodedEmail := prims.base64Encode(prims.utf8(emailHash));
      var loginRequest := JObject(map["method" := JString("login_device"),
                                      "params" := JObject(map["password" := JString(encodedPassword),
                                                              "username" := JString(encodedEmail)]),
                                      "requestTimeMils" := JNumber(0)]);
      var request := Request(url.value, sessionCookie, Seal(prims, cipher.value, loginRequest));
      sent := [request];
      var response := http(request);
      var decrypted := Open(prims, cipher.value, response);
      if decrypted.Failure? {
        result := Failure(decrypted.error);
        return;
      }
      var errorCode := ErrorCode(decrypted.value);
      if errorCode.Failure? {
        result := Failure(errorCode.error);
        return;
      }
      if errorCode.value != 0 {
        result := Failure(Tapo(errorCode.value, "Login failed with error " + IntToString(errorCode.value)));
        return;
      }
      var newToken := StringMember(decrypted.value, "result", "token", InvalidOperation("No token in login response"));
      if newToken.Failure? {
        result := Failure(newToken.error);
        return;
      }
      token := Some(newToken.value);
      result := Success(());
    }

    /** The URL commands go to once logged in. */
    function CommandUrl(): string
      reads this
      requires url.Some? && token.Some?
    {
      url.value + "?token=" + token.value
    }

    /**
     * `ExecuteSecureCommandAsync`: needs cipher, token, cookie and URL; posts the sealed
     * command to `url?token=<token>` with the cookie and reads back the result member.
     */
    method ExecuteSecureCommand(command: Json, http: Transport) returns (result: Result<Option<Json>, Error>, sent: seq<HttpRequest>)
      requires Valid()
      ensures cipher.None? || token.None? || sessionCookie.None? || url.None? ==>
                result == Failure(LoginFirst) && sent == []
      ensures cipher.Some? && token.Some? && sessionCookie.Some? && url.Some? ==>
                && sent == [Request(url.value + "?token=" + token.value, sessionCookie, Seal(prims, cipher.value, command))]
                && result == CommandOutcome(prims, cipher.value, http(sent[0]))
    {
      if cipher.None? || token.None? || sessionCookie.None? || url.None? {
        result := Failure(LoginFirst);
        sent := [];
        return;
      }
      var commandUrl := CommandUrl();
      var request := Request(commandUrl, sessionCookie, Seal(prims, cipher.value, command));
      sent := [request];
      var response := http(request);
      var decrypted := Open(prims, cipher.value, response);
      if decrypted.Failure? {
        result := Failure(decrypted.error);
        return;
      }
      var errorCode := ErrorCode(decrypted.value);
      if errorCode.Failure? {
        result := Failure(errorCode.error);
        return;
      }
      if errorCode.value != 0 {
        result := Failure(Tapo(errorCode.value, PassthroughErrorMessage(errorCode.value)));
        return;
      }
      result := Index(decrypted.value, "result");
    }

    /** `SetDeviceInfoAsync` with the fresh terminal UUID as a parameter. */
    method SetDeviceInfo(deviceInfo: Json, terminalUuid: string, http: Transport) returns (outcome: Result<(), Error>, sent: seq<HttpRequest>)
      requires Valid()
      ensures cipher.None? || token.None? || sessionCookie.None? || url.None? ==>
                outcome == Failure(LoginFirst) && sent == []
      ensures cipher.Some? && token.Some? && sessionCookie.Some? && url.Some? ==>
                var request := Request(url.value + "?token=" + token.value, sessionCookie,
                                       Seal(prims, cipher.value, SetDeviceInfoCommand(deviceInfo, terminalUuid)));
                var result := CommandOutcome(prims, cipher.value, http(request));
                && sent == [request]
                && (outcome.Success? <==> result.Success?)
                && (result.Failure? ==> outcome == Failure(result.error))
    {
      var result;
      result, sent := ExecuteSecureCommand(SetDeviceInfoCommand(deviceInfo, terminalUuid), http);
      if result.Failure? {
        outcome := Failure(result.error);
      } else {
        outcome := Success(());
      }
    }

    /** `GetDeviceInfoAsync`: a get_device_info command; a missing result is an error. */
    method GetDeviceInfo(http: Transport) returns (info: Result<Json, Error>, sent: seq<HttpRequest>)
      requires Valid()
      ensures cipher.None? || token.None? || sessionCookie.None? || url.None? ==>
                info == Failure(LoginFirst) && sent == []
      ensures cipher.Some? && token.Some? && sessionCookie.Some? && url.Some? ==>
                var request := Request(url.value + "?token=" + token.value, sessionCookie, Seal(prims, cipher.value, GetDeviceInfoCommand));
                var result := CommandOutcome(prims, cipher.value, http(request));
                && sent == [request]
                && (info.Success? <==> result.Success? && result.value.Some?)
                && (info.Success? ==> info.value == result.value.value)
                && (result.Failure? ==> info == Failure(result.error))
                && (result == Success(None) ==> info == Failure(InvalidOperation("No device info received")))
    {
      var result;
      result, sent := ExecuteSecureCommand(GetDeviceInfoCommand, http);
      match result
      case Failure(e) => info := Failure(e);
      case Success(None) => info := Failure(InvalidOperation("No device info received"));
      case Success(Some(doc)) => info := Success(doc);
    }
  }
}
