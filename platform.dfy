/**
 * What the client takes from the .NET platform and the network: JSON documents,
 * the cryptographic and encoding library calls (as function-valued parameters that
 * satisfy the properties the client relies on), HTTP exchanges, and the exceptions
 * the client raises.
 */
module Platform {
  import opened Wrappers
  import opened Binary

  /** A `System.Text.Json` node; object member order is not modelled. */
  datatype Json =
    | JNull
    | JBool(b: bool)
    | JNumber(n: int)
    | JString(s: string)
    | JArray(items: seq<Json>)
    | JObject(members: map<string, Json>)

  /**
   * Library primitives: SHA-1, SHA-256, UTF-8 encoding, AES-128-CBC with PKCS#7 padding
   * applied to the UTF-8 bytes of a text (decryption yields None where unpadding fails;
   * invalid UTF-8 is decoded with replacement characters), Base64, and JSON serialisation and parsing (parsing yields
   * None where System.Text.Json throws; the text `null` parses to JNull).
   */
  datatype Primitives = Primitives(
    sha1: seq<byte> -> seq<byte>,
    sha256: seq<byte> -> seq<byte>,
    utf8: string -> seq<byte>,
    aesEncrypt: (seq<byte>, seq<byte>, string) -> seq<byte>,
    aesDecrypt: (seq<byte>, seq<byte>, seq<byte>) -> Option<string>,
    base64Encode: seq<byte> -> string,
    base64Decode: string -> Option<seq<byte>>,
    serialize: Json -> string,
    parse: string -> Option<Json>)

  /** The Base64 alphabet of RFC 4648 section 4, with its padding character. */
  predicate IsBase64Char(c: char)
  {
    'A' <= c <= 'Z' || 'a' <= c <= 'z' || '0' <= c <= '9' || c == '+' || c == '/' || c == '='
  }

  /**
   * The properties of the library primitives that the client depends on: digest lengths,
   * AES decryption undoes AES encryption under the same 16-byte key and IV, Base64
   * decoding undoes encoding, encoded text uses only the Base64 alphabet, and parsing
   * a serialised document gives it back.
   */
  ghost predicate Valid(p: Primitives)
  {
    && (forall m :: |p.sha1(m)| == 20)
    && (forall m :: |p.sha256(m)| == 32)
    && (forall key, iv, text | |key| == 16 && |iv| == 16 :: p.aesDecrypt(key, iv, p.aesEncrypt(key, iv, text)) == Some(text))
    && (forall b :: p.base64Decode(p.base64Encode(b)) == Some(b))
    && (forall b, i | 0 <= i < |p.base64Encode(b)| :: IsBase64Char(p.base64Encode(b)[i]))
    && (forall doc :: p.parse(p.serialize(doc)) == Some(doc))
  }

  /** The exceptions the client raises or lets through. */
  datatype Error =
    | InvalidOperation(message: string)  // System.InvalidOperationException raised by the client
    | Tapo(code: int, message: string)   // TapoException: a device-reported error_code
    | HttpStatus(status: int)            // HttpRequestException from EnsureSuccessStatusCode
    | Cryptographic                      // CryptographicException: AES unpadding or RSA decryption failed
    | MalformedBase64                    // FormatException from Convert.FromBase64String
    | MalformedJson                      // JsonException, or a member of an unexpected JSON kind

  /** An HTTP POST as the client issues it: target, the replayed session cookie, body. */
  datatype Request<B> = Request(url: string, cookie: Option<string>, body: B)

  /** An HTTP response: status code, the Set-Cookie header values in order, body. */
  datatype Response<B> = Response(status: int, setCookies: seq<string>, body: B)

  /** `HttpResponseMessage.IsSuccessStatusCode`. */
  predicate IsSuccessStatus(status: int)
  {
    200 <= status <= 299
  }

  /** A parsed document as a nullable node: `JsonNode.Parse("null")` returns null. */
  function AsNode(doc: Json): Option<Json>
  {
    if doc == JNull then None else Some(doc)
  }

  /**
   * `node?[key]`: null propagates, an object yields its member (a JSON null member
   * reads as null), and indexing any other kind of node throws.
   */
  function Index(node: Option<Json>, key: string): (r: Result<Option<Json>, Error>)
    ensures r.Success? && r.value.Some? ==> node.Some? && node.value.JObject? && key in node.value.members
    ensures r.Failure? <==> node.Some? && !node.value.JObject?
  {
    match node
    case None => Success(None)
    case Some(JObject(m)) => Success(if key in m && m[key] != JNull then Some(m[key]) else None)
    case Some(_) => Failure(MalformedJson)
  }

  /** `node?.GetValue<int>()`: null propagates; anything but a number in `int` range throws. */
  function IntValue(node: Option<Json>): Result<Option<int32>, Error>
  {
    match node
    case None => Success(None)
    case Some(JNumber(n)) => if -0x8000_0000 <= n < 0x8000_0000 then Success(Some(n as int32)) else Failure(MalformedJson)
    case Some(_) => Failure(MalformedJson)
  }

  /** `node?.GetValue<string>()`: null propagates; anything but a string throws. */
  function StringValue(node: Option<Json>): Result<Option<string>, Error>
  {
    match node
    case None => Success(None)
    case Some(JString(s)) => Success(Some(s))
    case Some(_) => Failure(MalformedJson)
  }

  /**
   * `doc?["error_code"]?.GetValue<int>() ?? 0`: a document without an error code
   * reports success.
   */
  function ErrorCode(doc: Option<Json>): (r: Result<int32, Error>)
    ensures doc == None ==> r == Success(0)
    ensures doc.Some? && doc.value.JObject? && "error_code" !in doc.value.members ==> r == Success(0)
    ensures r.Success? && r.value != 0 ==>
              doc.Some? && doc.value.JObject? && "error_code" in doc.value.members
              && doc.value.members["error_code"] == JNumber(r.value)
    ensures forall n: int32 ::
              (doc.Some? && doc.value.JObject? && "error_code" in doc.value.members
               && doc.value.members["error_code"] == JNumber(n)) ==> r == Success(n)
  {
    var node :- Index(doc, "error_code");
    var code :- IntValue(node);
    Success(code.GetOr(0))
  }
}
