# Tapo client core, modelled in Dafny

This project models the protocol core of a C# client for TP-Link Tapo smart plugs (P100/P105):

- the **KLAP** session: the two-step handshake that proves both sides know
  `SHA-256(SHA-1(username) ‖ SHA-1(password))`, the key, IV base, signature key and
  initial sequence number derived from the seeds, and the encrypted request/response
  frames numbered by a 32-bit sequence counter;
- the older **Passthrough** session: an RSA handshake that yields a fixed AES key and IV,
  a login that yields a token, and commands wrapped in a `securePassthrough` envelope;
- the **TapoProtocol** facade, whose handler slot must be filled by a login before any
  device command, and the **P100PlugHandler** that turns a plug on and off through it;
- the command-line tool's **ConfigService** inventory: find, add (replacing any entry with
  the same IP address or name) and remove devices, ignoring case.

Crypto, Base64, UTF-8 and JSON are library calls in the original. Here they are the fields of a
`Platform.Primitives` record. The ghost predicate `Platform.Valid` states what the client
relies on:

- SHA-1 gives 20 bytes and SHA-256 gives 32;
- AES-CBC decryption undoes encryption under a 16-byte key and IV;
- Base64 decoding undoes encoding, and the encoding uses only the Base64 alphabet;
- parsing a serialized JSON document gives the document back.

HTTP is an oracle `http: Request -> Response` passed to each operation. Every operation
also returns the list of requests it posted, so "handshake2 is never sent" can be stated.
The random local seed, the RSA key pair and the terminal UUID are parameters.

Files and modules:

| file | module | models |
|---|---|---|
| wrappers.dfy | Wrappers | `Option` and `Result` (a thrown exception is a `Failure`) |
| binary.dfy | Binary | bytes, C# `int` wrap-around, big-endian conversion |
| text.dfy | Text | `String.Replace`, `ToLowerInvariant`, decimal formatting |
| platform.dfy | Platform | library primitives, JSON values and node access, HTTP values, errors |
| klap_cipher.dfy | KlapCrypto | `KlapCipher` |
| cookies.dfy | Cookies | the `TP_SESSIONID` cookie extraction shared by both handlers |
| klap_handler.dfy | Klap | `KlapProtocolHandler` |
| passthrough.dfy | Passthrough | `PassthroughProtocolHandler`, `TpLinkCipher` |
| tapo_protocol.dfy | Tapo | `TapoProtocol` |
| p100_plug.dfy | P100 | `P100PlugHandler` |
| config_service.dfy | Config | `ConfigService` and the device/auth records |

Where the code state changes step by step, the model is a class:

- `KlapCipher` has a mutable sequence number.
- The two protocol handlers have session fields.
- `TapoProtocol` has a handler slot.
- `ConfigService` has the two configuration files.

Each state-changing method is tied to a pure specification function of the inputs and the old
state: `LoginSpec`, `ResponseOutcome`, `HandshakeOutcome`, `LoginOutcome`, `CommandOutcome`,
`Upsert` and `Without`. The lemmas state the promised properties about those functions.

Notes on how the code is followed:

- Protocol discovery is hard-wired to KLAP; the component negotiation that would choose
  Passthrough is commented out. So `TapoProtocol`'s slot holds a `KlapProtocolHandler`, and
  the Passthrough handler is modelled on its own.
- The 32-byte signature at the front of a KLAP response is never checked by the code; the
  model drops it unverified too (`Klap.ResponseSignatureIgnored`).
- The Passthrough handler never checks the HTTP status of its responses; neither does the model.
- `String.Replace` is one left-to-right pass over non-overlapping occurrences
  (`Text.ReplaceAll`).
- `StartsWith("TP_SESSIONID")` is culture-sensitive in .NET and is modelled as an ordinal prefix.
- `StringComparison.OrdinalIgnoreCase` is modelled as ASCII case folding.
- `CombineArrays` appears identically in `KlapCipher.cs` and `KlapProtocolHandler.cs`; it is
  defined once here (`KlapCrypto.CombineArrays`).

## Model

| member | source | states |
|---|---|---|
| Binary.Increment | TapoCSharp/KlapCipher.cs:34 | `_sequence++` in an unchecked context: the 32-bit wrap of `x + 1`, equal to `x + 1` below `int.MaxValue` |
| Binary.IncrementNWraps | TapoCSharp/KlapCipher.cs:34 | n encryptions advance the counter to the 32-bit wrap of `old + n` |
| Binary.IncrementNNoOverflow | TapoCSharp/KlapCipher.cs:34 | without overflow, n encryptions advance the counter by exactly n: no gaps and no repeats |
| Binary.FromToBigEndian | TapoCSharp/KlapCipher.cs:36-38 | reading back the big-endian bytes of a sequence number gives the number |
| Binary.ToFromBigEndian | TapoCSharp/KlapCipher.cs:102-105 | four digest bytes read as a big-endian `int` and written back are the same bytes |
| Binary.ToBigEndianInjective | TapoCSharp/KlapCipher.cs:36-38 | different sequence numbers have different big-endian bytes |
| Text.IntToStringInjective | TapoCSharp/KlapProtocolHandler.cs:194 | the decimal form of an `int` determines it |
| Text.ReplaceAll | TapoCSharp/PassthroughProtocolHandler.cs:33-37 | `String.Replace` with an empty replacement, as in the PEM stripping, never makes the text longer |
| Text.ReplaceAbsent | TapoCSharp/PassthroughProtocolHandler.cs:290 | a text that contains the first character of the pattern nowhere is left unchanged by `Replace` |
| Text.DeleteCharRemovesIt | TapoCSharp/PassthroughProtocolHandler.cs:36-37 | deleting a character with `Replace` leaves none of it |
| Platform.ErrorCode | TapoCSharp/KlapProtocolHandler.cs:224 | `error_code` reads as 0 when the document or the member is missing; a nonzero code is the document's numeric member |
| Platform.Index | TapoCSharp/KlapProtocolHandler.cs:232 | `node?["key"]` fails exactly when the node is present and not an object; a non-null result comes from a member the object has |
| KlapCrypto.CombineArrays | TapoCSharp/KlapCipher.cs:176-189 | the copying loop returns the concatenation of its inputs, and its length is the sum of theirs |
| KlapCrypto.ConcatLength | TapoCSharp/KlapCipher.cs:178 | the concatenation is as long as the sum of the input lengths |
| KlapCrypto.DeriveKey | TapoCSharp/KlapCipher.cs:79-86 | the key is 16 bytes, the front of SHA-256("lsk" ‖ localHash) |
| KlapCrypto.DeriveIV | TapoCSharp/KlapCipher.cs:93-108 | the IV base is the first 12 digest bytes of SHA-256("iv" ‖ localHash); the initial sequence's big-endian bytes are digest bytes 28..32 |
| KlapCrypto.DeriveSignature | TapoCSharp/KlapCipher.cs:114-121 | the signature key is 28 bytes, the front of SHA-256("ldk" ‖ localHash) |
| KlapCrypto.RequestIVLayout | TapoCSharp/KlapCipher.cs:40-43 | a request IV is 16 bytes: the IV base, then the sequence number big-endian |
| KlapCrypto.RequestIVDistinct | TapoCSharp/KlapCipher.cs:40-43 | different sequence numbers give different IVs |
| KlapCrypto.BuildIV | TapoCSharp/KlapCipher.cs:41-43 | the array copies build exactly that IV |
| KlapCrypto.FrameLayout | TapoCSharp/KlapCipher.cs:48-53 | a frame is 32 + \|ct\| bytes: SHA-256(sig ‖ seqBE ‖ ct), then ct |
| KlapCrypto.FrameRoundTrip | TapoCSharp/KlapCipher.cs:61-73 | stripping 32 bytes and decrypting under the same sequence number gives the request text back |
| KlapCrypto.KlapCipher.constructor | TapoCSharp/KlapCipher.cs:16-27 | keys derived from localSeed ‖ remoteSeed ‖ authHash; a nonzero initialSequence argument wins over the derived one |
| KlapCrypto.KlapCipher.Encrypt | TapoCSharp/KlapCipher.cs:32-56 | the counter moves up by one (wrapping) and the returned frame and number use the new value |
| KlapCrypto.KlapCipher.Decrypt | TapoCSharp/KlapCipher.cs:61-73 | decrypts under the given sequence number's IV and leaves the counter alone |
| Cookies.BeforeSemicolon | TapoCSharp/KlapProtocolHandler.cs:91 | `Split(';')[0]`: a prefix with no `;`, cut exactly at the first `;` |
| Cookies.SessionCookie | TapoCSharp/KlapProtocolHandler.cs:86-93 | none iff no header starts with `TP_SESSIONID`; a found value starts with it and has no `;` |
| Cookies.SessionCookieIsFirstMatch | TapoCSharp/PassthroughProtocolHandler.cs:76-83 | the cookie is taken from the first matching header |
| Klap.AuthHash | TapoCSharp/KlapProtocolHandler.cs:38-40 | SHA-256 of SHA-1(username) ‖ SHA-1(password), 32 bytes |
| Klap.SplitHandshake1 | TapoCSharp/KlapProtocolHandler.cs:98-109 | fails with the length message iff the body is not 48 bytes; otherwise a 16-byte seed and a 32-byte hash that make up the body |
| Klap.LoginRejectsBadFraming | TapoCSharp/KlapProtocolHandler.cs:98-101 | a handshake1 body that is not 48 bytes fails the login; only handshake1 was sent |
| Klap.LoginRejectsWrongServerHash | TapoCSharp/KlapProtocolHandler.cs:46-50 | a wrong server hash fails the login with "Server hash verification failed"; handshake2 is never sent |
| Klap.LoginSucceedsIff | TapoCSharp/KlapProtocolHandler.cs:26-60 | login succeeds exactly when both statuses are successes, the body is 48 bytes and the server hash matches; handshake2 then carried SHA-256(remoteSeed ‖ localSeed ‖ authHash) and the cookie |
| Klap.KlapErrorMessage | TapoCSharp/KlapProtocolHandler.cs:248-260 | exactly the codes 0, -1002, -1003, -1008, -1501 and 9999 have their own message; every other code gets a message that starts with "Unknown error code: " |
| Klap.RequestUrlIdentifiesSequence | TapoCSharp/KlapProtocolHandler.cs:194 | the `?seq=` URL determines the sequence number |
| Klap.LoginSpec | TapoCSharp/KlapProtocolHandler.cs:26-146 | a login posts handshake1 first and at most one more request, handshake2 with the session cookie; a success sent both and yields a 16-byte remote seed; the cookie is the earlier one or the one the device set |
| Klap.ResponseOutcome | TapoCSharp/KlapProtocolHandler.cs:207-243 | a bad status is `HttpStatus`; a success needs a successful status, at least 32 bytes, a decryptable rest that parses with error_code 0, and its value is that document's result member; a device error carries its nonzero code and the table's message |
| Klap.ResponseSignatureIgnored | TapoCSharp/KlapProtocolHandler.cs:213-221 | two responses differing only in their 32-byte prefix are handled alike |
| Klap.ResponseErrorCodeRaises | TapoCSharp/KlapProtocolHandler.cs:224-230 | a nonzero error_code raises a TapoException with that code and the table's message |
| Klap.ResponseOfEchoedFrame | TapoCSharp/KlapProtocolHandler.cs:210-239 | a reply framed like the request under the same sequence number yields its result member |
| Klap.KlapProtocolHandler.Login | TapoCSharp/KlapProtocolHandler.cs:26-60 | posts and cookie as `LoginSpec`; on failure no cipher is installed; on success a new cipher holds the keys and sequence derived from localSeed ‖ remoteSeed ‖ authHash |
| Klap.KlapProtocolHandler.Handshake1 | TapoCSharp/KlapProtocolHandler.cs:65-110 | posts the seed; a bad status fails before the cookie is touched; otherwise the cookie is captured and the body split |
| Klap.KlapProtocolHandler.Handshake2 | TapoCSharp/KlapProtocolHandler.cs:115-146 | posts the client hash with the cookie; fails exactly on a bad status |
| Klap.KlapProtocolHandler.ExecuteRequest | TapoCSharp/KlapProtocolHandler.cs:186-243 | before login: "Must call LoginAsync first" and nothing sent; otherwise one frame under the next sequence number, and the response handled under that same number |
| Klap.DiscardResult | TapoCSharp/KlapProtocolHandler.cs:232-242 | the `object` case of the request: an error passes through, a null or non-string result succeeds, and the only new failure is a string result that is not itself JSON text (`MalformedJson`) |
| Klap.SetDeviceInfoRejectsBareString | TapoCSharp/KlapProtocolHandler.cs:237-240 | a set_device_info reply with error_code 0 whose result is a string such as `"ok"` still fails, because `ToString()` drops the quotes before `Deserialize<object>` |
| Klap.KlapProtocolHandler.SetDeviceInfo | TapoCSharp/KlapProtocolHandler.cs:151-163 | refused before login; otherwise one set_device_info exchange whose outcome is `DiscardResult` of the exchange's result |
| Klap.KlapProtocolHandler.GetDeviceInfo | TapoCSharp/KlapProtocolHandler.cs:168-181 | refused before login; otherwise one get_device_info exchange; a missing result is "No response received" |
| Klap.DeviceInfoOf | TapoCSharp/KlapProtocolHandler.cs:180 | `response ?? throw`: the document iff there was one, the error otherwise |
| Passthrough.StripPem | TapoCSharp/PassthroughProtocolHandler.cs:33-37 | the stripped key has no line feed and no carriage return, whatever the input |
| Passthrough.StripPemOfPemText | TapoCSharp/PassthroughProtocolHandler.cs:32-37 | for a PEM block of Base64 lines, the stripped key is exactly the lines run together |
| Passthrough.LowerHex | TapoCSharp/PassthroughProtocolHandler.cs:246 | two lower-case hex digits per byte |
| Passthrough.LowerHexRoundTrip | TapoCSharp/PassthroughProtocolHandler.cs:246 | lower-case hex reads back to its bytes |
| Passthrough.DashedHexToLowerHex | TapoCSharp/PassthroughProtocolHandler.cs:246 | `BitConverter.ToString`, dashes removed, lower-cased, is plain lower-case hex |
| Passthrough.ComputeSha1Hash | TapoCSharp/PassthroughProtocolHandler.cs:242-247 | 40 characters, all in [0-9a-f], encoding the SHA-1 of the UTF-8 text |
| Passthrough.TpLinkRoundTrip | TapoCSharp/PassthroughProtocolHandler.cs:278-306 | with one fixed key and IV, decrypting an encryption gives the text back |
| Passthrough.DecodeHandshakeKey | TapoCSharp/PassthroughProtocolHandler.cs:94-112 | a successful decode gives a 16-byte key and a 16-byte IV |
| Passthrough.DecodeHandshakeKeySplit | TapoCSharp/PassthroughProtocolHandler.cs:102-109 | a blob under 32 bytes is refused; otherwise key ‖ iv is the blob's first 32 bytes |
| Passthrough.PassthroughErrorMessage | TapoCSharp/PassthroughProtocolHandler.cs:249-261 | exactly the codes 0, -1010, -1012, -1501, 1002 and -1003 have their own message; every other code gets a message that starts with "Unknown error code: " |
| Passthrough.TpLinkCipher.Encrypt | TapoCSharp/PassthroughProtocolHandler.cs:278-291 | the CRLF removal leaves the Base64 of the AES ciphertext as it is; the text uses only the Base64 alphabet |
| Passthrough.TpLinkCipher.Decrypt | TapoCSharp/PassthroughProtocolHandler.cs:293-306 | text that is not Base64 fails with `MalformedBase64`, a bad padding with `Cryptographic`; a success is the AES decryption of the decoded bytes |
| Passthrough.Open | TapoCSharp/PassthroughProtocolHandler.cs:225-231 | a body that is not JSON fails with `MalformedJson`; an opened inner document is never the JSON null |
| Passthrough.HandshakeOutcome | TapoCSharp/PassthroughProtocolHandler.cs:61-91 | the cookie afterwards is the earlier one or the one the device set; no cookie, or no RSA key, means failure; a device error carries a nonzero code |
| Passthrough.LoginOutcome | TapoCSharp/PassthroughProtocolHandler.cs:155-172 | a token is only taken from a reply that opens with error_code 0; a device error carries a nonzero code |
| Passthrough.CommandOutcome | TapoCSharp/PassthroughProtocolHandler.cs:223-239 | a success needs a reply that opens with error_code 0; a device error carries its nonzero code and the table's message |
| Passthrough.HandshakeErrorCodeFirst | TapoCSharp/PassthroughProtocolHandler.cs:65-69 | a nonzero handshake error_code fails with that code before any key or cookie is used |
| Passthrough.HandshakeSuccessHasCookie | TapoCSharp/PassthroughProtocolHandler.cs:85-91 | a successful handshake leaves a session cookie and a 16-byte key and IV |
| Passthrough.HandshakeNeedsCookie | TapoCSharp/PassthroughProtocolHandler.cs:76-88 | with no TP_SESSIONID header and no earlier cookie, the handshake fails |
| Passthrough.CommandErrorCodeRaises | TapoCSharp/PassthroughProtocolHandler.cs:233-237 | a nonzero command error_code raises that code with the table's message |
| Passthrough.OpenOfSealedReply | TapoCSharp/PassthroughProtocolHandler.cs:225-231 | a reply whose `result.response` is the session cipher's encryption of a document opens to that document |
| Passthrough.CommandOfSealedReply | TapoCSharp/PassthroughProtocolHandler.cs:227-239 | a reply sealed with the session cipher yields its result member |
| Passthrough.PassthroughProtocolHandler.Login | TapoCSharp/PassthroughProtocolHandler.cs:26-44 | records URL and key pair, posts the stripped key; on handshake failure nothing more is sent and cipher and token are unchanged; otherwise the sealed login follows |
| Passthrough.PassthroughProtocolHandler.Handshake | TapoCSharp/PassthroughProtocolHandler.cs:46-92 | the cookie and cipher afterwards, and the error, as `HandshakeOutcome` says |
| Passthrough.PassthroughProtocolHandler.LoginWithCredentials | TapoCSharp/PassthroughProtocolHandler.cs:114-173 | without cipher, cookie or URL: "Handshake must be completed first" and nothing sent; a failed login leaves the token unchanged; success stores the token |
| Passthrough.PassthroughProtocolHandler.ExecuteSecureCommand | TapoCSharp/PassthroughProtocolHandler.cs:197-240 | without cipher, token, cookie or URL: "Must complete login first"; otherwise one sealed post to `url?token=<token>` |
| Passthrough.PassthroughProtocolHandler.SetDeviceInfo | TapoCSharp/PassthroughProtocolHandler.cs:175-184 | one set_device_info command with the terminal UUID, succeeding iff it did |
| Passthrough.PassthroughProtocolHandler.GetDeviceInfo | TapoCSharp/PassthroughProtocolHandler.cs:186-195 | one get_device_info command; a missing result is "No device info received" |
| Tapo.TapoProtocol.DiscoverProtocol | TapoCSharp/TapoProtocol.cs:37-40 | always a new KLAP handler with no session |
| Tapo.TapoProtocol.Login | TapoCSharp/TapoProtocol.cs:25-32 | the slot holds a new handler even when its login fails; that handler's login is `LoginSpec` with no earlier cookie |
| Tapo.TapoProtocol.SetDeviceInfo | TapoCSharp/TapoProtocol.cs:83-89 | empty slot: "Must call LoginAsync first" and nothing sent; otherwise exactly the handler's exchange, with the outcome `DiscardResult` of its result |
| Tapo.TapoProtocol.GetDeviceInfo | TapoCSharp/TapoProtocol.cs:94-100 | empty slot: the same error; otherwise the handler's result unchanged |
| P100.AppUrl | TapoCSharp/P100PlugHandler.cs:31 | `http://`, then the IP address, then `/app` |
| P100.PowerStateNamesState | TapoCSharp/P100PlugHandler.cs:39-49 | on and off send different documents, each with `device_on` set to its state |
| P100.P100PlugHandler.Login | TapoCSharp/P100PlugHandler.cs:29-32 | a protocol login at the plug's app URL with the stored credentials |
| P100.P100PlugHandler.SetPower | TapoCSharp/P100PlugHandler.cs:37-50 | the handler's cookie, URL and cipher object are kept; refused when not logged in; a plug logged in before the call makes one set_device_info exchange with `device_on` set to the state, and the outcome is `DiscardResult` of its result |
| P100.P100PlugHandler.On | TapoCSharp/P100PlugHandler.cs:37-41 | as `SetPower` with `device_on` true: the session kept, the same refusal, and for a logged-in plug one exchange whose outcome, errors included, is the command's |
| P100.P100PlugHandler.Off | TapoCSharp/P100PlugHandler.cs:46-50 | as `SetPower` with `device_on` false: the session kept, the same refusal, and for a logged-in plug one exchange |
| P100.P100PlugHandler.GetDeviceInfo | TapoCSharp/P100PlugHandler.cs:56-59 | the session kept; refused when not logged in; for a logged-in plug one get_device_info exchange whose document is returned unchanged |
| P100.P100PlugHandler.RefreshSession | TapoCSharp/P100PlugHandler.cs:64-67 | exactly the initial login again, with a new handler |
| Config.RemoveAll | TapoCSharp.Cli/Services/ConfigService.cs:85-87 | `List.RemoveAll`: the result is no longer than the list, and every survivor is an entry of the list that the predicate does not reject |
| Config.RemoveAllConcat | TapoCSharp.Cli/Services/ConfigService.cs:85-87 | removal keeps the survivors in their original order |
| Config.RemoveAllKeeps | TapoCSharp.Cli/Services/ConfigService.cs:85-87 | every entry that does not match survives; the length drops by the number of matches |
| Config.UpsertProperties | TapoCSharp.Cli/Services/ConfigService.cs:80-91 | the added device is last; no other entry shares its IP or name; the rest are the non-clashing entries in order; length is old − matches + 1 |
| Config.UpsertOfNewDevice | TapoCSharp.Cli/Services/ConfigService.cs:85-89 | a device with a new IP and a new name is only appended |
| Config.WithoutProperties | TapoCSharp.Cli/Services/ConfigService.cs:93-101 | after removal nothing matches the query; every other entry stays |
| Config.ConfigService.SaveAuthConfig | TapoCSharp.Cli/Services/ConfigService.cs:30-40 | the auth file afterwards holds the configuration |
| Config.ConfigService.LoadAuthConfig | TapoCSharp.Cli/Services/ConfigService.cs:42-49 | a missing auth file loads as null |
| Config.ConfigService.LoadDevices | TapoCSharp.Cli/Services/ConfigService.cs:51-58 | a missing devices file, or a null document, loads as the empty list |
| Config.ConfigService.SaveDevices | TapoCSharp.Cli/Services/ConfigService.cs:60-70 | the devices file afterwards holds the list |
| Config.ConfigService.FindDevice | TapoCSharp.Cli/Services/ConfigService.cs:72-78 | null iff no entry matches; otherwise the first matching entry |
| Config.ConfigService.AddDevice | TapoCSharp.Cli/Services/ConfigService.cs:80-91 | the file afterwards holds `Upsert` of the loaded list |
| Config.ConfigService.RemoveDevice | TapoCSharp.Cli/Services/ConfigService.cs:93-101 | the file afterwards holds `Without` of the loaded list |
| Config.SavedDevicesLoadBack | TapoCSharp.Cli/Services/ConfigService.cs:60-63 | a saved list loads back unchanged, and an added device can be found by its IP address |

## Left out

- Passthrough.StripPem: "every marker occurrence is removed" is not claimed for arbitrary input. `String.Replace` makes a single pass, so deleting an inner marker can join the text around it into a new marker that stays. Exact removal is proved for PEM-shaped input (`StripPemOfPemText`).
- Klap.KlapErrorMessage, Passthrough.PassthroughErrorMessage: the contracts say which codes have their own message. The messages themselves are in the function bodies.
- SHA-1, SHA-256, AES-128-CBC with PKCS#7 padding, RSA PKCS#1 v1.5, Base64 and UTF-8 are library code. Only the properties listed under `Platform.Valid` are assumed of them.
- RSA key generation and PEM export are library code: the key pair is a parameter, with the PEM text and decryption as given values. The local seed from `RandomNumberGenerator` and `Guid.NewGuid()` are parameters too.
- JSON serialization is abstract. The wire text of a request is not modelled, only the JSON value it carries. A `GetValue<int>` on a non-integer, indexing a node that is not an object (an `InvalidOperationException` in .NET) and malformed JSON are all `MalformedJson`; every caller treats them alike as a thrown exception.
- HTTP is an oracle. Headers other than `Set-Cookie` and `Cookie` (`Accept`, `User-Agent`, content types) are not modelled. A transport exception is not modelled either: every post gets a response.
- `async`/`Task` plumbing and the `HttpClient` passed to each class are not modelled.
- `IProtocolHandler` is not modelled as an interface. The handler slot holds a KLAP handler, the only kind discovery creates. The commented-out component negotiation is unreachable code and is left out.
- The generic `ExecuteRequestAsync<T>` is modelled for the two uses it has. For `JsonNode` the result member is returned (`Klap.KlapProtocolHandler.ExecuteRequest`). For `object` the result is read back with `Deserialize<object>(result.ToString())` and then dropped (`Klap.DiscardResult`). Deserializing into another `T` is not modelled.
- `JsonNode.ToString()` on a non-string node is modelled as its serialized JSON text. Indentation is not modelled; only whether the text parses matters.
- Text.IntToString: integers in string interpolation are formatted with the current culture. The model assumes a culture whose negative sign is `-`, such as the invariant culture. This formatting is used by the `?seq=` request URL and the error messages. Under a culture with another negative sign, such as U+2212, the URL of a negative sequence number differs from the model's.
- Klap.KlapProtocolHandler.Login: the 16 random bytes of the local seed are a parameter, and its length is not checked.
- ConfigService: the configuration directory, its Unix permissions and the file paths are not modelled. The two files are fields holding their documents. Writing the JSON text, indentation and deserialization errors are not modelled.
- ConfigService: `DeviceConfig.Added` defaults to `DateTime.UtcNow` in the original. Timestamps are plain integers supplied by the caller.
- NetworkScanService, DeviceService, the command-line commands and the example program are not part of this model.
