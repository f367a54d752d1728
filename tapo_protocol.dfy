/**
 * `TapoProtocol`: holds the protocol handler chosen at login and forwards device
 * commands to it. Protocol discovery always chooses KLAP.
 */
module Tapo {
  import opened Wrappers
  import opened Binary
  import opened Platform
  import opened Klap

  class TapoProtocol {
    const prims: Primitives
    var handler: KlapProtocolHandler?
    ghost var Repr: set<object>

    ghost predicate Valid()
      reads this, Repr
    {
      && this in Repr
      && Platform.Valid(prims)
      && (handler != null ==>
            && handler in Repr && handler.Repr <= Repr && this !in handler.Repr
            && handler.Valid() && handler.prims == prims)
    }

    constructor (p: Primitives)
      requires Platform.Valid(p)
      ensures Valid() && fresh(Repr) && prims == p && handler == null
    {
      prims := p;
      handler := null;
      Repr := {this};
    }

    /** `DiscoverProtocolAsync`: always a new KLAP handler, nothing sent to the device. */
    method DiscoverProtocol() returns (h: KlapProtocolHandler)
      requires Platform.Valid(prims)
      ensures fresh(h) && fresh(h.Repr) && h.Valid() && h.prims == prims
      ensures h.sessionCookie == None && h.url == None && h.cipher == null
    {
      h := new KlapProtocolHandler(prims);
    }

    /**
     * `LoginAsync`: the slot is filled with the discovered handler before that handler logs in,
     * so a failed login leaves a handler without a session in place. A new handler starts
     * without a session cookie.
     */
    method Login(u: string, username: string, password: string, localSeed: seq<byte>, http: Transport)
        returns (outcome: Result<(), Error>, sent: seq<HttpRequest>)
      requires Valid()
      modifies this
      ensures Valid() && fresh(Repr - old(Repr))
      ensures handler != null && fresh(handler) && handler.url == Some(u)
      ensures var t := LoginSpec(prims, u, username, password, localSeed, None, http);
              && sent == t.sent && handler.sessionCookie == t.cookie
              && outcome.Success? == t.outcome.Success?
              && (outcome.Failure? ==> outcome.error == t.outcome.error && handler.cipher == null)
              && (outcome.Success? ==> handler.KeysDerivedFrom(localSeed + t.outcome.value + AuthHash(prims, username, password)))
    {
      var h := DiscoverProtocol();
      handler := h;
      outcome, sent := h.Login(u, username, password, localSeed, http);
      Repr := Repr + h.Repr;
    }

    /** `SetDeviceInfoAsync`: refused before login, otherwise the handler's. */
    method SetDeviceInfo(deviceInfo: Json, http: Transport) returns (outcome: Result<(), Error>, sent: seq<HttpRequest>)
      requires Valid()
      modifies Repr
      ensures Valid() && Repr == old(Repr) && handler == old(handler)
      ensures handler == null ==> outcome == Failure(NotLoggedIn) && sent == []
      ensures handler != null ==>
                && handler.sessionCookie == old(handler.sessionCookie) && handler.url == old(handler.url)
                && handler.cipher == old(handler.cipher)
                && (handler.cipher == null || handler.url == None ==> outcome == Failure(NotLoggedIn) && sent == [])
                && (handler.cipher != null && handler.url.Some? ==>
                      exists result :: handler.Exchanged(old(handler.cipher.sequence), Command("set_device_info", deviceInfo), http, result, sent)
                                       && outcome == DiscardResult(prims, result))
    {
      if handler == null {
        outcome := Failure(NotLoggedIn);
        sent := [];
        return;
      }
      outcome, sent := handler.SetDeviceInfo(deviceInfo, http);
    }

    /** `GetDeviceInfoAsync`: refused before login, otherwise the handler's. */
    method GetDeviceInfo(http: Transport) returns (info: Result<Json, Error>, sent: seq<HttpRequest>)
      requires Valid()
      modifies Repr
      ensures Valid() && Repr == old(Repr) && handler == old(handler)
      ensures handler == null ==> info == Failure(NotLoggedIn) && sent == []
      ensures handler != null ==>
                && handler.sessionCookie == old(handler.sessionCookie) && handler.url == old(handler.url)
                && handler.cipher == old(handler.cipher)
                && (handler.cipher == null || handler.url == None ==> info == Failure(NotLoggedIn) && sent == [])
                && (handler.cipher != null && handler.url.Some? ==>
                      exists result :: handler.Exchanged(old(handler.cipher.sequence), Command("get_device_info", JObject(map[])), http, result, sent)
                                       && info == DeviceInfoOf(result))
    {
      if handler == null {
        info := Failure(NotLoggedIn);
        sent := [];
        return;
      }
      info, sent := handler.GetDeviceInfo(http);
    }
  }
}
