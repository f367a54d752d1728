/**
 * `P100PlugHandler`: a P100/P105 smart plug at an IP address, driven through a
 * `TapoProtocol` with the credentials it was created with.
 */
module P100 {
  import opened Wrappers
  import opened Binary
  import opened Platform
  import opened Klap
  import opened Tapo

  /** The device endpoint for an IP address. */
  function AppUrl(ipAddress: string): (u: string)
    ensures |u| == |ipAddress| + 11
    ensures u[..7] == "http://" && u[|u| - 4..] == "/app"
    ensures u[7..|u| - 4] == ipAddress
  {
    "http://" + ipAddress + "/app"
  }

  /** The anonymous `{ device_on = on }` object. */
  function PowerState(on: bool): Json
  {
    JObject(map["device_on" := JBool(on)])
  }

  /** On and off are different commands, and each names its state. */
  lemma PowerStateNamesState(on: bool)
    ensures PowerState(on).members["device_on"] == JBool(on)
    ensures PowerState(on) != PowerState(!on)
  {
    assert PowerState(on).members["device_on"] != PowerState(!on).members["device_on"];
  }

  class P100PlugHandler {
    const username: string
    const password: string
    const ipAddress: string
    const protocol: TapoProtocol
    ghost var Repr: set<object>

    ghost predicate Valid()
      reads this, Repr
    {
      && this in Repr
      && protocol in Repr && protocol.Repr <= Repr && this !in protocol.Repr
      && protocol.Valid()
    }

    constructor (p: Primitives, username: string, password: string, ipAddress: string)
      requires Platform.Valid(p)
      ensures Valid() && fresh(Repr)
      ensures this.username == username && this.password == password && this.ipAddress == ipAddress
      ensures protocol.prims == p && protocol.handler == null
    {
      this.username := username;
      this.password := password;
      this.ipAddress := ipAddress;
      var protocol := new TapoProtocol(p);
      this.protocol := protocol;
      Repr := {this} + protocol.Repr;
    }

    /** `LoginAsync`: a protocol login at `http://<ip>/app` with the stored credentials. */
    method Login(localSeed: seq<byte>, http: Transport) returns (outcome: Result<(), Error>, sent: seq<HttpRequest>)
      requires Valid()
      modifies Repr
      ensures Valid() && fresh(Repr - old(Repr))
      ensures var h := protocol.handler;
              var t := LoginSpec(protocol.prims, AppUrl(ipAddress), username, password, localSeed, None, http);
              && h != null && fresh(h) && h.url == Some(AppUrl(ipAddress))
              && sent == t.sent && h.sessionCookie == t.cookie
              && outcome.Success? == t.outcome.Success?
              && (outcome.Failure? ==> outcome.error == t.outcome.error && h.cipher == null)
              && (outcome.Success? ==> h.KeysDerivedFrom(localSeed + t.outcome.value + AuthHash(protocol.prims, username, password)))
    {
      outcome, sent := protocol.Login(AppUrl(ipAddress), username, password, localSeed, http);
      Repr := Repr + protocol.Repr;
    }

    /** `OnAsync` and `OffAsync`: set_device_info with `device_on` set to `on`. */
    method SetPower(on: bool, http: Transport) returns (outcome: Result<(), Error>, sent: seq<HttpRequest>)
      requires Valid()
      modifies Repr
      ensures Valid() && Repr == old(Repr)
      ensures var h := protocol.handler;
              && h == old(protocol.handler)
              && (h != null ==> h.sessionCookie == old(h.sessionCookie) && h.url == old(h.url) && h.cipher == old(h.cipher))
              && (h == null || h.cipher == null || h.url == None ==> outcome == Failure(NotLoggedIn) && sent == [])
              && (h != null && h.cipher != null && h.url.Some? ==>
                    && h.cipher == old(h.cipher) && h.sessionCookie == old(h.sessionCookie)
                    && exists result :: h.Exchanged(old(h.cipher.sequence), Command("set_device_info", PowerState(on)), http, result, sent)
                                        && outcome == DiscardResult(protocol.prims, result))
    {
      outcome, sent := protocol.SetDeviceInfo(PowerState(on), http);
    }

    method On(http: Transport) returns (outcome: Result<(), Error>, sent: seq<HttpRequest>)
      requires Valid()
      modifies Repr
      ensures Valid() && Repr == old(Repr)
      ensures var h := protocol.handler;
              && h == old(protocol.handler)
              && (h != null ==> h.sessionCookie == old(h.sessionCookie) && h.url == old(h.url) && h.cipher == old(h.cipher))
              && (h == null || h.cipher == null || h.url == None ==> outcome == Failure(NotLoggedIn) && sent == [])
              && (h != null && h.cipher != null && h.url.Some? ==>
                    && h.cipher == old(h.cipher) && h.sessionCookie == old(h.sessionCookie)
                    && exists result :: h.Exchanged(old(h.cipher.sequence), Command("set_device_info", PowerState(true)), http, result, sent)
                                        && outcome == DiscardResult(protocol.prims, result))
    {
      outcome, sent := SetPower(true, http);
    }

    method Off(http: Transport) returns (outcome: Result<(), Error>, sent: seq<HttpRequest>)
      requires Valid()
      modifies Repr
      ensures Valid() && Repr == old(Repr)
      ensures var h := protocol.handler;
              && h == old(protocol.handler)
              && (h != null ==> h.sessionCookie == old(h.sessionCookie) && h.url == old(h.url) && h.cipher == old(h.cipher))
              && (h == null || h.cipher == null || h.url == None ==> outcome == Failure(NotLoggedIn) && sent == [])
              && (h != null && h.cipher != null && h.url.Some? ==>
                    && h.cipher == old(h.cipher) && h.sessionCookie == old(h.sessionCookie)
                    && exists result :: h.Exchanged(old(h.cipher.sequence), Command("set_device_info", PowerState(false)), http, result, sent)
                                        && outcome == DiscardResult(protocol.prims, result))
    {
      outcome, sent := SetPower(false, http);
    }

    /** `GetDeviceInfoAsync`: the protocol's device document, unchanged. */
    method GetDeviceInfo(http: Transport) returns (info: Result<Json, Error>, sent: seq<HttpRequest>)
      requires Valid()
      modifies Repr
      ensures Valid() && Repr == old(Repr)
      ensures var h := protocol.handler;
              && h == old(protocol.handler)
              && (h != null ==> h.sessionCookie == old(h.sessionCookie) && h.url == old(h.url) && h.cipher == old(h.cipher))
              && (h == null || h.cipher == null || h.url == None ==> info == Failure(NotLoggedIn) && sent == [])
              && (h != null && h.cipher != null && h.url.Some? ==>
                    && h.cipher == old(h.cipher)
                    && exists result :: h.Exchanged(old(h.cipher.sequence), Command("get_device_info", JObject(map[])), http, result, sent)
                                        && info == DeviceInfoOf(result))
    {
      info, sent := protocol.GetDeviceInfo(http);
    }

    /** `RefreshSessionAsync`: the same login again, with a new handler and a new session. */
    method RefreshSession(localSeed: seq<byte>, http: Transport) returns (outcome: Result<(), Error>, sent: seq<HttpRequest>)
      requires Valid()
      modifies Repr
      ensures Valid() && fresh(Repr - old(Repr))
      ensures var h := protocol.handler;
              var t := LoginSpec(protocol.prims, AppUrl(ipAddress), username, password, localSeed, None, http);
              && h != null && fresh(h) && h.url == Some(AppUrl(ipAddress))
              && sent == t.sent && h.sessionCookie == t.cookie
              && outcome.Success? == t.outcome.Success?
              && (outcome.Failure? ==> outcome.error == t.outcome.error && h.cipher == null)
              && (outcome.Success? ==> h.KeysDerivedFrom(localSeed + t.outcome.value + AuthHash(protocol.prims, username, password)))
    {
      outcome, sent := Login(localSeed, http);
    }
  }
}
