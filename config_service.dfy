/**
 * The command-line tool's configuration store: saved credentials and the inventory of
 * known devices, each kept in its own JSON file. The files are fields of the service;
 * reading and writing them is replacing the field.
 */
module Config {
  import opened Wrappers
  import opened Text

  /** A known device, as stored in the inventory. Timestamps are opaque ticks. */
  datatype DeviceConfig = DeviceConfig(name: string, ipAddress: string, model: Option<string>,
                                       added: int, lastSeen: Option<int>)

  /** Saved credentials. */
  datatype AuthConfig = AuthConfig(username: string, password: string, isEncrypted: bool)

  /** A configuration file: absent, or present holding a document that may be the JSON literal null. */
  datatype Stored<T> = Missing | Present(document: Option<T>)

  /** `StringComparison.OrdinalIgnoreCase`, on ASCII letters. */
  predicate EqualsIgnoreCase(a: string, b: string)
  {
    ToLowerInvariant(a) == ToLowerInvariant(b)
  }

  /** The query of find and remove: the IP address or the name equals it, ignoring case. */
  predicate Matches(d: DeviceConfig, ipOrName: string)
  {
    EqualsIgnoreCase(d.ipAddress, ipOrName) || EqualsIgnoreCase(d.name, ipOrName)
  }

  /** The clash test of add: the same IP address or the same name, ignoring case. */
  predicate Clashes(d: DeviceConfig, device: DeviceConfig)
  {
    EqualsIgnoreCase(d.ipAddress, device.ipAddress) || EqualsIgnoreCase(d.name, device.name)
  }

  /** `List<T>.RemoveAll(drop)`: the entries `drop` rejects are removed, the others keep their order. */
  function RemoveAll(devices: seq<DeviceConfig>, drop: DeviceConfig -> bool): (kept: seq<DeviceConfig>)
    ensures |kept| <= |devices|
    ensures forall i :: 0 <= i < |kept| ==> kept[i] in devices && !drop(kept[i])
    decreases |devices|
  {
    if |devices| == 0 then []
    else if drop(devices[0]) then RemoveAll(devices[1..], drop)
    else [devices[0]] + RemoveAll(devices[1..], drop)
  }

  /** How many entries `drop` rejects. */
  function Count(devices: seq<DeviceConfig>, drop: DeviceConfig -> bool): nat
    decreases |devices|
  {
    if |devices| == 0 then 0
    else (if drop(devices[0]) then 1 else 0) + Count(devices[1..], drop)
  }

  /** Removal works piece by piece: the survivors of a list are the survivors of its parts, in order. */
  lemma {:induction false} RemoveAllConcat(a: seq<DeviceConfig>, b: seq<DeviceConfig>, drop: DeviceConfig -> bool)
    ensures RemoveAll(a + b, drop) == RemoveAll(a, drop) + RemoveAll(b, drop)
    decreases |a|
  {
    if |a| > 0 {
      assert (a + b)[1..] == a[1..] + b;
      RemoveAllConcat(a[1..], b, drop);
    } else {
      assert a + b == b;
    }
  }

  /** Every entry that `drop` accepts survives, and exactly the rejected ones are gone. */
  lemma {:induction false} RemoveAllKeeps(devices: seq<DeviceConfig>, drop: DeviceConfig -> bool)
    ensures |RemoveAll(devices, drop)| == |devices| - Count(devices, drop)
    ensures forall d :: d in devices && !drop(d) ==> d in RemoveAll(devices, drop)
    decreases |devices|
  {
    if |devices| > 0 {
      RemoveAllKeeps(devices[1..], drop);
      forall d | d in devices && !drop(d)
        ensures d in RemoveAll(devices, drop)
      {
        if d != devices[0] {
          assert d in devices[1..];
        }
      }
    }
  }

  /** A list with nothing to remove is left as it is. */
  lemma {:induction false} RemoveAllNothing(devices: seq<DeviceConfig>, drop: DeviceConfig -> bool)
    requires forall i :: 0 <= i < |devices| ==> !drop(devices[i])
    ensures RemoveAll(devices, drop) == devices
    decreases |devices|
  {
    if |devices| > 0 {
      RemoveAllNothing(devices[1..], drop);
    }
  }

  /** The inventory after `AddDeviceAsync(device)`: clashing entries removed, the device appended. */
  function Upsert(devices: seq<DeviceConfig>, device: DeviceConfig): seq<DeviceConfig>
  {
    RemoveAll(devices, d => Clashes(d, device)) + [device]
  }

  /** The inventory after `RemoveDeviceAsync(ipOrName)`. */
  function Without(devices: seq<DeviceConfig>, ipOrName: string): seq<DeviceConfig>
  {
    RemoveAll(devices, d => Matches(d, ipOrName))
  }

  /** The added device is last; no other entry shares its IP or its name; the others kept their order. */
  lemma UpsertProperties(devices: seq<DeviceConfig>, device: DeviceConfig)
    ensures var r := Upsert(devices, device);
            && |r| > 0 && r[|r| - 1] == device
            && (forall i :: 0 <= i < |r| - 1 ==> !Clashes(r[i], device))
            && r[..|r| - 1] == RemoveAll(devices, d => Clashes(d, device))
            && |r| == |devices| - Count(devices, d => Clashes(d, device)) + 1
            && (forall d :: d in devices && !Clashes(d, device) ==> d in r)
  {
    var drop := d => Clashes(d, device);
    var r := Upsert(devices, device);
    RemoveAllKeeps(devices, drop);
    assert r[..|r| - 1] == RemoveAll(devices, drop);
  }

  /** Adding a device whose IP and name are both new only appends it. */
  lemma UpsertOfNewDevice(devices: seq<DeviceConfig>, device: DeviceConfig)
    requires forall i :: 0 <= i < |devices| ==> !Clashes(devices[i], device)
    ensures Upsert(devices, device) == devices + [device]
  {
    RemoveAllNothing(devices, d => Clashes(d, device));
  }

  /** After removal nothing answers to the query; everything else stays, in order. */
  lemma WithoutProperties(devices: seq<DeviceConfig>, ipOrName: string)
    ensures var r := Without(devices, ipOrName);
            && (forall i :: 0 <= i < |r| ==> !Matches(r[i], ipOrName))
            && |r| == |devices| - Count(devices, d => Matches(d, ipOrName))
            && (forall d :: d in devices && !Matches(d, ipOrName) ==> d in r)
  {
    RemoveAllKeeps(devices, d => Matches(d, ipOrName));
  }

  /** The inventory a devices file loads as: a missing file or a null document is the empty list. */
  function LoadedDevices(file: Stored<seq<DeviceConfig>>): seq<DeviceConfig>
  {
    if file.Present? && file.document.Some? then file.document.value else []
  }

  class ConfigService {
    var authFile: Stored<AuthConfig>
    var devicesFile: Stored<seq<DeviceConfig>>

    /** The service over the files as they are found; creating the directory is not modelled. */
    constructor (authFile: Stored<AuthConfig>, devicesFile: Stored<seq<DeviceConfig>>)
      ensures this.authFile == authFile && this.devicesFile == devicesFile
    {
      this.authFile := authFile;
      this.devicesFile := devicesFile;
    }

    /** `SaveAuthConfigAsync`: the auth file now holds the configuration. */
    method SaveAuthConfig(config: AuthConfig)
      modifies this`authFile
      ensures authFile == Present(Some(config))
    {
      authFile := Present(Some(config));
    }

    /** `LoadAuthConfigAsync`: no file gives null; otherwise the stored document. */
    method LoadAuthConfig() returns (config: Option<AuthConfig>)
      ensures authFile.Missing? ==> config == None
      ensures authFile.Present? ==> config == authFile.document
    {
      if authFile.Missing? {
        return None;
      }
      config := authFile.document;
    }

    /** `LoadDevicesAsync`: no file, or a null document, gives an empty list. */
    method LoadDevices() returns (devices: seq<DeviceConfig>)
      ensures devicesFile.Missing? ==> devices == []
      ensures devicesFile == Present(None) ==> devices == []
      ensures devicesFile.Present? && devicesFile.document.Some? ==> devices == devicesFile.document.value
    {
      if devicesFile.Missing? {
        return [];
      }
      match devicesFile.document
      case None => devices := [];
      case Some(list) => devices := list;
    }

    /** `SaveDevicesAsync`: the devices file now holds the list. */
    method SaveDevices(devices: seq<DeviceConfig>)
      modifies this`devicesFile
      ensures devicesFile == Present(Some(devices))
    {
      devicesFile := Present(Some(devices));
    }

    /** `FindDeviceAsync`: the first entry whose IP or name equals the query ignoring case, or null. */
    method FindDevice(ipOrName: string) returns (found: Option<DeviceConfig>)
      ensures var devices := LoadedDevices(devicesFile);
              && (found.None? <==> forall i :: 0 <= i < |devices| ==> !Matches(devices[i], ipOrName))
              && (found.Some? ==>
                    exists i :: 0 <= i < |devices| && devices[i] == found.value && Matches(devices[i], ipOrName)
                                && forall j :: 0 <= j < i ==> !Matches(devices[j], ipOrName))
    {
      var devices := LoadDevices();
      var i := 0;
      while i < |devices|
        invariant 0 <= i <= |devices|
        invariant forall j :: 0 <= j < i ==> !Matches(devices[j], ipOrName)
      {
        if Matches(devices[i], ipOrName) {
          return Some(devices[i]);
        }
        i := i + 1;
      }
      return None;
    }

    /** `AddDeviceAsync`: load, drop every entry sharing the IP or the name, append, save. */
    method AddDevice(device: DeviceConfig)
      modifies this`devicesFile
      ensures devicesFile == Present(Some(Upsert(LoadedDevices(old(devicesFile)), device)))
    {
      var devices := LoadDevices();
      devices := RemoveAll(devices, d => Clashes(d, device));
      devices := devices + [device];
      SaveDevices(devices);
    }

    /** `RemoveDeviceAsync`: load, drop every entry answering to the query, save. */
    method RemoveDevice(ipOrName: string)
      modifies this`devicesFile
      ensures devicesFile == Present(Some(Without(LoadedDevices(old(devicesFile)), ipOrName)))
    {
      var devices := LoadDevices();
      devices := RemoveAll(devices, d => Matches(d, ipOrName));
      SaveDevices(devices);
    }
  }

  /** A saved inventory loads back unchanged, and a device added is found again by its IP address. */
  lemma SavedDevicesLoadBack(devices: seq<DeviceConfig>, device: DeviceConfig)
    ensures LoadedDevices(Present(Some(devices))) == devices
    ensures var r := LoadedDevices(Present(Some(Upsert(devices, device))));
            exists i :: 0 <= i < |r| && Matches(r[i], device.ipAddress)
  {
    var r := Upsert(devices, device);
    UpsertProperties(devices, device);
    assert LoadedDevices(Present(Some(r))) == r;
    assert Matches(r[|r| - 1], device.ipAddress);
  }
}
