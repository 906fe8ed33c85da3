/**
 * Device discovery: choosing the peripheral to connect to from the devices
 * a scan reported, by advertised name or by advertised service.
 */
module Discovery {
  import opened Options
  import opened Text
  import opened Endpoints

  /** One scan result: the advertised name, if any, the address, and the advertised service identifiers (empty when none were advertised). */
  datatype Device = Device(name: Option<string>, address: string, advertised: seq<string>)

  /** The device chosen, and whether it matched by name (otherwise by service). */
  datatype Found = Found(device: Device, byName: bool)

  const DEVICE_NAME: string := "NocturneCompanion"

  /** `device.name and "NocturneCompanion" in device.name`. */
  predicate NameMatches(d: Device) {
    d.name.Some? && d.name.value != [] && Contains(d.name.value, DEVICE_NAME)
  }

  /** `SERVICE_UUID.lower() in [uuid.lower() for uuid in uuids]`. */
  predicate ServiceMatches(d: Device) {
    exists k :: 0 <= k < |d.advertised| && Lower(d.advertised[k]) == Lower(SERVICE_UUID)
  }

  predicate Matches(d: Device) {
    NameMatches(d) || ServiceMatches(d)
  }

  /** The device the scan loop returns: the first that matches, checked by name before service. */
  function FirstMatch(devices: seq<Device>): Option<Found> {
    if devices == [] then None
    else if NameMatches(devices[0]) then Some(Found(devices[0], true))
    else if ServiceMatches(devices[0]) then Some(Found(devices[0], false))
    else FirstMatch(devices[1..])
  }

  /** `find_device`, over the devices one scan reported. */
  method FindDevice(devices: seq<Device>) returns (found: Option<Found>)
    ensures found == FirstMatch(devices)
  {
    var i := 0;
    while i < |devices|
      invariant 0 <= i <= |devices|
      invariant FirstMatch(devices) == FirstMatch(devices[i..])
    {
      var device := devices[i];
      if NameMatches(device) {
        return Some(Found(device, true));
      }
      if ServiceMatches(device) {
        return Some(Found(device, false));
      }
      assert devices[i..][1..] == devices[i + 1..];
      i := i + 1;
    }
    return None;
  }

  // ---------------------------------------------------------------------
  // Properties
  // ---------------------------------------------------------------------

  /**
   * The choice is the first matching device and it is reported as found by
   * name exactly when its name matches; no device is chosen only when none
   * matches.
   */
  lemma {:induction false} FirstMatchIsFirst(devices: seq<Device>)
    ensures FirstMatch(devices).None? <==> forall i :: 0 <= i < |devices| ==> !Matches(devices[i])
    ensures var r := FirstMatch(devices);
            r.Some? ==>
              && (r.value.byName <==> NameMatches(r.value.device))
              && exists i :: && 0 <= i < |devices| && devices[i] == r.value.device && Matches(devices[i])
                             && forall j :: 0 <= j < i ==> !Matches(devices[j])
  {
    if devices != [] && !Matches(devices[0]) {
      var tail := devices[1..];
      FirstMatchIsFirst(tail);
      assert forall i :: 0 < i < |devices| ==> devices[i] == tail[i - 1];
      var r := FirstMatch(tail);
      if r.Some? {
        var i :| && 0 <= i < |tail| && tail[i] == r.value.device && Matches(tail[i])
                 && forall j :: 0 <= j < i ==> !Matches(tail[j]);
        assert devices[i + 1] == r.value.device;
      }
    } else if devices != [] {
      assert devices[0] == FirstMatch(devices).value.device;
    }
  }

  /** Any name with `NocturneCompanion` inside it matches, wherever it occurs. */
  lemma NameWithDeviceName(pre: string, post: string, address: string, advertised: seq<string>)
    ensures NameMatches(Device(Some(pre + DEVICE_NAME + post), address, advertised))
  {
    var name := pre + DEVICE_NAME + post;
    assert OccursAt(name, DEVICE_NAME, |pre|) by {
      assert name[|pre|..|pre| + |DEVICE_NAME|] == DEVICE_NAME;
    }
    ContainsAt(name, DEVICE_NAME);
  }

  /** A device that advertises the service matches whatever its name, with the identifier in either case. */
  lemma AdvertisedService(d: Device, k: nat)
    requires k < |d.advertised| && Lower(d.advertised[k]) == Lower(SERVICE_UUID)
    ensures Matches(d) && (FirstMatch([d]) == Some(Found(d, NameMatches(d))))
  {
  }

  /** A nameless device that advertises nothing never matches. */
  lemma AnonymousDeviceSkipped(address: string, rest: seq<Device>)
    ensures FirstMatch([Device(None, address, [])] + rest) == FirstMatch(rest)
  {
    assert ([Device(None, address, [])] + rest)[1..] == rest;
  }

  /** A scan result list with a matching device first picks that device, whatever follows. */
  lemma FirstMatchWins(d: Device, rest: seq<Device>)
    requires Matches(d)
    ensures FirstMatch([d] + rest) == Some(Found(d, NameMatches(d)))
  {
  }
}
