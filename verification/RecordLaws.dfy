// The device store as a case-insensitive map of maps, and what it never forgets.

module RecordLaws {
  import opened Neighbors
  import opened Options
  import opened Records

  // ----- unique keys -----

  ghost predicate UniqueDevices(devices: seq<Device>) {
    forall i, j | 0 <= i < j < |devices| :: !SameKey(devices[i].mac, devices[j].mac)
  }

  ghost predicate Unique(book: Book) {
    && (forall i, j | 0 <= i < j < |book| :: !SameKey(book[i].gatewayMac, book[j].gatewayMac))
    && (forall i | 0 <= i < |book| :: UniqueDevices(book[i].devices))
  }

  // Every device has a MAC, and its type is marked as learned exactly when it is known.
  ghost predicate ProperDevice(d: Device) {
    d.mac != "" && (d.hasType <==> d.deviceType != UnknownDevice)
  }

  ghost predicate ProperDevices(devices: seq<Device>) {
    forall j | 0 <= j < |devices| :: ProperDevice(devices[j])
  }

  ghost predicate Proper(book: Book) {
    forall i | 0 <= i < |book| :: ProperDevices(book[i].devices)
  }

  lemma {:induction false} ReplaceKeepsUnique(book: Book, i: nat, n: Network)
    requires Unique(book) && i < |book| && n.gatewayMac == book[i].gatewayMac && UniqueDevices(n.devices)
    ensures Unique(book[i := n])
  {
  }

  lemma {:induction false} EnsureNetworkKeepsUnique(book: Book, key: string)
    requires Unique(book)
    ensures Unique(EnsureNetwork(book, key))
  {
  }

  lemma {:induction false} TouchKeepsUniqueDevices(devices: seq<Device>, n: Neighbor, t: Times)
    requires UniqueDevices(devices)
    ensures UniqueDevices(TouchDevice(devices, n, t))
  {
    var ds := EnsureDevice(devices, n.mac);
    assert UniqueDevices(ds);
    FindOrAppendedDevice(devices, n.mac);
    var j := FindDevice(ds, n.mac);
    assert UpdateDevice(ds[j], n, t).mac == ds[j].mac;
  }

  lemma {:induction false} TouchNetworkKeepsUnique(book: Book, ctx: Context, t: Times)
    requires Unique(book)
    ensures Unique(TouchNetwork(book, ctx, t))
  {
    var b := EnsureNetwork(book, KeyOf(ctx));
    EnsureNetworkKeepsUnique(book, KeyOf(ctx));
    FindOrAppended(book, KeyOf(ctx));
    var i := FindNetwork(b, KeyOf(ctx));
    ReplaceKeepsUnique(b, i, UpdateNetwork(b[i], ctx, t));
  }

  // Keys stay unique at both levels under every observation.
  lemma {:induction false} ObserveKeepsUnique(book: Book, ctx: Context, n: Neighbor, t: Times)
    requires Unique(book)
    ensures Unique(Observe(book, ctx, n, t))
  {
    if n.mac != "" {
      TouchNetworkKeepsUnique(book, ctx, t);
      var b := TouchNetwork(book, ctx, t);
      var i := FindNetwork(b, KeyOf(ctx));
      TouchKeepsUniqueDevices(b[i].devices, n, t);
      ReplaceKeepsUnique(b, i, b[i].(devices := TouchDevice(b[i].devices, n, t)));
    }
  }

  lemma {:induction false} UpdateKeepsProper(d: Device, n: Neighbor, t: Times)
    requires ProperDevice(d)
    ensures ProperDevice(UpdateDevice(d, n, t))
  {
  }

  lemma {:induction false} TouchKeepsProper(devices: seq<Device>, n: Neighbor, t: Times)
    requires ProperDevices(devices) && n.mac != ""
    ensures ProperDevices(TouchDevice(devices, n, t))
  {
    var ds := EnsureDevice(devices, n.mac);
    FindOrAppendedDevice(devices, n.mac);
    var j := FindDevice(ds, n.mac);
    assert ProperDevice(NewDevice(n.mac));
    assert ProperDevices(ds);
    UpdateKeepsProper(ds[j], n, t);
  }

  lemma {:induction false} ReplaceKeepsProper(book: Book, i: nat, n: Network)
    requires Proper(book) && i < |book| && ProperDevices(n.devices)
    ensures Proper(book[i := n])
  {
  }

  lemma {:induction false} EnsureNetworkKeepsProper(book: Book, key: string)
    requires Proper(book)
    ensures Proper(EnsureNetwork(book, key))
  {
  }

  lemma {:induction false} TouchNetworkKeepsProper(book: Book, ctx: Context, t: Times)
    requires Proper(book)
    ensures Proper(TouchNetwork(book, ctx, t))
  {
    var b := EnsureNetwork(book, KeyOf(ctx));
    EnsureNetworkKeepsProper(book, KeyOf(ctx));
    FindOrAppended(book, KeyOf(ctx));
    var i := FindNetwork(b, KeyOf(ctx));
    ReplaceKeepsProper(b, i, UpdateNetwork(b[i], ctx, t));
  }

  lemma {:induction false} ObserveKeepsProper(book: Book, ctx: Context, n: Neighbor, t: Times)
    requires Proper(book)
    ensures Proper(Observe(book, ctx, n, t))
  {
    if n.mac != "" {
      TouchNetworkKeepsProper(book, ctx, t);
      var b := TouchNetwork(book, ctx, t);
      var i := FindNetwork(b, KeyOf(ctx));
      TouchKeepsProper(b[i].devices, n, t);
      ReplaceKeepsProper(b, i, b[i].(devices := TouchDevice(b[i].devices, n, t)));
    }
  }

  // ----- a map of maps -----

  lemma {:induction false} FindSameKey(book: Book, a: string, b: string)
    requires SameKey(a, b)
    ensures FindNetwork(book, a) == FindNetwork(book, b)
  {
  }

  lemma {:induction false} FindSameMac(devices: seq<Device>, a: string, b: string)
    requires SameKey(a, b)
    ensures FindDevice(devices, a) == FindDevice(devices, b)
  {
  }

  function DeviceAt(devices: seq<Device>, mac: string): Option<Device> {
    var j := FindDevice(devices, mac);
    if j < 0 then None else Some(devices[j])
  }

  function DevicesOf(book: Book, key: string): seq<Device> {
    var i := FindNetwork(book, key);
    if i < 0 then [] else book[i].devices
  }

  // The record an observation starts from.
  function Base(found: Option<Device>, mac: string): Device {
    if found.Some? then found.value else NewDevice(mac)
  }

  lemma {:induction false} TouchDeviceIsUpdate(devices: seq<Device>, n: Neighbor, t: Times, mac: string)
    ensures DeviceAt(TouchDevice(devices, n, t), mac)
         == if SameKey(mac, n.mac) then Some(UpdateDevice(Base(DeviceAt(devices, n.mac), n.mac), n, t))
            else DeviceAt(devices, mac)
  {
    var ds := EnsureDevice(devices, n.mac);
    FindOrAppendedDevice(devices, n.mac);
    var j := FindDevice(ds, n.mac);
    SameMac(ds, j, UpdateDevice(ds[j], n, t), mac);
    if SameKey(mac, n.mac) {
      FindSameMac(ds, mac, n.mac);
    } else {
      EnsureKeepsOthers(devices, n.mac, mac);
      var k := FindDevice(ds, mac);
      assert k >= 0 ==> k != j;
    }
  }

  lemma {:induction false} EnsureKeepsOthers(devices: seq<Device>, mac: string, other: string)
    requires !SameKey(other, mac)
    ensures FindDevice(EnsureDevice(devices, mac), other) == FindDevice(devices, other)
  {
    if FindDevice(devices, mac) < 0 {
      assert (devices + [NewDevice(mac)])[..|devices|] == devices;
    }
  }

  lemma {:induction false} EnsureNetworkKeepsDevices(book: Book, key: string, other: string)
    ensures DevicesOf(EnsureNetwork(book, key), other) == DevicesOf(book, other)
  {
    if FindNetwork(book, key) < 0 {
      assert (book + [NewNetwork(key)])[..|book|] == book;
    }
  }

  lemma {:induction false} TouchNetworkKeepsDevices(book: Book, ctx: Context, t: Times, key: string)
    ensures DevicesOf(TouchNetwork(book, ctx, t), key) == DevicesOf(book, key)
  {
    var b := EnsureNetwork(book, KeyOf(ctx));
    EnsureNetworkKeepsDevices(book, KeyOf(ctx), key);
    FindOrAppended(book, KeyOf(ctx));
    var i := FindNetwork(b, KeyOf(ctx));
    SameGateway(b, i, UpdateNetwork(b[i], ctx, t), key);
  }

  lemma {:induction false} PutDevicesUnder(book: Book, at: string, devices: seq<Device>, key: string)
    requires FindNetwork(book, at) >= 0
    ensures var i := FindNetwork(book, at);
            DevicesOf(book[i := book[i].(devices := devices)], key)
            == if SameKey(key, at) then devices else DevicesOf(book, key)
  {
    var i := FindNetwork(book, at);
    SameGateway(book, i, book[i].(devices := devices), key);
    if SameKey(key, at) {
      FindSameKey(book, key, at);
    } else {
      var k := FindNetwork(book, key);
      assert k >= 0 ==> k != i;
    }
  }

  lemma {:induction false} ObserveDevices(book: Book, ctx: Context, n: Neighbor, t: Times, key: string)
    requires n.mac != ""
    ensures DevicesOf(Observe(book, ctx, n, t), key)
         == if SameKey(key, KeyOf(ctx)) then TouchDevice(DevicesOf(book, KeyOf(ctx)), n, t) else DevicesOf(book, key)
  {
    var b := TouchNetwork(book, ctx, t);
    TouchNetworkKeepsDevices(book, ctx, t, key);
    TouchNetworkKeepsDevices(book, ctx, t, KeyOf(ctx));
    var i := FindNetwork(b, KeyOf(ctx));
    PutDevicesUnder(b, KeyOf(ctx), TouchDevice(b[i].devices, n, t), key);
  }

  // Observing is a point update of a map from gateway and MAC, both without regard to case, to a
  // record: the observed entry becomes the updated old (or new) record, every other entry stays.
  lemma {:induction false} ObserveIsPointUpdate(book: Book, ctx: Context, n: Neighbor, t: Times, key: string,
                                                mac: string)
    requires n.mac != ""
    ensures DeviceIn(Observe(book, ctx, n, t), key, mac)
         == if SameKey(key, KeyOf(ctx)) && SameKey(mac, n.mac)
            then Some(UpdateDevice(Base(DeviceIn(book, KeyOf(ctx), n.mac), n.mac), n, t))
            else DeviceIn(book, key, mac)
  {
    var now := Observe(book, ctx, n, t);
    LookupInTwoSteps(now, key, mac);
    LookupInTwoSteps(book, key, mac);
    LookupInTwoSteps(book, KeyOf(ctx), n.mac);
    ObserveDevices(book, ctx, n, t, key);
    if SameKey(key, KeyOf(ctx)) {
      FindSameKey(book, key, KeyOf(ctx));
      TouchDeviceIsUpdate(DevicesOf(book, KeyOf(ctx)), n, t, mac);
    }
  }

  lemma {:induction false} LookupInTwoSteps(book: Book, key: string, mac: string)
    ensures DeviceIn(book, key, mac) == DeviceAt(DevicesOf(book, key), mac)
  {
  }

  // Observing under one gateway never changes what is applied under another.
  lemma {:induction false} OtherNetworksAreUntouched(book: Book, ctx: Context, n: Neighbor, t: Times, key: string,
                                                     m: Neighbor)
    requires !SameKey(key, KeyOf(ctx))
    ensures Apply(Observe(book, ctx, n, t), key, m) == Apply(book, key, m)
  {
    if n.mac != "" { ObserveIsPointUpdate(book, ctx, n, t, key, m.mac); }
  }

  // ----- what is learned stays learned -----

  // Nothing learned about a device is lost between two states of its record.
  ghost predicate KeepsLearned(before: Option<Device>, after: Option<Device>) {
    before.Some? ==>
      && after.Some?
      && (before.value.hostname != "" ==> after.value.hostname != "")
      && (before.value.vendor != "" ==> after.value.vendor != "")
      && (before.value.hasType ==> after.value.hasType && after.value.deviceType == before.value.deviceType)
      && after.value.labelText == before.value.labelText && after.value.icon == before.value.icon
      && after.value.trusted == before.value.trusted && after.value.mac == before.value.mac
      && (before.value.firstSeen != 0 ==> after.value.firstSeen == before.value.firstSeen)
  }

  function ApplyThenObserve(book: Book, ctx: Context, n: Neighbor, t: Times): Book {
    Observe(book, ctx, Apply(book, KeyOf(ctx), n), t)
  }

  lemma {:induction false} UpdateAppliedKeepsLearned(d: Device, n: Neighbor, t: Times)
    ensures KeepsLearned(Some(d), Some(UpdateDevice(d, ApplyRecord(d, n), t)))
  {
  }

  lemma {:induction false} SameEntry(book: Book, key: string, key': string, mac: string, mac': string)
    requires SameKey(key, key') && SameKey(mac, mac')
    ensures DeviceIn(book, key, mac) == DeviceIn(book, key', mac')
  {
    FindSameKey(book, key, key');
    FindSameMac(DevicesOf(book, key), mac, mac');
  }

  // Applying before observing never blanks a learned host name or vendor, never changes a learned
  // type, and leaves the user's own settings alone, for every device of every network.
  lemma {:induction false} ApplyThenObserveKeepsLearned(book: Book, ctx: Context, n: Neighbor, t: Times, key: string,
                                                        mac: string)
    ensures KeepsLearned(DeviceIn(book, key, mac), DeviceIn(ApplyThenObserve(book, ctx, n, t), key, mac))
  {
    var applied, found := Apply(book, KeyOf(ctx), n), DeviceIn(book, KeyOf(ctx), n.mac);
    assert applied.mac == n.mac;
    if n.mac != "" {
      ObserveIsPointUpdate(book, ctx, applied, t, key, mac);
      if SameKey(key, KeyOf(ctx)) && SameKey(mac, n.mac) {
        SameEntry(book, key, KeyOf(ctx), mac, n.mac);
        if found.Some? { UpdateAppliedKeepsLearned(found.value, n, t); }
      }
    }
  }

  // Observing alone can blank: it keeps a learned name exactly when the observation carries one.
  lemma {:induction false} ObserveAloneKeepsNameIffReported(book: Book, ctx: Context, n: Neighbor, t: Times)
    requires n.mac != "" && DeviceIn(book, KeyOf(ctx), n.mac).Some?
    requires DeviceIn(book, KeyOf(ctx), n.mac).value.hostname != ""
    ensures var after := DeviceIn(Observe(book, ctx, n, t), KeyOf(ctx), n.mac);
            after.Some? && (after.value.hostname != "" <==> n.hostname != "")
  {
    ObserveIsPointUpdate(book, ctx, n, t, KeyOf(ctx), n.mac);
  }

  // ----- keys -----

  // Two keys are the same when they are equal but for the case of ASCII letters.
  predicate SameLetter(a: char, b: char) {
    a == b || ('A' <= a <= 'Z' && b as int == a as int + 32) || ('A' <= b <= 'Z' && a as int == b as int + 32)
  }

  lemma {:induction false} SameKeyIff(a: string, b: string)
    ensures SameKey(a, b) <==> |a| == |b| && forall i | 0 <= i < |a| :: SameLetter(a[i], b[i])
  {
    assert forall i | 0 <= i < |a| :: Lower(a)[i] == LowerChar(a[i]);
    assert forall i | 0 <= i < |b| :: Lower(b)[i] == LowerChar(b[i]);
    if SameKey(a, b) {
      assert |Lower(a)| == |a| && |Lower(b)| == |b|;
      forall i | 0 <= i < |a| ensures SameLetter(a[i], b[i]) {
        assert Lower(a)[i] == Lower(b)[i];
      }
    }
    if |a| == |b| && forall i | 0 <= i < |a| :: SameLetter(a[i], b[i]) {
      assert Lower(a) == Lower(b);
    }
  }

  // ----- what an observation records -----

  // A type is learned exactly when it is known and reported with a confidence of at least 80, and only
  // once: a learned type stays, whatever is reported later.
  lemma {:induction false} TypeIsLearnedOnceWhenSure(book: Book, ctx: Context, n: Neighbor, t: Times)
    requires n.mac != ""
    ensures var found := DeviceIn(book, KeyOf(ctx), n.mac);
            var now := DeviceIn(Observe(book, ctx, n, t), KeyOf(ctx), n.mac);
            && now.Some?
            && if found.Some? && found.value.hasType
               then now.value.hasType && now.value.deviceType == found.value.deviceType
               else
                 && (now.value.hasType <==> n.deviceType != UnknownDevice && n.confidence >= 80)
                 && (now.value.hasType ==> now.value.deviceType == n.deviceType)
                 && (!now.value.hasType && found.Some? ==> now.value.deviceType == found.value.deviceType)
                 && (!now.value.hasType && found.None? ==> now.value.deviceType == UnknownDevice)
  {
    ObserveIsPointUpdate(book, ctx, n, t, KeyOf(ctx), n.mac);
  }

  // The host name and the vendor are those reported, the first time of seeing is set once, the last
  // one always, and what the user has set is left alone.
  lemma {:induction false} ObservationIsStamped(book: Book, ctx: Context, n: Neighbor, t: Times)
    requires n.mac != ""
    ensures var found := DeviceIn(book, KeyOf(ctx), n.mac);
            var now := DeviceIn(Observe(book, ctx, n, t), KeyOf(ctx), n.mac);
            && now.Some? && now.value.hostname == n.hostname && now.value.vendor == n.vendor
            && now.value.lastSeen == t.deviceLast
            && (found.Some? && found.value.firstSeen != 0 ==> now.value.firstSeen == found.value.firstSeen)
            && (found.None? || found.value.firstSeen == 0 ==> now.value.firstSeen == t.deviceFirst)
            && (found.Some? ==>
                  && now.value.mac == found.value.mac && now.value.labelText == found.value.labelText
                  && now.value.icon == found.value.icon && now.value.trusted == found.value.trusted)
            && (found.None? ==>
                  now.value.mac == n.mac && now.value.labelText == now.value.icon == "" && !now.value.trusted)
  {
    ObserveIsPointUpdate(book, ctx, n, t, KeyOf(ctx), n.mac);
  }

  function NetworkIn(book: Book, key: string): Option<Network> {
    var i := FindNetwork(book, key);
    if i < 0 then None else Some(book[i])
  }

  lemma {:induction false} EnsureNetworkKeepsOthers(book: Book, key: string, other: string)
    ensures NetworkIn(EnsureNetwork(book, key), other)
         == if FindNetwork(book, key) < 0 && SameKey(other, key) then Some(NewNetwork(key)) else NetworkIn(book, other)
  {
    var b := EnsureNetwork(book, key);
    if FindNetwork(book, key) < 0 {
      assert b == book + [NewNetwork(key)] && forall j | 0 <= j < |book| :: b[j] == book[j];
      if SameKey(other, key) {
        FindSameKey(book, other, key);
        FindSameKey(b, other, key);
        FindOrAppended(book, key);
      }
    }
  }

  lemma {:induction false} PutNetwork(book: Book, at: string, n: Network, key: string)
    requires FindNetwork(book, at) >= 0 && n.gatewayMac == book[FindNetwork(book, at)].gatewayMac
    ensures NetworkIn(book[FindNetwork(book, at) := n], key)
         == if SameKey(key, at) then Some(n) else NetworkIn(book, key)
  {
    var i := FindNetwork(book, at);
    SameGateway(book, i, n, key);
    if SameKey(key, at) { FindSameKey(book, key, at); }
  }

  // An observation changes one network and no other, the unknown one without a context: its gateway
  // name and vendor and its ISP are replaced by those given with it and kept where none are given, the
  // first time is set once, the last one always.
  lemma {:induction false} NetworkLearnsFromContext(book: Book, ctx: Context, n: Neighbor, t: Times, key: string)
    requires n.mac != ""
    ensures var found, now := NetworkIn(book, key), NetworkIn(Observe(book, ctx, n, t), key);
            var at := if ctx.NoContext? then "" else ctx.gatewayMac;
            if !SameKey(key, at) then now == found
            else
              var was := if found.Some? then found.value else Network(at, "", "", NO_ISP, 0, 0, []);
              && now.Some? && now.value.gatewayMac == was.gatewayMac && now.value.lastSeen == t.networkLast
              && now.value.firstSeen == (if was.firstSeen == 0 then t.networkFirst else was.firstSeen)
              && now.value.gatewayHostname
                 == (if ctx.Context? && ctx.gatewayHostname != "" then ctx.gatewayHostname else was.gatewayHostname)
              && now.value.gatewayVendor
                 == (if ctx.Context? && ctx.gatewayVendor != "" then ctx.gatewayVendor else was.gatewayVendor)
              && now.value.isp
                 == (if ctx.Context? && ctx.isp.Some? && ctx.isp.value.isp != "" then ctx.isp.value else was.isp)
  {
    var at := KeyOf(ctx);
    var b := EnsureNetwork(book, at);
    FindOrAppended(book, at);
    EnsureNetworkKeepsOthers(book, at, key);
    EnsureNetworkKeepsOthers(book, at, at);
    var i := FindNetwork(b, at);
    PutNetwork(b, at, UpdateNetwork(b[i], ctx, t), key);
    PutNetwork(b, at, UpdateNetwork(b[i], ctx, t), at);
    var c := TouchNetwork(book, ctx, t);
    PutNetwork(c, at, c[FindNetwork(c, at)].(devices := TouchDevice(c[FindNetwork(c, at)].devices, n, t)), key);
    if SameKey(key, at) { FindSameKey(book, key, at); }
  }

  // ----- what applying completes -----

  // What the user has set and a learned type win over what was reported, a reported name and vendor
  // over recorded ones; nothing else changes, and without a record nothing does.
  lemma {:induction false} ApplyCompletes(book: Book, key: string, n: Neighbor)
    ensures var found, r := DeviceIn(book, key, n.mac), Apply(book, key, n);
            if n.mac == "" || found.None? then r == n
            else
              var d := found.value;
              && (r.labelText == if d.labelText != "" then d.labelText else n.labelText)
              && (r.icon == if d.icon != "" then d.icon else n.icon)
              && (r.hostname == if n.hostname != "" then n.hostname else d.hostname)
              && (r.vendor == if n.vendor != "" then n.vendor else d.vendor)
              && (r.deviceType == if d.hasType then d.deviceType else n.deviceType)
              && (r.hasTypeOverride <==> d.hasType || n.hasTypeOverride) && (r.trusted <==> d.trusted || n.trusted)
              && r.ip == n.ip && r.mac == n.mac && r.connectionType == n.connectionType
              && r.confidence == n.confidence && r.active == n.active
  {
  }

  // Completing twice is completing once.
  lemma {:induction false} ApplyIsIdempotent(book: Book, key: string, n: Neighbor)
    ensures Apply(book, key, Apply(book, key, n)) == Apply(book, key, n)
  {
    ApplyCompletes(book, key, n);
  }
}
