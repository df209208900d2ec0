// What the device file says attribute by attribute, and what reading one element changes.

module FileLaws {
  import opened Neighbors
  import opened Options
  import opened Decimal
  import opened Records
  import opened RecordLaws
  import opened Persistence
  import opened FlatFiles

  // ----- the attributes of an element -----

  ghost predicate OfDevice(d: Device, a: Attribute) {
    match a.key
    case Mac => a.value == d.mac
    case LabelKey => a.value == d.labelText
    case Hostname => a.value == d.hostname
    case Vendor => a.value == d.vendor
    case Type => TypeOf(a.value) == d.deviceType
    case Icon => a.value == d.icon
    case Trusted => a.value == if d.trusted then "true" else "false"
    case FirstSeen => a.value == Print(d.firstSeen)
    case LastSeen => a.value == Print(d.lastSeen)
    case _ => false
  }

  ghost predicate OfNetwork(n: Network, a: Attribute) {
    match a.key
    case GatewayMac => a.value == n.gatewayMac
    case GatewayHostname => a.value == n.gatewayHostname
    case GatewayVendor => a.value == n.gatewayVendor
    case IspName => a.value == n.isp.isp
    case IspAsn => a.value == n.isp.asn
    case IspPublicIp => a.value == n.isp.publicIp
    case IspHostname => a.value == n.isp.hostname
    case IspCity => a.value == n.isp.city
    case IspRegion => a.value == n.isp.region
    case IspCountry => a.value == n.isp.country
    case IspPostal => a.value == n.isp.postal
    case IspTimezone => a.value == n.isp.timezone
    case IspLoc => a.value == n.isp.loc
    case FirstSeen => a.value == Print(n.firstSeen)
    case LastSeen => a.value == Print(n.lastSeen)
    case _ => false
  }

  // The order in which the attributes of an element are written.
  function DevicePlace(key: Key): int {
    match key
    case Mac => 0 case LabelKey => 1 case Hostname => 2 case Vendor => 3 case Type => 4
    case Icon => 5 case Trusted => 6 case FirstSeen => 7 case LastSeen => 8
    case _ => -1
  }

  function NetworkPlace(key: Key): int {
    match key
    case GatewayMac => 0 case GatewayHostname => 1 case GatewayVendor => 2
    case IspName => 3 case IspAsn => 4 case IspPublicIp => 5 case IspHostname => 6 case IspCity => 7
    case IspRegion => 8 case IspCountry => 9 case IspPostal => 10 case IspTimezone => 11 case IspLoc => 12
    case FirstSeen => 13 case LastSeen => 14
    case _ => -1
  }

  // Attributes at places from start on, each carrying the field it is named after.
  ghost predicate DeviceRun(d: Device, attributes: seq<Attribute>, start: nat) {
    forall i | 0 <= i < |attributes| :: DevicePlace(attributes[i].key) == start + i && OfDevice(d, attributes[i])
  }

  ghost predicate NetworkRun(n: Network, attributes: seq<Attribute>, start: nat) {
    forall i | 0 <= i < |attributes| :: NetworkPlace(attributes[i].key) == start + i && OfNetwork(n, attributes[i])
  }

  lemma {:induction false} DeviceRunMore(d: Device, a: Attribute, rest: seq<Attribute>, start: nat)
    requires DevicePlace(a.key) == start && OfDevice(d, a) && DeviceRun(d, rest, start + 1)
    ensures DeviceRun(d, [a] + rest, start)
  {
  }

  lemma {:induction false} NetworkRunConcat(n: Network, a: seq<Attribute>, b: seq<Attribute>, start: nat)
    requires NetworkRun(n, a, start) && NetworkRun(n, b, start + |a|)
    ensures NetworkRun(n, a + b, start)
  {
  }

  lemma {:induction false} FlagsNameTheirFields(d: Device)
    ensures DeviceRun(d, FlagAttributes(d), 4)
  {
    var times := TimeAttributes(d.firstSeen, d.lastSeen);
    var trusted := [Attribute(Trusted, FlagText(d.trusted))] + times;
    TypesAreRead(d.deviceType);
    DeviceRunMore(d, Attribute(Trusted, FlagText(d.trusted)), times, 6);
    DeviceRunMore(d, Attribute(Icon, d.icon), trusted, 5);
    DeviceRunMore(d, Attribute(Type, TypeText(d.deviceType)), [Attribute(Icon, d.icon)] + trusted, 4);
  }

  lemma {:induction false} NamesNameTheirFields(d: Device)
    ensures DeviceRun(d, [Attribute(Hostname, d.hostname)] + ([Attribute(Vendor, d.vendor)] + FlagAttributes(d)), 2)
  {
    FlagsNameTheirFields(d);
    DeviceRunMore(d, Attribute(Vendor, d.vendor), FlagAttributes(d), 3);
    DeviceRunMore(d, Attribute(Hostname, d.hostname), [Attribute(Vendor, d.vendor)] + FlagAttributes(d), 2);
  }

  // A device element has nine attributes of different names, each carrying the field it is named
  // after.
  lemma {:induction false} DeviceAttributesNameTheirFields(d: Device)
    ensures |DeviceAttributes(d)| == 9 && DeviceRun(d, DeviceAttributes(d), 0)
  {
    var names := [Attribute(Hostname, d.hostname)] + ([Attribute(Vendor, d.vendor)] + FlagAttributes(d));
    NamesNameTheirFields(d);
    DeviceRunMore(d, Attribute(LabelKey, d.labelText), names, 1);
    DeviceRunMore(d, Attribute(Mac, d.mac), [Attribute(LabelKey, d.labelText)] + names, 0);
  }

  lemma {:induction false} IspNamesTheirFields(n: Network)
    ensures NetworkRun(n, IspAttributes(n.isp), 3)
  {
    assert NetworkRun(n, IspNames(n.isp), 3) && NetworkRun(n, IspPlaces(n.isp), 8);
    NetworkRunConcat(n, IspNames(n.isp), IspPlaces(n.isp), 3);
  }

  // And a network element has fifteen.
  lemma {:induction false} NetworkAttributesNameTheirFields(n: Network)
    ensures |NetworkAttributes(n)| == 15 && NetworkRun(n, NetworkAttributes(n), 0)
  {
    var gateway := [Attribute(GatewayMac, n.gatewayMac), Attribute(GatewayHostname, n.gatewayHostname),
                    Attribute(GatewayVendor, n.gatewayVendor)];
    var times := TimeAttributes(n.firstSeen, n.lastSeen);
    IspNamesTheirFields(n);
    assert NetworkRun(n, times, 13);
    NetworkRunConcat(n, IspAttributes(n.isp), times, 3);
    assert NetworkRun(n, gateway, 0);
    NetworkRunConcat(n, gateway, IspAttributes(n.isp) + times, 0);
  }

  // The eight type texts; any other reads as unknown.
  lemma {:induction false} TypesAreNamed(text: string)
    ensures TypeOf(text) != UnknownDevice
       <==> text in {"laptop", "mobile", "smartwatch", "printer", "television", "router", "desktop"}
    ensures TypeText(UnknownDevice) == "unknown" && TypeOf("unknown") == UnknownDevice
    ensures TypeOf("laptop") == Laptop && TypeOf("mobile") == Mobile && TypeOf("smartwatch") == Smartwatch
    ensures TypeOf("printer") == Printer && TypeOf("television") == Television
    ensures TypeOf("router") == Router && TypeOf("desktop") == Desktop
  {
  }

  // The first 64 attributes of an element count, the others do not.
  lemma {:induction false} AttributesBeyond64AreIgnored(a: seq<Attribute>, more: seq<Attribute>)
    ensures |a| <= 64 ==> Considered(a) == a
    ensures |a| == 64 ==> Considered(a + more) == a
  {
  }

  // ----- reading one element -----

  // The field an attribute is named after holds what the attribute says. A flag is set by two texts,
  // and a time is a number of 64 bits.
  ghost predicate DeviceTakes(d: Device, a: Attribute) {
    match a.key
    case Type => d.deviceType == TypeOf(a.value) && (d.hasType <==> d.deviceType != UnknownDevice)
    case Trusted => d.trusted <==> a.value in {"true", "1"}
    case FirstSeen => d.firstSeen == ParseUpTo(a.value, 0xFFFF_FFFF_FFFF_FFFF)
    case LastSeen => d.lastSeen == ParseUpTo(a.value, 0xFFFF_FFFF_FFFF_FFFF)
    case _ => OfDevice(d, a)
  }

  ghost predicate LastOfItsName(attributes: seq<Attribute>, i: nat) {
    i < |attributes| && forall k | i < k < |attributes| :: attributes[k].key != attributes[i].key
  }

  // Of several attributes of one name in a device element the last one counts.
  lemma {:induction false} LastAttributeWins(d: Device, attributes: seq<Attribute>, i: nat)
    requires LastOfItsName(attributes, i) && DevicePlace(attributes[i].key) >= 0
    ensures DeviceTakes(ReadDevice(d, attributes), attributes[i])
    decreases |attributes|
  {
    var first, rest := SetDevice(d, attributes[0]), attributes[1..];
    if i == 0 {
      assert DeviceTakes(first, attributes[0]);
      assert forall k | 0 <= k < |rest| :: rest[k] == attributes[k + 1];
      OthersKeepIt(first, rest, attributes[0]);
    } else {
      LastAttributeWins(first, rest, i - 1);
    }
  }

  lemma {:induction false} OtherKeepsText(d: Device, b: Attribute, a: Attribute)
    requires DeviceTakes(d, a) && b.key != a.key && DevicePlace(a.key) < 4
    ensures DeviceTakes(SetDevice(d, b), a)
  {
  }

  lemma {:induction false} OtherKeepsFlag(d: Device, b: Attribute, a: Attribute)
    requires DeviceTakes(d, a) && b.key != a.key && DevicePlace(a.key) >= 4
    ensures DeviceTakes(SetDevice(d, b), a)
  {
  }

  lemma {:induction false} OthersKeepIt(d: Device, attributes: seq<Attribute>, a: Attribute)
    requires DeviceTakes(d, a) && forall k | 0 <= k < |attributes| :: attributes[k].key != a.key
    ensures DeviceTakes(ReadDevice(d, attributes), a)
    decreases |attributes|
  {
    if attributes != [] {
      if DevicePlace(a.key) < 4 { OtherKeepsText(d, attributes[0], a); } else { OtherKeepsFlag(d, attributes[0], a); }
      OthersKeepIt(SetDevice(d, attributes[0]), attributes[1..], a);
    }
  }

  // A network element changes the header of one network: its devices stay, and so do all other
  // networks.
  lemma {:induction false} ReadingANetworkKeepsDevices(r: Reader, attributes: seq<Attribute>, key: string)
    requires ReaderOk(r)
    ensures var q, at := ReadNetworkElement(r, attributes), ValueOf(attributes, GatewayMac);
            var mac := if at.Some? then at.value else "";
            && DevicesOf(q.book, key) == DevicesOf(r.book, key)
            && (!SameKey(key, mac) ==> NetworkIn(q.book, key) == NetworkIn(r.book, key))
            && q.current >= 0 && SameKey(q.book[q.current].gatewayMac, mac)
  {
    var at := ValueOf(attributes, GatewayMac);
    var mac := if at.Some? then at.value else "";
    var e := EnterNetwork(r, mac);
    FindOrAppended(r.book, mac);
    EnsureNetworkKeepsOthers(r.book, mac, key);
    EnsureNetworkKeepsDevices(r.book, mac, key);
    ReadKeepsDevices(e.book[e.current], Considered(attributes));
    PutNetwork(e.book, mac, ReadNetwork(e.book[e.current], Considered(attributes)), key);
    if SameKey(key, mac) { FindSameKey(e.book, key, mac); }
  }

  lemma {:induction false} ReadKeepsDevices(n: Network, attributes: seq<Attribute>)
    ensures ReadNetwork(n, attributes).devices == n.devices && ReadNetwork(n, attributes).gatewayMac == n.gatewayMac
    decreases |attributes|
  {
    if attributes != [] { ReadKeepsDevices(SetNetwork(n, attributes[0]), attributes[1..]); }
  }

  // A device element with a MAC becomes the record of that MAC in the current network, the unknown one
  // before the first; without a MAC no record changes.
  lemma {:induction false} ReadingADeviceIsPointUpdate(r: Reader, attributes: seq<Attribute>, mac: string)
    requires ReaderOk(r)
    ensures var q, d := ReadDeviceElement(r, attributes), ReadDevice(NewDevice(""), Considered(attributes));
            && q.current >= 0 && (r.current >= 0 ==> q.current == r.current && |q.book| == |r.book|)
            && (r.current < 0 ==> SameKey(q.book[q.current].gatewayMac, ""))
            && (r.current >= 0 ==>
                  DeviceAt(q.book[q.current].devices, mac)
                  == if d.mac != "" && SameKey(mac, d.mac) then Some(d) else DeviceAt(r.book[r.current].devices, mac))
            && (r.current >= 0 ==> forall i | 0 <= i < |r.book| && i != r.current :: q.book[i] == r.book[i])
  {
    var d := ReadDevice(NewDevice(""), Considered(attributes));
    if r.current >= 0 && d.mac != "" { StoreIsPointUpdate(r.book[r.current].devices, d, mac); }
  }
}
