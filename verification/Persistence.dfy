// The device file: the store written as a stream of XML nodes, and read back from one.

module Persistence {
  import opened Neighbors
  import opened Options
  import opened Records
  import opened RecordLaws
  import opened Decimal

  const NODE_LIMIT := 100_000
  const ATTRIBUTE_LIMIT := 64
  const SCHEMA_VERSION := 2
  const MAX_UINT64: nat := 0xFFFF_FFFF_FFFF_FFFF
  const MAX_INT: nat := 0x7FFF_FFFF

  // The attribute names of the format.
  datatype Key =
    | Version | GatewayMac | GatewayHostname | GatewayVendor
    | IspName | IspAsn | IspPublicIp | IspHostname | IspCity | IspRegion | IspCountry | IspPostal | IspTimezone | IspLoc
    | Mac | LabelKey | Hostname | Vendor | Type | Icon | Trusted | FirstSeen | LastSeen
    | OtherKey(text: string)

  datatype Attribute = Attribute(key: Key, value: string)

  datatype ElementName = Root | NetworkElement | DeviceElement | OtherElement(text: string)

  // What the reader reports one by one: start tags, and everything else (declaration, end tags, text).
  datatype Node = Element(name: ElementName, attributes: seq<Attribute>) | OtherNode

  // ----- attributes -----

  function TypeText(t: DeviceType): string {
    match t
    case Laptop => "laptop"
    case Mobile => "mobile"
    case Smartwatch => "smartwatch"
    case Printer => "printer"
    case Television => "television"
    case Router => "router"
    case Desktop => "desktop"
    case UnknownDevice => "unknown"
  }

  function TypeOf(value: string): DeviceType {
    if value == "laptop" then Laptop
    else if value == "mobile" then Mobile
    else if value == "smartwatch" then Smartwatch
    else if value == "printer" then Printer
    else if value == "television" then Television
    else if value == "router" then Router
    else if value == "desktop" then Desktop
    else UnknownDevice
  }

  function FlagText(b: bool): string { if b then "true" else "false" }

  function SetDevice(d: Device, a: Attribute): Device {
    match a.key
    case Mac => d.(mac := a.value)
    case LabelKey => d.(labelText := a.value)
    case Hostname => d.(hostname := a.value)
    case Vendor => d.(vendor := a.value)
    case Icon => d.(icon := a.value)
    case Type => d.(deviceType := TypeOf(a.value), hasType := TypeOf(a.value) != UnknownDevice)
    case Trusted => d.(trusted := a.value == "true" || a.value == "1")
    case FirstSeen => d.(firstSeen := ParseUpTo(a.value, MAX_UINT64))
    case LastSeen => d.(lastSeen := ParseUpTo(a.value, MAX_UINT64))
    case _ => d
  }

  function SetIsp(i: Isp, a: Attribute): Isp {
    match a.key
    case IspName => i.(isp := a.value)
    case IspAsn => i.(asn := a.value)
    case IspPublicIp => i.(publicIp := a.value)
    case IspHostname => i.(hostname := a.value)
    case IspCity => i.(city := a.value)
    case IspRegion => i.(region := a.value)
    case IspCountry => i.(country := a.value)
    case IspPostal => i.(postal := a.value)
    case IspTimezone => i.(timezone := a.value)
    case IspLoc => i.(loc := a.value)
    case _ => i
  }

  function SetNetwork(n: Network, a: Attribute): Network {
    match a.key
    case GatewayHostname => n.(gatewayHostname := a.value)
    case GatewayVendor => n.(gatewayVendor := a.value)
    case FirstSeen => n.(firstSeen := ParseUpTo(a.value, MAX_UINT64))
    case LastSeen => n.(lastSeen := ParseUpTo(a.value, MAX_UINT64))
    case _ => n.(isp := SetIsp(n.isp, a))
  }

  function ReadDevice(d: Device, attributes: seq<Attribute>): Device
    decreases |attributes|
  {
    if attributes == [] then d else ReadDevice(SetDevice(d, attributes[0]), attributes[1..])
  }

  function ReadNetwork(n: Network, attributes: seq<Attribute>): Network
    decreases |attributes|
  {
    if attributes == [] then n else ReadNetwork(SetNetwork(n, attributes[0]), attributes[1..])
  }

  function Considered(attributes: seq<Attribute>): seq<Attribute> {
    if |attributes| <= ATTRIBUTE_LIMIT then attributes else attributes[..ATTRIBUTE_LIMIT]
  }

  function ValueOf(attributes: seq<Attribute>, key: Key): Option<string> {
    if attributes == [] then None
    else if attributes[0].key == key then Some(attributes[0].value)
    else ValueOf(attributes[1..], key)
  }

  function TimeAttributes(firstSeen: nat, lastSeen: nat): (a: seq<Attribute>)
    ensures |a| == 2
  {
    [Attribute(FirstSeen, Print(firstSeen)), Attribute(LastSeen, Print(lastSeen))]
  }

  function FlagAttributes(d: Device): (a: seq<Attribute>)
    ensures |a| == 5
  {
    [Attribute(Type, TypeText(d.deviceType))] +
    ([Attribute(Icon, d.icon)] +
     ([Attribute(Trusted, FlagText(d.trusted))] + TimeAttributes(d.firstSeen, d.lastSeen)))
  }

  function DeviceAttributes(d: Device): (a: seq<Attribute>)
    ensures |a| == 9
  {
    [Attribute(Mac, d.mac)] +
    ([Attribute(LabelKey, d.labelText)] +
     ([Attribute(Hostname, d.hostname)] + ([Attribute(Vendor, d.vendor)] + FlagAttributes(d))))
  }

  function IspNames(i: Isp): (a: seq<Attribute>)
    ensures |a| == 5
  {
    [Attribute(IspName, i.isp), Attribute(IspAsn, i.asn), Attribute(IspPublicIp, i.publicIp),
     Attribute(IspHostname, i.hostname), Attribute(IspCity, i.city)]
  }

  function IspPlaces(i: Isp): (a: seq<Attribute>)
    ensures |a| == 5
  {
    [Attribute(IspRegion, i.region), Attribute(IspCountry, i.country), Attribute(IspPostal, i.postal),
     Attribute(IspTimezone, i.timezone), Attribute(IspLoc, i.loc)]
  }

  function IspAttributes(i: Isp): (a: seq<Attribute>)
    ensures |a| == 10
  {
    IspNames(i) + IspPlaces(i)
  }

  function NetworkAttributes(n: Network): seq<Attribute> {
    [Attribute(GatewayMac, n.gatewayMac), Attribute(GatewayHostname, n.gatewayHostname),
     Attribute(GatewayVendor, n.gatewayVendor)]
    + (IspAttributes(n.isp) + TimeAttributes(n.firstSeen, n.lastSeen))
  }

  // ----- the file of a store -----

  function DeviceNodes(devices: seq<Device>): seq<Node> {
    if devices == [] then []
    else DeviceNodes(devices[..|devices| - 1]) + [Element(DeviceElement, DeviceAttributes(devices[|devices| - 1]))]
  }

  // An element without children has no end tag of its own.
  function NetworkNodes(n: Network): seq<Node> {
    [Element(NetworkElement, NetworkAttributes(n))] + DeviceNodes(n.devices)
    + if n.devices == [] then [] else [OtherNode]
  }

  function BookNodes(book: Book): seq<Node> {
    if book == [] then [] else BookNodes(book[..|book| - 1]) + NetworkNodes(book[|book| - 1])
  }

  function Save(book: Book): seq<Node> {
    [OtherNode, Element(Root, [Attribute(Version, "2")])] + BookNodes(book) + if book == [] then [] else [OtherNode]
  }

  // ----- reading a file -----

  // Where the reader stands: what has been built, whether the root was seen, the declared version, and
  // the network that device elements belong to, -1 before the first.
  datatype Reader = Reader(book: Book, rootSeen: bool, version: int, current: int)

  const BEGIN := Reader([], false, 1, -1)

  ghost predicate ReaderOk(r: Reader) { -1 <= r.current < |r.book| }

  function ReadStart(r: Reader, attributes: seq<Attribute>): Reader {
    var v := ValueOf(attributes, Version);
    r.(rootSeen := true, version := if v.Some? then ParseInt(v.value, MAX_INT) else r.version)
  }

  function EnterNetwork(r: Reader, key: string): (q: Reader)
    ensures ReaderOk(q) && q.current >= 0
  {
    FindOrAppended(r.book, key);
    var b := EnsureNetwork(r.book, key);
    r.(book := b, current := FindNetwork(b, key))
  }

  function ReadNetworkElement(r: Reader, attributes: seq<Attribute>): (q: Reader)
    ensures ReaderOk(q)
  {
    var v := ValueOf(attributes, GatewayMac);
    var e := EnterNetwork(r, if v.Some? then v.value else "");
    e.(book := e.book[e.current := ReadNetwork(e.book[e.current], Considered(attributes))])
  }

  function StoreDevice(devices: seq<Device>, d: Device): (r: seq<Device>)
    ensures |r| <= |devices| + 1
  {
    var ds := EnsureDevice(devices, d.mac);
    FindOrAppendedDevice(devices, d.mac);
    ds[FindDevice(ds, d.mac) := d]
  }

  function ReadDeviceElement(r: Reader, attributes: seq<Attribute>): (q: Reader)
    requires ReaderOk(r)
    ensures ReaderOk(q)
  {
    var e := if r.current >= 0 then r else EnterNetwork(r, UNKNOWN_NETWORK);
    var d := ReadDevice(NewDevice(""), Considered(attributes));
    if d.mac == "" then e
    else e.(book := e.book[e.current := e.book[e.current].(devices := StoreDevice(e.book[e.current].devices, d))])
  }

  function ReadNode(r: Reader, node: Node): (q: Reader)
    requires ReaderOk(r)
    ensures ReaderOk(q)
  {
    if node.OtherNode? then r
    else if !r.rootSeen then ReadStart(r, node.attributes)
    else if node.name == NetworkElement then ReadNetworkElement(r, node.attributes)
    else if node.name == DeviceElement then ReadDeviceElement(r, node.attributes)
    else r
  }

  // Reading node after node.
  function ReadNodes(r: Reader, nodes: seq<Node>): (q: Reader)
    requires ReaderOk(r)
    ensures ReaderOk(q)
  {
    if nodes == [] then r else ReadNode(ReadNodes(r, nodes[..|nodes| - 1]), nodes[|nodes| - 1])
  }

  function Limited(nodes: seq<Node>): seq<Node> {
    if |nodes| <= NODE_LIMIT then nodes else nodes[..NODE_LIMIT]
  }

  // What loading a file yields: the book, and whether the file is of an older schema.
  function Load(nodes: seq<Node>): Book { ReadNodes(BEGIN, Limited(nodes)).book }

  predicate Outdated(nodes: seq<Node>) { ReadNodes(BEGIN, Limited(nodes)).version < SCHEMA_VERSION }

  // Opening a store loads the file and rewrites it once when it is outdated.
  function FileAfterOpen(nodes: seq<Node>): seq<Node> {
    if Outdated(nodes) then Save(Load(nodes)) else nodes
  }

  // ----- loading gives back what was saved -----

  ghost predicate Numbers(book: Book) {
    forall i | 0 <= i < |book| ::
      && book[i].firstSeen <= MAX_UINT64 && book[i].lastSeen <= MAX_UINT64
      && forall j | 0 <= j < |book[i].devices| ::
           book[i].devices[j].firstSeen <= MAX_UINT64 && book[i].devices[j].lastSeen <= MAX_UINT64
  }

  // A book that can be written: unique keys, proper devices, times that fit their 64-bit fields.
  ghost predicate Storable(book: Book) {
    Unique(book) && Proper(book) && Numbers(book)
  }

  lemma {:induction false} TypesAreRead(t: DeviceType)
    ensures TypeOf(TypeText(t)) == t
  {
  }

  lemma {:induction false} ReadDeviceStep(d: Device, a: Attribute, rest: seq<Attribute>)
    ensures ReadDevice(d, [a] + rest) == ReadDevice(SetDevice(d, a), rest)
  {
    assert ([a] + rest)[1..] == rest;
  }

  lemma {:induction false} ReadNetworkStep(n: Network, a: Attribute, rest: seq<Attribute>)
    ensures ReadNetwork(n, [a] + rest) == ReadNetwork(SetNetwork(n, a), rest)
  {
    assert ([a] + rest)[1..] == rest;
  }

  lemma {:induction false} DeviceTimesComeBack(d: Device, firstSeen: nat, lastSeen: nat)
    requires firstSeen <= MAX_UINT64 && lastSeen <= MAX_UINT64
    ensures ReadDevice(d, TimeAttributes(firstSeen, lastSeen)) == d.(firstSeen := firstSeen, lastSeen := lastSeen)
  {
    ParseOfPrint(firstSeen, MAX_UINT64);
    ParseOfPrint(lastSeen, MAX_UINT64);
    var d1 := d.(firstSeen := firstSeen);
    ReadDeviceStep(d, Attribute(FirstSeen, Print(firstSeen)), [Attribute(LastSeen, Print(lastSeen))]);
    ReadDeviceStep(d1, Attribute(LastSeen, Print(lastSeen)), []);
    assert [Attribute(LastSeen, Print(lastSeen))] + [] == [Attribute(LastSeen, Print(lastSeen))];
  }

  lemma {:induction false} DeviceFlagsComeBack(x: Device, d: Device)
    requires ProperDevice(d) && d.firstSeen <= MAX_UINT64 && d.lastSeen <= MAX_UINT64
    ensures ReadDevice(x, FlagAttributes(d))
         == x.(deviceType := d.deviceType, hasType := d.hasType, icon := d.icon, trusted := d.trusted,
               firstSeen := d.firstSeen, lastSeen := d.lastSeen)
  {
    var times := TimeAttributes(d.firstSeen, d.lastSeen);
    var trusted, icon := [Attribute(Trusted, FlagText(d.trusted))], [Attribute(Icon, d.icon)];
    var x1 := x.(deviceType := d.deviceType, hasType := d.hasType);
    var x2 := x1.(icon := d.icon);
    var x3 := x2.(trusted := d.trusted);
    TypesAreRead(d.deviceType);
    ReadDeviceStep(x, Attribute(Type, TypeText(d.deviceType)), icon + (trusted + times));
    ReadDeviceStep(x1, icon[0], trusted + times);
    ReadDeviceStep(x2, trusted[0], times);
    DeviceTimesComeBack(x3, d.firstSeen, d.lastSeen);
  }

  lemma {:induction false} DeviceNamesComeBack(x: Device, d: Device, tail: seq<Attribute>)
    ensures ReadDevice(x, [Attribute(Hostname, d.hostname)] + ([Attribute(Vendor, d.vendor)] + tail))
         == ReadDevice(x.(hostname := d.hostname, vendor := d.vendor), tail)
  {
    ReadDeviceStep(x, Attribute(Hostname, d.hostname), [Attribute(Vendor, d.vendor)] + tail);
    ReadDeviceStep(x.(hostname := d.hostname), Attribute(Vendor, d.vendor), tail);
  }

  lemma {:induction false} DeviceKeysComeBack(x: Device, d: Device, tail: seq<Attribute>)
    ensures ReadDevice(x, [Attribute(Mac, d.mac)] + ([Attribute(LabelKey, d.labelText)] + tail))
         == ReadDevice(x.(mac := d.mac, labelText := d.labelText), tail)
  {
    ReadDeviceStep(x, Attribute(Mac, d.mac), [Attribute(LabelKey, d.labelText)] + tail);
    ReadDeviceStep(x.(mac := d.mac), Attribute(LabelKey, d.labelText), tail);
  }

  lemma {:induction false} DeviceTextsComeBack(x: Device, d: Device)
    ensures ReadDevice(x, DeviceAttributes(d))
         == ReadDevice(x.(mac := d.mac, labelText := d.labelText, hostname := d.hostname, vendor := d.vendor),
                       FlagAttributes(d))
  {
    var names := [Attribute(Hostname, d.hostname)] + ([Attribute(Vendor, d.vendor)] + FlagAttributes(d));
    DeviceKeysComeBack(x, d, names);
    DeviceNamesComeBack(x.(mac := d.mac, labelText := d.labelText), d, FlagAttributes(d));
  }

  // A device element reads back as the device it was written from.
  lemma {:induction false} DeviceComesBack(d: Device)
    requires ProperDevice(d) && d.firstSeen <= MAX_UINT64 && d.lastSeen <= MAX_UINT64
    ensures ReadDevice(NewDevice(""), Considered(DeviceAttributes(d))) == d
  {
    var x := NewDevice("");
    DeviceTextsComeBack(x, d);
    DeviceFlagsComeBack(x.(mac := d.mac, labelText := d.labelText, hostname := d.hostname, vendor := d.vendor), d);
  }

  lemma {:induction false} ReadNetworkConcat(n: Network, a: seq<Attribute>, b: seq<Attribute>)
    ensures ReadNetwork(n, a + b) == ReadNetwork(ReadNetwork(n, a), b)
    decreases |a|
  {
    if a == [] {
      assert a + b == b;
    } else {
      assert (a + b)[1..] == a[1..] + b;
      ReadNetworkConcat(SetNetwork(n, a[0]), a[1..], b);
    }
  }

  lemma {:induction false} NetworkTimesComeBack(n: Network, firstSeen: nat, lastSeen: nat)
    requires firstSeen <= MAX_UINT64 && lastSeen <= MAX_UINT64
    ensures ReadNetwork(n, TimeAttributes(firstSeen, lastSeen)) == n.(firstSeen := firstSeen, lastSeen := lastSeen)
  {
    ParseOfPrint(firstSeen, MAX_UINT64);
    ParseOfPrint(lastSeen, MAX_UINT64);
    var n1 := n.(firstSeen := firstSeen);
    ReadNetworkStep(n, Attribute(FirstSeen, Print(firstSeen)), [Attribute(LastSeen, Print(lastSeen))]);
    ReadNetworkStep(n1, Attribute(LastSeen, Print(lastSeen)), []);
    assert [Attribute(LastSeen, Print(lastSeen))] + [] == [Attribute(LastSeen, Print(lastSeen))];
  }

  lemma {:induction false} ReadFive(n: Network, a: seq<Attribute>)
    requires |a| == 5
    ensures var m := SetNetwork(SetNetwork(SetNetwork(n, a[0]), a[1]), a[2]);
            ReadNetwork(n, a) == SetNetwork(SetNetwork(m, a[3]), a[4])
  {
    assert a == [a[0]] + ([a[1]] + ([a[2]] + ([a[3]] + ([a[4]] + []))));
    var n1 := SetNetwork(n, a[0]);
    var n2 := SetNetwork(n1, a[1]);
    var n3 := SetNetwork(n2, a[2]);
    ReadNetworkStep(n, a[0], [a[1]] + ([a[2]] + ([a[3]] + ([a[4]] + []))));
    ReadNetworkStep(n1, a[1], [a[2]] + ([a[3]] + ([a[4]] + [])));
    ReadNetworkStep(n2, a[2], [a[3]] + ([a[4]] + []));
    ReadNetworkStep(n3, a[3], [a[4]] + []);
    ReadNetworkStep(SetNetwork(n3, a[3]), a[4], []);
  }

  lemma {:induction false} IspNamesComeBack(n: Network, i: Isp)
    ensures ReadNetwork(n, IspNames(i))
         == n.(isp := n.isp.(isp := i.isp, asn := i.asn, publicIp := i.publicIp, hostname := i.hostname,
             city := i.city))
  {
    var a := IspNames(i);
    ReadFive(n, a);
    var n1 := n.(isp := n.isp.(isp := i.isp));
    var n2 := n1.(isp := n1.isp.(asn := i.asn));
    var n3 := n2.(isp := n2.isp.(publicIp := i.publicIp));
    var n4 := n3.(isp := n3.isp.(hostname := i.hostname));
    assert SetNetwork(n, a[0]) == n1 && SetNetwork(n1, a[1]) == n2;
    assert SetNetwork(n2, a[2]) == n3 && SetNetwork(n3, a[3]) == n4;
  }

  lemma {:induction false} IspPlacesComeBack(n: Network, i: Isp)
    ensures ReadNetwork(n, IspPlaces(i))
         == n.(isp := n.isp.(region := i.region, country := i.country, postal := i.postal, timezone := i.timezone,
                             loc := i.loc))
  {
    var a := IspPlaces(i);
    ReadFive(n, a);
    var n1 := n.(isp := n.isp.(region := i.region));
    var n2 := n1.(isp := n1.isp.(country := i.country));
    var n3 := n2.(isp := n2.isp.(postal := i.postal));
    var n4 := n3.(isp := n3.isp.(timezone := i.timezone));
    assert SetNetwork(n, a[0]) == n1 && SetNetwork(n1, a[1]) == n2;
    assert SetNetwork(n2, a[2]) == n3 && SetNetwork(n3, a[3]) == n4;
  }

  lemma {:induction false} IspComesBack(n: Network, i: Isp)
    ensures ReadNetwork(n, IspAttributes(i)) == n.(isp := i)
  {
    IspNamesComeBack(n, i);
    ReadNetworkConcat(n, IspNames(i), IspPlaces(i));
    IspPlacesComeBack(ReadNetwork(n, IspNames(i)), i);
  }

  // A network element reads back into a blank network as the network it was written from.
  lemma {:induction false} NetworkComesBack(n: Network)
    requires n.firstSeen <= MAX_UINT64 && n.lastSeen <= MAX_UINT64
    ensures ReadNetwork(NewNetwork(n.gatewayMac), Considered(NetworkAttributes(n))) == n.(devices := [])
    ensures ValueOf(NetworkAttributes(n), GatewayMac) == Some(n.gatewayMac)
  {
    var mac := Attribute(GatewayMac, n.gatewayMac);
    var hostname, vendor := Attribute(GatewayHostname, n.gatewayHostname), Attribute(GatewayVendor, n.gatewayVendor);
    var isp, times := IspAttributes(n.isp), TimeAttributes(n.firstSeen, n.lastSeen);
    assert NetworkAttributes(n) == [mac] + ([hostname] + ([vendor] + (isp + times)));
    var x := NewNetwork(n.gatewayMac);
    var x1 := x.(gatewayHostname := n.gatewayHostname);
    var x2 := x1.(gatewayVendor := n.gatewayVendor);
    ReadNetworkStep(x, mac, [hostname] + ([vendor] + (isp + times)));
    ReadNetworkStep(x, hostname, [vendor] + (isp + times));
    ReadNetworkStep(x1, vendor, isp + times);
    ReadNetworkConcat(x2, isp, times);
    IspComesBack(x2, n.isp);
    NetworkTimesComeBack(x2.(isp := n.isp), n.firstSeen, n.lastSeen);
  }

  // ----- whole files -----

  lemma {:induction false} ReadConcat(r: Reader, a: seq<Node>, b: seq<Node>)
    requires ReaderOk(r)
    ensures ReadNodes(r, a + b) == ReadNodes(ReadNodes(r, a), b)
  {
    if b == [] {
      assert a + b == a;
    } else {
      var n := |b| - 1;
      assert (a + b)[..|a + b| - 1] == a + b[..n];
      ReadConcat(r, a, b[..n]);
    }
  }

  lemma {:induction false} ReadOne(r: Reader, node: Node)
    requires ReaderOk(r)
    ensures ReadNodes(r, [node]) == ReadNode(r, node)
  {
    assert [node][..0] == [];
  }

  lemma {:induction false} UniquePrefix(devices: seq<Device>, n: nat)
    requires UniqueDevices(devices) && n < |devices|
    ensures UniqueDevices(devices[..n]) && FindDevice(devices[..n], devices[n].mac) < 0
  {
    var k := FindDevice(devices[..n], devices[n].mac);
    assert forall i | 0 <= i < n :: devices[..n][i] == devices[i];
  }

  lemma {:induction false} StoreNewDevice(devices: seq<Device>, d: Device)
    requires FindDevice(devices, d.mac) < 0
    ensures StoreDevice(devices, d) == devices + [d]
  {
    var ds := EnsureDevice(devices, d.mac);
    FindOrAppendedDevice(devices, d.mac);
    PutLast(devices, NewDevice(d.mac), d);
    assert ds == devices + [NewDevice(d.mac)];
  }

  lemma {:induction false} PutLast(devices: seq<Device>, blank: Device, d: Device)
    ensures (devices + [blank])[|devices| := d] == devices + [d]
  {
  }

  ghost predicate FittingDevices(devices: seq<Device>) {
    && UniqueDevices(devices) && ProperDevices(devices)
    && forall j | 0 <= j < |devices| :: devices[j].firstSeen <= MAX_UINT64 && devices[j].lastSeen <= MAX_UINT64
  }

  lemma {:induction false} ReadDeviceNode(q: Reader, attributes: seq<Attribute>)
    requires q.rootSeen && ReaderOk(q)
    ensures ReadNodes(q, [Element(DeviceElement, attributes)]) == ReadDeviceElement(q, attributes)
  {
    ReadOne(q, Element(DeviceElement, attributes));
  }

  lemma {:induction false} ReadProperDevice(q: Reader, attributes: seq<Attribute>, d: Device)
    requires q.rootSeen && ReaderOk(q) && q.current >= 0 && d.mac != ""
    requires ReadDevice(NewDevice(""), Considered(attributes)) == d
    ensures var n := q.book[q.current];
            ReadNodes(q, [Element(DeviceElement, attributes)])
            == q.(book := q.book[q.current := n.(devices := StoreDevice(n.devices, d))])
  {
    ReadDeviceNode(q, attributes);
  }

  lemma {:induction false} NewDeviceElementIsAppended(q: Reader, attributes: seq<Attribute>, d: Device)
    requires q.rootSeen && ReaderOk(q) && q.current >= 0 && FindDevice(q.book[q.current].devices, d.mac) < 0
    requires d.mac != "" && ReadDevice(NewDevice(""), Considered(attributes)) == d
    ensures var n := q.book[q.current];
            ReadNodes(q, [Element(DeviceElement, attributes)])
            == q.(book := q.book[q.current := n.(devices := n.devices + [d])])
  {
    ReadProperDevice(q, attributes, d);
    StoreNewDevice(q.book[q.current].devices, d);
  }

  // The reader whose current network has the given devices.
  function Holding(r: Reader, devices: seq<Device>): Reader
    requires 0 <= r.current < |r.book|
  {
    r.(book := r.book[r.current := r.book[r.current].(devices := devices)])
  }

  lemma {:induction false} HoldingTwice(r: Reader, a: seq<Device>, b: seq<Device>)
    requires 0 <= r.current < |r.book|
    ensures Holding(Holding(r, a), b) == Holding(r, b) && Holding(r, r.book[r.current].devices) == r
  {
    assert r.book[r.current := r.book[r.current]] == r.book;
  }

  lemma {:induction false} OneMoreDeviceComesBack(q: Reader, d: Device)
    requires q.rootSeen && ReaderOk(q) && q.current >= 0 && FindDevice(q.book[q.current].devices, d.mac) < 0
    requires ProperDevice(d) && d.firstSeen <= MAX_UINT64 && d.lastSeen <= MAX_UINT64
    ensures ReadNodes(q, [Element(DeviceElement, DeviceAttributes(d))]) == Holding(q, q.book[q.current].devices + [d])
  {
    DeviceComesBack(d);
    NewDeviceElementIsAppended(q, DeviceAttributes(d), d);
  }

  lemma {:induction false} DeviceListStep(r: Reader, devices: seq<Device>, d: Device)
    requires r.rootSeen && 0 <= r.current < |r.book| && FindDevice(devices, d.mac) < 0
    requires ProperDevice(d) && d.firstSeen <= MAX_UINT64 && d.lastSeen <= MAX_UINT64
    ensures ReadNodes(Holding(r, devices), [Element(DeviceElement, DeviceAttributes(d))]) == Holding(r, devices + [d])
  {
    OneMoreDeviceComesBack(Holding(r, devices), d);
    HoldingTwice(r, devices, devices + [d]);
  }

  lemma {:induction false} LastDeviceComesBack(r: Reader, nodes: seq<Node>, devices: seq<Device>)
    requires r.rootSeen && 0 <= r.current < |r.book| && FittingDevices(devices) && devices != []
    requires ReadNodes(r, nodes) == Holding(r, devices[..|devices| - 1])
    ensures var d := devices[|devices| - 1];
            ReadNodes(r, nodes + [Element(DeviceElement, DeviceAttributes(d))]) == Holding(r, devices)
  {
    var n := |devices| - 1;
    UniquePrefix(devices, n);
    ReadConcat(r, nodes, [Element(DeviceElement, DeviceAttributes(devices[n]))]);
    DeviceListStep(r, devices[..n], devices[n]);
    assert devices[..n] + [devices[n]] == devices;
  }

  lemma {:induction false} FittingPrefix(devices: seq<Device>, n: nat)
    requires FittingDevices(devices) && n < |devices|
    ensures FittingDevices(devices[..n])
  {
    UniquePrefix(devices, n);
  }

  // Reading device elements appends them to the current network, which comes last.
  lemma {:induction false} DevicesComeBack(r: Reader, devices: seq<Device>)
    requires r.rootSeen && r.book != [] && r.current == |r.book| - 1 && r.book[r.current].devices == []
    requires FittingDevices(devices)
    ensures ReadNodes(r, DeviceNodes(devices)) == Holding(r, devices)
  {
    if devices == [] {
      HoldingTwice(r, [], []);
    } else {
      var n := |devices| - 1;
      FittingPrefix(devices, n);
      DevicesComeBack(r, devices[..n]);
      LastDeviceComesBack(r, DeviceNodes(devices[..n]), devices);
    }
  }

  lemma {:induction false} NewNetworkEntered(r: Reader, key: string)
    requires ReaderOk(r) && FindNetwork(r.book, key) < 0
    ensures EnterNetwork(r, key) == r.(book := r.book + [NewNetwork(key)], current := |r.book|)
  {
    FindOrAppended(r.book, key);
  }

  lemma {:induction false} NewNetworkElementIsAppended(r: Reader, attributes: seq<Attribute>, n: Network)
    requires r.rootSeen && ReaderOk(r) && FindNetwork(r.book, n.gatewayMac) < 0
    requires ReadNetwork(NewNetwork(n.gatewayMac), Considered(attributes)) == n
    requires ValueOf(attributes, GatewayMac) == Some(n.gatewayMac)
    ensures ReadNodes(r, [Element(NetworkElement, attributes)]) == r.(book := r.book + [n], current := |r.book|)
  {
    ReadOne(r, Element(NetworkElement, attributes));
    NewNetworkEntered(r, n.gatewayMac);
  }

  lemma {:induction false} NetworkElementComesBack(r: Reader, n: Network)
    requires r.rootSeen && ReaderOk(r) && FindNetwork(r.book, n.gatewayMac) < 0
    requires n.firstSeen <= MAX_UINT64 && n.lastSeen <= MAX_UINT64
    ensures ReadNodes(r, [Element(NetworkElement, NetworkAttributes(n))])
         == r.(book := r.book + [n.(devices := [])], current := |r.book|)
  {
    NetworkComesBack(n);
    NewNetworkElementIsAppended(r, NetworkAttributes(n), n.(devices := []));
  }

  lemma {:induction false} ReadOther(r: Reader)
    requires ReaderOk(r)
    ensures ReadNodes(r, [OtherNode]) == r && ReadNodes(r, []) == r
  {
    ReadOne(r, OtherNode);
  }

  function Appended(r: Reader, n: Network): Reader { r.(book := r.book + [n], current := |r.book|) }

  lemma {:induction false} HoldingLast(r: Reader, n: Network)
    ensures Holding(Appended(r, n.(devices := [])), n.devices) == Appended(r, n)
  {
    assert (r.book + [n.(devices := [])])[|r.book| := n] == r.book + [n];
  }

  lemma {:induction false} NetworkWithDevicesComesBack(r: Reader, n: Network)
    requires r.rootSeen && ReaderOk(r) && FindNetwork(r.book, n.gatewayMac) < 0
    requires n.firstSeen <= MAX_UINT64 && n.lastSeen <= MAX_UINT64 && FittingDevices(n.devices)
    ensures ReadNodes(r, [Element(NetworkElement, NetworkAttributes(n))] + DeviceNodes(n.devices)) == Appended(r, n)
  {
    NetworkElementComesBack(r, n);
    ReadConcat(r, [Element(NetworkElement, NetworkAttributes(n))], DeviceNodes(n.devices));
    DevicesComeBack(Appended(r, n.(devices := [])), n.devices);
    HoldingLast(r, n);
  }

  // Reading the nodes of one network appends that network.
  lemma {:induction false} NetworkNodesComeBack(r: Reader, n: Network)
    requires r.rootSeen && ReaderOk(r) && FindNetwork(r.book, n.gatewayMac) < 0
    requires n.firstSeen <= MAX_UINT64 && n.lastSeen <= MAX_UINT64 && FittingDevices(n.devices)
    ensures ReadNodes(r, NetworkNodes(n)) == Appended(r, n)
  {
    NetworkWithDevicesComesBack(r, n);
    ReadConcat(r, [Element(NetworkElement, NetworkAttributes(n))] + DeviceNodes(n.devices),
               if n.devices == [] then [] else [OtherNode]);
    ReadOther(Appended(r, n));
  }

  lemma {:induction false} StorablePrefix(book: Book, n: nat)
    requires Storable(book) && n < |book|
    ensures Storable(book[..n]) && FindNetwork(book[..n], book[n].gatewayMac) < 0 && FittingDevices(book[n].devices)
  {
    var k := FindNetwork(book[..n], book[n].gatewayMac);
    assert forall i | 0 <= i < n :: book[..n][i] == book[i];
  }

  // A reader that has rebuilt a book.
  function Rebuilt(r: Reader, book: Book): Reader { r.(book := book, current := |book| - 1) }

  lemma {:induction false} AppendedToRebuilt(r: Reader, book: Book)
    requires book != []
    ensures var n := |book| - 1; Appended(Rebuilt(r, book[..n]), book[n]) == Rebuilt(r, book)
  {
    assert book[..|book| - 1] + [book[|book| - 1]] == book;
  }

  lemma {:induction false} LastNetworkComesBack(r: Reader, nodes: seq<Node>, book: Book)
    requires r.rootSeen && r.book == [] && r.current == -1 && Storable(book) && book != []
    requires ReadNodes(r, nodes) == Rebuilt(r, book[..|book| - 1])
    ensures ReadNodes(r, nodes + NetworkNodes(book[|book| - 1])) == Rebuilt(r, book)
  {
    var n := |book| - 1;
    StorablePrefix(book, n);
    ReadConcat(r, nodes, NetworkNodes(book[n]));
    NetworkNodesComeBack(Rebuilt(r, book[..n]), book[n]);
    AppendedToRebuilt(r, book);
  }

  lemma {:induction false} BookComesBack(r: Reader, book: Book)
    requires r.rootSeen && r.book == [] && r.current == -1 && Storable(book)
    ensures ReadNodes(r, BookNodes(book)) == r.(book := book, current := |book| - 1)
  {
    if book != [] {
      var n := |book| - 1;
      StorablePrefix(book, n);
      BookComesBack(r, book[..n]);
      LastNetworkComesBack(r, BookNodes(book[..n]), book);
    }
  }

  lemma {:induction false} SavedVersion()
    ensures ReadStart(BEGIN, [Attribute(Version, "2")]) == Reader([], true, SCHEMA_VERSION, -1)
  {
    assert Print(2) == "2";
    ParseOfPrint(2, MAX_INT);
  }
}
