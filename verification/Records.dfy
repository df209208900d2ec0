// What the device store holds and what its operations mean: networks by gateway MAC, and in each of
// them devices by MAC, keys compared without regard to case.

module Records {
  import opened Neighbors
  import opened Options

  datatype Isp = Isp(isp: string, asn: string, publicIp: string, hostname: string, city: string, region: string,
                     country: string, postal: string, timezone: string, loc: string)

  const NO_ISP := Isp("", "", "", "", "", "", "", "", "", "")

  datatype Device = Device(mac: string, labelText: string, hostname: string, vendor: string, icon: string,
                           deviceType: DeviceType, hasType: bool, trusted: bool, firstSeen: nat, lastSeen: nat)

  datatype Network = Network(gatewayMac: string, gatewayHostname: string, gatewayVendor: string, isp: Isp,
                             firstSeen: nat, lastSeen: nat, devices: seq<Device>)

  type Book = seq<Network>

  const UNKNOWN_NETWORK := ""
  const SURE := 80

  function NewNetwork(key: string): Network { Network(key, "", "", NO_ISP, 0, 0, []) }
  function NewDevice(mac: string): Device { Device(mac, "", "", "", "", UnknownDevice, false, false, 0, 0) }

  // What the caller knows about the network of an observation; texts it does not know are "".
  datatype Context =
    | NoContext
    | Context(gatewayMac: string, gatewayHostname: string, gatewayVendor: string, isp: Option<Isp>)

  // The four clock readings one observation takes, in order.
  datatype Times = Times(networkFirst: nat, networkLast: nat, deviceFirst: nat, deviceLast: nat)

  // ----- keys -----

  function LowerChar(c: char): char {
    if 'A' <= c <= 'Z' then c + 32 as char else c
  }

  function Lower(s: string): (r: string)
    ensures |r| == |s|
  {
    seq(|s|, i requires 0 <= i < |s| => LowerChar(s[i]))
  }

  predicate SameKey(a: string, b: string) { Lower(a) == Lower(b) }

  // The first network of a key from index i on.
  function FindNetworkFrom(book: Book, key: string, i: nat): (k: int)
    requires i <= |book|
    ensures k == -1 || i <= k < |book|
    ensures k >= 0 ==> SameKey(book[k].gatewayMac, key)
    ensures forall j | i <= j < (if k < 0 then |book| else k) :: !SameKey(book[j].gatewayMac, key)
    decreases |book| - i
  {
    if i == |book| then -1 else if SameKey(book[i].gatewayMac, key) then i else FindNetworkFrom(book, key, i + 1)
  }

  function FindNetwork(book: Book, key: string): (k: int)
    ensures -1 <= k < |book|
    ensures k >= 0 ==> SameKey(book[k].gatewayMac, key)
    ensures forall j | 0 <= j < (if k < 0 then |book| else k) :: !SameKey(book[j].gatewayMac, key)
  {
    FindNetworkFrom(book, key, 0)
  }

  function FindDeviceFrom(devices: seq<Device>, mac: string, i: nat): (k: int)
    requires i <= |devices|
    ensures k == -1 || i <= k < |devices|
    ensures k >= 0 ==> SameKey(devices[k].mac, mac)
    ensures forall j | i <= j < (if k < 0 then |devices| else k) :: !SameKey(devices[j].mac, mac)
    decreases |devices| - i
  {
    if i == |devices| then -1 else if SameKey(devices[i].mac, mac) then i else FindDeviceFrom(devices, mac, i + 1)
  }

  function FindDevice(devices: seq<Device>, mac: string): (k: int)
    ensures -1 <= k < |devices|
    ensures k >= 0 ==> SameKey(devices[k].mac, mac)
    ensures forall j | 0 <= j < (if k < 0 then |devices| else k) :: !SameKey(devices[j].mac, mac)
  {
    FindDeviceFrom(devices, mac, 0)
  }

  // ----- applying what was learned -----

  function Or(first: string, second: string): string { if first != "" then first else second }

  function ApplyRecord(d: Device, n: Neighbor): Neighbor {
    n.(labelText := Or(d.labelText, n.labelText),
       hostname := Or(n.hostname, d.hostname),
       vendor := Or(n.vendor, d.vendor),
       icon := Or(d.icon, n.icon),
       trusted := d.trusted || n.trusted,
       deviceType := if d.hasType then d.deviceType else n.deviceType,
       hasTypeOverride := d.hasType || n.hasTypeOverride)
  }

  function DeviceIn(book: Book, key: string, mac: string): Option<Device> {
    var i := FindNetwork(book, key);
    if i < 0 then None
    else
      var j := FindDevice(book[i].devices, mac);
      if j < 0 then None else Some(book[i].devices[j])
  }

  function Apply(book: Book, key: string, n: Neighbor): Neighbor {
    if n.mac == "" then n
    else
      match DeviceIn(book, key, n.mac)
      case None => n
      case Some(d) => ApplyRecord(d, n)
  }

  // ----- observing -----

  function KeyOf(ctx: Context): string { if ctx.NoContext? then UNKNOWN_NETWORK else ctx.gatewayMac }

  function EnsureNetwork(book: Book, key: string): Book {
    if FindNetwork(book, key) >= 0 then book else book + [NewNetwork(key)]
  }

  function EnsureDevice(devices: seq<Device>, mac: string): seq<Device> {
    if FindDevice(devices, mac) >= 0 then devices else devices + [NewDevice(mac)]
  }

  function UpdateNetwork(n: Network, ctx: Context, t: Times): Network {
    var seen := n.(firstSeen := if n.firstSeen == 0 then t.networkFirst else n.firstSeen, lastSeen := t.networkLast);
    if ctx.NoContext? then seen
    else
      seen.(gatewayHostname := Or(ctx.gatewayHostname, n.gatewayHostname),
            gatewayVendor := Or(ctx.gatewayVendor, n.gatewayVendor),
            isp := if ctx.isp.Some? && ctx.isp.value.isp != "" then ctx.isp.value else n.isp)
  }

  function UpdateDevice(d: Device, n: Neighbor, t: Times): Device {
    var learns := !d.hasType && n.deviceType != UnknownDevice && n.confidence >= SURE;
    d.(firstSeen := if d.firstSeen == 0 then t.deviceFirst else d.firstSeen,
       hostname := n.hostname,
       vendor := n.vendor,
       deviceType := if learns then n.deviceType else d.deviceType,
       hasType := d.hasType || learns,
       lastSeen := t.deviceLast)
  }

  // The network part of an observation.
  function TouchNetwork(book: Book, ctx: Context, t: Times): (r: Book)
    ensures FindNetwork(r, KeyOf(ctx)) >= 0
  {
    var b := EnsureNetwork(book, KeyOf(ctx));
    FindOrAppended(book, KeyOf(ctx));
    var i := FindNetwork(b, KeyOf(ctx));
    SameGateway(b, i, UpdateNetwork(b[i], ctx, t), KeyOf(ctx));
    b[i := UpdateNetwork(b[i], ctx, t)]
  }

  // The device part.
  function TouchDevice(devices: seq<Device>, n: Neighbor, t: Times): seq<Device> {
    var ds := EnsureDevice(devices, n.mac);
    FindOrAppendedDevice(devices, n.mac);
    var j := FindDevice(ds, n.mac);
    ds[j := UpdateDevice(ds[j], n, t)]
  }

  function Observe(book: Book, ctx: Context, n: Neighbor, t: Times): Book {
    if n.mac == "" then book
    else
      var b := TouchNetwork(book, ctx, t);
      var i := FindNetwork(b, KeyOf(ctx));
      b[i := b[i].(devices := TouchDevice(b[i].devices, n, t))]
  }

  // One observation as it went: recorded, or given up after its network was updated because there was
  // no memory for its device.
  datatype Step = Recorded(ctx: Context, n: Neighbor, t: Times) | GivenUp(ctx: Context, t: Times)

  function After(book: Book, s: Step): Book {
    match s
    case Recorded(ctx, n, t) => Observe(book, ctx, n, t)
    case GivenUp(ctx, t) => TouchNetwork(book, ctx, t)
  }

  lemma {:induction false} FindOrAppended(book: Book, key: string)
    ensures FindNetwork(EnsureNetwork(book, key), key)
         == if FindNetwork(book, key) >= 0 then FindNetwork(book, key) else |book|
  {
    var b := EnsureNetwork(book, key);
    assert forall j | 0 <= j < |book| :: b[j] == book[j];
    assert |b| > |book| ==> b[|book|].gatewayMac == key;
  }

  lemma {:induction false} FindOrAppendedDevice(devices: seq<Device>, mac: string)
    ensures FindDevice(EnsureDevice(devices, mac), mac)
         == if FindDevice(devices, mac) >= 0 then FindDevice(devices, mac) else |devices|
  {
    var ds := EnsureDevice(devices, mac);
    assert forall j | 0 <= j < |devices| :: ds[j] == devices[j];
    assert |ds| > |devices| ==> ds[|devices|].mac == mac;
  }

  // Changing a network but not its key leaves every lookup where it was.
  lemma {:induction false} SameGateway(book: Book, i: nat, n: Network, key: string)
    requires i < |book| && n.gatewayMac == book[i].gatewayMac
    ensures FindNetwork(book[i := n], key) == FindNetwork(book, key)
  {
    var now := book[i := n];
    var k, l := FindNetwork(book, key), FindNetwork(now, key);
    if k >= 0 { assert SameKey(now[k].gatewayMac, key); }
    if l >= 0 { assert SameKey(book[l].gatewayMac, key); }
  }

  lemma {:induction false} SameMac(devices: seq<Device>, j: nat, d: Device, mac: string)
    requires j < |devices| && d.mac == devices[j].mac
    ensures FindDevice(devices[j := d], mac) == FindDevice(devices, mac)
  {
    var now := devices[j := d];
    var k, l := FindDevice(devices, mac), FindDevice(now, mac);
    if k >= 0 { assert SameKey(now[k].mac, mac); }
    if l >= 0 { assert SameKey(devices[l].mac, mac); }
  }
}
