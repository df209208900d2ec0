// What holds of every device file: loading always yields a store that can be written, an old flat file
// lands under the unknown network, and opening rewrites a file at most once.

module Migration {
  import opened Neighbors
  import opened Options
  import opened Records
  import opened RecordLaws
  import opened Decimal
  import opened Persistence

  // ----- whatever the file, what is loaded can be saved -----

  ghost predicate FittingDevice(d: Device) {
    && (d.hasType <==> d.deviceType != UnknownDevice)
    && d.firstSeen <= MAX_UINT64 && d.lastSeen <= MAX_UINT64
  }

  lemma {:induction false} SetDeviceFits(d: Device, a: Attribute)
    requires FittingDevice(d)
    ensures FittingDevice(SetDevice(d, a))
  {
    match a.key
    case Type => TypeFits(d, a.value);
    case FirstSeen => assert SetDevice(d, a) == d.(firstSeen := ParseUpTo(a.value, MAX_UINT64));
    case LastSeen => assert SetDevice(d, a) == d.(lastSeen := ParseUpTo(a.value, MAX_UINT64));
    case _ =>
  }

  lemma {:induction false} TypeFits(d: Device, text: string)
    requires FittingDevice(d)
    ensures FittingDevice(d.(deviceType := TypeOf(text), hasType := TypeOf(text) != UnknownDevice))
  {
  }

  lemma {:induction false} ReadDeviceFits(d: Device, attributes: seq<Attribute>)
    requires FittingDevice(d)
    ensures FittingDevice(ReadDevice(d, attributes))
    decreases |attributes|
  {
    if attributes != [] {
      SetDeviceFits(d, attributes[0]);
      ReadDeviceFits(SetDevice(d, attributes[0]), attributes[1..]);
    }
  }

  ghost predicate FittingNetwork(n: Network) {
    n.firstSeen <= MAX_UINT64 && n.lastSeen <= MAX_UINT64 && FittingDevices(n.devices)
  }

  // Network attributes never touch the key or the devices.
  lemma {:induction false} ReadNetworkFits(n: Network, attributes: seq<Attribute>)
    requires FittingNetwork(n)
    ensures FittingNetwork(ReadNetwork(n, attributes))
    ensures ReadNetwork(n, attributes).gatewayMac == n.gatewayMac && ReadNetwork(n, attributes).devices == n.devices
    decreases |attributes|
  {
    if attributes != [] { ReadNetworkFits(SetNetwork(n, attributes[0]), attributes[1..]); }
  }

  lemma {:induction false} ReplaceKeepsStorable(book: Book, i: nat, n: Network)
    requires Storable(book) && i < |book| && n.gatewayMac == book[i].gatewayMac && FittingNetwork(n)
    ensures Storable(book[i := n])
  {
    ReplaceKeepsUnique(book, i, n);
    ReplaceKeepsProper(book, i, n);
  }

  lemma {:induction false} PartsFit(book: Book, i: nat)
    requires Storable(book) && i < |book|
    ensures FittingNetwork(book[i])
  {
  }

  lemma {:induction false} EnterKeepsStorable(r: Reader, key: string)
    requires Storable(r.book)
    ensures Storable(EnterNetwork(r, key).book)
  {
    EnsureNetworkKeepsUnique(r.book, key);
    EnsureNetworkKeepsProper(r.book, key);
  }

  lemma {:induction false} EnsureKeepsFitting(devices: seq<Device>, mac: string)
    requires FittingDevices(devices) && mac != ""
    ensures FittingDevices(EnsureDevice(devices, mac))
  {
    assert ProperDevice(NewDevice(mac));
  }

  lemma {:induction false} PutKeepsFitting(devices: seq<Device>, j: nat, d: Device)
    requires FittingDevices(devices) && j < |devices| && SameKey(devices[j].mac, d.mac)
    requires FittingDevice(d) && d.mac != ""
    ensures FittingDevices(devices[j := d])
  {
    StoreKeepsUnique(devices, j, d);
  }

  lemma {:induction false} StoreKeepsFitting(devices: seq<Device>, d: Device)
    requires FittingDevices(devices) && FittingDevice(d) && d.mac != ""
    ensures FittingDevices(StoreDevice(devices, d))
  {
    var ds := EnsureDevice(devices, d.mac);
    FindOrAppendedDevice(devices, d.mac);
    EnsureKeepsFitting(devices, d.mac);
    PutKeepsFitting(ds, FindDevice(ds, d.mac), d);
  }

  lemma {:induction false} StoreKeepsUnique(devices: seq<Device>, j: nat, d: Device)
    requires UniqueDevices(devices) && j < |devices| && SameKey(devices[j].mac, d.mac)
    ensures UniqueDevices(devices[j := d])
  {
  }

  lemma {:induction false} ReadNetworkElementKeepsStorable(r: Reader, attributes: seq<Attribute>)
    requires ReaderOk(r) && Storable(r.book)
    ensures Storable(ReadNetworkElement(r, attributes).book)
  {
    var v := ValueOf(attributes, GatewayMac);
    var key := if v.Some? then v.value else "";
    var e := EnterNetwork(r, key);
    EnterKeepsStorable(r, key);
    PartsFit(e.book, e.current);
    ReadNetworkFits(e.book[e.current], Considered(attributes));
    ReplaceKeepsStorable(e.book, e.current, ReadNetwork(e.book[e.current], Considered(attributes)));
  }

  lemma {:induction false} ReadDeviceElementKeepsStorable(r: Reader, attributes: seq<Attribute>)
    requires ReaderOk(r) && Storable(r.book)
    ensures Storable(ReadDeviceElement(r, attributes).book)
  {
    var e := if r.current >= 0 then r else EnterNetwork(r, UNKNOWN_NETWORK);
    EnterKeepsStorable(r, UNKNOWN_NETWORK);
    var d := ReadDevice(NewDevice(""), Considered(attributes));
    ReadDeviceFits(NewDevice(""), Considered(attributes));
    if d.mac != "" {
      PartsFit(e.book, e.current);
      StoreKeepsFitting(e.book[e.current].devices, d);
      ReplaceKeepsStorable(e.book, e.current, e.book[e.current].(devices := StoreDevice(e.book[e.current].devices, d)));
    }
  }

  lemma {:induction false} ReadNodeKeepsStorable(q: Reader, node: Node)
    requires ReaderOk(q) && Storable(q.book)
    ensures Storable(ReadNode(q, node).book)
  {
    if node.Element? {
      ReadNetworkElementKeepsStorable(q, node.attributes);
      ReadDeviceElementKeepsStorable(q, node.attributes);
    }
  }

  lemma {:induction false} ReadKeepsStorable(r: Reader, nodes: seq<Node>)
    requires ReaderOk(r) && Storable(r.book)
    ensures Storable(ReadNodes(r, nodes).book)
  {
    if nodes != [] {
      var n := |nodes| - 1;
      ReadKeepsStorable(r, nodes[..n]);
      ReadNodeKeepsStorable(ReadNodes(r, nodes[..n]), nodes[n]);
    }
  }

  // Any file at all, well-formed or not, loads to a store with unique keys, a MAC on every device, a
  // type marked as learned exactly when it is known, and times that fit their fields.
  lemma {:induction false} LoadedIsStorable(nodes: seq<Node>)
    ensures Storable(Load(nodes))
  {
    ReadKeepsStorable(BEGIN, Limited(nodes));
  }

  // ----- exactly when a saved store comes back -----

  function Total(book: Book): nat {
    if book == [] then 0 else Total(book[..|book| - 1]) + 1 + |book[|book| - 1].devices|
  }

  function Elements(nodes: seq<Node>): nat {
    if nodes == [] then 0
    else Elements(nodes[..|nodes| - 1]) + if nodes[|nodes| - 1].Element? then 1 else 0
  }

  lemma {:induction false} ElementsConcat(a: seq<Node>, b: seq<Node>)
    ensures Elements(a + b) == Elements(a) + Elements(b)
  {
    if b == [] {
      assert a + b == a;
    } else {
      assert (a + b)[..|a + b| - 1] == a + b[..|b| - 1];
      ElementsConcat(a, b[..|b| - 1]);
    }
  }

  lemma {:induction false} TotalReplaced(book: Book, i: nat, n: Network)
    requires i < |book|
    ensures Total(book[i := n]) == Total(book) - |book[i].devices| + |n.devices|
  {
    var last := |book| - 1;
    if i < last {
      TotalReplaced(book[..last], i, n);
      assert book[i := n][..last] == book[..last][i := n];
    } else {
      assert book[i := n][..last] == book[..last];
    }
  }

  lemma {:induction false} TotalAppended(book: Book, n: Network)
    ensures Total(book + [n]) == Total(book) + 1 + |n.devices|
  {
    assert (book + [n])[..|book|] == book;
  }

  lemma {:induction false} EnterAddsOne(r: Reader, key: string)
    requires ReaderOk(r)
    ensures Total(EnterNetwork(r, key).book) <= Total(r.book) + 1
  {
    TotalAppended(r.book, NewNetwork(key));
  }

  lemma {:induction false} NetworkElementAddsOne(r: Reader, attributes: seq<Attribute>)
    requires ReaderOk(r) && Storable(r.book)
    ensures var q := ReadNetworkElement(r, attributes);
            q.rootSeen == r.rootSeen && q.current >= 0 && Total(q.book) <= Total(r.book) + 1
  {
    var v := ValueOf(attributes, GatewayMac);
    var key := if v.Some? then v.value else "";
    var e := EnterNetwork(r, key);
    EnterAddsOne(r, key);
    EnterKeepsStorable(r, key);
    PartsFit(e.book, e.current);
    ReadNetworkFits(e.book[e.current], Considered(attributes));
    TotalReplaced(e.book, e.current, ReadNetwork(e.book[e.current], Considered(attributes)));
  }

  lemma {:induction false} DeviceElementAddsOne(r: Reader, attributes: seq<Attribute>)
    requires ReaderOk(r) && r.current >= 0
    ensures var q := ReadDeviceElement(r, attributes);
            q.rootSeen == r.rootSeen && q.current >= 0 && Total(q.book) <= Total(r.book) + 1
  {
    var d := ReadDevice(NewDevice(""), Considered(attributes));
    var n := r.book[r.current];
    TotalReplaced(r.book, r.current, n.(devices := StoreDevice(n.devices, d)));
  }

  lemma {:induction false} NodeAddsAtMostOne(q: Reader, node: Node)
    requires q.rootSeen && ReaderOk(q) && q.current >= 0 && Storable(q.book)
    ensures var next := ReadNode(q, node);
            next.rootSeen && next.current >= 0 && Total(next.book) <= Total(q.book) + if node.Element? then 1 else 0
  {
    if node.Element? && node.name == NetworkElement {
      NetworkElementAddsOne(q, node.attributes);
    } else if node.Element? && node.name == DeviceElement {
      DeviceElementAddsOne(q, node.attributes);
    }
  }

  // Inside a network, every element adds at most one network or one device.
  lemma {:induction false} ReadingAddsAtMostOneEach(r: Reader, nodes: seq<Node>)
    requires r.rootSeen && ReaderOk(r) && r.current >= 0 && Storable(r.book)
    ensures var q := ReadNodes(r, nodes);
            q.rootSeen && q.current >= 0 && Total(q.book) <= Total(r.book) + Elements(nodes)
  {
    if nodes != [] {
      var n := |nodes| - 1;
      ReadingAddsAtMostOneEach(r, nodes[..n]);
      ReadKeepsStorable(r, nodes[..n]);
      NodeAddsAtMostOne(ReadNodes(r, nodes[..n]), nodes[n]);
    }
  }

  lemma {:induction false} DeviceElements(devices: seq<Device>)
    ensures Elements(DeviceNodes(devices)) == |devices| == |DeviceNodes(devices)|
  {
    if devices != [] {
      var n := |devices| - 1;
      DeviceElements(devices[..n]);
      ElementsConcat(DeviceNodes(devices[..n]), [Element(DeviceElement, DeviceAttributes(devices[n]))]);
    }
  }

  lemma {:induction false} NetworkElements(n: Network)
    ensures Elements(NetworkNodes(n)) == 1 + |n.devices|
  {
    var start, end := [Element(NetworkElement, NetworkAttributes(n))], if n.devices == [] then [] else [OtherNode];
    DeviceElements(n.devices);
    assert start[..0] == [] && [OtherNode][..0] == [];
    ElementsConcat(start, DeviceNodes(n.devices));
    ElementsConcat(start + DeviceNodes(n.devices), end);
  }

  lemma {:induction false} BookElements(book: Book)
    ensures Elements(BookNodes(book)) == Total(book)
  {
    if book != [] {
      var n := |book| - 1;
      BookElements(book[..n]);
      NetworkElements(book[n]);
      ElementsConcat(BookNodes(book[..n]), NetworkNodes(book[n]));
    }
  }

  // How many end tags a saved file finishes with.
  function EndTags(book: Book): nat {
    if book == [] then 0 else if book[|book| - 1].devices == [] then 1 else 2
  }

  // The position just after the last start tag of a saved file.
  function LastStart(book: Book): (n: nat)
    ensures n + EndTags(book) == |Save(book)|
  {
    |Save(book)| - EndTags(book)
  }

  lemma {:induction false} NetworkNodesEnd(n: Network)
    ensures var all, k := NetworkNodes(n), if n.devices == [] then 0 else 1;
            |all| > k && all[|all| - 1 - k].Element? && (k == 1 ==> all[|all| - 1] == OtherNode)
  {
    DeviceElements(n.devices);
  }

  lemma {:induction false} SavedEnd(book: Book)
    ensures var all, k := Save(book), LastStart(book);
            k > 0 && all[k - 1].Element? && forall i | k <= i < |all| :: all[i] == OtherNode
  {
    if book != [] { NetworkNodesEnd(book[|book| - 1]); }
  }

  lemma {:induction false} FirstNodeOfBook(book: Book)
    requires book != []
    ensures BookNodes(book) != [] && BookNodes(book)[0].Element? && BookNodes(book)[0].name == NetworkElement
  {
    if |book| > 1 { FirstNodeOfBook(book[..|book| - 1]); }
  }

  lemma {:induction false} SavedHead(book: Book)
    requires book != []
    ensures |Save(book)| >= 3 && Save(book)[0] == OtherNode && Save(book)[1] == Element(Root, [Attribute(Version, "2")])
    ensures Save(book)[2].Element? && Save(book)[2].name == NetworkElement
  {
    FirstNodeOfBook(book);
  }

  lemma {:induction false} TrailingIgnored(r: Reader, nodes: seq<Node>, k: nat)
    requires ReaderOk(r) && k <= |nodes| && forall i | k <= i < |nodes| :: nodes[i] == OtherNode
    ensures ReadNodes(r, nodes) == ReadNodes(r, nodes[..k])
  {
    if k < |nodes| {
      TrailingIgnored(r, nodes[..|nodes| - 1], k);
      assert nodes[..|nodes| - 1][..k] == nodes[..k];
    } else {
      assert nodes[..k] == nodes;
    }
  }

  lemma {:induction false} HeadRead(root: Node)
    requires root == Element(Root, [Attribute(Version, "2")])
    ensures ReadNodes(BEGIN, [OtherNode, root]) == Reader([], true, SCHEMA_VERSION, -1)
  {
    assert [OtherNode, root] == [OtherNode] + [root];
    ReadConcat(BEGIN, [OtherNode], [root]);
    ReadOther(BEGIN);
    ReadOne(BEGIN, root);
    SavedVersion();
  }

  lemma {:induction false} SavedReads(book: Book)
    requires Storable(book)
    ensures ReadNodes(BEGIN, Save(book)).book == book
  {
    var root := Element(Root, [Attribute(Version, "2")]);
    var end := if book == [] then [] else [OtherNode];
    var r := Reader([], true, SCHEMA_VERSION, -1);
    HeadRead(root);
    ReadConcat(BEGIN, [OtherNode, root], BookNodes(book));
    BookComesBack(r, book);
    ReadConcat(BEGIN, [OtherNode, root] + BookNodes(book), end);
    ReadOther(r.(book := book, current := |book| - 1));
  }

  lemma {:induction false} SavedFitsComesBack(book: Book)
    requires Storable(book) && LastStart(book) <= NODE_LIMIT
    ensures Load(Save(book)) == book
  {
    var all, k := Save(book), LastStart(book);
    SavedEnd(book);
    SavedReads(book);
    TrailingIgnored(BEGIN, all, k);
    assert Limited(all)[..k] == all[..k];
    TrailingIgnored(BEGIN, Limited(all), k);
  }

  lemma {:induction false} CutLosesAnElement(nodes: seq<Node>, cut: nat, k: nat)
    requires 3 <= cut <= k < |nodes| && nodes[k].Element? && nodes[1].Element? && nodes[2].Element?
    ensures Elements(nodes[3..cut]) + 3 <= Elements(nodes)
  {
    var mid, last, rest := nodes[cut..k], nodes[k..k + 1], nodes[k + 1..];
    var a, b := nodes[..1], nodes[1..3];
    assert nodes == nodes[..cut] + (mid + (last + rest));
    assert nodes[..cut] == (a + b) + nodes[3..cut];
    ElementsConcat(nodes[..cut], mid + (last + rest));
    ElementsConcat(mid, last + rest);
    ElementsConcat(last, rest);
    ElementsConcat(a + b, nodes[3..cut]);
    ElementsConcat(a, b);
    TwoElements(b);
    OneElement(last);
  }

  lemma {:induction false} OneElement(nodes: seq<Node>)
    requires |nodes| == 1 && nodes[0].Element?
    ensures Elements(nodes) == 1
  {
    assert nodes[..0] == [];
  }

  lemma {:induction false} TwoElements(nodes: seq<Node>)
    requires |nodes| == 2 && nodes[0].Element? && nodes[1].Element?
    ensures Elements(nodes) == 2
  {
    OneElement(nodes[..1]);
  }

  lemma {:induction false} SavedElements(book: Book)
    ensures Elements(Save(book)) == Total(book) + 1
  {
    var root := Element(Root, [Attribute(Version, "2")]);
    var end := if book == [] then [] else [OtherNode];
    BookElements(book);
    OneElement([root]);
    assert [OtherNode][..0] == [];
    assert [OtherNode, root] == [OtherNode] + [root];
    ElementsConcat([OtherNode], [root]);
    ElementsConcat([OtherNode, root], BookNodes(book));
    ElementsConcat([OtherNode, root] + BookNodes(book), end);
  }

  lemma {:induction false} NetworkNodeRead(r: Reader, node: Node)
    requires ReaderOk(r) && r.rootSeen && Storable(r.book) && node.Element? && node.name == NetworkElement
    ensures var q := ReadNodes(r, [node]);
            q.rootSeen && q.current >= 0 && Total(q.book) <= Total(r.book) + 1 && Storable(q.book)
  {
    ReadOne(r, node);
    NetworkElementAddsOne(r, node.attributes);
    ReadNodeKeepsStorable(r, node);
  }

  lemma {:induction false} FirstThreeRead(nodes: seq<Node>)
    requires |nodes| == 3 && nodes[0] == OtherNode && nodes[1] == Element(Root, [Attribute(Version, "2")])
    requires nodes[2].Element? && nodes[2].name == NetworkElement
    ensures var q := ReadNodes(BEGIN, nodes);
            q.rootSeen && q.current >= 0 && Total(q.book) <= 1 && Storable(q.book)
  {
    var r := Reader([], true, SCHEMA_VERSION, -1);
    assert nodes == [OtherNode, nodes[1]] + [nodes[2]];
    HeadRead(nodes[1]);
    ReadConcat(BEGIN, [OtherNode, nodes[1]], [nodes[2]]);
    NetworkNodeRead(r, nodes[2]);
  }

  lemma {:induction false} ReadingOn(head: seq<Node>, tail: seq<Node>)
    requires var q := ReadNodes(BEGIN, head);
             q.rootSeen && q.current >= 0 && Total(q.book) <= 1 && Storable(q.book)
    ensures Total(ReadNodes(BEGIN, head + tail).book) <= 1 + Elements(tail)
  {
    ReadConcat(BEGIN, head, tail);
    ReadingAddsAtMostOneEach(ReadNodes(BEGIN, head), tail);
  }

  lemma {:induction false} CutLoads(nodes: seq<Node>)
    requires |nodes| > NODE_LIMIT && nodes[0] == OtherNode && nodes[1] == Element(Root, [Attribute(Version, "2")])
    requires nodes[2].Element? && nodes[2].name == NetworkElement
    ensures Total(Load(nodes)) <= 1 + Elements(nodes[3..NODE_LIMIT])
  {
    FirstThreeRead(nodes[..3]);
    ReadingOn(nodes[..3], nodes[3..NODE_LIMIT]);
    assert nodes[..NODE_LIMIT] == nodes[..3] + nodes[3..NODE_LIMIT];
  }

  lemma {:induction false} SavedCutLosesSome(book: Book)
    requires Storable(book) && LastStart(book) > NODE_LIMIT
    ensures Total(Load(Save(book))) < Total(book)
  {
    SavedHead(book);
    SavedEnd(book);
    CutLoads(Save(book));
    CutLosesAnElement(Save(book), NODE_LIMIT, LastStart(book) - 1);
    SavedElements(book);
  }

  // Loading what was saved rebuilds the same store, in the same order, exactly when the last start tag
  // of the file is within the reader's node limit.
  lemma {:induction false} SavedBookComesBackIff(book: Book)
    requires Storable(book)
    ensures Load(Save(book)) == book <==> LastStart(book) <= 100_000
  {
    if LastStart(book) <= NODE_LIMIT { SavedFitsComesBack(book); } else { SavedCutLosesSome(book); }
  }

  // ----- opening a file -----

  lemma {:induction false} VersionStays(r: Reader, nodes: seq<Node>)
    requires ReaderOk(r) && r.rootSeen
    ensures ReadNodes(r, nodes).version == r.version && ReadNodes(r, nodes).rootSeen
  {
    if nodes != [] {
      VersionStays(r, nodes[..|nodes| - 1]);
    }
  }

  lemma {:induction false} SavedIsCurrent(book: Book)
    ensures !Outdated(Save(book))
  {
    var all, root := Limited(Save(book)), Element(Root, [Attribute(Version, "2")]);
    assert all[..2] == [OtherNode, root];
    HeadRead(root);
    assert all == all[..2] + all[2..];
    ReadConcat(BEGIN, all[..2], all[2..]);
    VersionStays(ReadNodes(BEGIN, all[..2]), all[2..]);
  }

  // Opening rewrites a file at most once, and reloading the rewritten file gives the store of the old
  // one, exactly when nothing was rewritten or the rewritten file is within the node limit.
  lemma {:induction false} MigrationChangesNothing(nodes: seq<Node>)
    ensures !Outdated(FileAfterOpen(nodes)) && FileAfterOpen(FileAfterOpen(nodes)) == FileAfterOpen(nodes)
    ensures Load(FileAfterOpen(nodes)) == Load(nodes)
            <==> !Outdated(nodes) || LastStart(Load(nodes)) <= NODE_LIMIT
  {
    SavedIsCurrent(Load(nodes));
    LoadedIsStorable(nodes);
    SavedBookComesBackIff(Load(nodes));
  }
}
