// Reading and writing the device file, node by node.

module DeviceFile {
  import opened Neighbors
  import opened Options
  import opened Records
  import opened Decimal
  import opened DeviceStore
  import opened Persistence

  // ----- writing -----

  method WriteDevices(devices: Growable<Device>) returns (nodes: seq<Node>)
    requires devices.Valid()
    ensures nodes == DeviceNodes(devices.View())
  {
    ghost var all := devices.View();
    nodes := [];
    var j := 0;
    while j < devices.count
      invariant 0 <= j <= devices.count && nodes == DeviceNodes(all[..j])
    {
      nodes := nodes + [Element(DeviceElement, DeviceAttributes(devices.data[j]))];
      assert all[..j + 1][..j] == all[..j];
      j := j + 1;
    }
    assert all[..j] == all;
  }

  lemma {:induction false} BookStep(book: Book, i: nat)
    requires i < |book|
    ensures BookNodes(book[..i + 1]) == BookNodes(book[..i]) + NetworkNodes(book[i])
  {
    assert book[..i + 1][..i] == book[..i];
  }

  method WriteNetwork(row: Row) returns (nodes: seq<Node>)
    requires row.devices.Valid()
    ensures nodes == NetworkNodes(NetworkOf(row))
  {
    var devices := WriteDevices(row.devices);
    nodes := [Element(NetworkElement, NetworkAttributes(row.header))] + devices
             + if row.devices.count == 0 then [] else [OtherNode];
  }

  method WriteStore(store: Store) returns (nodes: seq<Node>)
    requires store.Valid()
    ensures nodes == Save(store.View())
  {
    ghost var book := store.View();
    var body: seq<Node> := [];
    var i := 0;
    while i < store.networks.count
      invariant 0 <= i <= store.networks.count && body == BookNodes(book[..i])
    {
      store.RowAt(i);
      var part := WriteNetwork(store.networks.data[i]);
      body := body + part;
      BookStep(book, i);
      i := i + 1;
    }
    assert book[..i] == book;
    nodes := [OtherNode, Element(Root, [Attribute(Version, "2")])] + body
             + if store.networks.count == 0 then [] else [OtherNode];
  }

  // ----- reading -----

  method FindAttribute(attributes: seq<Attribute>, key: Key) returns (v: Option<string>)
    ensures v == ValueOf(attributes, key)
  {
    var i := 0;
    while i < |attributes|
      invariant 0 <= i <= |attributes| && ValueOf(attributes, key) == ValueOf(attributes[i..], key)
    {
      if attributes[i].key == key { return Some(attributes[i].value); }
      i := i + 1;
    }
    v := None;
  }

  method ReadDeviceAttributes(attributes: seq<Attribute>) returns (d: Device)
    ensures d == ReadDevice(NewDevice(""), Considered(attributes))
  {
    d := NewDevice("");
    var guard := 0;
    ghost var all := Considered(attributes);
    while guard < ATTRIBUTE_LIMIT && guard < |attributes|
      invariant 0 <= guard <= |all| && ReadDevice(NewDevice(""), all) == ReadDevice(d, all[guard..])
    {
      assert all[guard..][1..] == all[guard + 1..];
      d := SetDevice(d, attributes[guard]);
      guard := guard + 1;
    }
  }

  method ReadNetworkAttributes(start: Network, attributes: seq<Attribute>) returns (n: Network)
    ensures n == ReadNetwork(start, Considered(attributes))
  {
    n := start;
    var guard := 0;
    ghost var all := Considered(attributes);
    while guard < ATTRIBUTE_LIMIT && guard < |attributes|
      invariant 0 <= guard <= |all| && ReadNetwork(start, all) == ReadNetwork(n, all[guard..])
    {
      assert all[guard..][1..] == all[guard + 1..];
      n := SetNetwork(n, attributes[guard]);
      guard := guard + 1;
    }
  }

  // The attributes of a network say nothing about its devices.
  lemma {:induction false} ReadNetworkBesideDevices(n: Network, attributes: seq<Attribute>, devices: seq<Device>)
    ensures ReadNetwork(n.(devices := devices), attributes) == ReadNetwork(n, attributes).(devices := devices)
    decreases |attributes|
  {
    if attributes != [] { ReadNetworkBesideDevices(SetNetwork(n, attributes[0]), attributes[1..], devices); }
  }

  // Folds the attributes of a network element into a network of the store.
  method RefreshHeader(store: Store, i: nat, attributes: seq<Attribute>)
    requires store.Valid() && i < store.networks.count
    modifies store.Repr
    ensures store.Valid() && store.Repr == old(store.Repr)
    ensures store.View() == old(store.View())[i := ReadNetwork(old(store.View())[i], Considered(attributes))]
  {
    store.RowAt(i);
    var header := store.networks.data[i].header;
    var read := ReadNetworkAttributes(header, attributes);
    ReadNetworkBesideDevices(header, Considered(attributes), store.View()[i].devices);
    store.PutHeader(i, read);
  }

  method ReadNetworkInto(store: Store, attributes: seq<Attribute>, ghost r: Reader) returns (current: int)
    requires store.Valid() && ReaderOk(r) && store.View() == r.book
    modifies store.Repr
    ensures store.Valid() && fresh(store.Repr - old(store.Repr))
    ensures var q := ReadNetworkElement(r, attributes); store.View() == q.book && current == q.current
  {
    var key := FindAttribute(attributes, GatewayMac);
    current := store.FindOrCreateNetwork(if key.Some? then key.value else "", true);
    RefreshHeader(store, current, attributes);
  }

  lemma {:induction false} StoredAfterEnsured(book: Book, i: nat, d: Device)
    requires i < |book|
    ensures var ds := EnsureDevice(book[i].devices, d.mac);
            var now := book[i := book[i].(devices := ds)];
            && FindDevice(ds, d.mac) >= 0
            && now[i := now[i].(devices := now[i].devices[FindDevice(ds, d.mac) := d])]
               == book[i := book[i].(devices := StoreDevice(book[i].devices, d))]
  {
    FindOrAppendedDevice(book[i].devices, d.mac);
  }

  method StoreHeader(store: Store, i: nat, d: Device)
    requires store.Valid() && i < store.networks.count
    modifies store.Repr
    ensures store.Valid() && fresh(store.Repr - old(store.Repr))
    ensures var n := old(store.View())[i];
            store.View() == old(store.View())[i := n.(devices := StoreDevice(n.devices, d))]
  {
    ghost var book := store.View();
    var j := store.FindOrCreateDevice(i, d.mac, true);
    StoredAfterEnsured(book, i, d);
    store.PutDevice(i, j, d);
  }

  // The network device elements go to: the current one, or the unknown network before the first.
  ghost function Entered(r: Reader): (e: Reader)
    requires ReaderOk(r)
    ensures ReaderOk(e) && e.current >= 0
  {
    if r.current >= 0 then r else EnterNetwork(r, UNKNOWN_NETWORK)
  }

  ghost function Filed(book: Book, i: nat, d: Device): Book
    requires i < |book|
  {
    if d.mac == "" then book else book[i := book[i].(devices := StoreDevice(book[i].devices, d))]
  }

  lemma {:induction false} ReadDeviceElementFiles(r: Reader, attributes: seq<Attribute>)
    requires ReaderOk(r)
    ensures var e, d := Entered(r), ReadDevice(NewDevice(""), Considered(attributes));
            ReadDeviceElement(r, attributes) == e.(book := Filed(e.book, e.current, d))
  {
  }

  method EnterCurrent(store: Store, at: int, ghost r: Reader) returns (current: nat)
    requires store.Valid() && ReaderOk(r) && store.View() == r.book && at == r.current
    modifies store.Repr
    ensures store.Valid() && fresh(store.Repr - old(store.Repr))
    ensures store.View() == Entered(r).book && current == Entered(r).current
  {
    if at >= 0 { return at; }
    var k := store.FindOrCreateNetwork(UNKNOWN_NETWORK, true);
    current := k;
  }

  method FileHeader(store: Store, i: nat, d: Device)
    requires store.Valid() && i < store.networks.count
    modifies store.Repr
    ensures store.Valid() && fresh(store.Repr - old(store.Repr))
    ensures store.View() == Filed(old(store.View()), i, d)
  {
    if d.mac != "" { StoreHeader(store, i, d); }
  }

  method ReadDeviceInto(store: Store, attributes: seq<Attribute>, at: int, ghost r: Reader) returns (current: int)
    requires store.Valid() && ReaderOk(r) && store.View() == r.book && at == r.current
    modifies store.Repr
    ensures store.Valid() && fresh(store.Repr - old(store.Repr))
    ensures var q := ReadDeviceElement(r, attributes); store.View() == q.book && current == q.current
  {
    ReadDeviceElementFiles(r, attributes);
    var k := EnterCurrent(store, at, r);
    var d := ReadDeviceAttributes(attributes);
    FileHeader(store, k, d);
    current := k;
  }

  // The local variables of the reading loop.
  datatype Cursor = Cursor(rootSeen: bool, version: int, current: int)

  ghost function Standing(book: Book, c: Cursor): Reader { Reader(book, c.rootSeen, c.version, c.current) }

  method ReadNodeInto(store: Store, node: Node, c: Cursor, ghost r: Reader) returns (after: Cursor)
    requires store.Valid() && ReaderOk(r) && r == Standing(store.View(), c)
    modifies store.Repr
    ensures store.Valid() && fresh(store.Repr - old(store.Repr))
    ensures ReadNode(r, node) == Standing(store.View(), after)
  {
    after := c;
    if node.OtherNode? { return; }
    if !c.rootSeen {
      after := after.(rootSeen := true);
      var text := FindAttribute(node.attributes, Version);
      if text.Some? { after := after.(version := ParseInt(text.value, MAX_INT)); }
    } else if node.name == NetworkElement {
      var current := ReadNetworkInto(store, node.attributes, r);
      after := after.(current := current);
    } else if node.name == DeviceElement {
      var current := ReadDeviceInto(store, node.attributes, c.current, r);
      after := after.(current := current);
    }
  }

  lemma {:induction false} ReadUpTo(r: Reader, nodes: seq<Node>, i: nat)
    requires ReaderOk(r) && i < |nodes|
    ensures ReadNodes(r, nodes[..i + 1]) == ReadNode(ReadNodes(r, nodes[..i]), nodes[i])
  {
    assert nodes[..i + 1][..i] == nodes[..i];
  }

  // Builds a store from the nodes of a file and reports whether the file is of an older schema.
  method ReadStore(nodes: seq<Node>) returns (store: Store, migrated: bool)
    ensures fresh(store) && fresh(store.Repr) && store.Valid()
    ensures store.View() == Load(nodes) && migrated == Outdated(nodes)
  {
    store := new Store();
    var c := Cursor(false, 1, -1);
    var guard := 0;
    ghost var all := Limited(nodes);
    assert all[..0] == [];
    while guard < NODE_LIMIT && guard < |nodes|
      invariant 0 <= guard <= |all| && store.Valid()
      invariant fresh(store) && fresh(store.Repr)
      invariant ReadNodes(BEGIN, all[..guard]) == Standing(store.View(), c)
    {
      ReadUpTo(BEGIN, all, guard);
      c := ReadNodeInto(store, nodes[guard], c, ReadNodes(BEGIN, all[..guard]));
      guard := guard + 1;
    }
    assert all[..guard] == all;
    migrated := c.version < SCHEMA_VERSION;
  }

  // The file after saving: what was written takes its place once it has been moved there, otherwise it
  // stays as it was.
  method SaveStore(store: Store, before: seq<Node>, moved: bool) returns (file: seq<Node>)
    requires store.Valid()
    ensures file == if moved then Save(store.View()) else before
  {
    file := WriteStore(store);
    if !moved { file := before; }
  }

  // Opens the store of a file, rewriting the file when it is of an older schema.
  method OpenStore(nodes: seq<Node>, moved: bool) returns (store: Store, file: seq<Node>)
    ensures fresh(store) && fresh(store.Repr) && store.Valid()
    ensures store.View() == Load(nodes) && file == if moved then FileAfterOpen(nodes) else nodes
  {
    file := nodes;
    var migrated;
    store, migrated := ReadStore(nodes);
    if migrated { file := SaveStore(store, nodes, moved); }
  }

  // Records an observation and, when it was recorded, writes the file anew.
  method ObserveAndSave(store: Store, ctx: Context, n: Neighbor, t: Times, networkMemory: bool, deviceMemory: bool,
                        before: seq<Node>, moved: bool) returns (file: seq<Node>, outcome: Outcome)
    requires store.Valid()
    modifies store.Repr
    ensures store.Valid() && fresh(store.Repr - old(store.Repr))
    ensures outcome == Ignored <==> n.mac == ""
    ensures networkMemory && deviceMemory && n.mac != "" ==> outcome == Stored
    ensures outcome == Ignored || outcome == NoNetworkRoom ==> store.View() == old(store.View())
    ensures outcome == NoDeviceRoom ==> store.View() == TouchNetwork(old(store.View()), ctx, t)
    ensures outcome == Stored ==> store.View() == Observe(old(store.View()), ctx, n, t)
    ensures file == if outcome == Stored && moved then Save(store.View()) else before
  {
    outcome := store.ObserveNeighbor(ctx, n, t, networkMemory, deviceMemory);
    file := before;
    if outcome == Stored { file := SaveStore(store, before, moved); }
  }
}
