// The original flat layout, a list of devices without networks, and stores reached by any run.

module FlatFiles {
  import opened Neighbors
  import opened Options
  import opened Slices
  import opened Records
  import opened RecordLaws
  import opened Decimal
  import opened Persistence
  import opened Migration

  // ----- the flat layout -----

  ghost predicate NoElements(nodes: seq<Node>) { forall i | 0 <= i < |nodes| :: nodes[i] == OtherNode }

  ghost predicate NoNetworks(nodes: seq<Node>) {
    forall i | 0 <= i < |nodes| :: nodes[i].Element? ==> nodes[i].name != NetworkElement
  }

  predicate OldVersion(attributes: seq<Attribute>) {
    var v := ValueOf(attributes, Version);
    v.Some? ==> ParseInt(v.value, MAX_INT) < SCHEMA_VERSION
  }

  // A file in the flat layout: a root of an older version, then devices but no network.
  ghost predicate Flat(before: seq<Node>, root: Node, rest: seq<Node>) {
    NoElements(before) && root.Element? && OldVersion(root.attributes) && NoNetworks(rest)
  }

  function HeaderOf(attributes: seq<Attribute>): Device { ReadDevice(NewDevice(""), Considered(attributes)) }

  predicate IsDeviceNode(node: Node) { node.Element? && node.name == DeviceElement }

  // The last device element of a MAC.
  function LastHeader(nodes: seq<Node>, mac: string): Option<Device> {
    if nodes == [] then None
    else
      var node := nodes[|nodes| - 1];
      if IsDeviceNode(node) && HeaderOf(node.attributes).mac != "" && SameKey(mac, HeaderOf(node.attributes).mac)
      then Some(HeaderOf(node.attributes))
      else LastHeader(nodes[..|nodes| - 1], mac)
  }

  ghost predicate HasDevice(nodes: seq<Node>) { exists i | 0 <= i < |nodes| :: IsDeviceNode(nodes[i]) }

  lemma {:induction false} PutKeepsOthers(devices: seq<Device>, j: nat, d: Device, mac: string)
    requires j < |devices| && SameKey(devices[j].mac, d.mac) && !SameKey(mac, d.mac)
    ensures DeviceAt(devices[j := d], mac) == DeviceAt(devices, mac)
  {
    var now := devices[j := d];
    var k, l := FindDevice(devices, mac), FindDevice(now, mac);
    assert k >= 0 ==> k != j && SameKey(now[k].mac, mac);
    assert l >= 0 ==> l != j && SameKey(devices[l].mac, mac);
  }

  lemma {:induction false} PutIsFound(devices: seq<Device>, d: Device)
    requires FindDevice(devices, d.mac) >= 0
    ensures FindDevice(devices[FindDevice(devices, d.mac) := d], d.mac) == FindDevice(devices, d.mac)
  {
    var j := FindDevice(devices, d.mac);
    assert forall i | 0 <= i < j :: devices[j := d][i] == devices[i];
    assert devices[j := d][j] == d;
  }

  // Storing a read device is a point update, whatever the case of its MAC.
  lemma {:induction false} StoreIsPointUpdate(devices: seq<Device>, d: Device, mac: string)
    ensures DeviceAt(StoreDevice(devices, d), mac) == if SameKey(mac, d.mac) then Some(d) else DeviceAt(devices, mac)
  {
    var ds := EnsureDevice(devices, d.mac);
    FindOrAppendedDevice(devices, d.mac);
    if SameKey(mac, d.mac) {
      PutIsFound(ds, d);
      FindSameMac(StoreDevice(devices, d), mac, d.mac);
    } else {
      PutKeepsOthers(ds, FindDevice(ds, d.mac), d, mac);
      EnsureKeepsOthers(devices, d.mac, mac);
    }
  }

  // What the reader holds after the flat part of a file, as far as one MAC is concerned.
  ghost predicate HoldsFlat(q: Reader, nodes: seq<Node>, mac: string) {
    if HasDevice(nodes) then
      && |q.book| == 1 && q.current == 0 && q.book[0].gatewayMac == UNKNOWN_NETWORK
      && DeviceAt(q.book[0].devices, mac) == LastHeader(nodes, mac)
    else q.book == [] && q.current == -1 && LastHeader(nodes, mac) == None
  }

  lemma {:induction false} EnterUnknown(r: Reader)
    requires r.book == []
    ensures EnterNetwork(r, UNKNOWN_NETWORK) == r.(book := [NewNetwork(UNKNOWN_NETWORK)], current := 0)
  {
    NewNetworkEntered(r.(current := -1), UNKNOWN_NETWORK);
  }

  lemma {:induction false} DeviceStep(q: Reader, before: seq<Node>, node: Node, mac: string)
    requires ReaderOk(q) && q.rootSeen && HoldsFlat(q, before, mac) && IsDeviceNode(node)
    ensures HoldsFlat(ReadDeviceElement(q, node.attributes), before + [node], mac)
  {
    var all, d := before + [node], HeaderOf(node.attributes);
    assert all[|before|] == node && all[..|before|] == before;
    assert HasDevice(all);
    var e := if q.current >= 0 then q else EnterNetwork(q, UNKNOWN_NETWORK);
    if !HasDevice(before) { EnterUnknown(q); }
    assert DeviceAt(e.book[0].devices, mac) == LastHeader(before, mac);
    StoreIsPointUpdate(e.book[0].devices, d, mac);
  }

  lemma {:induction false} OtherStep(q: Reader, before: seq<Node>, node: Node, mac: string)
    requires HoldsFlat(q, before, mac) && !IsDeviceNode(node)
    ensures HoldsFlat(q, before + [node], mac)
  {
    var all := before + [node];
    assert all[..|before|] == before && all[|before|] == node;
    assert HasDevice(before) ==> exists i | 0 <= i < |before| :: IsDeviceNode(before[i]) && all[i] == before[i];
    assert HasDevice(all) ==> exists i | 0 <= i < |all| :: IsDeviceNode(all[i]) && i < |before| && before[i] == all[i];
  }

  lemma {:induction false} FlatStep(q: Reader, before: seq<Node>, node: Node, mac: string)
    requires ReaderOk(q) && q.rootSeen && HoldsFlat(q, before, mac) && (node.Element? ==> node.name != NetworkElement)
    ensures HoldsFlat(ReadNode(q, node), before + [node], mac)
  {
    if IsDeviceNode(node) {
      DeviceStep(q, before, node, mac);
    } else {
      OtherStep(q, before, node, mac);
    }
  }

  lemma {:induction false} FlatReads(r: Reader, nodes: seq<Node>, mac: string)
    requires r.rootSeen && r.book == [] && r.current == -1 && NoNetworks(nodes)
    ensures HoldsFlat(ReadNodes(r, nodes), nodes, mac)
  {
    if nodes != [] {
      var before, node := nodes[..|nodes| - 1], nodes[|nodes| - 1];
      FlatReads(r, before, mac);
      VersionStays(r, before);
      assert nodes == before + [node];
      FlatStep(ReadNodes(r, before), before, node, mac);
    }
  }

  lemma {:induction false} FlatStart(before: seq<Node>, root: Node)
    requires NoElements(before) && root.Element? && OldVersion(root.attributes)
    ensures var r := ReadNodes(BEGIN, before + [root]);
            r.rootSeen && r.book == [] && r.current == -1 && r.version < SCHEMA_VERSION
  {
    TrailingIgnored(BEGIN, before, 0);
    ReadConcat(BEGIN, before, [root]);
    ReadOne(BEGIN, root);
  }

  lemma {:induction false} LookupUnderUnknown(book: Book, key: string, mac: string)
    requires |book| == 1 && book[0].gatewayMac == UNKNOWN_NETWORK
    ensures DeviceIn(book, key, mac) == if key == UNKNOWN_NETWORK then DeviceAt(book[0].devices, mac) else None
  {
    assert book[..0] == [];
    assert SameKey(book[0].gatewayMac, key) <==> key == UNKNOWN_NETWORK by {
      assert |Lower(key)| == |key|;
    }
  }

  // The part of the rest that lies within the reader's node limit.
  function Reached(before: seq<Node>, rest: seq<Node>): seq<Node> {
    FirstN(rest, if |before| < NODE_LIMIT then NODE_LIMIT - 1 - |before| else 0)
  }

  // What is read of a flat file.
  lemma {:induction false} FlatLimited(before: seq<Node>, root: Node, rest: seq<Node>)
    requires NoElements(before) && root.Element? && OldVersion(root.attributes)
    ensures var r, part := ReadNodes(BEGIN, before + [root]), Reached(before, rest);
            && r.rootSeen && r.book == [] && r.current == -1 && r.version < SCHEMA_VERSION
            && (if |before| < NODE_LIMIT
                then ReadNodes(BEGIN, Limited(before + [root] + rest)) == ReadNodes(r, part)
                else ReadNodes(BEGIN, Limited(before + [root] + rest)) == BEGIN && part == [])
  {
    var nodes, part := before + [root] + rest, Reached(before, rest);
    FlatStart(before, root);
    if |before| < NODE_LIMIT {
      assert Limited(nodes) == before + [root] + part;
      ReadConcat(BEGIN, before + [root], part);
    } else {
      assert Limited(nodes) == before[..NODE_LIMIT];
      TrailingIgnored(BEGIN, before[..NODE_LIMIT], 0);
    }
  }

  // A flat file is outdated and lands wholly under the unknown network, each MAC with its last record
  // within the node limit.
  lemma {:induction false} FlatFileLandsUnderUnknown(before: seq<Node>, root: Node, rest: seq<Node>, key: string,
                                                     mac: string)
    requires Flat(before, root, rest)
    ensures Outdated(before + [root] + rest)
    ensures DeviceIn(Load(before + [root] + rest), key, mac)
         == if key == UNKNOWN_NETWORK then LastHeader(Reached(before, rest), mac) else None
  {
    var r, part := ReadNodes(BEGIN, before + [root]), Reached(before, rest);
    FlatLimited(before, root, rest);
    if |before| < NODE_LIMIT {
      FlatReads(r, part, mac);
      VersionStays(r, part);
      if HasDevice(part) { LookupUnderUnknown(Load(before + [root] + rest), key, mac); }
    }
  }

  // The first element of a file decides whether it is outdated: its version is missing or below 2.
  lemma {:induction false} OutdatedIff(before: seq<Node>, root: Node, rest: seq<Node>)
    requires NoElements(before) && |before| < 100_000 && root.Element?
    ensures var v := ValueOf(root.attributes, Version);
            Outdated(before + [root] + rest) <==> v.None? || ParseInt(v.value, 0x7FFF_FFFF) < 2
  {
    var nodes, part, r := before + [root] + rest, Reached(before, rest), ReadNodes(BEGIN, before);
    TrailingIgnored(BEGIN, before, 0);
    assert (before + [root])[..|before|] == before;
    assert ReadNodes(BEGIN, before + [root]) == ReadStart(BEGIN, root.attributes);
    assert Limited(nodes) == before + [root] + part;
    ReadConcat(BEGIN, before + [root], part);
    VersionStays(ReadStart(BEGIN, root.attributes), part);
  }

  // How many different MACs the device elements name.
  function Macs(nodes: seq<Node>): (n: nat)
    ensures n <= |nodes|
  {
    if nodes == [] then 0
    else
      var rest, last := nodes[..|nodes| - 1], nodes[|nodes| - 1];
      Macs(rest) + if IsDeviceNode(last) && IsNewMac(rest, HeaderOf(last.attributes).mac) then 1 else 0
  }

  predicate IsNewMac(nodes: seq<Node>, mac: string) { mac != "" && LastHeader(nodes, mac).None? }

  lemma {:induction false} StoreGrows(devices: seq<Device>, d: Device)
    ensures |StoreDevice(devices, d)| == |devices| + if DeviceAt(devices, d.mac).None? then 1 else 0
  {
    FindOrAppendedDevice(devices, d.mac);
    assert |StoreDevice(devices, d)| == |EnsureDevice(devices, d.mac)|;
  }

  ghost predicate CountsMacs(q: Reader, nodes: seq<Node>) {
    if q.book == [] then q.current == -1 && Macs(nodes) == 0
    else |q.book| == 1 && q.current == 0 && |q.book[0].devices| == Macs(nodes)
  }

  lemma {:induction false} CountsOneMore(q: Reader, before: seq<Node>, node: Node)
    requires ReaderOk(q) && q.rootSeen && CountsMacs(q, before) && IsDeviceNode(node)
    requires HoldsFlat(q, before, HeaderOf(node.attributes).mac)
    ensures CountsMacs(ReadDeviceElement(q, node.attributes), before + [node])
  {
    var all, d := before + [node], HeaderOf(node.attributes);
    assert all[|before|] == node && all[..|before|] == before;
    var e := if q.current >= 0 then q else EnterNetwork(q, UNKNOWN_NETWORK);
    if q.book == [] { EnterUnknown(q); }
    StoreGrows(e.book[0].devices, d);
  }

  lemma {:induction false} FlatBookCounts(r: Reader, nodes: seq<Node>)
    requires r.rootSeen && r.book == [] && r.current == -1 && NoNetworks(nodes)
    ensures CountsMacs(ReadNodes(r, nodes), nodes)
  {
    if nodes != [] {
      var before, node := nodes[..|nodes| - 1], nodes[|nodes| - 1];
      FlatBookCounts(r, before);
      VersionStays(r, before);
      assert nodes == before + [node];
      if IsDeviceNode(node) {
        FlatReads(r, before, HeaderOf(node.attributes).mac);
        CountsOneMore(ReadNodes(r, before), before, node);
      }
    }
  }

  lemma {:induction false} SmallLastStart(book: Book)
    requires |book| <= 1
    ensures LastStart(book) == if book == [] then 2 else |book[0].devices| + 3
  {
    if book != [] {
      assert book[..0] == [];
      assert BookNodes(book) == NetworkNodes(book[0]);
      DeviceElements(book[0].devices);
    }
  }

  // Migrating a flat file and loading the rewritten one gives the same records exactly when its MACs,
  // one element each, fit within the node limit beside the three nodes the new layout begins with.
  lemma {:induction false} FlatFileSurvivesMigration(before: seq<Node>, root: Node, rest: seq<Node>)
    requires Flat(before, root, rest)
    ensures var nodes := before + [root] + rest;
            && FileAfterOpen(nodes) == Save(Load(nodes))
            && (Load(FileAfterOpen(nodes)) == Load(nodes) <==> Macs(Reached(before, rest)) + 3 <= NODE_LIMIT)
  {
    var nodes, part := before + [root] + rest, Reached(before, rest);
    var r := ReadNodes(BEGIN, before + [root]);
    FlatFileLandsUnderUnknown(before, root, rest, "", "");
    FlatLimited(before, root, rest);
    if |before| < NODE_LIMIT { FlatBookCounts(r, part); }
    SmallLastStart(Load(nodes));
    MigrationChangesNothing(nodes);
  }

  // ----- every reachable store -----

  function AfterAll(book: Book, run: seq<Step>): Book {
    if run == [] then book else After(AfterAll(book, run[..|run| - 1]), run[|run| - 1])
  }

  ghost predicate ClockFits(t: Times) {
    && t.networkFirst <= MAX_UINT64 && t.networkLast <= MAX_UINT64
    && t.deviceFirst <= MAX_UINT64 && t.deviceLast <= MAX_UINT64
  }

  lemma {:induction false} TouchNetworkKeepsStorable(book: Book, ctx: Context, t: Times)
    requires Storable(book) && ClockFits(t)
    ensures Storable(TouchNetwork(book, ctx, t))
  {
    var b := EnsureNetwork(book, KeyOf(ctx));
    FindOrAppended(book, KeyOf(ctx));
    EnterKeepsStorable(BEGIN.(book := book), KeyOf(ctx));
    var i := FindNetwork(b, KeyOf(ctx));
    PartsFit(b, i);
    ReplaceKeepsStorable(b, i, UpdateNetwork(b[i], ctx, t));
  }

  ghost predicate DeviceTimesFit(devices: seq<Device>) {
    forall j | 0 <= j < |devices| :: devices[j].firstSeen <= MAX_UINT64 && devices[j].lastSeen <= MAX_UINT64
  }

  lemma {:induction false} PutKeepsTimes(devices: seq<Device>, j: nat, d: Device)
    requires DeviceTimesFit(devices) && j < |devices| && d.firstSeen <= MAX_UINT64 && d.lastSeen <= MAX_UINT64
    ensures DeviceTimesFit(devices[j := d])
  {
  }

  lemma {:induction false} UpdateKeepsTimes(d: Device, n: Neighbor, t: Times)
    requires d.firstSeen <= MAX_UINT64 && ClockFits(t)
    ensures UpdateDevice(d, n, t).firstSeen <= MAX_UINT64 && UpdateDevice(d, n, t).lastSeen <= MAX_UINT64
  {
  }

  lemma {:induction false} EnsureKeepsTimes(devices: seq<Device>, mac: string)
    requires DeviceTimesFit(devices)
    ensures DeviceTimesFit(EnsureDevice(devices, mac)) && FindDevice(EnsureDevice(devices, mac), mac) >= 0
  {
    FindOrAppendedDevice(devices, mac);
  }

  lemma {:induction false} TouchKeepsTimes(devices: seq<Device>, n: Neighbor, t: Times)
    requires DeviceTimesFit(devices) && ClockFits(t)
    ensures DeviceTimesFit(TouchDevice(devices, n, t))
  {
    var ds := EnsureDevice(devices, n.mac);
    EnsureKeepsTimes(devices, n.mac);
    var j := FindDevice(ds, n.mac);
    UpdateKeepsTimes(ds[j], n, t);
    PutKeepsTimes(ds, j, UpdateDevice(ds[j], n, t));
  }

  lemma {:induction false} FittingParts(devices: seq<Device>)
    ensures FittingDevices(devices) <==> UniqueDevices(devices) && ProperDevices(devices) && DeviceTimesFit(devices)
  {
  }

  lemma {:induction false} TouchDeviceKeepsFitting(devices: seq<Device>, n: Neighbor, t: Times)
    requires FittingDevices(devices) && n.mac != "" && ClockFits(t)
    ensures FittingDevices(TouchDevice(devices, n, t))
  {
    TouchKeepsUniqueDevices(devices, n, t);
    TouchKeepsProper(devices, n, t);
    FittingParts(devices);
    TouchKeepsTimes(devices, n, t);
    FittingParts(TouchDevice(devices, n, t));
  }

  lemma {:induction false} ObserveKeepsStorable(book: Book, ctx: Context, n: Neighbor, t: Times)
    requires Storable(book) && ClockFits(t)
    ensures Storable(Observe(book, ctx, n, t))
  {
    if n.mac != "" {
      var b := TouchNetwork(book, ctx, t);
      TouchNetworkKeepsStorable(book, ctx, t);
      var i := FindNetwork(b, KeyOf(ctx));
      PartsFit(b, i);
      TouchDeviceKeepsFitting(b[i].devices, n, t);
      ReplaceKeepsStorable(b, i, b[i].(devices := TouchDevice(b[i].devices, n, t)));
    }
  }

  // Whatever file a store was opened from and whatever it observed since, it comes back from the file
  // it writes, exactly when the last start tag of that file is within the node limit.
  lemma {:induction false} ReachableStoreComesBackIff(nodes: seq<Node>, run: seq<Step>)
    requires forall i | 0 <= i < |run| :: ClockFits(run[i].t)
    ensures var book := AfterAll(Load(nodes), run);
            Storable(book) && (Load(Save(book)) == book <==> LastStart(book) <= 100_000)
  {
    LoadedIsStorable(nodes);
    RunKeepsStorable(Load(nodes), run);
    SavedBookComesBackIff(AfterAll(Load(nodes), run));
  }

  lemma {:induction false} RunKeepsStorable(book: Book, run: seq<Step>)
    requires Storable(book) && forall i | 0 <= i < |run| :: ClockFits(run[i].t)
    ensures Storable(AfterAll(book, run))
  {
    if run != [] {
      var before := AfterAll(book, run[..|run| - 1]);
      RunKeepsStorable(book, run[..|run| - 1]);
      match run[|run| - 1]
      case Recorded(ctx, n, t) => ObserveKeepsStorable(before, ctx, n, t);
      case GivenUp(ctx, t) => TouchNetworkKeepsStorable(before, ctx, t);
    }
  }
}
