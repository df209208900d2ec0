// The device store in memory: growable arrays of networks and, inside each, of devices.

module DeviceStore {
  import opened Neighbors
  import opened Options
  import opened Records

  // An array that is reallocated at twice its size when full.
  class Growable<T> {
    const initial: nat
    var data: array<T>
    var count: nat

    ghost predicate Valid()
      reads this
    {
      initial > 0 && count <= data.Length
    }

    ghost function View(): seq<T>
      reads this, data
      requires Valid()
    {
      data[..count]
    }

    constructor (initial: nat)
      requires initial > 0
      ensures Valid() && View() == [] && data.Length == 0 && fresh(data) && this.initial == initial
    {
      this.initial := initial;
      data := new T[0];
      count := 0;
    }

    // Appends an element. When the array is full it grows, which fails without memory; growing keeps
    // every element in its place.
    method Add(x: T, memory: bool) returns (ok: bool)
      requires Valid()
      modifies this, data
      ensures Valid() && (data == old(data) || fresh(data))
      ensures (ok <==> old(count) < old(data.Length) || memory) && (!ok ==> data == old(data))
      ensures View() == if ok then old(View()) + [x] else old(View())
      ensures data.Length == if old(count) < old(data.Length) || !ok then old(data.Length)
                             else if old(data.Length) == 0 then initial else 2 * old(data.Length)
    {
      if count >= data.Length {
        if !memory { return false; }
        var capacity := if data.Length == 0 then initial else data.Length * 2;
        var grown := new T[capacity](_ => x);
        forall i | 0 <= i < count { grown[i] := data[i]; }
        data := grown;
      }
      data[count] := x;
      count := count + 1;
      ok := true;
    }

    method Put(i: nat, x: T)
      requires Valid() && i < count
      modifies data
      ensures View() == old(View())[i := x]
    {
      data[i] := x;
    }
  }

  // One element of the network array: everything about the network but its devices, and the array
  // that holds them. Moving the element moves the reference, not the devices.
  datatype Row = Row(header: Network, devices: Growable<Device>)

  ghost function NetworkOf(row: Row): Network
    reads row.devices, row.devices.data
    requires row.devices.Valid()
  {
    row.header.(devices := row.devices.View())
  }

  method FindDeviceIndex(devices: Growable<Device>, mac: string) returns (k: int)
    requires devices.Valid()
    ensures k == FindDevice(devices.View(), mac)
  {
    var i := 0;
    while i < devices.count
      invariant 0 <= i <= devices.count
      invariant FindDevice(devices.View(), mac) == FindDeviceFrom(devices.View(), mac, i)
    {
      if SameKey(devices.data[i].mac, mac) { return i; }
      i := i + 1;
    }
    k := -1;
  }

  method ApplyFields(d: Device, n: Neighbor) returns (r: Neighbor)
    ensures r == ApplyRecord(d, n)
  {
    r := n;
    if d.labelText != "" { r := r.(labelText := d.labelText); }
    if r.hostname == "" && d.hostname != "" { r := r.(hostname := d.hostname); }
    if r.vendor == "" && d.vendor != "" { r := r.(vendor := d.vendor); }
    if d.icon != "" { r := r.(icon := d.icon); }
    if d.trusted { r := r.(trusted := true); }
    if d.hasType { r := r.(deviceType := d.deviceType, hasTypeOverride := true); }
  }

  // What one observation did.
  datatype Outcome = Ignored | NoNetworkRoom | NoDeviceRoom | Stored

  class Store {
    const networks: Growable<Row>
    // What the two levels of arrays hold.
    ghost var rows: seq<Row>
    ghost var book: Book
    // Which network each device array belongs to, so that no two networks share one.
    ghost var owner: map<object, nat>
    ghost var Repr: set<object>

    ghost predicate Valid()
      reads this, Repr
    {
      && this in Repr && networks in Repr && networks.data in Repr && owner.Keys <= Repr
      && networks !in owner && networks.data !in owner
      && networks.Valid() && networks.View() == rows && RowsHold()
    }

    // The inner level: every row holds its network in a device array of its own.
    ghost predicate RowsHold()
      reads this, owner.Keys
    {
      && this !in owner && |rows| == |book|
      && forall i | 0 <= i < |rows| ::
           rows[i].devices in owner && rows[i].devices.data in owner && Holds(rows[i], i, book[i])
    }

    ghost predicate Holds(row: Row, i: nat, n: Network)
      reads this, row.devices, row.devices.data
    {
      && row.devices in owner && owner[row.devices] == i
      && row.devices.data in owner && owner[row.devices.data] == i
      && row.devices.Valid() && row.devices.initial == 8
      && n == NetworkOf(row)
    }

    ghost function View(): Book
      reads this
    {
      book
    }

    constructor ()
      ensures Valid() && View() == [] && fresh(Repr)
    {
      networks := new Growable<Row>(4);
      rows, book, owner := [], [], map[];
      new;
      Repr := {this, networks, networks.data};
    }

    lemma {:induction false} RowAt(i: nat)
      requires Valid() && i < networks.count
      ensures i < |rows| == |book| && networks.data[i] == rows[i] && Holds(rows[i], i, book[i])
    {
      assert networks.data[i] == networks.View()[i];
    }

    method FindNetworkIndex(key: string) returns (k: int)
      requires Valid()
      ensures k == FindNetwork(View(), key)
    {
      var i := 0;
      while i < networks.count
        invariant 0 <= i <= networks.count && FindNetwork(book, key) == FindNetworkFrom(book, key, i)
      {
        RowAt(i);
        if SameKey(networks.data[i].header.gatewayMac, key) { return i; }
        i := i + 1;
      }
      k := -1;
    }

    // Appends a network without devices. The other networks keep their device arrays, wherever the
    // network array has moved to.
    method AddNetwork(key: string, memory: bool) returns (ok: bool)
      requires Valid()
      modifies Repr
      ensures Valid() && fresh(Repr - old(Repr)) && (memory ==> ok)
      ensures View() == if ok then old(View()) + [NewNetwork(key)] else old(View())
    {
      var devices := new Growable<Device>(8);
      ok := AddRow(Row(NewNetwork(key), devices), memory);
    }

    method AddRow(row: Row, memory: bool) returns (ok: bool)
      requires Valid() && row.devices.Valid() && row.devices.initial == 8
      requires row.devices !in Repr && row.devices.data !in Repr
      modifies networks, networks.data, this`rows, this`book, this`owner, this`Repr
      ensures Valid() && (memory ==> ok)
      ensures fresh(Repr - old(Repr) - {row.devices, row.devices.data})
      ensures View() == if ok then old(View()) + [NetworkOf(row)] else old(View())
    {
      ok := networks.Add(row, memory);
      assert RowsHold() && networks.data !in owner;
      if ok { Register(row); }
      Repr := Repr + {networks.data} + owner.Keys;
    }

    ghost method Register(row: Row)
      requires RowsHold() && row.devices.Valid() && row.devices.initial == 8
      requires row.devices !in owner && row.devices.data !in owner && row.devices as object != this
      modifies this`rows, this`book, this`owner
      ensures RowsHold() && rows == old(rows) + [row] && book == old(book) + [NetworkOf(row)]
      ensures owner.Keys == old(owner.Keys) + {row.devices, row.devices.data}
    {
      owner := owner[row.devices := |book|][row.devices.data := |book|];
      rows, book := rows + [row], book + [NetworkOf(row)];
    }

    // Finds the network of a key or appends a blank one; -1 when there is no memory for it.
    method FindOrCreateNetwork(key: string, memory: bool) returns (k: int)
      requires Valid()
      modifies Repr
      ensures Valid() && fresh(Repr - old(Repr)) && (memory ==> k >= 0)
      ensures k < 0 ==> View() == old(View())
      ensures k >= 0 ==> View() == EnsureNetwork(old(View()), key) && k == FindNetwork(View(), key)
    {
      k := FindNetworkIndex(key);
      if k >= 0 { return; }
      FindOrAppended(View(), key);
      var ok := AddNetwork(key, memory);
      if ok { k := networks.count - 1; }
    }

    // Replaces everything about a network but its devices.
    method PutHeader(i: nat, n: Network)
      requires Valid() && i < networks.count
      modifies this`rows, this`book, networks.data
      ensures Valid() && Repr == old(Repr)
      ensures View() == old(View())[i := n.(devices := old(View())[i].devices)]
    {
      RowAt(i);
      networks.Put(i, Row(n, networks.data[i].devices));
      rows := networks.View();
      book := book[i := n.(devices := book[i].devices)];
    }

    method PutDevice(i: nat, j: nat, d: Device)
      requires Valid() && i < networks.count && j < |View()[i].devices|
      modifies Repr
      ensures Valid() && Repr == old(Repr)
      ensures var n := old(View())[i]; View() == old(View())[i := n.(devices := n.devices[j := d])]
    {
      RowAt(i);
      networks.data[i].devices.Put(j, d);
      book := book[i := book[i].(devices := book[i].devices[j := d])];
    }

    // Finds the record of a MAC in network i or appends a blank one; -1 when there is no memory.
    method FindOrCreateDevice(i: nat, mac: string, memory: bool) returns (j: int)
      requires Valid() && i < networks.count
      modifies Repr
      ensures Valid() && fresh(Repr - old(Repr)) && (memory ==> j >= 0)
      ensures j < 0 ==> View() == old(View())
      ensures var n := old(View())[i];
              j >= 0 ==> View() == old(View())[i := n.(devices := EnsureDevice(n.devices, mac))]
                         && j == FindDevice(EnsureDevice(n.devices, mac), mac)
    {
      RowAt(i);
      Ensured(book, i, mac);
      j := FindDeviceIndex(networks.data[i].devices, mac);
      if j < 0 { j := AddDevice(i, mac, memory); }
    }

    // Appends a blank record to the devices of network i; no other network notices.
    method AddDevice(i: nat, mac: string, memory: bool) returns (j: int)
      requires Valid() && i < networks.count
      modifies Repr
      ensures Valid() && fresh(Repr - old(Repr)) && (memory ==> j >= 0)
      ensures j < 0 ==> View() == old(View())
      ensures var n := old(View())[i];
              j >= 0 ==> View() == old(View())[i := n.(devices := n.devices + [NewDevice(mac)])] && j == |n.devices|
    {
      var devices := networks.data[i].devices;
      assert devices == networks.View()[i].devices;
      j := Append(i, devices, mac, memory);
      Repr := Repr + {devices.data};
    }

    method Append(i: nat, devices: Growable<Device>, mac: string, memory: bool) returns (j: int)
      requires RowsHold() && i < |rows| && devices == rows[i].devices
      modifies this`book, this`owner, devices, devices.data
      ensures RowsHold() && owner.Keys == old(owner.Keys) + {devices.data} && (memory ==> j >= 0)
      ensures devices.data == old(devices.data) || fresh(devices.data)
      ensures j < 0 ==> book == old(book)
      ensures var n := old(book)[i];
              j >= 0 ==> book == old(book)[i := n.(devices := n.devices + [NewDevice(mac)])] && j == |n.devices|
    {
      assert Holds(rows[i], i, book[i]);
      var ok := devices.Add(NewDevice(mac), memory);
      j := -1;
      if ok {
        j := devices.count - 1;
        book := book[i := book[i].(devices := book[i].devices + [NewDevice(mac)])];
      }
      owner := owner[devices.data := i];
    }

    // Fills in what the store knows about a neighbour.
    method ApplyTo(key: string, n: Neighbor) returns (r: Neighbor)
      requires Valid()
      ensures r == Apply(View(), key, n)
    {
      if n.mac == "" { return n; }
      var i := FindNetworkIndex(key);
      if i < 0 { return n; }
      var devices := networks.data[i].devices;
      RowAt(i);
      var j := FindDeviceIndex(devices, n.mac);
      if j < 0 { return n; }
      r := ApplyFields(devices.data[j], n);
    }

    method TouchNetworkAt(i: nat, ctx: Context, t: Times)
      requires Valid() && i < networks.count
      modifies this`rows, this`book, networks.data
      ensures Valid() && Repr == old(Repr)
      ensures View() == old(View())[i := UpdateNetwork(old(View())[i], ctx, t)]
    {
      var n := networks.data[i].header;
      RowAt(i);
      if n.firstSeen == 0 { n := n.(firstSeen := t.networkFirst); }
      n := n.(lastSeen := t.networkLast);
      if ctx.Context? {
        if ctx.gatewayHostname != "" { n := n.(gatewayHostname := ctx.gatewayHostname); }
        if ctx.gatewayVendor != "" { n := n.(gatewayVendor := ctx.gatewayVendor); }
        if ctx.isp.Some? && ctx.isp.value.isp != "" { n := n.(isp := ctx.isp.value); }
      }
      PutHeader(i, n);
    }

    method TouchDeviceAt(i: nat, j: nat, n: Neighbor, t: Times)
      requires Valid() && i < networks.count && j < |View()[i].devices|
      modifies Repr
      ensures Valid() && Repr == old(Repr)
      ensures var w := old(View())[i];
              View() == old(View())[i := w.(devices := w.devices[j := UpdateDevice(w.devices[j], n, t)])]
    {
      RowAt(i);
      var d := networks.data[i].devices.data[j];
      if d.firstSeen == 0 { d := d.(firstSeen := t.deviceFirst); }
      d := d.(hostname := n.hostname, vendor := n.vendor);
      if !d.hasType && n.deviceType != UnknownDevice && n.confidence >= SURE {
        d := d.(deviceType := n.deviceType, hasType := true);
      }
      d := d.(lastSeen := t.deviceLast);
      PutDevice(i, j, d);
    }

    method ObserveDevice(i: nat, n: Neighbor, t: Times, memory: bool) returns (ok: bool)
      requires Valid() && i < networks.count
      modifies Repr
      ensures Valid() && fresh(Repr - old(Repr)) && (memory ==> ok)
      ensures var w := old(View())[i];
              View() == if ok then old(View())[i := w.(devices := TouchDevice(w.devices, n, t))] else old(View())
    {
      var j := FindOrCreateDevice(i, n.mac, memory);
      if j < 0 { return false; }
      TouchDeviceAt(i, j, n, t);
      ok := true;
    }

    method ObserveNetwork(ctx: Context, t: Times, memory: bool) returns (i: int)
      requires Valid()
      modifies Repr
      ensures Valid() && fresh(Repr - old(Repr)) && (memory ==> i >= 0)
      ensures i < 0 ==> View() == old(View())
      ensures i >= 0 ==> View() == TouchNetwork(old(View()), ctx, t) && i == FindNetwork(View(), KeyOf(ctx))
    {
      i := FindOrCreateNetwork(KeyOf(ctx), memory);
      if i >= 0 {
        TouchNetworkAt(i, ctx, t);
        KeyStays(old(View()), ctx, t);
      }
    }

    // Records an observation. Without memory it stops where the first allocation fails.
    method ObserveNeighbor(ctx: Context, n: Neighbor, t: Times, networkMemory: bool, deviceMemory: bool)
      returns (outcome: Outcome)
      requires Valid()
      modifies Repr
      ensures Valid() && fresh(Repr - old(Repr))
      ensures outcome == Ignored <==> n.mac == ""
      ensures networkMemory && deviceMemory && n.mac != "" ==> outcome == Stored
      ensures outcome == Ignored || outcome == NoNetworkRoom ==> View() == old(View())
      ensures outcome == NoDeviceRoom ==> View() == TouchNetwork(old(View()), ctx, t)
      ensures outcome == Stored ==> View() == Observe(old(View()), ctx, n, t)
      ensures outcome != NoNetworkRoom ==>
                View() == After(old(View()), if outcome == NoDeviceRoom then GivenUp(ctx, t) else Recorded(ctx, n, t))
    {
      if n.mac == "" { return Ignored; }
      var i := ObserveNetwork(ctx, t, networkMemory);
      if i < 0 { return NoNetworkRoom; }
      var ok := ObserveDevice(i, n, t, deviceMemory);
      outcome := if ok then Stored else NoDeviceRoom;
    }
  }

  lemma {:induction false} Ensured(book: Book, i: nat, mac: string)
    requires i < |book|
    ensures var n := book[i];
            var ensured, j := EnsureDevice(n.devices, mac), FindDevice(n.devices, mac);
            && (j >= 0 ==> book[i := n.(devices := ensured)] == book && FindDevice(ensured, mac) == j)
            && (j < 0 ==> ensured == n.devices + [NewDevice(mac)] && FindDevice(ensured, mac) == |n.devices|)
  {
    FindOrAppendedDevice(book[i].devices, mac);
    assert book[i := book[i].(devices := book[i].devices)] == book;
  }

  lemma {:induction false} KeyStays(book: Book, ctx: Context, t: Times)
    ensures FindNetwork(TouchNetwork(book, ctx, t), KeyOf(ctx))
         == FindNetwork(EnsureNetwork(book, KeyOf(ctx)), KeyOf(ctx))
  {
    FindOrAppended(book, KeyOf(ctx));
    var b := EnsureNetwork(book, KeyOf(ctx));
    var i := FindNetwork(b, KeyOf(ctx));
    SameGateway(b, i, UpdateNetwork(b[i], ctx, t), KeyOf(ctx));
  }
}
