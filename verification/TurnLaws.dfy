// What one turn of the discovery thread shows and records, slot by slot of the table.

module TurnLaws {
  import opened Neighbors
  import opened Options
  import opened Discovery
  import opened Records
  import opened RecordLaws
  import opened TrayFiling
  import DiscoveryLaws

  // How many active devices the slots before i hold: the position of slot i among them.
  function Place(known: seq<Neighbor>, i: nat): nat
    requires i <= |known|
  {
    DiscoveryLaws.ActiveUpTo(known, i)
  }

  lemma {:induction false} PlacesGrow(known: seq<Neighbor>, i: nat, j: nat)
    requires i <= j <= |known|
    ensures Place(known, i) <= Place(known, j)
    ensures i < j && known[i].active ==> Place(known, i) < Place(known, j)
  {
    if i < j { PlacesGrow(known, i, j - 1); }
  }

  lemma {:induction false} ActivePrefix(known: seq<Neighbor>, n: nat, i: nat)
    requires i < n <= |known| && known[i].active
    ensures |ActiveUpTo(known, n)| == Place(known, n) && Place(known, i) < Place(known, n)
    ensures ActiveUpTo(known, n)[Place(known, i)] == known[i]
  {
    ActiveCount(known, n);
    ActiveCount(known, n - 1);
    PlacesGrow(known, i, n);
    if i < n - 1 { ActivePrefix(known, n - 1, i); }
  }

  lemma {:induction false} ActiveCount(known: seq<Neighbor>, n: nat)
    requires n <= |known|
    ensures |ActiveUpTo(known, n)| == Place(known, n)
  {
    if n > 0 { ActiveCount(known, n - 1); }
  }

  // Every listed device comes from an active slot.
  lemma {:induction false} SlotAt(known: seq<Neighbor>, n: nat, a: nat) returns (i: nat)
    requires n <= |known| && a < |ActiveUpTo(known, n)|
    ensures i < n && known[i].active && Place(known, i) == a && ActiveUpTo(known, n)[a] == known[i]
  {
    ActiveCount(known, n);
    ActiveCount(known, n - 1);
    if a < |ActiveUpTo(known, n - 1)| { i := SlotAt(known, n - 1, a); } else { i := n - 1; }
  }

  // The devices filed are exactly the active ones of the table, in slot order, each at its place.
  lemma {:induction false} ActiveDevicesAreFiled(known: seq<Neighbor>, i: nat)
    requires i < |known|
    ensures |ActiveOf(known)| == Place(known, |known|)
    ensures known[i].active ==> Place(known, i) < |ActiveOf(known)| && ActiveOf(known)[Place(known, i)] == known[i]
    ensures forall x :: x in ActiveOf(known) <==> x in known && x.active
  {
    ActiveCount(known, |known|);
    if known[i].active { ActivePrefix(known, |known|, i); }
    forall x ensures x in ActiveOf(known) <==> x in known && x.active {
      if x in ActiveOf(known) {
        var a :| 0 <= a < |ActiveOf(known)| && ActiveOf(known)[a] == x;
        var j := SlotAt(known, |known|, a);
      }
      if x in known && x.active {
        var j :| 0 <= j < |known| && known[j] == x;
        ActivePrefix(known, |known|, j);
      }
    }
  }

  // Entry a of what is shown for some devices.
  ghost predicate ShownAs(book: Book, ctx: Context, before: seq<Neighbor>, n: Neighbor, times: int -> Times,
                          entry: Neighbor) {
    entry == Apply(FileAll(book, ctx, before, times), KeyOf(ctx), n)
  }

  lemma {:induction false} ShownIsApplied(book: Book, ctx: Context, items: seq<Neighbor>, times: int -> Times, a: nat)
    requires a < |items|
    ensures ShownAs(book, ctx, items[..a], items[a], times, ShownAll(book, ctx, items, times)[a])
    decreases |items|, 1
  {
    ShownAt(book, ctx, items, times, a);
    if a < |items| - 1 { ShownInPrefix(book, ctx, items, times, a); }
  }

  lemma {:induction false} ShownInPrefix(book: Book, ctx: Context, items: seq<Neighbor>, times: int -> Times, a: nat)
    requires a < |items| - 1
    ensures ShownAs(book, ctx, items[..a], items[a], times, ShownAll(book, ctx, items[..|items| - 1], times)[a])
    decreases |items|, 0
  {
    var rest := items[..|items| - 1];
    ShownIsApplied(book, ctx, rest, times, a);
    assert rest[..a] == items[..a] && rest[a] == items[a];
  }

  lemma {:induction false} AppliedIsSameDevice(book: Book, key: string, n: Neighbor)
    ensures var r := Apply(book, key, n); r.mac == n.mac && r.ip == n.ip && r.active == n.active
  {
  }

  // The map of a turn has one entry for every active slot of the new table and no other, in slot
  // order, with the address and the MAC of the slot.
  lemma {:induction false} MapShowsTheActiveSlots(s: TrayState, turn: Turn, times: int -> Times, i: nat)
    requires WellFormed(s.table) && turn.snapshot.Taken? && i < |AfterTurn(s, turn, times).table.known|
    ensures var known, shown := AfterTurn(s, turn, times).table.known, MapOf(s, turn, times);
            && |shown| == Place(known, |known|)
            && (known[i].active ==>
                  && Place(known, i) < |shown|
                  && var entry := shown[Place(known, i)];
                     entry.ip == known[i].ip && entry.mac == known[i].mac && entry.active)
  {
    var known, ctx := AfterTurn(s, turn, times).table.known, TurnContext(s.gateway, turn);
    ActiveDevicesAreFiled(known, i);
    if known[i].active {
      var a := Place(known, i);
      ShownIsApplied(s.book, ctx, ActiveOf(known), times, a);
      AppliedIsSameDevice(FileAll(s.book, ctx, ActiveOf(known)[..a], times), KeyOf(ctx), known[i]);
    }
  }

  // The map shows what the user has set for a device, and its learned type, as recorded before the
  // turn.
  lemma {:induction false} MapShowsTheRecords(s: TrayState, turn: Turn, times: int -> Times, i: nat)
    requires WellFormed(s.table) && turn.snapshot.Taken? && i < |AfterTurn(s, turn, times).table.known|
    ensures var r := AfterTurn(s, turn, times);
            var known, shown := r.table.known, MapOf(s, turn, times);
            var found := DeviceIn(s.book, r.gateway, known[i].mac);
            known[i].active && known[i].mac != "" && found.Some? ==>
              && Place(known, i) < |shown|
              && var entry, d := shown[Place(known, i)], found.value;
                 && entry.labelText == (if d.labelText != "" then d.labelText else known[i].labelText)
                 && entry.icon == (if d.icon != "" then d.icon else known[i].icon)
                 && (entry.trusted <==> d.trusted || known[i].trusted)
                 && (d.hasType ==> entry.deviceType == d.deviceType && entry.hasTypeOverride)
                 && (known[i].hostname != "" ==> entry.hostname == known[i].hostname)
                 && (d.hostname != "" ==> entry.hostname != "")
  {
    var known, ctx := AfterTurn(s, turn, times).table.known, TurnContext(s.gateway, turn);
    ActiveDevicesAreFiled(known, i);
    if known[i].active {
      var a := Place(known, i);
      var before := FileAll(s.book, ctx, ActiveOf(known)[..a], times);
      ShownIsApplied(s.book, ctx, ActiveOf(known), times, a);
      FilingKeepsLearned(s.book, ctx, ActiveOf(known)[..a], times, KeyOf(ctx), known[i].mac);
      ApplyCompletes(before, KeyOf(ctx), known[i]);
    }
  }

  // Slot i is the last active one of a MAC.
  ghost predicate LastActive(known: seq<Neighbor>, mac: string, i: nat) {
    && i < |known| && known[i].active && SameKey(mac, known[i].mac)
    && forall j | i < j < |known| && known[j].active :: !SameKey(mac, known[j].mac)
  }

  ghost predicate NoneActive(known: seq<Neighbor>, mac: string) {
    forall j | 0 <= j < |known| && known[j].active :: !SameKey(mac, known[j].mac)
  }

  lemma {:induction false} LastOfActive(known: seq<Neighbor>, mac: string, i: nat)
    requires LastActive(known, mac, i)
    ensures LastOf(ActiveOf(known), mac) == Place(known, i)
  {
    ActiveDevicesAreFiled(known, i);
    var a := LastOf(ActiveOf(known), mac);
    if a >= 0 {
      var j := SlotAt(known, |known|, a);
      if j < i { PlacesGrow(known, j, i); }
    }
  }

  lemma {:induction false} NoneOfActive(known: seq<Neighbor>, mac: string)
    requires NoneActive(known, mac)
    ensures LastOf(ActiveOf(known), mac) < 0
  {
    var a := LastOf(ActiveOf(known), mac);
    if a >= 0 {
      var j := SlotAt(known, |known|, a);
    }
  }

  // Under the gateway of the turn, the record of a MAC with an active slot is what the map shows for
  // the last such slot, seen at the time of its filing; the record of a MAC no active slot has stays as
  // it was.
  lemma {:induction false} TurnRecordsTheActiveSlots(s: TrayState, turn: Turn, times: int -> Times, mac: string,
                                                     i: nat)
    requires WellFormed(s.table) && turn.snapshot.Taken? && mac != ""
    ensures var r := AfterTurn(s, turn, times);
            var now := DeviceIn(r.book, r.gateway, mac);
            && (LastActive(r.table.known, mac, i) ==>
                  var a := Place(r.table.known, i);
                  a < |MapOf(s, turn, times)| && RecordedAsShown(now, MapOf(s, turn, times)[a], times(a)))
            && (NoneActive(r.table.known, mac) ==> now == DeviceIn(s.book, r.gateway, mac))
  {
    var known, ctx := AfterTurn(s, turn, times).table.known, TurnContext(s.gateway, turn);
    FilingRecordsWhatIsShown(s.book, ctx, ActiveOf(known), times, mac);
    if LastActive(known, mac, i) { LastOfActive(known, mac, i); }
    if NoneActive(known, mac) { NoneOfActive(known, mac); }
  }

  // Other networks keep all their records.
  lemma {:induction false} TurnLeavesOtherNetworks(s: TrayState, turn: Turn, times: int -> Times, key: string)
    requires WellFormed(s.table) && !SameKey(key, AfterTurn(s, turn, times).gateway)
    ensures DevicesOf(AfterTurn(s, turn, times).book, key) == DevicesOf(s.book, key)
  {
    if turn.snapshot.Taken? {
      var ctx := TurnContext(s.gateway, turn);
      FilingStaysInItsNetwork(s.book, ctx, ActiveOf(AfterTurn(s, turn, times).table.known), times, key);
    }
  }

  // A turn is attributed to the first network with a known gateway, with its name and vendor, or else
  // to the last gateway without either; the ISP is passed on.
  lemma {:induction false} TurnContextIsTheFirstGateway(gateway: string, turn: Turn, i: nat)
    ensures var ctx := TurnContext(gateway, turn);
            && ctx.Context? && ctx.isp == turn.isp
            && (FirstWithMac(turn.networks, i) ==>
                  var g := turn.networks[i];
                  ctx.gatewayMac == g.gatewayMac && ctx.gatewayHostname == g.gatewayHostname
                  && ctx.gatewayVendor == g.gatewayVendor)
            && ((forall j | 0 <= j < |turn.networks| :: turn.networks[j].gatewayMac == "") ==>
                  ctx.gatewayMac == gateway && ctx.gatewayHostname == "" && ctx.gatewayVendor == "")
  {
    var g := FirstGateway(turn.networks);
    if FirstWithMac(turn.networks, i) {
      var k :| FirstWithMac(turn.networks, k) && turn.networks[k] == g;
      assert k == i;
    }
  }
}
