// How the tray attributes discovered devices to a gateway and files them in the device store.

module TrayFiling {
  import opened Neighbors
  import opened Options
  import opened Discovery
  import opened Records
  import opened RecordLaws

  // ----- which gateway a poll is attributed to -----

  datatype LocalNetwork = LocalNetwork(gatewayMac: string, gatewayHostname: string, gatewayVendor: string)

  const NO_GATEWAY := LocalNetwork("", "", "")

  // The first network whose gateway MAC is known.
  function FirstGateway(networks: seq<LocalNetwork>): (g: LocalNetwork)
    ensures g.gatewayMac == "" ==> g == NO_GATEWAY && forall i | 0 <= i < |networks| :: networks[i].gatewayMac == ""
    ensures g.gatewayMac != "" ==> exists i :: FirstWithMac(networks, i) && networks[i] == g
  {
    if networks == [] then NO_GATEWAY
    else if networks[0].gatewayMac != "" then
      assert FirstWithMac(networks, 0);
      networks[0]
    else
      var g := FirstGateway(networks[1..]);
      assert g.gatewayMac != "" ==> exists i ::
          FirstWithMac(networks[1..], i) && FirstWithMac(networks, i + 1) && networks[i + 1] == g;
      g
  }

  ghost predicate FirstWithMac(networks: seq<LocalNetwork>, i: int) {
    && 0 <= i < |networks| && networks[i].gatewayMac != ""
    && forall j | 0 <= j < i :: networks[j].gatewayMac == ""
  }

  // The gateway remembered between polls, "" before the first one, and one poll's use of it.
  function Scope(last: string, networks: seq<LocalNetwork>): LocalNetwork {
    var g := FirstGateway(networks);
    if g.gatewayMac == "" then g.(gatewayMac := last) else g
  }

  predicate Refreshes(last: string, networks: seq<LocalNetwork>) {
    FirstGateway(networks).gatewayMac != "" && FirstGateway(networks).gatewayMac != last
  }

  // The gateway after the polls of a run.
  function GatewayAfter(run: seq<seq<LocalNetwork>>): string {
    if run == [] then "" else Scope(GatewayAfter(run[..|run| - 1]), run[|run| - 1]).gatewayMac
  }

  // Poll k saw a gateway and no later poll did.
  ghost predicate SawLast(run: seq<seq<LocalNetwork>>, k: nat) {
    && k < |run| && FirstGateway(run[k]).gatewayMac != ""
    && forall j | k < j < |run| :: FirstGateway(run[j]).gatewayMac == ""
  }

  ghost predicate SawNone(run: seq<seq<LocalNetwork>>) {
    forall j | 0 <= j < |run| :: FirstGateway(run[j]).gatewayMac == ""
  }

  // Devices go to the most recent gateway seen so far.
  lemma {:induction false} MostRecentGatewayIsUsed(run: seq<seq<LocalNetwork>>, k: nat)
    requires SawLast(run, k)
    ensures GatewayAfter(run) == FirstGateway(run[k]).gatewayMac
  {
    var n := |run| - 1;
    if k < n {
      assert SawLast(run[..n], k);
      MostRecentGatewayIsUsed(run[..n], k);
    }
  }

  // Before the first gateway they go to the unknown network.
  lemma {:induction false} WithoutGatewayTheNetworkIsUnknown(run: seq<seq<LocalNetwork>>)
    requires SawNone(run)
    ensures GatewayAfter(run) == UNKNOWN_NETWORK
  {
    if run != [] {
      assert SawNone(run[..|run| - 1]);
      WithoutGatewayTheNetworkIsUnknown(run[..|run| - 1]);
    }
  }

  lemma {:induction false} SomeGatewayWasLast(run: seq<seq<LocalNetwork>>)
    requires !SawNone(run)
    ensures exists k :: 0 <= k < |run| && SawLast(run, k)
  {
    var n := |run| - 1;
    if FirstGateway(run[n]).gatewayMac != "" {
      assert SawLast(run, n);
    } else {
      assert !SawNone(run[..n]);
      SomeGatewayWasLast(run[..n]);
      var k :| 0 <= k < n && SawLast(run[..n], k);
      assert SawLast(run, k);
    }
  }

  // After any run the gateway in use is the most recent one seen, or the unknown network if there was
  // none.
  lemma {:induction false} GatewayInUse(run: seq<seq<LocalNetwork>>)
    ensures if SawNone(run) then GatewayAfter(run) == UNKNOWN_NETWORK
            else exists k: nat :: SawLast(run, k) && GatewayAfter(run) == FirstGateway(run[k]).gatewayMac
  {
    if SawNone(run) {
      WithoutGatewayTheNetworkIsUnknown(run);
    } else {
      SomeGatewayWasLast(run);
      var k :| 0 <= k < |run| && SawLast(run, k);
      MostRecentGatewayIsUsed(run, k);
    }
  }

  // The ISP is looked up again exactly when the gateway in use changes.
  lemma {:induction false} RefreshesExactlyOnChange(run: seq<seq<LocalNetwork>>, networks: seq<LocalNetwork>)
    ensures Refreshes(GatewayAfter(run), networks) <==> GatewayAfter(run + [networks]) != GatewayAfter(run)
  {
    assert (run + [networks])[..|run|] == run;
  }

  // ----- filing the active devices of one poll -----

  function ContextOf(scope: LocalNetwork, isp: Option<Isp>): Context {
    Context(scope.gatewayMac, scope.gatewayHostname, scope.gatewayVendor, isp)
  }

  // The active devices among the first n.
  function ActiveUpTo(known: seq<Neighbor>, n: nat): (r: seq<Neighbor>)
    requires n <= |known|
    ensures |r| <= n
  {
    if n == 0 then []
    else ActiveUpTo(known, n - 1) + if known[n - 1].active then [known[n - 1]] else []
  }

  function ActiveOf(known: seq<Neighbor>): seq<Neighbor> { ActiveUpTo(known, |known|) }

  // Each device is first completed from the store and then observed; times(i) are the clock readings
  // of the i-th observation.
  function FileAll(book: Book, ctx: Context, items: seq<Neighbor>, times: int -> Times): Book {
    if items == [] then book
    else
      var n := |items| - 1;
      ApplyThenObserve(FileAll(book, ctx, items[..n], times), ctx, items[n], times(n))
  }

  // What the map shows: every device as the store completed it.
  function ShownAll(book: Book, ctx: Context, items: seq<Neighbor>, times: int -> Times): (r: seq<Neighbor>)
    ensures |r| == |items|
  {
    if items == [] then []
    else
      var n := |items| - 1;
      ShownAll(book, ctx, items[..n], times) + [Apply(FileAll(book, ctx, items[..n], times), KeyOf(ctx), items[n])]
  }

  lemma {:induction false} KeepsLearnedTwice(a: Option<Device>, b: Option<Device>, c: Option<Device>)
    requires KeepsLearned(a, b) && KeepsLearned(b, c)
    ensures KeepsLearned(a, c)
  {
  }

  // Filing a poll never blanks a learned name or vendor and never changes a learned type.
  lemma {:induction false} FilingKeepsLearned(book: Book, ctx: Context, items: seq<Neighbor>, times: int -> Times,
                                              key: string, mac: string)
    ensures KeepsLearned(DeviceIn(book, key, mac), DeviceIn(FileAll(book, ctx, items, times), key, mac))
  {
    if items != [] {
      var n := |items| - 1;
      var before := FileAll(book, ctx, items[..n], times);
      FilingKeepsLearned(book, ctx, items[..n], times, key, mac);
      ApplyThenObserveKeepsLearned(before, ctx, items[n], times(n), key, mac);
      KeepsLearnedTwice(DeviceIn(book, key, mac), DeviceIn(before, key, mac),
                        DeviceIn(FileAll(book, ctx, items, times), key, mac));
    }
  }

  lemma {:induction false} FileOneElsewhere(book: Book, ctx: Context, n: Neighbor, t: Times, key: string)
    requires !SameKey(key, KeyOf(ctx))
    ensures DevicesOf(ApplyThenObserve(book, ctx, n, t), key) == DevicesOf(book, key)
  {
    var applied := Apply(book, KeyOf(ctx), n);
    if applied.mac != "" { ObserveDevices(book, ctx, applied, t, key); }
  }

  // Filing under one gateway leaves the devices of every other network as they were.
  lemma {:induction false} FilingStaysInItsNetwork(book: Book, ctx: Context, items: seq<Neighbor>, times: int -> Times,
                                                   key: string)
    requires !SameKey(key, KeyOf(ctx))
    ensures DevicesOf(FileAll(book, ctx, items, times), key) == DevicesOf(book, key)
  {
    if items != [] {
      var n := |items| - 1;
      FilingStaysInItsNetwork(book, ctx, items[..n], times, key);
      FileOneElsewhere(FileAll(book, ctx, items[..n], times), ctx, items[n], times(n), key);
    }
  }

  // The last item of a MAC; -1 when there is none.
  function LastOf(items: seq<Neighbor>, mac: string): (i: int)
    ensures -1 <= i < |items|
    ensures i >= 0 ==> SameKey(mac, items[i].mac)
    ensures forall j | i < j < |items| :: !SameKey(mac, items[j].mac)
  {
    if items == [] then -1
    else if SameKey(mac, items[|items| - 1].mac) then |items| - 1
    else LastOf(items[..|items| - 1], mac)
  }

  ghost predicate RecordedAsShown(found: Option<Device>, shown: Neighbor, t: Times) {
    && found.Some? && found.value.hostname == shown.hostname && found.value.vendor == shown.vendor
    && found.value.lastSeen == t.deviceLast
  }

  lemma {:induction false} FileOneIsRecorded(book: Book, ctx: Context, n: Neighbor, t: Times, mac: string)
    requires mac != "" && SameKey(mac, n.mac)
    ensures RecordedAsShown(DeviceIn(ApplyThenObserve(book, ctx, n, t), KeyOf(ctx), mac), Apply(book, KeyOf(ctx), n),
                            t)
  {
    assert |Lower(mac)| == |mac| && |Lower(n.mac)| == |n.mac|;
    ObserveIsPointUpdate(book, ctx, Apply(book, KeyOf(ctx), n), t, KeyOf(ctx), mac);
  }

  lemma {:induction false} FileOneLeavesOthers(book: Book, ctx: Context, n: Neighbor, t: Times, mac: string)
    requires !SameKey(mac, n.mac)
    ensures DeviceIn(ApplyThenObserve(book, ctx, n, t), KeyOf(ctx), mac) == DeviceIn(book, KeyOf(ctx), mac)
  {
    var applied := Apply(book, KeyOf(ctx), n);
    if applied.mac != "" { ObserveIsPointUpdate(book, ctx, applied, t, KeyOf(ctx), mac); }
  }

  lemma {:induction false} ShownAt(book: Book, ctx: Context, items: seq<Neighbor>, times: int -> Times, i: nat)
    requires i < |items|
    ensures var n := |items| - 1;
            ShownAll(book, ctx, items, times)[i]
            == if i == n then Apply(FileAll(book, ctx, items[..n], times), KeyOf(ctx), items[n])
               else ShownAll(book, ctx, items[..n], times)[i]
  {
  }

  // After filing, the record of any MAC under the gateway is what the map shows for the last device
  // of that MAC; without such a device the record stays as it was.
  lemma {:induction false} FilingRecordsWhatIsShown(book: Book, ctx: Context, items: seq<Neighbor>,
                                                    times: int -> Times, mac: string)
    requires mac != ""
    ensures var i, now := LastOf(items, mac), DeviceIn(FileAll(book, ctx, items, times), KeyOf(ctx), mac);
            if i >= 0 then RecordedAsShown(now, ShownAll(book, ctx, items, times)[i], times(i))
            else now == DeviceIn(book, KeyOf(ctx), mac)
  {
    if items != [] {
      var n, i := |items| - 1, LastOf(items, mac);
      var before := FileAll(book, ctx, items[..n], times);
      if i >= 0 { ShownAt(book, ctx, items, times, i); }
      if i == n {
        FileOneIsRecorded(before, ctx, items[n], times(n), mac);
      } else {
        FilingRecordsWhatIsShown(book, ctx, items[..n], times, mac);
        FileOneLeavesOthers(before, ctx, items[n], times(n), mac);
      }
    }
  }

  // ----- runs of the discovery thread -----

  // What one turn of the discovery thread meets.
  datatype Turn = Turn(snapshot: Snapshot, networks: seq<LocalNetwork>, isp: Option<Isp>)

  datatype TrayState = TrayState(table: Table, gateway: string, book: Book)

  function TurnContext(gateway: string, turn: Turn): Context { ContextOf(Scope(gateway, turn.networks), turn.isp) }

  // A failed poll changes nothing.
  function AfterTurn(s: TrayState, turn: Turn, times: int -> Times): (r: TrayState)
    requires WellFormed(s.table)
    ensures WellFormed(r.table)
  {
    if turn.snapshot.Failed? then s
    else
      PollKeepsWellFormed(s.table, turn.snapshot.items);
      var table := PollTable(s.table, turn.snapshot.items);
      TrayState(table, Scope(s.gateway, turn.networks).gatewayMac,
                FileAll(s.book, TurnContext(s.gateway, turn), ActiveOf(table.known), times))
  }

  // What the map shows after a successful poll.
  function MapOf(s: TrayState, turn: Turn, times: int -> Times): seq<Neighbor>
    requires WellFormed(s.table) && turn.snapshot.Taken?
  {
    ShownAll(s.book, TurnContext(s.gateway, turn), ActiveOf(PollTable(s.table, turn.snapshot.items).known), times)
  }

  function AfterTurns(s: TrayState, turns: seq<Turn>, times: (int, int) -> Times): (r: TrayState)
    requires WellFormed(s.table)
    ensures WellFormed(r.table)
  {
    if turns == [] then s
    else
      var n := |turns| - 1;
      AfterTurn(AfterTurns(s, turns[..n], times), turns[n], i => times(n, i))
  }

  // Over any run of the discovery thread nothing learned about any device of any network is lost.
  lemma {:induction false} RunKeepsLearned(s: TrayState, turns: seq<Turn>, times: (int, int) -> Times, key: string,
                                           mac: string)
    requires WellFormed(s.table)
    ensures KeepsLearned(DeviceIn(s.book, key, mac), DeviceIn(AfterTurns(s, turns, times).book, key, mac))
  {
    if turns != [] {
      var n := |turns| - 1;
      var before := AfterTurns(s, turns[..n], times);
      RunKeepsLearned(s, turns[..n], times, key, mac);
      TurnKeepsLearned(before, turns[n], i => times(n, i), key, mac);
      KeepsLearnedTwice(DeviceIn(s.book, key, mac), DeviceIn(before.book, key, mac),
                        DeviceIn(AfterTurns(s, turns, times).book, key, mac));
    }
  }

  lemma {:induction false} TurnKeepsLearned(s: TrayState, turn: Turn, times: int -> Times, key: string, mac: string)
    requires WellFormed(s.table)
    ensures KeepsLearned(DeviceIn(s.book, key, mac), DeviceIn(AfterTurn(s, turn, times).book, key, mac))
  {
    if turn.snapshot.Taken? {
      var table := PollTable(s.table, turn.snapshot.items);
      FilingKeepsLearned(s.book, TurnContext(s.gateway, turn), ActiveOf(table.known), times, key, mac);
    }
  }

  // The networks of the successful polls of a run.
  function Seen(turns: seq<Turn>): seq<seq<LocalNetwork>> {
    if turns == [] then []
    else
      var n := |turns| - 1;
      Seen(turns[..n]) + if turns[n].snapshot.Failed? then [] else [turns[n].networks]
  }

  lemma {:induction false} GatewayFollowsSuccesses(turns: seq<Turn>, times: (int, int) -> Times)
    ensures AfterTurns(TrayState(EMPTY, "", []), turns, times).gateway == GatewayAfter(Seen(turns))
  {
    if turns != [] {
      var n := |turns| - 1;
      GatewayFollowsSuccesses(turns[..n], times);
      var seen := Seen(turns);
      if turns[n].snapshot.Taken? {
        assert seen[..|seen| - 1] == Seen(turns[..n]);
      } else {
        assert seen == Seen(turns[..n]);
      }
    }
  }
}
