// The discovery thread: it polls, attributes the result to a gateway, completes the events and files
// the active devices.

module TrayWorker {
  import opened Statuses
  import opened Neighbors
  import opened Slices
  import opened Options
  import opened Discovery
  import opened Records
  import opened DeviceStore
  import opened RecordLaws
  import opened Trails
  import opened TrayFiling

  const MAX_EVENTS := 32

  // Looks for the gateway of a list of networks.
  method FindGateway(networks: seq<LocalNetwork>) returns (g: LocalNetwork)
    ensures g == FirstGateway(networks)
  {
    var i := 0;
    while i < |networks|
      invariant 0 <= i <= |networks| && FirstGateway(networks) == FirstGateway(networks[i..])
    {
      if networks[i].gatewayMac != "" { return networks[i]; }
      i := i + 1;
    }
    g := NO_GATEWAY;
  }

  // The same events, their neighbours completed from a book.
  ghost predicate Completed(book: Book, key: string, before: seq<Event>, now: seq<Event>) {
    && |now| == |before|
    && forall i | 0 <= i < |before| :: now[i] == before[i].(neighbor := Apply(book, key, before[i].neighbor))
  }

  method CompleteEvent(store: Store, key: string, events: array<Event>, i: nat)
    requires store.Valid() && i < events.Length && events !in store.Repr
    modifies events
    ensures store.Valid() && store.View() == old(store.View())
    ensures events[i] == old(events[i]).(neighbor := Apply(store.View(), key, old(events[i]).neighbor))
    ensures forall k | 0 <= k < events.Length && k != i :: events[k] == old(events[k])
  {
    var n := store.ApplyTo(key, events[i].neighbor);
    events[i] := events[i].(neighbor := n);
  }

  // Completes the reported events from the store, in place.
  method CompleteEvents(store: Store, key: string, events: array<Event>, count: nat)
    requires store.Valid() && count <= events.Length && events !in store.Repr
    modifies events
    ensures Completed(store.View(), key, old(events[..count]), events[..count])
    ensures store.Valid() && store.View() == old(store.View())
  {
    ghost var before, book := events[..], store.View();
    var i := 0;
    while i < count
      invariant 0 <= i <= count && store.Valid() && store.View() == book
      invariant forall k | 0 <= k < i :: events[k] == before[k].(neighbor := Apply(book, key, before[k].neighbor))
      invariant forall k | i <= k < count :: events[k] == before[k]
    {
      CompleteEvent(store, key, events, i);
      i := i + 1;
    }
  }

  // Completes and records one device.
  method FileDevice(store: Store, ctx: Context, n: Neighbor, t: Times) returns (shown: Neighbor)
    requires store.Valid()
    modifies store.Repr
    ensures store.Valid() && fresh(store.Repr - old(store.Repr))
    ensures shown == Apply(old(store.View()), KeyOf(ctx), n)
    ensures store.View() == ApplyThenObserve(old(store.View()), ctx, n, t)
  {
    shown := store.ApplyTo(KeyOf(ctx), n);
    var _ := store.ObserveNeighbor(ctx, shown, t, true, true);
  }

  ghost function StepOf(ctx: Context, times: int -> Times): (Book, Neighbor, int) -> Book {
    (b: Book, n: Neighbor, i: int) => ApplyThenObserve(b, ctx, n, times(i))
  }

  ghost function ShowOf(ctx: Context): (Book, Neighbor) -> Neighbor {
    (b: Book, n: Neighbor) => Apply(b, KeyOf(ctx), n)
  }

  lemma {:induction false} FoldIsFiling(book: Book, ctx: Context, items: seq<Neighbor>, times: int -> Times)
    ensures Fold(book, items, StepOf(ctx, times)) == FileAll(book, ctx, items, times)
  {
    if items != [] { FoldIsFiling(book, ctx, items[..|items| - 1], times); }
  }

  lemma {:induction false} ShowsIsShown(book: Book, ctx: Context, items: seq<Neighbor>, times: int -> Times)
    ensures Shows(book, items, StepOf(ctx, times), ShowOf(ctx)) == ShownAll(book, ctx, items, times)
  {
    if items != [] {
      var n := |items| - 1;
      ShowsIsShown(book, ctx, items[..n], times);
      FoldIsFiling(book, ctx, items[..n], times);
    }
  }

  // What has been filed and listed after some of the active devices.
  ghost predicate FiledSoFar(book: Book, ctx: Context, items: seq<Neighbor>, times: int -> Times, now: Book,
                             shown: seq<Neighbor>) {
    exists trail :: Trail(items, StepOf(ctx, times), ShowOf(ctx), trail, shown) && trail[0] == book
        && trail[|items|] == now
  }

  lemma {:induction false} NothingFiled(book: Book, ctx: Context, times: int -> Times)
    ensures FiledSoFar(book, ctx, [], times, book, [])
  {
    assert Trail([], StepOf(ctx, times), ShowOf(ctx), [book], []);
  }

  lemma {:induction false} FiledOneMore(book: Book, ctx: Context, items: seq<Neighbor>, times: int -> Times, now: Book,
                                        shown: seq<Neighbor>, n: Neighbor)
    requires FiledSoFar(book, ctx, items, times, now, shown)
    ensures FiledSoFar(book, ctx, items + [n], times, ApplyThenObserve(now, ctx, n, times(|items|)),
                       shown + [Apply(now, KeyOf(ctx), n)])
  {
    var step, show := StepOf(ctx, times), ShowOf(ctx);
    var trail :| Trail(items, step, show, trail, shown) && trail[0] == book && trail[|items|] == now;
    TrailOneMore(items, step, show, trail, shown, n);
  }

  lemma {:induction false} FiledMeans(book: Book, ctx: Context, items: seq<Neighbor>, times: int -> Times, now: Book,
                                      shown: seq<Neighbor>)
    requires FiledSoFar(book, ctx, items, times, now, shown)
    ensures now == FileAll(book, ctx, items, times) && shown == ShownAll(book, ctx, items, times)
  {
    var step, show := StepOf(ctx, times), ShowOf(ctx);
    var trail :| Trail(items, step, show, trail, shown) && trail[0] == book && trail[|items|] == now;
    TrailEnds(items, step, show, trail, shown);
    FoldIsFiling(book, ctx, items, times);
    ShowsIsShown(book, ctx, items, times);
  }

  // Files one more device and lists it.
  method FileNext(store: Store, ctx: Context, n: Neighbor, out: array<Neighbor>, count: nat, times: int -> Times,
                  ghost book: Book, ghost items: seq<Neighbor>)
    requires store.Valid() && count < out.Length && out !in store.Repr
    requires FiledSoFar(book, ctx, items, times, store.View(), out[..count]) && count == |items|
    modifies store.Repr, out
    ensures store.Valid() && fresh(store.Repr - old(store.Repr))
    ensures FiledSoFar(book, ctx, items + [n], times, store.View(), out[..count + 1])
  {
    FiledOneMore(book, ctx, items, times, store.View(), out[..count], n);
    var shown := FileDevice(store, ctx, n, times(count));
    out[count] := shown;
    assert out[..count + 1] == out[..count] + [shown];
  }

  // Files slot i unless its device is inactive.
  method FileSlot(store: Store, ctx: Context, known: seq<Neighbor>, i: nat, out: array<Neighbor>, count: nat,
                  times: int -> Times, ghost book: Book) returns (next: nat)
    requires store.Valid() && i < |known| && count < out.Length && out !in store.Repr
    requires count == |ActiveUpTo(known, i)|
    requires FiledSoFar(book, ctx, ActiveUpTo(known, i), times, store.View(), out[..count])
    modifies store.Repr, out
    ensures store.Valid() && fresh(store.Repr - old(store.Repr))
    ensures next == |ActiveUpTo(known, i + 1)| <= out.Length
    ensures FiledSoFar(book, ctx, ActiveUpTo(known, i + 1), times, store.View(), out[..next])
  {
    ghost var done := ActiveUpTo(known, i);
    next := count;
    if known[i].active {
      FileNext(store, ctx, known[i], out, count, times, book, done);
      next := count + 1;
    }
    assert ActiveUpTo(known, i + 1) == done + if known[i].active then [known[i]] else [];
  }

  // Completes and records every active device and lists it for the map.
  method FileActive(store: Store, ctx: Context, known: seq<Neighbor>, out: array<Neighbor>, times: int -> Times)
    returns (count: nat)
    requires store.Valid() && |known| <= MAX_NEIGHBORS <= out.Length && out !in store.Repr
    modifies store.Repr, out
    ensures store.Valid() && fresh(store.Repr - old(store.Repr))
    ensures count == |ActiveOf(known)| <= MAX_NEIGHBORS
    ensures FiledSoFar(old(store.View()), ctx, ActiveOf(known), times, store.View(), out[..count])
  {
    ghost var book := store.View();
    NothingFiled(book, ctx, times);
    count := 0;
    var i := 0;
    while i < |known| && count < MAX_NEIGHBORS
      invariant 0 <= i <= |known| && store.Valid() && count == |ActiveUpTo(known, i)|
      invariant fresh(store.Repr - old(store.Repr))
      invariant FiledSoFar(book, ctx, ActiveUpTo(known, i), times, store.View(), out[..count])
    {
      count := FileSlot(store, ctx, known, i, out, count, times, book);
      i := i + 1;
    }
  }

  class DiscoveryWorker {
    const monitor: Monitor
    const store: Store
    const mapItems: array<Neighbor>
    var mapCount: nat
    var lastGateway: string
    var lastGatewaySet: bool

    ghost predicate Valid()
      reads this, monitor, monitor.known, monitor.missing, store, store.Repr
    {
      && monitor.Valid() && store.Valid()
      && mapItems.Length == MAX_NEIGHBORS && mapCount <= MAX_NEIGHBORS
      && mapItems != monitor.known && mapItems as object != monitor.missing && mapItems !in store.Repr
      && this !in store.Repr && monitor !in store.Repr && monitor.known !in store.Repr && monitor.missing !in store.Repr
      && (lastGatewaySet <==> lastGateway != "")
    }

    ghost function View(): TrayState
      reads this, monitor, monitor.known, monitor.missing, store, store.Repr
      requires Valid()
    {
      TrayState(monitor.View(), lastGateway, store.View())
    }

    constructor (store: Store, given: Sources)
      requires store.Valid() && given.snapshot.Some?
      ensures Valid() && View() == TrayState(EMPTY, "", store.View()) && mapCount == 0
      ensures this.store == store && monitor.sources.snapshot.Some?
      ensures fresh(monitor) && fresh(monitor.known) && fresh(monitor.missing) && fresh(mapItems)
    {
      monitor := new Monitor();
      this.store := store;
      mapItems := new Neighbor[MAX_NEIGHBORS](_ => BLANK);
      mapCount, lastGateway, lastGatewaySet := 0, "", false;
      new;
      monitor.SetSources(given);
    }

    // The gateway this poll belongs to, and whether the ISP should be looked up again. A poll without
    // a gateway stays with the last one.
    method AttributeGateway(networks: seq<LocalNetwork>) returns (scope: LocalNetwork, refresh: bool)
      requires lastGatewaySet <==> lastGateway != ""
      modifies this`lastGateway, this`lastGatewaySet
      ensures lastGatewaySet <==> lastGateway != ""
      ensures scope == Scope(old(lastGateway), networks) && lastGateway == scope.gatewayMac
      ensures refresh <==> Refreshes(old(lastGateway), networks)
    {
      refresh := false;
      scope := FindGateway(networks);
      if scope.gatewayMac == "" && lastGatewaySet {
        scope := scope.(gatewayMac := lastGateway);
      } else if scope.gatewayMac != "" && (!lastGatewaySet || lastGateway != scope.gatewayMac) {
        lastGateway := scope.gatewayMac;
        lastGatewaySet := true;
        refresh := true;
      }
    }

    ghost predicate Apart(events: array<Event>)
      reads this, store
    {
      && events.Length == MAX_EVENTS
      && events as object != monitor.known && events as object != monitor.missing
      && events as object != mapItems && events !in store.Repr
    }

    // Files the active devices of the poll under its gateway.
    method FilePoll(ctx: Context, times: int -> Times)
      requires Valid()
      modifies this`mapCount, mapItems, store.Repr
      ensures Valid() && fresh(store.Repr - old(store.Repr))
      ensures monitor.View() == old(monitor.View())
      ensures var active := ActiveOf(monitor.View().known);
              && store.View() == FileAll(old(store.View()), ctx, active, times)
              && mapItems[..mapCount] == ShownAll(old(store.View()), ctx, active, times)
    {
      ghost var book := store.View();
      var known := monitor.known[..monitor.knownCount];
      mapCount := FileActive(store, ctx, known, mapItems, times);
      FiledMeans(book, ctx, ActiveOf(known), times, store.View(), mapItems[..mapCount]);
    }

    // What follows a successful poll.
    method Publish(networks: seq<LocalNetwork>, isp: Option<Isp>, events: array<Event>, count: nat, times: int -> Times)
      returns (refresh: bool)
      requires Valid() && Apart(events) && count <= MAX_EVENTS
      modifies this`mapCount, this`lastGateway, this`lastGatewaySet, mapItems, events, store.Repr
      ensures Valid() && fresh(store.Repr - old(store.Repr)) && monitor.View() == old(monitor.View())
      ensures refresh <==> Refreshes(old(lastGateway), networks)
      ensures lastGateway == Scope(old(lastGateway), networks).gatewayMac
      ensures Completed(old(store.View()), lastGateway, old(events[..count]), events[..count])
      ensures var ctx := ContextOf(Scope(old(lastGateway), networks), isp);
              && store.View() == FileAll(old(store.View()), ctx, ActiveOf(monitor.View().known), times)
              && mapItems[..mapCount] == ShownAll(old(store.View()), ctx, ActiveOf(monitor.View().known), times)
    {
      var scope;
      scope, refresh := AttributeGateway(networks);
      CompleteEvents(store, scope.gatewayMac, events, count);
      FilePoll(ContextOf(scope, isp), times);
    }

    // One turn of the loop.
    method PollOnce(turn: Turn, events: array<Event>, times: int -> Times)
      returns (status: Status, count: nat, refresh: bool)
      requires Valid() && Apart(events) && monitor.sources.snapshot.Some?
      requires turn.snapshot.Failed? ==> turn.snapshot.status != Status.Ok
      modifies monitor, monitor.known, monitor.missing, this`mapCount, this`lastGateway, this`lastGatewaySet, mapItems,
               events, store.Repr
      ensures Valid() && fresh(store.Repr - old(store.Repr)) && monitor.sources.snapshot.Some? && count <= MAX_EVENTS
      ensures status == if turn.snapshot.Failed? then turn.snapshot.status else Status.Ok
      ensures View() == AfterTurn(old(View()), turn, times)
      ensures refresh <==> turn.snapshot.Taken? && Refreshes(old(lastGateway), turn.networks)
      ensures var book := old(store.View());
              turn.snapshot.Taken? ==>
                var log := FirstN(PollLog(old(monitor.View()), turn.snapshot.items), 32);
                && count == |log|
                && (forall i | 0 <= i < count ::
                      events[i] == Event(log[i].kind, Apply(book, lastGateway, log[i].neighbor)))
                && mapItems[..mapCount] == MapOf(old(View()), turn, times)
    {
      status, count := monitor.Poll(turn.snapshot, events, MAX_EVENTS);
      refresh := false;
      if status == Status.Ok { refresh := Publish(turn.networks, turn.isp, events, count, times); }
    }
  }
}
