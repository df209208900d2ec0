// Whole runs of discovery polls, each reported neighbour identified by its MAC or, without one, by
// its address.

module DiscoveryRuns {
  import opened Neighbors
  import opened Discovery

  type Run = seq<seq<Neighbor>>

  // ----- what the program does over a run -----

  function AfterRun(run: Run): (t: Table)
    ensures WellFormed(t)
  {
    if run == [] then EMPTY
    else
      var t := AfterRun(run[..|run| - 1]);
      PollKeepsWellFormed(t, run[|run| - 1]);
      PollTable(t, run[|run| - 1])
  }

  // Every event of the run, uncut.
  function RunLog(run: Run): seq<Event> {
    if run == [] then []
    else RunLog(run[..|run| - 1]) + PollLog(AfterRun(run[..|run| - 1]), run[|run| - 1])
  }

  // The same with failed polls in between.
  function AfterOutcomes(outcomes: seq<Snapshot>): (t: Table)
    ensures WellFormed(t)
  {
    if outcomes == [] then EMPTY
    else
      var t, last := AfterOutcomes(outcomes[..|outcomes| - 1]), outcomes[|outcomes| - 1];
      if last.Failed? then t
      else PollKeepsWellFormed(t, last.items); PollTable(t, last.items)
  }

  function Successes(outcomes: seq<Snapshot>): Run {
    if outcomes == [] then []
    else
      Successes(outcomes[..|outcomes| - 1]) +
      if outcomes[|outcomes| - 1].Failed? then [] else [outcomes[|outcomes| - 1].items]
  }

  lemma {:induction false} FailedPollsLeaveNoTrace(outcomes: seq<Snapshot>)
    ensures AfterOutcomes(outcomes) == AfterRun(Successes(outcomes))
  {
    if outcomes != [] {
      var prefix := outcomes[..|outcomes| - 1];
      FailedPollsLeaveNoTrace(prefix);
      var s := Successes(outcomes);
      if outcomes[|outcomes| - 1].Failed? {
        assert s == Successes(prefix);
      } else {
        assert s[..|s| - 1] == Successes(prefix);
      }
    }
  }

  // ----- what a run says about one device -----

  // What a neighbour is known by: its MAC, or its address when the MAC is missing.
  datatype Identity = ByMac(mac: string) | ByIp(ip: string)

  function Id(n: Neighbor): Identity { if n.mac != "" then ByMac(n.mac) else ByIp(n.ip) }

  // No address is reported both with a MAC and without: those in bare come without.
  predicate Consistent(n: Neighbor, bare: set<string>) { n.mac == "" <==> n.ip in bare }

  ghost predicate Identified(items: seq<Neighbor>, bare: set<string>) {
    && (forall i | 0 <= i < |items| :: Consistent(items[i], bare))
    && (forall i, j | 0 <= i < j < |items| :: Id(items[i]) != Id(items[j]))
  }

  ghost predicate IdentifiedRun(run: Run, bare: set<string>) {
    forall n | 0 <= n < |run| :: Identified(run[n], bare)
  }

  // Then two entries are the same device exactly when they are known by the same.
  lemma {:induction false} MatchesIsSameId(a: Neighbor, b: Neighbor, bare: set<string>)
    requires Consistent(a, bare) && Consistent(b, bare)
    ensures Matches(a, b) <==> Id(a) == Id(b)
  {
  }

  predicate Has(items: seq<Neighbor>, m: Identity) {
    items != [] && (Id(items[|items| - 1]) == m || Has(items[..|items| - 1], m))
  }

  lemma {:induction false} HasIsMembership(items: seq<Neighbor>, m: Identity)
    ensures Has(items, m) <==> exists i :: 0 <= i < |items| && Id(items[i]) == m
  {
    if items != [] {
      var n := |items| - 1;
      HasIsMembership(items[..n], m);
      if i :| 0 <= i < |items| && Id(items[i]) == m && i < n {
        assert Id(items[..n][i]) == m;
      }
    }
  }

  function ItemOf(items: seq<Neighbor>, m: Identity): (item: Neighbor)
    requires Has(items, m)
    ensures item in items && Id(item) == m
  {
    if Id(items[|items| - 1]) == m then items[|items| - 1] else ItemOf(items[..|items| - 1], m)
  }

  // How many snapshots at the end of the run miss the device.
  function Absences(run: Run, m: Identity): nat {
    if run == [] || Has(run[|run| - 1], m) then 0 else 1 + Absences(run[..|run| - 1], m)
  }

  predicate Ever(run: Run, m: Identity) {
    run != [] && (Has(run[|run| - 1], m) || Ever(run[..|run| - 1], m))
  }

  // What was last reported about a device.
  function Latest(run: Run, m: Identity): (item: Neighbor)
    requires Ever(run, m)
    ensures Id(item) == m
  {
    if Has(run[|run| - 1], m) then ItemOf(run[|run| - 1], m) else Latest(run[..|run| - 1], m)
  }

  function NewIds(items: seq<Neighbor>, order: seq<Identity>): seq<Identity> {
    if items == [] then []
    else
      var n := |items| - 1;
      NewIds(items[..n], order) + if Id(items[n]) in order then [] else [Id(items[n])]
  }

  // All devices of the run in order of first appearance.
  function Order(run: Run): seq<Identity> {
    if run == [] then []
    else Order(run[..|run| - 1]) + NewIds(run[|run| - 1], Order(run[..|run| - 1]))
  }

  predicate Active(run: Run, m: Identity) {
    Ever(run, m) && Absences(run, m) < MISSING_POLLS_BEFORE_LEFT
  }

  ghost predicate Distinct(s: seq<Identity>) {
    forall i, j | 0 <= i < j < |s| :: s[i] != s[j]
  }

  lemma {:induction false} NewIdsAreNew(items: seq<Neighbor>, order: seq<Identity>, m: Identity)
    ensures m in NewIds(items, order) <==> Has(items, m) && m !in order
  {
    if items != [] { NewIdsAreNew(items[..|items| - 1], order, m); }
  }

  lemma {:induction false} NewIdsDistinct(items: seq<Neighbor>, order: seq<Identity>, bare: set<string>)
    requires Identified(items, bare)
    ensures Distinct(NewIds(items, order))
  {
    if items != [] {
      var n := |items| - 1;
      NewIdsDistinct(items[..n], order, bare);
      NewIdsAreNew(items[..n], order, Id(items[n]));
      HasIsMembership(items[..n], Id(items[n]));
    }
  }

  lemma {:induction false} OrderListsEveryDeviceOnce(run: Run, bare: set<string>)
    requires IdentifiedRun(run, bare)
    ensures Distinct(Order(run))
    ensures forall m :: m in Order(run) <==> Ever(run, m)
  {
    if run != [] {
      var prefix, items := run[..|run| - 1], run[|run| - 1];
      OrderListsEveryDeviceOnce(prefix, bare);
      NewIdsDistinct(items, Order(prefix), bare);
      forall m ensures m in NewIds(items, Order(prefix)) <==> Has(items, m) && m !in Order(prefix) {
        NewIdsAreNew(items, Order(prefix), m);
      }
      var added := NewIds(items, Order(prefix));
      assert forall k | 0 <= k < |added| :: added[k] !in Order(prefix);
      assert Order(run) == Order(prefix) + added;
    }
  }

  // ----- the closed form of the table -----

  function ExpectedNeighbor(run: Run, m: Identity): Neighbor
    requires Ever(run, m)
  {
    Latest(run, m).(active := Active(run, m))
  }

  function ExpectedMissing(run: Run, m: Identity): nat {
    if Absences(run, m) < 2 then Absences(run, m) else 2
  }

  ghost predicate Describes(t: Table, run: Run) {
    var order := Order(run);
    && |t.known| == |t.missing| == |order|
    && (forall k | 0 <= k < |order| ::
          Ever(run, order[k]) && t.known[k] == ExpectedNeighbor(run, order[k])
          && t.missing[k] == ExpectedMissing(run, order[k]))
    && (t.hasBaseline <==> run != [])
  }

  // A table whose first slots are known by the identities of order.
  ghost predicate KeyedBy(known: seq<Neighbor>, order: seq<Identity>, bare: set<string>) {
    && |order| <= |known| && Distinct(order)
    && forall k | 0 <= k < |order| :: Id(known[k]) == order[k] && Consistent(known[k], bare)
  }

  lemma {:induction false} FindById(known: seq<Neighbor>, order: seq<Identity>, item: Neighbor, k: int,
                                    bare: set<string>)
    requires KeyedBy(known, order, bare) && Consistent(item, bare)
    requires if k < 0 then Id(item) !in order else k < |order| && order[k] == Id(item)
    ensures FindKnown(known[..|order|], item) == if k < 0 then -1 else k
  {
    forall j | 0 <= j < |order| ensures Matches(known[j], item) <==> j == k {
      MatchesIsSameId(known[j], item, bare);
    }
    if k >= 0 { FirstMatchIsFound(known[..|order|], k, item); }
  }

  // The pass after some items: a slot whose device was reported holds that report, the others are
  // untouched, and the unknown devices have been appended.
  ghost predicate Midway(t: Table, order: seq<Identity>, items: seq<Neighbor>, r: Pass)
    requires |t.known| == |t.missing| == |order|
  {
    && |r.seen| == |order| && |r.known| == |r.missing| == |order| + |NewIds(items, order)|
    && (forall k | 0 <= k < |order| ::
          if Has(items, order[k])
          then r.known[k] == ItemOf(items, order[k]).(active := true) && r.seen[k]
          else r.known[k] == t.known[k] && r.missing[k] == t.missing[k] && !r.seen[k])
    && (forall k | 0 <= k < |NewIds(items, order)| ::
          Has(items, NewIds(items, order)[k])
          && r.known[|order| + k] == ItemOf(items, NewIds(items, order)[k]).(active := true))
  }

  function PositionOf(order: seq<Identity>, m: Identity): (k: int)
    ensures if k < 0 then m !in order else k < |order| && order[k] == m
  {
    if order == [] then -1
    else if order[|order| - 1] == m then |order| - 1
    else PositionOf(order[..|order| - 1], m)
  }

  lemma {:induction false} RestIsDistinct(items: seq<Neighbor>, order: seq<Identity>, bare: set<string>)
    requires Identified(items, bare) && items != []
    ensures var n := |items| - 1;
            && Identified(items[..n], bare) && Consistent(items[n], bare) && !Has(items[..n], Id(items[n]))
            && |NewIds(items[..n], order)| <= |NewIds(items, order)|
  {
    HasIsMembership(items[..|items| - 1], Id(items[|items| - 1]));
  }

  lemma {:induction false} ReportedOneMore(t: Table, items: seq<Neighbor>)
    requires WellFormed(t) && items != []
    ensures var n := |items| - 1;
            && items[..n] + [items[n]] == items
            && Reported(t, items) == Absorb(Reported(t, items[..n]), items[n], t.hasBaseline)
  {
  }

  lemma {:induction false} NothingReportedYet(t: Table, order: seq<Identity>)
    requires WellFormed(t) && |t.known| == |order|
    ensures Midway(t, order, [], Reported(t, []))
  {
  }

  lemma {:induction false} AbsorbById(t: Table, order: seq<Identity>, items: seq<Neighbor>, bare: set<string>)
    requires WellFormed(t) && |t.known| == |order| && KeyedBy(t.known, order, bare) && Identified(items, bare)
    requires |order| + |NewIds(items, order)| <= MAX_NEIGHBORS
    ensures Midway(t, order, items, Reported(t, items))
  {
    if items == [] {
      NothingReportedYet(t, order);
    } else {
      var n := |items| - 1;
      RestIsDistinct(items, order, bare);
      ReportedOneMore(t, items);
      AbsorbById(t, order, items[..n], bare);
      AbsorbOneById(t, order, items[..n], items[n], bare);
    }
  }

  lemma {:induction false} ExtendItems(rest: seq<Neighbor>, item: Neighbor, order: seq<Identity>, m: Identity)
    ensures Has(rest + [item], m) <==> Id(item) == m || Has(rest, m)
    ensures Id(item) == m ==> ItemOf(rest + [item], m) == item
    ensures Id(item) != m && Has(rest, m) ==> ItemOf(rest + [item], m) == ItemOf(rest, m)
    ensures NewIds(rest + [item], order) == NewIds(rest, order) + if Id(item) in order then [] else [Id(item)]
  {
    var items := rest + [item];
    assert items[..|items| - 1] == rest && items[|items| - 1] == item;
  }

  lemma {:induction false} KeyedMidway(t: Table, order: seq<Identity>, items: seq<Neighbor>, r: Pass,
                                       bare: set<string>)
    requires |t.known| == |t.missing| == |order| && KeyedBy(t.known, order, bare) && Identified(items, bare)
    requires Midway(t, order, items, r)
    ensures KeyedBy(r.known, order, bare)
  {
    forall k | 0 <= k < |order| ensures Id(r.known[k]) == order[k] && Consistent(r.known[k], bare) {
      if Has(items, order[k]) { assert Consistent(ItemOf(items, order[k]), bare); }
    }
  }

  // The pass r has taken in rest, and item goes to slot at of it, or nowhere when at is negative.
  ghost predicate Finds(t: Table, order: seq<Identity>, rest: seq<Neighbor>, item: Neighbor, r: Pass, at: int)
    requires |t.known| == |t.missing| == |order|
  {
    && PassOk(r) && Midway(t, order, rest, r) && at == PositionOf(order, Id(item)) && Distinct(order)
    && FindKnown(r.known[..|order|], item) == (if at < 0 then -1 else at) && !Has(rest, Id(item))
    && |order| + |NewIds(rest + [item], order)| <= MAX_NEIGHBORS
  }

  lemma {:induction false} RetainedOneMore(t: Table, order: seq<Identity>, rest: seq<Neighbor>, item: Neighbor,
                                           r: Pass, at: int, k: nat)
    requires |t.known| == |t.missing| == |order| && Finds(t, order, rest, item, r, at) && k < |order|
    ensures var q, items := Absorb(r, item, t.hasBaseline), rest + [item];
            if Has(items, order[k])
            then q.known[k] == ItemOf(items, order[k]).(active := true) && q.seen[k]
            else q.known[k] == t.known[k] && q.missing[k] == t.missing[k] && !q.seen[k]
  {
    ExtendItems(rest, item, order, order[k]);
    assert k == at <==> order[k] == Id(item);
  }

  lemma {:induction false} AppendedOneMore(t: Table, order: seq<Identity>, rest: seq<Neighbor>, item: Neighbor,
                                           r: Pass, at: int, k: nat)
    requires |t.known| == |t.missing| == |order| && Finds(t, order, rest, item, r, at)
    requires k < |NewIds(rest + [item], order)|
    ensures var q, items := Absorb(r, item, t.hasBaseline), rest + [item];
            var m := NewIds(items, order)[k];
            Has(items, m) && q.known[|order| + k] == ItemOf(items, m).(active := true)
  {
    ExtendItems(rest, item, order, NewIds(rest + [item], order)[k]);
  }

  lemma {:induction false} AbsorbOneById(t: Table, order: seq<Identity>, rest: seq<Neighbor>, item: Neighbor,
                                         bare: set<string>)
    requires WellFormed(t) && |t.known| == |order| && KeyedBy(t.known, order, bare)
    requires Identified(rest, bare) && Consistent(item, bare) && !Has(rest, Id(item))
    requires |order| + |NewIds(rest + [item], order)| <= MAX_NEIGHBORS
    requires Midway(t, order, rest, Reported(t, rest))
    ensures Midway(t, order, rest + [item], Absorb(Reported(t, rest), item, t.hasBaseline))
  {
    var r, at := Reported(t, rest), PositionOf(order, Id(item));
    KeyedMidway(t, order, rest, r, bare);
    FindById(r.known, order, item, at, bare);
    ExtendItems(rest, item, order, Id(item));
    forall k: nat | k < |order| { RetainedOneMore(t, order, rest, item, r, at, k); }
    forall k: nat | k < |NewIds(rest + [item], order)| { AppendedOneMore(t, order, rest, item, r, at, k); }
  }

  // What one more snapshot changes about a device.
  ghost predicate Extended(run: Run, prefix: Run, items: seq<Neighbor>, m: Identity) {
    && (Ever(run, m) <==> Has(items, m) || Ever(prefix, m))
    && Absences(run, m) == (if Has(items, m) then 0 else 1 + Absences(prefix, m))
    && (Has(items, m) ==> Latest(run, m) == ItemOf(items, m))
    && (!Has(items, m) && Ever(prefix, m) ==> Latest(run, m) == Latest(prefix, m))
  }

  lemma {:induction false} ExtendRun(prefix: Run, items: seq<Neighbor>, m: Identity)
    ensures Order(prefix + [items]) == Order(prefix) + NewIds(items, Order(prefix))
    ensures Extended(prefix + [items], prefix, items, m)
  {
    assert (prefix + [items])[..|prefix|] == prefix;
  }

  // Slot k of a table shows what a run says about a device.
  ghost predicate Shows(t: Table, k: nat, run: Run, m: Identity) {
    && Ever(run, m) && k < |t.known| == |t.missing|
    && t.known[k] == ExpectedNeighbor(run, m) && t.missing[k] == ExpectedMissing(run, m)
  }

  lemma {:induction false} RetainedSlotShows(t: Table, order: seq<Identity>, items: seq<Neighbor>, p: Pass, k: nat,
                                             run: Run, prefix: Run)
    requires |t.known| == |t.missing| == |order| && PassOk(p) && Midway(t, order, items, p) && k < |order|
    requires Shows(t, k, prefix, order[k]) && Extended(run, prefix, items, order[k])
    ensures Shows(Swept(p), k, run, order[k])
  {
    assert Swept(p).known[k] == SweptNeighbor(p, k) && Swept(p).missing[k] == SweptMissing(p, k);
  }

  lemma {:induction false} AppendedSlotShows(t: Table, order: seq<Identity>, items: seq<Neighbor>, p: Pass, k: nat,
                                             run: Run, prefix: Run)
    requires |t.known| == |t.missing| == |order| && PassOk(p) && Midway(t, order, items, p)
    requires k < |NewIds(items, order)| && Extended(run, prefix, items, NewIds(items, order)[k])
    ensures Shows(Swept(p), |order| + k, run, NewIds(items, order)[k])
  {
    var at := |order| + k;
    assert Swept(p).known[at] == SweptNeighbor(p, at) && Swept(p).missing[at] == SweptMissing(p, at);
  }

  lemma {:induction false} DescribedSlot(t: Table, run: Run, k: nat)
    requires Describes(t, run) && k < |Order(run)|
    ensures Shows(t, k, run, Order(run)[k])
  {
  }

  lemma {:induction false} LatestIsConsistent(run: Run, m: Identity, bare: set<string>)
    requires IdentifiedRun(run, bare) && Ever(run, m)
    ensures Consistent(Latest(run, m), bare)
  {
    if Has(run[|run| - 1], m) {
      assert Latest(run, m) in run[|run| - 1];
    } else {
      LatestIsConsistent(run[..|run| - 1], m, bare);
    }
  }

  lemma {:induction false} KeyedAfterRun(run: Run, bare: set<string>)
    requires IdentifiedRun(run, bare) && Describes(AfterRun(run), run)
    ensures KeyedBy(AfterRun(run).known, Order(run), bare)
  {
    OrderListsEveryDeviceOnce(run, bare);
    forall k | 0 <= k < |Order(run)|
      ensures Id(AfterRun(run).known[k]) == Order(run)[k] && Consistent(AfterRun(run).known[k], bare)
    {
      DescribedSlot(AfterRun(run), run, k);
      LatestIsConsistent(run, Order(run)[k], bare);
    }
  }

  lemma {:induction false} DescribeOneMorePoll(prefix: Run, items: seq<Neighbor>, bare: set<string>)
    requires IdentifiedRun(prefix, bare) && Identified(items, bare) && Describes(AfterRun(prefix), prefix)
    requires |Order(prefix + [items])| <= MAX_NEIGHBORS
    ensures Describes(PollTable(AfterRun(prefix), items), prefix + [items])
  {
    var run, t, order := prefix + [items], AfterRun(prefix), Order(prefix);
    ExtendRun(prefix, items, ByMac(""));
    KeyedAfterRun(prefix, bare);
    AbsorbById(t, order, items, bare);
    var p, added, all := Reported(t, items), NewIds(items, order), Order(run);
    forall k | 0 <= k < |all| ensures Shows(Swept(p), k, run, all[k]) {
      ExtendRun(prefix, items, all[k]);
      if k < |order| {
        DescribedSlot(t, prefix, k);
        RetainedSlotShows(t, order, items, p, k, run, prefix);
      } else {
        AppendedSlotShows(t, order, items, p, k - |order|, run, prefix);
      }
    }
    DescribedBySlots(Swept(p), run);
  }

  lemma {:induction false} DescribedBySlots(t: Table, run: Run)
    requires |t.known| == |t.missing| == |Order(run)| && (t.hasBaseline <==> run != [])
    requires forall k | 0 <= k < |Order(run)| :: Shows(t, k, run, Order(run)[k])
    ensures Describes(t, run)
  {
    forall k | 0 <= k < |Order(run)|
      ensures Ever(run, Order(run)[k]) && t.known[k] == ExpectedNeighbor(run, Order(run)[k])
      ensures t.missing[k] == ExpectedMissing(run, Order(run)[k])
    {
      assert Shows(t, k, run, Order(run)[k]);
    }
  }

  // The whole table after any run, in closed form: one slot per device in order of first appearance,
  // holding the last report about it, its miss counter and whether it still counts as present.
  lemma {:induction false} TableAfterAnyRun(run: Run, bare: set<string>)
    requires IdentifiedRun(run, bare) && |Order(run)| <= MAX_NEIGHBORS
    ensures Describes(AfterRun(run), run)
  {
    if run != [] {
      var prefix := run[..|run| - 1];
      TableAfterAnyRun(prefix, bare);
      DescribeOneMorePoll(prefix, run[|run| - 1], bare);
      assert prefix + [run[|run| - 1]] == run;
    }
  }

  lemma {:induction false} ActiveIsRecent(run: Run, m: Identity)
    ensures Active(run, m) <==> exists n :: 0 <= n < |run| <= n + 3 && Has(run[n], m)
  {
    AbsentRecently(run, m);
    var a := Absences(run, m);
    if Ever(run, m) { LastSighting(run, m); }
    if Active(run, m) {
      assert Has(run[|run| - 1 - a], m);
    }
    if n :| 0 <= n < |run| <= n + 3 && Has(run[n], m) {
      EverIsSomewhere(run, m, n);
    }
  }

  lemma {:induction false} AbsentRecently(run: Run, m: Identity)
    ensures Absences(run, m) <= |run|
    ensures forall n | |run| - Absences(run, m) <= n < |run| :: !Has(run[n], m)
  {
    if run != [] && !Has(run[|run| - 1], m) {
      AbsentRecently(run[..|run| - 1], m);
      assert forall n | 0 <= n < |run| - 1 :: run[..|run| - 1][n] == run[n];
    }
  }

  lemma {:induction false} LastSighting(run: Run, m: Identity)
    requires Ever(run, m)
    ensures Absences(run, m) < |run| && Has(run[|run| - 1 - Absences(run, m)], m)
  {
    if !Has(run[|run| - 1], m) { LastSighting(run[..|run| - 1], m); }
  }

  lemma {:induction false} EverIsSomewhere(run: Run, m: Identity, n: nat)
    requires n < |run| && Has(run[n], m)
    ensures Ever(run, m)
  {
    if n < |run| - 1 { EverIsSomewhere(run[..|run| - 1], m, n); }
  }

  lemma {:induction false} SlotOf(run: Run, m: Identity, bare: set<string>)
    requires IdentifiedRun(run, bare) && |Order(run)| <= MAX_NEIGHBORS
    ensures var t := AfterRun(run);
            && (forall k | 0 <= k < |t.known| && Id(t.known[k]) == m ::
                  Ever(run, m) && t.known[k] == ExpectedNeighbor(run, m) && t.missing[k] == ExpectedMissing(run, m))
            && (Ever(run, m) ==> exists k :: 0 <= k < |t.known| && Id(t.known[k]) == m)
  {
    TableAfterAnyRun(run, bare);
    KeyedAfterRun(run, bare);
    OrderListsEveryDeviceOnce(run, bare);
    var t, order := AfterRun(run), Order(run);
    if Ever(run, m) {
      var k :| 0 <= k < |order| && order[k] == m;
      assert Id(t.known[k]) == m;
    }
  }

  // A device is active after the n-th successful poll exactly when it was in snapshot n, n-1 or n-2;
  // its miss counter is the number of polls since it was last seen, capped at two; an inactive
  // device has counter two.
  lemma {:induction false} PresentExactlyWhenSeenInThreePolls(run: Run, m: Identity, bare: set<string>)
    requires IdentifiedRun(run, bare) && |Order(run)| <= MAX_NEIGHBORS
    ensures var t := AfterRun(run);
            && ((exists k :: 0 <= k < |t.known| && Id(t.known[k]) == m && t.known[k].active)
                <==> exists n :: 0 <= n < |run| <= n + 3 && Has(run[n], m))
            && (forall k | 0 <= k < |t.known| && Id(t.known[k]) == m ::
                  && t.missing[k] == (if Absences(run, m) < 2 then Absences(run, m) else 2)
                  && (!t.known[k].active ==> t.missing[k] == 2))
  {
    SlotOf(run, m, bare);
    ActiveIsRecent(run, m);
  }

  // ----- the event log of one device -----

  function About(log: seq<Event>, m: Identity): seq<Event> {
    if log == [] then []
    else
      var last := log[|log| - 1];
      About(log[..|log| - 1], m) + if Id(last.neighbor) == m then [last] else []
  }

  lemma {:induction false} AboutConcat(a: seq<Event>, b: seq<Event>, m: Identity)
    ensures About(a + b, m) == About(a, m) + About(b, m)
  {
    if b == [] {
      assert a + b == a;
    } else {
      assert (a + b)[..|a + b| - 1] == a + b[..|b| - 1];
      AboutConcat(a, b[..|b| - 1], m);
    }
  }

  // What the poll after a run logs about one device. A device that comes back is announced as it was
  // reported, a new one already marked active, and one that leaves as it was last reported.
  function ExpectedJoin(run: Run, items: seq<Neighbor>, m: Identity): seq<Event> {
    if run == [] || !Has(items, m) || Active(run, m) then []
    else if Ever(run, m) then [Event(Joined, ItemOf(items, m))]
    else [Event(Joined, ItemOf(items, m).(active := true))]
  }

  function ExpectedLeave(run: Run, items: seq<Neighbor>, m: Identity): seq<Event> {
    if run == [] || Has(items, m) || !Ever(run, m) || Absences(run, m) != 2 then []
    else [Event(Left, Latest(run, m).(active := true))]
  }

  function ExpectedEvents(run: Run, items: seq<Neighbor>, m: Identity): seq<Event> {
    ExpectedJoin(run, items, m) + ExpectedLeave(run, items, m)
  }

  function KindsOf(events: seq<Event>): seq<EventType> {
    seq(|events|, i requires 0 <= i < |events| => events[i].kind)
  }

  function Kinds(log: seq<Event>, m: Identity): seq<EventType> { KindsOf(About(log, m)) }

  function ExpectedKinds(run: Run, items: seq<Neighbor>, m: Identity): seq<EventType> {
    KindsOf(ExpectedEvents(run, items, m))
  }

  // What the next item finds: its own device's slot, still showing the presence from before the poll.
  lemma {:induction false} SlotFoundByNextItem(run: Run, rest: seq<Neighbor>, item: Neighbor, bare: set<string>)
    requires IdentifiedRun(run, bare) && Identified(rest, bare) && Describes(AfterRun(run), run)
    requires Consistent(item, bare) && !Has(rest, Id(item))
    requires |Order(run)| + |NewIds(rest, Order(run))| <= MAX_NEIGHBORS
    ensures var r := Reported(AfterRun(run), rest);
            var at := FindKnown(r.known[..|r.seen|], item);
            if at >= 0 then Ever(run, Id(item)) && r.known[at].active == Active(run, Id(item))
            else !Ever(run, Id(item))
  {
    var t, order := AfterRun(run), Order(run);
    KeyedAfterRun(run, bare);
    AbsorbById(t, order, rest, bare);
    var r, at := Reported(t, rest), PositionOf(order, Id(item));
    KeyedMidway(t, order, rest, r, bare);
    FindById(r.known, order, item, at, bare);
    if at < 0 { OrderListsEveryDeviceOnce(run, bare); }
  }

  lemma {:induction false} AboutOne(e: Event, m: Identity)
    ensures About([e], m) == if Id(e.neighbor) == m then [e] else []
    ensures About([], m) == []
  {
    assert [e][..0] == [];
  }

  // Taking in one more item logs its join unless it was present before the poll.
  lemma {:induction false} JoinOfNextItem(run: Run, rest: seq<Neighbor>, item: Neighbor, m: Identity,
                                          bare: set<string>)
    requires IdentifiedRun(run, bare) && Identified(rest, bare) && Describes(AfterRun(run), run)
    requires Consistent(item, bare) && !Has(rest, Id(item))
    requires |Order(run)| + |NewIds(rest, Order(run))| <= MAX_NEIGHBORS
    ensures var r, baseline := Reported(AfterRun(run), rest), AfterRun(run).hasBaseline;
            About(Absorb(r, item, baseline).log, m)
            == About(r.log, m)
               + if !baseline || Active(run, m) || Id(item) != m then []
                 else [Event(Joined, if Ever(run, m) then item else item.(active := true))]
  {
    SlotFoundByNextItem(run, rest, item, bare);
    var r, baseline := Reported(AfterRun(run), rest), AfterRun(run).hasBaseline;
    var at := FindKnown(r.known[..|r.seen|], item);
    var e := Event(Joined, if at >= 0 then item else item.(active := true));
    var entry := if baseline && !Active(run, Id(item)) then [e] else [];
    assert Absorb(r, item, baseline).log == r.log + entry;
    AboutConcat(r.log, entry, m);
    AboutOne(e, m);
  }

  lemma {:induction false} JoinsOfOneDevice(run: Run, items: seq<Neighbor>, m: Identity, bare: set<string>)
    requires IdentifiedRun(run, bare) && Identified(items, bare) && Describes(AfterRun(run), run)
    requires |Order(run)| + |NewIds(items, Order(run))| <= MAX_NEIGHBORS
    ensures About(Reported(AfterRun(run), items).log, m) == ExpectedJoin(run, items, m)
  {
    if items != [] {
      var n := |items| - 1;
      JoinsOfOneDevice(run, items[..n], m, bare);
      RestIsDistinct(items, Order(run), bare);
      ReportedOneMore(AfterRun(run), items);
      JoinOfNextItem(run, items[..n], items[n], m, bare);
      ExtendItems(items[..n], items[n], Order(run), m);
    }
  }

  lemma {:induction false} LeaveOfSlot(run: Run, items: seq<Neighbor>, k: nat, bare: set<string>)
    requires IdentifiedRun(run, bare) && Describes(AfterRun(run), run) && k < |Order(run)|
    requires Midway(AfterRun(run), Order(run), items, Reported(AfterRun(run), items))
    ensures var p, m := Reported(AfterRun(run), items), Order(run)[k];
            && Id(p.known[k]) == m && Ever(run, m)
            && (!p.seen[k] && Expires(p.missing[k]) && p.known[k].active
                <==> !Has(items, m) && Absences(run, m) == 2)
            && (!Has(items, m) && Absences(run, m) == 2 ==> p.known[k] == Latest(run, m).(active := true))
  {
  }

  lemma {:induction false} MemberOfLongerPrefix(order: seq<Identity>, k: nat, m: Identity)
    requires k < |order| && Distinct(order)
    ensures m in order[..k + 1] <==> m in order[..k] || m == order[k]
    ensures order[k] !in order[..k]
  {
    assert order[..k + 1] == order[..k] + [order[k]];
  }

  lemma {:induction false} LeaveOfNextSlot(run: Run, items: seq<Neighbor>, m: Identity, k: nat, bare: set<string>)
    requires IdentifiedRun(run, bare) && Describes(AfterRun(run), run) && k < |Order(run)|
    requires Midway(AfterRun(run), Order(run), items, Reported(AfterRun(run), items))
    ensures var p, baseline := Reported(AfterRun(run), items), AfterRun(run).hasBaseline;
            About(LeftLog(p, k + 1, baseline), m)
            == About(LeftLog(p, k, baseline), m) + if Order(run)[k] == m then ExpectedLeave(run, items, m) else []
  {
    var p, baseline, d := Reported(AfterRun(run), items), AfterRun(run).hasBaseline, Order(run)[k];
    LeaveOfSlot(run, items, k, bare);
    var leaves := !Has(items, d) && Absences(run, d) == 2;
    var entry := if leaves then [Event(Left, p.known[k])] else [];
    assert LeftLog(p, k + 1, baseline) == LeftLog(p, k, baseline) + entry;
    AboutConcat(LeftLog(p, k, baseline), entry, m);
    AboutOne(Event(Left, p.known[k]), m);
  }

  // Each slot of the device logs the given events and every other slot none about it.
  ghost predicate LogsAbout(p: Pass, baseline: bool, order: seq<Identity>, m: Identity, leave: seq<Event>)
    requires PassOk(p) && |p.seen| == |order|
  {
    forall k | 0 <= k < |order| ::
      About(LeftLog(p, k + 1, baseline), m)
      == About(LeftLog(p, k, baseline), m) + if order[k] == m then leave else []
  }

  lemma {:induction false} LeavesUpTo(p: Pass, baseline: bool, order: seq<Identity>, m: Identity, leave: seq<Event>,
                                      upTo: nat)
    requires PassOk(p) && |p.seen| == |order| && Distinct(order) && upTo <= |order|
    requires LogsAbout(p, baseline, order, m, leave)
    ensures About(LeftLog(p, upTo, baseline), m) == if m in order[..upTo] then leave else []
  {
    if upTo > 0 {
      var k := upTo - 1;
      LeavesUpTo(p, baseline, order, m, leave, k);
      MemberOfLongerPrefix(order, k, m);
      assert About(LeftLog(p, k + 1, baseline), m)
          == About(LeftLog(p, k, baseline), m) + if order[k] == m then leave else [];
    }
  }

  lemma {:induction false} MidwayAfterRun(run: Run, items: seq<Neighbor>, bare: set<string>)
    requires IdentifiedRun(run, bare) && Identified(items, bare) && Describes(AfterRun(run), run)
    requires |Order(run)| + |NewIds(items, Order(run))| <= MAX_NEIGHBORS
    ensures Midway(AfterRun(run), Order(run), items, Reported(AfterRun(run), items)) && Distinct(Order(run))
    ensures |Reported(AfterRun(run), items).seen| == |Order(run)|
  {
    OrderListsEveryDeviceOnce(run, bare);
    KeyedAfterRun(run, bare);
    AbsorbById(AfterRun(run), Order(run), items, bare);
  }

  lemma {:induction false} WholeSlice(s: seq<Identity>)
    ensures s[..|s|] == s
  {
  }

  lemma {:induction false} LeavesOfPoll(run: Run, items: seq<Neighbor>, m: Identity, bare: set<string>)
    requires IdentifiedRun(run, bare) && Identified(items, bare) && Describes(AfterRun(run), run)
    requires |Order(run)| + |NewIds(items, Order(run))| <= MAX_NEIGHBORS
    ensures About(LeavesLogged(run, items), m) == ExpectedLeave(run, items, m)
  {
    OrderListsEveryDeviceOnce(run, bare);
    MidwayAfterRun(run, items, bare);
    var p, baseline, leave := Reported(AfterRun(run), items), AfterRun(run).hasBaseline, ExpectedLeave(run, items, m);
    forall k | 0 <= k < |Order(run)|
      ensures About(LeftLog(p, k + 1, baseline), m)
           == About(LeftLog(p, k, baseline), m) + if Order(run)[k] == m then leave else []
    {
      LeaveOfNextSlot(run, items, m, k, bare);
    }
    LeavesUpTo(p, baseline, Order(run), m, leave, |Order(run)|);
    WholeSlice(Order(run));
  }

  // The two halves of what a poll logs.
  function LeavesLogged(run: Run, items: seq<Neighbor>): seq<Event> {
    var p := Reported(AfterRun(run), items);
    LeftLog(p, |p.seen|, AfterRun(run).hasBaseline)
  }

  lemma {:induction false} LogInTwoHalves(run: Run, items: seq<Neighbor>, m: Identity)
    ensures About(PollLog(AfterRun(run), items), m)
         == About(Reported(AfterRun(run), items).log, m) + About(LeavesLogged(run, items), m)
  {
    AboutConcat(Reported(AfterRun(run), items).log, LeavesLogged(run, items), m);
  }

  lemma {:induction false} DescribedForOnePollMore(run: Run, items: seq<Neighbor>, bare: set<string>)
    requires IdentifiedRun(run, bare) && |Order(run + [items])| <= MAX_NEIGHBORS
    ensures Describes(AfterRun(run), run) && |Order(run)| + |NewIds(items, Order(run))| <= MAX_NEIGHBORS
  {
    ExtendRun(run, items, ByMac(""));
    TableAfterAnyRun(run, bare);
  }

  lemma {:induction false} PollLogOfOneDevice(run: Run, items: seq<Neighbor>, m: Identity, bare: set<string>)
    requires IdentifiedRun(run, bare) && Identified(items, bare) && |Order(run + [items])| <= MAX_NEIGHBORS
    ensures About(PollLog(AfterRun(run), items), m) == ExpectedEvents(run, items, m)
  {
    DescribedForOnePollMore(run, items, bare);
    JoinsOfOneDevice(run, items, m, bare);
    LeavesOfPoll(run, items, m, bare);
    LogInTwoHalves(run, items, m);
  }

  lemma {:induction false} OrderOnlyGrows(run: Run, items: seq<Neighbor>)
    ensures |Order(run)| <= |Order(run + [items])|
  {
    assert (run + [items])[..|run|] == run;
  }

  // Strictly alternating events that start from the given presence.
  ghost predicate Alternates(kinds: seq<EventType>, present: bool) {
    forall i | 0 <= i < |kinds| :: kinds[i] == if present == (i % 2 == 0) then Left else Joined
  }

  lemma {:induction false} AlternateOneMore(kinds: seq<EventType>, present: bool, now: bool, more: seq<EventType>)
    requires Alternates(kinds, present) && (now <==> present == (|kinds| % 2 == 0))
    requires |more| <= 1 && (more != [] ==> more[0] == if now then Left else Joined)
    ensures Alternates(kinds + more, present)
    ensures (now != (more != [])) <==> present == (|kinds + more| % 2 == 0)
  {
  }

  lemma {:induction false} KindsOfConcat(a: seq<Event>, b: seq<Event>)
    ensures KindsOf(a + b) == KindsOf(a) + KindsOf(b)
  {
  }

  lemma {:induction false} KindsOneMorePoll(run: Run, items: seq<Neighbor>, m: Identity, bare: set<string>)
    requires IdentifiedRun(run + [items], bare) && |Order(run + [items])| <= MAX_NEIGHBORS
    ensures Kinds(RunLog(run + [items]), m) == Kinds(RunLog(run), m) + ExpectedKinds(run, items, m)
  {
    assert (run + [items])[..|run|] == run;
    ExtendRun(run, items, m);
    PollLogOfOneDevice(run, items, m, bare);
    AboutConcat(RunLog(run), PollLog(AfterRun(run), items), m);
    KindsOfConcat(About(RunLog(run), m), ExpectedEvents(run, items, m));
  }

  lemma {:induction false} PresenceOneMorePoll(run: Run, items: seq<Neighbor>, m: Identity, bare: set<string>)
    requires IdentifiedRun(run + [items], bare) && run != []
    ensures var kinds := ExpectedKinds(run, items, m);
            && |kinds| <= 1 && (kinds != [] ==> kinds[0] == if Active(run, m) then Left else Joined)
            && (Active(run + [items], m) <==> (Active(run, m) != (kinds != [])))
  {
    ExtendRun(run, items, m);
  }

  // The same for events whose number tells the presence they lead to.
  ghost predicate AlternatesWith(kinds: seq<EventType>, present: bool, now: bool) {
    Alternates(kinds, present) && (now <==> (present == (|kinds| % 2 == 0)))
  }

  lemma {:induction false} AlternatesForOneMorePoll(run: Run, items: seq<Neighbor>, m: Identity, bare: set<string>)
    requires IdentifiedRun(run + [items], bare) && run != [] && |Order(run + [items])| <= MAX_NEIGHBORS
    requires AlternatesWith(Kinds(RunLog(run), m), Has(run[0], m), Active(run, m))
    ensures AlternatesWith(Kinds(RunLog(run + [items]), m), Has(run[0], m), Active(run + [items], m))
  {
    KindsOneMorePoll(run, items, m, bare);
    PresenceOneMorePoll(run, items, m, bare);
    AlternateOneMore(Kinds(RunLog(run), m), Has(run[0], m), Active(run, m), ExpectedKinds(run, items, m));
  }

  lemma {:induction false} AlternatesFromBaseline(items: seq<Neighbor>, m: Identity, bare: set<string>)
    requires IdentifiedRun([items], bare) && |Order([items])| <= MAX_NEIGHBORS
    ensures AlternatesWith(Kinds(RunLog([items]), m), Has(items, m), Active([items], m))
  {
    assert [] + [items] == [items];
    KindsOneMorePoll([], items, m, bare);
    ExtendRun([], items, m);
  }

  // The events about one device alternate between joins and leaves from its presence in the baseline
  // snapshot on, and the number of them tells whether it is present now.
  lemma {:induction false} EventsOfOneDeviceAlternate(run: Run, m: Identity, bare: set<string>)
    requires IdentifiedRun(run, bare) && run != [] && |Order(run)| <= MAX_NEIGHBORS
    ensures AlternatesWith(Kinds(RunLog(run), m), Has(run[0], m), Active(run, m))
  {
    var prefix, items := run[..|run| - 1], run[|run| - 1];
    assert prefix + [items] == run;
    if prefix == [] {
      assert run == [items];
      AlternatesFromBaseline(items, m, bare);
    } else {
      OrderOnlyGrows(prefix, items);
      EventsOfOneDeviceAlternate(prefix, m, bare);
      AlternatesForOneMorePoll(prefix, items, m, bare);
    }
  }

  lemma {:induction false} KindsByAbsence(run: Run, items: seq<Neighbor>, m: Identity)
    requires run != []
    ensures var kinds := ExpectedKinds(run, items, m);
            && (Left in kinds <==> Ever(run, m) && !Has(items, m) && Absences(run, m) == 2)
            && (Joined in kinds <==>
                  Has(items, m) && (!Ever(run, m) || Absences(run, m) >= MISSING_POLLS_BEFORE_LEFT))
            && |kinds| <= 1
  {
    var events, kinds := ExpectedEvents(run, items, m), ExpectedKinds(run, items, m);
    assert events != [] ==> kinds == [events[0].kind];
  }

  // A leave is logged exactly in the poll that completes three consecutive absences, a join exactly
  // when the device reappears after at least three or was never seen.
  lemma {:induction false} EventsFallOnTheThirdAbsence(run: Run, items: seq<Neighbor>, m: Identity, bare: set<string>)
    requires IdentifiedRun(run, bare) && run != [] && Identified(items, bare) && |Order(run + [items])| <= MAX_NEIGHBORS
    ensures var kinds, now := Kinds(PollLog(AfterRun(run), items), m), run + [items];
            && (Left in kinds <==> Ever(run, m) && Absences(now, m) == MISSING_POLLS_BEFORE_LEFT)
            && (Joined in kinds <==>
                  Has(items, m) && (!Ever(run, m) || Absences(run, m) >= MISSING_POLLS_BEFORE_LEFT))
            && |kinds| <= 1
  {
    PollLogOfOneDevice(run, items, m, bare);
    ExtendRun(run, items, m);
    KindsByAbsence(run, items, m);
  }

  lemma {:induction false} PollOfOne(t: Table, item: Neighbor)
    requires WellFormed(t)
    ensures PollTable(t, [item]) == Swept(Absorb(StartPass(t), item, t.hasBaseline))
  {
    ReportedOneMore(t, [item]);
    assert [item][..|[item]| - 1] == [];
  }

  lemma {:induction false} RunOneMore(prefix: Run, item: Neighbor)
    ensures var run, order := prefix + [[item]], Order(prefix);
            && AfterRun(run) == PollTable(AfterRun(prefix), [item])
            && Order(run) == order + if Id(item) in order then [] else [Id(item)]
  {
    var items: seq<Neighbor> := [];
    assert (prefix + [[item]])[..|prefix|] == prefix;
    assert items + [item] == [item];
    ExtendItems(items, item, Order(prefix), Id(item));
  }

  lemma {:induction false} OnePoll(n: Neighbor)
    ensures AfterRun([[n]]) == Table([n.(active := true)], [0], true) && Order([[n]]) == [Id(n)]
  {
    var none: Run := [];
    assert none + [[n]] == [[n]];
    RunOneMore(none, n);
    PollOfOne(EMPTY, n);
  }

  // The law needs that condition: a device reported with its MAC first and without it then keeps its
  // slot, although it is known by two identities.
  lemma {:induction false} MixedRunSharesOneSlot(n: Neighbor)
    requires n.mac != ""
    ensures var run := [[n], [n.(mac := "")]];
            |AfterRun(run).known| == 1 && Order(run) == [ByMac(n.mac), ByIp(n.ip)] && !Describes(AfterRun(run), run)
  {
    var bare: Neighbor := n.(mac := "");
    OnePoll(n);
    assert [[n]] + [[bare]] == [[n], [bare]];
    RunOneMore([[n]], bare);
    PollOfOne(AfterRun([[n]]), bare);
    FirstMatchIsFound([n.(active := true)], 0, bare);
  }
}
