// What a single poll guarantees for any table and any snapshot, MAC and IP identities mixed.

module DiscoveryLaws {
  import opened Neighbors
  import opened Slices
  import opened Discovery

  // ----- which slot each reported item lands in -----

  function Choice(p: Pass, item: Neighbor): int
    requires PassOk(p)
  {
    FindKnown(p.known[..|p.seen|], item)
  }

  // The retained slot each item of the snapshot is matched with, -1 for a new device.
  function Choices(p: Pass, items: seq<Neighbor>, baseline: bool): (c: seq<int>)
    requires PassOk(p)
    ensures |c| == |items|
  {
    if items == [] then []
    else
      var rest := items[..|items| - 1];
      Choices(p, rest, baseline) + [Choice(AbsorbAll(p, rest, baseline), items[|items| - 1])]
  }

  // No slot is chosen twice, each chosen slot holds exactly its item, the others are as before.
  ghost predicate Settled(p: Pass, r: Pass, items: seq<Neighbor>, c: seq<int>)
    requires PassOk(p) && PassOk(r) && |r.seen| == |p.seen| && |p.known| <= |r.known| && |c| == |items|
  {
    && (forall i, j | 0 <= i < j < |items| && c[i] >= 0 :: c[i] != c[j])
    && (forall i | 0 <= i < |items| && c[i] >= 0 ::
          c[i] < |p.seen| && r.seen[c[i]] && r.missing[c[i]] == 0 && r.known[c[i]] == items[i].(active := true))
    && (forall k | 0 <= k < |p.known| && k !in c ::
          r.known[k] == p.known[k] && r.missing[k] == p.missing[k] && (k < |p.seen| ==> r.seen[k] == p.seen[k]))
  }

  lemma {:induction false} NotChosenBefore(p: Pass, r: Pass, rest: seq<Neighbor>, c: seq<int>, item: Neighbor, i: nat)
    requires PassOk(p) && PassOk(r) && |r.seen| == |p.seen| && |p.known| <= |r.known| && |c| == |rest|
    requires Settled(p, r, rest, c) && i < |rest| && c[i] >= 0 && !Matches(rest[i], item)
    ensures c[i] != Choice(r, item)
  {
    assert r.known[c[i]] == rest[i].(active := true);
  }

  lemma {:induction false} SettleOneMore(p: Pass, r: Pass, rest: seq<Neighbor>, c: seq<int>, item: Neighbor,
                                         baseline: bool)
    requires PassOk(p) && PassOk(r) && |r.seen| == |p.seen| && |p.known| <= |r.known| && |c| == |rest|
    requires Settled(p, r, rest, c)
    requires forall i | 0 <= i < |rest| :: !Matches(rest[i], item)
    ensures Settled(p, Absorb(r, item, baseline), rest + [item], c + [Choice(r, item)])
  {
    var idx, q := Choice(r, item), Absorb(r, item, baseline);
    forall i | 0 <= i < |rest| && c[i] >= 0 ensures c[i] != idx {
      NotChosenBefore(p, r, rest, c, item, i);
    }
    var c' := c + [idx];
    forall k | 0 <= k < |p.known| && k !in c'
      ensures q.known[k] == p.known[k] && q.missing[k] == p.missing[k]
      ensures k < |p.seen| ==> q.seen[k] == p.seen[k]
    {
      assert c'[|c|] == idx && forall i | 0 <= i < |c| :: c'[i] == c[i];
      assert k != idx && k !in c;
    }
  }

  // Lookups go to slots that earlier items of the same snapshot have already overwritten. Among
  // pairwise non-matching items no slot is matched twice all the same.
  lemma {:induction false} EachSlotAbsorbsAtMostOne(p: Pass, items: seq<Neighbor>, baseline: bool)
    requires PassOk(p) && PairwiseNonMatching(items)
    ensures Settled(p, AbsorbAll(p, items, baseline), items, Choices(p, items, baseline))
  {
    if items != [] {
      var n := |items| - 1;
      var rest := items[..n];
      forall i, j | 0 <= i < j < n ensures !Matches(rest[i], rest[j]) {
        assert !Matches(items[i], items[j]);
      }
      EachSlotAbsorbsAtMostOne(p, rest, baseline);
      forall i | 0 <= i < n ensures !Matches(rest[i], items[n]) {
        assert !Matches(items[i], items[n]);
      }
      SettleOneMore(p, AbsorbAll(p, rest, baseline), rest, Choices(p, rest, baseline), items[n], baseline);
      assert rest + [items[n]] == items;
    }
  }

  // The items that matched no retained slot, as they are stored.
  function NewDevices(items: seq<Neighbor>, c: seq<int>): seq<Neighbor>
    requires |items| == |c|
  {
    if items == [] then []
    else
      var n := |items| - 1;
      NewDevices(items[..n], c[..n]) + if c[n] < 0 then [items[n].(active := true)] else []
  }

  lemma {:induction false} AppendedInOrder(p: Pass, items: seq<Neighbor>, baseline: bool)
    requires PassOk(p) && |p.seen| == |p.known|
    ensures AbsorbAll(p, items, baseline).known[|p.known|..]
         == FirstN(NewDevices(items, Choices(p, items, baseline)), MAX_NEIGHBORS - |p.known|)
  {
    if items != [] {
      var n := |items| - 1;
      AppendedInOrder(p, items[..n], baseline);
      var c := Choices(p, items, baseline);
      assert c[..n] == Choices(p, items[..n], baseline);
    }
  }

  // One whole poll, slot by slot: a slot keeps its index, and either takes over the single item
  // matched with it or ages by one poll.
  lemma {:induction false} EverySlotKeepsItsIndex(t: Table, items: seq<Neighbor>)
    requires WellFormed(t) && PairwiseNonMatching(items)
    ensures var r, c := PollTable(t, items), Choices(StartPass(t), items, t.hasBaseline);
            && |t.known| <= |r.known|
            && (forall i, j | 0 <= i < j < |items| && c[i] >= 0 :: c[i] != c[j])
            && (forall i | 0 <= i < |items| && c[i] >= 0 ::
                  c[i] < |t.known| && r.known[c[i]] == items[i].(active := true) && r.missing[c[i]] == 0)
            && (forall k | 0 <= k < |t.known| && k !in c ::
                  if t.missing[k] == 2
                  then r.known[k] == t.known[k].(active := false) && r.missing[k] == 2
                  else r.known[k] == t.known[k] && r.missing[k] == t.missing[k] + 1)
  {
    var p, c := StartPass(t), Choices(StartPass(t), items, t.hasBaseline);
    EachSlotAbsorbsAtMostOne(p, items, t.hasBaseline);
    var q := Reported(t, items);
    assert q == AbsorbAll(p, items, t.hasBaseline);
    forall k | 0 <= k < |t.known| && k !in c
      ensures var r := PollTable(t, items);
              if t.missing[k] == 2
              then r.known[k] == t.known[k].(active := false) && r.missing[k] == 2
              else r.known[k] == t.known[k] && r.missing[k] == t.missing[k] + 1
    {
      assert !p.seen[k];
      assert q.missing[k] == t.missing[k] && !q.seen[k];
    }
  }

  // New devices follow the retained slots in reported order while there is room, for any snapshot.
  lemma {:induction false} NewDevicesFollowInOrder(t: Table, items: seq<Neighbor>)
    requires WellFormed(t)
    ensures |t.known| <= |PollTable(t, items).known|
    ensures PollTable(t, items).known[|t.known|..]
         == FirstN(NewDevices(items, Choices(StartPass(t), items, t.hasBaseline)), MAX_NEIGHBORS - |t.known|)
  {
    AppendedInOrder(StartPass(t), items, t.hasBaseline);
    SweepingKeepsAppended(Reported(t, items));
  }

  lemma {:induction false} SweepingKeepsAppended(p: Pass)
    requires PassOk(p)
    ensures Swept(p).known[|p.seen|..] == p.known[|p.seen|..]
  {
    forall k | |p.seen| <= k < |p.known| ensures Swept(p).known[k] == p.known[k] {
      assert Swept(p).known[k] == SweptNeighbor(p, k);
    }
  }

  // ----- conservation of active devices -----

  function ActiveUpTo(known: seq<Neighbor>, n: nat): nat
    requires n <= |known|
  {
    if n == 0 then 0 else ActiveUpTo(known, n - 1) + if known[n - 1].active then 1 else 0
  }

  function ActiveCount(t: Table): nat {
    ActiveUpTo(t.known, |t.known|)
  }

  function CountOf(log: seq<Event>, kind: EventType): nat {
    if log == [] then 0
    else CountOf(log[..|log| - 1], kind) + if log[|log| - 1].kind == kind then 1 else 0
  }

  // How many new devices a snapshot brings beyond the room that is left.
  function Surplus(t: Table, items: seq<Neighbor>): nat
    requires WellFormed(t)
  {
    var n, room := |NewDevices(items, Choices(StartPass(t), items, true))|, MAX_NEIGHBORS - |t.known|;
    if n > room then n - room else 0
  }

  // How many reported items found neither a slot nor room for a new one.
  function Dropped(p: Pass, items: seq<Neighbor>): nat
    requires PassOk(p)
  {
    if items == [] then 0
    else
      var rest, item := items[..|items| - 1], items[|items| - 1];
      var q := AbsorbAll(p, rest, true);
      Dropped(p, rest) + if Choice(q, item) < 0 && |q.known| == MAX_NEIGHBORS then 1 else 0
  }

  lemma {:induction false} ActiveAfterUpdate(known: seq<Neighbor>, i: nat, x: Neighbor, n: nat)
    requires i < |known| && n <= |known|
    ensures ActiveUpTo(known[i := x], n) + (if i < n && known[i].active then 1 else 0)
         == ActiveUpTo(known, n) + (if i < n && x.active then 1 else 0)
  {
    if n > 0 { ActiveAfterUpdate(known, i, x, n - 1); }
  }

  lemma {:induction false} ActiveOfPrefix(known: seq<Neighbor>, more: seq<Neighbor>, n: nat)
    requires n <= |known|
    ensures ActiveUpTo(known + more, n) == ActiveUpTo(known, n)
  {
    if n > 0 { ActiveOfPrefix(known, more, n - 1); }
  }

  lemma {:induction false} CountOfConcat(a: seq<Event>, b: seq<Event>, kind: EventType)
    ensures CountOf(a + b, kind) == CountOf(a, kind) + CountOf(b, kind)
  {
    if b == [] {
      assert a + b == a;
    } else {
      assert (a + b)[..|a + b| - 1] == a + b[..|b| - 1];
      CountOfConcat(a, b[..|b| - 1], kind);
    }
  }

  lemma {:induction false} AbsorbOneConserves(p: Pass, item: Neighbor)
    requires PassOk(p)
    ensures var r := Absorb(p, item, true);
            && ActiveUpTo(r.known, |r.known|)
               + (if Choice(p, item) < 0 && |p.known| == MAX_NEIGHBORS then 1 else 0)
               + CountOf(p.log, Joined)
               == ActiveUpTo(p.known, |p.known|) + CountOf(r.log, Joined)
            && CountOf(r.log, Left) == CountOf(p.log, Left)
  {
    var idx, present := Choice(p, item), item.(active := true);
    var r := Absorb(p, item, true);
    assert p.log + [] == p.log;
    if idx >= 0 {
      ActiveAfterUpdate(p.known, idx, present, |p.known|);
    } else {
      ActiveOfPrefix(p.known, [present], |p.known|);
    }
  }

  lemma {:induction false} AbsorbingConserves(p: Pass, items: seq<Neighbor>)
    requires PassOk(p)
    ensures var r := AbsorbAll(p, items, true);
            && ActiveUpTo(r.known, |r.known|) + Dropped(p, items) + CountOf(p.log, Joined)
               == ActiveUpTo(p.known, |p.known|) + CountOf(r.log, Joined)
            && CountOf(r.log, Left) == CountOf(p.log, Left)
  {
    if items != [] {
      var rest := items[..|items| - 1];
      AbsorbingConserves(p, rest);
      AbsorbOneConserves(AbsorbAll(p, rest, true), items[|items| - 1]);
    }
  }

  lemma {:induction false} ActiveSwept(p: Pass, k: nat)
    requires PassOk(p) && k < |p.known|
    ensures var now := Swept(p).known;
            ActiveUpTo(now, k + 1) == ActiveUpTo(now, k) + if SweptNeighbor(p, k).active then 1 else 0
  {
    assert Swept(p).known[k] == SweptNeighbor(p, k);
  }

  // Whether the sweep turns an active slot inactive, and how many of the first n it does.
  predicate Leaves(p: Pass, k: nat)
    requires PassOk(p) && k < |p.known|
  {
    p.known[k].active && !SweptNeighbor(p, k).active
  }

  function LeaveCount(p: Pass, n: nat): nat
    requires PassOk(p) && n <= |p.known|
  {
    if n == 0 then 0 else LeaveCount(p, n - 1) + if Leaves(p, n - 1) then 1 else 0
  }

  lemma {:induction false} SweepingConserves(p: Pass, n: nat)
    requires PassOk(p) && n <= |p.known|
    ensures ActiveUpTo(Swept(p).known, n) + LeaveCount(p, n) == ActiveUpTo(p.known, n)
  {
    if n > 0 {
      SweepingConserves(p, n - 1);
      ActiveSwept(p, n - 1);
    }
  }

  // A leave is logged exactly when the sweep turns an active slot inactive.
  lemma {:induction false} LeavesAreLogged(p: Pass, n: nat)
    requires PassOk(p) && n <= |p.seen|
    ensures CountOf(LeftLog(p, n, true), Left) == LeaveCount(p, n) && CountOf(LeftLog(p, n, true), Joined) == 0
  {
    if n > 0 {
      LeavesAreLogged(p, n - 1);
      var last := if Leaves(p, n - 1) then [Event(Left, p.known[n - 1])] else [];
      CountOfConcat(LeftLog(p, n - 1, true), last, Left);
      CountOfConcat(LeftLog(p, n - 1, true), last, Joined);
      assert CountOf(last, Left) == |last| && CountOf(last, Joined) == 0;
    }
  }

  lemma {:induction false} OnlySeenSlotsLeave(p: Pass, n: nat)
    requires PassOk(p) && |p.seen| <= n <= |p.known|
    ensures LeaveCount(p, n) == LeaveCount(p, |p.seen|)
  {
    if |p.seen| < n { OnlySeenSlotsLeave(p, n - 1); }
  }

  lemma {:induction false} DroppedBeyondRoom(p: Pass, items: seq<Neighbor>)
    requires PassOk(p) && |p.seen| == |p.known|
    ensures var n, room := |NewDevices(items, Choices(p, items, true))|, MAX_NEIGHBORS - |p.known|;
            Dropped(p, items) == if n > room then n - room else 0
  {
    if items != [] {
      var n := |items| - 1;
      var c := Choices(p, items, true);
      DroppedBeyondRoom(p, items[..n]);
      AppendedInOrder(p, items[..n], true);
      assert c[..n] == Choices(p, items[..n], true);
    }
  }

  // Once there is a baseline the log accounts for every change in the number of active devices, for
  // any snapshot at all. The only leak are the new devices beyond the room that is left, which are
  // announced without being stored.
  lemma {:induction false} PollConservesActiveDevices(t: Table, items: seq<Neighbor>)
    requires WellFormed(t) && t.hasBaseline
    ensures ActiveCount(PollTable(t, items)) + CountOf(PollLog(t, items), Left) + Surplus(t, items)
         == ActiveCount(t) + CountOf(PollLog(t, items), Joined)
  {
    DroppedBeyondRoom(StartPass(t), items);
    AbsorbingConserves(StartPass(t), items);
    SweepConserves(Reported(t, items));
    CountsOfPoll(t, items, Joined);
    CountsOfPoll(t, items, Left);
  }

  lemma {:induction false} SweepConserves(p: Pass)
    requires PassOk(p)
    ensures var gone := LeftLog(p, |p.seen|, true);
            ActiveCount(Swept(p)) + CountOf(gone, Left) == ActiveUpTo(p.known, |p.known|) && CountOf(gone, Joined) == 0
  {
    SweepingConserves(p, |p.known|);
    LeavesAreLogged(p, |p.seen|);
    OnlySeenSlotsLeave(p, |p.known|);
  }

  lemma {:induction false} CountsOfPoll(t: Table, items: seq<Neighbor>, kind: EventType)
    requires WellFormed(t) && t.hasBaseline
    ensures var p := Reported(t, items);
            CountOf(PollLog(t, items), kind) == CountOf(p.log, kind) + CountOf(LeftLog(p, |p.seen|, true), kind)
  {
    var p := Reported(t, items);
    CountOfConcat(p.log, LeftLog(p, |p.seen|, true), kind);
  }

  // ----- a full table -----

  // No slot could be taken for the item.
  ghost predicate Unknown(known: seq<Neighbor>, item: Neighbor) {
    forall k | 0 <= k < |known| :: !Matches(known[k], item)
  }

  lemma {:induction false} SweepingKeepsUnknown(p: Pass, item: Neighbor)
    requires PassOk(p) && Unknown(p.known, item)
    ensures Unknown(Swept(p).known, item)
  {
    var now := Swept(p).known;
    assert forall k | 0 <= k < |now| ::
        now[k] == SweptNeighbor(p, k) && Matches(now[k], item) == Matches(p.known[k], item);
  }

  lemma {:induction false} AbsorbKeepsUnknown(p: Pass, other: Neighbor, baseline: bool, item: Neighbor)
    requires PassOk(p) && |p.known| == MAX_NEIGHBORS && Unknown(p.known, item) && !Matches(other, item)
    ensures Unknown(Absorb(p, other, baseline).known, item) && |Absorb(p, other, baseline).known| == MAX_NEIGHBORS
  {
  }

  // The pass after the first n items.
  function PassAt(p: Pass, items: seq<Neighbor>, n: nat): (r: Pass)
    requires PassOk(p) && n <= |items|
    ensures PassOk(r) && |r.seen| == |p.seen| && |p.known| <= |r.known|
  {
    if n == 0 then p else Absorb(PassAt(p, items, n - 1), items[n - 1], true)
  }

  lemma {:induction false} PassAtIsAbsorbed(p: Pass, items: seq<Neighbor>, n: nat)
    requires PassOk(p) && n <= |items|
    ensures PassAt(p, items, n) == AbsorbAll(p, items[..n], true)
  {
    if n > 0 {
      PassAtIsAbsorbed(p, items, n - 1);
      assert items[..n][..n - 1] == items[..n - 1];
    }
  }

  lemma {:induction false} PassAtOfPrefix(p: Pass, items: seq<Neighbor>, n: nat, i: nat)
    requires PassOk(p) && i <= n <= |items|
    ensures PassAt(p, items[..n], i) == PassAt(p, items, i)
  {
    if i > 0 { PassAtOfPrefix(p, items, n, i - 1); }
  }

  lemma {:induction false} LastChoice(p: Pass, items: seq<Neighbor>)
    requires PassOk(p) && items != []
    ensures var n := |items| - 1; Choices(p, items, true)[n] == Choice(PassAt(p, items, n), items[n])
  {
    PassAtIsAbsorbed(p, items, |items| - 1);
  }

  lemma {:induction false} EarlierChoice(p: Pass, items: seq<Neighbor>, i: nat)
    requires PassOk(p) && i < |items| - 1
    ensures Choices(p, items, true)[i] == Choices(p, items[..|items| - 1], true)[i]
  {
  }

  lemma {:induction false} ChoiceAt(p: Pass, items: seq<Neighbor>, i: nat)
    requires PassOk(p) && i < |items|
    ensures Choices(p, items, true)[i] == Choice(PassAt(p, items, i), items[i])
    decreases |items|
  {
    var n := |items| - 1;
    if i == n {
      LastChoice(p, items);
    } else {
      EarlierChoice(p, items, i);
      ChoiceAt(p, items[..n], i);
      PassAtOfPrefix(p, items, n, i);
    }
  }

  // An item that finds no slot in a full table finds none after the rest of the snapshot either, and
  // one that no slot matches before the poll finds none.
  lemma {:induction false} StaysUnknown(p: Pass, items: seq<Neighbor>, i: nat, from: nat, n: nat)
    requires PassOk(p) && PairwiseNonMatching(items) && from <= n <= |items| && i < |items|
    requires |PassAt(p, items, from).known| == MAX_NEIGHBORS && Unknown(PassAt(p, items, from).known, items[i])
    requires from <= i < n ==> from == i && Choice(PassAt(p, items, i), items[i]) < 0
    ensures Unknown(PassAt(p, items, n).known, items[i]) && |PassAt(p, items, n).known| == MAX_NEIGHBORS
    decreases n
  {
    if from < n {
      StaysUnknown(p, items, i, from, n - 1);
      if i != n - 1 { OthersDiffer(items, i, n - 1); }
      UnknownStep(PassAt(p, items, n - 1), items[n - 1], items[i], i == n - 1);
    }
  }

  lemma {:induction false} OthersDiffer(items: seq<Neighbor>, i: nat, j: nat)
    requires PairwiseNonMatching(items) && i < |items| && j < |items| && i != j
    ensures !Matches(items[j], items[i])
  {
    MatchingIsSymmetric(items[i], items[j]);
    assert if i < j then !Matches(items[i], items[j]) else !Matches(items[j], items[i]);
  }

  lemma {:induction false} UnknownStep(p: Pass, other: Neighbor, item: Neighbor, itself: bool)
    requires PassOk(p) && |p.known| == MAX_NEIGHBORS && Unknown(p.known, item)
    requires if itself then other == item && Choice(p, item) < 0 else !Matches(other, item)
    ensures var r := Absorb(p, other, true).known; Unknown(r, item) && |r| == MAX_NEIGHBORS
  {
    if itself { AbsorbingNothing(p, item); } else { AbsorbKeepsUnknown(p, other, true, item); }
  }

  lemma {:induction false} AbsorbingNothing(p: Pass, item: Neighbor)
    requires PassOk(p) && |p.known| == MAX_NEIGHBORS && Choice(p, item) < 0
    ensures Absorb(p, item, true).known == p.known
  {
  }

  ghost predicate UnknownFrom(known: seq<Neighbor>, from: nat, item: Neighbor) {
    forall k | from <= k < |known| :: !Matches(known[k], item)
  }

  lemma {:induction false} AbsorbKeepsUnknownFrom(p: Pass, other: Neighbor, item: Neighbor)
    requires PassOk(p) && UnknownFrom(p.known, |p.seen|, item) && !Matches(other, item)
    ensures UnknownFrom(Absorb(p, other, true).known, |p.seen|, item)
  {
    var r := Absorb(p, other, true).known;
    assert forall k | |p.seen| <= k < |p.known| :: r[k] == p.known[k];
  }

  // What the pass appends are items of the snapshot, which match no other item of it.
  lemma {:induction false} AppendedMatchNoOther(p: Pass, items: seq<Neighbor>, n: nat, i: nat)
    requires PassOk(p) && |p.seen| == |p.known| && PairwiseNonMatching(items) && n <= i < |items|
    ensures UnknownFrom(PassAt(p, items, n).known, |p.seen|, items[i])
  {
    if n > 0 {
      AppendedMatchNoOther(p, items, n - 1, i);
      assert !Matches(items[n - 1], items[i]);
      AbsorbKeepsUnknownFrom(PassAt(p, items, n - 1), items[n - 1], items[i]);
    }
  }

  // An item that finds no slot among those there before the poll finds none at all.
  lemma {:induction false} NoChoiceMeansUnknown(p: Pass, items: seq<Neighbor>, i: nat)
    requires PassOk(p) && |p.seen| == |p.known| && PairwiseNonMatching(items) && i < |items|
    requires Choice(PassAt(p, items, i), items[i]) < 0
    ensures Unknown(PassAt(p, items, i).known, items[i])
  {
    AppendedMatchNoOther(p, items, i, i);
    var r := PassAt(p, items, i);
    assert forall k | 0 <= k < |p.seen| :: r.known[..|r.seen|][k] == r.known[k];
  }

  lemma {:induction false} NoChoiceIffUnknown(p: Pass, item: Neighbor)
    requires PassOk(p) && |p.seen| == |p.known|
    ensures Choice(p, item) < 0 <==> Unknown(p.known, item)
  {
    assert p.known[..|p.seen|] == p.known;
  }

  // Every item that finds no slot is announced.
  lemma {:induction false} NewcomerIsLogged(p: Pass, items: seq<Neighbor>, i: nat)
    requires PassOk(p) && i < |items| && Choices(p, items, true)[i] < 0
    ensures Event(Joined, items[i].(active := true)) in AbsorbAll(p, items, true).log
    decreases |items|
  {
    var n := |items| - 1;
    var c := Choices(p, items, true);
    assert c[..n] == Choices(p, items[..n], true);
    if i < n { NewcomerIsLogged(p, items[..n], i); }
  }

  // Devices that find the table full, from the start or filled up by earlier items of the snapshot,
  // are announced but not stored, and as long as the same snapshot is reported they are announced at
  // every poll.
  lemma {:induction false} FullTableAnnouncesAgain(t: Table, items: seq<Neighbor>, i: nat)
    requires WellFormed(t) && t.hasBaseline && PairwiseNonMatching(items) && i < |items|
    requires Choices(StartPass(t), items, true)[i] < 0
    requires |PassAt(StartPass(t), items, i).known| == MAX_NEIGHBORS
    ensures Event(Joined, items[i].(active := true)) in PollLog(t, items)
    ensures var r := PollTable(t, items);
            && WellFormed(r) && r.hasBaseline && |r.known| == MAX_NEIGHBORS && Unknown(r.known, items[i])
            && |PassAt(StartPass(r), items, i).known| == MAX_NEIGHBORS && Choices(StartPass(r), items, true)[i] < 0
  {
    NewcomerIsLogged(StartPass(t), items, i);
    PollKeepsWellFormed(t, items);
    UnknownAfterPoll(t, items, i);
    UnknownToBegin(StartPass(PollTable(t, items)), items, i);
  }

  lemma {:induction false} UnknownAfterPoll(t: Table, items: seq<Neighbor>, i: nat)
    requires WellFormed(t) && t.hasBaseline && PairwiseNonMatching(items) && i < |items|
    requires Choices(StartPass(t), items, true)[i] < 0
    requires |PassAt(StartPass(t), items, i).known| == MAX_NEIGHBORS
    ensures Unknown(PollTable(t, items).known, items[i]) && |PollTable(t, items).known| == MAX_NEIGHBORS
  {
    var p := StartPass(t);
    ChoiceAt(p, items, i);
    NoChoiceMeansUnknown(p, items, i);
    StaysUnknown(p, items, i, i, |items|);
    PassAtIsAbsorbed(p, items, |items|);
    assert items[..|items|] == items;
    SweepingKeepsUnknown(Reported(t, items), items[i]);
  }

  lemma {:induction false} UnknownToBegin(p: Pass, items: seq<Neighbor>, i: nat)
    requires PassOk(p) && |p.seen| == |p.known| == MAX_NEIGHBORS && PairwiseNonMatching(items) && i < |items|
    requires Unknown(p.known, items[i])
    ensures Choices(p, items, true)[i] < 0 && |PassAt(p, items, i).known| == MAX_NEIGHBORS
  {
    StaysUnknown(p, items, i, 0, i);
    ChoiceAt(p, items, i);
    NoChoiceIffUnknown(PassAt(p, items, i), items[i]);
  }

  // The first poll after a reset only establishes the baseline.
  lemma {:induction false} BaselinePollIsSilent(t: Table, items: seq<Neighbor>)
    requires WellFormed(t) && !t.hasBaseline
    ensures PollLog(t, items) == [] && PollTable(t, items).hasBaseline
  {
    SilentAbsorb(StartPass(t), items);
    SilentSweep(Reported(t, items), |t.known|);
  }

  lemma {:induction false} SilentAbsorb(p: Pass, items: seq<Neighbor>)
    requires PassOk(p)
    ensures AbsorbAll(p, items, false).log == p.log
  {
    if items != [] { SilentAbsorb(p, items[..|items| - 1]); }
  }

  lemma {:induction false} SilentSweep(p: Pass, n: nat)
    requires PassOk(p) && n <= |p.seen|
    ensures LeftLog(p, n, false) == []
  {
    if n > 0 { SilentSweep(p, n - 1); }
  }

  // ----- what the events carry -----

  // A join announces an item of the snapshot, as reported or already marked active.
  ghost predicate FromSnapshot(e: Event, items: seq<Neighbor>) {
    exists i :: 0 <= i < |items| && (e.neighbor == items[i] || e.neighbor == items[i].(active := true))
  }

  // A leave announces an active entry of the table that has been missing twice.
  ghost predicate FromTable(e: Event, t: Table)
    requires WellFormed(t)
  {
    exists k :: 0 <= k < |t.known| && e.neighbor == t.known[k] && t.known[k].active && t.missing[k] == 2
  }

  ghost predicate UnseenAsBefore(t: Table, p: Pass)
    requires WellFormed(t) && PassOk(p) && |p.seen| == |t.known|
  {
    forall k | 0 <= k < |t.known| && !p.seen[k] :: p.known[k] == t.known[k] && p.missing[k] == t.missing[k]
  }

  lemma {:induction false} UnseenStaysAsBefore(t: Table, items: seq<Neighbor>)
    requires WellFormed(t)
    ensures UnseenAsBefore(t, Reported(t, items))
  {
    if items != [] { UnseenStaysAsBefore(t, items[..|items| - 1]); }
  }

  lemma {:induction false} JoinsAreFromSnapshot(t: Table, items: seq<Neighbor>, e: Event)
    requires WellFormed(t) && e in Reported(t, items).log
    ensures e.kind == Joined && FromSnapshot(e, items)
  {
    if items != [] {
      var n := |items| - 1;
      if e in Reported(t, items[..n]).log {
        JoinsAreFromSnapshot(t, items[..n], e);
        var i :| 0 <= i < n && (e.neighbor == items[..n][i] || e.neighbor == items[..n][i].(active := true));
        assert items[i] == items[..n][i];
      } else {
        assert e.neighbor == items[n] || e.neighbor == items[n].(active := true);
      }
    }
  }

  lemma {:induction false} LeavesAreFromTable(t: Table, p: Pass, n: nat, e: Event)
    requires WellFormed(t) && PassOk(p) && |p.seen| == |t.known| && UnseenAsBefore(t, p) && n <= |p.seen|
    requires e in LeftLog(p, n, t.hasBaseline)
    ensures e.kind == Left && FromTable(e, t)
  {
    if n > 0 {
      if e in LeftLog(p, n - 1, t.hasBaseline) { LeavesAreFromTable(t, p, n - 1, e); }
    }
  }

  // For any table and any snapshot, every join carries an item of the snapshot, and every leave an
  // active entry of the table that this poll misses for the third time.
  lemma {:induction false} EventsCarryTheirDevice(t: Table, items: seq<Neighbor>, e: Event)
    requires WellFormed(t) && e in PollLog(t, items)
    ensures e.kind == Joined ==> FromSnapshot(e, items)
    ensures e.kind == Left ==> FromTable(e, t)
  {
    var p := Reported(t, items);
    UnseenStaysAsBefore(t, items);
    if e in p.log {
      JoinsAreFromSnapshot(t, items, e);
    } else {
      LeavesAreFromTable(t, p, |p.seen|, e);
    }
  }
}
