// Several subnets share one offset and one probe budget: what every scan reaches, and which hosts no
// scan ever reaches. The neighbour list is taken never to fill up.

module ProbeSharing {
  import opened Options
  import opened Slices
  import opened ProbeRotation

  // The subnets a scan does not skip.
  ghost predicate Scannable(subnets: seq<Subnet>) {
    forall i :: 0 <= i < |subnets| ==> subnets[i].usable >= 2
  }

  function HostCount(hostBits: nat): nat { if hostBits == 0 then 1 else 2 * HostCount(hostBits - 1) }

  const MIN_PREFIX := 24

  // The usable hosts of a prefix that is scanned, 24 bits and more: all but the first and the last.
  function Usable(prefix: nat): nat
    requires MIN_PREFIX <= prefix <= 32
  {
    if HostCount(32 - prefix) <= 2 then 0 else HostCount(32 - prefix) - 2
  }

  lemma {:induction false} ScannedPrefixLeavesTwoHosts(prefix: nat)
    requires MIN_PREFIX <= prefix <= 32
    ensures if prefix >= 31 then Usable(prefix) == 0 else 2 <= Usable(prefix) <= 254
  {
    assert HostCount(2) == 4 && HostCount(4) == 16;
    assert HostCount(6) == 64 && HostCount(8) == 256;
  }

  predicate HasLocal(s: Subnet) { 1 <= s.local <= s.usable }

  // The hosts of a subnet that ought to be probed, and how many they are.
  predicate IsTarget(s: Subnet, host: nat) { 1 <= host <= s.usable && host != s.local }

  function Targets(s: Subnet): nat { if HasLocal(s) then s.usable - 1 else s.usable }

  function AllTargets(subnets: seq<Subnet>): nat {
    if subnets == [] then 0 else AllTargets(subnets[..|subnets| - 1]) + Targets(subnets[|subnets| - 1])
  }

  ghost predicate HoldsTargets(s: Subnet, hosts: seq<nat>) {
    forall host: nat :: IsTarget(s, host) ==> host in hosts
  }

  // A pass that probes every target of every subnet.
  ghost predicate Complete(subnets: seq<Subnet>, p: Pass) {
    |p.probed| == |subnets| && forall i :: 0 <= i < |subnets| ==> HoldsTargets(subnets[i], p.probed[i])
  }

  function ScanFrom(subnets: seq<Subnet>, offset: nat, window: nat): Pass {
    PassOver(subnets, offset, window, None)
  }

  // ----- counting -----

  function UpTo(n: nat): (r: set<nat>)
    ensures |r| == n && forall k: nat :: k in r <==> 1 <= k <= n
  {
    if n == 0 then {} else UpTo(n - 1) + {n}
  }

  function Members(hosts: seq<nat>): (r: set<nat>)
    ensures |r| <= |hosts| && forall k: nat :: k in r <==> k in hosts
  {
    if hosts == [] then {} else Members(hosts[..|hosts| - 1]) + {hosts[|hosts| - 1]}
  }

  lemma {:induction false} SubsetSize(a: set<nat>, b: set<nat>)
    requires a <= b
    ensures |a| <= |b|
  {
    assert b == a + (b - a);
  }

  lemma {:induction false} CoverLength(s: Subnet, hosts: seq<nat>)
    requires HoldsTargets(s, hosts)
    ensures |hosts| >= Targets(s)
  {
    var all := UpTo(s.usable) - {s.local};
    assert HasLocal(s) ==> s.local in UpTo(s.usable);
    assert |all| >= Targets(s);
    forall k | k in all ensures k in Members(hosts) {
      assert IsTarget(s, k);
    }
    SubsetSize(all, Members(hosts));
  }

  // ----- one pass -----

  lemma {:induction false} PassSize(subnets: seq<Subnet>, offset: nat, window: nat)
    ensures var p := ScanFrom(subnets, offset, window);
            |p.probed| <= |subnets| && (!p.over ==> |p.probed| == |subnets|)
  {
    if subnets != [] { PassSize(subnets[..|subnets| - 1], offset, window); }
  }

  // The hosts of subnet i are those the pass over the subnets before it leaves room for.
  lemma {:induction false} ProbedAt(subnets: seq<Subnet>, i: nat, offset: nat, window: nat)
    requires i < |ScanFrom(subnets, offset, window).probed|
    ensures i < |subnets|
    ensures var q := ScanFrom(subnets[..i], offset, window);
            && !q.over && |q.probed| == i
            && ScanFrom(subnets, offset, window).probed[i] == HostsOf(q, subnets[i], window)
  {
    PassSize(subnets, offset, window);
    var n := |subnets| - 1;
    PassSize(subnets[..n], offset, window);
    if i < |ScanFrom(subnets[..n], offset, window).probed| {
      ProbedAt(subnets[..n], i, offset, window);
      assert subnets[..n][..i] == subnets[..i];
    }
  }

  // A host that fits in the first b hosts of a scan lies at most b steps ahead.
  lemma {:induction false} FirstHostsAreNear(start: nat, n: nat, s: Subnet, b: nat, host: nat)
    requires s.usable > 0 && start < s.usable && n <= s.usable && 1 <= host <= s.usable
    requires host in FirstN(Probed(start, n, s.usable, s.local), b)
    ensures host != s.local && Distance(start, host, s.usable) < n && Distance(start, host, s.usable) <= b
  {
    ScanCoversItsWindow(start, n, s.usable, s.local, host);
    if b + 1 <= n {
      ScanCoversItsWindow(start, b + 1, s.usable, s.local, host);
      ProbedGrows(start, b + 1, n, s.usable, s.local);
    }
  }

  lemma {:induction false} HostsAreNear(q: Pass, s: Subnet, window: nat, host: nat)
    requires s.usable > 0 && 1 <= host <= s.usable && host in HostsOf(q, s, window)
    ensures var d := Distance(q.offset % s.usable, host, s.usable);
            q.sent < window && host != s.local && d < window && d <= window - q.sent
  {
    FirstHostsAreNear(q.offset % s.usable, Min(s.usable, window), s, window - q.sent, host);
  }

  // ----- every scan is complete -----

  lemma {:induction false} SmallSubnetIsTaken(q: Pass, s: Subnet, window: nat)
    requires 0 < s.usable <= window && q.sent + Targets(s) <= window && q.sent < window
    ensures HoldsTargets(s, HostsOf(q, s, window)) && |HostsOf(q, s, window)| == Targets(s)
  {
    var start := q.offset % s.usable;
    ScanCoversItsWindow(start, s.usable, s.usable, s.local, 1);
    forall host: nat | IsTarget(s, host) ensures host in HostsOf(q, s, window) {
      ScanCoversItsWindow(start, s.usable, s.usable, s.local, host);
    }
  }

  lemma {:induction false} FittingScan(subnets: seq<Subnet>, offset: nat, window: nat)
    requires Scannable(subnets) && window > 0 && AllTargets(subnets) <= window
    requires forall i :: 0 <= i < |subnets| ==> subnets[i].usable <= window
    ensures var p := ScanFrom(subnets, offset, window);
            && Complete(subnets, p) && p.sent == AllTargets(subnets)
            && (p.over ==> p.sent >= window)
  {
    if subnets != [] {
      var n := |subnets| - 1;
      FittingScan(subnets[..n], offset, window);
      SmallSubnetIsTaken(ScanFrom(subnets[..n], offset, window), subnets[n], window);
    }
  }

  lemma {:induction false} TargetsAdd(subnets: seq<Subnet>, i: nat)
    requires Scannable(subnets) && i < |subnets|
    ensures AllTargets(subnets) >= Targets(subnets[i]) + |subnets| - 1
  {
    var n := |subnets| - 1;
    if i < n { TargetsAdd(subnets[..n], i); } else if n > 0 { TargetsAdd(subnets[..n], 0); }
  }

  lemma {:induction false} CompleteNeedsRoom(subnets: seq<Subnet>, offset: nat, window: nat)
    requires Complete(subnets, ScanFrom(subnets, offset, window))
    ensures ScanFrom(subnets, offset, window).sent >= AllTargets(subnets)
  {
    if subnets != [] {
      var n := |subnets| - 1;
      var p, q := ScanFrom(subnets, offset, window), ScanFrom(subnets[..n], offset, window);
      PassSize(subnets[..n], offset, window);
      assert p.probed == q.probed + [HostsOf(q, subnets[n], window)];
      CoverLength(subnets[n], p.probed[n]);
      assert forall i :: 0 <= i < n ==> subnets[..n][i] == subnets[i] && q.probed[i] == p.probed[i];
      CompleteNeedsRoom(subnets[..n], offset, window);
    }
  }

  // Two subnets or more are probed completely by a scan, from whatever offset, exactly when all
  // their targets together fit into the window.
  lemma {:induction false} ScanIsCompleteIff(subnets: seq<Subnet>, offset: nat, window: nat)
    requires |subnets| >= 2 && Scannable(subnets) && window > 0
    ensures Complete(subnets, ScanFrom(subnets, offset, window)) <==> AllTargets(subnets) <= window
  {
    if AllTargets(subnets) <= window {
      forall i | 0 <= i < |subnets| ensures subnets[i].usable <= window {
        TargetsAdd(subnets, i);
      }
      FittingScan(subnets, offset, window);
    } else if Complete(subnets, ScanFrom(subnets, offset, window)) {
      CompleteNeedsRoom(subnets, offset, window);
      BudgetIsShared(subnets, offset, window, None);
    }
  }

  // ----- runs of scans -----

  // The offset after a number of scans.
  function OffsetAfter(subnets: seq<Subnet>, offset: nat, window: nat, scans: nat): nat {
    if scans == 0 then offset else ScanFrom(subnets, OffsetAfter(subnets, offset, window, scans - 1), window).offset
  }

  predicate ProbedIn(subnets: seq<Subnet>, offset: nat, window: nat, i: nat, host: nat) {
    var probed := ScanFrom(subnets, offset, window).probed;
    i < |probed| && host in probed[i]
  }

  // Whether scan number n of the run that starts at an offset probes a host of subnet i.
  predicate ProbedInScan(subnets: seq<Subnet>, offset: nat, window: nat, n: nat, i: nat, host: nat) {
    ProbedIn(subnets, OffsetAfter(subnets, offset, window, n), window, i, host)
  }

  ghost predicate EverProbed(subnets: seq<Subnet>, offset: nat, window: nat, i: nat, host: nat) {
    exists n: nat :: ProbedInScan(subnets, offset, window, n, i, host)
  }

  // The run reaches every target of every subnet sooner or later.
  ghost predicate Covered(subnets: seq<Subnet>, offset: nat, window: nat) {
    forall i: nat, host: nat | i < |subnets| && IsTarget(subnets[i], host) ::
      EverProbed(subnets, offset, window, i, host)
  }

  // No run from any offset reaches the host.
  ghost predicate NeverProbed(subnets: seq<Subnet>, window: nat, i: nat, host: nat) {
    forall offset: nat :: !EverProbed(subnets, offset, window, i, host)
  }

  lemma {:induction false} NoScanNoRun(subnets: seq<Subnet>, window: nat, i: nat, host: nat)
    requires forall offset: nat :: !ProbedIn(subnets, offset, window, i, host)
    ensures NeverProbed(subnets, window, i, host)
  {
    forall offset: nat, n: nat ensures !ProbedInScan(subnets, offset, window, n, i, host) {
      assert !ProbedIn(subnets, OffsetAfter(subnets, offset, window, n), window, i, host);
    }
  }

  // ----- hosts behind a small subnet -----

  lemma {:induction false} OffsetStaysBelow(q: Pass, s: Subnet, window: nat)
    requires s.usable > 0 && !q.over
    ensures PassStep(q, s, window, false).offset < s.usable
  {
  }

  // The offset is taken modulo the subnet before, so a pass starts among its host numbers.
  lemma {:induction false} StartsBelowPrevious(subnets: seq<Subnet>, i: nat, offset: nat, window: nat)
    requires 0 < i < |ScanFrom(subnets, offset, window).probed|
    requires i < |subnets| && subnets[i - 1].usable > 0
    ensures var q, q0 := ScanFrom(subnets[..i], offset, window), ScanFrom(subnets[..i - 1], offset, window);
            && !q.over && !q0.over && |q0.probed| == i - 1
            && q == PassStep(q0, subnets[i - 1], window, false) && q.offset < subnets[i - 1].usable
  {
    ProbedAt(subnets, i, offset, window);
    ProbedAt(subnets, i - 1, offset, window);
    assert subnets[..i][..i - 1] == subnets[..i - 1];
    OffsetStaysBelow(ScanFrom(subnets[..i - 1], offset, window), subnets[i - 1], window);
  }

  lemma {:induction false} DistanceFromBelow(start: nat, bound: nat, host: nat, usable: nat)
    requires usable > 0 && start < bound <= host <= usable
    ensures Distance(start % usable, host, usable) == host - 1 - start
  {
    WrapSmall(start, usable);
  }

  // Behind a subnet of u hosts, no scan reaches a host u + window or more of the next one.
  lemma {:induction false} SmallSubnetHidesLaterHosts(subnets: seq<Subnet>, window: nat, i: nat, host: nat)
    requires 0 < i < |subnets| && subnets[i - 1].usable > 0 && window > 0
    requires subnets[i - 1].usable + window <= host <= subnets[i].usable
    ensures NeverProbed(subnets, window, i, host)
  {
    var s := subnets[i];
    forall offset: nat ensures !ProbedIn(subnets, offset, window, i, host) {
      if ProbedIn(subnets, offset, window, i, host) {
        StartsBelowPrevious(subnets, i, offset, window);
        ProbedAt(subnets, i, offset, window);
        var q := ScanFrom(subnets[..i], offset, window);
        HostsAreNear(q, s, window, host);
        DistanceFromBelow(q.offset, subnets[i - 1].usable, host, s.usable);
      }
    }
    NoScanNoRun(subnets, window, i, host);
  }

  // A link of two hosts before a /24, the window being that of the program: hosts 34 to 254 of the
  // /24 are out of reach.
  lemma {:induction false} LinkHidesHosts(local: nat, host: nat)
    requires 34 <= host <= 254
    ensures NeverProbed([Subnet(2, 1), Subnet(254, local)], MAX_PROBES, 1, host)
  {
    SmallSubnetHidesLaterHosts([Subnet(2, 1), Subnet(254, local)], MAX_PROBES, 1, host);
  }

  // ----- hosts behind any subnet -----

  lemma {:induction false} StepSends(q: Pass, s: Subnet, window: nat)
    requires !q.over && q.sent < window && s.usable >= 2 && window >= 2
    ensures var p := PassStep(q, s, window, false);
            && q.sent < p.sent
            && (s.usable <= window && !p.over ==> p.sent == q.sent + Targets(s))
            && (s.usable > window && !p.over ==> q.sent == 0)
  {
    var start, n := q.offset % s.usable, Min(s.usable, window);
    ScanCoversItsWindow(start, n, s.usable, s.local, 1);
  }

  lemma {:induction false} PassHasSent(subnets: seq<Subnet>, offset: nat, window: nat)
    requires Scannable(subnets) && window >= 2 && !ScanFrom(subnets, offset, window).over
    ensures var p := ScanFrom(subnets, offset, window);
            |subnets| <= p.sent < window || (subnets == [] && p.sent == 0)
  {
    if subnets != [] {
      var n := |subnets| - 1;
      PassHasSent(subnets[..n], offset, window);
      StepSends(ScanFrom(subnets[..n], offset, window), subnets[n], window);
    }
  }

  // The first host that a scan may probe: its start, or the one after when that is the local host.
  function FirstTarget(start: nat, s: Subnet): nat
    requires s.usable > 0
  {
    if HostAt(start, 0, s.usable) == s.local then HostAt(start, 1, s.usable) else HostAt(start, 0, s.usable)
  }

  // The one host of the next subnet probed when the first leaves a single probe, its local host lying
  // j turns before the end of its window.
  function LeftOver(first: Subnet, next: Subnet, j: nat): nat
    requires first.usable > 0 && next.usable > 0 && first.local > 0
  {
    FirstTarget((first.local - 1 + j) % first.usable % next.usable, next)
  }

  function LeftOvers(first: Subnet, next: Subnet, n: nat): (r: seq<nat>)
    requires first.usable > 0 && next.usable > 0 && first.local > 0
    ensures |r| == n && forall j :: 0 <= j < n ==> r[j] == LeftOver(first, next, j)
  {
    if n == 0 then [] else LeftOvers(first, next, n - 1) + [LeftOver(first, next, n - 1)]
  }

  lemma {:induction false} TwoTurns(start: nat, s: Subnet)
    requires s.usable >= 2 && start < s.usable
    ensures var hosts := Probed(start, 2, s.usable, s.local);
            hosts != [] && hosts[0] == FirstTarget(start, s)
  {
    var h0, h1 := HostAt(start, 0, s.usable), HostAt(start, 1, s.usable);
    assert Probed(start, 1, s.usable, s.local) == if h0 == s.local then [] else [h0];
    assert Probed(start, 2, s.usable, s.local)
        == Probed(start, 1, s.usable, s.local) + if h1 == s.local then [] else [h1];
    HostAtDistance(start, h0, s.usable, 0);
    HostAtDistance(start, h0, s.usable, 1);
  }

  lemma {:induction false} SingleProbe(q: Pass, s: Subnet, window: nat, host: nat)
    requires s.usable >= 2 && window >= 2 && q.sent == window - 1 && host in HostsOf(q, s, window)
    ensures host == FirstTarget(q.offset % s.usable, s)
  {
    var start, n := q.offset % s.usable, Min(s.usable, window);
    TwoTurns(start, s);
    ProbedGrows(start, 2, n, s.usable, s.local);
    assert FirstN(Probed(start, n, s.usable, s.local), 1) == [FirstTarget(start, s)];
  }

  lemma {:induction false} EndOfWindow(start: nat, s: Subnet, window: nat)
    requires start < s.usable && HasLocal(s) && Distance(start, s.local, s.usable) < window <= s.usable
    ensures var j := window - 1 - Distance(start, s.local, s.usable);
            (start + window - 1) % s.usable == (s.local - 1 + j) % s.usable
  {
    var u, a := s.usable, start + window - 1;
    var b := s.local - 1 + (window - 1 - Distance(start, s.local, u));
    if a != b {
      WrapOnce(a, u);
      WrapSmall(b, u);
    }
  }

  // A first subnet larger than the window leaves the next one a probe for at most one host per
  // place of its own local host in the window.
  lemma {:induction false} BehindLarge(subnets: seq<Subnet>, offset: nat, window: nat, host: nat)
    requires |subnets| >= 2 && Scannable(subnets) && window >= 2 && subnets[0].usable > window
    requires ProbedIn(subnets, offset, window, 1, host)
    ensures HasLocal(subnets[0]) && host in LeftOvers(subnets[0], subnets[1], window)
  {
    var first, next := subnets[0], subnets[1];
    StartsBelowPrevious(subnets, 1, offset, window);
    ProbedAt(subnets, 1, offset, window);
    assert subnets[..0] == [];
    var q, start := ScanFrom(subnets[..1], offset, window), offset % first.usable;
    ScanCoversItsWindow(start, window, first.usable, first.local, 1);
    EndOfWindow(start, first, window);
    SingleProbe(q, next, window, host);
    var j := window - 1 - Distance(start, first.local, first.usable);
    assert LeftOvers(first, next, window)[j] == LeftOver(first, next, j);
  }

  // Behind a subnet no larger than the window, the next one starts below it with the rest of the
  // budget.
  lemma {:induction false} BehindSmall(subnets: seq<Subnet>, i: nat, offset: nat, window: nat, host: nat)
    requires 0 < i < |subnets| && Scannable(subnets) && window >= 2 && subnets[i - 1].usable <= window
    requires subnets[i - 1].usable <= host <= subnets[i].usable
    requires ProbedIn(subnets, offset, window, i, host)
    ensures host <= window + 1
  {
    StartsBelowPrevious(subnets, i, offset, window);
    ProbedAt(subnets, i, offset, window);
    var q0, q := ScanFrom(subnets[..i - 1], offset, window), ScanFrom(subnets[..i], offset, window);
    PassHasSent(subnets[..i - 1], offset, window);
    StepSends(q0, subnets[i - 1], window);
    HostsAreNear(q, subnets[i], window, host);
    DistanceFromBelow(q.offset, subnets[i - 1].usable, host, subnets[i].usable);
  }

  // Behind two subnets, one larger than the window uses up the budget.
  lemma {:induction false} NothingBehindLater(subnets: seq<Subnet>, i: nat, offset: nat, window: nat, host: nat)
    requires 1 < i < |subnets| && Scannable(subnets) && window >= 2 && subnets[i - 1].usable > window
    ensures !ProbedIn(subnets, offset, window, i, host)
  {
    if ProbedIn(subnets, offset, window, i, host) {
      StartsBelowPrevious(subnets, i, offset, window);
      PassHasSent(subnets[..i - 1], offset, window);
      StepSends(ScanFrom(subnets[..i - 1], offset, window), subnets[i - 1], window);
    }
  }

  lemma {:induction false} MissingTarget(s: Subnet, hosts: seq<nat>)
    requires |hosts| < Targets(s)
    ensures exists host: nat :: IsTarget(s, host) && host !in hosts
  {
    if HoldsTargets(s, hosts) { CoverLength(s, hosts); }
  }

  // Behind any other subnet, one of at least window + 3 hosts has a target no scan ever reaches.
  lemma {:induction false} LargeLaterSubnetHasHole(subnets: seq<Subnet>, i: nat, window: nat)
    requires 0 < i < |subnets| && Scannable(subnets) && window >= 2 && subnets[i].usable >= window + 3
    ensures exists host: nat :: IsTarget(subnets[i], host) && NeverProbed(subnets, window, i, host)
  {
    var s, before := subnets[i], subnets[i - 1];
    var host: nat := if s.local == window + 2 then window + 3 else window + 2;
    if i == 1 && before.usable > window && HasLocal(before) {
      MissingTarget(s, LeftOvers(before, s, window));
      host :| IsTarget(s, host) && host !in LeftOvers(before, s, window);
    }
    forall offset: nat ensures !ProbedIn(subnets, offset, window, i, host) {
      if ProbedIn(subnets, offset, window, i, host) {
        if before.usable <= window {
          BehindSmall(subnets, i, offset, window, host);
        } else if i == 1 {
          BehindLarge(subnets, offset, window, host);
        } else {
          NothingBehindLater(subnets, i, offset, window, host);
        }
      }
    }
    NoScanNoRun(subnets, window, i, host);
  }

  // A first subnet of at least the window with no local host of its own uses up every scan: the
  // others never get a probe, while it goes on rotating.
  lemma {:induction false} LargeSubnetKeepsTheBudget(subnets: seq<Subnet>, offset: nat, window: nat)
    requires subnets != [] && window > 0 && subnets[0].usable >= window && !HasLocal(subnets[0])
    ensures var p, first := ScanFrom(subnets, offset, window), subnets[0];
            && |p.probed| == 1 && p.over
            && p.offset == NextOffset(offset, first.usable, window, first.local)
  {
    if |subnets| == 1 {
      assert subnets == [subnets[0]];
      SingleSubnetScan(subnets[0], offset, window);
      assert subnets[..0] == [];
      ScanCoversItsWindow(offset % subnets[0].usable, window, subnets[0].usable, subnets[0].local, 1);
    } else {
      LargeSubnetKeepsTheBudget(subnets[..|subnets| - 1], offset, window);
    }
  }

  lemma {:induction false} OthersNeverGetAProbe(subnets: seq<Subnet>, window: nat, i: nat, host: nat)
    requires 0 < i < |subnets| && window > 0 && subnets[0].usable >= window && !HasLocal(subnets[0])
    ensures NeverProbed(subnets, window, i, host)
  {
    forall offset: nat ensures !ProbedIn(subnets, offset, window, i, host) {
      LargeSubnetKeepsTheBudget(subnets, offset, window);
    }
    NoScanNoRun(subnets, window, i, host);
  }

  // ----- the tail of a large first subnet -----

  // The local host of the first subnet leaves a window of others behind it, and no later subnet is
  // larger than the number of that host.
  ghost predicate EarlyLocal(subnets: seq<Subnet>, window: nat) {
    && |subnets| >= 2 && Scannable(subnets) && window > 0
    && HasLocal(subnets[0]) && subnets[0].local + window <= subnets[0].usable
    && forall i :: 1 <= i < |subnets| ==> subnets[i].usable <= subnets[0].local
  }

  // A scan that starts before the local host either stays before it or hands the offset on to a
  // later subnet, which brings it back.
  lemma {:induction false} FirstSubnetFrom(first: Subnet, offset: nat, window: nat)
    requires HasLocal(first) && first.local + window <= first.usable && offset < first.local && window > 0
    ensures var q := ScanFrom([first], offset, window);
            && q.probed == [Probed(offset, window, first.usable, first.local)]
            && (q.over ==> q.offset < first.local)
  {
    WrapSmall(offset, first.usable);
    SingleSubnetScan(first, offset, window);
    ScanCoversItsWindow(offset, window, first.usable, first.local, 1);
    assert [first][..0] == [];
    if offset + window < first.usable { WrapSmall(offset + window, first.usable); }
  }

  lemma {:induction false} OffsetComesBack(subnets: seq<Subnet>, offset: nat, window: nat)
    requires EarlyLocal(subnets, window) && offset < subnets[0].local
    ensures ScanFrom(subnets, offset, window).offset < subnets[0].local
  {
    var n := |subnets| - 1;
    var q := ScanFrom(subnets[..n], offset, window);
    if n == 1 {
      assert subnets[..1] == [subnets[0]];
      FirstSubnetFrom(subnets[0], offset, window);
    } else {
      OffsetComesBack(subnets[..n], offset, window);
    }
    if !q.over { OffsetStaysBelow(q, subnets[n], window); }
  }

  lemma {:induction false} OffsetStaysLow(subnets: seq<Subnet>, offset: nat, window: nat, scans: nat)
    requires EarlyLocal(subnets, window) && offset < subnets[0].local
    ensures OffsetAfter(subnets, offset, window, scans) < subnets[0].local
  {
    if scans > 0 {
      OffsetStaysLow(subnets, offset, window, scans - 1);
      OffsetComesBack(subnets, OffsetAfter(subnets, offset, window, scans - 1), window);
    }
  }

  // From a start before the local host, no scan reaches the hosts of the first subnet that lie a
  // window or more behind it.
  lemma {:induction false} TailOfFirstIsNeverProbed(subnets: seq<Subnet>, offset: nat, window: nat, host: nat)
    requires EarlyLocal(subnets, window) && offset < subnets[0].local
    requires subnets[0].local + window <= host <= subnets[0].usable
    ensures !EverProbed(subnets, offset, window, 0, host)
  {
    forall n: nat ensures !ProbedInScan(subnets, offset, window, n, 0, host) {
      if ProbedInScan(subnets, offset, window, n, 0, host) {
        var first, from := subnets[0], OffsetAfter(subnets, offset, window, n);
        OffsetStaysLow(subnets, offset, window, n);
        ProbedAt(subnets, 0, from, window);
        HostsAreNear(ScanFrom(subnets[..0], from, window), first, window, host);
        DistanceFromBelow(from, first.local, host, first.usable);
      }
    }
  }

  // ----- what a run covers -----

  lemma {:induction false} FittingRunCovers(subnets: seq<Subnet>, offset: nat, window: nat)
    requires |subnets| >= 2 && Scannable(subnets) && window > 0 && AllTargets(subnets) <= window
    ensures Covered(subnets, offset, window)
  {
    ScanIsCompleteIff(subnets, offset, window);
    forall i: nat, host: nat | i < |subnets| && IsTarget(subnets[i], host)
      ensures EverProbed(subnets, offset, window, i, host)
    {
      assert HoldsTargets(subnets[i], ScanFrom(subnets, offset, window).probed[i]);
      assert ProbedInScan(subnets, offset, window, 0, i, host);
    }
  }

  lemma {:induction false} HoleMeansUncovered(subnets: seq<Subnet>, offset: nat, window: nat, i: nat)
    requires i < |subnets|
    requires exists host: nat :: IsTarget(subnets[i], host) && !EverProbed(subnets, offset, window, i, host)
    ensures !Covered(subnets, offset, window)
  {
  }

  // A later subnet of at least window + 3 hosts, a first one that uses up every scan, or a first one
  // with a tail that is never reached.
  ghost predicate SharesBadly(subnets: seq<Subnet>, window: nat) {
    || (exists i :: 1 <= i < |subnets| && subnets[i].usable >= window + 3)
    || (subnets != [] && subnets[0].usable >= window && !HasLocal(subnets[0]))
    || EarlyLocal(subnets, window)
  }

  lemma {:induction false} BadSharingLeavesAHole(subnets: seq<Subnet>, window: nat)
    requires |subnets| >= 2 && Scannable(subnets) && window >= 2 && SharesBadly(subnets, window)
    ensures !Covered(subnets, 0, window)
  {
    if i :| 1 <= i < |subnets| && subnets[i].usable >= window + 3 {
      LargeLaterSubnetHasHole(subnets, i, window);
      HoleMeansUncovered(subnets, 0, window, i);
    } else if EarlyLocal(subnets, window) {
      var host := subnets[0].local + window;
      TailOfFirstIsNeverProbed(subnets, 0, window, host);
      assert IsTarget(subnets[0], host);
      HoleMeansUncovered(subnets, 0, window, 0);
    } else {
      var host := if subnets[1].local == 1 then 2 else 1;
      OthersNeverGetAProbe(subnets, window, 1, host);
      assert IsTarget(subnets[1], host);
      HoleMeansUncovered(subnets, 0, window, 1);
    }
  }

  // Wherever one of these three reasons is at work or all targets fit into the window, the scans
  // since the start of the program cover all subnets exactly when the targets fit.
  lemma {:induction false} CoveredIffTargetsFit(subnets: seq<Subnet>, window: nat)
    requires |subnets| >= 2 && Scannable(subnets) && window >= 2
    requires AllTargets(subnets) <= window || SharesBadly(subnets, window)
    ensures Covered(subnets, 0, window) <==> AllTargets(subnets) <= window
  {
    if AllTargets(subnets) <= window {
      FittingRunCovers(subnets, 0, window);
    } else {
      BadSharingLeavesAHole(subnets, window);
    }
  }

  // ----- more targets than fit, reached all the same -----

  // Two subnets of one size: the first gets all its targets, the second the rest of the budget.
  lemma {:induction false} PairScan(s: Subnet, offset: nat, window: nat)
    requires 2 <= s.usable <= window < 2 * Targets(s) && HasLocal(s)
    ensures var p, next := ScanFrom([s, s], offset, window), (offset % s.usable + s.usable - 1) % s.usable;
            var rest := window - Targets(s);
            && |p.probed| == 2 && HoldsTargets(s, p.probed[0])
            && p.probed[1] == FirstN(Probed(next, s.usable, s.usable, s.local), rest)
            && p.offset == (next + rest) % s.usable
  {
    var q0, q := ScanFrom([], offset, window), ScanFrom([s], offset, window);
    assert [s, s][..1] == [s] && [s][..0] == [];
    SmallSubnetIsTaken(q0, s, window);
    assert q == PassStep(q0, s, window, false);
    var next := (offset % s.usable + s.usable - 1) % s.usable;
    assert q.offset == next && q.sent == Targets(s) && !q.over && |q.probed| == 1;
    WrapSmall(next, s.usable);
    ScanCoversItsWindow(next, s.usable, s.usable, s.local, 1);
    assert ScanFrom([s, s], offset, window) == PassStep(q, s, window, false);
  }

  // One scan of the two moves the offset on by the window less their size.
  lemma {:induction false} PairMoves(s: Subnet, offset: nat, window: nat)
    requires 2 <= s.usable <= window < 2 * Targets(s) && HasLocal(s) && offset + (window - s.usable) < s.usable
    ensures ScanFrom([s, s], offset, window).offset == offset + (window - s.usable)
  {
    var u := s.usable;
    PairScan(s, offset, window);
    WrapSmall(offset, u);
    if offset == 0 {
      WrapSmall(u - 1, u);
      WrapOnce(u - 1 + (window - u + 1), u);
    } else {
      WrapOnce(offset + u - 1, u);
      WrapSmall(offset - 1 + (window - u + 1), u);
    }
  }

  lemma {:induction false} PairOffset(s: Subnet, n: nat)
    requires s.usable == 30 && HasLocal(s) && n < 15
    ensures OffsetAfter([s, s], 0, MAX_PROBES, n) == 2 * n
  {
    if n > 0 {
      PairOffset(s, n - 1);
      PairMoves(s, 2 * (n - 1), MAX_PROBES);
    }
  }

  lemma {:induction false} NearHostsAreFirst(start: nat, s: Subnet, host: nat)
    requires s.usable >= 3 && start < s.usable && IsTarget(s, host) && Distance(start, host, s.usable) <= 2
    ensures host in FirstN(Probed(start, s.usable, s.usable, s.local), 3)
  {
    ScanCoversItsWindow(start, 3, s.usable, s.local, host);
    ProbedGrows(start, 3, s.usable, s.usable, s.local);
  }

  lemma {:induction false} StartOfSecond(n: nat, host: nat)
    requires 1 <= host <= 30 && (host - 1) / 2 == n < 15
    ensures Distance(if n == 0 then 29 else 2 * n - 1, host, 30) <= 2
  {
  }

  lemma {:induction false} SecondOfPair(s: Subnet, n: nat, host: nat)
    requires s.usable == 30 && HasLocal(s) && n < 15 && IsTarget(s, host) && (host - 1) / 2 == n
    ensures ProbedIn([s, s], 2 * n, MAX_PROBES, 1, host)
  {
    var start := if n == 0 then 29 else 2 * n - 1;
    WrapSmall(2 * n, 30);
    if n == 0 { WrapSmall(29, 30); } else { WrapOnce(2 * n + 29, 30); }
    PairScan(s, 2 * n, MAX_PROBES);
    StartOfSecond(n, host);
    NearHostsAreFirst(start, s, host);
  }

  lemma {:induction false} PairReaches(s: Subnet, i: nat, host: nat)
    requires s.usable == 30 && HasLocal(s) && i < 2 && IsTarget(s, host)
    ensures EverProbed([s, s], 0, MAX_PROBES, i, host)
  {
    var n := if i == 0 then 0 else (host - 1) / 2;
    PairOffset(s, n);
    if i == 0 { PairScan(s, 0, MAX_PROBES); } else { SecondOfPair(s, n, host); }
    assert ProbedInScan([s, s], 0, MAX_PROBES, n, i, host);
  }

  // Where none of the three reasons is at work, targets that do not fit may still be reached, as in
  // two subnets of 30 hosts with the window of the program.
  lemma {:induction false} MoreThanFitsMayBeCovered(s: Subnet)
    requires s.usable == 30 && HasLocal(s)
    ensures AllTargets([s, s]) > MAX_PROBES && Covered([s, s], 0, MAX_PROBES)
  {
    assert [s, s][..1] == [s] && [s][..0] == [];
    assert AllTargets([s]) == 29;
    forall i: nat, host: nat | i < 2 && IsTarget([s, s][i], host) ensures EverProbed([s, s], 0, MAX_PROBES, i, host) {
      PairReaches(s, i, host);
    }
  }
}
