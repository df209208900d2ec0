// Which hosts of a subnet the active scans probe, scan after scan.

module ProbeRotation {
  import opened Options
  import opened Slices

  const MAX_PROBES := 32
  const MAX_SUBNETS := 8

  function Min(a: nat, b: nat): nat { if a < b then a else b }

  // Host numbers run from 1 to usable; local is the host number of this machine, outside that range
  // when it is not one of them.
  function HostAt(start: nat, probe: nat, usable: nat): nat
    requires usable > 0
  {
    1 + (start + probe) % usable
  }

  // The hosts probed by the first n turns of a scan.
  function Probed(start: nat, n: nat, usable: nat, local: nat): seq<nat>
    requires usable > 0
  {
    if n == 0 then []
    else
      Probed(start, n - 1, usable, local) +
      if HostAt(start, n - 1, usable) == local then [] else [HostAt(start, n - 1, usable)]
  }

  // A subnet to scan; usable is 0 when it has no host but the network and the broadcast address.
  datatype Subnet = Subnet(usable: nat, local: nat)

  // How far one pass over the subnets has come: the offset, the probes sent, the hosts probed in each
  // subnet, and whether the pass is over.
  datatype Pass = Pass(offset: nat, sent: nat, probed: seq<seq<nat>>, over: bool)

  // The hosts of one subnet that the rest of the budget allows.
  function HostsOf(p: Pass, s: Subnet, window: nat): (r: seq<nat>)
    ensures p.sent <= window ==> p.sent + |r| <= window
  {
    if s.usable == 0 || p.sent >= window then []
    else FirstN(Probed(p.offset % s.usable, Min(s.usable, window), s.usable, s.local), window - p.sent)
  }

  // One subnet of a pass. When the neighbour list fills up while the replies are taken in, the pass
  // ends without moving the offset.
  function PassStep(p: Pass, s: Subnet, window: nat, listFills: bool): Pass {
    var hosts := HostsOf(p, s, window);
    if p.over then p
    else if s.usable == 0 then p.(probed := p.probed + [hosts])
    else
      Pass(if listFills then p.offset else (p.offset % s.usable + |hosts|) % s.usable,
           p.sent + |hosts|, p.probed + [hosts], listFills || p.sent + |hosts| >= window)
  }

  // A pass over all subnets; fills is the index of the subnet at which the list fills up.
  function PassOver(subnets: seq<Subnet>, offset: nat, window: nat, fills: Option<nat>): Pass {
    if subnets == [] then Pass(offset, 0, [], false)
    else
      var i := |subnets| - 1;
      PassStep(PassOver(subnets[..i], offset, window, fills), subnets[i], window, fills == Some(i))
  }

  class Prober {
    var offset: nat

    constructor ()
      ensures offset == 0
    {
      offset := 0;
    }

    // One subnet with what is left of the probe budget.
    method ScanSubnet(usable: nat, local: nat, window: nat, budget: nat, listFills: bool) returns (hosts: seq<nat>)
      requires usable > 0 && budget <= window
      modifies this
      ensures hosts == FirstN(Probed(old(offset) % usable, Min(usable, window), usable, local), budget)
      ensures offset == if listFills then old(offset) else (old(offset) % usable + |hosts|) % usable
    {
      var start := offset % usable;
      var probesThisSubnet := if usable < window then usable else window;
      hosts := [];
      var probe := 0;
      while probe < probesThisSubnet && |hosts| < budget
        invariant 0 <= probe <= probesThisSubnet && |hosts| <= budget
        invariant hosts == Probed(start, probe, usable, local)
      {
        var host := 1 + (start + probe) % usable;
        if host != local { hosts := hosts + [host]; }
        probe := probe + 1;
      }
      ProbedGrows(start, probe, probesThisSubnet, usable, local);
      if !listFills {
        offset := (start + |hosts|) % usable;
      }
    }

    // One turn of the loop over the subnets.
    method ScanNext(s: Subnet, window: nat, listFills: bool, p: Pass) returns (next: Pass)
      requires !p.over && p.offset == offset && p.sent < window
      modifies this
      ensures next == PassStep(p, s, window, listFills)
      ensures next.offset == offset && (!next.over ==> next.sent < window)
    {
      if s.usable == 0 { return p.(probed := p.probed + [[]]); }
      var hosts := ScanSubnet(s.usable, s.local, window, window - p.sent, listFills);
      var sent := p.sent + |hosts|;
      next := Pass(offset, sent, p.probed + [hosts], listFills || sent >= window);
    }

    // One scan of the eligible subnets, at most eight, that share one offset and one probe budget.
    method Scan(subnets: seq<Subnet>, window: nat, fills: Option<nat>) returns (p: Pass)
      requires 0 < window
      modifies this
      ensures p == PassOver(FirstN(subnets, 8), old(offset), window, fills) && p.offset == offset
      ensures |p.probed| <= 8
    {
      ghost var all, start := FirstN(subnets, MAX_SUBNETS), offset;
      p := Pass(offset, 0, [], false);
      var i := 0;
      while i < |subnets| && i < MAX_SUBNETS && !p.over
        invariant 0 <= i <= |all| && p == PassOver(all[..i], start, window, fills)
        invariant p.offset == offset && (!p.over ==> p.sent < window)
      {
        PassNext(all, i, start, window, fills);
        p := ScanNext(subnets[i], window, fills == Some(i), p);
        i := i + 1;
      }
      PassStaysOver(all, i, start, window, fills);
      PassLength(all, start, window, fills);
    }
  }

  lemma {:induction false} PassLength(subnets: seq<Subnet>, offset: nat, window: nat, fills: Option<nat>)
    ensures |PassOver(subnets, offset, window, fills).probed| <= |subnets|
  {
    if subnets != [] { PassLength(subnets[..|subnets| - 1], offset, window, fills); }
  }

  lemma {:induction false} ProbedGrows(start: nat, m: nat, n: nat, usable: nat, local: nat)
    requires usable > 0 && m <= n
    ensures Probed(start, m, usable, local) <= Probed(start, n, usable, local)
  {
    if m < n { ProbedGrows(start, m, n - 1, usable, local); }
  }

  lemma {:induction false} PassNext(subnets: seq<Subnet>, i: nat, offset: nat, window: nat, fills: Option<nat>)
    requires i < |subnets|
    ensures PassOver(subnets[..i + 1], offset, window, fills)
         == PassStep(PassOver(subnets[..i], offset, window, fills), subnets[i], window, fills == Some(i))
  {
    assert subnets[..i + 1][..i] == subnets[..i];
  }

  lemma {:induction false} PassStaysOver(subnets: seq<Subnet>, i: nat, offset: nat, window: nat, fills: Option<nat>)
    requires i <= |subnets| && (i == |subnets| || PassOver(subnets[..i], offset, window, fills).over)
    ensures PassOver(subnets, offset, window, fills) == PassOver(subnets[..i], offset, window, fills)
  {
    if i < |subnets| {
      assert subnets[..|subnets| - 1][..i] == subnets[..i];
      PassStaysOver(subnets[..|subnets| - 1], i, offset, window, fills);
    } else {
      assert subnets[..i] == subnets;
    }
  }

  // ----- several subnets -----

  // However many subnets there are, a scan never sends more probes than its window.
  lemma {:induction false} BudgetIsShared(subnets: seq<Subnet>, offset: nat, window: nat, fills: Option<nat>)
    requires window > 0
    ensures PassOver(subnets, offset, window, fills).sent <= window
  {
    if subnets != [] { BudgetIsShared(subnets[..|subnets| - 1], offset, window, fills); }
  }

  // A single subnet gets the whole window.
  lemma {:induction false} SingleSubnetScan(s: Subnet, offset: nat, window: nat)
    requires s.usable > 0 && window > 0
    ensures var p := PassOver([s], offset, window, None);
            && p.probed == [Probed(offset % s.usable, Min(s.usable, window), s.usable, s.local)]
            && p.offset == NextOffset(offset, s.usable, window, s.local)
  {
    assert [s][..0] == [];
    ScanCoversItsWindow(offset % s.usable, Min(s.usable, window), s.usable, s.local, 1);
  }

  // A first subnet at least as large as the window leaves at most one probe to all the others, and
  // none unless its own local host lies in the window.
  lemma {:induction false} LaterSubnetsStarve(subnets: seq<Subnet>, offset: nat, window: nat)
    requires subnets != [] && subnets[0].usable >= window > 0
    ensures var first, p := subnets[0], PassOver(subnets, offset, window, None);
            var hosts := Probed(offset % first.usable, window, first.usable, first.local);
            && p.probed != [] && p.probed[0] == hosts && p.sent - |hosts| <= 1
            && (p.sent > |hosts| ==>
                  1 <= first.local <= first.usable
                  && Distance(offset % first.usable, first.local, first.usable) < window)
  {
    var first, n := subnets[0], |subnets| - 1;
    ScanCoversItsWindow(offset % first.usable, window, first.usable, first.local, 1);
    BudgetIsShared(subnets, offset, window, None);
    if n == 0 {
      assert subnets == [first];
      SingleSubnetScan(first, offset, window);
    } else {
      LaterSubnetsStarve(subnets[..n], offset, window);
    }
  }

  // A list that fills up ends the pass after that subnet and leaves the offset where the subnet found
  // it, so the next scan starts with the same hosts again.
  lemma {:induction false} FullListKeepsTheOffset(subnets: seq<Subnet>, i: nat, offset: nat, window: nat)
    requires i < |subnets| && subnets[i].usable > 0
    ensures var before, p := PassOver(subnets[..i], offset, window, None), PassOver(subnets, offset, window, Some(i));
            !before.over ==> p.over && p.offset == before.offset && |p.probed| == |before.probed| + 1
  {
    var before := PassOver(subnets[..i], offset, window, None);
    FillsLater(subnets[..i], i, offset, window);
    PassNext(subnets, i, offset, window, Some(i));
    if !before.over { PassStaysOver(subnets, i + 1, offset, window, Some(i)); }
  }

  lemma {:induction false} FillsLater(subnets: seq<Subnet>, i: nat, offset: nat, window: nat)
    requires |subnets| <= i
    ensures PassOver(subnets, offset, window, Some(i)) == PassOver(subnets, offset, window, None)
  {
    if subnets != [] { FillsLater(subnets[..|subnets| - 1], i, offset, window); }
  }

  // ----- several scans in a row, the list never filling up -----

  function NextOffset(offset: nat, usable: nat, window: nat, local: nat): nat
    requires usable > 0
  {
    (offset % usable + |Probed(offset % usable, Min(usable, window), usable, local)|) % usable
  }

  // Whether host is probed by one of the next scans.
  predicate ProbedWithin(scans: nat, offset: nat, usable: nat, window: nat, local: nat, host: nat)
    requires usable > 0
  {
    scans > 0 &&
    (host in Probed(offset % usable, Min(usable, window), usable, local)
     || ProbedWithin(scans - 1, NextOffset(offset, usable, window, local), usable, window, local, host))
  }

  // How far ahead of the start a host lies, going round.
  function Distance(start: nat, host: nat, usable: nat): nat
    requires 1 <= host <= usable && start < usable
  {
    if host - 1 >= start then host - 1 - start else host - 1 + usable - start
  }

  lemma {:induction false} WrapSmall(x: nat, usable: nat)
    requires x < usable
    ensures x % usable == x
  {
  }

  lemma {:induction false} HostAtDistance(start: nat, host: nat, usable: nat, d: nat)
    requires 1 <= host <= usable && start < usable && d < usable
    ensures HostAt(start, d, usable) == host <==> d == Distance(start, host, usable)
  {
    var sum := start + d;
    if sum < usable { WrapSmall(sum, usable); } else { WrapOnce(sum, usable); }
  }

  lemma {:induction false} WrapOnce(sum: nat, usable: nat)
    requires usable <= sum < 2 * usable
    ensures sum % usable == sum - usable
  {
    var q, r := sum / usable, sum % usable;
    assert sum == q * usable + r && 0 <= r < usable;
    assert q >= 2 ==> q * usable >= 2 * usable by { if q >= 2 { Times(2, q, usable); } }
    assert q <= 0 ==> q * usable <= 0 by { if q <= 0 { Times(q, 0, usable); } }
  }

  lemma {:induction false} Times(a: int, b: int, c: nat)
    requires a <= b
    ensures a * c <= b * c
  {
  }

  // One scan probes exactly the hosts in its window other than the local one, and only the local
  // host makes it probe fewer than its window.
  lemma {:induction false} ScanCoversItsWindow(start: nat, n: nat, usable: nat, local: nat, host: nat)
    requires start < usable && n <= usable && 1 <= host <= usable
    ensures host in Probed(start, n, usable, local) <==> host != local && Distance(start, host, usable) < n
    ensures |Probed(start, n, usable, local)|
         == if 1 <= local <= usable && Distance(start, local, usable) < n then n - 1 else n
  {
    if n > 0 {
      ScanCoversItsWindow(start, n - 1, usable, local, host);
      HostAtDistance(start, host, usable, n - 1);
      if 1 <= local <= usable {
        HostAtDistance(start, local, usable, n - 1);
      }
    }
  }

  lemma {:induction false} StepCloser(start: nat, host: nat, usable: nat, step: nat)
    requires start < usable && 1 <= host <= usable && step <= Distance(start, host, usable)
    ensures var next := (start + step) % usable;
            next < usable && Distance(next, host, usable) == Distance(start, host, usable) - step
  {
    if start + step < usable { WrapSmall(start + step, usable); } else { WrapOnce(start + step, usable); }
  }

  // The distance that a number of scans is sure to cover.
  function Reach(scans: nat, window: nat): nat
    requires window > 0
  {
    if scans == 0 then 0 else Reach(scans - 1, window) + (window - 1)
  }

  lemma {:induction false} ReachIsProduct(scans: nat, window: nat)
    requires window > 0
    ensures Reach(scans, window) == scans * (window - 1)
  {
    if scans > 0 {
      ReachIsProduct(scans - 1, window);
      assert scans * (window - 1) == (scans - 1) * (window - 1) + (window - 1);
    }
  }

  lemma {:induction false} OneScan(offset: nat, usable: nat, window: nat, local: nat, host: nat)
    requires usable > 0 && window >= 2 && 1 <= host <= usable && host != local
    ensures var start, next := offset % usable, NextOffset(offset, usable, window, local);
            && start < usable && next % usable == next < usable
            && (host in Probed(start, Min(usable, window), usable, local)
                || Distance(next, host, usable) + window - 1 <= Distance(start, host, usable))
  {
    var start, n := offset % usable, Min(usable, window);
    ScanCoversItsWindow(start, n, usable, local, host);
    var step := |Probed(start, n, usable, local)|;
    if Distance(start, host, usable) >= n {
      StepCloser(start, host, usable, step);
    }
    WrapSmall(NextOffset(offset, usable, window, local), usable);
  }

  // Skipping the local host costs one step of the offset and leaves no gap: the host is probed once
  // the scans reach its distance.
  lemma {:induction false} ReachedWithin(scans: nat, offset: nat, usable: nat, window: nat, local: nat, host: nat)
    requires usable > 0 && window >= 2 && 1 <= host <= usable && host != local
    requires scans > 0 && Distance(offset % usable, host, usable) <= Reach(scans, window)
    ensures ProbedWithin(scans, offset, usable, window, local, host)
  {
    OneScan(offset, usable, window, local, host);
    if host !in Probed(offset % usable, Min(usable, window), usable, local) {
      if scans > 1 {
        ReachedWithin(scans - 1, NextOffset(offset, usable, window, local), usable, window, local, host);
      } else {
        DirectHit(offset % usable, usable, window, local, host);
      }
    }
  }

  lemma {:induction false} DirectHit(start: nat, usable: nat, window: nat, local: nat, host: nat)
    requires start < usable && window >= 2 && 1 <= host <= usable && host != local
    requires Distance(start, host, usable) <= window - 1
    ensures host in Probed(start, Min(usable, window), usable, local)
  {
    ScanCoversItsWindow(start, Min(usable, window), usable, local, host);
  }

  function CeilDiv(a: nat, b: nat): nat
    requires b > 0
  {
    (a + b - 1) / b
  }

  lemma {:induction false} CeilDivCovers(a: nat, b: nat)
    requires b > 0
    ensures a <= CeilDiv(a, b) * b
    ensures a > 0 ==> CeilDiv(a, b) > 0
  {
    var q := CeilDiv(a, b);
    assert a + b - 1 == q * b + (a + b - 1) % b;
  }

  // The rotation leaves no hole: from any offset, every host but the local one is probed within
  // ceil((n - 1) / (w - 1)) consecutive scans.
  lemma {:induction false} EveryHostIsProbed(offset: nat, usable: nat, window: nat, local: nat, host: nat)
    requires usable >= 2 && window >= 2 && 1 <= host <= usable && host != local
    ensures ProbedWithin(CeilDiv(usable - 1, window - 1), offset, usable, window, local, host)
  {
    CeilDivCovers(usable - 1, window - 1);
    ReachIsProduct(CeilDiv(usable - 1, window - 1), window);
    ReachedWithin(CeilDiv(usable - 1, window - 1), offset, usable, window, local, host);
  }

  // The largest subnet the program scans, a /24.
  lemma {:induction false} LargestSubnetTakesNineScans(offset: nat, local: nat, host: nat)
    requires 1 <= host <= 254 && host != local
    ensures ProbedWithin(9, offset, 254, MAX_PROBES, local, host)
  {
    EveryHostIsProbed(offset, 254, MAX_PROBES, local, host);
    assert CeilDiv(253, 31) == 9;
  }
}
