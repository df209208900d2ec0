// Building one neighbour snapshot: rows of the operating system's neighbour table, then ARP replies,
// then removal of MACs that cannot be an identity.

module NeighborSnapshot {
  import opened Neighbors
  import opened Options
  import opened Statuses
  import Discovery
  import DiscoveryLaws
  import DiscoveryRuns

  datatype NeighborState = Unreachable | Incomplete | Probe | Delay | Stale | Reachable | Permanent

  // An IPv4 address as a 32-bit number, an IPv6 address by its first byte.
  datatype Address = V4(value: nat) | V6(firstByte: nat) | OtherFamily

  // A row of the table. The entry is already formatted and named; its ip is "" when the address could
  // not be formatted.
  datatype Row = Row(state: NeighborState, address: Address, entry: Neighbor)

  predicate IsLive(state: NeighborState) { state.Reachable? || state.Delay? || state.Probe? }

  predicate IsUnicast(address: Address) {
    match address
    case V4(value) => value != 0xFFFF_FFFF && value / 0x100_0000 < 224
    case V6(firstByte) => firstByte != 0xFF
    case OtherFamily => false
  }

  predicate Listable(row: Row) { IsLive(row.state) && IsUnicast(row.address) && row.entry.ip != "" }

  // The test keeps out multicast and broadcast, but not the unspecified addresses.
  lemma {:induction false} UnicastTestKeepsUnspecified(value: nat)
    ensures IsUnicast(V4(value)) <==> value < 0xE000_0000
    ensures IsUnicast(V4(0)) && IsUnicast(V6(0))
  {
  }

  // The outcome of one ARP probe. answered is false for a failed or short reply.
  datatype Reply = Reply(answered: bool, entry: Neighbor)

  function FindIp(items: seq<Neighbor>, ip: string): (idx: int)
    ensures -1 <= idx < |items|
    ensures idx >= 0 ==> ip != "" && items[idx].ip == ip
    ensures idx < 0 ==> ip == "" || forall k | 0 <= k < |items| :: items[k].ip != ip
  {
    if ip == "" || items == [] then -1
    else
      var before := FindIp(items[..|items| - 1], ip);
      if before >= 0 then before else if items[|items| - 1].ip == ip then |items| - 1 else -1
  }

  predicate HasMac(items: seq<Neighbor>, mac: string) {
    mac != "" && exists k | 0 <= k < |items| :: items[k].mac == mac
  }

  // ----- what the three stages mean -----

  function AddRow(items: seq<Neighbor>, row: Row): seq<Neighbor> {
    if |items| < Discovery.MAX_NEIGHBORS && Listable(row) && FindIp(items, row.entry.ip) < 0 then items + [row.entry]
    else items
  }

  function AddRows(rows: seq<Row>): seq<Neighbor> {
    if rows == [] then [] else AddRow(AddRows(rows[..|rows| - 1]), rows[|rows| - 1])
  }

  // A reply whose MAC is already listed is taken for the listed device, whatever its address.
  function AddReply(items: seq<Neighbor>, reply: Reply): seq<Neighbor> {
    if |items| < Discovery.MAX_NEIGHBORS && reply.answered && reply.entry.ip != ""
       && !HasMac(items, reply.entry.mac) && FindIp(items, reply.entry.ip) < 0
    then items + [reply.entry] else items
  }

  function AddReplies(items: seq<Neighbor>, replies: seq<Reply>): seq<Neighbor> {
    if replies == [] then items
    else AddReply(AddReplies(items, replies[..|replies| - 1]), replies[|replies| - 1])
  }

  ghost predicate Shared(items: seq<Neighbor>, k: nat)
    requires k < |items|
  {
    items[k].mac != "" && exists j :: 0 <= j < |items| && j != k && items[j].mac == items[k].mac
  }

  ghost function Cleared(items: seq<Neighbor>): (r: seq<Neighbor>)
    ensures |r| == |items|
  {
    seq(|items|, k requires 0 <= k < |items| => if Shared(items, k) then items[k].(mac := "") else items[k])
  }

  ghost function Snapshot(rows: seq<Row>, replies: seq<Reply>): seq<Neighbor> {
    Cleared(AddReplies(AddRows(rows), replies))
  }

  // ----- the stages as the program runs them -----

  class NeighborList {
    const items: array<Neighbor>
    var count: nat

    ghost predicate Valid()
      reads this
    {
      items.Length == Discovery.MAX_NEIGHBORS && count <= items.Length
    }

    ghost function View(): seq<Neighbor>
      reads this, items
      requires Valid()
    {
      items[..count]
    }

    constructor ()
      ensures Valid() && View() == [] && fresh(items)
    {
      items := new Neighbor[Discovery.MAX_NEIGHBORS](_ => BLANK);
      count := 0;
    }

    method FindNeighborIp(ip: string) returns (idx: int)
      requires Valid()
      ensures idx == FindIp(View(), ip)
    {
      if ip == "" { return -1; }
      var i := 0;
      while i < count
        invariant 0 <= i <= count && FindIp(items[..i], ip) == -1
      {
        assert items[..i + 1][..i] == items[..i];
        if items[i].ip == ip {
          FirstIp(View(), i, ip);
          return i;
        }
        i := i + 1;
      }
      idx := -1;
    }

    method FindNeighborMac(mac: string) returns (idx: int)
      requires Valid()
      ensures idx < count && (idx >= 0 <==> HasMac(View(), mac))
      ensures idx >= 0 ==> View()[idx].mac == mac
    {
      if mac == "" { return -1; }
      var i := 0;
      while i < count
        invariant 0 <= i <= count && forall k | 0 <= k < i :: items[k].mac != mac
      {
        if items[i].mac == mac {
          assert View()[i].mac == mac;
          return i;
        }
        i := i + 1;
      }
      idx := -1;
    }

    method ReadRow(row: Row)
      requires Valid()
      modifies this`count, items
      ensures Valid() && View() == AddRow(old(View()), row)
    {
      if count >= Discovery.MAX_NEIGHBORS || !IsLive(row.state) || !IsUnicast(row.address) { return; }
      if row.entry.ip == "" { return; }
      var existing := FindNeighborIp(row.entry.ip);
      if existing >= 0 { return; }
      items[count] := row.entry;
      count := count + 1;
    }

    method AppendActive(reply: Reply)
      requires Valid()
      modifies this`count, items
      ensures Valid() && View() == AddReply(old(View()), reply)
    {
      if !reply.answered || reply.entry.ip == "" { return; }
      var existing := FindNeighborMac(reply.entry.mac);
      if existing < 0 { existing := FindNeighborIp(reply.entry.ip); }
      if existing >= 0 || count >= Discovery.MAX_NEIGHBORS { return; }
      items[count] := reply.entry;
      count := count + 1;
    }

    // How many entries from index i on carry the MAC of entry i.
    method CountSharing(i: nat) returns (sharing: nat)
      requires Valid() && i < count
      ensures sharing >= 1 && (sharing > 1 <==> Repeated(View(), i))
    {
      sharing := 1;
      var j := i + 1;
      while j < count
        invariant i + 1 <= j <= count && sharing >= 1
        invariant sharing > 1 <==> exists k :: i < k < j && items[k].mac == items[i].mac
      {
        if items[j].mac == items[i].mac { sharing := sharing + 1; }
        j := j + 1;
      }
      assert View()[i] == items[i] && forall k | i < k < count :: View()[k] == items[k];
    }

    method BlankFrom(i: nat, ambiguous: string)
      requires Valid() && i < count
      modifies items
      ensures View() == Blanked(old(View()), i, ambiguous)
    {
      var j := i;
      while j < count
        invariant i <= j <= count
        invariant forall k | 0 <= k < j :: items[k] == Blanked(old(View()), i, ambiguous)[k]
        invariant forall k | j <= k < count :: items[k] == old(items[k])
      {
        if items[j].mac == ambiguous { items[j] := items[j].(mac := ""); }
        j := j + 1;
      }
    }

    // One turn of the clearing loop.
    method ClearFrom(i: nat, ghost before: seq<Neighbor>)
      requires Valid() && i < count && ClearedTo(before, i, View())
      modifies items
      ensures ClearedTo(before, i + 1, View())
    {
      ClearOneGroup(before, i, View());
      assert items[i] == View()[i];
      if items[i].mac == "" { return; }
      var sharing := CountSharing(i);
      if sharing > 1 { BlankFrom(i, items[i].mac); }
    }

    // Blanks every MAC that more than one entry carries.
    method ClearAmbiguousMacs()
      requires Valid()
      modifies items
      ensures Valid() && View() == Cleared(old(View()))
    {
      ghost var before := View();
      var i := 0;
      while i < count
        invariant 0 <= i <= count && ClearedTo(before, i, View())
      {
        ClearFrom(i, before);
        i := i + 1;
      }
      ClearedByAll(before);
    }

    method ReadTable(rows: seq<Row>)
      requires Valid() && count == 0
      modifies this`count, items
      ensures Valid() && View() == AddRows(rows)
    {
      var i := 0;
      while i < |rows| && count < Discovery.MAX_NEIGHBORS
        invariant 0 <= i <= |rows| && Valid() && View() == AddRows(rows[..i])
      {
        assert rows[..i + 1][..i] == rows[..i];
        ReadRow(rows[i]);
        i := i + 1;
      }
      FullAddsNoRow(rows, i);
    }

    // Probing stops once the list is full.
    method ProbeHosts(replies: seq<Reply>)
      requires Valid()
      modifies this`count, items
      ensures Valid() && View() == AddReplies(old(View()), replies)
    {
      ghost var passive := View();
      var i := 0;
      while i < |replies| && count < Discovery.MAX_NEIGHBORS
        invariant 0 <= i <= |replies| && Valid() && View() == AddReplies(passive, replies[..i])
      {
        assert replies[..i + 1][..i] == replies[..i];
        AppendActive(replies[i]);
        i := i + 1;
      }
      FullAddsNoReply(passive, replies, i);
    }

    // The whole snapshot; without a table the list is left empty.
    method Collect(table: Option<seq<Row>>, replies: seq<Reply>) returns (status: Status)
      requires Valid()
      modifies this`count, items
      ensures Valid() && status == (if table.Some? then Ok else IoError)
      ensures View() == if table.Some? then Snapshot(table.value, replies) else []
    {
      count := 0;
      if table.None? { return IoError; }
      ReadTable(table.value);
      ProbeHosts(replies);
      ClearAmbiguousMacs();
      status := Ok;
    }
  }

  lemma {:induction false} FirstIp(items: seq<Neighbor>, i: nat, ip: string)
    requires i < |items| && items[i].ip == ip && ip != "" && FindIp(items[..i], ip) == -1
    ensures FindIp(items, ip) == i
  {
    if |items| > i + 1 {
      assert items[..|items| - 1][..i] == items[..i];
      FirstIp(items[..|items| - 1], i, ip);
    }
  }

  lemma {:induction false} FullAddsNoRow(rows: seq<Row>, i: nat)
    requires i <= |rows| && (i == |rows| || |AddRows(rows[..i])| == Discovery.MAX_NEIGHBORS)
    ensures AddRows(rows) == AddRows(rows[..i])
  {
    if i == |rows| {
      assert rows[..i] == rows;
    } else {
      assert rows[..|rows| - 1][..i] == rows[..i];
      FullAddsNoRow(rows[..|rows| - 1], i);
    }
  }

  lemma {:induction false} FullAddsNoReply(items: seq<Neighbor>, replies: seq<Reply>, i: nat)
    requires i <= |replies|
    requires i == |replies| || |AddReplies(items, replies[..i])| == Discovery.MAX_NEIGHBORS
    ensures AddReplies(items, replies) == AddReplies(items, replies[..i])
  {
    if i == |replies| {
      assert replies[..i] == replies;
    } else {
      assert replies[..|replies| - 1][..i] == replies[..i];
      FullAddsNoReply(items, replies[..|replies| - 1], i);
    }
  }

  // Entry k once the groups whose first member lies before index i have been blanked.
  ghost function ClearedBy(items: seq<Neighbor>, i: nat, k: nat): Neighbor
    requires i <= |items| && k < |items|
  {
    if Shared(items, k) && exists j :: 0 <= j < i && items[j].mac == items[k].mac
    then items[k].(mac := "") else items[k]
  }

  ghost predicate ClearedTo(items: seq<Neighbor>, i: nat, now: seq<Neighbor>) {
    i <= |items| == |now| && forall k | 0 <= k < |items| :: now[k] == ClearedBy(items, i, k)
  }

  // A later entry carries the MAC of entry i.
  ghost predicate Repeated(items: seq<Neighbor>, i: nat)
    requires i < |items|
  {
    exists k :: i < k < |items| && items[k].mac == items[i].mac
  }

  // The list with one MAC blanked from index i on.
  function Blanked(items: seq<Neighbor>, i: nat, mac: string): (r: seq<Neighbor>)
    ensures |r| == |items|
  {
    seq(|items|, k requires 0 <= k < |items| =>
      if k >= i && items[k].mac == mac then items[k].(mac := "") else items[k])
  }

  lemma {:induction false} ClearStep(items: seq<Neighbor>, i: nat, k: nat)
    requires i < |items| && k < |items|
    ensures ClearedBy(items, i, i).mac == "" ==> ClearedBy(items, i + 1, k) == ClearedBy(items, i, k)
    ensures ClearedBy(items, i, i).mac != "" ==>
              && (ClearedBy(items, i, k).mac == items[i].mac <==> k >= i && items[k].mac == items[i].mac)
              && ClearedBy(items, i + 1, k)
                 == if k >= i && items[k].mac == items[i].mac && Shared(items, i)
                    then items[k].(mac := "") else ClearedBy(items, i, k)
  {
  }

  // While entry i still has its MAC, every other carrier lies after it.
  lemma {:induction false} SharedIsRepeated(items: seq<Neighbor>, i: nat, now: seq<Neighbor>)
    requires ClearedTo(items, i, now) && i < |items| && now[i].mac != ""
    ensures Shared(items, i) <==> Repeated(now, i)
  {
    forall k | 0 <= k < |items|
      ensures now[k].mac == now[i].mac <==> k >= i && items[k].mac == items[i].mac
    {
      ClearStep(items, i, k);
    }
    if Shared(items, i) {
      var j :| 0 <= j < |items| && j != i && items[j].mac == items[i].mac;
      assert ClearedBy(items, i, i) == items[i] && j > i;
    }
  }

  lemma {:induction false} ClearOneGroup(items: seq<Neighbor>, i: nat, now: seq<Neighbor>)
    requires ClearedTo(items, i, now) && i < |items|
    ensures ClearedTo(items, i + 1, if now[i].mac != "" && Repeated(now, i) then Blanked(now, i, now[i].mac) else now)
  {
    if now[i].mac != "" { SharedIsRepeated(items, i, now); }
    var next := if now[i].mac != "" && Repeated(now, i) then Blanked(now, i, now[i].mac) else now;
    forall k | 0 <= k < |items| ensures next[k] == ClearedBy(items, i + 1, k) {
      ClearStep(items, i, k);
    }
  }

  lemma {:induction false} ClearedByAll(items: seq<Neighbor>)
    ensures forall now :: ClearedTo(items, |items|, now) ==> now == Cleared(items)
  {
    forall k | 0 <= k < |items| ensures ClearedBy(items, |items|, k) == Cleared(items)[k] {}
  }

  // ----- what the snapshot guarantees -----

  ghost predicate DistinctIps(items: seq<Neighbor>) {
    && (forall i | 0 <= i < |items| :: items[i].ip != "")
    && (forall i, j | 0 <= i < j < |items| :: items[i].ip != items[j].ip)
  }

  lemma {:induction false} NewAddressKeepsIpsDistinct(items: seq<Neighbor>, n: Neighbor)
    requires DistinctIps(items) && n.ip != "" && FindIp(items, n.ip) < 0
    ensures DistinctIps(items + [n])
  {
  }

  lemma {:induction false} RowsHaveDistinctIps(rows: seq<Row>)
    ensures DistinctIps(AddRows(rows)) && |AddRows(rows)| <= Discovery.MAX_NEIGHBORS
  {
    if rows != [] {
      var before, row := AddRows(rows[..|rows| - 1]), rows[|rows| - 1];
      RowsHaveDistinctIps(rows[..|rows| - 1]);
      if AddRow(before, row) != before { NewAddressKeepsIpsDistinct(before, row.entry); }
    }
  }

  lemma {:induction false} RepliesKeepIpsDistinct(items: seq<Neighbor>, replies: seq<Reply>)
    requires DistinctIps(items) && |items| <= Discovery.MAX_NEIGHBORS
    ensures DistinctIps(AddReplies(items, replies)) && |AddReplies(items, replies)| <= Discovery.MAX_NEIGHBORS
    ensures items <= AddReplies(items, replies)
  {
    if replies != [] {
      var before, reply := AddReplies(items, replies[..|replies| - 1]), replies[|replies| - 1];
      RepliesKeepIpsDistinct(items, replies[..|replies| - 1]);
      if AddReply(before, reply) != before { NewAddressKeepsIpsDistinct(before, reply.entry); }
    }
  }

  // For any rows and any replies: the addresses are distinct, an entry keeps its MAC exactly when no
  // other entry carried it, nothing else about it changes, and no two entries can be taken for the
  // same device. This is what reconciliation needs of its input.
  lemma {:induction false} SnapshotIsPairwiseNonMatching(rows: seq<Row>, replies: seq<Reply>)
    ensures var raw, s := AddReplies(AddRows(rows), replies), Snapshot(rows, replies);
            && |s| == |raw| <= Discovery.MAX_NEIGHBORS
            && DistinctIps(s)
            && (forall k | 0 <= k < |s| :: s[k] == raw[k].(mac := s[k].mac))
            && (forall k | 0 <= k < |s| ::
                  if forall j | 0 <= j < |raw| && j != k :: raw[j].mac != raw[k].mac
                  then s[k].mac == raw[k].mac else s[k].mac == "")
            && PairwiseNonMatching(s)
  {
    RowsHaveDistinctIps(rows);
    RepliesKeepIpsDistinct(AddRows(rows), replies);
    var raw, s := AddReplies(AddRows(rows), replies), Snapshot(rows, replies);
    forall i, j | 0 <= i < j < |s| ensures !Matches(s[i], s[j]) {
      assert raw[i].ip != raw[j].ip;
      assert s[i].mac != "" && s[j].mac != "" ==> raw[i].mac != raw[j].mac;
    }
  }

  // The two stages composed: whatever the table and the probes report, no retained slot takes over
  // more than one entry of the snapshot.
  lemma {:induction false} PollOfAnySnapshot(t: Discovery.Table, rows: seq<Row>, replies: seq<Reply>)
    requires Discovery.WellFormed(t)
    ensures var items := Snapshot(rows, replies);
            var start := Discovery.StartPass(t);
            DiscoveryLaws.Settled(start, Discovery.Reported(t, items), items,
                                  DiscoveryLaws.Choices(start, items, t.hasBaseline))
  {
    SnapshotIsPairwiseNonMatching(rows, replies);
    DiscoveryLaws.EachSlotAbsorbsAtMostOne(Discovery.StartPass(t), Snapshot(rows, replies), t.hasBaseline);
  }

  // Any snapshot lists a device once, so the laws of whole runs apply as far as no address comes both
  // with a MAC and without.
  lemma {:induction false} SnapshotIsIdentified(rows: seq<Row>, replies: seq<Reply>, bare: set<string>)
    requires forall k | 0 <= k < |Snapshot(rows, replies)| :: DiscoveryRuns.Consistent(Snapshot(rows, replies)[k], bare)
    ensures DiscoveryRuns.Identified(Snapshot(rows, replies), bare)
  {
    var s := Snapshot(rows, replies);
    SnapshotIsPairwiseNonMatching(rows, replies);
    forall i, j | 0 <= i < j < |s| ensures DiscoveryRuns.Id(s[i]) != DiscoveryRuns.Id(s[j]) {
      DiscoveryRuns.MatchesIsSameId(s[i], s[j], bare);
    }
  }

  // ----- which shared MACs are blanked -----

  // A reply never adds a MAC that is already listed.
  ghost predicate AddsNewMacs(items: seq<Neighbor>, raw: seq<Neighbor>) {
    && items <= raw
    && forall i, j | 0 <= i < j < |raw| && |items| <= j :: raw[j].mac == "" || raw[i].mac != raw[j].mac
  }

  lemma {:induction false} RepliesAddNewMacs(items: seq<Neighbor>, replies: seq<Reply>)
    ensures AddsNewMacs(items, AddReplies(items, replies))
  {
    if replies != [] {
      RepliesAddNewMacs(items, replies[..|replies| - 1]);
      NewMacIsAdded(items, AddReplies(items, replies[..|replies| - 1]), replies[|replies| - 1]);
    }
  }

  lemma {:induction false} NewMacIsAdded(items: seq<Neighbor>, before: seq<Neighbor>, reply: Reply)
    requires AddsNewMacs(items, before)
    ensures AddsNewMacs(items, AddReply(before, reply))
  {
    assert !HasMac(before, reply.entry.mac) ==>
        reply.entry.mac == "" || forall i | 0 <= i < |before| :: before[i].mac != reply.entry.mac;
  }

  lemma {:induction false} SharedStaysShared(items: seq<Neighbor>, raw: seq<Neighbor>, k: nat)
    requires AddsNewMacs(items, raw) && k < |raw|
    ensures Shared(raw, k) <==> k < |items| && Shared(items, k)
  {
    if k < |items| && Shared(items, k) {
      var j :| 0 <= j < |items| && j != k && items[j].mac == items[k].mac;
      assert raw[j].mac == raw[k].mac;
    }
    if Shared(raw, k) {
      var j :| 0 <= j < |raw| && j != k && raw[j].mac == raw[k].mac;
      assert j < |items| && k < |items|;
      assert items[j].mac == items[k].mac;
    }
  }

  // Two listed entries carry the MAC.
  ghost predicate Twice(items: seq<Neighbor>, mac: string) {
    mac != "" && exists i, j :: 0 <= i < j < |items| && items[i].mac == mac && items[j].mac == mac
  }

  lemma {:induction false} TwiceIsShared(items: seq<Neighbor>, k: nat)
    requires k < |items|
    ensures Shared(items, k) <==> Twice(items, items[k].mac)
  {
    if Shared(items, k) {
      var j :| 0 <= j < |items| && j != k && items[j].mac == items[k].mac;
      assert if j < k then items[j].mac == items[k].mac else items[k].mac == items[j].mac;
    }
    if Twice(items, items[k].mac) {
      var i, j :| 0 <= i < j < |items| && items[i].mac == items[k].mac && items[j].mac == items[k].mac;
      assert if i == k then j != k else i != k;
    }
  }

  // For any rows and replies, an entry is blanked exactly when two rows that were listed carry its
  // MAC. What the probes find never makes a MAC ambiguous.
  lemma {:induction false} BlankedExactlyWhenRowsShareIt(rows: seq<Row>, replies: seq<Reply>, k: nat)
    requires k < |Snapshot(rows, replies)|
    ensures var raw, s := AddReplies(AddRows(rows), replies), Snapshot(rows, replies);
            s[k] == if Twice(AddRows(rows), raw[k].mac) then raw[k].(mac := "") else raw[k]
  {
    var listed, raw := AddRows(rows), AddReplies(AddRows(rows), replies);
    RepliesAddNewMacs(listed, replies);
    SharedStaysShared(listed, raw, k);
    if k < |listed| {
      TwiceIsShared(listed, k);
    } else {
      assert !Twice(listed, raw[k].mac);
    }
  }

  // A live row or an answered reply shows the MAC at the address.
  ghost predicate ShownAt(rows: seq<Row>, replies: seq<Reply>, mac: string, ip: string) {
    || (exists i :: 0 <= i < |rows| && Listable(rows[i]) && rows[i].entry.mac == mac && rows[i].entry.ip == ip)
    || (exists i :: 0 <= i < |replies| && replies[i].answered && replies[i].entry.mac == mac
                    && replies[i].entry.ip == ip != "")
  }

  // A MAC seen at more than one address.
  ghost predicate Ambiguous(rows: seq<Row>, replies: seq<Reply>, mac: string) {
    mac != "" && exists a, b :: a != b && ShownAt(rows, replies, mac, a) && ShownAt(rows, replies, mac, b)
  }

  lemma {:induction false} VisibleIff(rows: seq<Row>, replies: seq<Reply>, mac: string)
    ensures HasMac(Snapshot(rows, replies), mac)
       <==> HasMac(AddReplies(AddRows(rows), replies), mac) && !Twice(AddRows(rows), mac)
  {
    var raw, s := AddReplies(AddRows(rows), replies), Snapshot(rows, replies);
    if HasMac(s, mac) {
      var k :| 0 <= k < |s| && s[k].mac == mac;
      BlankedExactlyWhenRowsShareIt(rows, replies, k);
      assert raw[k].mac == mac;
    }
    if HasMac(raw, mac) && !Twice(AddRows(rows), mac) {
      var k :| 0 <= k < |raw| && raw[k].mac == mac;
      BlankedExactlyWhenRowsShareIt(rows, replies, k);
      assert s[k].mac == mac;
    }
  }

  // ----- which rows and replies make it into the list -----

  // A listable row among the first n shows the address.
  ghost predicate RowSeen(rows: seq<Row>, n: nat, ip: string)
    requires n <= |rows|
  {
    exists i :: 0 <= i < n && Listable(rows[i]) && rows[i].entry.ip == ip
  }

  // The first listable row of its address.
  ghost predicate FirstOfAddress(rows: seq<Row>, i: nat)
    requires i < |rows|
  {
    Listable(rows[i]) && !RowSeen(rows, i, rows[i].entry.ip)
  }

  // How many addresses the first n rows list.
  ghost function Addresses(rows: seq<Row>, n: nat): nat
    requires n <= |rows|
  {
    if n == 0 then 0 else Addresses(rows, n - 1) + if FirstOfAddress(rows, n - 1) then 1 else 0
  }

  ghost predicate RowListed(rows: seq<Row>, i: nat)
    requires i < |rows|
  {
    FirstOfAddress(rows, i) && Addresses(rows, i) < Discovery.MAX_NEIGHBORS
  }

  // A listed row holds the address or the MAC.
  ghost predicate RowHolds(rows: seq<Row>, entry: Neighbor) {
    exists i :: 0 <= i < |rows| && RowListed(rows, i) && Collides(rows[i].entry, entry)
  }

  predicate Collides(a: Neighbor, b: Neighbor) { a.ip == b.ip || (b.mac != "" && a.mac == b.mac) }

  // How many entries the rows take up.
  ghost function RowsTaken(rows: seq<Row>): nat {
    if Addresses(rows, |rows|) < Discovery.MAX_NEIGHBORS then Addresses(rows, |rows|) else Discovery.MAX_NEIGHBORS
  }

  // An answered reply whose address and MAC neither a listed row nor an earlier listed reply holds,
  // while there is room.
  ghost predicate ReplyListed(rows: seq<Row>, replies: seq<Reply>, j: nat)
    requires j < |replies|
    decreases j, 1
  {
    && replies[j].answered && replies[j].entry.ip != "" && !RowHolds(rows, replies[j].entry)
    && (forall k | 0 <= k < j && ReplyListed(rows, replies, k) :: !Collides(replies[k].entry, replies[j].entry))
    && RowsTaken(rows) + RepliesListed(rows, replies, j) < Discovery.MAX_NEIGHBORS
  }

  ghost function RepliesListed(rows: seq<Row>, replies: seq<Reply>, n: nat): nat
    requires n <= |replies|
    decreases n, 0
  {
    if n == 0 then 0
    else RepliesListed(rows, replies, n - 1) + if ReplyListed(rows, replies, n - 1) then 1 else 0
  }

  ghost predicate FromRow(rows: seq<Row>, n: nat, entry: Neighbor)
    requires n <= |rows|
  {
    exists i :: 0 <= i < n && RowListed(rows, i) && rows[i].entry == entry
  }

  // What the first n rows have put into the list.
  ghost predicate RowsGive(rows: seq<Row>, n: nat, items: seq<Neighbor>)
    requires n <= |rows|
  {
    && (forall i | 0 <= i < n && RowListed(rows, i) :: rows[i].entry in items)
    && (forall k | 0 <= k < |items| :: FromRow(rows, n, items[k]))
    && |items| == if Addresses(rows, n) < Discovery.MAX_NEIGHBORS then Addresses(rows, n) else Discovery.MAX_NEIGHBORS
  }

  lemma {:induction false} FirstRowIsListed(rows: seq<Row>, n: nat, ip: string)
    requires n <= |rows| && RowSeen(rows, n, ip) && Addresses(rows, n) < Discovery.MAX_NEIGHBORS
    ensures exists i :: 0 <= i < n && RowListed(rows, i) && rows[i].entry.ip == ip
  {
    if RowSeen(rows, n - 1, ip) {
      FirstRowIsListed(rows, n - 1, ip);
    } else {
      assert RowListed(rows, n - 1);
    }
  }

  lemma {:induction false} AddressIsFound(items: seq<Neighbor>, ip: string)
    ensures FindIp(items, ip) >= 0 <==> ip != "" && exists k :: 0 <= k < |items| && items[k].ip == ip
  {
  }

  lemma {:induction false} RowIsAddedIff(rows: seq<Row>, n: nat, items: seq<Neighbor>)
    requires n < |rows| && RowsGive(rows, n, items)
    ensures AddRow(items, rows[n]) == if RowListed(rows, n) then items + [rows[n].entry] else items
  {
    var ip := rows[n].entry.ip;
    if |items| < Discovery.MAX_NEIGHBORS && Listable(rows[n]) {
      AddressIsFound(items, ip);
      if RowSeen(rows, n, ip) {
        FirstRowIsListed(rows, n, ip);
        var i :| 0 <= i < n && RowListed(rows, i) && rows[i].entry.ip == ip;
        assert rows[i].entry in items;
      }
    }
  }

  lemma {:induction false} OneRowSkipped(rows: seq<Row>, n: nat, items: seq<Neighbor>)
    requires n < |rows| && RowsGive(rows, n, items) && !RowListed(rows, n)
    ensures RowsGive(rows, n + 1, items)
  {
    forall k | 0 <= k < |items| ensures FromRow(rows, n + 1, items[k]) {
      assert FromRow(rows, n, items[k]);
    }
  }

  lemma {:induction false} OneRowMore(rows: seq<Row>, n: nat, items: seq<Neighbor>)
    requires n < |rows| && RowsGive(rows, n, items) && RowListed(rows, n)
    ensures RowsGive(rows, n + 1, items + [rows[n].entry])
  {
    var r := items + [rows[n].entry];
    forall k | 0 <= k < |r| ensures FromRow(rows, n + 1, r[k]) {
      if k < |items| {
        assert r[k] == items[k] && FromRow(rows, n, items[k]);
      } else {
        assert rows[n].entry == r[k];
      }
    }
    forall i | 0 <= i < n + 1 && RowListed(rows, i) ensures rows[i].entry in r {
      if i < n { assert rows[i].entry in items; } else { assert r[|items|] == rows[n].entry; }
    }
  }

  lemma {:induction false} OneMoreRow(rows: seq<Row>, n: nat, items: seq<Neighbor>)
    requires n < |rows| && RowsGive(rows, n, items)
    ensures RowsGive(rows, n + 1, AddRow(items, rows[n]))
  {
    RowIsAddedIff(rows, n, items);
    if RowListed(rows, n) { OneRowMore(rows, n, items); } else { OneRowSkipped(rows, n, items); }
  }

  lemma {:induction false} AddRowsNext(rows: seq<Row>, n: nat)
    requires n < |rows|
    ensures AddRows(rows[..n + 1]) == AddRow(AddRows(rows[..n]), rows[n])
  {
    assert rows[..n + 1][..n] == rows[..n];
  }

  lemma {:induction false} RowsGiveTheList(rows: seq<Row>, n: nat)
    requires n <= |rows|
    ensures RowsGive(rows, n, AddRows(rows[..n]))
  {
    if n == 0 {
      NoRowsGiveNothing(rows);
    } else {
      RowsGiveTheList(rows, n - 1);
      AddRowsNext(rows, n - 1);
      OneMoreRow(rows, n - 1, AddRows(rows[..n - 1]));
    }
  }

  lemma {:induction false} NoRowsGiveNothing(rows: seq<Row>)
    ensures RowsGive(rows, 0, AddRows(rows[..0]))
  {
  }

  // What the rows and the first n replies have put into the list.
  ghost predicate RepliesGive(rows: seq<Row>, replies: seq<Reply>, n: nat, items: seq<Neighbor>)
    requires n <= |replies|
  {
    && (forall i | 0 <= i < |rows| && RowListed(rows, i) :: rows[i].entry in items)
    && (forall j | 0 <= j < n && ReplyListed(rows, replies, j) :: replies[j].entry in items)
    && (forall k | 0 <= k < |items| ::
          FromRow(rows, |rows|, items[k]) || FromReply(rows, replies, n, items[k]))
    && |items| == RowsTaken(rows) + RepliesListed(rows, replies, n)
  }

  ghost predicate FromReply(rows: seq<Row>, replies: seq<Reply>, n: nat, entry: Neighbor)
    requires n <= |replies|
  {
    exists j :: 0 <= j < n && ReplyListed(rows, replies, j) && replies[j].entry == entry
  }

  // An entry of the list has the address or the MAC.
  ghost predicate ListHolds(items: seq<Neighbor>, entry: Neighbor) {
    exists k :: 0 <= k < |items| && Collides(items[k], entry)
  }

  lemma {:induction false} ListHoldsIff(items: seq<Neighbor>, entry: Neighbor)
    requires entry.ip != ""
    ensures ListHolds(items, entry) <==> HasMac(items, entry.mac) || FindIp(items, entry.ip) >= 0
  {
    AddressIsFound(items, entry.ip);
    if HasMac(items, entry.mac) {
      var k :| 0 <= k < |items| && items[k].mac == entry.mac;
      assert Collides(items[k], entry);
    }
    if FindIp(items, entry.ip) >= 0 {
      assert Collides(items[FindIp(items, entry.ip)], entry);
    }
  }

  lemma {:induction false} CollisionsAreKnown(rows: seq<Row>, replies: seq<Reply>, n: nat, items: seq<Neighbor>)
    requires n < |replies| && RepliesGive(rows, replies, n, items)
    ensures ListHolds(items, replies[n].entry)
       <==> RowHolds(rows, replies[n].entry)
            || exists k :: 0 <= k < n && ReplyListed(rows, replies, k) && Collides(replies[k].entry, replies[n].entry)
  {
    var e := replies[n].entry;
    if RowHolds(rows, e) {
      var i :| 0 <= i < |rows| && RowListed(rows, i) && Collides(rows[i].entry, e);
      assert rows[i].entry in items;
    }
    if k :| 0 <= k < n && ReplyListed(rows, replies, k) && Collides(replies[k].entry, e) {
      assert replies[k].entry in items;
    }
    if ListHolds(items, e) {
      var k :| 0 <= k < |items| && Collides(items[k], e);
      assert FromRow(rows, |rows|, items[k]) || FromReply(rows, replies, n, items[k]);
    }
  }

  lemma {:induction false} ReplyIsAddedIff(rows: seq<Row>, replies: seq<Reply>, n: nat, items: seq<Neighbor>)
    requires n < |replies| && RepliesGive(rows, replies, n, items)
    ensures AddReply(items, replies[n])
         == if ReplyListed(rows, replies, n) then items + [replies[n].entry] else items
  {
    if replies[n].entry.ip != "" {
      ListHoldsIff(items, replies[n].entry);
      CollisionsAreKnown(rows, replies, n, items);
    }
  }

  lemma {:induction false} OneMoreReply(rows: seq<Row>, replies: seq<Reply>, n: nat, items: seq<Neighbor>)
    requires n < |replies| && RepliesGive(rows, replies, n, items)
    ensures RepliesGive(rows, replies, n + 1, AddReply(items, replies[n]))
  {
    ReplyIsAddedIff(rows, replies, n, items);
    var r := AddReply(items, replies[n]);
    assert forall e: Neighbor :: e in items ==> e in r;
    forall j | 0 <= j < n + 1 && ReplyListed(rows, replies, j) ensures replies[j].entry in r {
      if j == n { assert r[|items|] == replies[n].entry; }
    }
    forall k | 0 <= k < |r| ensures FromRow(rows, |rows|, r[k]) || FromReply(rows, replies, n + 1, r[k]) {
      if k < |items| {
        assert r[k] == items[k];
        if FromReply(rows, replies, n, items[k]) { assert FromReply(rows, replies, n + 1, r[k]); }
      } else {
        assert replies[n].entry == r[k];
      }
    }
  }

  lemma {:induction false} RepliesGiveTheList(rows: seq<Row>, replies: seq<Reply>, n: nat)
    requires n <= |replies|
    ensures RepliesGive(rows, replies, n, AddReplies(AddRows(rows), replies[..n]))
  {
    if n == 0 {
      RowsGiveTheList(rows, |rows|);
      assert rows[..|rows|] == rows;
    } else {
      RepliesGiveTheList(rows, replies, n - 1);
      assert replies[..n][..n - 1] == replies[..n - 1];
      OneMoreReply(rows, replies, n - 1, AddReplies(AddRows(rows), replies[..n - 1]));
    }
  }

  // ----- where the entries of a snapshot come from -----

  // The neighbour state shows that the device answers: reachable, or being asked again.
  ghost predicate Answering(state: NeighborState) { state in {Reachable, Delay, Probe} }

  // An IPv4 address below 224.0.0.0 or an IPv6 address outside ff00::/8.
  ghost predicate OneHost(address: Address) {
    (address.V4? && address.value < 224 * 0x100_0000) || (address.V6? && address.firstByte != 0xFF)
  }

  ghost predicate VouchedByRow(rows: seq<Row>, entry: Neighbor) {
    exists i :: 0 <= i < |rows| && Answering(rows[i].state) && OneHost(rows[i].address) && rows[i].entry == entry
  }

  ghost predicate VouchedByReply(replies: seq<Reply>, entry: Neighbor) {
    exists j :: 0 <= j < |replies| && replies[j].answered && replies[j].entry == entry
  }

  lemma {:induction false} ListableIff(row: Row)
    ensures Listable(row) <==> Answering(row.state) && OneHost(row.address) && row.entry.ip != ""
  {
  }

  // Every entry of a snapshot is a live row of a single host or an answered probe, up to its MAC.
  lemma {:induction false} EntriesAreVouched(rows: seq<Row>, replies: seq<Reply>, k: nat)
    requires k < |Snapshot(rows, replies)|
    ensures var s := Snapshot(rows, replies);
            exists mac :: (mac == s[k].mac || s[k].mac == "")
                          && (VouchedByRow(rows, s[k].(mac := mac)) || VouchedByReply(replies, s[k].(mac := mac)))
  {
    var raw, s := AddReplies(AddRows(rows), replies), Snapshot(rows, replies);
    RepliesGiveTheList(rows, replies, |replies|);
    assert replies[..|replies|] == replies;
    assert s[k].(mac := raw[k].mac) == raw[k];
    if FromRow(rows, |rows|, raw[k]) {
      var i :| 0 <= i < |rows| && RowListed(rows, i) && rows[i].entry == raw[k];
      ListableIff(rows[i]);
    } else {
      assert FromReply(rows, replies, |replies|, raw[k]);
    }
  }

  // Conversely, every live row of a single host has its address listed, unless the list is full.
  lemma {:induction false} LiveRowsAreListed(rows: seq<Row>, replies: seq<Reply>, i: nat)
    requires i < |rows| && Answering(rows[i].state) && OneHost(rows[i].address) && rows[i].entry.ip != ""
    ensures var s := Snapshot(rows, replies);
            |s| >= 256 || exists k :: 0 <= k < |s| && s[k].ip == rows[i].entry.ip
  {
    var raw, s, ip := AddReplies(AddRows(rows), replies), Snapshot(rows, replies), rows[i].entry.ip;
    ListableIff(rows[i]);
    RepliesGiveTheList(rows, replies, |replies|);
    assert replies[..|replies|] == replies;
    if Addresses(rows, |rows|) < Discovery.MAX_NEIGHBORS {
      assert RowSeen(rows, |rows|, ip);
      FirstRowIsListed(rows, |rows|, ip);
      var j :| 0 <= j < |rows| && RowListed(rows, j) && rows[j].entry.ip == ip;
      assert rows[j].entry in raw;
      var k :| 0 <= k < |raw| && raw[k] == rows[j].entry;
      assert s[k].ip == ip;
    }
  }

  // Some listed row or reply carries the MAC, and two listed rows do.
  ghost predicate Carried(rows: seq<Row>, replies: seq<Reply>, mac: string) {
    || (exists i :: 0 <= i < |rows| && RowListed(rows, i) && rows[i].entry.mac == mac)
    || (exists j :: 0 <= j < |replies| && ReplyListed(rows, replies, j) && replies[j].entry.mac == mac)
  }

  ghost predicate TwoRowsCarry(rows: seq<Row>, mac: string) {
    exists i, j :: 0 <= i < j < |rows| && RowListed(rows, i) && RowListed(rows, j)
                   && rows[i].entry.mac == rows[j].entry.mac == mac
  }

  lemma {:induction false} CarriedIff(rows: seq<Row>, replies: seq<Reply>, mac: string)
    requires mac != ""
    ensures HasMac(AddReplies(AddRows(rows), replies), mac) <==> Carried(rows, replies, mac)
  {
    var raw := AddReplies(AddRows(rows), replies);
    RepliesGiveTheList(rows, replies, |replies|);
    assert replies[..|replies|] == replies;
    if HasMac(raw, mac) {
      var k :| 0 <= k < |raw| && raw[k].mac == mac;
      assert FromRow(rows, |rows|, raw[k]) || FromReply(rows, replies, |replies|, raw[k]);
    }
    if i :| 0 <= i < |rows| && RowListed(rows, i) && rows[i].entry.mac == mac {
      assert rows[i].entry in raw;
    }
    if j :| 0 <= j < |replies| && ReplyListed(rows, replies, j) && replies[j].entry.mac == mac {
      assert replies[j].entry in raw;
    }
  }

  lemma {:induction false} ListedRowsDiffer(rows: seq<Row>, i: nat, j: nat)
    requires i < j < |rows| && RowListed(rows, i) && RowListed(rows, j)
    ensures rows[i].entry.ip != rows[j].entry.ip
  {
  }

  lemma {:induction false} TwoEntriesTwoRows(rows: seq<Row>, a: Neighbor, b: Neighbor, mac: string)
    requires FromRow(rows, |rows|, a) && FromRow(rows, |rows|, b) && a.ip != b.ip && a.mac == b.mac == mac
    ensures TwoRowsCarry(rows, mac)
  {
    var i :| 0 <= i < |rows| && RowListed(rows, i) && rows[i].entry == a;
    var j :| 0 <= j < |rows| && RowListed(rows, j) && rows[j].entry == b;
    assert if i < j then rows[i].entry.mac == rows[j].entry.mac else rows[j].entry.mac == rows[i].entry.mac;
  }

  lemma {:induction false} TwoEntriesTwice(items: seq<Neighbor>, a: Neighbor, b: Neighbor, mac: string)
    requires a in items && b in items && a.ip != b.ip && a.mac == b.mac == mac != ""
    ensures Twice(items, mac)
  {
    var i :| 0 <= i < |items| && items[i] == a;
    var j :| 0 <= j < |items| && items[j] == b;
    assert if i < j then items[i].mac == mac && items[j].mac == mac else items[j].mac == mac && items[i].mac == mac;
  }

  lemma {:induction false} TwiceIff(rows: seq<Row>, mac: string)
    requires mac != ""
    ensures Twice(AddRows(rows), mac) <==> TwoRowsCarry(rows, mac)
  {
    var items := AddRows(rows);
    RowsGiveTheList(rows, |rows|);
    assert rows[..|rows|] == rows;
    if Twice(items, mac) {
      RowsHaveDistinctIps(rows);
      var a, b :| 0 <= a < b < |items| && items[a].mac == mac && items[b].mac == mac;
      TwoEntriesTwoRows(rows, items[a], items[b], mac);
    }
    if i, j :| 0 <= i < j < |rows| && RowListed(rows, i) && RowListed(rows, j)
               && rows[i].entry.mac == rows[j].entry.mac == mac {
      ListedRowsDiffer(rows, i, j);
      TwoEntriesTwice(items, rows[i].entry, rows[j].entry, mac);
    }
  }

  // Every MAC seen at more than one address is blanked exactly when each such MAC is carried by two
  // listed rows of the table or by no listed row and no listed reply at all.
  lemma {:induction false} AmbiguousMacsAreBlankedIff(rows: seq<Row>, replies: seq<Reply>)
    ensures (forall mac | Ambiguous(rows, replies, mac) :: !HasMac(Snapshot(rows, replies), mac))
       <==> (forall mac | Ambiguous(rows, replies, mac) ::
               TwoRowsCarry(rows, mac) || !Carried(rows, replies, mac))
  {
    forall mac | Ambiguous(rows, replies, mac)
      ensures !HasMac(Snapshot(rows, replies), mac) <==> TwoRowsCarry(rows, mac) || !Carried(rows, replies, mac)
    {
      VisibleIff(rows, replies, mac);
      CarriedIff(rows, replies, mac);
      TwiceIff(rows, mac);
    }
  }

  // Of all the hosts that answer with one MAC, the list holds at most one that a probe has added.
  lemma {:induction false} ProbesListOneHostPerMac(rows: seq<Row>, replies: seq<Reply>, i: nat, j: nat)
    requires i < j < |Snapshot(rows, replies)| && |AddRows(rows)| <= j
    ensures var s := Snapshot(rows, replies); s[j].mac == "" || s[i].mac != s[j].mac
  {
    RepliesAddNewMacs(AddRows(rows), replies);
    BlankedExactlyWhenRowsShareIt(rows, replies, i);
    BlankedExactlyWhenRowsShareIt(rows, replies, j);
  }

  lemma {:induction false} OneRow(row: Row)
    requires Listable(row)
    ensures AddRows([row]) == [row.entry]
  {
    assert [row][..0] == [];
  }

  // A MAC at two addresses, both from the table, is blanked.
  lemma {:induction false} SharedMacInTableIsBlanked(rows: seq<Row>, replies: seq<Reply>, i: nat, j: nat)
    requires i < j < |AddRows(rows)| && AddRows(rows)[i].mac == AddRows(rows)[j].mac
    ensures var s := Snapshot(rows, replies); j < |s| && s[i].mac == s[j].mac == ""
  {
    RowsHaveDistinctIps(rows);
    RepliesKeepIpsDistinct(AddRows(rows), replies);
    BlankedExactlyWhenRowsShareIt(rows, replies, i);
    BlankedExactlyWhenRowsShareIt(rows, replies, j);
  }

  // When the second address comes from a probe the MAC is kept and the host at that address is not
  // listed.
  lemma {:induction false} SharedMacInReplyIsKept(row: Row, reply: Reply)
    requires Listable(row) && reply.answered && reply.entry.ip != ""
    requires row.entry.ip != reply.entry.ip && row.entry.mac == reply.entry.mac != ""
    ensures Ambiguous([row], [reply], row.entry.mac) && Snapshot([row], [reply]) == [row.entry]
  {
    var rows, replies, a, b := [row], [reply], row.entry, reply.entry;
    assert rows[0] == row && replies[0] == reply;
    assert ShownAt(rows, replies, a.mac, a.ip) && ShownAt(rows, replies, a.mac, b.ip);
    OneRow(row);
    assert replies[..0] == [];
    assert [a][0].mac == b.mac;
    assert AddReplies([a], replies) == [a];
  }
}
