// The walk over a DNS response in search of a host name: sections 4.1.1 to 4.1.3 of RFC 1035.

module DnsResponse {
  import opened DnsName
  import opened Options
  import opened Slices

  const HEADER := 12
  const PTR := 12

  // One resource record: its type, where its data lies and where the next record starts.
  datatype Record = Record(kind: nat, data: nat, next: nat)

  function U16(p: seq<byte>, offset: nat): nat
    requires offset + 2 <= |p|
  {
    p[offset] as int * 256 + p[offset + 1]
  }

  // ----- what the walk means -----

  function QuestionEnd(p: seq<byte>, offset: nat): Option<nat> {
    var s := Skip(p, offset, MAX_STEPS);
    if s.SkipFails? || s.end + 4 > |p| then None else Some(s.end + 4)
  }

  function QuestionsEnd(p: seq<byte>, offset: nat, count: nat): Option<nat>
    decreases count
  {
    if count == 0 then Some(offset)
    else
      match QuestionEnd(p, offset)
      case None => None
      case Some(next) => QuestionsEnd(p, next, count - 1)
  }

  function RecordAt(p: seq<byte>, offset: nat): Option<Record> {
    var s := Skip(p, offset, MAX_STEPS);
    if s.SkipFails? || s.end + 10 > |p| then None
    else
      var data, length := s.end + 10, U16(p, s.end + 8);
      if data + length > |p| then None else Some(Record(U16(p, s.end), data, data + length))
  }

  // The records from an offset on, up to the first malformed one.
  function Records(p: seq<byte>, offset: nat, count: nat): (r: seq<Record>)
    ensures |r| <= count
    decreases count
  {
    if count == 0 then []
    else
      match RecordAt(p, offset)
      case None => []
      case Some(r) => [r] + Records(p, r.next, count - 1)
  }

  predicate Names(p: seq<byte>, r: Record, cap: nat) {
    r.kind == PTR && Reads(p, r.data, cap)
  }

  // Position of the first record that yields a name.
  function FirstName(p: seq<byte>, records: seq<Record>, cap: nat): (i: int)
    ensures -1 <= i < |records|
    ensures i >= 0 ==> Names(p, records[i], cap)
    ensures forall j | 0 <= j < (if i < 0 then |records| else i) :: !Names(p, records[j], cap)
  {
    if records == [] then -1
    else if Names(p, records[0], cap) then 0
    else
      var rest := FirstName(p, records[1..], cap);
      if rest < 0 then -1 else rest + 1
  }

  function QuestionCount(p: seq<byte>): nat
    requires |p| >= HEADER
  {
    U16(p, 4)
  }

  function RecordCount(p: seq<byte>): nat
    requires |p| >= HEADER
  {
    U16(p, 6) + U16(p, 8) + U16(p, 10)
  }

  function RecordsAfter(p: seq<byte>, questionsEnd: Option<nat>, count: nat): seq<Record> {
    if questionsEnd.None? then [] else Records(p, questionsEnd.value, count)
  }

  // All records of a response in answer, authority, additional order; none if its questions are bad.
  function AllRecords(p: seq<byte>): seq<Record> {
    if |p| < HEADER then []
    else RecordsAfter(p, QuestionsEnd(p, HEADER, QuestionCount(p)), RecordCount(p))
  }

  method SkipQuestions(p: seq<byte>, count: nat) returns (ok: bool, offset: nat)
    requires |p| >= HEADER
    ensures ok <==> QuestionsEnd(p, HEADER, count).Some?
    ensures ok ==> offset == QuestionsEnd(p, HEADER, count).value
  {
    offset := HEADER;
    var i := 0;
    while i < count
      invariant 0 <= i <= count
      invariant QuestionsEnd(p, offset, count - i) == QuestionsEnd(p, HEADER, count)
    {
      var skipped;
      skipped, offset := SkipName(p, offset);
      if !skipped || offset + 4 > |p| { return false, offset; }
      offset := offset + 4;
      i := i + 1;
    }
    ok := true;
  }

  // The record that yields the name, if any does.
  function NamingRecord(p: seq<byte>, records: seq<Record>, cap: nat): Option<Record> {
    var i := FirstName(p, records, cap);
    if i < 0 then None else Some(records[i])
  }

  // The pointer record that was read last, whether its name could be read or not.
  function LastTried(p: seq<byte>, records: seq<Record>, cap: nat): Option<Record> {
    if records == [] then None
    else if Names(p, records[0], cap) then Some(records[0])
    else
      var later := LastTried(p, records[1..], cap);
      if later.None? && records[0].kind == PTR then Some(records[0]) else later
  }

  // The record read last, when one has been tried before the search goes on.
  function TriedSince(tried: Option<Record>, later: Option<Record>): Option<Record> {
    if later.Some? then later else tried
  }

  datatype Walked = Walked(found: Option<Record>, tried: Option<Record>)

  // The search loop from any of its states on.
  function WalkOn(p: seq<byte>, offset: nat, left: nat, cap: nat, tried: Option<Record>): Walked
    decreases left
  {
    if left == 0 then Walked(None, tried)
    else
      match RecordAt(p, offset)
      case None => Walked(None, tried)
      case Some(r) =>
        var now := if r.kind == PTR then Some(r) else tried;
        if Names(p, r, cap) then Walked(Some(r), now) else WalkOn(p, r.next, left - 1, cap, now)
  }

  lemma {:induction false} OneRecordMore(p: seq<byte>, r: Record, rest: seq<Record>, cap: nat, tried: Option<Record>)
    ensures var now := if r.kind == PTR then Some(r) else tried;
            Walked(NamingRecord(p, [r] + rest, cap), TriedSince(tried, LastTried(p, [r] + rest, cap)))
            == if Names(p, r, cap) then Walked(Some(r), now)
               else Walked(NamingRecord(p, rest, cap), TriedSince(now, LastTried(p, rest, cap)))
  {
    assert ([r] + rest)[1..] == rest;
  }

  lemma {:induction false} WalkOnFinds(p: seq<byte>, offset: nat, left: nat, cap: nat, tried: Option<Record>)
    ensures var rest := Records(p, offset, left);
            WalkOn(p, offset, left, cap, tried)
            == Walked(NamingRecord(p, rest, cap), TriedSince(tried, LastTried(p, rest, cap)))
    decreases left
  {
    if left > 0 && RecordAt(p, offset).Some? {
      var r := RecordAt(p, offset).value;
      assert Records(p, offset, left) == [r] + Records(p, r.next, left - 1);
      OneRecordMore(p, r, Records(p, r.next, left - 1), cap, tried);
      WalkOnFinds(p, r.next, left - 1, cap, if r.kind == PTR then Some(r) else tried);
    }
  }

  // Reads the fixed part of the record at an offset.
  method ReadRecord(p: seq<byte>, start: nat) returns (ok: bool, r: Record)
    ensures ok <==> RecordAt(p, start).Some?
    ensures ok ==> RecordAt(p, start) == Some(r)
  {
    r := Record(0, 0, 0);
    var offset;
    ok, offset := SkipName(p, start);
    if !ok || offset + 10 > |p| { return false, r; }
    r := Record(U16(p, offset), offset + 10, offset + 10 + U16(p, offset + 8));
    ok := r.next <= |p|;
  }

  // What a walk leaves in the buffer: nothing new if no pointer record was read, else the text of the
  // one read last, terminated.
  ghost predicate Leaves(p: seq<byte>, tried: Option<Record>, before: seq<byte>, now: seq<byte>, outLen: nat) {
    match tried
    case None => now == before
    case Some(r) => outLen < |now| && now[..outLen] == LeftText(p, r.data, |now|) && now[outLen] == 0
  }

  // Reads the name of a pointer record; other records have none and leave the buffer alone.
  method TryName(p: seq<byte>, r: Record, out: array<byte>, before: nat, ghost tried: Option<Record>,
                 ghost orig: seq<byte>) returns (ok: bool, outLen: nat, ghost now: Option<Record>)
    requires out.Length > 0 && Leaves(p, tried, orig, out[..], before)
    modifies out
    ensures ok <==> Names(p, r, out.Length)
    ensures now == (if r.kind == PTR then Some(r) else tried) && Leaves(p, now, orig, out[..], outLen)
  {
    ok, outLen, now := false, before, tried;
    if r.kind == PTR {
      var end;
      ok, end, outLen := ReadName(p, r.data, out);
      now := Some(r);
    }
  }

  // Searches the records. ok tells whether one of them yields a name; out holds what was read last.
  method SearchRecords(p: seq<byte>, start: nat, count: nat, out: array<byte>) returns (ok: bool, outLen: nat)
    requires out.Length > 0
    modifies out
    ensures ok <==> NamingRecord(p, Records(p, start, count), out.Length).Some?
    ensures Leaves(p, LastTried(p, Records(p, start, count), out.Length), old(out[..]), out[..], outLen)
  {
    ghost var orig, cap, tried := out[..], out.Length, None;
    WalkOnFinds(p, start, count, cap, None);
    var offset: nat := start;
    ok, outLen := false, 0;
    var i := 0;
    while i < count
      invariant 0 <= i <= count && !ok
      invariant WalkOn(p, offset, count - i, cap, tried) == WalkOn(p, start, count, cap, None)
      invariant Leaves(p, tried, orig, out[..], outLen)
    {
      var valid, r;
      valid, r := ReadRecord(p, offset);
      if !valid { return; }
      ok, outLen, tried := TryName(p, r, out, outLen, tried, orig);
      if ok { return; }
      offset := r.next;
      i := i + 1;
    }
  }

  // The walk over a received packet. The callers take what is in the buffer afterwards, so it matters
  // what a walk without success leaves there.
  method FindHostName(p: seq<byte>, out: array<byte>) returns (ok: bool, outLen: nat)
    requires out.Length > 0
    modifies out
    ensures ok <==> NamingRecord(p, AllRecords(p), out.Length).Some?
    ensures Leaves(p, LastTried(p, AllRecords(p), out.Length), old(out[..]), out[..], outLen)
    ensures old(out[0]) == 0 ==> UpToNul(out[..]) == SeenAfter(p, out.Length)
  {
    ok, outLen := WalkPacket(p, out);
    ghost var before := old(out[..]);
    if before[0] == 0 { LeavesIsSeen(p, before, out[..], outLen); }
  }

  method WalkPacket(p: seq<byte>, out: array<byte>) returns (ok: bool, outLen: nat)
    requires out.Length > 0
    modifies out
    ensures ok <==> NamingRecord(p, AllRecords(p), out.Length).Some?
    ensures Leaves(p, LastTried(p, AllRecords(p), out.Length), old(out[..]), out[..], outLen)
  {
    ok, outLen := false, 0;
    if |p| < HEADER { return; }
    var offset;
    ok, offset := SkipQuestions(p, QuestionCount(p));
    if !ok { return false, 0; }
    ok, outLen := SearchRecords(p, offset, RecordCount(p), out);
  }

  // A successful walk ends with the record that yields the name.
  lemma {:induction false} NamedIsTriedLast(p: seq<byte>, records: seq<Record>, cap: nat)
    requires NamingRecord(p, records, cap).Some?
    ensures LastTried(p, records, cap) == NamingRecord(p, records, cap)
  {
    if !Names(p, records[0], cap) {
      NamedIsTriedLast(p, records[1..], cap);
    }
  }

  lemma {:induction false} TriedIsLastPointer(p: seq<byte>, records: seq<Record>, cap: nat)
    requires NamingRecord(p, records, cap).None?
    ensures match LastTried(p, records, cap)
            case None => forall i | 0 <= i < |records| :: records[i].kind != PTR
            case Some(r) => exists i :: 0 <= i < |records| && records[i] == r && IsLastPointer(records, i)
  {
    if records != [] {
      var rest := records[1..];
      assert FirstName(p, rest, cap) < 0;
      TriedIsLastPointer(p, rest, cap);
      match LastTried(p, rest, cap)
      case None =>
        assert forall j | 1 <= j < |records| :: records[j] == rest[j - 1];
      case Some(r) =>
        var i :| 0 <= i < |rest| && rest[i] == r && IsLastPointer(rest, i);
        assert records[i + 1] == r;
        assert forall j | i + 1 < j < |records| :: records[j] == rest[j - 1];
        assert IsLastPointer(records, i + 1);
    }
  }

  // The text in a caller's empty buffer after a walk.
  function TextAfter(p: seq<byte>, cap: nat): seq<byte>
    requires cap > 0
  {
    var tried := LastTried(p, AllRecords(p), cap);
    if tried.None? then [] else LeftText(p, tried.value.data, cap)
  }

  // The text a caller sees in that buffer, which ends at its first NUL even when a label holds one.
  function SeenAfter(p: seq<byte>, cap: nat): seq<byte>
    requires cap > 0
  {
    UpToNul(TextAfter(p, cap))
  }

  // The first label begins with something other than a NUL.
  predicate BeginsVisibly(labels: seq<Label>) {
    labels != [] && labels[0] != [] && labels[0][0] != 0
  }

  // Record i is the last pointer record of all.
  ghost predicate IsLastPointer(records: seq<Record>, i: nat) {
    i < |records| && records[i].kind == PTR && forall j | i < j < |records| :: records[j].kind != PTR
  }

  // A caller that ignores the status and looks at the buffer sees the name up to its first NUL after a
  // success, and after a failure what could be read of the last pointer record. Either way it sees a
  // text exactly when the labels passed over there begin with something other than a NUL.
  lemma {:induction false} CallerSeesTextIff(p: seq<byte>, cap: nat)
    requires cap > 1
    ensures match NamingRecord(p, AllRecords(p), cap)
            case Some(r) =>
              && SeenAfter(p, cap) == UpToNul(ReadText(p, r.data, cap))
              && (SeenAfter(p, cap) != [] <==> BeginsVisibly(Decode(p, r.data, MAX_STEPS).labels))
            case None =>
              SeenAfter(p, cap) != [] <==>
                exists i :: 0 <= i < |AllRecords(p)| && IsLastPointer(AllRecords(p), i)
                  && BeginsVisibly(Collected(p, AllRecords(p)[i].data, MAX_STEPS))
  {
    var all := AllRecords(p);
    match NamingRecord(p, all, cap)
    case Some(r) =>
      NamedIsTriedLast(p, all, cap);
      DecodedIsCollected(p, r.data, MAX_STEPS);
      LeftTextIsSeen(p, r.data, cap);
    case None =>
      TriedIsLastPointer(p, all, cap);
      if LastTried(p, all, cap).Some? { LeftTextIsSeen(p, LastTried(p, all, cap).value.data, cap); }
  }

  lemma {:induction false} LeftTextIsSeen(p: seq<byte>, offset: nat, cap: nat)
    requires cap > 1
    ensures UpToNul(LeftText(p, offset, cap)) != [] <==> BeginsVisibly(Collected(p, offset, MAX_STEPS))
  {
    LabelsHaveLetters(p, offset, MAX_STEPS);
    JoinBegins(Collected(p, offset, MAX_STEPS));
  }

  // The buffer after a walk over a caller's empty one shows exactly that text.
  lemma {:induction false} LeavesIsSeen(p: seq<byte>, before: seq<byte>, now: seq<byte>, outLen: nat)
    requires |now| > 0 && |before| == |now| && before[0] == 0
    requires Leaves(p, LastTried(p, AllRecords(p), |now|), before, now, outLen)
    ensures UpToNul(now) == SeenAfter(p, |now|)
  {
    if LastTried(p, AllRecords(p), |now|).Some? { UpToNulOfStart(now, outLen); }
  }

  // One pointer record whose data is a label holding a NUL and then a reserved octet. The read fails,
  // the label is left in the buffer, and still no text is seen.
  lemma {:induction false} NulLabelIsNotSeen()
    ensures var p: seq<byte> := [0, 0, 0, 0, 0, 0, 0, 1, 0, 0, 0, 0, 0, 0, 12, 0, 1, 0, 0, 0, 0, 0, 3, 1, 0, 64];
            NamingRecord(p, AllRecords(p), 64).None? && TextAfter(p, 64) == [0] && SeenAfter(p, 64) == []
  {
    var p: seq<byte> := [0, 0, 0, 0, 0, 0, 0, 1, 0, 0, 0, 0, 0, 0, 12, 0, 1, 0, 0, 0, 0, 0, 3, 1, 0, 64];
    var r := Record(PTR, 23, 26);
    assert RecordAt(p, 12) == Some(r);
    RecordsStep(p, 12, 1);
    assert AllRecords(p) == [r];
    assert p[24..25] == [0];
    assert Collected(p, 23, MAX_STEPS) == [[0]];
    assert Decode(p, 25, 127).Malformed?;
  }

  lemma {:induction false} RecordLiesAhead(p: seq<byte>, offset: nat)
    requires RecordAt(p, offset).Some?
    ensures var r := RecordAt(p, offset).value;
            offset < r.data <= r.next <= |p|
  {
    SkipMovesForwardInBounds(p, offset, MAX_STEPS);
  }

  lemma {:induction false} RecordsStep(p: seq<byte>, offset: nat, count: nat)
    requires count > 0 && RecordAt(p, offset).Some?
    ensures var r := RecordAt(p, offset).value;
            Records(p, offset, count) == [r] + Records(p, r.next, count - 1)
  {
  }

  ghost predicate InOrder(all: seq<Record>, offset: nat, limit: nat) {
    && (forall i | 0 <= i < |all| :: offset < all[i].data <= all[i].next <= limit)
    && (forall i, j | 0 <= i < j < |all| :: all[i].next < all[j].data)
  }

  lemma {:induction false} InOrderStep(r: Record, rest: seq<Record>, offset: nat, limit: nat)
    requires offset < r.data <= r.next <= limit && InOrder(rest, r.next, limit)
    ensures InOrder([r] + rest, offset, limit)
  {
  }

  // The walk only moves forward and stays inside the packet.
  lemma {:induction false} RecordsLieInOrder(p: seq<byte>, offset: nat, count: nat)
    ensures InOrder(Records(p, offset, count), offset, |p|)
    decreases count
  {
    if count > 0 && RecordAt(p, offset).Some? {
      var r := RecordAt(p, offset).value;
      RecordLiesAhead(p, offset);
      RecordsStep(p, offset, count);
      RecordsLieInOrder(p, r.next, count - 1);
      InOrderStep(r, Records(p, r.next, count - 1), offset, |p|);
    }
  }

  // ----- finding the name in an encoded response -----

  // A name on the wire: labels, then either the terminator or a pointer.
  datatype WireName = WireName(labels: seq<Label>, ending: Ending)
  datatype Ending = Root | Pointer(target: nat)

  datatype Question = Question(name: WireName, fixed: seq<byte>)
  datatype Resource = Resource(owner: WireName, kind: nat, classAndTtl: seq<byte>, data: seq<byte>)
  datatype Message = Message(id: seq<byte>, questions: seq<Question>, answers: seq<Resource>,
                             authorities: seq<Resource>, additionals: seq<Resource>)

  ghost predicate ValidName(n: WireName) {
    ValidLabels(n.labels) && |n.labels| < MAX_STEPS && (n.ending.Pointer? ==> n.ending.target < 0x4000)
  }

  ghost predicate ValidResource(r: Resource) {
    ValidName(r.owner) && r.kind < 0x10000 && |r.classAndTtl| == 6 && |r.data| < 0x10000
  }

  ghost predicate ValidResources(rs: seq<Resource>) {
    forall k | 0 <= k < |rs| :: ValidResource(rs[k])
  }

  ghost predicate ValidMessage(m: Message) {
    && |m.id| == 4 && |m.questions| < 0x10000
    && |m.answers| < 0x10000 && |m.authorities| < 0x10000 && |m.additionals| < 0x10000
    && (forall k | 0 <= k < |m.questions| :: ValidName(m.questions[k].name) && |m.questions[k].fixed| == 4)
    && ValidResources(Resources(m))
  }

  function Resources(m: Message): seq<Resource> {
    m.answers + m.authorities + m.additionals
  }

  function Bytes16(n: nat): seq<byte>
    requires n < 0x10000
  {
    [n / 256, n % 256]
  }

  function EncodeEnding(e: Ending): seq<byte>
    requires e.Pointer? ==> e.target < 0x4000
  {
    if e.Root? then [0] else Bytes16(0xC000 + e.target)
  }

  function EncodeName(n: WireName): seq<byte>
    requires ValidName(n)
  {
    EncodeLabels(n.labels) + EncodeEnding(n.ending)
  }

  function EncodeResource(r: Resource): seq<byte>
    requires ValidResource(r)
  {
    EncodeName(r.owner) + (Bytes16(r.kind) + r.classAndTtl + Bytes16(|r.data|) + r.data)
  }

  function EncodeResources(rs: seq<Resource>): seq<byte>
    requires ValidResources(rs)
  {
    if rs == [] then [] else EncodeResource(rs[0]) + EncodeResources(rs[1..])
  }

  function EncodeQuestions(qs: seq<Question>): seq<byte>
    requires forall k | 0 <= k < |qs| :: ValidName(qs[k].name) && |qs[k].fixed| == 4
  {
    if qs == [] then [] else (EncodeName(qs[0].name) + qs[0].fixed) + EncodeQuestions(qs[1..])
  }

  function EncodeHeader(m: Message): (h: seq<byte>)
    requires ValidMessage(m)
    ensures |h| == HEADER
  {
    m.id + Bytes16(|m.questions|) + Bytes16(|m.answers|) + Bytes16(|m.authorities|) + Bytes16(|m.additionals|)
  }

  function EncodeMessage(m: Message): seq<byte>
    requires ValidMessage(m)
  {
    EncodeHeader(m) + (EncodeQuestions(m.questions) + EncodeResources(Resources(m)))
  }

  lemma {:induction false} Holds16(p: seq<byte>, pos: nat, n: nat)
    requires n < 0x10000 && HoldsAt(p, pos, Bytes16(n))
    ensures U16(p, pos) == n
  {
    assert p[pos + 0] == Bytes16(n)[0] && p[pos + 1] == Bytes16(n)[1];
    assert p[pos + 0] == n / 256 && p[pos + 1] == n % 256;
  }

  lemma {:induction false} SkipsEnding(p: seq<byte>, pos: nat, e: Ending, steps: nat)
    requires (e.Pointer? ==> e.target < 0x4000) && HoldsAt(p, pos, EncodeEnding(e)) && steps > 0
    ensures Skip(p, pos, steps) == SkipTo(pos + |EncodeEnding(e)|)
  {
    assert p[pos + 0] == EncodeEnding(e)[0];
  }

  lemma {:induction false} SkipsEncoded(p: seq<byte>, pos: nat, labels: seq<Label>, e: Ending, steps: nat)
    requires ValidLabels(labels) && (e.Pointer? ==> e.target < 0x4000) && steps > |labels|
    requires HoldsAt(p, pos, EncodeLabels(labels) + EncodeEnding(e))
    ensures Skip(p, pos, steps) == SkipTo(pos + |EncodeLabels(labels)| + |EncodeEnding(e)|)
    decreases |labels|
  {
    if labels == [] {
      assert EncodeLabels(labels) + EncodeEnding(e) == EncodeEnding(e);
      SkipsEnding(p, pos, e, steps);
    } else {
      var head, rest := labels[0], labels[1..];
      Associative([|head|] + head, EncodeLabels(rest), EncodeEnding(e));
      HoldsParts(p, pos, |head|, head, EncodeLabels(rest) + EncodeEnding(e));
      SkipsEncoded(p, pos + 1 + |head|, rest, e, steps - 1);
    }
  }

  lemma {:induction false} SkipsEncodedName(p: seq<byte>, pos: nat, n: WireName)
    requires ValidName(n) && HoldsAt(p, pos, EncodeName(n))
    ensures Skip(p, pos, MAX_STEPS) == SkipTo(pos + |EncodeName(n)|)
  {
    SkipsEncoded(p, pos, n.labels, n.ending, MAX_STEPS);
  }

  lemma {:induction false} ReadsEncodedResource(p: seq<byte>, pos: nat, r: Resource)
    requires ValidResource(r) && HoldsAt(p, pos, EncodeResource(r))
    ensures var at := RecordAt(p, pos);
            && at.Some? && at.value.kind == r.kind && HoldsAt(p, at.value.data, r.data)
            && at.value.data == pos + |EncodeName(r.owner)| + 10
            && at.value.next == pos + |EncodeResource(r)|
  {
    var name, end := EncodeName(r.owner), pos + |EncodeName(r.owner)|;
    var fixed := Bytes16(r.kind) + r.classAndTtl + Bytes16(|r.data|);
    HoldsConcat(p, pos, name, fixed + r.data);
    HoldsConcat(p, end, fixed, r.data);
    HoldsConcat(p, end, Bytes16(r.kind) + r.classAndTtl, Bytes16(|r.data|));
    HoldsConcat(p, end, Bytes16(r.kind), r.classAndTtl);
    SkipsEncodedName(p, pos, r.owner);
    Holds16(p, end, r.kind);
    Holds16(p, end + 8, |r.data|);
  }

  lemma {:induction false} LaidStep(p: seq<byte>, pos: nat, first: Record, rest: seq<Record>, rs: seq<Resource>)
    requires rs != [] && ValidResources(rs)
    requires Laid(p, pos + |EncodeResource(rs[0])|, rest, rs[1..])
    requires first.kind == rs[0].kind && HoldsAt(p, first.data, rs[0].data) && first.data == DataAt(rs, pos, 0)
    ensures Laid(p, pos, [first] + rest, rs)
  {
    var all := [first] + rest;
    forall k | 0 <= k < |rs|
      ensures all[k].kind == rs[k].kind && all[k].data == DataAt(rs, pos, k) && HoldsAt(p, all[k].data, rs[k].data)
    {
      if k > 0 { assert all[k] == rest[k - 1] && rs[k] == rs[1..][k - 1]; }
    }
  }

  lemma {:induction false} FirstIsLaid(p: seq<byte>, pos: nat, rs: seq<Resource>)
    requires ValidResources(rs) && rs != [] && HoldsAt(p, pos, EncodeResource(rs[0]))
    ensures var at := RecordAt(p, pos);
            && at.Some? && at.value.next == pos + |EncodeResource(rs[0])|
            && at.value.kind == rs[0].kind && at.value.data == DataAt(rs, pos, 0)
            && HoldsAt(p, at.value.data, rs[0].data)
  {
    ReadsEncodedResource(p, pos, rs[0]);
  }

  lemma {:induction false} OneMoreLaid(p: seq<byte>, pos: nat, rs: seq<Resource>)
    requires ValidResources(rs) && rs != [] && HoldsAt(p, pos, EncodeResource(rs[0]))
    requires var next := pos + |EncodeResource(rs[0])|; Laid(p, next, Records(p, next, |rs| - 1), rs[1..])
    ensures Laid(p, pos, Records(p, pos, |rs|), rs)
  {
    FirstIsLaid(p, pos, rs);
    RecordsStep(p, pos, |rs|);
    var first := RecordAt(p, pos).value;
    LaidStep(p, pos, first, Records(p, first.next, |rs| - 1), rs);
  }

  lemma {:induction false} ReadsEncodedResources(p: seq<byte>, pos: nat, rs: seq<Resource>)
    requires ValidResources(rs)
    requires HoldsAt(p, pos, EncodeResources(rs))
    ensures Laid(p, pos, Records(p, pos, |rs|), rs)
    decreases |rs|
  {
    if rs != [] {
      HoldsConcat(p, pos, EncodeResource(rs[0]), EncodeResources(rs[1..]));
      ReadsEncodedResources(p, pos + |EncodeResource(rs[0])|, rs[1..]);
      OneMoreLaid(p, pos, rs);
    }
  }

  lemma {:induction false} SkipsEncodedQuestions(p: seq<byte>, pos: nat, qs: seq<Question>)
    requires forall k | 0 <= k < |qs| :: ValidName(qs[k].name) && |qs[k].fixed| == 4
    requires HoldsAt(p, pos, EncodeQuestions(qs))
    ensures QuestionsEnd(p, pos, |qs|) == Some(pos + |EncodeQuestions(qs)|)
    decreases |qs|
  {
    if qs != [] {
      var q := qs[0];
      HoldsConcat(p, pos, EncodeName(q.name) + q.fixed, EncodeQuestions(qs[1..]));
      HoldsConcat(p, pos, EncodeName(q.name), q.fixed);
      SkipsEncodedName(p, pos, q.name);
      SkipsEncodedQuestions(p, pos + |EncodeName(q.name)| + 4, qs[1..]);
    }
  }

  lemma {:induction false} ReadsEncodedHeader(p: seq<byte>, m: Message)
    requires ValidMessage(m) && HoldsAt(p, 0, EncodeHeader(m))
    ensures |p| >= HEADER && QuestionCount(p) == |m.questions| && RecordCount(p) == |Resources(m)|
  {
    var q, a, n, x := Bytes16(|m.questions|), Bytes16(|m.answers|), Bytes16(|m.authorities|), Bytes16(|m.additionals|);
    HoldsConcat(p, 0, m.id + q + a + n, x);
    HoldsConcat(p, 0, m.id + q + a, n);
    HoldsConcat(p, 0, m.id + q, a);
    HoldsConcat(p, 0, m.id, q);
    Holds16(p, 4, |m.questions|);
    Holds16(p, 6, |m.answers|);
    Holds16(p, 8, |m.authorities|);
    Holds16(p, 10, |m.additionals|);
  }

  // Where the data of resource k lies when the resources are written from a position on.
  function DataAt(rs: seq<Resource>, pos: nat, k: nat): nat
    requires k < |rs| && ValidResources(rs)
    decreases k
  {
    if k == 0 then pos + |EncodeName(rs[0].owner)| + 10
    else DataAt(rs[1..], pos + |EncodeResource(rs[0])|, k - 1)
  }

  // The records are the resources, in order, and each one's data is found where it was written.
  ghost predicate Laid(p: seq<byte>, pos: nat, all: seq<Record>, rs: seq<Resource>)
    requires ValidResources(rs)
  {
    && |all| == |rs|
    && forall k | 0 <= k < |rs| ::
         all[k].kind == rs[k].kind && all[k].data == DataAt(rs, pos, k) && HoldsAt(p, all[k].data, rs[k].data)
  }

  lemma {:induction false} MessageParts(m: Message, p: seq<byte>)
    requires ValidMessage(m) && HoldsAt(p, 0, EncodeMessage(m))
    ensures HoldsAt(p, 0, EncodeHeader(m)) && HoldsAt(p, HEADER, EncodeQuestions(m.questions))
    ensures HoldsAt(p, HEADER + |EncodeQuestions(m.questions)|, EncodeResources(Resources(m)))
  {
    var qs, rs := EncodeQuestions(m.questions), EncodeResources(Resources(m));
    HoldsConcat(p, 0, EncodeHeader(m), qs + rs);
    HoldsConcat(p, HEADER, qs, rs);
  }

  lemma {:induction false} BodyParses(p: seq<byte>, qs: seq<Question>, rs: seq<Resource>)
    requires forall k | 0 <= k < |qs| :: ValidName(qs[k].name) && |qs[k].fixed| == 4
    requires ValidResources(rs)
    requires |p| >= HEADER && QuestionCount(p) == |qs| && RecordCount(p) == |rs|
    requires HoldsAt(p, HEADER, EncodeQuestions(qs))
    requires HoldsAt(p, HEADER + |EncodeQuestions(qs)|, EncodeResources(rs))
    ensures Laid(p, HEADER + |EncodeQuestions(qs)|, AllRecords(p), rs)
  {
    SkipsEncodedQuestions(p, HEADER, qs);
    ReadsEncodedResources(p, HEADER + |EncodeQuestions(qs)|, rs);
  }

  // Every well-formed encoded response is read as exactly its records, their data where it was written.
  lemma {:induction false} EncodedResponseParses(m: Message, p: seq<byte>)
    requires ValidMessage(m) && HoldsAt(p, 0, EncodeMessage(m))
    ensures Laid(p, HEADER + |EncodeQuestions(m.questions)|, AllRecords(p), Resources(m))
  {
    MessageParts(m, p);
    ReadsEncodedHeader(p, m);
    BodyParses(p, m.questions, Resources(m));
  }

  // Where the data of a message's resource lies in its encoding.
  function ResourceData(m: Message, j: nat): nat
    requires ValidMessage(m) && j < |Resources(m)|
  {
    DataAt(Resources(m), HEADER + |EncodeQuestions(m.questions)|, j)
  }

  // Some non-empty name can be derived at a position.
  ghost predicate HoldsName(p: seq<byte>, pos: nat) {
    exists labels :: labels != [] && DerivesWithin(p, pos, labels, MAX_STEPS)
  }

  lemma {:induction false} ReadsIffHoldsName(p: seq<byte>, pos: nat, cap: nat)
    requires cap > 1
    ensures Reads(p, pos, cap) <==> HoldsName(p, pos)
  {
    if Reads(p, pos, cap) {
      DecodeAgrees(p, pos, MAX_STEPS, Decode(p, pos, MAX_STEPS).labels);
    }
    if labels :| labels != [] && DerivesWithin(p, pos, labels, MAX_STEPS) {
      DecodeAgrees(p, pos, MAX_STEPS, labels);
    }
  }

  lemma {:induction false} FirstNameIsFound(p: seq<byte>, records: seq<Record>, j: nat, cap: nat)
    requires j < |records| && Names(p, records[j], cap) && forall i | 0 <= i < j :: !Names(p, records[i], cap)
    ensures NamingRecord(p, records, cap) == Some(records[j])
  {
  }

  // In every well-formed encoded response the walk finds the first pointer record, in answer,
  // authority, additional order, whose data derives a non-empty name, compressed or not, and reports
  // that name.
  lemma {:induction false} FindsTheEncodedName(m: Message, p: seq<byte>, j: nat, labels: seq<Label>, cap: nat)
    requires ValidMessage(m) && HoldsAt(p, 0, EncodeMessage(m)) && cap > 1
    requires j < |Resources(m)| && Resources(m)[j].kind == PTR
    requires labels != [] && DerivesWithin(p, ResourceData(m, j), labels, MAX_STEPS)
    requires forall i | 0 <= i < j && Resources(m)[i].kind == PTR :: !HoldsName(p, ResourceData(m, i))
    ensures var found := NamingRecord(p, AllRecords(p), cap);
            && |AllRecords(p)| == |Resources(m)| && found == Some(AllRecords(p)[j])
            && found.value.data == ResourceData(m, j)
            && ReadText(p, ResourceData(m, j), cap) == FirstN(Join(labels), cap - 1)
  {
    EncodedResponseParses(m, p);
    var all := AllRecords(p);
    DecodeAgrees(p, ResourceData(m, j), MAX_STEPS, labels);
    forall i | 0 <= i < j ensures !Names(p, all[i], cap) {
      NamesIffHoldsName(m, p, i, cap);
    }
    FirstNameIsFound(p, all, j, cap);
  }

  lemma {:induction false} NamesIffHoldsName(m: Message, p: seq<byte>, i: nat, cap: nat)
    requires ValidMessage(m) && HoldsAt(p, 0, EncodeMessage(m)) && cap > 1 && i < |Resources(m)|
    ensures |AllRecords(p)| == |Resources(m)|
    ensures Names(p, AllRecords(p)[i], cap) <==> Resources(m)[i].kind == PTR && HoldsName(p, ResourceData(m, i))
  {
    EncodedResponseParses(m, p);
    ReadsIffHoldsName(p, ResourceData(m, i), cap);
  }

  // And it finds nothing exactly when no pointer record derives a non-empty name.
  lemma {:induction false} FindsNothingIff(m: Message, p: seq<byte>, cap: nat)
    requires ValidMessage(m) && HoldsAt(p, 0, EncodeMessage(m)) && cap > 1
    ensures NamingRecord(p, AllRecords(p), cap).None?
            <==> forall i | 0 <= i < |Resources(m)| && Resources(m)[i].kind == PTR :: !HoldsName(p, ResourceData(m, i))
  {
    EncodedResponseParses(m, p);
    var all, k := AllRecords(p), FirstName(p, AllRecords(p), cap);
    if k >= 0 {
      NamesIffHoldsName(m, p, k, cap);
    } else {
      forall i | 0 <= i < |Resources(m)| && Resources(m)[i].kind == PTR ensures !HoldsName(p, ResourceData(m, i)) {
        NamesIffHoldsName(m, p, i, cap);
        assert !Names(p, all[i], cap);
      }
    }
  }

  lemma {:induction false} DataIsHeld(m: Message, p: seq<byte>, j: nat)
    requires ValidMessage(m) && HoldsAt(p, 0, EncodeMessage(m)) && j < |Resources(m)|
    ensures HoldsAt(p, ResourceData(m, j), Resources(m)[j].data)
  {
    EncodedResponseParses(m, p);
    assert AllRecords(p)[j].data == ResourceData(m, j);
  }

  // A compressed name in the data of a record: some labels, then a pointer to where the rest is written.
  lemma {:induction false} FindsTheCompressedName(m: Message, p: seq<byte>, j: nat, prefix: seq<Label>, target: nat,
                                                  suffix: seq<Label>, cap: nat)
    requires ValidMessage(m) && HoldsAt(p, 0, EncodeMessage(m)) && cap > 1
    requires j < |Resources(m)| && Resources(m)[j].kind == PTR
    requires forall i | 0 <= i < j && Resources(m)[i].kind == PTR :: !HoldsName(p, ResourceData(m, i))
    requires ValidLabels(prefix) && ValidLabels(suffix) && target < 0x4000
    requires Resources(m)[j].data == EncodeLabels(prefix) + EncodeEnding(Pointer(target))
    requires HoldsAt(p, target, Encode(suffix))
    requires prefix + suffix != [] && |prefix| + 2 + |suffix| <= MAX_STEPS
    ensures var found := NamingRecord(p, AllRecords(p), cap);
            && found.Some? && found.value.data == ResourceData(m, j)
            && ReadText(p, found.value.data, cap) == FirstN(Join(prefix + suffix), cap - 1)
  {
    DataIsHeld(m, p, j);
    var pos := ResourceData(m, j);
    CompressedParts(p, pos, prefix, target);
    CompressedDerives(p, pos, prefix, pos + |EncodeLabels(prefix)|, target, suffix);
    DerivesWithinMore(p, pos, prefix + suffix, |prefix| + (1 + (|suffix| + 1)), MAX_STEPS);
    FindsTheEncodedName(m, p, j, prefix + suffix, cap);
  }

  lemma {:induction false} EndingPoints(p: seq<byte>, pos: nat, target: nat)
    requires target < 0x4000 && HoldsAt(p, pos, EncodeEnding(Pointer(target)))
    ensures PointsAt(p, pos, target)
  {
    var bytes := EncodeEnding(Pointer(target));
    assert p[pos + 0] == bytes[0] && p[pos + 1] == bytes[1];
  }

  lemma {:induction false} CompressedParts(p: seq<byte>, pos: nat, prefix: seq<Label>, target: nat)
    requires ValidLabels(prefix) && target < 0x4000
    requires HoldsAt(p, pos, EncodeLabels(prefix) + EncodeEnding(Pointer(target)))
    ensures LabelsLie(p, pos, prefix, pos + |EncodeLabels(prefix)|)
    ensures PointsAt(p, pos + |EncodeLabels(prefix)|, target)
  {
    HoldsConcat(p, pos, EncodeLabels(prefix), EncodeEnding(Pointer(target)));
    EndingPoints(p, pos + |EncodeLabels(prefix)|, target);
    EncodedLabelsLie(p, pos, prefix);
  }

  // Whatever packet arrives, the record the name comes from is the first pointer record whose data
  // reads as a name.
  lemma {:induction false} NameComesFromFirstReadablePointer(p: seq<byte>, cap: nat)
    ensures match NamingRecord(p, AllRecords(p), cap)
            case None => forall r | r in AllRecords(p) :: r.kind == PTR ==> !Reads(p, r.data, cap)
            case Some(r) => exists i :: 0 <= i < |AllRecords(p)| && AllRecords(p)[i] == r && r.kind == PTR
                              && Reads(p, r.data, cap)
                              && forall j | 0 <= j < i && AllRecords(p)[j].kind == PTR ::
                                   !Reads(p, AllRecords(p)[j].data, cap)
  {
    var i := FirstName(p, AllRecords(p), cap);
    if i < 0 {
      forall r | r in AllRecords(p) ensures r.kind == PTR ==> !Reads(p, r.data, cap) {
        var k :| 0 <= k < |AllRecords(p)| && AllRecords(p)[k] == r;
        assert !Names(p, AllRecords(p)[k], cap);
      }
    } else {
      forall j | 0 <= j < i && AllRecords(p)[j].kind == PTR ensures !Reads(p, AllRecords(p)[j].data, cap) {
        assert !Names(p, AllRecords(p)[j], cap);
      }
    }
  }
}
