// Domain names inside DNS messages: sections 3.1, 2.3.4 and 4.1.4 of RFC 1035.

module DnsName {
  import opened Options
  import opened Slices

  type byte = x: nat | x < 256

  const MAX_STEPS := 128
  const MAX_LABEL := 63
  const DOT: byte := 46

  type Label = seq<byte>

  // ----- what an encoded name means -----

  // labels can be read from position pos in exactly steps steps, one for each length octet, pointer
  // or terminator.
  ghost predicate Derives(p: seq<byte>, pos: nat, labels: seq<Label>, steps: nat)
    decreases steps, pos
  {
    && steps > 0 && pos < |p|
    && if p[pos] == 0 then labels == [] && steps == 1
       else if p[pos] >= 192 then
         pos + 1 < |p| && Derives(p, PointerTarget(p, pos), labels, steps - 1)
       else
         && p[pos] <= MAX_LABEL && pos + 1 + p[pos] <= |p|
         && labels != [] && labels[0] == p[pos + 1..pos + 1 + p[pos]]
         && Derives(p, pos + 1 + p[pos], labels[1..], steps - 1)
  }

  function PointerTarget(p: seq<byte>, pos: nat): nat
    requires pos + 1 < |p| && p[pos] >= 192
  {
    (p[pos] as int - 192) * 256 + p[pos + 1] as int
  }

  function Join(labels: seq<Label>): seq<byte> {
    if labels == [] then []
    else if |labels| == 1 then labels[0]
    else Join(labels[..|labels| - 1]) + [DOT] + labels[|labels| - 1]
  }

  // ----- what the program reads -----

  datatype Decoded = Malformed | Name(labels: seq<Label>, end: nat)

  // The name at cursor within a number of steps; end is the offset after its first terminator or
  // pointer.
  function Decode(p: seq<byte>, cursor: nat, steps: nat): Decoded
    decreases steps, cursor
  {
    if steps == 0 || cursor >= |p| then Malformed
    else
      var len := p[cursor];
      if len == 0 then Name([], cursor + 1)
      else if len >= 192 then
        if cursor + 1 >= |p| then Malformed
        else
          match Decode(p, PointerTarget(p, cursor), steps - 1)
          case Malformed => Malformed
          case Name(labels, _) => Name(labels, cursor + 2)
      else if len > MAX_LABEL || cursor + 1 + len > |p| then Malformed
      else
        match Decode(p, cursor + 1 + len, steps - 1)
        case Malformed => Malformed
        case Name(labels, end) => Name([p[cursor + 1..cursor + 1 + len]] + labels, end)
  }

  // The labels passed over until a read stops, whether it succeeds or not.
  function Collected(p: seq<byte>, cursor: nat, steps: nat): seq<Label>
    decreases steps, cursor
  {
    if steps == 0 || cursor >= |p| then []
    else
      var len := p[cursor];
      if len == 0 then []
      else if len >= 192 then
        if cursor + 1 >= |p| then [] else Collected(p, PointerTarget(p, cursor), steps - 1)
      else if len > MAX_LABEL || cursor + 1 + len > |p| then []
      else [p[cursor + 1..cursor + 1 + len]] + Collected(p, cursor + 1 + len, steps - 1)
  }

  // The text a read leaves in a buffer of the given size.
  function LeftText(p: seq<byte>, offset: nat, cap: nat): seq<byte>
    requires cap > 0
  {
    FirstN(Join(Collected(p, offset, MAX_STEPS)), cap - 1)
  }

  // The part of a buffer that C code takes for its text.
  function UpToNul(s: seq<byte>): (r: seq<byte>)
    ensures r <= s && 0 !in r && (|r| < |s| ==> s[|r|] == 0)
  {
    if s == [] || s[0] == 0 then [] else [s[0]] + UpToNul(s[1..])
  }

  lemma {:induction false} UpToNulOfStart(s: seq<byte>, n: nat)
    requires n < |s| && s[n] == 0
    ensures UpToNul(s) == UpToNul(s[..n])
  {
    var r, q := UpToNul(s), UpToNul(s[..n]);
    assert |r| < n ==> s[..n][|r|] == 0;
    assert |r| <= n && |q| == |r|;
  }

  datatype Skipped = SkipFails | SkipTo(end: nat)

  function Skip(p: seq<byte>, cursor: nat, steps: nat): Skipped
    decreases steps, cursor
  {
    if steps == 0 || cursor >= |p| then SkipFails
    else
      var len := p[cursor];
      if len == 0 then SkipTo(cursor + 1)
      else if len >= 192 then if cursor + 1 >= |p| then SkipFails else SkipTo(cursor + 2)
      else if len > MAX_LABEL || cursor + 1 + len > |p| then SkipFails
      else Skip(p, cursor + 1 + len, steps - 1)
  }

  // What reading a name into a buffer of the given size reports: text, if any, and end offset.
  predicate Reads(p: seq<byte>, offset: nat, cap: nat) {
    cap > 1 && Decode(p, offset, MAX_STEPS).Name? && Decode(p, offset, MAX_STEPS).labels != []
  }

  function ReadText(p: seq<byte>, offset: nat, cap: nat): seq<byte>
    requires Reads(p, offset, cap)
  {
    FirstN(Join(Decode(p, offset, MAX_STEPS).labels), cap - 1)
  }

  method SkipName(p: seq<byte>, start: nat) returns (ok: bool, offset: nat)
    ensures ok <==> Skip(p, start, MAX_STEPS).SkipTo?
    ensures ok ==> offset == Skip(p, start, MAX_STEPS).end
  {
    offset := start;
    var guard := 0;
    while guard < MAX_STEPS && offset < |p|
      invariant 0 <= guard <= MAX_STEPS
      invariant Skip(p, offset, MAX_STEPS - guard) == Skip(p, start, MAX_STEPS)
    {
      var len := p[offset];
      if len == 0 {
        return true, offset + 1;
      }
      if len >= 192 {
        if offset + 1 >= |p| { return false, offset; }
        return true, offset + 2;
      }
      if len >= 64 || offset + 1 + len > |p| { return false, offset; }
      offset := offset + 1 + len;
      guard := guard + 1;
    }
    return false, offset;
  }

  // Where a read stops: the labels passed over, whether it came to a terminator, and the end offset.
  datatype Stop = Stop(labels: seq<Label>, ended: bool, offset: nat)

  // A pointer or label that the packet does not hold whole, or a length octet of neither kind.
  predicate Broken(p: seq<byte>, cursor: nat)
    requires cursor < |p|
  {
    if p[cursor] >= 192 then cursor + 1 >= |p| else p[cursor] >= 64 || cursor + 1 + p[cursor] > |p|
  }

  // The reading loop from any of its states on.
  ghost function ReadOn(p: seq<byte>, cursor: nat, labels: seq<Label>, jumped: bool, offset: nat, steps: nat): Stop
    decreases steps
  {
    if steps == 0 || cursor >= |p| then Stop(labels, false, offset)
    else if p[cursor] == 0 then Stop(labels, true, if jumped then offset else cursor + 1)
    else if Broken(p, cursor) then Stop(labels, false, offset)
    else if p[cursor] >= 192 then
      ReadOn(p, PointerTarget(p, cursor), labels, true, if jumped then offset else cursor + 2, steps - 1)
    else
      var next := cursor + 1 + p[cursor];
      ReadOn(p, next, labels + [p[cursor + 1..next]], jumped, offset, steps - 1)
  }

  // The loop passes over the labels that are to be collected, and ends well exactly when the name decodes.
  lemma {:induction false} ReadOnDecodes(p: seq<byte>, cursor: nat, labels: seq<Label>, jumped: bool, offset: nat,
                                         steps: nat)
    ensures var stop := ReadOn(p, cursor, labels, jumped, offset, steps);
            && stop.labels == labels + Collected(p, cursor, steps)
            && (stop.ended <==> Decode(p, cursor, steps).Name?)
            && (stop.ended ==> stop.offset == if jumped then offset else Decode(p, cursor, steps).end)
    decreases steps
  {
    if steps > 0 && cursor < |p| && p[cursor] != 0 && !Broken(p, cursor) {
      if p[cursor] >= 192 {
        ReadOnDecodes(p, PointerTarget(p, cursor), labels, true, if jumped then offset else cursor + 2, steps - 1);
      } else {
        var next := cursor + 1 + p[cursor];
        var part := p[cursor + 1..next];
        ReadOnDecodes(p, next, labels + [part], jumped, offset, steps - 1);
        assert labels + [part] + Collected(p, next, steps - 1) == labels + ([part] + Collected(p, next, steps - 1));
      }
    }
  }

  lemma {:induction false} WholeReadDecodes(p: seq<byte>, start: nat, limit: nat)
    ensures var stop := ReadOn(p, start, [], false, start, limit);
            && stop.labels == Collected(p, start, limit) && (stop.ended <==> Decode(p, start, limit).Name?)
            && (stop.ended ==> stop.offset == Decode(p, start, limit).end)
  {
    ReadOnDecodes(p, start, [], false, start, limit);
    assert [] + Collected(p, start, limit) == Collected(p, start, limit);
  }

  // Appends one octet to the text in the buffer if there is room for it and the final NUL.
  method PutByte(out: array<byte>, outLen: nat, b: byte, ghost text: seq<byte>) returns (n: nat)
    requires outLen < out.Length && out[..outLen] == FirstN(text, out.Length - 1)
    modifies out
    ensures n < out.Length && out[..n] == FirstN(text + [b], out.Length - 1)
  {
    n := outLen;
    if n + 1 < out.Length {
      out[n] := b;
      n := n + 1;
    }
  }

  lemma {:induction false} FullStaysFull(text: seq<byte>, more: seq<byte>, room: nat)
    requires |text| >= room || more == []
    ensures FirstN(text + more, room) == FirstN(text, room)
  {
    assert more == [] ==> text + more == text;
  }

  method PutOctets(out: array<byte>, outLen: nat, part: Label, ghost text: seq<byte>) returns (n: nat)
    requires outLen < out.Length && out[..outLen] == FirstN(text, out.Length - 1)
    modifies out
    ensures n < out.Length && out[..n] == FirstN(text + part, out.Length - 1)
  {
    n := outLen;
    ghost var now := text;
    var i := 0;
    assert text + [] == text;
    while i < |part| && n + 1 < out.Length
      invariant 0 <= i <= |part| && n < out.Length
      invariant now == text + part[..i] && out[..n] == FirstN(now, out.Length - 1)
    {
      n := PutByte(out, n, part[i], now);
      now := now + [part[i]];
      i := i + 1;
    }
    assert text + part == now + part[i..];
    FullStaysFull(now, part[i..], out.Length - 1);
  }

  // Appends one label to the text in the buffer as far as it fits, a dot first unless it is the first.
  method PutLabel(out: array<byte>, outLen: nat, part: Label, ghost labels: seq<Label>) returns (n: nat)
    requires outLen < out.Length && out[..outLen] == FirstN(Join(labels), out.Length - 1)
    requires forall k | 0 <= k < |labels| :: labels[k] != []
    modifies out
    ensures n < out.Length && out[..n] == FirstN(Join(labels + [part]), out.Length - 1) && out[n] == 0
  {
    ghost var text := Join(labels);
    JoinOneMore(labels, part);
    JoinIsEmpty(labels);
    n := outLen;
    if n > 0 {
      n := PutByte(out, n, DOT, text);
      text := text + [DOT];
    } else if labels != [] {
      FullStaysFull(text, [DOT], out.Length - 1);
      text := text + [DOT];
    } else {
      assert [] + part == part;
    }
    n := PutOctets(out, n, part, text);
    out[n] := 0;
  }

  // Reads a name. Whether it succeeds or not, the buffer holds the labels passed over, terminated.
  method ReadName(p: seq<byte>, start: nat, out: array<byte>) returns (ok: bool, offset: nat, outLen: nat)
    requires out.Length > 0
    modifies out
    ensures ok <==> Reads(p, start, out.Length)
    ensures outLen < out.Length && out[..outLen] == LeftText(p, start, out.Length) && out[outLen] == 0
    ensures ok ==> LeftText(p, start, out.Length) == ReadText(p, start, out.Length)
    ensures ok ==> offset == Decode(p, start, MAX_STEPS).end
  {
    ok, offset, outLen := ReadWithin(p, start, out, MAX_STEPS);
    LabelsHaveLetters(p, start, MAX_STEPS);
    JoinIsEmpty(Collected(p, start, MAX_STEPS));
    if Decode(p, start, MAX_STEPS).Name? { DecodedIsCollected(p, start, MAX_STEPS); }
  }

  // The reading loop with a limit on its turns. It stops at that limit even when pointers form a
  // cycle, and every octet it reads lies inside the packet.
  method ReadWithin(p: seq<byte>, start: nat, out: array<byte>, limit: nat)
    returns (ok: bool, offset: nat, outLen: nat)
    requires out.Length > 0
    modifies out
    ensures outLen < out.Length && out[..outLen] == FirstN(Join(Collected(p, start, limit)), out.Length - 1)
    ensures out[outLen] == 0
    ensures ok <==> outLen > 0 && Decode(p, start, limit).Name?
    ensures ok ==> offset == Decode(p, start, limit).end
  {
    ghost var labels: seq<Label> := [];
    WholeReadDecodes(p, start, limit);
    var cursor: nat, jumped := start, false;
    offset, outLen := start, 0;
    out[0] := 0;
    ok := false;
    var guard := 0;
    while guard < limit && cursor < |p|
      invariant 0 <= guard <= limit && !ok
      invariant ReadOn(p, cursor, labels, jumped, offset, limit - guard) == ReadOn(p, start, [], false, start, limit)
      invariant forall k | 0 <= k < |labels| :: labels[k] != []
      invariant outLen < out.Length && out[..outLen] == FirstN(Join(labels), out.Length - 1) && out[outLen] == 0
    {
      var len := p[cursor];
      if len == 0 {
        if !jumped { offset := cursor + 1; }
        return outLen > 0, offset, outLen;
      }
      if Broken(p, cursor) { return false, offset, outLen; }
      if len >= 192 {
        if !jumped { offset := cursor + 2; }
        cursor := PointerTarget(p, cursor);
        jumped := true;
      } else {
        var part := p[cursor + 1..cursor + 1 + len];
        outLen := PutLabel(out, outLen, part, labels);
        labels := labels + [part];
        cursor := cursor + 1 + len;
      }
      guard := guard + 1;
    }
  }

  lemma {:induction false} LabelsHaveLetters(p: seq<byte>, cursor: nat, steps: nat)
    ensures forall k | 0 <= k < |Collected(p, cursor, steps)| :: Collected(p, cursor, steps)[k] != []
    decreases steps
  {
    if steps > 0 && cursor < |p| && p[cursor] != 0 {
      if p[cursor] >= 192 {
        if cursor + 1 < |p| { LabelsHaveLetters(p, PointerTarget(p, cursor), steps - 1); }
      } else if p[cursor] <= MAX_LABEL && cursor + 1 + p[cursor] <= |p| {
        LabelsHaveLetters(p, cursor + 1 + p[cursor], steps - 1);
      }
    }
  }

  lemma {:induction false} DecodedIsCollected(p: seq<byte>, cursor: nat, steps: nat)
    requires Decode(p, cursor, steps).Name?
    ensures Decode(p, cursor, steps).labels == Collected(p, cursor, steps)
    decreases steps
  {
    if p[cursor] >= 192 {
      DecodedIsCollected(p, PointerTarget(p, cursor), steps - 1);
    } else if p[cursor] > 0 {
      DecodedIsCollected(p, cursor + 1 + p[cursor], steps - 1);
    }
  }

  lemma {:induction false} JoinOneMore(labels: seq<Label>, part: Label)
    ensures Join(labels + [part]) == if labels == [] then part else Join(labels) + [DOT] + part
  {
    assert (labels + [part])[..|labels|] == labels;
  }

  lemma {:induction false} JoinIsEmpty(labels: seq<Label>)
    requires forall k | 0 <= k < |labels| :: labels[k] != []
    ensures Join(labels) == [] <==> labels == []
  {
  }

  lemma {:induction false} JoinBegins(labels: seq<Label>)
    requires forall k | 0 <= k < |labels| :: labels[k] != []
    ensures labels != [] ==> Join(labels) != [] && Join(labels)[0] == labels[0][0]
    ensures labels == [] ==> Join(labels) == []
  {
    if |labels| > 1 { JoinBegins(labels[..|labels| - 1]); }
  }

  // ----- reading agrees with the relation -----

  ghost predicate DerivesWithin(p: seq<byte>, pos: nat, labels: seq<Label>, limit: nat) {
    exists steps: nat :: steps <= limit && Derives(p, pos, labels, steps)
  }

  // Whatever the program decodes is derivable within its steps, and whatever is derivable within the
  // steps is decoded: the same labels, uniquely.
  lemma {:induction false} DecodeAgrees(p: seq<byte>, pos: nat, limit: nat, labels: seq<Label>)
    ensures Decode(p, pos, limit).Name? && Decode(p, pos, limit).labels == labels
            <==> DerivesWithin(p, pos, labels, limit)
  {
    if DerivesWithin(p, pos, labels, limit) {
      var steps: nat :| steps <= limit && Derives(p, pos, labels, steps);
      DerivedIsDecoded(p, pos, limit, labels, steps);
    } else if Decode(p, pos, limit).Name? {
      var steps := StepsOf(p, pos, limit);
    }
  }

  lemma {:induction false} StepsOf(p: seq<byte>, pos: nat, limit: nat) returns (steps: nat)
    requires Decode(p, pos, limit).Name?
    ensures steps <= limit && Derives(p, pos, Decode(p, pos, limit).labels, steps)
    decreases limit
  {
    if p[pos] == 0 {
      steps := 1;
    } else {
      steps := StepsOf(p, if p[pos] >= 192 then PointerTarget(p, pos) else pos + 1 + p[pos], limit - 1);
      steps := steps + 1;
      assert p[pos] < 192 ==> Decode(p, pos, limit).labels[1..] == Decode(p, pos + 1 + p[pos], limit - 1).labels;
    }
  }

  lemma {:induction false} DerivedIsDecoded(p: seq<byte>, pos: nat, limit: nat, labels: seq<Label>, steps: nat)
    requires Derives(p, pos, labels, steps) && steps <= limit
    ensures Decode(p, pos, limit).Name? && Decode(p, pos, limit).labels == labels
    decreases limit
  {
    if p[pos] != 0 {
      if p[pos] >= 192 {
        DerivedIsDecoded(p, PointerTarget(p, pos), limit - 1, labels, steps - 1);
      } else {
        DerivedIsDecoded(p, pos + 1 + p[pos], limit - 1, labels[1..], steps - 1);
      }
    }
  }

  // Whether and what a read reports depends on the relation alone: the joined labels of the one name
  // derivable in at most 128 steps, cut to what the buffer holds.
  lemma {:induction false} ReadingFollowsTheRelation(p: seq<byte>, pos: nat, cap: nat, labels: seq<Label>)
    ensures Reads(p, pos, cap) && Decode(p, pos, MAX_STEPS).labels == labels
            <==> cap > 1 && labels != [] && DerivesWithin(p, pos, labels, MAX_STEPS)
    ensures Reads(p, pos, cap) && Decode(p, pos, MAX_STEPS).labels == labels ==>
              ReadText(p, pos, cap) == FirstN(Join(labels), cap - 1)
  {
    DecodeAgrees(p, pos, MAX_STEPS, labels);
  }

  // A smaller buffer yields a prefix of what a larger one yields.
  lemma {:induction false} SmallerBufferReadsPrefix(p: seq<byte>, pos: nat, cap: nat, larger: nat)
    requires cap <= larger && Reads(p, pos, cap)
    ensures Reads(p, pos, larger) && ReadText(p, pos, cap) <= ReadText(p, pos, larger)
  {
  }

  // A position from which pointers lead back to itself decodes to nothing, in any number of steps.
  ghost predicate PointsTo(p: seq<byte>, pos: nat, target: nat, hops: nat)
    decreases hops
  {
    if hops == 0 then pos == target
    else pos + 1 < |p| && p[pos] >= 192 && PointsTo(p, PointerTarget(p, pos), target, hops - 1)
  }

  lemma {:induction false} HopsCostSteps(p: seq<byte>, pos: nat, target: nat, hops: nat, labels: seq<Label>, steps: nat)
    requires PointsTo(p, pos, target, hops) && Derives(p, pos, labels, steps)
    ensures hops < steps && Derives(p, target, labels, steps - hops)
    decreases hops
  {
    if hops > 0 { HopsCostSteps(p, PointerTarget(p, pos), target, hops - 1, labels, steps - 1); }
  }

  lemma {:induction false} PointerCycleNeverDecodes(p: seq<byte>, pos: nat, hops: nat, labels: seq<Label>, steps: nat)
    requires hops > 0 && PointsTo(p, pos, pos, hops)
    ensures !Derives(p, pos, labels, steps)
    decreases steps
  {
    if Derives(p, pos, labels, steps) {
      HopsCostSteps(p, pos, pos, hops, labels, steps);
      PointerCycleNeverDecodes(p, pos, hops, labels, steps - hops);
      assert false;
    }
  }

  // Whenever a name reads, skipping it from the same start ends at the same offset.
  lemma {:induction false} SkipFollowsRead(p: seq<byte>, pos: nat, steps: nat)
    requires Decode(p, pos, steps).Name?
    ensures Skip(p, pos, steps) == SkipTo(Decode(p, pos, steps).end)
    decreases steps
  {
    if 0 < p[pos] <= MAX_LABEL { SkipFollowsRead(p, pos + 1 + p[pos], steps - 1); }
  }

  lemma {:induction false} SkipMovesForwardInBounds(p: seq<byte>, pos: nat, steps: nat)
    requires Skip(p, pos, steps).SkipTo?
    ensures pos < Skip(p, pos, steps).end <= |p|
    decreases steps
  {
    if 0 < p[pos] <= MAX_LABEL { SkipMovesForwardInBounds(p, pos + 1 + p[pos], steps - 1); }
  }

  // ----- writing -----

  predicate ValidLabel(part: Label) { 1 <= |part| <= MAX_LABEL }

  ghost predicate ValidLabels(labels: seq<Label>) {
    forall k | 0 <= k < |labels| :: ValidLabel(labels[k])
  }

  function EncodeLabels(labels: seq<Label>): seq<byte>
    requires ValidLabels(labels)
  {
    if labels == [] then [] else [|labels[0]|] + labels[0] + EncodeLabels(labels[1..])
  }

  function Encode(labels: seq<Label>): seq<byte>
    requires ValidLabels(labels)
  {
    EncodeLabels(labels) + [0]
  }

  function IndexOfDot(name: seq<byte>): (k: nat)
    ensures k <= |name| && DOT !in name[..k] && (k < |name| ==> name[k] == DOT)
  {
    if name == [] || name[0] == DOT then 0 else
      var rest := IndexOfDot(name[1..]);
      assert name[..rest + 1] == [name[0]] + name[1..][..rest];
      rest + 1
  }

  function AfterDot(name: seq<byte>, dot: nat): seq<byte>
    requires dot <= |name|
  {
    if dot == |name| then [] else name[dot + 1..]
  }

  // The pieces between dots; a dot at the very end adds no piece.
  function Labels(name: seq<byte>): seq<Label>
    decreases |name|
  {
    if name == [] then []
    else
      var k := IndexOfDot(name);
      [name[..k]] + Labels(AfterDot(name, k))
  }

  lemma {:induction false} EncodeCons(head: Label, rest: seq<Label>)
    requires ValidLabel(head) && ValidLabels(rest)
    ensures ValidLabels([head] + rest) && EncodeLabels([head] + rest) == [|head|] + head + EncodeLabels(rest)
  {
    assert ([head] + rest)[1..] == rest;
  }

  lemma {:induction false} Associative<T>(a: seq<T>, b: seq<T>, c: seq<T>)
    ensures a + b + c == a + (b + c)
  {
  }

  lemma {:induction false} EncodeConcat(a: seq<Label>, b: seq<Label>)
    requires ValidLabels(a) && ValidLabels(b)
    ensures ValidLabels(a + b) && EncodeLabels(a + b) == EncodeLabels(a) + EncodeLabels(b)
  {
    if a == [] {
      assert a + b == b && EncodeLabels(a) + EncodeLabels(b) == EncodeLabels(b);
    } else {
      var head, rest := a[0], a[1..];
      EncodeConcat(rest, b);
      Associative([head], rest, b);
      assert a == [head] + rest;
      EncodeCons(head, rest + b);
      Associative([|head|] + head, EncodeLabels(rest), EncodeLabels(b));
    }
  }

  // Where a writer stands that has written some labels and still has others to write.
  ghost predicate Writing(cap: nat, start: nat, offset: nat, written: seq<Label>, rest: seq<Label>) {
    && ValidLabels(written) && offset == start + |EncodeLabels(written)|
    && (written == [] || offset < cap)
  }

  ghost predicate Writable(cap: nat, start: nat, labels: seq<Label>) {
    ValidLabels(labels) && start + |Encode(labels)| <= cap
  }

  // The program refuses a label exactly when the whole name cannot be written.
  lemma {:induction false} WriteOneMore(cap: nat, start: nat, offset: nat, written: seq<Label>, part: Label,
                                        more: seq<Label>)
    requires Writing(cap, start, offset, written, [part] + more)
    ensures if ValidLabel(part) && offset + 1 + |part| < cap
            then Writing(cap, start, offset + 1 + |part|, written + [part], more)
                 && EncodeLabels(written + [part]) == EncodeLabels(written) + [|part|] + part
            else !Writable(cap, start, written + ([part] + more))
  {
    var all := written + ([part] + more);
    if ValidLabels(all) {
      assert forall k | 0 <= k < |more| :: more[k] == all[|written| + 1 + k];
      assert all[|written|] == part;
      EncodeConcat(written, [part] + more);
      EncodeConcat([part], more);
      assert EncodeLabels([part]) == [|part|] + part + EncodeLabels([]);
    }
    if ValidLabel(part) {
      EncodeConcat(written, [part]);
      assert EncodeLabels([part]) == [|part|] + part + EncodeLabels([]);
    } else {
      assert all[|written|] == part;
    }
  }

  // A buffer that holds enc from start to offset and is as originally everywhere else.
  ghost predicate Spliced(now: seq<byte>, orig: seq<byte>, start: nat, offset: nat, enc: seq<byte>) {
    && start <= offset <= |orig| == |now| && |enc| == offset - start
    && now == orig[..start] + enc + orig[offset..]
  }

  lemma {:induction false} SpliceMore(now: seq<byte>, next: seq<byte>, orig: seq<byte>, start: nat, offset: nat,
                                      enc: seq<byte>, more: seq<byte>)
    requires Spliced(now, orig, start, offset, enc) && offset + |more| <= |now|
    requires next == now[..offset] + more + now[offset + |more|..]
    ensures Spliced(next, orig, start, offset + |more|, enc + more)
  {
  }

  lemma {:induction false} NothingSpliced(orig: seq<byte>, start: nat)
    requires start <= |orig|
    ensures Spliced(orig, orig, start, start, [])
  {
  }

  method PutBytes(packet: array<byte>, offset: nat, bytes: seq<byte>)
    requires offset + |bytes| <= packet.Length
    modifies packet
    ensures packet[..] == old(packet[..])[..offset] + bytes + old(packet[..])[offset + |bytes|..]
  {
    forall i | 0 <= i < |bytes| { packet[offset + i] := bytes[i]; }
  }

  // One turn of the writing loop.
  method WriteLabel(packet: array<byte>, offset: nat, part: Label, ghost orig: seq<byte>, ghost start: nat,
                    ghost written: seq<Label>, ghost more: seq<Label>)
    returns (ok: bool, next: nat)
    requires Writing(packet.Length, start, offset, written, [part] + more)
    requires offset <= packet.Length ==> Spliced(packet[..], orig, start, offset, EncodeLabels(written))
    modifies packet
    ensures !ok ==> !Writable(packet.Length, start, written + ([part] + more))
    ensures ok ==> next < packet.Length && Writing(packet.Length, start, next, written + [part], more)
                   && Spliced(packet[..], orig, start, next, EncodeLabels(written + [part]))
  {
    WriteOneMore(packet.Length, start, offset, written, part, more);
    next := offset;
    if part == [] || |part| > MAX_LABEL || offset + 1 + |part| >= packet.Length {
      return false, next;
    }
    ghost var before := packet[..];
    var bytes := [|part|] + part;
    PutBytes(packet, offset, bytes);
    SpliceMore(before, packet[..], orig, start, offset, EncodeLabels(written), bytes);
    next := offset + 1 + |part|;
    assert EncodeLabels(written) + bytes == EncodeLabels(written + [part]);
    ok := true;
  }

  lemma {:induction false} LabelsStep(written: seq<Label>, rest: seq<byte>)
    requires rest != []
    ensures var k := IndexOfDot(rest);
            var part, more := rest[..k], Labels(AfterDot(rest, k));
            Labels(rest) == [part] + more && written + Labels(rest) == (written + [part]) + more
  {
  }

  // The writing loop: all labels, without the terminator.
  method WriteLabels(packet: array<byte>, start: nat, name: seq<byte>) returns (ok: bool, offset: nat)
    modifies packet
    ensures !ok ==> !Writable(packet.Length, start, Labels(name))
    ensures ok ==> ValidLabels(Labels(name)) && offset == start + |EncodeLabels(Labels(name))|
    ensures ok && Labels(name) != [] ==> offset < packet.Length
    ensures ok && offset <= packet.Length ==>
              Spliced(packet[..], old(packet[..]), start, offset, EncodeLabels(Labels(name)))
  {
    ghost var orig, all := packet[..], Labels(name);
    var rest := name;
    offset := start;
    ghost var written: seq<Label> := [];
    if start <= packet.Length { NothingSpliced(orig, start); }
    while rest != []
      invariant Writing(packet.Length, start, offset, written, Labels(rest))
      invariant written + Labels(rest) == all
      invariant offset <= packet.Length ==> Spliced(packet[..], orig, start, offset, EncodeLabels(written))
      decreases |rest|
    {
      var dot := IndexOfDot(rest);
      var part, after := rest[..dot], AfterDot(rest, dot);
      LabelsStep(written, rest);
      ok, offset := WriteLabel(packet, offset, part, orig, start, written, Labels(after));
      if !ok { return; }
      written := written + [part];
      rest := after;
    }
    assert written == all;
    ok := true;
  }

  // The packet after writing a name at an offset, if that succeeds: every label has 1 to 63 octets and
  // the whole encoding fits. It holds the encoding there and is otherwise as before.
  ghost function Written(orig: seq<byte>, start: nat, name: seq<byte>): Option<seq<byte>> {
    var enc := if ValidLabels(Labels(name)) then Encode(Labels(name)) else [];
    if Writable(|orig|, start, Labels(name)) then Some(orig[..start] + enc + orig[start + |enc|..]) else None
  }

  lemma {:induction false} SplicedIsWritten(now: seq<byte>, orig: seq<byte>, start: nat, offset: nat, name: seq<byte>)
    requires Writable(|orig|, start, Labels(name)) && offset == start + |Encode(Labels(name))| <= |orig|
    requires Spliced(now, orig, start, offset, Encode(Labels(name)))
    ensures Written(orig, start, name) == Some(now)
  {
  }

  // Writes the terminator after the labels.
  method EndName(packet: array<byte>, offset: nat, ghost orig: seq<byte>, ghost start: nat, ghost enc: seq<byte>)
    requires offset < packet.Length && Spliced(packet[..], orig, start, offset, enc)
    modifies packet
    ensures Spliced(packet[..], orig, start, offset + 1, enc + [0])
  {
    ghost var before := packet[..];
    packet[offset] := 0;
    assert packet[..] == before[..offset] + [0] + before[offset + 1..];
    SpliceMore(before, packet[..], orig, start, offset, enc, [0]);
  }

  // Writes the name at the offset.
  method WriteQName(packet: array<byte>, start: nat, name: seq<byte>) returns (ok: bool, offset: nat)
    modifies packet
    ensures ok <==> Written(old(packet[..]), start, name).Some?
    ensures ok ==> offset == start + |Encode(Labels(name))|
    ensures ok ==> packet[..] == Written(old(packet[..]), start, name).value
  {
    ghost var orig := packet[..];
    ok, offset := WriteLabels(packet, start, name);
    if !ok || offset >= packet.Length { return false, offset; }
    EndName(packet, offset, orig, start, EncodeLabels(Labels(name)));
    offset := offset + 1;
    SplicedIsWritten(packet[..], orig, start, offset, name);
  }

  // ----- reading back what was written -----

  ghost predicate HoldsAt(p: seq<byte>, pos: nat, bytes: seq<byte>) {
    pos + |bytes| <= |p| && forall k | 0 <= k < |bytes| :: p[pos + k] == bytes[k]
  }

  lemma {:induction false} HoldsConcat(p: seq<byte>, pos: nat, a: seq<byte>, b: seq<byte>)
    requires HoldsAt(p, pos, a + b)
    ensures HoldsAt(p, pos, a) && HoldsAt(p, pos + |a|, b)
  {
    forall k | 0 <= k < |a| ensures p[pos + k] == a[k] {
      assert (a + b)[k] == a[k];
    }
    forall k | 0 <= k < |b| ensures p[pos + |a| + k] == b[k] {
      assert (a + b)[|a| + k] == b[k];
    }
  }

  lemma {:induction false} HoldsSlice(p: seq<byte>, pos: nat, bytes: seq<byte>)
    requires HoldsAt(p, pos, bytes)
    ensures p[pos..pos + |bytes|] == bytes
  {
  }

  lemma {:induction false} HoldsParts(p: seq<byte>, pos: nat, len: byte, part: Label, more: seq<byte>)
    requires HoldsAt(p, pos, [len] + part + more) && |part| == len
    ensures pos < |p| && p[pos] == len && pos + 1 + len <= |p| && p[pos + 1..pos + 1 + len] == part
    ensures HoldsAt(p, pos + 1 + len, more)
  {
    HoldsConcat(p, pos, [len] + part, more);
    HoldsConcat(p, pos, [len], part);
    HoldsSlice(p, pos + 1, part);
    assert p[pos + 0] == [len][0];
  }

  lemma {:induction false} HoldsEncoded(p: seq<byte>, pos: nat, labels: seq<Label>)
    requires ValidLabels(labels) && HoldsAt(p, pos, Encode(labels))
    ensures labels == [] ==> pos < |p| && p[pos] == 0
    ensures labels != [] ==>
              && pos < |p| && p[pos] == |labels[0]| && pos + 1 + p[pos] <= |p|
              && p[pos + 1..pos + 1 + p[pos]] == labels[0]
              && HoldsAt(p, pos + 1 + p[pos], Encode(labels[1..]))
              && |Encode(labels)| == 1 + |labels[0]| + |Encode(labels[1..])|
  {
    if labels == [] {
      assert Encode(labels)[0] == 0 && p[pos + 0] == 0;
    } else {
      Associative([|labels[0]|] + labels[0], EncodeLabels(labels[1..]), [0]);
      HoldsParts(p, pos, |labels[0]|, labels[0], Encode(labels[1..]));
    }
  }

  lemma {:induction false} EncodedIsDerivable(p: seq<byte>, pos: nat, labels: seq<Label>)
    requires ValidLabels(labels) && HoldsAt(p, pos, Encode(labels))
    ensures Derives(p, pos, labels, |labels| + 1)
    decreases |labels|
  {
    HoldsEncoded(p, pos, labels);
    if labels != [] { EncodedIsDerivable(p, pos + 1 + p[pos], labels[1..]); }
  }

  // Two octets of a pointer to an offset.
  ghost predicate PointsAt(p: seq<byte>, pos: nat, target: nat) {
    pos + 1 < |p| && p[pos] >= 192 && PointerTarget(p, pos) == target
  }

  lemma {:induction false} LabelDerives(p: seq<byte>, pos: nat, labels: seq<Label>, steps: nat)
    requires labels != [] && ValidLabel(labels[0]) && pos + 1 + |labels[0]| <= |p| && steps > 0
    requires p[pos] == |labels[0]| && p[pos + 1..pos + 1 + |labels[0]|] == labels[0]
    requires Derives(p, pos + 1 + |labels[0]|, labels[1..], steps - 1)
    ensures Derives(p, pos, labels, steps)
  {
  }

  // The labels lie one after the other from one position to another.
  ghost predicate LabelsLie(p: seq<byte>, pos: nat, labels: seq<Label>, end: nat)
    decreases |labels|
  {
    if labels == [] then pos == end
    else
      var next := pos + 1 + |labels[0]|;
      && ValidLabel(labels[0]) && next <= |p| && p[pos] == |labels[0]| && p[pos + 1..next] == labels[0]
      && LabelsLie(p, next, labels[1..], end)
  }

  lemma {:induction false} EncodedLabelsLie(p: seq<byte>, pos: nat, labels: seq<Label>)
    requires ValidLabels(labels) && HoldsAt(p, pos, EncodeLabels(labels))
    ensures LabelsLie(p, pos, labels, pos + |EncodeLabels(labels)|)
    decreases |labels|
  {
    if labels != [] {
      HoldsParts(p, pos, |labels[0]|, labels[0], EncodeLabels(labels[1..]));
      EncodedLabelsLie(p, pos + 1 + |labels[0]|, labels[1..]);
    }
  }

  // Labels put in front of a derivable name.
  lemma {:induction false} PrefixIsDerivable(p: seq<byte>, pos: nat, prefix: seq<Label>, end: nat, rest: seq<Label>,
                                             restSteps: nat, labels: seq<Label>, steps: nat)
    requires LabelsLie(p, pos, prefix, end) && Derives(p, end, rest, restSteps)
    requires labels == prefix + rest && steps == |prefix| + restSteps
    ensures Derives(p, pos, labels, steps)
    decreases |prefix|
  {
    if prefix == [] {
      assert labels == rest;
    } else {
      assert labels[0] == prefix[0] && labels[1..] == prefix[1..] + rest;
      PrefixIsDerivable(p, pos + 1 + |labels[0]|, prefix[1..], end, rest, restSteps, labels[1..], steps - 1);
      LabelDerives(p, pos, labels, steps);
    }
  }

  lemma {:induction false} PrefixDerives(p: seq<byte>, pos: nat, prefix: seq<Label>, end: nat, rest: seq<Label>,
                                         limit: nat)
    requires LabelsLie(p, pos, prefix, end) && DerivesWithin(p, end, rest, limit)
    ensures DerivesWithin(p, pos, prefix + rest, |prefix| + limit)
  {
    var steps: nat :| steps <= limit && Derives(p, end, rest, steps);
    PrefixIsDerivable(p, pos, prefix, end, rest, steps, prefix + rest, |prefix| + steps);
  }

  lemma {:induction false} PointerDerives(p: seq<byte>, pos: nat, target: nat, rest: seq<Label>, limit: nat)
    requires PointsAt(p, pos, target) && DerivesWithin(p, target, rest, limit)
    ensures DerivesWithin(p, pos, rest, 1 + limit)
  {
    var steps: nat :| steps <= limit && Derives(p, target, rest, steps);
    assert Derives(p, pos, rest, 1 + steps);
  }

  lemma {:induction false} EncodedDerives(p: seq<byte>, pos: nat, labels: seq<Label>)
    requires ValidLabels(labels) && HoldsAt(p, pos, Encode(labels))
    ensures DerivesWithin(p, pos, labels, |labels| + 1)
  {
    EncodedIsDerivable(p, pos, labels);
  }

  // A compressed name, some labels and then a pointer to where the rest is written, derives all of it.
  lemma {:induction false} CompressedDerives(p: seq<byte>, pos: nat, prefix: seq<Label>, end: nat, target: nat,
                                             suffix: seq<Label>)
    requires LabelsLie(p, pos, prefix, end) && PointsAt(p, end, target)
    requires ValidLabels(suffix) && HoldsAt(p, target, Encode(suffix))
    ensures DerivesWithin(p, pos, prefix + suffix, |prefix| + (1 + (|suffix| + 1)))
  {
    EncodedDerives(p, target, suffix);
    PointerDerives(p, end, target, suffix, |suffix| + 1);
    PrefixDerives(p, pos, prefix, end, suffix, 1 + (|suffix| + 1));
  }

  lemma {:induction false} DerivesWithinMore(p: seq<byte>, pos: nat, labels: seq<Label>, limit: nat, more: nat)
    requires DerivesWithin(p, pos, labels, limit) && limit <= more
    ensures DerivesWithin(p, pos, labels, more)
  {
  }

  lemma {:induction false} EncodedDecodes(p: seq<byte>, pos: nat, labels: seq<Label>, limit: nat)
    requires ValidLabels(labels) && HoldsAt(p, pos, Encode(labels))
    ensures Decode(p, pos, limit) == if limit > |labels| then Name(labels, pos + |Encode(labels)|) else Malformed
    decreases |labels|
  {
    HoldsEncoded(p, pos, labels);
    if labels != [] && limit > 0 {
      EncodedDecodes(p, pos + 1 + p[pos], labels[1..], limit - 1);
      assert labels == [labels[0]] + labels[1..];
    }
  }

  // One dot at the very end of a name is not written.
  function StripDot(name: seq<byte>): seq<byte> {
    if name != [] && name[|name| - 1] == DOT then name[..|name| - 1] else name
  }

  lemma {:induction false} JoinHead(head: Label, rest: seq<Label>)
    ensures Join([head] + rest) == if rest == [] then head else head + [DOT] + Join(rest)
  {
    var all := [head] + rest;
    if |rest| == 1 {
      assert all[..1] == [head];
    } else if |rest| > 1 {
      var n := |rest| - 1;
      assert all[..|all| - 1] == [head] + rest[..n];
      JoinHead(head, rest[..n]);
      assert Join(all) == Join([head] + rest[..n]) + [DOT] + rest[n];
      assert head + [DOT] + Join(rest) == (head + [DOT] + Join(rest[..n])) + [DOT] + rest[n];
    }
  }

  lemma {:induction false} ValidCons(head: Label, rest: seq<Label>)
    requires ValidLabels([head] + rest)
    ensures ValidLabel(head) && ValidLabels(rest)
  {
    assert ([head] + rest)[0] == head;
    assert forall i | 0 <= i < |rest| :: rest[i] == ([head] + rest)[i + 1];
  }

  lemma {:induction false} LabelsWithoutDot(name: seq<byte>)
    requires name != [] && IndexOfDot(name) == |name|
    ensures Labels(name) == [name]
  {
    assert name[..|name|] == name;
  }

  lemma {:induction false} LabelsWithDot(name: seq<byte>)
    requires IndexOfDot(name) < |name|
    ensures Labels(name) == [name[..IndexOfDot(name)]] + Labels(name[IndexOfDot(name) + 1..])
  {
  }

  lemma {:induction false} StripDotOfTail(head: seq<byte>, rest: seq<byte>)
    requires head != []
    ensures StripDot(head + [DOT] + rest) == if rest == [] then head else head + [DOT] + StripDot(rest)
  {
  }

  lemma {:induction false} NoDotToStrip(name: seq<byte>)
    requires DOT !in name
    ensures StripDot(name) == name
  {
  }

  lemma {:induction false} SplitAtDot(name: seq<byte>, k: nat)
    requires k < |name| && name[k] == DOT
    ensures name == name[..k] + [DOT] + name[k + 1..]
  {
  }

  lemma {:induction false} JoinOfLabels(name: seq<byte>)
    requires ValidLabels(Labels(name))
    ensures Join(Labels(name)) == StripDot(name)
    decreases |name|
  {
    if name == [] { return; }
    var k := IndexOfDot(name);
    if k == |name| {
      LabelsWithoutDot(name);
      assert name[..k] == name;
      NoDotToStrip(name);
    } else {
      LabelsWithDot(name);
      var part, rest := name[..k], name[k + 1..];
      var more := Labels(rest);
      ValidCons(part, more);
      JoinOfLabels(rest);
      JoinHead(part, more);
      StripDotOfTail(part, rest);
      SplitAtDot(name, k);
      assert more == [] <==> rest == [];
    }
  }

  lemma {:induction false} LabelsOfJoin(labels: seq<Label>)
    requires ValidLabels(labels) && forall k | 0 <= k < |labels| :: DOT !in labels[k]
    ensures Labels(Join(labels)) == labels
  {
    if labels != [] {
      var head, rest := labels[0], labels[1..];
      assert labels == [head] + rest;
      JoinHead(head, rest);
      LabelsOfJoin(rest);
      var name := Join(labels);
      assert name[..|head|] == head;
      FirstDot(name, |head|);
      if rest != [] {
        assert name[|head| + 1..] == Join(rest);
      }
    }
  }

  lemma {:induction false} FirstDot(name: seq<byte>, k: nat)
    requires k <= |name| && DOT !in name[..k] && (k < |name| ==> name[k] == DOT)
    ensures IndexOfDot(name) == k
    decreases |name|
  {
    if k > 0 {
      assert name[0] in name[..k];
      assert forall b | b in name[1..][..k - 1] :: b in name[..k];
      FirstDot(name[1..], k - 1);
    }
  }

  // Reading undoes writing. A written name reads back from its own bytes, wherever they stand in a
  // packet, exactly when it has 1 to 127 labels; the text is the name itself as far as the buffer
  // holds it, and the offset is just past the terminator.
  lemma {:induction false} ReadUndoesWrite(p: seq<byte>, start: nat, name: seq<byte>, cap: nat)
    requires ValidLabels(Labels(name)) && HoldsAt(p, start, Encode(Labels(name))) && cap > 1
    ensures Reads(p, start, cap) <==> 1 <= |Labels(name)| < MAX_STEPS
    ensures Reads(p, start, cap) ==>
              && ReadText(p, start, cap) == FirstN(StripDot(name), cap - 1)
              && Decode(p, start, MAX_STEPS).end == start + |Encode(Labels(name))|
  {
    EncodedDecodes(p, start, Labels(name), MAX_STEPS);
    JoinOfLabels(name);
  }

  // In particular every dotted name of 1 to 127 labels comes back identical from a buffer that holds it.
  lemma {:induction false} DottedNameRoundTrips(p: seq<byte>, start: nat, labels: seq<Label>, cap: nat)
    requires 1 <= |labels| <= 127 && ValidLabels(labels) && forall k | 0 <= k < |labels| :: DOT !in labels[k]
    requires HoldsAt(p, start, Encode(labels)) && |Join(labels)| < cap
    ensures Labels(Join(labels)) == labels && Reads(p, start, cap) && ReadText(p, start, cap) == Join(labels)
  {
    LabelsOfJoin(labels);
    JoinIsEmpty(labels);
    EncodedDecodes(p, start, labels, MAX_STEPS);
  }

  lemma {:induction false} WrittenIsHeld(orig: seq<byte>, start: nat, name: seq<byte>)
    requires Written(orig, start, name).Some?
    ensures ValidLabels(Labels(name)) && HoldsAt(Written(orig, start, name).value, start, Encode(Labels(name)))
  {
  }

  // Writing and then reading, for any packet, offset, name and buffer: what was written reads back
  // exactly when it has 1 to 127 labels, and the text is the name itself exactly when it has no dot at
  // its end and the buffer holds it.
  lemma {:induction false} WrittenNameReadsBack(orig: seq<byte>, start: nat, name: seq<byte>, cap: nat)
    requires Written(orig, start, name).Some? && cap > 1
    ensures var p := Written(orig, start, name).value;
            && (Reads(p, start, cap) <==> 1 <= |Labels(name)| <= 127)
            && (Reads(p, start, cap) ==>
                  && Decode(p, start, MAX_STEPS).end == start + |Encode(Labels(name))|
                  && (ReadText(p, start, cap) == name <==> StripDot(name) == name && |name| < cap))
  {
    WrittenIsHeld(orig, start, name);
    ReadUndoesWrite(Written(orig, start, name).value, start, name, cap);
  }

  // The room a list of labels takes: an octet for each length and one for the end.
  function RoomFor(labels: seq<Label>): nat {
    if labels == [] then 1 else 1 + |labels[0]| + RoomFor(labels[1..])
  }

  lemma {:induction false} EncodedSize(labels: seq<Label>)
    requires ValidLabels(labels)
    ensures |Encode(labels)| == RoomFor(labels)
    decreases |labels|
  {
    if labels != [] { EncodedSize(labels[1..]); }
  }

  // A name can be written exactly when each of its labels has 1 to 63 octets and there is room.
  lemma {:induction false} WritableIff(orig: seq<byte>, start: nat, name: seq<byte>)
    ensures Written(orig, start, name).Some?
       <==> (forall k | 0 <= k < |Labels(name)| :: 1 <= |Labels(name)[k]| <= 63)
            && start + RoomFor(Labels(name)) <= |orig|
  {
    if ValidLabels(Labels(name)) { EncodedSize(Labels(name)); }
  }

  // Labels are joined by full stops.
  lemma {:induction false} JoinedByDots(first: Label, second: Label)
    ensures Join([first, second]) == first + ['.' as int] + second
  {
    assert [first, second][..1] == [first];
  }
}
