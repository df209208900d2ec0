// What a settings text means: every field is set by the last line that names it with an acceptable
// value, and by nothing else.

module ConfigLaws {
  import opened Config
  import opened Decimal
  import opened Sampler
  import opened Slices

  // ----- what a line says -----

  ghost predicate Spaces(s: string) { forall k | 0 <= k < |s| :: s[k] in " \t" }
  ghost predicate LineEnd(s: string) { forall k | 0 <= k < |s| :: s[k] in " \t\r\n" }

  // No blank in front and none, nor a line end, behind.
  ghost predicate Bare(s: string) { s != "" ==> s[0] !in " \t" && s[|s| - 1] !in " \t\r\n" }

  // The line is the key, an equals sign and the value, with blanks around each of them.
  ghost predicate IsEntry(line: string, key: string, value: string, a: string, b: string, c: string, d: string) {
    line == a + key + b + "=" + c + value + d && Spaces(a) && LineEnd(b) && Spaces(c) && LineEnd(d) && Bare(value)
  }

  ghost predicate Says(line: string, key: string, value: string) {
    exists a, b, c, d :: IsEntry(line, key, value, a, b, c, d)
  }

  // A key as the five that are known: not empty, plain characters only.
  ghost predicate KnownKey(key: string) {
    PlainKey(key) && Bare(key)
  }

  lemma {:induction false} TrimLeftSpaces(a: string, s: string)
    requires Spaces(a) && (s != "" ==> s[0] !in " \t")
    ensures TrimLeft(a + s) == s
  {
    if a == "" {
      assert a + s == s;
    } else {
      assert (a + s)[1..] == a[1..] + s;
      TrimLeftSpaces(a[1..], s);
    }
  }

  lemma {:induction false} TrimRightEnd(s: string, d: string)
    requires LineEnd(d)
    ensures TrimRight(s + d) == TrimRight(s)
  {
    if d == "" {
      assert s + d == s;
    } else {
      assert (s + d)[..|s + d| - 1] == s + d[..|d| - 1];
      TrimRightEnd(s, d[..|d| - 1]);
    }
  }

  lemma {:induction false} TrimRightBare(s: string)
    requires s != "" ==> s[|s| - 1] !in " \t\r\n"
    ensures TrimRight(s) == s
  {
  }

  lemma {:induction false} TrimPadded(a: string, s: string, d: string)
    requires Spaces(a) && LineEnd(d) && Bare(s)
    ensures Trim(a + s + d) == s && Trim(TrimRight(a + s + d)) == s
  {
    TrimRightBare(s);
    if s == "" {
      assert a + s + d == a + d;
      AllBlank(a, d);
    } else {
      assert a + s + d == a + (s + d);
      TrimLeftSpaces(a, s + d);
      TrimRightEnd(s, d);
      TrimRightEnd(a + s, d);
      TrimRightBare(a + s);
      TrimLeftSpaces(a, s);
    }
  }

  lemma {:induction false} TrimRightOfBlank(s: string)
    requires LineEnd(s)
    ensures TrimRight(s) == ""
  {
    if s != "" { TrimRightOfBlank(s[..|s| - 1]); }
  }

  lemma {:induction false} AllBlank(a: string, d: string)
    requires Spaces(a) && LineEnd(d)
    ensures TrimRight(a + d) == "" && Trim(a + d) == "" && Trim(TrimRight(a + d)) == ""
  {
    var s := a + d;
    TrimRightOfBlank(s);
    LeftPart(s);
    var n := |s| - |TrimLeft(s)|;
    assert LineEnd(s[n..]);
    TrimRightOfBlank(TrimLeft(s));
  }

  // Trimming on the left takes blanks away and leaves none in front.
  lemma {:induction false} LeftPart(s: string)
    ensures |TrimLeft(s)| <= |s|
    ensures var n := |s| - |TrimLeft(s)|;
            Spaces(s[..n]) && s[n..] == TrimLeft(s) && (TrimLeft(s) != "" ==> TrimLeft(s)[0] !in " \t")
  {
    if s != "" && IsLeading(s[0]) {
      LeftPart(s[1..]);
      var n := |s| - |TrimLeft(s)|;
      assert s[..n] == [s[0]] + s[1..][..n - 1] && s[n..] == s[1..][n - 1..];
    }
  }

  lemma {:induction false} RightPart(s: string)
    ensures |TrimRight(s)| <= |s|
    ensures s[..|TrimRight(s)|] == TrimRight(s) && LineEnd(s[|TrimRight(s)|..])
    ensures TrimRight(s) != "" ==> TrimRight(s)[|TrimRight(s)| - 1] !in " \t\r\n"
  {
    if s != "" && IsTrailing(s[|s| - 1]) {
      var t := s[..|s| - 1];
      RightPart(t);
      assert s[|TrimRight(s)|..] == t[|TrimRight(s)|..] + [s[|s| - 1]];
    }
  }

  lemma {:induction false} TwoCuts(s: string, n: nat, m: nat)
    requires n <= |s| && m <= |s[n..]|
    ensures s == s[..n] + s[n..][..m] + s[n..][m..]
  {
  }

  lemma {:induction false} FirstOfPrefix(l: string, r: string)
    requires |r| <= |l| && l[..|r|] == r != ""
    ensures l != "" && r[0] == l[0]
  {
  }

  lemma {:induction false} TrimParts(s: string) returns (a: string, d: string)
    ensures s == a + Trim(s) + d && Spaces(a) && LineEnd(d) && Bare(Trim(s))
  {
    var l := TrimLeft(s);
    LeftPart(s);
    RightPart(l);
    var n, m := |s| - |l|, |Trim(s)|;
    a, d := s[..n], l[m..];
    TwoCuts(s, n, m);
    if Trim(s) != "" { FirstOfPrefix(l, Trim(s)); }
  }

  // ----- a line either says something about a key or leaves its field alone -----

  lemma {:induction false} EntryTrimmed(key: string, value: string, a: string, b: string, c: string, d: string)
    requires KnownKey(key) && IsEntry(a + key + b + "=" + c + value + d, key, value, a, b, c, d)
    ensures Trim(a + key + b + "=" + c + value + d) == key + b + "=" + TrimRight(c + value + d)
  {
    var line, head, w := a + key + b + "=" + c + value + d, key + b + "=", c + value + d;
    assert line == a + (head + w) && (head + w)[0] == key[0];
    TrimLeftSpaces(a, head + w);
    assert head[|head| - 1] == '=';
    TrimRightOfKeyLine(head, w);
  }

  lemma {:induction false} EntryApplies(s: Settings, line: string, key: string, value: string)
    requires KnownKey(key) && Says(line, key, value)
    ensures ApplyLine(s, line) == Assign(s, key, value)
  {
    var a, b, c, d :| IsEntry(line, key, value, a, b, c, d);
    EntryTrimmed(key, value, a, b, c, d);
    var w := TrimRight(c + value + d);
    var t := key + b + "=" + w;
    assert t == (key + b) + "=" + w && t[0] == key[0];
    SplitKeyLine(key + b, w);
    assert "" + key + b == key + b;
    TrimPadded("", key, b);
    TrimPadded(c, value, d);
  }

  lemma {:induction false} Reassembled(a: string, a1: string, key: string, b: string, c: string, value: string,
                                       d1: string, d: string)
    ensures a + ((a1 + key + b) + "=" + (c + value + d1)) + d
         == (a + a1) + key + b + "=" + c + value + (d1 + d)
  {
  }

  // Conversely, what a line assigns to a key it says.
  lemma {:induction false} AppliedIsSaid(line: string)
    ensures var t := Trim(line);
            var eq := IndexOf(t, '=');
            eq < |t| ==> Says(line, Trim(t[..eq]), Trim(t[eq + 1..]))
  {
    var t := Trim(line);
    var eq := IndexOf(t, '=');
    var a, d := TrimParts(line);
    if eq < |t| {
      var p, q := t[..eq], t[eq + 1..];
      var a1, b := TrimParts(p);
      var c, d1 := TrimParts(q);
      assert t == p + "=" + q;
      SaidInParts(line, p, q, a, a1, b, c, d1, d);
    }
  }

  lemma {:induction false} SaidInParts(line: string, p: string, q: string, a: string, a1: string, b: string, c: string,
                                       d1: string, d: string)
    requires line == a + (p + "=" + q) + d && p == a1 + Trim(p) + b && q == c + Trim(q) + d1
    requires Spaces(a) && Spaces(a1) && LineEnd(b) && Spaces(c) && LineEnd(d1) && LineEnd(d) && Bare(Trim(q))
    ensures Says(line, Trim(p), Trim(q))
  {
    Reassembled(a, a1, Trim(p), b, c, Trim(q), d1, d);
    assert Spaces(a + a1) && LineEnd(d1 + d);
    assert IsEntry(line, Trim(p), Trim(q), a + a1, b, c, d1 + d);
  }

  // ----- the five fields -----

  datatype Field = ModeField | NameField | VirtualField | BitsField | IntervalField

  function KeyOf(f: Field): string {
    match f
    case ModeField => "mode"
    case NameField => "iface"
    case VirtualField => "include_virtual"
    case BitsField => "use_bits"
    case IntervalField => "interval_ms"
  }

  ghost predicate Accepts(f: Field, value: string) {
    match f
    case ModeField => value in {"auto", "manual", "all"}
    case NameField => true
    case VirtualField => value in {"0", "1"}
    case BitsField => value in {"0", "1"}
    case IntervalField => IsNumeral(value) && NumberWritten(value) != 0
  }

  // The field is what an accepted value stands for.
  ghost predicate IsSet(f: Field, value: string, s: Settings) {
    match f
    case ModeField => s.mode == if value == "auto" then Auto else if value == "manual" then Manual else All
    case NameField => s.ifaceName == FirstN(value, 127)
    case VirtualField => s.includeVirtual <==> value == "1"
    case BitsField => s.useBits <==> value == "1"
    case IntervalField =>
      var n: int, max: int, ms: int := NumberWritten(value), 4294967295, s.intervalMs;
      ms == if n > max || n < -max then max else if n < 0 then max + 1 + n else n
  }

  ghost predicate SameField(f: Field, s: Settings, r: Settings) {
    match f
    case ModeField => s.mode == r.mode
    case NameField => s.ifaceName == r.ifaceName
    case VirtualField => s.includeVirtual == r.includeVirtual
    case BitsField => s.useBits == r.useBits
    case IntervalField => s.intervalMs == r.intervalMs
  }

  lemma {:induction false} AssignSets(s: Settings, key: string, value: string, f: Field)
    ensures if key == KeyOf(f) && Accepts(f, value) then IsSet(f, value, Assign(s, key, value))
            else SameField(f, Assign(s, key, value), s)
  {
    if f.IntervalField? { IntervalStored(value, s.intervalMs); }
  }

  // The line names the field with an acceptable value.
  ghost predicate Sets(line: string, f: Field) {
    exists value :: Says(line, KeyOf(f), value) && Accepts(f, value)
  }

  lemma {:induction false} KeysAreKnown(f: Field)
    ensures KnownKey(KeyOf(f))
  {
  }

  lemma {:induction false} LineSets(s: Settings, line: string, f: Field, value: string)
    requires Says(line, KeyOf(f), value) && Accepts(f, value)
    ensures IsSet(f, value, ApplyLine(s, line))
  {
    KeysAreKnown(f);
    EntryApplies(s, line, KeyOf(f), value);
    AssignSets(s, KeyOf(f), value, f);
  }

  lemma {:induction false} LineLeavesField(s: Settings, line: string, f: Field)
    requires !Sets(line, f)
    ensures SameField(f, ApplyLine(s, line), s)
  {
    var t := Trim(line);
    var eq := IndexOf(t, '=');
    if ApplyLine(s, line) != s {
      var key, value := Trim(t[..eq]), Trim(t[eq + 1..]);
      AppliedIsSaid(line);
      AssignSets(s, key, value, f);
    }
  }

  // Lines longer than 511 characters are cut.
  function CutLine(line: string): string { FirstN(line, 511) }

  ghost predicate NoneSets(lines: seq<string>, from: nat, f: Field) {
    forall i | from <= i < |lines| :: !Sets(CutLine(lines[i]), f)
  }

  // Comments, unknown keys, values that are not accepted and all other lines never matter to a field.
  lemma {:induction false} FieldStaysWithoutEntry(s: Settings, lines: seq<string>, f: Field)
    requires NoneSets(lines, 0, f)
    ensures SameField(f, ApplyLines(s, lines), s)
    decreases |lines|
  {
    if lines != [] {
      var next := ApplyLine(s, CutLine(lines[0]));
      LineLeavesField(s, CutLine(lines[0]), f);
      NoneInRest(lines, f);
      FieldStaysWithoutEntry(next, lines[1..], f);
      SameFieldTwice(f, s, next, ApplyLines(s, lines));
    }
  }

  lemma {:induction false} NoneInRest(lines: seq<string>, f: Field)
    requires NoneSets(lines, 0, f) && lines != []
    ensures !Sets(CutLine(lines[0]), f) && NoneSets(lines[1..], 0, f)
  {
    assert forall i | 0 <= i < |lines| - 1 :: lines[1..][i] == lines[i + 1];
  }

  lemma {:induction false} SameFieldTwice(f: Field, s: Settings, r: Settings, q: Settings)
    requires SameField(f, r, s) && SameField(f, q, r)
    ensures SameField(f, q, s)
  {
  }

  // Over any lines, a field is what the last line says that names it with an acceptable value.
  lemma {:induction false} LastEntryWins(s: Settings, lines: seq<string>, f: Field, i: nat, value: string)
    requires i < |lines| && Says(CutLine(lines[i]), KeyOf(f), value) && Accepts(f, value)
    requires NoneSets(lines, i + 1, f)
    ensures IsSet(f, value, ApplyLines(s, lines))
    decreases i
  {
    var next, rest := ApplyLine(s, CutLine(lines[0])), lines[1..];
    if i == 0 {
      LineSets(s, CutLine(lines[0]), f, value);
      assert NoneSets(rest, 0, f) by { assert forall k | 0 <= k < |rest| :: rest[k] == lines[k + 1]; }
      FieldStaysWithoutEntry(next, rest, f);
      SetStays(f, value, next, ApplyLines(s, lines));
    } else {
      assert NoneSets(rest, i, f) by { assert forall k | 0 <= k < |rest| :: rest[k] == lines[k + 1]; }
      LastEntryWins(next, rest, f, i - 1, value);
    }
  }

  lemma {:induction false} SetStays(f: Field, value: string, s: Settings, r: Settings)
    requires IsSet(f, value, s) && SameField(f, r, s)
    ensures IsSet(f, value, r)
  {
  }

  // ----- the lines of a text -----

  function Joined(lines: seq<string>): string
    requires lines != []
    decreases |lines|
  {
    if |lines| == 1 then lines[0] else lines[0] + "\n" + Joined(lines[1..])
  }

  // The lines of a text are its stretches between newlines.
  lemma {:induction false} LinesAreBetweenNewlines(text: string)
    ensures Lines(text) != [] && Joined(Lines(text)) == text
    ensures forall i | 0 <= i < |Lines(text)| :: '\n' !in Lines(text)[i]
    decreases |text|
  {
    var k := IndexOf(text, '\n');
    if k == |text| {
      assert text[..k] == text;
    } else {
      LinesAreBetweenNewlines(text[k + 1..]);
      var rest := Lines(text[k + 1..]);
      assert Lines(text) == [text[..k]] + rest && ([text[..k]] + rest)[1..] == rest;
      assert text == text[..k] + "\n" + text[k + 1..];
    }
  }
}
