// The key=value configuration text: parsing, line by line and in place, and printing.

module Config {
  import opened Decimal
  import opened Sampler
  import opened Slices

  const LINE_CAP := 512
  const NAME_CAP := 128
  const MAX_UNSIGNED: nat := 0xFFFF_FFFF

  datatype Settings = Settings(mode: Mode, ifaceName: string, includeVirtual: bool, useBits: bool, intervalMs: nat)

  // What the fields of the structure can hold.
  ghost predicate Storable(c: Settings) {
    |c.ifaceName| < NAME_CAP && '\0' !in c.ifaceName && c.intervalMs <= MAX_UNSIGNED
  }

  const DEFAULTS := Settings(Auto, "", false, false, 1000)

  // ----- what parsing means -----

  predicate IsLeading(c: char) { c == ' ' || c == '\t' }
  predicate IsTrailing(c: char) { c == ' ' || c == '\t' || c == '\r' || c == '\n' }

  function TrimLeft(s: string): string {
    if s != "" && IsLeading(s[0]) then TrimLeft(s[1..]) else s
  }

  function TrimRight(s: string): string {
    if s != "" && IsTrailing(s[|s| - 1]) then TrimRight(s[..|s| - 1]) else s
  }

  function Trim(s: string): string {
    TrimRight(TrimLeft(s))
  }

  function IndexOf(s: string, c: char): (k: nat)
    ensures k <= |s| && c !in s[..k] && (k < |s| ==> s[k] == c)
  {
    if s == "" || s[0] == c then 0
    else
      var k := IndexOf(s[1..], c);
      assert s[..k + 1] == [s[0]] + s[1..][..k];
      k + 1
  }

  function ModeNamed(value: string, otherwise: Mode): Mode {
    if value == "manual" then Manual else if value == "all" then All else if value == "auto" then Auto else otherwise
  }

  function Flag(value: string, otherwise: bool): bool {
    if value == "1" then true else if value == "0" then false else otherwise
  }

  // A number other than 0 that takes up the whole value. As strtoul reads it, one beyond the unsigned
  // range saturates and a negative one wraps.
  function Interval(value: string, otherwise: nat): nat {
    var parsed := ParseUpTo(value, MAX_UNSIGNED);
    if IsNumeral(value) && parsed > 0 then parsed else otherwise
  }

  function Assign(c: Settings, key: string, value: string): Settings {
    if key == "mode" then c.(mode := ModeNamed(value, c.mode))
    else if key == "iface" then c.(ifaceName := FirstN(value, NAME_CAP - 1))
    else if key == "include_virtual" then c.(includeVirtual := Flag(value, c.includeVirtual))
    else if key == "use_bits" then c.(useBits := Flag(value, c.useBits))
    else if key == "interval_ms" then c.(intervalMs := Interval(value, c.intervalMs))
    else c
  }

  function ApplyLine(c: Settings, line: string): Settings {
    var t := Trim(line);
    if t == "" || t[0] == '#' || t[0] == ';' then c
    else
      var eq := IndexOf(t, '=');
      if eq == |t| then c else Assign(c, Trim(t[..eq]), Trim(t[eq + 1..]))
  }

  // The lines of a text.
  function Lines(text: string): seq<string>
    decreases |text|
  {
    var k := IndexOf(text, '\n');
    if k == |text| then [text] else [text[..k]] + Lines(text[k + 1..])
  }

  function ApplyLines(c: Settings, lines: seq<string>): Settings
    decreases |lines|
  {
    if lines == [] then c else ApplyLines(ApplyLine(c, FirstN(lines[0], LINE_CAP - 1)), lines[1..])
  }

  function Parse(c: Settings, text: string): Settings {
    ApplyLines(c, Lines(text))
  }

  // ----- parsing as the program does it -----

  // The characters from position to up to i have come down by gap, the others are where they were.
  ghost predicate Moved(now: string, was: string, to: nat, i: nat, gap: nat) {
    && to <= i && i + gap <= |was| == |now|
    && (forall k | to <= k < i :: now[k] == was[k + gap])
    && (forall k | 0 <= k < to :: now[k] == was[k])
    && (forall k | i <= k < |was| :: now[k] == was[k])
  }

  lemma {:induction false} MovedOneMore(now: string, was: string, to: nat, i: nat, gap: nat)
    requires Moved(now, was, to, i, gap) && i + gap < |was|
    ensures Moved(now[i := now[i + gap]], was, to, i + 1, gap)
  {
  }

  lemma {:induction false} MovedAll(now: string, was: string, to: nat, i: nat, gap: nat)
    requires Moved(now, was, to, i, gap)
    ensures now[to..i] == was[to + gap..i + gap]
  {
    forall k | 0 <= k < i - to ensures now[to..i][k] == was[to + gap..i + gap][k] {
      assert now[to + k] == was[to + k + gap];
    }
  }

  lemma {:induction false} MovedBeside(now: string, was: string, to: nat, i: nat, gap: nat)
    requires Moved(now, was, to, i, gap)
    ensures forall k | 0 <= k < |now| && !(to <= k < i + gap) :: now[k] == was[k]
  {
  }

  // Moves the characters from one position up to a bound down to another position; the ranges overlap.
  method MoveDown(s: array<char>, to: nat, from: nat, hi: nat)
    requires to <= from <= hi <= s.Length
    modifies s
    ensures s[to..to + (hi - from)] == old(s[from..hi])
    ensures forall k | 0 <= k < s.Length && !(to <= k < hi) :: s[k] == old(s[k])
  {
    ghost var was := s[..];
    var i, gap := to, from - to;
    while i + gap < hi
      invariant i + gap <= hi && Moved(s[..], was, to, i, gap)
    {
      MovedOneMore(s[..], was, to, i, gap);
      s[i] := s[i + gap];
      i := i + 1;
    }
    ghost var now := s[..];
    MovedAll(now, was, to, i, gap);
    MovedBeside(now, was, to, i, gap);
    assert s[to..i] == now[to..i];
  }

  lemma {:induction false} TrimLeftStep(s: string)
    requires s != "" && IsLeading(s[0])
    ensures TrimLeft(s) == TrimLeft(s[1..])
  {
  }

  // How many leading characters are blank.
  method CountLeading(s: array<char>, lo: nat, hi: nat) returns (start: nat)
    requires lo <= hi <= s.Length
    ensures lo <= start <= hi && s[start..hi] == TrimLeft(s[lo..hi])
  {
    start := lo;
    while start < hi && IsLeading(s[start])
      invariant lo <= start <= hi && TrimLeft(s[start..hi]) == TrimLeft(s[lo..hi])
    {
      TrimLeftStep(s[start..hi]);
      assert s[start..hi][1..] == s[start + 1..hi];
      start := start + 1;
    }
  }

  method DropTrailing(s: array<char>, lo: nat, hi: nat) returns (end: nat)
    requires lo <= hi <= s.Length
    ensures lo <= end <= hi && s[lo..end] == TrimRight(s[lo..hi])
  {
    end := hi;
    while end > lo && IsTrailing(s[end - 1])
      invariant lo <= end <= hi && TrimRight(s[lo..end]) == TrimRight(s[lo..hi])
    {
      assert s[lo..end][..end - lo - 1] == s[lo..end - 1];
      end := end - 1;
    }
  }

  // Trims the text between two positions of a buffer, leaving the rest of the buffer alone.
  method TrimInPlace(s: array<char>, lo: nat, hi: nat) returns (end: nat)
    requires lo <= hi <= s.Length
    modifies s
    ensures lo <= end <= hi && s[lo..end] == Trim(old(s[lo..hi]))
    ensures forall k | 0 <= k < s.Length && !(lo <= k < hi) :: s[k] == old(s[k])
  {
    var start := CountLeading(s, lo, hi);
    end := hi;
    if start != lo {
      MoveDown(s, lo, start, hi);
      end := lo + (hi - start);
    }
    assert s[lo..end] == TrimLeft(old(s[lo..hi]));
    end := DropTrailing(s, lo, end);
  }

  lemma {:induction false} SliceStays(was: string, now: string)
    requires |was| == |now| && forall k | 0 <= k < |was| :: now[k] == was[k]
    ensures now == was
  {
  }

  // Cuts the text at the separator and trims both sides in place, neither disturbing the other.
  method TrimPair(line: array<char>, eq: nat, n: nat) returns (keyEnd: nat, valueEnd: nat)
    requires eq < n <= line.Length
    modifies line
    ensures keyEnd <= eq && line[..keyEnd] == Trim(old(line[..eq]))
    ensures eq < valueEnd <= n && line[eq + 1..valueEnd] == Trim(old(line[eq + 1..n]))
  {
    ghost var key, value := line[..eq], line[eq + 1..n];
    line[eq] := '\0';
    assert line[0..eq] == key && line[eq + 1..n] == value;
    keyEnd := TrimInPlace(line, 0, eq);
    assert line[..keyEnd] == Trim(key);
    SliceStays(value, line[eq + 1..n]);
    valueEnd := TrimInPlace(line, eq + 1, n);
    assert line[..keyEnd] == Trim(key);
  }

  method FindChar(s: array<char>, hi: nat, c: char) returns (k: nat)
    requires hi <= s.Length
    ensures k == IndexOf(s[..hi], c)
  {
    k := 0;
    while k < hi && s[k] != c
      invariant 0 <= k <= hi && c !in s[..k]
    {
      k := k + 1;
    }
    assert s[..hi][..k] == s[..k];
    FirstIndex(s[..hi], c, k);
  }

  // Appends a character to the line in the buffer unless it is full.
  method PushChar(line: array<char>, len: nat, c: char, ghost current: string) returns (n: nat)
    requires line.Length == LINE_CAP && len < LINE_CAP && line[..len] == FirstN(current, LINE_CAP - 1)
    modifies line
    ensures n < LINE_CAP && line[..n] == FirstN(current + [c], LINE_CAP - 1)
  {
    n := len;
    PushFits(current, c);
    if len + 1 < LINE_CAP {
      line[len] := c;
      n := len + 1;
    }
  }

  class Store {
    var mode: Mode
    var ifaceName: string
    var includeVirtual: bool
    var useBits: bool
    var intervalMs: nat

    function View(): Settings
      reads this
    {
      Settings(mode, ifaceName, includeVirtual, useBits, intervalMs)
    }

    constructor ()
      ensures View() == DEFAULTS && DEFAULTS == Settings(Auto, "", false, false, 1000)
    {
      mode, ifaceName, includeVirtual, useBits, intervalMs := Auto, "", false, false, 1000;
    }

    method AssignKey(key: string, value: string)
      modifies this
      ensures View() == Assign(old(View()), key, value)
    {
      if key == "mode" {
        if value == "manual" {
          mode := Manual;
        } else if value == "all" {
          mode := All;
        } else if value == "auto" {
          mode := Auto;
        }
      } else if key == "iface" {
        ifaceName := if |value| < NAME_CAP then value else value[..NAME_CAP - 1];
      } else if key == "include_virtual" {
        if value == "1" { includeVirtual := true; } else if value == "0" { includeVirtual := false; }
      } else if key == "use_bits" {
        if value == "1" { useBits := true; } else if value == "0" { useBits := false; }
      } else if key == "interval_ms" {
        var parsed := ParseUpTo(value, MAX_UNSIGNED);
        var end := Split(value).end;
        if end != 0 && end == |value| && parsed > 0 { intervalMs := parsed; }
      }
    }

    // Trims key and value in place, on either side of the separator, and assigns.
    method ApplyPair(line: array<char>, eq: nat, n: nat)
      requires eq < n <= line.Length
      modifies this, line
      ensures View() == Assign(old(View()), Trim(old(line[..eq])), Trim(old(line[eq + 1..n])))
    {
      var keyEnd, valueEnd := TrimPair(line, eq, n);
      AssignKey(line[..keyEnd], line[eq + 1..valueEnd]);
    }

    // Applies the line in the first len characters of a buffer.
    method Apply(line: array<char>, len: nat)
      requires len <= line.Length
      modifies this, line
      ensures View() == ApplyLine(old(View()), old(line[..len]))
    {
      assert line[0..len] == line[..len];
      var n := TrimInPlace(line, 0, len);
      assert line[..n] == Trim(old(line[..len])) && (n > 0 ==> line[..n][0] == line[0]);
      if n == 0 || line[0] == '#' || line[0] == ';' { return; }
      var eq := FindChar(line, n, '=');
      if eq == n { return; }
      assert line[..n][..eq] == line[..eq] && line[..n][eq + 1..] == line[eq + 1..n];
      ApplyPair(line, eq, n);
    }

    // Collects the characters of each line in a buffer of fixed size, dropping what does not fit.
    method ParseText(text: string)
      modifies this
      ensures View() == Parse(old(View()), text)
    {
      ghost var whole, current, pending := Parse(View(), text), "", text;
      var line := new char[LINE_CAP];
      var len: nat := 0;
      var p := 0;
      while p < |text|
        invariant 0 <= p <= |text| && len < LINE_CAP
        invariant '\n' !in current && line[..len] == FirstN(current, LINE_CAP - 1)
        invariant pending == current + text[p..]
        invariant Parse(View(), pending) == whole
      {
        if text[p] == '\n' {
          ghost var after := text[p + 1..];
          SplitPending(pending, current, text, p);
          LineEnds(View(), current, after);
          Apply(line, len);
          len, current, pending := 0, "", after;
        } else {
          KeepPending(pending, current, text, p);
          len := PushChar(line, len, text[p], current);
          current := current + [text[p]];
        }
        p := p + 1;
      }
      assert pending == current;
      LastLine(View(), current);
      Apply(line, len);
    }
  }

  lemma {:induction false} PushFits(current: string, c: char)
    ensures FirstN(current + [c], LINE_CAP - 1)
         == if |FirstN(current, LINE_CAP - 1)| + 1 < LINE_CAP then FirstN(current, LINE_CAP - 1) + [c]
            else FirstN(current, LINE_CAP - 1)
  {
  }

  lemma {:induction false} SplitPending(pending: string, current: string, text: string, p: nat)
    requires p < |text| && pending == current + text[p..] && text[p] == '\n'
    ensures pending == current + "\n" + text[p + 1..] && text[p + 1..] == "" + text[p + 1..]
  {
  }

  lemma {:induction false} KeepPending(pending: string, current: string, text: string, p: nat)
    requires p < |text| && pending == current + text[p..]
    ensures pending == (current + [text[p]]) + text[p + 1..]
  {
  }

  lemma {:induction false} FirstIndex(s: string, c: char, k: nat)
    requires k <= |s| && c !in s[..k] && (k < |s| ==> s[k] == c)
    ensures IndexOf(s, c) == k
    decreases k
  {
    if k > 0 {
      assert s[0] in s[..k];
      assert forall x | x in s[1..][..k - 1] :: x in s[..k];
      FirstIndex(s[1..], c, k - 1);
    }
  }

  lemma {:induction false} LineEnds(c: Settings, line: string, rest: string)
    requires '\n' !in line
    ensures Parse(c, line + "\n" + rest) == Parse(ApplyLine(c, FirstN(line, LINE_CAP - 1)), rest)
  {
    var text := line + "\n" + rest;
    assert text[..|line|] == line && text[|line| + 1..] == rest;
    FirstIndex(text, '\n', |line|);
    assert Lines(text)[0] == line && Lines(text)[1..] == Lines(rest);
  }

  lemma {:induction false} LastLine(c: Settings, text: string)
    requires '\n' !in text
    ensures Parse(c, text) == ApplyLine(c, FirstN(text, LINE_CAP - 1))
  {
    assert text[..|text|] == text;
    FirstIndex(text, '\n', |text|);
    assert Lines(text) == [text] && [text][1..] == [];
    assert ApplyLines(ApplyLine(c, FirstN(text, LINE_CAP - 1)), []) == ApplyLine(c, FirstN(text, LINE_CAP - 1));
  }

  // ----- pieces of text, line endings -----

  lemma {:induction false} LinesOfJoined(a: string, b: string)
    ensures Lines(a + "\n" + b) == Lines(a) + Lines(b)
    decreases |a|
  {
    var k, all := IndexOf(a, '\n'), a + "\n" + b;
    assert all[..k] == a[..k];
    FirstIndex(all, '\n', k);
    if k == |a| {
      assert all[k + 1..] == b && a[..k] == a;
    } else {
      assert all[k + 1..] == a[k + 1..] + "\n" + b;
      LinesOfJoined(a[k + 1..], b);
    }
  }

  lemma {:induction false} ApplyConcat(c: Settings, a: seq<string>, b: seq<string>)
    ensures ApplyLines(c, a + b) == ApplyLines(ApplyLines(c, a), b)
    decreases |a|
  {
    if a == [] {
      assert a + b == b;
    } else {
      assert (a + b)[1..] == a[1..] + b;
      ApplyConcat(ApplyLine(c, FirstN(a[0], LINE_CAP - 1)), a[1..], b);
    }
  }

  // Parsing two texts joined by a newline is parsing one after the other.
  lemma {:induction false} ParseJoined(c: Settings, a: string, b: string)
    ensures Parse(c, a + "\n" + b) == Parse(Parse(c, a), b)
  {
    LinesOfJoined(a, b);
    ApplyConcat(c, Lines(a), Lines(b));
  }

  // The same text with every newline preceded by a carriage return.
  function Crlf(text: string): string {
    if text == "" then ""
    else (if text[0] == '\n' then "\r\n" else [text[0]]) + Crlf(text[1..])
  }

  lemma {:induction false} CrlfOfLine(a: string, b: string)
    requires '\n' !in a
    ensures Crlf(a) == a
    ensures Crlf(a + "\n" + b) == (a + "\r") + "\n" + Crlf(b)
  {
    var all := a + "\n" + b;
    if a == "" {
      assert all[1..] == b;
    } else {
      assert all[1..] == a[1..] + "\n" + b;
      CrlfOfLine(a[1..], b);
    }
  }

  lemma {:induction false} TrimRightDropsReturn(s: string)
    ensures TrimRight(s + "\r") == TrimRight(s)
  {
    assert (s + "\r")[..|s|] == s;
  }

  lemma {:induction false} TrimLeftKeepsReturn(s: string)
    ensures TrimLeft(s + "\r") == TrimLeft(s) + "\r"
  {
    if s != "" {
      assert (s + "\r")[1..] == s[1..] + "\r";
      TrimLeftKeepsReturn(s[1..]);
    }
  }

  lemma {:induction false} TrimDropsReturn(s: string)
    ensures Trim(s + "\r") == Trim(s)
  {
    TrimLeftKeepsReturn(s);
    TrimRightDropsReturn(TrimLeft(s));
  }

  lemma {:induction false} ReturnNeverMatters(c: Settings, line: string)
    ensures ApplyLine(c, FirstN(line + "\r", LINE_CAP - 1)) == ApplyLine(c, FirstN(line, LINE_CAP - 1))
  {
    if |line| < LINE_CAP - 1 {
      TrimDropsReturn(line);
    } else {
      assert (line + "\r")[..LINE_CAP - 1] == line[..LINE_CAP - 1];
    }
  }

  // Windows line endings never change the result, overlong lines included.
  lemma {:induction false} LineEndingsNeverMatter(c: Settings, text: string)
    ensures Parse(c, Crlf(text)) == Parse(c, text)
    decreases |text|
  {
    var k := IndexOf(text, '\n');
    if k == |text| {
      assert text[..k] == text;
      CrlfOfLine(text, "");
    } else {
      var line, rest := text[..k], text[k + 1..];
      assert text == line + "\n" + rest;
      CrlfOfLine(line, rest);
      ParseJoined(c, line, rest);
      ParseJoined(c, line + "\r", Crlf(rest));
      LastLine(c, line);
      LastLine(c, line + "\r");
      ReturnNeverMatters(c, line);
      LineEndingsNeverMatter(Parse(c, line), rest);
    }
  }

  // ----- printing -----

  function ModeName(mode: Mode): string {
    match mode
    case Manual => "manual"
    case All => "all"
    case Auto => "auto"
  }

  function BitText(b: bool): string { if b then "1" else "0" }

  function Entry(key: string, value: string, rest: string): string {
    key + "=" + value + "\n" + rest
  }

  function IntervalText(c: Settings): string { Entry("interval_ms", Print(c.intervalMs), "") }
  function BitsText(c: Settings): string { Entry("use_bits", BitText(c.useBits), IntervalText(c)) }
  function VirtualText(c: Settings): string { Entry("include_virtual", BitText(c.includeVirtual), BitsText(c)) }
  function NameText(c: Settings): string { Entry("iface", c.ifaceName, VirtualText(c)) }
  function Text(c: Settings): string { Entry("mode", ModeName(c.mode), NameText(c)) }

  // Prints the settings into a buffer of the given size, always terminated; what does not fit is cut.
  method Serialize(c: Settings, out: array?<char>, cap: nat) returns (written: nat)
    requires out != null ==> cap <= out.Length
    modifies out
    ensures out == null || cap == 0 ==> written == 0 && (out != null ==> out[..] == old(out[..]))
    ensures out != null && cap > 0 ==>
              && written == (if |Text(c)| < cap then |Text(c)| else cap - 1)
              && out[..written] == Text(c)[..written] && out[written] == '\0'
  {
    if out == null || cap == 0 { return 0; }
    var text := Text(c);
    written := if |text| < cap then |text| else cap - 1;
    forall i | 0 <= i < written { out[i] := text[i]; }
    out[written] := '\0';
  }

  // A name that survives the trip: no newline inside, nothing to trim at its ends.
  predicate Printable(name: string) {
    '\n' !in name && (name == "" || (!IsLeading(name[0]) && !IsTrailing(name[|name| - 1])))
  }

  lemma {:induction false} NothingToTrim(s: string)
    requires s == "" || (!IsLeading(s[0]) && !IsTrailing(s[|s| - 1]))
    ensures Trim(s) == s
  {
  }

  lemma {:induction false} TrimRightIsPrefix(s: string)
    ensures TrimRight(s) <= s && (TrimRight(s) == s <==> s == "" || !IsTrailing(s[|s| - 1]))
  {
    if s != "" && IsTrailing(s[|s| - 1]) { TrimRightIsPrefix(s[..|s| - 1]); }
  }

  lemma {:induction false} TrimOfKeyLine(key: string, value: string)
    requires key != "" && !IsLeading(key[0])
    ensures Trim(key + "=" + value) == key + "=" + TrimRight(value)
  {
    var head := key + "=";
    assert (head + value)[0] == key[0] && head[|head| - 1] == '=';
    TrimRightOfKeyLine(head, value);
  }

  lemma {:induction false} SplitKeyLine(key: string, value: string)
    requires '=' !in key
    ensures var t := key + "=" + value;
            var eq := IndexOf(t, '=');
            eq == |key| < |t| && t[..eq] == key && t[eq + 1..] == value
  {
    var t := key + "=" + value;
    assert t[..|key|] == key && t[|key| + 1..] == value;
    FirstIndex(t, '=', |key|);
  }

  // A line that starts with a plain key: what it assigns.
  lemma {:induction false} KeyLine(c: Settings, key: string, value: string)
    requires key != "" && '=' !in key && key[0] != '#' && key[0] != ';'
    requires !IsLeading(key[0]) && !IsTrailing(key[|key| - 1])
    ensures ApplyLine(c, key + "=" + value) == Assign(c, key, Trim(TrimRight(value)))
  {
    TrimOfKeyLine(key, value);
    SplitKeyLine(key, TrimRight(value));
    NothingToTrim(key);
    assert (key + "=" + TrimRight(value))[0] == key[0];
  }

  lemma {:induction false} TrimRightOfKeyLine(head: string, value: string)
    requires head != "" && !IsTrailing(head[|head| - 1])
    ensures TrimRight(head + value) == head + TrimRight(value)
  {
    if value == "" {
      assert head + value == head;
    } else if IsTrailing(value[|value| - 1]) {
      assert (head + value)[..|head + value| - 1] == head + value[..|value| - 1];
      TrimRightOfKeyLine(head, value[..|value| - 1]);
    }
  }

  lemma {:induction false} PrintIsShort(n: nat, digits: nat, bound: nat)
    requires digits > 0 && n < bound && bound == Power10(digits)
    ensures |Print(n)| <= digits
    decreases digits
  {
    if n >= 10 { PrintIsShort(n / 10, digits - 1, Power10(digits - 1)); }
  }

  function Power10(n: nat): nat {
    if n == 0 then 1 else 10 * Power10(n - 1)
  }

  ghost predicate PlainKey(key: string) {
    && key != "" && '=' !in key && '\n' !in key && key[0] != '#' && key[0] != ';'
    && !IsLeading(key[0]) && !IsTrailing(key[|key| - 1])
  }

  lemma {:induction false} ParseEntry(c: Settings, key: string, value: string, rest: string)
    requires PlainKey(key) && '\n' !in value && |key| + |value| < LINE_CAP - 2
    ensures Parse(c, Entry(key, value, rest)) == Parse(Assign(c, key, Trim(TrimRight(value))), rest)
  {
    var line := key + "=" + value;
    LineEnds(c, line, rest);
    KeyLine(c, key, value);
    assert FirstN(line, LINE_CAP - 1) == line;
  }

  lemma {:induction false} NothingLeft(c: Settings)
    ensures Parse(c, "") == c
  {
    LastLine(c, "");
  }

  lemma {:induction false} PlainValue(value: string)
    requires value == "" || (!IsLeading(value[0]) && !IsTrailing(value[|value| - 1]))
    ensures Trim(TrimRight(value)) == value
  {
    NothingToTrim(value);
  }

  lemma {:induction false} DigitsArePlain(n: nat)
    ensures '\n' !in Print(n) && Trim(TrimRight(Print(n))) == Print(n)
    ensures n <= MAX_UNSIGNED ==> |Print(n)| <= 10
  {
    var s := Print(n);
    assert IsDigit(s[0]) && IsDigit(s[|s| - 1]);
    assert forall k | 0 <= k < |s| :: IsDigit(s[k]);
    PlainValue(s);
    if n <= MAX_UNSIGNED {
      assert Power10(5) == 100000 && Power10(10) == 10000000000;
      PrintIsShort(n, 10, 10000000000);
    }
  }

  lemma {:induction false} IntervalOfPrint(n: nat, otherwise: nat)
    requires n <= MAX_UNSIGNED
    ensures Interval(Print(n), otherwise) == if n > 0 then n else otherwise
  {
    ParseOfPrint(n, MAX_UNSIGNED);
    SplitOfDigits(Print(n));
  }

  // The range check after strtoul rejects nothing where long is as wide as int. So a value is stored
  // exactly when all of it is a numeral and the number is not 0; what is stored is the number written
  // exactly when that is positive and fits, otherwise it is saturated or wrapped.
  lemma {:induction false} IntervalStored(value: string, otherwise: nat)
    ensures var n: int, max: int := NumberWritten(value), MAX_UNSIGNED;
            if !IsNumeral(value) || n == 0 then Interval(value, otherwise) == otherwise
            else
              && (Interval(value, otherwise) == n <==> 0 < n <= max)
              && (n > max || n < -max ==> Interval(value, otherwise) == max)
              && (-max <= n < 0 ==> Interval(value, otherwise) == max + 1 + n)
  {
    ParseOfNumeral(value, MAX_UNSIGNED);
  }

  // In particular every negative interval is accepted, wrapped or saturated.
  lemma {:induction false} NegativeIntervalIsAccepted(n: nat, otherwise: nat)
    requires 0 < n
    ensures Interval("-" + Print(n), otherwise) == if n <= MAX_UNSIGNED then MAX_UNSIGNED + 1 - n else MAX_UNSIGNED
  {
    SplitOfNegative(Print(n));
    ValueOfPrint(n);
  }

  function Restored(c0: Settings, c: Settings): Settings {
    c.(ifaceName := FirstN(Trim(TrimRight(c.ifaceName)), NAME_CAP - 1),
       intervalMs := if c.intervalMs > 0 then c.intervalMs else c0.intervalMs)
  }

  lemma {:induction false} AssignInterval(x: Settings, value: string)
    ensures Assign(x, "interval_ms", value) == x.(intervalMs := Interval(value, x.intervalMs))
  {
  }

  lemma {:induction false} AssignFlags(x: Settings, b: bool)
    ensures Assign(x, "include_virtual", BitText(b)) == x.(includeVirtual := b)
    ensures Assign(x, "use_bits", BitText(b)) == x.(useBits := b)
  {
  }

  lemma {:induction false} ParseIntervalEntry(x: Settings, value: string)
    requires '\n' !in value && |value| <= 10 && Trim(TrimRight(value)) == value
    ensures Parse(x, Entry("interval_ms", value, "")) == x.(intervalMs := Interval(value, x.intervalMs))
  {
    ParseEntry(x, "interval_ms", value, "");
    AssignInterval(x, value);
    NothingLeft(x.(intervalMs := Interval(value, x.intervalMs)));
  }

  lemma {:induction false} ParseIntervalText(x: Settings, c: Settings)
    requires Storable(c)
    ensures Parse(x, IntervalText(c)) == x.(intervalMs := if c.intervalMs > 0 then c.intervalMs else x.intervalMs)
  {
    DigitsArePlain(c.intervalMs);
    ParseIntervalEntry(x, Print(c.intervalMs));
    IntervalOfPrint(c.intervalMs, x.intervalMs);
  }

  lemma {:induction false} ParseBitsText(x: Settings, c: Settings)
    ensures Parse(x, BitsText(c)) == Parse(x.(useBits := c.useBits), IntervalText(c))
  {
    PlainValue(BitText(c.useBits));
    AssignFlags(x, c.useBits);
    ParseEntry(x, "use_bits", BitText(c.useBits), IntervalText(c));
  }

  lemma {:induction false} ParseVirtualText(x: Settings, c: Settings)
    ensures Parse(x, VirtualText(c)) == Parse(x.(includeVirtual := c.includeVirtual), BitsText(c))
  {
    PlainValue(BitText(c.includeVirtual));
    AssignFlags(x, c.includeVirtual);
    ParseEntry(x, "include_virtual", BitText(c.includeVirtual), BitsText(c));
  }

  lemma {:induction false} ParseNameText(x: Settings, c: Settings)
    requires Storable(c) && '\n' !in c.ifaceName
    ensures Parse(x, NameText(c))
         == Parse(x.(ifaceName := FirstN(Trim(TrimRight(c.ifaceName)), NAME_CAP - 1)), VirtualText(c))
  {
    ParseEntry(x, "iface", c.ifaceName, VirtualText(c));
  }

  lemma {:induction false} ModeNamesAreRead(mode: Mode, otherwise: Mode)
    ensures ModeNamed(ModeName(mode), otherwise) == mode
    ensures '\n' !in ModeName(mode) && |ModeName(mode)| < 10
  {
    match mode
    case Manual =>
    case All => assert "all"[0] != "manual"[0];
    case Auto => assert "auto"[1] != "manual"[1] && "auto"[1] != "all"[1];
  }

  lemma {:induction false} ModeNamesArePlain(mode: Mode)
    ensures Trim(TrimRight(ModeName(mode))) == ModeName(mode)
  {
    PlainValue(ModeName(mode));
  }

  lemma {:induction false} AssignMode(c: Settings, value: string)
    ensures Assign(c, "mode", value) == c.(mode := ModeNamed(value, c.mode))
  {
  }

  lemma {:induction false} ParseModeText(x: Settings, c: Settings)
    ensures Parse(x, Text(c)) == Parse(x.(mode := c.mode), NameText(c))
  {
    var name, rest := ModeName(c.mode), NameText(c);
    ModeNamesAreRead(c.mode, x.mode);
    ModeNamesArePlain(c.mode);
    AssignMode(x, name);
    ParseEntry(x, "mode", name, rest);
  }

  // What parsing yields from printed settings whose name holds no newline.
  lemma {:induction false} ParseOfText(c0: Settings, c: Settings)
    requires Storable(c) && '\n' !in c.ifaceName
    ensures Parse(c0, Text(c)) == Restored(c0, c)
  {
    var c1 := c0.(mode := c.mode);
    var c2 := c1.(ifaceName := FirstN(Trim(TrimRight(c.ifaceName)), NAME_CAP - 1));
    var c3 := c2.(includeVirtual := c.includeVirtual);
    ParseModeText(c0, c);
    ParseNameText(c1, c);
    ParseVirtualText(c2, c);
    ParseBitsText(c3, c);
    ParseIntervalText(c3.(useBits := c.useBits), c);
  }

  lemma {:induction false} TrimLeftShortens(s: string)
    ensures |TrimLeft(s)| <= |s| && (|TrimLeft(s)| < |s| <==> s != "" && IsLeading(s[0]))
  {
    if s != "" && IsLeading(s[0]) { TrimLeftShortens(s[1..]); }
  }

  // A name comes back exactly when it is printable.
  lemma {:induction false} NameComesBack(name: string)
    requires |name| < NAME_CAP && '\n' !in name
    ensures FirstN(Trim(TrimRight(name)), NAME_CAP - 1) == name <==> Printable(name)
  {
    if Printable(name) {
      PlainValue(name);
    } else {
      var r := TrimRight(name);
      TrimRightIsPrefix(name);
      TrimLeftShortens(r);
      TrimRightIsPrefix(TrimLeft(r));
      assert r == name ==> |TrimLeft(r)| < |name|;
      assert |Trim(r)| < |name|;
    }
  }

  // Neither a newline in the name nor an interval of zero can come out of parsing.
  lemma {:induction false} LinesHaveNoNewline(text: string)
    ensures forall k | 0 <= k < |Lines(text)| :: '\n' !in Lines(text)[k]
    decreases |text|
  {
    var k := IndexOf(text, '\n');
    if k < |text| {
      LinesHaveNoNewline(text[k + 1..]);
    } else {
      assert text[..k] == text;
    }
  }

  lemma {:induction false} TrimKeepsCharacters(s: string, c: char)
    requires c !in s
    ensures c !in TrimLeft(s) && c !in TrimRight(s)
  {
    if s != "" {
      assert forall x | x in s[1..] :: x in s;
      TrimKeepsCharacters(s[1..], c);
      assert forall x | x in s[..|s| - 1] :: x in s;
      TrimKeepsCharacters(s[..|s| - 1], c);
    }
  }

  lemma {:induction false} TrimBothKeepsCharacters(s: string, c: char)
    requires c !in s
    ensures c !in Trim(s)
  {
    TrimKeepsCharacters(s, c);
    TrimKeepsCharacters(TrimLeft(s), c);
  }

  lemma {:induction false} AppliedLineIsSound(c: Settings, line: string)
    requires '\n' !in line && '\n' !in c.ifaceName && c.intervalMs > 0
    ensures '\n' !in ApplyLine(c, line).ifaceName && ApplyLine(c, line).intervalMs > 0
  {
    var t := Trim(line);
    TrimBothKeepsCharacters(line, '\n');
    var eq := IndexOf(t, '=');
    if t != "" && eq < |t| {
      assert forall x | x in t[eq + 1..] :: x in t;
      TrimBothKeepsCharacters(t[eq + 1..], '\n');
    }
  }

  lemma {:induction false} AppliedLinesAreSound(c: Settings, lines: seq<string>)
    requires forall k | 0 <= k < |lines| :: '\n' !in lines[k]
    requires '\n' !in c.ifaceName && c.intervalMs > 0
    ensures '\n' !in ApplyLines(c, lines).ifaceName && ApplyLines(c, lines).intervalMs > 0
    decreases |lines|
  {
    if lines != [] {
      AppliedLineIsSound(c, FirstN(lines[0], LINE_CAP - 1));
      AppliedLinesAreSound(ApplyLine(c, FirstN(lines[0], LINE_CAP - 1)), lines[1..]);
    }
  }

  // Printed settings come back whole from any starting settings exactly when the name is printable
  // and the interval is not zero.
  lemma {:induction false} RoundTrip(c: Settings)
    requires Storable(c)
    ensures (forall c0 :: Parse(c0, Text(c)) == c) <==> Printable(c.ifaceName) && c.intervalMs > 0
  {
    if '\n' !in c.ifaceName && c.intervalMs > 0 {
      NameComesBack(c.ifaceName);
      forall c0 ensures Parse(c0, Text(c)) == c <==> Printable(c.ifaceName) {
        ParseOfText(c0, c);
      }
      assert Parse(DEFAULTS, Text(c)) == c <==> Printable(c.ifaceName);
    } else {
      LinesHaveNoNewline(Text(c));
      AppliedLinesAreSound(DEFAULTS, Lines(Text(c)));
      assert Parse(DEFAULTS, Text(c)) != c;
    }
  }

  // A printed text always fits the buffers involved: no line is cut, and 256 bytes hold it.
  lemma {:induction false} PrintedTextIsShort(c: Settings)
    requires Storable(c)
    ensures |Text(c)| < 256
  {
    DigitsArePlain(c.intervalMs);
  }

  lemma {:induction false} EntryIs(key: string, head: string, value: string, rest: string)
    requires key + "=" == head
    ensures Entry(key, value, rest) == (head + value + "\n") + rest
  {
  }

  // The settings text, line by line.
  lemma {:induction false} TextLineByLine(c: Settings)
    ensures var mode := if c.mode.Auto? then "auto" else if c.mode.Manual? then "manual" else "all";
            var virtual, bits := if c.includeVirtual then "1" else "0", if c.useBits then "1" else "0";
            Text(c) == ("mode=" + mode + "\n")
                       + (("iface=" + c.ifaceName + "\n")
                          + (("include_virtual=" + virtual + "\n")
                             + (("use_bits=" + bits + "\n")
                                + ("interval_ms=" + Print(c.intervalMs) + "\n" + ""))))
  {
    EntryIs("mode", "mode=", ModeName(c.mode), NameText(c));
    EntryIs("iface", "iface=", c.ifaceName, VirtualText(c));
    EntryIs("include_virtual", "include_virtual=", BitText(c.includeVirtual), BitsText(c));
    EntryIs("use_bits", "use_bits=", BitText(c.useBits), IntervalText(c));
    EntryIs("interval_ms", "interval_ms=", Print(c.intervalMs), "");
  }
}
