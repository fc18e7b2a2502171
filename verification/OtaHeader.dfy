/** The head of an answer, read byte by byte (OTAService.h). */
module OtaHeader {
  import opened Numerals
  import opened Text
  import OtaTag

  const NAME_CAP := 32

  const LOCATION := "Location"
  const CONTENT_LENGTH := "Content-Length"

  datatype Stage = STATUS | NAME | VALUE_WS | VALUE | DONE | BROKEN

  // What the head has said so far; no length is -1
  datatype Seen = Seen(code: int, length: int, location: string)

  // text: what is gathered of the name or the value
  datatype Header = Header(stage: Stage, text: string, takesLocation: bool, takesLength: bool, seen: Seen)

  const BEGUN := Header(STATUS, "", false, false, Seen(0, -1, ""))

  function Lower(c: char): char {
    if 'A' <= c <= 'Z' then (c as int + 32) as char else c
  }

  // The same name in either case
  predicate Is(a: string, b: string) {
    |a| == |b| && forall i | 0 <= i < |a| :: Lower(a[i]) == Lower(b[i])
  }

  function Capitals(): string {
    "ABCDEFGHIJKLMNOPQRSTUVWXYZ"
  }

  function Smalls(): string {
    "abcdefghijklmnopqrstuvwxyz"
  }

  // The same, or the capital and the small letter
  ghost predicate SameLetter(c: char, d: char) {
    c == d || exists i :: Cases(c, d, i)
  }

  predicate Cases(c: char, d: char, i: nat) {
    i < |Capitals()| == |Smalls()| && ((c == Capitals()[i] && d == Smalls()[i]) || (d == Capitals()[i] && c == Smalls()[i]))
  }

  lemma CapitalAt(i: nat)
    requires i < 26
    ensures |Capitals()| == |Smalls()| == 26
    ensures Capitals()[i] == ('A' as int + i) as char && Smalls()[i] == ('a' as int + i) as char
  {
  }

  lemma SameExactly(c: char, d: char)
    ensures Lower(c) == Lower(d) <==> SameLetter(c, d)
  {
    hide Capitals, Smalls;
    CapitalAt(0);
    forall i | Cases(c, d, i) ensures Lower(c) == Lower(d) {
      CapitalAt(i);
    }
    if Lower(c) == Lower(d) && c != d {
      var i := (if c < d then c else d) as int - 'A' as int;
      CapitalAt(i);
      assert Cases(c, d, i);
    }
  }

  // Names are the same when each of their characters is
  lemma IsExactly(a: string, b: string)
    ensures Is(a, b) <==> |a| == |b| && forall i | 0 <= i < |a| :: SameLetter(a[i], b[i])
  {
    hide Lower;
    forall i | 0 <= i < |a| && i < |b| ensures Lower(a[i]) == Lower(b[i]) <==> SameLetter(a[i], b[i]) {
      SameExactly(a[i], b[i]);
    }
  }

  lemma OneName(a: string)
    ensures !(Is(a, LOCATION) && Is(a, CONTENT_LENGTH))
  {
    assert |LOCATION| == 8 && |CONTENT_LENGTH| == 14;
  }

  // ── One byte ───────────────────────────────────────────────────────────────

  // A buffer already full keeps what it has
  function Add(text: string, c: char, cap: nat): string {
    if |text| + 1 < cap then text + [c] else text
  }

  // A C string with nothing in it
  predicate Empty(s: string) {
    s == "" || s[0] == '\0'
  }

  lemma EmptyExactly(s: string)
    ensures Empty(s) <==> CString(s) == ""
  {
  }

  // Where the status line has its code: after the first space, if a digit is there
  function CodeAt(s: string): (n: Option<nat>)
    ensures n.Some? ==> 0 < n.value < |s|
  {
    var sp := Before(s, ' ');
    if |sp| + 1 < |s| && IsDigit(s[|sp| + 1]) then Some(|sp| + 1) else None
  }

  // What comes before the first such character
  function Before(s: string, c: char): (t: string)
    ensures t <= s && c !in t && (|t| < |s| ==> s[|t|] == c)
  {
    if s == "" || s[0] == c then "" else [s[0]] + Before(s[1..], c)
  }

  predicate Begins(s: string) {
    "HTTP/" <= s
  }

  function Status(h: Header): Header {
    var s := CString(h.text);
    var at := CodeAt(s);
    if !Begins(s) || at.None? then h.(stage := BROKEN)
    else h.(stage := NAME, text := "", seen := h.seen.(code := Atoi(s[at.value..])))
  }

  // cap: the room for the location, its terminator included; none is 0
  function Named(h: Header, cap: nat): Header {
    var name := CString(h.text);
    h.(stage := VALUE_WS,
       takesLocation := cap > 0 && Empty(h.seen.location) && Is(name, LOCATION),
       takesLength := Is(name, CONTENT_LENGTH))
  }

  function Valued(h: Header): Header {
    h.(stage := NAME, text := "",
       seen := Seen(h.seen.code,
                    if h.takesLength then Atoi(h.text) else h.seen.length,
                    if h.takesLocation then h.text else h.seen.location))
  }

  function FeedValue(h: Header, c: char, cap: nat): Header {
    if c == '\n' then Valued(h)
    else if c == '\r' then h
    else if h.takesLocation then h.(text := Add(h.text, c, cap))
    else if h.takesLength then h.(text := Add(h.text, c, NAME_CAP))
    else h
  }

  function Feed(h: Header, c: char, cap: nat): Header {
    match h.stage
    case VALUE_WS => if OtaTag.IsBlank(c) then h else FeedValue(h.(stage := VALUE, text := ""), c, cap)
    case VALUE => FeedValue(h, c, cap)
    case STATUS =>
      if c == '\r' then h
      else if c == '\n' then Status(h)
      else h.(text := Add(h.text, c, NAME_CAP))
    case NAME =>
      if c == '\r' then h
      else if c == '\n' then if h.text == "" then h.(stage := DONE) else h.(text := "")
      else if c == ':' then Named(h, cap)
      else h.(text := Add(h.text, c, NAME_CAP))
    case DONE => h
    case BROKEN => h
  }

  function FeedAll(h: Header, text: string, cap: nat): Header {
    if text == "" then h else Feed(FeedAll(h, text[..|text| - 1], cap), text[|text| - 1], cap)
  }

  lemma {:induction false} FedApart(h: Header, a: string, b: string, cap: nat)
    ensures FeedAll(h, a + b, cap) == FeedAll(FeedAll(h, a, cap), b, cap)
    decreases |b|
  {
    if b == "" {
      assert a + b == a;
    } else {
      var n := |b| - 1;
      assert (a + b)[..|a + b| - 1] == a + b[..n];
      FedApart(h, a, b[..n], cap);
    }
  }

  lemma OneFed(h: Header, a: string, c: char, cap: nat)
    ensures FeedAll(h, a + [c], cap) == Feed(FeedAll(h, a, cap), c, cap)
  {
    assert (a + [c])[..|a|] == a;
  }

  // ── Lines, as the head is written ──────────────────────────────────────────

  // Without the carriage returns
  function Plain(s: string): (t: string)
    ensures |t| <= |s|
    ensures forall c :: c in t <==> c in s && c != '\r'
  {
    if s == "" then ""
    else
      var n := |s| - 1;
      assert s == s[..n] + [s[n]];
      if s[n] == '\r' then Plain(s[..n]) else Plain(s[..n]) + [s[n]]
  }

  // What fits, the terminator included
  function Cut(s: string, cap: nat): string {
    if |s| + 1 <= cap then s else if cap == 0 then "" else s[..cap - 1]
  }

  function SkipBlanks(s: string): (t: string)
    ensures |t| <= |s| && t == s[|s| - |t|..] && (t != "" ==> !OtaTag.IsBlank(t[0]))
    ensures forall i | 0 <= i < |s| - |t| :: OtaTag.IsBlank(s[i])
  {
    if s != "" && OtaTag.IsBlank(s[0]) then
      var t := SkipBlanks(s[1..]);
      assert forall i | 1 <= i < |s| - |t| :: s[i] == s[1..][i - 1];
      t
    else s
  }

  function NameOf(line: string): string {
    CString(Cut(Plain(Before(line, ':')), NAME_CAP))
  }

  function ValueOf(line: string): string {
    var name := Before(line, ':');
    if name == line then "" else Plain(SkipBlanks(line[|name| + 1..]))
  }

  predicate IsField(line: string, name: string) {
    ':' in line && Is(NameOf(line), name)
  }

  // What one line of the head adds
  function Took(s: Seen, line: string, cap: nat): Seen {
    s.(length := if IsField(line, CONTENT_LENGTH) then Atoi(Cut(ValueOf(line), NAME_CAP)) else s.length,
       location := if cap > 0 && Empty(s.location) && IsField(line, LOCATION) then Cut(ValueOf(line), cap) else s.location)
  }

  function TookAll(s: Seen, lines: seq<string>, cap: nat): Seen {
    if lines == [] then s else Took(TookAll(s, lines[..|lines| - 1], cap), lines[|lines| - 1], cap)
  }

  // A status line that is taken, and its code
  function CodeOf(line: string): Option<int> {
    var s := CString(Cut(Plain(line), NAME_CAP));
    var at := CodeAt(s);
    if Begins(s) && at.Some? then Some(Atoi(s[at.value..])) else None
  }

  predicate OneLine(s: string) {
    '\n' !in s
  }

  predicate IsEnd(s: string) {
    forall i | 0 <= i < |s| :: s[i] == '\r'
  }

  function Lines(lines: seq<string>): string {
    if lines == [] then "" else Lines(lines[..|lines| - 1]) + (lines[|lines| - 1] + ['\n'])
  }

  // ── What feeding a line does ───────────────────────────────────────────────

  lemma {:induction false} Gathered(h: Header, s: string, cap: nat)
    requires h.stage == STATUS || (h.stage == NAME && ':' !in s)
    requires h.text == "" && OneLine(s)
    ensures FeedAll(h, s, cap) == h.(text := Cut(Plain(s), NAME_CAP))
  {
    if s != "" {
      var n := |s| - 1;
      assert s == s[..n] + [s[n]];
      Gathered(h, s[..n], cap);
    }
  }

  // Blanks before a value are passed over
  lemma {:induction false} BlanksFed(h: Header, s: string, cap: nat)
    requires h.stage == VALUE_WS && forall i | 0 <= i < |s| :: OtaTag.IsBlank(s[i])
    ensures FeedAll(h, s, cap) == h
  {
    if s != "" {
      BlanksFed(h, s[..|s| - 1], cap);
    }
  }

  lemma CutGrows(s: string, c: char, cap: nat)
    ensures Add(Cut(s, cap), c, cap) == Cut(s + [c], cap)
  {
  }

  function ValueKept(h: Header, s: string, cap: nat): string {
    if h.takesLocation then Cut(Plain(s), cap) else if h.takesLength then Cut(Plain(s), NAME_CAP) else ""
  }

  lemma {:induction false} ValueFed(h: Header, s: string, cap: nat)
    requires h.stage == VALUE_WS && OneLine(s) && s != "" && !OtaTag.IsBlank(s[0])
    ensures FeedAll(h, s, cap) == h.(stage := VALUE, text := ValueKept(h, s, cap))
  {
    var n := |s| - 1;
    assert s == s[..n] + [s[n]];
    if n == 0 {
      assert Plain(s[..0]) == "";
    } else {
      ValueFed(h, s[..n], cap);
      CutGrows(Plain(s[..n]), s[n], cap);
      CutGrows(Plain(s[..n]), s[n], NAME_CAP);
    }
  }

  // A line of the head
  lemma LineFed(h: Header, line: string, cap: nat)
    requires h.stage == NAME && h.text == "" && OneLine(line) && !IsEnd(line)
    ensures var g := FeedAll(h, line + ['\n'], cap);
            g.stage == NAME && g.text == "" && g.seen == Took(h.seen, line, cap)
  {
    OneFed(h, line, '\n', cap);
    if ':' in line {
      FieldFed(h, line, cap);
    } else {
      Gathered(h, line, cap);
      assert Before(line, ':') == line;
      var k :| 0 <= k < |line| && line[k] != '\r';
      assert line[k] in Plain(line);
    }
  }

  // The pieces of a line with a colon
  lemma FieldApart(line: string) returns (blanks: string)
    requires OneLine(line) && ':' in line
    ensures var name := Before(line, ':');
            && |name| < |line| && OneLine(name) && ':' !in name
            && var value := SkipBlanks(line[|name| + 1..]);
               && line == name + [':'] + blanks + value && OneLine(value)
               && forall i | 0 <= i < |blanks| :: OtaTag.IsBlank(blanks[i])
  {
    hide Before, SkipBlanks;
    var name := Before(line, ':');
    assert name != line;
    var rest := line[|name| + 1..];
    var value := SkipBlanks(rest);
    blanks := rest[..|rest| - |value|];
    assert rest == blanks + value;
    assert line == name + [':'] + rest;
    assert line == name + [':'] + blanks + value;
  }

  lemma NameFed(h: Header, name: string, cap: nat)
    requires h.stage == NAME && h.text == "" && OneLine(name) && ':' !in name
    ensures FeedAll(h, name + [':'], cap) == Named(h.(text := Cut(Plain(name), NAME_CAP)), cap)
  {
    Gathered(h, name, cap);
    OneFed(h, name, ':', cap);
  }

  lemma FieldFed(h: Header, line: string, cap: nat)
    requires h.stage == NAME && h.text == "" && OneLine(line) && ':' in line
    ensures var g := Feed(FeedAll(h, line, cap), '\n', cap);
            g.stage == NAME && g.text == "" && g.seen == Took(h.seen, line, cap)
  {
    hide *;
    var blanks := FieldApart(line);
    var name := Before(line, ':');
    var value := SkipBlanks(line[|name| + 1..]);
    NameFed(h, name, cap);
    var v := FeedAll(h, name + [':'], cap);
    FieldTells(h, line, cap);
    FedApart(h, name + [':'], blanks, cap);
    BlanksFed(v, blanks, cap);
    FedApart(h, name + [':'] + blanks, value, cap);
    AfterColon(v, value, cap);
  }

  // The name, then the value, are what the line adds
  lemma FieldTells(h: Header, line: string, cap: nat)
    requires ':' in line
    ensures var name := Before(line, ':');
            && |name| < |line|
            && var v := Named(h.(text := Cut(Plain(name), NAME_CAP)), cap);
               var g := Valued(v.(text := ValueKept(v, SkipBlanks(line[|name| + 1..]), cap)));
               && v.stage == VALUE_WS && !(v.takesLocation && v.takesLength)
               && g.stage == NAME && g.text == "" && g.seen == Took(h.seen, line, cap)
  {
    hide Is, Plain, CString, Atoi, Cut, Before, SkipBlanks;
    var name := Before(line, ':');
    assert name != line;
    OneName(NameOf(line));
  }

  // The value and the end of its line
  lemma AfterColon(v: Header, value: string, cap: nat)
    requires v.stage == VALUE_WS && OneLine(value) && (value != "" ==> !OtaTag.IsBlank(value[0]))
    requires !(v.takesLocation && v.takesLength)
    ensures Feed(FeedAll(v, value, cap), '\n', cap)
         == Valued(v.(text := ValueKept(v, value, cap)))
  {
    if value != "" {
      ValueFed(v, value, cap);
    } else {
      assert Plain(value) == "";
    }
  }

  // At the beginning of a line, this seen
  ghost predicate At(h: Header, seen: Seen) {
    h.stage == NAME && h.text == "" && h.seen == seen
  }

  ghost predicate IsLine(s: string) {
    OneLine(s) && !IsEnd(s)
  }

  lemma OneMoreLine(h: Header, lines: seq<string>, line: string, cap: nat)
    requires At(FeedAll(h, Lines(lines), cap), TookAll(h.seen, lines, cap)) && IsLine(line)
    ensures At(FeedAll(h, Lines(lines + [line]), cap), TookAll(h.seen, lines + [line], cap))
  {
    hide Is, Plain, CString, Atoi, Cut, FeedAll, Took;
    assert (lines + [line])[..|lines|] == lines;
    FedApart(h, Lines(lines), line + ['\n'], cap);
    LineFed(FeedAll(h, Lines(lines), cap), line, cap);
  }

  lemma Begun(h: Header, cap: nat)
    requires h.stage == NAME && h.text == ""
    ensures At(FeedAll(h, Lines([]), cap), TookAll(h.seen, [], cap))
  {
  }

  lemma {:induction false} LinesFed(h: Header, lines: seq<string>, cap: nat)
    requires h.stage == NAME && h.text == ""
    requires forall k | 0 <= k < |lines| :: IsLine(lines[k])
    ensures At(FeedAll(h, Lines(lines), cap), TookAll(h.seen, lines, cap))
  {
    hide IsLine, Took, Feed, At;
    if lines == [] {
      Begun(h, cap);
    } else {
      var n := |lines| - 1;
      LinesFed(h, lines[..n], cap);
      OneMoreLine(h, lines[..n], lines[n], cap);
      assert lines == lines[..n] + [lines[n]];
    }
  }

  lemma {:induction false} EndFed(h: Header, end: string, cap: nat)
    requires h.stage == NAME && IsEnd(end)
    ensures FeedAll(h, end, cap) == h
  {
    if end != "" {
      EndFed(h, end[..|end| - 1], cap);
    }
  }

  lemma {:induction false} BrokenStays(h: Header, s: string, cap: nat)
    requires h.stage == BROKEN
    ensures FeedAll(h, s, cap) == h
  {
    if s != "" {
      BrokenStays(h, s[..|s| - 1], cap);
    }
  }

  // Any head: refused for its status line, or complete with its last byte and
  // not before, with the code and what its lines say
  lemma HeadRead(status: string, lines: seq<string>, end: string, cap: nat)
    requires OneLine(status) && IsEnd(end)
    requires forall k | 0 <= k < |lines| :: IsLine(lines[k])
    ensures var head := status + ['\n'] + Lines(lines) + end;
            var g := FeedAll(BEGUN, head + ['\n'], cap);
            && (CodeOf(status).None? ==> g.stage == BROKEN)
            && (CodeOf(status).Some? ==>
                  && FeedAll(BEGUN, head, cap).stage == NAME && g.stage == DONE
                  && g.seen == TookAll(Seen(CodeOf(status).value, -1, ""), lines, cap))
  {
    var first := status + ['\n'];
    var s := FeedAll(BEGUN, first, cap);
    Gathered(BEGUN, status, cap);
    OneFed(BEGUN, status, '\n', cap);
    FedApart(BEGUN, first, Lines(lines), cap);
    FedApart(BEGUN, first + Lines(lines), end, cap);
    OneFed(BEGUN, first + Lines(lines) + end, '\n', cap);
    if CodeOf(status).Some? {
      LinesFed(s, lines, cap);
      EndFed(FeedAll(s, Lines(lines), cap), end, cap);
    } else {
      BrokenStays(s, Lines(lines), cap);
      BrokenStays(s, end, cap);
    }
  }

  // ── What the lines say ─────────────────────────────────────────────────────

  // The length is the last one stated
  lemma {:induction false} LastLength(s: Seen, lines: seq<string>, k: nat, cap: nat)
    requires k < |lines| && IsField(lines[k], CONTENT_LENGTH)
    requires forall j | k < j < |lines| :: !IsField(lines[j], CONTENT_LENGTH)
    ensures TookAll(s, lines, cap).length == Atoi(Cut(ValueOf(lines[k]), NAME_CAP))
    decreases |lines|
  {
    if k < |lines| - 1 {
      LastLength(s, lines[..|lines| - 1], k, cap);
    }
  }

  lemma {:induction false} NoLength(s: Seen, lines: seq<string>, cap: nat)
    requires forall j | 0 <= j < |lines| :: !IsField(lines[j], CONTENT_LENGTH)
    ensures TookAll(s, lines, cap).length == s.length
  {
    if lines != [] {
      NoLength(s, lines[..|lines| - 1], cap);
    }
  }

  ghost predicate Places(line: string, cap: nat) {
    IsField(line, LOCATION) && !Empty(Cut(ValueOf(line), cap))
  }

  lemma {:induction false} NoLocation(s: Seen, lines: seq<string>, cap: nat)
    requires Empty(s.location) && forall j | 0 <= j < |lines| :: !Places(lines[j], cap)
    ensures Empty(TookAll(s, lines, cap).location)
  {
    hide Cut, ValueOf, NameOf, Is, Atoi;
    if lines != [] {
      NoLocation(s, lines[..|lines| - 1], cap);
    }
  }

  // The location is the first one that is not empty, cut to its buffer
  lemma {:induction false} FirstLocation(s: Seen, lines: seq<string>, k: nat, cap: nat)
    requires Empty(s.location) && k < |lines| && Places(lines[k], cap) && cap > 0
    requires forall j | 0 <= j < k :: !Places(lines[j], cap)
    ensures TookAll(s, lines, cap).location == Cut(ValueOf(lines[k]), cap)
    decreases |lines|
  {
    hide Cut, ValueOf, NameOf, Is, Empty, Atoi;
    var n := |lines| - 1;
    if k < n {
      FirstLocation(s, lines[..n], k, cap);
    } else {
      NoLocation(s, lines[..n], cap);
    }
  }

  // ── As servers write them ──────────────────────────────────────────────────

  lemma BeforeIs(a: string, c: char, r: string)
    requires c !in a
    ensures Before(a + [c] + r, c) == a
  {
    var s := a + [c] + r;
    var t := Before(s, c);
    assert s[|a|] == c && c in s;
    assert |t| == |a|;
    assert t == s[..|a|] == a;
  }

  lemma {:induction false} PlainAlready(s: string)
    requires '\r' !in s
    ensures Plain(s) == s
  {
    if s != "" {
      PlainAlready(s[..|s| - 1]);
      assert s == s[..|s| - 1] + [s[|s| - 1]];
    }
  }

  lemma PlainEnd(s: string)
    requires '\r' !in s
    ensures Plain(s + ['\r']) == s
  {
    PlainAlready(s);
    assert (s + ['\r'])[..|s|] == s;
  }

  // A name, a colon, a space, a value and the end of the line
  function Field(name: string, value: string): string {
    name + [':'] + ([' '] + (value + ['\r']))
  }

  // What a server states is what the parser takes
  lemma FieldStated(name: string, value: string)
    requires forall c | c in name :: c !in {':', '\r', '\n', '\0'}
    requires name != "" && |name| < NAME_CAP
    requires '\r' !in value && '\n' !in value && (value != "" ==> !OtaTag.IsBlank(value[0]))
    ensures var line := Field(name, value);
            IsLine(line) && ':' in line && NameOf(line) == name && ValueOf(line) == value
  {
    hide Before, SkipBlanks, Plain, CString;
    var rest, line := [' '] + (value + ['\r']), Field(name, value);
    assert line == name + [':'] + rest;
    BeforeIs(name, ':', rest);
    assert line[|name|] == ':';
    FieldIsLine(name, value);
    PlainAlready(name);
    CStringWhole(name);
    assert line[|name| + 1..] == rest;
    OneBlank(value + ['\r']);
    PlainEnd(value);
  }

  lemma FieldIsLine(name: string, value: string)
    requires '\n' !in name && '\n' !in value
    ensures IsLine(Field(name, value))
  {
    assert Field(name, value)[|name|] == ':';
  }

  lemma OneBlank(s: string)
    requires s != "" && !OtaTag.IsBlank(s[0])
    ensures SkipBlanks([' '] + s) == s
  {
    assert ([' '] + s)[1..] == s;
  }

  lemma PlainLetters(name: string)
    requires Is(name, CONTENT_LENGTH)
    ensures forall c | c in name :: c !in {':', '\r', '\n', '\0'}
  {
    forall c | c in name ensures c !in {':', '\r', '\n', '\0'} {
      var k :| 0 <= k < |name| && name[k] == c;
      assert Lower(CONTENT_LENGTH[k]) !in {':', '\r', '\n', '\0'};
    }
  }

  // A length a server states, in either case, is the length taken
  lemma LengthStated(name: string, n: nat)
    requires Is(name, CONTENT_LENGTH) && n <= INT_MAX
    ensures var line := Field(name, Decimal(n));
            IsLine(line) && IsField(line, CONTENT_LENGTH) && Atoi(Cut(ValueOf(line), NAME_CAP)) == n
  {
    PlainLetters(name);
    hide Is, Before, Plain, CString, SkipBlanks, Decimal, Signed;
    assert Power10(5) == 100_000 && Power10(10) == 10_000_000_000;
    DecimalShort(n, 10);
    FieldStated(name, Decimal(n));
    SignedDecimal(n);
  }

  // The whole head: its last stated length is taken, and no length is -1
  lemma HeadLength(status: string, before: seq<string>, name: string, n: nat, after: seq<string>, end: string, cap: nat)
    requires OneLine(status) && IsEnd(end) && CodeOf(status).Some?
    requires (forall l | l in before :: IsLine(l)) && forall l | l in after :: IsLine(l) && !IsField(l, CONTENT_LENGTH)
    requires Is(name, CONTENT_LENGTH) && n <= INT_MAX
    ensures var head := status + ['\n'] + Lines(before + [Field(name, Decimal(n))] + after) + end + ['\n'];
            var g := FeedAll(BEGUN, head, cap); g.stage == DONE && g.seen.length == n
  {
    hide Is, IsLine, IsField, FeedAll, CodeOf, Took, Decimal, ValueOf, Cut, Atoi;
    var field := Field(name, Decimal(n));
    var lines := before + [field] + after;
    LengthStated(name, n);
    assert lines[|before|] == field;
    HeadRead(status, lines, end, cap);
    LastLength(Seen(CodeOf(status).value, -1, ""), lines, |before|, cap);
  }

  lemma HeadWithoutLength(status: string, lines: seq<string>, end: string, cap: nat)
    requires OneLine(status) && IsEnd(end) && CodeOf(status).Some?
    requires forall l | l in lines :: IsLine(l) && !IsField(l, CONTENT_LENGTH)
    ensures var g := FeedAll(BEGUN, status + ['\n'] + Lines(lines) + end + ['\n'], cap); g.stage == DONE && g.seen.length == -1
  {
    HeadRead(status, lines, end, cap);
    NoLength(Seen(CodeOf(status).value, -1, ""), lines, cap);
  }

  // ── The status line ────────────────────────────────────────────────────────

  // A status line is taken exactly when, in the characters that fit, it begins
  // as HTTP's does and a digit stands right after its first space
  lemma StatusExactly(line: string)
    ensures var s := CString(Cut(Plain(line), NAME_CAP));
            CodeOf(line).Some? <==>
            "HTTP/" <= s && exists k :: 0 <= k < |s| - 1 && s[k] == ' ' && ' ' !in s[..k] && IsDigit(s[k + 1])
  {
    hide Plain, CString, Cut;
    var s := CString(Cut(Plain(line), NAME_CAP));
    var sp := Before(s, ' ');
    assert s[..|sp|] == sp;
    forall k | 0 <= k < |s| - 1 && s[k] == ' ' && ' ' !in s[..k] ensures k == |sp| {
      assert s == s[..k] + [' '] + s[k + 1..];
      BeforeIs(s[..k], ' ', s[k + 1..]);
    }
  }

  // The code a server states
  lemma CodeStated(version: string, code: nat, reason: string)
    requires forall c | c in version :: c !in {' ', '\r', '\n', '\0'}
    requires forall c | c in reason :: c !in {'\r', '\n', '\0'}
    requires (reason != "" ==> !IsDigit(reason[0])) && code <= INT_MAX
    requires |version| + |Decimal(code)| + 6 < NAME_CAP
    ensures CodeOf("HTTP/" + version + " " + Decimal(code) + reason + "\r") == Some(code as int)
  {
    hide Plain, CString, Before, Decimal, Atoi, Cut, Begins, CodeAt;
    var head := "HTTP/" + version;
    var begun := head + [' '] + Decimal(code);
    var line := begun + reason;
    var rest := CutAfter(begun, reason, NAME_CAP);
    assert head[..5] == "HTTP/";
    CodeTaken(head, code, rest);
    assert begun + rest == head + [' '] + (Decimal(code) + rest);
    NoBreaks(begun, reason, head, code);
    PlainEnd(line);
    assert forall c | c in begun + rest :: c in line;
    CStringWhole(begun + rest);
    assert line + ['\r'] == "HTTP/" + version + " " + Decimal(code) + reason + "\r";
  }

  lemma NoBreaks(begun: string, rest: string, head: string, code: nat)
    requires begun == head + [' '] + Decimal(code)
    requires forall c | c in head + rest :: c !in {'\r', '\n', '\0'}
    ensures forall c | c in begun + rest :: c !in {'\r', '\n', '\0'}
  {
    assert forall c | c in head || c in rest :: c in head + rest;
  }

  lemma CutAfter(a: string, b: string, cap: nat) returns (c: string)
    requires |a| < cap
    ensures c <= b && Cut(a + b, cap) == a + c
  {
    c := Cut(b, cap - |a|);
  }

  // What is gathered of the line has the code after its first space
  lemma CodeTaken(head: string, code: nat, rest: string)
    requires "HTTP/" <= head && ' ' !in head && code <= INT_MAX && (rest != "" ==> !IsDigit(rest[0]))
    ensures var s := head + [' '] + (Decimal(code) + rest);
            Begins(s) && CodeAt(s) == Some(|head| + 1) && Atoi(s[|head| + 1..]) == code
  {
    hide Before, Decimal, Atoi;
    var tail := Decimal(code) + rest;
    var s := head + [' '] + tail;
    BeforeIs(head, ' ', tail);
    assert s[|head| + 1..] == tail;
    AtoiBegins(code, rest);
    assert s[..5] == head[..5];
  }

  // A number and then something else
  lemma AtoiBegins(n: nat, rest: string)
    requires n <= INT_MAX && (rest != "" ==> !IsDigit(rest[0]))
    ensures Atoi(Decimal(n) + rest) == n && IsDigit((Decimal(n) + rest)[0])
  {
    var d := Decimal(n);
    assert IsDigit(d[0]) && (d + rest)[0] == d[0];
    hide Decimal;
    assert SkipSpaces(d + rest) == d + rest;
    LeadingStops(d, rest);
    NumberInDecimal(n);
  }
}
