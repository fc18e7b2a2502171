/** The reader (Json.h): pointers into the text are the rest of the text. */
module JsonReader {
  import opened Text
  import opened JsonTree

  const MAX_DEPTH := 10

  datatype Kind = BAD | STRING | INTEGER | NUMBER | BOOL | NUL | OBJECT | ARRAY

  // at: for a string, the text after the opening quote; for an object or an
  // array, from the bracket
  datatype Value = Value(kind: Kind, neg: bool, mag: Word, at: string)

  // ── Scanning ───────────────────────────────────────────────────────────────

  function SkipSpaces(s: string): (r: string)
    ensures |r| <= |s|
  {
    if s != "" && IsSpace(s[0]) then SkipSpaces(s[1..]) else s
  }

  // s after the opening quote; the rest after the closing one
  function StringRest(s: string): (r: Option<string>)
    ensures r.Some? ==> |r.value| < |s|
  {
    if Head(s) == '\0' then None
    else if s[0] == '"' then Some(s[1..])
    else if s[0] != '\\' then StringRest(s[1..])
    else if Head(s[1..]) == 'u' then if |s| >= 6 && Hex4(s[2..6]) then StringRest(s[6..]) else None
    else if IsEscape(Head(s[1..])) then StringRest(s[2..])
    else None
  }

  function SkipDigits(s: string): (r: string)
    ensures |r| <= |s|
  {
    if s != "" && IsDigit(s[0]) then SkipDigits(s[1..]) else s
  }

  function DigitsRest(s: string): (r: Option<string>)
    ensures r.Some? ==> |r.value| < |s|
  {
    if IsDigit(Head(s)) then Some(SkipDigits(s)) else None
  }

  function FracRest(s: string): (r: Option<string>)
    ensures r.Some? ==> |r.value| <= |s|
  {
    if Head(s) == '.' then DigitsRest(s[1..]) else Some(s)
  }

  function ExpRest(s: string): (r: Option<string>)
    ensures r.Some? ==> |r.value| <= |s|
  {
    if Head(s) == 'e' || Head(s) == 'E' then DigitsRest(s[1 + SignLength(s[1..])..]) else Some(s)
  }

  function NumberRest(s: string): (r: Option<string>)
    ensures r.Some? ==> |r.value| < |s|
  {
    var p := if Head(s) == '-' then s[1..] else s;
    match DigitsRest(p)
    case None => None
    case Some(w) =>
      match FracRest(w)
      case None => None
      case Some(f) => ExpRest(f)
  }

  predicate Starts(s: string, word: string) {
    |word| <= |s| && s[..|word|] == word
  }

  // ── Values ─────────────────────────────────────────────────────────────────

  function ValueRest(s: string, depth: nat): (r: Option<string>)
    ensures r.Some? ==> |r.value| < |s|
    decreases |s|, 1
  {
    var p := SkipSpaces(s);
    if Head(p) == '"' then StringRest(p[1..])
    else if Head(p) == '{' || Head(p) == '[' then
      if depth >= MAX_DEPTH then None
      else if Head(p) == '{' then MembersRest(p, depth + 1)
      else ItemsRest(p, depth + 1)
    else if Starts(p, "true") then Some(p[4..])
    else if Starts(p, "false") then Some(p[5..])
    else if Starts(p, "null") then Some(p[4..])
    else NumberRest(p)
  }

  // p at the '{'
  function MembersRest(p: string, depth: nat): (r: Option<string>)
    requires Head(p) == '{'
    ensures r.Some? ==> |r.value| < |p|
    decreases |p|, 0
  {
    var q := SkipSpaces(p[1..]);
    if Head(q) == '}' then Some(q[1..]) else MemberRest(q, depth)
  }

  // From a member's name on
  function MemberRest(q: string, depth: nat): (r: Option<string>)
    ensures r.Some? ==> |r.value| < |q|
    decreases |q|, 1
  {
    match OneRest(q, depth)
    case None => None
    case Some(e) =>
      var n := SkipSpaces(e);
      if Head(n) == '}' then Some(n[1..])
      else if Head(n) == ',' then MemberRest(SkipSpaces(n[1..]), depth)
      else None
  }

  // A member's name, colon and value: the rest after the value
  function OneRest(q: string, depth: nat): (r: Option<string>)
    ensures r.Some? ==> |r.value| < |q|
    decreases |q|, 0
  {
    match MemberValue(q)
    case None => None
    case Some(v) => ValueRest(v, depth)
  }

  // The name and the colon: the rest after it
  function MemberValue(q: string): (r: Option<string>)
    ensures r.Some? ==> |r.value| < |q|
  {
    if Head(q) != '"' then None
    else
      match StringRest(q[1..])
      case None => None
      case Some(e) =>
        var c := SkipSpaces(e);
        if Head(c) == ':' then Some(c[1..]) else None
  }

  // p at the '['
  function ItemsRest(p: string, depth: nat): (r: Option<string>)
    requires Head(p) == '['
    ensures r.Some? ==> |r.value| < |p|
    decreases |p|, 0
  {
    var q := SkipSpaces(p[1..]);
    if Head(q) == ']' then Some(q[1..]) else ItemRest(q, depth)
  }

  function ItemRest(q: string, depth: nat): (r: Option<string>)
    ensures r.Some? ==> |r.value| < |q|
    decreases |q|, 2
  {
    match ValueRest(q, depth)
    case None => None
    case Some(e) =>
      var n := SkipSpaces(e);
      if Head(n) == ']' then Some(n[1..])
      else if Head(n) == ',' then ItemRest(n[1..], depth)
      else None
  }

  // Digits as they are gathered in 32 bits: whether they all fit, and the sum
  function Gather(digits: string): (bool, Word)
    requires AllDigits(digits)
  {
    if digits == "" then (true, 0)
    else
      var (fits, mag) := Gather(digits[..|digits| - 1]);
      var d := DigitValue(digits[|digits| - 1]);
      (fits && mag <= (0xFFFF_FFFF - d) / 10, (mag * 10 + d) % WORD)
  }

  function Run(s: string): (d: string)
    ensures AllDigits(d) && d + SkipDigits(s) == s
  {
    if s != "" && IsDigit(s[0]) then [s[0]] + Run(s[1..]) else ""
  }

  function NumberValue(p: string): Value
    requires NumberRest(p).Some?
  {
    var neg := Head(p) == '-';
    var q := if neg then p[1..] else p;
    var (fits, mag) := Gather(Run(q));
    var whole := Head(SkipDigits(q)) != '.' && Head(SkipDigits(q)) != 'e' && Head(SkipDigits(q)) != 'E';
    Value(if fits && whole then INTEGER else NUMBER, neg, mag, p)
  }

  // The value whose text begins at p, its spaces skipped
  function ValueAt(p: string, depth: nat): Value
    requires ValueRest(p, depth).Some? && SkipSpaces(p) == p
  {
    if Head(p) == '"' then Value(STRING, false, 0, p[1..])
    else if Head(p) == '{' then Value(OBJECT, false, 0, p)
    else if Head(p) == '[' then Value(ARRAY, false, 0, p)
    else if Starts(p, "true") then Value(BOOL, false, 1, p)
    else if Starts(p, "false") then Value(BOOL, false, 0, p)
    else if Starts(p, "null") then Value(NUL, false, 0, p)
    else NumberValue(p)
  }

  // ── The callbacks ──────────────────────────────────────────────────────────

  // key: as written, its escapes not decoded
  datatype Call = Call(key: string, value: Value)

  function KeyOf(q: string): string
    requires MemberValue(q).Some?
  {
    var rest := StringRest(q[1..]).value;
    q[1..|q| - |rest| - 1]
  }

  function OneCall(q: string, depth: nat): Call
    requires OneRest(q, depth).Some?
  {
    var v := MemberValue(q).value;
    SkipTwice(v);
    SkipFirst(v, depth);
    Call(KeyOf(q), ValueAt(SkipSpaces(v), depth))
  }

  function MemberCalls(q: string, depth: nat): seq<Call>
    requires MemberRest(q, depth).Some?
    decreases |q|
  {
    var n := SkipSpaces(OneRest(q, depth).value);
    [OneCall(q, depth)] + if Head(n) == ',' then MemberCalls(SkipSpaces(n[1..]), depth) else []
  }

  lemma {:induction false} SkipTwice(s: string)
    ensures SkipSpaces(SkipSpaces(s)) == SkipSpaces(s)
  {
    if s != "" && IsSpace(s[0]) {
      SkipTwice(s[1..]);
    }
  }

  lemma SkipFirst(s: string, depth: nat)
    ensures ValueRest(SkipSpaces(s), depth) == ValueRest(s, depth)
  {
    SkipTwice(s);
  }

  function MembersCalls(p: string, depth: nat): seq<Call>
    requires Head(p) == '{' && MembersRest(p, depth).Some?
  {
    var q := SkipSpaces(p[1..]);
    if Head(q) == '}' then [] else MemberCalls(q, depth)
  }

  // object: the calls made, if the text begins with an object
  function ObjectCalls(text: string): Option<seq<Call>> {
    var p := SkipSpaces(text);
    if Head(p) == '{' && MembersRest(p, 1).Some? then Some(MembersCalls(p, 1)) else None
  }

  // ── Numbers ────────────────────────────────────────────────────────────────

  lemma {:induction false} GatherExactly(digits: string)
    requires AllDigits(digits)
    ensures var (fits, mag) := Gather(digits);
            (fits <==> NumberIn(digits) < WORD) && mag == NumberIn(digits) % WORD
  {
    if digits != "" {
      var before, d := digits[..|digits| - 1], DigitValue(digits[|digits| - 1]);
      GatherExactly(before);
      var (fits, mag) := Gather(before);
      if fits {
        assert mag == NumberIn(before);
      } else {
        assert NumberIn(digits) >= NumberIn(before);
      }
      Shift(NumberIn(before), d);
    }
  }

  lemma Shift(n: nat, d: nat)
    ensures (n % WORD * 10 + d) % WORD == (n * 10 + d) % WORD
  {
    var q := n / WORD * 10;
    assert n * 10 + d == n % WORD * 10 + d + WORD * q;
    Turns(n % WORD * 10 + d, q);
  }

  lemma {:induction false} Turns(n: nat, q: nat)
    ensures (n + WORD * q) % WORD == n % WORD
  {
    if q > 0 {
      Turns(n, q - 1);
    }
  }
}
