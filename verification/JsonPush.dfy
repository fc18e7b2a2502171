/** The stream parser (JsonStream.h): one byte at a time, a call for each
    scalar and each object's end, no deeper than five levels. */
module JsonPush {
  import opened Text
  import opened JsonTree

  const MAX_DEPTH := 5
  const KEY_LEN := 12
  const VALUE_LEN := 72

  type Level = x: int | 0 <= x < 256

  // What a callback sees: the depth, the key at each level down to it, whether
  // the last text was cut, and the value; none at an object's end
  datatype Call = Call(depth: nat, path: seq<string>, value: Option<string>, cut: bool)

  // objects: for the first eight levels, whether each is an object; hex: the
  // digits of an escape still to skip; calls: what was reported
  datatype State = State(
    keys: seq<string>, objects: seq<bool>, depth: Level,
    str: bool, esc: bool, bare: bool, wantKey: bool, cut: bool, hex: nat, buf: string, calls: seq<Call>)

  // Within the arrays, whatever has been fed
  predicate Valid(s: State) {
    && |s.keys| == MAX_DEPTH && (forall i | 0 <= i < MAX_DEPTH :: |s.keys[i]| < KEY_LEN)
    && |s.objects| == 8 && |s.buf| < VALUE_LEN && s.hex <= 4
  }

  function Fresh(): (s: State)
    ensures Valid(s)
  {
    State(["", "", "", "", ""], [false, false, false, false, false, false, false, false], 0,
          false, false, false, false, false, 0, "", [])
  }

  function Capped(depth: nat): nat {
    if depth > MAX_DEPTH then MAX_DEPTH else depth
  }

  function Report(s: State, value: Option<string>): (t: State)
    requires Valid(s)
    ensures Valid(t)
  {
    if 1 <= s.depth <= MAX_DEPTH then s.(calls := s.calls + [Call(s.depth, s.keys[..s.depth], value, s.cut)]) else s
  }

  function Put(s: State, c: char): (t: State)
    requires Valid(s)
    ensures Valid(t)
  {
    if |s.buf| + 1 < VALUE_LEN then s.(buf := s.buf + [c]) else s.(cut := true)
  }

  // A number or literal ends
  function Scalar(s: State): (t: State)
    requires Valid(s)
    ensures Valid(t)
  {
    if s.bare then Report(s.(bare := false), Some(s.buf)).(buf := "") else s
  }

  function Opened(s: State, members: bool): (t: State)
    requires Valid(s)
    ensures Valid(t)
  {
    if s.depth == 255 then s
    else
      var d := s.depth + 1;
      s.(depth := d,
         objects := if d <= 8 then s.objects[d - 1 := members] else s.objects,
         keys := if d <= MAX_DEPTH then s.keys[d - 1 := ""] else s.keys,
         wantKey := members)
  }

  predicate InObject(s: State)
    requires Valid(s)
  {
    1 <= s.depth <= 8 && s.objects[s.depth - 1]
  }

  function CutKey(s: string): string {
    if |s| >= KEY_LEN then s[..KEY_LEN - 1] else s
  }

  function InString(s: State, c: char): (t: State)
    requires Valid(s)
    ensures Valid(t)
  {
    if s.hex > 0 then s.(hex := s.hex - 1)
    else if s.esc then
      if c == 'u' then Put(s.(esc := false, hex := 4), '?') else Put(s.(esc := false), c)
    else if c == '\\' then s.(esc := true)
    else if c != '"' then Put(s, c)
    else
      var q := s.(str := false);
      if q.wantKey then
        q.(keys := if 1 <= q.depth <= MAX_DEPTH then q.keys[q.depth - 1 := CutKey(q.buf)] else q.keys,
           wantKey := false, buf := "")
      else Report(q, Some(q.buf)).(buf := "")
  }

  function Closed(s: State, members: bool): (t: State)
    requires Valid(s)
    ensures Valid(t)
  {
    var r := if members then Report(s, None) else s;
    r.(depth := if r.depth > 0 then r.depth - 1 else 0)
  }

  // A byte of a number or a literal, or junk
  function Bare(s: State, c: char): (t: State)
    requires Valid(s)
    ensures Valid(t)
  {
    Put(if s.buf == "" then s.(cut := false) else s, c).(bare := true)
  }

  function Feed(s: State, c: char): (t: State)
    requires Valid(s)
    ensures Valid(t)
  {
    if s.str then InString(s, c)
    else if c == '"' then Scalar(s).(str := true, buf := "", cut := false)
    else if c == '{' || c == '[' then Opened(Scalar(s), c == '{')
    else if c == '}' || c == ']' then Closed(Scalar(s), c == '}')
    else if c == ',' then
      var q := Scalar(s);
      q.(wantKey := InObject(q))
    else if c == ':' then s.(wantKey := false)
    else if IsSpace(c) then Scalar(s)
    else Bare(s, c)
  }

  function FeedAll(s: State, text: string): (t: State)
    requires Valid(s)
    ensures Valid(t)
    decreases |text|
  {
    if text == "" then s else FeedAll(Feed(s, text[0]), text[1..])
  }
}
