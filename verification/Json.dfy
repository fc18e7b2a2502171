/** The reader's loops (Json.h): pointers advance through the text, a first
    pass checks the whole object, a second makes the callbacks. */
module Json {
  import opened Text
  import opened JsonTree
  import opened JsonReader

  method Ws(s: string) returns (p: string)
    ensures p == SkipSpaces(s)
  {
    p := s;
    while p != "" && IsSpace(p[0])
      invariant SkipSpaces(p) == SkipSpaces(s)
      decreases |p|
    {
      p := p[1..];
    }
  }

  // s after the opening quote
  method String(s: string) returns (r: Option<string>)
    ensures r == StringRest(s)
  {
    var p := s;
    while true
      invariant StringRest(p) == StringRest(s)
      decreases |p|
    {
      var c := Head(p);
      if c == '\0' {
        return None;
      }
      p := p[1..];
      if c == '"' {
        return Some(p);
      }
      if c == '\\' {
        c := Head(p);
        if c == 'u' {
          var i := 0;
          ghost var at := p;
          while i < 4
            invariant 0 <= i <= 4 && |at| >= i + 1 && p == at[i..] && at[0] == 'u'
            invariant forall k | 1 <= k <= i :: HexOf(at[k]) >= 0
          {
            p := p[1..];
            if HexOf(Head(p)) < 0 {
              assert |at| >= 5 ==> at[1..5][i] == at[i + 1];
              return None;
            }
            i := i + 1;
          }
          p := p[1..];
        } else if IsEscape(c) {
          p := p[1..];
        } else {
          return None;
        }
      }
    }
  }

  method Digits(s: string) returns (r: Option<string>)
    ensures r == DigitsRest(s)
  {
    if !IsDigit(Head(s)) {
      return None;
    }
    var p := s;
    while p != "" && IsDigit(p[0])
      invariant SkipDigits(p) == SkipDigits(s)
      decreases |p|
    {
      p := p[1..];
    }
    return Some(p);
  }

  // The digits from p to end, in 32 bits
  method Sum(s: string, end: string) returns (fits: bool, mag: Word)
    requires end == SkipDigits(s)
    ensures (fits, mag) == Gather(JsonReader.Run(s))
  {
    fits, mag := true, 0;
    var p, i := s, 0;
    ghost var digits := JsonReader.Run(s);
    while |p| != |end|
      invariant 0 <= i <= |digits| && p == s[i..]
      invariant (fits, mag) == Gather(digits[..i])
      decreases |p|
    {
      assert digits[..i + 1][..i] == digits[..i] && p[0] == digits[i];
      var d := DigitValue(p[0]);
      fits := fits && mag <= (0xFFFF_FFFF - d) / 10;
      mag := (mag * 10 + d) % WORD;
      p := p[1..];
      i := i + 1;
    }
    assert digits[..i] == digits;
  }

  // What may follow the digits: the rest, and whether there is nothing
  method Fraction(s: string) returns (r: Option<string>, whole: bool)
    ensures r == match FracRest(s) case None => None case Some(f) => ExpRest(f)
    ensures whole <==> Head(s) != '.' && Head(s) != 'e' && Head(s) != 'E'
  {
    var p := s;
    whole := true;
    if Head(p) == '.' {
      whole := false;
      var q := Digits(p[1..]);
      if q.None? {
        return None, whole;
      }
      p := q.value;
    }
    r := Some(p);
    if Head(p) == 'e' || Head(p) == 'E' {
      whole := false;
      p := p[1..];
      if Head(p) == '+' || Head(p) == '-' {
        p := p[1..];
      }
      r := Digits(p);
    }
  }

  method Number(s: string) returns (r: Option<string>, v: Value)
    ensures r == NumberRest(s)
    ensures r.Some? ==> v == NumberValue(s)
  {
    v := Value(BAD, Head(s) == '-', 0, s);
    var p := if v.neg then s[1..] else s;
    var end := Digits(p);
    if end.None? {
      return None, v;
    }
    var fits, mag := Sum(p, end.value);
    var whole;
    r, whole := Fraction(end.value);
    v := v.(kind := if fits && whole then INTEGER else NUMBER, mag := mag);
  }

  method ReadValue(s: string, depth: nat) returns (r: Option<string>, v: Value)
    ensures r == ValueRest(s, depth)
    ensures r.Some? ==> ValueRest(SkipSpaces(s), depth).Some? && SkipSpaces(SkipSpaces(s)) == SkipSpaces(s)
    ensures r.Some? ==> v == ValueAt(SkipSpaces(s), depth)
    decreases |s|, 1
  {
    SkipTwice(s);
    SkipFirst(s, depth);
    var p := Ws(s);
    v := Value(BAD, false, 0, p);
    var c := Head(p);
    if c == '"' {
      v := v.(kind := STRING, at := p[1..]);
      r := String(p[1..]);
    } else if c == '{' || c == '[' {
      if depth >= MAX_DEPTH {
        return None, v;
      }
      v := v.(kind := if c == '{' then OBJECT else ARRAY);
      if c == '{' {
        var calls;
        r, calls := Members(p, false, depth + 1);
      } else {
        r := Items(p, depth + 1);
      }
    } else if Starts(p, "true") || Starts(p, "false") {
      v := v.(kind := BOOL, mag := if Starts(p, "true") then 1 else 0);
      r := Some(p[if Starts(p, "true") then 4 else 5..]);
    } else if Starts(p, "null") {
      v := v.(kind := NUL);
      r := Some(p[4..]);
    } else {
      r, v := Number(p);
    }
  }

  // From a member's name to its value
  method Member(q: string, depth: nat) returns (r: Option<string>, call: Call)
    ensures r == OneRest(q, depth)
    ensures r.Some? ==> call == OneCall(q, depth)
    decreases |q|, 0
  {
    call := Call("", Value(BAD, false, 0, ""));
    if Head(q) != '"' {
      return None, call;
    }
    var key := q[1..];
    var end := String(key);
    if end.None? {
      return None, call;
    }
    var c := Ws(end.value);
    if Head(c) != ':' {
      return None, call;
    }
    var v;
    r, v := ReadValue(c[1..], depth);
    call := Call(key[..|key| - |end.value| - 1], v);
  }

  lemma OneMore(calls: seq<Call>, q: string, depth: nat)
    requires MemberRest(q, depth).Some?
    ensures var n := SkipSpaces(OneRest(q, depth).value);
            calls + MemberCalls(q, depth) ==
            if Head(n) == ',' then calls + [OneCall(q, depth)] + MemberCalls(SkipSpaces(n[1..]), depth)
            else calls + [OneCall(q, depth)]
  {
  }

  // p at the '{'; the calls made, if they are to be
  method Members(p: string, report: bool, depth: nat) returns (r: Option<string>, calls: seq<Call>)
    requires Head(p) == '{'
    ensures r == MembersRest(p, depth)
    ensures !report ==> calls == []
    ensures report && r.Some? ==> calls == MembersCalls(p, depth)
    decreases |p|, 0
  {
    calls := [];
    var q := Ws(p[1..]);
    if Head(q) == '}' {
      return Some(q[1..]), calls;
    }
    ghost var rest := MembersRest(p, depth);
    ghost var all := if rest.Some? then MembersCalls(p, depth) else [];
    while true
      invariant |q| < |p|
      invariant MemberRest(q, depth) == rest
      invariant !report ==> calls == []
      invariant report && rest.Some? ==> calls + MemberCalls(q, depth) == all
      decreases |q|
    {
      var e, call := Member(q, depth);
      if e.None? {
        return None, calls;
      }
      ghost var before := calls;
      if report {
        calls := calls + [call];
      }
      var n := Ws(e.value);
      if rest.Some? {
        OneMore(before, q, depth);
      }
      if Head(n) == '}' {
        return Some(n[1..]), calls;
      }
      if Head(n) != ',' {
        return None, calls;
      }
      q := Ws(n[1..]);
    }
  }

  // p at the '['
  method Items(p: string, depth: nat) returns (r: Option<string>)
    requires Head(p) == '['
    ensures r == ItemsRest(p, depth)
    decreases |p|, 0
  {
    var q := Ws(p[1..]);
    if Head(q) == ']' {
      return Some(q[1..]);
    }
    ghost var first := q;
    while true
      invariant |q| < |p|
      invariant ItemRest(q, depth) == ItemRest(first, depth)
      decreases |q|
    {
      var e, _ := ReadValue(q, depth);
      if e.None? {
        return None;
      }
      var n := Ws(e.value);
      if Head(n) == ']' {
        return Some(n[1..]);
      }
      if Head(n) != ',' {
        return None;
      }
      q := n[1..];
    }
  }

  // Each top-level member of the object in text, once all of it is valid;
  // otherwise no call at all
  method Object(text: string) returns (ok: bool, calls: seq<Call>)
    ensures ok <==> ObjectCalls(text).Some?
    ensures calls == if ok then ObjectCalls(text).value else []
  {
    calls := [];
    var p := Ws(text);
    if Head(p) != '{' {
      return false, calls;
    }
    var r, _ := Members(p, false, 1);
    if r.None? {
      return false, calls;
    }
    r, calls := Members(p, true, 1);
    ok := true;
  }
}
