/** The release's tag in GitHub's answer, found byte by byte without keeping
    the JSON (OTAService.h). */
module OtaTag {
  import opened Text

  const KEY := ['"', 't', 'a', 'g', '_', 'n', 'a', 'm', 'e', '"']

  datatype Stage = SEEK | BEFORE_COLON | BEFORE_VALUE | VALUE | FOUND | BROKEN

  // at: how much of the key the last bytes are; tag: what is kept of the value
  datatype Parser = Parser(stage: Stage, at: nat, tag: string)

  predicate IsSpace(c: char) {
    c == ' ' || c == '\t' || c == '\n' || c == '\r'
  }

  predicate IsBlank(c: char) {
    c == ' ' || c == '\t'
  }

  function TrimLeft(s: string): (t: string)
    ensures |t| <= |s|
  {
    if s != "" && IsBlank(s[0]) then TrimLeft(s[1..]) else s
  }

  function TrimRight(s: string): (t: string)
    ensures |t| <= |s|
  {
    if s != "" && IsBlank(s[|s| - 1]) then TrimRight(s[..|s| - 1]) else s
  }

  function Trim(s: string): string {
    TrimRight(TrimLeft(s))
  }

  predicate AllBlank(s: string) {
    forall i | 0 <= i < |s| :: IsBlank(s[i])
  }

  lemma {:induction false} LeftTrimmed(s: string) returns (a: string)
    ensures s == a + TrimLeft(s) && AllBlank(a) && (TrimLeft(s) != "" ==> !IsBlank(TrimLeft(s)[0]))
  {
    if s != "" && IsBlank(s[0]) {
      var b := LeftTrimmed(s[1..]);
      a := [s[0]] + b;
      assert s == [s[0]] + s[1..];
    } else {
      a := "";
    }
  }

  lemma {:induction false} RightTrimmed(s: string) returns (b: string)
    ensures s == TrimRight(s) + b && AllBlank(b)
    ensures var t := TrimRight(s); t != "" ==> !IsBlank(t[|t| - 1])
    ensures TrimRight(s) <= s
  {
    if s != "" && IsBlank(s[|s| - 1]) {
      var c := RightTrimmed(s[..|s| - 1]);
      b := c + [s[|s| - 1]];
    } else {
      b := "";
    }
  }

  // Only blanks go, from both ends, and all of them
  lemma Trimmed(s: string) returns (a: string, b: string)
    ensures s == a + Trim(s) + b && AllBlank(a) && AllBlank(b)
    ensures var t := Trim(s); t != "" ==> !IsBlank(t[0]) && !IsBlank(t[|t| - 1])
  {
    a := LeftTrimmed(s);
    b := RightTrimmed(TrimLeft(s));
  }

  // A text without blanks around it is left as it is
  lemma {:induction false} TrimmedAlready(a: string, t: string, b: string)
    requires AllBlank(a) && AllBlank(b) && t != "" && !IsBlank(t[0]) && !IsBlank(t[|t| - 1])
    ensures Trim(a + t + b) == t
    decreases |a| + |b|
  {
    if a != "" {
      assert (a + t + b)[1..] == a[1..] + t + b;
      TrimmedAlready(a[1..], t, b);
    } else {
      assert a + t + b == t + b;
      RightIs(t, b);
    }
  }

  lemma {:induction false} RightIs(t: string, b: string)
    requires AllBlank(b) && t != "" && !IsBlank(t[|t| - 1])
    ensures TrimRight(t + b) == t
    decreases |b|
  {
    if b == "" {
      assert t + b == t;
    } else {
      assert (t + b)[..|t + b| - 1] == t + b[..|b| - 1];
      RightIs(t, b[..|b| - 1]);
    }
  }

  // cap: the tag's buffer, its terminator included
  function Feed(p: Parser, c: char, cap: nat): (q: Parser)
    requires p.at < |KEY|
    ensures q.at < |KEY|
  {
    match p.stage
    case SEEK =>
      if c == KEY[p.at] then
        if p.at + 1 == |KEY| then p.(stage := BEFORE_COLON, at := 0) else p.(at := p.at + 1)
      else p.(at := if c == KEY[0] then 1 else 0)
    case BEFORE_COLON => if IsSpace(c) then p else if c == ':' then p.(stage := BEFORE_VALUE) else p.(stage := BROKEN)
    case BEFORE_VALUE => if IsSpace(c) then p else if c == '"' then p.(stage := VALUE) else p.(stage := BROKEN)
    case VALUE =>
      if c != '"' then if |p.tag| + 1 < cap then p.(tag := p.tag + [c]) else p
      else p.(stage := FOUND, tag := Trim(p.tag))
    case FOUND => p
    case BROKEN => p
  }

  function FeedAll(p: Parser, text: string, cap: nat): (q: Parser)
    requires p.at < |KEY|
    ensures q.at < |KEY|
  {
    if text == "" then p else Feed(FeedAll(p, text[..|text| - 1], cap), text[|text| - 1], cap)
  }

  lemma {:induction false} FedApart(p: Parser, a: string, b: string, cap: nat)
    requires p.at < |KEY|
    ensures FeedAll(p, a + b, cap) == FeedAll(FeedAll(p, a, cap), b, cap)
    decreases |b|
  {
    if b == "" {
      assert a + b == a;
    } else {
      var n := |b| - 1;
      assert (a + b)[..|a + b| - 1] == a + b[..n];
      FedApart(p, a, b[..n], cap);
    }
  }

  const BEGUN := Parser(SEEK, 0, "")

  // ── The key ────────────────────────────────────────────────────────────────

  // The text ends with so much of the key
  ghost predicate Ends(t: string, k: nat)
    requires k <= |KEY|
  {
    k <= |t| && t[|t| - k..] == KEY[..k]
  }

  // And with no more of it
  ghost predicate Longest(t: string, k: nat) {
    k < |KEY| && Ends(t, k) && forall j | k < j <= |KEY| :: !Ends(t, j)
  }

  lemma EndsBefore(t: string, c: char, j: nat)
    requires 0 < j <= |KEY| && Ends(t + [c], j)
    ensures Ends(t, j - 1) && KEY[j - 1] == c
  {
    var s := t + [c];
    assert s[|s| - j..][j - 1] == c;
    assert t[|t| - (j - 1)..] == s[|s| - j..][..j - 1];
    assert KEY[..j][..j - 1] == KEY[..j - 1];
  }

  lemma EndsAfter(t: string, c: char, k: nat)
    requires k < |KEY| && Ends(t, k) && KEY[k] == c
    ensures Ends(t + [c], k + 1)
  {
    var s := t + [c];
    assert s[|s| - (k + 1)..] == t[|t| - k..] + [c];
    assert KEY[..k + 1] == KEY[..k] + [c];
  }

  // No part of the key, its closing quote aside, begins again inside itself
  lemma NoBorder(t: string, k: nat, j: nat)
    requires 0 < j < k < |KEY| && Ends(t, k)
    ensures !Ends(t, j)
  {
    assert t[|t| - k..][k - j] == KEY[..k][k - j];
    assert t[|t| - j] == KEY[k - j] != '"';
    EndsFirst(t, j);
  }

  lemma EndsFirst(t: string, j: nat)
    requires 0 < j <= |KEY|
    ensures Ends(t, j) ==> t[|t| - j] == KEY[0]
  {
    assert Ends(t, j) ==> t[|t| - j..][0] == KEY[..j][0];
  }

  // One more byte, the key not complete: the matcher falls back to the most it can
  lemma Falls(t: string, k: nat, c: char)
    requires Longest(t, k) && c != KEY[k]
    ensures Longest(t + [c], if c == KEY[0] then 1 else 0)
  {
    var s, m := t + [c], if c == KEY[0] then 1 else 0;
    if m == 1 {
      EndsAfter(t, c, 0);
    }
    forall j | m < j <= |KEY| ensures !Ends(s, j) {
      if Ends(s, j) {
        EndsBefore(t, c, j);
        if 0 < j - 1 < k {
          NoBorder(t, k, j - 1);
        }
      }
    }
  }

  lemma Grows(t: string, k: nat, c: char)
    requires Longest(t, k) && c == KEY[k]
    ensures Ends(t + [c], k + 1) && (k + 1 < |KEY| ==> Longest(t + [c], k + 1))
  {
    EndsAfter(t, c, k);
    forall j | k + 1 < j <= |KEY| ensures !Ends(t + [c], j) {
      if Ends(t + [c], j) {
        EndsBefore(t, c, j);
      }
    }
  }

  // The key has not been whole at any point of the text
  ghost predicate Without(t: string) {
    forall p: string | p <= t :: !Whole(p)
  }

  ghost predicate Whole(t: string) {
    Ends(t, |KEY|)
  }

  lemma WithoutBefore(t: string)
    requires t != "" && Without(t)
    ensures Without(t[..|t| - 1]) && !Whole(t)
  {
    forall p: string | p <= t[..|t| - 1] ensures !Whole(p) {
      assert p <= t;
    }
  }

  // While the key has not come, the matcher knows how much of it the text ends with
  lemma {:induction false} Seeks(t: string, cap: nat)
    requires Without(t)
    ensures var p := FeedAll(BEGUN, t, cap); p.stage == SEEK && p.tag == "" && Longest(t, p.at)
  {
    if t != "" {
      var n := |t| - 1;
      WithoutBefore(t);
      Seeks(t[..n], cap);
      var k := FeedAll(BEGUN, t[..n], cap).at;
      assert t == t[..n] + [t[n]];
      if t[n] == KEY[k] {
        Grows(t[..n], k, t[n]);
      } else {
        Falls(t[..n], k, t[n]);
      }
    }
  }

  // The key is found at its first place, whatever came before it
  lemma KeyFound(t: string, cap: nat)
    requires t != "" && Without(t[..|t| - 1]) && Ends(t, |KEY|)
    ensures FeedAll(BEGUN, t, cap) == Parser(BEFORE_COLON, 0, "")
  {
    var n := |t| - 1;
    Seeks(t[..n], cap);
    var k := FeedAll(BEGUN, t[..n], cap).at;
    assert t == t[..n] + [t[n]];
    EndsBefore(t[..n], t[n], |KEY|);
  }

  // ── The value ──────────────────────────────────────────────────────────────

  predicate AllSpaces(w: string) {
    forall i | 0 <= i < |w| :: IsSpace(w[i])
  }

  lemma {:induction false} SpacesStay(p: Parser, w: string, cap: nat)
    requires (p.stage == BEFORE_COLON || p.stage == BEFORE_VALUE) && p.at < |KEY| && AllSpaces(w)
    ensures FeedAll(p, w, cap) == p
  {
    if w != "" {
      SpacesStay(p, w[..|w| - 1], cap);
    }
  }

  function Kept(v: string, cap: nat): string {
    if |v| + 1 <= cap then v else if cap == 0 then "" else v[..cap - 1]
  }

  lemma {:induction false} ValueKept(v: string, cap: nat)
    requires '"' !in v
    ensures FeedAll(Parser(VALUE, 0, ""), v, cap) == Parser(VALUE, 0, Kept(v, cap))
  {
    if v != "" {
      ValueKept(v[..|v| - 1], cap);
      assert v == v[..|v| - 1] + [v[|v| - 1]];
    }
  }

  // The tag of an answer: the string after the first "tag_name" and a colon,
  // cut to the buffer and without the blanks around it
  lemma TagRead(t: string, w: string, x: string, v: string, cap: nat)
    requires t != "" && Without(t[..|t| - 1]) && Ends(t, |KEY|)
    requires AllSpaces(w) && AllSpaces(x) && '"' !in v
    ensures FeedAll(BEGUN, t + w + [':'] + x + ['"'] + v + ['"'], cap) == Parser(FOUND, 0, Trim(Kept(v, cap)))
  {
    var c := Parser(BEFORE_COLON, 0, "");
    KeyFound(t, cap);
    FedApart(BEGUN, t, w, cap);
    SpacesStay(c, w, cap);
    FedApart(BEGUN, t + w, [':'], cap);
    One(c, ':', cap);
    var b := Parser(BEFORE_VALUE, 0, "");
    FedApart(BEGUN, t + w + [':'], x, cap);
    SpacesStay(b, x, cap);
    FedApart(BEGUN, t + w + [':'] + x, ['"'], cap);
    One(b, '"', cap);
    FedApart(BEGUN, t + w + [':'] + x + ['"'], v, cap);
    ValueKept(v, cap);
    FedApart(BEGUN, t + w + [':'] + x + ['"'] + v, ['"'], cap);
    One(Parser(VALUE, 0, Kept(v, cap)), '"', cap);
  }

  // As servers write it: the name itself, blanks around it or not, if it fits
  lemma NameRead(t: string, w: string, x: string, a: string, name: string, b: string, cap: nat)
    requires t != "" && Without(t[..|t| - 1]) && Ends(t, |KEY|)
    requires AllSpaces(w) && AllSpaces(x) && AllBlank(a) && AllBlank(b)
    requires name != "" && '"' !in name && !IsBlank(name[0]) && !IsBlank(name[|name| - 1])
    requires |a| + |name| + |b| < cap
    ensures FeedAll(BEGUN, t + w + [':'] + x + ['"'] + (a + name + b) + ['"'], cap) == Parser(FOUND, 0, name)
  {
    hide FeedAll, Trim, Ends, Without;
    assert '"' !in a + name + b by {
      assert forall i | 0 <= i < |a| :: IsBlank(a[i]);
      assert forall i | 0 <= i < |b| :: IsBlank(b[i]);
    }
    TagRead(t, w, x, a + name + b, cap);
    TrimmedAlready(a, name, b);
  }

  lemma One(p: Parser, c: char, cap: nat)
    requires p.at < |KEY|
    ensures FeedAll(p, [c], cap) == Feed(p, c, cap)
  {
    assert [c][..0] == "";
  }
}
