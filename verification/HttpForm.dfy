/** Form bodies and the response buffer (HttpServer.h): the lookup undoes the
    browser's encoding (test/web_browser.h). Bytes are characters below 256. */
module HttpForm {
  import opened Text
  import opened JsonTree

  // ── The browser's side ─────────────────────────────────────────────────────

  predicate Unreserved(c: char) {
    'a' <= c <= 'z' || 'A' <= c <= 'Z' || '0' <= c <= '9' || c == '-' || c == '_' || c == '.' || c == '~'
  }

  function UpperHex(d: nat): char
    requires d < 16
  {
    if d < 10 then ('0' as int + d) as char else ('A' as int + d - 10) as char
  }

  function EncodeByte(c: char): string
    requires c < 256 as char
  {
    if Unreserved(c) then [c]
    else if c == ' ' then "+"
    else ['%', UpperHex(c as int / 16), UpperHex(c as int % 16)]
  }

  predicate IsBytes(s: string) {
    forall i | 0 <= i < |s| :: s[i] < 256 as char
  }

  function Encode(s: string): string
    requires IsBytes(s)
  {
    if s == "" then "" else EncodeByte(s[0]) + Encode(s[1..])
  }

  datatype Entry = Entry(name: string, value: string)

  // Any bytes but zero
  predicate Sendable(e: Entry) {
    IsBytes(e.name) && '\0' !in e.name && IsBytes(e.value) && '\0' !in e.value
  }

  // A name of unreserved characters, as the panel's are
  predicate Plain(name: string) {
    forall i | 0 <= i < |name| :: Unreserved(name[i])
  }

  predicate AllSendable(es: seq<Entry>) {
    forall i | 0 <= i < |es| :: Sendable(es[i])
  }

  function EntryText(e: Entry): string
    requires Sendable(e)
  {
    Encode(e.name) + "=" + Encode(e.value)
  }

  // The entries in order, joined by &; first: nothing is before them
  function FormFrom(es: seq<Entry>, first: bool): string
    requires AllSendable(es)
  {
    if es == [] then ""
    else if es[0].name == "plain" then FormFrom(es[1..], first)
    else (if first then "" else "&") + EntryText(es[0]) + FormFrom(es[1..], false)
  }

  function Form(es: seq<Entry>): string
    requires AllSendable(es)
  {
    FormFrom(es, true)
  }

  // It is sent as it is
  lemma {:induction false} EncodePlain(name: string)
    requires Plain(name)
    ensures IsBytes(name) && Encode(name) == name
  {
    if name != "" {
      EncodePlain(name[1..]);
      assert name == [name[0]] + name[1..];
    }
  }

  // ── The lookup ─────────────────────────────────────────────────────────────

  // Up to the & or the end
  function Segment(s: string): (g: string)
    ensures |g| <= |s| && g == s[..|g|] && '&' !in g
    ensures |g| < |s| ==> s[|g|] == '&'
  {
    if s == "" || s[0] == '&' then "" else [s[0]] + Segment(s[1..])
  }

  // + and %XX; a percent sign without two digits stands for itself
  function Decode(v: string): string {
    if v == "" then ""
    else if v[0] == '+' then " " + Decode(v[1..])
    else if v[0] == '%' && |v| >= 3 && HexOf(v[1]) >= 0 && HexOf(v[2]) >= 0 then
      [(HexOf(v[1]) * 16 + HexOf(v[2])) as char] + Decode(v[3..])
    else [v[0]] + Decode(v[1..])
  }

  predicate Matches(g: string, name: string) {
    |name| <= |g| && g[..|name|] == name && (|name| == |g| || g[|name|] == '=')
  }

  function ValueIn(g: string, name: string): string
    requires Matches(g, name)
  {
    Decode(if |name| == |g| then "" else g[|name| + 1..])
  }

  // name=value in a=1&b=2
  function Find(s: string, name: string): Option<string>
    decreases |s|
  {
    if s == "" then None
    else
      var g := Segment(s);
      if Matches(g, name) then Some(ValueIn(g, name))
      else if |g| < |s| then Find(s[|g| + 1..], name)
      else None
  }

  method FindIn(s: string, name: string) returns (r: Option<string>)
    ensures r == Find(s, name)
  {
    hide Decode, Segment;
    var p := s;
    while p != ""
      invariant Find(p, name) == Find(s, name)
      decreases |p|
    {
      var stop := Stop(p);
      var found, from := At(p, stop, name);
      if found {
        var v := Decoding(p[from..stop]);
        return Some(v);
      }
      p := if stop < |p| then p[stop + 1..] else "";
    }
    return None;
  }

  // Whether the segment up to stop is the name's, and where its value begins
  method At(p: string, stop: nat, name: string) returns (found: bool, from: nat)
    requires stop <= |p|
    ensures found <==> Matches(p[..stop], name)
    ensures found ==> from <= stop && ValueIn(p[..stop], name) == Decode(p[from..stop])
  {
    hide Decode;
    ghost var g := p[..stop];
    found := stop >= |name| && p[..|name|] == name && (stop == |name| || p[|name|] == '=');
    assert |name| <= stop ==> g[..|name|] == p[..|name|];
    from := if |name| < stop then |name| + 1 else stop;
    assert g[from..] == p[from..stop];
    assert p[stop..stop] == "";
  }

  // Where the first & is, or the end
  method Stop(s: string) returns (n: nat)
    ensures n <= |s| && s[..n] == Segment(s)
  {
    n := 0;
    assert s[0..] == s;
    while n < |s| && s[n] != '&'
      invariant n <= |s| && s[..n] + Segment(s[n..]) == Segment(s)
    {
      assert s[n..][1..] == s[n + 1..];
      assert s[..n] + ([s[n]] + Segment(s[n + 1..])) == s[..n + 1] + Segment(s[n + 1..]);
      n := n + 1;
    }
  }

  method Decoding(v: string) returns (out: string)
    ensures out == Decode(v)
  {
    out := "";
    var p := v;
    while p != ""
      invariant out + Decode(p) == Decode(v)
      decreases |p|
    {
      ghost var before := out;
      var c := p[0];
      ghost var at := p;
      p := p[1..];
      if c == '+' {
        c := ' ';
      } else if c == '%' && |p| >= 2 && HexOf(p[0]) >= 0 && HexOf(p[1]) >= 0 {
        c := (HexOf(p[0]) * 16 + HexOf(p[1])) as char;
        assert at[3..] == p[2..];
        p := p[2..];
      }
      out := out + [c];
      assert Decode(at) == [c] + Decode(p);
      assert before + ([c] + Decode(p)) == out + Decode(p);
    }
  }

  // ── One undoes the other ───────────────────────────────────────────────────

  lemma EncodeByteRead(c: char, rest: string)
    requires c < 256 as char
    ensures Decode(EncodeByte(c) + rest) == [c] + Decode(rest)
    ensures '&' !in EncodeByte(c) && '=' !in EncodeByte(c)
  {
    var s := EncodeByte(c) + rest;
    if Unreserved(c) {
      assert s[1..] == rest;
    } else if c == ' ' {
      assert s[1..] == rest;
    } else {
      assert s[3..] == rest;
      assert HexOf(s[1]) == c as int / 16 && HexOf(s[2]) == c as int % 16;
    }
  }

  lemma {:induction false} EncodeRead(s: string)
    requires IsBytes(s)
    ensures Decode(Encode(s)) == s && '&' !in Encode(s) && '=' !in Encode(s)
  {
    if s != "" {
      EncodeByteRead(s[0], Encode(s[1..]));
      EncodeRead(s[1..]);
    }
  }

  // A percent sign and two digits
  predicate EscapeAt(v: string, i: nat) {
    i + 2 < |v| && v[i] == '%' && HexOf(v[i + 1]) >= 0 && HexOf(v[i + 2]) >= 0
  }

  // What is no escape stands for itself, a percent sign too
  lemma {:induction false} DecodeKeeps(v: string, rest: string)
    requires '+' !in v && forall i | 0 <= i < |v| :: !EscapeAt(v + rest, i)
    ensures Decode(v + rest) == v + Decode(rest)
    decreases |v|
  {
    if v == "" {
      assert v + rest == rest && v + Decode(rest) == Decode(rest);
    } else {
      assert !EscapeAt(v + rest, 0);
      assert (v + rest)[1..] == v[1..] + rest;
      forall i | 0 <= i < |v| - 1 ensures !EscapeAt(v[1..] + rest, i) {
        assert !EscapeAt(v + rest, i + 1);
      }
      DecodeKeeps(v[1..], rest);
    }
  }

  // An escape's digits may be in either case
  lemma EscapeRead(a: char, b: char, rest: string)
    requires HexOf(a) >= 0 && HexOf(b) >= 0
    ensures Decode(['%', a, b] + rest) == [(16 * HexOf(a) + HexOf(b)) as char] + Decode(rest)
    ensures HexOf(a) >= 0 ==> a == "0123456789abcdef"[HexOf(a)] || a == "0123456789ABCDEF"[HexOf(a)]
  {
    assert (['%', a, b] + rest)[3..] == rest;
  }

  lemma {:induction false} SegmentEnds(g: string, rest: string)
    requires '&' !in g && (rest == "" || rest[0] == '&')
    ensures Segment(g + rest) == g
  {
    if g == "" {
      assert g + rest == rest;
    } else {
      assert (g + rest)[1..] == g[1..] + rest;
      SegmentEnds(g[1..], rest);
    }
  }

  lemma EntrySent(e: Entry)
    requires Sendable(e)
    ensures var g, at := EntryText(e), |Encode(e.name)|;
            && '&' !in g && at < |g| && g[at] == '=' && g[..at] == Encode(e.name) && g[at + 1..] == Encode(e.value)
            && forall k | 0 <= k < |g| && k != at :: g[k] != '='
  {
    EncodeRead(e.name);
    EncodeRead(e.value);
  }

  // An entry's text gives its value to its own name, as it is sent, and to no
  // other without an equals sign
  lemma EntryMatches(e: Entry, name: string)
    requires Sendable(e) && '=' !in name
    ensures Matches(EntryText(e), name) <==> Encode(e.name) == name
    ensures Encode(e.name) == name ==> ValueIn(EntryText(e), name) == e.value
  {
    hide Encode, Decode;
    var g, n := EntryText(e), Encode(e.name);
    EntrySent(e);
    EncodeRead(e.value);
    if |name| < |n| {
      assert g[|name|] != '=';
    } else if |n| < |name| <= |g| {
      assert g[..|name|][|n|] == '=';
    }
  }

  // A name with an equals sign is found in an entry whose text it is, whole
  lemma EqualsMatches(e: Entry, name: string)
    requires Sendable(e) && '=' in name
    ensures Matches(EntryText(e), name) <==> EntryText(e) == name
    ensures Matches(EntryText(e), name) ==> ValueIn(EntryText(e), name) == ""
  {
    hide Encode;
    var g, at := EntryText(e), |Encode(e.name)|;
    EntrySent(e);
    assert g[..|g|] == g;
    if Matches(g, name) {
      var k :| 0 <= k < |name| && name[k] == '=';
      assert g[..|name|][k] == g[k] == '=';
      assert k == at && |name| == |g|;
      assert g[..|name|] == g;
    }
  }

  // The value of the first entry of a name; "plain" is never sent
  function First(es: seq<Entry>, name: string): Option<string> {
    if es == [] then None
    else if es[0].name != "plain" && es[0].name == name then Some(es[0].value)
    else First(es[1..], name)
  }

  // What a lookup goes by: the name as it is sent; for a name with an equals
  // sign, an entry's whole text, and then there is no value
  function Sent(es: seq<Entry>, name: string): Option<string>
    requires AllSendable(es)
  {
    if es == [] then None
    else if es[0].name != "plain" && Encode(es[0].name) == name then Some(es[0].value)
    else if es[0].name != "plain" && EntryText(es[0]) == name then Some("")
    else Sent(es[1..], name)
  }

  lemma {:induction false} FormBegins(es: seq<Entry>)
    requires AllSendable(es)
    ensures FormFrom(es, false) == "" || FormFrom(es, false)[0] == '&'
    ensures FormFrom(es, false) == if FormFrom(es, true) == "" then "" else "&" + FormFrom(es, true)
  {
    if es != [] {
      if es[0].name == "plain" {
        FormBegins(es[1..]);
      } else {
        var t, rest := EntryText(es[0]), FormFrom(es[1..], false);
        assert "" + t + rest == t + rest;
        assert "&" + t + rest == "&" + (t + rest);
      }
    }
  }

  // Any lookup in any form
  lemma {:induction false} FormRead(es: seq<Entry>, name: string)
    requires AllSendable(es)
    ensures Find(Form(es), name) == Sent(es, name)
    decreases |es|
  {
    hide Decode, Encode, Segment, Matches, EntryText;
    if es != [] {
      var e, more := es[0], es[1..];
      FormRead(more, name);
      if e.name != "plain" {
        var t, rest := EntryText(e), FormFrom(more, false);
        assert Form(es) == t + rest;
        FormBegins(more);
        EntrySent(e);
        SegmentEnds(t, rest);
        EntryFound(e, name);
        if !Matches(t, name) && rest != "" {
          assert (t + rest)[|t| + 1..] == Form(more);
        }
      }
    }
  }

  lemma EntryFound(e: Entry, name: string)
    requires Sendable(e)
    ensures var t := EntryText(e);
            && t != "" && (Matches(t, name) <==> Encode(e.name) == name || t == name)
            && (Encode(e.name) == name ==> ValueIn(t, name) == e.value)
            && (t == name && Encode(e.name) != name ==> ValueIn(t, name) == "")
  {
    hide Decode, Encode, Matches;
    EntrySent(e);
    EncodeRead(e.name);
    if '=' in name {
      EqualsMatches(e, name);
    } else {
      EntryMatches(e, name);
    }
  }

  // With the names the panel has, looking a name up gives the value of its
  // first entry, and nothing if it has none
  lemma {:induction false} FormFound(es: seq<Entry>, name: string)
    requires AllSendable(es) && (forall e | e in es :: Plain(e.name)) && '=' !in name
    ensures Find(Form(es), name) == First(es, name)
    decreases |es|
  {
    FormRead(es, name);
    SentIsFirst(es, name);
  }

  lemma {:induction false} SentIsFirst(es: seq<Entry>, name: string)
    requires AllSendable(es) && (forall e | e in es :: Plain(e.name)) && '=' !in name
    ensures Sent(es, name) == First(es, name)
    decreases |es|
  {
    if es != [] {
      EncodePlain(es[0].name);
      EntrySent(es[0]);
      SentIsFirst(es[1..], name);
    }
  }

  // Some entry that is sent has the name for its text
  ghost predicate Spelled(es: seq<Entry>, name: string)
    requires AllSendable(es)
  {
    exists i :: 0 <= i < |es| && es[i].name != "plain" && EntryText(es[i]) == name
  }

  // A name with an equals sign is found exactly when an entry spells it, and
  // has no value then; so the lookup is wrong exactly then
  lemma EqualsExactly(es: seq<Entry>, name: string)
    requires AllSendable(es) && (forall e | e in es :: Plain(e.name)) && '=' in name
    ensures Find(Form(es), name) == if Spelled(es, name) then Some("") else None
    ensures Find(Form(es), name) == First(es, name) <==> !Spelled(es, name)
  {
    FormRead(es, name);
    SentSpelled(es, name);
  }

  lemma {:induction false} SentSpelled(es: seq<Entry>, name: string)
    requires AllSendable(es) && (forall e | e in es :: Plain(e.name)) && '=' in name
    ensures Sent(es, name) == (if Spelled(es, name) then Some("") else None) && First(es, name) == None
    decreases |es|
  {
    if es != [] {
      var e, more := es[0], es[1..];
      EncodePlain(e.name);
      EncodeRead(e.name);
      SentSpelled(more, name);
      assert Spelled(more, name) ==> Spelled(es, name) by {
        if Spelled(more, name) {
          var i :| 0 <= i < |more| && more[i].name != "plain" && EntryText(more[i]) == name;
          assert es[i + 1] == more[i];
        }
      }
      if Spelled(es, name) && !(e.name != "plain" && EntryText(e) == name) {
        var i :| 0 <= i < |es| && es[i].name != "plain" && EntryText(es[i]) == name;
        assert more[i - 1] == es[i];
      }
    }
  }

  // A name with an equals sign can be found though no entry has it
  lemma EqualsFound()
    ensures var es := [Entry("a", "b")]; AllSendable(es) && Find(Form(es), "a=b") == Some("") && First(es, "a=b") == None
  {
    var es := [Entry("a", "b")];
    assert "a"[1..] == "" && "b"[1..] == "";
    assert EntryText(es[0]) == "a=b";
    assert Spelled(es, "a=b");
    assert '=' in "a=b" by {
      assert "a=b"[1] == '=';
    }
    EqualsExactly(es, "a=b");
  }

  // ── The response buffer ────────────────────────────────────────────────────

  const OUT_LEN := 536

  class Response {
    const out: array<char>
    var used: nat
    var link: string   // what the connection was given

    ghost predicate Valid()
      reads this
    {
      out.Length == OUT_LEN && used <= OUT_LEN
    }

    // Everything put so far, whether still in the buffer or not
    ghost function Written(): string
      reads this, out
      requires Valid()
    {
      link + out[..used]
    }

    constructor ()
      ensures Valid() && Written() == "" && fresh(out)
    {
      out := new char[OUT_LEN](i => '\0');
      used, link := 0, "";
    }

    method Flush()
      requires Valid()
      modifies `used, `link
      ensures Valid() && used == 0 && link == old(Written()) && Written() == old(Written())
    {
      link := link + out[..used];
      used := 0;
    }

    // In segments of OUT_LEN, nothing lost or out of order
    method Put(p: string)
      requires Valid()
      modifies this, out
      ensures Valid() && Written() == old(Written()) + p
    {
      var i := 0;
      ghost var before := Written();
      assert before + p[..0] == before;
      while i < |p|
        invariant Valid() && 0 <= i <= |p| && Written() == before + p[..i]
        decreases |p| - i
      {
        if used == OUT_LEN {
          Flush();
        }
        var k := OUT_LEN - used;
        k := if k > |p| - i then |p| - i else k;
        ghost var so := Written();
        Copy(p[i..i + k]);
        assert p[..i] + p[i..i + k] == p[..i + k];
        assert before + p[..i] + p[i..i + k] == before + p[..i + k];
        i := i + k;
      }
      assert p[..i] == p;
    }

    method Copy(p: string)
      requires Valid() && used + |p| <= OUT_LEN
      modifies `used, out
      ensures Valid() && used == old(used) + |p| && Written() == old(Written()) + p
    {
      ghost var before := out[..used];
      forall k | 0 <= k < |p| {
        out[used + k] := p[k];
      }
      assert out[..used + |p|] == before + p;
      assert link + (before + p) == link + before + p;
      used := used + |p|;
    }
  }
}
