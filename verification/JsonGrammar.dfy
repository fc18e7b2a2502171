/** The reader reads exactly the grammar: every tree's text, and no other. */
module JsonGrammar {
  import opened Text
  import opened JsonTree
  import opened JsonReader

  // ── Scanning ───────────────────────────────────────────────────────────────

  lemma {:induction false} SkipsSpaces(w: string, s: string)
    requires Spaces(w) && !IsSpace(Head(s))
    ensures SkipSpaces(w + s) == s
  {
    if w == "" {
      assert w + s == s;
    } else {
      assert (w + s)[1..] == w[1..] + s;
      SkipsSpaces(w[1..], s);
    }
  }

  lemma {:induction false} SkipsMore(w: string, s: string)
    requires Spaces(w)
    ensures SkipSpaces(w + s) == SkipSpaces(s)
  {
    if w == "" {
      assert w + s == s;
    } else {
      assert (w + s)[1..] == w[1..] + s;
      SkipsMore(w[1..], s);
    }
  }

  lemma {:induction false} StringReads(ps: seq<Piece>, rest: string)
    requires PiecesOk(ps)
    ensures StringRest(PiecesTo(ps, ['"'] + rest)) == Some(rest)
  {
    if ps == [] {
      assert (['"'] + rest)[1..] == rest;
    } else {
      assert PieceOk(ps[0]);
      StringReads(ps[1..], rest);
      var t := PiecesTo(ps[1..], ['"'] + rest);
      PieceReads(ps[0], t);
    }
  }

  lemma PieceReads(p: Piece, t: string)
    requires PieceOk(p)
    ensures StringRest(PieceTo(p, t)) == StringRest(t)
  {
    var s := PieceTo(p, t);
    match p
    case Plain(c) => assert s[1..] == t;
    case Escape(c) => assert s[1] == c && s[2..] == t && Head(s[1..]) == c;
    case Unicode(d) =>
      assert s[2..6] == d && s[6..] == t && Head(s[1..]) == 'u';
  }

  // ── Numbers ────────────────────────────────────────────────────────────────

  // What may follow a number's text without becoming part of it
  predicate Clear(rest: string) {
    !IsDigit(Head(rest)) && Head(rest) != '.' && Head(rest) != 'e' && Head(rest) != 'E'
  }

  lemma {:induction false} DigitsRead(d: string, rest: string)
    requires AllDigits(d) && !IsDigit(Head(rest))
    ensures SkipDigits(d + rest) == rest && Run(d + rest) == d
  {
    if d == "" {
      assert d + rest == rest;
    } else {
      assert (d + rest)[1..] == d[1..] + rest;
      DigitsRead(d[1..], rest);
    }
  }

  lemma NumberReads(n: Number, rest: string)
    requires NumberOk(n) && Clear(rest)
    ensures NumberRest(NumberTo(n, rest)) == Some(rest)
    ensures var v := NumberValue(NumberTo(n, rest));
            && v.neg == n.neg && v.mag == NumberIn(n.whole) % WORD && v.at == NumberTo(n, rest)
            && (v.kind == INTEGER <==> n.frac == "" && n.exp == "" && NumberIn(n.whole) < WORD)
            && (v.kind == INTEGER || v.kind == NUMBER)
  {
    var e := n.exp + rest;
    var f := n.frac + e;
    var p := n.whole + f;
    assert Head(p) == n.whole[0];
    assert n.neg ==> NumberTo(n, rest)[1..] == p;
    ExpReads(n.exp, rest);
    FracReads(n.frac, e);
    DigitsRead(n.whole, f);
    GatherExactly(n.whole);
    assert FracRest(f) == Some(e);
  }

  lemma ExpReads(x: string, rest: string)
    requires ExpOk(x) && Clear(rest)
    ensures ExpRest(x + rest) == Some(rest) && !IsDigit(Head(x + rest)) && Head(x + rest) != '.'
    ensures Head(x + rest) == 'e' || Head(x + rest) == 'E' <==> x != ""
  {
    if x == "" {
      assert x + rest == rest;
    } else {
      var k := 1 + SignLength(x[1..]);
      assert (x + rest)[1..] == x[1..] + rest;
      assert Head(x[1..]) == Head(x[1..] + rest) && SignLength(x[1..] + rest) == SignLength(x[1..]);
      assert (x + rest)[k..] == x[k..] + rest;
      DigitsRead(x[k..], rest);
    }
  }

  lemma FracReads(x: string, e: string)
    requires FracOk(x) && !IsDigit(Head(e)) && Head(e) != '.'
    ensures FracRest(x + e) == Some(e) && !IsDigit(Head(x + e))
    ensures Head(x + e) == '.' <==> x != ""
    ensures x == "" ==> Head(x + e) == Head(e)
  {
    if x == "" {
      assert x + e == e;
    } else {
      assert (x + e)[1..] == x[1..] + e;
      DigitsRead(x[1..], e);
    }
  }

  // ── Values ─────────────────────────────────────────────────────────────────

  lemma AfterValue(w: string, t: string)
    requires Spaces(w) && (Head(t) == ',' || Head(t) == '}' || Head(t) == ']')
    ensures Clear(w + t) && SkipSpaces(w + t) == t
  {
    SkipsSpaces(w, t);
    if w == "" {
      assert w + t == t;
    }
  }

  lemma RenderBegins(j: Json, rest: string)
    requires Ok(j)
    ensures var c := Head(RenderTo(j, rest)); !IsSpace(c) && c != ',' && c != '}' && c != ']' && c != ':'
    ensures j.Num? ==> Head(RenderTo(j, rest)) == '-' || IsDigit(Head(RenderTo(j, rest)))
  {
    if j.Num? {
      var n := j.number;
      assert Head(n.whole + (n.frac + (n.exp + rest))) == n.whole[0];
    }
  }

  // The text of any tree, not too deep, is read to its end
  lemma {:induction false} ValueReads(w: string, j: Json, rest: string, depth: nat)
    requires Spaces(w) && Ok(j) && depth + Nest(j) <= MAX_DEPTH && (j.Num? ==> Clear(rest))
    ensures ValueRest(w + RenderTo(j, rest), depth) == Some(rest)
    decreases j, 2
  {
    RenderBegins(j, rest);
    SkipsSpaces(w, RenderTo(j, rest));
    match j
    case Obj(pad, ms) => MembersRead(pad, ms, rest, depth + 1);
    case Arr(pad, es) => ItemsRead(pad, es, rest, depth + 1);
    case _ => ScalarReads(j, rest, depth);
  }

  lemma ScalarReads(j: Json, rest: string, depth: nat)
    requires Ok(j) && !j.Obj? && !j.Arr? && (j.Num? ==> Clear(rest))
    ensures var p := RenderTo(j, rest); SkipSpaces(p) == p && ValueRest(p, depth) == Some(rest)
  {
    hide StringRest, NumberRest, MembersRest, ItemsRest;
    var p := RenderTo(j, rest);
    RenderBegins(j, rest);
    match j
    case Str(ps) =>
      StringReads(ps, rest);
      assert p[1..] == PiecesTo(ps, ['"'] + rest);
    case Num(n) =>
      NumberReads(n, rest);
      NoWord(p);
    case True => LiteralReads("true", rest, depth);
    case False => LiteralReads("false", rest, depth);
    case Null => LiteralReads("null", rest, depth);
  }

  lemma WordReads(word: string, rest: string)
    requires word != ""
    ensures Starts(word + rest, word) && (word + rest)[|word|..] == rest && Head(word + rest) == word[0]
  {
  }

  lemma LiteralReads(word: string, rest: string, depth: nat)
    requires word == "true" || word == "false" || word == "null"
    ensures SkipSpaces(word + rest) == word + rest && ValueRest(word + rest, depth) == Some(rest)
  {
    WordReads(word, rest);
    NoWord(word + rest);
  }

  lemma NoWord(p: string)
    ensures Head(p) != 't' ==> !Starts(p, "true")
    ensures Head(p) != 'f' ==> !Starts(p, "false")
    ensures Head(p) != 'n' ==> !Starts(p, "null")
  {
    assert Starts(p, "true") ==> p[0] == "true"[0];
    assert Starts(p, "false") ==> p[0] == "false"[0];
    assert Starts(p, "null") ==> p[0] == "null"[0];
  }

  lemma {:induction false} MembersRead(pad: string, ms: Members, rest: string, depth: nat)
    requires Spaces(pad) && MembersOk(ms) && depth + NestMembers(ms) <= MAX_DEPTH
    ensures MembersRest(['{'] + (pad + MembersTo(ms, true, ['}'] + rest)), depth) == Some(rest)
    decreases ms, 1
  {
    var p := ['{'] + (pad + MembersTo(ms, true, ['}'] + rest));
    assert p[1..] == pad + MembersTo(ms, true, ['}'] + rest);
    SkipsMore(pad, MembersTo(ms, true, ['}'] + rest));
    if ms.Member? {
      SkipsSpaces(ms.pad, MemberTo(ms, ['}'] + rest));
      MemberReads(ms, rest, depth);
    }
  }

  lemma {:induction false} MemberReads(ms: Members, rest: string, depth: nat)
    requires ms.Member? && MembersOk(ms) && depth + NestMembers(ms) <= MAX_DEPTH
    ensures MemberRest(MemberTo(ms, ['}'] + rest), depth) == Some(rest)
    decreases ms, 0
  {
    var next := MembersTo(ms.more, false, ['}'] + rest);
    var e := ms.after + next;
    NameReads(ms, ['}'] + rest);
    assert Head(next) == ',' || Head(next) == '}';
    AfterValue(ms.after, next);
    ValueReads(ms.lead, ms.value, e, depth);
    if ms.more.Member? {
      assert next[1..] == ms.more.pad + MemberTo(ms.more, ['}'] + rest);
      SkipsSpaces(ms.more.pad, MemberTo(ms.more, ['}'] + rest));
      MemberReads(ms.more, rest, depth);
    }
  }

  lemma NameReads(ms: Members, end: string)
    requires ms.Member? && MembersOk(ms)
    ensures MemberValue(MemberTo(ms, end)) ==
            Some(ms.lead + RenderTo(ms.value, ms.after + MembersTo(ms.more, false, end)))
    ensures KeyOf(MemberTo(ms, end)) == PiecesTo(ms.key, "")
  {
    var v := ms.lead + RenderTo(ms.value, ms.after + MembersTo(ms.more, false, end));
    var c := [':'] + v;
    var q := MemberTo(ms, end);
    assert q[1..] == PiecesTo(ms.key, ['"'] + (ms.colon + c));
    StringReads(ms.key, ms.colon + c);
    SkipsSpaces(ms.colon, c);
    PiecesApart(ms.key, ['"'] + (ms.colon + c));
    assert c[1..] == v;
    assert q[1..|q| - |ms.colon + c| - 1] == PiecesTo(ms.key, "");
  }

  lemma {:induction false} PiecesApart(ps: seq<Piece>, rest: string)
    ensures PiecesTo(ps, rest) == PiecesTo(ps, "") + rest
  {
    if ps != [] {
      PiecesApart(ps[1..], rest);
      PieceApart(ps[0], PiecesTo(ps[1..], ""), rest);
    }
  }

  lemma PieceApart(p: Piece, t: string, rest: string)
    ensures PieceTo(p, t + rest) == PieceTo(p, t) + rest
  {
    match p
    case Plain(c) => assert [c] + (t + rest) == [c] + t + rest;
    case Escape(c) => assert ['\\', c] + (t + rest) == ['\\', c] + t + rest;
    case Unicode(d) => assert ['\\', 'u'] + (d + (t + rest)) == ['\\', 'u'] + (d + t) + rest;
  }

  lemma {:induction false} ItemsRead(pad: string, es: Items, rest: string, depth: nat)
    requires Spaces(pad) && ItemsOk(es) && depth + NestItems(es) <= MAX_DEPTH
    ensures ItemsRest(['['] + (pad + ItemsTo(es, true, [']'] + rest)), depth) == Some(rest)
    decreases es, 1
  {
    var t := ItemsTo(es, true, [']'] + rest);
    var p := ['['] + (pad + t);
    assert p[1..] == pad + t;
    SkipsMore(pad, t);
    if es.Item? {
      var v := RenderTo(es.value, es.after + ItemsTo(es.more, false, [']'] + rest));
      RenderBegins(es.value, es.after + ItemsTo(es.more, false, [']'] + rest));
      SkipsSpaces(es.lead, v);
      assert "" + v == v;
      ItemReads("", es, rest, depth);
    }
  }

  // w: the spaces before the value still to skip
  lemma {:induction false} ItemReads(w: string, es: Items, rest: string, depth: nat)
    requires Spaces(w) && es.Item? && ItemsOk(es) && depth + NestItems(es) <= MAX_DEPTH
    ensures ItemRest(w + RenderTo(es.value, es.after + ItemsTo(es.more, false, [']'] + rest)), depth) == Some(rest)
    decreases es, 0
  {
    var next := ItemsTo(es.more, false, [']'] + rest);
    AfterValue(es.after, next);
    ValueReads(w, es.value, es.after + next, depth);
    if es.more.Item? {
      assert next[1..] == ItemTo(es.more, [']'] + rest);
      ItemReads(es.more.lead, es.more, rest, depth);
    }
  }

  // ── What is reported ───────────────────────────────────────────────────────

  // The value of a tree whose text stands before the rest
  function Shown(j: Json, rest: string): Value {
    match j
    case Str(ps) => Value(STRING, false, 0, PiecesTo(ps, ['"'] + rest))
    case Num(n) => Value(if IsInteger(n) then INTEGER else NUMBER, n.neg, NumberIn(Digits(n)) % WORD, RenderTo(j, rest))
    case True => Value(BOOL, false, 1, RenderTo(j, rest))
    case False => Value(BOOL, false, 0, RenderTo(j, rest))
    case Null => Value(NUL, false, 0, RenderTo(j, rest))
    case Obj(_, _) => Value(OBJECT, false, 0, RenderTo(j, rest))
    case Arr(_, _) => Value(ARRAY, false, 0, RenderTo(j, rest))
  }

  function Digits(n: Number): (d: string)
    ensures AllDigits(d)
  {
    if AllDigits(n.whole) then n.whole else ""
  }

  // No fraction, no exponent, and below 2^32
  predicate IsInteger(n: Number) {
    n.frac == "" && n.exp == "" && NumberIn(Digits(n)) < WORD
  }

  lemma ValueShown(j: Json, rest: string, depth: nat)
    requires Ok(j) && depth + Nest(j) <= MAX_DEPTH && (j.Num? ==> Clear(rest))
    ensures var p := RenderTo(j, rest);
            SkipSpaces(p) == p && ValueRest(p, depth) == Some(rest) && ValueAt(p, depth) == Shown(j, rest)
  {
    var p := RenderTo(j, rest);
    assert "" + p == p;
    ValueReads("", j, rest, depth);
    RenderBegins(j, rest);
    NoWord(p);
    match j
    case Str(ps) => assert p[1..] == PiecesTo(ps, ['"'] + rest);
    case Num(n) => NumberReads(n, rest);
    case True => WordReads("true", rest);
    case False => WordReads("false", rest);
    case Null => WordReads("null", rest);
    case Obj(_, _) =>
    case Arr(_, _) =>
  }

  // One call a member, in order: its name as written and its value
  function Reported(ms: Members, end: string): seq<Call> {
    match ms
    case NoMembers => []
    case Member(_, key, _, _, value, after, more) =>
      [Call(PiecesTo(key, ""), Shown(value, after + MembersTo(more, false, end)))] + Reported(more, end)
  }

  lemma {:induction false} CallsReported(ms: Members, rest: string, depth: nat)
    requires ms.Member? && MembersOk(ms) && depth + NestMembers(ms) <= MAX_DEPTH
    ensures MemberRest(MemberTo(ms, ['}'] + rest), depth).Some?
    ensures MemberCalls(MemberTo(ms, ['}'] + rest), depth) == Reported(ms, ['}'] + rest)
    decreases ms
  {
    MemberReads(ms, rest, depth);
    var end := ['}'] + rest;
    var next := MembersTo(ms.more, false, end);
    var e := ms.after + next;
    var p := RenderTo(ms.value, e);
    NameReads(ms, end);
    AfterValue(ms.after, next);
    ValueReads(ms.lead, ms.value, e, depth);
    RenderBegins(ms.value, e);
    SkipsSpaces(ms.lead, p);
    ValueShown(ms.value, e, depth);
    if ms.more.Member? {
      assert next[1..] == ms.more.pad + MemberTo(ms.more, end);
      SkipsSpaces(ms.more.pad, MemberTo(ms.more, end));
      CallsReported(ms.more, rest, depth);
    }
  }

  // ── Nothing else is read ───────────────────────────────────────────────────

  lemma {:induction false} SpacesBefore(s: string) returns (w: string)
    ensures Spaces(w) && s == w + SkipSpaces(s)
  {
    if s != "" && IsSpace(s[0]) {
      w := SpacesBefore(s[1..]);
      w := [s[0]] + w;
    } else {
      w := "";
    }
  }

  lemma {:induction false} StringSound(s: string) returns (ps: seq<Piece>)
    requires StringRest(s).Some?
    ensures PiecesOk(ps) && s == PiecesTo(ps, ['"'] + StringRest(s).value)
    decreases |s|
  {
    if s[0] == '"' {
      ps := [];
    } else {
      var p, k := Plain(s[0]), 1;
      if s[0] == '\\' {
        if s[1] == 'u' {
          p, k := Unicode(s[2..6]), 6;
        } else {
          p, k := Escape(s[1]), 2;
        }
      }
      assert PieceTo(p, s[k..]) == s;
      var qs := StringSound(s[k..]);
      ps := [p] + qs;
      assert ps[1..] == qs;
    }
  }

  lemma DigitsSound(s: string)
    requires DigitsRest(s).Some?
    ensures SomeDigits(Run(s)) && s == Run(s) + DigitsRest(s).value
  {
  }

  lemma NumberSound(s: string) returns (n: Number)
    requires NumberRest(s).Some?
    ensures NumberOk(n) && s == NumberTo(n, NumberRest(s).value)
  {
    var neg := Head(s) == '-';
    var p := if neg then s[1..] else s;
    DigitsSound(p);
    var w := DigitsRest(p).value;
    var frac := FracSound(w);
    var f := FracRest(w).value;
    var exp := ExpSound(f);
    n := Number(neg, Run(p), frac, exp);
  }

  lemma FracSound(s: string) returns (x: string)
    requires FracRest(s).Some?
    ensures FracOk(x) && s == x + FracRest(s).value
  {
    x := "";
    if Head(s) == '.' {
      DigitsSound(s[1..]);
      x := ['.'] + Run(s[1..]);
    }
  }

  lemma ExpSound(s: string) returns (x: string)
    requires ExpRest(s).Some?
    ensures ExpOk(x) && s == x + ExpRest(s).value
  {
    x := "";
    if Head(s) == 'e' || Head(s) == 'E' {
      var k := 1 + SignLength(s[1..]);
      DigitsSound(s[k..]);
      x := s[..k] + Run(s[k..]);
      assert x[1..] == s[1..k] + Run(s[k..]);
      assert x[1 + SignLength(x[1..])..] == Run(s[k..]);
    }
  }

  lemma {:induction false} ScalarSound(p: string, depth: nat) returns (j: Json)
    requires SkipSpaces(p) == p && Head(p) != '{' && Head(p) != '[' && ValueRest(p, depth).Some?
    ensures Ok(j) && Nest(j) == 0 && p == RenderTo(j, ValueRest(p, depth).value)
  {
    if Head(p) == '"' {
      var ps := StringSound(p[1..]);
      j := Str(ps);
    } else if Starts(p, "true") {
      j := True;
    } else if Starts(p, "false") {
      j := False;
    } else if Starts(p, "null") {
      j := Null;
    } else {
      var n := NumberSound(p);
      j := Num(n);
    }
  }

  // Whatever the reader takes for a value is the text of a tree within the depth
  lemma {:induction false} ValueSound(s: string, depth: nat) returns (w: string, j: Json)
    requires depth <= MAX_DEPTH && ValueRest(s, depth).Some?
    ensures Spaces(w) && Ok(j) && depth + Nest(j) <= MAX_DEPTH
    ensures s == w + RenderTo(j, ValueRest(s, depth).value)
    decreases |s|, 1
  {
    var p := SkipSpaces(s);
    w := SpacesBefore(s);
    if Head(p) == '{' {
      var pad, ms := MembersSound(p, depth + 1);
      j := Obj(pad, ms);
    } else if Head(p) == '[' {
      var pad, es := ItemsSound(p, depth + 1);
      j := Arr(pad, es);
    } else {
      SkipTwice(s);
      SkipFirst(s, depth);
      j := ScalarSound(p, depth);
    }
  }

  lemma {:induction false} MembersSound(p: string, depth: nat) returns (pad: string, ms: Members)
    requires depth <= MAX_DEPTH && Head(p) == '{' && MembersRest(p, depth).Some?
    ensures Spaces(pad) && MembersOk(ms) && depth + NestMembers(ms) <= MAX_DEPTH
    ensures p == ['{'] + (pad + MembersTo(ms, true, ['}'] + MembersRest(p, depth).value))
    decreases |p|, 0
  {
    var q := SkipSpaces(p[1..]);
    pad := SpacesBefore(p[1..]);
    assert p == ['{'] + (pad + q);
    if Head(q) == '}' {
      ms := NoMembers;
    } else {
      ms := MemberSound("", q, depth);
      assert MembersTo(ms, true, ['}'] + MembersRest(p, depth).value) == q;
    }
  }

  lemma NameSound(q: string) returns (key: seq<Piece>, colon: string)
    requires MemberValue(q).Some?
    ensures PiecesOk(key) && Spaces(colon)
    ensures q == QuotedTo(key, colon + ([':'] + MemberValue(q).value))
  {
    key := StringSound(q[1..]);
    var e := StringRest(q[1..]).value;
    colon := SpacesBefore(e);
    assert e == colon + ([':'] + MemberValue(q).value);
    assert q == ['"'] + q[1..];
  }

  // A value, the spaces after it and what follows them
  lemma {:induction false} SpacedSound(s: string, depth: nat) returns (lead: string, value: Json, after: string)
    requires depth <= MAX_DEPTH && ValueRest(s, depth).Some?
    ensures Spaces(lead) && Ok(value) && Spaces(after) && depth + Nest(value) <= MAX_DEPTH
    ensures var n := SkipSpaces(ValueRest(s, depth).value); s == lead + RenderTo(value, after + n)
    decreases |s|, 2
  {
    lead, value := ValueSound(s, depth);
    var f := ValueRest(s, depth).value;
    after := SpacesBefore(f);
    var n := SkipSpaces(f);
    assert f == after + n;
  }

  // From a member's name on, the spaces before it given
  lemma {:induction false} MemberSound(pad: string, q: string, depth: nat) returns (ms: Members)
    requires Spaces(pad) && depth <= MAX_DEPTH && MemberRest(q, depth).Some?
    ensures ms.Member? && ms.pad == pad && MembersOk(ms) && depth + NestMembers(ms) <= MAX_DEPTH
    ensures q == MemberTo(ms, ['}'] + MemberRest(q, depth).value)
    decreases |q|, 0
  {
    var end := ['}'] + MemberRest(q, depth).value;
    var key, colon := NameSound(q);
    var v := MemberValue(q).value;
    var lead, value, after := SpacedSound(v, depth);
    var n := SkipSpaces(ValueRest(v, depth).value);
    var more := NoMembers;
    if Head(n) == ',' {
      var gap := SpacesBefore(n[1..]);
      var m := SkipSpaces(n[1..]);
      more := MemberSound(gap, m, depth);
      assert n == [','] + (gap + m);
    }
    assert n == MembersTo(more, false, end);
    ms := Member(pad, key, colon, lead, value, after, more);
  }

  lemma {:induction false} ItemsSound(p: string, depth: nat) returns (pad: string, es: Items)
    requires depth <= MAX_DEPTH && Head(p) == '[' && ItemsRest(p, depth).Some?
    ensures Spaces(pad) && ItemsOk(es) && depth + NestItems(es) <= MAX_DEPTH
    ensures p == ['['] + (pad + ItemsTo(es, true, [']'] + ItemsRest(p, depth).value))
    decreases |p|, 0
  {
    var q := SkipSpaces(p[1..]);
    pad := SpacesBefore(p[1..]);
    assert p == ['['] + (pad + q);
    if Head(q) == ']' {
      es := NoItems;
    } else {
      es := ItemSound(q, depth);
    }
  }

  lemma {:induction false} ItemSound(q: string, depth: nat) returns (es: Items)
    requires depth <= MAX_DEPTH && ItemRest(q, depth).Some?
    ensures es.Item? && ItemsOk(es) && depth + NestItems(es) <= MAX_DEPTH
    ensures q == ItemTo(es, [']'] + ItemRest(q, depth).value)
    decreases |q|, 3
  {
    var lead, value, after := SpacedSound(q, depth);
    var n := SkipSpaces(ValueRest(q, depth).value);
    var more := NoItems;
    if Head(n) == ',' {
      more := ItemSound(n[1..], depth);
    }
    assert n == ItemsTo(more, false, [']'] + ItemRest(q, depth).value);
    es := Item(lead, value, after, more);
  }

  // ── object ─────────────────────────────────────────────────────────────────

  // The text is an object's, after spaces, and whatever follows it
  ghost predicate Begins(text: string, w: string, pad: string, ms: Members, rest: string) {
    Spaces(w) && Ok(Obj(pad, ms)) && Nest(Obj(pad, ms)) <= MAX_DEPTH && text == w + RenderTo(Obj(pad, ms), rest)
  }

  lemma ObjectReads(text: string, w: string, pad: string, ms: Members, rest: string)
    requires Begins(text, w, pad, ms, rest)
    ensures ObjectCalls(text) == Some(Reported(ms, ['}'] + rest))
  {
    var p := RenderTo(Obj(pad, ms), rest);
    var t := MembersTo(ms, true, ['}'] + rest);
    SkipsSpaces(w, p);
    MembersRead(pad, ms, rest, 1);
    assert p[1..] == pad + t;
    SkipsMore(pad, t);
    if ms.Member? {
      SkipsSpaces(ms.pad, MemberTo(ms, ['}'] + rest));
      CallsReported(ms, rest, 1);
    }
  }

  lemma ObjectSound(text: string) returns (w: string, pad: string, ms: Members, rest: string)
    requires ObjectCalls(text).Some?
    ensures Begins(text, w, pad, ms, rest)
  {
    var p := SkipSpaces(text);
    w := SpacesBefore(text);
    rest := MembersRest(p, 1).value;
    pad, ms := MembersSound(p, 1);
  }

  // object succeeds exactly on the texts that begin with an object nested
  // MAX_DEPTH at most; then it reports each top-level member once, in order,
  // with the value the tree has there
  lemma ObjectExactly(text: string)
    ensures ObjectCalls(text).Some? <==> exists w, pad, ms, rest :: Begins(text, w, pad, ms, rest)
    ensures forall w, pad, ms, rest | Begins(text, w, pad, ms, rest) ::
              ObjectCalls(text) == Some(Reported(ms, ['}'] + rest))
  {
    if ObjectCalls(text).Some? {
      var w, pad, ms, rest := ObjectSound(text);
      assert Begins(text, w, pad, ms, rest);
    }
    forall w, pad, ms, rest | Begins(text, w, pad, ms, rest)
      ensures ObjectCalls(text) == Some(Reported(ms, ['}'] + rest))
    {
      ObjectReads(text, w, pad, ms, rest);
    }
  }
}
