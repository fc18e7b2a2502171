/** Feeding a tree's text to the stream parser makes the calls of a walk over
    the tree, cut at the fifth level. */
module JsonWalk {
  import opened Text
  import opened JsonTree
  import opened JsonPush
  import JsonPrefix

  // ── The walk ───────────────────────────────────────────────────────────────

  // An escape keeps the escaped character; a code point becomes a question mark
  function Letter(p: Piece): char {
    match p
    case Plain(c) => c
    case Escape(c) => c
    case Unicode(d) => '?'
  }

  function Letters(ps: seq<Piece>): string {
    if ps == [] then "" else [Letter(ps[0])] + Letters(ps[1..])
  }

  predicate TooLong(text: string) {
    |text| >= VALUE_LEN
  }

  function Kept(text: string): (k: string)
    ensures |k| < VALUE_LEN
  {
    if TooLong(text) then text[..VALUE_LEN - 1] else text
  }

  // Reported at the five first levels only
  function Said(depth: nat, path: seq<string>, value: Option<string>, cut: bool): seq<Call> {
    if 1 <= depth <= MAX_DEPTH then [Call(depth, path, value, cut)] else []
  }

  function SaidText(depth: nat, path: seq<string>, text: string): (seq<Call>, bool) {
    (Said(depth, path, Some(Kept(text)), TooLong(text)), TooLong(text))
  }

  function Deeper(depth: nat, path: seq<string>): seq<string> {
    if depth < MAX_DEPTH then path + [""] else path
  }

  // A name is cut to the characters that fit
  function Named(depth: nat, path: seq<string>, name: string): seq<string>
    requires |path| == Capped(depth) && depth >= 1
  {
    if depth > MAX_DEPTH then path
    else path[depth - 1 := if |name| < KEY_LEN then name else name[..KEY_LEN - 1]]
  }

  // The calls for a value at a depth, under the keys above it, and whether the
  // last text before its end was cut (and before it)
  function Visit(j: Json, depth: nat, path: seq<string>, cut: bool): (seq<Call>, bool)
    requires |path| == Capped(depth)
    decreases j
  {
    match j
    case Str(ps) => SaidText(depth, path, Letters(ps))
    case Num(n) => SaidText(depth, path, NumberTo(n, ""))
    case True => SaidText(depth, path, "true")
    case False => SaidText(depth, path, "false")
    case Null => SaidText(depth, path, "null")
    case Obj(_, ms) =>
      var (calls, q, c) := VisitMembers(ms, depth + 1, Deeper(depth, path), cut);
      (calls + Said(depth + 1, q, None, c), c)
    case Arr(_, es) => VisitItems(es, depth + 1, Deeper(depth, path), cut)
  }

  function VisitMembers(ms: Members, depth: nat, path: seq<string>, cut: bool): (r: (seq<Call>, seq<string>, bool))
    requires |path| == Capped(depth) && depth >= 1
    ensures |r.1| == Capped(depth)
    decreases ms
  {
    match ms
    case NoMembers => ([], path, cut)
    case Member(_, key, _, _, value, _, more) =>
      var p := Named(depth, path, Letters(key));
      var (calls, c) := Visit(value, depth, p, TooLong(Letters(key)));
      var (next, q, d) := VisitMembers(more, depth, p, c);
      (calls + next, q, d)
  }

  function VisitItems(es: Items, depth: nat, path: seq<string>, cut: bool): (seq<Call>, bool)
    requires |path| == Capped(depth)
    decreases es
  {
    match es
    case NoItems => ([], cut)
    case Item(_, value, _, more) =>
      var (calls, c) := Visit(value, depth, path, cut);
      var (next, d) := VisitItems(more, depth, path, c);
      (calls + next, d)
  }

  // ── States between texts ───────────────────────────────────────────────────

  ghost predicate Idle(s: State) {
    Valid(s) && !s.str && !s.esc && !s.bare && s.hex == 0 && s.buf == ""
  }

  function Path(s: State): (p: seq<string>)
    requires Valid(s)
    ensures |p| == Capped(s.depth)
  {
    s.keys[..Capped(s.depth)]
  }

  function Bits(depth: nat): nat {
    if depth > 8 then 8 else depth
  }

  // Nothing changed at this depth or above
  ghost predicate Outer(s: State, t: State, depth: nat)
    requires Valid(s) && Valid(t)
  {
    t.depth == s.depth && t.keys[..Capped(depth)] == s.keys[..Capped(depth)] && t.objects[..Bits(depth)] == s.objects[..Bits(depth)]
  }

  predicate Delimits(t: string) {
    t != "" && (IsSpace(t[0]) || t[0] == ',' || t[0] == '}' || t[0] == ']')
  }

  // ── Texts ──────────────────────────────────────────────────────────────────

  lemma FedOne(s: State, c: char, t: string)
    requires Valid(s)
    ensures FeedAll(s, [c] + t) == FeedAll(Feed(s, c), t)
  {
    assert ([c] + t)[1..] == t;
  }

  lemma {:induction false} SpacesFed(s: State, w: string, t: string)
    requires Idle(s) && Spaces(w)
    ensures FeedAll(s, w + t) == FeedAll(s, t)
  {
    if w == "" {
      assert w + t == t;
    } else {
      assert w + t == [w[0]] + (w[1..] + t);
      FedOne(s, w[0], w[1..] + t);
      SpacesFed(s, w[1..], t);
    }
  }

  // What the buffer holds of a text
  ghost predicate Holds(s: State, text: string) {
    s.buf == Kept(text) && s.cut == TooLong(text)
  }

  lemma PutHolds(s: State, text: string, c: char)
    requires Valid(s) && Holds(s, text)
    ensures Put(s, c) == s.(buf := Kept(text + [c]), cut := TooLong(text + [c]))
  {
  }

  lemma PieceFed(s: State, p: Piece, t: string)
    requires Valid(s) && s.str && !s.esc && s.hex == 0 && PieceOk(p)
    ensures FeedAll(s, PieceTo(p, t)) == FeedAll(Put(s, Letter(p)), t)
  {
    match p
    case Plain(c) => FedOne(s, c, t);
    case Escape(c) =>
      assert ['\\', c] + t == ['\\'] + ([c] + t);
      FedOne(s, '\\', [c] + t);
      FedOne(s.(esc := true), c, t);
    case Unicode(d) =>
      assert ['\\', 'u'] + (d + t) == ['\\'] + (['u'] + (d + t));
      FedOne(s, '\\', ['u'] + (d + t));
      FedOne(s.(esc := true), 'u', d + t);
      SkipsDigits(Put(s, '?').(hex := 4), d, t);
  }

  lemma {:induction false} SkipsDigits(s: State, d: string, t: string)
    requires Valid(s) && s.str && s.hex == |d|
    ensures FeedAll(s, d + t) == FeedAll(s.(hex := 0), t)
    decreases |d|
  {
    hide FeedAll;
    if d == "" {
      assert d + t == t;
    } else {
      assert d + t == [d[0]] + (d[1..] + t);
      FedOne(s, d[0], d[1..] + t);
      SkipsDigits(s.(hex := s.hex - 1), d[1..], t);
    }
  }

  lemma {:induction false} PiecesFed(s: State, text: string, ps: seq<Piece>, t: string)
    requires Valid(s) && s.str && !s.esc && s.hex == 0 && PiecesOk(ps) && Holds(s, text)
    ensures FeedAll(s, PiecesTo(ps, t)) ==
            FeedAll(s.(buf := Kept(text + Letters(ps)), cut := TooLong(text + Letters(ps))), t)
    decreases |ps|
  {
    hide Feed, FeedAll, Kept, TooLong, Letters, Letter;
    LettersAdd(text, ps);
    if ps != [] {
      assert PieceOk(ps[0]);
      PieceFed(s, ps[0], PiecesTo(ps[1..], t));
      PutHolds(s, text, Letter(ps[0]));
      PiecesFed(Put(s, Letter(ps[0])), text + [Letter(ps[0])], ps[1..], t);
    }
  }

  lemma LettersAdd(text: string, ps: seq<Piece>)
    ensures text + Letters(ps) == if ps == [] then text else text + [Letter(ps[0])] + Letters(ps[1..])
  {
  }

  // A string as the closing quote finds it
  function AtQuote(s: State, text: string): State {
    s.(str := true, buf := Kept(text), cut := TooLong(text))
  }

  lemma QuotedFed(s: State, ps: seq<Piece>, t: string)
    requires Idle(s) && PiecesOk(ps)
    ensures Valid(AtQuote(s, Letters(ps)))
    ensures FeedAll(s, QuotedTo(ps, t)) == FeedAll(InString(AtQuote(s, Letters(ps)), '"'), t)
  {
    FedOne(s, '"', PiecesTo(ps, ['"'] + t));
    PiecesFed(s.(str := true, cut := false), "", ps, ['"'] + t);
    assert "" + Letters(ps) == Letters(ps);
    FedOne(AtQuote(s, Letters(ps)), '"', t);
  }

  // The characters of numbers and literals
  predicate IsBare(c: char) {
    c != '"' && c != '{' && c != '[' && c != '}' && c != ']' && c != ',' && c != ':' && !IsSpace(c)
  }

  predicate AllBare(w: string) {
    forall i | 0 <= i < |w| :: IsBare(w[i])
  }

  lemma {:induction false} MoreBareFed(s: State, text: string, w: string, t: string)
    requires Valid(s) && !s.str && s.bare && text != "" && Holds(s, text) && AllBare(w)
    ensures FeedAll(s, w + t) == FeedAll(s.(buf := Kept(text + w), cut := TooLong(text + w)), t)
    decreases |w|
  {
    hide FeedAll;
    if w == "" {
      assert text + w == text && w + t == t;
    } else {
      assert w + t == [w[0]] + (w[1..] + t);
      FedOne(s, w[0], w[1..] + t);
      PutHolds(s, text, w[0]);
      MoreBareFed(Put(s, w[0]), text + [w[0]], w[1..], t);
      assert text + [w[0]] + w[1..] == text + w;
    }
  }

  // A number or a literal, and what ends it
  lemma BareFed(s: State, w: string, t: string)
    requires Idle(s) && w != "" && AllBare(w) && Delimits(t)
    ensures Valid(s.(buf := Kept(w), cut := TooLong(w)))
    ensures FeedAll(s, w + t) == FeedAll(Report(s.(buf := Kept(w), cut := TooLong(w)), Some(Kept(w))).(buf := ""), t)
  {
    hide FeedAll, Feed, Kept, TooLong;
    FirstBare(s, w);
    var q := s.(bare := true, buf := [w[0]], cut := false);
    assert w + t == [w[0]] + (w[1..] + t);
    FedOne(s, w[0], w[1..] + t);
    MoreBareFed(q, [w[0]], w[1..], t);
    assert [w[0]] + w[1..] == w;
    ScalarFed(s.(bare := true, buf := Kept(w), cut := TooLong(w)), t);
  }

  lemma FirstBare(s: State, w: string)
    requires Idle(s) && w != "" && AllBare(w)
    ensures var q := s.(bare := true, buf := [w[0]], cut := false); Feed(s, w[0]) == q && Holds(q, [w[0]])
  {
  }

  // What comes after a number or a literal ends it first
  lemma ScalarFed(p: State, t: string)
    requires Valid(p) && !p.str && Delimits(t)
    ensures FeedAll(p, t) == FeedAll(Scalar(p), t)
  {
    assert Scalar(Scalar(p)) == Scalar(p);
    assert Feed(p, t[0]) == Feed(Scalar(p), t[0]);
  }

  // ── Values ─────────────────────────────────────────────────────────────────

  // After a value: what was above it is as it was, and the calls are the walk's
  ghost predicate Walked(s: State, q: State, calls: seq<Call>, cut: bool)
    requires Valid(s)
  {
    Idle(q) && Outer(s, q, s.depth) && q.calls == s.calls + calls && q.cut == cut
  }

  lemma Reported(s: State, value: Option<string>)
    requires Valid(s)
    ensures Report(s, value) == s.(calls := s.calls + Said(s.depth, Path(s), value, s.cut))
  {
    if !(1 <= s.depth <= MAX_DEPTH) {
      assert s.calls + [] == s.calls;
    }
  }

  lemma TextWalked(s: State, text: string)
    requires Idle(s)
    ensures var q := s.(buf := Kept(text), cut := TooLong(text));
            Valid(q) && Walked(s, Report(q, Some(Kept(text))).(buf := ""),
                               SaidText(s.depth, Path(s), text).0, SaidText(s.depth, Path(s), text).1)
  {
    Reported(s.(buf := Kept(text), cut := TooLong(text)), Some(Kept(text)));
  }

  lemma ScalarWalked(s: State, j: Json, t: string) returns (q: State)
    requires Idle(s) && !s.wantKey && Ok(j) && !j.Obj? && !j.Arr? && Delimits(t)
    ensures var (calls, cut) := Visit(j, s.depth, Path(s), s.cut); Walked(s, q, calls, cut)
    ensures FeedAll(s, RenderTo(j, t)) == FeedAll(q, t)
  {
    hide FeedAll;
    var text :=
      match j
      case Str(ps) => Letters(ps)
      case Num(n) => NumberTo(n, "")
      case True => "true"
      case False => "false"
      case _ => "null";
    TextWalked(s, text);
    q := Report(s.(buf := Kept(text), cut := TooLong(text)), Some(Kept(text))).(buf := "");
    match j
    case Str(ps) =>
      QuotedFed(s, ps, t);
    case Num(n) =>
      NumberIsBare(n, t);
      BareFed(s, text, t);
    case _ =>
      BareFed(s, text, t);
  }

  lemma NumberIsBare(n: JsonTree.Number, t: string)
    requires NumberOk(n)
    ensures NumberTo(n, t) == NumberTo(n, "") + t && NumberTo(n, "") != "" && AllBare(NumberTo(n, ""))
  {
    NumberApart(n, t);
    DigitsBare(n.whole);
    if n.frac != "" {
      DigitsBare(n.frac[1..]);
    }
    if n.exp != "" {
      DigitsBare(n.exp[1 + SignLength(n.exp[1..])..]);
    }
    ExpBare(n.exp);
    assert NumberTo(n, "") == (if n.neg then ['-'] else "") + (n.whole + (n.frac + (n.exp + "")));
  }

  lemma NumberApart(n: JsonTree.Number, t: string)
    ensures NumberTo(n, t) == NumberTo(n, "") + t
  {
    assert n.exp + "" == n.exp;
    assert n.frac + (n.exp + t) == n.frac + n.exp + t;
    assert n.whole + (n.frac + n.exp + t) == n.whole + (n.frac + n.exp) + t;
  }

  lemma DigitsBare(d: string)
    requires AllDigits(d)
    ensures AllBare(d)
  {
  }

  lemma ExpBare(x: string)
    requires ExpOk(x)
    ensures AllBare(x)
  {
    if x != "" {
      var k := 1 + SignLength(x[1..]);
      DigitsBare(x[k..]);
      assert forall i | k <= i < |x| :: x[i] == x[k..][i - k];
    }
  }

  // ── Objects ────────────────────────────────────────────────────────────────

  // Inside an object, between its members
  ghost predicate Within(s: State) {
    Idle(s) && s.depth >= 1 && (s.depth <= 8 ==> s.objects[s.depth - 1])
  }

  // After members: what was above them is as it was, the keys are the walk's
  ghost predicate Passed(s: State, q: State, calls: seq<Call>, path: seq<string>, cut: bool)
    requires Within(s)
  {
    Within(q) && Outer(s, q, s.depth - 1) && q.calls == s.calls + calls && Path(q) == path && q.cut == cut
  }

  // After a member's name
  function AfterName(s: State, key: string): (q: State)
    requires Within(s)
  {
    s.(keys := if s.depth <= MAX_DEPTH then s.keys[s.depth - 1 := CutKey(Kept(key))] else s.keys,
       wantKey := false, cut := TooLong(key))
  }

  lemma NameWalked(s: State, key: string)
    requires Within(s) && (s.wantKey || s.depth > 8)
    ensures Valid(AtQuote(s, key)) && InString(AtQuote(s, key), '"') == AfterName(s, key)
    ensures var q := AfterName(s, key);
            Within(q) && Outer(s, q, s.depth - 1) && q.calls == s.calls && Path(q) == Named(s.depth, Path(s), key)
  {
    CutTwice(key);
  }

  // A name kept to a value's length and then to a name's
  lemma CutTwice(key: string)
    ensures CutKey(Kept(key)) == if |key| < KEY_LEN then key else key[..KEY_LEN - 1]
  {
    if TooLong(key) {
      assert key[..VALUE_LEN - 1][..KEY_LEN - 1] == key[..KEY_LEN - 1];
    }
  }

  lemma CommaWalked(s: State)
    requires Within(s)
    ensures var q := Feed(s, ',');
            q == s.(wantKey := q.wantKey) && (q.wantKey || s.depth > 8) && Within(q)
  {
  }

  // Outside everything there is nothing to close, and below level 255 nothing opens
  lemma StrayBrackets(s: State)
    requires Idle(s)
    ensures s.depth == 0 ==> Feed(s, '}') == s && Feed(s, ']') == s
    ensures s.depth == 255 ==> Feed(s, '{') == s && Feed(s, '[') == s
  {
  }

  lemma OpenWalked(s: State, members: bool)
    requires Idle(s) && s.depth < 255
    ensures var q := Feed(s, if members then '{' else '[');
            && Idle(q) && q.depth == s.depth + 1 && q.wantKey == members && q.calls == s.calls && q.cut == s.cut
            && q.keys[..Capped(s.depth)] == s.keys[..Capped(s.depth)] && q.objects[..Bits(s.depth)] == s.objects[..Bits(s.depth)]
            && Path(q) == Deeper(s.depth, Path(s))
            && (q.depth <= 8 ==> q.objects[q.depth - 1] == members)
  {
  }

  // Between what an opening bracket leaves and what the closing one finds
  lemma CloseWalked(s: State, o: State, q: State, members: bool)
    requires Idle(s) && s.depth < 255 && o == Feed(s, if members then '{' else '[')
    requires Idle(q) && q.depth == o.depth && q.keys[..Capped(s.depth)] == o.keys[..Capped(s.depth)]
    requires q.objects[..Bits(s.depth)] == o.objects[..Bits(s.depth)]
    ensures var r := Feed(q, if members then '}' else ']');
            Idle(r) && Outer(s, r, s.depth) && r.cut == q.cut &&
            r.calls == q.calls + if members then Said(q.depth, Path(q), None, q.cut) else []
  {
    OpenWalked(s, members);
    Reported(q, None);
    assert q.calls + [] == q.calls;
  }

  lemma AfterDelimits(after: string, next: string)
    requires Spaces(after) && Delimits(next)
    ensures Delimits(after + next)
  {
  }

  // The text of a value makes the calls of the walk over it
  lemma {:induction false} ValueFed(s: State, j: Json, t: string) returns (q: State)
    requires Idle(s) && !s.wantKey && Ok(j) && s.depth + Nest(j) <= 255 && Delimits(t)
    ensures var (calls, cut) := Visit(j, s.depth, Path(s), s.cut); Walked(s, q, calls, cut)
    ensures FeedAll(s, RenderTo(j, t)) == FeedAll(q, t)
    decreases j, 2
  {
    match j {
      case Obj(pad, ms) => q := ObjectFed(s, pad, ms, t);
      case Arr(pad, es) => q := ArrayFed(s, pad, es, t);
      case _ => q := ScalarWalked(s, j, t);
    }
  }

  lemma {:induction false} ObjectFed(s: State, pad: string, ms: Members, t: string) returns (q: State)
    requires Idle(s) && Spaces(pad) && MembersOk(ms) && s.depth + 1 + NestMembers(ms) <= 255
    ensures var (calls, cut) := Visit(Obj(pad, ms), s.depth, Path(s), s.cut); Walked(s, q, calls, cut)
    ensures FeedAll(s, ['{'] + (pad + MembersTo(ms, true, ['}'] + t))) == FeedAll(q, t)
    decreases ms, 2
  {
    hide FeedAll, Feed;
    var o := Feed(s, '{');
    var text := MembersTo(ms, true, ['}'] + t);
    OpenWalked(s, true);
    FedOne(s, '{', pad + text);
    SpacesFed(o, pad, text);
    var r := MembersFed(o, ms, true, t);
    assert r.keys[..Capped(o.depth - 1)] == o.keys[..Capped(s.depth)];
    CloseWalked(s, o, r, true);
    FedOne(r, '}', t);
    q := Feed(r, '}');
    var (calls, path, cut) := VisitMembers(ms, o.depth, Path(o), o.cut);
    assert q.calls == s.calls + (calls + Said(o.depth, path, None, cut));
  }

  lemma {:induction false} ArrayFed(s: State, pad: string, es: Items, t: string) returns (q: State)
    requires Idle(s) && Spaces(pad) && ItemsOk(es) && s.depth + 1 + NestItems(es) <= 255
    ensures var (calls, cut) := Visit(Arr(pad, es), s.depth, Path(s), s.cut); Walked(s, q, calls, cut)
    ensures FeedAll(s, ['['] + (pad + ItemsTo(es, true, [']'] + t))) == FeedAll(q, t)
    decreases es, 2
  {
    hide FeedAll, Feed;
    var o := Feed(s, '[');
    var text := ItemsTo(es, true, [']'] + t);
    OpenWalked(s, false);
    FedOne(s, '[', pad + text);
    SpacesFed(o, pad, text);
    var r := ItemsFed(o, es, true, t);
    Outside(o, r, s.depth);
    CloseWalked(s, o, r, false);
    FedOne(r, ']', t);
    q := Feed(r, ']');
    assert r.calls + [] == r.calls;
  }

  lemma Outside(s: State, t: State, depth: nat)
    requires Valid(s) && Valid(t) && Outer(s, t, s.depth) && depth <= s.depth
    ensures Outer(s, t, depth)
  {
    assert t.keys[..Capped(s.depth)][..Capped(depth)] == t.keys[..Capped(depth)];
    assert s.keys[..Capped(s.depth)][..Capped(depth)] == s.keys[..Capped(depth)];
    assert t.objects[..Bits(s.depth)][..Bits(depth)] == t.objects[..Bits(depth)];
    assert s.objects[..Bits(s.depth)][..Bits(depth)] == s.objects[..Bits(depth)];
  }

  lemma {:induction false} MembersFed(s: State, ms: Members, first: bool, t: string) returns (q: State)
    requires Within(s) && (first ==> s.wantKey) && MembersOk(ms) && s.depth + NestMembers(ms) <= 255
    ensures var (calls, path, cut) := VisitMembers(ms, s.depth, Path(s), s.cut); Passed(s, q, calls, path, cut)
    ensures FeedAll(s, MembersTo(ms, first, ['}'] + t)) == FeedAll(q, ['}'] + t)
    decreases ms, 1
  {
    hide FeedAll, Feed;
    if ms.NoMembers? {
      q := s;
    } else {
      var text := MemberTo(ms, ['}'] + t);
      var r := s;
      if !first {
        CommaWalked(s);
        FedOne(s, ',', ms.pad + text);
        r := Feed(s, ',');
      }
      SpacesFed(r, ms.pad, text);
      q := MemberFed(r, ms, t);
    }
  }

  lemma {:induction false} MemberFed(s: State, ms: Members, t: string) returns (q: State)
    requires Within(s) && (s.wantKey || s.depth > 8)
    requires ms.Member? && MembersOk(ms) && s.depth + NestMembers(ms) <= 255
    ensures var (calls, path, cut) := VisitMembers(ms, s.depth, Path(s), s.cut); Passed(s, q, calls, path, cut)
    ensures FeedAll(s, MemberTo(ms, ['}'] + t)) == FeedAll(q, ['}'] + t)
    decreases ms, 0
  {
    hide FeedAll, Feed, AfterName, Passed;
    var next := MembersTo(ms.more, false, ['}'] + t);
    var value := RenderTo(ms.value, ms.after + next);
    var n := AfterName(s, Letters(ms.key));
    NameFed(s, ms.key, ms.colon, ms.lead, value);
    AfterDelimits(ms.after, next);
    var v := ValueFed(n, ms.value, ms.after + next);
    SpacesFed(v, ms.after, next);
    StillWithin(n, v);
    q := MembersFed(v, ms.more, false, t);
    MemberPassed(s, n, v, q, ms);
  }

  // The member's calls and then those of the others
  lemma MemberPassed(s: State, n: State, v: State, q: State, ms: Members)
    requires ms.Member? && Within(s) && Within(n) && Within(v)
    requires n.depth == v.depth == s.depth && n.cut == TooLong(Letters(ms.key)) && n.calls == s.calls
    requires Outer(s, n, s.depth - 1) && Path(n) == Named(s.depth, Path(s), Letters(ms.key))
    requires Outer(n, v, s.depth - 1) && Path(v) == Path(n)
    requires v.calls == n.calls + Visit(ms.value, s.depth, Path(n), n.cut).0
    requires v.cut == Visit(ms.value, s.depth, Path(n), n.cut).1
    requires var (calls, path, cut) := VisitMembers(ms.more, v.depth, Path(v), v.cut); Passed(v, q, calls, path, cut)
    ensures var (calls, path, cut) := VisitMembers(ms, s.depth, Path(s), s.cut); Passed(s, q, calls, path, cut)
  {
    hide Visit, Letters, Named;
  }

  // The name, the colon and the spaces about it
  lemma NameFed(s: State, key: seq<Piece>, colon: string, lead: string, t: string)
    requires Within(s) && (s.wantKey || s.depth > 8) && PiecesOk(key) && Spaces(colon) && Spaces(lead)
    ensures var n := AfterName(s, Letters(key));
            && !n.wantKey && n.depth == s.depth && n.cut == TooLong(Letters(key))
            && Within(n) && Outer(s, n, s.depth - 1) && n.calls == s.calls && Path(n) == Named(s.depth, Path(s), Letters(key))
            && FeedAll(s, QuotedTo(key, colon + ([':'] + (lead + t)))) == FeedAll(n, t)
  {
    hide FeedAll, Feed, InString, PiecesTo, Letters;
    var n := AfterName(s, Letters(key));
    QuotedFed(s, key, colon + ([':'] + (lead + t)));
    NameWalked(s, Letters(key));
    SpacesFed(n, colon, [':'] + (lead + t));
    FedOne(n, ':', lead + t);
    ColonWalked(n);
    SpacesFed(n, lead, t);
  }

  lemma ColonWalked(s: State)
    requires Idle(s) && !s.wantKey
    ensures Feed(s, ':') == s
  {
  }

  lemma StillWithin(s: State, v: State)
    requires Within(s) && Idle(v) && Outer(s, v, s.depth)
    ensures Within(v) && Outer(s, v, s.depth - 1) && Path(v) == Path(s)
  {
    if s.depth <= 8 {
      assert v.objects[..Bits(s.depth)][s.depth - 1] == s.objects[..Bits(s.depth)][s.depth - 1];
    }
    Outside(s, v, s.depth - 1);
  }

  // ── Arrays ─────────────────────────────────────────────────────────────────

  // Inside an array, between its items
  ghost predicate Among(s: State) {
    Idle(s) && s.depth >= 1 && (s.depth <= 8 ==> !s.objects[s.depth - 1])
  }

  lemma {:induction false} ItemsFed(s: State, es: Items, first: bool, t: string) returns (q: State)
    requires Among(s) && (first ==> !s.wantKey) && ItemsOk(es) && s.depth + NestItems(es) <= 255
    ensures var (calls, cut) := VisitItems(es, s.depth, Path(s), s.cut); Walked(s, q, calls, cut)
    ensures FeedAll(s, ItemsTo(es, first, [']'] + t)) == FeedAll(q, [']'] + t)
    decreases es, 1
  {
    hide FeedAll, Feed;
    if es.NoItems? {
      q := s;
    } else {
      var next := ItemsTo(es.more, false, [']'] + t);
      var value := RenderTo(es.value, es.after + next);
      var r := s;
      if !first {
        NoKeyWalked(s);
        FedOne(s, ',', es.lead + value);
        r := Feed(s, ',');
      }
      SpacesFed(r, es.lead, value);
      AfterDelimits(es.after, next);
      var v := ValueFed(r, es.value, es.after + next);
      SpacesFed(v, es.after, next);
      StillAmong(r, v);
      q := ItemsFed(v, es.more, false, t);
    }
  }

  lemma NoKeyWalked(s: State)
    requires Among(s)
    ensures Feed(s, ',') == s.(wantKey := false)
  {
  }

  lemma StillAmong(s: State, v: State)
    requires Among(s) && Idle(v) && Outer(s, v, s.depth)
    ensures Among(v) && Path(v) == Path(s)
  {
    if s.depth <= 8 {
      assert v.objects[..Bits(s.depth)][s.depth - 1] == s.objects[..Bits(s.depth)][s.depth - 1];
    }
  }

  // ── A whole text ───────────────────────────────────────────────────────────

  // From a new parser, any text of an object or an array nested at most 255
  // deep, with any spaces around it, makes the calls of the walk, in order,
  // and ends at depth 0
  lemma Parses(w: string, j: Json, after: string)
    requires Spaces(w) && Spaces(after) && Ok(j) && Nest(j) <= 255 && (j.Obj? || j.Arr?)
    ensures var q := FeedAll(Fresh(), w + RenderTo(j, after));
            q.calls == Visit(j, 0, [], false).0 && q.depth == 0 && Idle(q)
  {
    hide FeedAll, Feed;
    var s := Fresh();
    SpacesFed(s, w, RenderTo(j, after));
    assert Path(s) == [];
    var q;
    match j {
      case Obj(pad, ms) => q := ObjectFed(s, pad, ms, after);
      case Arr(pad, es) => q := ArrayFed(s, pad, es, after);
    }
    assert after == after + "";
    SpacesFed(q, after, "");
    FedNone(q);
    assert s.calls + Visit(j, 0, [], false).0 == Visit(j, 0, [], false).0;
  }

  lemma FedNone(s: State)
    requires Valid(s)
    ensures FeedAll(s, "") == s
  {
  }

  // Another byte takes back no call, and a space leaves the depth
  lemma CallsStay(s: State)
    requires Valid(s)
    ensures s.calls <= Feed(s, ' ').calls && Feed(s, ' ').depth == s.depth
  {
  }

  lemma {:induction false} FedThen(s: State, a: string, b: string)
    requires Valid(s)
    ensures FeedAll(s, a + b) == FeedAll(FeedAll(s, a), b)
    decreases |a|
  {
    hide Feed;
    if a == "" {
      assert a + b == b;
    } else {
      assert (a + b)[1..] == a[1..] + b;
      FedThen(Feed(s, a[0]), a[1..], b);
    }
  }

  // A text that is only a scalar makes no call: there is no key to call it by
  lemma ParsesScalar(w: string, j: Json, after: string)
    requires Spaces(w) && Spaces(after) && Ok(j) && !j.Obj? && !j.Arr?
    ensures var q := FeedAll(Fresh(), w + RenderTo(j, after)); q.calls == [] && q.depth == 0
  {
    hide FeedAll, Feed;
    var s := Fresh();
    SpacesFed(s, w, RenderTo(j, after));
    if after == "" {
      var text := RenderTo(j, "");
      JsonPrefix.TreeThen(j, "", " ");
      assert "" + " " == " ";
      FedThen(s, text, " ");
      FedSpace(FeedAll(s, text));
      CallsStay(FeedAll(s, text));
      ScalarAlone(s, j, " ");
    } else {
      ScalarAlone(s, j, after);
    }
  }

  lemma FedSpace(s: State)
    requires Valid(s)
    ensures FeedAll(s, " ") == Feed(s, ' ')
  {
    assert " "[1..] == "";
    FedNone(Feed(s, ' '));
  }

  lemma ScalarAlone(s: State, j: Json, after: string)
    requires Idle(s) && !s.wantKey && s.depth == 0 && Ok(j) && !j.Obj? && !j.Arr? && after != "" && Spaces(after)
    ensures var q := FeedAll(s, RenderTo(j, after)); q.calls == s.calls && q.depth == 0
  {
    hide FeedAll, Feed;
    var q := ScalarWalked(s, j, after);
    assert after + "" == after;
    SpacesFed(q, after, "");
    FedNone(q);
  }
}
