/** An object cut short is not an object: no reader takes the beginning of a
    file for the whole (Json.h). */
module JsonPrefix {
  import opened Text
  import opened JsonTree
  import opened JsonReader
  import opened JsonGrammar

  // ── What follows a tree follows its text ───────────────────────────────────

  lemma Apart(a: string, b: string, c: string)
    ensures a + (b + c) == a + b + c
  {
  }

  lemma PieceThen(p: Piece, a: string, b: string)
    ensures PieceTo(p, a + b) == PieceTo(p, a) + b
  {
    match p
    case Plain(c) => Apart([c], a, b);
    case Escape(c) => Apart(['\\', c], a, b);
    case Unicode(d) =>
      Apart(d, a, b);
      Apart(['\\', 'u'], d + a, b);
  }

  lemma {:induction false} PiecesThen(ps: seq<Piece>, a: string, b: string)
    ensures PiecesTo(ps, a + b) == PiecesTo(ps, a) + b
  {
    if ps != [] {
      PiecesThen(ps[1..], a, b);
      PieceThen(ps[0], PiecesTo(ps[1..], a), b);
    }
  }

  lemma QuotedThen(ps: seq<Piece>, a: string, b: string)
    ensures QuotedTo(ps, a + b) == QuotedTo(ps, a) + b
  {
    Apart(['"'], a, b);
    PiecesThen(ps, ['"'] + a, b);
    Apart(['"'], PiecesTo(ps, ['"'] + a), b);
  }

  lemma NumberThen(n: Number, a: string, b: string)
    ensures NumberTo(n, a + b) == NumberTo(n, a) + b
  {
    Apart(n.exp, a, b);
    Apart(n.frac, n.exp + a, b);
    Apart(n.whole, n.frac + (n.exp + a), b);
    Apart(['-'], n.whole + (n.frac + (n.exp + a)), b);
  }

  lemma {:induction false} TreeThen(j: Json, a: string, b: string)
    ensures RenderTo(j, a + b) == RenderTo(j, a) + b
    decreases j, 1
  {
    match j
    case Str(ps) => QuotedThen(ps, a, b);
    case Num(n) => NumberThen(n, a, b);
    case True => Apart("true", a, b);
    case False => Apart("false", a, b);
    case Null => Apart("null", a, b);
    case Obj(pad, ms) =>
      Apart(['}'], a, b);
      MembersThen(ms, true, ['}'] + a, b);
      Apart(pad, MembersTo(ms, true, ['}'] + a), b);
      Apart(['{'], pad + MembersTo(ms, true, ['}'] + a), b);
    case Arr(pad, es) =>
      Apart([']'], a, b);
      ItemsThen(es, true, [']'] + a, b);
      Apart(pad, ItemsTo(es, true, [']'] + a), b);
      Apart(['['], pad + ItemsTo(es, true, [']'] + a), b);
  }

  lemma {:induction false} MembersThen(ms: Members, first: bool, a: string, b: string)
    ensures MembersTo(ms, first, a + b) == MembersTo(ms, first, a) + b
    decreases ms, 1
  {
    match ms
    case NoMembers =>
    case Member(pad, _, _, _, _, _, _) =>
      MemberThen(ms, a, b);
      var m := MemberTo(ms, a);
      Apart(pad, m, b);
      Apart([','], pad + m, b);
  }

  lemma {:induction false} MemberThen(ms: Members, a: string, b: string)
    requires ms.Member?
    ensures MemberTo(ms, a + b) == MemberTo(ms, a) + b
    decreases ms, 0
  {
    var more := MembersTo(ms.more, false, a);
    MembersThen(ms.more, false, a, b);
    Apart(ms.after, more, b);
    TreeThen(ms.value, ms.after + more, b);
    var value := RenderTo(ms.value, ms.after + more);
    Apart(ms.lead, value, b);
    Apart([':'], ms.lead + value, b);
    Apart(ms.colon, [':'] + (ms.lead + value), b);
    QuotedThen(ms.key, ms.colon + ([':'] + (ms.lead + value)), b);
  }

  lemma {:induction false} ItemsThen(es: Items, first: bool, a: string, b: string)
    ensures ItemsTo(es, first, a + b) == ItemsTo(es, first, a) + b
    decreases es, 1
  {
    match es
    case NoItems =>
    case Item(_, _, _, _) =>
      ItemThen(es, a, b);
      Apart([','], ItemTo(es, a), b);
  }

  lemma {:induction false} ItemThen(es: Items, a: string, b: string)
    requires es.Item?
    ensures ItemTo(es, a + b) == ItemTo(es, a) + b
    decreases es, 0
  {
    var more := ItemsTo(es.more, false, a);
    ItemsThen(es.more, false, a, b);
    Apart(es.after, more, b);
    TreeThen(es.value, es.after + more, b);
    Apart(es.lead, RenderTo(es.value, es.after + more), b);
  }

  // ── A text cut short ───────────────────────────────────────────────────────

  // What is read of a text is read of any longer one
  lemma BeginsThen(text: string, more: string, w: string, pad: string, ms: Members, rest: string)
    requires Begins(text, w, pad, ms, rest)
    ensures Begins(text + more, w, pad, ms, rest + more)
  {
    TreeThen(Obj(pad, ms), rest, more);
    Apart(w, RenderTo(Obj(pad, ms), rest), more);
  }

  // An object that ends its text is not there when any of it is missing
  lemma CutIsRefused(text: string, w: string, pad: string, ms: Members, n: nat)
    requires Begins(text, w, pad, ms, "") && n < |text|
    ensures ObjectCalls(text[..n]).None?
  {
    if ObjectCalls(text[..n]).Some? {
      var v, gap, ns, rest := ObjectSound(text[..n]);
      BeginsThen(text[..n], text[n..], v, gap, ns, rest);
      assert text[..n] + text[n..] == text;
      RestRead(text, w, pad, ms, "");
      RestRead(text, v, gap, ns, rest + text[n..]);
    }
  }

  lemma RestRead(text: string, w: string, pad: string, ms: Members, rest: string)
    requires Begins(text, w, pad, ms, rest)
    ensures var p := SkipSpaces(text); Head(p) == '{' && MembersRest(p, 1) == Some(rest)
  {
    SkipsSpaces(w, RenderTo(Obj(pad, ms), rest));
    MembersRead(pad, ms, rest, 1);
  }
}
