/** The writer of flat objects and the decoding of strings (Json.h): what is
    written reads back. Bytes are characters below 256. */
module JsonWriter {
  import opened Text
  import opened JsonTree
  import opened JsonReader
  import opened JsonGrammar

  // ── Decoding ───────────────────────────────────────────────────────────────

  function Unit(d: string): (u: nat)
    requires Hex4(d)
    ensures u < 0x1_0000
  {
    ((HexOf(d[0]) * 16 + HexOf(d[1])) * 16 + HexOf(d[2])) * 16 + HexOf(d[3])
  }

  predicate High(u: nat) {
    0xD800 <= u < 0xDC00
  }

  predicate Low(u: nat) {
    0xDC00 <= u < 0xE000
  }

  // A code point as UTF-8; a surrogate on its own as any other
  function Utf8(cp: nat): string
    requires cp < 0x11_0000
  {
    if cp < 0x80 then [cp as char]
    else if cp < 0x800 then [(0xC0 + cp / 64) as char, (0x80 + cp % 64) as char]
    else if cp < 0x1_0000 then [(0xE0 + cp / 4096) as char, (0x80 + cp / 64 % 64) as char, (0x80 + cp % 64) as char]
    else [(0xF0 + cp / 262144) as char, (0x80 + cp / 4096 % 64) as char, (0x80 + cp / 64 % 64) as char, (0x80 + cp % 64) as char]
  }

  function Escaped(c: char): char {
    if c == 'b' then 8 as char else if c == 'f' then 12 as char else if c == 'n' then '\n'
    else if c == 'r' then '\r' else if c == 't' then '\t' else c
  }

  // A string's bytes: a high surrogate and a low one after it are one code point
  function Decoded(ps: seq<Piece>): string
    requires PiecesOk(ps)
  {
    if ps == [] then ""
    else if ps[0].Plain? then [ps[0].c] + Decoded(ps[1..])
    else if ps[0].Escape? then [Escaped(ps[0].c)] + Decoded(ps[1..])
    else
      assert PieceOk(ps[0]);
      var u := Unit(ps[0].digits);
      if High(u) && |ps| > 1 && ps[1].Unicode? && (assert PieceOk(ps[1]); Low(Unit(ps[1].digits))) then
        Utf8(0x1_0000 + (u - 0xD800) * 1024 + (Unit(ps[1].digits) - 0xDC00)) + Decoded(ps[2..])
      else Utf8(u) + Decoded(ps[1..])
  }

  // What _decode does: one character of a valid string, and where it goes on
  function DecodeOne(s: string): (r: (string, string))
    requires StringRest(s).Some? && s[0] != '"'
    ensures |r.1| < |s| && StringRest(r.1) == StringRest(s)
  {
    if s[0] != '\\' then ([s[0]], s[1..])
    else if s[1] != 'u' then ([Escaped(s[1])], s[2..])
    else
      var u, t := Unit(s[2..6]), s[6..];
      assert StringRest(t) == StringRest(s);
      if High(u) && Head(t) == '\\' && Head(t[1..]) == 'u' && Low(Unit(t[2..6])) then
        (Utf8(0x1_0000 + (u - 0xD800) * 1024 + (Unit(t[2..6]) - 0xDC00)), t[6..])
      else (Utf8(u), t)
  }

  function Decode(s: string): string
    requires StringRest(s).Some?
  {
    if s[0] == '"' then "" else DecodeOne(s).0 + Decode(DecodeOne(s).1)
  }

  lemma {:induction false} DecodesPieces(ps: seq<Piece>, rest: string)
    requires PiecesOk(ps)
    ensures StringRest(PiecesTo(ps, ['"'] + rest)).Some?
    ensures Decode(PiecesTo(ps, ['"'] + rest)) == Decoded(ps)
    decreases |ps|
  {
    hide Utf8, Escaped, Unit;
    StringReads(ps, rest);
    if ps != [] {
      var s, t := PiecesTo(ps, ['"'] + rest), PiecesTo(ps[1..], ['"'] + rest);
      assert PieceOk(ps[0]);
      DecodesPieces(ps[1..], rest);
      PieceStands(ps[0], t);
      if ps[0].Unicode? && |ps| > 1 {
        assert PieceOk(ps[1]);
        assert ps[1..][1..] == ps[2..];
        PieceStands(ps[1], PiecesTo(ps[2..], ['"'] + rest));
        DecodesPieces(ps[2..], rest);
      }
    }
  }

  lemma PieceStands(p: Piece, t: string)
    requires PieceOk(p)
    ensures var s := PieceTo(p, t);
            match p
            case Plain(c) => s[0] == c && s[1..] == t && Head(s) != '\\' && Head(s) != '"'
            case Escape(c) => |s| >= 2 && s[0] == '\\' && s[1] == c && Head(s[1..]) == c && c != 'u' && s[2..] == t
            case Unicode(d) => |s| >= 6 && s[0] == '\\' && s[1] == 'u' && Head(s[1..]) == 'u' && s[2..6] == d && s[6..] == t
  {
  }

  // n bytes of the text are in, as far as they fit; the rest is as it was
  ghost predicate Filled(now: seq<char>, was: seq<char>, text: string, n: nat, cap: nat)
    requires 0 < cap <= |now| == |was| && n <= |text|
  {
    var k := if n < cap then n else cap - 1;
    now[..k] == text[..k] && now[k..] == was[k..]
  }

  // copy: the bytes that fit, always terminated; the whole length
  method Copy(at: string, dst: array<char>, cap: nat) returns (n: nat)
    requires StringRest(at).Some? && 0 < cap <= dst.Length
    modifies dst
    ensures n == |Decode(at)|
    ensures var k := if n < cap then n else cap - 1;
            dst[..k] == Decode(at)[..k] && dst[k] == '\0' && dst[k + 1..] == old(dst[k + 1..])
  {
    n := 0;
    var p := at;
    ghost var text, was := Decode(at), dst[..];
    while p[0] != '"'
      invariant StringRest(p).Some?
      invariant n <= |text| && text[n..] == Decode(p)
      invariant Filled(dst[..], was, text, n, cap)
      decreases |p|
    {
      var c, q := DecodeOne(p).0, DecodeOne(p).1;
      Next(text, n, p);
      n := Put(c, n, dst, cap, text, was);
      p := q;
    }
    assert n == |text|;
    var k := if n < cap then n else cap - 1;
    ghost var now := dst[..];
    dst[k] := '\0';
    assert dst[..] == now[k := '\0'];
    assert dst[..k] == now[..k] && dst[k + 1..] == now[k..][1..] && was[k..][1..] == was[k + 1..];
  }

  lemma Next(text: string, n: nat, p: string)
    requires StringRest(p).Some? && p[0] != '"' && n <= |text| && text[n..] == Decode(p)
    ensures var (c, q) := DecodeOne(p); n + |c| <= |text| && text[n..n + |c|] == c && text[n + |c|..] == Decode(q)
  {
    var (c, q) := DecodeOne(p);
    assert text[n..] == c + Decode(q);
    assert text[n..][|c|..] == text[n + |c|..];
    assert text[n..][..|c|] == text[n..n + |c|];
  }

  method Put(c: string, from: nat, dst: array<char>, cap: nat, ghost text: string, ghost was: seq<char>) returns (n: nat)
    requires 0 < cap <= dst.Length == |was|
    requires from + |c| <= |text| && text[from..from + |c|] == c && Filled(dst[..], was, text, from, cap)
    modifies dst
    ensures n == from + |c| && Filled(dst[..], was, text, n, cap)
  {
    var i := 0;
    n := from;
    while i < |c|
      invariant 0 <= i <= |c| && n == from + i
      invariant Filled(dst[..], was, text, n, cap)
    {
      assert c[i] == text[n];
      if n + 1 < cap {
        dst[n] := c[i];
      }
      i, n := i + 1, n + 1;
    }
  }

  // ── Writing ────────────────────────────────────────────────────────────────

  datatype Field = Bytes(s: string) | Signed(v: int) | Unsigned(n: Word) | Flag(b: bool)
  datatype Entry = Entry(key: string, field: Field)

  predicate IsLong(v: int) {
    -0x8000_0000 <= v < 0x8000_0000
  }

  // A name is cut to 23 characters
  function KeyText(key: string): (k: string)
    ensures k <= key && |k| <= 23 && (|key| <= 23 ==> k == key)
  {
    if |key| > 23 then key[..23] else key
  }

  function HexDigit(d: nat): char
    requires d < 16
  {
    if d < 10 then ('0' as int + d) as char else ('a' as int + d - 10) as char
  }

  function EscapedText(c: char): string {
    if c == '"' || c == '\\' then ['\\', c]
    else if c < 32 as char then ['\\', 'u', '0', '0', HexDigit(c as int / 16), HexDigit(c as int % 16)]
    else [c]
  }

  function EscapedString(s: string): string {
    if s == "" then "" else EscapedString(s[..|s| - 1]) + EscapedText(s[|s| - 1])
  }

  function SignedText(v: int): string {
    if v < 0 then ['-'] + Decimal(-v) else Decimal(v)
  }

  function FieldText(f: Field): string {
    match f
    case Bytes(s) => ['"'] + EscapedString(s) + ['"']
    case Signed(v) => SignedText(v)
    case Unsigned(n) => Decimal(n)
    case Flag(b) => if b then "true" else "false"
  }

  function EntryText(e: Entry): string {
    ['"'] + KeyText(e.key) + ['"', ':'] + FieldText(e.field)
  }

  // The entries written so far, the brace still open
  function Body(es: seq<Entry>): string {
    if es == [] then "{"
    else Body(es[..|es| - 1]) + (if |es| > 1 then "," else "") + EntryText(es[|es| - 1])
  }

  function Comma(es: seq<Entry>): string {
    if es == [] then "" else ","
  }

  lemma BodyAdds(es: seq<Entry>, e: Entry)
    ensures Body(es + [e]) == Body(es) + Comma(es) + ['"'] + KeyText(e.key) + ['"', ':'] + FieldText(e.field)
  {
    hide FieldText, KeyText;
    assert (es + [e])[..|es|] == es;
    Together(Body(es) + Comma(es), ['"'], KeyText(e.key), ['"', ':'], FieldText(e.field));
  }

  lemma Together(p: string, a: string, b: string, c: string, d: string)
    ensures p + a + b + c + d == p + (a + b + c + d)
  {
  }

  lemma Associate(a: string, b: string, c: string, d: string)
    ensures a + b + c + d == a + (b + c + d)
    ensures a + b + c + d == a + (b + (c + d))
  {
  }

  // A flat object, written to the file or, without one, only measured
  class Writer {
    const file: bool
    var text: string   // the file's bytes
    var n: nat
    var first: bool
    ghost var put: string   // all the bytes so far
    ghost var entries: seq<Entry>

    ghost predicate Counted()
      reads this
    {
      n == |put| && text == if file then put else ""
    }

    ghost predicate Valid()
      reads this
    {
      Counted() && put == Body(entries) && (first <==> entries == [])
    }

    constructor (file: bool)
      ensures Valid() && entries == [] && this.file == file
    {
      this.file, entries, first, text, n, put := file, [], true, if file then "{" else "", 1, "{";
    }

    method Put(s: string)
      requires Counted()
      modifies `text, `n, `put
      ensures Counted() && put == old(put) + s
    {
      n := n + |s|;
      put := put + s;
      if file {
        text := text + s;
      }
    }

    method Key(key: string)
      requires Valid()
      modifies `text, `n, `put, `first
      ensures Counted() && !first && put == old(put) + Comma(entries) + ['"'] + KeyText(key) + ['"', ':']
    {
      if !first {
        Put(",");
      }
      assert put == old(put) + Comma(entries);
      first := false;
      Put(['"']);
      Put(KeyText(key));
      Put(['"', ':']);
    }

    // A field of one piece
    method Write(key: string, field: Field)
      requires Valid()
      modifies this
      ensures Valid() && entries == old(entries) + [Entry(key, field)]
    {
      Key(key);
      Put(FieldText(field));
      BodyAdds(entries, Entry(key, field));
      entries := entries + [Entry(key, field)];
    }

    method Num(key: string, v: int)
      requires Valid() && IsLong(v)
      modifies this
      ensures Valid() && entries == old(entries) + [Entry(key, Signed(v))]
    {
      Write(key, Signed(v));
    }

    method Unum(key: string, v: Word)
      requires Valid()
      modifies this
      ensures Valid() && entries == old(entries) + [Entry(key, Unsigned(v))]
    {
      Write(key, Unsigned(v));
    }

    method Boolean(key: string, v: bool)
      requires Valid()
      modifies this
      ensures Valid() && entries == old(entries) + [Entry(key, Flag(v))]
    {
      Write(key, Flag(v));
    }

    method Str(key: string, s: string)
      requires Valid()
      modifies this
      ensures Valid() && entries == old(entries) + [Entry(key, Bytes(s))]
    {
      Key(key);
      ghost var at := put;
      Quote(s);
      Associate(at, ['"'], EscapedString(s), ['"']);
      BodyAdds(entries, Entry(key, Bytes(s)));
      entries := entries + [Entry(key, Bytes(s))];
    }

    // The string, its quotes and its escapes
    method Quote(s: string)
      requires Counted()
      modifies `text, `n, `put
      ensures Counted() && put == old(put) + ['"'] + EscapedString(s) + ['"']
    {
      Put(['"']);
      ghost var at := put;
      var i := 0;
      while i < |s|
        invariant 0 <= i <= |s|
        invariant Counted() && put == at + EscapedString(s[..i])
      {
        assert s[..i + 1][..i] == s[..i];
        Put(EscapedText(s[i]));
        assert at + EscapedString(s[..i]) + EscapedText(s[i]) == at + EscapedString(s[..i + 1]);
        i := i + 1;
      }
      assert s[..i] == s;
      Put(['"']);
    }

    // Closes the object; the bytes written, or that would be
    method End() returns (count: nat)
      requires Valid()
      modifies `text, `n, `put
      ensures entries == old(entries) && count == |Body(entries) + "}"|
      ensures text == if file then Body(entries) + "}" else ""
    {
      Put("}");
      count := n;
    }
  }

  // ── What is written reads back ─────────────────────────────────────────────

  function PieceOf(c: char): Piece {
    if c == '"' || c == '\\' then Escape(c)
    else if c < 32 as char then Unicode(['0', '0', HexDigit(c as int / 16), HexDigit(c as int % 16)])
    else Plain(c)
  }

  function Pieces(s: string): (ps: seq<Piece>)
    ensures |ps| == |s| && forall i | 0 <= i < |s| :: ps[i] == PieceOf(s[i])
  {
    seq(|s|, i requires 0 <= i < |s| => PieceOf(s[i]))
  }

  lemma PieceOfText(c: char, rest: string)
    ensures PieceTo(PieceOf(c), rest) == EscapedText(c) + rest
  {
    if c < 32 as char {
      var d := ['0', '0', HexDigit(c as int / 16), HexDigit(c as int % 16)];
      assert ['\\', 'u'] + (d + rest) == ['\\', 'u', '0', '0', d[2], d[3]] + rest;
    }
  }

  lemma PieceOfBytes(c: char, ps: seq<Piece>)
    requires c != '\0' && PiecesOk(ps)
    ensures PieceOk(PieceOf(c)) && PiecesOk([PieceOf(c)] + ps) && Decoded([PieceOf(c)] + ps) == [c] + Decoded(ps)
  {
    var qs := [PieceOf(c)] + ps;
    assert qs[1..] == ps;
    if c < 32 as char {
      HexBack(c as int);
      assert Utf8(c as int) == [c];
    }
  }

  lemma HexBack(n: nat)
    requires n < 32
    ensures var d := ['0', '0', HexDigit(n / 16), HexDigit(n % 16)]; Hex4(d) && Unit(d) == n
  {
    assert HexOf(HexDigit(n / 16)) == n / 16 && HexOf(HexDigit(n % 16)) == n % 16;
  }

  lemma {:induction false} PiecesToAdds(ps: seq<Piece>, p: Piece, rest: string)
    ensures PiecesTo(ps + [p], rest) == PiecesTo(ps, PieceTo(p, rest))
  {
    if ps == [] {
      assert ps + [p] == [p] && [p][1..] == [];
    } else {
      assert (ps + [p])[1..] == ps[1..] + [p];
      PiecesToAdds(ps[1..], p, rest);
    }
  }

  lemma {:induction false} EscapedIsPieces(s: string, rest: string)
    ensures EscapedString(s) + rest == PiecesTo(Pieces(s), rest)
  {
    hide EscapedText, PieceOf;
    if s == "" {
      assert EscapedString(s) + rest == rest;
    } else {
      var n := |s| - 1;
      EscapedIsPieces(s[..n], EscapedText(s[n]) + rest);
      PieceOfText(s[n], rest);
      PiecesToAdds(Pieces(s[..n]), PieceOf(s[n]), rest);
      assert Pieces(s) == Pieces(s[..n]) + [PieceOf(s[n])];
      EscapedLast(s, rest);
    }
  }

  lemma EscapedLast(s: string, rest: string)
    requires s != ""
    ensures var n := |s| - 1; EscapedString(s) + rest == EscapedString(s[..n]) + (EscapedText(s[n]) + rest)
  {
    Apart(EscapedString(s[..|s| - 1]), EscapedText(s[|s| - 1]), rest);
  }

  lemma Apart(a: string, b: string, rest: string)
    ensures a + b + rest == a + (b + rest)
  {
  }

  // No piece written is half of a surrogate pair
  lemma {:induction false} DecodedPieces(s: string)
    requires '\0' !in s
    ensures PiecesOk(Pieces(s)) && Decoded(Pieces(s)) == s
  {
    if s != "" {
      DecodedPieces(s[1..]);
      PieceOfBytes(s[0], Pieces(s[1..]));
      assert Pieces(s) == [PieceOf(s[0])] + Pieces(s[1..]);
      assert s == [s[0]] + s[1..];
    }
  }

  predicate PlainKey(key: string) {
    forall i | 0 <= i < |key| :: PieceOk(Plain(key[i]))
  }

  function KeyPieces(key: string): (ps: seq<Piece>)
    ensures |ps| == |key| && forall i | 0 <= i < |key| :: ps[i] == Plain(key[i])
  {
    seq(|key|, i requires 0 <= i < |key| => Plain(key[i]))
  }

  lemma {:induction false} KeyPiecesTo(key: string, rest: string)
    ensures PiecesTo(KeyPieces(key), rest) == key + rest
  {
    if key == "" {
      assert key + rest == rest;
    } else {
      KeyPiecesTo(key[1..], rest);
      assert KeyPieces(key)[1..] == KeyPieces(key[1..]);
      assert key + rest == [key[0]] + (key[1..] + rest);
    }
  }

  function FieldTree(f: Field): Json {
    match f
    case Bytes(s) => Str(Pieces(s))
    case Signed(v) => Num(Number(v < 0, Decimal(if v < 0 then -v else v), "", ""))
    case Unsigned(n) => Num(Number(false, Decimal(n), "", ""))
    case Flag(b) => if b then True else False
  }

  function TreeOf(es: seq<Entry>): Members {
    if es == [] then NoMembers
    else Member("", KeyPieces(KeyText(es[0].key)), "", "", FieldTree(es[0].field), "", TreeOf(es[1..]))
  }

  // What a caller gives: names in flash, C strings, 32-bit numbers
  predicate Writable(e: Entry) {
    && PlainKey(e.key)
    && (e.field.Bytes? ==> '\0' !in e.field.s)
    && (e.field.Signed? ==> IsLong(e.field.v))
  }

  lemma FieldIsTree(f: Field, rest: string)
    ensures RenderTo(FieldTree(f), rest) == FieldText(f) + rest
  {
    hide EscapedString, PiecesTo, Decimal;
    match f
    case Bytes(s) =>
      EscapedIsPieces(s, ['"'] + rest);
      assert FieldText(f) + rest == ['"'] + (EscapedString(s) + (['"'] + rest));
    case Signed(v) =>
      var w := Decimal(if v < 0 then -v else v);
      assert w + ("" + ("" + rest)) == w + rest;
      assert ['-'] + (w + rest) == ['-'] + w + rest;
    case Unsigned(n) =>
      assert Decimal(n) + ("" + ("" + rest)) == Decimal(n) + rest;
    case Flag(b) =>
  }

  lemma MemberIsEntry(es: seq<Entry>, rest: string)
    requires es != []
    ensures MemberTo(TreeOf(es), rest) == EntryText(es[0]) + MembersTo(TreeOf(es[1..]), false, rest)
  {
    var e := es[0];
    var next := MembersTo(TreeOf(es[1..]), false, rest);
    FieldIsTree(e.field, next);
    EmptySpaces(RenderTo(FieldTree(e.field), "" + next), next);
    KeyPiecesTo(KeyText(e.key), ['"'] + ([':'] + (FieldText(e.field) + next)));
    EntryApart(KeyText(e.key), FieldText(e.field), next);
  }

  lemma EmptySpaces(v: string, next: string)
    ensures "" + next == next
    ensures "" + ([':'] + ("" + v)) == [':'] + v
  {
  }

  lemma EntryApart(k: string, f: string, next: string)
    ensures ['"'] + k + ['"', ':'] + f + next == ['"'] + (k + (['"'] + ([':'] + (f + next))))
  {
    assert ['"'] + ([':'] + (f + next)) == ['"', ':'] + (f + next);
    Associate(['"'] + k, ['"', ':'], f, next);
    assert ['"'] + k + (['"', ':'] + (f + next)) == ['"'] + (k + (['"', ':'] + (f + next)));
  }

  lemma {:induction false} TreeAdds(es: seq<Entry>, e: Entry, first: bool, rest: string)
    ensures MembersTo(TreeOf(es + [e]), first, rest) ==
            MembersTo(TreeOf(es), first, (if first && es == [] then "" else ",") + EntryText(e) + rest)
  {
    var fs := es + [e];
    MemberIsEntry(fs, rest);
    if es == [] {
      assert fs[1..] == [];
      assert "" + EntryText(e) + rest == "" + (EntryText(e) + rest);
      assert "," + EntryText(e) + rest == [','] + ("" + (EntryText(e) + rest));
    } else {
      assert fs[1..] == es[1..] + [e] && fs[0] == es[0];
      TreeAdds(es[1..], e, false, rest);
      MemberIsEntry(es, "," + EntryText(e) + rest);
    }
  }

  lemma {:induction false} BodyIsTree(es: seq<Entry>, rest: string)
    ensures Body(es) + rest == ['{'] + MembersTo(TreeOf(es), true, rest)
  {
    hide EntryText;
    if es != [] {
      var n := |es| - 1;
      var e := es[n];
      TreeAdds(es[..n], e, true, rest);
      assert es[..n] + [e] == es;
      var t := (if es[..n] == [] then "" else ",") + EntryText(e) + rest;
      BodyIsTree(es[..n], t);
      BodyLast(es, rest);
    }
  }

  lemma BodyLast(es: seq<Entry>, rest: string)
    requires es != []
    ensures var n := |es| - 1;
            Body(es) + rest == Body(es[..n]) + ((if es[..n] == [] then "" else ",") + EntryText(es[n]) + rest)
  {
    var n := |es| - 1;
    Associate(Body(es[..n]), if n > 0 then "," else "", EntryText(es[n]), rest);
    Apart(if n > 0 then "," else "", EntryText(es[n]), rest);
  }

  function Amount(v: Value): int {
    var m: int := v.mag;
    if v.neg then -m else m
  }

  // The member read is the entry written
  ghost predicate ReadsBack(c: Call, e: Entry) {
    && c.key == KeyText(e.key)
    && match e.field
       case Bytes(s) => c.value.kind == STRING && StringRest(c.value.at).Some? && Decode(c.value.at) == s
       case Signed(v) => c.value.kind == INTEGER && Amount(c.value) == v
       case Unsigned(n) => c.value.kind == INTEGER && !c.value.neg && c.value.mag == n
       case Flag(b) => c.value.kind == BOOL && c.value.mag == if b then 1 else 0
  }

  lemma FieldReads(e: Entry, key: string, rest: string)
    requires Writable(e) && key == KeyText(e.key)
    ensures Ok(FieldTree(e.field)) && ReadsBack(Call(key, Shown(FieldTree(e.field), rest)), e)
  {
    match e.field
    case Bytes(s) =>
      DecodedPieces(s);
      DecodesPieces(Pieces(s), rest);
    case Signed(v) => NumberShown(v < 0, if v < 0 then -v else v, rest);
    case Unsigned(n) => NumberShown(false, n, rest);
    case Flag(b) =>
  }

  lemma NumberShown(neg: bool, n: nat, rest: string)
    requires n < WORD
    ensures var j := Num(Number(neg, Decimal(n), "", ""));
            Ok(j) && Shown(j, rest) == Value(INTEGER, neg, n, RenderTo(j, rest))
  {
    NumberInDecimal(n);
  }

  lemma {:induction false} EntriesRead(es: seq<Entry>, end: string)
    requires forall e | e in es :: Writable(e)
    ensures MembersOk(TreeOf(es)) && NestMembers(TreeOf(es)) == 0
    ensures |Reported(TreeOf(es), end)| == |es|
    ensures forall i | 0 <= i < |es| :: ReadsBack(Reported(TreeOf(es), end)[i], es[i])
  {
    if es != [] {
      var e, key := es[0], KeyText(es[0].key);
      assert Writable(e);
      EntriesRead(es[1..], end);
      KeyPiecesTo(key, "");
      assert key + "" == key;
      var next := "" + MembersTo(TreeOf(es[1..]), false, end);
      FieldReads(e, key, next);
      assert forall i | 0 <= i < |key| :: PieceOk(KeyPieces(key)[i]);
    }
  }

  // Whatever is written, object reports its entries, in order, and they read
  // back as they were
  lemma RoundTrip(es: seq<Entry>, rest: string)
    requires forall e | e in es :: Writable(e)
    ensures var calls := ObjectCalls(Body(es) + "}" + rest);
            && calls.Some? && |calls.value| == |es|
            && forall i | 0 <= i < |es| :: ReadsBack(calls.value[i], es[i])
  {
    WrittenBegins(es, rest);
    ObjectReads(Body(es) + "}" + rest, "", "", TreeOf(es), rest);
    EntriesRead(es, ['}'] + rest);
  }

  lemma WrittenBegins(es: seq<Entry>, rest: string)
    requires forall e | e in es :: Writable(e)
    ensures Begins(Body(es) + "}" + rest, "", "", TreeOf(es), rest)
  {
    EntriesRead(es, ['}'] + rest);
    BodyIsTree(es, ['}'] + rest);
    Apart(Body(es), "}", rest);
    NoSpaces(MembersTo(TreeOf(es), true, ['}'] + rest));
    assert Nest(Obj("", TreeOf(es))) == 1;
  }

  lemma NoSpaces(t: string)
    ensures "" + (['{'] + ("" + t)) == ['{'] + t
  {
  }

  // ── Numbers in a range ─────────────────────────────────────────────────────

  // Value::fits: the bits, two's complement, if the integer is let in
  function Fits(v: Value, lo: int, hi: Word): Option<Word>
    requires IsLong(lo)
  {
    if v.kind != INTEGER || (if v.neg then v.mag > (0 - lo) % WORD else v.mag > hi) then None
    else Some(if v.neg then (0 - v.mag) % WORD else v.mag)
  }

  // An integer is let in exactly when it is in the range, and its bits are its
  // value modulo 2^32, for the ranges the firmware asks for: from 0 or below
  lemma FitsExactly(v: Value, lo: int, hi: Word)
    requires IsLong(lo) && lo <= 0
    ensures Fits(v, lo, hi) ==
            if v.kind == INTEGER && lo <= Amount(v) <= hi then Some(Amount(v) % WORD) else None
  {
  }

  // A range that starts above 0 also lets in what is below it: exactly those
  // ranges do
  lemma FitsRange(lo: int, hi: Word)
    requires IsLong(lo)
    ensures (forall v: Value | v.kind == INTEGER :: Fits(v, lo, hi).Some? ==> lo <= Amount(v) <= hi) <==> lo <= 0
  {
    if lo <= 0 {
      forall v: Value | v.kind == INTEGER && Fits(v, lo, hi).Some? ensures lo <= Amount(v) <= hi {
        FitsExactly(v, lo, hi);
      }
    } else {
      var v := Value(INTEGER, false, 0, "");
      assert Fits(v, lo, hi).Some? && Amount(v) == 0;
    }
  }
}
