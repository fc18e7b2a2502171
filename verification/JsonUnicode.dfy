/** What a decoded string says (Json.h): its bytes, read as UTF-8 (section 3
    of RFC 3629), are the code points its escapes spell (section 7 of RFC 8259). */
module JsonUnicode {
  import opened Text
  import opened JsonTree
  import opened JsonWriter

  // ── Reading UTF-8 ──────────────────────────────────────────────────────────

  predicate Follows(c: char) {
    0x80 <= c as int < 0xC0
  }

  predicate IsScalar(cp: nat) {
    cp < 0xD800 || 0xE000 <= cp < 0x11_0000
  }

  predicate AllFollow(s: string) {
    forall i | 0 <= i < |s| :: Follows(s[i])
  }

  // The six bits of each byte that follows
  function Sixes(s: string): nat
    requires AllFollow(s)
  {
    if s == "" then 0 else Sixes(s[..|s| - 1]) * 64 + (s[|s| - 1] as int - 0x80)
  }

  // The bytes the first one announces, and its own bits; none for a byte that
  // begins nothing
  function Announced(c: char): Option<(nat, nat)> {
    var b := c as int;
    if b < 0x80 then Some((1, b))
    else if 0xC0 <= b < 0xE0 then Some((2, b - 0xC0))
    else if 0xE0 <= b < 0xF0 then Some((3, b - 0xE0))
    else if 0xF0 <= b < 0xF8 then Some((4, b - 0xF0))
    else None
  }

  // The least code point that takes so many bytes
  function Least(n: nat): nat {
    match n
    case 2 => 0x80
    case 3 => 0x800
    case 4 => 0x1_0000
    case _ => 0
  }

  // 64^n
  function Shift(n: nat): nat {
    if n == 0 then 1 else 64 * Shift(n - 1)
  }

  // The first code point and what follows: in its shortest form, and no surrogate
  function FirstPoint(s: string): (r: Option<(nat, string)>)
    ensures r.Some? ==> |r.value.1| < |s|
  {
    if s == "" || Announced(s[0]).None? then None
    else
      var (n, high) := Announced(s[0]).value;
      if |s| < n || !AllFollow(s[1..n]) then None
      else
        var cp := high * Shift(n - 1) + Sixes(s[1..n]);
        if Least(n) <= cp && IsScalar(cp) then Some((cp, s[n..])) else None
  }

  function Points(s: string): Option<seq<nat>> {
    if s == "" then Some([])
    else
      match FirstPoint(s)
      case None => None
      case Some((cp, rest)) =>
        match Points(rest)
        case None => None
        case Some(cps) => Some([cp] + cps)
  }

  lemma Six(a: char)
    requires Follows(a)
    ensures Sixes([a]) == a as int - 0x80
  {
    assert [a][..0] == "";
  }

  lemma TwoSixes(a: char, b: char)
    requires Follows(a) && Follows(b)
    ensures Sixes([a, b]) == (a as int - 0x80) * 64 + (b as int - 0x80)
  {
    assert [a, b][..1] == [a];
    Six(a);
  }

  lemma ThreeSixes(a: char, b: char, c: char)
    requires Follows(a) && Follows(b) && Follows(c)
    ensures Sixes([a, b, c]) == ((a as int - 0x80) * 64 + (b as int - 0x80)) * 64 + (c as int - 0x80)
  {
    assert [a, b, c][..2] == [a, b];
    TwoSixes(a, b);
  }

  lemma PointOf(b: string, high: nat, cp: nat, rest: string)
    requires b != "" && Announced(b[0]) == Some((|b|, high)) && AllFollow(b[1..])
    requires cp == high * Shift(|b| - 1) + Sixes(b[1..]) && Least(|b|) <= cp && IsScalar(cp)
    ensures FirstPoint(b + rest) == Some((cp, rest))
  {
    var s := b + rest;
    assert s[0] == b[0] && s[1..|b|] == b[1..] && s[|b|..] == rest;
  }

  // Reading undoes the encoding
  lemma PointRead(cp: nat, rest: string)
    requires IsScalar(cp)
    ensures FirstPoint(Utf8(cp) + rest) == Some((cp, rest))
  {
    hide FirstPoint, Sixes, Shift;
    var u := Utf8(cp);
    if cp < 0x80 {
      OneByte(u[0], cp, rest);
    } else if cp < 0x800 {
      TwoBytes(u[0], u[1], cp, rest);
    } else if cp < 0x1_0000 {
      ThreeBytes(u[0], u[1], u[2], cp, rest);
    } else {
      FourBytes(u[0], u[1], u[2], u[3], cp, rest);
    }
  }

  lemma OneByte(a: char, cp: nat, rest: string)
    requires cp < 0x80 && a as int == cp
    ensures FirstPoint([a] + rest) == Some((cp, rest))
  {
    hide FirstPoint;
    assert [a][1..] == "";
    PointOf([a], cp, cp, rest);
  }

  lemma TwoBytes(a: char, b: char, cp: nat, rest: string)
    requires 0x80 <= cp < 0x800 && a as int == 0xC0 + cp / 64 && b as int == 0x80 + cp % 64
    ensures FirstPoint([a, b] + rest) == Some((cp, rest))
  {
    hide FirstPoint, Sixes;
    assert [a, b][1..] == [b];
    Six(b);
    PointOf([a, b], cp / 64, cp, rest);
  }

  lemma ThreeBytes(a: char, b: char, c: char, cp: nat, rest: string)
    requires 0x800 <= cp < 0x1_0000 && IsScalar(cp)
    requires a as int == 0xE0 + cp / 4096 && b as int == 0x80 + cp / 64 % 64 && c as int == 0x80 + cp % 64
    ensures FirstPoint([a, b, c] + rest) == Some((cp, rest))
  {
    hide FirstPoint, Sixes, Shift;
    assert [a, b, c][1..] == [b, c];
    TwoSixes(b, c);
    Shifts();
    PointOf([a, b, c], cp / 4096, cp, rest);
  }

  lemma FourBytes(a: char, b: char, c: char, d: char, cp: nat, rest: string)
    requires 0x1_0000 <= cp < 0x11_0000 && a as int == 0xF0 + cp / 262144 && b as int == 0x80 + cp / 4096 % 64
    requires c as int == 0x80 + cp / 64 % 64 && d as int == 0x80 + cp % 64
    ensures FirstPoint([a, b, c, d] + rest) == Some((cp, rest))
  {
    hide FirstPoint, Sixes, Shift;
    assert [a, b, c, d][1..] == [b, c, d];
    ThreeSixes(b, c, d);
    Shifts();
    FourSixes(cp);
    PointOf([a, b, c, d], cp / 262144, cp, rest);
  }

  lemma FourSixes(cp: nat)
    ensures cp == cp / 262144 * 262144 + ((cp / 4096 % 64 * 64 + cp / 64 % 64) * 64 + cp % 64)
  {
    assert cp / 64 / 64 == cp / 4096 && cp / 4096 / 64 == cp / 262144;
  }

  lemma Shifts()
    ensures Shift(2) == 4096 && Shift(3) == 262144
  {
    assert Shift(1) == 64;
  }

  // A code point ends where its bytes do
  lemma PointAlone(b: string, cp: nat, rest: string)
    requires FirstPoint(b) == Some((cp, ""))
    ensures FirstPoint(b + rest) == Some((cp, rest))
  {
    var s := b + rest;
    var n := Announced(b[0]).value.0;
    assert |b| == n && s[0] == b[0];
    assert s[1..n] == b[1..n] && s[n..] == rest;
  }

  // ── How a code point is spelled in a string ────────────────────────────────

  predicate IsHex(c: char, v: nat) {
    v < 16 && (c == "0123456789abcdef"[v] || c == "0123456789ABCDEF"[v])
  }

  // Four hexadecimal digits, in either case
  predicate AreHex(d: string, u: nat) {
    |d| == 4 && IsHex(d[0], u / 4096) && IsHex(d[1], u / 256 % 16) && IsHex(d[2], u / 16 % 16) && IsHex(d[3], u % 16)
  }

  lemma HexRead(c: char, v: nat)
    requires IsHex(c, v)
    ensures HexOf(c) == v
  {
  }

  lemma FourDigits(u: nat)
    ensures u == ((u / 4096 * 16 + u / 256 % 16) * 16 + u / 16 % 16) * 16 + u % 16
  {
    assert u / 256 / 16 == u / 4096 && u / 16 / 16 == u / 256;
  }

  lemma UnitRead(d: string, u: nat)
    requires AreHex(d, u)
    ensures Hex4(d) && Unit(d) == u
  {
    hide IsHex, HexOf;
    FourDigits(u);
    HexRead(d[0], u / 4096);
    HexRead(d[1], u / 256 % 16);
    HexRead(d[2], u / 16 % 16);
    HexRead(d[3], u % 16);
  }

  // The letter of each escape, and the code point it stands for
  predicate Letter(c: char, cp: nat) {
    || (c == '"' && cp == 0x22) || (c == '\\' && cp == 0x5C) || (c == '/' && cp == 0x2F)
    || (c == 'b' && cp == 0x08) || (c == 'f' && cp == 0x0C) || (c == 'n' && cp == 0x0A)
    || (c == 'r' && cp == 0x0D) || (c == 't' && cp == 0x09)
  }

  function PlainText(ps: seq<Piece>): string
    requires forall p | p in ps :: p.Plain?
  {
    seq(|ps|, i requires 0 <= i < |ps| => assert ps[i] in ps; ps[i].c)
  }

  // Its own bytes, an escape, or the one or two units of UTF-16
  ghost predicate Spells(ps: seq<Piece>, cp: nat) {
    || ((forall p | p in ps :: p.Plain?) && FirstPoint(PlainText(ps)) == Some((cp, "")))
    || (|ps| == 1 && ps[0].Escape? && Letter(ps[0].c, cp))
    || (|ps| == 1 && ps[0].Unicode? && IsScalar(cp) && AreHex(ps[0].digits, cp))
    || (|ps| == 2 && ps[0].Unicode? && ps[1].Unicode? && 0x1_0000 <= cp < 0x11_0000
        && AreHex(ps[0].digits, 0xD800 + (cp - 0x1_0000) / 1024)
        && AreHex(ps[1].digits, 0xDC00 + (cp - 0x1_0000) % 1024))
  }

  function Joined(words: seq<seq<Piece>>): seq<Piece> {
    if words == [] then [] else words[0] + Joined(words[1..])
  }

  lemma {:induction false} PlainDecoded(ps: seq<Piece>, rest: seq<Piece>)
    requires PiecesOk(ps + rest) && forall p | p in ps :: p.Plain?
    ensures PiecesOk(rest) && Decoded(ps + rest) == PlainText(ps) + Decoded(rest)
  {
    hide Utf8, Unit, Escaped, PieceOk;
    RestOk(ps, rest);
    if ps == [] {
      assert ps + rest == rest && PlainText(ps) + Decoded(rest) == Decoded(rest);
    } else {
      assert ps[0] in ps;
      PlainFirst(ps[0], ps[1..] + rest);
      assert ps + rest == [ps[0]] + (ps[1..] + rest);
      PlainDecoded(ps[1..], rest);
      assert PlainText(ps) == [ps[0].c] + PlainText(ps[1..]);
    }
  }

  lemma PlainFirst(p: Piece, ps: seq<Piece>)
    requires PiecesOk([p] + ps) && p.Plain?
    ensures PiecesOk(ps) && Decoded([p] + ps) == [p.c] + Decoded(ps)
  {
    hide Utf8, Unit, Escaped, PieceOk;
    RestOk([p], ps);
    assert ([p] + ps)[1..] == ps;
  }

  lemma RestOk(ps: seq<Piece>, rest: seq<Piece>)
    requires PiecesOk(ps + rest)
    ensures PiecesOk(ps) && PiecesOk(rest)
  {
    forall i | 0 <= i < |ps| ensures PieceOk(ps[i]) {
      assert (ps + rest)[i] == ps[i];
    }
    forall i | 0 <= i < |rest| ensures PieceOk(rest[i]) {
      assert (ps + rest)[|ps| + i] == rest[i];
    }
  }

  // However a code point is spelled, it is the first one read of the bytes
  lemma SpelledRead(ps: seq<Piece>, cp: nat, rest: seq<Piece>)
    requires PiecesOk(ps + rest) && Spells(ps, cp)
    ensures PiecesOk(rest) && FirstPoint(Decoded(ps + rest)) == Some((cp, Decoded(rest)))
  {
    hide FirstPoint, Decoded, Utf8, Unit, AreHex, Letter;
    if forall p | p in ps :: p.Plain? {
      PlainSpelled(ps, cp, rest);
    } else if ps[0].Escape? {
      assert [ps[0]] == ps;
      LetterSpelled(ps[0], cp, rest);
    } else if |ps| == 1 {
      assert [ps[0]] == ps;
      UnitSpelled(ps[0], cp, rest);
    } else {
      assert [ps[0], ps[1]] == ps;
      PairSpelled(ps[0], ps[1], cp, rest);
    }
  }

  lemma LetterSpelled(p: Piece, cp: nat, rest: seq<Piece>)
    requires PiecesOk([p] + rest) && p.Escape? && Letter(p.c, cp)
    ensures PiecesOk(rest) && FirstPoint(Decoded([p] + rest)) == Some((cp, Decoded(rest)))
  {
    hide FirstPoint, Utf8, Unit, Letter, Escaped, PieceOk;
    RestOk([p], rest);
    assert ([p] + rest)[1..] == rest;
    LetterRead(p.c, cp, Decoded(rest));
  }

  lemma UnitSpelled(p: Piece, cp: nat, rest: seq<Piece>)
    requires PiecesOk([p] + rest) && p.Unicode? && IsScalar(cp) && AreHex(p.digits, cp)
    ensures PiecesOk(rest) && FirstPoint(Decoded([p] + rest)) == Some((cp, Decoded(rest)))
  {
    hide FirstPoint, Utf8, Unit, AreHex, Hex4;
    RestOk([p], rest);
    UnitRead(p.digits, cp);
    assert ([p] + rest)[1..] == rest;
    PointRead(cp, Decoded(rest));
  }

  lemma PairSpelled(p: Piece, q: Piece, cp: nat, rest: seq<Piece>)
    requires PiecesOk([p, q] + rest) && p.Unicode? && q.Unicode? && 0x1_0000 <= cp < 0x11_0000
    requires AreHex(p.digits, 0xD800 + (cp - 0x1_0000) / 1024) && AreHex(q.digits, 0xDC00 + (cp - 0x1_0000) % 1024)
    ensures PiecesOk(rest) && FirstPoint(Decoded([p, q] + rest)) == Some((cp, Decoded(rest)))
  {
    hide FirstPoint, Utf8, Unit, AreHex, Hex4;
    RestOk([p, q], rest);
    UnitRead(p.digits, 0xD800 + (cp - 0x1_0000) / 1024);
    UnitRead(q.digits, 0xDC00 + (cp - 0x1_0000) % 1024);
    assert ([p, q] + rest)[1] == q && ([p, q] + rest)[2..] == rest;
    PointRead(cp, Decoded(rest));
  }

  lemma PlainSpelled(ps: seq<Piece>, cp: nat, rest: seq<Piece>)
    requires PiecesOk(ps + rest) && Spells(ps, cp) && forall p | p in ps :: p.Plain?
    ensures PiecesOk(rest) && FirstPoint(Decoded(ps + rest)) == Some((cp, Decoded(rest)))
  {
    hide FirstPoint, Decoded;
    PlainDecoded(ps, rest);
    assert FirstPoint(PlainText(ps)) == Some((cp, "")) by {
      assert ps != [] ==> ps[0] in ps;
    }
    PointAlone(PlainText(ps), cp, Decoded(rest));
  }

  lemma LetterRead(c: char, cp: nat, rest: string)
    requires Letter(c, cp)
    ensures FirstPoint([Escaped(c)] + rest) == Some((cp, rest))
  {
    assert Escaped(c) == cp as char;
    assert Utf8(cp) == [cp as char];
    PointRead(cp, rest);
  }

  // A string's bytes, read as UTF-8, are the code points it spells
  lemma {:induction false} TextRead(words: seq<seq<Piece>>, cps: seq<nat>)
    requires |words| == |cps| && (forall i | 0 <= i < |cps| :: Spells(words[i], cps[i])) && PiecesOk(Joined(words))
    ensures Points(Decoded(Joined(words))) == Some(cps)
  {
    hide Spells, FirstPoint, Decoded, PiecesOk, Joined;
    JoinedFirst(words);
    if cps == [] {
      NothingDecoded();
    } else {
      SpelledRead(words[0], cps[0], Joined(words[1..]));
      TextRead(words[1..], cps[1..]);
      assert cps == [cps[0]] + cps[1..];
      NotEmpty(Decoded(Joined(words)));
    }
  }

  lemma NothingDecoded()
    ensures PiecesOk([]) && Decoded([]) == ""
  {
  }

  lemma JoinedFirst(words: seq<seq<Piece>>)
    ensures Joined(words) == if words == [] then [] else words[0] + Joined(words[1..])
  {
  }

  lemma NotEmpty(s: string)
    requires FirstPoint(s).Some?
    ensures s != ""
  {
  }

  // The escapes a string may have, and no other, are those of section 7 of RFC 8259
  lemma EscapesExactly(c: char)
    ensures IsEscape(c) <==> exists cp :: Letter(c, cp)
  {
    if IsEscape(c) {
      assert Letter(c, if c == 'b' then 0x08 else if c == 'f' then 0x0C else if c == 'n' then 0x0A
                       else if c == 'r' then 0x0D else if c == 't' then 0x09 else c as int);
    }
  }

  // So whatever spells code points, and has no quote, backslash or zero as it
  // is, is a string
  lemma SpellingOk(ps: seq<Piece>, cp: nat)
    requires Spells(ps, cp) && forall p | p in ps && p.Plain? :: PieceOk(p)
    ensures PiecesOk(ps)
  {
    hide FirstPoint, AreHex, Letter, IsEscape, Hex4;
    forall i | 0 <= i < |ps| ensures PieceOk(ps[i]) {
      assert ps[i] in ps;
      if ps[i].Escape? {
        EscapesExactly(ps[i].c);
      } else if ps[i].Unicode? {
        HexOk(ps[i].digits);
      }
    }
  }

  lemma HexOk(d: string)
    ensures forall u | AreHex(d, u) :: Hex4(d)
  {
    hide IsHex, HexOf;
    forall u | AreHex(d, u) ensures Hex4(d) {
      UnitRead(d, u);
    }
  }

  // Half of a pair on its own goes out in three bytes all the same
  lemma LoneSurrogate(d: string, u: nat, rest: seq<Piece>)
    requires PiecesOk([Unicode(d)] + rest) && 0xD800 <= u < 0xE000 && AreHex(d, u)
    requires rest != [] && rest[0].Unicode? && u < 0xDC00 ==> forall v | 0xDC00 <= v < 0xE000 :: !AreHex(rest[0].digits, v)
    ensures PiecesOk(rest)
    ensures var b := Decoded([Unicode(d)] + rest);
            |b| >= 3 && Announced(b[0]) == Some((3, u / 4096)) && AllFollow(b[1..3]) && u / 4096 * 4096 + Sixes(b[1..3]) == u
            && b[3..] == Decoded(rest)
  {
    hide Unit, AreHex, Hex4, Sixes;
    var all := [Unicode(d)] + rest;
    RestOk([Unicode(d)], rest);
    UnitRead(d, u);
    assert all[1..] == rest;
    if rest != [] && rest[0].Unicode? {
      assert all[1] == rest[0];
      UnitWritten(rest[0].digits);
    }
    var b := Utf8(u) + Decoded(rest);
    assert b[1..3] == [b[1], b[2]] && b[3..] == Decoded(rest);
    TwoSixes(b[1], b[2]);
  }

  // Any four digits spell their unit
  lemma UnitWritten(d: string)
    requires Hex4(d)
    ensures AreHex(d, Unit(d))
  {
    hide HexOf, IsHex;
    var h3 := HexWritten(d[0]);
    var h2 := HexWritten(d[1]);
    var h1 := HexWritten(d[2]);
    var h0 := HexWritten(d[3]);
    DigitsApart(h3, h2, h1, h0);
  }

  lemma HexWritten(c: char) returns (v: nat)
    requires HexOf(c) >= 0
    ensures v == HexOf(c) && v < 16 && IsHex(c, v)
  {
    v := HexOf(c);
  }

  lemma DigitsApart(a: nat, b: nat, c: nat, d: nat)
    requires a < 16 && b < 16 && c < 16 && d < 16
    ensures var u := ((a * 16 + b) * 16 + c) * 16 + d;
            u / 4096 == a && u / 256 % 16 == b && u / 16 % 16 == c && u % 16 == d
  {
    var u := ((a * 16 + b) * 16 + c) * 16 + d;
    assert u / 16 == (a * 16 + b) * 16 + c && u / 256 == a * 16 + b;
  }
}
