/** JSON texts as trees, spaces and escapes included: the grammar that the
    reader (Json.h) and the stream parser (JsonStream.h) are measured against.
    It is RFC 8259 with leading zeros and unescaped control characters let in. */
module JsonTree {
  import opened Text

  // ── Characters ─────────────────────────────────────────────────────────────

  // What a C string gives at its first position
  function Head(s: string): char {
    if s == "" then '\0' else s[0]
  }

  predicate IsSpace(c: char) {
    c == ' ' || c == '\n' || c == '\r' || c == '\t'
  }

  predicate Spaces(s: string) {
    forall i | 0 <= i < |s| :: IsSpace(s[i])
  }

  // The value of a hexadecimal digit, or -1
  function HexOf(c: char): (d: int)
    ensures -1 <= d < 16
  {
    if '0' <= c <= '9' then c as int - '0' as int
    else if 'a' <= c <= 'f' then c as int - 'a' as int + 10
    else if 'A' <= c <= 'F' then c as int - 'A' as int + 10
    else -1
  }

  predicate Hex4(s: string) {
    |s| == 4 && forall i | 0 <= i < 4 :: HexOf(s[i]) >= 0
  }

  // The letter of an escape of two characters
  predicate IsEscape(c: char) {
    c == '"' || c == '\\' || c == '/' || c == 'b' || c == 'f' || c == 'n' || c == 'r' || c == 't'
  }

  // ── Trees ──────────────────────────────────────────────────────────────────

  // A string's contents, piece by piece
  datatype Piece = Plain(c: char) | Escape(c: char) | Unicode(digits: string)

  datatype Json =
    | Str(pieces: seq<Piece>)
    | Num(number: Number)
    | True
    | False
    | Null
    | Obj(pad: string, members: Members)
    | Arr(pad: string, items: Items)

  // frac: "" or a point and digits; exp: "" or e, a sign or none, and digits
  datatype Number = Number(neg: bool, whole: string, frac: string, exp: string)

  // Spaces: before the name, around the colon, after the value
  datatype Members = NoMembers
    | Member(pad: string, key: seq<Piece>, colon: string, lead: string, value: Json, after: string, more: Members)

  datatype Items = NoItems | Item(lead: string, value: Json, after: string, more: Items)

  // ── Well-formed trees ──────────────────────────────────────────────────────

  predicate PieceOk(p: Piece) {
    match p
    case Plain(c) => c != '"' && c != '\\' && c != '\0'
    case Escape(c) => IsEscape(c)
    case Unicode(d) => Hex4(d)
  }

  predicate PiecesOk(ps: seq<Piece>) {
    forall i | 0 <= i < |ps| :: PieceOk(ps[i])
  }

  predicate SomeDigits(s: string) {
    s != "" && AllDigits(s)
  }

  predicate FracOk(s: string) {
    s == "" || (s[0] == '.' && SomeDigits(s[1..]))
  }

  predicate ExpOk(s: string) {
    s == "" || ((s[0] == 'e' || s[0] == 'E') && SomeDigits(s[1 + SignLength(s[1..])..]))
  }

  function SignLength(s: string): (n: nat)
    ensures n <= |s|
  {
    if s != "" && (s[0] == '+' || s[0] == '-') then 1 else 0
  }

  predicate NumberOk(n: Number) {
    SomeDigits(n.whole) && FracOk(n.frac) && ExpOk(n.exp)
  }

  predicate Ok(j: Json) {
    match j
    case Str(ps) => PiecesOk(ps)
    case Num(n) => NumberOk(n)
    case Obj(pad, ms) => Spaces(pad) && MembersOk(ms)
    case Arr(pad, es) => Spaces(pad) && ItemsOk(es)
    case _ => true
  }

  predicate MembersOk(ms: Members) {
    match ms
    case NoMembers => true
    case Member(pad, key, colon, lead, value, after, more) =>
      Spaces(pad) && PiecesOk(key) && Spaces(colon) && Spaces(lead) && Ok(value) && Spaces(after) && MembersOk(more)
  }

  predicate ItemsOk(es: Items) {
    match es
    case NoItems => true
    case Item(lead, value, after, more) => Spaces(lead) && Ok(value) && Spaces(after) && ItemsOk(more)
  }

  function Larger(a: nat, b: nat): nat {
    if a > b then a else b
  }

  // How deep objects and arrays nest
  function Nest(j: Json): nat {
    match j
    case Obj(pad, ms) => 1 + NestMembers(ms)
    case Arr(pad, es) => 1 + NestItems(es)
    case _ => 0
  }

  function NestMembers(ms: Members): nat {
    match ms
    case NoMembers => 0
    case Member(_, _, _, _, value, _, more) => Larger(Nest(value), NestMembers(more))
  }

  function NestItems(es: Items): nat {
    match es
    case NoItems => 0
    case Item(_, value, _, more) => Larger(Nest(value), NestItems(more))
  }

  // ── Their texts ────────────────────────────────────────────────────────────

  // Each is followed by the rest of the text it stands in

  function PieceTo(p: Piece, rest: string): string {
    match p
    case Plain(c) => [c] + rest
    case Escape(c) => ['\\', c] + rest
    case Unicode(d) => ['\\', 'u'] + (d + rest)
  }

  function PiecesTo(ps: seq<Piece>, rest: string): string {
    if ps == [] then rest else PieceTo(ps[0], PiecesTo(ps[1..], rest))
  }

  function QuotedTo(ps: seq<Piece>, rest: string): string {
    ['"'] + PiecesTo(ps, ['"'] + rest)
  }

  function NumberTo(n: Number, rest: string): string {
    var s := n.whole + (n.frac + (n.exp + rest));
    if n.neg then ['-'] + s else s
  }

  function RenderTo(j: Json, rest: string): string
    decreases j, 1
  {
    match j
    case Str(ps) => QuotedTo(ps, rest)
    case Num(n) => NumberTo(n, rest)
    case True => "true" + rest
    case False => "false" + rest
    case Null => "null" + rest
    case Obj(pad, ms) => ['{'] + (pad + MembersTo(ms, true, ['}'] + rest))
    case Arr(pad, es) => ['['] + (pad + ItemsTo(es, true, [']'] + rest))
  }

  function MembersTo(ms: Members, first: bool, rest: string): string
    decreases ms, 1
  {
    match ms
    case NoMembers => rest
    case Member(pad, _, _, _, _, _, _) => if first then pad + MemberTo(ms, rest) else [','] + (pad + MemberTo(ms, rest))
  }

  // From the name of the first member on
  function MemberTo(ms: Members, rest: string): string
    requires ms.Member?
    decreases ms, 0
  {
    QuotedTo(ms.key, ms.colon + ([':'] + (ms.lead + RenderTo(ms.value, ms.after + MembersTo(ms.more, false, rest)))))
  }

  function ItemsTo(es: Items, first: bool, rest: string): string
    decreases es, 1
  {
    match es
    case NoItems => rest
    case Item(_, _, _, _) => if first then ItemTo(es, rest) else [','] + ItemTo(es, rest)
  }

  function ItemTo(es: Items, rest: string): string
    requires es.Item?
    decreases es, 0
  {
    es.lead + RenderTo(es.value, es.after + ItemsTo(es.more, false, rest))
  }
}
