/** The configuration file (ConfigStore.h): a table of rows says how each field
    is written and read. */
module ConfigTable {
  import opened Text
  import JsonTree
  import opened JsonReader
  import W = JsonWriter
  import Totp

  const VERSION := 3
  const MAX_FILE := 4096
  const HEX_LEN := 42

  // ── Rows and cells ─────────────────────────────────────────────────────────

  datatype Type = TEXT | CHARS | HEX20 | FLAG | I8 | U8 | I16 | U16 | U32

  // key: the three letters; former: the hash of the name before version 3; size:
  // of the characters; preset: the default
  datatype Row = Row(key: string, former: nat, kind: Type, size: nat, preset: Cell)

  datatype Cell = Text(s: string) | Key(k: Totp.Key) | Flag(b: bool) | Num(n: int)

  // The fields of version 1 go to a table of their own; migrate makes a
  // configuration of both, and state the actuator's state file, if any. record:
  // the row of the DNS record, a list (records) until version 1; password: the
  // row of the panel's password
  datatype Layout = Layout(
    rows: seq<Row>, v1: seq<Row>, hash: string -> nat, records: nat, record: nat, password: nat,
    migrate: (seq<Cell>, seq<Cell>) -> seq<Cell>, state: seq<Cell> -> Option<string>)

  function Lowest(t: Type): int {
    if t == I8 then -128 else if t == I16 then -32768 else 0
  }

  function Highest(t: Type): Word {
    if t == I8 then 127 else if t == U8 then 255 else if t == I16 then 32767
    else if t == U16 then 65535 else 0xFFFF_FFFF
  }

  // What a row's place in the configuration can hold
  predicate CellFits(r: Row, c: Cell) {
    match r.kind
    case TEXT => c.Text?
    case CHARS => c.Text? && '\0' !in c.s && |c.s| < r.size
    case HEX20 => c.Key?
    case FLAG => c.Flag?
    case _ => c.Num? && Lowest(r.kind) <= c.n <= Highest(r.kind)
  }

  // And what can be written whole: a text up to its first zero
  predicate CellOk(r: Row, c: Cell) {
    CellFits(r, c) && (r.kind == TEXT ==> '\0' !in c.s)
  }

  predicate CellsFit(rows: seq<Row>, cells: seq<Cell>) {
    |cells| == |rows| && forall i | 0 <= i < |rows| :: CellFits(rows[i], cells[i])
  }

  predicate RowOk(r: Row) {
    |r.key| == 3 && W.PlainKey(r.key) && CellOk(r, r.preset)
  }

  predicate CellsOk(rows: seq<Row>, cells: seq<Cell>) {
    |cells| == |rows| && forall i | 0 <= i < |rows| :: CellOk(rows[i], cells[i])
  }

  // ── Keys ───────────────────────────────────────────────────────────────────

  function RowHashes(hash: string -> nat, rows: seq<Row>): (h: seq<nat>)
    ensures |h| == 2 * |rows|
    ensures forall i | 0 <= i < |rows| :: h[2 * i] == rows[i].former && h[2 * i + 1] == hash(rows[i].key)
  {
    if rows == [] then []
    else RowHashes(hash, rows[..|rows| - 1]) + [rows[|rows| - 1].former, hash(rows[|rows| - 1].key)]
  }

  function OldHashes(rows: seq<Row>): (h: seq<nat>)
    ensures |h| == |rows| && forall i | 0 <= i < |rows| :: h[i] == rows[i].former
  {
    seq(|rows|, i requires 0 <= i < |rows| => rows[i].former)
  }

  // Every key in both forms, and the list's
  function AllHashes(l: Layout): seq<nat> {
    [l.records] + RowHashes(l.hash, l.rows) + OldHashes(l.v1)
  }

  ghost predicate Distinct(h: seq<nat>) {
    forall i, j | 0 <= i < j < |h| :: h[i] != h[j]
  }

  method AreDistinct(h: seq<nat>) returns (r: bool)
    ensures r <==> Distinct(h)
  {
    var i := 0;
    while i < |h|
      invariant 0 <= i <= |h|
      invariant forall a, b | 0 <= a < i && a < b < |h| :: h[a] != h[b]
    {
      var j := i + 1;
      while j < |h|
        invariant i < j <= |h|
        invariant forall b | i < b < j :: h[i] != h[b]
      {
        if h[i] == h[j] {
          return false;
        }
        j := j + 1;
      }
      i := i + 1;
    }
    return true;
  }

  ghost predicate LayoutOk(l: Layout) {
    && Distinct(AllHashes(l))
    && (forall i | 0 <= i < |l.rows| :: RowOk(l.rows[i]))
    && (forall i | 0 <= i < |l.v1| :: l.v1[i].key == "")
    && (forall c, v | CellsFit(l.rows, c) :: CellsFit(l.rows, l.migrate(c, v)))
    && l.record < |l.rows| && l.rows[l.record].kind == CHARS
    && l.password < |l.rows| && l.rows[l.password].kind == TEXT
    && (forall c, v, t | CellsFit(l.rows, c) :: LeavesPassword(l, c, v, t))
  }

  // The migration neither reads nor changes the password
  ghost predicate LeavesPassword(l: Layout, c: seq<Cell>, v: seq<Cell>, t: string) {
    && l.password < |c| && l.password < |l.migrate(c, v)|
    && l.migrate(c[l.password := Text(t)], v) == l.migrate(c, v)[l.password := Text(t)]
  }

  // By its three letters or by the hash of its old name: the first row
  function Find(rows: seq<Row>, key: string, h: nat, i: nat): Option<nat>
    requires i <= |rows|
    decreases |rows| - i
  {
    if i == |rows| then None
    else if (|key| == 3 && key == rows[i].key) || h == rows[i].former then Some(i)
    else Find(rows, key, h, i + 1)
  }

  // ── Writing ────────────────────────────────────────────────────────────────

  function KeyText(k: Totp.Key): string {
    if Totp.Blank(k) then "" else Totp.ToHex(k)
  }

  // A field as it is written; a C string ends at its first zero
  function EntryOf(r: Row, c: Cell): W.Entry {
    W.Entry(r.key,
            match c
            case Text(s) => W.Bytes(CString(s))
            case Key(k) => W.Bytes(KeyText(k))
            case Flag(b) => W.Flag(b)
            case Num(n) => if r.kind == U32 then W.Unsigned(n % WORD) else W.Signed(n))
  }

  function RowEntries(rows: seq<Row>, cells: seq<Cell>): (es: seq<W.Entry>)
    requires |cells| == |rows|
    ensures |es| == |rows| && forall i | 0 <= i < |rows| :: es[i] == EntryOf(rows[i], cells[i])
  {
    seq(|rows|, i requires 0 <= i < |rows| => EntryOf(rows[i], cells[i]))
  }

  function Entries(rows: seq<Row>, cells: seq<Cell>): seq<W.Entry>
    requires |cells| == |rows|
  {
    [W.Entry("v", W.Signed(VERSION))] + RowEntries(rows, cells)
  }

  function SavedText(l: Layout, cells: seq<Cell>): string
    requires |cells| == |l.rows|
  {
    W.Body(Entries(l.rows, cells)) + "}"
  }

  // ── Reading ────────────────────────────────────────────────────────────────

  // The text of a string value
  function Bytes(v: Value): string {
    if StringRest(v.at).Some? then W.Decode(v.at) else ""
  }

  // copy into an array: cut, and up to the first zero
  function Copied(s: string, size: nat): string
    requires size > 0
  {
    CString(if |s| < size then s else s[..size - 1])
  }

  // The number that the low bits are in a type of that size
  function FromBits(t: Type, n: Word): int {
    if t == I8 then (if n % 256 < 128 then n % 256 else n % 256 - 256)
    else if t == U8 then n % 256
    else if t == I16 then (if n % 65536 < 32768 then n % 65536 else n % 65536 - 65536)
    else if t == U16 then n % 65536
    else n
  }

  // A value of the row's type and in its range; anything else is ignored, but
  // by a key, which it clears
  function Set(r: Row, c: Cell, v: Value): Cell {
    match r.kind
    case TEXT => if v.kind == STRING then Text(Bytes(v)) else c
    case CHARS => if v.kind == STRING && r.size > 0 then Text(Copied(Bytes(v), r.size)) else c
    case HEX20 => Key(Totp.FromHex(if v.kind == STRING && |Bytes(v)| < HEX_LEN then CString(Bytes(v)) else "").1)
    case FLAG => if v.kind == BOOL then Flag(v.mag == 1) else c
    case _ =>
      match W.Fits(v, Lowest(r.kind), Highest(r.kind))
      case None => c
      case Some(n) => Num(FromBits(r.kind, n))
  }

  // A load under way
  datatype Load = Load(cells: seq<Cell>, v1: seq<Cell>, version: int, record: bool)

  // The first element of a list, if it is a string
  function FirstString(v: Value): Option<string> {
    if v.kind != ARRAY || v.at == "" then None
    else
      var p := SkipSpaces(v.at[1..]);
      if JsonTree.Head(p) == '"' && StringRest(p[1..]).Some? then Some(W.Decode(p[1..])) else None
  }

  function Member(l: Layout, g: Load, c: Call): (r: Load)
    requires |g.cells| == |l.rows| && |g.v1| == |l.v1| && l.record < |l.rows|
    ensures |r.cells| == |l.rows| && |r.v1| == |l.v1|
  {
    var h := l.hash(c.key);
    if c.key == "v" then
      match W.Fits(c.value, -0x7FFF_FFFF, 0x7FFF_FFFF)
      case None => g
      case Some(n) => g.(version := if n < 0x8000_0000 then n else n - WORD)
    else if h == l.records then
      var first, row := FirstString(c.value), l.rows[l.record];
      if !g.record && first.Some? && row.size > 0 then g.(cells := g.cells[l.record := Text(Copied(first.value, row.size))]) else g
    else
      match Find(l.rows, c.key, h, 0)
      case Some(i) => Placed(l, g, c, i)
      case None =>
        match Find(l.v1, c.key, h, 0)
        case Some(i) => PlacedOld(l, g, c, i)
        case None => g
  }

  function Placed(l: Layout, g: Load, c: Call, i: nat): (r: Load)
    requires |g.cells| == |l.rows|
    ensures |r.cells| == |l.rows| && r.v1 == g.v1 && r.version == g.version
  {
    if i < |l.rows| then
      g.(cells := g.cells[i := Set(l.rows[i], g.cells[i], c.value)], record := g.record || (i == l.record && c.value.kind == STRING))
    else g
  }

  function PlacedOld(l: Layout, g: Load, c: Call, i: nat): (r: Load)
    requires |g.v1| == |l.v1|
    ensures |r.v1| == |l.v1| && r.cells == g.cells
  {
    if i < |l.v1| then g.(v1 := g.v1[i := Set(l.v1[i], g.v1[i], c.value)]) else g
  }

  function Members(l: Layout, g: Load, calls: seq<Call>): (r: Load)
    requires |g.cells| == |l.rows| && |g.v1| == |l.v1| && l.record < |l.rows|
    ensures |r.cells| == |l.rows| && |r.v1| == |l.v1|
    decreases |calls|
  {
    if calls == [] then g
    else Member(l, Members(l, g, calls[..|calls| - 1]), calls[|calls| - 1])
  }

  function Presets(rows: seq<Row>): (c: seq<Cell>)
    ensures |c| == |rows| && forall i | 0 <= i < |rows| :: c[i] == rows[i].preset
  {
    seq(|rows|, i requires 0 <= i < |rows| => rows[i].preset)
  }

  function Begun(l: Layout): Load {
    Load(Presets(l.rows), Presets(l.v1), 1, false)
  }

  // What a file's text holds; none if it is broken
  function LoadText(l: Layout, text: string): (r: Option<Load>)
    requires l.record < |l.rows|
    ensures r.Some? ==> |r.value.cells| == |l.rows| && |r.value.v1| == |l.v1|
  {
    match ObjectCalls(text)
    case None => None
    case Some(calls) => Some(Members(l, Begun(l), calls))
  }

  // ── A load ─────────────────────────────────────────────────────────────────

  // "pbkdf2:", 32 digits of salt, a colon and 40 of the key
  predicate IsHashed(password: string) {
    |password| == 80 && password[..7] == "pbkdf2:"
  }

  // A password from before the hash is replaced by its hash
  predicate NeedsHash(l: Layout, cells: seq<Cell>)
    requires l.password < |cells|
  {
    cells[l.password].Text? && cells[l.password].s != "" && !IsHashed(cells[l.password].s)
  }

  function Hashed(l: Layout, cells: seq<Cell>, hash: string -> string): (r: seq<Cell>)
    requires l.password < |cells|
    ensures |r| == |cells|
  {
    if NeedsHash(l, cells) then cells[l.password := Text(hash(cells[l.password].s))] else cells
  }

  // The configuration a file gives
  function Loaded(l: Layout, text: string, hash: string -> string): Option<seq<Cell>>
    requires l.record < |l.rows| && l.password < |l.rows|
  {
    match LoadText(l, text)
    case None => None
    case Some(g) =>
      var cells := Hashed(l, g.cells, hash);
      Some(if g.version == 1 then l.migrate(cells, g.v1) else cells)
  }
}
