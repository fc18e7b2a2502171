/** What is saved loads back, field by field; what is loaded is in range. */
module ConfigSafety {
  import opened Text
  import JsonTree
  import opened JsonReader
  import W = JsonWriter
  import Totp
  import opened ConfigTable

  // ── One field ──────────────────────────────────────────────────────────────

  // The value written for a cell sets it again, whatever was there and whatever
  // the name it was written by
  lemma SetReads(r: Row, c: Cell, was: Cell, call: Call, key: string)
    requires CellOk(r, c) && W.ReadsBack(call, W.Entry(key, EntryOf(r, c).field))
    ensures Set(r, was, call.value) == c
  {
    hide StringRest, W.Decode, CString, Totp.FromHex, Totp.ToHex, FromBits, W.Fits;
    var v := call.value;
    match r.kind
    case TEXT => CStringWhole(c.s);
    case CHARS => CStringWhole(c.s);
    case HEX20 =>
      KeyReads(c.k, v);
    case FLAG =>
    case _ =>
      NumberReads(r.kind, c.n, v);
  }

  lemma KeyReads(k: Totp.Key, v: Value)
    requires v.kind == STRING && StringRest(v.at).Some? && W.Decode(v.at) == KeyText(k)
    ensures |Bytes(v)| < HEX_LEN && Totp.FromHex(CString(Bytes(v))).1 == k
  {
    Totp.HexBack(k);
    CStringWhole(KeyText(k));
    if Totp.Blank(k) {
      assert k == Totp.Zeros();
    } else {
      Totp.KeyBack(k);
    }
  }

  lemma NumberReads(t: Type, n: int, v: Value)
    requires Lowest(t) <= n <= Highest(t) && v.kind == INTEGER && W.Amount(v) == n
    requires t in {I8, U8, I16, U16, U32}
    ensures W.Fits(v, Lowest(t), Highest(t)) == Some(n % WORD) && FromBits(t, n % WORD) == n
  {
    W.FitsExactly(v, Lowest(t), Highest(t));
    BitsBack(t, n);
  }

  lemma BitsBack(t: Type, n: int)
    requires Lowest(t) <= n <= Highest(t) && t in {I8, U8, I16, U16, U32}
    ensures FromBits(t, n % WORD) == n
  {
    if n < 0 {
      assert n % WORD == n + WORD;
    } else {
      assert n % WORD == n;
    }
  }

  // Whatever the value, a cell stays one its row can hold
  lemma SetFits(r: Row, c: Cell, v: Value)
    requires CellFits(r, c)
    ensures CellFits(r, Set(r, c, v))
  {
    hide Totp.FromHex, StringRest, W.Decode;
    if r.kind in {I8, U8, I16, U16, U32} {
      W.FitsExactly(v, Lowest(r.kind), Highest(r.kind));
      if W.Fits(v, Lowest(r.kind), Highest(r.kind)).Some? {
        BitsBack(r.kind, W.Amount(v));
      }
    }
  }

  // A value of the wrong type or out of range is ignored, but by a key that is
  // not blank: that is cleared
  lemma WrongIsIgnored(r: Row, c: Cell, v: Value)
    requires CellOk(r, c)
    requires match r.kind
             case TEXT => v.kind != STRING
             case CHARS => v.kind != STRING
             case HEX20 => v.kind != STRING
             case FLAG => v.kind != BOOL
             case _ => v.kind != INTEGER || !(Lowest(r.kind) <= W.Amount(v) <= Highest(r.kind))
    ensures Set(r, c, v) == c <==> r.kind != HEX20 || Totp.Blank(c.k)
  {
    if r.kind == HEX20 {
      assert Totp.Blank(Totp.Zeros());
      if Totp.Blank(c.k) {
        assert c.k == Totp.Zeros();
      }
    } else if r.kind in {I8, U8, I16, U16, U32} {
      W.FitsExactly(v, Lowest(r.kind), Highest(r.kind));
    }
  }

  // ── Its row ────────────────────────────────────────────────────────────────

  lemma HashesAt(l: Layout, i: nat)
    requires i < |l.rows|
    ensures |AllHashes(l)| == 1 + 2 * |l.rows| + |l.v1| && AllHashes(l)[0] == l.records
    ensures AllHashes(l)[2 * i + 1] == l.rows[i].former && AllHashes(l)[2 * i + 2] == l.hash(l.rows[i].key)
  {
    assert AllHashes(l)[2 * i + 1] == RowHashes(l.hash, l.rows)[2 * i];
    assert AllHashes(l)[2 * i + 2] == RowHashes(l.hash, l.rows)[2 * i + 1];
  }

  // A key of three letters finds its own row, and is not taken for the list's
  lemma OwnRow(l: Layout, i: nat)
    requires LayoutOk(l) && i < |l.rows|
    ensures Find(l.rows, l.rows[i].key, l.hash(l.rows[i].key), 0) == Some(i)
    ensures l.hash(l.rows[i].key) != l.records
  {
    var h := AllHashes(l);
    HashesAt(l, i);
    assert h[0] != h[2 * i + 2];
    forall j | 0 <= j < i ensures l.rows[j].key != l.rows[i].key && l.hash(l.rows[i].key) != l.rows[j].former {
      HashesAt(l, j);
      assert h[2 * j + 1] != h[2 * i + 2] && h[2 * j + 2] != h[2 * i + 2];
    }
    assert RowOk(l.rows[i]);
    FindAt(l.rows, l.rows[i].key, l.hash(l.rows[i].key), 0, i);
  }

  lemma {:induction false} FindAt(rows: seq<Row>, key: string, h: nat, from: nat, i: nat)
    requires from <= i < |rows| && |key| == 3 && key == rows[i].key
    requires forall j | from <= j < i :: rows[j].key != key && h != rows[j].former
    ensures Find(rows, key, h, from) == Some(i)
    decreases i - from
  {
    if from < i {
      FindAt(rows, key, h, from + 1, i);
    }
  }

  lemma RowRead(l: Layout, g: Load, call: Call, cells: seq<Cell>, i: nat)
    requires LayoutOk(l) && CellsOk(l.rows, cells) && i < |l.rows| && |g.cells| == |l.rows| && |g.v1| == |l.v1|
    requires W.ReadsBack(call, EntryOf(l.rows[i], cells[i]))
    ensures var r := Member(l, g, call); r.cells == g.cells[i := cells[i]] && r.version == g.version && r.v1 == g.v1
  {
    assert RowOk(l.rows[i]) && CellOk(l.rows[i], cells[i]);
    OwnRow(l, i);
    SetReads(l.rows[i], cells[i], g.cells[i], call, l.rows[i].key);
  }

  // ── The whole file ─────────────────────────────────────────────────────────

  // The first rows set, the others still at their defaults
  ghost predicate Partly(l: Layout, g: Load, cells: seq<Cell>, k: nat)
    requires k <= |l.rows| == |cells|
  {
    g.cells == cells[..k] + Presets(l.rows)[k..] && g.v1 == Presets(l.v1) && g.version == VERSION
  }

  lemma {:induction false} RowsRead(l: Layout, cells: seq<Cell>, calls: seq<Call>, k: nat)
    requires LayoutOk(l) && CellsOk(l.rows, cells) && k <= |l.rows| && |calls| == |l.rows| + 1
    requires forall i | 0 <= i < |calls| :: W.ReadsBack(calls[i], Entries(l.rows, cells)[i])
    ensures Partly(l, Members(l, Begun(l), calls[..k + 1]), cells, k)
    decreases k
  {
    hide W.ReadsBack, Member, Members, Partly, LayoutOk, CellsOk, EntryOf;
    Sized(l, cells);
    var es := Entries(l.rows, cells);
    if k == 0 {
      assert W.ReadsBack(calls[0], es[0]);
      assert calls[..1] == [] + [calls[0]];
      MembersAdd(l, Begun(l), [], calls[0]);
      NoRowsYet(l, cells, calls[0]);
    } else {
      RowsRead(l, cells, calls, k - 1);
      var g := Members(l, Begun(l), calls[..k]);
      assert calls[..k + 1] == calls[..k] + [calls[k]];
      MembersAdd(l, Begun(l), calls[..k], calls[k]);
      assert es[k] == EntryOf(l.rows[k - 1], cells[k - 1]);
      assert W.ReadsBack(calls[k], es[k]);
      OneMoreRow(l, g, calls[k], cells, k);
    }
  }

  lemma MembersAdd(l: Layout, g: Load, calls: seq<Call>, call: Call)
    requires |g.cells| == |l.rows| && |g.v1| == |l.v1| && l.record < |l.rows|
    ensures Members(l, g, []) == g && Members(l, g, calls + [call]) == Member(l, Members(l, g, calls), call)
  {
    assert (calls + [call])[..|calls|] == calls;
  }

  lemma NoRowsYet(l: Layout, cells: seq<Cell>, call: Call)
    requires |cells| == |l.rows| && l.record < |l.rows| && W.ReadsBack(call, W.Entry("v", W.Signed(VERSION)))
    ensures Partly(l, Member(l, Begun(l), call), cells, 0)
  {
    hide W.ReadsBack, Member;
    VersionRead(l, Begun(l), call);
    assert cells[..0] + Presets(l.rows)[0..] == Presets(l.rows);
  }

  lemma OneMoreRow(l: Layout, g: Load, call: Call, cells: seq<Cell>, k: nat)
    requires LayoutOk(l) && CellsOk(l.rows, cells) && 0 < k <= |l.rows| && Partly(l, g, cells, k - 1)
    requires W.ReadsBack(call, EntryOf(l.rows[k - 1], cells[k - 1]))
    ensures Partly(l, Member(l, g, call), cells, k)
  {
    hide W.ReadsBack, Member, LayoutOk, EntryOf;
    Sized(l, cells);
    RowRead(l, g, call, cells, k - 1);
    OneMoreCell(cells, Presets(l.rows), k);
  }

  lemma Sized(l: Layout, cells: seq<Cell>)
    requires LayoutOk(l) && CellsOk(l.rows, cells)
    ensures |cells| == |l.rows| && l.record < |l.rows|
  {
  }

  lemma OneMoreCell(cells: seq<Cell>, presets: seq<Cell>, k: nat)
    requires 0 < k <= |cells| == |presets|
    ensures (cells[..k - 1] + presets[k - 1..])[k - 1 := cells[k - 1]] == cells[..k] + presets[k..]
  {
  }

  lemma VersionRead(l: Layout, g: Load, call: Call)
    requires |g.cells| == |l.rows| && |g.v1| == |l.v1| && l.record < |l.rows|
    requires W.ReadsBack(call, W.Entry("v", W.Signed(VERSION)))
    ensures Member(l, g, call) == g.(version := VERSION)
  {
    W.FitsExactly(call.value, -0x7FFF_FFFF, 0x7FFF_FFFF);
    assert W.KeyText("v") == "v";
  }

  lemma EntriesWritable(l: Layout, cells: seq<Cell>)
    requires LayoutOk(l) && CellsOk(l.rows, cells)
    ensures forall e | e in Entries(l.rows, cells) :: W.Writable(e)
  {
    var es := Entries(l.rows, cells);
    forall i | 0 <= i < |es| ensures W.Writable(es[i]) {
      if i > 0 {
        var r, c := l.rows[i - 1], cells[i - 1];
        assert RowOk(r) && CellOk(r, c) && es[i] == EntryOf(r, c);
        if r.kind == HEX20 {
          Totp.HexBack(c.k);
        }
      }
    }
  }

  // A saved configuration loads back cell by cell, at the current version
  lemma SavedLoads(l: Layout, cells: seq<Cell>)
    requires LayoutOk(l) && CellsOk(l.rows, cells)
    ensures var g := LoadText(l, SavedText(l, cells)); g.Some? && g.value.cells == cells && g.value.version == VERSION
  {
    hide W.ReadsBack, Member, Distinct, RowOk, CellOk, EntryOf, W.Body, ObjectCalls, W.Writable;
    var es, text := Entries(l.rows, cells), SavedText(l, cells);
    EntriesWritable(l, cells);
    W.RoundTrip(es, "");
    assert W.Body(es) + "}" + "" == text;
    var calls := ObjectCalls(text).value;
    RowsRead(l, cells, calls, |l.rows|);
    assert calls[..|l.rows| + 1] == calls;
    assert cells[..|l.rows|] + Presets(l.rows)[|l.rows|..] == cells;
  }

  // ── What a load leaves ─────────────────────────────────────────────────────

  lemma MemberFits(l: Layout, g: Load, c: Call)
    requires LayoutOk(l) && CellsFit(l.rows, g.cells) && |g.v1| == |l.v1|
    ensures CellsFit(l.rows, Member(l, g, c).cells)
  {
    var r := Member(l, g, c);
    forall i | 0 <= i < |l.rows| ensures CellFits(l.rows[i], r.cells[i]) {
      SetFits(l.rows[i], g.cells[i], c.value);
    }
  }

  lemma {:induction false} MembersFit(l: Layout, g: Load, calls: seq<Call>)
    requires LayoutOk(l) && CellsFit(l.rows, g.cells) && |g.v1| == |l.v1|
    ensures CellsFit(l.rows, Members(l, g, calls).cells)
    decreases |calls|
  {
    if calls != [] {
      var before := calls[..|calls| - 1];
      MembersFit(l, g, before);
      MemberFits(l, Members(l, g, before), calls[|calls| - 1]);
    }
  }

  // The cells of a file, before the hash
  lemma TextFits(l: Layout, text: string)
    requires LayoutOk(l) && LoadText(l, text).Some?
    ensures CellsFit(l.rows, LoadText(l, text).value.cells)
  {
    hide Member, ObjectCalls;
    forall i | 0 <= i < |l.rows| ensures CellFits(l.rows[i], l.rows[i].preset) {
      assert RowOk(l.rows[i]);
    }
    MembersFit(l, Begun(l), ObjectCalls(text).value);
  }

  // Whatever the file, the configuration it gives is one the fields can hold
  lemma LoadedFits(l: Layout, text: string, hash: string -> string)
    requires LayoutOk(l)
    ensures Loaded(l, text, hash).Some? ==> CellsFit(l.rows, Loaded(l, text, hash).value)
  {
    if LoadText(l, text).Some? {
      TextFits(l, text);
      hide LoadText, Distinct;
      assert l.rows[l.password].kind == TEXT;
      assert CellsFit(l.rows, Hashed(l, LoadText(l, text).value.cells, hash));
    }
  }

  // A saved configuration, its password empty or hashed, is the one its file gives
  lemma SavedIsLoaded(l: Layout, cells: seq<Cell>, hash: string -> string)
    requires LayoutOk(l) && CellsOk(l.rows, cells) && !NeedsHash(l, cells)
    ensures Loaded(l, SavedText(l, cells), hash) == Some(cells)
  {
    hide LoadText, SavedText;
    SavedLoads(l, cells);
  }

  // ── Another boot ───────────────────────────────────────────────────────────

  // The file's own password is one to replace by its hash
  predicate FileNeedsHash(l: Layout, text: string)
    requires l.record < |l.rows| && l.password < |l.rows|
  {
    var g := LoadText(l, text);
    g.Some? && NeedsHash(l, g.value.cells)
  }

  function OwnPassword(l: Layout, text: string): string
    requires l.record < |l.rows| && l.password < |l.rows| && FileNeedsHash(l, text)
  {
    LoadText(l, text).value.cells[l.password].s
  }

  ghost predicate SameButPassword(l: Layout, a: seq<Cell>, b: seq<Cell>) {
    |a| == |b| && forall i | 0 <= i < |a| && i != l.password :: a[i] == b[i]
  }

  // The same file with another salt: the same configuration, but for a password
  // that the file has as it was typed
  lemma LoadedAgain(l: Layout, text: string, hash: string -> string, next: string -> string)
    requires LayoutOk(l) && LoadText(l, text).Some?
    ensures var cells, again := Loaded(l, text, hash).value, Loaded(l, text, next).value;
            && SameButPassword(l, again, cells)
            && (again == cells <==> !FileNeedsHash(l, text) || next(OwnPassword(l, text)) == hash(OwnPassword(l, text)))
  {
    TextFits(l, text);
    hide LoadText, CellsFit, Distinct, RowOk;
    if FileNeedsHash(l, text) {
      var g, p := LoadText(l, text).value, OwnPassword(l, text);
      Replaced(l, g, hash(p));
      Replaced(l, g, next(p));
    }
  }

  // What a password does to the configuration it is loaded into
  lemma Replaced(l: Layout, g: Load, t: string)
    requires LayoutOk(l) && CellsFit(l.rows, g.cells)
    ensures var c := g.cells[l.password := Text(t)];
            var m := if g.version == 1 then l.migrate(c, g.v1) else c;
            var n := if g.version == 1 then l.migrate(g.cells, g.v1) else g.cells;
            l.password < |n| && m == n[l.password := Text(t)]
  {
    hide Distinct, RowOk;
    assert LeavesPassword(l, g.cells, g.v1, t);
  }

  // After a load, the password is empty or a hash
  lemma LoadedHashed(l: Layout, text: string, hash: string -> string)
    requires LayoutOk(l) && LoadText(l, text).Some? && forall p :: IsHashed(hash(p))
    ensures var cells := Loaded(l, text, hash).value; l.password < |cells| && !NeedsHash(l, cells)
  {
    TextFits(l, text);
    hide LoadText, Distinct, RowOk, IsHashed;
    var g := LoadText(l, text).value;
    var own := g.cells[l.password];
    assert own.Text? by {
      assert CellFits(l.rows[l.password], own);
    }
    var t := if NeedsHash(l, g.cells) then hash(own.s) else own.s;
    Replaced(l, g, t);
    assert g.cells[l.password := Text(own.s)] == g.cells;
  }
}
