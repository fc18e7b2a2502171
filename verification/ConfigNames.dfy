/** Files of every version: each name, in either of its forms, sets its own
    field, stated without the search through the table (ConfigStore.h). */
module ConfigNames {
  import opened Bytes
  import opened Text
  import JsonTree
  import opened JsonReader
  import JsonGrammar
  import W = JsonWriter
  import Totp
  import opened ConfigTable
  import opened ConfigSafety

  // ── Whose name it is ───────────────────────────────────────────────────────

  // The three letters of a row, or by its hash the name before version 3
  predicate Names(l: Layout, key: string, i: nat)
    requires i < |l.rows|
  {
    key != "v" && (key == l.rows[i].key || l.hash(key) == l.rows[i].former)
  }

  // A name of version 1 only
  predicate NamesOld(l: Layout, key: string, i: nat)
    requires i < |l.v1|
  {
    key != "v" && l.hash(key) == l.v1[i].former
  }

  // The list of DNS records
  predicate NamesList(l: Layout, key: string) {
    key != "v" && l.hash(key) == l.records
  }

  lemma OldHashAt(l: Layout, i: nat)
    requires i < |l.v1|
    ensures 1 + 2 * |l.rows| + i < |AllHashes(l)| && AllHashes(l)[1 + 2 * |l.rows| + i] == l.v1[i].former
  {
    assert OldHashes(l.v1)[i] == l.v1[i].former;
  }

  // Where a row's name is among the hashes
  function Place(l: Layout, key: string, i: nat): nat
    requires i < |l.rows|
  {
    if key == l.rows[i].key then 2 * i + 2 else 2 * i + 1
  }

  lemma PlaceHolds(l: Layout, key: string, i: nat)
    requires i < |l.rows| && Names(l, key, i)
    ensures Place(l, key, i) < |AllHashes(l)| - |l.v1| && AllHashes(l)[Place(l, key, i)] == l.hash(key)
  {
    HashesAt(l, i);
  }

  // A name is one row's, one of version 1 or the list's, and no two
  lemma OneName(l: Layout, key: string, i: nat)
    requires LayoutOk(l) && i < |l.rows| && Names(l, key, i)
    ensures key != "v" && !NamesList(l, key) && (forall j | 0 <= j < |l.v1| :: !NamesOld(l, key, j))
    ensures forall j | 0 <= j < |l.rows| && j != i :: !Names(l, key, j)
  {
    var h := AllHashes(l);
    PlaceHolds(l, key, i);
    assert h[0] != h[Place(l, key, i)];
    forall j | 0 <= j < |l.v1| ensures !NamesOld(l, key, j) {
      OldHashAt(l, j);
    }
    forall j | 0 <= j < |l.rows| && j != i ensures !Names(l, key, j) {
      if Names(l, key, j) {
        PlaceHolds(l, key, j);
      }
    }
  }

  lemma OneOldName(l: Layout, key: string, i: nat)
    requires LayoutOk(l) && i < |l.v1| && NamesOld(l, key, i)
    ensures key != "v" && !NamesList(l, key) && (forall j | 0 <= j < |l.rows| :: !Names(l, key, j))
    ensures forall j | 0 <= j < |l.v1| && j != i :: !NamesOld(l, key, j)
  {
    var h, at := AllHashes(l), 1 + 2 * |l.rows| + i;
    OldHashAt(l, i);
    assert h[0] != h[at];
    forall j | 0 <= j < |l.rows| ensures !Names(l, key, j) {
      if Names(l, key, j) {
        OneName(l, key, j);
      }
    }
    forall j | 0 <= j < |l.v1| && j != i ensures !NamesOld(l, key, j) {
      OldHashAt(l, j);
    }
  }

  // ── The search finds it ────────────────────────────────────────────────────

  lemma {:induction false} Found(rows: seq<Row>, key: string, h: nat, from: nat, i: nat)
    requires from <= i < |rows| && ((|key| == 3 && key == rows[i].key) || h == rows[i].former)
    requires forall j | from <= j < i :: !(|key| == 3 && key == rows[j].key) && h != rows[j].former
    ensures Find(rows, key, h, from) == Some(i)
    decreases i - from
  {
    if from < i {
      Found(rows, key, h, from + 1, i);
    }
  }

  lemma {:induction false} NotFound(rows: seq<Row>, key: string, h: nat, from: nat)
    requires from <= |rows| && forall j | from <= j < |rows| :: !(|key| == 3 && key == rows[j].key) && h != rows[j].former
    ensures Find(rows, key, h, from) == None
    decreases |rows| - from
  {
    if from < |rows| {
      NotFound(rows, key, h, from + 1);
    }
  }

  lemma FindsRow(l: Layout, key: string, i: nat)
    requires LayoutOk(l) && i < |l.rows| && Names(l, key, i)
    ensures Find(l.rows, key, l.hash(key), 0) == Some(i)
  {
    OneName(l, key, i);
    assert RowOk(l.rows[i]);
    forall j | 0 <= j < i ensures !(|key| == 3 && key == l.rows[j].key) && l.hash(key) != l.rows[j].former {
      assert !Names(l, key, j);
    }
    Found(l.rows, key, l.hash(key), 0, i);
  }

  lemma FindsNoRow(l: Layout, key: string)
    requires key != "v" && forall j | 0 <= j < |l.rows| :: !Names(l, key, j)
    ensures Find(l.rows, key, l.hash(key), 0) == None
  {
    forall j | 0 <= j < |l.rows| ensures !(|key| == 3 && key == l.rows[j].key) && l.hash(key) != l.rows[j].former {
      assert !Names(l, key, j);
    }
    NotFound(l.rows, key, l.hash(key), 0);
  }

  lemma FindsOld(l: Layout, key: string, i: nat)
    requires LayoutOk(l) && i < |l.v1| && NamesOld(l, key, i)
    ensures Find(l.v1, key, l.hash(key), 0) == Some(i)
  {
    OneOldName(l, key, i);
    forall j | 0 <= j < i ensures !(|key| == 3 && key == l.v1[j].key) && l.hash(key) != l.v1[j].former {
      assert !NamesOld(l, key, j);
    }
    Found(l.v1, key, l.hash(key), 0, i);
  }

  lemma FindsNoOld(l: Layout, key: string)
    requires LayoutOk(l) && key != "v" && forall j | 0 <= j < |l.v1| :: !NamesOld(l, key, j)
    ensures Find(l.v1, key, l.hash(key), 0) == None
  {
    forall j | 0 <= j < |l.v1| ensures !(|key| == 3 && key == l.v1[j].key) && l.hash(key) != l.v1[j].former {
      assert !NamesOld(l, key, j);
    }
    NotFound(l.v1, key, l.hash(key), 0);
  }

  // ── What a file gives each field ───────────────────────────────────────────

  // A text has come for the DNS record
  predicate TextCame(l: Layout, calls: seq<Call>)
    requires l.record < |l.rows|
  {
    exists k :: 0 <= k < |calls| && Names(l, calls[k].key, l.record) && calls[k].value.kind == STRING
  }

  // The first element of the list, while no text has come
  predicate Lists(l: Layout, before: seq<Call>, c: Call)
    requires l.record < |l.rows|
  {
    NamesList(l, c.key) && FirstString(c.value).Some? && l.rows[l.record].size > 0 && !TextCame(l, before)
  }

  // A row's value: its default, then what each member of its name sets
  function Given(l: Layout, calls: seq<Call>, i: nat): Cell
    requires i < |l.rows| && l.record < |l.rows|
  {
    if calls == [] then l.rows[i].preset
    else
      var n := |calls| - 1;
      var was := Given(l, calls[..n], i);
      if Names(l, calls[n].key, i) then Set(l.rows[i], was, calls[n].value)
      else if i == l.record && Lists(l, calls[..n], calls[n]) then Text(Copied(FirstString(calls[n].value).value, l.rows[i].size))
      else was
  }

  function GivenOld(l: Layout, calls: seq<Call>, i: nat): Cell
    requires i < |l.v1|
  {
    if calls == [] then l.v1[i].preset
    else
      var n := |calls| - 1;
      var was := GivenOld(l, calls[..n], i);
      if NamesOld(l, calls[n].key, i) then Set(l.v1[i], was, calls[n].value) else was
  }

  // Version 1 had no number
  function GivenVersion(calls: seq<Call>): int {
    if calls == [] then 1
    else
      var v := calls[|calls| - 1].value;
      if calls[|calls| - 1].key == "v" && v.kind == INTEGER && -0x7FFF_FFFF <= W.Amount(v) <= 0x7FFF_FFFF then W.Amount(v)
      else GivenVersion(calls[..|calls| - 1])
  }

  // All that a load gathers, name by name
  ghost predicate ByName(l: Layout, g: Load, calls: seq<Call>)
    requires |g.cells| == |l.rows| && |g.v1| == |l.v1| && l.record < |l.rows|
  {
    && g.record == TextCame(l, calls) && g.version == GivenVersion(calls)
    && (forall i | 0 <= i < |l.rows| :: g.cells[i] == Given(l, calls, i))
    && (forall i | 0 <= i < |l.v1| :: g.v1[i] == GivenOld(l, calls, i))
  }

  lemma TextCameAdds(l: Layout, calls: seq<Call>)
    requires l.record < |l.rows| && calls != []
    ensures var n := |calls| - 1;
            TextCame(l, calls) <==>
            TextCame(l, calls[..n]) || (Names(l, calls[n].key, l.record) && calls[n].value.kind == STRING)
  {
    hide Names;
    var n := |calls| - 1;
    if TextCame(l, calls[..n]) {
      var k :| 0 <= k < n && Names(l, calls[..n][k].key, l.record) && calls[..n][k].value.kind == STRING;
      assert Names(l, calls[k].key, l.record);
    }
    if TextCame(l, calls) && !(Names(l, calls[n].key, l.record) && calls[n].value.kind == STRING) {
      var k :| 0 <= k < |calls| && Names(l, calls[k].key, l.record) && calls[k].value.kind == STRING;
      assert calls[..n][k] == calls[k];
    }
  }

  // What one member does, by whose name it has
  lemma MemberOfRow(l: Layout, g: Load, c: Call, i: nat)
    requires LayoutOk(l) && |g.cells| == |l.rows| && |g.v1| == |l.v1| && i < |l.rows| && Names(l, c.key, i)
    ensures Member(l, g, c) ==
            g.(cells := g.cells[i := Set(l.rows[i], g.cells[i], c.value)],
               record := g.record || (i == l.record && c.value.kind == STRING))
  {
    OneName(l, c.key, i);
    FindsRow(l, c.key, i);
  }

  lemma MemberOfOld(l: Layout, g: Load, c: Call, i: nat)
    requires LayoutOk(l) && |g.cells| == |l.rows| && |g.v1| == |l.v1| && i < |l.v1| && NamesOld(l, c.key, i)
    ensures Member(l, g, c) == g.(v1 := g.v1[i := Set(l.v1[i], g.v1[i], c.value)])
  {
    OneOldName(l, c.key, i);
    FindsOld(l, c.key, i);
    FindsNoRow(l, c.key);
  }

  lemma MemberOfNone(l: Layout, g: Load, c: Call)
    requires LayoutOk(l) && |g.cells| == |l.rows| && |g.v1| == |l.v1|
    requires (forall j | 0 <= j < |l.rows| :: !Names(l, c.key, j)) && forall j | 0 <= j < |l.v1| :: !NamesOld(l, c.key, j)
    ensures var lists := NamesList(l, c.key) && FirstString(c.value).Some? && l.rows[l.record].size > 0 && !g.record;
            var version := if c.key == "v" && c.value.kind == INTEGER && -0x7FFF_FFFF <= W.Amount(c.value) <= 0x7FFF_FFFF
                           then W.Amount(c.value) else g.version;
            Member(l, g, c) ==
            g.(version := version,
               cells := if lists then g.cells[l.record := Text(Copied(FirstString(c.value).value, l.rows[l.record].size))] else g.cells)
  {
    W.FitsExactly(c.value, -0x7FFF_FFFF, 0x7FFF_FFFF);
    hide FirstString, Copied, Distinct, RowOk, W.Fits;
    if c.key != "v" {
      FindsNoRow(l, c.key);
      FindsNoOld(l, c.key);
    }
  }

  // One more member
  lemma MemberByName(l: Layout, g: Load, calls: seq<Call>)
    requires LayoutOk(l) && calls != [] && |g.cells| == |l.rows| && |g.v1| == |l.v1| && ByName(l, g, calls[..|calls| - 1])
    ensures ByName(l, Member(l, g, calls[|calls| - 1]), calls)
  {
    hide ByName, Set, FirstString, Copied, Distinct, RowOk, Member, TextCame, Names, NamesOld, NamesList;
    var c := calls[|calls| - 1];
    if i :| 0 <= i < |l.rows| && Names(l, c.key, i) {
      RowByName(l, g, calls, i);
    } else if j :| 0 <= j < |l.v1| && NamesOld(l, c.key, j) {
      OldByName(l, g, calls, j);
    } else {
      NoneByName(l, g, calls, c);
    }
  }

  lemma RowByName(l: Layout, g: Load, calls: seq<Call>, i: nat)
    requires LayoutOk(l) && calls != [] && |g.cells| == |l.rows| && |g.v1| == |l.v1| && ByName(l, g, calls[..|calls| - 1])
    requires i < |l.rows| && Names(l, calls[|calls| - 1].key, i)
    ensures ByName(l, Member(l, g, calls[|calls| - 1]), calls)
  {
    var c := calls[|calls| - 1];
    TextCameAdds(l, calls);
    hide Set, FirstString, Copied, Distinct, RowOk, Member, TextCame, Names, NamesOld, NamesList;
    OneName(l, c.key, i);
    MemberOfRow(l, g, c, i);
  }

  lemma OldByName(l: Layout, g: Load, calls: seq<Call>, j: nat)
    requires LayoutOk(l) && calls != [] && |g.cells| == |l.rows| && |g.v1| == |l.v1| && ByName(l, g, calls[..|calls| - 1])
    requires j < |l.v1| && NamesOld(l, calls[|calls| - 1].key, j)
    ensures ByName(l, Member(l, g, calls[|calls| - 1]), calls)
  {
    var c := calls[|calls| - 1];
    TextCameAdds(l, calls);
    hide Set, FirstString, Copied, Distinct, RowOk, Member, TextCame, Names, NamesOld, NamesList;
    OneOldName(l, c.key, j);
    MemberOfOld(l, g, c, j);
  }

  lemma NoneByName(l: Layout, g: Load, calls: seq<Call>, c: Call)
    requires LayoutOk(l) && calls != [] && |g.cells| == |l.rows| && |g.v1| == |l.v1| && ByName(l, g, calls[..|calls| - 1])
    requires c == calls[|calls| - 1]
    requires (forall j | 0 <= j < |l.rows| :: !Names(l, c.key, j)) && forall j | 0 <= j < |l.v1| :: !NamesOld(l, c.key, j)
    ensures ByName(l, Member(l, g, c), calls)
  {
    TextCameAdds(l, calls);
    MemberOfNone(l, g, c);
    hide Set, FirstString, Copied, Distinct, RowOk, Member, TextCame, Names, NamesOld, NamesList;
  }

  lemma {:induction false} MembersByName(l: Layout, calls: seq<Call>)
    requires LayoutOk(l)
    ensures ByName(l, Members(l, Begun(l), calls), calls)
    decreases |calls|
  {
    if calls != [] {
      hide Member, ByName;
      MembersByName(l, calls[..|calls| - 1]);
      MemberByName(l, Members(l, Begun(l), calls[..|calls| - 1]), calls);
    }
  }

  // ── Texts ──────────────────────────────────────────────────────────────────

  // What any object's text gives, whichever version wrote it
  lemma TextByName(l: Layout, text: string)
    requires LayoutOk(l) && ObjectCalls(text).Some?
    ensures LoadText(l, text).Some? && ByName(l, LoadText(l, text).value, ObjectCalls(text).value)
  {
    hide Members, Distinct, RowOk, ByName;
    MembersByName(l, ObjectCalls(text).value);
  }

  // The last member of a row's name decides, and one that sets it decides alone
  lemma {:induction false} LastSets(l: Layout, calls: seq<Call>, i: nat, k: nat)
    requires i < |l.rows| && l.record < |l.rows| && k < |calls| && Names(l, calls[k].key, i)
    requires forall j | k < j < |calls| :: !Names(l, calls[j].key, i)
    requires i == l.record ==> calls[k].value.kind == STRING
    ensures Given(l, calls, i) == Set(l.rows[i], Given(l, calls[..k], i), calls[k].value)
    decreases |calls|
  {
    hide Names, Set, FirstString, Copied;
    var n := |calls| - 1;
    if k < n {
      LastSets(l, calls[..n], i, k);
      assert calls[..n][..k] == calls[..k];
      if i == l.record {
        assert Names(l, calls[..n][k].key, l.record);
      }
    }
  }

  lemma {:induction false} LastSetsOld(l: Layout, calls: seq<Call>, i: nat, k: nat)
    requires i < |l.v1| && k < |calls| && NamesOld(l, calls[k].key, i)
    requires forall j | k < j < |calls| :: !NamesOld(l, calls[j].key, i)
    ensures GivenOld(l, calls, i) == Set(l.v1[i], GivenOld(l, calls[..k], i), calls[k].value)
    decreases |calls|
  {
    hide NamesOld, Set;
    var n := |calls| - 1;
    if k < n {
      LastSetsOld(l, calls[..n], i, k);
      assert calls[..n][..k] == calls[..k];
    }
  }

  // A file that was written with any names: a value written for a field, under
  // the field's old name or its new one, loads into it
  lemma NamedLoads(l: Layout, es: seq<W.Entry>, k: nat, i: nat, c: Cell)
    requires LayoutOk(l) && (forall e | e in es :: W.Writable(e) && |e.key| <= 23)
    requires k < |es| && i < |l.rows| && CellOk(l.rows[i], c) && es[k].field == EntryOf(l.rows[i], c).field
    requires Names(l, es[k].key, i) && forall j | k < j < |es| :: !Names(l, es[j].key, i)
    ensures var g := LoadText(l, W.Body(es) + "}"); g.Some? && g.value.cells[i] == c
  {
    hide W.Writable, W.Body, ObjectCalls, LoadText, Names, CellOk, EntryOf, Distinct, RowOk, Set;
    W.RoundTrip(es, "");
    var text := W.Body(es) + "}";
    assert text + "" == text;
    var calls := ObjectCalls(text).value;
    KeysBack(es, calls);
    TextByName(l, text);
    SetByName(l, calls, es[k], k, i, c);
  }

  lemma SetByName(l: Layout, calls: seq<Call>, e: W.Entry, k: nat, i: nat, c: Cell)
    requires LayoutOk(l) && k < |calls| && W.ReadsBack(calls[k], e)
    requires i < |l.rows| && CellOk(l.rows[i], c) && e.field == EntryOf(l.rows[i], c).field
    requires Names(l, calls[k].key, i) && forall j | k < j < |calls| :: !Names(l, calls[j].key, i)
    ensures Given(l, calls, i) == c
  {
    hide W.Writable, Names, CellOk, EntryOf, Distinct, RowOk, Set, W.ReadsBack;
    assert e == W.Entry(e.key, EntryOf(l.rows[i], c).field);
    if i == l.record {
      TextIsString(l.rows[i], c, calls[k], e.key);
    }
    LastSets(l, calls, i, k);
    SetReads(l.rows[i], c, Given(l, calls[..k], i), calls[k], e.key);
  }

  lemma OldNameLoads(l: Layout, es: seq<W.Entry>, k: nat, i: nat, c: Cell)
    requires LayoutOk(l) && (forall e | e in es :: W.Writable(e) && |e.key| <= 23)
    requires k < |es| && i < |l.v1| && CellOk(l.v1[i], c) && es[k].field == EntryOf(l.v1[i], c).field
    requires NamesOld(l, es[k].key, i) && forall j | k < j < |es| :: !NamesOld(l, es[j].key, i)
    ensures var g := LoadText(l, W.Body(es) + "}"); g.Some? && g.value.v1[i] == c
  {
    hide W.Writable, W.Body, ObjectCalls, LoadText, NamesOld, CellOk, EntryOf, Distinct, RowOk;
    W.RoundTrip(es, "");
    var text := W.Body(es) + "}";
    assert text + "" == text;
    var calls := ObjectCalls(text).value;
    KeysBack(es, calls);
    TextByName(l, text);
    assert W.ReadsBack(calls[k], es[k]) && es[k] == W.Entry(es[k].key, EntryOf(l.v1[i], c).field);
    LastSetsOld(l, calls, i, k);
    SetReads(l.v1[i], c, GivenOld(l, calls[..k], i), calls[k], es[k].key);
  }

  lemma KeysBack(es: seq<W.Entry>, calls: seq<Call>)
    requires |calls| == |es| && (forall i | 0 <= i < |es| :: W.ReadsBack(calls[i], es[i])) && forall e | e in es :: |e.key| <= 23
    ensures forall i | 0 <= i < |es| :: calls[i].key == es[i].key
  {
    forall i | 0 <= i < |es| ensures calls[i].key == es[i].key {
      assert W.ReadsBack(calls[i], es[i]);
    }
  }

  lemma TextIsString(r: Row, c: Cell, call: Call, key: string)
    requires r.kind == CHARS && CellOk(r, c) && W.ReadsBack(call, W.Entry(key, EntryOf(r, c).field))
    ensures call.value.kind == STRING
  {
  }

  // The list's first element is its first string, its escapes decoded
  lemma ListReads(pad: string, lead: string, ps: seq<JsonTree.Piece>, after: string, more: JsonTree.Items, rest: string)
    requires JsonTree.Spaces(pad) && JsonTree.Spaces(lead) && JsonTree.PiecesOk(ps)
    ensures FirstString(JsonGrammar.Shown(JsonTree.Arr(pad, JsonTree.Item(lead, JsonTree.Str(ps), after, more)), rest)) == Some(W.Decoded(ps))
  {
    hide W.Decode, W.Decoded;
    var tail := after + JsonTree.ItemsTo(more, false, [']'] + rest);
    var quoted := JsonTree.QuotedTo(ps, tail);
    var v := JsonGrammar.Shown(JsonTree.Arr(pad, JsonTree.Item(lead, JsonTree.Str(ps), after, more)), rest);
    var items := JsonTree.Item(lead, JsonTree.Str(ps), after, more);
    assert JsonTree.RenderTo(items.value, tail) == quoted;
    assert JsonTree.ItemTo(items, [']'] + rest) == lead + quoted;
    assert JsonTree.ItemsTo(items, true, [']'] + rest) == lead + quoted;
    assert v.at == ['['] + (pad + (lead + quoted));
    assert v.at[1..] == pad + (lead + quoted);
    JsonGrammar.SkipsMore(pad, lead + quoted);
    JsonGrammar.SkipsSpaces(lead, quoted);
    assert quoted[1..] == JsonTree.PiecesTo(ps, ['"'] + tail);
    W.DecodesPieces(ps, tail);
  }

  // The list gives the record while no text has
  lemma {:induction false} ListGives(l: Layout, calls: seq<Call>, k: nat)
    requires LayoutOk(l) && k < |calls| && Lists(l, calls[..k], calls[k])
    requires forall j | k < j < |calls| :: !NamesList(l, calls[j].key) && !Names(l, calls[j].key, l.record)
    ensures Given(l, calls, l.record) == Text(Copied(FirstString(calls[k].value).value, l.rows[l.record].size))
    decreases |calls|
  {
    hide Set, FirstString, Copied, Distinct, RowOk;
    var n := |calls| - 1;
    if k < n {
      assert calls[..n][..k] == calls[..k];
      ListGives(l, calls[..n], k);
    } else {
      if Names(l, calls[n].key, l.record) {
        OneName(l, calls[n].key, l.record);
      }
    }
  }

  // ── A load ─────────────────────────────────────────────────────────────────

  function Rows(l: Layout, calls: seq<Call>): (c: seq<Cell>)
    requires l.record < |l.rows|
    ensures |c| == |l.rows|
  {
    seq(|l.rows|, i requires 0 <= i < |l.rows| => Given(l, calls, i))
  }

  function OldRows(l: Layout, calls: seq<Call>): (c: seq<Cell>)
    ensures |c| == |l.v1|
  {
    seq(|l.v1|, i requires 0 <= i < |l.v1| => GivenOld(l, calls, i))
  }

  // The configuration that a file's members make, name by name
  ghost predicate Comes(l: Layout, text: string, hash: string -> string, cells: seq<Cell>)
    requires l.record < |l.rows| && l.password < |l.rows|
  {
    && ObjectCalls(text).Some?
    && var calls := ObjectCalls(text).value;
       var rows := Rows(l, calls);
       var own := rows[l.password];
       var typed := own.Text? && own.s != "" && !(|own.s| == 80 && "pbkdf2:" <= own.s);
       var hashed := if typed then rows[l.password := Text(hash(own.s))] else rows;
       cells == if GivenVersion(calls) == 1 then l.migrate(hashed, OldRows(l, calls)) else hashed
  }

  lemma LoadedComes(l: Layout, text: string, hash: string -> string, cells: seq<Cell>)
    requires LayoutOk(l) && Loaded(l, text, hash) == Some(cells)
    ensures Comes(l, text, hash, cells)
  {
    TextByName(l, text);
    hide ObjectCalls, Members, Given, GivenOld, Distinct, RowOk;
    var g, calls := LoadText(l, text).value, ObjectCalls(text).value;
    assert g.cells == Rows(l, calls) && g.v1 == OldRows(l, calls);
    var own := Rows(l, calls)[l.password];
    assert own.Text? ==> (IsHashed(own.s) <==> |own.s| == 80 && "pbkdf2:" <= own.s);
  }

  // What the hash writes is a hash, and what the panel takes is none
  lemma HashTextIsHashed(salt: seq<Byte>, key: seq<Byte>)
    requires |salt| == 16 && |key| == 20
    ensures IsHashed("pbkdf2:" + Totp.ToHex(salt) + ":" + Totp.ToHex(key))
  {
    ToHexLength(salt);
    ToHexLength(key);
    var text := "pbkdf2:" + Totp.ToHex(salt) + ":" + Totp.ToHex(key);
    assert text[..7] == "pbkdf2:";
  }

  lemma {:induction false} ToHexLength(k: seq<Byte>)
    ensures |Totp.ToHex(k)| == 2 * |k|
  {
    if k != [] {
      ToHexLength(k[1..]);
    }
  }

  lemma TypedIsNotHashed(password: string)
    requires |password| <= 64
    ensures !IsHashed(password)
  {
  }
}
