/** The configuration on flash (ConfigStore.h): loading, saving, and what a
    power cut or a full flash leaves. Opening a file and renaming one may fail,
    and an open file takes what there is room for: nobody looks at how much. */
module ConfigStore {
  import opened Text
  import W = JsonWriter
  import opened JsonReader
  import Json
  import JsonPrefix
  import Totp
  import opened ConfigTable
  import opened ConfigSafety
  import ConfigNames

  // The files: the configuration, the one being written, the copy of the file
  // from version 1, and the actuator's state
  datatype Files = Files(config: Option<string>, tmp: Option<string>, backup: Option<string>, state: Option<string>)

  // What the file system answers; the room for the state, the copy and the file
  // written
  datatype Flash = Flash(
    canRead: bool, canState: bool, canCopy: bool, canWrite: bool, canRename: bool,
    stateRoom: nat, copyRoom: nat, room: nat)

  // What a file takes of a text
  function Taken(text: string, room: nat): string {
    if |text| <= room then text else text[..room]
  }

  class Store {
    const layout: Layout
    var cells: seq<Cell>
    var files: Files
    ghost var cuts: seq<Files>   // after each step on the files: what a power cut would leave

    ghost predicate Valid()
      reads this
    {
      LayoutOk(layout) && CellsFit(layout.rows, cells)
    }

    constructor (layout: Layout, config: Option<string>, state: Option<string>)
      requires LayoutOk(layout)
      ensures Valid() && this.layout == layout && files == Files(config, None, None, state) && cuts == []
    {
      this.layout := layout;
      cells := Presets(layout.rows);
      files := Files(config, None, None, state);
      cuts := [];
      new;
      forall i | 0 <= i < |layout.rows| ensures CellFits(layout.rows[i], cells[i]) {
        assert RowOk(layout.rows[i]);
      }
    }

    // The files changed, and the power may be cut
    method Put(f: Files)
      modifies `files, `cuts
      ensures files == f && cuts == old(cuts) + [f]
    {
      files := f;
      cuts := cuts + [f];
    }

    // ── Saving ───────────────────────────────────────────────────────────────

    // Every field, by its row
    method WriteFields(w: W.Writer)
      requires Valid() && w.Valid() && w.entries == []
      modifies w
      ensures w.Valid() && w.entries == Entries(layout.rows, cells)
    {
      hide W.Body, CellFits, EntryOf, LayoutOk;
      w.Num("v", VERSION);
      var i := 0;
      ghost var es := Entries(layout.rows, cells);
      while i < |layout.rows|
        invariant 0 <= i <= |layout.rows| && w.Valid() && w.entries == es[..i + 1]
      {
        WriteField(w, layout.rows[i], cells[i]);
        assert es[..i + 2] == es[..i + 1] + [es[i + 1]];
        i := i + 1;
      }
      assert es[..i + 1] == es;
    }

    method WriteField(w: W.Writer, r: Row, c: Cell)
      requires CellFits(r, c) && w.Valid()
      modifies w
      ensures w.Valid() && w.entries == old(w.entries) + [EntryOf(r, c)]
    {
      hide W.Body, CString, Totp.ToHex;
      match r.kind {
        case TEXT => w.Str(r.key, CString(c.s));
        case CHARS => w.Str(r.key, CString(c.s));
        case HEX20 =>
          var hex := "";
          if !Totp.Blank(c.k) {
            hex := Totp.EncodeHex(c.k);
          }
          w.Str(r.key, hex);
        case FLAG => w.Boolean(r.key, c.b);
        case U32 => w.Unum(r.key, c.n);
        case _ => w.Num(r.key, c.n);
      }
    }

    // Measured, then written aside and renamed over the old file: at every
    // moment the configuration file is the old one, or the new one as far as
    // there was room; with room, a boot after a power cut finds what it would
    // have found before, or this configuration. next: the hash of that boot
    method Save(flash: Flash, ghost next: string -> string) returns (ok: bool)
      requires Valid()
      modifies `files, `cuts
      ensures ok <==> |SavedText(layout, cells)| < MAX_FILE && flash.canWrite && flash.canRename
      ensures files.config == if ok then Some(Taken(SavedText(layout, cells), flash.room)) else old(files.config)
      ensures files.backup == old(files.backup) && files.state == old(files.state)
      ensures |cuts| >= |old(cuts)| && cuts[..|old(cuts)|] == old(cuts)
      ensures forall f | f in cuts[|old(cuts)|..] ::
                && f.backup == old(files.backup) && f.state == old(files.state)
                && (f.config == old(files.config) || f.config == Some(Taken(SavedText(layout, cells), flash.room)))
      ensures CellsOk(layout.rows, cells) && !NeedsHash(layout, cells) && flash.room >= |SavedText(layout, cells)| ==>
                forall f | f in cuts[|old(cuts)|..] + [files] ::
                  f.config == old(files.config) || (f.config.Some? && Loaded(layout, f.config.value, next) == Some(cells))
    {
      CutInSave(layout, cells, next, flash.room);
      hide CellsFit, LayoutOk, SavedText, Loaded, CellsOk, NeedsHash, Taken;
      ok := Write(flash);
    }

    method Write(flash: Flash) returns (ok: bool)
      requires Valid()
      modifies `files, `cuts
      ensures ok <==> |SavedText(layout, cells)| < MAX_FILE && flash.canWrite && flash.canRename
      ensures files.config == if ok then Some(Taken(SavedText(layout, cells), flash.room)) else old(files.config)
      ensures files.backup == old(files.backup) && files.state == old(files.state)
      ensures |cuts| >= |old(cuts)| && cuts[..|old(cuts)|] == old(cuts)
      ensures forall f | f in cuts[|old(cuts)|..] ::
                && f.backup == old(files.backup) && f.state == old(files.state)
                && (f.config == old(files.config) || f.config == Some(Taken(SavedText(layout, cells), flash.room)))
    {
      hide W.Body, CellsFit, LayoutOk, Entries, Taken;
      var measure := new W.Writer(false);
      WriteFields(measure);
      var size := measure.End();
      if size >= MAX_FILE || !flash.canWrite {
        return false;
      }
      var w := new W.Writer(true);
      WriteFields(w);
      var _ := w.End();
      ghost var from, was := |cuts|, files;
      ghost var text := w.text;
      WriteAside(w.text, flash.room);
      if !flash.canRename {
        Put(files.(tmp := None));
        return false;
      }
      Put(files.(config := files.tmp, tmp := None));
      return true;
    }

    // A byte at a time: a power cut may leave any part of it
    method WriteAside(text: string, room: nat)
      modifies `files, `cuts
      ensures files == old(files).(tmp := Some(Taken(text, room)))
      ensures |cuts| >= |old(cuts)| && cuts[..|old(cuts)|] == old(cuts)
      ensures forall f | f in cuts[|old(cuts)|..] ::
                  f.config == old(files.config) && f.backup == old(files.backup) && f.state == old(files.state)
    {
      Put(files.(tmp := Some("")));
      var i := 0;
      assert text[..0] == "" == Taken("", room);
      while i < |text|
        invariant 0 <= i <= |text| && files == old(files).(tmp := Some(Taken(text[..i], room)))
        invariant |cuts| >= |old(cuts)| && cuts[..|old(cuts)|] == old(cuts)
        invariant forall f | f in cuts[|old(cuts)|..] ::
                  f.config == old(files.config) && f.backup == old(files.backup) && f.state == old(files.state)
      {
        OneMoreTaken(text, i, room);
        if i < room {
          Put(files.(tmp := Some(text[..i + 1])));
        }
        i := i + 1;
      }
      assert text[..i] == text;
    }

    // ── Loading ──────────────────────────────────────────────────────────────

    // The members of a file, one after another, over the defaults
    method Gather(calls: seq<JsonReader.Call>) returns (g: Load)
      requires Valid()
      ensures g == Members(layout, Begun(layout), calls)
    {
      hide Member, CellsFit;
      g := Begun(layout);
      var i := 0;
      assert calls[..0] == [];
      while i < |calls|
        invariant 0 <= i <= |calls| && g == Members(layout, Begun(layout), calls[..i])
      {
        assert calls[..i + 1][..i] == calls[..i];
        g := Member(layout, g, calls[i]);
        i := i + 1;
      }
      assert calls[..i] == calls;
    }

    // Copied in pieces of 64 bytes before the first write in the new format
    method Backup(text: string, room: nat)
      modifies `files, `cuts
      ensures files == old(files).(backup := Some(Taken(text, room)))
      ensures |cuts| >= |old(cuts)| && cuts[..|old(cuts)|] == old(cuts)
      ensures forall f | f in cuts[|old(cuts)|..] :: f.config == old(files.config)
    {
      Put(files.(backup := Some("")));
      var i := 0;
      assert text[..0] == "" == Taken("", room);
      while i < |text|
        invariant 0 <= i <= |text| && files == old(files).(backup := Some(Taken(text[..i], room)))
        invariant |cuts| >= |old(cuts)| && cuts[..|old(cuts)|] == old(cuts)
        invariant forall f | f in cuts[|old(cuts)|..] :: f.config == old(files.config)
      {
        i := if |text| - i < 64 then |text| else i + 64;
        Put(files.(backup := Some(Taken(text[..i], room))));
      }
      assert text[..i] == text;
    }

    // The actuator's state, by the command that version 1 had fixed
    method WriteState(text: string, room: nat)
      modifies `files, `cuts
      ensures files == old(files).(state := Some(Taken(text, room)))
      ensures |cuts| >= |old(cuts)| && cuts[..|old(cuts)|] == old(cuts)
      ensures forall f | f in cuts[|old(cuts)|..] :: f.config == old(files.config) && f.backup == old(files.backup)
    {
      Put(files.(state := Some("")));
      var i := 0;
      assert text[..0] == "" == Taken("", room);
      while i < |text|
        invariant 0 <= i <= |text| && files == old(files).(state := Some(Taken(text[..i], room)))
        invariant |cuts| >= |old(cuts)| && cuts[..|old(cuts)|] == old(cuts)
        invariant forall f | f in cuts[|old(cuts)|..] :: f.config == old(files.config) && f.backup == old(files.backup)
      {
        i := i + 1;
        Put(files.(state := Some(Taken(text[..i], room))));
      }
      assert text[..i] == text;
    }

    // A file that cannot be read or is broken changes nothing. Otherwise the
    // configuration is the one it gives; and the file stays as it was until,
    // from version 1 or to hash a password, the new one replaces it. Whenever
    // the power is cut, with room, the next boot finds the same configuration,
    // but for the salt of a password the file has as it was typed. next: the
    // hash of that boot
    method Load(flash: Flash, hash: string -> string, ghost next: string -> string) returns (ok: bool)
      requires Valid()
      modifies this
      ensures Valid()
      ensures ok <==> old(files.config).Some? && flash.canRead && |old(files.config).value| < MAX_FILE &&
                      LoadText(layout, old(files.config).value).Some?
      ensures !ok ==> cells == old(cells) && files == old(files) && cuts == old(cuts)
      ensures ok ==> Loaded(layout, old(files.config).value, hash) == Some(cells)
      ensures ok ==> ConfigNames.Comes(layout, old(files.config).value, hash, cells)
      ensures |cuts| >= |old(cuts)| && cuts[..|old(cuts)|] == old(cuts)
      ensures forall f | f in cuts[|old(cuts)|..] + [files] ::
                f.config == old(files.config) || f.config == Some(Taken(SavedText(layout, cells), flash.room))
      ensures ok && flash.canCopy && LoadText(layout, old(files.config).value).value.version == 1 ==>
                forall f | f in cuts[|old(cuts)|..] + [files] ::
                  f.config == old(files.config) || f.backup == Some(Taken(old(files.config).value, flash.copyRoom))
      ensures ok ==> files.state == StateAfter(layout, old(files), flash)
      ensures ok && Keeps(layout, hash, cells, flash.room) ==>
                forall f | f in cuts[|old(cuts)|..] + [files] :: FindsAgain(layout, f, hash, next, cells)
    {
      hide LoadText, Members, Member, SavedText, CellsFit, Distinct, RowOk, Keeps, FindsAgain, Loaded, Taken, Migrated, ConfigNames.Comes;
      if files.config.None? || !flash.canRead || |files.config.value| >= MAX_FILE {
        return false;
      }
      var text := files.config.value;
      var calls;
      ok, calls := Json.Object(text);
      Gathered(layout, text);
      if !ok {
        return;
      }
      var g := Gather(calls);
      Accept(g, text, hash);
      ConfigNames.LoadedComes(layout, text, hash, cells);
      TextFinds(layout, text, hash, next, cells, flash.room);
      Rewrite(g, text, flash, next);
    }

    method Rewrite(g: Load, text: string, flash: Flash, ghost next: string -> string)
      requires Valid() && files.config == Some(text) && |g.cells| == |layout.rows|
      modifies `files, `cuts
      ensures |cuts| >= |old(cuts)| && cuts[..|old(cuts)|] == old(cuts)
      ensures forall f | f in cuts[|old(cuts)|..] + [files] ::
                f.config == Some(text) || f.config == Some(Taken(SavedText(layout, cells), flash.room))
      ensures flash.canCopy && g.version == 1 ==>
                forall f | f in cuts[|old(cuts)|..] + [files] ::
                  f.config == Some(text) || f.backup == Some(Taken(text, flash.copyRoom))
      ensures files.state == if g.version == 1 then Migrated(layout, g.v1, old(files).state, flash) else old(files.state)
    {
      hide SavedText, CellsFit, Distinct, RowOk, Migrated, Taken;
      Migrate(g, flash);
      ghost var n, m, was := |cuts|, |old(cuts)|, cuts;
      Renew(g, text, flash, next);
      assert cuts[m..] == was[m..] + cuts[n..];
    }

    // A fixed command of version 1 goes to the state file
    method Migrate(g: Load, flash: Flash)
      modifies `files, `cuts
      ensures files == old(files).(state := if g.version == 1 then Migrated(layout, g.v1, old(files).state, flash) else old(files.state))
      ensures |cuts| >= |old(cuts)| && cuts[..|old(cuts)|] == old(cuts)
      ensures forall f | f in cuts[|old(cuts)|..] + [files] :: f.config == old(files.config)
    {
      if g.version == 1 {
        var state := layout.state(g.v1);
        if state.Some? && flash.canState {
          WriteState(state.value, flash.stateRoom);
        }
      }
    }

    // An old file is copied and written anew, and one with a password as it was
    // typed is written anew
    method Renew(g: Load, text: string, flash: Flash, ghost next: string -> string)
      requires Valid() && files.config == Some(text) && |g.cells| == |layout.rows|
      modifies `files, `cuts
      ensures |cuts| >= |old(cuts)| && cuts[..|old(cuts)|] == old(cuts)
      ensures forall f | f in cuts[|old(cuts)|..] + [files] ::
                f.config == Some(text) || f.config == Some(Taken(SavedText(layout, cells), flash.room))
      ensures flash.canCopy && g.version == 1 ==>
                forall f | f in cuts[|old(cuts)|..] + [files] ::
                  f.config == Some(text) || f.backup == Some(Taken(text, flash.copyRoom))
      ensures files.state == old(files.state)
    {
      hide SavedText, CellsFit, Distinct, RowOk, Loaded;
      if g.version == 1 {
        if flash.canCopy {
          Backup(text, flash.copyRoom);
        }
        var saved := Save(flash, next);
      } else if g.version <= VERSION && NeedsHash(layout, g.cells) {
        var saved := Save(flash, next);
      }
    }

    // The cells that a load gathered, the password hashed, and migrated
    method Accept(g: Load, text: string, hash: string -> string)
      requires Valid() && LoadText(layout, text) == Some(g)
      modifies `cells
      ensures Valid() && Loaded(layout, text, hash) == Some(cells)
    {
      hide LoadText, CellsFit;
      LoadedFits(layout, text, hash);
      cells := Hashed(layout, g.cells, hash);
      if g.version == 1 {
        cells := layout.migrate(cells, g.v1);
      }
    }
  }

  function Migrated(l: Layout, v1: seq<Cell>, was: Option<string>, flash: Flash): Option<string> {
    var state := l.state(v1);
    if state.Some? && flash.canState then Some(Taken(state.value, flash.stateRoom)) else was
  }

  // What the state file is after a load of a file that is read
  function StateAfter(l: Layout, files: Files, flash: Flash): Option<string>
    requires files.config.Some? && l.record < |l.rows| && LoadText(l, files.config.value).Some?
  {
    var g := LoadText(l, files.config.value).value;
    if g.version == 1 then Migrated(l, g.v1, files.state, flash) else files.state
  }

  // The actuator's state file changes when a version 1 file had one of the two
  // commands, the file can be written, and then alone
  lemma StateWritten(l: Layout, files: Files, flash: Flash)
    requires files.config.Some? && l.record < |l.rows| && LoadText(l, files.config.value).Some?
    ensures var g, state := LoadText(l, files.config.value).value, StateAfter(l, files, flash);
            && (g.version != 1 || l.state(g.v1).None? || !flash.canState ==> state == files.state)
            && (g.version == 1 && l.state(g.v1).Some? && flash.canState ==>
                  state.Some? && state.value <= l.state(g.v1).value
                  && |state.value| == if |l.state(g.v1).value| < flash.stateRoom then |l.state(g.v1).value| else flash.stateRoom)
  {
  }

  lemma Gathered(l: Layout, text: string)
    requires LayoutOk(l)
    ensures LoadText(l, text) ==
            match JsonReader.ObjectCalls(text) case None => None case Some(calls) => Some(Members(l, Begun(l), calls))
  {
  }

  lemma OneMoreTaken(text: string, i: nat, room: nat)
    requires i < |text|
    ensures Taken(text[..i + 1], room) == if i < room then text[..i + 1] else Taken(text[..i], room)
  {
  }

  // ── After a full flash ─────────────────────────────────────────────────────

  // A saved file with any of it missing is none that a boot takes
  lemma ShortIsRefused(l: Layout, cells: seq<Cell>, room: nat)
    requires LayoutOk(l) && CellsOk(l.rows, cells) && room < |SavedText(l, cells)|
    ensures LoadText(l, Taken(SavedText(l, cells), room)).None?
  {
    hide RowOk, CellOk, Distinct, EntryOf, W.Body, W.Writable, Members, ObjectCalls;
    var es, text := Entries(l.rows, cells), SavedText(l, cells);
    EntriesWritable(l, cells);
    W.WrittenBegins(es, "");
    assert W.Body(es) + "}" + "" == text;
    JsonPrefix.CutIsRefused(text, "", "", W.TreeOf(es), room);
  }

  // Of a save that reports success, the next boot finds the configuration
  // exactly when there was room for all of the file, and otherwise finds none
  lemma SavedExactly(l: Layout, cells: seq<Cell>, hash: string -> string, room: nat)
    requires LayoutOk(l) && CellsOk(l.rows, cells) && !NeedsHash(l, cells)
    ensures var left := Taken(SavedText(l, cells), room);
            && (Loaded(l, left, hash) == Some(cells) <==> room >= |SavedText(l, cells)|)
            && (Loaded(l, left, hash).None? <==> room < |SavedText(l, cells)|)
  {
    hide RowOk, CellOk, Distinct, SavedText, LoadText;
    if room < |SavedText(l, cells)| {
      ShortIsRefused(l, cells, room);
    } else {
      SavedIsLoaded(l, cells, hash);
    }
  }

  // ── After a power cut ──────────────────────────────────────────────────────

  // The hash makes hashes, the configuration can be written whole, and there is
  // room for it
  ghost predicate Keeps(l: Layout, hash: string -> string, cells: seq<Cell>, room: nat) {
    (forall p :: IsHashed(hash(p))) && CellsOk(l.rows, cells) && room >= |SavedText(l, cells)|
  }

  // The boot that finds these files: the same configuration, but for a password
  // that its file has as it was typed, unless both salts make one hash
  ghost predicate FindsAgain(l: Layout, f: Files, hash: string -> string, next: string -> string, cells: seq<Cell>)
    requires l.record < |l.rows| && l.password < |l.rows|
  {
    && f.config.Some? && Loaded(l, f.config.value, next).Some?
    && var text, again := f.config.value, Loaded(l, f.config.value, next).value;
    && SameButPassword(l, again, cells)
    && (again == cells <==> !FileNeedsHash(l, text) || next(OwnPassword(l, text)) == hash(OwnPassword(l, text)))
  }

  // The old file and the new one, found by another boot
  lemma CutInLoad(l: Layout, text: string, hash: string -> string, next: string -> string, cells: seq<Cell>, room: nat, f: Files)
    requires LayoutOk(l) && Loaded(l, text, hash) == Some(cells) && Keeps(l, hash, cells, room)
    requires f.config == Some(text) || f.config == Some(Taken(SavedText(l, cells), room))
    ensures FindsAgain(l, f, hash, next, cells)
  {
    hide LoadText, SavedText, RowOk, CellOk, Distinct;
    if f.config == Some(text) {
      LoadedAgain(l, text, hash, next);
    } else {
      LoadedHashed(l, text, hash);
      SavedIsLoaded(l, cells, next);
      SavedLoads(l, cells);
    }
  }

  // For all the files at once
  lemma TextFinds(l: Layout, text: string, hash: string -> string, next: string -> string, cells: seq<Cell>, room: nat)
    requires LayoutOk(l) && Loaded(l, text, hash) == Some(cells) && CellsFit(l.rows, cells)
    ensures Keeps(l, hash, cells, room) ==>
              forall f: Files | f.config == Some(text) || f.config == Some(Taken(SavedText(l, cells), room)) ::
                FindsAgain(l, f, hash, next, cells)
  {
    hide Loaded, Keeps, FindsAgain, Distinct, RowOk, SavedText, Taken;
    if Keeps(l, hash, cells, room) {
      forall f: Files | f.config == Some(text) || f.config == Some(Taken(SavedText(l, cells), room))
        ensures FindsAgain(l, f, hash, next, cells)
      {
        CutInLoad(l, text, hash, next, cells, room, f);
      }
    }
  }

  // The file a save leaves, found by another boot
  lemma CutInSave(l: Layout, cells: seq<Cell>, next: string -> string, room: nat)
    requires LayoutOk(l) && |cells| == |l.rows|
    ensures CellsOk(l.rows, cells) && !NeedsHash(l, cells) && room >= |SavedText(l, cells)| ==>
              Loaded(l, Taken(SavedText(l, cells), room), next) == Some(cells)
  {
    hide SavedText, LoadText, Distinct, RowOk, CellOk;
    if CellsOk(l.rows, cells) && !NeedsHash(l, cells) {
      SavedIsLoaded(l, cells, next);
    }
  }
}
