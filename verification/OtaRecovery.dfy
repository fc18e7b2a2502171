/** Recovery boots of the updater (OTAService.h): a short heap or a failed
    install writes "<tag> <boots>" to /ota.pending and restarts; the next boot
    takes the request up without the panel, counting one more before it
    tries. The counter must end the recovery after MAX_BOOTS boots in a row,
    whatever crashes. */
module OtaRecovery {
  import opened Numerals
  import opened Text
  import opened OtaService

  const LINE_LEN := 23   // characters read back, without the terminator

  // ── Reading the request ────────────────────────────────────────────────────

  predicate IsBlank(c: char) {
    c == ' ' || c == '\n'
  }

  function SkipBlanks(s: string): string {
    if s != "" && IsBlank(s[0]) then SkipBlanks(s[1..]) else s
  }

  // Up to n characters, to a blank or the end
  function Word(s: string, n: nat): (t: string)
    ensures |t| <= |s| && |t| <= n
  {
    if n == 0 || s == "" || IsBlank(s[0]) then "" else [s[0]] + Word(s[1..], n - 1)
  }

  datatype Request = Request(tag: string, boots: Text.Word) | Invalid

  // What _loadPending makes of the file
  function ParseRequest(file: string): Request {
    var p := SkipBlanks(CString(if |file| > LINE_LEN then file[..LINE_LEN] else file));
    var tag := Word(p, TAG_LEN);
    if tag == "" || (tag != "check" && ParseTag(tag) < 0) then Invalid
    else Request(tag, Strtoul(p[|tag|..]))
  }

  // A tag the updater asks for: of the "vN" kind, or a check
  predicate Askable(tag: string) {
    |tag| <= TAG_LEN && (tag == "check" || ParseTag(tag) >= 0)
  }

  lemma {:induction false} WordWhole(t: string, rest: string, n: nat)
    requires |t| <= n && forall i :: 0 <= i < |t| ==> !IsBlank(t[i])
    requires rest != "" && IsBlank(rest[0])
    ensures Word(t + rest, n) == t
  {
    if t == "" {
      assert t + rest == rest;
    } else {
      assert (t + rest)[1..] == t[1..] + rest;
      WordWhole(t[1..], rest, n - 1);
    }
  }

  lemma AskablePlain(tag: string)
    requires Askable(tag)
    ensures tag != "" && forall i :: 0 <= i < |tag| ==> !IsBlank(tag[i]) && tag[i] != '\0'
  {
    if tag != "check" {
      TagDigitsAll(tag[1..], 0);
      assert forall i :: 1 <= i < |tag| ==> tag[i] == tag[1..][i - 1];
    }
  }

  // A request written is read back
  lemma RequestReadsBack(tag: string, boots: nat)
    requires Askable(tag) && boots < 256
    ensures ParseRequest(Line(tag, boots)) == Request(tag, boots)
  {
    AskablePlain(tag);
    hide Decimal, ParseTag, Signed, Word;
    var d, line := Decimal(boots), Line(tag, boots);
    assert Power10(3) == 1000;
    DecimalShort(boots, 3);
    assert line == tag + (" " + d);
    assert '\0' !in line;
    CStringWhole(line);
    assert SkipBlanks(line) == line;
    WordWhole(tag, " " + d, TAG_LEN);
    assert line[|tag|..] == " " + d;
    SignedDecimal(boots);
  }

  // ── A boot ─────────────────────────────────────────────────────────────────

  function LoadPending(s: Ota, readable: bool, e: Env): Ota {
    if s.file.None? then s
    else if !readable then s.(file := None)
    else match ParseRequest(s.file.value)
      case Invalid => s.(file := None)
      case Request(tag, boots) =>
        if boots > MAX_BOOTS then s.(file := None)
        else
          var t := SavePending(s.(pendingBoots := boots, slim := true), tag, boots + 1, e);
          if tag == "check" then t.(available := "", wantCheck := true) else t.(available := tag, wantInstall := true)
  }

  // ── Runs of boots ──────────────────────────────────────────────────────────

  // streak: recovery boots in a row, this one included; failed: those of them
  // whose counter was not written
  datatype World = World(ota: Ota, streak: nat, failed: nat)

  datatype Event =
    | Ticks(now: Text.Word, e: Env)
    | Offers(tag: string, now: Text.Word)
    | AsksCheck
    | AsksInstall
    | SetsAutomatic(on: bool)
    | RestartsScheduled                    // by the Wi-Fi, for memory or for the day
    | Boots(automatic: bool, rejected: string, readable: bool, e: Env)   // a restart, a crash or a power cut

  function Step(w: World, ev: Event, current: string): World {
    match ev
    case Ticks(now, e) => w.(ota := Tick(w.ota, now, e, current))
    case Offers(tag, now) => w.(ota := OfferLatest(w.ota, tag, now, current))
    case AsksCheck => w.(ota := RequestCheck(w.ota))
    case AsksInstall => w.(ota := RequestInstall(w.ota))
    case SetsAutomatic(on) => w.(ota := w.ota.(automatic := on))
    case RestartsScheduled => w.(ota := w.ota.(restart := true))
    case Boots(automatic, rejected, readable, e) =>
      var t := LoadPending(PoweredOn(automatic, rejected, w.ota.file), readable, e);
      if t.slim then World(t, w.streak + 1, w.failed + if e.saved then 0 else 1) else World(t, 0, 0)
  }

  function Run(w: World, events: seq<Event>, current: string): World {
    if events == [] then w else Step(Run(w, events[..|events| - 1], current), events[|events| - 1], current)
  }

  // Tags come from the parser's buffer of 16 bytes
  predicate RepliesFit(r: seq<Reply>) {
    forall i :: 0 <= i < |r| ==> r[i].Tag? ==> |r[i].name| <= TAG_LEN
  }

  predicate Fits(ev: Event) {
    ev.Ticks? ==> RepliesFit(ev.e.replies)
  }

  // An event that writes the counter of the boot it is, if it is one
  predicate Writes(ev: Event) {
    ev.Boots? ==> ev.e.saved
  }

  // How many recovery boots the file still allows, counted down from MAX_BOOTS + 1
  function Counter(file: Option<string>): nat {
    match file
    case None => MAX_BOOTS + 1
    case Some(text) =>
      match ParseRequest(text)
      case Invalid => MAX_BOOTS + 1
      case Request(_, boots) => boots
  }

  predicate TagsFit(s: Ota) {
    && |s.latest| <= TAG_LEN
    && (s.available == "" || Askable(s.available))
  }

  // A request still stands: the counters are ahead of the streak
  ghost predicate Counting(s: Ota, streak: nat) {
    && TagsFit(s)
    && streak < Counter(s.file)
    && s.pendingBoots <= MAX_BOOTS
    && (streak == 0 || (s.slim && streak <= s.pendingBoots))
  }

  // The request was cleared in a recovery boot: only a restart follows
  ghost predicate Over(s: Ota) {
    TagsFit(s) && s.file.None? && s.pendingBoots <= MAX_BOOTS && s.restart && !Active(s)
  }

  ghost predicate Ahead(s: Ota, streak: nat) {
    streak <= MAX_BOOTS && (Counting(s, streak) || Over(s))
  }

  // ── The counters through a tick ────────────────────────────────────────────

  // A request without a tag is no request
  lemma NoTagInvalid(boots: nat)
    requires boots < 256
    ensures ParseRequest(Line("", boots)) == Invalid
  {
    var d, line := Decimal(boots), Line("", boots);
    assert Power10(3) == 1000;
    DecimalShort(boots, 3);
    assert line == " " + d;
    assert '\0' !in line;
    CStringWhole(line);
    assert line[1..] == d;
    assert SkipBlanks(line) == d;
    assert Word(d, TAG_LEN)[0] == d[0];
  }

  lemma PersistKeeps(s: Ota, k: nat, e: Env)
    requires Counting(s, k) && !Active(s)
    ensures Ahead(PersistAndReboot(s, e), k)
  {
    hide ParseRequest, ParseTag, Line;
    if s.pendingBoots + 1 <= MAX_BOOTS && e.saved {
      if s.available == "" {
        NoTagInvalid(s.pendingBoots + 1);
      } else {
        RequestReadsBack(s.available, s.pendingBoots + 1);
      }
    }
  }

  lemma RecoverKeeps(s: Ota, k: nat, e: Env)
    requires Counting(s, k) && !Active(s)
    ensures Ahead(RecoverHeap(s, e), k) && RecoverHeap(s, e).restart
  {
    PersistKeeps(if s.available == "" then s.(available := "check") else s, k, e);
  }

  lemma RetryKeeps(s: Ota, k: nat, now: Text.Word, install: bool, e: Env)
    requires Counting(s, k) && !Active(s)
    ensures Ahead(ScheduleRetry(s, now, install, e), k)
  {
    if s.tries + 1 >= MAX_TRIES && install {
      PersistKeeps(s.(tries := 0, retryDelay := 0, nextRetry := 0), k, e);
    }
  }

  lemma FailedKeeps(s: Ota, k: nat, now: Text.Word, e: Env)
    requires Counting(s, k) && !s.inProgress
    ensures Ahead(CheckFailed(s, now, e), k) && Ahead(DownloadFailed(s, now, e), k)
  {
    RetryKeeps(s.(stage := Idle), k, now, false, e);
    RetryKeeps(s.(stage := Idle), k, now, true, e);
  }

  // After RecoverHeap a restart is scheduled: the failure only idles
  lemma FailedAfterRecover(s: Ota, k: nat, now: Text.Word, e: Env)
    requires Ahead(s, k) && s.restart
    ensures Ahead(CheckFailed(s, now, e), k) && Ahead(DownloadFailed(s, now, e), k)
  {
  }

  lemma SettleKeeps(s: Ota, k: nat)
    requires Counting(s, k)
    ensures !Active(s) ==> Ahead(Settle(s), k)
    ensures s.stage.Idle? ==> Ahead(Settle(s).(inProgress := false), k)
  {
  }

  lemma {:induction false} PumpKeeps(s: Ota, k: nat, now: Text.Word, e: Env, r: seq<Reply>, current: string)
    requires Counting(s, k) && !s.inProgress && RepliesFit(r)
    ensures Ahead(Pump(s, now, e, r, current), k)
    decreases |r|, 1
  {
    if r != [] && !r[0].Quiet? {
      FailedKeeps(s, k, now, e);
      match s.stage
      case Idle =>
      case CheckHeaders =>
        if r[0].Headers? && r[0].code == 200 {
          PumpKeeps(s.(stage := CheckBody, latest := ""), k, now, e, r[1..], current);
        }
      case CheckBody =>
        if r[0].Tag? && r[0].name != "" {
          AfterCheckKeeps(s.(stage := Idle, latest := r[0].name), k, now, e, r[1..], current);
        }
      case DownloadHeaders =>
        HeadersKeep(s, k, now, e, r, current);
    }
  }

  lemma {:induction false} AfterCheckKeeps(s: Ota, k: nat, now: Text.Word, e: Env, r: seq<Reply>, current: string)
    requires Counting(s, k) && !Active(s) && RepliesFit(r)
    ensures Ahead(AfterCheck(s, now, e, r, current), k)
    decreases |r|, 4
  {
    if !IsNewer(s.latest, current) {
      SettleKeeps(s.(available := ""), k);
    } else {
      var t := s.(available := s.latest);
      SettleKeeps(t, k);
      if t.checkInstall && t.available != t.rejected {
        DownloadKeeps(t, k, now, e, r, current);
      }
    }
  }

  lemma {:induction false} DownloadKeeps(s: Ota, k: nat, now: Text.Word, e: Env, r: seq<Reply>, current: string)
    requires Counting(s, k) && !Active(s) && RepliesFit(r)
    ensures Ahead(Download(s, now, e, r, current), k)
    decreases |r|, 3
  {
    if e.heapDownload {
      ConnectKeeps(s.(hop := 0), k, now, e, r, current);
    } else {
      RecoverKeeps(s, k, e);
      FailedAfterRecover(RecoverHeap(s, e), k, now, e);
    }
  }

  lemma {:induction false} ConnectKeeps(s: Ota, k: nat, now: Text.Word, e: Env, r: seq<Reply>, current: string)
    requires Counting(s, k) && !s.inProgress && RepliesFit(r)
    ensures Ahead(DownloadConnect(s, now, e, r, current), k)
    decreases |r|, 2
  {
    var c := s.(sessions := s.sessions + 1);
    if r != [] && r[0].Refused? {
      FailedKeeps(c, k, now, e);
    } else {
      PumpKeeps(c.(stage := DownloadHeaders), k, now, e, r, current);
    }
  }

  lemma {:induction false} HeadersKeep(s: Ota, k: nat, now: Text.Word, e: Env, r: seq<Reply>, current: string)
    requires Counting(s, k) && !s.inProgress && RepliesFit(r) && r != []
    ensures Ahead(OnDownloadHeaders(s, now, e, r, current), k)
    decreases |r|, 0
  {
    hide DownloadFailed, DownloadConnect, ParseRequest;
    var t := OnDownloadHeaders(s, now, e, r, current);
    var more := s.(hop := s.hop + 1);
    if r[0].Headers? && Redirect(r[0].code) && r[0].location {
      if s.hop + 1 < MAX_REDIRECTS {
        assert t == DownloadConnect(more, now, e, r[1..], current);
        ConnectKeeps(more, k, now, e, r[1..], current);
      } else {
        assert t == DownloadFailed(more, now, e);
        FailedKeeps(more, k, now, e);
      }
    } else if t.inProgress {
      assert t == s.(stage := Idle, inProgress := true);
    } else {
      assert t == DownloadFailed(s, now, e);
      FailedKeeps(s, k, now, e);
    }
  }

  lemma CheckKeeps(s: Ota, k: nat, now: Text.Word, install: bool, e: Env, current: string)
    requires Counting(s, k) && !Active(s) && RepliesFit(e.replies)
    ensures Ahead(CheckNow(s, now, install, e, current), k)
  {
    var t := s.(checkInstall := install, latest := "");
    if !e.heapCheck {
      RecoverKeeps(t, k, e);
      FailedAfterRecover(RecoverHeap(t, e), k, now, e);
    } else {
      var c := t.(sessions := t.sessions + 1);
      FailedKeeps(c, k, now, e);
      PumpKeeps(c.(stage := CheckHeaders), k, now, e, e.replies, current);
    }
  }

  lemma StreamKeeps(s: Ota, k: nat, now: Text.Word, e: Env)
    requires Counting(s, k) && s.inProgress && OneStage(s)
    ensures Ahead(StreamChunk(s, now, e), k)
  {
    if !e.connected || e.stream.Failed? {
      RetryKeeps(s.(inProgress := false), k, now, true, e);
    } else if e.stream.Ended? {
      CompleteKeeps(s, k, e.stream.accepted);
    }
  }

  lemma CompleteKeeps(s: Ota, k: nat, accepted: bool)
    requires Counting(s, k) && s.stage.Idle?
    ensures Ahead(Complete(s, accepted), k)
  {
    hide Settle, ParseRequest;
    if accepted {
      AcceptedOver(s);
    } else {
      SettleKeeps(s.(rejected := s.available), k);
    }
  }

  // Installed: nothing is asked for, and the restart comes
  lemma AcceptedOver(s: Ota)
    requires TagsFit(s) && s.stage.Idle?
    ensures Over(Complete(s, true))
  {
  }

  lemma TickKeeps(s: Ota, k: nat, now: Text.Word, e: Env, current: string)
    requires Ahead(s, k) && OneStage(s) && RepliesFit(e.replies)
    ensures Ahead(Tick(s, now, e, current), k)
  {
    if Over(s) {
    } else if s.inProgress {
      StreamKeeps(s, k, now, e);
    } else if s.stage != Idle {
      PumpKeeps(s, k, now, e, e.replies, current);
    } else if s.restart || !e.connected || (s.nextRetry != 0 && now < s.nextRetry) {
    } else if s.wantInstall {
      DownloadKeeps(s.(wantInstall := false, nextRetry := 0), k, now, e, e.replies, current);
    } else if s.wantCheck {
      CheckKeeps(s.(wantCheck := false, nextRetry := 0), k, now, s.slim, e, current);
    } else if AutoCheckDue(s, now) {
      CheckKeeps(s.(lastCheck := now, nextRetry := 0), k, now, true, e, current);
    }
  }

  // ── Over whole runs ────────────────────────────────────────────────────────

  lemma RequestKept(s: Ota, k: nat, tag: string, boots: Text.Word, e: Env)
    requires s.file.Some? && ParseRequest(s.file.value) == Request(tag, boots) && k < boots <= MAX_BOOTS
    ensures var t := LoadPending(s, true, e);
            && t.slim && t.pendingBoots == boots
            && t.file == (if e.saved then Some(Line(tag, boots + 1)) else s.file)
            && Counter(t.file) == (if e.saved then boots + 1 else boots)
    ensures var t := LoadPending(s, true, e);
            t.available == (if tag == "check" then "" else tag) && t.latest == s.latest
    ensures Askable(tag)
    ensures OneStage(s) ==> OneStage(LoadPending(s, true, e))
  {
    RequestIsAskable(s.file.value);
    LoadsRequest(s, tag, boots, e);
    hide LoadPending, ParseRequest, ParseTag, Line, Askable;
    RequestReadsBack(tag, boots + 1);
  }

  lemma LoadsRequest(s: Ota, tag: string, boots: Text.Word, e: Env)
    requires s.file.Some? && ParseRequest(s.file.value) == Request(tag, boots) && boots <= MAX_BOOTS
    ensures LoadPending(s, true, e) ==
            s.(pendingBoots := boots, slim := true, file := if e.saved then Some(Line(tag, boots + 1)) else s.file,
               available := if tag == "check" then "" else tag,
               wantCheck := s.wantCheck || tag == "check", wantInstall := s.wantInstall || tag != "check")
  {
    hide ParseRequest, Line;
  }

  lemma RequestIsAskable(text: string)
    ensures ParseRequest(text).Request? ==> Askable(ParseRequest(text).tag)
  {
    hide ParseTag, Strtoul;
  }

  // A recovery boot comes closer to the bound when it writes its counter
  lemma BootKeeps(s: Ota, k: nat, automatic: bool, rejected: string, readable: bool, e: Env)
    requires Ahead(s, k)
    ensures var t := LoadPending(PoweredOn(automatic, rejected, s.file), readable, e);
            Ahead(t, if !t.slim then 0 else if e.saved then k + 1 else k) && OneStage(t)
  {
    hide ParseRequest, Line;
    var p := PoweredOn(automatic, rejected, s.file);
    if s.file.Some? && readable && ParseRequest(s.file.value).Request? {
      var req := ParseRequest(s.file.value);
      if req.boots <= MAX_BOOTS {
        RequestKept(p, k, req.tag, req.boots, e);
      }
    }
  }

  // What every event keeps: the counter is ahead of the boots that wrote it
  ghost predicate Counted(w: World) {
    w.failed <= w.streak && Ahead(w.ota, w.streak - w.failed) && OneStage(w.ota)
  }

  lemma StepKeeps(w: World, ev: Event, current: string)
    requires Counted(w) && Fits(ev)
    ensures Counted(Step(w, ev, current))
  {
    match ev
    case Ticks(now, e) =>
      TickKeeps(w.ota, w.streak - w.failed, now, e, current);
      TickOneStage(w.ota, now, e, current);
    case Boots(automatic, rejected, readable, e) =>
      BootKeeps(w.ota, w.streak - w.failed, automatic, rejected, readable, e);
    case _ =>
  }

  lemma {:induction false} RunKeeps(w: World, events: seq<Event>, current: string)
    requires Counted(w) && forall ev | ev in events :: Fits(ev)
    ensures Counted(Run(w, events, current))
    decreases |events|
  {
    if events != [] {
      RunKeeps(w, events[..|events| - 1], current);
      StepKeeps(Run(w, events[..|events| - 1], current), events[|events| - 1], current);
    }
  }

  // Whatever the network, the heap, the user and the crashes do, recovery boots
  // in a row are never more than MAX_BOOTS and those of them that could not
  // write their counter. (The firmware never writes a counter of 0.)
  lemma RecoveryBounded(automatic: bool, rejected: string, file: Option<string>, events: seq<Event>, current: string)
    requires Counter(file) > 0 && forall ev | ev in events :: Fits(ev)
    ensures var w := Run(World(PoweredOn(automatic, rejected, file), 0, 0), events, current);
            && w.streak <= MAX_BOOTS + w.failed
            && ((forall ev | ev in events :: Writes(ev)) ==> w.streak <= MAX_BOOTS)
  {
    var b := World(PoweredOn(automatic, rejected, file), 0, 0);
    RunKeeps(b, events, current);
    if forall ev | ev in events :: Writes(ev) {
      NoneFailed(b, events, current);
    }
  }

  lemma {:induction false} NoneFailed(w: World, events: seq<Event>, current: string)
    requires w.failed == 0 && forall ev | ev in events :: Writes(ev)
    ensures Run(w, events, current).failed == 0
    decreases |events|
  {
    if events != [] {
      var n := |events| - 1;
      assert Writes(events[n]);
      NoneFailed(w, events[..n], current);
    }
  }

  // ── A device that crashes in every boot ────────────────────────────────────

  // Each boot with its own flash: whether the counter is written
  function CrashLoop(saves: seq<bool>, e: Env): (events: seq<Event>)
    ensures |events| == |saves|
  {
    seq(|saves|, i requires 0 <= i < |saves| => Boots(true, "", true, e.(saved := saves[i])))
  }

  function Trues(saves: seq<bool>): (n: nat)
    ensures n <= |saves|
  {
    if saves == [] then 0 else Trues(saves[..|saves| - 1]) + if saves[|saves| - 1] then 1 else 0
  }

  lemma CrashBoot(w: World, tag: string, n: nat, e: Env, current: string)
    requires Askable(tag) && 0 < n < 256 && w.ota.file == Some(Line(tag, n))
    ensures var v := Step(w, Boots(true, "", true, e), current);
            if n <= MAX_BOOTS then
              v.streak == w.streak + 1 && v.ota.file == Some(Line(tag, if e.saved then n + 1 else n)) && v.ota.slim
            else v.streak == 0 && v.ota.file == None && !v.ota.slim
  {
    hide ParseTag, Line;
    RequestReadsBack(tag, n);
  }

  // Of a device that crashes in every boot, a boot recovers exactly when fewer
  // than MAX_BOOTS boots before it wrote their counter; the others come up whole
  lemma {:induction false} CrashLoopExactly(tag: string, saves: seq<bool>, e: Env, current: string)
    requires Askable(tag) && saves != []
    ensures var w := Run(World(PoweredOn(true, "", Some(Line(tag, 1))), 0, 0), CrashLoop(saves, e), current);
            var before := Trues(saves[..|saves| - 1]);
            && (w.ota.slim <==> before < MAX_BOOTS)
            && w.streak == (if before < MAX_BOOTS then |saves| else 0)
            && w.ota.file == (if before < MAX_BOOTS then Some(Line(tag, 1 + Trues(saves))) else None)
    decreases |saves|
  {
    hide Line, LoadPending, Step, ParseRequest, ParseTag;
    var b := World(PoweredOn(true, "", Some(Line(tag, 1))), 0, 0);
    var n := |saves| - 1;
    var events := CrashLoop(saves, e);
    assert events[..n] == CrashLoop(saves[..n], e);
    var w := Run(b, events[..n], current);
    assert Run(b, events, current) == Step(w, events[n], current);
    if n > 0 {
      CrashLoopExactly(tag, saves[..n], e, current);
    }
    if n == 0 || Trues(saves[..n][..n - 1]) < MAX_BOOTS {
      CrashBoot(w, tag, 1 + Trues(saves[..n]), e.(saved := saves[n]), current);
    } else {
      NoFile(w, e.(saved := saves[n]), current);
    }
  }

  lemma NoFile(w: World, e: Env, current: string)
    requires w.ota.file == None
    ensures var v := Step(w, Boots(true, "", true, e), current); v.streak == 0 && v.ota.file == None && !v.ota.slim
  {
  }

  function Always(b: bool, n: nat): (saves: seq<bool>)
    ensures |saves| == n && forall i | 0 <= i < n :: saves[i] == b
  {
    seq(n, i => b)
  }

  lemma {:induction false} TruesOf(b: bool, n: nat)
    ensures Trues(Always(b, n)) == if b then n else 0
  {
    if n > 0 {
      TruesOf(b, n - 1);
      assert Always(b, n)[..n - 1] == Always(b, n - 1);
    }
  }

  // With every write the bound is reached: MAX_BOOTS recoveries, and the boot
  // after those comes up whole
  lemma CrashLoopEnds(tag: string, n: nat, e: Env, current: string)
    requires Askable(tag) && n <= MAX_BOOTS + 1
    ensures var w := Run(World(PoweredOn(true, "", Some(Line(tag, 1))), 0, 0), CrashLoop(Always(true, n), e), current);
            && w.streak == (if n <= MAX_BOOTS then n else 0)
            && w.ota.file == (if n <= MAX_BOOTS then Some(Line(tag, n + 1)) else None)
            && w.ota.slim == (0 < n <= MAX_BOOTS)
  {
    if n > 0 {
      hide Line, Run;
      CrashLoopExactly(tag, Always(true, n), e, current);
      assert Always(true, n)[..n - 1] == Always(true, n - 1);
      TruesOf(true, n - 1);
      TruesOf(true, n);
    }
  }

  // Without them nothing ends the recovery: the counter stays where it was
  lemma UnboundedWithoutWrites(tag: string, n: nat, e: Env, current: string)
    requires Askable(tag)
    ensures var w := Run(World(PoweredOn(true, "", Some(Line(tag, 1))), 0, 0), CrashLoop(Always(false, n), e), current);
            w.streak == n && w.ota.file == Some(Line(tag, 1))
  {
    if n > 0 {
      hide Line, Run;
      CrashLoopExactly(tag, Always(false, n), e, current);
      assert Always(false, n)[..n - 1] == Always(false, n - 1);
      TruesOf(false, n - 1);
      TruesOf(false, n);
    }
  }
}
