/** The updater's state machine (OTAService.h): when it asks for the network,
    its check and download over one TLS client, its retries, and the recovery
    request it keeps in flash across restarts. The network's answers, the heap
    and the flash are inputs of each tick. */
module OtaService {
  import opened Text

  const FIRST_CHECK := 20_000
  const CHECK_INTERVAL := 3_600_000
  const DEADLINE := 82_800_000
  const RETRY_MS := 10_000
  const RETRY_MAX_MS := 20_000
  const MAX_TRIES := 4
  const MAX_BOOTS := 3
  const MAX_REDIRECTS := 5
  const TAG_LEN := 15   // characters of a tag, without the terminator

  // ── Tags ───────────────────────────────────────────────────────────────────

  // "v42" is 42; any other format is -1
  function ParseTag(tag: string): (n: int)
    ensures n >= -1
  {
    if |tag| < 2 || tag[0] != 'v' then -1 else TagDigits(tag[1..], 0)
  }

  function TagDigits(d: string, n: nat): (v: int)
    ensures v >= -1
    decreases d
  {
    if d == "" then n
    else if !IsDigit(d[0]) || n > 100_000_000 then -1
    else TagDigits(d[1..], n * 10 + DigitValue(d[0]))
  }

  predicate IsNewer(latest: string, current: string) {
    ParseTag(latest) >= 0 && (ParseTag(current) < 0 || ParseTag(latest) > ParseTag(current))
  }

  lemma {:induction false} TagDigitsAll(d: string, n: nat)
    requires TagDigits(d, n) >= 0
    ensures AllDigits(d)
  {
    if d != "" {
      TagDigitsAll(d[1..], n * 10 + DigitValue(d[0]));
      assert forall i :: 1 <= i < |d| ==> d[i] == d[1..][i - 1];
    }
  }

  // ── State and inputs ───────────────────────────────────────────────────────

  datatype Stage = Idle | CheckHeaders | CheckBody | DownloadHeaders

  // restart: WiFiService has a restart scheduled; file: /ota.pending;
  // sessions: TLS connections begun since power-on
  datatype Ota = Ota(
    inProgress: bool, automatic: bool, wantCheck: bool, wantInstall: bool, slim: bool,
    available: string, rejected: string, latest: string,
    lastCheck: Word, nextRetry: Word, retryDelay: nat, tries: nat, pendingBoots: nat,
    stage: Stage, checkInstall: bool, hop: nat,
    restart: bool, file: Option<string>, sessions: nat)

  // At power on, before the file is looked at
  function PoweredOn(automatic: bool, rejected: string, file: Option<string>): Ota {
    Ota(false, automatic, false, false, false, "", rejected, "", 0, 0, 0, 0, 0, Idle, false, 0, false, file, 0)
  }

  // One answer of the network: to a connection begun, or read by the parsers
  datatype Reply =
    | Refused                                    // no TLS client, or no connection
    | Quiet                                      // nothing complete yet
    | Broken                                     // closed, stalled or invalid
    | Headers(code: nat, length: int, location: bool)  // location: one that can be followed
    | Tag(name: string)

  // What a tick of a download in progress finds
  datatype Stream = Waiting | Chunk | Failed | Ended(accepted: bool)

  datatype Env = Env(
    connected: bool,       // Wi-Fi
    heapCheck: bool,       // _tlsReady before the check
    heapDownload: bool,    // _tlsReady and the path's malloc before the download
    room: bool,            // Update.begin
    saved: bool,           // a write of /ota.pending succeeds
    stream: Stream,
    replies: seq<Reply>)

  function Active(s: Ota): bool {
    s.inProgress || s.stage != Idle
  }

  function Busy(s: Ota): bool {
    Active(s) || s.wantCheck || s.wantInstall
  }

  // While a download streams, nothing waits in the parsers
  predicate OneStage(s: Ota) {
    s.inProgress ==> s.stage.Idle?
  }

  function WantsNet(s: Ota, now: Word): bool {
    if Busy(s) then true
    else if !s.automatic || now >= DEADLINE then false
    else if s.lastCheck == 0 then now >= FIRST_CHECK
    else Since(now, s.lastCheck) >= CHECK_INTERVAL
  }

  function OfferLatest(s: Ota, tag: string, now: Word, current: string): Ota {
    if Busy(s) || ParseTag(tag) < 0 then s
    else s.(lastCheck := if IsNewer(tag, current) then 0 else now)
  }

  function RequestCheck(s: Ota): Ota {
    if Active(s) || s.wantCheck then s
    else s.(wantInstall := false, nextRetry := 0, wantCheck := true)
  }

  function RequestInstall(s: Ota): Ota {
    if Active(s) || s.available == "" then s
    else s.(wantCheck := false, nextRetry := 0, wantInstall := true)
  }

  predicate SameLink(t: Ota, s: Ota) {
    t.sessions == s.sessions && t.stage == s.stage && t.inProgress == s.inProgress
  }

  // ── The recovery request in flash ──────────────────────────────────────────

  function Line(tag: string, boots: nat): string {
    tag + " " + Decimal(boots)
  }

  function ClearPending(s: Ota): (t: Ota)
    ensures SameLink(t, s)
  {
    s.(file := None, pendingBoots := 0, slim := false)
  }

  function SavePending(s: Ota, tag: string, boots: nat, e: Env): (t: Ota)
    ensures SameLink(t, s)
  {
    if e.saved then s.(file := Some(Line(tag, boots))) else s
  }

  function PersistAndReboot(s: Ota, e: Env): (t: Ota)
    ensures SameLink(t, s)
  {
    if s.pendingBoots + 1 > MAX_BOOTS then
      ClearPending(s).(wantInstall := false, wantCheck := false, restart := true)
    else
      SavePending(s, s.available, s.pendingBoots + 1, e).(restart := true)
  }

  function RecoverHeap(s: Ota, e: Env): (t: Ota)
    ensures SameLink(t, s)
  {
    PersistAndReboot(if s.available == "" then s.(available := "check") else s, e)
  }

  // ── Retries ────────────────────────────────────────────────────────────────

  // The tries are over: after an install, the recovery
  function GivenUp(s: Ota, install: bool, e: Env): (t: Ota)
    ensures SameLink(t, s)
  {
    var t := s.(tries := 0, retryDelay := 0, nextRetry := 0);
    if install then PersistAndReboot(t, e) else t
  }

  // Later, and each time twice as late up to a limit
  function NextDelay(delay: nat): nat {
    var double := if delay == 0 then RETRY_MS else delay * 2;
    if double > RETRY_MAX_MS then RETRY_MAX_MS else double
  }

  function Again(s: Ota, now: Word, install: bool): (t: Ota)
    ensures SameLink(t, s)
  {
    var delay := NextDelay(s.retryDelay);
    var t := s.(tries := s.tries + 1, retryDelay := delay, nextRetry := Later(now, delay));
    if install then t.(wantInstall := true) else t.(wantCheck := true)
  }

  function ScheduleRetry(s: Ota, now: Word, install: bool, e: Env): (t: Ota)
    ensures SameLink(t, s)
  {
    if s.tries + 1 >= MAX_TRIES then GivenUp(s, install, e) else Again(s, now, install)
  }

  function CheckFailed(s: Ota, now: Word, e: Env): (t: Ota)
    ensures t.sessions == s.sessions && t.stage.Idle? && t.inProgress == s.inProgress
  {
    var q := s.(stage := Idle);
    if q.restart then q else ScheduleRetry(q, now, false, e)
  }

  function DownloadFailed(s: Ota, now: Word, e: Env): (t: Ota)
    ensures t.sessions == s.sessions && t.stage.Idle? && t.inProgress == s.inProgress
  {
    var q := s.(stage := Idle);
    if q.restart then q else ScheduleRetry(q, now, true, e)
  }

  // ── Check and download ─────────────────────────────────────────────────────

  predicate Redirect(code: nat) {
    code in {301, 302, 303, 307, 308}
  }

  // The update is over: out of recovery, if it was there
  function Settle(s: Ota): (t: Ota)
    ensures SameLink(t, s)
  {
    ClearPending(s.(tries := 0, retryDelay := 0)).(restart := s.restart || s.slim)
  }

  function CheckNow(s: Ota, now: Word, install: bool, e: Env, current: string): (t: Ota)
    ensures !s.inProgress ==> OneStage(t)
    ensures t.sessions >= s.sessions
    ensures t.sessions == s.sessions ==> t.stage.Idle? && t.inProgress == s.inProgress
  {
    var q := s.(checkInstall := install, latest := "");
    if !e.heapCheck then CheckFailed(RecoverHeap(q, e), now, e) else CheckConnect(q, now, e, current)
  }

  function CheckConnect(s: Ota, now: Word, e: Env, current: string): (t: Ota)
    ensures !s.inProgress ==> OneStage(t)
    ensures t.sessions > s.sessions
  {
    var c := s.(sessions := s.sessions + 1);
    if e.replies != [] && e.replies[0].Refused? then CheckFailed(c, now, e)
    else Pump(c.(stage := CheckHeaders), now, e, e.replies, current)
  }

  // The replies that already arrived, through the stage they belong to
  function Pump(s: Ota, now: Word, e: Env, r: seq<Reply>, current: string): (t: Ota)
    ensures !s.inProgress ==> OneStage(t)
    ensures t.sessions >= s.sessions
    decreases |r|, 1
  {
    if r == [] || r[0].Quiet? then s
    else match s.stage
      case Idle => s
      case CheckHeaders =>
        if r[0].Headers? && r[0].code == 200 then Pump(s.(stage := CheckBody, latest := ""), now, e, r[1..], current)
        else CheckFailed(s, now, e)
      case CheckBody =>
        if r[0].Tag? && r[0].name != "" then AfterCheck(s.(stage := Idle, latest := r[0].name), now, e, r[1..], current)
        else CheckFailed(s, now, e)
      case DownloadHeaders => OnDownloadHeaders(s, now, e, r, current)
  }

  function AfterCheck(s: Ota, now: Word, e: Env, r: seq<Reply>, current: string): (t: Ota)
    ensures !s.inProgress ==> OneStage(t)
    ensures t.sessions >= s.sessions
    decreases |r|, 4
  {
    if !IsNewer(s.latest, current) then Settle(s.(available := ""))
    else
      var q := s.(available := s.latest);
      if !q.checkInstall then q
      else if q.available == q.rejected then Settle(q)
      else Download(q, now, e, r, current)
  }

  function Download(s: Ota, now: Word, e: Env, r: seq<Reply>, current: string): (t: Ota)
    ensures !s.inProgress ==> OneStage(t)
    ensures t.sessions >= s.sessions
    ensures t.sessions == s.sessions ==> t.stage.Idle? && t.inProgress == s.inProgress
    decreases |r|, 3
  {
    if !e.heapDownload then DownloadFailed(RecoverHeap(s, e), now, e)
    else DownloadConnect(s.(hop := 0), now, e, r, current)
  }

  function DownloadConnect(s: Ota, now: Word, e: Env, r: seq<Reply>, current: string): (t: Ota)
    ensures !s.inProgress ==> OneStage(t)
    ensures t.sessions > s.sessions
    decreases |r|, 2
  {
    var c := s.(sessions := s.sessions + 1);
    if r != [] && r[0].Refused? then DownloadFailed(c, now, e)
    else Pump(c.(stage := DownloadHeaders), now, e, r, current)
  }

  function OnDownloadHeaders(s: Ota, now: Word, e: Env, r: seq<Reply>, current: string): (t: Ota)
    requires r != []
    ensures t.sessions >= s.sessions
    ensures !s.inProgress ==> OneStage(t)
    decreases |r|, 0
  {
    if !r[0].Headers? then DownloadFailed(s, now, e)
    else if Redirect(r[0].code) then
      if !r[0].location then DownloadFailed(s, now, e)
      else if s.hop + 1 >= MAX_REDIRECTS then DownloadFailed(s.(hop := s.hop + 1), now, e)
      else DownloadConnect(s.(hop := s.hop + 1), now, e, r[1..], current)
    else if r[0].code != 200 || r[0].length == 0 || !e.room then DownloadFailed(s, now, e)
    else s.(stage := Idle, inProgress := true)
  }

  // ── A download in progress ─────────────────────────────────────────────────

  function Complete(s: Ota, accepted: bool): Ota {
    if accepted then Accepted(s) else Settle(s.(rejected := s.available)).(inProgress := false)
  }

  function Accepted(s: Ota): Ota {
    ClearPending(s).(tries := 0, retryDelay := 0, restart := true, inProgress := false)
  }

  function StreamChunk(s: Ota, now: Word, e: Env): Ota {
    if !e.connected || e.stream.Failed? then ScheduleRetry(s.(inProgress := false), now, true, e)
    else if e.stream.Ended? then Complete(s, e.stream.accepted)
    else s
  }

  lemma TickOneStage(s: Ota, now: Word, e: Env, current: string)
    requires OneStage(s)
    ensures OneStage(Tick(s, now, e, current))
  {
  }

  // ── A tick ─────────────────────────────────────────────────────────────────

  function Tick(s: Ota, now: Word, e: Env, current: string): Ota {
    if s.inProgress then StreamChunk(s, now, e)
    else if s.stage != Idle then Pump(s, now, e, e.replies, current)
    else if s.restart || !e.connected || (s.nextRetry != 0 && now < s.nextRetry) then s
    else Start(s, now, e, current)
  }

  function Start(s: Ota, now: Word, e: Env, current: string): Ota {
    if s.wantInstall then Download(s.(wantInstall := false, nextRetry := 0), now, e, e.replies, current)
    else if s.wantCheck then CheckNow(s.(wantCheck := false, nextRetry := 0), now, s.slim, e, current)
    else if !AutoCheckDue(s, now) then s
    else CheckNow(s.(lastCheck := now, nextRetry := 0), now, true, e, current)
  }

  function AutoCheckDue(s: Ota, now: Word): bool {
    s.automatic && now < DEADLINE &&
    if s.lastCheck == 0 then now >= FIRST_CHECK else Since(now, s.lastCheck) >= CHECK_INTERVAL
  }

  // ── Sessions and the network turn ──────────────────────────────────────────

  // The tick begins a connection only when the service asked for the network,
  // and it is on the network without one only if it was
  lemma TickNeedsTurn(s: Ota, now: Word, e: Env, current: string)
    ensures var t := Tick(s, now, e, current);
            && t.sessions >= s.sessions
            && (t.sessions > s.sessions ==> WantsNet(s, now))
            && (t.sessions == s.sessions && Active(t) ==> Active(s))
  {
  }

  // Nothing asked for and no check due, or a restart or a retry to wait for
  predicate CanBegin(s: Ota, now: Word) {
    AutoCheckDue(s, now) && !s.restart && (s.nextRetry == 0 || now >= s.nextRetry)
  }

  lemma TickIdles(s: Ota, now: Word, e: Env, current: string)
    requires !Busy(s) && !CanBegin(s, now)
    ensures Tick(s, now, e, current) == s
  {
  }
}
