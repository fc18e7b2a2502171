/** One TLS session at a time (App.h, NetArbiter.h, RelayService.h,
    NtfyNotifier.h): the updater, the relay, the ntfy stream and the one-shot
    requests take turns. One step is one App::tick, in its statement order;
    the network, the heap, the clock and the panel are its inputs. */
module Session {
  import opened Text
  import opened NetArbiter
  import OtaService

  const RECONNECT_MS := 2_000
  const GRACE_MS := 60_000
  const POST_GAP := 5_000
  const RETRY_INTERVAL := 60_000
  const BACKOFF_MAX_S := 300
  const FRAMES_PER_TICK := 4

  // ── State ──────────────────────────────────────────────────────────────────

  // The settings the turns depend on: a relay deployed for this protocol, a
  // data topic, and an actuator with a command topic
  datatype Settings = Settings(relay: bool, topic: bool, commands: bool)

  datatype Relay = Relay(
    open: bool, held: bool, outdated: bool, next: Word, backoff: nat, downAt: Word,
    address: string, latest: string, addressNew: bool, latestNew: bool)

  // reply, pending and newIp: the three kinds of post that may wait
  datatype Ntfy = Ntfy(
    open: bool, held: bool, relayed: bool, waiting: bool, nextConnect: Word, backoff: nat,
    reply: bool, pending: bool, urgent: bool, newIp: bool, attempted: bool, lastAttempt: Word)

  // peak: the most TLS sessions open at once so far
  datatype State = State(
    settings: Settings, ota: OtaService.Ota, relay: Relay, ntfy: Ntfy,
    owner: Who, starved: bool, waitFrom: Word, peak: nat)

  // What the panel can do to the services, directly or through the relay
  datatype Action =
    | SetAutomatic(on: bool)
    | RequestCheck
    | RequestInstall
    | RestartStream
    | Configure(settings: Settings)

  datatype Frame =
    | Closed
    | Address(ip: string)
    | Latest(tag: string)
    | Request(actions: seq<Action>)
    | Command(refused: bool)
    | Other

  datatype Tls = NoMemory | NoClock | NoClient | Failed | Opened

  // One tick's inputs: each Wi-Fi, clock and heap reading is its own
  datatype PanelEnv = PanelEnv(actions: seq<Action>, pending: bool, urgent: bool, newIp: bool)
  datatype TurnEnv = TurnEnv(ip: bool, dns: bool, setup: bool, relayWifi: bool, heap: bool, millis: Word)
  datatype OnceEnv = OnceEnv(tls: Tls, posted: bool, deployed: bool)
  datatype StreamEnv = StreamEnv(wifi: bool, tls: Tls, up: bool, reply: bool, refused: bool, lost: bool)
  // code: the answer to the upgrade request, over a connection that opened
  datatype RelayEnv = RelayEnv(wifi: bool, tls: Tls, code: nat, frames: seq<Frame>, lost: bool, millis: Word)
  datatype Env = Env(now: Word, current: string, panel: PanelEnv, turn: TurnEnv, once: OnceEnv,
                     stream: StreamEnv, ota: OtaService.Env, relay: RelayEnv)

  // At power on: nothing open, nothing heard
  const NEW_RELAY := Relay(false, false, false, 0, 5, 0, "", "", false, false)
  const NEW_NTFY := Ntfy(false, false, false, false, 0, 5, false, false, false, false, false, 0)

  function Started(settings: Settings, ota: OtaService.Ota): State {
    State(settings, ota, NEW_RELAY, NEW_NTFY, NONE, false, 0, 0)
  }

  // ── Sessions ───────────────────────────────────────────────────────────────

  function One(b: bool): nat {
    if b then 1 else 0
  }

  function Count(s: State): nat {
    One(OtaService.Active(s.ota)) + One(s.relay.open) + One(s.ntfy.open)
  }

  function Peak(s: State, n: nat): State {
    s.(peak := if n > s.peak then n else s.peak)
  }

  // The turn and the wait are as they were
  predicate SameTurn(s: State, t: State) {
    t.owner == s.owner && t.starved == s.starved && t.waitFrom == s.waitFrom
  }

  // A handshake takes its memory whether or not it succeeds
  function Attempt(s: State, tls: Tls): (t: State)
    ensures t == s.(peak := t.peak)
    ensures s.peak <= t.peak && t.peak <= if s.peak > Count(s) + 1 then s.peak else Count(s) + 1
    ensures tls.Opened? ==> t.peak >= Count(s) + 1
  {
    if tls.Opened? || tls.Failed? then Peak(s, Count(s) + 1) else s
  }

  // ── The panel ──────────────────────────────────────────────────────────────

  function CloseStream(n: Ntfy): Ntfy {
    n.(open := false, waiting := false)
  }

  function Act(s: State, a: Action): (t: State)
    ensures SameTurn(s, t)
    ensures t.peak == s.peak && t.relay == s.relay
    ensures OtaService.Active(t.ota) == OtaService.Active(s.ota) && (t.ntfy.open ==> s.ntfy.open)
    ensures t.ota.slim == s.ota.slim && t.ota.sessions == s.ota.sessions
  {
    match a
    case SetAutomatic(on) => s.(ota := s.ota.(automatic := on))
    case RequestCheck => s.(ota := OtaService.RequestCheck(s.ota))
    case RequestInstall => s.(ota := OtaService.RequestInstall(s.ota))
    case RestartStream => s.(ntfy := CloseStream(s.ntfy))
    case Configure(settings) => s.(settings := settings)
  }

  function Acts(s: State, actions: seq<Action>): (t: State)
    ensures SameTurn(s, t)
    ensures t.peak == s.peak && t.relay == s.relay
    ensures OtaService.Active(t.ota) == OtaService.Active(s.ota) && (t.ntfy.open ==> s.ntfy.open)
    ensures t.ota.slim == s.ota.slim && t.ota.sessions == s.ota.sessions
  {
    if actions == [] then s else Act(Acts(s, actions[..|actions| - 1]), actions[|actions| - 1])
  }

  // ── The relay ──────────────────────────────────────────────────────────────

  function CloseRelay(r: Relay, millis: Word): Relay {
    r.(downAt := if r.open then millis else r.downAt, open := false)
  }

  function HoldRelay(r: Relay, on: bool, millis: Word): Relay {
    var h := r.(held := on);
    if on then CloseRelay(h, millis) else h
  }

  predicate Carries(s: State, now: Word) {
    s.relay.open || (s.settings.relay && Since(now, s.relay.downAt) < GRACE_MS)
  }

  predicate RelayWants(s: State, wifi: bool, now: Word) {
    s.settings.relay && wifi && (s.relay.open || Reached(now, s.relay.next))
  }

  predicate KnowsAddress(s: State) {
    s.relay.open && s.relay.address != ""
  }

  function DropRelay(r: Relay, now: Word, ms: nat, millis: Word): Relay {
    CloseRelay(r, millis).(next := Later(now, ms))
  }

  function FailRelay(r: Relay, now: Word, millis: Word): Relay {
    DropRelay(r, now, r.backoff * 1000, millis).(
      backoff := if r.backoff * 2 > BACKOFF_MAX_S then BACKOFF_MAX_S else r.backoff * 2)
  }

  function RelayAfter(r: Relay, now: Word, e: RelayEnv): (q: Relay)
    requires !r.open
    ensures q.open == (e.tls.Opened? && e.code == 101)
  {
    if e.tls.NoClock? then r.(next := Later(now, RECONNECT_MS))
    else if !e.tls.Opened? then FailRelay(r, now, e.millis)
    else if e.code != 101 then FailRelay(r.(outdated := e.code == 426), now, e.millis)
    else r.(open := true, address := "", backoff := 5)
  }

  function ConnectRelay(s: State, now: Word, e: RelayEnv): (t: State)
    requires !s.relay.open
    ensures t.ota == s.ota && t.ntfy == s.ntfy
    ensures s.peak <= t.peak && t.peak <= if s.peak > Count(s) + 1 then s.peak else Count(s) + 1
    ensures t.relay.open ==> t.peak >= Count(t)
  {
    Attempt(s, e.tls).(relay := RelayAfter(s.relay, now, e))
  }

  // The frames read in one tick; a closed connection ends them
  function Frames(s: State, frames: seq<Frame>, now: Word, millis: Word): (t: State)
    ensures SameTurn(s, t)
    ensures t.peak == s.peak && (t.relay.open ==> s.relay.open)
    ensures OtaService.Active(t.ota) == OtaService.Active(s.ota) && (t.ntfy.open ==> s.ntfy.open)
    decreases frames
  {
    if frames == [] then s
    else
      match frames[0]
      case Closed => s.(relay := CloseRelay(s.relay, millis).(next := Later(now, RECONNECT_MS)))
      case Address(ip) => Frames(s.(relay := s.relay.(address := ip, addressNew := true)), frames[1..], now, millis)
      case Latest(tag) => Frames(s.(relay := s.relay.(latest := tag, latestNew := true)), frames[1..], now, millis)
      case Request(actions) => Frames(Acts(s, actions), frames[1..], now, millis)
      case Command(refused) =>
        Frames(s.(ntfy := s.ntfy.(reply := s.ntfy.reply || (refused && s.settings.commands))), frames[1..], now, millis)
      case Other => Frames(s, frames[1..], now, millis)
  }

  function PumpRelay(s: State, now: Word, e: RelayEnv): (t: State)
    ensures SameTurn(s, t)
    ensures t.peak == s.peak && (t.relay.open ==> s.relay.open)
    ensures OtaService.Active(t.ota) == OtaService.Active(s.ota) && (t.ntfy.open ==> s.ntfy.open)
  {
    var q := Frames(s, if |e.frames| > FRAMES_PER_TICK then e.frames[..FRAMES_PER_TICK] else e.frames, now, e.millis);
    if q.relay.open && e.lost then q.(relay := DropRelay(q.relay, now, RECONNECT_MS, e.millis)) else q
  }

  function TickRelay(s: State, now: Word, e: RelayEnv): (t: State)
    ensures SameTurn(s, t)
    ensures s.peak <= t.peak && t.peak <= if s.peak > Count(s) + 1 then s.peak else Count(s) + 1
    ensures s.relay.open || s.relay.held ==> t.peak == s.peak
    ensures (t.relay.open ==> !s.relay.held) && (t.ntfy.open ==> s.ntfy.open)
  {
    if s.relay.held || !s.settings.relay || !e.wifi then s.(relay := CloseRelay(s.relay, e.millis))
    else if s.relay.open then PumpRelay(s, now, e)
    else if Reached(now, s.relay.next) then ConnectRelay(s, now, e)
    else s
  }

  // ── ntfy ───────────────────────────────────────────────────────────────────

  predicate PostDue(s: State, now: Word) {
    s.settings.topic && (s.ntfy.reply || s.ntfy.pending || s.ntfy.newIp) &&
    (!s.ntfy.attempted ||
     ((s.ntfy.reply || (s.ntfy.pending && s.ntfy.urgent)) && Since(now, s.ntfy.lastAttempt) >= POST_GAP) ||
     Since(now, s.ntfy.lastAttempt) >= RETRY_INTERVAL)
  }

  // Through the relay while it is up; otherwise over a session of its own
  function Publish(s: State, now: Word, e: OnceEnv): (t: State)
    ensures t.ota == s.ota && t.relay == s.relay && t.ntfy.open == s.ntfy.open
    ensures s.peak <= t.peak && t.peak <= if s.peak > Count(s) + 1 then s.peak else Count(s) + 1
    ensures s.relay.open ==> t.peak == s.peak
  {
    var sent := s.relay.open || (e.tls.Opened? && e.posted);
    var q := if s.relay.open then s else Attempt(s, e.tls);
    var n := q.ntfy.(attempted := true, lastAttempt := now);
    q.(ntfy :=
      if n.reply then n.(reply := !sent)
      else if n.pending then n.(pending := !sent, urgent := n.urgent && !sent)
      else n.(newIp := !sent))
  }

  function RetryStream(n: Ntfy, now: Word, ms: nat): Ntfy {
    n.(waiting := true, nextConnect := Later(now, ms))
  }

  function FailStream(n: Ntfy, now: Word): Ntfy {
    RetryStream(CloseStream(n), now, n.backoff * 1000).(
      backoff := if n.backoff * 2 > BACKOFF_MAX_S then BACKOFF_MAX_S else n.backoff * 2)
  }

  function StreamAfter(n: Ntfy, now: Word, tls: Tls): (m: Ntfy)
    requires !n.open
    ensures m.open == tls.Opened?
  {
    if tls.NoClock? then RetryStream(n, now, RECONNECT_MS)
    else if tls.Opened? then n.(open := true)
    else FailStream(n, now)
  }

  function ConnectStream(s: State, now: Word, e: StreamEnv): (t: State)
    requires !s.ntfy.open
    ensures t.ota == s.ota && t.relay == s.relay
    ensures s.peak <= t.peak && t.peak <= if s.peak > Count(s) + 1 then s.peak else Count(s) + 1
    ensures t.ntfy.open ==> t.peak >= Count(t)
  {
    Attempt(s, e.tls).(ntfy := StreamAfter(s.ntfy, now, e.tls))
  }

  // What the open stream brought
  function ReadStream(n: Ntfy, now: Word, e: StreamEnv): Ntfy {
    if e.refused then FailStream(n, now)
    else
      var r := n.(reply := n.reply || e.reply, backoff := if e.up then 5 else n.backoff);
      if e.lost then RetryStream(CloseStream(r), now, RECONNECT_MS) else r
  }

  function TickStream(s: State, now: Word, e: StreamEnv): (t: State)
    ensures t.ota == s.ota && t.relay == s.relay
    ensures s.peak <= t.peak && t.peak <= if s.peak > Count(s) + 1 then s.peak else Count(s) + 1
    ensures s.ntfy.open ==> t.peak == s.peak
  {
    if s.ntfy.held || s.ntfy.relayed || !s.settings.commands || !e.wifi then s.(ntfy := CloseStream(s.ntfy))
    else if s.ntfy.open then s.(ntfy := ReadStream(s.ntfy, now, e))
    else if s.ntfy.waiting && !Reached(now, s.ntfy.nextConnect) then s
    else ConnectStream(s, now, e)
  }

  function TickNtfy(s: State, e: Env): (t: State)
    ensures t.ota == s.ota && t.relay == s.relay
    ensures s.peak <= t.peak && t.peak <= if s.peak > Count(s) + 1 then s.peak else Count(s) + 1
  {
    if PostDue(s, e.now) then Publish(s.(ntfy := CloseStream(s.ntfy)), e.now, e.once)
    else TickStream(s, e.now, e.stream)
  }

  // ── The arbiter ────────────────────────────────────────────────────────────

  function Grant(s: State, w: Who): State {
    if w != s.owner then s.(owner := w, starved := false) else s
  }

  predicate Running(s: State, w: Who) {
    (w == OTA && OtaService.Active(s.ota)) || (w == RELAY && s.relay.open) || (w == STREAM && s.ntfy.open)
  }

  // Whether the turn may go on, and the wait for the heap
  function Ready(s: State, w: Who, heap: bool, now: Word): (bool, State) {
    var (go, wait) := Waited(Wait(s.starved, s.waitFrom), Running(s, w) || heap, now);
    (go, s.(starved := wait.starved, waitFrom := wait.from))
  }

  // ── One tick ───────────────────────────────────────────────────────────────

  function Begin(s: State, panel: PanelEnv): (b: State)
    ensures b.peak == s.peak && b.relay == s.relay && OtaService.Active(b.ota) == OtaService.Active(s.ota)
    ensures b.ntfy.open ==> s.ntfy.open
  {
    var p := if s.ota.slim then s else Acts(s, panel.actions);
    p.(ntfy := p.ntfy.(pending := panel.pending, urgent := panel.urgent, newIp := panel.newIp))
  }

  // relay.takeIP and relay.takeLatest, and what they offer
  function Offers(s: State, e: Env): State {
    var r := s.relay.(addressNew := false, latestNew := false);
    if s.relay.latestNew && s.relay.latest != "" then
      s.(relay := r, ota := OtaService.OfferLatest(s.ota, s.relay.latest, e.now, e.current))
    else s.(relay := r)
  }

  function If(b: bool, w: Who): set<Who> {
    if b then {w} else {}
  }

  // A post while the relay is up goes out at once, through it
  function QuickPost(s: State, e: Env): State {
    if !s.ota.slim && PostDue(s, e.now) && s.relay.open then TickNtfy(s, e) else s
  }

  // Who else wants the network: post says whether a post is due and cannot go
  // through the relay, both as they were before QuickPost
  function OtherWants(s: State, post: bool, e: Env): set<Who> {
    if s.ota.slim then {}
    else
      If(e.turn.ip && !KnowsAddress(s), IP) + If(e.turn.dns, DNS) + If(e.turn.setup, SETUP) + If(post, POST) +
      If(RelayWants(s, e.turn.relayWifi, e.now), RELAY) + If(s.settings.commands && !Carries(s, e.now), STREAM)
  }

  // Everyone but the owner lets go
  function Holds(s: State, w: Who, e: Env): State {
    var q := s.(relay := HoldRelay(s.relay, w != RELAY, e.turn.millis),
                ntfy := (if w != STREAM then CloseStream(s.ntfy) else s.ntfy).(held := w != STREAM));
    var carried := Carries(q, e.now);
    q.(ntfy := (if carried then CloseStream(q.ntfy) else q.ntfy).(relayed := carried))
  }

  // The owner's turn, but for the updater and the relay
  function Serve(s: State, w: Who, e: Env): State {
    match w
    case IP => Attempt(s, e.once.tls)
    case DNS => Attempt(s, e.once.tls)
    case SETUP =>
      var q := Attempt(s, e.once.tls);
      if e.once.deployed then q.(relay := CloseRelay(q.relay, e.turn.millis).(next := e.turn.millis, backoff := 5, outdated := false))
      else q
    case POST => TickNtfy(s, e)
    case STREAM => TickNtfy(s, e)
    case _ => s
  }

  // The updater's sessions follow one another: at most one beside the others
  function TickOta(s: State, e: Env): State {
    var o := OtaService.Tick(s.ota, e.now, e.ota, e.current);
    if o.sessions > s.ota.sessions then Peak(s.(ota := o), 1 + One(s.relay.open) + One(s.ntfy.open)) else s.(ota := o)
  }

  // The turn as far as the updater: whether it goes on, and what it leaves
  function Granted(s: State, w: Who, e: Env): (bool, State) {
    var h := Holds(Grant(s, w), w, e);
    var (ready, r) := if w == NONE then (false, h) else Ready(h, w, e.turn.heap, e.now);
    (ready, if ready then Serve(r, w, e) else r)
  }

  function Turn(s: State, w: Who, e: Env): State {
    var (ready, served) := Granted(s, w, e);
    var updated := if w != OTA || ready then TickOta(served, e) else served;
    if w != RELAY || ready then TickRelay(updated, e.now, e.relay) else updated
  }

  // As it is: the updater is asked before the relay's news reaches it
  function Tick(s: State, e: Env): State {
    var b := Begin(s, e.panel);
    var asks := OtaService.WantsNet(b.ota, e.now);
    var o := Offers(b, e);
    var post := PostDue(o, e.now) && !o.relay.open;
    var q := QuickPost(o, e);
    Turn(q, First(If(asks, OTA) + OtherWants(q, post, e), 0), e)
  }

  // The news first
  function TickNewsFirst(s: State, e: Env): State {
    var o := Offers(Begin(s, e.panel), e);
    var asks := OtaService.WantsNet(o.ota, e.now);
    var post := PostDue(o, e.now) && !o.relay.open;
    var q := QuickPost(o, e);
    Turn(q, First(If(asks, OTA) + OtherWants(q, post, e), 0), e)
  }
}
