/** What the turns keep: never two TLS sessions at once, but for the tick in
    which the relay brings the news of a release after the updater was asked
    whether it wants the network. */
module SessionSafety {
  import opened Text
  import opened NetArbiter
  import OtaService
  import opened Session

  function Max(a: nat, b: nat): nat {
    if a > b then a else b
  }

  // ── Parts of a tick ────────────────────────────────────────────────────────

  // Only w may still have a session, besides the updater
  ghost predicate Alone(s: State, w: Who) {
    && s.relay.held == (w != RELAY) && s.ntfy.held == (w != STREAM)
    && (s.relay.open ==> w == RELAY) && (s.ntfy.open ==> w == STREAM)
    && (OtaService.Active(s.ota) ==> w == OTA)
  }

  lemma HoldsLeave(s: State, w: Who, e: Env)
    ensures var h := Holds(Grant(s, w), w, e);
            && h.ota == s.ota && h.peak == s.peak && h.settings == s.settings
            && ((OtaService.Active(s.ota) ==> w == OTA) ==> Alone(h, w))
            && (h.relay.open <==> s.relay.open && w == RELAY)
            && (h.ntfy.open ==> s.ntfy.open)
  {
  }

  lemma NtfyLeaves(s: State, w: Who, e: Env)
    requires Alone(s, w) && (w == POST || w == STREAM)
    ensures var t := TickNtfy(s, e);
            t.ota == s.ota && t.relay == s.relay && t.settings == s.settings && t.peak <= Max(s.peak, 1) && Alone(t, w)
  {
    if !PostDue(s, e.now) {
      StreamLeaves(s, w, e.now, e.stream);
    }
  }

  lemma StreamLeaves(s: State, w: Who, now: Word, e: StreamEnv)
    requires Alone(s, w) && (w == POST || w == STREAM)
    ensures var t := TickStream(s, now, e);
            t.settings == s.settings && t.peak <= Max(s.peak, 1) && Alone(t, w)
  {
  }

  lemma ServeLeaves(s: State, w: Who, e: Env)
    requires Alone(s, w)
    ensures var t := Serve(s, w, e);
            && t.ota == s.ota && t.settings == s.settings && t.peak <= Max(s.peak, 1) && Alone(t, w)
            && t.relay.open == s.relay.open
  {
    if w == POST || w == STREAM {
      NtfyLeaves(s, w, e);
    }
  }

  // The updater on its turn, or with nothing to begin
  lemma OtaLeaves(s: State, w: Who, e: Env)
    requires Alone(s, w)
    requires w != OTA ==> OtaService.Tick(s.ota, e.now, e.ota, e.current) == s.ota
    ensures var t := TickOta(s, e);
            Alone(t, w) && t.peak <= Max(s.peak, 1) && t.relay == s.relay && t.ntfy == s.ntfy && t.settings == s.settings
  {
  }

  lemma RelayLeaves(s: State, w: Who, e: Env)
    requires Alone(s, w)
    ensures var t := TickRelay(s, e.now, e.relay); Count(t) <= 1 && t.peak <= Max(s.peak, 1)
  {
  }

  // What a turn leaves to the updater
  lemma GrantedLeaves(s: State, w: Who, e: Env)
    requires OtaService.Active(s.ota) ==> w == OTA
    ensures var (ready, t) := Granted(s, w, e);
            t.ota == s.ota && t.settings == s.settings && t.peak <= Max(s.peak, 1) && Alone(t, w)
  {
    HoldsLeave(s, w, e);
    var h := Holds(Grant(s, w), w, e);
    var (ready, r) := if w == NONE then (false, h) else Ready(h, w, e.turn.heap, e.now);
    ServeLeaves(r, w, e);
  }

  // A turn given to the updater when it wants the network, or while it has
  // nothing to begin, keeps one session at a time
  lemma TurnSafe(s: State, w: Who, e: Env)
    requires w == OTA || (!OtaService.Busy(s.ota) && !OtaService.CanBegin(s.ota, e.now))
    ensures var t := Turn(s, w, e); Count(t) <= 1 && t.peak <= Max(s.peak, 1)
  {
    GrantedLeaves(s, w, e);
    var (ready, served) := Granted(s, w, e);
    if w != OTA {
      OtaService.TickIdles(s.ota, e.now, e.ota, e.current);
    }
    OtaLeaves(served, w, e);
    RelayLeaves(if w != OTA || ready then TickOta(served, e) else served, w, e);
  }

  // ── One tick ───────────────────────────────────────────────────────────────

  // The updater was not asking, and with the relay's news it would begin at
  // once: a newer release, arrived since the last tick, between two checks
  ghost predicate LateNews(b: State, now: Word, current: string) {
    && b.relay.latestNew && OtaService.IsNewer(b.relay.latest, current)
    && !OtaService.WantsNet(b.ota, now)
    && b.ota.automatic && OtaService.FIRST_CHECK <= now < OtaService.DEADLINE
    && !b.ota.restart && (b.ota.nextRetry == 0 || now >= b.ota.nextRetry)
  }

  lemma NewsMakesDue(b: State, e: Env)
    ensures var o := Offers(b, e);
            && o.peak == b.peak && o.ntfy == b.ntfy && o.settings == b.settings && o.relay.open == b.relay.open
            && OtaService.Active(o.ota) == OtaService.Active(b.ota)
            && OtaService.Busy(o.ota) == OtaService.Busy(b.ota)
            && (!OtaService.WantsNet(b.ota, e.now) ==>
                 (OtaService.CanBegin(o.ota, e.now) <==> LateNews(b, e.now, e.current)))
  {
  }

  lemma QuickPostLeaves(o: State, e: Env)
    ensures var q := QuickPost(o, e);
            q.ota == o.ota && q.relay == o.relay && q.settings == o.settings && q.peak == o.peak
  {
  }

  lemma OtaFirst(wants: set<Who>)
    ensures First(wants, 0) == OTA <==> OTA in wants
  {
    if OTA !in wants {
      FirstIn(wants, 1);
    }
  }

  lemma {:induction false} FirstIn(wants: set<Who>, i: nat)
    requires i <= |ORDER|
    ensures First(wants, i) == NONE || exists k :: i <= k < |ORDER| && First(wants, i) == ORDER[k]
    decreases |ORDER| - i
  {
    if i < |ORDER| && ORDER[i] !in wants {
      FirstIn(wants, i + 1);
    }
  }

  lemma OthersAreNotOta(s: State, post: bool, e: Env)
    ensures OTA !in OtherWants(s, post, e)
  {
  }

  // Whatever state it starts from, a tick without late news never adds a
  // second session, and leaves at most one open
  lemma TickSafe(s: State, e: Env)
    requires !LateNews(Begin(s, e.panel), e.now, e.current)
    ensures var t := Tick(s, e); Count(t) <= 1 && t.peak <= Max(s.peak, 1)
  {
    var b := Begin(s, e.panel);
    var asks, o := OtaService.WantsNet(b.ota, e.now), Offers(b, e);
    var post, q := PostDue(o, e.now) && !o.relay.open, QuickPost(o, e);
    NewsMakesDue(b, e);
    QuickPostLeaves(o, e);
    OthersAreNotOta(q, post, e);
    var wants := If(asks, OTA) + OtherWants(q, post, e);
    OtaFirst(wants);
    TurnSafe(q, First(wants, 0), e);
  }

  // With the news first, no tick does
  lemma NewsFirstSafe(s: State, e: Env)
    ensures var t := TickNewsFirst(s, e); Count(t) <= 1 && t.peak <= Max(s.peak, 1)
  {
    var b := Begin(s, e.panel);
    var o := Offers(b, e);
    var asks := OtaService.WantsNet(o.ota, e.now);
    var post, q := PostDue(o, e.now) && !o.relay.open, QuickPost(o, e);
    NewsMakesDue(b, e);
    QuickPostLeaves(o, e);
    OthersAreNotOta(q, post, e);
    var wants := If(asks, OTA) + OtherWants(q, post, e);
    OtaFirst(wants);
    TurnSafe(q, First(wants, 0), e);
  }

  // ── The tick with late news ────────────────────────────────────────────────

  // The turn can go to the relay or to the stream, and a session of theirs
  // can be open in it
  ghost predicate CanShare(b: State, now: Word) {
    && !b.ota.slim
    && (PostDue(b, now) ==> b.relay.open)
    && (RelayCan(b, now) || StreamCan(b, now))
  }

  ghost predicate RelayCan(b: State, now: Word) {
    b.settings.relay && (b.relay.open || Reached(now, b.relay.next))
  }

  ghost predicate StreamCan(b: State, now: Word) {
    b.settings.commands && !Carries(b, now) &&
    (b.ntfy.open || !b.ntfy.waiting || Reached(now, b.ntfy.nextConnect))
  }

  // What the network may answer in that tick
  function Open(now: Word, current: string, panel: PanelEnv): Env {
    Env(now, current, panel, TurnEnv(false, false, false, true, true, now), OnceEnv(NoMemory, false, false),
        StreamEnv(true, Opened, false, false, false, false),
        OtaService.Env(true, true, true, true, true, OtaService.Waiting, []),
        RelayEnv(true, Opened, 101, [], false, now))
  }

  lemma OtaBegins(o: OtaService.Ota, now: Word, current: string, panel: PanelEnv)
    requires !OtaService.Busy(o) && OtaService.CanBegin(o, now)
    ensures var t := OtaService.Tick(o, now, Open(now, current, panel).ota, current);
            t.sessions > o.sessions && OtaService.Active(t)
  {
  }

  lemma RelayGranted(s: State, e: Env)
    requires e.turn.heap
    ensures var (ready, r) := Granted(s, RELAY, e);
            ready && r.ota == s.ota && r.settings == s.settings && r.relay == s.relay.(held := false)
  {
    var h := Holds(Grant(s, RELAY), RELAY, e);
    assert h.relay == s.relay.(held := false) && h.ota == s.ota && h.settings == s.settings;
  }

  // The updater begins while the relay is open, or the relay while the updater is
  lemma RelayShares(s: State, e: Env)
    requires e.turn.heap && e.relay.wifi && e.relay.tls.Opened? && e.relay.code == 101
    requires var o := OtaService.Tick(s.ota, e.now, e.ota, e.current);
             o.sessions > s.ota.sessions && OtaService.Active(o)
    requires RelayCan(s, e.now)
    ensures Turn(s, RELAY, e).peak > 1
  {
    RelayGranted(s, e);
    var r := Granted(s, RELAY, e).1;
    RelayJoins(r, e);
  }

  lemma RelayJoins(r: State, e: Env)
    requires e.relay.wifi && e.relay.tls.Opened? && e.relay.code == 101 && !r.relay.held
    requires var o := OtaService.Tick(r.ota, e.now, e.ota, e.current);
             o.sessions > r.ota.sessions && OtaService.Active(o)
    requires RelayCan(r, e.now)
    ensures TickRelay(TickOta(r, e), e.now, e.relay).peak > 1
  {
    var updated := TickOta(r, e);
    assert updated.relay == r.relay && OtaService.Active(updated.ota) && updated.settings == r.settings;
    if r.relay.open {
      assert updated.peak > 1;
    } else {
      assert TickRelay(updated, e.now, e.relay) == ConnectRelay(updated, e.now, e.relay);
    }
  }

  lemma StreamServed(r: State, e: Env)
    requires e.stream.wifi && e.stream.tls.Opened? && !e.stream.refused && !e.stream.lost
    requires !r.ntfy.held && !r.ntfy.relayed && r.settings.commands && !PostDue(r, e.now)
    requires r.ntfy.open || !r.ntfy.waiting || Reached(e.now, r.ntfy.nextConnect)
    ensures Serve(r, STREAM, e).ntfy.open && Serve(r, STREAM, e).ota == r.ota
  {
    assert Serve(r, STREAM, e) == TickStream(r, e.now, e.stream);
  }

  lemma StreamHolds(s: State, e: Env)
    requires StreamCan(s, e.now) && !PostDue(s, e.now) && !s.relay.open
    ensures var h := Holds(Grant(s, STREAM), STREAM, e);
            && h.ota == s.ota && !h.ntfy.held && !h.ntfy.relayed && h.settings.commands && !PostDue(h, e.now)
            && (h.ntfy.open || !h.ntfy.waiting || Reached(e.now, h.ntfy.nextConnect))
  {
  }

  // The updater begins while the stream is open
  lemma StreamShares(s: State, e: Env)
    requires e.turn.heap && e.stream.wifi && e.stream.tls.Opened? && !e.stream.refused && !e.stream.lost
    requires OtaService.Tick(s.ota, e.now, e.ota, e.current).sessions > s.ota.sessions
    requires StreamCan(s, e.now) && !PostDue(s, e.now) && !s.relay.open
    ensures Turn(s, STREAM, e).peak > 1
  {
    StreamHolds(s, e);
    var h := Holds(Grant(s, STREAM), STREAM, e);
    var (ready, r) := Ready(h, STREAM, e.turn.heap, e.now);
    assert ready && r == h.(starved := false);
    StreamServed(r, e);
    var updated := TickOta(Serve(r, STREAM, e), e);
    assert updated.peak > 1;
    assert Turn(s, STREAM, e) == TickRelay(updated, e.now, e.relay);
  }

  // Who gets the turn when nobody more important asks
  lemma FirstOfTwo(wants: set<Who>)
    requires wants * {OTA, IP, DNS, SETUP, POST} == {}
    ensures RELAY in wants ==> First(wants, 0) == RELAY
    ensures RELAY !in wants && STREAM in wants ==> First(wants, 0) == STREAM
  {
    forall i | 0 <= i < 5 ensures ORDER[i] !in wants {
      assert ORDER[i] in {OTA, IP, DNS, SETUP, POST};
      assert ORDER[i] !in wants * {OTA, IP, DNS, SETUP, POST};
    }
    assert First(wants, 0) == First(wants, 1) == First(wants, 2);
    assert First(wants, 2) == First(wants, 3) == First(wants, 4) == First(wants, 5);
    assert ORDER[5] == RELAY && ORDER[6] == STREAM;
  }
}
