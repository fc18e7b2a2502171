/** App::tick as it is written (App.h): statement by statement over the
    services' fields, against the step that Session describes. */
module AppLoop {
  import opened Text
  import opened NetArbiter
  import OtaService
  import opened OtaUpdater
  import opened Session
  import SessionMeans

  class App {
    const net: Arbiter
    const ota: Updater
    var settings: Settings
    var relay: Relay
    var ntfy: Ntfy
    var peak: nat   // the most TLS sessions open at once, which the firmware does not count

    function State(): State
      reads this, net, ota
    {
      Session.State.State(settings, ota.Now(), relay, ntfy, net.owner, net.starved, net.waitFrom, peak)
    }

    constructor (settings: Settings, ota: Updater)
      ensures State() == Started(settings, ota.Now()) && net.wants == {} && this.ota == ota
      ensures fresh(net)
    {
      this.settings, this.ota, relay, ntfy, peak := settings, ota, NEW_RELAY, NEW_NTFY, 0;
      net := new Arbiter();
    }

    method Tick(e: Env)
      requires net.wants == {}
      modifies this, net, ota
      ensures State() == Session.Tick(old(State()), e) && net.wants == {}
    {
      hide Begin, Offers, QuickPost, OtherWants, Turn, OtaService.WantsNet;
      ghost var s := State();
      PanelTick(e.panel);
      ghost var b := Begin(s, e.panel);
      var asks := ota.WantsNet(e.now);
      Say(asks, OTA);
      TakeNews(e);
      ghost var o := Offers(b, e);
      assert State() == o && net.wants == If(asks, OTA);
      Ask(e);
      TakeTurn(e);
    }

    // web.tick, and what waits to be posted
    method PanelTick(panel: PanelEnv)
      modifies this, ota
      ensures State() == Begin(old(State()), panel)
    {
      if !ota.slim {
        Do(panel.actions);
      }
      ntfy := ntfy.(pending := panel.pending, urgent := panel.urgent, newIp := panel.newIp);
    }

    method Do(actions: seq<Action>)
      modifies this, ota
      ensures State() == Acts(old(State()), actions)
    {
      hide Act;
      var i := 0;
      ghost var s := State();
      assert actions[..0] == [];
      while i < |actions|
        invariant 0 <= i <= |actions|
        invariant State() == Acts(s, actions[..i])
      {
        assert actions[..i + 1][..i] == actions[..i];
        DoOne(actions[i]);
        i := i + 1;
      }
      assert actions[..i] == actions;
    }

    method DoOne(a: Action)
      modifies this, ota
      ensures State() == Act(old(State()), a)
    {
      hide OtaService.RequestCheck, OtaService.RequestInstall;
      match a {
        case SetAutomatic(on) => ota.SetAutomatic(on);
        case RequestCheck => ota.RequestCheck();
        case RequestInstall => ota.RequestInstall();
        case RestartStream => ntfy := CloseStream(ntfy);
        case Configure(configured) => settings := configured;
      }
    }

    // relay.takeIP, relay.takeLatest and what they offer
    method TakeNews(e: Env)
      modifies this, ota
      ensures State() == Offers(old(State()), e) && net.wants == old(net.wants)
    {
      hide OtaService.OfferLatest;
      var isNew := relay.latestNew;
      relay := relay.(addressNew := false, latestNew := false);
      if isNew && relay.latest != "" {
        ota.Offer(relay.latest, e.now, e.current);
      }
    }

    // ── Who wants the network ────────────────────────────────────────────────

    // Everyone but the updater says whether it wants the network
    method Ask(e: Env)
      modifies this, net`wants
      ensures State() == QuickPost(old(State()), e)
      ensures var post := PostDue(old(State()), e.now) && !old(relay.open);
              net.wants == old(net.wants) + OtherWants(State(), post, e)
    {
      hide TickNtfy, PostDue, Carries, RelayWants, OnceWants, SessionWants, OtherWants, QuickPost, If;
      ghost var w, s, post := net.wants, State(), PostDue(State(), e.now) && !relay.open;
      if ota.slim {
        NobodyElse(s, post, e);
        assert net.wants == w + {};
        return;
      }
      AskOnce(e);
      AskNtfy(e);
      AskSessions(e);
      Together(w, s, State(), post, e);
    }

    method AskOnce(e: Env)
      modifies net`wants
      ensures net.wants == old(net.wants) + OnceWants(State(), e)
    {
      Say(e.turn.ip && !KnowsAddress(State()), IP);
      Say(e.turn.dns, DNS);
      Say(e.turn.setup, SETUP);
    }

    method AskSessions(e: Env)
      modifies net`wants
      ensures net.wants == old(net.wants) + SessionWants(State(), e)
    {
      hide Carries, RelayWants;
      Say(RelayWants(State(), e.turn.relayWifi, e.now), RELAY);
      Say(settings.commands && !Carries(State(), e.now), STREAM);
    }

    method Say(wants: bool, w: Who)
      modifies net`wants
      ensures net.wants == old(net.wants) + If(wants, w)
    {
      if wants {
        net.Want(w);
      }
    }

    method AskNtfy(e: Env)
      requires !ota.slim
      modifies this, net`wants
      ensures State() == QuickPost(old(State()), e) && relay == old(relay)
      ensures net.wants == old(net.wants) + If(PostDue(old(State()), e.now) && !old(relay.open), POST)
    {
      hide TickNtfy, PostDue;
      if PostDue(State(), e.now) {
        if relay.open {
          NtfyTick(e);
        } else {
          net.Want(POST);
        }
      }
    }

    // ── ntfy.tick ────────────────────────────────────────────────────────────

    method NtfyTick(e: Env)
      modifies `ntfy, `peak
      ensures State() == TickNtfy(old(State()), e)
      ensures PostDue(old(State()), e.now) ==>
                SessionMeans.Posted(old(ntfy), ntfy, relay.open || (e.once.tls.Opened? && e.once.posted), e.now)
    {
      if PostDue(State(), e.now) {
        SessionMeans.PostMeans(State(), e);
      }
      hide PostDue, Session.Publish, TickStream, SessionMeans.Posted;
      if PostDue(State(), e.now) {
        ntfy := CloseStream(ntfy);
        Publish(e);
      } else {
        StreamTick(e);
      }
    }

    // Over the relay while it is up, or a session of its own
    method Publish(e: Env)
      modifies `ntfy, `peak
      ensures State() == Session.Publish(old(State()), e.now, e.once)
    {
      hide Attempt;
      var sent := relay.open;
      if !sent {
        Once(e.once.tls);
        sent := e.once.tls.Opened? && e.once.posted;
      }
      ntfy := ntfy.(attempted := true, lastAttempt := e.now);
      if ntfy.reply {
        ntfy := ntfy.(reply := !sent);
      } else if ntfy.pending {
        ntfy := ntfy.(pending := !sent, urgent := ntfy.urgent && !sent);
      } else {
        ntfy := ntfy.(newIp := !sent);
      }
    }

    method StreamTick(e: Env)
      modifies `ntfy, `peak
      ensures State() == TickStream(old(State()), e.now, e.stream)
    {
      hide Session.ReadStream, Session.ConnectStream;
      if ntfy.held || ntfy.relayed || !settings.commands || !e.stream.wifi {
        ntfy := CloseStream(ntfy);
      } else if ntfy.open {
        ReadStream(e.now, e.stream);
      } else if !ntfy.waiting || Reached(e.now, ntfy.nextConnect) {
        ConnectStream(e.now, e.stream);
      }
    }

    method ConnectStream(now: Word, e: StreamEnv)
      requires !ntfy.open
      modifies `ntfy, `peak
      ensures State() == Session.ConnectStream(old(State()), now, e)
    {
      hide Attempt;
      Once(e.tls);
      if e.tls.NoClock? {
        ntfy := RetryStream(ntfy, now, RECONNECT_MS);
      } else if e.tls.Opened? {
        ntfy := ntfy.(open := true);
      } else {
        ntfy := FailStream(ntfy, now);
      }
    }

    method ReadStream(now: Word, e: StreamEnv)
      modifies `ntfy
      ensures State() == old(State()).(ntfy := Session.ReadStream(old(ntfy), now, e))
    {
      if e.refused {
        ntfy := FailStream(ntfy, now);
        return;
      }
      if e.reply {
        ntfy := ntfy.(reply := true);
      }
      if e.up {
        ntfy := ntfy.(backoff := 5);
      }
      if e.lost {
        ntfy := RetryStream(CloseStream(ntfy), now, RECONNECT_MS);
      }
    }

    // ── ota.tick ─────────────────────────────────────────────────────────────

    method OtaTick(e: Env)
      modifies `peak, ota
      ensures State() == TickOta(old(State()), e)
    {
      hide OtaService.Tick;
      var before := ota.sessions;
      ota.Tick(e.now, e.ota, e.current);
      if ota.sessions > before {
        var open := 1 + One(relay.open) + One(ntfy.open);
        peak := if open > peak then open else peak;
      }
    }

    // ── relay.tick ───────────────────────────────────────────────────────────

    method RelayTick(e: Env)
      modifies this, ota
      ensures State() == TickRelay(old(State()), e.now, e.relay)
    {
      hide Session.PumpRelay, Session.ConnectRelay;
      if relay.held || !settings.relay || !e.relay.wifi {
        relay := CloseRelay(relay, e.relay.millis);
      } else if relay.open {
        PumpRelay(e.now, e.relay);
      } else if Reached(e.now, relay.next) {
        ConnectRelay(e.now, e.relay);
      }
    }

    method ConnectRelay(now: Word, e: RelayEnv)
      requires !relay.open
      modifies `relay, `peak
      ensures State() == Session.ConnectRelay(old(State()), now, e)
    {
      hide Attempt, FailRelay;
      Once(e.tls);
      if e.tls.NoClock? {
        relay := relay.(next := Later(now, RECONNECT_MS));
      } else if !e.tls.Opened? {
        relay := FailRelay(relay, now, e.millis);
      } else if e.code != 101 {
        relay := relay.(outdated := e.code == 426);
        relay := FailRelay(relay, now, e.millis);
      } else {
        relay := relay.(open := true, address := "", backoff := 5);
      }
    }

    // The frames that are there, but no more than a tick has time for
    method PumpRelay(now: Word, e: RelayEnv)
      modifies this, ota
      ensures State() == Session.PumpRelay(old(State()), now, e)
    {
      hide Frames;
      var frames := if |e.frames| > FRAMES_PER_TICK then e.frames[..FRAMES_PER_TICK] else e.frames;
      ghost var s := State();
      var i, closed := 0, false;
      assert frames[0..] == frames;
      while i < |frames| && !closed
        invariant 0 <= i <= |frames|
        invariant Frames(s, frames, now, e.millis) == if closed then State() else Frames(State(), frames[i..], now, e.millis)
      {
        NextFrame(State(), frames[i..], now, e.millis);
        assert frames[i..][1..] == frames[i + 1..];
        if frames[i].Closed? {
          relay := CloseRelay(relay, e.millis).(next := Later(now, RECONNECT_MS));
          closed := true;
        } else {
          Take(frames[i]);
        }
        i := i + 1;
      }
      NoFrames(State(), now, e.millis);
      if relay.open && e.lost {
        relay := DropRelay(relay, now, RECONNECT_MS, e.millis);
      }
    }

    method Take(f: Frame)
      requires !f.Closed?
      modifies this, ota
      ensures State() == Taken(old(State()), f)
    {
      match f {
        case Closed =>
        case Address(ip) => relay := relay.(address := ip, addressNew := true);
        case Latest(tag) => relay := relay.(latest := tag, latestNew := true);
        case Request(actions) => Do(actions);
        case Command(refused) =>
          if refused && settings.commands {
            ntfy := ntfy.(reply := true);
          }
        case Other =>
      }
    }

    // ── The turn ─────────────────────────────────────────────────────────────

    // relay.hold, ntfy.hold and ntfy.relayed
    method Hold(who: Who, e: Env)
      modifies `relay, `ntfy
      ensures State() == Holds(old(State()), who, e)
    {
      ghost var s := State();
      relay := HoldRelay(relay, who != RELAY, e.turn.millis);
      ntfy := (if who != STREAM then CloseStream(ntfy) else ntfy).(held := who != STREAM);
      ghost var q := s.(relay := relay, ntfy := ntfy);
      assert State() == q;
      var carried := Carries(State(), e.now);
      ntfy := (if carried then CloseStream(ntfy) else ntfy).(relayed := carried);
      assert State() == q.(ntfy := ntfy);
    }

    // One more session, for a moment or to stay
    method Once(tls: Tls)
      modifies `peak
      ensures State() == Attempt(old(State()), tls)
    {
      if tls.Opened? || tls.Failed? {
        var open := Count(State()) + 1;
        peak := if open > peak then open else peak;
      }
    }

    // The turn, given and taken
    method TakeTurn(e: Env)
      modifies this, net, ota
      ensures State() == Turn(old(State()), First(old(net.wants), 0), e) && net.wants == {}
    {
      hide Granted, TickOta, TickRelay;
      ghost var s := State();
      var who, go := Give(e);
      if who != OTA || go {
        OtaTick(e);
      }
      if who != RELAY || go {
        RelayTick(e);
      }
    }

    // The turn as far as the updater
    method Give(e: Env) returns (who: Who, go: bool)
      modifies this, net
      ensures who == First(old(net.wants), 0) && net.wants == {} && (go, State()) == Granted(old(State()), who, e)
    {
      hide Holds, Session.Serve, Waited;
      ghost var s := State();
      who := net.Grant();
      assert State() == Session.Grant(s, who);
      Hold(who, e);
      ghost var h := Holds(Session.Grant(s, who), who, e);
      go := false;
      if who != NONE {
        go := net.Ready(e.now, e.turn.heap, Running(State(), who));
      }
      assert (go, State()) == if who == NONE then (false, h) else Ready(h, who, e.turn.heap, e.now);
      if go {
        Serve(who, e);
      }
    }

    method Serve(who: Who, e: Env)
      modifies `relay, `ntfy, `peak
      ensures State() == Session.Serve(old(State()), who, e)
    {
      hide Attempt, TickNtfy;
      match who {
        case IP => Once(e.once.tls);
        case DNS => Once(e.once.tls);
        case SETUP =>
          Once(e.once.tls);
          if e.once.deployed {
            relay := CloseRelay(relay, e.turn.millis).(next := e.turn.millis, backoff := 5, outdated := false);
          }
        case POST => NtfyTick(e);
        case STREAM => NtfyTick(e);
        case _ =>
      }
    }
  }

  // What a frame that does not close the connection brings
  function Taken(s: State, f: Frame): State
    requires !f.Closed?
  {
    match f
    case Address(ip) => s.(relay := s.relay.(address := ip, addressNew := true))
    case Latest(tag) => s.(relay := s.relay.(latest := tag, latestNew := true))
    case Request(actions) => Acts(s, actions)
    case Command(refused) => s.(ntfy := s.ntfy.(reply := s.ntfy.reply || (refused && s.settings.commands)))
    case Other => s
  }

  lemma NextFrame(s: State, frames: seq<Frame>, now: Word, millis: Word)
    requires frames != []
    ensures Frames(s, frames, now, millis) ==
            if frames[0].Closed? then s.(relay := CloseRelay(s.relay, millis).(next := Later(now, RECONNECT_MS)))
            else Frames(Taken(s, frames[0]), frames[1..], now, millis)
  {
    hide Acts;
  }

  lemma NoFrames(s: State, now: Word, millis: Word)
    ensures Frames(s, [], now, millis) == s
  {
  }

  function OnceWants(s: State, e: Env): set<Who> {
    If(e.turn.ip && !KnowsAddress(s), IP) + If(e.turn.dns, DNS) + If(e.turn.setup, SETUP)
  }

  function SessionWants(s: State, e: Env): set<Who> {
    If(RelayWants(s, e.turn.relayWifi, e.now), RELAY) + If(s.settings.commands && !Carries(s, e.now), STREAM)
  }

  lemma NobodyElse(s: State, post: bool, e: Env)
    requires s.ota.slim
    ensures OtherWants(s, post, e) == {} && QuickPost(s, e) == s
  {
  }

  lemma Together(w: set<Who>, s: State, q: State, post: bool, e: Env)
    requires !q.ota.slim && q.relay == s.relay
    ensures w + OnceWants(s, e) + If(post, POST) + SessionWants(q, e) == w + OtherWants(q, post, e)
  {
    hide Carries, RelayWants, If;
    assert KnowsAddress(s) == KnowsAddress(q);
  }
}
