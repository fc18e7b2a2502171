/** What a tick does to the relay and to ntfy, besides the sessions it counts:
    what is posted and kept, when each connection opens and closes, what is
    heard, and how long a failure makes them wait (App.h, RelayService.h,
    NtfyNotifier.h). */
module SessionMeans {
  import opened Text
  import opened NetArbiter
  import OtaService
  import opened Session

  // ── Posts ──────────────────────────────────────────────────────────────────

  // Of what waits only the first is touched: it stops waiting if it was sent
  ghost predicate Posted(n: Ntfy, m: Ntfy, sent: bool, now: Word) {
    && m.attempted && m.lastAttempt == now && !m.open && !m.waiting
    && m.held == n.held && m.relayed == n.relayed && m.nextConnect == n.nextConnect && m.backoff == n.backoff
    && (n.reply ==> m.reply == !sent && m.pending == n.pending && m.urgent == n.urgent && m.newIp == n.newIp)
    && (!n.reply && n.pending ==> !m.reply && m.pending == !sent && m.urgent == (n.urgent && !sent) && m.newIp == n.newIp)
    && (!n.reply && !n.pending ==> !m.reply && !m.pending && m.urgent == n.urgent && m.newIp == !sent)
  }

  // A post goes through the relay if it is open, and otherwise over a session
  // of its own
  lemma PostMeans(s: State, e: Env)
    requires PostDue(s, e.now)
    ensures var t := TickNtfy(s, e);
            && Posted(s.ntfy, t.ntfy, s.relay.open || (e.once.tls.Opened? && e.once.posted), e.now)
            && t.settings == s.settings && t.relay == s.relay && t.ota == s.ota
  {
  }

  // A minute after the last attempt, or five seconds if it cannot wait
  lemma PostDueExactly(s: State, now: Word)
    ensures PostDue(s, now) <==>
            && s.settings.topic && (s.ntfy.reply || s.ntfy.pending || s.ntfy.newIp)
            && (s.ntfy.attempted ==>
                  Since(now, s.ntfy.lastAttempt) >=
                  if s.ntfy.reply || (s.ntfy.pending && s.ntfy.urgent) then 5_000 else 60_000)
  {
  }

  // ── The relay's connection ─────────────────────────────────────────────────

  // The frames of a tick up to the one that closes
  function Heard(frames: seq<Frame>): (h: seq<Frame>)
    ensures |h| <= |frames|
  {
    if frames == [] || frames[0].Closed? then [] else [frames[0]] + Heard(frames[1..])
  }

  function LastTag(frames: seq<Frame>, before: string): string {
    if frames == [] then before
    else
      var f := frames[|frames| - 1];
      if f.Latest? then f.tag else LastTag(frames[..|frames| - 1], before)
  }

  function LastAddress(frames: seq<Frame>, before: string): string {
    if frames == [] then before
    else
      var f := frames[|frames| - 1];
      if f.Address? then f.ip else LastAddress(frames[..|frames| - 1], before)
  }

  lemma {:induction false} LastsApart(f: Frame, frames: seq<Frame>, tag: string, ip: string)
    ensures LastTag([f] + frames, tag) == LastTag(frames, if f.Latest? then f.tag else tag)
    ensures LastAddress([f] + frames, ip) == LastAddress(frames, if f.Address? then f.ip else ip)
    decreases |frames|
  {
    if frames == [] {
      assert [f] + frames == [f] && [f][..0] == [];
      assert LastTag([f], tag) == (if f.Latest? then f.tag else LastTag([], tag));
      assert LastAddress([f], ip) == (if f.Address? then f.ip else LastAddress([], ip));
    } else {
      var n := |frames| - 1;
      assert ([f] + frames)[..n + 1] == [f] + frames[..n] && ([f] + frames)[n + 1] == frames[n];
      LastsApart(f, frames[..n], tag, ip);
    }
  }

  // The state after a frame that does not close
  function After(s: State, f: Frame): State {
    match f
    case Address(ip) => s.(relay := s.relay.(address := ip, addressNew := true))
    case Latest(tag) => s.(relay := s.relay.(latest := tag, latestNew := true))
    case Request(actions) => Acts(s, actions)
    case Command(refused) => s.(ntfy := s.ntfy.(reply := s.ntfy.reply || (refused && s.settings.commands)))
    case _ => s
  }

  // What is heard of the address and of the release is the last said of them,
  // and new only if it was said
  lemma {:induction false} FramesMean(s: State, frames: seq<Frame>, now: Word, millis: Word)
    ensures var t, h := Frames(s, frames, now, millis), Heard(frames);
            && t.relay.latest == LastTag(h, s.relay.latest) && t.relay.address == LastAddress(h, s.relay.address)
            && (t.relay.latestNew <==> s.relay.latestNew || exists k :: 0 <= k < |h| && h[k].Latest?)
            && (t.relay.addressNew <==> s.relay.addressNew || exists k :: 0 <= k < |h| && h[k].Address?)
    decreases |frames|
  {
    hide Acts, LastTag, LastAddress;
    if frames == [] || frames[0].Closed? {
      NothingHeard(s);
    } else {
      var f := frames[0];
      var h := Heard(frames[1..]);
      LastsApart(f, h, s.relay.latest, s.relay.address);
      SomeFirst(f, h);
      FramesMean(After(s, f), frames[1..], now, millis);
    }
  }

  lemma NothingHeard(s: State)
    ensures LastTag([], s.relay.latest) == s.relay.latest && LastAddress([], s.relay.address) == s.relay.address
  {
  }

  // The connection closes as a frame says, and not otherwise
  lemma {:induction false} FramesClose(s: State, frames: seq<Frame>, now: Word, millis: Word)
    ensures var r, q, closed := s.relay, Frames(s, frames, now, millis).relay, |Heard(frames)| < |frames|;
            && q.open == (r.open && !closed)
            && q.next == (if closed then Later(now, 2_000) else r.next)
            && q.downAt == (if closed && r.open then millis else r.downAt)
            && q.held == r.held && q.backoff == r.backoff && q.outdated == r.outdated
    decreases |frames|
  {
    hide Acts;
    if frames != [] && !frames[0].Closed? {
      FramesClose(After(s, frames[0]), frames[1..], now, millis);
    }
  }

  lemma SomeFirst(f: Frame, h: seq<Frame>)
    ensures (exists k :: 0 <= k < |[f] + h| && ([f] + h)[k].Latest?) <==> f.Latest? || exists k :: 0 <= k < |h| && h[k].Latest?
    ensures (exists k :: 0 <= k < |[f] + h| && ([f] + h)[k].Address?) <==> f.Address? || exists k :: 0 <= k < |h| && h[k].Address?
  {
    var g := [f] + h;
    assert g[0] == f && forall k | 0 <= k < |h| :: g[k + 1] == h[k];
    if k :| 0 <= k < |g| && g[k].Latest? {
      assert k > 0 ==> h[k - 1] == g[k];
    }
    if k :| 0 <= k < |g| && g[k].Address? {
      assert k > 0 ==> h[k - 1] == g[k];
    }
  }

  // Up to four frames are read in one tick
  function Read(e: RelayEnv): seq<Frame> {
    if |e.frames| > 4 then e.frames[..4] else e.frames
  }

  // It opens when it may, its time has come and the Worker accepts
  lemma RelayOpensExactly(s: State, now: Word, e: RelayEnv)
    requires !s.relay.open
    ensures var t := TickRelay(s, now, e);
            t.relay.open <==>
            !s.relay.held && s.settings.relay && e.wifi && Reached(now, s.relay.next) && e.tls.Opened? && e.code == 101
  {
  }

  // What it is left with: the wait before the next try, longer each time
  lemma RelayFails(s: State, now: Word, e: RelayEnv)
    requires !s.relay.open && !s.relay.held && s.settings.relay && e.wifi && Reached(now, s.relay.next)
    ensures var r, q := s.relay, TickRelay(s, now, e).relay;
            && (q.open ==> q == r.(open := true, address := "", backoff := 5))
            && (!q.open && e.tls.NoClock? ==> q == r.(next := Later(now, 2_000)))
            && (!q.open && !e.tls.NoClock? ==>
                 q == r.(next := Later(now, r.backoff * 1000), backoff := q.backoff, outdated := q.outdated) &&
                 q.backoff == (if r.backoff > 150 then 300 else 2 * r.backoff) &&
                 (q.outdated <==> if e.tls.Opened? then e.code == 426 else r.outdated))
  {
  }

  // It stays open while it may, nobody closes it and it is not lost
  lemma RelayClosesExactly(s: State, now: Word, e: RelayEnv)
    requires s.relay.open
    ensures var t := TickRelay(s, now, e);
            && (t.relay.open <==>
                 !s.relay.held && s.settings.relay && e.wifi && !e.lost && Heard(Read(e)) == Read(e))
            && (!t.relay.open ==> t.relay.downAt == e.millis)
            && (!t.relay.open && !s.relay.held && s.settings.relay && e.wifi ==> t.relay.next == Later(now, 2_000))
  {
    hide Frames;
    FramesClose(s, Read(e), now, e.millis);
    HeardWhole(Read(e));
  }

  lemma {:induction false} HeardWhole(frames: seq<Frame>)
    ensures Heard(frames) <= frames && (|Heard(frames)| == |frames| <==> Heard(frames) == frames)
  {
    if frames != [] {
      HeardWhole(frames[1..]);
    }
  }

  // One more try, its time come, and no connection
  ghost predicate Fails(s: State, now: Word, e: RelayEnv) {
    && !s.relay.open && !s.relay.held && s.settings.relay && e.wifi && Reached(now, s.relay.next)
    && !e.tls.Opened? && !e.tls.NoClock?
  }

  function Tries(s: State, es: seq<(Word, RelayEnv)>): State {
    if es == [] then s else TickRelay(Tries(s, es[..|es| - 1]), es[|es| - 1].0, es[|es| - 1].1)
  }

  // The seconds after so many failures in a row: twice as long each time, up to
  // five minutes
  function Wait(n: nat): nat {
    if n == 0 then 5 else if n == 1 then 10 else if n == 2 then 20 else if n == 3 then 40
    else if n == 4 then 80 else if n == 5 then 160 else 300
  }

  ghost predicate AllFail(s: State, es: seq<(Word, RelayEnv)>) {
    forall k | 0 <= k < |es| :: Fails(Tries(s, es[..k]), es[k].0, es[k].1)
  }

  lemma AllButLastFail(s: State, es: seq<(Word, RelayEnv)>)
    requires es != [] && AllFail(s, es)
    ensures var n := |es| - 1; AllFail(s, es[..n]) && Fails(Tries(s, es[..n]), es[n].0, es[n].1)
  {
    hide Fails, Tries;
    assert forall k | 0 <= k < |es| - 1 :: es[..|es| - 1][..k] == es[..k];
  }

  lemma OneFails(s: State, now: Word, e: RelayEnv)
    requires Fails(s, now, e)
    ensures var r, q := s.relay, TickRelay(s, now, e).relay;
            !q.open && q.next == Later(now, r.backoff * 1000) && q.backoff == if r.backoff > 150 then 300 else 2 * r.backoff
  {
    RelayOpensExactly(s, now, e);
    RelayFails(s, now, e);
  }

  lemma {:induction false} BacksOff(s: State, es: seq<(Word, RelayEnv)>)
    requires s.relay.backoff == 5 && AllFail(s, es)
    ensures var r, n := Tries(s, es).relay, |es|;
            r.backoff == Wait(n) && (n > 0 ==> r.next == Later(es[n - 1].0, Wait(n - 1) * 1000) && !r.open)
  {
    hide TickRelay, AllFail, Fails, Later;
    if es != [] {
      var n := |es| - 1;
      AllButLastFail(s, es);
      BacksOff(s, es[..n]);
      OneFails(Tries(s, es[..n]), es[n].0, es[n].1);
    }
  }

  // ── The stream ─────────────────────────────────────────────────────────────

  lemma StreamOpensExactly(s: State, e: Env)
    requires !s.ntfy.open && !PostDue(s, e.now)
    ensures var t := TickNtfy(s, e);
            t.ntfy.open <==>
            && !s.ntfy.held && !s.ntfy.relayed && s.settings.commands && e.stream.wifi
            && (!s.ntfy.waiting || Reached(e.now, s.ntfy.nextConnect)) && e.stream.tls.Opened?
  {
  }

  lemma StreamFails(s: State, e: Env)
    requires !s.ntfy.open && !PostDue(s, e.now) && !s.ntfy.held && !s.ntfy.relayed && s.settings.commands && e.stream.wifi
    requires !s.ntfy.waiting || Reached(e.now, s.ntfy.nextConnect)
    ensures var n, m := s.ntfy, TickNtfy(s, e).ntfy;
            && (e.stream.tls.Opened? ==> m == n.(open := true))
            && (e.stream.tls.NoClock? ==> m == n.(waiting := true, nextConnect := Later(e.now, 2_000)))
            && (!e.stream.tls.Opened? && !e.stream.tls.NoClock? ==>
                 m == n.(waiting := true, nextConnect := Later(e.now, n.backoff * 1000), backoff := m.backoff) &&
                 m.backoff == if n.backoff > 150 then 300 else 2 * n.backoff)
  {
  }

  // An open stream closes when it may not be there
  lemma StreamLetsGo(s: State, e: Env)
    requires s.ntfy.open && !PostDue(s, e.now)
    requires s.ntfy.held || s.ntfy.relayed || !s.settings.commands || !e.stream.wifi
    ensures TickNtfy(s, e).ntfy == s.ntfy.(open := false, waiting := false)
  {
  }

  // It closes when the server refuses, and waits as after a failure
  lemma StreamRefused(s: State, e: Env)
    requires s.ntfy.open && !PostDue(s, e.now) && e.stream.refused
    requires !s.ntfy.held && !s.ntfy.relayed && s.settings.commands && e.stream.wifi
    ensures TickNtfy(s, e).ntfy ==
            s.ntfy.(open := false, waiting := true, nextConnect := Later(e.now, s.ntfy.backoff * 1000),
                    backoff := if s.ntfy.backoff > 150 then 300 else 2 * s.ntfy.backoff)
  {
  }

  // It stays open until it is lost; a refused command makes a reply, and the
  // line that opens it ends the waits
  lemma StreamReads(s: State, e: Env)
    requires s.ntfy.open && !PostDue(s, e.now) && !e.stream.refused
    requires !s.ntfy.held && !s.ntfy.relayed && s.settings.commands && e.stream.wifi
    ensures var n := s.ntfy.(reply := s.ntfy.reply || e.stream.reply, backoff := if e.stream.up then 5 else s.ntfy.backoff);
            TickNtfy(s, e).ntfy ==
            if e.stream.lost then n.(open := false, waiting := true, nextConnect := Later(e.now, 2_000)) else n
  {
  }

  // ── The turn ───────────────────────────────────────────────────────────────

  // Who wants the network
  lemma WantsExactly(s: State, post: bool, e: Env)
    ensures var w := OtherWants(s, post, e);
            && (IP in w <==> !s.ota.slim && e.turn.ip && (!s.relay.open || s.relay.address == ""))
            && (DNS in w <==> !s.ota.slim && e.turn.dns)
            && (SETUP in w <==> !s.ota.slim && e.turn.setup)
            && (POST in w <==> !s.ota.slim && post)
            && (RELAY in w <==> !s.ota.slim && s.settings.relay && e.turn.relayWifi && (s.relay.open || Reached(e.now, s.relay.next)))
            && (STREAM in w <==>
                 !s.ota.slim && s.settings.commands && !s.relay.open &&
                 (!s.settings.relay || Since(e.now, s.relay.downAt) >= 60_000))
            && OTA !in w && NONE !in w
  {
  }

  // The order of the turns
  lemma Priority(wants: set<Who>)
    ensures First(wants, 0) ==
            if OTA in wants then OTA else if IP in wants then IP else if DNS in wants then DNS
            else if SETUP in wants then SETUP else if POST in wants then POST
            else if RELAY in wants then RELAY else if STREAM in wants then STREAM else NONE
  {
    assert First(wants, 7) == NONE;
    assert First(wants, 6) == if STREAM in wants then STREAM else NONE;
    assert First(wants, 5) == if RELAY in wants then RELAY else First(wants, 6);
    assert First(wants, 4) == if POST in wants then POST else First(wants, 5);
    assert First(wants, 3) == if SETUP in wants then SETUP else First(wants, 4);
    assert First(wants, 2) == if DNS in wants then DNS else First(wants, 3);
    assert First(wants, 1) == if IP in wants then IP else First(wants, 2);
  }

  // Everyone but the owner lets go, and the stream also while the relay carries
  // its commands: open, or down for less than a minute
  lemma HoldsMean(s: State, w: Who, e: Env)
    ensures var t := Holds(s, w, e);
            && t.relay == s.relay.(held := w != RELAY, open := s.relay.open && w == RELAY,
                                   downAt := if s.relay.open && w != RELAY then e.turn.millis else s.relay.downAt)
            && t.ntfy.held == (w != STREAM)
            && (t.ntfy.relayed <==>
                 t.relay.open || (s.settings.relay && Since(e.now, t.relay.downAt) < 60_000))
            && (t.ntfy.open <==> s.ntfy.open && w == STREAM && !t.ntfy.relayed)
            && t.ntfy == s.ntfy.(held := t.ntfy.held, relayed := t.ntfy.relayed, open := t.ntfy.open,
                                 waiting := s.ntfy.waiting && w == STREAM && !t.ntfy.relayed)
            && t.ota == s.ota && t.settings == s.settings
  {
  }

  // The news is taken once: a release number settles when the next check is due
  lemma NewsTaken(s: State, e: Env)
    ensures var t := Offers(s, e);
            && t.relay == s.relay.(addressNew := false, latestNew := false) && t.ntfy == s.ntfy && t.settings == s.settings
            && t.ota == (if s.relay.latestNew && OtaService.ParseTag(s.relay.latest) >= 0 && !OtaService.Busy(s.ota) then
                           s.ota.(lastCheck := if OtaService.IsNewer(s.relay.latest, e.current) then 0 else e.now)
                         else s.ota)
  {
  }

  // What a tick posts at once: through an open relay, before the turn
  lemma QuickPostMeans(s: State, e: Env)
    ensures var t := QuickPost(s, e);
            if !s.ota.slim && s.relay.open && PostDue(s, e.now) then
              Posted(s.ntfy, t.ntfy, true, e.now) && t == s.(ntfy := t.ntfy)
            else t == s
  {
    if !s.ota.slim && s.relay.open && PostDue(s, e.now) {
      PostMeans(s, e);
    }
  }

  // ── The panel ──────────────────────────────────────────────────────────────

  function LastSettings(actions: seq<Action>, before: Settings): Settings {
    if actions == [] then before
    else if actions[0].Configure? then LastSettings(actions[1..], actions[0].settings)
    else LastSettings(actions[1..], before)
  }

  function LastAutomatic(actions: seq<Action>, before: bool): bool {
    if actions == [] then before
    else if actions[0].SetAutomatic? then LastAutomatic(actions[1..], actions[0].on)
    else LastAutomatic(actions[1..], before)
  }

  // The last request that can be met, if there is one
  function LastRequest(actions: seq<Action>, found: bool): (r: Option<Action>)
    ensures r.Some? ==> r.value.RequestCheck? || r.value.RequestInstall?
  {
    if actions == [] then None
    else
      var later := LastRequest(actions[1..], found);
      if later.Some? then later
      else if actions[0].RequestCheck? || (actions[0].RequestInstall? && found) then Some(actions[0])
      else None
  }

  lemma {:induction false} ActsFirst(s: State, a: Action, actions: seq<Action>)
    ensures Acts(s, [a] + actions) == Acts(Act(s, a), actions)
    decreases |actions|
  {
    var all, n := [a] + actions, |actions| - 1;
    if actions == [] {
      assert all == [a] && [a][..0] == [];
      assert Acts(s, []) == s;
    } else {
      ActsFirst(s, a, actions[..n]);
      assert all[..|all| - 1] == [a] + actions[..n];
    }
  }

  // The last word on each thing, and the stream closed if it is to start again
  ghost predicate Settled(s: State, t: State, settings: Settings, automatic: bool, restarted: bool) {
    && t.settings == settings && t.ota.automatic == automatic && t.relay == s.relay
    && t.ntfy == if restarted then s.ntfy.(open := false, waiting := false) else s.ntfy
  }

  // What a request to the panel, or one through the relay, leaves
  lemma {:induction false} ActsMean(s: State, actions: seq<Action>)
    ensures Settled(s, Acts(s, actions), LastSettings(actions, s.settings), LastAutomatic(actions, s.ota.automatic),
                    RestartStream in actions)
    decreases |actions|
  {
    hide Acts, Act, Settled;
    if actions == [] {
      NoActs(s);
    } else {
      var a, rest := actions[0], actions[1..];
      var u := Act(s, a);
      assert actions == [a] + rest;
      ActsFirst(s, a, rest);
      ActsMean(u, rest);
      SettledTwice(s, a, Acts(u, rest), LastSettings(rest, u.settings), LastAutomatic(rest, u.ota.automatic), RestartStream in rest);
      ActSettles(s, a);
    }
  }

  lemma SettledTwice(s: State, a: Action, t: State, settings: Settings, automatic: bool, restarted: bool)
    requires Settled(Act(s, a), t, settings, automatic, restarted)
    ensures Settled(s, t, settings, automatic, a.RestartStream? || restarted)
  {
  }

  lemma ActSettles(s: State, a: Action)
    ensures Act(s, a).settings == if a.Configure? then a.settings else s.settings
    ensures Act(s, a).ota.automatic == if a.SetAutomatic? then a.on else s.ota.automatic
  {
  }

  // An updater at work is asked nothing; otherwise the last request it can meet
  // replaces what it was asked before
  ghost predicate Asked(s: State, t: State, last: Option<Action>) {
    var o, p := s.ota, t.ota;
    && p == o.(automatic := p.automatic, wantCheck := p.wantCheck, wantInstall := p.wantInstall, nextRetry := p.nextRetry)
    && (OtaService.Active(o) || last.None? ==>
          p.wantCheck == o.wantCheck && p.wantInstall == o.wantInstall && p.nextRetry == o.nextRetry)
    && (!OtaService.Active(o) && last.Some? ==>
          p.wantCheck == last.value.RequestCheck? && p.wantInstall == last.value.RequestInstall?
          && (p.wantCheck && !o.wantCheck ==> p.nextRetry == 0))
    && (p.nextRetry == 0 || p.nextRetry == o.nextRetry)
  }

  lemma {:induction false} ActsAsk(s: State, actions: seq<Action>)
    requires !(s.ota.wantCheck && s.ota.wantInstall)
    ensures Asked(s, Acts(s, actions), LastRequest(actions, s.ota.available != ""))
    decreases |actions|
  {
    hide Acts, Act, Asked;
    if actions == [] {
      NoActs(s);
    } else {
      var a, rest := actions[0], actions[1..];
      assert actions == [a] + rest;
      ActsFirst(s, a, rest);
      ActKeeps(s, a);
      ActsAsk(Act(s, a), rest);
      AskedTwice(s, a, Acts(Act(s, a), rest), LastRequest(rest, s.ota.available != ""));
    }
  }

  lemma ActKeeps(s: State, a: Action)
    requires !(s.ota.wantCheck && s.ota.wantInstall)
    ensures !(Act(s, a).ota.wantCheck && Act(s, a).ota.wantInstall) && Act(s, a).ota.available == s.ota.available
  {
  }

  lemma NoActs(s: State)
    ensures Acts(s, []) == s && Asked(s, s, None) && Settled(s, s, s.settings, s.ota.automatic, false)
  {
  }

  lemma AskedTwice(s: State, a: Action, t: State, later: Option<Action>)
    requires !(s.ota.wantCheck && s.ota.wantInstall) && Asked(Act(s, a), t, later)
    requires later.Some? ==> later.value.RequestCheck? || later.value.RequestInstall?
    ensures Asked(s, t, if later.Some? then later
                        else if a.RequestCheck? || (a.RequestInstall? && s.ota.available != "") then Some(a) else None)
  {
  }

  // A recovery has no panel; what waits to be posted is what the panel's part
  // of the loop says
  lemma PanelMeans(s: State, panel: PanelEnv)
    ensures var t := Begin(s, panel);
            && t.ntfy.pending == panel.pending && t.ntfy.urgent == panel.urgent && t.ntfy.newIp == panel.newIp
            && (s.ota.slim ==> t == s.(ntfy := s.ntfy.(pending := panel.pending, urgent := panel.urgent, newIp := panel.newIp)))
            && (!s.ota.slim ==> t.settings == LastSettings(panel.actions, s.settings) && t.relay == s.relay
                                && (t.ntfy.open <==> s.ntfy.open && RestartStream !in panel.actions))
  {
    hide Acts, LastSettings, LastAutomatic;
    ActsMean(s, panel.actions);
  }

  // ── The turn's wait for memory ─────────────────────────────────────────────

  // A turn goes on if its connection runs already, if there is memory for one,
  // or once it has waited half a minute for it
  lemma GoesExactly(s: State, w: Who, e: Env)
    ensures var h := Holds(Grant(s, w), w, e);
            var (go, t) := Granted(s, w, e);
            var runs := (w == OTA && (h.ota.inProgress || !h.ota.stage.Idle?)) || (w == RELAY && h.relay.open) ||
                        (w == STREAM && h.ntfy.open);
            var waits := s.owner == w && s.starved;
            && (go <==> w != NONE && (runs || e.turn.heap || (waits && Since(e.now, s.waitFrom) >= 30_000)))
            && t.owner == w
            && (w != NONE ==> t.starved == !go)
            && (w != NONE && !go ==> t.waitFrom == if waits then s.waitFrom else e.now)
  {
    hide Serve, Holds, Ready, Grant, OtaService.Active;
    var g := Grant(s, w);
    var h := Holds(g, w, e);
    GrantMeans(s, w);
    HoldsKeepTurn(g, w, e);
    ReadyMeans(h, w, e.turn.heap, e.now);
    ServeKeepsTurn(Ready(h, w, e.turn.heap, e.now).1, w, e);
  }

  lemma GrantMeans(s: State, w: Who)
    ensures Grant(s, w) == s.(owner := w, starved := s.owner == w && s.starved)
  {
  }

  lemma HoldsKeepTurn(s: State, w: Who, e: Env)
    ensures SameTurn(s, Holds(s, w, e))
  {
  }

  lemma ReadyMeans(h: State, w: Who, heap: bool, now: Word)
    ensures var (go, t) := Ready(h, w, heap, now);
            var runs := (w == OTA && (h.ota.inProgress || !h.ota.stage.Idle?)) || (w == RELAY && h.relay.open) ||
                        (w == STREAM && h.ntfy.open);
            && (go <==> runs || heap || (h.starved && Since(now, h.waitFrom) >= 30_000))
            && t == h.(starved := !go, waitFrom := t.waitFrom)
            && (!go ==> t.waitFrom == if h.starved then h.waitFrom else now)
  {
  }

  lemma ServeKeepsTurn(s: State, w: Who, e: Env)
    ensures SameTurn(s, Serve(s, w, e)) && Serve(s, w, e).ota == s.ota
  {
  }

  // Without it the owner connects to nothing; the updater has its tick in
  // everyone else's turn, and the relay is closed but in its own
  lemma TurnMeans(s: State, w: Who, e: Env)
    ensures var h := Holds(Grant(s, w), w, e);
            var (go, g) := Granted(s, w, e);
            var t := Turn(s, w, e);
            && (!go ==> g.relay == h.relay && g.ntfy == h.ntfy)
            && (w != RELAY ==> !t.relay.open && t.ntfy == g.ntfy
                               && t.ota == if w != OTA || go then OtaService.Tick(h.ota, e.now, e.ota, e.current) else h.ota)
            && (w == RELAY && !go ==> t.relay == h.relay && t.ntfy == h.ntfy)
            && (w == RELAY && go ==> t == TickRelay(TickOta(g, e), e.now, e.relay))
  {
    hide Granted, Holds, TickOta, TickRelay, OtaService.Tick;
    GrantedMeans(s, w, e);
    var g := Granted(s, w, e).1;
    OtaAlone(g, e);
    if w != RELAY {
      HeldIsShut(g, e);
      HeldIsShut(TickOta(g, e), e);
    }
  }

  lemma GrantedMeans(s: State, w: Who, e: Env)
    ensures var h := Holds(Grant(s, w), w, e);
            var (go, g) := Granted(s, w, e);
            g.ota == h.ota && (w != RELAY ==> g.relay.held) && (!go ==> g.relay == h.relay && g.ntfy == h.ntfy)
  {
    hide TickNtfy, Attempt, Carries, Waited, CloseStream;
    ServeKeepsTurn(Ready(Holds(Grant(s, w), w, e), w, e.turn.heap, e.now).1, w, e);
  }

  lemma OtaAlone(s: State, e: Env)
    ensures var t := TickOta(s, e);
            t.ota == OtaService.Tick(s.ota, e.now, e.ota, e.current) && t.relay == s.relay && t.ntfy == s.ntfy
  {
    hide OtaService.Tick;
  }

  lemma HeldIsShut(s: State, e: Env)
    requires s.relay.held
    ensures var t := TickRelay(s, e.now, e.relay); !t.relay.open && t.ntfy == s.ntfy && t.ota == s.ota
  {
  }

  // ── A turn that is not the updater's ───────────────────────────────────────

  // Once the Worker is deployed anew, the relay connects to it at once, as if it
  // had never failed
  lemma SetupMeans(s: State, e: Env)
    ensures var t := Serve(s, SETUP, e);
            && t.ota == s.ota && t.ntfy == s.ntfy && t.settings == s.settings
            && (!e.once.deployed ==> t.relay == s.relay)
            && (e.once.deployed ==>
                  && !t.relay.open && Reached(e.turn.millis, t.relay.next) && t.relay.backoff == 5 && !t.relay.outdated
                  && t.relay.downAt == (if s.relay.open then e.turn.millis else s.relay.downAt)
                  && t.relay == s.relay.(open := false, downAt := t.relay.downAt, next := e.turn.millis, backoff := 5,
                                         outdated := false))
  {
  }

  // The address and the DNS record are asked for and nothing else changes
  lemma OthersAsk(s: State, w: Who, e: Env)
    requires w == IP || w == DNS
    ensures Serve(s, w, e) == s.(peak := Serve(s, w, e).peak)
    ensures Serve(s, w, e).peak == if (e.once.tls.Opened? || e.once.tls.Failed?) && s.peak <= Count(s) then Count(s) + 1 else s.peak
  {
  }
}
