/** The tick with late news exactly, and whole runs. */
module SessionRuns {
  import opened Text
  import opened NetArbiter
  import OtaService
  import opened Session
  import opened SessionSafety

  // ── When the late news makes two sessions ──────────────────────────────────

  // The tick can have two sessions at once: the time, the firmware and the
  // panel's part given, some answers of the network make it so
  ghost predicate CanOverlap(s: State, now: Word, current: string, panel: PanelEnv) {
    exists e: Env :: e.now == now && e.current == current && e.panel == panel && Tick(s, e).peak > 1
  }

  // Exactly when it is late and the relay or the stream can have the turn
  lemma OverlapExactly(s: State, now: Word, current: string, panel: PanelEnv)
    requires s.peak <= 1
    ensures var b := Begin(s, panel);
            CanOverlap(s, now, current, panel) <==> LateNews(b, now, current) && CanShare(b, now)
  {
    var b := Begin(s, panel);
    if LateNews(b, now, current) && CanShare(b, now) {
      LateOverlaps(s, Open(now, current, panel));
    }
    forall e: Env | e.now == now && e.current == current && e.panel == panel && Tick(s, e).peak > 1
      ensures LateNews(b, now, current) && CanShare(b, now)
    {
      if !LateNews(b, now, current) {
        TickSafe(s, e);
      } else if !CanShare(b, now) {
        LateAlone(s, e);
      }
    }
  }

  lemma SameForSharing(b: State, e: Env)
    ensures var o := Offers(b, e);
            && PostDue(o, e.now) == PostDue(b, e.now) && o.ota.slim == b.ota.slim
            && RelayCan(o, e.now) == RelayCan(b, e.now) && StreamCan(o, e.now) == StreamCan(b, e.now)
            && o.relay.open == b.relay.open && Carries(o, e.now) == Carries(b, e.now)
  {
  }

  lemma LateOverlaps(s: State, e: Env)
    requires e == Open(e.now, e.current, e.panel)
    requires var b := Begin(s, e.panel); LateNews(b, e.now, e.current) && CanShare(b, e.now)
    ensures Tick(s, e).peak > 1
  {
    hide Turn, OtaService.CanBegin, OtaService.IsNewer;
    var b := Begin(s, e.panel);
    var o := Offers(b, e);
    var post, q := PostDue(o, e.now) && !o.relay.open, QuickPost(o, e);
    NewsMakesDue(b, e);
    SameForSharing(b, e);
    QuickPostLeaves(o, e);
    OtaBegins(q.ota, e.now, e.current, e.panel);
    OthersAreNotOta(q, post, e);
    var wants := If(false, OTA) + OtherWants(q, post, e);
    FirstOfTwo(wants);
    if RelayCan(b, e.now) {
      RelayShares(q, e);
    } else {
      assert q == o;
      StreamShares(q, e);
    }
  }

  // With late news, whoever cannot share has the turn alone
  lemma LateAlone(s: State, e: Env)
    requires var b := Begin(s, e.panel); LateNews(b, e.now, e.current) && !CanShare(b, e.now)
    ensures Tick(s, e).peak <= Max(s.peak, 1)
  {
    hide Turn, OtaService.CanBegin, OtaService.IsNewer;
    var b := Begin(s, e.panel);
    var o := Offers(b, e);
    var post, q := PostDue(o, e.now) && !o.relay.open, QuickPost(o, e);
    NewsMakesDue(b, e);
    SameForSharing(b, e);
    QuickPostLeaves(o, e);
    OthersAreNotOta(q, post, e);
    var wants := If(false, OTA) + OtherWants(q, post, e);
    OtaFirst(wants);
    var w := First(wants, 0);
    PostFirst(wants);
    assert w != RELAY;
    if w == STREAM {
      assert q == o;
      StreamAlone(q, e);
    } else {
      OneAlone(q, w, e);
    }
  }

  lemma PostFirst(wants: set<Who>)
    ensures POST in wants ==> First(wants, 0) in {OTA, IP, DNS, SETUP, POST}
  {
    if POST in wants {
      assert ORDER[4] == POST && First(wants, 4) == POST;
      assert First(wants, 3) in {SETUP, POST};
      assert First(wants, 2) in {DNS, SETUP, POST};
      assert First(wants, 1) in {IP, DNS, SETUP, POST};
    }
  }

  // A turn of neither the relay nor the stream, the updater beginning in it
  lemma OneAlone(s: State, w: Who, e: Env)
    requires !OtaService.Busy(s.ota) && w != RELAY && w != STREAM
    ensures Turn(s, w, e).peak <= Max(s.peak, 1)
  {
    GrantedLeaves(s, w, e);
    var (ready, served) := Granted(s, w, e);
    var updated := TickOta(served, e);
    assert updated.peak <= Max(s.peak, 1);
    assert updated.relay.held;
  }

  // The stream's turn, with nothing to open
  lemma StreamAlone(s: State, e: Env)
    requires !OtaService.Busy(s.ota)
    requires s.settings.commands && !Carries(s, e.now) && !PostDue(s, e.now) && !StreamCan(s, e.now)
    ensures Turn(s, STREAM, e).peak <= Max(s.peak, 1)
  {
    StreamWaits(s, e);
    GrantedLeaves(s, STREAM, e);
    var (ready, served) := Granted(s, STREAM, e);
    var updated := TickOta(served, e);
    assert updated.relay.held;
  }

  lemma StreamKept(s: State, e: Env)
    requires !Carries(s, e.now)
    ensures var h := Holds(Grant(s, STREAM), STREAM, e);
            h.ntfy == s.ntfy.(held := false, relayed := false) && h.settings == s.settings
  {
  }

  lemma StreamWaits(s: State, e: Env)
    requires s.settings.commands && !Carries(s, e.now) && !PostDue(s, e.now) && !StreamCan(s, e.now)
    ensures !Granted(s, STREAM, e).1.ntfy.open
  {
    StreamKept(s, e);
    var h := Holds(Grant(s, STREAM), STREAM, e);
    var (ready, r) := Ready(h, STREAM, e.turn.heap, e.now);
    assert r.ntfy == h.ntfy && !PostDue(r, e.now);
    if ready {
      assert Serve(r, STREAM, e) == TickStream(r, e.now, e.stream);
    }
  }

  // ── Runs ───────────────────────────────────────────────────────────────────

  // Never both the relay and the stream
  ghost predicate Apart(s: State) {
    !(s.relay.open && s.ntfy.open)
  }

  // After any tick: two sessions at the most, and then one is the updater's
  lemma TickBounded(s: State, e: Env)
    ensures var t := Tick(s, e); t.peak <= Max(s.peak, 2) && Apart(t)
  {
    var b := Begin(s, e.panel);
    if LateNews(b, e.now, e.current) {
      var o := Offers(b, e);
      var post, q := PostDue(o, e.now) && !o.relay.open, QuickPost(o, e);
      NewsMakesDue(b, e);
      QuickPostLeaves(o, e);
      OthersAreNotOta(q, post, e);
      var wants := If(false, OTA) + OtherWants(q, post, e);
      OtaFirst(wants);
      TurnBounded(q, First(wants, 0), e);
    } else {
      TickSafe(s, e);
    }
  }

  lemma TurnBounded(s: State, w: Who, e: Env)
    requires !OtaService.Busy(s.ota)
    ensures var t := Turn(s, w, e); t.peak <= Max(s.peak, 2) && Apart(t)
  {
    GrantedLeaves(s, w, e);
    var (ready, served) := Granted(s, w, e);
    var updated := if w != OTA || ready then TickOta(served, e) else served;
    OtaBounded(served, e);
    assert updated.relay == served.relay && updated.ntfy == served.ntfy && updated.peak <= Max(s.peak, 2);
  }

  lemma OtaBounded(s: State, e: Env)
    ensures var t := TickOta(s, e);
            && t.relay == s.relay && t.ntfy == s.ntfy
            && t.peak <= Max(s.peak, 1 + One(s.relay.open) + One(s.ntfy.open))
  {
  }

  // The ticks of a run, from the oldest
  function Run(s: State, es: seq<Env>): State {
    if es == [] then s else Tick(Run(s, es[..|es| - 1]), es[|es| - 1])
  }

  function RunNewsFirst(s: State, es: seq<Env>): State {
    if es == [] then s else TickNewsFirst(RunNewsFirst(s, es[..|es| - 1]), es[|es| - 1])
  }

  // The tick e after the run es comes late
  ghost predicate Late(s: State, es: seq<Env>, e: Env) {
    LateNews(Begin(Run(s, es), e.panel), e.now, e.current)
  }

  ghost predicate NeverLate(s: State, es: seq<Env>) {
    forall k | 0 <= k < |es| :: !Late(s, es[..k], es[k])
  }

  lemma NeverLateBefore(s: State, es: seq<Env>)
    requires es != [] && NeverLate(s, es)
    ensures var n := |es| - 1; NeverLate(s, es[..n]) && !Late(s, es[..n], es[n])
  {
    hide Late;
    assert forall k | 0 <= k < |es| - 1 :: es[..|es| - 1][..k] == es[..k];
  }

  // A run with no late news never has two sessions
  lemma {:induction false} RunSafe(s: State, es: seq<Env>)
    requires s.peak <= 1 && NeverLate(s, es)
    ensures Run(s, es).peak <= 1
  {
    if es != [] {
      hide Tick, LateNews, Begin, NeverLate;
      var n := |es| - 1;
      NeverLateBefore(s, es);
      RunSafe(s, es[..n]);
      TickSafe(Run(s, es[..n]), es[n]);
    }
  }

  // Any run has two at the most
  lemma {:induction false} RunBounded(s: State, es: seq<Env>)
    requires s.peak <= 2
    ensures Run(s, es).peak <= 2
  {
    if es != [] {
      RunBounded(s, es[..|es| - 1]);
      TickBounded(Run(s, es[..|es| - 1]), es[|es| - 1]);
    }
  }

  // A tick that ends with two sessions is followed by one that ends with one:
  // the updater, busy, asks for the network and everyone else lets go
  lemma OverlapHeals(s: State, e: Env, f: Env)
    ensures Count(Tick(s, e)) > 1 ==> Count(Tick(Tick(s, e), f)) <= 1
  {
    var t := Tick(s, e);
    if Count(t) > 1 {
      TickBounded(s, e);
      var b := Begin(t, f.panel);
      assert OtaService.Active(b.ota);
      TickSafe(t, f);
    }
  }

  // With the news first, a run never has two sessions
  lemma {:induction false} RunNewsFirstSafe(s: State, es: seq<Env>)
    requires s.peak <= 1
    ensures RunNewsFirst(s, es).peak <= 1
  {
    if es != [] {
      RunNewsFirstSafe(s, es[..|es| - 1]);
      NewsFirstSafe(RunNewsFirst(s, es[..|es| - 1]), es[|es| - 1]);
    }
  }

  // ── A run from power on that has two ───────────────────────────────────────

  // A relay, no topic, no actuator; nothing waits at the panel
  const RELAYED := Settings(true, false, false)
  const UNTOUCHED := PanelEnv([], false, false, false)
  // The stream, let go while the relay has the turn
  const WAITING := NEW_NTFY.(held := true, relayed := true)

  // The network answers, and the relay sends these frames
  function Told(now: Word, current: string, frames: seq<Frame>): Env {
    Open(now, current, UNTOUCHED).(relay := RelayEnv(true, Opened, 101, frames, false, now))
  }

  // The relay open, one session so far
  function Up(ota: OtaService.Ota, relay: Relay): State {
    State(RELAYED, ota, relay, WAITING, RELAY, false, 0, 1)
  }

  // The updater with nothing to do until a check is due
  predicate Resting(o: OtaService.Ota, now: Word) {
    !OtaService.Busy(o) && !o.slim && !OtaService.WantsNet(o, now)
  }

  lemma OnlyRelayWants(q: State, e: Env)
    requires !q.ota.slim && q.settings == RELAYED && RelayWants(q, e.turn.relayWifi, e.now)
    requires !e.turn.ip && !e.turn.dns && !e.turn.setup
    ensures First(If(false, OTA) + OtherWants(q, false, e), 0) == RELAY
  {
    hide RelayWants, Carries, First;
    assert If(false, OTA) + OtherWants(q, false, e) == {RELAY};
    FirstOfTwo({RELAY});
  }

  lemma Connects(ota: OtaService.Ota, now: Word, current: string)
    requires Resting(ota, now) && now < GRACE_MS
    ensures Tick(Started(RELAYED, ota), Told(now, current, [])) == Up(ota, NEW_RELAY.(open := true))
  {
    hide OtaService.Tick, First, OtherWants;
    var s, e := Started(RELAYED, ota), Told(now, current, []);
    assert Acts(s, []) == s;
    assert Begin(s, e.panel) == s && Offers(s, e) == s && QuickPost(s, e) == s;
    OnlyRelayWants(s, e);
    OtaService.TickIdles(ota, now, e.ota, current);
    ConnectsInTurn(s, e);
  }

  lemma ConnectsInTurn(s: State, e: Env)
    requires s == Started(RELAYED, s.ota) && e == Told(e.now, e.current, []) && e.now < GRACE_MS
    requires OtaService.Tick(s.ota, e.now, e.ota, e.current) == s.ota && !OtaService.Active(s.ota)
    ensures Turn(s, RELAY, e) == Up(s.ota, NEW_RELAY.(open := true))
  {
    hide OtaService.Tick;
    var h := Holds(Grant(s, RELAY), RELAY, e);
    assert h == s.(owner := RELAY, ntfy := WAITING);
    RelayGranted(s, e);
  }

  // One frame heard, if any
  function Heard(r: Relay, frames: seq<Frame>): Relay {
    if |frames| == 1 && frames[0].Latest? then r.(latest := frames[0].tag, latestNew := true) else r
  }

  // A tick that takes the relay's news and hears what comes next
  lemma Listens(ota: OtaService.Ota, r: Relay, now: Word, current: string, frames: seq<Frame>)
    requires r.open && !r.held && Resting(ota, now) && |frames| <= 1 && (frames != [] ==> frames[0].Latest?)
    requires var o := Offers(Up(ota, r), Told(now, current, frames)).ota; !OtaService.Busy(o) && !OtaService.CanBegin(o, now)
    ensures var e := Told(now, current, frames);
            var o := Offers(Up(ota, r), e);
            Tick(Up(ota, r), e) == Up(o.ota, Heard(o.relay, frames))
  {
    hide OtaService.Tick, OtaService.OfferLatest, OtaService.CanBegin, First, OtherWants, Turn;
    var s, e := Up(ota, r), Told(now, current, frames);
    assert Acts(s, []) == s;
    var o := Offers(s, e);
    assert Begin(s, e.panel) == s && o == Up(o.ota, o.relay) && QuickPost(o, e) == o;
    assert !o.ota.slim by {
      NewsKeepsSlim(s, e);
    }
    OnlyRelayWants(o, e);
    OtaService.TickIdles(o.ota, now, e.ota, current);
    ListensInTurn(o.ota, o.relay, e, frames);
  }

  lemma NewsKeepsSlim(s: State, e: Env)
    ensures Offers(s, e).ota.slim == s.ota.slim && Offers(s, e).relay == s.relay.(addressNew := false, latestNew := false)
  {
  }

  lemma ListensInTurn(ota: OtaService.Ota, r: Relay, e: Env, frames: seq<Frame>)
    requires r.open && !r.held && |frames| <= 1 && (frames != [] ==> frames[0].Latest?)
    requires e == Told(e.now, e.current, frames)
    requires OtaService.Tick(ota, e.now, e.ota, e.current) == ota && !OtaService.Active(ota)
    ensures Turn(Up(ota, r), RELAY, e) == Up(ota, Heard(r, frames))
  {
    hide OtaService.Tick, PumpRelay;
    var s := Up(ota, r);
    var h := Holds(Grant(s, RELAY), RELAY, e);
    assert h == s;
    RelayGranted(s, e);
    assert Granted(s, RELAY, e) == (true, s);
    assert TickOta(s, e) == s;
    Pumps(s, e, frames);
  }

  lemma Pumps(s: State, e: Env, frames: seq<Frame>)
    requires s.relay.open && |frames| <= 1 && (frames != [] ==> frames[0].Latest?) && e == Told(e.now, e.current, frames)
    ensures PumpRelay(s, e.now, e.relay) == s.(relay := Heard(s.relay, frames))
  {
    if frames != [] {
      assert frames[1..] == [];
      assert Frames(s.(relay := Heard(s.relay, frames)), [], e.now, e.now) == s.(relay := Heard(s.relay, frames));
    }
  }

  // The relay opens; before a check is due it says that this release is the
  // latest, and after that it says there is a newer one
  function History(current: string, newer: string): seq<Env> {
    [Told(19_970, current, []), Told(19_980, current, [Latest(current)]), Told(19_990, current, []),
     Told(20_000, current, [Latest(newer)]), Told(20_010, current, [])]
  }

  // From power on, in five ticks, two sessions: for any two releases
  lemma OverlapReached(current: string, newer: string, rejected: string)
    requires OtaService.ParseTag(current) >= 0 && OtaService.IsNewer(newer, current)
    ensures Run(Started(RELAYED, OtaService.PoweredOn(true, rejected, None)), History(current, newer)).peak == 2
  {
    var es := History(current, newer);
    var o, r := OtaService.PoweredOn(true, rejected, None), NEW_RELAY.(open := true);
    FourTicks(Started(RELAYED, o), es);
    hide Tick, OtaService.IsNewer, OtaService.ParseTag, Up;
    Connects(o, 19_970, current);
    HearsSame(o, r, current, current, 19_980);
    TakesSame(o, r.(latest := current, latestNew := true), current, 19_990);
    var p := o.(lastCheck := 19_990);
    HearsSame(p, r.(latest := current), current, newer, 20_000);
    LastOverlaps(Up(p, r.(latest := newer, latestNew := true)), current, newer);
  }

  // Nothing to take, a release to hear of
  lemma HearsSame(ota: OtaService.Ota, r: Relay, current: string, tag: string, now: Word)
    requires r.open && !r.held && !r.latestNew && !r.addressNew
    requires ota == OtaService.PoweredOn(true, ota.rejected, None).(lastCheck := ota.lastCheck)
    requires (now == 19_980 && ota.lastCheck == 0) || (now == 20_000 && ota.lastCheck == 19_990)
    ensures Tick(Up(ota, r), Told(now, current, [Latest(tag)])) == Up(ota, r.(latest := tag, latestNew := true))
  {
    Listens(ota, r, now, current, [Latest(tag)]);
  }

  // The release that is on the device already is offered: no check for an hour
  lemma TakesSame(ota: OtaService.Ota, r: Relay, current: string, now: Word)
    requires r.open && !r.held && r.latestNew && !r.addressNew && r.latest == current && now == 19_990
    requires ota == OtaService.PoweredOn(true, ota.rejected, None) && OtaService.ParseTag(current) >= 0
    ensures Tick(Up(ota, r), Told(now, current, [])) == Up(ota.(lastCheck := now), r.(latestNew := false))
  {
    TagsNotEmpty(current);
    hide OtaService.ParseTag;
    Listens(ota, r, now, current, []);
  }

  lemma TagsNotEmpty(tag: string)
    ensures OtaService.ParseTag(tag) >= 0 ==> tag != ""
  {
  }

  lemma FourTicks(s: State, es: seq<Env>)
    requires |es| == 5
    ensures Run(s, es) == Tick(Tick(Tick(Tick(Tick(s, es[0]), es[1]), es[2]), es[3]), es[4])
  {
    hide Tick;
    assert es[..4][..3] == es[..3] && es[..3][..2] == es[..2] && es[..2][..1] == es[..1] && es[..1][..0] == [];
    assert Run(s, es[..1]) == Tick(s, es[0]);
    assert Run(s, es[..2]) == Tick(Tick(s, es[0]), es[1]);
    assert Run(s, es[..3]) == Tick(Tick(Tick(s, es[0]), es[1]), es[2]);
    assert Run(s, es[..4]) == Tick(Tick(Tick(Tick(s, es[0]), es[1]), es[2]), es[3]);
  }

  lemma LastOverlaps(s: State, current: string, newer: string)
    requires s.ota.lastCheck == 19_990 && s == Up(OtaService.PoweredOn(true, s.ota.rejected, None).(lastCheck := 19_990), s.relay)
    requires s.relay == NEW_RELAY.(open := true, latest := newer, latestNew := true) && OtaService.IsNewer(newer, current)
    ensures Tick(s, Told(20_010, current, [])).peak == 2
  {
    hide Turn, OtaService.IsNewer, OtaService.Tick, First;
    var e := Told(20_010, current, []);
    assert e == Open(e.now, e.current, e.panel);
    assert Acts(s, []) == s;
    assert Begin(s, e.panel) == s;
    assert LateNews(s, e.now, current) && CanShare(s, e.now);
    hide Tick;
    LateOverlaps(s, e);
    TickBounded(s, e);
  }
}
