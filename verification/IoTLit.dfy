/** How long the output is really on: what it was given, one time after another,
    against the safety limit. The firmware counts from the field onSince, and
    the end of a pulse can set that field without turning the output off. */
module IoTLit {
  import opened Text
  import opened IoTService
  import opened IoTSafety
  import opened IoTTiming

  // ── What the output is given ───────────────────────────────────────────────

  // On or off, and the clock by which it would have been turned on
  datatype Given = Given(on: bool, at: nat)

  // What an event gives to the output, in order
  function Shown(s: Iot, e: Event): seq<Given> {
    match e
    case Ticked(t) =>
      if s.setup.cap.NoActuator? then []
      else
        var r := Read(s, t.reading, t.read);
        var w := TickWindow(r, t);
        [Given(r.out.on, t.read), Given(w.out.on, t.turned), Given(TickPulse(w, t).out.on, t.ended), Given(Tick(s, t).out.on, t.now)]
    case Commanded(c, now, millis) => [Given(Run(s, c, now, millis).1.out.on, if c.op.Auto? then millis else now)]
    // A configuration lets go of the output before it begins
    case Restarted(r, attached, millis) => [Given(false, millis), Given(Step(s, e).out.on, millis)]
  }

  // On since when; renewed: the end of a pulse has since set the clock again
  datatype Lit = Dark | Lit(since: nat, renewed: bool)

  function Show(l: Lit, g: Given): Lit {
    if !g.on then Dark else if l.Dark? then Lit.Lit(g.at, false) else l
  }

  function ShowAll(l: Lit, gs: seq<Given>): Lit
    decreases gs
  {
    if gs == [] then l else ShowAll(Show(l, gs[0]), gs[1..])
  }

  // The tick ends a pulse, the rule knows that it wants the output on, and the
  // clock has not moved since the tick's own reading
  predicate Renews(s: Iot, e: Event) {
    e.Ticked? && !s.setup.cap.NoActuator? &&
    var w := TickWindow(Read(s, e.tick.reading, e.tick.read), e.tick);
    && w.pulsing && Reached(Clock(e.tick.now), Clock(w.pulseUntil))
    && HasRule(w.setup) && w.rule.have && w.rule.on && w.rule.open && e.tick.ended <= e.tick.now
  }

  function LitStep(l: Lit, s: Iot, e: Event): Lit {
    var m := ShowAll(l, Shown(s, e));
    if m.Lit? && Renews(s, e) && m.since < e.tick.now then m.(renewed := true) else m
  }

  // Over a run, from the state that begin leaves at first
  function LitAfter(s: Iot, first: nat, es: seq<Event>): Lit {
    if es == [] then Show(Dark, Given(s.out.on, first))
    else LitStep(LitAfter(s, first, es[..|es| - 1]), After(s, es[..|es| - 1]), es[|es| - 1])
  }

  // ── The bound, while no pulse has renewed it ───────────────────────────────

  // The light is the output's; until it is renewed, the field is no later
  ghost predicate Tells(s: Iot, l: Lit) {
    && (l.Lit? <==> s.out.on)
    && (l.Lit? && !l.renewed && s.setup.maxOn != 0 ==> s.onSince <= l.since)
  }

  lemma ShowTells(l: Lit, s: Iot, t: Iot, at: nat)
    requires Tells(s, l) && t.setup == s.setup && (t.out.on ==> t.onSince == if s.out.on then s.onSince else at)
    ensures Tells(t, Show(l, Given(t.out.on, at)))
  {
  }

  lemma FourShown(l: Lit, a: Given, b: Given, c: Given, d: Given)
    ensures ShowAll(l, [a, b, c, d]) == Show(Show(Show(Show(l, a), b), c), d)
  {
    var gs := [a, b, c, d];
    assert gs[1..] == [b, c, d] && [b, c, d][1..] == [c, d] && [c, d][1..] == [d];
    assert ShowAll(l, gs) == ShowAll(Show(l, a), [b, c, d]);
    assert ShowAll(Show(l, a), [b, c, d]) == ShowAll(Show(Show(l, a), b), [c, d]);
    OneShown(Show(Show(Show(l, a), b), c), d);
  }

  lemma OneShown(l: Lit, a: Given)
    ensures ShowAll(l, [a]) == Show(l, a)
  {
    assert [a][1..] == [];
  }

  lemma WindowTurns(s: Iot, e: TickIn)
    ensures var t := TickWindow(s, e);
            && t.setup == s.setup && t.pulsing == s.pulsing && t.pulseUntil == s.pulseUntil
            && (t.out.on ==> t.onSince == if s.out.on then s.onSince else e.turned)
  {
  }

  // The end of a pulse leaves the output on only by the rule, counted anew
  lemma PulseTurns(w: Iot, e: TickIn)
    requires w.pulsing ==> w.out.on
    ensures var p := TickPulse(w, e);
            && p.setup == w.setup
            && (p.out.on ==> w.out.on)
            && (p.out.on && p.onSince != w.onSince ==>
                 && w.pulsing && Reached(Clock(e.now), Clock(w.pulseUntil)) && HasRule(w.setup)
                 && w.rule.have && w.rule.on && w.rule.open && p.onSince == e.ended)
  {
  }

  lemma TickTells(s: Iot, l: Lit, last: nat, e: TickIn, gap: nat)
    requires Tells(s, l) && Kept(s) && InTime(last, Ticked(e), gap) && gap <= MAX_GAP && WithinLimit(s, last, gap)
    ensures Tells(Tick(s, e), LitStep(l, s, Ticked(e)))
  {
    var r := Read(s, e.reading, e.read);
    ReadTurns(s, e.reading, e.read);
    if !s.setup.cap.NoActuator? {
      ReadKeeps(s, e.reading, e.read);
      TickWindowKeeps(r, e);
      var w := TickWindow(r, e);
      WindowTurns(r, e);
      ShowTells(l, s, r, e.read);
      var lr := Show(l, Given(r.out.on, e.read));
      ShowTells(lr, r, w, e.turned);
      var lw := Show(lr, Given(w.out.on, e.turned));
      var p := TickPulse(w, e);
      PulseTurns(w, e);
      var lp := Show(lw, Given(p.out.on, e.ended));
      FourShown(l, Given(r.out.on, e.read), Given(w.out.on, e.turned), Given(p.out.on, e.ended), Given(Tick(s, e).out.on, e.now));
      EndTells(s, l, lw, last, w, e, gap);
    } else {
      assert Shown(s, Ticked(e)) == [];
    }
  }

  lemma EndTells(s: Iot, l: Lit, lw: Lit, last: nat, w: Iot, e: TickIn, gap: nat)
    requires w == TickWindow(Read(s, e.reading, e.read), e) && !s.setup.cap.NoActuator? && s.setup == w.setup
    requires Tells(w, lw) && (w.pulsing ==> w.out.on)
    requires InTime(last, Ticked(e), gap) && gap <= MAX_GAP
    requires ShowAll(l, Shown(s, Ticked(e))) ==
             Show(Show(lw, Given(TickPulse(w, e).out.on, e.ended)), Given(Tick(s, e).out.on, e.now))
    ensures Tells(Tick(s, e), LitStep(l, s, Ticked(e)))
  {
    var p := TickPulse(w, e);
    PulseTurns(w, e);
    SafetyOffIsOff(p, e.now);
    var lp := Show(lw, Given(p.out.on, e.ended));
    assert Tick(s, e) == if Overdue(p, e.now) then SafetyOff(p, e.now) else p;
    if p.out.on && p.onSince != w.onSince && e.ended > e.now && s.setup.maxOn != 0 {
      WrapsBack(e.ended, e.now);
      assert Overdue(p, e.now);
    }
  }

  lemma StepTells(s: Iot, l: Lit, last: nat, e: Event, gap: nat)
    requires Tells(s, l) && Kept(s) && Sound(e) && InTime(last, e, gap) && gap <= MAX_GAP && WithinLimit(s, last, gap)
    ensures Tells(Step(s, e), LitStep(l, s, e))
  {
    match e
    case Ticked(t) => TickTells(s, l, last, t, gap);
    case Commanded(c, now, millis) =>
      CommandTurns(s, c, now, millis);
      OneShown(l, Shown(s, e)[0]);
      ShowTells(l, s, Step(s, e), if c.op.Auto? then millis else now);
    case Restarted(r, attached, millis) =>
      BeginKeeps(r, s.file, attached, millis);
      var t := Step(s, e);
      assert Shown(s, e)[1..] == [Given(t.out.on, millis)];
      OneShown(Dark, Given(t.out.on, millis));
  }

  lemma CommandTurns(s: Iot, c: Command, now: nat, millis: nat)
    requires c.InRange()
    ensures var t := Run(s, c, now, millis).1;
            && t.setup == s.setup
            && (t.out.on ==> t.onSince == if s.out.on then s.onSince else if c.op.Auto? then millis else now)
  {
    CommandOnSince(s, c, now, millis, 0, now + millis);
    if Allowed(s.setup.cap, c.op) && !c.op.Status? {
      if c.op.Auto? {
        Written(Resume(s.(pulsing := false), millis));
      } else {
        CommandMeans(s, c, now, millis);
      }
    }
  }

  // With a limit, until the end of a pulse renews it, the output is never on
  // longer than the limit and one gap between ticks, wherever the counter goes
  // round
  lemma {:induction false} NeverOnLonger(r: Setup, file: Option<Saved>, attached: bool, first: nat, es: seq<Event>, gap: nat, t: nat)
    requires Paced(first, es, gap) && gap <= MAX_GAP && forall e | e in es :: Sound(e)
    ensures var b := Begin(r, file, attached, first);
            var s, l := After(b, es), LitAfter(b, first, es);
            && Tells(s, l)
            && (l.Lit? && !l.renewed && s.setup.maxOn != 0 && t <= LastTick(first, es) + gap ==> t < l.since + Limit(s.setup) + gap)
  {
    var b := Begin(r, file, attached, first);
    BeginKeeps(r, file, attached, first);
    SinceBounded(r, file, attached, first, es, gap, t);
    if es != [] {
      var n := |es| - 1;
      assert forall k | 0 <= k < n :: es[..n][..k] == es[..k];
      assert InTime(LastTick(first, es[..n]), es[n], gap);
      NeverOnLonger(r, file, attached, first, es[..n], gap, t);
      SinceBounded(r, file, attached, first, es[..n], gap, t);
      AlwaysKept(r, file, attached, first, es[..n]);
      StepTells(After(b, es[..n]), LitAfter(b, first, es[..n]), LastTick(first, es[..n]), es[n], gap);
    }
    NoneIsDark(r, file, attached, first, es);
  }

  // Without an actuator nothing is on
  lemma {:induction false} NoneIsDark(r: Setup, file: Option<Saved>, attached: bool, first: nat, es: seq<Event>)
    ensures var s := After(Begin(r, file, attached, first), es); s.setup.cap.NoActuator? ==> !s.out.on
  {
    if es != [] {
      var n := |es| - 1;
      NoneIsDark(r, file, attached, first, es[..n]);
      var s := After(Begin(r, file, attached, first), es[..n]);
      if es[n].Ticked? {
        TickSetup(s, es[n].tick);
      } else if es[n].Commanded? {
        CommandOnSince(s, es[n].command, es[n].now, es[n].millis, 0, es[n].now + es[n].millis);
      }
    }
  }

  // ── When the end of a pulse renews it ──────────────────────────────────────

  // A pulse that ends in a tick leaves the output on exactly when the rule
  // knows that it wants it on and the clock still reads the tick's millisecond
  lemma PulseEndsOnExactly(s: Iot, e: TickIn)
    requires Kept(s) && !s.setup.cap.NoActuator? && s.setup.maxOn != 0 && e.now <= e.ended <= e.now + MAX_GAP
    requires s.pulsing && Reached(Clock(e.now), Clock(s.pulseUntil))
    ensures Tick(s, e).out.on <==> Renews(s, Ticked(e))
  {
    var r := Read(s, e.reading, e.read);
    ReadTurns(s, e.reading, e.read);
    ReadKeeps(s, e.reading, e.read);
    TickWindowKeeps(r, e);
    var w := TickWindow(r, e);
    WindowTurns(r, e);
    SamePulse(s, e);
    var p := TickPulse(w, e);
    SafetyOffIsOff(p, e.now);
    PulseTurns(w, e);
    assert p == EndPulse(w, e.now, e.ended);
    EndsOn(w, e.now, e.ended);
    if p.out.on {
      if e.ended > e.now {
        WrapsBack(e.ended, e.now);
      } else {
        WrapsForward(e.ended, e.now);
      }
    }
  }

  lemma SamePulse(s: Iot, e: TickIn)
    ensures var w := TickWindow(Read(s, e.reading, e.read), e); w.pulsing == s.pulsing && w.pulseUntil == s.pulseUntil
  {
    var r := Read(s, e.reading, e.read);
    assert r.pulsing == s.pulsing && r.pulseUntil == s.pulseUntil;
    WindowTurns(r, e);
  }

  lemma EndsOn(w: Iot, now: nat, millis: nat)
    ensures var p := EndPulse(w, now, millis);
            && (p.out.on <==> HasRule(w.setup) && w.rule.have && w.rule.on && w.rule.open)
            && (p.out.on ==> p.onSince == millis) && p.setup == w.setup && !p.pulsing
            && p.rule == w.rule && (HasRule(w.setup) ==> !p.manual)
  {
  }

  // On, its limit over since it was last off: a reading up to a gap later finds
  // it on for longer than the limit and the gap
  ghost predicate Overstays(s: Iot, l: Lit, last: nat) {
    s.out.on && l.Lit? && s.setup.maxOn != 0 && last >= l.since + Limit(s.setup)
  }

  // A tick k milliseconds after e with nothing new
  function Idle(e: TickIn, k: nat): TickIn {
    TickIn(e.now + k, Nothing, e.minute, e.now + k, e.now + k, e.now + k)
  }

  function Idles(e: TickIn, n: nat): (es: seq<Event>)
    ensures |es| == n
  {
    if n == 0 then [] else Idles(e, n - 1) + [Ticked(Idle(e, n))]
  }

  lemma IdlesAdd(es: seq<Event>, e: TickIn, n: nat)
    requires n > 0
    ensures var all := es + Idles(e, n);
            all[..|all| - 1] == es + Idles(e, n - 1) && all[|all| - 1] == Ticked(Idle(e, n))
  {
    assert es + (Idles(e, n - 1) + [Ticked(Idle(e, n))]) == es + Idles(e, n - 1) + [Ticked(Idle(e, n))];
  }

  lemma {:induction false} IdlesPaced(first: nat, es: seq<Event>, e: TickIn, n: nat, gap: nat)
    requires Paced(first, es, gap) && LastTick(first, es) == e.now && gap > 0
    ensures Paced(first, es + Idles(e, n), gap) && LastTick(first, es + Idles(e, n)) == e.now + n
  {
    if n == 0 {
      assert es + Idles(e, 0) == es;
    } else {
      IdlesPaced(first, es, e, n - 1, gap);
      IdlesAdd(es, e, n);
      var all, before := es + Idles(e, n), es + Idles(e, n - 1);
      forall k | 0 <= k < |all| ensures InTime(LastTick(first, all[..k]), all[k], gap) {
        if k < |before| {
          assert all[..k] == before[..k] && all[k] == before[k];
        }
      }
    }
  }

  // With no pulse running nothing renews it
  lemma {:induction false} IdlesNeverRenew(b: Iot, first: nat, es: seq<Event>, e: TickIn, n: nat)
    requires !After(b, es).pulsing
    ensures !After(b, es + Idles(e, n)).pulsing
    ensures var l, m := LitAfter(b, first, es), LitAfter(b, first, es + Idles(e, n));
            m.Lit? && m.renewed ==> l.Lit? && l.renewed
  {
    hide LitStep, Tick;
    if n == 0 {
      assert es + Idles(e, 0) == es;
    } else {
      IdlesNeverRenew(b, first, es, e, n - 1);
      IdlesAdd(es, e, n);
      StepNeverRenews(After(b, es + Idles(e, n - 1)), LitAfter(b, first, es + Idles(e, n - 1)), Idle(e, n));
    }
  }

  lemma StepNeverRenews(s: Iot, l: Lit, e: TickIn)
    requires !s.pulsing
    ensures !Tick(s, e).pulsing
    ensures var m := LitStep(l, s, Ticked(e)); m.Lit? && m.renewed ==> l.Lit? && l.renewed
  {
    NoNewPulse(s, e);
    hide Shown, ShowAll, Read, TickWindow, Tick;
    SamePulse(s, e);
    ShownKeepsRenewed(l, Shown(s, Ticked(e)));
  }

  lemma NoNewPulse(s: Iot, e: TickIn)
    ensures Tick(s, e).pulsing ==> s.pulsing
  {
    SamePulse(s, e);
  }

  lemma {:induction false} ShownKeepsRenewed(l: Lit, gs: seq<Given>)
    ensures var m := ShowAll(l, gs); m.Lit? && m.renewed ==> l.Lit? && l.renewed
    decreases gs
  {
    if gs != [] {
      ShownKeepsRenewed(Show(l, gs[0]), gs[1..]);
    }
  }

  // With nothing new, an output on by the rule stays on until its limit is over
  lemma {:induction false} IdlesStay(b: Iot, first: nat, es: seq<Event>, e: TickIn, n: nat)
    requires var p := After(b, es);
             && p.out.on && !p.pulsing && p.rule.open == InHours(p.setup, e.minute) && !p.setup.cap.NoActuator?
             && p.onSince == e.now && n < Limit(p.setup)
    requires LitAfter(b, first, es).Lit?
    ensures After(b, es + Idles(e, n)) == After(b, es) && LitAfter(b, first, es + Idles(e, n)) == LitAfter(b, first, es)
  {
    hide LitStep, Tick;
    if n == 0 {
      assert es + Idles(e, 0) == es;
    } else {
      IdlesStay(b, first, es, e, n - 1);
      IdlesAdd(es, e, n);
      IdleStays(After(b, es), LitAfter(b, first, es), e, n);
    }
  }

  lemma IdleStays(p: Iot, l: Lit, e: TickIn, k: nat)
    requires p.out.on && !p.pulsing && p.rule.open == InHours(p.setup, e.minute) && !p.setup.cap.NoActuator?
    requires p.onSince == e.now && k < Limit(p.setup) && l.Lit?
    ensures Tick(p, Idle(e, k)) == p && LitStep(l, p, Ticked(Idle(e, k))) == l
  {
    var t := Idle(e, k);
    assert Read(p, t.reading, t.read) == p && TickWindow(p, t) == p && TickPulse(p, t) == p;
    WrapsForward(e.now, t.now);
    FourShown(l, Given(true, t.read), Given(true, t.turned), Given(true, t.ended), Given(true, t.now));
  }

  // A later tick with nothing new finds the output past its limit
  ghost predicate CanOverstay(b: Iot, first: nat, all: seq<Event>, e: TickIn) {
    exists n :: OverstaysAt(b, first, all, e, n)
  }

  ghost predicate OverstaysAt(b: Iot, first: nat, all: seq<Event>, e: TickIn, n: nat) {
    Overstays(After(b, all + Idles(e, n)), LitAfter(b, first, all + Idles(e, n)), e.now + n)
  }

  lemma RenewedOverstays(b: Iot, first: nat, all: seq<Event>, e: TickIn)
    requires var p := After(b, all);
             && p.out.on && !p.pulsing && p.rule.open == InHours(p.setup, e.minute) && !p.setup.cap.NoActuator?
             && p.onSince == e.now && p.setup.maxOn != 0
    requires var l := LitAfter(b, first, all); l.Lit? && l.since < e.now
    ensures CanOverstay(b, first, all, e)
  {
    hide After, LitAfter, InHours;
    var p, l := After(b, all), LitAfter(b, first, all);
    var n := if l.since + Limit(p.setup) > e.now then l.since + Limit(p.setup) - e.now else 0;
    IdlesStay(b, first, all, e, n);
    assert OverstaysAt(b, first, all, e, n);
  }

  lemma NotRenewedNever(r: Setup, file: Option<Saved>, attached: bool, first: nat, all: seq<Event>, e: TickIn, gap: nat)
    requires Paced(first, all, gap) && LastTick(first, all) == e.now && 0 < gap <= MAX_GAP && forall v | v in all :: Sound(v)
    requires var b := Begin(r, file, attached, first);
             !After(b, all).pulsing && (LitAfter(b, first, all).Lit? ==> !LitAfter(b, first, all).renewed)
    ensures !CanOverstay(Begin(r, file, attached, first), first, all, e)
  {
    hide Begin, After, LitAfter, Paced, Sound;
    var b := Begin(r, file, attached, first);
    forall n ensures !OverstaysAt(b, first, all, e, n) {
      IdlesPaced(first, all, e, n, gap);
      IdlesSound(all, e, n);
      IdlesNeverRenew(b, first, all, e, n);
      NeverOnLonger(r, file, attached, first, all + Idles(e, n), gap, e.now + n + gap);
    }
  }

  lemma LastStep(b: Iot, first: nat, es: seq<Event>, e: TickIn)
    ensures var all := es + [Ticked(e)];
            && After(b, all) == Tick(After(b, es), e) && LastTick(first, all) == e.now
            && LitAfter(b, first, all) == LitStep(LitAfter(b, first, es), After(b, es), Ticked(e))
  {
    hide Tick, LitStep;
    assert (es + [Ticked(e)])[..|es|] == es;
  }

  // After a tick that leaves the output on with no pulse running, and not
  // renewed before it, it can stay on past its limit exactly when the tick
  // ended a pulse with the rule on, in the tick's own millisecond, of an output
  // on since before
  lemma LimitExactly(r: Setup, file: Option<Saved>, attached: bool, first: nat, es: seq<Event>, e: TickIn, gap: nat)
    requires var all := es + [Ticked(e)];
             Paced(first, all, gap) && 0 < gap <= MAX_GAP && e.now <= e.ended && forall v | v in all :: Sound(v)
    requires var b := Begin(r, file, attached, first);
             && (var p := After(b, es + [Ticked(e)]); p.out.on && !p.pulsing && p.setup.maxOn != 0)
             && (var l := LitAfter(b, first, es); l.Lit? ==> !l.renewed)
    ensures var b, all := Begin(r, file, attached, first), es + [Ticked(e)];
            var l := LitAfter(b, first, all);
            l.Lit? && (CanOverstay(b, first, all, e) <==> Renews(After(b, es), Ticked(e)) && l.since < e.now)
  {
    var b, all := Begin(r, file, attached, first), es + [Ticked(e)];
    hide *;
    LastStep(b, first, es, e);
    var s, l := After(b, es), LitAfter(b, first, all);
    NoneIsDark(r, file, attached, first, all);
    NeverOnLonger(r, file, attached, first, all, gap, 0);
    RenewedExactly(LitAfter(b, first, es), s, e);
    if Renews(s, Ticked(e)) && l.since < e.now {
      TickSetup(s, e);
      RenewedState(s, e);
      RenewedOverstays(b, first, all, e);
    } else {
      NotRenewedNever(r, file, attached, first, all, e, gap);
    }
  }

  lemma RenewedExactly(l: Lit, s: Iot, e: TickIn)
    requires l.Lit? ==> !l.renewed
    ensures var m := LitStep(l, s, Ticked(e)); m.Lit? ==> (m.renewed <==> Renews(s, Ticked(e)) && m.since < e.now)
  {
    hide Shown, ShowAll, Renews;
    ShownKeepsRenewed(l, Shown(s, Ticked(e)));
  }

  lemma {:induction false} IdlesSound(es: seq<Event>, e: TickIn, n: nat)
    requires forall v | v in es :: Sound(v)
    ensures forall v | v in es + Idles(e, n) :: Sound(v)
  {
    if n > 0 {
      IdlesSound(es, e, n - 1);
    }
  }

  lemma RenewedState(s: Iot, e: TickIn)
    requires Renews(s, Ticked(e)) && e.now <= e.ended && Tick(s, e).out.on && s.setup.maxOn != 0
    ensures var p := Tick(s, e);
            && p.onSince == e.now && p.rule.open == InHours(p.setup, e.minute) && p.setup == s.setup
            && !p.setup.cap.NoActuator?
  {
    var r := Read(s, e.reading, e.read);
    ReadTurns(s, e.reading, e.read);
    var w := TickWindow(r, e);
    WindowTurns(r, e);
    assert w.rule.open == InHours(w.setup, e.minute);
    EndsOn(w, e.now, e.ended);
    SafetyOffIsOff(TickPulse(w, e), e.now);
  }

  // ── No limit at all ────────────────────────────────────────────────────────

  // An alarm with a limit of a minute
  const ALARM := Setup(DigitalSensor, OnOff, true, 0, 0, 100, 0, 1, 1, false, true, true, 0, 0, false, false, 0, false, 0, 0)

  // A tick at t, its later readings in the same millisecond
  function At(t: nat, reading: Reading): Event {
    Ticked(TickIn(t, reading, None, t, t, t))
  }

  // The alarm goes off; then each minute a tick, and a pulse that ends with it
  function Pulses(n: nat): seq<Event> {
    if n == 0 then [At(0, Active(true))]
    else
      var t := (n - 1) * 60_000;
      Pulses(n - 1) + [At(t + 30_000, Nothing)] + [PulseAt(t + 59_000)] + [At(t + 60_000, Nothing)]
  }

  // The state after each of the minutes
  function Sounding(t: nat, until: nat): Iot {
    Iot(ALARM, Out(true, 100, 0, 0xFFFFFF), Rule(true, true, true, false, 0), false, false, false, until, t, Digital(true), None)
  }

  function PulseAt(t: nat): Event {
    Commanded(Command(Pulse, 1), t, t)
  }

  lemma OneMinute(t: nat, until: nat, l: Lit)
    requires l.Lit? && l.since <= t
    ensures var s, m := Sounding(t, until), l.(renewed := true);
            var q := Step(s, PulseAt(t + 59_000));
            && Step(s, At(t + 30_000, Nothing)) == s && LitStep(l, s, At(t + 30_000, Nothing)) == l
            && LitStep(l, s, PulseAt(t + 59_000)) == l
            && Step(q, At(t + 60_000, Nothing)) == Sounding(t + 60_000, t + 60_000)
            && LitStep(l, q, At(t + 60_000, Nothing)) == m
  {
    var s := Sounding(t, until);
    WrapsForward(t, t + 30_000);
    WrapsForward(t + 60_000, t + 60_000);
    var q := Step(s, PulseAt(t + 59_000));
    assert q == Sounding(t, t + 60_000).(manual := true, pulsing := true);
    var a, b := At(t + 30_000, Nothing).tick, At(t + 60_000, Nothing).tick;
    assert Step(s, Ticked(a)) == s && Step(q, Ticked(b)) == Sounding(t + 60_000, t + 60_000);
    FourShown(l, Given(true, a.read), Given(true, a.turned), Given(true, a.ended), Given(true, a.now));
    FourShown(l, Given(true, b.read), Given(true, b.turned), Given(true, b.ended), Given(true, b.now));
    OneShown(l, Given(true, t + 59_000));
  }

  lemma FirstTick()
    ensures var b := Begin(ALARM, None, false, 0);
            && Step(b, At(0, Active(true))) == Sounding(0, 0)
            && LitStep(Show(Dark, Given(b.out.on, 0)), b, At(0, Active(true))) == Lit.Lit(0, false)
  {
    var b := Begin(ALARM, None, false, 0);
    var t := At(0, Active(true)).tick;
    WrapsForward(0, 0);
    assert Step(b, Ticked(t)) == Sounding(0, 0);
    FourShown(Dark, Given(true, 0), Given(true, 0), Given(true, 0), Given(true, 0));
  }

  // The alarm's limit is a minute, and with a pulse a minute it sounds for as
  // long as one likes: its pin high, the same since the first tick
  lemma {:induction false} NoLimitAtAll(n: nat)
    ensures var b := Begin(ALARM, None, false, 0);
            && Paced(0, Pulses(n), 30_000) && LastTick(0, Pulses(n)) == n * 60_000
            && After(b, Pulses(n)) == Sounding(n * 60_000, n * 60_000)
            && LitAfter(b, 0, Pulses(n)) == Lit.Lit(0, n > 0)
  {
    hide Begin, Paced, LastTick, After, LitAfter, Sounding, At, PulseAt;
    var b := Begin(ALARM, None, false, 0);
    if n == 0 {
      NoMinutes();
    } else {
      NoLimitAtAll(n - 1);
      AnotherMinute(b, Pulses(n - 1), (n - 1) * 60_000, n > 1);
    }
  }

  lemma NoMinutes()
    ensures var b := Begin(ALARM, None, false, 0);
            && Paced(0, Pulses(0), 30_000) && LastTick(0, Pulses(0)) == 0
            && After(b, Pulses(0)) == Sounding(0, 0) && LitAfter(b, 0, Pulses(0)) == Lit.Lit(0, false)
  {
    hide Begin, LitStep, Step;
    var b := Begin(ALARM, None, false, 0);
    FirstTick();
    OneMore(b, 0, [], At(0, Active(true)), 30_000);
    assert [] + [At(0, Active(true))] == Pulses(0);
  }

  lemma AnotherMinute(b: Iot, es: seq<Event>, t: nat, renewed: bool)
    requires Paced(0, es, 30_000) && LastTick(0, es) == t
    requires After(b, es) == Sounding(t, t) && LitAfter(b, 0, es) == Lit.Lit(0, renewed)
    ensures var all := es + [At(t + 30_000, Nothing)] + [PulseAt(t + 59_000)] + [At(t + 60_000, Nothing)];
            && Paced(0, all, 30_000) && LastTick(0, all) == t + 60_000
            && After(b, all) == Sounding(t + 60_000, t + 60_000) && LitAfter(b, 0, all) == Lit.Lit(0, true)
  {
    hide Paced, LastTick, After, LitAfter, Sounding, LitStep, Step;
    OneMinute(t, t, Lit.Lit(0, renewed));
    OneMore(b, 0, es, At(t + 30_000, Nothing), 30_000);
    var fs := es + [At(t + 30_000, Nothing)];
    OneMore(b, 0, fs, PulseAt(t + 59_000), 30_000);
    OneMore(b, 0, fs + [PulseAt(t + 59_000)], At(t + 60_000, Nothing), 30_000);
  }

  lemma OneMore(b: Iot, first: nat, es: seq<Event>, e: Event, gap: nat)
    requires Paced(first, es, gap) && InTime(LastTick(first, es), e, gap)
    ensures var all := es + [e];
            && Paced(first, all, gap) && LastTick(first, all) == (if e.Ticked? then e.tick.now else LastTick(first, es))
            && After(b, all) == Step(After(b, es), e)
            && LitAfter(b, first, all) == LitStep(LitAfter(b, first, es), After(b, es), e)
  {
    hide Step, LitStep, InTime;
    var all := es + [e];
    assert all[..|es|] == es;
    forall k | 0 <= k < |all| ensures InTime(LastTick(first, all[..k]), all[k], gap) {
      if k < |es| {
        assert all[..k] == es[..k];
      }
    }
  }
}
