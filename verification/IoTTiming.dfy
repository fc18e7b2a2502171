/** How long the output stays on: the safety limit over 32-bit clock readings,
    the rule's hysteresis, the time window, and the light's brightness. */
module IoTTiming {
  import opened Text
  import opened IoTService
  import opened IoTSafety

  // ── The safety limit ───────────────────────────────────────────────────────

  // The clock may be read this much after the last tick: what the longest
  // limit leaves of the 32 bits (over four days)
  const MAX_GAP := WORD - 65535 * 60_000

  // Whether the tick's check cuts the output: because the limit is over, or
  // because the tick was given a reading older than the one at turning on
  lemma OverdueExactly(s: Iot, now: nat)
    requires s.out.on && s.setup.maxOn != 0
    requires s.onSince - now <= MAX_GAP && now - s.onSince < WORD
    ensures Overdue(s, now) <==> now < s.onSince || now - s.onSince >= Limit(s.setup)
  {
    if now >= s.onSince {
      WrapsForward(s.onSince, now);
    } else {
      WrapsBack(s.onSince, now);
    }
  }

  lemma WrapsForward(from: nat, to: nat)
    requires from <= to < from + WORD
    ensures Since(Clock(to), Clock(from)) == to - from
  {
  }

  lemma WrapsBack(from: nat, to: nat)
    requires to < from < to + WORD
    ensures Since(Clock(to), Clock(from)) == WORD - (from - to)
  {
  }

  // A rule that turns the output on within a tick keeps it on exactly when it
  // read the same millisecond as the tick was given; otherwise the same tick
  // turns it off for safety, and leaves automatic mode
  lemma RuleTurnsOnExactly(s: Iot, e: TickIn)
    requires Kept(s) && HasRule(s.setup) && !s.manual && !s.out.on && s.setup.maxOn != 0
    requires InHours(s.setup, e.minute) == s.rule.open && Read(s, e.reading, e.read).out.on
    requires e.now <= e.read <= e.now + MAX_GAP
    ensures var t := Tick(s, e); (t.out.on <==> e.read == e.now) && (t.manual <==> e.read != e.now)
  {
    ReadKeeps(s, e.reading, e.read);
    var r := Read(s, e.reading, e.read);
    assert !s.pulsing;
    ReadTurns(s, e.reading, e.read);
    assert r.onSince == e.read && !r.manual && !r.pulsing && r.setup == s.setup;
    assert TickPulse(TickWindow(r, e), e) == r;
    OverdueExactly(r, e.now);
  }

  // A reading turns the output on at the time it reads, and no other way
  lemma ReadTurns(s: Iot, r: Reading, millis: nat)
    ensures var t := Read(s, r, millis);
            && t.setup == s.setup && t.manual == s.manual && t.pulsing == s.pulsing
            && (t.out.on ==> t.onSince == if s.out.on then s.onSince else millis)
  {
  }

  // ── Time on, over runs ─────────────────────────────────────────────────────

  // The last tick's reading
  function LastTick(first: nat, es: seq<Event>): nat {
    if es == [] then first
    else
      var e := es[|es| - 1];
      if e.Ticked? then e.tick.now else LastTick(first, es[..|es| - 1])
  }

  // Readings between last and gap later; the ones a tick takes, after its own
  predicate InTime(last: nat, e: Event, gap: nat) {
    match e
    case Ticked(t) =>
      && last <= t.now <= last + gap
      && last <= t.read <= t.now + gap && last <= t.turned <= t.now + gap && last <= t.ended <= t.now + gap
    case Commanded(c, now, millis) => last <= now <= last + gap && last <= millis <= last + gap
    case Restarted(r, attached, millis) => last <= millis <= last + gap
  }

  ghost predicate Paced(first: nat, es: seq<Event>, gap: nat) {
    forall k | 0 <= k < |es| :: InTime(LastTick(first, es[..k]), es[k], gap)
  }

  // An output that is on was turned on less than the limit before the last tick
  ghost predicate WithinLimit(s: Iot, last: nat, gap: nat) {
    s.out.on && s.setup.maxOn != 0 && !s.setup.cap.NoActuator? ==> s.onSince <= last + gap && last < s.onSince + Limit(s.setup)
  }

  // On since as long as before, or since some reading in the range
  ghost predicate OnSince(s: Iot, t: Iot, lo: int, hi: int) {
    t.setup == s.setup && (t.out.on ==> (s.out.on && t.onSince == s.onSince) || lo <= t.onSince <= hi)
  }

  lemma TickPartsOnSince(s: Iot, e: TickIn, lo: int, hi: int)
    requires lo <= e.read <= hi && lo <= e.turned <= hi && lo <= e.ended <= hi
    ensures OnSince(s, TickPulse(TickWindow(Read(s, e.reading, e.read), e), e), lo, hi)
  {
    var r := Read(s, e.reading, e.read);
    ReadTurns(s, e.reading, e.read);
    var w := TickWindow(r, e);
    assert OnSince(s, w, lo, hi);
    PulseOnSince(w, e);
  }

  lemma PulseOnSince(w: Iot, e: TickIn)
    ensures OnSince(w, TickPulse(w, e), e.ended, e.ended)
  {
  }

  // After a tick: on only if turned on no later than the tick's reading, and
  // less than the limit before it
  lemma TickWithin(s: Iot, last: nat, e: TickIn, gap: nat)
    requires WithinLimit(s, last, gap) && InTime(last, Ticked(e), gap) && gap <= MAX_GAP
    requires !s.setup.cap.NoActuator? && s.setup.maxOn != 0
    ensures var t := Tick(s, e); t.setup == s.setup && (t.out.on ==> t.onSince <= e.now < t.onSince + Limit(s.setup))
  {
    var p := TickPulse(TickWindow(Read(s, e.reading, e.read), e), e);
    TickPartsOnSince(s, e, last, e.now + gap);
    SafetyOffIsOff(p, e.now);
    assert Tick(s, e) == if Overdue(p, e.now) then SafetyOff(p, e.now) else p;
    if p.out.on {
      OverdueExactly(p, e.now);
    }
  }

  lemma SafetyOffIsOff(s: Iot, now: nat)
    ensures !SafetyOff(s, now).out.on && SafetyOff(s, now).setup == s.setup
  {
  }

  lemma StepWithin(s: Iot, last: nat, e: Event, gap: nat)
    requires WithinLimit(s, last, gap) && InTime(last, e, gap) && gap <= MAX_GAP
    ensures WithinLimit(Step(s, e), if e.Ticked? then e.tick.now else last, gap)
  {
    match e
    case Ticked(t) =>
      TickSetup(s, t);
      if !s.setup.cap.NoActuator? && s.setup.maxOn != 0 {
        TickWithin(s, last, t, gap);
      }
    case Commanded(c, now, millis) =>
      CommandOnSince(s, c, now, millis, last, last + gap);
    case Restarted(r, attached, millis) =>
  }

  lemma TickSetup(s: Iot, e: TickIn)
    ensures Tick(s, e).setup == s.setup
  {
    ReadTurns(s, e.reading, e.read);
    var w := TickWindow(Read(s, e.reading, e.read), e);
    assert w.setup == s.setup;
    PulseOnSince(w, e);
    SafetyOffIsOff(TickPulse(w, e), e.now);
  }

  lemma CommandOnSince(s: Iot, c: Command, now: nat, millis: nat, lo: int, hi: int)
    requires lo <= now <= hi && lo <= millis <= hi
    ensures OnSince(s, Run(s, c, now, millis).1, lo, hi)
  {
    var off := s.(pulsing := false);
    ResumeOnSince(off, millis);
    ApplyOnSince(off, c, now);
    if !s.setup.cap.NoActuator? && Allowed(s.setup.cap, c.op) && !c.op.Status? {
      var q := if c.op.Auto? then Resume(off, millis) else Apply(off, c, now).(manual := HasRule(s.setup));
      assert OnSince(s, q, lo, hi);
      Written(q);
    }
  }

  lemma Written(s: Iot)
    ensures var d := Drive(s); d.out == s.out && d.onSince == s.onSince && d.setup == s.setup
    ensures var t := Persist(Drive(s)); t.out == s.out && t.onSince == s.onSince && t.setup == s.setup
  {
  }

  lemma ResumeOnSince(s: Iot, millis: nat)
    ensures OnSince(s, Resume(s, millis), millis, millis)
  {
  }

  lemma ApplyOnSince(s: Iot, c: Command, now: nat)
    ensures OnSince(s, Apply(s, c, now), now, now)
  {
    var (o, on) := Set(s.setup, s.out, c);
    assert SetOn(s.(out := o), on, now).setup == s.setup;
  }

  // A command from the panel is stamped after the tick's reading was taken: if
  // it turns the output on, that tick turns it off again. (Back to automatic,
  // if the rule has nothing new to say by then.)
  lemma PanelIsCut(s: Iot, c: Command, at: nat, e: TickIn)
    requires Kept(s) && c.InRange() && s.setup.maxOn != 0 && !s.out.on && e.now < at <= e.now + MAX_GAP
    requires c.op.Auto? ==> e.reading.Nothing? && s.rule.open == InHours(s.setup, e.minute)
    requires Run(s, c, at, at).1.out.on
    ensures !Tick(Run(s, c, at, at).1, e).out.on
  {
    var q := Run(s, c, at, at).1;
    CommandOnSince(s, c, at, at, at, at);
    var p := TickPulse(TickWindow(Read(q, e.reading, e.read), e), e);
    assert p.out == q.out && p.onSince == at && p.setup == s.setup by {
      StillPanels(s, c, at, e);
    }
    WrapsBack(at, e.now);
    SafetyOffIsOff(p, e.now);
  }

  // Nothing in the tick touches what the command set
  lemma StillPanels(s: Iot, c: Command, at: nat, e: TickIn)
    requires Kept(s) && c.InRange() && !s.out.on && Run(s, c, at, at).1.out.on && e.now < at <= e.now + MAX_GAP
    requires c.op.Auto? ==> e.reading.Nothing? && s.rule.open == InHours(s.setup, e.minute)
    ensures var q := Run(s, c, at, at).1;
            var p := TickPulse(TickWindow(Read(q, e.reading, e.read), e), e);
            p.out == q.out && p.onSince == q.onSince && p.setup == q.setup
  {
    var q := Run(s, c, at, at).1;
    if c.op.Auto? {
      AutoLeaves(s, c, at);
    } else {
      CommandMeans(s, c, at, at);
      SetLeaves(s, c, at);
      if q.pulsing {
        WrapsBack(q.pulseUntil, e.now);
      }
    }
  }

  lemma AutoLeaves(s: Iot, c: Command, at: nat)
    requires c.op.Auto? && Run(s, c, at, at).1.out.on && !s.out.on
    ensures var q := Run(s, c, at, at).1; !q.pulsing && q.rule == s.rule && q.setup == s.setup
  {
  }

  lemma SetLeaves(s: Iot, c: Command, at: nat)
    ensures Run(s, c, at, at).1.setup == s.setup
  {
    CommandOnSince(s, c, at, at, at, at);
  }

  // With a limit, the field of an output that is on is never further back than
  // the limit and one gap between ticks, wherever the counter goes round
  lemma {:induction false} SinceBounded(r: Setup, file: Option<Saved>, attached: bool, first: nat, es: seq<Event>, gap: nat, t: nat)
    requires Paced(first, es, gap) && gap <= MAX_GAP
    ensures WithinLimit(After(Begin(r, file, attached, first), es), LastTick(first, es), gap)
    ensures var s := After(Begin(r, file, attached, first), es);
            && s.out.on && s.setup.maxOn != 0 && !s.setup.cap.NoActuator? && t <= LastTick(first, es) + gap
            ==> t < s.onSince + Limit(s.setup) + gap
  {
    if es != [] {
      var n := |es| - 1;
      assert forall k | 0 <= k < n :: es[..n][..k] == es[..k];
      assert InTime(LastTick(first, es[..n]), es[n], gap);
      SinceBounded(r, file, attached, first, es[..n], gap, t);
      StepWithin(After(Begin(r, file, attached, first), es[..n]), LastTick(first, es[..n]), es[n], gap);
    }
  }

  // ── The rule ───────────────────────────────────────────────────────────────

  // A reading past the limit, and one past the limit by the margin the other way
  predicate Turns(u: Setup, tenths: bool, value: int, on: bool) {
    var scale := if tenths then 10 else 1;
    var limit, margin := u.threshold * scale, u.margin * scale;
    if on then if u.above then value >= limit else value <= limit
    else if u.above then value < limit - margin else value > limit + margin
  }

  // The rule after readings, from the first
  function Decided(u: Setup, r: Rule, tenths: bool, values: seq<int>): Rule {
    if values == [] then r
    else Learned(u, Decided(u, r, tenths, values[..|values| - 1]), false, Number(values[|values| - 1], tenths))
  }

  // The reading k passed the limit and none since came back by the margin
  ghost predicate TurnsAndStays(u: Setup, tenths: bool, values: seq<int>, k: nat)
    requires k < |values|
  {
    Turns(u, tenths, values[k], true) && forall v | v in values[k + 1..] :: !Turns(u, tenths, v, false)
  }

  // The rule is on exactly when some reading passed the limit and none since
  // came back by more than the margin
  lemma {:induction false} RuleExactly(u: Setup, r: Rule, tenths: bool, values: seq<int>)
    requires !r.have && !r.on && !Proportional(u)
    ensures Decided(u, r, tenths, values).on <==>
            exists k | 0 <= k < |values| :: TurnsAndStays(u, tenths, values, k)
    ensures values != [] ==> Decided(u, r, tenths, values).have
  {
    if values != [] {
      var n := |values| - 1;
      var before := values[..n];
      RuleExactly(u, r, tenths, before);
      var was, on := Decided(u, r, tenths, before), Decided(u, r, tenths, values).on;
      assert on == if Turns(u, tenths, values[n], true) then true else was.on && !Turns(u, tenths, values[n], false);
      if Turns(u, tenths, values[n], true) {
        assert TurnsAndStays(u, tenths, values, n);
      } else {
        forall k: nat | k < n
          ensures TurnsAndStays(u, tenths, values, k) <==>
                  TurnsAndStays(u, tenths, before, k) && !Turns(u, tenths, values[n], false)
        {
          StaysOneMore(u, tenths, values, k);
        }
        if on {
          var k: nat :| k < n && TurnsAndStays(u, tenths, before, k);
          assert TurnsAndStays(u, tenths, values, k);
        }
      }
    }
  }

  lemma StaysOneMore(u: Setup, tenths: bool, values: seq<int>, k: nat)
    requires k < |values| - 1
    ensures var n := |values| - 1;
            TurnsAndStays(u, tenths, values, k) <==>
            TurnsAndStays(u, tenths, values[..n], k) && !Turns(u, tenths, values[n], false)
  {
    var n := |values| - 1;
    assert values[k + 1..] == values[..n][k + 1..] + [values[n]];
  }

  // ── The time window ────────────────────────────────────────────────────────

  // A minute of the day, the one at tz minutes from UTC
  lemma LocalMinuteExactly(unix: Word, tz: int)
    requires -32768 <= tz < 32768
    ensures LocalMinute(unix, tz) == (unix / 60 + tz) % 1440
  {
    var a := unix % 86400 + tz * 60;
    FloorRemainder(a);
    assert LocalMinute(unix, tz) == a % 86400 / 60;
    MinuteOfDay(a);
    MinuteOfDay(unix);
    Shifted(unix % 86400, tz);
    SameDay(unix / 60, tz);
  }

  lemma Shifted(second: int, tz: int)
    ensures (second + tz * 60) / 60 == second / 60 + tz
  {
  }

  lemma SameDay(minute: int, tz: int)
    ensures (minute % 1440 + tz) % 1440 == (minute + tz) % 1440
  {
  }

  // The two remainders make the floor one, also of a negative time
  lemma FloorRemainder(a: int)
    ensures Remainder(Remainder(a, 86400) + 86400, 86400) == a % 86400
  {
    assert Remainder(a, 86400) == if a >= 0 then a % 86400 else -(-a % 86400);
  }

  lemma MinuteOfDay(a: int)
    ensures a % 86400 / 60 == a / 60 % 1440
  {
  }

  // The window is the minutes from its start up to its end, going round the
  // day; all of it if they are the same
  lemma InHoursExactly(u: Setup, minute: nat)
    requires u.window && u.winStart < DAY_MINUTES && u.winEnd < DAY_MINUTES && minute < DAY_MINUTES
    ensures InHours(u, Some(minute)) <==>
            u.winStart == u.winEnd || (minute - u.winStart) % DAY_MINUTES < (u.winEnd - u.winStart) % DAY_MINUTES
  {
  }

  // ── Brightness ─────────────────────────────────────────────────────────────

  // Each channel scaled on its own: none carries into the next
  lemma ScaleExactly(rgb: nat, level: Byte)
    requires level <= 100
    ensures var c := Scale(rgb, level);
            && c < 0x1_000000
            && c / 65536 % 256 == Dimmed(rgb / 65536 % 256, level)
            && c / 256 % 256 == Dimmed(rgb / 256 % 256, level)
            && c % 256 == Dimmed(rgb % 256, level)
  {
    DimmedAtMost(rgb / 65536 % 256, level);
    DimmedAtMost(rgb / 256 % 256, level);
    DimmedAtMost(rgb % 256, level);
    Packed(Dimmed(rgb / 65536 % 256, level), Dimmed(rgb / 256 % 256, level), Dimmed(rgb % 256, level));
  }

  lemma Packed(r: nat, g: nat, b: nat)
    requires r < 256 && g < 256 && b < 256
    ensures var c := r * 65536 + g * 256 + b; c < 0x1_000000 && c / 65536 % 256 == r && c / 256 % 256 == g && c % 256 == b
  {
    assert (r * 65536 + g * 256 + b) / 256 == r * 256 + g;
  }

  lemma DimmedAtMost(channel: nat, level: Byte)
    requires level <= 100
    ensures Dimmed(channel, level) <= channel
  {
    assert channel * level <= channel * 100;
  }
}
