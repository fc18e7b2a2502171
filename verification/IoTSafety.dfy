/** What the actuator keeps: over any sequence of commands, sensor readings,
    window changes, pulses and restarts. */
module IoTSafety {
  import opened Text
  import opened IoTService

  // ── Invariants ─────────────────────────────────────────────────────────────

  // A running pulse is on, and nothing but its end or a command turns it off
  ghost predicate PulseHolds(s: Iot) {
    s.pulsing ==> s.out.on && (s.manual || !HasRule(s.setup))
  }

  // In automatic mode, once the rule has something to say, the output is what
  // it says, and off outside the window
  ghost predicate Follows(s: Iot) {
    HasRule(s.setup) && !s.manual && RuleKnown(s.rule) ==> Ruling(s.setup, s.rule, s.out)
  }

  ghost predicate Ruling(u: Setup, r: Rule, o: Out) {
    o.on == (r.on && r.open) && (Proportional(u) ==> o.level == if r.open then r.level else u.dutyOff)
  }

  // The pin shows the state
  ghost predicate Driven(s: Iot) {
    s.pin == if CanDrive(s) then Shows(s.setup, s.out) else Undriven
  }

  // Nothing beyond what the output takes
  ghost predicate Bounded(s: Iot) {
    s.setup.dutyOn <= 100 && s.setup.dutyOff <= 100 && s.rule.level <= 100 && InBounds(s.out)
  }

  ghost predicate InBounds(o: Out) {
    o.level <= 100 && o.rgb < 0x1_000000
  }

  ghost predicate Kept(s: Iot) {
    PulseHolds(s) && Follows(s) && Driven(s) && Bounded(s)
  }

  // With the rule in charge and the window closed, the output is off
  lemma ClosedIsOff(s: Iot)
    requires Kept(s) && HasRule(s.setup) && !s.manual && !s.rule.open
    ensures !s.out.on && !s.pulsing
  {
  }

  // ── The proportional rule ──────────────────────────────────────────────────

  lemma QuotientBetween(a: int, b: int, lo: int, hi: int)
    requires b > 0 && lo <= 0 <= hi && lo * b <= a <= hi * b
    ensures lo <= Quotient(a, b) <= hi
  {
    if a >= 0 {
      DivAtMost(a, b, hi);
    } else {
      assert -a <= -lo * b;
      DivAtMost(-a, b, -lo);
    }
  }

  lemma DivAtMost(a: nat, b: int, q: nat)
    requires b > 0 && a <= q * b
    ensures 0 <= a / b <= q
  {
  }

  lemma ScaledBetween(d: int, x: int, n: int)
    requires 0 <= x <= n
    ensures d >= 0 ==> 0 <= d * x <= d * n
    ensures d <= 0 ==> d * n <= d * x <= 0
  {
  }

  // Between the two duties, so the cast to a byte changes nothing
  lemma MapDutyBetween(u: Setup, value: int, tenths: bool)
    ensures var r := MapDuty(u, value, tenths);
            if u.dutyOff <= u.dutyOn then u.dutyOff <= r <= u.dutyOn else u.dutyOn <= r <= u.dutyOff
  {
    var scale := if tenths then 10 else 1;
    var lo, hi := u.threshold * scale, u.thresholdHi * scale;
    if lo < value < hi {
      var d, x, n := u.dutyOn - u.dutyOff, value - lo, hi - lo;
      ScaledBetween(d, x, n);
      if d >= 0 {
        QuotientBetween(d * x, n, 0, d);
      } else {
        QuotientBetween(d * x, n, d, 0);
      }
    }
  }

  lemma QuotientMonotone(a: int, b: int, n: int)
    requires n > 0 && a <= b
    ensures Quotient(a, n) <= Quotient(b, n)
  {
    if a >= 0 {
      DivMonotone(a, b, n);
    } else if b < 0 {
      DivMonotone(-b, -a, n);
    } else {
      assert Quotient(a, n) <= 0 by {
        DivMonotone(0, -a, n);
      }
      DivMonotone(0, b, n);
    }
  }

  lemma DivMonotone(a: nat, b: nat, n: int)
    requires n > 0 && a <= b
    ensures 0 <= a / n <= b / n
  {
    assert a / n * n <= a && b < b / n * n + n;
    PositiveProduct(b / n + 1 - a / n, n);
  }

  lemma PositiveProduct(x: int, n: int)
    requires n > 0 && x * n > 0
    ensures x > 0
  {
  }

  // Between the limits
  lemma SlopeMonotone(d: int, x: int, y: int, n: int)
    requires n > 0 && x <= y
    ensures d >= 0 ==> Quotient(d * x, n) <= Quotient(d * y, n)
    ensures d <= 0 ==> Quotient(d * x, n) >= Quotient(d * y, n)
  {
    if d >= 0 {
      assert d * x <= d * y;
      QuotientMonotone(d * x, d * y, n);
    }
    if d <= 0 {
      assert d * y <= d * x;
      QuotientMonotone(d * y, d * x, n);
    }
  }

  function Abs(x: int): nat {
    if x < 0 then -x else x
  }

  function Within(x: int, lo: int, hi: int): int {
    if x < lo then lo else if x > hi then hi else x
  }

  // moved is d * x / n, rounded toward zero
  ghost predicate OnLine(moved: int, d: int, x: nat, n: int) {
    && Abs(moved) * n <= Abs(d) * x < (Abs(moved) + 1) * n
    && (d >= 0 ==> moved >= 0) && (d <= 0 ==> moved <= 0)
  }

  lemma QuotientRounds(d: int, x: nat, n: int)
    requires n > 0
    ensures OnLine(Quotient(d * x, n), d, x, n)
  {
    ProductSign(d, x);
    DivRounds(Abs(d) * x, n);
  }

  lemma ProductSign(d: int, x: nat)
    ensures d >= 0 ==> d * x >= 0
    ensures d <= 0 ==> d * x <= 0 && -d * x == -(d * x)
  {
  }

  lemma DivRounds(a: nat, n: int)
    requires n > 0
    ensures 0 <= a / n && a / n * n <= a < (a / n + 1) * n
  {
  }

  lemma LineEnds(d: int, n: int)
    requires n > 0
    ensures OnLine(0, d, 0, n) && OnLine(d, d, n, n)
  {
    assert Abs(d) * n < (Abs(d) + 1) * n;
  }

  // Between the two limits the duty is on the line through (threshold, off) and
  // (thresholdHi, on), rounded toward off; past them it is at that end
  lemma MapDutyLine(u: Setup, value: int, tenths: bool)
    requires u.threshold < u.thresholdHi
    ensures var scale := if tenths then 10 else 1;
            var lo, hi := u.threshold * scale, u.thresholdHi * scale;
            OnLine(MapDuty(u, value, tenths) - u.dutyOff, u.dutyOn - u.dutyOff, Within(value, lo, hi) - lo, hi - lo)
  {
    hide OnLine, Quotient;
    var scale := if tenths then 10 else 1;
    var lo, hi := u.threshold * scale, u.thresholdHi * scale;
    LineEnds(u.dutyOn - u.dutyOff, hi - lo);
    if lo < value < hi {
      QuotientRounds(u.dutyOn - u.dutyOff, value - lo, hi - lo);
    }
  }

  // More of the reading never moves the duty back towards the "off" one
  lemma MapDutyMonotone(u: Setup, v: int, w: int, tenths: bool)
    requires v <= w
    ensures u.dutyOff <= u.dutyOn ==> MapDuty(u, v, tenths) <= MapDuty(u, w, tenths)
    ensures u.dutyOff >= u.dutyOn ==> MapDuty(u, v, tenths) >= MapDuty(u, w, tenths)
  {
    var scale := if tenths then 10 else 1;
    var lo, hi := u.threshold * scale, u.thresholdHi * scale;
    MapDutyBetween(u, v, tenths);
    MapDutyBetween(u, w, tenths);
    if lo < v && w < hi {
      SlopeMonotone(u.dutyOn - u.dutyOff, v - lo, w - lo, hi - lo);
    }
  }

  // ── What each part keeps ───────────────────────────────────────────────────

  // t is s but for the output, the pin and the file
  ghost predicate Same(s: Iot, t: Iot) {
    t.setup == s.setup && t.rule == s.rule && t.servoOk == s.servoOk
  }

  lemma RuledKeeps(u: Setup, r: Rule, o: Out)
    requires u.dutyOn <= 100 && u.dutyOff <= 100 && r.level <= 100 && InBounds(o)
    ensures var q := Ruled(u, r, o).(on := r.on && r.open);
            InBounds(q) && Ruling(u, r, q) && (!RuleChanges(u, r, o) ==> q == o)
  {
  }

  lemma TakeRuleKeeps(s: Iot, millis: nat)
    requires Bounded(s) && !s.pulsing
    ensures var t := TakeRule(s, millis);
            && Bounded(t) && PulseHolds(t) && Follows(t) && Same(s, t) && t.file == s.file && t.pin == s.pin
            && !t.pulsing && t.manual == s.manual
            && (!RuleChanges(s.setup, s.rule, s.out) ==> t.out == s.out)
  {
    RuledKeeps(s.setup, s.rule, s.out);
  }

  ghost predicate Fresh(s: Iot) {
    !CanDrive(s) ==> s.pin == Undriven
  }

  lemma DriveKeeps(s: Iot)
    requires Fresh(s)
    ensures var t := Drive(s); Driven(t) && t == s.(pin := t.pin)
  {
  }

  lemma TakeRuleDrivingKeeps(s: Iot, millis: nat)
    requires Bounded(s) && !s.pulsing && Driven(s)
    ensures var t := TakeRuleDriving(s, millis); Kept(t) && !t.pulsing && t.file == s.file && Same(s, t)
  {
    TakeRuleKeeps(s, millis);
    DriveKeeps(TakeRule(s, millis));
  }

  lemma LearnedKeeps(u: Setup, r: Rule, on: bool, reading: Reading)
    requires u.dutyOn <= 100 && u.dutyOff <= 100 && r.level <= 100
    ensures var q := Learned(u, r, on, reading); q.level <= 100 && (!reading.Nothing? ==> q.have) && q.open == r.open
  {
    if reading.Number? {
      MapDutyBetween(u, reading.value, reading.tenths);
    }
  }

  lemma ReadKeeps(s: Iot, r: Reading, millis: nat)
    requires Kept(s)
    ensures var t := Read(s, r, millis);
            Kept(t) && t.file == s.file && t.setup == s.setup && t.rule.open == s.rule.open
  {
    if !r.Nothing? && HasRule(s.setup) {
      LearnedKeeps(s.setup, s.rule, s.out.on, r);
      var q := s.(rule := Learned(s.setup, s.rule, s.out.on, r));
      if !q.manual {
        TakeRuleDrivingKeeps(q, millis);
      }
    }
  }

  lemma TickWindowKeeps(s: Iot, e: TickIn)
    requires Kept(s)
    ensures var t := TickWindow(s, e);
            Kept(t) && t.file == s.file && t.setup == s.setup && t.rule.open == InHours(s.setup, e.minute)
  {
    var q := s.(rule := s.rule.(open := InHours(s.setup, e.minute)));
    if q.rule.open != s.rule.open && HasRule(q.setup) && !q.manual {
      TakeRuleDrivingKeeps(q, e.turned);
    }
  }

  // What a write to the state file leaves: the state, with no pulse running
  ghost predicate Wrote(s: Iot, t: Iot) {
    t.file == s.file || (!t.pulsing && t.file == Some(Saved(t.manual, t.out)))
  }

  // The end of every change but a pulse's start: drive and write
  lemma WriteKeeps(s: Iot)
    requires Bounded(s) && Follows(s) && Fresh(s) && !s.pulsing
    ensures var t := Persist(Drive(s));
            Kept(t) && !t.pulsing && Wrote(s, t) && Same(s, t) && t.out == s.out && t.manual == s.manual
  {
    DriveKeeps(s);
  }

  lemma ResumeKeeps(s: Iot, millis: nat)
    requires Bounded(s) && !s.pulsing && Fresh(s)
    ensures var t := Resume(s, millis);
            Bounded(t) && Follows(t) && Fresh(t) && !t.pulsing && Same(s, t) && t.file == s.file
  {
    TakeRuleKeeps(s.(manual := false), millis);
  }

  lemma EndPulseKeeps(s: Iot, now: nat, millis: nat)
    requires Kept(s)
    ensures var t := EndPulse(s, now, millis); Kept(t) && !t.pulsing && Wrote(s, t) && Same(s, t)
  {
    var off := SetOn(s.(pulsing := false), false, now);
    assert off == s.(pulsing := false, out := s.out.(on := false));
    ResumeKeeps(off, millis);
    WriteKeeps(if HasRule(off.setup) then Resume(off, millis) else off);
  }

  lemma SafetyOffKeeps(s: Iot, now: nat)
    requires Kept(s)
    ensures var t := SafetyOff(s, now); Kept(t) && !t.pulsing && Wrote(s, t) && Same(s, t) && !t.out.on
  {
    WriteKeeps(SetOn(s.(pulsing := false), false, now).(manual := HasRule(s.setup)));
  }

  // A tick: and a pulse still running has not reached its end
  lemma TickKeeps(s: Iot, e: TickIn)
    requires Kept(s)
    ensures var t := Tick(s, e);
            && Kept(t) && t.setup == s.setup
            && (t.pulsing ==> t.file == s.file)
            && (!s.setup.cap.NoActuator? ==>
                 && t.rule.open == InHours(s.setup, e.minute) && !Overdue(t, e.now)
                 && (t.pulsing ==> !Reached(Clock(e.now), Clock(t.pulseUntil))))
  {
    var r := Read(s, e.reading, e.read);
    ReadKeeps(s, e.reading, e.read);
    if !s.setup.cap.NoActuator? {
      var w := TickWindow(r, e);
      TickWindowKeeps(r, e);
      EndPulseKeeps(w, e.now, e.ended);
      var p := TickPulse(w, e);
      assert Kept(p) && Same(w, p);
      SafetyOffKeeps(p, e.now);
    }
  }

  lemma SetKeeps(u: Setup, o: Out, c: Command)
    requires u.dutyOn <= 100 && InBounds(o) && c.InRange()
    ensures InBounds(Set(u, o, c).0)
  {
  }

  lemma CommandKeeps(s: Iot, c: Command, now: nat, millis: nat)
    requires Kept(s) && c.InRange()
    ensures var t := Run(s, c, now, millis).1; Kept(t) && Wrote(s, t) && t.setup == s.setup && (t.pulsing ==> t.file == s.file)
  {
    if Allowed(s.setup.cap, c.op) && !c.op.Status? {
      var off := s.(pulsing := false);
      if c.op.Auto? {
        ResumeKeeps(off, millis);
        WriteKeeps(Resume(off, millis));
      } else {
        SetKeeps(s.setup, s.out, c);
        var q := Apply(off, c, now).(manual := HasRule(s.setup));
        assert q.out == Set(s.setup, s.out, c).0.(on := Set(s.setup, s.out, c).1);
        assert q.pulsing ==> q.out.on;
        DriveKeeps(q);
        if !q.pulsing {
          WriteKeeps(q);
        }
      }
    }
  }

  // A command means what it says: the state of the output after it
  lemma CommandMeans(s: Iot, c: Command, now: nat, millis: nat)
    requires c.InRange() && Allowed(s.setup.cap, c.op) && !c.op.Status? && !c.op.Auto?
    ensures var t := Run(s, c, now, millis).1;
            && t.manual == HasRule(s.setup)
            && (t.pulsing <==> c.op.Pulse?) && (t.pulsing ==> t.pulseUntil == now + c.value * 1000)
            && (t.out.on <==> match c.op
                              case Off => false
                              case Toggle => !s.out.on
                              case LevelOp => c.value > 0
                              case Angle => c.value != s.setup.angleOff
                              case _ => true)
            && (c.op.LevelOp? ==> t.out.level == c.value) && (c.op.Angle? ==> t.out.angle == c.value)
            && (c.op.ColorOp? ==> t.out.rgb == c.value)
            && (t.out.on ==> t.onSince == if s.out.on then s.onSince else now)
  {
    var q := Apply(s.(pulsing := false), c, now);
    assert q.out == Set(s.setup, s.out, c).0.(on := Set(s.setup, s.out, c).1);
  }

  lemma BeginKeeps(r: Setup, file: Option<Saved>, attached: bool, millis: nat)
    ensures var t := Begin(r, file, attached, millis); Kept(t) && !t.pulsing && t.file == file && t.setup == Clamped(r)
  {
  }

  // ── Runs ───────────────────────────────────────────────────────────────────

  datatype Event =
    | Ticked(tick: TickIn)
    | Commanded(command: Command, now: nat, millis: nat)
    | Restarted(setup: Setup, attached: bool, millis: nat)

  function Step(s: Iot, e: Event): Iot {
    match e
    case Ticked(tick) => Tick(s, tick)
    case Commanded(c, now, millis) => Run(s, c, now, millis).1
    case Restarted(r, attached, millis) => Begin(r, s.file, attached, millis)
  }

  ghost predicate Sound(e: Event) {
    e.Commanded? ==> e.command.InRange()
  }

  function After(s: Iot, es: seq<Event>): Iot {
    if es == [] then s else Step(After(s, es[..|es| - 1]), es[|es| - 1])
  }

  // Every step keeps the invariants, and a state with a pulse running has the
  // state file of the step before it
  lemma StepKeeps(s: Iot, e: Event)
    requires Kept(s) && Sound(e)
    ensures var t := Step(s, e); Kept(t) && (t.pulsing ==> t.file == s.file)
  {
    match e
    case Ticked(tick) => TickKeeps(s, tick);
    case Commanded(c, now, millis) =>
      CommandKeeps(s, c, now, millis);
    case Restarted(r, attached, millis) => BeginKeeps(r, s.file, attached, millis);
  }

  // From power on, whatever the events
  lemma {:induction false} AlwaysKept(r: Setup, file: Option<Saved>, attached: bool, millis: nat, es: seq<Event>)
    requires forall e | e in es :: Sound(e)
    ensures Kept(After(Begin(r, file, attached, millis), es))
  {
    if es == [] {
      BeginKeeps(r, file, attached, millis);
    } else {
      AlwaysKept(r, file, attached, millis, es[..|es| - 1]);
      StepKeeps(After(Begin(r, file, attached, millis), es[..|es| - 1]), es[|es| - 1]);
    }
  }

  // The events since a moment all left the pulse running
  ghost predicate Pulsing(s: Iot, es: seq<Event>) {
    forall k | 0 < k <= |es| :: After(s, es[..k]).pulsing
  }

  // As long as a pulse runs the file is the one from before it: a power cut
  // then restores what the last command before the pulse left
  lemma {:induction false} PulseNeverSaved(s: Iot, es: seq<Event>)
    requires Kept(s) && Pulsing(s, es) && forall e | e in es :: Sound(e)
    ensures Kept(After(s, es)) && After(s, es).file == s.file
  {
    if es != [] {
      var n := |es| - 1;
      assert After(s, es[..n + 1]).pulsing;
      assert es[..n + 1] == es;
      forall k | 0 < k <= n ensures After(s, es[..n][..k]).pulsing {
        assert es[..n][..k] == es[..k];
        assert After(s, es[..k]).pulsing;
      }
      PulseNeverSaved(s, es[..n]);
      StepKeeps(After(s, es[..n]), es[n]);
    }
  }
}
