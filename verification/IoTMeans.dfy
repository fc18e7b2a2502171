/** What the actuator shows and remembers, said of the pin and of the file: over
    any run, and from one start to the next (IoTService.h). */
module IoTMeans {
  import opened Text
  import opened IoTService
  import opened IoTSafety
  import opened IoTTiming

  // ── The pin ────────────────────────────────────────────────────────────────

  // What the output's pin tells of the state, capability by capability
  ghost predicate PinTells(u: Setup, o: Out, pin: Pin) {
    match u.cap
    case NoActuator => pin == Undriven
    case OnOff => pin.Digital? && (pin.high == u.actuatorHigh <==> o.on)
    case Level =>
      var level := if o.on then o.level else u.dutyOff;
      pin.Duty? && 100 * pin.duty <= 255 * level < 100 * (pin.duty + 1) && pin.duty <= 255
    case Position => pin.Servo? && (o.on ==> pin.degrees == o.angle) && (!o.on ==> pin.degrees == u.angleOff)
    case Color =>
      && pin.Strip? && pin.leds == u.leds && (!o.on ==> pin.rgb == 0) && pin.rgb < 0x1_000000
      && (o.on ==>
            && pin.rgb / 65536 == o.rgb / 65536 % 256 * o.level / 100
            && pin.rgb / 256 % 256 == o.rgb / 256 % 256 * o.level / 100
            && pin.rgb % 256 == o.rgb % 256 * o.level / 100)
  }

  // After any events from power on, but for a servo that did not take its pin
  lemma PinAlwaysTells(r: Setup, file: Option<Saved>, attached: bool, millis: nat, es: seq<Event>)
    requires forall e | e in es :: Sound(e)
    ensures var s := After(Begin(r, file, attached, millis), es);
            if s.setup.cap.Position? && !s.servoOk then s.pin == Undriven else PinTells(s.setup, s.out, s.pin)
  {
    AlwaysKept(r, file, attached, millis, es);
    var s := After(Begin(r, file, attached, millis), es);
    if !(s.setup.cap.Position? && !s.servoOk) {
      ShownTells(s);
    }
  }

  lemma ShownTells(s: Iot)
    requires Kept(s) && CanDrive(s)
    ensures PinTells(s.setup, s.out, s.pin)
  {
    if s.setup.cap.Color? {
      ScaleExactly(s.out.rgb, s.out.level);
    } else if s.setup.cap.Level? {
      DutyExactly(if s.out.on then s.out.level else s.setup.dutyOff);
    }
  }

  lemma DutyExactly(level: Byte)
    requires level <= 100
    ensures var d := level * 255 / 100; 100 * d <= 255 * level < 100 * (d + 1) && d <= 255
  {
  }

  // An active-low output with nothing to restore is off with its pin high
  lemma LowIsOff(r: Setup, millis: nat)
    requires r.cap.OnOff? && !r.actuatorHigh && !r.restore
    ensures var s := Begin(r, None, false, millis); !s.out.on && s.pin == Digital(true)
  {
  }

  // ── Turning on ─────────────────────────────────────────────────────────────

  // Where "on" goes: a servo to its position, the others to the level they had,
  // or, from nothing, to the one set or to all
  lemma OnGoesTo(s: Iot, c: Command, now: nat, millis: nat)
    requires Kept(s) && c.InRange() && !s.setup.cap.NoActuator?
    requires c.op.On? || c.op.Pulse? || (c.op.Toggle? && !s.out.on)
    ensures var o := Run(s, c, now, millis).1.out;
            && o.on && o.rgb == s.out.rgb
            && o.angle == (if s.setup.cap.Position? then s.setup.angleOn else s.out.angle)
            && o.level == (if s.setup.cap.Position? || s.out.level > 0 then s.out.level
                           else if s.setup.cap.Level? then s.setup.dutyOn else 100)
  {
  }

  // A colour on a strip at no level goes on at all of it
  lemma ColorShows(s: Iot, c: Command, now: nat, millis: nat)
    requires Kept(s) && c.InRange() && s.setup.cap.Color? && c.op.ColorOp?
    ensures var o := Run(s, c, now, millis).1.out;
            o.on && o.rgb == c.value && o.level == (if s.out.level == 0 then 100 else s.out.level) && o.angle == s.out.angle
  {
  }

  // Off, a level and an angle leave the rest as it was
  lemma OthersStay(s: Iot, c: Command, now: nat, millis: nat)
    requires c.InRange() && Allowed(s.setup.cap, c.op)
    ensures var o := Run(s, c, now, millis).1.out;
            && (c.op.Off? || (c.op.Toggle? && s.out.on) ==> o == s.out.(on := false))
            && (c.op.LevelOp? ==> o == s.out.(on := c.value > 0, level := c.value))
            && (c.op.Angle? ==> o == s.out.(on := c.value != s.setup.angleOff, angle := c.value))
            && (c.op.Status? ==> o == s.out)
  {
    CommandOut(s, c, now, millis);
    hide Run;
  }

  lemma CommandOut(s: Iot, c: Command, now: nat, millis: nat)
    requires Allowed(s.setup.cap, c.op)
    ensures c.op.Status? ==> Run(s, c, now, millis).1 == s
    ensures !c.op.Status? && !c.op.Auto? ==>
              Run(s, c, now, millis).1.out == Set(s.setup, s.out, c).0.(on := Set(s.setup, s.out, c).1)
  {
    hide Set, Shows;
  }

  // What is refused changes nothing
  lemma Refused(s: Iot, c: Command, now: nat, millis: nat)
    ensures var (r, t) := Run(s, c, now, millis);
            && (r.Ok? <==> !s.setup.cap.NoActuator? && Allowed(s.setup.cap, c.op))
            && (!r.Ok? ==> t == s && (r == Result.NoActuator <==> s.setup.cap.NoActuator?))
            && (s.setup.cap.NoActuator? || !(c.op.LevelOp? || c.op.Angle? || c.op.ColorOp?) ||
                (r.Ok? <==> (c.op.LevelOp? && (s.setup.cap.Level? || s.setup.cap.Color?)) ||
                            (c.op.Angle? && s.setup.cap.Position?) || (c.op.ColorOp? && s.setup.cap.Color?)))
  {
  }

  // ── What is remembered ─────────────────────────────────────────────────────

  // With nothing to restore it starts off, in automatic mode, where the
  // configuration says
  lemma StartsOff(r: Setup, file: Option<Saved>, attached: bool, millis: nat)
    requires !r.restore || file.None? || r.cap.NoActuator?
    ensures var s := Begin(r, file, attached, millis);
            && !s.out.on && !s.manual && !s.pulsing && s.file == file
            && s.rule.open && !s.rule.have && !s.rule.on && !s.rule.edgeReady && s.out.rgb == 0xFFFFFF
            && s.servoOk == (r.cap.Position? && attached)
            && if r.cap.NoActuator? then s.pin.Undriven?
               else s.onSince == millis && s.out.level == (if r.dutyOn > 100 then 100 else r.dutyOn) && s.out.angle == r.angleOn
  {
  }

  // What the file has is taken, but no more than the output takes
  lemma Restores(r: Setup, f: Saved, attached: bool, millis: nat)
    requires r.restore && !r.cap.NoActuator?
    ensures var s := Begin(r, Some(f), attached, millis);
            && s.manual == f.manual && s.out.on == f.out.on
            && (f.out.level <= 100 ==> s.out.level == f.out.level) && (f.out.level > 100 ==> s.out.level == 100)
            && (f.out.angle <= 180 ==> s.out.angle == f.out.angle) && (f.out.angle > 180 ==> s.out.angle == 180)
            && s.out.rgb == f.out.rgb % 0x1_000000
            && s.file == Some(f) && !s.pulsing && s.onSince == millis
  {
  }

  // The last command comes back after a restart: the same output, the same mode
  lemma CommandComesBack(s: Iot, c: Command, now: nat, millis: nat, attached: bool, start: nat)
    requires Kept(s) && c.InRange() && s.setup.restore && Allowed(s.setup.cap, c.op) && !c.op.Status? && !c.op.Pulse?
    requires s.setup == Clamped(s.setup) && Run(s, c, now, millis).1.out.angle <= 180
    ensures var t := Run(s, c, now, millis).1;
            var b := Begin(s.setup, t.file, attached, start); b.out == t.out && b.manual == t.manual
  {
    CommandKeeps(s, c, now, millis);
    CommandSaves(s, c, now, millis);
    hide Run, Begin;
    Restores(s.setup, Saved(Run(s, c, now, millis).1.manual, Run(s, c, now, millis).1.out), attached, start);
  }

  lemma CommandSaves(s: Iot, c: Command, now: nat, millis: nat)
    requires c.InRange() && s.setup.restore && Allowed(s.setup.cap, c.op) && !c.op.Status? && !c.op.Pulse?
    ensures var t := Run(s, c, now, millis).1; t.file == Some(Saved(t.manual, t.out))
  {
    CommandOnSince(s, c, now, millis, 0, now + millis);
    if !c.op.Auto? {
      CommandMeans(s, c, now, millis);
    }
  }

  // And nothing is remembered of an output that is not to be restored
  lemma {:induction false} NeverSaved(s: Iot, es: seq<Event>)
    requires !s.setup.restore && forall e | e in es :: !e.Restarted?
    ensures After(s, es).file == s.file && After(s, es).setup == s.setup
  {
    if es != [] {
      var n := |es| - 1;
      NeverSaved(s, es[..n]);
      var t := After(s, es[..n]);
      if es[n].Ticked? {
        TickSetup(t, es[n].tick);
        TickSavesNot(t, es[n].tick);
      } else {
        CommandOnSince(t, es[n].command, es[n].now, es[n].millis, 0, es[n].now + es[n].millis);
        RunSavesNot(t, es[n].command, es[n].now, es[n].millis);
      }
    }
  }

  lemma TickSavesNot(s: Iot, e: TickIn)
    requires !s.setup.restore
    ensures Tick(s, e).file == s.file
  {
    var r := Read(s, e.reading, e.read);
    ReadSavesNot(s, e.reading, e.read);
    WindowSavesNot(r, e);
    var w := TickWindow(r, e);
    PulseSavesNot(w, e);
    hide Read, TickWindow, TickPulse, Overdue;
  }

  lemma ReadSavesNot(s: Iot, r: Reading, millis: nat)
    ensures Read(s, r, millis).file == s.file && Read(s, r, millis).setup == s.setup
  {
    hide Learned;
  }

  lemma WindowSavesNot(s: Iot, e: TickIn)
    ensures TickWindow(s, e).file == s.file && TickWindow(s, e).setup == s.setup
  {
  }

  lemma PulseSavesNot(w: Iot, e: TickIn)
    requires !w.setup.restore
    ensures TickPulse(w, e).file == w.file && TickPulse(w, e).setup == w.setup
  {
  }

  lemma RunSavesNot(s: Iot, c: Command, now: nat, millis: nat)
    requires !s.setup.restore
    ensures Run(s, c, now, millis).1.file == s.file
  {
    hide Set, Shows, Ruled, Allowed, HasRule, Proportional;
  }

  // ── The sensor's rule ──────────────────────────────────────────────────────

  // A button toggles the output each time it is pressed, but not by the first
  // reading
  lemma TogglesExactly(u: Setup, r: Rule, on: bool, active: bool)
    requires u.toggle
    ensures var q := Learned(u, r, on, Active(active));
            && q.have && q.edgeReady && q.on == (if r.edgeReady && active then !on else r.on)
            && q.open == r.open && q.level == r.level
  {
  }

  lemma FollowsExactly(u: Setup, r: Rule, on: bool, active: bool)
    requires !u.toggle
    ensures var q := Learned(u, r, on, Active(active)); q == r.(have := true, on := active)
  {
  }

  // A range of nothing is two steps
  lemma EmptyRange(u: Setup, value: int, tenths: bool)
    requires u.thresholdHi <= u.threshold
    ensures MapDuty(u, value, tenths) == if value >= (if tenths then 10 * u.threshold else u.threshold) then u.dutyOn else u.dutyOff
  {
  }

  // A proportional rule sets the level at which the line is, on unless it is
  // the "off" one
  lemma ProportionExactly(u: Setup, r: Rule, on: bool, value: int, tenths: bool)
    requires Proportional(u) && u.dutyOn <= 100 && u.dutyOff <= 100
    ensures var q := Learned(u, r, on, Number(value, tenths));
            && q.level == MapDuty(u, value, tenths) && q.on == (q.level != u.dutyOff) && q.have
            && q.open == r.open && q.edgeReady == r.edgeReady
  {
    hide MapDuty;
    MapDutyBetween(u, value, tenths);
  }

  // In automatic mode, inside the window and with the rule known, the output is
  // what the rule decided, where "on" is
  lemma RuleDecides(s: Iot, r: Reading, millis: nat)
    requires Kept(s) && HasRule(s.setup) && !s.manual && !r.Nothing?
    ensures var t := Read(s, r, millis);
            && t.rule == Learned(s.setup, s.rule, s.out.on, r)
            && t.out.on == (t.rule.on && t.rule.open) && t.out.rgb == s.out.rgb
            && t.out.angle == (if t.out.on && !s.out.on && s.setup.cap.Position? then s.setup.angleOn else s.out.angle)
            && t.out.level == (if Proportional(s.setup) then (if t.rule.open then t.rule.level else s.setup.dutyOff)
                               else if t.out.on && !s.out.on && s.setup.cap.Level? then s.setup.dutyOn else s.out.level)
  {
    hide Learned;
  }

  // With a window set and no clock, nothing is inside it
  lemma NoClockIsOff(s: Iot, e: TickIn)
    requires Kept(s) && HasRule(s.setup) && s.setup.window && e.minute.None?
    ensures var t := TickWindow(s, e); !t.rule.open && t.manual == s.manual && (!t.manual ==> !t.out.on)
  {
  }

  // In manual mode a reading is learned and changes nothing else
  lemma ManualLearns(s: Iot, r: Reading, millis: nat)
    requires HasRule(s.setup) && s.manual && !r.Nothing?
    ensures Read(s, r, millis) == s.(rule := Learned(s.setup, s.rule, s.out.on, r))
  {
  }
}
