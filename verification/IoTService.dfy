/** The actuator (IoTService.h): manual and automatic mode, pulse, time window,
    safety limit, the sensor's rule, and the state kept in flash.

    Clock readings are kept as they would be without the 32-bit limit; every
    comparison first reduces them as the firmware's counter does. */
module IoTService {
  import opened Text

  const MAX_LEDS := 60
  const DAY_MINUTES := 1440

  // millis() at t milliseconds since power on
  function Clock(t: nat): Word {
    t % WORD
  }

  // ── Configuration ──────────────────────────────────────────────────────────

  datatype Cap = NoActuator | OnOff | Level | Position | Color
  datatype Sensor = NoSensor | DigitalSensor | NumericSensor

  type Byte = x: int | 0 <= x < 256
  type Half = x: int | 0 <= x < 65536

  // The configuration that begin copied
  datatype Setup = Setup(
    sensor: Sensor, cap: Cap, actuatorHigh: bool, angleOn: Byte, angleOff: Byte, dutyOn: Byte, dutyOff: Byte,
    leds: Byte, maxOn: Half, restore: bool,
    rule: bool, above: bool, threshold: int, margin: Byte, toggle: bool, linear: bool, thresholdHi: int,
    window: bool, winStart: nat, winEnd: nat)

  function Clamped(r: Setup): Setup {
    r.(dutyOn := if r.dutyOn > 100 then 100 else r.dutyOn,
       dutyOff := if r.dutyOff > 100 then 100 else r.dutyOff,
       leds := if r.leds == 0 || r.leds > MAX_LEDS then MAX_LEDS else r.leds)
  }

  predicate HasRule(u: Setup) {
    u.rule && !u.sensor.NoSensor? && !u.cap.NoActuator?
  }

  predicate Proportional(u: Setup) {
    u.linear && u.cap.Level? && !u.sensor.DigitalSensor?
  }

  function Limit(u: Setup): nat {
    u.maxOn * 60_000
  }

  // ── State ──────────────────────────────────────────────────────────────────

  // What the output is set to
  datatype Out = Out(on: bool, level: Byte, angle: Byte, rgb: nat)

  // What the sensor's rule knows; open: inside the time window
  datatype Rule = Rule(have: bool, open: bool, on: bool, edgeReady: bool, level: Byte)

  // The last command, in its own file
  datatype Saved = Saved(manual: bool, out: Out)

  // What the output was last given
  datatype Pin = Undriven | Digital(high: bool) | Duty(duty: nat) | Servo(degrees: nat) | Strip(leds: nat, rgb: nat)

  datatype Iot = Iot(
    setup: Setup, out: Out, rule: Rule, manual: bool, servoOk: bool, pulsing: bool, pulseUntil: nat, onSince: nat,
    pin: Pin, file: Option<Saved>)

  // ── The output ─────────────────────────────────────────────────────────────

  function Dimmed(channel: nat, level: Byte): nat {
    channel * level / 100
  }

  function Scale(rgb: nat, level: Byte): nat {
    Dimmed(rgb / 65536 % 256, level) * 65536 + Dimmed(rgb / 256 % 256, level) * 256 + Dimmed(rgb % 256, level)
  }

  // What the output shows for what it is set to
  function Shows(u: Setup, o: Out): Pin {
    match u.cap
    case NoActuator => Undriven
    case OnOff => Digital(o.on == u.actuatorHigh)
    case Level => Duty((if o.on then o.level else u.dutyOff) * 255 / 100)
    case Position => Servo(if o.on then o.angle else u.angleOff)
    case Color => Strip(u.leds, if o.on then Scale(o.rgb, o.level) else 0)
  }

  predicate CanDrive(s: Iot) {
    s.setup.cap.Position? ==> s.servoOk
  }

  function Drive(s: Iot): Iot {
    if CanDrive(s) then s.(pin := Shows(s.setup, s.out)) else s
  }

  function SetOn(s: Iot, on: bool, now: nat): Iot {
    s.(onSince := if on && !s.out.on then now else s.onSince, out := s.out.(on := on))
  }

  // Turning on goes back to the "on" position or level when there is no other
  function Raised(u: Setup, o: Out): Out {
    if u.cap.Position? then o.(angle := u.angleOn)
    else if o.level == 0 then o.(level := if u.cap.Level? then u.dutyOn else 100)
    else o
  }

  function TurnOn(s: Iot, now: nat): Iot {
    SetOn(s.(out := Raised(s.setup, s.out)), true, now)
  }

  function Persist(s: Iot): Iot {
    if s.setup.restore then s.(file := Some(Saved(s.manual, s.out))) else s
  }

  // ── The rule ───────────────────────────────────────────────────────────────

  predicate RuleKnown(r: Rule) {
    r.have || !r.open
  }

  // The output the rule asks for, before it is on or off
  function Ruled(u: Setup, r: Rule, o: Out): Out {
    if Proportional(u) then o.(level := if r.open then r.level else u.dutyOff)
    else if r.on && r.open && !o.on then
      if u.cap.Position? then o.(angle := u.angleOn)
      else if u.cap.Level? then o.(level := u.dutyOn)
      else o
    else o
  }

  // Takes the actuator to the rule's last decision
  function TakeRule(s: Iot, millis: nat): Iot {
    SetOn(s.(out := Ruled(s.setup, s.rule, s.out)), s.rule.on && s.rule.open, millis)
  }

  // Whether that changes the output
  predicate RuleChanges(u: Setup, r: Rule, o: Out) {
    (r.on && r.open) != o.on || (Proportional(u) && Ruled(u, r, o).level != o.level)
  }

  function TakeRuleDriving(s: Iot, millis: nat): Iot {
    if RuleChanges(s.setup, s.rule, s.out) then Drive(TakeRule(s, millis)) else TakeRule(s, millis)
  }

  // Whether the reading turns the rule on; the margin keeps it from chattering
  predicate RuleOn(u: Setup, r: Rule, value: int, tenths: bool) {
    var scale := if tenths then 10 else 1;
    var limit, margin := u.threshold * scale, u.margin * scale;
    if r.have && r.on then
      if u.above then value >= limit - margin else value <= limit + margin
    else
      if u.above then value >= limit else value <= limit
  }

  // C division: toward zero
  function Quotient(a: int, b: int): int
    requires b > 0
  {
    if a >= 0 then a / b else -(-a / b)
  }

  function MapDuty(u: Setup, value: int, tenths: bool): int {
    var scale := if tenths then 10 else 1;
    var lo, hi := u.threshold * scale, u.thresholdHi * scale;
    if hi <= lo then if value >= lo then u.dutyOn else u.dutyOff
    else if value <= lo then u.dutyOff
    else if value >= hi then u.dutyOn
    else u.dutyOff + Quotient((u.dutyOn - u.dutyOff) * (value - lo), hi - lo)
  }

  // What a tick reads from the sensor, numbers in the unit set
  datatype Reading = Nothing | Active(active: bool) | Number(value: int, tenths: bool)

  // The rule after a reading
  function Learned(u: Setup, r: Rule, on: bool, reading: Reading): Rule {
    match reading
    case Nothing => r
    case Active(active) =>
      if u.toggle then r.(on := if r.edgeReady && active then !on else r.on, edgeReady := true, have := true)
      else r.(on := active, have := true)
    case Number(value, tenths) =>
      if Proportional(u) then
        var lv := MapDuty(u, value, tenths) % 256;
        r.(level := lv, on := lv != u.dutyOff, have := true)
      else r.(on := RuleOn(u, r, value, tenths), have := true)
  }

  function Read(s: Iot, reading: Reading, millis: nat): Iot {
    if reading.Nothing? || !HasRule(s.setup) then s
    else
      var q := s.(rule := Learned(s.setup, s.rule, s.out.on, reading));
      if q.manual then q else TakeRuleDriving(q, millis)
  }

  // ── Time ───────────────────────────────────────────────────────────────────

  // C remainder: with the sign of the dividend
  function Remainder(a: int, b: int): int
    requires b > 0
  {
    a - b * Quotient(a, b)
  }

  // Minute of the day: unix is the clock, tz the zone's minutes from UTC
  function LocalMinute(unix: Word, tz: int): int {
    Quotient(Remainder(Remainder(unix % 86400 + tz * 60, 86400) + 86400, 86400), 60)
  }

  // Inside the time window; no minute without a clock
  predicate InHours(u: Setup, minute: Option<nat>) {
    if !u.window then true
    else if minute.None? then false
    else if u.winStart < u.winEnd then u.winStart <= minute.value < u.winEnd
    else minute.value >= u.winStart || minute.value < u.winEnd
  }

  // ── Operations ─────────────────────────────────────────────────────────────

  // attached: whether the servo took its pin
  function Begin(r: Setup, file: Option<Saved>, attached: bool, millis: nat): Iot {
    var u := Clamped(r);
    var s := Iot(u, Out(false, 100, 90, 0xFFFFFF), Rule(false, true, false, false, 0), false, false, false, 0, 0, Undriven, file);
    if u.cap.NoActuator? then s else Drive(Started(Loaded(s.(out := s.out.(level := u.dutyOn, angle := u.angleOn))), attached, millis))
  }

  // The last command, if it is to be restored
  function Loaded(s: Iot): Iot {
    if s.setup.restore && s.file.Some? then
      var f := s.file.value;
      s.(manual := f.manual,
         out := Out(f.out.on, if f.out.level > 100 then 100 else f.out.level,
                    if f.out.angle > 180 then 180 else f.out.angle, f.out.rgb % 0x1_000000))
    else s
  }

  function Started(s: Iot, attached: bool, millis: nat): Iot {
    s.(servoOk := s.setup.cap.Position? && attached, onSince := millis)
  }

  // One tick's inputs: the clock it was given, what the sensor reads, the
  // minute of the day, and the clock whenever the rule reads it
  datatype TickIn = TickIn(now: nat, reading: Reading, minute: Option<nat>, read: nat, turned: nat, ended: nat)

  function TickWindow(s: Iot, e: TickIn): Iot {
    var open := InHours(s.setup, e.minute);
    if open == s.rule.open then s
    else
      var q := s.(rule := s.rule.(open := open));
      if HasRule(q.setup) && !q.manual then TakeRuleDriving(q, e.turned) else q
  }

  // Back to the rule, if it has something to say
  function Resume(s: Iot, millis: nat): Iot {
    var a := s.(manual := false);
    if HasRule(a.setup) && RuleKnown(a.rule) then TakeRule(a, millis) else a
  }

  function EndPulse(s: Iot, now: nat, millis: nat): Iot {
    var off := SetOn(s.(pulsing := false), false, now);
    Persist(Drive(if HasRule(off.setup) then Resume(off, millis) else off))
  }

  function TickPulse(s: Iot, e: TickIn): Iot {
    if s.pulsing && Reached(Clock(e.now), Clock(s.pulseUntil)) then EndPulse(s, e.now, e.ended) else s
  }

  predicate Overdue(s: Iot, now: nat) {
    s.out.on && s.setup.maxOn != 0 && Since(Clock(now), Clock(s.onSince)) >= Limit(s.setup)
  }

  function SafetyOff(s: Iot, now: nat): Iot {
    Persist(Drive(SetOn(s.(pulsing := false), false, now).(manual := HasRule(s.setup))))
  }

  function Tick(s: Iot, e: TickIn): Iot {
    var r := Read(s, e.reading, e.read);
    if s.setup.cap.NoActuator? then r
    else
      var p := TickPulse(TickWindow(r, e), e);
      if Overdue(p, e.now) then SafetyOff(p, e.now) else p
  }

  datatype Op = On | Off | Toggle | Pulse | LevelOp | Angle | ColorOp | Auto | Status
  datatype Result = Ok | Unsupported | NoActuator

  // As parsed from text: the number in the operation's range
  datatype Command = Command(op: Op, value: nat) {
    predicate InRange() {
      && (op.Pulse? ==> 1 <= value <= 3600)
      && (op.LevelOp? ==> value <= 100)
      && (op.Angle? ==> value <= 180)
      && (op.ColorOp? ==> value < 0x1_000000)
    }
  }

  predicate Allowed(cap: Cap, op: Op) {
    && !cap.NoActuator?
    && (op.LevelOp? ==> cap.Level? || cap.Color?)
    && (op.Angle? ==> cap.Position?)
    && (op.ColorOp? ==> cap.Color?)
  }

  // What the operation sets, and whether it turns the output on
  function Set(u: Setup, o: Out, c: Command): (Out, bool) {
    match c.op
    case On => (Raised(u, o), true)
    case Off => (o, false)
    case Toggle => if o.on then (o, false) else (Raised(u, o), true)
    case Pulse => (Raised(u, o), true)
    case LevelOp => (o.(level := c.value % 256), c.value > 0)
    case Angle => (o.(angle := c.value % 256), c.value != u.angleOff)
    case ColorOp => (o.(rgb := c.value, level := if o.level == 0 then 100 else o.level), true)
    case Auto => (o, o.on)
    case Status => (o, o.on)
  }

  function Apply(s: Iot, c: Command, now: nat): Iot {
    var (o, on) := Set(s.setup, s.out, c);
    var t := SetOn(s.(out := o), on, now);
    if c.op.Pulse? then t.(pulsing := true, pulseUntil := now + c.value * 1000) else t
  }

  // millis: the clock when the rule takes over again
  function Run(s: Iot, c: Command, now: nat, millis: nat): (Result, Iot) {
    if s.setup.cap.NoActuator? then (Result.NoActuator, s)
    else if !Allowed(s.setup.cap, c.op) then (Unsupported, s)
    else if c.op.Status? then (Ok, s)
    else if c.op.Auto? then (Ok, Persist(Drive(Resume(s.(pulsing := false), millis))))
    else
      var q := Drive(Apply(s.(pulsing := false), c, now).(manual := HasRule(s.setup)));
      (Ok, if q.pulsing then q else Persist(q))
  }
}
