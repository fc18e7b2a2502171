/** The actuator as the service runs it: fields changed in place, each method
    against the step that IoTService describes. */
module IoTDevice {
  import opened Text
  import opened IoTService

  class Device {
    var setup: Setup
    var on: bool
    var level: Byte
    var angle: Byte
    var rgb: nat
    var haveRule: bool
    var open: bool
    var ruleOn: bool
    var edgeReady: bool
    var ruleLevel: Byte
    var manual: bool
    var servoOk: bool
    var pulsing: bool
    var pulseUntil: nat
    var onSince: nat
    var pin: Pin              // what the output was last given
    var file: Option<Saved>   // the state file

    ghost function State(): Iot
      reads this
    {
      Iot(setup, Out(on, level, angle, rgb), Rule(haveRule, open, ruleOn, edgeReady, ruleLevel),
          manual, servoOk, pulsing, pulseUntil, onSince, pin, file)
    }

    // begin, after power on
    constructor (r: Setup, saved: Option<Saved>, attached: bool, millis: nat)
      ensures State() == IoTService.Begin(r, saved, attached, millis)
    {
      setup := Clamped(r);
      on, level, angle, rgb := false, 100, 90, 0xFFFFFF;
      haveRule, open, ruleOn, edgeReady, ruleLevel := false, true, false, false, 0;
      manual, servoOk, pulsing, pulseUntil, onSince, pin, file := false, false, false, 0, 0, Undriven, saved;
      new;
      if !setup.cap.NoActuator? {
        Start(attached, millis);
      }
    }

    method Start(attached: bool, millis: nat)
      modifies this
      ensures var s := old(State());
              State() == IoTService.Drive(Started(Loaded(s.(out := s.out.(level := s.setup.dutyOn, angle := s.setup.angleOn))),
                                                  attached, millis))
    {
      hide IoTService.Drive, Loaded;
      level, angle := setup.dutyOn, setup.angleOn;
      Load();
      ghost var s := State();
      servoOk := setup.cap.Position? && attached;
      onSince := millis;
      assert State() == Started(s, attached, millis);
      Drive();
    }

    method Load()
      modifies this
      ensures State() == Loaded(old(State()))
    {
      if setup.restore && file.Some? {
        var f := file.value;
        manual, on := f.manual, f.out.on;
        level := if f.out.level > 100 then 100 else f.out.level;
        angle := if f.out.angle > 180 then 180 else f.out.angle;
        rgb := f.out.rgb % 0x1_000000;
      }
    }

    method Persist()
      modifies `file
      ensures State() == IoTService.Persist(old(State()))
    {
      if setup.restore {
        file := Some(Saved(manual, Out(on, level, angle, rgb)));
      }
    }

    method SetOn(on: bool, now: nat)
      modifies this
      ensures State() == IoTService.SetOn(old(State()), on, now)
    {
      if on && !this.on {
        onSince := now;
      }
      this.on := on;
    }

    method TurnOn(now: nat)
      modifies this
      ensures State() == IoTService.TurnOn(old(State()), now)
    {
      if setup.cap.Position? {
        angle := setup.angleOn;
      } else if level == 0 {
        level := if setup.cap.Level? then setup.dutyOn else 100;
      }
      SetOn(true, now);
    }

    method Drive()
      modifies `pin
      ensures State() == IoTService.Drive(old(State()))
    {
      match setup.cap {
        case NoActuator => pin := Undriven;
        case OnOff => pin := Digital(on == setup.actuatorHigh);
        case Level => pin := Duty((if on then level else setup.dutyOff) * 255 / 100);
        case Position =>
          if servoOk {
            pin := Servo(if on then angle else setup.angleOff);
          }
        case Color => pin := Strip(setup.leds, if on then Scale(rgb, level) else 0);
      }
    }

    // Takes the actuator to the rule's last decision; the caller drives it
    method TakeRule(millis: nat) returns (changed: bool)
      modifies this
      ensures State() == IoTService.TakeRule(old(State()), millis)
      ensures changed == RuleChanges(old(State()).setup, old(State()).rule, old(State()).out)
    {
      var want := ruleOn && open;
      changed := want != on;
      if Proportional(setup) {
        var lv := if open then ruleLevel else setup.dutyOff;
        changed := changed || lv != level;
        level := lv;
      } else if want && !on {
        if setup.cap.Position? {
          angle := setup.angleOn;
        } else if setup.cap.Level? {
          level := setup.dutyOn;
        }
      }
      SetOn(want, millis);
    }

    // A new reading
    method Read(reading: Reading, millis: nat)
      modifies this
      ensures State() == IoTService.Read(old(State()), reading, millis)
    {
      if reading.Nothing? || !HasRule(setup) {
        return;
      }
      match reading {
        case Active(active) => OnDigital(active);
        case Number(value, tenths) => Accept(value, tenths);
      }
      if !manual {
        TakeRuleDriving(millis);
      }
    }

    method OnDigital(active: bool)
      modifies `ruleOn, `edgeReady, `haveRule
      ensures var s := old(State()); State() == s.(rule := Learned(s.setup, s.rule, s.out.on, Active(active)))
    {
      if setup.toggle {
        if edgeReady && active {
          ruleOn := !on;
        }
        edgeReady := true;
      } else {
        ruleOn := active;
      }
      haveRule := true;
    }

    method Accept(value: int, tenths: bool)
      modifies `ruleOn, `ruleLevel, `haveRule
      ensures var s := old(State()); State() == s.(rule := Learned(s.setup, s.rule, s.out.on, Number(value, tenths)))
    {
      if Proportional(setup) {
        ruleLevel := MapDuty(setup, value, tenths) % 256;
        ruleOn := ruleLevel != setup.dutyOff;
      } else {
        ruleOn := RuleOn(setup, Rule(haveRule, open, ruleOn, edgeReady, ruleLevel), value, tenths);
      }
      haveRule := true;
    }

    method TakeRuleDriving(millis: nat)
      modifies this
      ensures State() == IoTService.TakeRuleDriving(old(State()), millis)
    {
      var changed := TakeRule(millis);
      if changed {
        Drive();
      }
    }

    method Tick(e: TickIn)
      modifies this
      ensures State() == IoTService.Tick(old(State()), e)
    {
      Read(e.reading, e.read);
      if setup.cap.NoActuator? {
        return;
      }
      TickWindow(e);
      TickPulse(e);
      if on && setup.maxOn != 0 && Since(Clock(e.now), Clock(onSince)) >= Limit(setup) {
        SafetyOff(e.now);
      }
    }

    method TickWindow(e: TickIn)
      modifies this
      ensures State() == IoTService.TickWindow(old(State()), e)
    {
      var inside := InHours(setup, e.minute);
      if inside != open {
        open := inside;
        if HasRule(setup) && !manual {
          TakeRuleDriving(e.turned);
        }
      }
    }

    method TickPulse(e: TickIn)
      modifies this
      ensures State() == IoTService.TickPulse(old(State()), e)
    {
      if pulsing && Reached(Clock(e.now), Clock(pulseUntil)) {
        pulsing := false;
        SetOn(false, e.now);
        if HasRule(setup) {
          Resume(e.ended);
        }
        Drive();
        Persist();
      }
    }

    method Resume(millis: nat)
      modifies this
      ensures State() == IoTService.Resume(old(State()), millis)
    {
      manual := false;
      if HasRule(setup) && (haveRule || !open) {
        var _ := TakeRule(millis);
      }
    }

    method SafetyOff(now: nat)
      modifies this
      ensures State() == IoTService.SafetyOff(old(State()), now)
    {
      pulsing := false;
      SetOn(false, now);
      manual := HasRule(setup);
      Drive();
      Persist();
    }

    method Run(c: Command, now: nat, millis: nat) returns (r: Result)
      modifies this
      ensures (r, State()) == IoTService.Run(old(State()), c, now, millis)
    {
      if setup.cap.NoActuator? {
        return Result.NoActuator;
      }
      if !Allowed(setup.cap, c.op) {
        return Unsupported;
      }
      if c.op.Status? {
        return Ok;
      }
      pulsing := false;
      if c.op.Auto? {
        Resume(millis);
        Drive();
        Persist();
        return Ok;
      }
      Apply(c, now);
      manual := HasRule(setup);
      Drive();
      if !pulsing {
        Persist();
      }
      return Ok;
    }

    method Apply(c: Command, now: nat)
      requires !c.op.Auto? && !c.op.Status?
      modifies this
      ensures State() == IoTService.Apply(old(State()), c, now)
    {
      match c.op {
        case On => TurnOn(now);
        case Off => SetOn(false, now);
        case Toggle =>
          if on {
            SetOn(false, now);
          } else {
            TurnOn(now);
          }
        case Pulse =>
          TurnOn(now);
          pulsing := true;
          pulseUntil := now + c.value * 1000;
        case LevelOp =>
          level := c.value % 256;
          SetOn(c.value > 0, now);
        case Angle =>
          angle := c.value % 256;
          SetOn(c.value != setup.angleOff, now);
        case ColorOp =>
          rgb := c.value;
          if level == 0 {
            level := 100;
          }
          SetOn(true, now);
      }
    }
  }
}
