/** The bit-banged I2C master (I2cBus.h) over the pins, and a slave that reads
    the edges (test/i2c_sim.h): what one writes the other records, and what
    the slave answers the master reads. Section 3.1 of UM10204. */
module I2cBus {
  import opened Bytes

  // ── The slave ──────────────────────────────────────────────────────────────

  // What is on the bus: the addresses present, what they answer to a read
  // (to their address and the bytes written last), whether they refuse the
  // read address, and the data byte they refuse (-1: none)
  datatype Device = Device(present: set<Byte>, reply: (Byte, seq<Byte>) -> seq<Byte>, refuseRead: bool, nackAfter: int)

  datatype Phase = IDLE | RX | TX

  // A transfer: what it addresses, and what it sends back
  datatype Transfer = Transfer(
    isAddr: bool, rw: bool, addr: Byte, ack: bool, masterAck: bool, data: nat, byte: nat, tx: seq<Byte>)

  // What went over the bus: the writes, each its address and its bytes
  datatype Log = Log(writes: seq<seq<Byte>>, starts: nat, stops: nat)

  datatype Slave = Slave(phase: Phase, drive: bool, acking: bool, bit: nat, shift: Byte, x: Transfer, log: Log)

  // The line as the slave leaves it: released, or held low
  predicate SdaBus(s: Slave, master: bool) {
    master && !s.drive
  }

  function Next(x: Transfer): Byte {
    if x.byte < |x.tx| then x.tx[x.byte] else 0xFF
  }

  // Holds the line low for a 0
  function Present(s: Slave): Slave
    requires s.bit < 8
  {
    s.(drive := Shr(Next(s.x), 7 - s.bit) % 2 == 0)
  }

  function Last(writes: seq<seq<Byte>>): seq<Byte> {
    if writes == [] then [] else writes[|writes| - 1]
  }

  function Rise(s: Slave, sda: bool): Slave {
    if s.phase == RX && s.bit < 8 then
      s.(shift := (s.shift * 2 + if SdaBus(s, sda) then 1 else 0) % 256, bit := s.bit + 1)
    else if s.phase == TX && s.bit == 8 then s.(x := s.x.(masterAck := !SdaBus(s, sda)))
    else s
  }

  function Addressed(d: Device, s: Slave): Slave {
    var addr, rw := s.shift / 2, s.shift % 2 == 1;
    var ack := addr in d.present && !(rw && d.refuseRead);
    s.(x := s.x.(addr := addr, rw := rw, ack := ack, data := 0,
                 tx := if ack && rw then d.reply(addr, Last(s.log.writes)) else s.x.tx),
       log := if ack && !rw then s.log.(writes := s.log.writes + [[addr]]) else s.log)
  }

  function Taken(d: Device, s: Slave): Slave {
    var ack := s.x.data != d.nackAfter;
    var w := s.log.writes;
    s.(x := s.x.(ack := ack, data := s.x.data + 1),
       log := if ack && w != [] then s.log.(writes := w[|w| - 1 := Last(w) + [s.shift]]) else s.log)
  }

  // The end of a byte: the address, or one of its bytes
  function Judge(d: Device, s: Slave): Slave {
    var q := if s.x.isAddr then Addressed(d, s) else Taken(d, s);
    q.(drive := q.x.ack, acking := true)
  }

  // The end of the clock of the ACK
  function Acked(s: Slave): Slave {
    var q := s.(acking := false, drive := false);
    if !q.x.ack then q.(phase := IDLE)
    else if q.x.isAddr && q.x.rw then Present(q.(phase := TX, bit := 0, x := q.x.(byte := 0)))
    else q.(bit := 0, shift := 0, x := q.x.(isAddr := false))
  }

  function Fall(d: Device, s: Slave): Slave {
    if s.phase == RX then
      if s.bit == 8 && !s.acking then Judge(d, s)
      else if s.acking then Acked(s)
      else s
    else if s.phase == TX then
      if s.bit < 7 then Present(s.(bit := s.bit + 1))
      else if s.bit == 7 then s.(bit := 8, drive := false)   // the master answers
      else if s.x.masterAck then Present(s.(bit := 0, x := s.x.(byte := s.x.byte + 1)))
      else s.(phase := IDLE, drive := false)
    else s
  }

  function Started(s: Slave): Slave {
    s.(phase := RX, bit := 0, shift := 0, acking := false, drive := false,
       x := s.x.(isAddr := true), log := s.log.(starts := s.log.starts + 1))
  }

  function Stopped(s: Slave): Slave {
    s.(phase := IDLE, drive := false, log := s.log.(stops := s.log.stops + 1))
  }

  // The master's levels after any change to a pin, and the ones before it
  function Edge(d: Device, s: Slave, lastSda: bool, lastScl: bool, sda: bool, scl: bool): Slave {
    if scl && lastScl && sda != lastSda then if sda then Stopped(s) else Started(s)
    else if scl && !lastScl then Rise(s, sda)
    else if !scl && lastScl then Fall(d, s)
    else s
  }

  // ── Bytes on the bus ───────────────────────────────────────────────────────

  // A whole clock pulse with the master's level on SDA
  function Pulse(d: Device, s: Slave, sda: bool): Slave {
    Fall(d, Rise(s, sda))
  }

  // Listening for a byte
  predicate Ready(s: Slave) {
    s.phase == RX && s.bit == 0 && s.shift == 0 && !s.acking && !s.drive && (s.x.isAddr || s.log.writes != [])
  }

  // After the first bits of a byte
  function Heard(d: Device, s: Slave, b: Byte, bits: nat): Slave
    requires bits <= 8
  {
    if bits < 8 then s.(shift := Shr(b, 8 - bits) % 256, bit := bits) else Judge(d, s.(shift := b, bit := 8))
  }

  // After a byte and the clock of its ACK
  function Received(d: Device, s: Slave, b: Byte): Slave {
    Acked(Heard(d, s, b, 8))
  }

  lemma ShrByte(b: Byte, n: nat)
    ensures Shr(b, n) <= b
    decreases n
  {
    if n > 0 {
      ShrByte(b / 2, n - 1);
    }
  }

  lemma BitHeard(d: Device, s: Slave, b: Byte, bits: nat)
    requires Ready(s) && bits < 8
    ensures Pulse(d, Heard(d, s, b, bits), Shr(b, 7 - bits) % 2 == 1) == Heard(d, s, b, bits + 1)
  {
    hide Shr, Judge;
    ShrStep(b, 7 - bits);
    ShrByte(b, 7 - bits);
    ShrByte(b, 8 - bits);
    ShrNone(b);
  }

  lemma ShrNone(b: Byte)
    ensures Shr(b, 0) == b
  {
  }

  // Sending a byte: its first bit is on the line
  predicate Sending(s: Slave) {
    s.phase == TX && s.bit == 0 && s.drive == (Shr(Next(s.x), 7) % 2 == 0)
  }

  // After the first bits of a byte sent
  function Shown(s: Slave, bits: nat): Slave
    requires bits <= 8
  {
    s.(bit := bits, drive := bits < 8 && Shr(Next(s.x), 7 - bits) % 2 == 0)
  }

  lemma BitShown(d: Device, s: Slave, bits: nat)
    requires Sending(s) && bits < 8
    ensures Rise(Shown(s, bits), true) == Shown(s, bits)
    ensures Pulse(d, Shown(s, bits), true) == Shown(s, bits + 1)
    ensures SdaBus(Shown(s, bits), true) <==> Shr(Next(s.x), 7 - bits) % 2 == 1
  {
    hide Shr;
  }

  // After a byte sent and the master's answer
  function Sent(s: Slave, ack: bool): Slave {
    var q := s.(bit := 8, x := s.x.(masterAck := ack));
    if ack then Present(q.(bit := 0, x := q.x.(byte := q.x.byte + 1))) else q.(phase := IDLE, drive := false)
  }

  lemma AckShown(d: Device, s: Slave, ack: bool)
    requires Sending(s)
    ensures Pulse(d, Shown(s, 8), !ack) == Sent(s, ack)
    ensures ack ==> Sending(Sent(s, ack)) && Sent(s, ack).x.byte == s.x.byte + 1
    ensures Sent(s, ack).x.tx == s.x.tx && Sent(s, ack).log == s.log
  {
    hide Shr;
  }

  // ── Transfers ──────────────────────────────────────────────────────────────

  function Adding(log: Log, b: Byte): Log {
    if log.writes == [] then log else log.(writes := log.writes[|log.writes| - 1 := Last(log.writes) + [b]])
  }

  lemma WriteAddressed(d: Device, s: Slave, addr: Byte)
    requires Ready(s) && s.x.isAddr
    ensures var a, b := addr % 128, addr * 2 % 256;
            var r := Received(d, s, b);
            && (Heard(d, s, b, 8).x.ack <==> a in d.present)
            && (a in d.present ==> Ready(r) && !r.x.isAddr && r.x.data == 0 && r.log == s.log.(writes := s.log.writes + [[a]]))
            && (a !in d.present ==> r.log == s.log)
  {
  }

  lemma ReadAddressed(d: Device, s: Slave, addr: Byte)
    requires Ready(s) && s.x.isAddr
    ensures var a, b := addr % 128, (addr * 2 + 1) % 256;
            var r := Received(d, s, b);
            && (Heard(d, s, b, 8).x.ack <==> a in d.present && !d.refuseRead)
            && (a in d.present && !d.refuseRead ==> Sending(r) && r.x.byte == 0 && r.x.tx == d.reply(a, Last(s.log.writes)))
            && r.log == s.log
  {
    hide Shr;
    assert (addr * 2 + 1) % 256 / 2 == addr % 128 && (addr * 2 + 1) % 256 % 2 == 1;
  }

  lemma DataTaken(d: Device, s: Slave, b: Byte)
    requires Ready(s) && !s.x.isAddr
    ensures var r := Received(d, s, b);
            && (Heard(d, s, b, 8).x.ack <==> s.x.data != d.nackAfter)
            && (s.x.data != d.nackAfter ==>
                 Ready(r) && !r.x.isAddr && r.x.data == s.x.data + 1 && r.log == Adding(s.log, b))
            && (s.x.data == d.nackAfter ==> r.log == s.log)
  {
  }

  // ── The master ─────────────────────────────────────────────────────────────

  // A pin: low only as an output at low
  datatype Pin = Pin(output: bool, low: bool)

  predicate Level(p: Pin) {
    !(p.output && p.low)
  }

  class Bus {
    const device: Device
    var sda: Pin
    var scl: Pin
    var slave: Slave
    var lastSda: bool
    var lastScl: bool

    // The slave has seen the levels there are
    ghost predicate Seen()
      reads this
    {
      lastSda == Level(sda) && lastScl == Level(scl)
    }

    constructor (device: Device)
      ensures Seen() && this.device == device && Level(sda) && Level(scl)
      ensures slave.log == Log([], 0, 0)
    {
      this.device := device;
      sda, scl, lastSda, lastScl := Pin(false, false), Pin(false, false), true, true;
      slave := Slave(IDLE, false, false, 0, 0, Transfer(false, false, 0, false, false, 0, 0, []), Log([], 0, 0));
    }

    // The hook on any change to a pin
    method Changed()
      modifies `slave, `lastSda, `lastScl
      ensures Seen() && slave == Edge(device, old(slave), old(lastSda), old(lastScl), Level(sda), Level(scl))
    {
      slave := Edge(device, slave, lastSda, lastScl, Level(sda), Level(scl));
      lastSda, lastScl := Level(sda), Level(scl);
    }

    method HighSda()
      requires Seen()
      modifies `sda, `slave, `lastSda, `lastScl
      ensures Seen() && Level(sda) && slave == if Level(scl) && !old(Level(sda)) then Stopped(old(slave)) else old(slave)
    {
      sda := sda.(output := false);
      Changed();
    }

    method LowSda()
      requires Seen()
      modifies `sda, `slave, `lastSda, `lastScl
      ensures Seen() && !Level(sda) && slave == if Level(scl) && old(Level(sda)) then Started(old(slave)) else old(slave)
    {
      sda := sda.(low := true);
      Changed();
      sda := sda.(output := true);
      Changed();
    }

    method HighScl()
      requires Seen()
      modifies `scl, `slave, `lastSda, `lastScl
      ensures Seen() && Level(scl) && slave == if old(Level(scl)) then old(slave) else Rise(old(slave), Level(sda))
    {
      scl := scl.(output := false);
      Changed();
    }

    method LowScl()
      requires Seen()
      modifies `scl, `slave, `lastSda, `lastScl
      ensures Seen() && !Level(scl) && slave == if old(Level(scl)) then Fall(device, old(slave)) else old(slave)
    {
      scl := scl.(low := true);
      Changed();
      scl := scl.(output := true);
      Changed();
    }

    method Start()
      requires Seen() && (Level(scl) ==> Level(sda))
      modifies this
      ensures Seen() && !Level(sda) && !Level(scl)
      ensures Ready(slave) && slave.x.isAddr
      ensures slave.log == old(slave).log.(starts := old(slave).log.starts + 1)
    {
      HighSda();
      HighScl();
      LowSda();
      LowScl();
    }

    method Stop()
      requires Seen() && !Level(scl)
      modifies this
      ensures Seen() && Level(sda) && Level(scl)
      ensures slave.log == old(slave).log.(stops := old(slave).log.stops + 1)
    {
      LowSda();
      HighScl();
      HighSda();
    }

    // One clock pulse; SDA read while SCL is high
    method Clock() returns (v: bool)
      requires Seen() && !Level(scl)
      modifies `scl, `slave, `lastSda, `lastScl
      ensures Seen() && !Level(scl)
      ensures v == SdaBus(Rise(old(slave), Level(sda)), Level(sda))
      ensures slave == Pulse(device, old(slave), Level(sda))
    {
      HighScl();
      v := SdaBus(slave, Level(sda));
      LowScl();
    }

    method Put(b: Byte) returns (ack: bool)
      requires Seen() && !Level(scl) && Ready(slave)
      modifies this
      ensures Seen() && !Level(scl)
      ensures slave == Received(device, old(slave), b) && ack == Heard(device, old(slave), b, 8).x.ack
    {
      hide Shr;
      var i := 0;
      ghost var s := slave;
      ByteShr(b);
      while i < 8
        invariant 0 <= i <= 8 && Seen() && !Level(scl)
        invariant slave == Heard(device, s, b, i)
      {
        if Shr(b, 7 - i) % 2 == 1 {
          HighSda();
        } else {
          LowSda();
        }
        BitHeard(device, s, b, i);
        var _ := Clock();
        i := i + 1;
      }
      HighSda();
      var v := Clock();
      ack := !v;
    }

    method Get(ack: bool) returns (v: Byte)
      requires Seen() && !Level(scl) && Sending(slave)
      modifies this
      ensures Seen() && !Level(scl)
      ensures v == Next(old(slave).x) && slave == Sent(old(slave), ack)
    {
      hide Shr;
      v := 0;
      ghost var s := slave;
      HighSda();
      var i := 0;
      ByteShr(Next(s.x));
      while i < 8
        invariant 0 <= i <= 8 && Seen() && !Level(scl) && Level(sda)
        invariant slave == Shown(s, i) && v == Shr(Next(s.x), 8 - i)
      {
        BitShown(device, s, i);
        ShrStep(Next(s.x), 7 - i);
        ShrByte(Next(s.x), 7 - i);
        var bit := Clock();
        v := (v * 2 + if bit then 1 else 0) % 256;
        i := i + 1;
      }
      ShrNone(Next(s.x));
      AckShown(device, s, ack);
      if ack {
        LowSda();
      }
      var _ := Clock();
      HighSda();
    }

    // The bytes to an address; true if the device and every byte got an ACK.
    // The slave records exactly the address and the bytes it took, between one
    // start and, unless the caller keeps the bus, one stop.
    method Write(addr: Byte, d: seq<Byte>, stop: bool) returns (ok: bool)
      requires Seen() && (Level(scl) ==> Level(sda))
      modifies this
      ensures Seen() && (Level(scl) ==> Level(sda))
      ensures ok <==> addr % 128 in device.present && !(0 <= device.nackAfter < |d|)
      ensures var taken := if 0 <= device.nackAfter < |d| then d[..device.nackAfter] else d;
              var log := old(slave).log;
              slave.log == Log(if addr % 128 in device.present then log.writes + [[addr % 128] + taken] else log.writes,
                               log.starts + 1, log.stops + if stop || !ok then 1 else 0)
    {
      hide Shr;
      ghost var log, a := slave.log, addr % 128;
      Start();
      WriteAddressed(device, slave, addr);
      ok := Put(addr * 2 % 256);
      assert [a] + d[..0] == [a];
      var i := 0;
      while ok && i < |d|
        invariant 0 <= i <= |d| && Seen() && !Level(scl)
        invariant slave.log.starts == log.starts + 1 && slave.log.stops == log.stops
        invariant a !in device.present ==> !ok && i == 0 && slave.log.writes == log.writes
        invariant a in device.present && !ok ==> 0 <= device.nackAfter < |d|
        invariant a in device.present ==> slave.log.writes == log.writes + [[a] + d[..if ok then i else device.nackAfter]]
        invariant a in device.present && ok ==> Ready(slave) && !slave.x.isAddr && slave.x.data == i && !(0 <= device.nackAfter < i)
        decreases |d| - i, ok
      {
        DataTaken(device, slave, d[i]);
        ok := Put(d[i]);
        assert [a] + d[..i] + [d[i]] == [a] + d[..i + 1];
        i := i + 1;
      }
      assert ok ==> d[..i] == d;
      if stop || !ok {
        Stop();
      }
    }

    // What the device at an address answers, 0xFF beyond its bytes
    function Answer(addr: Byte, writes: seq<seq<Byte>>, i: nat): Byte {
      var tx := device.reply(addr % 128, Last(writes));
      if i < |tx| then tx[i] else 0xFF
    }

    // The device's bytes, exactly, between one start and one stop
    method Read(addr: Byte, d: array<Byte>, n: nat) returns (ok: bool)
      requires Seen() && (Level(scl) ==> Level(sda)) && n <= d.Length
      modifies this, d
      ensures Seen() && (Level(scl) ==> Level(sda))
      ensures ok <==> addr % 128 in device.present && !device.refuseRead
      ensures var log := old(slave).log; slave.log == log.(starts := log.starts + 1, stops := log.stops + 1)
      ensures ok ==> forall i | 0 <= i < n :: d[i] == Answer(addr, old(slave).log.writes, i)
      ensures d[if ok then n else 0..] == old(d[if ok then n else 0..])
    {
      hide Shr, Received, Heard, Sent;
      ghost var log := slave.log;
      Start();
      ReadAddressed(device, slave, addr);
      ok := Put((addr * 2 + 1) % 256);
      ghost var tx := slave.x.tx;
      var i := 0;
      while ok && i < n
        invariant 0 <= i <= n && Seen() && !Level(scl) && (!ok ==> i == 0)
        invariant slave.log == log.(starts := log.starts + 1)
        invariant ok && i < n ==> Sending(slave) && slave.x.byte == i && slave.x.tx == tx
        invariant forall k | 0 <= k < i :: d[k] == if k < |tx| then tx[k] else 0xFF
        invariant d[i..] == old(d[i..])
      {
        AckShown(device, slave, i + 1 < n);
        assert Next(slave.x) == if i < |tx| then tx[i] else 0xFF;
        var v := Get(i + 1 < n);
        d[i] := v;
        i := i + 1;
      }
      Stop();
    }

    // A 16-bit register, the most significant byte first: the register is
    // written and, after a repeated start, two bytes read
    method ReadReg16(addr: Byte, reg: Byte) returns (ok: bool, v: nat)
      requires Seen() && (Level(scl) ==> Level(sda))
      modifies this
      ensures Seen() && (Level(scl) ==> Level(sda))
      ensures ok <==> addr % 128 in device.present && device.nackAfter != 0 && !device.refuseRead
      ensures ok ==> slave.log == Log(old(slave).log.writes + [[addr % 128, reg]], old(slave).log.starts + 2, old(slave).log.stops + 1)
      ensures ok ==> var w := old(slave).log.writes + [[addr % 128, reg]]; v == (Answer(addr, w, 0) as int) * 256 + Answer(addr, w, 1) as int
    {
      var b := new Byte[2];
      v := 0;
      ok := Write(addr, [reg], false);
      assert [addr % 128] + [reg] == [addr % 128, reg];
      if ok {
        ok := Read(addr, b, 2);
      }
      if ok {
        v := (b[0] as int) * 256 + b[1] as int;
      }
    }
  }
}
