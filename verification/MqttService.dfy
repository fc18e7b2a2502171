/** The MQTT client (MqttService.h): its packets on the socket, and the bytes
    it reads from it. */
module MqttService {
  import opened Bytes
  import opened Text
  import opened MqttPackets

  function Ascii(s: string): (o: Octets)
    requires forall i | 0 <= i < |s| :: s[i] < 128 as char
    ensures |o| == |s|
  {
    seq(|s|, i requires 0 <= i < |s| => s[i] as int)
  }

  // Clean session, a retained will, and the user and password there are
  function ConnectFlags(user: bool, pass: bool): Byte {
    0x26 + (if user then 0x80 else 0) + if pass then 0x40 else 0
  }

  // The password goes only with a user
  function Connect(id: Octets, will: Octets, user: Octets, pass: Octets): Packet {
    var secret := if user != [] then pass else [];
    Packet(0x10, [0, 4, 77, 81, 84, 84, 4, ConnectFlags(user != [], secret != []), 0, 60] + StringBytes(id) + StringBytes(will) +
                 StringBytes(Ascii("offline")) + (if user != [] then StringBytes(user) else []) +
                 (if secret != [] then StringBytes(secret) else []))
  }

  // ── The broker's side of CONNECT (section 3.1 of MQTT 3.1.1) ───────────────

  // Two bytes of length, then as many: the string and what follows it
  function ReadString(b: Octets): Option<(Octets, Octets)> {
    if |b| < 2 then None
    else
      var n: nat := 256 * b[0] as int + b[1];
      if |b| - 2 < n then None else Some((b[2..2 + n], b[2 + n..]))
  }

  // A string that a flag says is there, or not
  function ReadIf(there: bool, b: Octets): Option<(Option<Octets>, Octets)> {
    if !there then Some((None, b))
    else
      match ReadString(b)
      case None => None
      case Some((s, rest)) => Some((Some(s), rest))
  }

  // keep: the seconds within which the client promises to be heard
  datatype Login = Login(
    id: Octets, clean: bool, keep: nat, will: Option<Will>, user: Option<Octets>, pass: Option<Octets>)

  datatype Will = Will(topic: Octets, message: Octets, qos: nat, retain: bool)

  predicate Bit(flags: Byte, value: nat)
    requires value > 0
  {
    flags / value % 2 == 1
  }

  // Who connects: protocol level 4, no reserved flag, a password only with a
  // user, a whole payload and nothing after it
  function ReadConnect(b: Octets): Option<Login> {
    if |b| < 10 || b[..7] != [0, 4, 77, 81, 84, 84, 4] || Bit(b[7], 1) || (Bit(b[7], 64) && !Bit(b[7], 128)) then None
    else
      match ReadString(b[10..])
      case None => None
      case Some((id, rest)) =>
        match ReadWill(b[7], rest)
        case None => None
        case Some((will, rest)) =>
          match ReadIf(Bit(b[7], 128), rest)
          case None => None
          case Some((user, rest)) =>
            match ReadIf(Bit(b[7], 64), rest)
            case None => None
            case Some((pass, rest)) =>
              if rest == [] then Some(Login(id, Bit(b[7], 2), 256 * b[8] as int + b[9], will, user, pass)) else None
  }

  // Without a will, nothing is said of it
  function ReadWill(flags: Byte, b: Octets): Option<(Option<Will>, Octets)> {
    var qos := (if Bit(flags, 16) then 2 else 0) + if Bit(flags, 8) then 1 else 0;
    if !Bit(flags, 4) then if qos == 0 && !Bit(flags, 32) then Some((None, b)) else None
    else
      match ReadString(b)
      case None => None
      case Some((topic, rest)) =>
        match ReadString(rest)
        case None => None
        case Some((message, rest)) => if qos < 3 then Some((Some(Will(topic, message, qos, Bit(flags, 32))), rest)) else None
  }

  lemma StringRead(s: Octets, rest: Octets)
    requires |s| < 65536
    ensures ReadString(StringBytes(s) + rest) == Some((s, rest))
  {
    var b := StringBytes(s) + rest;
    assert 256 * b[0] as int + b[1] == |s|;
    assert b[2..2 + |s|] == s && b[2 + |s|..] == rest;
  }

  lemma FlagBits(user: bool, pass: bool)
    ensures var f := ConnectFlags(user, pass);
            && !Bit(f, 1) && Bit(f, 2) && Bit(f, 4) && !Bit(f, 8) && !Bit(f, 16) && Bit(f, 32)
            && (Bit(f, 64) <==> pass) && (Bit(f, 128) <==> user)
  {
  }

  lemma WillRead(flags: Byte, topic: Octets, message: Octets, rest: Octets)
    requires Bit(flags, 4) && !Bit(flags, 8) && !Bit(flags, 16) && Bit(flags, 32)
    requires |topic| < 65536 && |message| < 65536
    ensures ReadWill(flags, StringBytes(topic) + (StringBytes(message) + rest))
         == Some((Some(Will(topic, message, 0, true)), rest))
  {
    hide StringBytes, ReadString, Bit;
    StringRead(topic, StringBytes(message) + rest);
    StringRead(message, rest);
  }

  // What a broker reads of the packet: the name, a clean session kept alive for
  // a minute, the will retained, and the user and the password there are
  lemma ConnectRead(id: Octets, will: Octets, user: Octets, pass: Octets)
    requires |id| < 65536 && |will| < 65536 && |user| < 65536 && |pass| < 65536
    ensures Connect(id, will, user, pass).header == 0x10
    ensures ReadConnect(Connect(id, will, user, pass).body)
         == Some(Login(id, true, 60, Some(Will(will, Ascii("offline"), 0, true)), if user == [] then None else Some(user),
                       if user == [] || pass == [] then None else Some(pass)))
  {
    hide StringBytes, ReadString, ReadWill, Bit, ConnectFlags;
    var secret := if user != [] then pass else [];
    FlagBits(user != [], secret != []);
    var b := Connect(id, will, user, pass).body;
    var last := if secret != [] then StringBytes(secret) else [];
    var login := (if user != [] then StringBytes(user) else []) + last;
    var message := StringBytes(Ascii("offline")) + login;
    var payload := StringBytes(id) + (StringBytes(will) + message);
    assert b == [0, 4, 77, 81, 84, 84, 4, ConnectFlags(user != [], secret != []), 0, 60] + payload;
    assert b[10..] == payload;
    StringRead(id, StringBytes(will) + message);
    WillRead(b[7], will, Ascii("offline"), login);
    StringRead(user, last);
    StringRead(secret, []);
    assert StringBytes(secret) + [] == StringBytes(secret);
  }

  // ── The other packets ──────────────────────────────────────────────────────

  // To the command topic, with id 1 and QoS 0
  function Subscribe(topic: Octets): Packet {
    Packet(0x82, [0, 1] + StringBytes(topic) + [0])
  }

  // Retained, QoS 0
  function Retained(topic: Octets, body: Octets): Packet {
    Packet(0x31, StringBytes(topic) + body)
  }

  // ── The broker's side of them (sections 3.3 and 3.8) ───────────────────────

  // What is asked for: the packet's id, then each topic with its quality of service
  function ReadTopics(b: Octets): Option<seq<(Octets, nat)>>
    decreases |b|
  {
    if b == [] then Some([])
    else
      match ReadString(b)
      case None => None
      case Some((topic, rest)) =>
        if rest == [] || rest[0] > 2 then None
        else
          match ReadTopics(rest[1..])
          case None => None
          case Some(more) => Some([(topic, rest[0] as nat)] + more)
  }

  function ReadSubscribe(p: Packet): Option<(nat, seq<(Octets, nat)>)> {
    if p.header != 0x82 || |p.body| < 2 || p.body[..2] == [0, 0] then None
    else
      match ReadTopics(p.body[2..])
      case None => None
      case Some(topics) => if topics == [] then None else Some((256 * p.body[0] as int + p.body[1], topics))
  }

  datatype Published = Published(retain: bool, qos: nat, topic: Octets, payload: Octets)

  // A message with quality of service 0 has no id of its own
  function ReadPublish(p: Packet): Option<Published> {
    var qos := p.header / 2 % 4;
    if p.header / 16 != 3 || qos == 3 then None
    else
      match ReadString(p.body)
      case None => None
      case Some((topic, rest)) =>
        if qos == 0 then Some(Published(Bit(p.header, 1), 0, topic, rest))
        else if |rest| < 2 then None
        else Some(Published(Bit(p.header, 1), qos, topic, rest[2..]))
  }

  lemma SubscribeRead(topic: Octets)
    requires |topic| < 65536
    ensures ReadSubscribe(Subscribe(topic)) == Some((1, [(topic, 0)]))
  {
    hide StringBytes, ReadString;
    var b := Subscribe(topic).body;
    assert b[2..] == StringBytes(topic) + [0];
    assert b[..2] == [0, 1];
    StringRead(topic, [0]);
    assert [0 as Byte][1..] == [];
    assert ReadTopics([]) == Some([]);
    assert [(topic, 0)] + [] == [(topic, 0)];
  }

  lemma RetainedRead(topic: Octets, payload: Octets)
    requires |topic| < 65536
    ensures ReadPublish(Retained(topic, payload)) == Some(Published(true, 0, topic, payload))
  {
    hide StringBytes, ReadString;
    StringRead(topic, payload);
  }

  function Concat(pieces: seq<Octets>): Octets {
    if pieces == [] then [] else Concat(pieces[..|pieces| - 1]) + pieces[|pieces| - 1]
  }

  // A header that declares the bytes after it makes them a packet
  lemma Framed(before: Octets, type_: Byte, length: nat, body: Octets)
    requires length == |body|
    ensures before + [type_] + LengthBytes(length) + body == before + PacketBytes(Packet(type_, body))
  {
    var p := [type_] + LengthBytes(length);
    assert before + [type_] + LengthBytes(length) == before + p;
    assert before + p + body == before + (p + body);
  }

  // The length's first byte says whether there are more
  lemma LengthByte(put: Octets, n: nat)
    ensures put + LengthBytes(n)
         == put + [if n >= 128 then n % 128 + 128 else n % 128] + if n >= 128 then LengthBytes(n / 128) else []
  {
    if n >= 128 {
      assert put + LengthBytes(n) == put + [n % 128 + 128] + LengthBytes(n / 128);
    }
  }

  lemma FourPackets(before: Octets, a: Packet, b: Packet, c: Packet, d: Packet)
    ensures before + PacketBytes(a) + PacketBytes(b) + PacketBytes(c) + PacketBytes(d) == before + Wire([a, b, c, d])
  {
    WireAdds([], a);
    WireAdds([a], b);
    WireAdds([a, b], c);
    WireAdds([a, b, c], d);
    assert [] + [a] == [a] && [a] + [b] == [a, b] && [a, b] + [c] == [a, b, c] && [a, b, c] + [d] == [a, b, c, d];
    assert before + PacketBytes(a) == before + Wire([a]);
    assert before + Wire([a]) + PacketBytes(b) == before + Wire([a, b]);
    assert before + Wire([a, b]) + PacketBytes(c) == before + Wire([a, b, c]);
    assert before + Wire([a, b, c]) + PacketBytes(d) == before + Wire([a, b, c, d]);
  }

  class Client {
    // The socket
    var out: Octets

    // Discovery: a pass that only measures
    var counting: bool
    var count: nat

    // Incoming packet: header, length and body
    var phase: Phase
    var rxHeader: Byte
    var rxShift: nat
    var rxLength: nat
    var rxGot: nat
    const rx: array<Byte>
    var seen: seq<Seen>
    var failed: bool

    ghost predicate Listening()
      reads this, rx
    {
      rx.Length == RX_LEN && Open(Received())
    }

    ghost function Received(): Rx
      reads this, rx
    {
      Rx(phase, rxHeader, rxShift, rxLength, rxGot, rx[..], seen, failed)
    }

    constructor ()
      ensures Listening() && phase == HEADER && seen == [] && out == [] && fresh(rx)
    {
      rx := new Byte[RX_LEN](i => 0);
      out, counting, count := [], false, 0;
      phase, rxHeader, rxShift, rxLength, rxGot, seen, failed := HEADER, 0, 0, 0, 0, [], false;
    }

    // ── Sending ──────────────────────────────────────────────────────────────

    method Write(p: Octets)
      modifies `out
      ensures out == old(out) + p
    {
      out := out + p;
    }

    // The type and the remaining length: five bytes hold any below 2^28
    method Header(type_: Byte, length: nat)
      requires length < MAX_LENGTH
      modifies `out
      ensures out == old(out) + [type_] + LengthBytes(length)
    {
      var h := new Byte[5];
      h[0] := type_;
      var k := PutLength(h, length);
      assert h[..k] == [type_] + LengthBytes(length);
      Write(h[..k]);
      assert old(out) + ([type_] + LengthBytes(length)) == old(out) + [type_] + LengthBytes(length);
    }

    // The bytes of the length still to write fit in what is left of the five
    static predicate Room(k: nat, n: nat) {
      (k == 1 && n < 0x1000_0000) || (k == 2 && n < 0x20_0000) || (k == 3 && n < 0x4000) || (k == 4 && n < 128)
    }

    method PutLength(h: array<Byte>, length: nat) returns (k: nat)
      requires h.Length == 5 && length < MAX_LENGTH
      modifies h
      ensures 1 <= k <= 5 && h[0] == old(h[0]) && h[1..k] == LengthBytes(length)
    {
      hide LengthBytes;
      var n: nat := length;
      k := 1;
      var more := true;
      while more
        invariant 1 <= k <= 5 && h[0] == old(h[0])
        invariant more ==> Room(k, n)
        invariant h[1..k] + (if more then LengthBytes(n) else []) == LengthBytes(length)
        decreases more, n
      {
        var b: Byte := n % 128;
        ghost var put := h[1..k];
        h[k] := if n >= 128 then b + 128 else b;
        assert h[1..k + 1] == put + [h[k]];
        LengthByte(put, n);
        n := n / 128;
        k := k + 1;
        more := n > 0;
      }
    }

    method String(s: Octets)
      modifies `out
      ensures out == old(out) + StringBytes(s)
    {
      Write([|s| / 256 % 256, |s| % 256]);
      Write(s);
    }

    // One more piece of a body already begun
    method Piece(p: Octets, ghost before: Octets, ghost body: Octets)
      requires out == before + body
      modifies `out
      ensures out == before + (body + p)
    {
      Write(p);
      assert before + body + p == before + (body + p);
    }

    method StringPiece(s: Octets, ghost before: Octets, ghost body: Octets)
      requires out == before + body
      modifies `out
      ensures out == before + (body + StringBytes(s))
    {
      String(s);
      assert before + body + StringBytes(s) == before + (body + StringBytes(s));
    }

    // CONNECT, its length summed before anything is written
    method SendConnect(id: Octets, will: Octets, user: Octets, pass: Octets)
      requires |id| < 65536 && |will| < 65536 && |user| < 65536 && |pass| < 65536
      modifies `out
      ensures out == old(out) + PacketBytes(Connect(id, will, user, pass))
    {
      var secret := if user != [] then pass else [];
      var flags := ConnectFlags(user != [], secret != []);
      var length := 10 + 2 + |id| + 2 + |will| + 2 + 7 + (if user != [] then 2 + |user| else 0) +
                    (if secret != [] then 2 + |secret| else 0);
      Header(0x10, length);
      ghost var head := out;
      var vh := [0, 4, 77, 81, 84, 84, 4, flags, 0, 60];
      Write(vh);
      ghost var body: Octets := vh;
      StringPiece(id, head, body);
      body := body + StringBytes(id);
      StringPiece(will, head, body);
      body := body + StringBytes(will);
      StringPiece(Ascii("offline"), head, body);
      body := body + StringBytes(Ascii("offline"));
      if user != [] {
        StringPiece(user, head, body);
      }
      body := body + if user != [] then StringBytes(user) else [];
      if secret != [] {
        StringPiece(secret, head, body);
      }
      body := body + if secret != [] then StringBytes(secret) else [];
      Framed(old(out), 0x10, length, body);
      assert Connect(id, will, user, pass) == Packet(0x10, body);
    }

    method SendSubscribe(topic: Octets)
      requires |topic| < 65536
      modifies `out
      ensures out == old(out) + PacketBytes(Subscribe(topic))
    {
      Header(0x82, 2 + 2 + |topic| + 1);
      ghost var head := out;
      Write([0, 1]);
      StringPiece(topic, head, [0, 1]);
      Piece([0], head, [0, 1] + StringBytes(topic));
      Framed(old(out), 0x82, 2 + 2 + |topic| + 1, Subscribe(topic).body);
    }

    method SendPublish(topic: Octets, body: Octets)
      requires |topic| < 65536 && 2 + |topic| + |body| < MAX_LENGTH
      modifies `out
      ensures out == old(out) + PacketBytes(Retained(topic, body))
    {
      Header(0x31, 2 + |topic| + |body|);
      ghost var head := out;
      String(topic);
      Piece(body, head, StringBytes(topic));
      Framed(old(out), 0x31, 2 + |topic| + |body|, StringBytes(topic) + body);
    }

    // Measured while counting, written otherwise
    method Out(p: Octets)
      modifies `out, `count
      ensures out == old(out) + if counting then [] else p
      ensures count == old(count) + if counting then |p| else 0
    {
      if counting {
        count := count + |p|;
      } else {
        out := out + p;
      }
    }

    // The pieces of the discovery text, one by one
    method Discovery(pieces: seq<Octets>)
      modifies `out, `count
      ensures out == old(out) + if counting then [] else Concat(pieces)
      ensures count == old(count) + if counting then |Concat(pieces)| else 0
    {
      var i := 0;
      ghost var before, n := out, count;
      while i < |pieces|
        invariant 0 <= i <= |pieces|
        invariant out == before + if counting then [] else Concat(pieces[..i])
        invariant count == n + if counting then |Concat(pieces[..i])| else 0
      {
        assert pieces[..i + 1][..i] == pieces[..i];
        assert before + Concat(pieces[..i]) + pieces[i] == before + Concat(pieces[..i + 1]);
        Out(pieces[i]);
        i := i + 1;
      }
      assert pieces[..i] == pieces;
    }

    // The discovery message: a pass that measures it, then one that writes it.
    // The same pieces both times, so the length declared is the length sent
    method Announce(topic: Octets, pieces: seq<Octets>)
      requires |topic| < 65536 && 2 + |topic| + |Concat(pieces)| < MAX_LENGTH
      modifies `out, `count, `counting
      ensures out == old(out) + PacketBytes(Retained(topic, Concat(pieces))) && !counting
    {
      count := 0;
      counting := true;
      Discovery(pieces);
      assert out == old(out);
      Header(0x31, 2 + |topic| + count);
      ghost var head := out;
      String(topic);
      counting := false;
      Discovery(pieces);
      ghost var body := Concat(pieces);
      assert head + StringBytes(topic) + body == head + (StringBytes(topic) + body);
      Framed(old(out), 0x31, 2 + |topic| + |body|, StringBytes(topic) + body);
    }

    // What goes out when the broker accepts: online, the subscription, the
    // discovery message and the state, each a packet of its own
    method Online(base: Octets, discovery: Octets, pieces: seq<Octets>, state: Octets)
      requires |base| < 32 && |discovery| < 64 && |Concat(pieces)| < MAX_LENGTH - 66 && |state| < 384
      modifies `out, `count, `counting
      ensures out == old(out) + Wire([Retained(base + Ascii("/avail"), Ascii("online")), Subscribe(base + Ascii("/cmd")),
                                      Retained(discovery, Concat(pieces)), Retained(base + Ascii("/state"), state)])
    {
      ghost var before := out;
      var avail, cmd, tele := base + Ascii("/avail"), base + Ascii("/cmd"), base + Ascii("/state");
      ghost var a, b := Retained(avail, Ascii("online")), Subscribe(cmd);
      ghost var c, d := Retained(discovery, Concat(pieces)), Retained(tele, state);
      SendPublish(avail, Ascii("online"));
      SendSubscribe(cmd);
      Announce(discovery, pieces);
      SendPublish(tele, state);
      FourPackets(before, a, b, c, d);
    }

    // ── Receiving ────────────────────────────────────────────────────────────

    // A byte from the broker
    method Feed(c: Byte)
      requires Listening()
      modifies `phase, `rxHeader, `rxShift, `rxLength, `rxGot, `seen, `failed, rx
      ensures Received() == MqttPackets.Feed(old(Received()), c)
      ensures !failed ==> Listening()
    {
      match phase {
        case HEADER =>
          rxHeader, rxLength, rxShift, phase := c, 0, 0, LENGTH;
        case LENGTH =>
          FeedLength(c);
        case BODY =>
          if rxGot < RX_LEN {
            rx[rxGot] := c;
          }
          rxGot := rxGot + 1;
          if rxGot >= rxLength {
            Finish();
          }
      }
    }

    method FeedLength(c: Byte)
      requires Listening() && phase == LENGTH
      modifies `phase, `rxShift, `rxLength, `rxGot, `seen, `failed
      ensures Received() == MqttPackets.Feed(old(Received()), c)
    {
      rxLength := rxLength + c % 128 * Weight(rxShift);
      rxShift := rxShift + 7;
      if c >= 128 {
        failed := rxShift >= 28;
      } else {
        rxGot, phase := 0, BODY;
        if rxLength == 0 {
          Finish();
        }
      }
    }

    method Finish()
      requires rx.Length == RX_LEN && Valid(Received())
      modifies `phase, `seen
      ensures Received() == Whole(old(Received()))
    {
      phase := HEADER;
      seen := seen + [Seen(rxHeader, rxLength, rx[..Held(rxLength)])];
    }
  }
}
