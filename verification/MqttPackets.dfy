/** MQTT packets (MqttService.h): what the client writes declares what follows,
    and what it reads, byte by byte, is the packets that were sent. Section 2.2
    of MQTT 3.1.1. */
module MqttPackets {
  import opened Bytes
  import opened Text

  const MAX_LENGTH := 0x1000_0000   // 2^28: four length bytes
  const RX_LEN := 80
  const CMD_LEN := 40

  type Octets = seq<Byte>

  datatype Packet = Packet(header: Byte, body: Octets)

  // ── The wire ───────────────────────────────────────────────────────────────

  // The remaining length, seven bits a byte, the lowest first
  function LengthBytes(n: nat): Octets {
    if n < 128 then [n] else [n % 128 + 128] + LengthBytes(n / 128)
  }

  function PacketBytes(p: Packet): Octets {
    [p.header] + LengthBytes(|p.body|) + p.body
  }

  function Wire(ps: seq<Packet>): Octets {
    if ps == [] then [] else PacketBytes(ps[0]) + Wire(ps[1..])
  }

  // A string with its length before it
  function StringBytes(s: Octets): Octets {
    [|s| / 256 % 256, |s| % 256] + s
  }

  lemma {:induction false} WireAdds(ps: seq<Packet>, p: Packet)
    ensures Wire(ps + [p]) == Wire(ps) + PacketBytes(p)
  {
    if ps == [] {
      assert ps + [p] == [p] && [p][1..] == [];
      assert PacketBytes(p) + [] == PacketBytes(p);
    } else {
      assert (ps + [p])[1..] == ps[1..] + [p];
      WireAdds(ps[1..], p);
      assert PacketBytes(ps[0]) + (Wire(ps[1..]) + PacketBytes(p)) == Wire(ps) + PacketBytes(p);
    }
  }

  // ── Receiving ──────────────────────────────────────────────────────────────

  datatype Phase = HEADER | LENGTH | BODY

  // A packet as the client sees it: its header, the length it declared and as
  // much of its body as the buffer holds
  datatype Seen = Seen(header: Byte, length: nat, first: Octets)

  datatype Rx = Rx(phase: Phase, header: Byte, shift: nat, length: nat, got: nat, buffer: Octets, seen: seq<Seen>, failed: bool)

  predicate Valid(s: Rx) {
    |s.buffer| == RX_LEN && s.shift <= 28 && s.length < MAX_LENGTH
  }

  function Held(n: nat): nat {
    if n > RX_LEN then RX_LEN else n
  }

  // 2^shift for the shifts there are
  function Weight(shift: nat): nat {
    if shift == 0 then 1 else if shift == 7 then 128 else if shift == 14 then 16384 else 2097152
  }

  function Whole(s: Rx): (t: Rx)
    requires Valid(s)
    ensures Valid(t)
  {
    s.(phase := HEADER, seen := s.seen + [Seen(s.header, s.length, s.buffer[..Held(s.length)])])
  }

  function LengthFed(s: Rx, c: Byte): (t: Rx)
    requires Valid(s) && s.shift < 28
    ensures t.shift == s.shift + 7
  {
    var l := s.(length := s.length + c % 128 * Weight(s.shift), shift := s.shift + 7);
    if c >= 128 then if l.shift < 28 then l else l.(failed := true)
    else l.(got := 0, phase := BODY)
  }

  function BodyFed(s: Rx, c: Byte): (t: Rx)
    requires Valid(s)
    ensures Valid(t)
  {
    s.(buffer := if s.got < RX_LEN then s.buffer[s.got := c] else s.buffer, got := s.got + 1)
  }

  predicate Open(s: Rx) {
    && Valid(s) && !s.failed
    && (s.phase == LENGTH ==> s.shift in {0, 7, 14, 21} && s.length < Weight(s.shift))
    && (s.phase == BODY ==> s.got < s.length)
  }

  function Feed(s: Rx, c: Byte): (t: Rx)
    requires Open(s)
    ensures t.failed || Open(t)
  {
    match s.phase
    case HEADER => s.(header := c, length := 0, shift := 0, phase := LENGTH)
    case LENGTH =>
      var l := LengthFed(s, c);
      if l.phase == BODY && l.length == 0 then Whole(l) else l
    case BODY =>
      var b := BodyFed(s, c);
      if b.got < b.length then b else Whole(b)
  }

  // Until the connection fails
  function FeedAll(s: Rx, bytes: Octets): (t: Rx)
    requires Open(s)
    decreases |bytes|
  {
    if bytes == [] then s
    else
      var t := Feed(s, bytes[0]);
      if t.failed then t else FeedAll(t, bytes[1..])
  }

  lemma FedOne(s: Rx, c: Byte, rest: Octets)
    requires Open(s) && !Feed(s, c).failed
    ensures FeedAll(s, [c] + rest) == FeedAll(Feed(s, c), rest)
  {
    assert ([c] + rest)[1..] == rest;
  }

  lemma WeightsAdd(n: nat, shift: nat)
    requires shift in {0, 7, 14}
    ensures n % 128 * Weight(shift) + n / 128 * Weight(shift + 7) == n * Weight(shift)
  {
    assert n == n / 128 * 128 + n % 128;
    assert Weight(shift + 7) == 128 * Weight(shift);
  }

  // The length coding is undone: from its first byte to the body
  lemma {:induction false} LengthRead(s: Rx, n: nat, rest: Octets)
    requires Open(s) && s.phase == LENGTH && s.length + n * Weight(s.shift) < MAX_LENGTH
    ensures var l := s.(length := s.length + n * Weight(s.shift), shift := s.shift + 7 * |LengthBytes(n)|, got := 0, phase := BODY);
            var t := if l.length == 0 then Whole(l) else l;
            Valid(l) && Open(t) && FeedAll(s, LengthBytes(n) + rest) == FeedAll(t, rest)
    decreases n
  {
    hide FeedAll;
    if n < 128 {
      FedOne(s, n, rest);
    } else {
      var c: Byte := n % 128 + 128;
      var t := Feed(s, c);
      assert s.shift < 21;
      WeightsAdd(n, s.shift);
      assert LengthBytes(n) + rest == [c] + (LengthBytes(n / 128) + rest);
      FedOne(s, c, LengthBytes(n / 128) + rest);
      LengthRead(t, n / 128, rest);
    }
  }

  // The buffer after more bytes of a body
  function Filled(buffer: Octets, got: nat, body: Octets): (b: Octets)
    requires |buffer| == RX_LEN
    ensures |b| == RX_LEN
    decreases |body|
  {
    if body == [] then buffer
    else Filled(if got < RX_LEN then buffer[got := body[0]] else buffer, got + 1, body[1..])
  }

  lemma {:induction false} FilledHolds(buffer: Octets, got: nat, body: Octets)
    requires |buffer| == RX_LEN
    ensures var b, k := Filled(buffer, got, body), Held(got);
            b[..k] == buffer[..k] && b[k..Held(got + |body|)] == body[..Held(got + |body|) - k]
    decreases |body|
  {
    if body != [] {
      var next := if got < RX_LEN then buffer[got := body[0]] else buffer;
      FilledHolds(next, got + 1, body[1..]);
      var b := Filled(next, got + 1, body[1..]);
      assert b[..Held(got)] == b[..Held(got + 1)][..Held(got)];
      if got < RX_LEN {
        assert b[got] == b[..got + 1][got] == next[got];
        var end := Held(got + |body|);
        assert b[got..end] == [b[got]] + b[got + 1..end];
        assert body[..end - got] == [body[0]] + body[1..][..end - got - 1];
      }
    }
  }

  lemma {:induction false} BodyRead(s: Rx, body: Octets, rest: Octets)
    requires Open(s) && s.phase == BODY && s.got + |body| == s.length
    ensures FeedAll(s, body + rest) == FeedAll(Whole(s.(buffer := Filled(s.buffer, s.got, body), got := s.length)), rest)
    decreases |body|
  {
    hide FeedAll;
    var c, t := body[0], BodyFed(s, body[0]);
    assert body + rest == [c] + (body[1..] + rest);
    FedOne(s, c, body[1..] + rest);
    if |body| == 1 {
      assert body[1..] + rest == rest;
    } else {
      BodyRead(t, body[1..], rest);
    }
  }

  function SeenOf(p: Packet): Seen {
    Seen(p.header, |p.body|, p.body[..Held(|p.body|)])
  }

  function SeenAll(ps: seq<Packet>): (r: seq<Seen>)
    ensures |r| == |ps| && forall i | 0 <= i < |ps| :: r[i] == SeenOf(ps[i])
  {
    seq(|ps|, i requires 0 <= i < |ps| => SeenOf(ps[i]))
  }

  // A packet, whatever follows it, is seen once, as it was sent
  lemma PacketRead(s: Rx, p: Packet, rest: Octets) returns (t: Rx)
    requires Open(s) && s.phase == HEADER && |p.body| < MAX_LENGTH
    ensures Open(t) && t.phase == HEADER && t.seen == s.seen + [SeenOf(p)]
    ensures FeedAll(s, PacketBytes(p) + rest) == FeedAll(t, rest)
  {
    hide FeedAll;
    var n := |p.body|;
    var body := p.body + rest;
    assert PacketBytes(p) + rest == [p.header] + (LengthBytes(n) + body);
    FedOne(s, p.header, LengthBytes(n) + body);
    var h := Feed(s, p.header);
    LengthRead(h, n, body);
    var l := h.(length := n, shift := 7 * |LengthBytes(n)|, got := 0, phase := BODY);
    if n == 0 {
      t := Whole(l);
      assert body == rest;
      assert l.buffer[..0] == p.body[..0];
    } else {
      BodyRead(l, p.body, rest);
      FilledHolds(l.buffer, 0, p.body);
      t := Whole(l.(buffer := Filled(l.buffer, 0, p.body), got := n));
    }
  }

  lemma FedNone(s: Rx)
    requires Open(s)
    ensures FeedAll(s, []) == s
  {
  }

  // Any packets one after another reach the client once each and in order, with
  // their headers, lengths and first bytes, bodies beyond the buffer included
  lemma {:induction false} WireRead(s: Rx, ps: seq<Packet>)
    requires Open(s) && s.phase == HEADER && forall p | p in ps :: |p.body| < MAX_LENGTH
    ensures var t := FeedAll(s, Wire(ps)); !t.failed && t.phase == HEADER && t.seen == s.seen + SeenAll(ps)
    decreases |ps|
  {
    hide FeedAll, Feed, PacketBytes, SeenOf;
    if ps == [] {
      FedNone(s);
      assert s.seen + SeenAll(ps) == s.seen;
    } else {
      var t := PacketRead(s, ps[0], Wire(ps[1..]));
      WireRead(t, ps[1..]);
      assert s.seen + [SeenOf(ps[0])] + SeenAll(ps[1..]) == s.seen + SeenAll(ps);
    }
  }

  // Four length bytes that all announce another end the connection
  lemma LengthTooLong(s: Rx, h: Byte, a: Byte, b: Byte, c: Byte, d: Byte)
    requires Open(s) && s.phase == HEADER && a >= 128 && b >= 128 && c >= 128
    ensures FeedAll(s, [h, a, b, c, d]).failed <==> d >= 128
  {
    var bytes := [h, a, b, c, d];
    var s1 := Feed(s, h);
    var s2 := Feed(s1, a);
    var s3 := Feed(s2, b);
    var s4 := Feed(s3, c);
    assert bytes[1..] == [a, b, c, d] && [a, b, c, d][1..] == [b, c, d] && [b, c, d][1..] == [c, d] && [c, d][1..] == [d] && [d][1..] == [];
    assert FeedAll(s, bytes) == FeedAll(s1, [a, b, c, d]) == FeedAll(s2, [b, c, d]);
    assert FeedAll(s2, [b, c, d]) == FeedAll(s3, [c, d]) == FeedAll(s4, [d]);
    if d < 128 {
      assert FeedAll(s4, [d]) == FeedAll(Feed(s4, d), []);
    }
  }

  // ── The command in a packet ────────────────────────────────────────────────

  // The text of a command, if the packet is a whole PUBLISH of QoS 0 that is
  // not retained
  function CommandIn(p: Seen): Option<Octets>
    requires |p.first| == Held(p.length)
  {
    if p.header / 16 != 3 || p.header % 16 % 8 != 0 || p.length > RX_LEN || p.length < 2 then None
    else
      var topic: nat := (p.first[0] as int) * 256 + p.first[1] as int;
      if 2 + topic > p.length then None
      else
        var n := p.length - 2 - topic;
        Some(p.first[2 + topic..2 + topic + if n >= CMD_LEN then CMD_LEN - 1 else n])
  }

  function Publish(flags: Byte, topic: Octets, payload: Octets): Packet
    requires flags < 16
  {
    Packet(0x30 + flags, StringBytes(topic) + payload)
  }

  // What a broker publishes to the command topic arrives as the command's text,
  // cut to what a command may have; unless it is retained, of another QoS or
  // too long
  lemma CommandArrives(flags: Byte, topic: Octets, payload: Octets)
    requires flags < 16 && |topic| < 65536
    ensures var size := 2 + |topic| + |payload|;
            CommandIn(SeenOf(Publish(flags, topic, payload))) ==
            if flags % 8 == 0 && size <= RX_LEN then Some(payload[..if |payload| >= CMD_LEN then CMD_LEN - 1 else |payload|])
            else None
  {
    var p := Publish(flags, topic, payload);
    var first := SeenOf(p).first;
    if 2 + |topic| + |payload| <= RX_LEN {
      assert first == p.body;
      assert first[0] == 0 && first[1] == |topic|;
      assert first[2 + |topic|..] == payload;
      var k := if |payload| >= CMD_LEN then CMD_LEN - 1 else |payload|;
      assert first[2 + |topic|..][..k] == first[2 + |topic|..2 + |topic| + k];
    }
  }
}
