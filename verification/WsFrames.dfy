/** WebSocket frames (sections 5.2 and 5.3 of RFC 6455) as the peer makes and
    takes them (test/ws_frames.h), and what the client accepts (WsClient.h). */
module WsFrames {
  import opened Bytes
  import opened Text

  type Octets = seq<Byte>

  const MAX_FRAME := 8192

  // ── What the client sends ──────────────────────────────────────────────────

  // Each byte with the mask's at its place in the payload
  function Masked(p: Octets, mask: Octets, at: nat): (m: Octets)
    requires |mask| == 4
    ensures |m| == |p|
  {
    seq(|p|, i requires 0 <= i < |p| => Xor(p[i], mask[(at + i) % 4]))
  }

  lemma MaskedApart(p: Octets, q: Octets, mask: Octets, at: nat)
    requires |mask| == 4
    ensures Masked(p + q, mask, at) == Masked(p, mask, at) + Masked(q, mask, at + |p|)
  {
  }

  // The header as it is written: two length bytes from 126 on, whatever the length
  function ClientHeader(op: Byte, n: nat): Octets
    requires op < 16
  {
    [0x80 + op] + if n < 126 then [0x80 + n] else [0xFE, n / 256 % 256, n % 256]
  }

  function ClientFrame(op: Byte, mask: Octets, payload: Octets): Octets
    requires op < 16 && |mask| == 4
  {
    ClientHeader(op, |payload|) + mask + Masked(payload, mask, 0)
  }

  datatype Taken = Taken(final: bool, masked: bool, op: Byte, payload: Octets, rest: Octets)

  // The next frame the device wrote; none while it is not all there
  function TakeClientFrame(wire: Octets): Option<Taken> {
    if |wire| < 2 then None
    else
      var b0, b1 := wire[0], wire[1];
      if b1 % 128 == 126 && |wire| < 4 then None
      else
        var n: nat := if b1 % 128 == 126 then (wire[2] as int) * 256 + wire[3] as int else b1 % 128;
        var p := if b1 % 128 == 126 then 4 else 2;
        var masked := b1 >= 128;
        if masked && |wire| < p + 4 then None
        else
          var mask := if masked then wire[p..p + 4] else [0, 0, 0, 0];
          var q := if masked then p + 4 else p;
          if |wire| < q + n then None
          else Some(Taken(b0 >= 128, masked, b0 % 16, Unmasked(wire, q, n, mask), wire[q + n..]))
  }

  // What the peer makes of the payload's bytes, which are from q on
  function Unmasked(wire: Octets, q: nat, n: nat, mask: Octets): (p: Octets)
    requires q + n <= |wire| && |mask| == 4
    ensures |p| == n
  {
    seq(n, k requires 0 <= k < n => Xor(wire[q + k], mask[k % 4]))
  }

  // Section 5.3 of RFC 6455, of a frame as it goes out: the header, the mask,
  // and each byte of the payload with the mask's byte of its place modulo 4
  ghost predicate OnWire(wire: Octets, op: Byte, mask: Octets, payload: Octets)
    requires |mask| == 4
  {
    var n := |payload|;
    var p := if n < 126 then 2 else 4;
    && |wire| == p + 4 + n && wire[0] == 0x80 + op
    && (if n < 126 then wire[1] == 0x80 + n else wire[1] == 0xFE && wire[2] == n / 256 % 256 && wire[3] == n % 256)
    && wire[p..p + 4] == mask
    && forall i | 0 <= i < n :: wire[p + 4 + i] == Xor(payload[i], mask[i % 4])
  }

  lemma FrameOnWire(op: Byte, mask: Octets, payload: Octets)
    requires op < 16 && |mask| == 4
    ensures OnWire(ClientFrame(op, mask, payload), op, mask, payload)
  {
    hide Xor;
  }

  // And what the peer makes of it
  lemma UnmaskedBack(wire: Octets, q: nat, mask: Octets, payload: Octets)
    requires |mask| == 4 && q + |payload| <= |wire|
    requires forall i | 0 <= i < |payload| :: wire[q + i] == Xor(payload[i], mask[i % 4])
    ensures Unmasked(wire, q, |payload|, mask) == payload
  {
    hide Xor;
    forall i | 0 <= i < |payload| ensures Unmasked(wire, q, |payload|, mask)[i] == payload[i] {
      XorTwice(payload[i], mask[i % 4]);
    }
  }

  // The peer takes back the operation and the payload, and stops at the frame's end
  lemma ClientFrameTaken(op: Byte, mask: Octets, payload: Octets, rest: Octets)
    requires op < 16 && |mask| == 4 && |payload| < 65536
    ensures TakeClientFrame(ClientFrame(op, mask, payload) + rest) == Some(Taken(true, true, op, payload, rest))
  {
    var n, frame := |payload|, ClientFrame(op, mask, payload);
    var wire := frame + rest;
    FrameOnWire(op, mask, payload);
    hide Xor, ClientFrame, Unmasked;
    var p := if n < 126 then 2 else 4;
    assert wire[..|frame|] == frame && wire[|frame|..] == rest;
    assert wire[p..p + 4] == frame[p..p + 4];
    UnmaskedBack(wire, p + 4, mask, payload);
  }

  // From 65536 bytes on the header declares less, and the peer takes a prefix
  lemma ClientFrameCut(op: Byte, mask: Octets, payload: Octets, rest: Octets)
    requires op < 16 && |mask| == 4 && |payload| >= 65536
    ensures var t := TakeClientFrame(ClientFrame(op, mask, payload) + rest);
            t.Some? && t.value.payload == payload[..|payload| % 65536]
  {
    var n, frame := |payload|, ClientFrame(op, mask, payload);
    var k, wire := n % 65536, frame + rest;
    FrameOnWire(op, mask, payload);
    TwoBytes(n);
    hide Xor, ClientFrame, Unmasked;
    assert wire[..|frame|] == frame;
    assert wire[4..8] == frame[4..8];
    UnmaskedBack(wire, 8, mask, payload[..k]);
  }

  lemma TwoBytes(n: nat)
    ensures n / 256 % 256 * 256 + n % 256 == n % 65536
  {
  }

  // ── What the client accepts ────────────────────────────────────────────────

  // A number of some bytes, the most significant first
  function BigEndian(b: Octets): nat {
    if b == [] then 0 else BigEndian(b[..|b| - 1]) * 256 + b[|b| - 1]
  }

  // The bytes of length after the first two of a header
  function LengthBytes(b1: Byte): nat {
    if b1 % 128 == 126 then 2 else if b1 % 128 == 127 then 8 else 0
  }

  // The header is all there
  predicate Whole(input: Octets) {
    |input| >= 2 && |input| >= 2 + LengthBytes(input[1])
  }

  // The length it declares, in any of the three forms
  function Declared(input: Octets): nat
    requires Whole(input)
  {
    if input[1] % 128 < 126 then input[1] % 128 else BigEndian(input[2..2 + LengthBytes(input[1])])
  }

  // Final, no reserved bit, not masked, not a continuation and not too long
  predicate Acceptable(input: Octets) {
    Whole(input) && input[0] / 16 == 8 && input[1] < 128 && input[0] % 16 != 0 && Declared(input) <= MAX_FRAME
  }

  // Bit by bit: FIN set, RSV1 to RSV3 clear, an opcode that is no continuation,
  // MASK clear
  lemma AcceptableExactly(input: Octets)
    requires Whole(input)
    ensures var fin, rsv, opcode, masked := input[0] / 128, input[0] / 16 % 8, input[0] % 16, input[1] / 128;
            Acceptable(input) <==> fin == 1 && rsv == 0 && opcode != 0 && masked == 0 && Declared(input) <= MAX_FRAME
  {
  }

  lemma {:induction false} BigEndianGrows(a: Octets, b: Octets)
    ensures BigEndian(a + b) >= BigEndian(a)
    decreases |b|
  {
    if b == [] {
      assert a + b == a;
    } else {
      BigEndianGrows(a, b[..|b| - 1]);
      assert (a + b)[..|a + b| - 1] == a + b[..|b| - 1];
    }
  }

  // A number already over MAX_FRAME / 256 is over MAX_FRAME with one more byte
  lemma EarlyTooLong(a: Octets, c: Byte, b: Octets)
    requires BigEndian(a) > MAX_FRAME / 256
    ensures BigEndian(a + [c] + b) > MAX_FRAME
  {
    assert (a + [c])[..|a|] == a;
    BigEndianGrows(a + [c], b);
  }

  // ── What the server sends ──────────────────────────────────────────────────

  // n in so many bytes, the most significant first
  function ToBytes(n: nat, count: nat): (b: Octets)
    ensures |b| == count
    decreases count
  {
    if count == 0 then [] else ToBytes(n / 256, count - 1) + [n % 256]
  }

  lemma {:induction false} BigEndianBack(n: nat, count: nat, limit: nat)
    requires n < limit <= Power256(count)
    ensures BigEndian(ToBytes(n, count)) == n
    decreases count
  {
    if count > 0 {
      BigEndianBack(n / 256, count - 1, Power256(count - 1));
      assert ToBytes(n, count)[..count - 1] == ToBytes(n / 256, count - 1);
    }
  }

  function Power256(n: nat): (p: nat)
    ensures p > 0
  {
    if n == 0 then 1 else 256 * Power256(n - 1)
  }

  // long: the 64-bit length form
  function ServerHeader(op: Byte, n: nat, long: bool): Octets
    requires op < 16
  {
    [0x80 + op] + if long then [127] + ToBytes(n, 8) else if n < 126 then [n] else [126] + ToBytes(n, 2)
  }

  function ServerFrame(op: Byte, payload: Octets, long: bool): Octets
    requires op < 16
  {
    ServerHeader(op, |payload|, long) + payload
  }

  // A server's frame of any form, with an operation and no longer than
  // MAX_FRAME, is acceptable; one that is longer is not
  lemma ServerFrameAcceptable(op: Byte, payload: Octets, long: bool, rest: Octets)
    requires op < 16 && |payload| < if long then Power256(8) else 65536
    ensures var input := ServerFrame(op, payload, long) + rest;
            && Whole(input) && Declared(input) == |payload| && input[0] % 16 == op
            && (Acceptable(input) <==> op != 0 && |payload| <= MAX_FRAME)
            && input[2 + LengthBytes(input[1])..] == payload + rest
  {
    hide BigEndian, ToBytes, Power256;
    var n := |payload|;
    var h := ServerHeader(op, n, long);
    var input := ServerFrame(op, payload, long) + rest;
    assert input == h + (payload + rest);
    assert input[0] == h[0] && input[1] == h[1];
    var k := LengthBytes(input[1]);
    assert |h| == 2 + k;
    if k > 0 {
      assert input[2..2 + k] == h[2..] == ToBytes(n, k);
      Powers();
      BigEndianBack(n, k, Power256(k));
    }
    assert Declared(input) == n;
  }

  lemma Powers()
    ensures Power256(2) == 65536 && Power256(8) >= 65536
  {
    assert Power256(2) == 256 * Power256(1);
    assert Power256(4) == 256 * Power256(3) == 65536 * Power256(2);
    assert Power256(8) == 256 * Power256(7) == 65536 * Power256(6);
    assert Power256(6) == 256 * Power256(5) == 65536 * Power256(4);
  }
}
