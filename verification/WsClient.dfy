/** The WebSocket client (WsClient.h): the socket's bytes out and in. */
module WsClient {
  import opened Bytes
  import opened Text
  import opened WsFrames

  lemma Joined(before: Octets, a: Octets, b: Octets, c: Octets)
    ensures before + a + b + c == before + (a + (b + c))
  {
  }

  lemma Chunk(before: Octets, p: Octets, i: nat, j: nat, mask: Octets, at: nat)
    requires i <= j <= |p| && |mask| == 4
    ensures before + Masked(p[..i], mask, at) + Masked(p[i..j], mask, at + i) == before + Masked(p[..j], mask, at)
  {
    hide Masked, Xor;
    assert p[..i] + p[i..j] == p[..j] && |p[..i]| == i;
    MaskedApart(p[..i], p[i..j], mask, at);
    Joined(before, Masked(p[..i], mask, at), Masked(p[i..j], mask, at + i), []);
    assert Masked(p[i..j], mask, at + i) + [] == Masked(p[i..j], mask, at + i);
  }

  lemma FrameIs(op: Byte, mask: Octets, head: Octets, body: Octets)
    requires op < 16 && |mask| == 4
    ensures ClientFrame(op, mask, head + body) ==
            ClientHeader(op, |head| + |body|) + mask + (Masked(head, mask, 0) + Masked(body, mask, |head|))
  {
    MaskedApart(head, body, mask, 0);
  }

  lemma NothingMasked(mask: Octets, at: nat)
    requires |mask| == 4
    ensures Masked([], mask, at) == []
  {
  }

  class Client {
    var out: Octets
    var input: Octets   // what is still to arrive before a timeout
    var op: Byte
    var left: nat
    var error: bool

    constructor (input: Octets)
      ensures out == [] && this.input == input && left == 0 && !error
    {
      out, this.input, op, left, error := [], input, 0, 0, false;
    }

    // ── Sending ──────────────────────────────────────────────────────────────

    // One frame, masked: head then body, as a single message
    method Send(op: Byte, head: Octets, body: Octets, mask: Octets)
      requires op < 16 && |mask| == 4
      modifies `out
      ensures out == old(out) + ClientFrame(op, mask, head + body)
      ensures OnWire(out[|old(out)|..], op, mask, head + body)
    {
      var n := |head| + |body|;
      var h := [0x80 + op] + if n < 126 then [0x80 + n] else [0x80 + 126, n / 256 % 256, n % 256];
      out := out + (h + mask);
      SendMasked(head, mask, 0);
      SendMasked(body, mask, |head|);
      FrameIs(op, mask, head, body);
      FrameOnWire(op, mask, head + body);
      hide OnWire, Masked;
      Joined(old(out), h + mask, Masked(head, mask, 0), Masked(body, mask, |head|));
    }

    // Through a buffer of 64 bytes; at: the place in the payload
    method SendMasked(p: Octets, mask: Octets, at: nat)
      requires |mask| == 4
      modifies `out
      ensures out == old(out) + Masked(p, mask, at)
    {
      hide Xor;
      var buf := new Byte[64](i => 0);
      var i := 0;
      ghost var before := out;
      NothingMasked(mask, at);
      hide Masked;
      assert p[..0] == [] && before == before + Masked(p[..0], mask, at);
      while i < |p|
        invariant 0 <= i <= |p|
        invariant out == before + Masked(p[..i], mask, at)
      {
        var k := if |p| - i < 64 then |p| - i else 64;
        Fill(buf, p[i..i + k], mask, at + i);
        Chunk(before, p, i, i + k, mask, at);
        out := out + buf[..k];
        i := i + k;
      }
      assert p[..i] == p;
    }

    method Fill(buf: array<Byte>, p: Octets, mask: Octets, at: nat)
      requires |mask| == 4 && |p| <= buf.Length
      modifies buf
      ensures buf[..|p|] == Masked(p, mask, at)
    {
      var i := 0;
      while i < |p|
        invariant 0 <= i <= |p|
        invariant forall j | 0 <= j < i :: buf[j] == Xor(p[j], mask[(at + j) % 4])
      {
        buf[i] := Xor(p[i], mask[(at + i) % 4]);
        i := i + 1;
      }
    }

    // ── Receiving ────────────────────────────────────────────────────────────

    method Getc() returns (c: Option<Byte>)
      modifies `input
      ensures if old(input) == [] then c == None && input == [] else c == Some(old(input)[0]) && input == old(input)[1..]
    {
      if input == [] {
        return None;
      }
      c := Some(input[0]);
      input := input[1..];
    }

    method Fail() returns (ok: bool)
      modifies `error
      ensures error && !ok
    {
      error := true;
      return false;
    }

    // A frame header, if one has started arriving (available: the bytes there).
    // Taken exactly when the header is whole and acceptable, and then the
    // payload comes next
    method Frame(available: nat) returns (ok: bool)
      requires available <= |input|
      modifies `input, `op, `left, `error
      ensures available < 2 ==> !ok && input == old(input) && left == old(left) && error == old(error)
      ensures available >= 2 ==> (ok <==> Acceptable(old(input))) && (!ok ==> error)
      ensures ok ==> var h := 2 + LengthBytes(old(input)[1]);
                op == old(input)[0] % 16 && left == Declared(old(input)) && input == old(input)[h..] && error == old(error)
    {
      if available < 2 {
        return false;
      }
      var b0, b1 := input[0], input[1];
      input := input[2..];
      op := b0 % 16;
      var n: nat := b1 % 128;
      ghost var all := old(input);
      if n >= 126 {
        var whole;
        if Whole(all) {
          assert all[2..][..LengthBytes(b1)] == all[2..2 + LengthBytes(b1)];
        }
        whole, n := ReadLength(if b1 % 128 == 126 then 2 else 8);
        if !whole {
          ok := Fail();
          return;
        }
        assert all[2..][LengthBytes(b1)..] == all[2 + LengthBytes(b1)..];
      }
      left := n;
      if b0 / 16 != 8 || b1 >= 128 || op == 0 || n > MAX_FRAME {
        ok := Fail();
        return;
      }
      return true;
    }

    // The length bytes: refused as soon as they are more than MAX_FRAME for
    // sure, so the sum stays far below 32 bits
    method ReadLength(bytes: nat) returns (whole: bool, n: nat)
      modifies `input
      ensures whole ==> |old(input)| >= bytes && n == BigEndian(old(input)[..bytes]) && input == old(input)[bytes..]
      ensures whole ==> n < 0x1_0000
      ensures !whole ==> |old(input)| < bytes || BigEndian(old(input)[..bytes]) > MAX_FRAME
    {
      n := 0;
      whole := true;
      var i := 0;
      ghost var b := input;
      while i < bytes
        invariant 0 <= i <= bytes && i <= |b| && input == b[i..] && n == BigEndian(b[..i]) && n < 0x1_0000
      {
        var c := Getc();
        if c.None? {
          return false, n;
        }
        if n > MAX_FRAME / 256 {
          if |b| >= bytes {
            EarlyTooLong(b[..i], b[i], b[i + 1..bytes]);
            assert b[..i] + [b[i]] + b[i + 1..bytes] == b[..bytes];
          }
          return false, n;
        }
        assert b[..i + 1][..i] == b[..i];
        n := n * 256 + c.value;
        i := i + 1;
      }
    }

    // A byte of the payload, counted
    method Next() returns (c: Option<Byte>)
      modifies `input, `left, `error
      ensures old(left) == 0 ==> c == None && input == old(input) && left == 0 && error == old(error)
      ensures old(left) > 0 && old(input) != [] ==>
                c == Some(old(input)[0]) && input == old(input)[1..] && left == old(left) - 1 && error == old(error)
      ensures old(left) > 0 && old(input) == [] ==> c == None && input == [] && left == old(left) && error
    {
      if left == 0 {
        return None;
      }
      c := Getc();
      if c.None? {
        error := true;
        return None;
      }
      left := left - 1;
    }

    // What is left of the payload, or of what arrives of it
    function Coming(): Octets
      reads this
    {
      if left <= |input| then input[..left] else input
    }

    // Up to cap - 1 bytes of the payload, the rest skipped: the input stops
    // exactly at the payload's end, or an error says it was cut short
    method Read(buf: array<Byte>, cap: nat) returns (n: nat)
      requires 0 < cap <= buf.Length
      modifies this, buf
      ensures var p := old(Coming());
              && n == (if |p| < cap then |p| else cap - 1)
              && buf[..n] == p[..n] && buf[n] == 0
              && input == old(input)[|p|..]
              && left == old(left) - |p| && error == (old(error) || old(left) > old(|input|))
              && out == old(out) && op == old(op)
    {
      ghost var p := Coming();
      n := 0;
      var c := Next();
      ghost var k := 0;
      while c.Some?
        invariant n < cap && k <= |p|
        invariant c.Some? ==> k < |p| && c.value == p[k] && input == old(input)[k + 1..] && left == old(left) - (k + 1) && error == old(error)
        invariant c.None? ==> k == |p| && input == old(input)[k..] && left == old(left) - k && error == (old(error) || old(left) > old(|input|))
        invariant n == (if k < cap then k else cap - 1) && buf[..n] == p[..n]
        invariant out == old(out) && op == old(op)
        decreases |p| - k, c.Some?
      {
        if n + 1 < cap {
          buf[n] := c.value;
          n := n + 1;
        }
        k := k + 1;
        c := Next();
      }
      buf[n] := 0;
    }

    method Skip()
      modifies `input, `left, `error
      ensures var p := old(Coming());
              input == old(input)[|p|..] && left == old(left) - |p| && error == (old(error) || old(left) > old(|input|))
    {
      ghost var p := Coming();
      var c := Next();
      ghost var k := 0;
      while c.Some?
        invariant k <= |p|
        invariant c.Some? ==> k < |p| && input == old(input)[k + 1..] && left == old(left) - (k + 1) && error == old(error)
        invariant c.None? ==> k == |p| && input == old(input)[k..] && left == old(left) - k && error == (old(error) || old(left) > old(|input|))
        decreases |p| - k, c.Some?
      {
        k := k + 1;
        c := Next();
      }
    }

    // A server's frame read whole: its operation and its payload, and what
    // follows it is next
    method Receive(sent: Byte, payload: Octets, long: bool, rest: Octets, buf: array<Byte>) returns (ok: bool, n: nat)
      requires sent < 16 && |payload| < buf.Length && |payload| < if long then Power256(8) else 65536
      requires input == ServerFrame(sent, payload, long) + rest && !error
      modifies this, buf
      ensures ok <==> sent != 0 && |payload| <= MAX_FRAME
      ensures ok ==> op == sent && n == |payload| && buf[..n] == payload && input == rest && left == 0 && !error
    {
      ServerFrameAcceptable(sent, payload, long, rest);
      n := 0;
      ok := Frame(|input|);
      if ok {
        n := Read(buf, buf.Length);
      }
    }
  }
}
