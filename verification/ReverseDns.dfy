/** The reverse name of an address (ReverseDNS.h): the query, and the name in
    the answer, compressed or not. Sections 3.5 and 4.1.4 of RFC 1035. */
module ReverseDns {
  import opened Bytes
  import opened Text

  type Octets = seq<Byte>

  const MAX_JUMPS := 8
  const PTR := 12

  // ── Names ──────────────────────────────────────────────────────────────────

  predicate IsPointer(c: Byte) {
    c / 64 == 3
  }

  function Target(c: Byte, d: Byte): nat {
    c % 64 * 256 + d
  }

  // The labels of the name at i; none if it leaves the message or takes more
  // than MAX_JUMPS pointers
  function Labels(m: Octets, i: nat, jumps: nat): Option<seq<Octets>>
    requires jumps <= MAX_JUMPS
    decreases MAX_JUMPS - jumps, if i < |m| then |m| - i else 0
  {
    if i >= |m| then None
    else if m[i] == 0 then Some([])
    else if IsPointer(m[i]) then
      if i + 1 >= |m| || jumps == MAX_JUMPS then None
      else Labels(m, Target(m[i], m[i + 1]), jumps + 1)
    else if i + 1 + m[i] > |m| then None
    else
      match Labels(m, i + 1 + m[i], jumps)
      case None => None
      case Some(ls) => Some([m[i + 1..i + 1 + m[i]]] + ls)
  }

  // Separated by dots
  function Joined(ls: seq<Octets>): Octets {
    if ls == [] then []
    else if |ls| == 1 then ls[0]
    else Joined(ls[..|ls| - 1]) + [46] + ls[|ls| - 1]
  }

  // The name and its end fit; a single label needs a byte to spare
  predicate Fits(ls: seq<Octets>, len: nat) {
    |Joined(ls)| + (if |ls| == 1 then 2 else 1) <= len
  }

  // No label is empty
  predicate Named(ls: seq<Octets>) {
    forall l | l in ls :: l != []
  }

  lemma {:induction false} LabelsNamed(m: Octets, i: nat, jumps: nat)
    requires jumps <= MAX_JUMPS && Labels(m, i, jumps).Some?
    ensures Named(Labels(m, i, jumps).value)
    decreases MAX_JUMPS - jumps, if i < |m| then |m| - i else 0
  {
    if m[i] == 0 {
    } else if IsPointer(m[i]) {
      LabelsNamed(m, Target(m[i], m[i + 1]), jumps + 1);
    } else {
      LabelsNamed(m, i + 1 + m[i], jumps);
    }
  }

  lemma {:induction false} JoinedGrows(ls: seq<Octets>, ks: seq<Octets>)
    requires Named(ks)
    ensures |Joined(ls + ks)| >= |Joined(ls)| + 2 * |ks| - (if ls == [] && ks != [] then 1 else 0)
    decreases |ks|
  {
    if ks == [] {
      assert ls + ks == ls;
    } else {
      var n := |ks| - 1;
      assert Named(ks[..n]) by {
        assert forall k | k in ks[..n] :: k in ks;
      }
      JoinedGrows(ls, ks[..n]);
      assert (ls + ks)[..|ls + ks| - 1] == ls + ks[..n];
      assert ks[n] in ks;
    }
  }

  // Names that fit have prefixes that pass the check before each label
  lemma PrefixFits(ls: seq<Octets>, l: Octets, ks: seq<Octets>, len: nat)
    requires Named(ls + [l] + ks)
    ensures Fits(ls + [l] + ks, len) ==> |Joined(ls)| + |l| + 2 <= len
  {
    assert Named(ks) by {
      forall k | k in ks ensures k in ls + [l] + ks {
      }
    }
    JoinedGrows(ls + [l], ks);
    assert (ls + [l])[..|ls|] == ls;
    if ls == [] {
      assert ls + [l] == [l];
      if ks == [] {
        assert ls + [l] + ks == [l];
      }
    }
  }

  // _name: the labels, joined, in out, and never past its end
  method Name(m: Octets, at: nat, out: array<Byte>, len: nat) returns (ok: bool)
    requires 0 < len <= out.Length
    modifies out
    ensures ok <==> Labels(m, at, 0).Some? && Labels(m, at, 0).value != [] && Fits(Labels(m, at, 0).value, len)
    ensures ok ==> var name := Joined(Labels(m, at, 0).value);
              |name| < len && out[..|name|] == name && out[|name|] == 0
    ensures !ok ==> out[0] == 0
    ensures out[len..] == old(out[len..])
  {
    var o: nat, jumps: nat, i: nat := 0, 0, at;
    ghost var read: seq<Octets> := [];
    ghost var all := Labels(m, at, 0);
    hide Joined, Labels, Reading, Named, Target;
    Begins(m, at);
    while i < |m|
      invariant jumps <= MAX_JUMPS && o < len && out[len..] == old(out[len..])
      invariant Written(read, out[..o], len) && Reading(all, read, m, i, jumps)
      decreases MAX_JUMPS - jumps, if i < |m| then |m| - i else 0
    {
      var c := m[i];
      if c == 0 {
        Ends(all, read, m, i, jumps);
        out[o] := 0;
        return o > 0;
      }
      if IsPointer(c) {
        Jumps(all, read, m, i, jumps);
        if i + 1 >= |m| || jumps + 1 > MAX_JUMPS {
          break;
        }
        jumps := jumps + 1;
        i := Target(c, m[i + 1]);
        continue;
      }
      OneMore(all, read, m, i, jumps);
      if i + 1 + c > |m| || o + c + 2 > len {
        if all.Some? {
          TooLong(m, at, read, i, jumps, len);
        }
        break;
      }
      Append(m[i + 1..i + 1 + c], out, o, len, read);
      o := o + (if o > 0 then 1 else 0) + c;
      read := read + [m[i + 1..i + 1 + c]];
      i := i + 1 + c;
    }
    Outside(all, read, m, i, jumps);
    out[0] := 0;
    return false;
  }

  // The labels read so far, and the ones from i on
  ghost predicate Reading(all: Option<seq<Octets>>, read: seq<Octets>, m: Octets, i: nat, jumps: nat)
    requires jumps <= MAX_JUMPS
  {
    all == match Labels(m, i, jumps) case None => None case Some(ls) => Some(read + ls)
  }

  // They are in the output, joined, and a terminator fits after them
  ghost predicate Written(read: seq<Octets>, out: Octets, len: nat) {
    && out == Joined(read) && (out == [] <==> read == [])
    && (read != [] ==> |out| + 1 + (if |read| == 1 then 1 else 0) <= len)
  }

  lemma Begins(m: Octets, at: nat)
    ensures Joined([]) == [] && Reading(Labels(m, at, 0), [], m, at, 0)
  {
    var all := Labels(m, at, 0);
    assert all.Some? ==> [] + all.value == all.value;
  }

  lemma Ends(all: Option<seq<Octets>>, read: seq<Octets>, m: Octets, i: nat, jumps: nat)
    requires jumps <= MAX_JUMPS && i < |m| && m[i] == 0 && Reading(all, read, m, i, jumps)
    ensures all == Some(read)
  {
    assert read + [] == read;
  }

  lemma Jumps(all: Option<seq<Octets>>, read: seq<Octets>, m: Octets, i: nat, jumps: nat)
    requires jumps <= MAX_JUMPS && i < |m| && m[i] != 0 && IsPointer(m[i]) && Reading(all, read, m, i, jumps)
    ensures if i + 1 >= |m| || jumps == MAX_JUMPS then all == None
            else Reading(all, read, m, Target(m[i], m[i + 1]), jumps + 1)
  {
  }

  lemma OneMore(all: Option<seq<Octets>>, read: seq<Octets>, m: Octets, i: nat, jumps: nat)
    requires jumps <= MAX_JUMPS && i < |m| && m[i] != 0 && !IsPointer(m[i]) && Reading(all, read, m, i, jumps)
    ensures if i + 1 + m[i] > |m| then all == None
            else Reading(all, read + [m[i + 1..i + 1 + m[i]]], m, i + 1 + m[i], jumps)
  {
    if i + 1 + m[i] <= |m| {
      var l, rest := m[i + 1..i + 1 + m[i]], Labels(m, i + 1 + m[i], jumps);
      assert rest.Some? ==> read + ([l] + rest.value) == read + [l] + rest.value;
    }
  }

  lemma Outside(all: Option<seq<Octets>>, read: seq<Octets>, m: Octets, i: nat, jumps: nat)
    requires jumps <= MAX_JUMPS && Reading(all, read, m, i, jumps)
    ensures i >= |m| ==> all == None
  {
  }

  // A label refused for room belongs to a name that does not fit
  lemma TooLong(m: Octets, at: nat, read: seq<Octets>, i: nat, jumps: nat, len: nat)
    requires jumps <= MAX_JUMPS && i < |m| && m[i] != 0 && !IsPointer(m[i]) && i + 1 + m[i] <= |m|
    requires Labels(m, at, 0).Some? && Reading(Labels(m, at, 0), read + [m[i + 1..i + 1 + m[i]]], m, i + 1 + m[i], jumps)
    requires |Joined(read)| + m[i] + 2 > len
    ensures !Fits(Labels(m, at, 0).value, len)
  {
    hide Joined, Fits;
    var all, l := Labels(m, at, 0).value, m[i + 1..i + 1 + m[i]];
    var ls := Labels(m, i + 1 + m[i], jumps).value;
    LabelsNamed(m, at, 0);
    PrefixFits(read, l, ls, len);
  }

  // A dot, if something is before it, and the label
  method Append(l: Octets, out: array<Byte>, o: nat, len: nat, ghost read: seq<Octets>)
    requires l != [] && o + |l| + 2 <= len <= out.Length && Written(read, out[..o], len)
    modifies out
    ensures out[len..] == old(out[len..])
    ensures Written(read + [l], out[..o + (if o > 0 then 1 else 0) + |l|], len)
  {
    hide Joined;
    JoinedAdds(read, l);
    ghost var was := out[..o];
    var p := o;
    if o > 0 {
      out[o] := 46;
      p := o + 1;
    }
    ghost var before := out[..p];
    assert before == if o > 0 then was + [46] else was;
    forall k | 0 <= k < |l| {
      out[p + k] := l[k];
    }
    assert out[..p + |l|] == before + l;
  }

  lemma JoinedAdds(read: seq<Octets>, l: Octets)
    ensures Joined(read + [l]) == if read == [] then l else Joined(read) + [46] + l
  {
    assert (read + [l])[..|read|] == read;
  }

  // ── Names as they are written ──────────────────────────────────────────────

  predicate IsLabel(l: Octets) {
    0 < |l| < 64
  }

  predicate AllLabels(ls: seq<Octets>) {
    forall l | l in ls :: IsLabel(l)
  }

  function LabelBytes(ls: seq<Octets>): Octets
    requires AllLabels(ls)
  {
    if ls == [] then []
    else
      assert IsLabel(ls[0]);
      var n: Byte := |ls[0]|;
      [n] + ls[0] + LabelBytes(ls[1..])
  }

  function PointerBytes(p: nat): Octets
    requires p < 0x4000
  {
    [192 + p / 256, p % 256]
  }

  predicate Holds(m: Octets, i: nat, b: Octets) {
    i + |b| <= |m| && m[i..i + |b|] == b
  }

  lemma HoldsApart(m: Octets, i: nat, a: Octets, b: Octets)
    requires Holds(m, i, a + b)
    ensures Holds(m, i, a) && Holds(m, i + |a|, b)
  {
    assert m[i..i + |a|] == m[i..i + |a + b|][..|a|];
    assert m[i + |a|..i + |a| + |b|] == m[i..i + |a + b|][|a|..];
  }

  // Past the labels written at i
  lemma {:induction false} LabelsAlong(m: Octets, i: nat, ls: seq<Octets>, jumps: nat)
    requires jumps <= MAX_JUMPS && AllLabels(ls) && Holds(m, i, LabelBytes(ls))
    ensures Labels(m, i, jumps) ==
            match Labels(m, i + |LabelBytes(ls)|, jumps) case None => None case Some(ks) => Some(ls + ks)
    ensures SkipName(m, i) == SkipName(m, i + |LabelBytes(ls)|)
    decreases |ls|
  {
    hide Labels, SkipName;
    if ls == [] {
      var rest := Labels(m, i, jumps);
      assert rest.Some? ==> [] + rest.value == rest.value;
    } else {
      var l := ls[0];
      assert IsLabel(l);
      var n: Byte := |l|;
      HoldsApart(m, i, [n] + l, LabelBytes(ls[1..]));
      OneLabel(m, i, l, jumps);
      LabelsAlong(m, i + 1 + |l|, ls[1..], jumps);
      var rest := Labels(m, i + |LabelBytes(ls)|, jumps);
      assert rest.Some? ==> [l] + (ls[1..] + rest.value) == ls + rest.value;
    }
  }

  lemma OneLabel(m: Octets, i: nat, l: Octets, jumps: nat)
    requires jumps <= MAX_JUMPS && IsLabel(l) && Holds(m, i, [|l| as Byte] + l)
    ensures Labels(m, i, jumps) == match Labels(m, i + 1 + |l|, jumps) case None => None case Some(ks) => Some([l] + ks)
    ensures SkipName(m, i) == SkipName(m, i + 1 + |l|)
  {
    assert m[i] == m[i..i + 1 + |l|][0] == |l|;
    assert m[i + 1..i + 1 + |l|] == m[i..i + 1 + |l|][1..] == l;
  }

  // A name in full
  lemma PlainName(m: Octets, i: nat, ls: seq<Octets>, jumps: nat)
    requires jumps <= MAX_JUMPS && AllLabels(ls) && Holds(m, i, LabelBytes(ls) + [0])
    ensures Labels(m, i, jumps) == Some(ls) && SkipName(m, i) == i + |LabelBytes(ls)| + 1
  {
    hide LabelBytes, AllLabels;
    HoldsApart(m, i, LabelBytes(ls), [0]);
    LabelsAlong(m, i, ls, jumps);
    assert m[i + |LabelBytes(ls)|] == 0;
    assert ls + [] == ls;
  }

  // A compressed name: labels, then a pointer to where the rest of it is, at
  // most MAX_JUMPS pointers in all
  lemma CompressedName(m: Octets, i: nat, ls: seq<Octets>, p: nat, jumps: nat)
    requires jumps < MAX_JUMPS && AllLabels(ls) && p < 0x4000 && Holds(m, i, LabelBytes(ls) + PointerBytes(p))
    ensures Labels(m, i, jumps) == match Labels(m, p, jumps + 1) case None => None case Some(ks) => Some(ls + ks)
    ensures SkipName(m, i) == i + |LabelBytes(ls)| + 2
  {
    HoldsApart(m, i, LabelBytes(ls), PointerBytes(p));
    LabelsAlong(m, i, ls, jumps);
    var j := i + |LabelBytes(ls)|;
    assert m[j] == m[j..j + 2][0] && m[j + 1] == m[j..j + 2][1];
    assert Target(m[j], m[j + 1]) == p;
  }

  // ── The answer ─────────────────────────────────────────────────────────────

  // The position after a name; outside the message, its length and one more
  function SkipName(m: Octets, i: nat): nat
    decreases if i < |m| then |m| - i else 0
  {
    if i >= |m| then |m| + 1
    else if m[i] == 0 then i + 1
    else if IsPointer(m[i]) then i + 2
    else SkipName(m, i + 1 + m[i])
  }

  method Skip(m: Octets, at: nat) returns (j: nat)
    ensures j == SkipName(m, at)
  {
    var i: nat := at;
    while i < |m|
      invariant SkipName(m, i) == SkipName(m, at)
      decreases if i < |m| then |m| - i else 0
    {
      var c := m[i];
      if c == 0 {
        return i + 1;
      }
      if IsPointer(c) {
        return i + 2;
      }
      i := i + 1 + c;
    }
    return |m| + 1;
  }

  function U16(m: Octets, i: nat): nat
    requires i + 2 <= |m|
  {
    (m[i] as int) * 256 + m[i + 1] as int
  }

  // The position after the questions
  function Questions(m: Octets, i: nat, count: nat): nat
    decreases count
  {
    if count == 0 then i else Questions(m, SkipName(m, i) + 4, count - 1)
  }

  // The data of the first PTR among the records
  function FirstPtr(m: Octets, i: nat, count: nat): Option<nat>
    decreases count
  {
    if count == 0 then None
    else
      var j := SkipName(m, i);
      if j + 10 > |m| then None
      else
        var rd := U16(m, j + 8);
        if j + 10 + rd > |m| then None
        else if U16(m, j) == PTR then Some(j + 10)
        else FirstPtr(m, j + 10 + rd, count - 1)
  }

  // The name's place, if the message answers the query without an error
  function Answer(m: Octets, id: nat): Option<nat> {
    if |m| < 12 || U16(m, 0) != id || m[2] < 128 || m[3] % 16 != 0 then None
    else FirstPtr(m, Questions(m, 12, U16(m, 4)), U16(m, 6))
  }

  // The name of the first PTR, in out; untouched if the message is not the answer
  method Parse(m: Octets, id: nat, out: array<Byte>, len: nat) returns (ok: bool)
    requires 0 < len <= out.Length
    modifies out
    ensures var a := Answer(m, id);
            && (ok <==> a.Some? && Labels(m, a.value, 0).Some? && Labels(m, a.value, 0).value != [] &&
                        Fits(Labels(m, a.value, 0).value, len))
            && (ok ==> var name := Joined(Labels(m, a.value, 0).value);
                       |name| < len && out[..|name|] == name && out[|name|] == 0)
            && (a.None? ==> out[..] == old(out[..]))
            && out[len..] == old(out[len..])
  {
    if |m| < 12 || U16(m, 0) != id || m[2] < 128 || m[3] % 16 != 0 {
      return false;
    }
    var i := SkipQuestions(m, U16(m, 4));
    ok := ParseRecords(m, i, U16(m, 6), out, len);
  }

  method SkipQuestions(m: Octets, count: nat) returns (i: nat)
    ensures i == Questions(m, 12, count)
  {
    i := 12;
    var q := count;
    while q > 0
      invariant q >= 0 && Questions(m, i, q) == Questions(m, 12, count)
    {
      var j := Skip(m, i);
      i := j + 4;
      q := q - 1;
    }
  }

  method ParseRecords(m: Octets, from: nat, count: nat, out: array<Byte>, len: nat) returns (ok: bool)
    requires 0 < len <= out.Length
    modifies out
    ensures var a := FirstPtr(m, from, count);
            && (ok <==> a.Some? && Labels(m, a.value, 0).Some? && Labels(m, a.value, 0).value != [] &&
                        Fits(Labels(m, a.value, 0).value, len))
            && (ok ==> var name := Joined(Labels(m, a.value, 0).value);
                       |name| < len && out[..|name|] == name && out[|name|] == 0)
            && (a.None? ==> out[..] == old(out[..]))
            && out[len..] == old(out[len..])
  {
    hide Labels, SkipName;
    var i, a := from, count;
    while a > 0
      invariant a >= 0 && i >= 0 && FirstPtr(m, i, a) == FirstPtr(m, from, count) && out[..] == old(out[..])
    {
      i := Skip(m, i);
      if i + 10 > |m| {
        return false;
      }
      var kind, rd := U16(m, i), U16(m, i + 8);
      i := i + 10;
      if i + rd > |m| {
        return false;
      }
      if kind == PTR {
        ok := Name(m, i, out, len);
        return;
      }
      i := i + rd;
      a := a - 1;
    }
    return false;
  }

  // ── The query ──────────────────────────────────────────────────────────────

  function Ascii(s: string): (o: Octets)
    requires forall i | 0 <= i < |s| :: s[i] < 128 as char
    ensures |o| == |s| && forall i | 0 <= i < |s| :: o[i] == s[i] as int
  {
    seq(|s|, i requires 0 <= i < |s| => s[i] as int)
  }

  // An octet in decimal: one to three digits
  function Digits(n: Byte): (o: Octets)
    ensures 1 <= |o| <= 3
  {
    assert n >= 10 ==> Decimal(n) == Decimal(n / 10) + [DigitChar(n % 10)];
    assert n >= 100 ==> Decimal(n / 10) == Decimal(n / 100) + [DigitChar(n / 10 % 10)];
    Ascii(Decimal(n))
  }

  // d.c.b.a.in-addr.arpa
  function ReverseLabels(a: Octets): (ls: seq<Octets>)
    requires |a| == 4
    ensures AllLabels(ls)
  {
    [Digits(a[3]), Digits(a[2]), Digits(a[1]), Digits(a[0]), Ascii("in-addr"), Ascii("arpa")]
  }

  const HEAD: Octets := [1, 0, 0, 1, 0, 0, 0, 0, 0, 0]

  function QueryBytes(a: Octets, id: nat): Octets
    requires |a| == 4 && id < 65536
  {
    [id / 256, id % 256] + HEAD + LabelBytes(ReverseLabels(a)) + [0, 0, PTR, 0, 1]
  }

  lemma {:induction false} LabelBytesAdds(ls: seq<Octets>, l: Octets)
    requires AllLabels(ls) && IsLabel(l)
    ensures AllLabels(ls + [l]) && LabelBytes(ls + [l]) == LabelBytes(ls) + [|l| as Byte] + l
    decreases |ls|
  {
    if ls == [] {
      assert ls + [l] == [l] && [l][1..] == [];
    } else {
      assert (ls + [l])[1..] == ls[1..] + [l];
      LabelBytesAdds(ls[1..], l);
      assert IsLabel(ls[0]);
      var n: Byte := |ls[0]|;
      assert [n] + ls[0] + (LabelBytes(ls[1..]) + [|l| as Byte] + l) == LabelBytes(ls) + [|l| as Byte] + l;
    }
  }

  // The query for an address, in buf; its length, or 0 without an address or
  // without room for the longest
  method Query(ip: Option<Octets>, id: nat, buf: array<Byte>, cap: nat) returns (n: nat)
    requires id < 65536 && cap <= buf.Length && (ip.Some? ==> |ip.value| == 4)
    modifies buf
    ensures n == 0 <==> ip.None? || cap < 46
    ensures n > 0 ==> n <= 46 && buf[..n] == QueryBytes(ip.value, id)
  {
    if cap < 46 || ip.None? {
      return 0;
    }
    var a := ip.value;
    buf[0], buf[1] := id / 256, id % 256;
    Copy(HEAD, buf, 2);
    ghost var head: Octets := [id / 256, id % 256] + HEAD;
    assert buf[..12] == head + LabelBytes([]);
    var i: nat := 12;
    var k := 3;
    ghost var ls := ReverseLabels(a);
    while k >= 0
      invariant -1 <= k <= 3 && 12 <= i <= 12 + 4 * (3 - k)
      invariant AllLabels(ls[..3 - k]) && buf[..i] == head + LabelBytes(ls[..3 - k])
    {
      var d := Digits(a[k]);
      assert ls[..3 - k] + [d] == ls[..3 - k + 1];
      PutLabel(d, buf, i, head, ls[..3 - k]);
      i := i + 1 + |d|;
      k := k - 1;
    }
    ghost var before := buf[..i];
    Copy(TAIL, buf, i);
    n := i + |TAIL|;
    assert buf[..n] == before + TAIL;
    Tailed(a, id);
  }

  // A label and its length
  method PutLabel(d: Octets, buf: array<Byte>, i: nat, ghost head: Octets, ghost put: seq<Octets>)
    requires IsLabel(d) && i + 1 + |d| <= buf.Length && AllLabels(put) && buf[..i] == head + LabelBytes(put)
    modifies buf
    ensures AllLabels(put + [d]) && buf[..i + 1 + |d|] == head + LabelBytes(put + [d])
  {
    ghost var before := buf[..i];
    buf[i] := |d|;
    Copy(d, buf, i + 1);
    assert buf[..i + 1 + |d|] == before + ([|d| as Byte] + d);
    LabelBytesAdds(put, d);
    assert before + ([|d| as Byte] + d) == head + (LabelBytes(put) + [|d| as Byte] + d);
  }

  const TAIL: Octets := [7, 105, 110, 45, 97, 100, 100, 114, 4, 97, 114, 112, 97, 0, 0, 12, 0, 1]

  lemma Tailed(a: Octets, id: nat)
    requires |a| == 4 && id < 65536
    ensures QueryBytes(a, id) == [id / 256, id % 256] + HEAD + LabelBytes(ReverseLabels(a)[..4]) + TAIL
  {
    hide LabelBytes;
    var ls := ReverseLabels(a);
    LabelBytesAdds(ls[..4], ls[4]);
    LabelBytesAdds(ls[..5], ls[5]);
    assert ls[..4] + [ls[4]] == ls[..5] && ls[..5] + [ls[5]] == ls;
    assert TAIL == [|ls[4]| as Byte] + ls[4] + [|ls[5]| as Byte] + ls[5] + [0, 0, PTR, 0, 1];
  }

  // memcpy
  method Copy(b: Octets, buf: array<Byte>, at: nat)
    requires at + |b| <= buf.Length
    modifies buf
    ensures buf[..at] == old(buf[..at]) && buf[at..at + |b|] == b && buf[at + |b|..] == old(buf[at + |b|..])
  {
    forall k | 0 <= k < |b| {
      buf[at + k] := b[k];
    }
  }

  // ── The query and the answer ───────────────────────────────────────────────

  // What a server sends back: the question, and a PTR for it with the name
  function Reply(a: Octets, id: nat, name: seq<Octets>): Octets
    requires |a| == 4 && id < 65536 && AllLabels(name) && |LabelBytes(name)| < 255
  {
    [id / 256, id % 256, 0x81, 0x80, 0, 1, 0, 1, 0, 0, 0, 0] + (LabelBytes(ReverseLabels(a)) + [0]) + [0, PTR, 0, 1] +
    PointerBytes(12) + [0, PTR, 0, 1, 0, 0, 14, 16, 0, |LabelBytes(name)| + 1] + (LabelBytes(name) + [0])
  }

  // The name in the answer to a query is the one the server wrote
  lemma AnswerRead(a: Octets, id: nat, name: seq<Octets>)
    requires |a| == 4 && id < 65536 && AllLabels(name) && |LabelBytes(name)| < 255
    ensures var m := Reply(a, id, name);
            Answer(m, id).Some? && Labels(m, Answer(m, id).value, 0) == Some(name)
  {
    hide Labels, SkipName, LabelBytes, AllLabels, Digits;
    var m := Reply(a, id, name);
    var q, d := LabelBytes(ReverseLabels(a)) + [0], LabelBytes(name) + [0];
    var j := 12 + |q|;
    ReplyHolds(a, id, name);
    PlainName(m, 12, ReverseLabels(a), 0);
    NoLabels(m, j + 4);
    CompressedName(m, j + 4, [], 12, 0);
    PlainName(m, j + 16, name, 0);
    OneQuestion(m);
    assert FirstPtr(m, j + 4, 1) == Some(j + 16);
  }

  // What stands where in the reply
  lemma ReplyHolds(a: Octets, id: nat, name: seq<Octets>)
    requires |a| == 4 && id < 65536 && AllLabels(name) && |LabelBytes(name)| < 255
    ensures var m, q, d := Reply(a, id, name), LabelBytes(ReverseLabels(a)) + [0], LabelBytes(name) + [0];
            var j := 12 + |q|;
            && |m| == j + 16 + |d| && Holds(m, 12, q) && m[j + 4..j + 6] == PointerBytes(12) && Holds(m, j + 16, d)
            && U16(m, 0) == id && m[2] >= 128 && m[3] % 16 == 0 && U16(m, 4) == 1 && U16(m, 6) == 1
            && U16(m, j + 6) == PTR && U16(m, j + 14) == |d|
  {
    hide LabelBytes, AllLabels, Digits;
    var m, q, d := Reply(a, id, name), LabelBytes(ReverseLabels(a)) + [0], LabelBytes(name) + [0];
    var h: Octets := [id / 256, id % 256, 0x81, 0x80, 0, 1, 0, 1, 0, 0, 0, 0];
    var r: Octets := [0, PTR, 0, 1, 0, 0, 14, 16, 0, |LabelBytes(name)| + 1];
    var j := 12 + |q|;
    assert m[..12] == h && m[12..j] == q && m[j + 4..j + 6] == PointerBytes(12);
    assert m[j + 6..j + 16] == r && m[j + 16..] == d;
    assert m[0] == h[0] && m[1] == h[1] && m[2] == h[2] && m[3] == h[3];
    assert m[4] == h[4] && m[5] == h[5] && m[6] == h[6] && m[7] == h[7];
    assert m[j + 6] == r[0] && m[j + 7] == r[1] && m[j + 14] == r[8] && m[j + 15] == r[9];
  }

  lemma NoLabels(m: Octets, i: nat)
    requires i + 2 <= |m| && m[i..i + 2] == PointerBytes(12)
    ensures AllLabels([]) && LabelBytes([]) == [] && Holds(m, i, LabelBytes([]) + PointerBytes(12))
  {
    assert LabelBytes([]) + PointerBytes(12) == PointerBytes(12);
  }

  lemma OneQuestion(m: Octets)
    ensures Questions(m, 12, 1) == SkipName(m, 12) + 4
  {
    assert Questions(m, SkipName(m, 12) + 4, 0) == SkipName(m, 12) + 4;
  }

  // The name the query asks for reads back: the octets in reverse, then
  // in-addr.arpa
  lemma QueryName(a: Octets, id: nat)
    requires |a| == 4 && id < 65536
    ensures Labels(QueryBytes(a, id), 12, 0) == Some(ReverseLabels(a))
  {
    hide Labels, SkipName, LabelBytes;
    var m := QueryBytes(a, id);
    var q := LabelBytes(ReverseLabels(a)) + [0];
    assert m[12..12 + |q|] == q;
    PlainName(m, 12, ReverseLabels(a), 0);
  }
}
