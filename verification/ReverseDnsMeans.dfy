/** What the reverse lookup asks and which answer it takes, in DNS's own terms
    (ReverseDNS.h; sections 3.5 and 4.1 of RFC 1035). */
module ReverseDnsMeans {
  import opened Bytes
  import opened Text
  import opened ReverseDns

  // ── Names ──────────────────────────────────────────────────────────────────

  // Apart at the dots
  function Split(o: Octets): (ls: seq<Octets>)
    ensures ls != []
  {
    if o == [] then [[]]
    else
      var n := |o| - 1;
      var ls := Split(o[..n]);
      if o[n] == 46 then ls + [[]] else ls[..|ls| - 1] + [ls[|ls| - 1] + [o[n]]]
  }

  lemma {:induction false} SplitAdds(o: Octets, l: Octets)
    requires 46 !in l
    ensures var ls := Split(o); Split(o + l) == ls[..|ls| - 1] + [ls[|ls| - 1] + l]
    decreases |l|
  {
    if l == [] {
      assert o + l == o;
      var ls := Split(o);
      assert ls[|ls| - 1] + l == ls[|ls| - 1];
    } else {
      var n := |l| - 1;
      assert (o + l)[..|o + l| - 1] == o + l[..n];
      SplitAdds(o, l[..n]);
      var ls := Split(o);
      assert ls[|ls| - 1] + l[..n] + [l[n]] == ls[|ls| - 1] + l;
    }
  }

  // The labels of a name are what its dots leave apart
  lemma {:induction false} JoinedSplits(ls: seq<Octets>)
    requires ls != [] && forall l | l in ls :: 46 !in l
    ensures Split(Joined(ls)) == ls
  {
    hide Split;
    if |ls| == 1 {
      Whole(ls[0]);
      assert [ls[0]] == ls;
    } else {
      var n := |ls| - 1;
      JoinedSplits(ls[..n]);
      assert Joined(ls) == Joined(ls[..n]) + [46] + ls[n];
      DotSplits(Joined(ls[..n]), ls[n]);
      assert ls[..n] + [ls[n]] == ls;
    }
  }

  lemma Whole(l: Octets)
    requires 46 !in l
    ensures Split(l) == [l]
  {
    SplitAdds([], l);
    assert [] + l == l;
  }

  lemma DotSplits(o: Octets, l: Octets)
    requires 46 !in l
    ensures Split(o + [46] + l) == Split(o) + [l]
  {
    var p := o + [46];
    assert p[..|o|] == o;
    assert Split(p) == Split(o) + [[]];
    SplitAdds(p, l);
    assert [] + l == l;
    assert (Split(o) + [[]])[..|Split(o)|] == Split(o);
  }

  // A name fits exactly when each label, as it is read, leaves a dot's and the
  // end's room
  lemma {:induction false} RoomExactly(ls: seq<Octets>, len: nat)
    requires Named(ls) && ls != []
    ensures Fits(ls, len) <==> forall k | 0 <= k < |ls| :: |Joined(ls[..k])| + |ls[k]| + 2 <= len
  {
    var n := |ls| - 1;
    assert ls[..0] == [] && ls == ls[..n] + [ls[n]];
    if Fits(ls, len) {
      forall k | 0 <= k < |ls| ensures |Joined(ls[..k])| + |ls[k]| + 2 <= len {
        assert ls == ls[..k] + [ls[k]] + ls[k + 1..];
        PrefixFits(ls[..k], ls[k], ls[k + 1..], len);
      }
    } else {
      assert |Joined(ls[..n])| + |ls[n]| + 2 > len;
    }
  }

  // ── The query ──────────────────────────────────────────────────────────────

  lemma AsciiAdds(s: string, t: string)
    requires forall i | 0 <= i < |s| :: s[i] < 128 as char
    requires forall i | 0 <= i < |t| :: t[i] < 128 as char
    ensures (forall i | 0 <= i < |s + t| :: (s + t)[i] < 128 as char) && Ascii(s + t) == Ascii(s) + Ascii(t)
  {
  }

  lemma JoinedAdds(ls: seq<Octets>, l: Octets)
    requires ls != []
    ensures Joined(ls + [l]) == Joined(ls) + [46] + l
  {
    assert (ls + [l])[..|ls|] == ls;
  }

  // The octets in reverse, in decimal, and the domain of addresses
  function ReverseText(a: Octets): (s: string)
    requires |a| == 4
    ensures forall i | 0 <= i < |s| :: s[i] < 128 as char
  {
    var s := Decimal(a[3]) + "." + Decimal(a[2]) + "." + Decimal(a[1]) + "." + Decimal(a[0]) + ".in-addr.arpa";
    assert forall i | 0 <= i < |".in-addr.arpa"| :: ".in-addr.arpa"[i] < 128 as char;
    s
  }

  lemma SixJoined(a: Octets, b: Octets, c: Octets, d: Octets, e: Octets, f: Octets)
    ensures Joined([a, b, c, d, e, f]) == a + [46] + b + [46] + c + [46] + d + [46] + e + [46] + f
  {
    hide Joined;
    JoinedAdds([a], b);
    JoinedAdds([a, b], c);
    JoinedAdds([a, b, c], d);
    JoinedAdds([a, b, c, d], e);
    JoinedAdds([a, b, c, d, e], f);
    OneJoined(a);
    assert [a] + [b] == [a, b] && [a, b] + [c] == [a, b, c] && [a, b, c] + [d] == [a, b, c, d];
    assert [a, b, c, d] + [e] == [a, b, c, d, e] && [a, b, c, d, e] + [f] == [a, b, c, d, e, f];
  }

  lemma OneJoined(a: Octets)
    ensures Joined([a]) == a
  {
  }

  // A text of ASCII
  predicate Plain(s: string) {
    forall i | 0 <= i < |s| :: s[i] < 128 as char
  }

  lemma DotAdds(s: string, t: string)
    requires Plain(s) && Plain(t)
    ensures Plain(s + "." + t) && Ascii(s + "." + t) == Ascii(s) + [46] + Ascii(t)
  {
    AsciiAdds(s, ".");
    AsciiAdds(s + ".", t);
    assert Ascii(".") == [46];
  }

  lemma NameAsked(a: Octets)
    requires |a| == 4
    ensures Joined(ReverseLabels(a)) == Ascii(ReverseText(a))
  {
    hide Decimal, Joined, Ascii;
    var s3, s2, s1, s0 := Decimal(a[3]), Decimal(a[2]), Decimal(a[1]), Decimal(a[0]);
    SixJoined(Ascii(s3), Ascii(s2), Ascii(s1), Ascii(s0), Ascii("in-addr"), Ascii("arpa"));
    DotAdds(s3, s2);
    DotAdds(s3 + "." + s2, s1);
    DotAdds(s3 + "." + s2 + "." + s1, s0);
    var t := s3 + "." + s2 + "." + s1 + "." + s0;
    DotAdds(t, "in-addr");
    DotAdds(t + "." + "in-addr", "arpa");
    assert t + "." + "in-addr" + "." + "arpa" == t + ".in-addr.arpa";
  }

  // One question, recursion wanted: the PTR records, of the Internet
  lemma QueryAsks(a: Octets, id: nat)
    requires |a| == 4 && id < 65536
    ensures var m := QueryBytes(a, id);
            && U16(m, 0) == id && U16(m, 2) == 0x0100
            && U16(m, 4) == 1 && U16(m, 6) == 0 && U16(m, 8) == 0 && U16(m, 10) == 0
            && U16(m, |m| - 4) == 12 && U16(m, |m| - 2) == 1
  {
    hide LabelBytes, ReverseLabels;
    var m, q := QueryBytes(a, id), LabelBytes(ReverseLabels(a));
    var head: Octets := [id / 256, id % 256] + HEAD;
    assert m == head + q + [0, 0, PTR, 0, 1];
    assert m[..12] == head;
    assert m[0] == head[0] && m[1] == head[1] && m[2] == head[2] && m[3] == head[3];
    assert m[4] == head[4] && m[5] == head[5] && m[6] == head[6] && m[7] == head[7];
    assert m[8] == head[8] && m[9] == head[9] && m[10] == head[10] && m[11] == head[11];
  }

  // ── The answer ─────────────────────────────────────────────────────────────

  // A record: whose, of what type, its class and time to live, and its data
  datatype Record = Record(owner: Octets, kind: nat, rest: Octets, data: Octets)

  // Whose: a name in full, or labels and a pointer
  ghost predicate IsOwner(o: Octets) {
    || (exists ls :: AllLabels(ls) && o == LabelBytes(ls) + [0])
    || (exists ls, p :: AllLabels(ls) && p < 0x4000 && o == LabelBytes(ls) + PointerBytes(p))
  }

  ghost predicate RecordOk(r: Record) {
    IsOwner(r.owner) && r.kind < 65536 && |r.rest| == 6 && |r.data| < 65536
  }

  ghost predicate AllOk(rs: seq<Record>) {
    forall r | r in rs :: RecordOk(r)
  }

  function RecordBytes(r: Record): Octets
    requires r.kind < 65536 && |r.data| < 65536
  {
    r.owner + ([r.kind / 256, r.kind % 256] + r.rest + [|r.data| / 256, |r.data| % 256] + r.data)
  }

  ghost function RecordsBytes(rs: seq<Record>): Octets
    requires AllOk(rs)
  {
    if rs == [] then []
    else
      assert RecordOk(rs[0]);
      RecordBytes(rs[0]) + RecordsBytes(rs[1..])
  }

  // Where the data of the first PTR is, the records standing from i on
  ghost function PtrAt(rs: seq<Record>, i: nat): Option<nat>
    requires AllOk(rs)
  {
    if rs == [] then None
    else
      assert RecordOk(rs[0]);
      if rs[0].kind == 12 then Some(i + |rs[0].owner| + 10)
      else PtrAt(rs[1..], i + |RecordBytes(rs[0])|)
  }

  lemma OwnerSkipped(m: Octets, i: nat, o: Octets)
    requires IsOwner(o) && Holds(m, i, o)
    ensures SkipName(m, i) == i + |o|
  {
    hide LabelBytes, AllLabels, SkipName, Labels;
    if ls :| AllLabels(ls) && o == LabelBytes(ls) + [0] {
      PlainName(m, i, ls, 0);
    } else {
      var ls, p :| AllLabels(ls) && p < 0x4000 && o == LabelBytes(ls) + PointerBytes(p);
      CompressedName(m, i, ls, p, 0);
    }
  }

  // What stands where in a record
  lemma RecordStands(m: Octets, i: nat, r: Record)
    requires RecordOk(r) && Holds(m, i, RecordBytes(r))
    ensures var j := i + |r.owner|;
            && Holds(m, i, r.owner) && j + 10 + |r.data| == i + |RecordBytes(r)| <= |m|
            && U16(m, j) == r.kind && U16(m, j + 8) == |r.data| && m[j + 10..j + 10 + |r.data|] == r.data
  {
    var b: Octets := [r.kind / 256, r.kind % 256] + r.rest + [|r.data| / 256, |r.data| % 256] + r.data;
    HoldsApart(m, i, r.owner, b);
    var j := i + |r.owner|;
    assert m[j] == m[j..j + |b|][0] && m[j + 1] == m[j..j + |b|][1];
    assert m[j + 8] == m[j..j + |b|][8] && m[j + 9] == m[j..j + |b|][9];
    assert m[j + 10..j + 10 + |r.data|] == m[j..j + |b|][10..];
  }

  // Of any records the first PTR is taken, whatever stands before it
  lemma {:induction false} FirstPtrExactly(m: Octets, i: nat, rs: seq<Record>)
    requires AllOk(rs) && Holds(m, i, RecordsBytes(rs))
    ensures FirstPtr(m, i, |rs|) == PtrAt(rs, i)
    decreases |rs|
  {
    if rs != [] {
      hide SkipName, AllOk, RecordBytes, RecordsBytes, FirstPtr, PtrAt, Holds;
      OneStep(m, i, rs);
      if rs[0].kind != 12 {
        FirstPtrExactly(m, i + RecordLength(rs[0]), rs[1..]);
      }
    }
  }

  function RecordLength(r: Record): nat {
    |r.owner| + 4 + |r.rest| + |r.data|
  }

  lemma OneStep(m: Octets, i: nat, rs: seq<Record>)
    requires AllOk(rs) && rs != [] && Holds(m, i, RecordsBytes(rs))
    ensures AllOk(rs[1..])
    ensures var r, next := rs[0], i + RecordLength(rs[0]);
            && FirstPtr(m, i, |rs|) == (if r.kind == 12 then Some(i + |r.owner| + 10) else FirstPtr(m, next, |rs| - 1))
            && PtrAt(rs, i) == (if r.kind == 12 then Some(i + |r.owner| + 10) else PtrAt(rs[1..], next))
            && Holds(m, next, RecordsBytes(rs[1..]))
  {
    hide SkipName, IsOwner;
    OneRecord(m, i, rs);
    assert RecordOk(rs[0]);
  }

  lemma OneRecord(m: Octets, i: nat, rs: seq<Record>)
    requires AllOk(rs) && rs != [] && Holds(m, i, RecordsBytes(rs))
    ensures RecordOk(rs[0])
    ensures var r := rs[0];
            var j := SkipName(m, i);
            && j == i + |r.owner| && j + 10 + |r.data| == i + |RecordBytes(r)| <= |m|
            && U16(m, j) == r.kind && U16(m, j + 8) == |r.data|
            && AllOk(rs[1..]) && Holds(m, i + |RecordBytes(r)|, RecordsBytes(rs[1..]))
  {
    hide SkipName, IsOwner, RecordBytes;
    var r := rs[0];
    assert RecordOk(r);
    HoldsApart(m, i, RecordBytes(r), RecordsBytes(rs[1..]));
    RecordStands(m, i, r);
    OwnerSkipped(m, i, r.owner);
  }

  // An answer is one to this query, without an error
  lemma AnswersOnly(m: Octets, id: nat)
    ensures Answer(m, id).Some? ==> |m| >= 12 && U16(m, 0) == id && m[2] / 128 == 1 && m[3] % 16 == 0
  {
  }
}
