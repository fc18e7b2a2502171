/** The remote access Worker, byte-pair encoded when the firmware is built
    (tools/embed_relay.py) and expanded by the device as it uploads it
    (CloudflareSetup.h). A byte the text never holds is a code for a pair of
    bytes, which may be codes of a lower rank themselves. */
module RelayCodec {
  import opened Bytes

  const CODE_COUNT := 160
  const MAX_DEPTH := 20
  const NEWLINE: Byte := 10

  type Pairs = seq<(Byte, Byte)>

  // ── The codes ──────────────────────────────────────────────────────────────

  // CODES[k]: 0x7F to 0xFF, then the control bytes but the newline
  function Code(k: nat): Byte
    requires k < CODE_COUNT
  {
    if k < 129 then 0x7F + k else if k - 129 < NEWLINE then k - 129 else k - 128
  }

  // The device's rank of a byte, or -1 for plain text
  function Rank(b: Byte): (r: int)
    ensures -1 <= r < CODE_COUNT
  {
    if b >= 0x7F then b - 0x7F
    else if b < 0x20 && b != NEWLINE then 129 + b - (if b > NEWLINE then 1 else 0)
    else -1
  }

  // The device's arithmetic finds a code's place in the list
  lemma RankIsIndex(b: Byte, k: nat)
    requires k < CODE_COUNT
    ensures Rank(b) == k <==> b == Code(k)
  {
  }

  // ── What a byte stands for ─────────────────────────────────────────────────

  // A pair only refers to plain text or to codes before it
  ghost predicate Ranked(pairs: Pairs) {
    && |pairs| <= CODE_COUNT
    && forall k :: 0 <= k < |pairs| ==> Rank(pairs[k].0) < k && Rank(pairs[k].1) < k
  }

  predicate IsCode(pairs: Pairs, x: Byte) {
    0 <= Rank(x) < |pairs|
  }

  function Expand(pairs: Pairs, x: Byte): seq<Byte>
    requires Ranked(pairs)
    decreases Rank(x) + 1
  {
    if !IsCode(pairs, x) then [x]
    else Expand(pairs, pairs[Rank(x)].0) + Expand(pairs, pairs[Rank(x)].1)
  }

  function ExpandAll(pairs: Pairs, data: seq<Byte>): seq<Byte>
    requires Ranked(pairs)
  {
    if data == [] then [] else Expand(pairs, data[0]) + ExpandAll(pairs, data[1..])
  }

  // Levels of codes under a byte
  function Depth(pairs: Pairs, x: Byte): nat
    requires Ranked(pairs)
    decreases Rank(x) + 1
  {
    if !IsCode(pairs, x) then 0
    else
      var a, b := Depth(pairs, pairs[Rank(x)].0), Depth(pairs, pairs[Rank(x)].1);
      1 + if a > b then a else b
  }

  // Codes, each one in the pair of the one before
  predicate Chain(pairs: Pairs, c: seq<Byte>) {
    && (forall k | 0 <= k < |c| :: IsCode(pairs, c[k]))
    && (forall k | 0 < k < |c| :: c[k] == pairs[Rank(c[k - 1])].0 || c[k] == pairs[Rank(c[k - 1])].1)
  }

  // The depth of a code is the length of the longest chain from it
  lemma {:induction false} DepthIsLongest(pairs: Pairs, x: Byte) returns (c: seq<Byte>)
    requires Ranked(pairs) && IsCode(pairs, x)
    ensures c != [] && c[0] == x && Chain(pairs, c) && |c| == Depth(pairs, x)
    decreases Rank(x)
  {
    var a, b := pairs[Rank(x)].0, pairs[Rank(x)].1;
    var y := if Depth(pairs, a) > Depth(pairs, b) then a else b;
    if IsCode(pairs, y) {
      var d := DepthIsLongest(pairs, y);
      c := [x] + d;
      forall k | 0 < k < |c| ensures c[k] == pairs[Rank(c[k - 1])].0 || c[k] == pairs[Rank(c[k - 1])].1 {
        assert k > 1 ==> c[k - 1] == d[k - 2] && c[k] == d[k - 1];
      }
    } else {
      c := [x];
    }
  }

  lemma {:induction false} ChainsAreShort(pairs: Pairs, c: seq<Byte>)
    requires Ranked(pairs) && c != [] && Chain(pairs, c)
    ensures |c| <= Depth(pairs, c[0])
    decreases |c|
  {
    if |c| > 1 {
      assert c[1] == c[1..][0];
      ChainsAreShort(pairs, c[1..]);
    }
  }

  // Bytes looked at to expand x: how long the loops below still run
  function Visits(pairs: Pairs, x: Byte): (n: nat)
    requires Ranked(pairs)
    ensures n > 0
    decreases Rank(x) + 1
  {
    if !IsCode(pairs, x) then 1
    else 1 + Visits(pairs, pairs[Rank(x)].0) + Visits(pairs, pairs[Rank(x)].1)
  }

  // A stack, its top last
  function ExpandStack(pairs: Pairs, stack: seq<Byte>): seq<Byte>
    requires Ranked(pairs)
  {
    if stack == [] then []
    else Expand(pairs, stack[|stack| - 1]) + ExpandStack(pairs, stack[..|stack| - 1])
  }

  function StackVisits(pairs: Pairs, stack: seq<Byte>): nat
    requires Ranked(pairs)
  {
    if stack == [] then 0
    else Visits(pairs, stack[|stack| - 1]) + StackVisits(pairs, stack[..|stack| - 1])
  }

  // Popping a code and pushing its pair, the first half on top
  lemma StackStep(pairs: Pairs, rest: seq<Byte>, x: Byte)
    requires Ranked(pairs) && IsCode(pairs, x)
    ensures var p := pairs[Rank(x)];
            && ExpandStack(pairs, rest + [p.1, p.0]) == ExpandStack(pairs, rest + [x])
            && StackVisits(pairs, rest + [p.1, p.0]) < StackVisits(pairs, rest + [x])
  {
    hide ExpandStack, StackVisits, Code;
    var p := pairs[Rank(x)];
    StackPush(pairs, rest, x);
    StackPush(pairs, rest, p.1);
    StackPush(pairs, rest + [p.1], p.0);
    assert rest + [p.1] + [p.0] == rest + [p.1, p.0];
  }

  lemma StackPush(pairs: Pairs, rest: seq<Byte>, x: Byte)
    requires Ranked(pairs)
    ensures ExpandStack(pairs, rest + [x]) == Expand(pairs, x) + ExpandStack(pairs, rest)
    ensures StackVisits(pairs, rest + [x]) == Visits(pairs, x) + StackVisits(pairs, rest)
  {
    assert (rest + [x])[..|rest|] == rest;
  }

  lemma {:induction false} ExpandAllSum(pairs: Pairs, a: seq<Byte>, b: seq<Byte>)
    requires Ranked(pairs)
    ensures ExpandAll(pairs, a + b) == ExpandAll(pairs, a) + ExpandAll(pairs, b)
  {
    if a == [] {
      assert a + b == b;
    } else {
      assert (a + b)[1..] == a[1..] + b;
      ExpandAllSum(pairs, a[1..], b);
    }
  }

  lemma ExpandAllStep(pairs: Pairs, data: seq<Byte>, i: nat)
    requires Ranked(pairs) && i < |data|
    ensures ExpandAll(pairs, data[..i + 1]) == ExpandAll(pairs, data[..i]) + Expand(pairs, data[i])
  {
    ExpandAllSum(pairs, data[..i], [data[i]]);
    assert data[..i + 1] == data[..i] + [data[i]];
    assert ExpandAll(pairs, [data[i]]) == Expand(pairs, data[i]) + ExpandAll(pairs, [data[i]][1..]);
  }

  // ── One round of the encoder ───────────────────────────────────────────────

  // A new last pair changes no earlier byte
  lemma {:induction false} Grows(pairs: Pairs, p: (Byte, Byte), x: Byte)
    requires Ranked(pairs) && Ranked(pairs + [p]) && Rank(x) < |pairs|
    ensures Expand(pairs + [p], x) == Expand(pairs, x)
    ensures Depth(pairs + [p], x) == Depth(pairs, x)
    decreases Rank(x) + 1
  {
    if IsCode(pairs, x) {
      Grows(pairs, p, pairs[Rank(x)].0);
      Grows(pairs, p, pairs[Rank(x)].1);
    }
  }

  // Left to right, without overlaps
  function Replaced(data: seq<Byte>, a: Byte, b: Byte, code: Byte): seq<Byte> {
    if data == [] then []
    else if |data| > 1 && data[0] == a && data[1] == b then [code] + Replaced(data[2..], a, b, code)
    else [data[0]] + Replaced(data[1..], a, b, code)
  }

  ghost predicate RanksBelow(data: seq<Byte>, n: int) {
    forall i :: 0 <= i < |data| ==> Rank(data[i]) < n
  }

  // A new code stands for what its pair stands for
  lemma NewPair(pairs: Pairs, a: Byte, b: Byte)
    requires |pairs| < CODE_COUNT && Ranked(pairs) && Rank(a) < |pairs| && Rank(b) < |pairs|
    ensures var more := pairs + [(a, b)];
            && Ranked(more) && Rank(Code(|pairs|)) == |pairs|
            && Expand(more, Code(|pairs|)) == Expand(pairs, a) + Expand(pairs, b)
  {
    RankIsIndex(Code(|pairs|), |pairs|);
    Grows(pairs, (a, b), a);
    Grows(pairs, (a, b), b);
  }

  // A round keeps what the data stands for
  lemma {:induction false} RoundKeeps(pairs: Pairs, data: seq<Byte>, a: Byte, b: Byte)
    requires |pairs| < CODE_COUNT && Ranked(pairs) && Rank(a) < |pairs| && Rank(b) < |pairs|
    requires RanksBelow(data, |pairs|)
    ensures Ranked(pairs + [(a, b)])
    ensures var out := Replaced(data, a, b, Code(|pairs|));
            && ExpandAll(pairs + [(a, b)], out) == ExpandAll(pairs, data)
            && RanksBelow(out, |pairs| + 1)
            && |out| <= |data|
  {
    hide Expand, Rank, Code;
    var code, more := Code(|pairs|), pairs + [(a, b)];
    NewPair(pairs, a, b);
    if data == [] {
    } else if |data| > 1 && data[0] == a && data[1] == b {
      RoundKeeps(pairs, data[2..], a, b);
      Grows(pairs, (a, b), a);
      Grows(pairs, (a, b), b);
      var rest := Replaced(data[2..], a, b, code);
      assert ([code] + rest)[1..] == rest;
      assert ExpandAll(more, [code] + rest) == Expand(pairs, a) + Expand(pairs, b) + ExpandAll(pairs, data[2..]);
      assert data[1..][1..] == data[2..];
    } else {
      RoundKeeps(pairs, data[1..], a, b);
      Grows(pairs, (a, b), data[0]);
      var rest := Replaced(data[1..], a, b, code);
      assert ([data[0]] + rest)[1..] == rest;
    }
  }

  // ── The encoder (Python) ───────────────────────────────────────────────────

  function Neighbours(data: seq<Byte>, i: nat): (Byte, Byte)
    requires i + 1 < |data|
  {
    (data[i], data[i + 1])
  }

  // How often a pair of neighbours occurs among the first n, overlaps included
  function Count(data: seq<Byte>, n: nat, p: (Byte, Byte)): nat
    requires n < |data| || n == 0
  {
    if n == 0 then 0 else Count(data, n - 1, p) + (if Neighbours(data, n - 1) == p then 1 else 0)
  }

  function Total(data: seq<Byte>, p: (Byte, Byte)): nat {
    Count(data, if data == [] then 0 else |data| - 1, p)
  }

  lemma {:induction false} CountedIsThere(data: seq<Byte>, n: nat, p: (Byte, Byte))
    requires n < |data| && Count(data, n, p) > 0
    ensures exists i :: 0 <= i < n && Neighbours(data, i) == p
  {
    if Neighbours(data, n - 1) != p {
      CountedIsThere(data, n - 1, p);
    }
  }

  ghost predicate Counted(data: seq<Byte>, n: nat, counts: map<(Byte, Byte), nat>)
    requires n < |data| || n == 0
  {
    && (forall p :: p in counts ==> counts[p] == Count(data, n, p))
    && (forall i :: 0 <= i < n ==> Neighbours(data, i) in counts)
  }

  lemma CountedStep(data: seq<Byte>, n: nat, counts: map<(Byte, Byte), nat>, p: (Byte, Byte))
    requires n + 1 < |data| && Counted(data, n, counts) && p == Neighbours(data, n)
    ensures Counted(data, n + 1, counts[p := (if p in counts then counts[p] else 0) + 1])
  {
    if p !in counts && Count(data, n, p) > 0 {
      CountedIsThere(data, n, p);
    }
  }

  method Counter(data: seq<Byte>) returns (counts: map<(Byte, Byte), nat>)
    ensures Counted(data, if data == [] then 0 else |data| - 1, counts)
  {
    counts := map[];
    var i := 0;
    while i + 1 < |data|
      invariant 0 <= i && (i < |data| || i == 0) && Counted(data, i, counts)
    {
      var p := Neighbours(data, i);
      CountedStep(data, i, counts, p);
      counts := counts[p := (if p in counts then counts[p] else 0) + 1];
      i := i + 1;
    }
  }

  // The pair that occurs most, the first one to appear winning a tie
  method MostCommon(data: seq<Byte>) returns (p: (Byte, Byte), n: nat, ghost at: nat)
    ensures n == 0 <==> |data| < 2
    ensures forall q :: Total(data, q) <= n
    ensures n > 0 ==> at + 1 < |data| && p == Neighbours(data, at) && n == Total(data, p)
    ensures n > 0 ==> forall k :: 0 <= k < at ==> Total(data, Neighbours(data, k)) < n
  {
    var counts := Counter(data);
    p, n, at := (0, 0), 0, 0;
    var i := 0;
    while i + 1 < |data|
      invariant 0 <= i && (i < |data| || i == 0)
      invariant n == 0 <==> i == 0
      invariant n > 0 ==> n == Total(data, p) && 0 <= at < i && p == Neighbours(data, at)
      invariant forall k :: 0 <= k < i ==> Total(data, Neighbours(data, k)) <= n
      invariant n > 0 ==> forall k :: 0 <= k < at ==> Total(data, Neighbours(data, k)) < n
    {
      var q := Neighbours(data, i);
      OnceThere(data, |data| - 1, i);
      if counts[q] > n {
        p, n, at := q, counts[q], i;
      }
      i := i + 1;
    }
    forall q: (Byte, Byte)
      ensures Total(data, q) <= n
    {
      if Total(data, q) > 0 {
        CountedIsThere(data, |data| - 1, q);
      }
    }
  }

  lemma {:induction false} OnceThere(data: seq<Byte>, n: nat, i: nat)
    requires i < n < |data|
    ensures Count(data, n, Neighbours(data, i)) > 0
  {
    if i < n - 1 {
      OnceThere(data, n - 1, i);
    }
  }

  method Replace(data: seq<Byte>, a: Byte, b: Byte, code: Byte) returns (out: seq<Byte>)
    ensures out == Replaced(data, a, b, code)
  {
    out := [];
    var i := 0;
    while i < |data|
      invariant 0 <= i <= |data|
      invariant out + Replaced(data[i..], a, b, code) == Replaced(data, a, b, code)
    {
      ReplacedAt(out, data, i, a, b, code);
      if i + 1 < |data| && data[i] == a && data[i + 1] == b {
        out := out + [code];
        i := i + 2;
      } else {
        out := out + [data[i]];
        i := i + 1;
      }
    }
    assert data[i..] == [];
  }

  lemma ReplacedAt(out: seq<Byte>, data: seq<Byte>, i: nat, a: Byte, b: Byte, code: Byte)
    requires i < |data|
    ensures out + Replaced(data[i..], a, b, code) ==
            if i + 1 < |data| && data[i] == a && data[i + 1] == b
            then out + [code] + Replaced(data[i + 2..], a, b, code)
            else out + [data[i]] + Replaced(data[i + 1..], a, b, code)
  {
    if i + 1 < |data| && data[i] == a && data[i + 1] == b {
      assert data[i..][2..] == data[i + 2..];
    } else {
      assert data[i..][1..] == data[i + 1..];
    }
  }

  // The depth table of the codes given so far
  ghost predicate Depths(pairs: Pairs, depth: map<Byte, nat>)
    requires Ranked(pairs)
  {
    && (forall x: Byte :: x in depth <==> IsCode(pairs, x))
    && (forall x: Byte :: x in depth ==> depth[x] == Depth(pairs, x))
  }

  lemma NewCode(pairs: Pairs, p: (Byte, Byte), x: Byte)
    requires |pairs| < CODE_COUNT
    ensures IsCode(pairs + [p], x) <==> IsCode(pairs, x) || x == Code(|pairs|)
  {
    RankIsIndex(x, |pairs|);
  }

  lemma NewDepth(pairs: Pairs, a: Byte, b: Byte)
    requires Ranked(pairs) && |pairs| < CODE_COUNT && Ranked(pairs + [(a, b)])
    ensures Depth(pairs + [(a, b)], Code(|pairs|)) ==
            1 + (if Depth(pairs, a) > Depth(pairs, b) then Depth(pairs, a) else Depth(pairs, b))
  {
    RankIsIndex(Code(|pairs|), |pairs|);
    assert (pairs + [(a, b)])[|pairs|] == (a, b);
    Grows(pairs, (a, b), a);
    Grows(pairs, (a, b), b);
  }

  lemma DepthsGrow(pairs: Pairs, depth: map<Byte, nat>, p: (Byte, Byte), d: nat)
    requires Ranked(pairs) && |pairs| < CODE_COUNT && Ranked(pairs + [p]) && Depths(pairs, depth)
    requires d == Depth(pairs + [p], Code(|pairs|))
    ensures Depths(pairs + [p], depth[Code(|pairs|) := d])
  {
    forall x: Byte
      ensures IsCode(pairs + [p], x) <==> IsCode(pairs, x) || x == Code(|pairs|)
    {
      NewCode(pairs, p, x);
    }
    forall x: Byte | IsCode(pairs, x)
      ensures Depth(pairs + [p], x) == Depth(pairs, x)
    {
      Grows(pairs, p, x);
    }
  }

  method Deepest(depth: map<Byte, nat>) returns (d: nat)
    ensures forall x :: x in depth ==> depth[x] <= d
    ensures d == 0 || exists x :: x in depth && depth[x] == d
  {
    d := 0;
    var left := depth.Keys;
    while left != {}
      invariant left <= depth.Keys
      invariant forall x :: x in depth && x !in left ==> depth[x] <= d
      invariant d == 0 || exists x :: x in depth && depth[x] == d
    {
      var x :| x in left;
      if depth[x] > d {
        d := depth[x];
      }
      left := left - {x};
    }
  }

  // Too deep, the encoder stops with an error
  datatype Encoded =
    | Encoded(pairs: Pairs, data: seq<Byte>, deepest: nat)
    | TooDeep(pairs: Pairs)

  // What the encoder promises for a text without code bytes
  ghost predicate Encodes(e: Encoded, text: seq<Byte>)
    requires e.Encoded?
  {
    && Ranked(e.pairs)
    && ExpandAll(e.pairs, e.data) == text
    && RanksBelow(e.data, |e.pairs|)
    && |e.data| <= |text|
    && e.deepest <= MAX_DEPTH
    && forall x: Byte :: IsCode(e.pairs, x) ==> Depth(e.pairs, x) <= e.deepest
  }

  // The data after the rounds that gave these pairs
  function Rounds(text: seq<Byte>, pairs: Pairs): seq<Byte>
    requires |pairs| <= CODE_COUNT
  {
    if pairs == [] then text
    else
      var n := |pairs| - 1;
      Replaced(Rounds(text, pairs[..n]), pairs[n].0, pairs[n].1, Code(n))
  }

  // The pair that occurs most, three times at least, the first to appear
  ghost predicate Chosen(data: seq<Byte>, p: (Byte, Byte)) {
    && Total(data, p) >= 3 && (forall q :: Total(data, q) <= Total(data, p))
    && exists at :: 0 <= at < |data| - 1 && p == Neighbours(data, at) && NoneBefore(data, at, Total(data, p))
  }

  ghost predicate NoneBefore(data: seq<Byte>, at: nat, n: nat)
    requires at < |data|
  {
    forall k | 0 <= k < at :: Total(data, Neighbours(data, k)) < n
  }

  // Every round took the pair it should, and no round was left to do
  ghost predicate Greedy(text: seq<Byte>, pairs: Pairs)
    requires |pairs| <= CODE_COUNT
  {
    && (forall k | 0 <= k < |pairs| :: Chosen(Rounds(text, pairs[..k]), pairs[k]))
    && (|pairs| == CODE_COUNT || forall q :: Total(Rounds(text, pairs), q) < 3)
  }

  lemma OneMoreRound(text: seq<Byte>, pairs: Pairs, p: (Byte, Byte))
    requires |pairs| < CODE_COUNT
    requires forall k | 0 <= k < |pairs| :: Chosen(Rounds(text, pairs[..k]), pairs[k])
    requires Chosen(Rounds(text, pairs), p)
    ensures var more := pairs + [p];
            && Rounds(text, more) == Replaced(Rounds(text, pairs), p.0, p.1, Code(|pairs|))
            && forall k | 0 <= k < |more| :: Chosen(Rounds(text, more[..k]), more[k])
  {
    hide Chosen;
    var more := pairs + [p];
    assert more[..|pairs|] == pairs;
    forall k | 0 <= k < |more| ensures Chosen(Rounds(text, more[..k]), more[k]) {
      if k < |pairs| {
        assert more[..k] == pairs[..k];
      }
    }
  }

  // The pairs and the data of the greedy rounds, unless some code is too deep
  method Encode(text: seq<Byte>) returns (e: Encoded)
    requires RanksBelow(text, 0)
    ensures Ranked(e.pairs) && |e.pairs| <= CODE_COUNT && Greedy(text, e.pairs)
    ensures e.Encoded? ==> Encodes(e, text) && e.data == Rounds(text, e.pairs)
    ensures e.Encoded? ==> e.deepest == 0 || exists x: Byte :: IsCode(e.pairs, x) && Depth(e.pairs, x) == e.deepest
    ensures e.TooDeep? <==> TooDeepFor(e.pairs)
  {
    hide Chosen, Rounds, NoneBefore, Expand;
    NoRounds(text);
    var data, found := text, [];
    var depth: map<Byte, nat> := map[];
    NothingToExpand(text);
    while |found| < CODE_COUNT
      invariant Ranked(found) && RanksBelow(data, |found|) && |data| <= |text|
      invariant ExpandAll(found, data) == text && data == Rounds(text, found)
      invariant forall k | 0 <= k < |found| :: Chosen(Rounds(text, found[..k]), found[k])
      invariant Depths(found, depth)
      decreases CODE_COUNT - |found|
    {
      var p, d;
      ghost var at;
      var n;
      p, n, at := MostCommon(data);
      if n < 3 {
        break;
      }
      IsChosen(data, p, n, at);
      d := Round(text, data, found, p, depth);
      depth := depth[Code(|found|) := d];
      data := Replace(data, p.0, p.1, Code(|found|));
      found := found + [p];
    }
    var deepest := Deepest(depth);
    e := if deepest > MAX_DEPTH then TooDeep(found) else Encoded(found, data, deepest);
  }

  // One pair only can be taken in a round
  lemma ChosenUnique(data: seq<Byte>, p: (Byte, Byte), q: (Byte, Byte))
    requires Chosen(data, p) && Chosen(data, q)
    ensures p == q && Total(data, p) >= 3
  {
  }

  lemma {:induction false} SamePrefix(text: seq<Byte>, p: Pairs, q: Pairs, k: nat)
    requires |p| <= CODE_COUNT && |q| <= CODE_COUNT && Greedy(text, p) && Greedy(text, q)
    requires k <= |p| && k <= |q|
    ensures p[..k] == q[..k]
  {
    hide Chosen, Rounds;
    if k > 0 {
      SamePrefix(text, p, q, k - 1);
      ChosenUnique(Rounds(text, p[..k - 1]), p[k - 1], q[k - 1]);
      assert p[..k] == p[..k - 1] + [p[k - 1]];
      assert q[..k] == q[..k - 1] + [q[k - 1]];
    }
  }

  // The text settles the rounds, whatever way they are found
  lemma GreedyUnique(text: seq<Byte>, p: Pairs, q: Pairs)
    requires |p| <= CODE_COUNT && |q| <= CODE_COUNT && Greedy(text, p) && Greedy(text, q)
    ensures p == q
  {
    hide Greedy;
    NotShorter(text, p, q);
    NotShorter(text, q, p);
    SamePrefix(text, p, q, |p|);
    assert p[..|p|] == p && q[..|p|] == q;
  }

  // Rounds that could go on are not all
  lemma NotShorter(text: seq<Byte>, p: Pairs, q: Pairs)
    requires |p| <= CODE_COUNT && |q| <= CODE_COUNT && Greedy(text, p) && Greedy(text, q)
    ensures |p| >= |q|
  {
    hide Chosen, Rounds;
    if |p| < |q| {
      SamePrefix(text, p, q, |p|);
      assert q[..|p|] == p;
      ChosenUnique(Rounds(text, p), q[|p|], q[|p|]);
      assert false;
    }
  }

  lemma NoRounds(text: seq<Byte>)
    ensures Rounds(text, []) == text
  {
  }

  lemma IsChosen(data: seq<Byte>, p: (Byte, Byte), n: nat, at: nat)
    requires n >= 3 && (forall q :: Total(data, q) <= n)
    requires at + 1 < |data| && p == Neighbours(data, at) && n == Total(data, p)
    requires forall k :: 0 <= k < at ==> Total(data, Neighbours(data, k)) < n
    ensures Chosen(data, p)
  {
    assert NoneBefore(data, at, n);
  }

  // What one round adds to the depths
  method Round(ghost text: seq<Byte>, ghost data: seq<Byte>, pairs: Pairs, p: (Byte, Byte), depth: map<Byte, nat>)
      returns (d: nat)
    requires |pairs| < CODE_COUNT && Ranked(pairs) && RanksBelow(data, |pairs|) && Depths(pairs, depth)
    requires data == Rounds(text, pairs) && Chosen(data, p)
    requires forall k | 0 <= k < |pairs| :: Chosen(Rounds(text, pairs[..k]), pairs[k])
    ensures var more, out := pairs + [p], Replaced(data, p.0, p.1, Code(|pairs|));
            && Ranked(more) && Depths(more, depth[Code(|pairs|) := d])
            && ExpandAll(more, out) == ExpandAll(pairs, data)
            && RanksBelow(out, |pairs| + 1) && |out| <= |data| && out == Rounds(text, more)
            && forall k | 0 <= k < |more| :: Chosen(Rounds(text, more[..k]), more[k])
  {
    ChosenBelow(data, p, |pairs|);
    hide Chosen, Rounds;
    RoundKeeps(pairs, data, p.0, p.1);
    OneMoreRound(text, pairs, p);
    var a := if p.0 in depth then depth[p.0] else 0;
    var b := if p.1 in depth then depth[p.1] else 0;
    d := 1 + if a > b then a else b;
    NewDepth(pairs, p.0, p.1);
    DepthsGrow(pairs, depth, p, d);
  }

  lemma ChosenBelow(data: seq<Byte>, p: (Byte, Byte), n: int)
    requires Chosen(data, p) && RanksBelow(data, n)
    ensures Rank(p.0) < n && Rank(p.1) < n
  {
  }

  lemma {:induction false} NothingToExpand(text: seq<Byte>)
    ensures ExpandAll([], text) == text
  {
    if text != [] {
      NothingToExpand(text[1..]);
    }
  }

  // ── The expander (Python), as the reference ────────────────────────────────

  method Decode(pairs: Pairs, data: seq<Byte>) returns (out: seq<Byte>)
    requires Ranked(pairs)
    ensures out == ExpandAll(pairs, data)
  {
    hide Expand;
    out := [];
    var i := 0;
    while i < |data|
      invariant 0 <= i <= |data| && out == ExpandAll(pairs, data[..i])
    {
      ExpandAllStep(pairs, data, i);
      var one := DecodeOne(pairs, data[i]);
      out := out + one;
      i := i + 1;
    }
    assert data[..|data|] == data;
  }

  // One byte, through the stack
  method DecodeOne(pairs: Pairs, b: Byte) returns (out: seq<Byte>)
    requires Ranked(pairs)
    ensures out == Expand(pairs, b)
  {
    hide Visits;
    out := [];
    var stack := [b];
    StackPush(pairs, [], b);
    assert [] + [b] == [b];
    while stack != []
      invariant out + ExpandStack(pairs, stack) == Expand(pairs, b)
      decreases StackVisits(pairs, stack)
    {
      var rest, x := stack[..|stack| - 1], stack[|stack| - 1];
      assert stack == rest + [x];
      if !IsCode(pairs, x) {
        StackPush(pairs, rest, x);
        assert out + ([x] + ExpandStack(pairs, rest)) == out + [x] + ExpandStack(pairs, rest);
        out := out + [x];
        stack := rest;
      } else {
        StackStep(pairs, rest, x);
        stack := rest + [pairs[Rank(x)].1, pairs[Rank(x)].0];
      }
    }
  }

  // ── The expander (device) ──────────────────────────────────────────────────

  // The socket the device uploads to: the pieces written to it
  class Client {
    ghost var sent: seq<seq<Byte>>

    method Write(p: array<Byte>, n: nat)
      requires n <= p.Length
      modifies this
      ensures sent == old(sent) + [p[..n]]
    {
      sent := sent + [p[..n]];
    }
  }

  const WINDOW := 64

  ghost function Joined(pieces: seq<seq<Byte>>): seq<Byte> {
    if pieces == [] then [] else Joined(pieces[..|pieces| - 1]) + pieces[|pieces| - 1]
  }

  // The pieces a full buffer sends
  ghost predicate Full(pieces: seq<seq<Byte>>) {
    forall i :: 0 <= i < |pieces| ==> |pieces[i]| == WINDOW
  }

  // RELAY_PAIRS: both halves of each pair, in rank order
  ghost predicate Flat(flat: seq<Byte>, pairs: Pairs) {
    && |flat| == 2 * |pairs|
    && forall k :: 0 <= k < |pairs| ==> flat[2 * k] == pairs[k].0 && flat[2 * k + 1] == pairs[k].1
  }

  // Each byte of the stack is no deeper than what is left of the depth
  ghost predicate Fits(pairs: Pairs, stack: seq<Byte>, depth: nat)
    requires Ranked(pairs)
  {
    forall j :: 0 <= j < |stack| ==> Depth(pairs, stack[j]) + j <= depth
  }

  // What the loop keeps: the stack fits, and what it still holds ends the output
  ghost predicate Unfolding(pairs: Pairs, stack: seq<Byte>, depth: nat, output: seq<Byte>, whole: seq<Byte>)
    requires Ranked(pairs)
  {
    && Fits(pairs, stack, depth)
    && RanksBelow(stack, |pairs|)
    && output + ExpandStack(pairs, stack) == whole
  }

  lemma TextKeeps(pairs: Pairs, rest: seq<Byte>, b: Byte, depth: nat, output: seq<Byte>, whole: seq<Byte>)
    requires Ranked(pairs) && Unfolding(pairs, rest + [b], depth, output, whole) && Rank(b) < 0
    ensures Unfolding(pairs, rest, depth, output + [b], whole)
    ensures StackVisits(pairs, rest) < StackVisits(pairs, rest + [b])
  {
    hide ExpandStack, StackVisits, Depth;
    StackPush(pairs, rest, b);
    forall j | 0 <= j < |rest|
      ensures (rest + [b])[j] == rest[j]
    {
    }
    assert output + [b] + ExpandStack(pairs, rest) == output + ([b] + ExpandStack(pairs, rest));
  }

  lemma CodeKeeps(pairs: Pairs, rest: seq<Byte>, b: Byte, depth: nat, output: seq<Byte>, whole: seq<Byte>)
    requires Ranked(pairs) && Unfolding(pairs, rest + [b], depth, output, whole) && Rank(b) >= 0
    ensures IsCode(pairs, b) && |rest| + 2 <= depth + 1
    ensures var next := rest + [pairs[Rank(b)].1, pairs[Rank(b)].0];
            && Unfolding(pairs, next, depth, output, whole)
            && StackVisits(pairs, next) < StackVisits(pairs, rest + [b])
  {
    hide Expand, ExpandStack, Visits, StackVisits;
    assert (rest + [b])[|rest|] == b;
    StackStep(pairs, rest, b);
    var next := rest + [pairs[Rank(b)].1, pairs[Rank(b)].0];
    forall j | 0 <= j < |next|
      ensures Depth(pairs, next[j]) + j <= depth && Rank(next[j]) < |pairs|
    {
      if j < |rest| {
        assert (rest + [b])[j] == next[j];
      }
    }
  }

  lemma UnfoldingStarts(pairs: Pairs, x: Byte, depth: nat, output: seq<Byte>)
    requires Ranked(pairs) && Rank(x) < |pairs| && Depth(pairs, x) <= depth
    ensures Unfolding(pairs, [x], depth, output, output + Expand(pairs, x))
  {
    StackPush(pairs, [], x);
    assert [] + [x] == [x];
  }

  lemma UnfoldingEnds(pairs: Pairs, depth: nat, output: seq<Byte>, whole: seq<Byte>)
    requires Ranked(pairs)
    ensures Unfolding(pairs, [], depth, output, whole) ==> output == whole
  {
  }

  // What was sent and what waits in the window
  ghost function Output(pieces: seq<seq<Byte>>, window: seq<Byte>): seq<Byte> {
    Joined(pieces) + window
  }

  // out[n++] = b, and a full window goes out
  method Emit(c: Client, out: array<Byte>, n0: nat, b: Byte) returns (n: nat, ghost pieces: seq<seq<Byte>>)
    requires out.Length == WINDOW && n0 < WINDOW
    modifies c, out
    ensures c.sent == old(c.sent) + pieces && Full(pieces) && n < WINDOW
    ensures Output(pieces, out[..n]) == old(out[..n0]) + [b]
  {
    n, pieces := n0, [];
    out[n] := b;
    n := n + 1;
    if n == WINDOW {
      c.Write(out, n);
      pieces := [] + [out[..n]];
      assert Joined(pieces) == out[..n];
      n := 0;
    }
  }

  lemma OutputSum(pieces: seq<seq<Byte>>, window: seq<Byte>, more: seq<seq<Byte>>, next: seq<Byte>, b: seq<Byte>)
    requires Output(more, next) == window + b
    ensures Output(pieces + more, next) == Output(pieces, window) + b
  {
    JoinedSum(pieces, more);
    assert Joined(pieces) + Joined(more) + next == Joined(pieces) + (Joined(more) + next);
    assert Joined(pieces) + (window + b) == Joined(pieces) + window + b;
  }

  // stack[k++] = second, stack[k++] = first
  method PushPair(stack: array<Byte>, k0: nat, second: Byte, first: Byte) returns (k: nat)
    requires k0 + 2 <= stack.Length
    modifies stack
    ensures k == k0 + 2 && stack[..k] == old(stack[..k0]) + [second, first]
  {
    k := k0;
    stack[k] := second;
    k := k + 1;
    stack[k] := first;
    k := k + 1;
  }

  // One byte of the script, through the stack
  method Unfold(c: Client, out: array<Byte>, n0: nat, stack: array<Byte>, flat: seq<Byte>, x: Byte,
                depth: nat, ghost pairs: Pairs)
      returns (n: nat, ghost pieces: seq<seq<Byte>>)
    requires Ranked(pairs) && Flat(flat, pairs) && Rank(x) < |pairs| && Depth(pairs, x) <= depth
    requires out.Length == WINDOW && n0 < WINDOW && stack.Length == depth + 2 && out != stack
    modifies c, out, stack
    ensures c.sent == old(c.sent) + pieces && Full(pieces) && n < WINDOW
    ensures Output(pieces, out[..n]) == old(out[..n0]) + Expand(pairs, x)
  {
    hide Expand, ExpandStack, StackVisits, Unfolding, Depth, Rank;
    n, pieces := n0, [];
    ghost var whole := out[..n0] + Expand(pairs, x);
    UnfoldingStarts(pairs, x, depth, out[..n0]);
    stack[0] := x;
    var k := 1;
    assert stack[..1] == [x];
    assert Output(pieces, out[..n]) == out[..n0];
    while k > 0
      invariant 0 <= k <= depth + 1 && 0 <= n < WINDOW
      invariant c.sent == old(c.sent) + pieces && Full(pieces)
      invariant Unfolding(pairs, stack[..k], depth, Output(pieces, out[..n]), whole)
      decreases StackVisits(pairs, stack[..k])
    {
      assert stack[..k] == stack[..k - 1] + [stack[k - 1]];
      k := k - 1;
      ghost var rest, output := stack[..k], Output(pieces, out[..n]);
      var b := stack[k];
      var r := Rank(b);
      if r < 0 {
        TextKeeps(pairs, rest, b, depth, output, whole);
        ghost var window, more := out[..n], [];
        n, more := Emit(c, out, n, b);
        OutputSum(pieces, window, more, out[..n], [b]);
        pieces := pieces + more;
      } else {
        CodeKeeps(pairs, rest, b, depth, output, whole);
        k := PushPair(stack, k, flat[2 * r + 1], flat[2 * r]);
      }
    }
    UnfoldingEnds(pairs, depth, Output(pieces, out[..n]), whole);
  }

  lemma {:induction false} JoinedSum(a: seq<seq<Byte>>, b: seq<seq<Byte>>)
    ensures Joined(a + b) == Joined(a) + Joined(b)
  {
    if b == [] {
      assert a + b == a;
    } else {
      assert (a + b)[..|a + b| - 1] == a + b[..|b| - 1];
      JoinedSum(a, b[..|b| - 1]);
    }
  }

  method Script(c: Client, flat: seq<Byte>, script: seq<Byte>, depth: nat, ghost pairs: Pairs)
      returns (ghost pieces: seq<seq<Byte>>)
    requires Ranked(pairs) && Flat(flat, pairs) && RanksBelow(script, |pairs|)
    requires forall x: Byte :: IsCode(pairs, x) ==> Depth(pairs, x) <= depth
    modifies c
    ensures c.sent == old(c.sent) + pieces
    ensures pieces != [] && Full(pieces[..|pieces| - 1]) && |pieces[|pieces| - 1]| < WINDOW
    ensures Joined(pieces) == ExpandAll(pairs, script)
  {
    hide Expand;
    var out, stack := new Byte[WINDOW], new Byte[depth + 2];
    var n, i := 0, 0;
    pieces := [];
    while i < |script|
      invariant 0 <= i <= |script| && 0 <= n < WINDOW
      invariant c.sent == old(c.sent) + pieces && Full(pieces)
      invariant Output(pieces, out[..n]) == ExpandAll(pairs, script[..i])
    {
      ExpandAllStep(pairs, script, i);
      ghost var window, more := out[..n], [];
      n, more := Unfold(c, out, n, stack, flat, script[i], depth, pairs);
      OutputSum(pieces, window, more, out[..n], Expand(pairs, script[i]));
      pieces := pieces + more;
      i := i + 1;
    }
    assert script[..|script|] == script;
    c.Write(out, n);
    pieces := pieces + [out[..n]];
  }

  // ── Both ends ──────────────────────────────────────────────────────────────

  ghost predicate TooDeepFor(pairs: Pairs)
    requires Ranked(pairs)
  {
    exists x: Byte :: IsCode(pairs, x) && Depth(pairs, x) > MAX_DEPTH
  }

  // The rounds the text asks for go too deep
  ghost predicate Undeployable(text: seq<Byte>) {
    exists pairs :: Ranked(pairs) && |pairs| <= CODE_COUNT && Greedy(text, pairs) && TooDeepFor(pairs)
  }

  lemma UndeployableExactly(text: seq<Byte>, pairs: Pairs)
    requires Ranked(pairs) && |pairs| <= CODE_COUNT && Greedy(text, pairs)
    ensures Undeployable(text) <==> TooDeepFor(pairs)
  {
    hide Greedy;
    forall q | Ranked(q) && |q| <= CODE_COUNT && Greedy(text, q) && TooDeepFor(q)
      ensures TooDeepFor(pairs)
    {
      GreedyUnique(text, pairs, q);
    }
  }

  // flat = bytes(x for p in pairs for x in p)
  method Flatten(pairs: Pairs) returns (flat: seq<Byte>)
    ensures Flat(flat, pairs)
  {
    flat := [];
    var i := 0;
    while i < |pairs|
      invariant 0 <= i <= |pairs| && Flat(flat, pairs[..i])
    {
      flat := flat + [pairs[i].0, pairs[i].1];
      i := i + 1;
    }
  }

  // The script the firmware carries expands to the text it was made from,
  // its declared length included
  method Deploy(c: Client, text: seq<Byte>) returns (done: bool, ghost pieces: seq<seq<Byte>>)
    requires RanksBelow(text, 0)
    modifies c
    ensures !done <==> Undeployable(text)
    ensures done ==> c.sent == old(c.sent) + pieces && Joined(pieces) == text
    ensures done ==> pieces != [] && Full(pieces[..|pieces| - 1])
    ensures done ==> |text| == WINDOW * (|pieces| - 1) + |pieces[|pieces| - 1]|
    ensures !done ==> c.sent == old(c.sent)
  {
    var e := Encode(text);
    UndeployableExactly(text, e.pairs);
    done := e.Encoded?;
    pieces := [];
    if done {
      var flat := Flatten(e.pairs);
      pieces := Script(c, flat, e.data, e.deepest, e.pairs);
      FullLength(pieces[..|pieces| - 1]);
    }
  }

  lemma {:induction false} FullLength(pieces: seq<seq<Byte>>)
    requires Full(pieces)
    ensures |Joined(pieces)| == WINDOW * |pieces|
  {
    if pieces != [] {
      FullLength(pieces[..|pieces| - 1]);
    }
  }
}
