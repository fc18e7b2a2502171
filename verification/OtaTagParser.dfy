/** The tag's parser as it runs: a fixed buffer filled byte by byte, against the
    steps that OtaTag describes. */
module OtaTagParser {
  import opened Text
  import opened T = OtaTag

  class TagParser {
    var stage: Stage
    var at: nat
    const tag: array<char>
    var n: nat

    ghost predicate Valid()
      reads this
    {
      at < |KEY| && n < tag.Length
    }

    ghost function Now(): Parser
      reads this, tag
      requires n <= tag.Length
    {
      Parser(stage, at, tag[..n])
    }

    constructor (cap: nat)
      requires cap > 0
      ensures Valid() && Now() == BEGUN && tag.Length == cap && fresh(tag)
    {
      stage, at, n := SEEK, 0, 0;
      tag := new char[cap](i => '\0');
    }

    // 1: tag read; 0: needs more; -1: invalid JSON
    method Feed(c: char) returns (r: int)
      requires Valid()
      modifies this, tag
      ensures Valid() && Now() == T.Feed(old(Now()), c, tag.Length)
      ensures r == if stage == FOUND then 1 else if stage == BROKEN then -1 else 0
    {
      match stage {
        case SEEK => Seek(c);
        case BEFORE_COLON => Expect(c, ':', BEFORE_VALUE);
        case BEFORE_VALUE => Expect(c, '"', VALUE);
        case VALUE =>
          if c != '"' {
            if n + 1 < tag.Length {
              tag[n] := c;
              n := n + 1;
            }
          } else {
            Strip();
            stage := FOUND;
          }
        case FOUND =>
        case BROKEN =>
      }
      r := if stage == FOUND then 1 else if stage == BROKEN then -1 else 0;
    }

    method Seek(c: char)
      requires Valid() && stage == SEEK
      modifies `stage, `at
      ensures Valid() && Now() == T.Feed(old(Now()), c, tag.Length)
    {
      if c == KEY[at] {
        at := at + 1;
        if at == |KEY| {
          stage, at := BEFORE_COLON, 0;
        }
      } else {
        at := if c == KEY[0] then 1 else 0;
      }
    }

    // Spaces, then this one
    method Expect(c: char, wanted: char, next: Stage)
      requires Valid() && !IsSpace(wanted)
      modifies `stage
      ensures Valid() && Now() == old(Now()).(stage := if IsSpace(c) then old(stage) else if c == wanted then next else BROKEN)
    {
      if !IsSpace(c) {
        stage := if c == wanted then next else BROKEN;
      }
    }

    // The blanks around the tag go, in place
    method Strip()
      requires Valid()
      modifies `n, tag
      ensures Valid() && tag[..n] == Trim(old(tag[..n]))
    {
      StripLeft();
      StripRight();
    }

    method StripLeft()
      requires Valid()
      modifies `n, tag
      ensures Valid() && tag[..n] == TrimLeft(old(tag[..n]))
    {
      ghost var was := tag[..n];
      var s := 0;
      assert was[0..] == was;
      while s < n && IsBlank(tag[s])
        invariant 0 <= s <= n && TrimLeft(was[s..]) == TrimLeft(was)
      {
        assert was[s..][1..] == was[s + 1..];
        s := s + 1;
      }
      forall i | 0 <= i < n - s {
        tag[i] := tag[s + i];
      }
      n := n - s;
      assert tag[..n] == was[s..];
    }

    method StripRight()
      requires Valid()
      modifies `n
      ensures Valid() && tag[..n] == TrimRight(old(tag[..n]))
    {
      ghost var t := tag[..n];
      while n > 0 && IsBlank(tag[n - 1])
        invariant 0 <= n <= old(n) && TrimRight(tag[..n]) == TrimRight(t)
      {
        assert tag[..n][..n - 1] == tag[..n - 1];
        n := n - 1;
      }
    }
  }
}
