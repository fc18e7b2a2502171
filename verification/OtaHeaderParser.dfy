/** The head's parser as it runs: two fixed buffers filled byte by byte, against
    the steps that OtaHeader describes. */
module OtaHeaderParser {
  import opened Numerals
  import opened Text
  import opened H = OtaHeader
  import OtaTag

  // _hdrIs, on the terminated line
  method HdrIs(line: string, name: string) returns (same: bool)
    requires '\0' !in line && '\0' !in name
    ensures same == Is(line, name)
  {
    var n := 0;
    while n < |name|
      invariant 0 <= n <= |line| && n <= |name|
      invariant forall i | 0 <= i < n :: Lower(line[i]) == Lower(name[i])
    {
      if n == |line| || Lower(line[n]) != Lower(name[n]) {
        return false;
      }
      n := n + 1;
    }
    return n == |line|;
  }

  class HeaderParser {
    var stage: Stage
    const name: array<char>
    var n: nat
    var takeLoc: bool
    var takeLen: bool
    var code: int
    var contentLength: int
    const location: array?<char>
    // What the location held when a value last ended
    ghost var placed: string

    // The location is a C string, but while one is being written into it
    ghost predicate Valid()
      reads this, name, location
    {
      && name.Length == NAME_CAP && name != location
      && (location != null ==> location.Length > 0)
      && !(takeLoc && takeLen) && (takeLoc ==> location != null)
      && n < Room()
      && (Placing() || (location != null ==> |placed| < location.Length && location[..|placed| + 1] == placed + ['\0']))
      && (takeLoc && (stage == VALUE_WS || stage == VALUE) ==> Empty(placed))
      && (location == null ==> placed == "")
    }

    // A location's value is being written
    predicate Placing()
      reads this
    {
      takeLoc && stage == VALUE
    }

    function Room(): nat
      reads this
    {
      if Placing() && location != null then location.Length else NAME_CAP
    }

    function Cap(): nat {
      if location == null then 0 else location.Length
    }

    // The characters gathered
    function Gathered(): string
      reads this, name, location
      requires n <= Room() && name.Length == NAME_CAP
    {
      if Placing() && location != null then location[..n] else name[..n]
    }

    ghost function Now(): Header
      reads this, name, location
      requires Valid()
    {
      Header(stage, Gathered(), takeLoc, takeLen, Seen(code, contentLength, placed))
    }

    constructor (loc: array?<char>)
      requires loc != null ==> loc.Length > 0
      modifies loc
      ensures Valid() && Now() == BEGUN && location == loc && fresh(name)
    {
      stage, n, code, contentLength := STATUS, 0, 0, -1;
      takeLoc, takeLen := false, false;
      location := loc;
      name := new char[NAME_CAP](i => '\0');
      placed := "";
      new;
      if loc != null {
        loc[0] := '\0';
      }
    }

    // 1: header complete; 0: needs more; -1: invalid response
    method Feed(c: char) returns (r: int)
      requires Valid()
      modifies this, name, location
      ensures Valid() && Now() == H.Feed(old(Now()), c, Cap())
      ensures r == if stage == DONE then 1 else if stage == BROKEN then -1 else 0
    {
      hide H.Status, H.Named, H.FeedValue, Valued;
      match stage {
        case VALUE_WS =>
          if !OtaTag.IsBlank(c) {
            StartValue();
            FeedValue(c);
          }
        case VALUE => FeedValue(c);
        case STATUS =>
          if c == '\n' {
            Status();
          } else if c != '\r' {
            AddName(c);
          }
        case NAME => FeedName(c);
        case DONE =>
        case BROKEN =>
      }
      r := if stage == DONE then 1 else if stage == BROKEN then -1 else 0;
    }

    method StartValue()
      requires Valid() && stage == VALUE_WS
      modifies `stage, `n
      ensures Valid() && Now() == old(Now()).(stage := VALUE, text := "")
    {
      stage, n := VALUE, 0;
    }

    method FeedName(c: char)
      requires Valid() && stage == NAME
      modifies this, name
      ensures Valid() && Now() == H.Feed(old(Now()), c, Cap())
    {
      hide H.Named;
      if c == '\n' {
        if n == 0 {
          stage := DONE;
        } else {
          n := 0;
        }
      } else if c == ':' {
        Named();
      } else if c != '\r' {
        AddName(c);
      }
    }

    method AddName(c: char)
      requires Valid() && !Placing()
      modifies name, `n
      ensures Valid() && Now() == old(Now()).(text := Add(old(Now()).text, c, NAME_CAP))
    {
      if n + 1 < name.Length {
        name[n] := c;
        n := n + 1;
      }
    }

    method Status()
      requires Valid() && stage == STATUS
      modifies `stage, `n, `code
      ensures Valid() && Now() == H.Status(old(Now()))
    {
      hide CString, CodeAt, Atoi, Begins;
      var s := CString(name[..n]);
      var at := CodeAt(s);
      if !Begins(s) || at.None? {
        stage := BROKEN;
      } else {
        code := Atoi(s[at.value..]);
        stage, n := NAME, 0;
      }
    }

    method Named()
      requires Valid() && stage == NAME
      modifies `stage, `takeLoc, `takeLen
      ensures Valid() && Now() == H.Named(old(Now()), Cap())
    {
      hide CString, Is;
      var s := CString(name[..n]);
      OneName(s);
      takeLen := HdrIs(s, CONTENT_LENGTH);
      takeLoc := false;
      if location != null && location[0] == '\0' {
        assert location[..|placed| + 1][0] == '\0';
        takeLoc := HdrIs(s, LOCATION);
      }
      stage := VALUE_WS;
    }

    method FeedValue(c: char)
      requires Valid() && stage == VALUE
      modifies this, name, location
      ensures Valid() && Now() == H.FeedValue(old(Now()), c, Cap())
    {
      if c == '\n' {
        EndValue();
      } else if c == '\r' {
      } else if takeLoc && n + 1 < location.Length {
        location[n] := c;
        n := n + 1;
      } else if takeLen && n + 1 < name.Length {
        name[n] := c;
        n := n + 1;
      }
    }

    method EndValue()
      requires Valid() && stage == VALUE
      modifies this, location
      ensures Valid() && Now() == Valued(old(Now()))
    {
      if takeLoc {
        location[n] := '\0';
        placed := location[..n];
      }
      if takeLen {
        contentLength := Atoi(name[..n]);
      }
      n := 0;
      stage := NAME;
    }
  }
}
