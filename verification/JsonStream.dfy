/** The stream parser as it runs: a fixed buffer and fixed keys, changed byte
    by byte, against the steps that JsonPush describes. */
module JsonStream {
  import opened Text
  import opened JsonTree
  import opened P = JsonPush

  class Parser {
    const keys: array<string>
    var objects: seq<bool>
    var depth: Level
    var str: bool
    var esc: bool
    var bare: bool
    var wantKey: bool
    var cut: bool
    var hex: nat
    const buf: array<char>
    var n: nat
    var calls: seq<Call>

    ghost predicate Held()
      reads this, keys, buf
    {
      keys.Length == MAX_DEPTH && buf.Length == VALUE_LEN && n < VALUE_LEN && P.Valid(Now())
    }

    ghost function Now(): State
      reads this, keys, buf
      requires n <= buf.Length
    {
      State(keys[..], objects, depth, str, esc, bare, wantKey, cut, hex, buf[..n], calls)
    }

    constructor ()
      ensures Held() && Now() == P.Fresh() && fresh(keys) && fresh(buf)
    {
      keys := new string[MAX_DEPTH](i => "");
      buf := new char[VALUE_LEN];
      objects := [false, false, false, false, false, false, false, false];
      depth, str, esc, bare, wantKey, cut, hex, n, calls := 0, false, false, false, false, false, 0, 0, [];
    }

    method Feed(c: char)
      requires Held()
      modifies this, keys, buf
      ensures Held() && Now() == P.Feed(old(Now()), c)
    {
      if str {
        InString(c);
        return;
      }
      if c == '"' {
        Scalar();
        str, n, cut := true, 0, false;
      } else if c == '{' || c == '[' {
        Scalar();
        Open(c == '{');
      } else if c == '}' || c == ']' {
        Scalar();
        Close(c == '}');
      } else if c == ',' {
        Scalar();
        wantKey := 1 <= depth <= 8 && objects[depth - 1];
      } else if c == ':' {
        wantKey := false;
      } else if IsSpace(c) {
        Scalar();
      } else {
        Bare(c);
      }
    }

    method Close(members: bool)
      requires Held()
      modifies `depth, `calls
      ensures Held() && Now() == P.Closed(old(Now()), members)
    {
      if members {
        Report(None);
      }
      depth := if depth > 0 then depth - 1 else 0;
    }

    method Bare(c: char)
      requires Held()
      modifies `n, `cut, `bare, buf
      ensures Held() && Now() == P.Bare(old(Now()), c)
    {
      if n == 0 {
        cut := false;
      }
      Put(c);
      bare := true;
    }

    method Report(value: Option<string>)
      requires Held()
      modifies `calls
      ensures Held() && Now() == P.Report(old(Now()), value)
    {
      if 1 <= depth <= MAX_DEPTH {
        calls := calls + [Call(depth, keys[..depth], value, cut)];
      }
    }

    method Put(c: char)
      requires Held()
      modifies `n, `cut, buf
      ensures Held() && Now() == P.Put(old(Now()), c)
    {
      if n + 1 < VALUE_LEN {
        buf[n] := c;
        n := n + 1;
      } else {
        cut := true;
      }
    }

    method Scalar()
      requires Held()
      modifies `bare, `n, `calls
      ensures Held() && Now() == P.Scalar(old(Now()))
    {
      if bare {
        bare := false;
        Report(Some(buf[..n]));
        n := 0;
      }
    }

    method Open(members: bool)
      requires Held()
      modifies `depth, `objects, `wantKey, keys
      ensures Held() && Now() == P.Opened(old(Now()), members)
    {
      if depth == 255 {
        return;
      }
      depth := depth + 1;
      if depth <= 8 {
        objects := objects[depth - 1 := members];
      }
      if depth <= MAX_DEPTH {
        keys[depth - 1] := "";
      }
      wantKey := members;
    }

    method InString(c: char)
      requires Held()
      modifies this, keys, buf
      ensures Held() && Now() == P.InString(old(Now()), c)
    {
      if hex > 0 {
        hex := hex - 1;
      } else if esc {
        esc := false;
        if c == 'u' {
          hex := 4;
          Put('?');
        } else {
          Put(c);
        }
      } else if c == '\\' {
        esc := true;
      } else if c != '"' {
        Put(c);
      } else {
        str := false;
        if wantKey {
          if 1 <= depth <= MAX_DEPTH {
            keys[depth - 1] := CutKey(buf[..n]);
          }
          wantKey := false;
        } else {
          Report(Some(buf[..n]));
        }
        n := 0;
      }
    }
  }
}
