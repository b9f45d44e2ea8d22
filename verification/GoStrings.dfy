/** The parts of Go's strings package that the config parser uses. */
module GoStrings {
  import opened Wrappers

  /** unicode.IsSpace. */
  predicate Space(c: char)
  {
    || '\t' <= c <= '\r' || c == ' ' || c == '\U{0085}' || c == '\U{00A0}' || c == '\U{1680}'
    || '\U{2000}' <= c <= '\U{200A}' || c == '\U{2028}' || c == '\U{2029}' || c == '\U{202F}'
    || c == '\U{205F}' || c == '\U{3000}'
  }

  predicate Quote(c: char)
  {
    c == '"' || c == '\''
  }

  predicate Bracket(c: char)
  {
    c == '[' || c == ']'
  }

  predicate AllIn(cut: char -> bool, s: string)
  {
    forall i | 0 <= i < |s| :: cut(s[i])
  }

  /** Nothing at either end of s would be trimmed. */
  predicate Firm(cut: char -> bool, s: string)
  {
    |s| > 0 && !cut(s[0]) && !cut(s[|s| - 1])
  }

  function TrimLeft(cut: char -> bool, s: string): string
  {
    if s != "" && cut(s[0]) then TrimLeft(cut, s[1..]) else s
  }

  function TrimRight(cut: char -> bool, s: string): string
  {
    if s != "" && cut(s[|s| - 1]) then TrimRight(cut, s[..|s| - 1]) else s
  }

  /** strings.Trim with this cutset, and strings.TrimSpace for Space. */
  function Trim(cut: char -> bool, s: string): string
  {
    TrimRight(cut, TrimLeft(cut, s))
  }

  lemma {:induction false} TrimLeftPasses(cut: char -> bool, a: string, x: string)
    requires x == "" || !cut(x[0])
    ensures TrimLeft(cut, a + x) == TrimLeft(cut, a) + x
  {
    if a == "" {
      assert a + x == x;
    } else if cut(a[0]) {
      assert (a + x)[1..] == a[1..] + x;
      TrimLeftPasses(cut, a[1..], x);
    }
  }

  lemma {:induction false} TrimRightPasses(cut: char -> bool, x: string, b: string)
    requires x == "" || !cut(x[|x| - 1])
    ensures TrimRight(cut, x + b) == x + TrimRight(cut, b)
  {
    if b == "" {
      assert x + b == x;
    } else if cut(b[|b| - 1]) {
      assert (x + b)[..|x + b| - 1] == x + b[..|b| - 1];
      TrimRightPasses(cut, x, b[..|b| - 1]);
    }
  }

  lemma {:induction false} TrimLeftAll(cut: char -> bool, s: string)
    requires AllIn(cut, s)
    ensures TrimLeft(cut, s) == ""
  {
    if s != "" {
      TrimLeftAll(cut, s[1..]);
    }
  }

  lemma {:induction false} TrimRightAll(cut: char -> bool, s: string)
    requires AllIn(cut, s)
    ensures TrimRight(cut, s) == ""
  {
    if s != "" {
      TrimRightAll(cut, s[..|s| - 1]);
    }
  }

  /** Around a firm middle, the two ends are trimmed independently. */
  lemma TrimAround(cut: char -> bool, a: string, x: string, b: string)
    requires Firm(cut, x)
    ensures Trim(cut, a + x + b) == TrimLeft(cut, a) + x + TrimRight(cut, b)
  {
    assert a + x + b == a + (x + b);
    TrimLeftPasses(cut, a, x + b);
    assert TrimLeft(cut, a) + (x + b) == TrimLeft(cut, a) + x + b;
    TrimRightPasses(cut, TrimLeft(cut, a) + x, b);
  }

  /** What is trimmed away is exactly what belongs to the cutset at the ends. */
  lemma TrimExact(cut: char -> bool, a: string, x: string, b: string)
    requires AllIn(cut, a) && AllIn(cut, b) && (x == "" || Firm(cut, x))
    ensures Trim(cut, a + x + b) == x
  {
    TrimLeftAll(cut, a);
    TrimRightAll(cut, b);
    if x == "" {
      assert AllIn(cut, a + x + b);
      TrimLeftAll(cut, a + x + b);
    } else {
      TrimAround(cut, a, x, b);
    }
  }

  /** Trimming drops only cutset characters and leaves none at the ends. */
  lemma TrimLaw(cut: char -> bool, s: string) returns (a: string, b: string)
    ensures AllIn(cut, a) && AllIn(cut, b) && s == a + Trim(cut, s) + b
    ensures Trim(cut, s) == "" || Firm(cut, Trim(cut, s))
  {
    a := TrimLeftLaw(cut, s);
    b := TrimRightLaw(cut, TrimLeft(cut, s));
    assert s == a + (Trim(cut, s) + b);
    assert Trim(cut, s) != "" ==> Trim(cut, s)[0] == TrimLeft(cut, s)[0];
  }

  lemma {:induction false} TrimLeftLaw(cut: char -> bool, s: string) returns (a: string)
    ensures AllIn(cut, a) && s == a + TrimLeft(cut, s)
    ensures TrimLeft(cut, s) == "" || !cut(TrimLeft(cut, s)[0])
  {
    a := "";
    if s != "" && cut(s[0]) {
      var rest := TrimLeftLaw(cut, s[1..]);
      a := [s[0]] + rest;
    }
  }

  lemma {:induction false} TrimRightLaw(cut: char -> bool, s: string) returns (b: string)
    ensures AllIn(cut, b) && s == TrimRight(cut, s) + b
    ensures var t := TrimRight(cut, s); t == "" || !cut(t[|t| - 1])
  {
    b := "";
    if s != "" && cut(s[|s| - 1]) {
      var rest := TrimRightLaw(cut, s[..|s| - 1]);
      b := rest + [s[|s| - 1]];
      assert s == s[..|s| - 1] + [s[|s| - 1]];
    }
  }

  /** strings.Cut(s, ":"). */
  function CutColon(s: string): (r: Option<(string, string)>)
    ensures r == None <==> ':' !in s
    ensures r.Some? ==> s == r.value.0 + ":" + r.value.1 && ':' !in r.value.0
  {
    if s == "" then None
    else if s[0] == ':' then Some(("", s[1..]))
    else
      match CutColon(s[1..])
      case None => None
      case Some((key, value)) => Some(([s[0]] + key, value))
  }

  lemma {:induction false} CutAtFirstColon(key: string, value: string)
    requires ':' !in key
    ensures CutColon(key + ":" + value) == Some((key, value))
  {
    var s := key + ":" + value;
    if key != "" {
      assert s[1..] == key[1..] + ":" + value;
      assert key[0] in key && forall c | c in key[1..] :: c in key;
      CutAtFirstColon(key[1..], value);
      assert key == [key[0]] + key[1..];
    } else {
      assert s[1..] == value;
    }
  }

  /** strings.Split(s, ","). */
  function SplitCommas(s: string): (parts: seq<string>)
    ensures |parts| >= 1
  {
    if s == "" then [""]
    else
      var rest := SplitCommas(s[1..]);
      if s[0] == ',' then [""] + rest else [[s[0]] + rest[0]] + rest[1..]
  }

  function JoinCommas(parts: seq<string>): string
    requires |parts| >= 1
  {
    if |parts| == 1 then parts[0] else parts[0] + "," + JoinCommas(parts[1..])
  }

  /** Splitting undoes joining for parts without commas. */
  lemma {:induction false} SplitUndoesJoin(parts: seq<string>)
    requires |parts| >= 1 && forall i | 0 <= i < |parts| :: ',' !in parts[i]
    ensures SplitCommas(JoinCommas(parts)) == parts
    decreases |parts|, |parts[0]|
  {
    if parts[0] == "" {
      if |parts| > 1 {
        assert JoinCommas(parts)[1..] == JoinCommas(parts[1..]);
        SplitUndoesJoin(parts[1..]);
      }
    } else {
      var shorter := [parts[0][1..]] + parts[1..];
      assert parts[0][0] in parts[0];
      assert forall c | c in parts[0][1..] :: c in parts[0];
      SplitUndoesJoin(shorter);
      assert JoinCommas(parts)[1..] == JoinCommas(shorter);
      assert parts[0] == [parts[0][0]] + shorter[0];
      assert parts == [parts[0]] + shorter[1..];
    }
  }

  /** Joining undoes splitting, and no part holds a comma. */
  lemma {:induction false} JoinUndoesSplit(s: string)
    ensures JoinCommas(SplitCommas(s)) == s
    ensures forall i | 0 <= i < |SplitCommas(s)| :: ',' !in SplitCommas(s)[i]
  {
    if s != "" {
      JoinUndoesSplit(s[1..]);
      var rest := SplitCommas(s[1..]);
      if s[0] == ',' {
        assert ([""] + rest)[1..] == rest;
      } else {
        var parts := [[s[0]] + rest[0]] + rest[1..];
        assert parts[1..] == rest[1..];
        assert JoinCommas(parts) == [s[0]] + JoinCommas(rest);
      }
      assert s == [s[0]] + s[1..];
    }
  }
}
