/** The two spellings of a service list in a config file, and that they mean the same list. */
module ConfigLists {
  import opened Wrappers
  import opened GoStrings
  import opened ServiceNames
  import opened Config
  import opened ConfigBlocks

  /** Spaces and, inside them, quotes around a name. */
  datatype Dressing = Dressing(leadSpace: string, leadQuotes: string, trailQuotes: string, trailSpace: string)

  predicate Fits(d: Dressing)
  {
    AllIn(Space, d.leadSpace) && AllIn(Quote, d.leadQuotes) && AllIn(Quote, d.trailQuotes) && AllIn(Space, d.trailSpace)
  }

  function Dressed(name: string, d: Dressing): string
  {
    d.leadSpace + d.leadQuotes + name + d.trailQuotes + d.trailSpace
  }

  /** Around a whole comma list: spaces, in them quotes, in them brackets. */
  datatype Wrapping = Wrapping(
    lead: string, openQuotes: string, openBrackets: string,
    closeBrackets: string, closeQuotes: string, trail: string)

  predicate Wraps(w: Wrapping)
  {
    && AllIn(Space, w.lead) && AllIn(Quote, w.openQuotes) && AllIn(Bracket, w.openBrackets)
    && AllIn(Bracket, w.closeBrackets) && AllIn(Quote, w.closeQuotes) && AllIn(Space, w.trail)
  }

  predicate AllValid(names: seq<string>)
  {
    forall i | 0 <= i < |names| :: ValidServiceName(names[i])
  }

  predicate AllFit(ds: seq<Dressing>)
  {
    forall i | 0 <= i < |ds| :: Fits(ds[i])
  }

  function DressedAll(names: seq<string>, ds: seq<Dressing>): seq<string>
    requires |names| == |ds|
  {
    seq(|names|, i requires 0 <= i < |names| => Dressed(names[i], ds[i]))
  }

  /** The comma spelling of a list of names. */
  function CommaText(names: seq<string>, ds: seq<Dressing>, w: Wrapping): string
    requires |names| == |ds|
  {
    var inner := if names == [] then "" else JoinCommas(DressedAll(names, ds));
    w.lead + w.openQuotes + w.openBrackets + inner + w.closeBrackets + w.closeQuotes + w.trail
  }

  function KeyText(indent: string, key: string, gap: string, text: string): string
  {
    indent + key + gap + ":" + text
  }

  function ItemText(indent: string, name: string, d: Dressing): string
  {
    indent + "- " + Dressed(name, d)
  }

  ghost predicate SpellsItem(raw: string, name: string)
  {
    exists indent, d :: AllIn(Space, indent) && Fits(d) && raw == ItemText(indent, name, d)
  }

  /** One line for each name, in order, with any blank and comment lines between. */
  ghost predicate SpellsItems(body: seq<string>, names: seq<string>)
  {
    if body == [] then names == []
    else
      var n, last := |body| - 1, body[|body| - 1];
      || (Filler(last) && SpellsItems(body[..n], names))
      || (names != [] && SpellsItem(last, names[|names| - 1]) && SpellsItems(body[..n], names[..|names| - 1]))
  }

  // ---------------------------------------------------------------- names, items and key lines

  lemma NamesAreFirm(name: string)
    requires ValidServiceName(name)
    ensures Firm(Space, name) && Firm(Quote, name) && Firm(Bracket, name) && ',' !in name
  {
    assert forall i | 0 <= i < |name| :: NameChar(name[i]) ==> name[i] != ',';
  }

  /** Undressing a valid name gives that name. */
  lemma UnquoteUndresses(name: string, d: Dressing)
    requires ValidServiceName(name) && Fits(d)
    ensures Unquote(Dressed(name, d)) == name
  {
    NamesAreFirm(name);
    var quoted := d.leadQuotes + name + d.trailQuotes;
    assert Firm(Space, quoted);
    assert Dressed(name, d) == d.leadSpace + quoted + d.trailSpace;
    TrimExact(Space, d.leadSpace, quoted, d.trailSpace);
    TrimExact(Quote, d.leadQuotes, name, d.trailQuotes);
  }

  lemma ItemReads(raw: string, name: string)
    requires ValidServiceName(name) && SpellsItem(raw, name)
    ensures ItemLine(raw) && ItemValue(Trim(Space, raw)) == name
  {
    var indent, d :| AllIn(Space, indent) && Fits(d) && raw == ItemText(indent, name, d);
    NamesAreFirm(name);
    var short := d.(trailSpace := "");
    var line := "- " + Dressed(name, short);
    assert raw == indent + line + d.trailSpace;
    assert line[|line| - 1] == (d.leadQuotes + name + d.trailQuotes)[|d.leadQuotes + name + d.trailQuotes| - 1];
    assert Firm(Space, line);
    TrimExact(Space, indent, line, d.trailSpace);
    assert line[2..] == Dressed(name, short);
    UnquoteUndresses(name, short);
    assert line[0] == '-';
  }

  lemma {:induction false} ItemsSpell(body: seq<string>, names: seq<string>)
    requires AllValid(names) && SpellsItems(body, names)
    ensures NoKeyLines(body) && ItemValues(body) == names
  {
    hide Filler;
    hide SpellsItem;
    hide ItemValue;
    hide Trim;
    if body != [] {
      var n, last := |body| - 1, body[|body| - 1];
      if Filler(last) && SpellsItems(body[..n], names) {
        ItemsSpell(body[..n], names);
      } else {
        ItemsSpell(body[..n], names[..|names| - 1]);
        ItemReads(last, names[|names| - 1]);
        assert names == names[..|names| - 1] + [names[|names| - 1]];
      }
      assert body == body[..n] + [last];
      assert !KeyLine(last);
    }
  }

  lemma KeysAreFirm(key: string)
    requires ListKey(key)
    ensures Firm(Space, key) && ':' !in key && key[0] != '#' && key[0] != '-'
  {
  }

  /** The value of a key line is its text without outer spaces and quotes. */
  lemma KeyLineReads(indent: string, key: string, gap: string, text: string)
    requires ListKey(key) && AllIn(Space, indent) && AllIn(Space, gap)
    ensures var raw := KeyText(indent, key, gap, text);
            KeyLine(raw) && SplitConfigLine(Trim(Space, raw)) == Ok((key, Unquote(text)))
  {
    KeysAreFirm(key);
    hide ListKey;
    var head, rest := key + gap + ":", TrimRight(Space, text);
    assert KeyText(indent, key, gap, text) == indent + head + text;
    assert Firm(Space, head) by { assert head[|head| - 1] == ':'; }
    TrimAround(Space, indent, head, text);
    TrimLeftAll(Space, indent);
    assert Trim(Space, KeyText(indent, key, gap, text)) == head + rest;
    assert head + rest == (key + gap) + ":" + rest;
    assert ':' !in key + gap;
    CutAtFirstColon(key + gap, rest);
    TrimExact(Space, "", key, gap);
    assert "" + key + gap == key + gap;
    TrimAfterRight(Space, text);
    assert (head + rest)[0] == key[0];
  }

  lemma TrimAfterRight(cut: char -> bool, s: string)
    ensures Trim(cut, TrimRight(cut, s)) == Trim(cut, s)
  {
    var t := TrimRight(cut, s);
    var b := TrimRightLaw(cut, s);
    TrimRightAll(cut, b);
    hide TrimLeft;
    hide TrimRight;
    if t == "" {
      TrimLeftAll(cut, s);
      TrimLeftAll(cut, t);
    } else {
      var n := |t| - 1;
      var end := t[n..];
      assert t == t[..n] + end && s == t[..n] + (end + b);
      TrimLeftPasses(cut, t[..n], end);
      TrimLeftPasses(cut, t[..n], end + b);
      assert TrimLeft(cut, s) == TrimLeft(cut, t) + b;
      TrimRightPasses(cut, TrimLeft(cut, t), b);
      TrimRightPasses(cut, TrimLeft(cut, t), "");
    }
  }

  // ---------------------------------------------------------------- the comma spelling

  lemma {:induction false} TrimLeftSkips(cut: char -> bool, a: string, x: string)
    requires AllIn(cut, a)
    ensures TrimLeft(cut, a + x) == TrimLeft(cut, x)
  {
    if a == "" {
      assert a + x == x;
    } else {
      assert (a + x)[1..] == a[1..] + x;
      TrimLeftSkips(cut, a[1..], x);
    }
  }

  lemma {:induction false} TrimRightSkips(cut: char -> bool, x: string, b: string)
    requires AllIn(cut, b)
    ensures TrimRight(cut, x + b) == TrimRight(cut, x)
  {
    if b == "" {
      assert x + b == x;
    } else {
      assert (x + b)[..|x + b| - 1] == x + b[..|b| - 1];
      TrimRightSkips(cut, x, b[..|b| - 1]);
    }
  }

  /** What the three trims leave in front of the first name: spaces, then quotes. */
  lemma LeftEnd(lead: string, q: string, b: string, ls: string, lq: string) returns (s': string, q': string)
    requires AllIn(Space, lead) && AllIn(Quote, q) && AllIn(Bracket, b) && AllIn(Space, ls) && AllIn(Quote, lq)
    ensures AllIn(Space, s') && AllIn(Quote, q')
    ensures TrimLeft(Bracket, TrimLeft(Quote, TrimLeft(Space, lead + q + b + ls + lq))) == s' + q'
  {
    assert lead + q + b + ls + lq == lead + (q + (b + (ls + lq)));
    TrimLeftSkips(Space, lead, q + (b + (ls + lq)));
    if b != "" {
      assert q + (b + (ls + lq)) != "" && !Space((q + (b + (ls + lq)))[0]);
      TrimLeftSkips(Quote, q, b + (ls + lq));
      TrimLeftSkips(Bracket, b, ls + lq);
      s', q' := ls, lq;
    } else {
      assert b + (ls + lq) == ls + lq;
      if q != "" {
        TrimLeftSkips(Quote, q, ls + lq);
        s', q' := ls, lq;
        if ls == "" {
          assert ls + lq == lq;
          TrimLeftAll(Quote, lq);
          q' := "";
        }
      } else {
        assert q + (ls + lq) == ls + lq;
        TrimLeftSkips(Space, ls, lq);
        TrimLeftAll(Quote, lq);
        s', q' := "", "";
      }
    }
  }

  /** What they leave behind the last name: quotes, then spaces. */
  lemma RightEnd(tq: string, ts: string, b: string, q: string, trail: string) returns (q': string, s': string)
    requires AllIn(Quote, tq) && AllIn(Space, ts) && AllIn(Bracket, b) && AllIn(Quote, q) && AllIn(Space, trail)
    ensures AllIn(Quote, q') && AllIn(Space, s')
    ensures TrimRight(Bracket, TrimRight(Quote, TrimRight(Space, tq + ts + b + q + trail))) == q' + s'
  {
    hide TrimRight;
    TrimRightSkips(Space, tq + ts + b + q, trail);
    TrimRightSkips(Quote, tq + ts + b, q);
    TrimRightSkips(Bracket, tq + ts, b);
    if b != "" {
      var all := tq + ts + b + q;
      assert all[|all| - 1] == if q == "" then b[|b| - 1] else q[|q| - 1];
      assert (tq + ts + b)[|tq + ts + b| - 1] == b[|b| - 1];
      TrimRightStops(Space, all);
      TrimRightStops(Quote, tq + ts + b);
      q', s' := PlainEnd(tq, ts);
    } else {
      assert tq + ts + b == tq + ts;
      if q != "" {
        assert (tq + ts + q)[|tq + ts + q| - 1] == q[|q| - 1];
        TrimRightStops(Space, tq + ts + q);
        q', s' := QuotedEnd(tq, ts);
      } else {
        assert tq + ts + q == tq + ts;
        TrimRightSkips(Space, tq, ts);
        TrimmedQuotes(tq);
        q', s' := "", "";
      }
    }
  }

  lemma TrimRightStops(cut: char -> bool, x: string)
    requires x == "" || !cut(x[|x| - 1])
    ensures TrimRight(cut, x) == x
  {
  }

  lemma PlainEnd(tq: string, ts: string) returns (q': string, s': string)
    requires AllIn(Quote, tq) && AllIn(Space, ts)
    ensures AllIn(Quote, q') && AllIn(Space, s') && TrimRight(Bracket, tq + ts) == q' + s'
  {
    assert tq + ts != "" ==> (tq + ts)[|tq + ts| - 1] == if ts == "" then tq[|tq| - 1] else ts[|ts| - 1];
    TrimRightStops(Bracket, tq + ts);
    q', s' := tq, ts;
  }

  lemma QuotedEnd(tq: string, ts: string) returns (q': string, s': string)
    requires AllIn(Quote, tq) && AllIn(Space, ts)
    ensures AllIn(Quote, q') && AllIn(Space, s') && TrimRight(Bracket, TrimRight(Quote, tq + ts)) == q' + s'
  {
    if ts == "" {
      assert tq + ts == tq;
      TrimRightAll(Quote, tq);
      q', s' := "", "";
    } else {
      assert (tq + ts)[|tq + ts| - 1] == ts[|ts| - 1];
      TrimRightStops(Quote, tq + ts);
      q', s' := PlainEnd(tq, ts);
    }
  }

  /** Quotes alone are trimmed away, whatever spaces or brackets are trimmed first. */
  lemma TrimmedQuotes(tq: string)
    requires AllIn(Quote, tq)
    ensures TrimRight(Bracket, TrimRight(Quote, TrimRight(Space, tq))) == ""
  {
    TrimRightStops(Space, tq);
    TrimRightAll(Quote, tq);
  }

  /** The dressings with other outer ends. */
  function WithEnds(ds: seq<Dressing>, ls: string, lq: string, tq: string, ts: string): seq<Dressing>
    requires |ds| > 0
  {
    var front := ds[0 := ds[0].(leadSpace := ls, leadQuotes := lq)];
    front[|ds| - 1 := front[|ds| - 1].(trailQuotes := tq, trailSpace := ts)]
  }

  lemma {:induction false} JoinFront(x: string, parts: seq<string>)
    requires |parts| >= 1
    ensures JoinCommas(parts[0 := x + parts[0]]) == x + JoinCommas(parts)
  {
    var longer := parts[0 := x + parts[0]];
    if |parts| > 1 {
      assert longer[1..] == parts[1..];
    }
  }

  lemma {:induction false} JoinBack(parts: seq<string>, y: string)
    requires |parts| >= 1
    ensures JoinCommas(parts[|parts| - 1 := parts[|parts| - 1] + y]) == JoinCommas(parts) + y
  {
    var longer := parts[|parts| - 1 := parts[|parts| - 1] + y];
    if |parts| > 1 {
      assert longer[1..] == parts[1..][|parts| - 2 := parts[|parts| - 1] + y];
      JoinBack(parts[1..], y);
    }
  }

  function CoreOf(names: seq<string>, ds: seq<Dressing>): string
    requires |names| == |ds| > 0
  {
    JoinCommas(DressedAll(names, WithEnds(ds, "", "", "", "")))
  }

  lemma EndsDressed(names: seq<string>, ds: seq<Dressing>, ls: string, lq: string, tq: string, ts: string)
    requires |names| == |ds| > 0
    ensures var n, bare := |names| - 1, DressedAll(names, WithEnds(ds, "", "", "", ""));
            var fronted := bare[0 := ls + lq + bare[0]];
            fronted[n := fronted[n] + (tq + ts)] == DressedAll(names, WithEnds(ds, ls, lq, tq, ts))
  {
    var n, bare := |names| - 1, DressedAll(names, WithEnds(ds, "", "", "", ""));
    var fronted := bare[0 := ls + lq + bare[0]];
    var both, all := fronted[n := fronted[n] + (tq + ts)], DressedAll(names, WithEnds(ds, ls, lq, tq, ts));
    forall i | 0 <= i <= n ensures both[i] == all[i] {
      var front, back := if i == 0 then ls + lq else "", if i == n then tq + ts else "";
      assert both[i] == front + bare[i] + back;
      assert all[i] == front + bare[i] + back;
    }
  }

  /** Between its ends, the joined list does not depend on them, and it starts and stops with a name. */
  lemma JoinHasCore(names: seq<string>, ds: seq<Dressing>, ls: string, lq: string, tq: string, ts: string)
    requires |names| == |ds| > 0 && AllValid(names)
    ensures var core := CoreOf(names, ds);
            && JoinCommas(DressedAll(names, WithEnds(ds, ls, lq, tq, ts))) == ls + lq + core + tq + ts
            && Firm(Space, core) && Firm(Quote, core) && Firm(Bracket, core)
  {
    var n := |names| - 1;
    var bare := DressedAll(names, WithEnds(ds, "", "", "", ""));
    var core := JoinCommas(bare);
    JoinFront(ls + lq, bare);
    var fronted := bare[0 := ls + lq + bare[0]];
    JoinBack(fronted, tq + ts);
    var both := fronted[n := fronted[n] + (tq + ts)];
    EndsDressed(names, ds, ls, lq, tq, ts);
    assert JoinCommas(both) == ls + lq + core + (tq + ts);
    NamesAreFirm(names[0]);
    NamesAreFirm(names[n]);
    FirstOfJoin(bare);
    LastOfJoin(bare);
    assert bare[0][0] == names[0][0] && bare[n][|bare[n]| - 1] == names[n][|names[n]| - 1];
  }

  lemma {:induction false} FirstOfJoin(parts: seq<string>)
    requires |parts| >= 1 && parts[0] != ""
    ensures JoinCommas(parts) != "" && JoinCommas(parts)[0] == parts[0][0]
  {
  }

  lemma {:induction false} LastOfJoin(parts: seq<string>)
    requires |parts| >= 1 && parts[|parts| - 1] != ""
    ensures JoinCommas(parts) != ""
    ensures var joined, last := JoinCommas(parts), parts[|parts| - 1]; joined[|joined| - 1] == last[|last| - 1]
  {
    if |parts| > 1 {
      LastOfJoin(parts[1..]);
    }
  }

  lemma {:induction false} ItemsOfDressed(names: seq<string>, ds: seq<Dressing>)
    requires |names| == |ds| && AllValid(names) && AllFit(ds)
    ensures NonEmptyItems(DressedAll(names, ds)) == names
  {
    hide Unquote;
    hide Dressed;
    hide ValidServiceName;
    hide Fits;
    if names != [] {
      var n := |names| - 1;
      ItemsOfDressed(names[..n], ds[..n]);
      assert DressedAll(names, ds)[..n] == DressedAll(names[..n], ds[..n]);
      UnquoteUndresses(names[n], ds[n]);
      NamesAreFirm(names[n]);
      assert names == names[..n] + [names[n]];
    }
  }

  lemma NoCommas(names: seq<string>, ds: seq<Dressing>)
    requires |names| == |ds| && AllValid(names) && AllFit(ds)
    ensures forall i | 0 <= i < |names| :: ',' !in DressedAll(names, ds)[i]
  {
    forall i | 0 <= i < |names| ensures ',' !in DressedAll(names, ds)[i] {
      NamesAreFirm(names[i]);
      NoCommaDressed(names[i], ds[i]);
    }
  }

  lemma NoCommaDressed(name: string, d: Dressing)
    requires ',' !in name && Fits(d)
    ensures ',' !in Dressed(name, d)
  {
  }

  lemma SpellingWithoutNames(w: Wrapping)
    requires Wraps(w)
    ensures Unquote(CommaText([], [], w)) == w.openBrackets + w.closeBrackets
    ensures Services(w.openBrackets + w.closeBrackets) == []
  {
    var brackets := w.openBrackets + w.closeBrackets;
    var quoted := w.openQuotes + brackets + w.closeQuotes;
    assert CommaText([], [], w) == w.lead + quoted + w.trail;
    assert quoted == "" || Firm(Space, quoted);
    TrimExact(Space, w.lead, quoted, w.trail);
    assert brackets == "" || Firm(Quote, brackets);
    TrimExact(Quote, w.openQuotes, brackets, w.closeQuotes);
    TrimLeftAll(Bracket, brackets);
  }

  /** A comma spelling of valid names is read as exactly those names. */
  lemma CommaTextReads(names: seq<string>, ds: seq<Dressing>, w: Wrapping)
    requires |names| == |ds| && AllValid(names) && AllFit(ds) && Wraps(w)
    ensures Services(Unquote(CommaText(names, ds, w))) == names
  {
    if names == [] {
      SpellingWithoutNames(w);
    } else {
      var left, core, right := TextHasCore(names, ds, w);
      var ends, l, r := TrimmedText(names, ds, w);
      hide CommaText;
      hide Unquote;
      JoinedReads(names, ends, l, core, r);
    }
  }

  lemma TextHasCore(names: seq<string>, ds: seq<Dressing>, w: Wrapping) returns (left: string, core: string, right: string)
    requires |names| == |ds| > 0 && AllValid(names)
    ensures core == CoreOf(names, ds) && Firm(Space, core) && Firm(Quote, core) && Firm(Bracket, core)
    ensures var a, b := ds[0], ds[|ds| - 1];
            && left == w.lead + w.openQuotes + w.openBrackets + a.leadSpace + a.leadQuotes
            && right == b.trailQuotes + b.trailSpace + w.closeBrackets + w.closeQuotes + w.trail
    ensures CommaText(names, ds, w) == left + core + right
  {
    var a, b := ds[0], ds[|ds| - 1];
    core := CoreOf(names, ds);
    JoinHasCore(names, ds, a.leadSpace, a.leadQuotes, b.trailQuotes, b.trailSpace);
    assert WithEnds(ds, a.leadSpace, a.leadQuotes, b.trailQuotes, b.trailSpace) == ds;
    hide JoinCommas;
    hide DressedAll;
    left := w.lead + w.openQuotes + w.openBrackets + a.leadSpace + a.leadQuotes;
    right := b.trailQuotes + b.trailSpace + w.closeBrackets + w.closeQuotes + w.trail;
    hide WithEnds;
    Regroup(w.lead + w.openQuotes + w.openBrackets, a.leadSpace, a.leadQuotes, core,
            b.trailQuotes, b.trailSpace, w.closeBrackets, w.closeQuotes, w.trail);
  }

  lemma Regroup(front: string, a: string, b: string, core: string, c: string, d: string, e: string, f: string, g: string)
    ensures front + (a + b + core + c + d) + e + f + g == (front + a + b) + core + (c + d + e + f + g)
  {
    assert (a + b + core + c + d) == a + b + core + (c + d);
    assert front + (a + b + core + (c + d)) == (front + a + b) + core + (c + d);
    var left := (front + a + b) + core;
    assert left + (c + d) + e + f + g == left + (c + d + e + f + g);
  }

  lemma EndsFit(ds: seq<Dressing>, ls: string, lq: string, tq: string, ts: string)
    requires |ds| > 0 && AllFit(ds) && AllIn(Space, ls) && AllIn(Quote, lq) && AllIn(Quote, tq) && AllIn(Space, ts)
    ensures |WithEnds(ds, ls, lq, tq, ts)| == |ds| && AllFit(WithEnds(ds, ls, lq, tq, ts))
  {
  }

  /** The three trims turn a comma text into a plain join of the names with fitting dressings. */
  lemma TrimmedText(names: seq<string>, ds: seq<Dressing>, w: Wrapping) returns (ends: seq<Dressing>, l: string, r: string)
    requires |names| == |ds| > 0 && AllValid(names) && AllFit(ds) && Wraps(w)
    ensures |ends| == |ds| && AllFit(ends)
    ensures JoinCommas(DressedAll(names, ends)) == l + CoreOf(names, ds) + r
    ensures Trim(Bracket, Unquote(CommaText(names, ds, w))) == l + CoreOf(names, ds) + r
  {
    hide *;
    var a, b := ds[0], ds[|ds| - 1];
    var left, core, right := TextHasCore(names, ds, w);
    ThreeTrims(left, core, right);
    EndsAre(ds, w);
    var s0, q0 := LeftEnd(w.lead, w.openQuotes, w.openBrackets, a.leadSpace, a.leadQuotes);
    var q1, s1 := RightEnd(b.trailQuotes, b.trailSpace, w.closeBrackets, w.closeQuotes, w.trail);
    JoinHasCore(names, ds, s0, q0, q1, s1);
    EndsFit(ds, s0, q0, q1, s1);
    ends, l, r := WithEnds(ds, s0, q0, q1, s1), s0 + q0, q1 + s1;
    assert s0 + q0 + core + (q1 + s1) == s0 + q0 + core + q1 + s1;
  }

  lemma EndsAre(ds: seq<Dressing>, w: Wrapping)
    requires |ds| > 0 && AllFit(ds) && Wraps(w)
    ensures var a, b := ds[0], ds[|ds| - 1];
            && AllIn(Space, a.leadSpace) && AllIn(Quote, a.leadQuotes) && AllIn(Quote, b.trailQuotes) && AllIn(Space, b.trailSpace)
            && AllIn(Space, w.lead) && AllIn(Quote, w.openQuotes) && AllIn(Bracket, w.openBrackets)
            && AllIn(Bracket, w.closeBrackets) && AllIn(Quote, w.closeQuotes) && AllIn(Space, w.trail)
  {
    assert Fits(ds[0]) && Fits(ds[|ds| - 1]);
  }

  lemma ThreeTrims(left: string, core: string, right: string)
    requires Firm(Space, core) && Firm(Quote, core) && Firm(Bracket, core)
    ensures Trim(Bracket, Unquote(left + core + right))
         == TrimLeft(Bracket, TrimLeft(Quote, TrimLeft(Space, left))) + core
          + TrimRight(Bracket, TrimRight(Quote, TrimRight(Space, right)))
  {
    TrimAround(Space, left, core, right);
    TrimAround(Quote, TrimLeft(Space, left), core, TrimRight(Space, right));
    TrimAround(Bracket, TrimLeft(Quote, TrimLeft(Space, left)), core, TrimRight(Quote, TrimRight(Space, right)));
  }

  lemma JoinedReads(names: seq<string>, ds: seq<Dressing>, left: string, core: string, right: string)
    requires |names| == |ds| > 0 && AllValid(names) && AllFit(ds)
    requires Firm(Space, core) && JoinCommas(DressedAll(names, ds)) == left + core + right
    ensures Trim(Space, left + core + right) != ""
    ensures NonEmptyItems(SplitCommas(left + core + right)) == names
  {
    TrimAround(Space, left, core, right);
    ItemsOfDressed(names, ds);
    NoCommas(names, ds);
    SplitUndoesJoin(DressedAll(names, ds));
  }

  // ---------------------------------------------------------------- both spellings

  /** A comma spelling is a block that sets the list to the names. */
  lemma CommaSpelling(ps: Parsers, key: string, indent: string, gap: string, names: seq<string>, ds: seq<Dressing>, w: Wrapping)
    requires ListKey(key) && AllIn(Space, indent) && AllIn(Space, gap)
    requires |names| == |ds| && AllValid(names) && AllFit(ds) && Wraps(w)
    ensures var block := [KeyText(indent, key, gap, CommaText(names, ds, w))];
            IsBlock(block) && FieldOf(key).Some? && BlockSetting(ps, block) == Some(Setting(key, FieldOf(key).value, Names(names)))
  {
    var text := CommaText(names, ds, w);
    KeyLineReads(indent, key, gap, text);
    CommaTextReads(names, ds, w);
    hide CommaText;
    hide KeyText;
    OneLineSetting(ps, KeyText(indent, key, gap, text), key, Unquote(text));
  }

  lemma OneLineSetting(ps: Parsers, raw: string, key: string, value: string)
    requires ListKey(key) && KeyLine(raw) && SplitConfigLine(Trim(Space, raw)) == Ok((key, value))
    ensures IsBlock([raw]) && FieldOf(key).Some?
    ensures BlockSetting(ps, [raw]) == Some(Setting(key, FieldOf(key).value, Names(Services(value))))
  {
    ListValue(ps, key, value);
    hide KeyLine;
    hide SplitConfigLine;
    hide Trim;
    hide Services;
    hide FieldOf;
    hide ListKey;
    hide ReadValue;
    assert [raw][1..] == [];
  }

  lemma ListValue(ps: Parsers, key: string, value: string)
    requires ListKey(key)
    ensures FieldOf(key).Some? && ReadValue(ps, FieldOf(key).value, value) == Some(Names(Services(value)))
  {
    ListKeysHaveFields(key);
    hide FieldOf;
    hide Services;
  }

  /** So is a key line without a value, followed by one item line for each name. */
  lemma ItemSpelling(ps: Parsers, key: string, indent: string, gap: string, w: Wrapping, body: seq<string>, names: seq<string>)
    requires ListKey(key) && AllIn(Space, indent) && AllIn(Space, gap)
    requires Wraps(w) && w.openBrackets == "" && w.closeBrackets == ""
    requires AllValid(names) && SpellsItems(body, names)
    ensures var block := [KeyText(indent, key, gap, CommaText([], [], w))] + body;
            IsBlock(block) && FieldOf(key).Some? && BlockSetting(ps, block) == Some(Setting(key, FieldOf(key).value, Names(names)))
  {
    var text := CommaText([], [], w);
    KeyLineReads(indent, key, gap, text);
    SpellingWithoutNames(w);
    assert w.openBrackets + w.closeBrackets == "";
    ItemsSpell(body, names);
    EmptyListIsEmpty(ps, key);
    assert "" !in names;
    hide CommaText;
    hide KeyLine;
    hide SplitConfigLine;
    hide Unquote;
    hide Trim;
    hide Services;
    hide KeyText;
    hide FieldOf;
    hide ListKey;
    hide ReadValue;
    hide SpellsItems;
    assert ([KeyText(indent, key, gap, text)] + body)[1..] == body;
  }

  ghost predicate SpellsWithCommas(block: seq<string>, key: string, names: seq<string>)
  {
    exists indent, gap, ds, w ::
      && AllIn(Space, indent) && AllIn(Space, gap) && |ds| == |names| && AllFit(ds) && Wraps(w)
      && block == [KeyText(indent, key, gap, CommaText(names, ds, w))]
  }

  ghost predicate SpellsWithItems(block: seq<string>, key: string, names: seq<string>)
  {
    exists indent, gap, w, body ::
      && AllIn(Space, indent) && AllIn(Space, gap) && Wraps(w) && w.openBrackets == "" && w.closeBrackets == ""
      && SpellsItems(body, names)
      && block == [KeyText(indent, key, gap, CommaText([], [], w))] + body
  }

  const PLAIN := Dressing("", "", "", "")
  const UNWRAPPED := Wrapping("", "", "", "", "", "")

  function PlainItems(names: seq<string>): seq<string>
  {
    if names == [] then []
    else PlainItems(names[..|names| - 1]) + [ItemText("", names[|names| - 1], PLAIN)]
  }

  lemma {:induction false} PlainItemsSpell(names: seq<string>)
    ensures SpellsItems(PlainItems(names), names)
  {
    if names != [] {
      var n, body := |names| - 1, PlainItems(names);
      PlainItemsSpell(names[..n]);
      assert body[..|body| - 1] == PlainItems(names[..n]) && body[|body| - 1] == ItemText("", names[n], PLAIN);
      assert SpellsItem(body[|body| - 1], names[n]);
      hide SpellsItem, ItemText;
    }
  }

  /** Every list, the empty one too, has both spellings. */
  lemma EveryListHasBothSpellings(key: string, names: seq<string>) returns (commas: seq<string>, items: seq<string>)
    ensures SpellsWithCommas(commas, key, names) && SpellsWithItems(items, key, names)
  {
    var ds := seq(|names|, i => PLAIN);
    commas := [KeyText("", key, "", CommaText(names, ds, UNWRAPPED))];
    items := [KeyText("", key, "", CommaText([], [], UNWRAPPED))] + PlainItems(names);
    PlainItemsSpell(names);
    hide KeyText, CommaText, SpellsItems, PlainItems;
    assert AllIn(Space, "") && AllFit(ds) && Wraps(UNWRAPPED);
  }

  /** Either spelling is a block that sets the list to exactly the names. */
  lemma SpelledBlock(ps: Parsers, block: seq<string>, key: string, names: seq<string>)
    requires ListKey(key) && AllValid(names) && (SpellsWithCommas(block, key, names) || SpellsWithItems(block, key, names))
    ensures IsBlock(block) && FieldOf(key).Some? && BlockSetting(ps, block) == Some(Setting(key, FieldOf(key).value, Names(names)))
  {
    hide BlockSetting, IsBlock, CommaText, KeyText, SpellsItems, FieldOf, ListKey, Wraps, AllFit;
    if SpellsWithCommas(block, key, names) {
      var indent, gap, ds, w :| AllIn(Space, indent) && AllIn(Space, gap) && |ds| == |names| && AllFit(ds) && Wraps(w)
        && block == [KeyText(indent, key, gap, CommaText(names, ds, w))];
      CommaSpelling(ps, key, indent, gap, names, ds, w);
    } else {
      var indent, gap, w, body :| AllIn(Space, indent) && AllIn(Space, gap) && Wraps(w)
        && w.openBrackets == "" && w.closeBrackets == "" && SpellsItems(body, names)
        && block == [KeyText(indent, key, gap, CommaText([], [], w))] + body;
      ItemSpelling(ps, key, indent, gap, w, body, names);
    }
  }

  /** Anywhere in any file, one spelling of a list may stand for the other. */
  lemma SpellingsAreInterchangeable(ps: Parsers, preface: seq<string>, blocks: seq<seq<string>>, k: nat,
                                    key: string, names: seq<string>, commas: seq<string>, items: seq<string>, cfg: Config)
    requires NoKeyLines(preface) && AreBlocks(blocks) && k < |blocks| && ListKey(key) && AllValid(names)
    requires SpellsWithCommas(commas, key, names) && SpellsWithItems(items, key, names)
    ensures var x, y := Parsed(ps, preface + Flatten(blocks[k := commas]), cfg), Parsed(ps, preface + Flatten(blocks[k := items]), cfg);
            (x.Ok? <==> y.Ok?) && (x.Ok? ==> x == y)
  {
    hide *;
    SpelledBlock(ps, commas, key, names);
    SpelledBlock(ps, items, key, names);
    SameSettingSameFile(ps, preface, blocks, k, commas, items, cfg);
  }

  lemma SameSettingSameFile(ps: Parsers, preface: seq<string>, blocks: seq<seq<string>>, k: nat,
                            one: seq<string>, other: seq<string>, cfg: Config)
    requires NoKeyLines(preface) && AreBlocks(blocks) && k < |blocks| && IsBlock(one) && IsBlock(other)
    requires BlockSetting(ps, one) == BlockSetting(ps, other)
    ensures var x, y := Parsed(ps, preface + Flatten(blocks[k := one]), cfg), Parsed(ps, preface + Flatten(blocks[k := other]), cfg);
            (x.Ok? <==> y.Ok?) && (x.Ok? ==> x == y)
  {
    hide IsBlock;
    hide BlockSetting;
    ParsedByBlocks(ps, preface, blocks[k := one], cfg);
    ParsedByBlocks(ps, preface, blocks[k := other], cfg);
    hide Parsed;
    hide Flatten;
    var a, b := blocks[k := one], blocks[k := other];
    assert forall i | 0 <= i < |blocks| :: BlockSetting(ps, a[i]) == BlockSetting(ps, b[i]);
    if AllRead(ps, a) {
      assert Settings(ps, a) == Settings(ps, b);
    }
  }

  /** A file that holds nothing but a list of valid names, in either spelling, sets the list to exactly these names. */
  lemma SpelledListIsRead(ps: Parsers, block: seq<string>, key: string, names: seq<string>, cfg: Config)
    requires ListKey(key) && AllValid(names) && (SpellsWithCommas(block, key, names) || SpellsWithItems(block, key, names))
    ensures FieldOf(key).Some? && Parsed(ps, block, cfg) == Ok(cfg[FieldOf(key).value := Names(names)])
  {
    SpelledBlock(ps, block, key, names);
    hide SpellsWithCommas, SpellsWithItems, FieldOf, ListKey;
    OneBlockFile(ps, block, Setting(key, FieldOf(key).value, Names(names)), cfg);
  }

  lemma OneBlockFile(ps: Parsers, block: seq<string>, setting: Setting, cfg: Config)
    requires IsBlock(block) && BlockSetting(ps, block) == Some(setting)
    ensures Parsed(ps, block, cfg) == Ok(cfg[setting.field := setting.value])
  {
    ParsedByBlocks(ps, [], [block], cfg);
    assert [block][..0] == [];
    assert [] + Flatten([block]) == block;
    hide IsBlock;
    hide BlockSetting;
    assert Settings(ps, [block]) == [setting];
    assert [setting][..0] == [];
  }
}
